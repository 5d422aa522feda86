/** Values every part of the model shares: `Option`, bytes and 64-bit checked arithmetic. */
module Machine {
  datatype Option<+T> = None | Some(value: T) {
    predicate IsFailure() {
      None?
    }

    function PropagateFailure<U>(): Option<U>
      requires None?
    {
      None
    }

    function Extract(): T
      requires Some?
    {
      value
    }

    function UnwrapOr(default: T): T {
      if Some? then value else default
    }
  }

  type Byte = b: int | 0 <= b < 256

  const TWO32: nat := 0x1_0000_0000
  const TWO64: nat := 0x1_0000_0000_0000_0000
  const U64_MAX: nat := 0xFFFF_FFFF_FFFF_FFFF

  // The x86_64 direct map: where the kernel sees physical address zero.
  const KERNEL_BASE: nat := 0xFFFF_8000_0000_0000

  // The one physical address whose translation is null, in a build without overflow checks.
  const NULL_PHYS: nat := TWO64 - KERNEL_BASE

  type U64 = v: int | 0 <= v <= U64_MAX

  // usize is 64 bits wide.
  function CheckedAdd(a: nat, b: nat): Option<nat> {
    if a + b <= U64_MAX then Some(a + b) else None
  }

  function CheckedMul(a: nat, b: nat): Option<nat> {
    if a * b <= U64_MAX then Some(a * b) else None
  }

  function SaturatingAdd(a: nat, b: nat): nat {
    if a + b <= U64_MAX then a + b else U64_MAX
  }

  function Pow2(n: nat): (p: nat)
    ensures p > 0
  {
    if n == 0 then 1 else 2 * Pow2(n - 1)
  }

  lemma {:induction false} Pow2Adds(m: nat, n: nat)
    ensures Pow2(m + n) == Pow2(m) * Pow2(n)
    decreases m
  {
    if m > 0 {
      Pow2Adds(m - 1, n);
    }
  }

  lemma MulAtLeast(k: int, d: nat)
    requires k >= 1
    ensures k * d >= d
  {
  }

  // `phys_to_virt`.
  function PhysToVirt(phys: U64): U64 {
    (phys + KERNEL_BASE) % TWO64
  }

  lemma NullTranslation(phys: U64)
    ensures PhysToVirt(phys) == 0 <==> phys == NULL_PHYS
  {
  }

  function Min(a: nat, b: nat): nat {
    if a <= b then a else b
  }
}
