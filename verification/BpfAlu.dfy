/** What the interpreter's ALU operations compute, by the laws that determine them. */
module BpfAlu {
  import opened Machine
  import opened BpfIsa

  /** AND and OR together hold the bits of both operands, AND no more than either; XOR holds those that differ. */
  lemma {:induction false} BitLaws(a: nat, b: nat, n: nat)
    requires a < Pow2(n) && b < Pow2(n)
    ensures BitOp(AND, a, b, n) + BitOp(OR, a, b, n) == a + b
    ensures BitOp(AND, a, b, n) <= a && BitOp(AND, a, b, n) <= b
    ensures BitOp(XOR, a, b, n) + BitOp(AND, a, b, n) == BitOp(OR, a, b, n) < Pow2(n)
    decreases n
  {
    if n > 0 {
      BitLaws(a / 2, b / 2, n - 1);
      BitStep(AND, a, b, n);
      BitStep(OR, a, b, n);
      BitStep(XOR, a, b, n);
      assert a == 2 * (a / 2) + a % 2 && b == 2 * (b / 2) + b % 2;
    }
  }

  lemma BitStep(op: nat, a: nat, b: nat, n: nat)
    requires n > 0
    ensures var x, y := a % 2 == 1, b % 2 == 1;
            BitOp(op, a, b, n) == 2 * BitOp(op, a / 2, b / 2, n - 1) +
            if (if op == OR then x || y else if op == AND then x && y else x != y) then 1 else 0
  {
  }

  lemma Pow32()
    ensures Pow2(32) == TWO32
  {
    assert Pow2(4) == 16;
    hide Pow2;
    Pow2Adds(4, 4);
    Pow2Adds(8, 8);
    Pow2Adds(16, 16);
  }

  lemma Pow64()
    ensures Pow2(64) == TWO64
  {
    hide Pow2;
    Pow32();
    Pow2Adds(32, 32);
  }

  /** The logic operations of two registers. */
  lemma LogicMeaning(is64: bool, a: U64, b: U64, imm: I32)
    ensures var x, y, z := AluResult(AND, is64, a, b, imm), AluResult(OR, is64, a, b, imm), AluResult(XOR, is64, a, b, imm);
            x + y == a + b && x <= a && x <= b && z == y - x
  {
    hide BitOp, Pow2;
    Pow64();
    BitLaws(a, b, 64);
  }

  /** Sums, differences, products and negation are exact up to a multiple of 2^64. */
  lemma ArithmeticMeaning(is64: bool, a: U64, b: U64, imm: I32)
    ensures AluResult(ADD, is64, a, b, imm) == if a + b < TWO64 then a + b else a + b - TWO64
    ensures AluResult(SUB, is64, a, b, imm) == if a >= b then a - b else a - b + TWO64
    ensures AluResult(NEG, is64, a, b, imm) == if a == 0 then 0 else TWO64 - a
    ensures exists q :: a * b == TWO64 * q + AluResult(MUL, is64, a, b, imm)
    ensures AluResult(MOV, is64, a, b, imm) == b
  {
    hide BitOp, Pow2;
    var p := a * b;
    assert p == TWO64 * (p / TWO64) + p % TWO64;
  }

  /** Division and remainder belong together; by zero both give zero. */
  lemma DivisionMeaning(is64: bool, a: U64, b: U64, imm: I32)
    ensures var q, r := AluResult(DIV, is64, a, b, imm), AluResult(MOD, is64, a, b, imm);
            if b == 0 then q == 0 && r == 0 else a == q * b + r && 0 <= r < b
  {
    hide BitOp, Pow2;
    if b != 0 {
      DivMod(a, b);
    }
  }

  lemma DivMod(a: nat, b: nat)
    requires b > 0
    ensures a == a / b * b + a % b && 0 <= a % b < b
  {
  }

  /** A shift to the right is a division by the power of two that the low six bits name; one to the left a product. */
  lemma ShiftMeaning(is64: bool, a: U64, b: U64, imm: I32)
    ensures var p, r := Pow2(b % 64), AluResult(RSH, is64, a, b, imm); r * p <= a < (r + 1) * p
    ensures exists q :: a * Pow2(b % 64) == TWO64 * q + AluResult(LSH, is64, a, b, imm)
  {
    hide BitOp, Pow2;
    LowBits(b);
    var p := Pow2(b % 64);
    DivMod(a, p);
    assert AluResult(RSH, is64, a, b, imm) == a / p;
    NextMultiple(a / p, p);
    var x := a * p;
    assert x == TWO64 * (x / TWO64) + x % TWO64;
    assert AluResult(LSH, is64, a, b, imm) == x % TWO64;
  }

  lemma NextMultiple(q: nat, p: nat)
    ensures (q + 1) * p == q * p + p
  {
  }

  lemma LowBits(b: nat)
    ensures b % TWO32 % 64 == b % 64
  {
    var q := b / TWO32;
    assert b == 64 * (0x400_0000 * q) + b % TWO32;
  }

  /** An arithmetic shift divides the signed value, rounding down: all 64 bits of it, or the low 32. */
  lemma ArithmeticShiftMeaning(a: U64, b: U64, imm: I32)
    ensures var p, r := Pow2(b % 64), Signed64(AluResult(ARSH, true, a, b, imm)); r * p <= Signed64(a) < (r + 1) * p
    ensures var p, r := Pow2(b % 32), Signed64(AluResult(ARSH, false, a, b, imm)); r * p <= Signed32(a) < (r + 1) * p
  {
    hide BitOp, Pow2;
    LowBits(b);
    LowFive(b);
    SignedQuotient(Signed64(a), Pow2(b % 64));
    SignedQuotient(Signed32(a), Pow2(b % 32));
  }

  lemma LowFive(b: nat)
    ensures b % TWO32 % 32 == b % 32
  {
    var q := b / TWO32;
    assert b == 32 * (0x800_0000 * q) + b % TWO32;
  }

  lemma SignedQuotient(v: int, p: nat)
    requires p > 0 && 0 - TWO64 / 2 <= v < TWO64 / 2
    ensures var r := Signed64(Wrap64(v / p)); r == v / p && r * p <= v < (r + 1) * p
  {
    var q := v / p;
    assert v == q * p + v % p;
    assert (q + 1) * p == q * p + p;
    QuotientBound(v, p, q);
  }

  lemma QuotientBound(v: int, p: nat, q: int)
    requires p > 0 && q * p <= v < (q + 1) * p
    ensures if v >= 0 then 0 <= q <= v else v <= q < 0
  {
    hide *;
    if q >= 0 {
      Scaled(q, p);
    } else {
      ScaledBelow(q + 1, p);
    }
  }

  lemma Scaled(q: nat, p: nat)
    requires p > 0
    ensures q <= q * p
  {
  }

  lemma ScaledBelow(q: int, p: nat)
    requires p > 0 && q <= 0
    ensures q * p <= q
  {
  }

  /** A byte-order conversion keeps the low bits its immediate names. */
  lemma ConversionMeaning(is64: bool, a: U64, b: U64, imm: I32)
    ensures AluResult(END, is64, a, b, imm) == if imm == 16 then a % 0x1_0000 else if imm == 32 then a % TWO32 else a
  {
    hide BitOp, Pow2;
  }

  /** A wide immediate has its immediate field below and its offset field above; the other such loads give zero. */
  lemma WideImmediateMeaning(insn: Insn)
    ensures insn.op == 0x18 ==> (LdValue(insn) - insn.imm) % TWO32 == 0 && (LdValue(insn) / TWO32 - insn.off) % TWO32 == 0
    ensures insn.op != 0x18 ==> LdValue(insn) == 0
  {
    if insn.op == 0x18 {
      var low, high := insn.imm % TWO32, insn.off % TWO32;
      assert LdValue(insn) == low + high * TWO32;
      assert LdValue(insn) / TWO32 == high;
      assert LdValue(insn) - insn.imm == TWO32 * (high - insn.imm / TWO32);
      assert high - insn.off == TWO32 * (0 - insn.off / TWO32);
    }
  }
}
