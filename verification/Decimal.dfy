/** Decimal text as the kernel writes it, and as Rust's integer parsers read it. */
module Decimal {
  import opened Machine

  const DIGITS_MAX: nat := 20

  function DigitChar(d: nat): (c: char)
    requires d < 10
    ensures '0' <= c <= '9'
  {
    '0' + d as char
  }

  predicate IsDigit(c: char) {
    '0' <= c <= '9'
  }

  function DigitValue(c: char): nat
    requires IsDigit(c)
  {
    (c - '0') as nat
  }

  function Digits(v: nat): (s: string)
    ensures |s| >= 1 && forall i :: 0 <= i < |s| ==> IsDigit(s[i])
  {
    if v < 10 then [DigitChar(v)] else Digits(v / 10) + [DigitChar(v % 10)]
  }

  /** Those digits read as a hexadecimal number. */
  function HexValue(s: string): nat
    requires forall i :: 0 <= i < |s| ==> IsDigit(s[i])
  {
    if s == "" then 0 else 16 * HexValue(s[..|s| - 1]) + DigitValue(s[|s| - 1])
  }

  lemma {:induction false} HexReadsMore(v: nat)
    ensures HexValue(Digits(v)) >= v && (HexValue(Digits(v)) == v <==> v < 10)
  {
    if v >= 10 {
      HexReadsMore(v / 10);
      assert Digits(v)[..|Digits(v)| - 1] == Digits(v / 10);
    } else {
      assert Digits(v)[..0] == "";
    }
  }

  /** Decimal digits after `0x` name the value exactly when there is one digit. */
  lemma HexPrefixIff(v: nat)
    ensures HexValue(Digits(v)) == v <==> v < 10
  {
    hide HexValue, Digits;
    HexReadsMore(v);
  }

  function Pow10(n: nat): nat {
    if n == 0 then 1 else 10 * Pow10(n - 1)
  }

  lemma {:induction false} DigitsLength(v: nat, n: nat)
    requires n >= 1 && v < Pow10(n)
    ensures |Digits(v)| <= n
  {
    if v >= 10 {
      assert n > 1;
      DigitsLength(v / 10, n - 1);
    }
  }

  lemma PowFive(n: nat)
    ensures Pow10(n + 5) == 100_000 * Pow10(n)
  {
    assert Pow10(n + 5) == 10 * Pow10(n + 4) && Pow10(n + 4) == 10 * Pow10(n + 3);
    assert Pow10(n + 3) == 10 * Pow10(n + 2) && Pow10(n + 2) == 10 * Pow10(n + 1);
  }

  lemma PowTwenty()
    ensures Pow10(20) == 100_000_000_000_000_000_000 && Pow10(20) == 10 * Pow10(19)
  {
    PowFive(0);
    PowFive(5);
    PowFive(10);
    PowFive(15);
  }

  /** No u64 needs more than the 20 bytes of the scratch buffer. */
  lemma U64Digits(v: nat)
    requires v <= U64_MAX
    ensures |Digits(v)| <= DIGITS_MAX
  {
    hide Pow10, Digits;
    PowTwenty();
    DigitsLength(v, 20);
  }

  /** The digit loop every writer shares: fills a 20-byte scratch buffer from the right. */
  method FillDigits(val: nat) returns (tmp: array<char>, start: nat)
    requires 0 < val <= U64_MAX
    ensures fresh(tmp) && tmp.Length == DIGITS_MAX && start <= DIGITS_MAX
    ensures tmp[start..] == Digits(val)
  {
    tmp := new char[DIGITS_MAX](_ => '\0');
    var i := DIGITS_MAX;
    var v := val;
    U64Digits(val);
    while v > 0 && i > 0
      invariant 0 <= i <= DIGITS_MAX && 0 <= v <= val
      invariant v > 0 ==> Digits(val) == Digits(v) + tmp[i..] && |Digits(v)| <= i
      invariant v == 0 ==> Digits(val) == tmp[i..]
    {
      ghost var done := tmp[i..];
      i := i - 1;
      tmp[i] := DigitChar(v % 10);
      assert tmp[i..] == [DigitChar(v % 10)] + done;
      if v >= 10 {
        assert Digits(v) + done == Digits(v / 10) + ([DigitChar(v % 10)] + done);
      } else {
        assert Digits(v) + done == [DigitChar(v)] + done;
      }
      v := v / 10;
    }
    assert v == 0;
    start := i;
  }

  // ---- reading -------------------------------------------------------------------------

  predicate AllDigits(s: string) {
    forall i :: 0 <= i < |s| ==> IsDigit(s[i])
  }

  /** The number a digit string continues from `acc`. */
  function NumberOf(s: string, acc: nat): nat
    requires AllDigits(s)
  {
    if s == [] then acc else NumberOf(s[1..], acc * 10 + DigitValue(s[0]))
  }

  /** Rust's digit loop: multiply and add (or subtract) with overflow checks at each step. */
  function Accumulate(s: string, acc: int, negative: bool, low: int, high: int): Option<int>
    decreases |s|
  {
    if s == [] then Some(acc)
    else if !IsDigit(s[0]) then None
    else
      var scaled := acc * 10;
      var next := if negative then scaled - DigitValue(s[0]) else scaled + DigitValue(s[0]);
      if scaled < low || scaled > high || next < low || next > high then None
      else Accumulate(s[1..], next, negative, low, high)
  }

  lemma {:induction false} ValueGrows(s: string, acc: nat)
    requires AllDigits(s)
    ensures NumberOf(s, acc) >= acc
    decreases |s|
  {
    if s != [] {
      ValueGrows(s[1..], acc * 10 + DigitValue(s[0]));
    }
  }

  function Signed(n: nat, negative: bool): int {
    if negative then 0 - n else n
  }

  /** The step-by-step checks reject exactly the texts whose whole value is out of range. */
  lemma {:induction false} AccumulateIsValue(s: string, acc: nat, negative: bool, low: int, high: int)
    requires low <= 0 <= high && low <= Signed(acc, negative) <= high
    ensures Accumulate(s, Signed(acc, negative), negative, low, high) ==
            if AllDigits(s) && low <= Signed(NumberOf(s, acc), negative) <= high
            then Some(Signed(NumberOf(s, acc), negative)) else None
    decreases |s|
  {
    if s != [] && IsDigit(s[0]) {
      var next := acc * 10 + DigitValue(s[0]);
      assert AllDigits(s) <==> AllDigits(s[1..]) by {
        assert forall i :: 0 < i < |s| ==> s[i] == s[1..][i - 1];
      }
      if AllDigits(s) {
        ValueGrows(s[1..], next);
      }
      if low <= Signed(next, negative) <= high {
        AccumulateIsValue(s[1..], next, negative, low, high);
      }
    }
  }

  lemma {:induction false} ValueSnoc(s: string, c: char, acc: nat)
    requires AllDigits(s) && IsDigit(c)
    ensures AllDigits(s + [c]) && NumberOf(s + [c], acc) == NumberOf(s, acc) * 10 + DigitValue(c)
    decreases |s|
  {
    if s == [] {
      assert s + [c] == [c] && [c][1..] == [];
    } else {
      assert (s + [c])[1..] == s[1..] + [c];
      ValueSnoc(s[1..], c, acc * 10 + DigitValue(s[0]));
    }
  }

  /** Printing then evaluating returns the number. */
  lemma {:induction false} ValueOfDigits(v: nat)
    ensures NumberOf(Digits(v), 0) == v
  {
    if v < 10 {
      assert Digits(v)[1..] == [];
    } else {
      ValueOfDigits(v / 10);
      ValueSnoc(Digits(v / 10), DigitChar(v % 10), 0);
    }
  }
}
