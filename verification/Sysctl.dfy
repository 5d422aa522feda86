/** The text form of runtime tunables (functions/config/sysctl.rs). */
module Sysctl {
  import opened Machine
  import opened Decimal

  const I64_MIN: int := -0x8000_0000_0000_0000
  const I64_MAX: int := 0x7FFF_FFFF_FFFF_FFFF
  const MAX_SYSCTL_ENTRIES: nat := 32

  type I64 = v: int | I64_MIN <= v <= I64_MAX

  datatype Kind = IntKind | UIntKind | BoolKind
  datatype Value = Int(i: I64) | UInt(u: U64) | Bool(b: bool)
  datatype Error = TableFull | Duplicate | NotFound | ParseFailed | TypeMismatch

  function KindOf(v: Value): Kind {
    match v
    case Int(_) => IntKind
    case UInt(_) => UIntKind
    case Bool(_) => BoolKind
  }

  // ---- text ----------------------------------------------------------------------------

  function TextI64(v: I64): string {
    if v < 0 then "-" + Digits(0 - v) else Digits(v)
  }

  /** The complete text of a value. */
  function Text(v: Value): string {
    match v
    case Int(i) => TextI64(i)
    case UInt(u) => Digits(u)
    case Bool(b) => if b then "1" else "0"
  }

  /** `buf` holds as much of `text` as fits from `at` on, and is otherwise as before. */
  ghost predicate Wrote(buf: seq<char>, was: seq<char>, at: nat, text: string, n: nat) {
    && |buf| == |was| && at <= |buf| && n == Min(|text|, |buf| - at)
    && buf == was[..at] + text[..n] + was[at + n..]
  }

  method WriteU64(buf: array<char>, at: nat, val: U64) returns (n: nat)
    requires at <= buf.Length
    modifies buf
    ensures Wrote(buf[..], old(buf[..]), at, Digits(val), n)
  {
    if val == 0 {
      assert Digits(0) == "0";
      if at < buf.Length {
        buf[at] := '0';
        return 1;
      }
      return 0;
    }
    var tmp, i := FillDigits(val);
    n := CopyDigits(buf, at, tmp[i..]);
  }

  /** `copy_from_slice` of as many bytes as fit. */
  method CopyDigits(buf: array<char>, at: nat, digits: string) returns (n: nat)
    requires at <= buf.Length
    modifies buf
    ensures Wrote(buf[..], old(buf[..]), at, digits, n)
  {
    n := Min(|digits|, buf.Length - at);
    forall k | 0 <= k < n {
      buf[at + k] := digits[k];
    }
  }

  method WriteI64(buf: array<char>, val: I64) returns (n: nat)
    modifies buf
    ensures Wrote(buf[..], old(buf[..]), 0, TextI64(val), n)
  {
    var negative := val < 0;
    var magnitude: U64 := if negative then 0 - val else val;
    var pos := 0;
    if negative && buf.Length > 0 {
      buf[0] := '-';
      pos := 1;
    }
    ghost var mid := buf[..];
    var m := WriteU64(buf, pos, magnitude);
    n := pos + m;
    SignThenDigits(buf[..], mid, old(buf[..]), val, m, n);
  }

  lemma SignThenDigits(buf: seq<char>, mid: seq<char>, was: seq<char>, val: I64, m: nat, n: nat)
    requires |mid| == |was|
    requires var signed := val < 0 && |was| > 0;
             && mid == (if signed then was[0 := '-'] else was)
             && Wrote(buf, mid, if signed then 1 else 0, Digits(if val < 0 then 0 - val else val), m)
             && n == m + (if signed then 1 else 0)
    ensures Wrote(buf, was, 0, TextI64(val), n)
  {
    if val < 0 && |was| > 0 {
      var d := Digits(0 - val);
      assert TextI64(val)[..n] == ['-'] + d[..m];
      assert mid[..1] == ['-'] && mid[1 + m..] == was[n..];
    }
  }

  /** A boolean reports one byte even when there is no room to write it. */
  method WriteBool(buf: array<char>, val: bool) returns (n: nat)
    modifies buf
    ensures n == 1
    ensures buf[..] == if buf.Length > 0 then old(buf[..])[0 := if val then '1' else '0'] else old(buf[..])
  {
    if val {
      if buf.Length > 0 {
        buf[0] := '1';
      }
    } else {
      if buf.Length > 0 {
        buf[0] := '0';
      }
    }
    n := 1;
  }

  /** `write_to`: numbers give the longest prefix of their text that fits. */
  method WriteTo(buf: array<char>, v: Value) returns (n: nat)
    modifies buf
    ensures (!v.Bool? || buf.Length > 0) ==> Wrote(buf[..], old(buf[..]), 0, Text(v), n)
    ensures v.Bool? && buf.Length == 0 ==> n == 1
    ensures buf.Length >= DIGITS_MAX ==> n <= buf.Length && buf[..n] == Text(v) && Parse(KindOf(v), buf[..n]) == Some(v)
  {
    hide Digits, TextI64, Parse;
    match v {
      case Int(i) =>
        n := WriteI64(buf, i);
      case UInt(u) =>
        n := WriteU64(buf, 0, u);
      case Bool(b) =>
        n := WriteBool(buf, b);
    }
    TextFits(v);
    RoundTrip(v);
  }

  // ---- parsing ---------------------------------------------------------------------------

  /** Unicode White_Space, which `str::trim` strips. */
  predicate IsSpace(c: char) {
    || '\U{9}' <= c <= '\U{d}' || c == ' ' || c == '\U{85}' || c == '\U{a0}' || c == '\U{1680}'
    || '\U{2000}' <= c <= '\U{200a}' || c == '\U{2028}' || c == '\U{2029}' || c == '\U{202f}'
    || c == '\U{205f}' || c == '\U{3000}'
  }

  function Trim(s: string): string
    decreases |s|
  {
    if s == "" then s
    else if IsSpace(s[0]) then Trim(s[1..])
    else if IsSpace(s[|s| - 1]) then Trim(s[..|s| - 1])
    else s
  }

  /** `parse::<i64>` and `parse::<u64>`: an optional sign, then digits within the range. */
  function ParseNumber(s: string, signed: bool, low: int, high: int): Option<int> {
    if s == "" || s == "+" || s == "-" then None
    else if s[0] == '+' then Accumulate(s[1..], 0, false, low, high)
    else if signed && s[0] == '-' then Accumulate(s[1..], 0, true, low, high)
    else Accumulate(s, 0, false, low, high)
  }

  function Parse(kind: Kind, text: string): Option<Value> {
    var s := Trim(text);
    match kind
    case IntKind =>
      var v :- ParseNumber(s, true, I64_MIN, I64_MAX);
      if I64_MIN <= v <= I64_MAX then Some(Int(v)) else None
    case UIntKind =>
      var v :- ParseNumber(s, false, 0, U64_MAX);
      if 0 <= v <= U64_MAX then Some(UInt(v)) else None
    case BoolKind =>
      if s in ["1", "true", "yes", "on"] then Some(Bool(true))
      else if s in ["0", "false", "no", "off"] then Some(Bool(false))
      else None
  }

  // ---- white space -------------------------------------------------------------------------

  predicate AllSpace(s: string) {
    forall i :: 0 <= i < |s| ==> IsSpace(s[i])
  }

  /** Neither end is white space. */
  predicate Trimmed(s: string) {
    s != "" ==> !IsSpace(s[0]) && !IsSpace(s[|s| - 1])
  }

  /** Trimming takes away exactly the white space at both ends. */
  lemma {:induction false} TrimPadded(pre: string, w: string, post: string)
    requires AllSpace(pre) && AllSpace(post) && Trimmed(w)
    ensures Trim(pre + w + post) == w
    decreases |pre| + |post|
  {
    hide IsSpace;
    var s := pre + w + post;
    if pre != "" {
      assert s[0] == pre[0] && s[1..] == pre[1..] + w + post;
      TrimPadded(pre[1..], w, post);
    } else if w == "" {
      assert s == post;
      if post != "" {
        assert s[1..] == "" + w + post[1..];
        TrimPadded("", w, post[1..]);
      }
    } else if post != "" {
      assert s[0] == w[0] && s[|s| - 1] == post[|post| - 1] && s[..|s| - 1] == "" + w + post[..|post| - 1];
      TrimPadded("", w, post[..|post| - 1]);
    } else {
      assert s == w;
    }
  }

  /** `w` is what is left of `s` between white space. */
  ghost predicate Core(s: string, w: string) {
    exists i, j :: 0 <= i <= j <= |s| && AllSpace(s[..i]) && AllSpace(s[j..]) && s[i..j] == w
  }

  /** Every text is its trimmed form between white space. */
  lemma {:induction false} TrimIsCore(s: string)
    ensures Trimmed(Trim(s)) && Core(s, Trim(s))
    decreases |s|
  {
    hide IsSpace;
    if s == "" || (!IsSpace(s[0]) && !IsSpace(s[|s| - 1])) {
      CoreOf(s, 0, |s|);
    } else if IsSpace(s[0]) {
      TrimIsCore(s[1..]);
      CoreAfter(s, Trim(s[1..]));
    } else {
      TrimIsCore(s[..|s| - 1]);
      CoreBefore(s, Trim(s[..|s| - 1]));
    }
  }

  lemma CoreOf(s: string, i: nat, j: nat)
    requires i <= j <= |s| && AllSpace(s[..i]) && AllSpace(s[j..])
    ensures Core(s, s[i..j]) && (i == 0 && j == |s| ==> s[i..j] == s)
  {
    hide IsSpace;
  }

  lemma CoreAfter(s: string, w: string)
    requires s != "" && IsSpace(s[0]) && Core(s[1..], w)
    ensures Core(s, w)
  {
    hide IsSpace;
    var rest := s[1..];
    var i, j :| 0 <= i <= j <= |rest| && AllSpace(rest[..i]) && AllSpace(rest[j..]) && rest[i..j] == w;
    assert s[..i + 1] == [s[0]] + rest[..i] && s[j + 1..] == rest[j..] && s[i + 1..j + 1] == w;
    SpaceAdded(rest[..i], s[0]);
    CoreOf(s, i + 1, j + 1);
  }

  lemma CoreBefore(s: string, w: string)
    requires s != "" && IsSpace(s[|s| - 1]) && Core(s[..|s| - 1], w)
    ensures Core(s, w)
  {
    hide IsSpace;
    var rest := s[..|s| - 1];
    var i, j :| 0 <= i <= j <= |rest| && AllSpace(rest[..i]) && AllSpace(rest[j..]) && rest[i..j] == w;
    assert s[..i] == rest[..i] && s[j..] == rest[j..] + [s[|s| - 1]] && s[i..j] == w;
    SpaceAdded(rest[j..], s[|s| - 1]);
    CoreOf(s, i, j);
  }

  lemma SpaceAdded(s: string, c: char)
    requires AllSpace(s) && IsSpace(c)
    ensures AllSpace([c] + s) && AllSpace(s + [c])
  {
    hide IsSpace;
  }

  /** Which texts a boolean parser accepts: four words each way, between any white space. */
  lemma ParseBoolIff(pre: string, w: string, post: string)
    requires AllSpace(pre) && AllSpace(post) && Trimmed(w)
    ensures Parse(BoolKind, pre + w + post) ==
            if w == "1" || w == "true" || w == "yes" || w == "on" then Some(Bool(true))
            else if w == "0" || w == "false" || w == "no" || w == "off" then Some(Bool(false))
            else None
  {
    hide Trim, IsSpace;
    TrimPadded(pre, w, post);
  }

  /** Numbers are read between any white space, within the range of their kind. */
  lemma ParseNumberPadded(pre: string, w: string, post: string)
    requires AllSpace(pre) && AllSpace(post) && Trimmed(w)
    ensures Parse(IntKind, pre + w + post) ==
            match ParseNumber(w, true, -0x8000_0000_0000_0000, 0x7FFF_FFFF_FFFF_FFFF)
            case None => None
            case Some(v) => if -0x8000_0000_0000_0000 <= v <= 0x7FFF_FFFF_FFFF_FFFF then Some(Int(v)) else None
    ensures Parse(UIntKind, pre + w + post) ==
            match ParseNumber(w, false, 0, 0xFFFF_FFFF_FFFF_FFFF)
            case None => None
            case Some(v) => if 0 <= v <= 0xFFFF_FFFF_FFFF_FFFF then Some(UInt(v)) else None
  {
    hide Trim, IsSpace, ParseNumber;
    TrimPadded(pre, w, post);
  }

  lemma TextIsTrimmed(v: Value)
    ensures Text(v) != "" && Trim(Text(v)) == Text(v)
    ensures v.Int? && v.i < 0 ==> Text(v)[0] == '-' && Text(v)[1..] == Digits(0 - v.i)
    ensures !(v.Int? && v.i < 0) ==> IsDigit(Text(v)[0])
  {
    var s := Text(v);
    assert s[|s| - 1] == '0' || IsDigit(s[|s| - 1]);
  }

  lemma DigitsParse(n: nat, negative: bool, low: int, high: int)
    requires low <= 0 <= high && low <= Signed(n, negative) <= high
    ensures Accumulate(Digits(n), 0, negative, low, high) == Some(Signed(n, negative))
  {
    hide Digits;
    AccumulateIsValue(Digits(n), 0, negative, low, high);
    ValueOfDigits(n);
  }

  /** Parsing the text of a value under its own kind returns the value, extremes included. */
  lemma RoundTrip(v: Value)
    ensures Parse(KindOf(v), Text(v)) == Some(v)
  {
    hide Trim, Accumulate;
    TextIsTrimmed(v);
    match v
    case Int(i) =>
      if i < 0 {
        assert |Text(v)| >= 2;
        DigitsParse(0 - i, true, I64_MIN, I64_MAX);
      } else {
        DigitsParse(i, false, I64_MIN, I64_MAX);
      }
    case UInt(u) => DigitsParse(u, false, 0, U64_MAX);
    case Bool(b) =>
  }

  /** Which texts a number parser accepts, and with what value. */
  lemma ParseNumberIff(s: string, signed: bool, low: int, high: int)
    requires low <= 0 <= high
    ensures var negative := signed && s != "" && s[0] == '-';
            var body := if s != "" && (s[0] == '+' || negative) then s[1..] else s;
            ParseNumber(s, signed, low, high) ==
            if body != "" && AllDigits(body) && low <= Signed(NumberOf(body, 0), negative) <= high
            then Some(Signed(NumberOf(body, 0), negative)) else None
  {
    if s != "" {
      AccumulateIsValue(s[1..], 0, false, low, high);
      AccumulateIsValue(s[1..], 0, true, low, high);
      AccumulateIsValue(s, 0, false, low, high);
      if s == "-" {
        assert !IsDigit(s[0]);
      }
    }
  }

  lemma TextFits(v: Value)
    ensures |Text(v)| <= DIGITS_MAX
  {
    match v
    case Int(i) => SignedFits(i);
    case UInt(u) => U64Digits(u);
    case Bool(b) =>
  }

  lemma SignedFits(i: I64)
    ensures |TextI64(i)| <= DIGITS_MAX
  {
    hide Pow10, Digits;
    PowTwenty();
    DigitsLength(if i < 0 then 0 - i else i, 19);
  }
}
