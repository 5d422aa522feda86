/** Byte-level reading and writing for flattened device trees (privileged/dtb.rs). */
module DtbFormat {
  import opened Machine

  const FDT_MAGIC: nat := 0xd00d_feed
  const FDT_BEGIN_NODE: nat := 1
  const FDT_END_NODE: nat := 2
  const FDT_PROP: nat := 3
  const FDT_NOP: nat := 4
  const FDT_END: nat := 9
  const FDT_HEADER_SIZE: nat := 40
  const FDT_MAX_SIZE: nat := 0x10_0000
  const CELLS_MAX: nat := 4

  function WordOf(b0: Byte, b1: Byte, b2: Byte, b3: Byte): (w: nat)
    ensures w < TWO32
  {
    ((b0 * 256 + b1) * 256 + b2) * 256 + b3
  }

  function ReadBe32(buf: seq<Byte>, offset: nat): (r: Option<nat>)
    ensures r.Some? <==> offset + 4 <= |buf| && offset + 4 <= U64_MAX
    ensures r.Some? ==> r.value < TWO32
  {
    var end :- CheckedAdd(offset, 4);
    if end <= |buf| then Some(WordOf(buf[offset], buf[offset + 1], buf[offset + 2], buf[offset + 3])) else None
  }

  /** `(v as u32).to_be_bytes()`. */
  function Be32(v: nat): (bytes: seq<Byte>)
    ensures |bytes| == 4
  {
    [v / 256 / 256 / 256 % 256, v / 256 / 256 % 256, v / 256 % 256, v % 256]
  }

  lemma Be32Word(v: nat)
    ensures var b := Be32(v); WordOf(b[0], b[1], b[2], b[3]) == v % TWO32
  {
    var v1 := v / 256;
    var v2 := v1 / 256;
    var v3 := v2 / 256;
    var w := WordOf(v3 % 256, v2 % 256, v1 % 256, v % 256);
    assert v == v3 / 256 * TWO32 + w;
    ModUnique(v, TWO32, v3 / 256, w);
  }

  lemma ModUnique(v: nat, d: nat, q: nat, r: nat)
    requires d > 0 && v == q * d + r && r < d
    ensures v % d == r
  {
    var q', r' := v / d, v % d;
    assert (q' - q) * d == r - r';
    if q' - q >= 1 {
      MulAtLeast(q' - q, d);
    } else if q - q' >= 1 {
      MulAtLeast(q - q', d);
    }
  }

  /** Reading back a word that was printed at `offset` yields it, reduced to 32 bits. */
  lemma ReadBe32Printed(buf: seq<Byte>, offset: nat, v: nat)
    requires offset + 4 <= |buf| && offset + 4 <= U64_MAX
    requires buf[offset..offset + 4] == Be32(v)
    ensures ReadBe32(buf, offset) == Some(v % TWO32)
  {
    var word := buf[offset..offset + 4];
    assert word[0] == buf[offset] && word[1] == buf[offset + 1];
    assert word[2] == buf[offset + 2] && word[3] == buf[offset + 3];
    Be32Word(v);
  }

  function Align4(value: nat): (r: Option<nat>)
    ensures r.Some? ==> value <= r.value < value + 4 && r.value % 4 == 0
  {
    var v :- CheckedAdd(value, 3);
    Some(v / 4 * 4)
  }

  /** `iter().position(|&b| b == needle).unwrap_or(len)`. */
  function Position(s: seq<Byte>, needle: Byte): (k: nat)
    ensures k <= |s|
    ensures forall i :: 0 <= i < k ==> s[i] != needle
    ensures k < |s| ==> s[k] == needle
  {
    if s == [] || s[0] == needle then 0 else 1 + Position(s[1..], needle)
  }

  lemma PositionUnique(s: seq<Byte>, needle: Byte, k: nat)
    requires k <= |s|
    requires forall i :: 0 <= i < k ==> s[i] != needle
    requires k < |s| ==> s[k] == needle
    ensures Position(s, needle) == k
  {
  }

  function CstrAt(strings: seq<Byte>, offset: nat): Option<seq<Byte>> {
    if offset > |strings| then None
    else
      var rest := strings[offset..];
      Some(rest[..Position(rest, 0)])
  }

  ghost predicate NulFree(s: seq<Byte>) {
    forall i :: 0 <= i < |s| ==> s[i] != 0
  }

  // ---- NUL-separated string lists -----------------------------------------

  /** A list entry starts at `i` and spells exactly `needle`. */
  ghost predicate EntryAt(list: seq<Byte>, needle: seq<Byte>, i: nat) {
    && i < |list|
    && (i == 0 || list[i - 1] == 0)
    && i + |needle| <= |list|
    && list[i..i + |needle|] == needle
    && NulFree(needle)
    && (i + |needle| == |list| || list[i + |needle|] == 0)
  }

  ghost predicate ListHolds(list: seq<Byte>, needle: seq<Byte>) {
    exists i: nat :: EntryAt(list, needle, i)
  }

  predicate CstrListContains(list: seq<Byte>, needle: seq<Byte>)
    decreases |list|
  {
    if list == [] then false
    else
      var end := Position(list, 0);
      if list[..end] == needle then true
      else if end >= |list| then false
      else CstrListContains(list[end + 1..], needle)
  }

  /** An entry found at the start is the text before the first NUL. */
  lemma EntryAtStart(list: seq<Byte>, needle: seq<Byte>)
    requires list != []
    ensures EntryAt(list, needle, 0) <==> list[..Position(list, 0)] == needle
  {
    var end := Position(list, 0);
    if EntryAt(list, needle, 0) {
      assert forall k :: 0 <= k < |needle| ==> list[k] == list[0..0 + |needle|][k];
      PositionUnique(list, 0, |needle|);
    }
  }

  /** Entries after the first are the entries of the rest of the list. */
  lemma EntryAtLater(list: seq<Byte>, needle: seq<Byte>, first: nat, i: nat)
    requires 0 < first <= |list| && list[first - 1] == 0
    ensures EntryAt(list, needle, first + i) <==> EntryAt(list[first..], needle, i)
  {
    var rest := list[first..];
    assert i > 0 && i <= |rest| ==> rest[i - 1] == list[first + i - 1];
    if i + |needle| <= |rest| {
      assert rest[i..i + |needle|] == list[first + i..first + i + |needle|];
      assert i + |needle| < |rest| ==> rest[i + |needle|] == list[first + i + |needle|];
    }
  }

  lemma {:induction false} ListHoldsUnfold(list: seq<Byte>, needle: seq<Byte>)
    requires list != []
    ensures var end := Position(list, 0);
            ListHolds(list, needle) <==>
            (list[..end] == needle || (end < |list| && ListHolds(list[end + 1..], needle)))
  {
    var end := Position(list, 0);
    EntryAtStart(list, needle);
    if end < |list| && ListHolds(list[end + 1..], needle) {
      var i: nat :| EntryAt(list[end + 1..], needle, i);
      EntryAtLater(list, needle, end + 1, i);
    }
    if ListHolds(list, needle) {
      var i: nat :| EntryAt(list, needle, i);
      if i > 0 {
        EntryAtLater(list, needle, end + 1, i - (end + 1));
      }
    }
  }

  /** The scan answers true exactly when some entry of the list is the needle. */
  lemma {:induction false} CstrListContainsIff(list: seq<Byte>, needle: seq<Byte>)
    ensures CstrListContains(list, needle) <==> ListHolds(list, needle)
    decreases |list|
  {
    if list != [] {
      ListHoldsUnfold(list, needle);
      var end := Position(list, 0);
      if end < |list| {
        CstrListContainsIff(list[end + 1..], needle);
      }
    }
  }

  method ScanCstrList(list: seq<Byte>, needle: seq<Byte>) returns (found: bool)
    ensures found <==> ListHolds(list, needle)
  {
    var rest := list;
    while rest != []
      invariant ListHolds(list, needle) <==> ListHolds(rest, needle)
      decreases |rest|
    {
      ListHoldsUnfold(rest, needle);
      var end := Position(rest, 0);
      if rest[..end] == needle {
        return true;
      }
      if end >= |rest| {
        return false;
      }
      rest := rest[end + 1..];
    }
    found := false;
  }

  predicate NodeNameIs(name: seq<Byte>, target: seq<Byte>) {
    name[..Position(name, 0x40)] == target
  }

  /** A node's base name is all of its name before the first `@`. */
  lemma NodeNameIff(base: seq<Byte>, tail: seq<Byte>, target: seq<Byte>)
    requires forall i :: 0 <= i < |base| ==> base[i] != 0x40
    requires tail == [] || tail[0] == 0x40
    ensures NodeNameIs(base + tail, target) <==> base == target
  {
    PositionUnique(base + tail, 0x40, |base|);
    assert (base + tail)[..|base|] == base;
  }

  // ---- cells ---------------------------------------------------------------

  /** `count` cells from `start`; shifting a u64 left by 32 keeps only its low 32 bits. */
  function ReadBeCells(buf: seq<Byte>, start: nat, count: nat): (r: Option<nat>)
    ensures r.Some? ==> r.value < TWO64
  {
    if count == 0 then Some(0)
    else
      var value :- ReadBeCells(buf, start, count - 1);
      var cell :- CheckedAdd(start, count - 1);
      var offset :- CheckedMul(cell, 4);
      var word :- ReadBe32(buf, offset);
      Some(value % TWO32 * TWO32 + word)
  }

  method ReadCells(buf: seq<Byte>, start: nat, count: nat) returns (r: Option<nat>)
    ensures r == ReadBeCells(buf, start, count)
  {
    var value: nat := 0;
    for i := 0 to count
      invariant ReadBeCells(buf, start, i) == Some(value)
    {
      var cell := CheckedAdd(start, i);
      var offset := if cell.Some? then CheckedMul(cell.value, 4) else None;
      var word := if offset.Some? then ReadBe32(buf, offset.value) else None;
      if word.None? {
        CellsStopEarly(buf, start, i + 1, count);
        return None;
      }
      value := value % TWO32 * TWO32 + word.value;
    }
    r := Some(value);
  }

  /** A failing prefix makes the whole read fail. */
  lemma CellsStopEarly(buf: seq<Byte>, start: nat, m: nat, n: nat)
    requires m <= n
    requires ReadBeCells(buf, start, m).None?
    ensures ReadBeCells(buf, start, n).None?
  {
  }

  function DecodeReg(reg: seq<Byte>, addrCells: nat, sizeCells: nat, index: nat): Option<(nat, nat)> {
    if addrCells == 0 || sizeCells == 0 || addrCells > CELLS_MAX || sizeCells > CELLS_MAX then None
    else
      var entryCells := addrCells + sizeCells;
      var startCell :- CheckedMul(index, entryCells);
      DecodeEntry(reg, addrCells, sizeCells, startCell)
  }

  function DecodeEntry(reg: seq<Byte>, addrCells: nat, sizeCells: nat, startCell: nat): Option<(nat, nat)> {
    var base :- ReadBeCells(reg, startCell, addrCells);
    var sizeStart :- CheckedAdd(startCell, addrCells);
    var size :- ReadBeCells(reg, sizeStart, sizeCells);
    Some((base, size))
  }

  /** `n` big-endian cells holding the low `32 * n` bits of `v`. */
  function EncodeCells(v: nat, n: nat): (bytes: seq<Byte>)
    ensures |bytes| == 4 * n
    decreases n
  {
    if n == 0 then [] else EncodeCells(v / TWO32, n - 1) + Be32(v)
  }

  function EncodeEntry(entry: (nat, nat), addrCells: nat, sizeCells: nat): (bytes: seq<Byte>)
    ensures |bytes| == 4 * (addrCells + sizeCells)
  {
    EncodeCells(entry.0, addrCells) + EncodeCells(entry.1, sizeCells)
  }

  function EncodeReg(entries: seq<(nat, nat)>, addrCells: nat, sizeCells: nat): (bytes: seq<Byte>) {
    if entries == [] then []
    else EncodeEntry(entries[0], addrCells, sizeCells) + EncodeReg(entries[1..], addrCells, sizeCells)
  }

  function Pow32(n: nat): (p: nat)
    ensures p > 0
  {
    if n == 0 then 1 else TWO32 * Pow32(n - 1)
  }

  /** The value a reader sees: the bits that fit the cells, reduced to a u64. */
  function Held(v: nat, cells: nat): nat {
    v % Pow32(cells) % TWO64
  }

  /** Taking `v` apart into its low cell and the cells above it. */
  lemma DivStep(v: nat, m: nat)
    requires m > 0
    ensures v % (TWO32 * m) == v / TWO32 % m * TWO32 + v % TWO32
  {
    var q, r := v / TWO32, v % TWO32;
    var qq, qr := q / m, q % m;
    assert v == q * TWO32 + r;
    assert q * TWO32 == qq * (TWO32 * m) + qr * TWO32 by {
      MulSplit(qq, m, qr);
    }
    MulBelow(qr, m);
    ModUnique(v, TWO32 * m, qq, qr * TWO32 + r);
  }

  lemma MulSplit(a: nat, m: nat, b: nat)
    ensures (a * m + b) * TWO32 == a * (TWO32 * m) + b * TWO32
  {
  }

  lemma MulBelow(a: nat, m: nat)
    requires a < m
    ensures a * TWO32 + TWO32 <= TWO32 * m
  {
  }

  lemma ModMod(w: nat)
    ensures w % TWO64 % TWO32 == w % TWO32
  {
    var q, u := w / TWO64, w % TWO64;
    ModUnique(w, TWO32, q * TWO32 + u / TWO32, u % TWO32);
  }

  lemma ShiftDropsHigh(w: nat, low: nat)
    requires low < TWO32
    ensures w % TWO64 % TWO32 * TWO32 + low == (w * TWO32 + low) % TWO64
  {
    ModMod(w);
    var h, r := w / TWO32, w % TWO32;
    ModUnique(w * TWO32 + low, TWO64, h, r * TWO32 + low);
  }

  lemma CellStep(v: nat, n: nat)
    ensures Held(v / TWO32, n) % TWO32 * TWO32 + v % TWO32 == Held(v, n + 1)
  {
    DivStep(v, Pow32(n));
    ShiftDropsHigh(v / TWO32 % Pow32(n), v % TWO32);
  }

  ghost predicate At(buf: seq<Byte>, offset: nat, part: seq<Byte>) {
    offset + |part| <= |buf| && buf[offset..offset + |part|] == part
  }

  lemma AtSplit(buf: seq<Byte>, offset: nat, a: seq<Byte>, b: seq<Byte>)
    ensures At(buf, offset, a + b) <==> At(buf, offset, a) && At(buf, offset + |a|, b)
  {
    if At(buf, offset, a + b) {
      assert a == (a + b)[..|a|] && b == (a + b)[|a|..];
    }
    if At(buf, offset, a) && At(buf, offset + |a|, b) {
      assert buf[offset..offset + |a + b|] == buf[offset..offset + |a|] + buf[offset + |a|..offset + |a| + |b|];
    }
  }

  lemma HeldNothing(v: nat)
    ensures Held(v, 0) == 0
  {
  }

  /** Cells printed at cell position `start` read back as the value they can hold. */
  lemma {:induction false} ReadBeCellsPrinted(buf: seq<Byte>, start: nat, v: nat, n: nat)
    requires |buf| <= U64_MAX
    requires At(buf, 4 * start, EncodeCells(v, n))
    ensures ReadBeCells(buf, start, n) == Some(Held(v, n))
  {
    hide Be32, Held, ReadBe32;
    if n == 0 {
      HeldNothing(v);
    } else {
      AtSplit(buf, 4 * start, EncodeCells(v / TWO32, n - 1), Be32(v));
      ReadBeCellsPrinted(buf, start, v / TWO32, n - 1);
      ReadBe32Printed(buf, 4 * (start + n - 1), v);
      CellStep(v, n - 1);
    }
  }

  lemma EntryPrinted(buf: seq<Byte>, cell: nat, entry: (nat, nat), a: nat, s: nat)
    requires |buf| <= U64_MAX && At(buf, 4 * cell, EncodeEntry(entry, a, s))
    ensures DecodeEntry(buf, a, s, cell) == Some((Held(entry.0, a), Held(entry.1, s)))
  {
    hide ReadBeCells, EncodeCells, Held;
    AtSplit(buf, 4 * cell, EncodeCells(entry.0, a), EncodeCells(entry.1, s));
    ReadBeCellsPrinted(buf, cell, entry.0, a);
    ReadBeCellsPrinted(buf, cell + a, entry.1, s);
  }

  /** Entry `k` of a printed list lies `k` entry widths further on; beyond the list the buffer ends. */
  lemma {:induction false} EntryPlace(buf: seq<Byte>, cell: nat, entries: seq<(nat, nat)>, a: nat, s: nat, k: nat)
    requires At(buf, 4 * cell, EncodeReg(entries, a, s))
    requires 4 * cell + |EncodeReg(entries, a, s)| == |buf|
    ensures k < |entries| ==> At(buf, 4 * (cell + k * (a + s)), EncodeEntry(entries[k], a, s))
    ensures k >= |entries| ==> |buf| <= 4 * (cell + k * (a + s))
    decreases k
  {
    if entries != [] {
      AtSplit(buf, 4 * cell, EncodeEntry(entries[0], a, s), EncodeReg(entries[1..], a, s));
      if k > 0 {
        assert k * (a + s) == (k - 1) * (a + s) + (a + s);
        EntryPlace(buf, cell + a + s, entries[1..], a, s, k - 1);
      }
    }
  }

  /** Every entry of a printed `reg` decodes to its (base, size), reduced to 64 bits; past the end, nothing does. */
  lemma DecodeRegPrinted(entries: seq<(nat, nat)>, a: nat, s: nat, k: nat)
    requires 1 <= a <= CELLS_MAX && 1 <= s <= CELLS_MAX
    requires |EncodeReg(entries, a, s)| <= U64_MAX
    ensures DecodeReg(EncodeReg(entries, a, s), a, s, k) ==
            if k < |entries| then Some((Held(entries[k].0, a), Held(entries[k].1, s))) else None
  {
    var buf := EncodeReg(entries, a, s);
    var cell := k * (a + s);
    EntryPlace(buf, 0, entries, a, s, k);
    if k < |entries| {
      EntryPrinted(buf, cell, entries[k], a, s);
    } else {
      DecodeEntryDefined(buf, a, s, cell);
    }
  }

  /** A u64 is returned unchanged exactly when its cells are wide enough for it. */
  lemma HeldExact(v: nat, cells: nat)
    requires 1 <= cells <= CELLS_MAX && v < TWO64
    ensures Held(v, cells) == v <==> (cells >= 2 || v < TWO32)
  {
    assert Pow32(1) == TWO32 * Pow32(0);
    assert Pow32(2) == TWO32 * Pow32(1);
    assert Pow32(3) == TWO32 * Pow32(2);
    assert Pow32(4) == TWO32 * Pow32(3);
  }

  /** A read succeeds exactly when all of its cells lie inside the buffer. */
  lemma {:induction false} ReadBeCellsDefined(buf: seq<Byte>, start: nat, n: nat)
    requires |buf| <= U64_MAX
    ensures ReadBeCells(buf, start, n).Some? <==> n == 0 || 4 * (start + n) <= |buf|
  {
    if n > 0 {
      ReadBeCellsDefined(buf, start, n - 1);
    }
  }

  lemma DecodeEntryDefined(reg: seq<Byte>, a: nat, s: nat, cell: nat)
    requires |reg| <= U64_MAX && a > 0 && s > 0
    ensures DecodeEntry(reg, a, s, cell).Some? <==> 4 * (cell + a + s) <= |reg|
  {
    ReadBeCellsDefined(reg, cell, a);
    ReadBeCellsDefined(reg, cell + a, s);
  }

  /** An entry decodes exactly when both widths are one to four cells and the bytes reach past it. */
  lemma DecodeRegIff(reg: seq<Byte>, a: nat, s: nat, k: nat)
    requires |reg| <= U64_MAX
    ensures DecodeReg(reg, a, s, k).Some? <==> 1 <= a <= 4 && 1 <= s <= 4 && 4 * (k + 1) * (a + s) <= |reg|
  {
    hide ReadBeCells;
    if 1 <= a <= 4 && 1 <= s <= 4 {
      assert (k + 1) * (a + s) == k * (a + s) + (a + s);
      assert 4 * (k + 1) * (a + s) == 4 * ((k + 1) * (a + s));
      DecodeEntryDefined(reg, a, s, k * (a + s));
    }
  }

  /** Success at one index implies success at every smaller one. */
  lemma DecodeRegDownward(reg: seq<Byte>, a: nat, s: nat, i: nat, k: nat)
    requires |reg| <= U64_MAX && i <= k
    requires DecodeReg(reg, a, s, k).Some?
    ensures DecodeReg(reg, a, s, i).Some?
  {
    MulMonotone(i, k, a + s);
    DecodeEntryDefined(reg, a, s, i * (a + s));
    DecodeEntryDefined(reg, a, s, k * (a + s));
  }

  lemma MulMonotone(i: nat, k: nat, e: nat)
    requires i <= k
    ensures i * e <= k * e
  {
  }
}
