/** The parser of privileged/dtb.rs: its specification as lexing plus folding. */
module DtbParser {
  import opened Machine
  import opened DtbFormat
  import opened DtbEvents

  // ---- header ----------------------------------------------------------------

  function DecodeHeaderPrefix(header: seq<Byte>): Option<nat> {
    var magic :- ReadBe32(header, 0);
    if magic != FDT_MAGIC then None
    else
      var totalsize :- ReadBe32(header, 4);
      if FDT_HEADER_SIZE <= totalsize <= FDT_MAX_SIZE then Some(totalsize) else None
  }

  /** The immutable part of a parser: the bytes it may read and where the structure block ends. */
  datatype Region = Region(blob: seq<Byte>, strings: seq<Byte>, end: nat) {
    ghost predicate Valid() {
      end <= |blob| && end < TWO32
    }
  }

  datatype Header = Header(region: Region, structOff: nat)

  function DecodeHeader(blob: seq<Byte>): (r: Option<Header>)
    ensures r.Some? ==> r.value.region.Valid() && r.value.region.blob == blob && r.value.structOff <= r.value.region.end
  {
    if |blob| < FDT_HEADER_SIZE then None
    else
      // A full header holds every word read here, and two u32 never overflow a usize.
      var totalsize := ReadBe32(blob, 4).value;
      var structOff := ReadBe32(blob, 8).value;
      var stringsOff := ReadBe32(blob, 12).value;
      var structEnd := structOff + ReadBe32(blob, 36).value;
      var stringsEnd := stringsOff + ReadBe32(blob, 32).value;
      if ReadBe32(blob, 0).value != FDT_MAGIC || totalsize > |blob| then None
      else if structEnd > totalsize || stringsEnd > totalsize then None
      else Some(Header(Region(blob, blob[stringsOff..stringsEnd], structEnd), structOff))
  }

  // ---- lexing ----------------------------------------------------------------

  function ReadStructU32(r: Region, cur: nat): (w: Option<(nat, nat)>)
    ensures w.Some? ==> w.value.1 == cur + 4 <= r.end && w.value.0 < TWO32
  {
    var next :- CheckedAdd(cur, 4);
    if next > r.end then None
    else
      var value :- ReadBe32(r.blob, cur);
      Some((value, next))
  }

  function FindNul(r: Region, idx: nat): (k: Option<nat>)
    ensures k.Some? ==> idx <= k.value < r.end && k.value < |r.blob|
    decreases r.end - idx
  {
    if idx >= r.end || idx >= |r.blob| then None
    else if r.blob[idx] == 0 then Some(idx)
    else FindNul(r, idx + 1)
  }

  function ReadCstr(r: Region, cur: nat): (s: Option<(seq<Byte>, nat)>)
    ensures s.Some? ==> cur < s.value.1 <= r.end
  {
    var idx :- FindNul(r, cur);
    var next :- Align4(idx + 1);
    if next > r.end then None else Some((r.blob[cur..idx], next))
  }

  function ReadProp(r: Region, cur: nat): (p: Option<(Event, nat)>)
    ensures p.Some? ==> cur < p.value.1 <= r.end && p.value.0.Prop? && |p.value.0.value| <= r.end
  {
    var (len, cur1) :- ReadStructU32(r, cur);
    var (nameOff, start) :- ReadStructU32(r, cur1);
    var end :- CheckedAdd(start, len);
    if end > r.end || end > |r.blob| then None
    else
      var padded :- Align4(end);
      if padded > r.end then None
      else
        var name :- CstrAt(r.strings, nameOff);
        Some((Prop(name, r.blob[start..end]), padded))
  }

  datatype Lexeme = Bad | Stop | Step(event: Event, next: nat)

  function NextToken(r: Region, cur: nat): (t: Lexeme)
    ensures t.Step? ==> cur < t.next <= r.end
    ensures t.Step? && t.event.Prop? ==> |t.event.value| <= r.end
  {
    var w := ReadStructU32(r, cur);
    if w.None? then Bad
    else
      var (token, next) := w.value;
      if token == FDT_BEGIN_NODE then
        var name := ReadCstr(r, next);
        if name.None? then Bad else Step(Begin(name.value.0), name.value.1)
      else if token == FDT_END_NODE then Step(End, next)
      else if token == FDT_PROP then
        var prop := ReadProp(r, next);
        if prop.None? then Bad else Step(prop.value.0, prop.value.1)
      else if token == FDT_NOP then Step(Nop, next)
      else if token == FDT_END then Stop
      else Bad
  }

  /** The events of a structure block up to FDT_END, or nothing when some token is malformed. */
  function Lex(r: Region, cur: nat): Option<seq<Event>>
    decreases r.end - cur
  {
    match NextToken(r, cur)
    case Bad => None
    case Stop => Some([])
    case Step(e, next) =>
      var rest :- Lex(r, next);
      Some([e] + rest)
  }

  /** The token loop: each event takes effect before the next token is read. */
  function Run(r: Region, cur: nat, s: Scan): Option<DtbInfo>
    decreases r.end - cur
  {
    match NextToken(r, cur)
    case Bad => None
    case Stop => Some(Finish(s))
    case Step(e, next) =>
      var s' :- Apply(s, e);
      Run(r, next, s')
  }

  function Parse(blob: seq<Byte>): Option<DtbInfo> {
    var h :- DecodeHeader(blob);
    Run(h.region, h.structOff, START)
  }

  function Tokens(blob: seq<Byte>): Option<seq<Event>> {
    var h :- DecodeHeader(blob);
    Lex(h.region, h.structOff)
  }

  // ---- parsing is lexing followed by folding -----------------------------------

  lemma {:induction false} RunIsLexThenFold(r: Region, cur: nat, s: Scan)
    ensures Run(r, cur, s) ==
            match Lex(r, cur)
            case None => None
            case Some(es) => (match Fold(s, es) case None => None case Some(t) => Some(Finish(t)))
    decreases r.end - cur
  {
    var t := NextToken(r, cur);
    if t.Step? && Apply(s, t.event).Some? {
      RunIsLexThenFold(r, t.next, Apply(s, t.event).value);
      var rest := Lex(r, t.next);
      if rest.Some? {
        assert ([t.event] + rest.value)[1..] == rest.value;
      }
    }
  }

  /** On every byte string: the result is the meaning of its token sequence, and malformed bytes have none. */
  lemma ParseIsMeaningOfTokens(blob: seq<Byte>)
    ensures Parse(blob) == match Tokens(blob) case None => None case Some(es) => Meaning(es)
  {
    var h := DecodeHeader(blob);
    if h.Some? {
      RunIsLexThenFold(h.value.region, h.value.structOff, START);
    }
  }

  lemma {:induction false} LexedValuesAreSlices(r: Region, cur: nat)
    requires r.Valid() && Lex(r, cur).Some?
    ensures SliceValues(Lex(r, cur).value)
    decreases r.end - cur
  {
    var t := NextToken(r, cur);
    if t.Step? {
      LexedValuesAreSlices(r, t.next);
    }
  }

  /**
   * Every accepted byte string: each prefix of its events is accepted too,
   * leaves as many nodes open as were begun and not ended, never more than 16,
   * lists at most 8 CPUs, and never revises what an earlier prefix discovered.
   */
  lemma ParseInvariants(blob: seq<Byte>, es: seq<Event>, i: nat, j: nat)
    requires Parse(blob).Some? && Tokens(blob) == Some(es)
    requires i <= j <= |es|
    ensures PrefixesKeep(es, i, j)
  {
    ParseIsMeaningOfTokens(blob);
    var h := DecodeHeader(blob).value;
    LexedValuesAreSlices(h.region, h.structOff);
    AcceptedPrefixes(es, i, j);
  }

  // ---- what is rejected ----------------------------------------------------------

  /** The big-endian word at `off`. */
  function Word(blob: seq<Byte>, off: nat): nat
    requires off + 4 <= |blob|
  {
    var b0: int, b1: int, b2: int, b3: int := blob[off], blob[off + 1], blob[off + 2], blob[off + 3];
    b0 * 0x100_0000 + b1 * 0x1_0000 + b2 * 0x100 + b3
  }

  /** A header is taken exactly when it is whole, has the magic number, and its size and both blocks lie inside. */
  lemma HeaderIff(blob: seq<Byte>)
    ensures DecodeHeader(blob).Some? <==>
            && |blob| >= 40 && Word(blob, 0) == 0xd00d_feed
            && Word(blob, 4) <= |blob|
            && Word(blob, 8) + Word(blob, 36) <= Word(blob, 4)
            && Word(blob, 12) + Word(blob, 32) <= Word(blob, 4)
    ensures DecodeHeader(blob).None? ==> Parse(blob) == None
    ensures DecodeHeader(blob).Some? ==>
              var h := DecodeHeader(blob).value;
              && h.structOff == Word(blob, 8) && h.region.end == Word(blob, 8) + Word(blob, 36)
              && h.region.strings == blob[Word(blob, 12)..Word(blob, 12) + Word(blob, 32)]
  {
    hide Run;
  }

  /** The prefix gives the declared size exactly when that is at least a header and at most a mebibyte. */
  lemma HeaderPrefixIff(header: seq<Byte>)
    ensures DecodeHeaderPrefix(header) ==
            if |header| >= 8 && Word(header, 0) == 0xd00d_feed && 40 <= Word(header, 4) <= 0x10_0000
            then Some(Word(header, 4)) else None
  {
  }

  /** A cut-off or unknown token rejects the blob, whatever was found before it. */
  lemma BadTokenRejects(r: Region, cur: nat, s: Scan)
    requires r.Valid()
    requires cur + 4 > r.end || Word(r.blob, cur) !in {1, 2, 3, 4, 9}
    ensures Lex(r, cur) == None && Run(r, cur, s) == None
  {
  }

  // ---- locality ----------------------------------------------------------------

  ghost predicate SameUpTo(a: Region, b: Region) {
    && a.Valid() && b.Valid() && a.end == b.end && a.strings == b.strings
    && a.blob[..a.end] == b.blob[..b.end]
  }

  lemma SameByte(a: Region, b: Region, i: nat)
    requires SameUpTo(a, b) && i < a.end
    ensures a.blob[i] == b.blob[i]
  {
    assert a.blob[i] == a.blob[..a.end][i] && b.blob[i] == b.blob[..b.end][i];
  }

  lemma SameSlice(a: Region, b: Region, i: nat, j: nat)
    requires SameUpTo(a, b) && i <= j <= a.end
    ensures a.blob[i..j] == b.blob[i..j]
  {
    assert a.blob[i..j] == a.blob[..a.end][i..j] && b.blob[i..j] == b.blob[..b.end][i..j];
  }

  lemma SameWord(a: Region, b: Region, cur: nat)
    requires SameUpTo(a, b)
    ensures ReadStructU32(a, cur) == ReadStructU32(b, cur)
  {
    if cur + 4 <= a.end {
      SameByte(a, b, cur);
      SameByte(a, b, cur + 1);
      SameByte(a, b, cur + 2);
      SameByte(a, b, cur + 3);
    }
  }

  lemma {:induction false} SameNul(a: Region, b: Region, idx: nat)
    requires SameUpTo(a, b)
    ensures FindNul(a, idx) == FindNul(b, idx)
    decreases a.end - idx
  {
    if idx < a.end {
      SameByte(a, b, idx);
      SameNul(a, b, idx + 1);
    }
  }

  lemma SameCstr(a: Region, b: Region, cur: nat)
    requires SameUpTo(a, b)
    ensures ReadCstr(a, cur) == ReadCstr(b, cur)
  {
    SameNul(a, b, cur);
    if FindNul(a, cur).Some? {
      SameSlice(a, b, cur, FindNul(a, cur).value);
    }
  }

  lemma SameProp(a: Region, b: Region, cur: nat)
    requires SameUpTo(a, b)
    ensures ReadProp(a, cur) == ReadProp(b, cur)
  {
    SameWord(a, b, cur);
    SameWord(a, b, cur + 4);
    var len := ReadStructU32(a, cur);
    if len.Some? && cur + 8 + len.value.0 <= a.end {
      SameSlice(a, b, cur + 8, cur + 8 + len.value.0);
    }
  }

  lemma SameToken(a: Region, b: Region, cur: nat)
    requires SameUpTo(a, b)
    ensures NextToken(a, cur) == NextToken(b, cur)
  {
    SameWord(a, b, cur);
    SameCstr(a, b, cur + 4);
    SameProp(a, b, cur + 4);
  }

  lemma {:induction false} SameRun(a: Region, b: Region, cur: nat, s: Scan)
    requires SameUpTo(a, b)
    ensures Run(a, cur, s) == Run(b, cur, s)
    decreases a.end - cur
  {
    SameToken(a, b, cur);
    var t := NextToken(a, cur);
    if t.Step? && Apply(s, t.event).Some? {
      SameRun(a, b, t.next, Apply(s, t.event).value);
    }
  }

  lemma SameHeaderWord(a: seq<Byte>, b: seq<Byte>, n: nat, offset: nat)
    requires n <= |a| && n <= |b| && a[..n] == b[..n] && offset + 4 <= n
    ensures ReadBe32(a, offset) == ReadBe32(b, offset)
  {
    forall i | 0 <= i < n
      ensures a[i] == b[i]
    {
      assert a[i] == a[..n][i] && b[i] == b[..n][i];
    }
  }

  lemma SamePart(a: seq<Byte>, b: seq<Byte>, n: nat, i: nat, j: nat)
    requires n <= |a| && n <= |b| && a[..n] == b[..n] && i <= j <= n
    ensures a[i..j] == b[i..j]
  {
    assert a[i..j] == a[..n][i..j] && b[i..j] == b[..n][i..j];
  }

  lemma SameHeader(a: seq<Byte>, b: seq<Byte>, n: nat)
    requires DecodeHeaderPrefix(a) == Some(n)
    requires n <= |a| && n <= |b| && a[..n] == b[..n]
    ensures DecodeHeader(a).Some? <==> DecodeHeader(b).Some?
    ensures DecodeHeader(a).Some? ==>
              && DecodeHeader(a).value.structOff == DecodeHeader(b).value.structOff
              && SameUpTo(DecodeHeader(a).value.region, DecodeHeader(b).value.region)
  {
    SameHeaderWord(a, b, n, 0);
    SameHeaderWord(a, b, n, 4);
    SameHeaderWord(a, b, n, 8);
    SameHeaderWord(a, b, n, 12);
    SameHeaderWord(a, b, n, 32);
    SameHeaderWord(a, b, n, 36);
    var h := DecodeHeader(a);
    if h.Some? {
      var stringsOff := ReadBe32(a, 12).value;
      SamePart(a, b, n, stringsOff, stringsOff + ReadBe32(a, 32).value);
      SamePart(a, b, n, 0, h.value.region.end);
    }
  }

  /** Two blobs that agree on the declared size parse alike, whatever follows. */
  lemma ParseIgnoresTrailingBytes(a: seq<Byte>, b: seq<Byte>, n: nat)
    requires DecodeHeaderPrefix(a) == Some(n)
    requires n <= |a| && n <= |b| && a[..n] == b[..n]
    ensures Parse(a) == Parse(b)
  {
    SameHeader(a, b, n);
    var ha, hb := DecodeHeader(a), DecodeHeader(b);
    if ha.Some? {
      SameRun(ha.value.region, hb.value.region, ha.value.structOff, START);
    }
  }

  lemma ParseOfPrefix(blob: seq<Byte>, n: nat)
    requires DecodeHeaderPrefix(blob) == Some(n) && n <= |blob|
    ensures Parse(blob) == Parse(blob[..n])
  {
    assert blob[..n][..n] == blob[..n];
    ParseIgnoresTrailingBytes(blob, blob[..n], n);
  }
}
