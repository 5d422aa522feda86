/** The blob builder of the dtb.rs test module, and the proof that parser and printer are inverse. */
module DtbPrinter {
  import opened Machine
  import opened DtbFormat
  import opened DtbEvents
  import opened DtbParser

  function Zeros(n: nat): (z: seq<Byte>)
    ensures |z| == n
  {
    seq(n, _ => 0)
  }

  function Pad4(s: seq<Byte>): (p: seq<Byte>)
    ensures |p| % 4 == 0 && |s| <= |p| < |s| + 4
  {
    s + Zeros((4 - |s| % 4) % 4)
  }

  function EncodeEvent(e: Event, nameOff: nat): (bytes: seq<Byte>)
    ensures |bytes| % 4 == 0 && |bytes| >= 4
  {
    match e
    case Begin(name) => Pad4(Be32(FDT_BEGIN_NODE) + (name + [0]))
    case End => Be32(FDT_END_NODE)
    case Prop(_, value) => Pad4(Be32(FDT_PROP) + (Be32(|value|) + (Be32(nameOff) + value)))
    case Nop => Be32(FDT_NOP)
  }

  function EventName(e: Event): seq<Byte> {
    if e.Prop? then e.key + [0] else []
  }

  function EncodeStrings(es: seq<Event>): seq<Byte> {
    if es == [] then [] else EventName(es[0]) + EncodeStrings(es[1..])
  }

  function EncodeEvents(es: seq<Event>, nameOff: nat): seq<Byte> {
    if es == [] then []
    else EncodeEvent(es[0], nameOff) + EncodeEvents(es[1..], nameOff + |EventName(es[0])|)
  }

  function HeaderBytes(structLen: nat, stringsLen: nat): (bytes: seq<Byte>)
    ensures |bytes| == FDT_HEADER_SIZE
  {
    var stringsOff := FDT_HEADER_SIZE + structLen;
    Be32(FDT_MAGIC) + Be32(stringsOff + stringsLen) + Be32(FDT_HEADER_SIZE) + Be32(stringsOff)
    + ((Be32(0) + Be32(17) + Be32(16) + Be32(0)) + (Be32(stringsLen) + Be32(structLen)))
  }

  function StructBlock(es: seq<Event>): seq<Byte> {
    EncodeEvents(es, 0) + Be32(FDT_END)
  }

  /** The blob a builder finishes after the calls `es`. */
  function Blob(es: seq<Event>): seq<Byte> {
    var block, strings := StructBlock(es), EncodeStrings(es);
    HeaderBytes(|block|, |strings|) + (block + strings)
  }

  lemma {:induction false} EncodeEventsAligned(es: seq<Event>, nameOff: nat)
    ensures |EncodeEvents(es, nameOff)| % 4 == 0
  {
    hide Be32, EncodeEvent, EventName;
    if es != [] {
      EncodeEventsAligned(es[1..], nameOff + |EventName(es[0])|);
    }
  }

  ghost predicate NulFreeNames(es: seq<Event>) {
    forall i :: 0 <= i < |es| ==>
      (es[i].Begin? ==> NulFree(es[i].name)) && (es[i].Prop? ==> NulFree(es[i].key))
  }

  // ---- lexing one printed event --------------------------------------------------

  lemma {:induction false} FindNulAt(r: Region, idx: nat, k: nat)
    requires idx <= k < r.end && r.Valid()
    requires forall i :: idx <= i < k ==> r.blob[i] != 0
    requires r.blob[k] == 0
    ensures FindNul(r, idx) == Some(k)
    decreases k - idx
  {
    if idx < k {
      FindNulAt(r, idx + 1, k);
    }
  }

  lemma PrintedWord(r: Region, cur: nat, v: nat)
    requires r.Valid() && At(r.blob, cur, Be32(v)) && cur + 4 <= r.end && v < TWO32
    ensures ReadStructU32(r, cur) == Some((v, cur + 4))
  {
    ReadBe32Printed(r.blob, cur, v);
  }

  /** A name printed with its NUL and padding reads back whole. */
  lemma PrintedCstr(r: Region, cur: nat, name: seq<Byte>, next: nat)
    requires r.Valid() && NulFree(name) && At(r.blob, cur, name + [0])
    requires cur + |name| + 1 <= next < cur + |name| + 5 && next % 4 == 0 && next <= r.end
    ensures ReadCstr(r, cur) == Some((name, next))
  {
    AtSplit(r.blob, cur, name, [0]);
    var k := cur + |name|;
    assert r.blob[cur..k] == name;
    forall i | cur <= i < k
      ensures r.blob[i] != 0
    {
      assert r.blob[i] == r.blob[cur..k][i - cur];
    }
    assert r.blob[k] == r.blob[k..k + 1][0];
    FindNulAt(r, cur, k);
  }

  lemma {:induction false} CstrAtPrinted(strings: seq<Byte>, off: nat, name: seq<Byte>)
    requires NulFree(name) && At(strings, off, name + [0])
    ensures CstrAt(strings, off) == Some(name)
  {
    var rest := strings[off..];
    assert forall i :: 0 <= i <= |name| ==> rest[i] == strings[off..off + |name| + 1][i];
    PositionUnique(rest, 0, |name|);
    assert rest[..|name|] == name;
  }

  lemma PrintedBegin(r: Region, cur: nat, name: seq<Byte>, off: nat)
    requires r.Valid() && NulFree(name) && cur % 4 == 0
    requires At(r.blob, cur, EncodeEvent(Begin(name), off)) && cur + |EncodeEvent(Begin(name), off)| <= r.end
    ensures NextToken(r, cur) == Step(Begin(name), cur + |EncodeEvent(Begin(name), off)|)
  {
    hide Be32, ReadStructU32, ReadCstr, ReadProp, At;
    var body := Be32(FDT_BEGIN_NODE) + (name + [0]);
    AtSplit(r.blob, cur, body, Zeros((4 - |body| % 4) % 4));
    AtSplit(r.blob, cur, Be32(FDT_BEGIN_NODE), name + [0]);
    PrintedWord(r, cur, FDT_BEGIN_NODE);
    PrintedCstr(r, cur + 4, name, cur + |Pad4(body)|);
  }

  lemma PrintedPropBody(r: Region, cur: nat, name: seq<Byte>, value: seq<Byte>, off: nat, next: nat)
    requires r.Valid() && off < TWO32 && CstrAt(r.strings, off) == Some(name)
    requires At(r.blob, cur, Be32(|value|) + (Be32(off) + value))
    requires cur + 8 + |value| <= next < cur + 12 + |value| && next % 4 == 0 && next <= r.end
    ensures ReadProp(r, cur) == Some((Prop(name, value), next))
  {
    hide Be32, ReadStructU32, CstrAt;
    AtSplit(r.blob, cur, Be32(|value|), Be32(off) + value);
    AtSplit(r.blob, cur + 4, Be32(off), value);
    PrintedWord(r, cur, |value|);
    PrintedWord(r, cur + 4, off);
  }

  lemma PrintedProp(r: Region, cur: nat, name: seq<Byte>, value: seq<Byte>, off: nat)
    requires r.Valid() && cur % 4 == 0 && off < TWO32 && CstrAt(r.strings, off) == Some(name)
    requires At(r.blob, cur, EncodeEvent(Prop(name, value), off))
    requires cur + |EncodeEvent(Prop(name, value), off)| <= r.end
    ensures NextToken(r, cur) == Step(Prop(name, value), cur + |EncodeEvent(Prop(name, value), off)|)
  {
    hide Be32, ReadStructU32, ReadCstr, ReadProp, At, CstrAt;
    var fields := Be32(|value|) + (Be32(off) + value);
    var body := Be32(FDT_PROP) + fields;
    AtSplit(r.blob, cur, body, Zeros((4 - |body| % 4) % 4));
    AtSplit(r.blob, cur, Be32(FDT_PROP), fields);
    PrintedWord(r, cur, FDT_PROP);
    PrintedPropBody(r, cur + 4, name, value, off, cur + |Pad4(body)|);
  }

  lemma PrintedEvent(r: Region, cur: nat, e: Event, off: nat)
    requires r.Valid() && cur % 4 == 0 && NulFreeNames([e])
    requires At(r.blob, cur, EncodeEvent(e, off)) && cur + |EncodeEvent(e, off)| <= r.end
    requires e.Prop? ==> off < TWO32 && At(r.strings, off, e.key + [0])
    ensures NextToken(r, cur) == Step(e, cur + |EncodeEvent(e, off)|)
  {
    hide Be32, ReadCstr, ReadProp, CstrAt, At, ReadStructU32;
    assert [e][0] == e;
    match e
    case Begin(name) => PrintedBegin(r, cur, name, off);
    case End => PrintedWord(r, cur, FDT_END_NODE);
    case Nop => PrintedWord(r, cur, FDT_NOP);
    case Prop(name, value) =>
      CstrAtPrinted(r.strings, off, name);
      PrintedProp(r, cur, name, value, off);
  }

  lemma ConcatAssoc(a: seq<Byte>, b: seq<Byte>, c: seq<Byte>)
    ensures a + b + c == a + (b + c)
  {
  }

  lemma NamesSplit(es: seq<Event>)
    requires NulFreeNames(es) && es != []
    ensures NulFreeNames([es[0]]) && NulFreeNames(es[1..])
  {
  }

  lemma AtInside(buf: seq<Byte>, offset: nat, part: seq<Byte>)
    requires At(buf, offset, part)
    ensures offset + |part| <= |buf|
  {
  }

  // ---- lexing a printed block ----------------------------------------------------

  /** At `cur` stand the printed events and FDT_END; at `off` of the strings stand their names. */
  ghost predicate Printed(r: Region, cur: nat, es: seq<Event>, off: nat) {
    && r.Valid() && cur % 4 == 0 && |r.strings| < TWO32
    && NulFreeNames(es)
    && At(r.blob, cur, EncodeEvents(es, off) + Be32(FDT_END))
    && cur + |EncodeEvents(es, off)| + 4 <= r.end
    && At(r.strings, off, EncodeStrings(es))
  }

  lemma PrintedStep(r: Region, cur: nat, es: seq<Event>, off: nat)
    requires Printed(r, cur, es, off) && es != []
    ensures NextToken(r, cur) == Step(es[0], cur + |EncodeEvent(es[0], off)|)
    ensures Printed(r, cur + |EncodeEvent(es[0], off)|, es[1..], off + |EventName(es[0])|)
  {
    hide Be32, EncodeEvent, At, NextToken, NulFreeNames;
    NamesSplit(es);
    var first, name := EncodeEvent(es[0], off), EventName(es[0]);
    var rest := EncodeEvents(es[1..], off + |name|);
    ConcatAssoc(first, rest, Be32(FDT_END));
    AtSplit(r.blob, cur, first, rest + Be32(FDT_END));
    AtSplit(r.strings, off, name, EncodeStrings(es[1..]));
    AtInside(r.strings, off, name);
    PrintedEvent(r, cur, es[0], off);
  }

  lemma PrintedEnd(r: Region, cur: nat, off: nat)
    requires Printed(r, cur, [], off)
    ensures NextToken(r, cur) == Stop
  {
    hide Be32, At, ReadStructU32;
    assert EncodeEvents([], off) + Be32(FDT_END) == Be32(FDT_END);
    PrintedWord(r, cur, FDT_END);
  }

  lemma {:induction false} LexPrinted(r: Region, cur: nat, es: seq<Event>, off: nat)
    requires Printed(r, cur, es, off)
    ensures Lex(r, cur) == Some(es)
    decreases |es|
  {
    hide Be32, EncodeEvent, EncodeEvents, At, NextToken, Printed, EventName, EncodeStrings;
    if es == [] {
      PrintedEnd(r, cur, off);
    } else {
      PrintedStep(r, cur, es, off);
      LexPrinted(r, cur + |EncodeEvent(es[0], off)|, es[1..], off + |EventName(es[0])|);
      assert [es[0]] + es[1..] == es;
    }
  }

  lemma HeaderFront(blob: seq<Byte>, w0: nat, w1: nat, w2: nat, w3: nat, rest: seq<Byte>)
    requires At(blob, 0, Be32(w0) + Be32(w1) + Be32(w2) + Be32(w3) + rest)
    requires w0 < TWO32 && w1 < TWO32 && w2 < TWO32 && w3 < TWO32
    ensures ReadBe32(blob, 0) == Some(w0) && ReadBe32(blob, 4) == Some(w1)
    ensures ReadBe32(blob, 8) == Some(w2) && ReadBe32(blob, 12) == Some(w3)
    ensures At(blob, 16, rest)
  {
    hide Be32, ReadBe32;
    AtSplit(blob, 0, Be32(w0) + Be32(w1) + Be32(w2) + Be32(w3), rest);
    AtSplit(blob, 0, Be32(w0) + Be32(w1) + Be32(w2), Be32(w3));
    AtSplit(blob, 0, Be32(w0) + Be32(w1), Be32(w2));
    AtSplit(blob, 0, Be32(w0), Be32(w1));
    ReadBe32Printed(blob, 0, w0);
    ReadBe32Printed(blob, 4, w1);
    ReadBe32Printed(blob, 8, w2);
    ReadBe32Printed(blob, 12, w3);
  }

  /** The words `DecodeHeader` looks at, as the builder wrote them. */
  lemma HeaderPrinted(blob: seq<Byte>, structLen: nat, stringsLen: nat)
    requires At(blob, 0, HeaderBytes(structLen, stringsLen))
    requires FDT_HEADER_SIZE + structLen + stringsLen < TWO32
    ensures ReadBe32(blob, 0) == Some(FDT_MAGIC)
    ensures ReadBe32(blob, 4) == Some(FDT_HEADER_SIZE + structLen + stringsLen)
    ensures ReadBe32(blob, 8) == Some(FDT_HEADER_SIZE)
    ensures ReadBe32(blob, 12) == Some(FDT_HEADER_SIZE + structLen)
    ensures ReadBe32(blob, 32) == Some(stringsLen)
    ensures ReadBe32(blob, 36) == Some(structLen)
  {
    hide Be32, ReadBe32, At;
    var so := FDT_HEADER_SIZE + structLen;
    var fixed := Be32(0) + Be32(17) + Be32(16) + Be32(0);
    HeaderFront(blob, FDT_MAGIC, so + stringsLen, FDT_HEADER_SIZE, so, fixed + (Be32(stringsLen) + Be32(structLen)));
    AtSplit(blob, 16, fixed, Be32(stringsLen) + Be32(structLen));
    AtSplit(blob, 32, Be32(stringsLen), Be32(structLen));
    AtInside(blob, 36, Be32(structLen));
    PrintedAt(blob, 32, stringsLen);
    PrintedAt(blob, 36, structLen);
  }

  lemma PrintedAt(blob: seq<Byte>, offset: nat, v: nat)
    requires At(blob, offset, Be32(v)) && v < TWO32 && offset + 4 <= U64_MAX
    ensures ReadBe32(blob, offset) == Some(v)
  {
    ReadBe32Printed(blob, offset, v);
  }

  lemma PrintedHeader(es: seq<Event>)
    requires |Blob(es)| < TWO32
    ensures DecodeHeader(Blob(es)) ==
            Some(Header(Region(Blob(es), EncodeStrings(es), FDT_HEADER_SIZE + |StructBlock(es)|), FDT_HEADER_SIZE))
    ensures At(Blob(es), FDT_HEADER_SIZE, StructBlock(es))
    ensures |Blob(es)| <= FDT_MAX_SIZE ==> DecodeHeaderPrefix(Blob(es)) == Some(|Blob(es)|)
  {
    hide Be32, ReadBe32, EncodeStrings, EncodeEvents, StructBlock, HeaderBytes;
    var blob, block, strings := Blob(es), StructBlock(es), EncodeStrings(es);
    var header := HeaderBytes(|block|, |strings|);
    assert At(blob, 0, blob);
    AtSplit(blob, 0, header, block + strings);
    AtSplit(blob, FDT_HEADER_SIZE, block, strings);
    HeaderPrinted(blob, |block|, |strings|);
  }

  /** Printing then lexing returns the very events that were printed. */
  lemma TokensOfPrinted(es: seq<Event>)
    requires NulFreeNames(es) && |Blob(es)| < TWO32
    ensures Tokens(Blob(es)) == Some(es)
  {
    hide Be32, ReadBe32, EncodeStrings, EncodeEvents, HeaderBytes, DecodeHeader, Lex;
    PrintedHeader(es);
    var r := DecodeHeader(Blob(es)).value.region;
    LexPrinted(r, FDT_HEADER_SIZE, es, 0);
  }

  /** Parsing a printed blob equals folding the printed events, accepted or rejected alike. */
  lemma ParsePrinted(es: seq<Event>)
    requires NulFreeNames(es) && |Blob(es)| < TWO32
    ensures Parse(Blob(es)) == Meaning(es)
  {
    hide *;
    TokensOfPrinted(es);
    ParseIsMeaningOfTokens(Blob(es));
  }

  lemma {:induction false} DropNopsNames(es: seq<Event>)
    requires NulFreeNames(es)
    ensures NulFreeNames(DropNops(es))
  {
    if es != [] {
      DropNopsNames(es[1..]);
    }
  }

  lemma {:induction false} DropNopsSize(es: seq<Event>, off: nat)
    ensures |EncodeEvents(DropNops(es), off)| <= |EncodeEvents(es, off)|
    ensures EncodeStrings(DropNops(es)) == EncodeStrings(es)
  {
    if es != [] {
      DropNopsSize(es[1..], off + |EventName(es[0])|);
      if !es[0].Nop? {
        assert DropNops(es)[1..] == DropNops(es[1..]);
      } else {
        assert [] + EncodeStrings(es[1..]) == EncodeStrings(es[1..]);
      }
    }
  }

  /** NOP tokens between events change no result. */
  lemma ParseIgnoresNops(es: seq<Event>)
    requires NulFreeNames(es) && |Blob(es)| < TWO32
    ensures Parse(Blob(es)) == Parse(Blob(DropNops(es)))
  {
    DropNopsNames(es);
    DropNopsSize(es, 0);
    ParsePrinted(es);
    ParsePrinted(DropNops(es));
    NopsChangeNothing(START, es);
  }

  // ---- the builder ---------------------------------------------------------------

  lemma {:induction false} EncodeSnoc(es: seq<Event>, e: Event, off: nat)
    ensures EncodeEvents(es + [e], off) == EncodeEvents(es, off) + EncodeEvent(e, off + |EncodeStrings(es)|)
    ensures EncodeStrings(es + [e]) == EncodeStrings(es) + EventName(e)
    decreases |es|
  {
    hide Be32, EncodeEvent, EventName;
    if es == [] {
      assert es + [e] == [e];
      EncodeOne(e, off);
    } else {
      var first, name := EncodeEvent(es[0], off), EventName(es[0]);
      assert (es + [e])[0] == es[0] && (es + [e])[1..] == es[1..] + [e];
      EncodeSnoc(es[1..], e, off + |name|);
      ConcatAssoc(name, EncodeStrings(es[1..]), EventName(e));
      ConcatAssoc(first, EncodeEvents(es[1..], off + |name|), EncodeEvent(e, off + |EncodeStrings(es)|));
    }
  }

  lemma EncodeOne(e: Event, off: nat)
    ensures EncodeEvents([e], off) == EncodeEvent(e, off)
    ensures EncodeStrings([e]) == EventName(e)
  {
    hide Be32, EncodeEvent, EventName;
    assert [e][1..] == [];
    assert EncodeEvents([], off + |EventName(e)|) == [];
    assert EncodeEvent(e, off) + [] == EncodeEvent(e, off);
    assert EventName(e) + [] == EventName(e);
  }

  class BlobBuilder {
    var block: seq<Byte>
    var strings: seq<Byte>
    ghost var events: seq<Event>

    ghost predicate Valid()
      reads this
    {
      block == EncodeEvents(events, 0) && strings == EncodeStrings(events)
    }

    constructor ()
      ensures Valid() && events == []
    {
      block, strings, events := [], [], [];
    }

    method PushToken(token: nat)
      modifies this`block
      ensures block == old(block) + Be32(token)
    {
      block := block + Be32(token);
    }

    /** Both loops of the builder: zero bytes up to the next multiple of four. */
    method PadBlock(ghost start: nat)
      requires start <= |block| && start % 4 == 0
      modifies this`block
      ensures block == old(block)[..start] + Pad4(old(block)[start..])
    {
      ghost var was := block;
      ghost var need := (4 - |block[start..]| % 4) % 4;
      while |block| % 4 != 0
        invariant |was| <= |block| <= |was| + need
        invariant block == was + Zeros(|block| - |was|)
        decreases |was| + need - |block|
      {
        assert Zeros(|block| - |was|) + [0] == Zeros(|block| - |was| + 1);
        block := block + [0];
      }
      assert |block| == |was| + need;
      assert was == was[..start] + was[start..];
    }

    method BeginNode(name: seq<Byte>)
      requires Valid()
      modifies this
      ensures Valid() && events == old(events) + [Begin(name)]
    {
      hide Be32, EncodeEvents, EncodeStrings, Pad4;
      EncodeEventsAligned(events, 0);
      ghost var start := |block|;
      PushToken(FDT_BEGIN_NODE);
      block := block + name;
      block := block + [0];
      assert block[start..] == Be32(FDT_BEGIN_NODE) + (name + [0]);
      PadBlock(start);
      EncodeSnoc(events, Begin(name), 0);
      events := events + [Begin(name)];
    }

    method EndNode()
      requires Valid()
      modifies this
      ensures Valid() && events == old(events) + [End]
    {
      PushToken(FDT_END_NODE);
      EncodeSnoc(events, End, 0);
      events := events + [End];
    }

    method AddProp(name: seq<Byte>, value: seq<Byte>)
      requires Valid()
      modifies this
      ensures Valid() && events == old(events) + [Prop(name, value)]
    {
      hide Be32, EncodeEvents, EncodeStrings, Pad4;
      EncodeEventsAligned(events, 0);
      ghost var start := |block|;
      var nameOff := |strings|;
      strings := strings + name;
      strings := strings + [0];
      PushToken(FDT_PROP);
      block := block + Be32(|value|);
      block := block + Be32(nameOff);
      block := block + value;
      assert block[start..] == Be32(FDT_PROP) + (Be32(|value|) + (Be32(nameOff) + value));
      PadBlock(start);
      EncodeSnoc(events, Prop(name, value), 0);
      assert strings == EncodeStrings(events) + EventName(Prop(name, value));
      events := events + [Prop(name, value)];
    }

    /** Finishing yields a blob whose parse is the meaning of the calls made. */
    method Finish() returns (blob: seq<Byte>)
      requires Valid()
      modifies this`block
      ensures blob == Blob(events)
      ensures NulFreeNames(events) && |blob| < TWO32 ==> Parse(blob) == Meaning(events)
    {
      PushToken(FDT_END);
      blob := HeaderBytes(|block|, |strings|) + (block + strings);
      if NulFreeNames(events) && |blob| < TWO32 {
        ParsePrinted(events);
      }
    }
  }
}
