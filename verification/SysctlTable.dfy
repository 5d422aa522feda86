/** The slot table of functions/config/sysctl.rs, proved to be a bounded map. */
module SysctlTable {
  import opened Machine
  import opened Sysctl

  datatype Entry = Entry(name: string, kind: Kind, intVal: I64, uintVal: U64, boolVal: bool)

  function EntryRead(e: Entry): Value {
    match e.kind
    case IntKind => Int(e.intVal)
    case UIntKind => UInt(e.uintVal)
    case BoolKind => Bool(e.boolVal)
  }

  /** `SysctlEntry::write`; None is a type mismatch. */
  function EntryWrite(e: Entry, v: Value): Option<Entry> {
    match (e.kind, v)
    case (IntKind, Int(i)) => Some(e.(intVal := i))
    case (UIntKind, UInt(u)) => Some(e.(uintVal := u))
    case (BoolKind, Bool(b)) => Some(e.(boolVal := b))
    case _ => None
  }

  function NewEntry(name: string, kind: Kind, initial: Value): Entry {
    var e := Entry(name, kind, 0, 0, false);
    EntryWrite(e, initial).UnwrapOr(e)
  }

  function ZeroOf(kind: Kind): Value {
    match kind
    case IntKind => Int(0)
    case UIntKind => UInt(0)
    case BoolKind => Bool(false)
  }

  /** The value a new node starts with: a mismatched initial value is dropped. */
  function StartValue(kind: Kind, initial: Value): Value {
    if KindOf(initial) == kind then initial else ZeroOf(kind)
  }

  lemma EntryFacts(e: Entry, v: Value, name: string, kind: Kind)
    ensures KindOf(EntryRead(e)) == e.kind
    ensures EntryWrite(e, v).Some? <==> KindOf(v) == e.kind
    ensures EntryWrite(e, v).Some? ==>
              var e' := EntryWrite(e, v).value;
              e'.name == e.name && e'.kind == e.kind && EntryRead(e') == v
    ensures NewEntry(name, kind, v).name == name && EntryRead(NewEntry(name, kind, v)) == StartValue(kind, v)
  {
  }

  // ---- the table as a sequence of entries -------------------------------------------------

  ghost predicate DistinctNames(es: seq<Entry>) {
    forall i, j :: 0 <= i < j < |es| ==> es[i].name != es[j].name
  }

  /** The first entry with that name, or the length. */
  function Find(es: seq<Entry>, name: string): (k: nat)
    ensures k <= |es|
    ensures k < |es| ==> es[k].name == name
    ensures forall i :: 0 <= i < k ==> es[i].name != name
  {
    if es == [] || es[0].name == name then 0 else 1 + Find(es[1..], name)
  }

  datatype Op = Register(name: string, kind: Kind, initial: Value) | Write(name: string, value: Value)

  /** What a call does to the table, and the error it reports. */
  function TableStep(es: seq<Entry>, op: Op): (seq<Entry>, Option<Error>) {
    var k := Find(es, op.name);
    match op
    case Register(name, kind, initial) =>
      if k < |es| then (es, Some(Duplicate))
      else if |es| >= MAX_SYSCTL_ENTRIES then (es, Some(TableFull))
      else (es + [NewEntry(name, kind, initial)], None)
    case Write(_, v) =>
      if k == |es| then (es, Some(NotFound))
      else
        var e := EntryWrite(es[k], v);
        if e.None? then (es, Some(TypeMismatch)) else (es[k := e.value], None)
  }

  // ---- the map it stands for -----------------------------------------------------------

  function MapStep(m: map<string, Value>, op: Op): (map<string, Value>, Option<Error>) {
    match op
    case Register(name, kind, initial) =>
      if name in m then (m, Some(Duplicate))
      else if |m| >= MAX_SYSCTL_ENTRIES then (m, Some(TableFull))
      else (m[name := StartValue(kind, initial)], None)
    case Write(name, v) =>
      if name !in m then (m, Some(NotFound))
      else if KindOf(m[name]) != KindOf(v) then (m, Some(TypeMismatch))
      else (m[name := v], None)
  }

  function ToMap(es: seq<Entry>): map<string, Value> {
    if es == [] then map[]
    else ToMap(es[..|es| - 1])[es[|es| - 1].name := EntryRead(es[|es| - 1])]
  }

  lemma {:induction false} ToMapDomain(es: seq<Entry>, name: string)
    ensures name in ToMap(es) <==> Find(es, name) < |es|
  {
    if es != [] {
      var rest := es[..|es| - 1];
      ToMapDomain(rest, name);
      FindSnoc(rest, es[|es| - 1], name);
      assert es == rest + [es[|es| - 1]];
    }
  }

  lemma {:induction false} FindSnoc(es: seq<Entry>, e: Entry, name: string)
    ensures Find(es + [e], name) ==
            if Find(es, name) < |es| then Find(es, name) else if e.name == name then |es| else |es| + 1
  {
    var k := Find(es + [e], name);
    var j := Find(es, name);
    assert forall i :: 0 <= i < |es| ==> (es + [e])[i] == es[i];
    assert (es + [e])[|es|] == e;
    if j < |es| {
      assert k == j;
    } else if e.name == name {
      assert k == |es|;
    }
  }

  lemma {:induction false} ToMapAt(es: seq<Entry>, i: nat)
    requires DistinctNames(es) && i < |es|
    ensures es[i].name in ToMap(es) && ToMap(es)[es[i].name] == EntryRead(es[i])
  {
    var last := |es| - 1;
    if i < last {
      assert es[i].name != es[last].name;
      ToMapAt(es[..last], i);
    }
  }

  lemma {:induction false} ToMapSize(es: seq<Entry>)
    requires DistinctNames(es)
    ensures |ToMap(es)| == |es|
  {
    if es != [] {
      var rest, last := es[..|es| - 1], es[|es| - 1];
      ToMapSize(rest);
      ToMapDomain(rest, last.name);
      assert forall i :: 0 <= i < |rest| ==> rest[i].name == es[i].name;
    }
  }

  lemma ToMapSnoc(es: seq<Entry>, e: Entry)
    ensures ToMap(es + [e]) == ToMap(es)[e.name := EntryRead(e)]
  {
    assert (es + [e])[..|es|] == es;
  }

  lemma {:induction false} ToMapUpdate(es: seq<Entry>, k: nat, e: Entry)
    requires DistinctNames(es) && k < |es| && e.name == es[k].name
    ensures ToMap(es[k := e]) == ToMap(es)[e.name := EntryRead(e)]
    decreases |es|
  {
    var last := |es| - 1;
    var rest := es[..last];
    assert es[k := e][..last] == if k < last then rest[k := e] else rest;
    if k < last {
      assert es[k].name != es[last].name;
      ToMapUpdate(rest, k, e);
    }
  }

  lemma RegisterIsMapStep(es: seq<Entry>, op: Op)
    requires DistinctNames(es) && op.Register?
    ensures var (es', err) := TableStep(es, op);
            DistinctNames(es') && MapStep(ToMap(es), op) == (ToMap(es'), err)
  {
    hide ToMap, EntryRead, EntryWrite, NewEntry, StartValue;
    ToMapDomain(es, op.name);
    ToMapSize(es);
    var e := NewEntry(op.name, op.kind, op.initial);
    EntryFacts(e, op.initial, op.name, op.kind);
    ToMapSnoc(es, e);
  }

  lemma WriteIsMapStep(es: seq<Entry>, op: Op)
    requires DistinctNames(es) && op.Write?
    ensures var (es', err) := TableStep(es, op);
            DistinctNames(es') && MapStep(ToMap(es), op) == (ToMap(es'), err)
  {
    hide ToMap, EntryRead, EntryWrite, NewEntry, KindOf;
    var k := Find(es, op.name);
    ToMapDomain(es, op.name);
    if k < |es| {
      EntryFacts(es[k], op.value, op.name, es[k].kind);
      ToMapAt(es, k);
      if EntryWrite(es[k], op.value).Some? {
        ToMapUpdate(es, k, EntryWrite(es[k], op.value).value);
      }
    }
  }

  /** Every call acts on the table as it acts on the map, with the same verdict; failed calls change nothing. */
  lemma StepIsMapStep(es: seq<Entry>, op: Op)
    requires DistinctNames(es)
    ensures var (es', err) := TableStep(es, op);
            && DistinctNames(es')
            && MapStep(ToMap(es), op) == (ToMap(es'), err)
            && (err.Some? ==> es' == es)
            && (|es| <= MAX_SYSCTL_ENTRIES ==> |es'| <= MAX_SYSCTL_ENTRIES)
  {
    hide ToMap, MapStep, EntryWrite, NewEntry, DistinctNames;
    if op.Register? {
      RegisterIsMapStep(es, op);
    } else {
      WriteIsMapStep(es, op);
    }
  }

  /** A registration fails on a known name or a full table; else the node starts with its value, or with its kind's zero. */
  lemma RegisterEffects(es: seq<Entry>, name: string, kind: Kind, initial: Value)
    requires |es| <= 32
    ensures var (es', err) := TableStep(es, Register(name, kind, initial));
            && err == (if exists i :: 0 <= i < |es| && es[i].name == name then Some(Duplicate)
                       else if |es| == 32 then Some(TableFull) else None)
            && (err.Some? ==> es' == es)
            && (err.None? ==>
                  && |es'| == |es| + 1 && es'[..|es|] == es && es'[|es|].name == name && es'[|es|].kind == kind
                  && EntryRead(es'[|es|]) ==
                     match (kind, initial)
                     case (IntKind, Int(i)) => Int(i)
                     case (IntKind, _) => Int(0)
                     case (UIntKind, UInt(u)) => UInt(u)
                     case (UIntKind, _) => UInt(0)
                     case (BoolKind, Bool(b)) => Bool(b)
                     case (BoolKind, _) => Bool(false))
  {
  }

  /** A write fails on an unknown name or a value of another kind; else it replaces that node's value alone. */
  lemma WriteEffects(es: seq<Entry>, name: string, v: Value)
    requires DistinctNames(es)
    ensures var (es', err) := TableStep(es, Write(name, v));
            && |es'| == |es| && (err.Some? ==> es' == es)
            && ((forall i :: 0 <= i < |es| ==> es[i].name != name) ==> err == Some(NotFound))
            && forall i :: 0 <= i < |es| ==>
                 if es[i].name != name then es'[i] == es[i]
                 else
                   && err == (if v.Int? == es[i].kind.IntKind? && v.UInt? == es[i].kind.UIntKind? then None else Some(TypeMismatch))
                   && (err.None? ==> es'[i].name == name && es'[i].kind == es[i].kind && EntryRead(es'[i]) == v)
  {
  }

  // ---- histories -------------------------------------------------------------------------

  function TableAfter(ops: seq<Op>): seq<Entry> {
    if ops == [] then [] else TableStep(TableAfter(ops[..|ops| - 1]), ops[|ops| - 1]).0
  }

  function MapAfter(ops: seq<Op>): map<string, Value> {
    if ops == [] then map[] else MapStep(MapAfter(ops[..|ops| - 1]), ops[|ops| - 1]).0
  }

  lemma EmptyTable()
    ensures DistinctNames([]) && ToMap([]) == map[]
  {
  }

  /** After any sequence of calls the table has unique names and stands for the map built by the same calls. */
  lemma {:induction false} TableIsMap(ops: seq<Op>)
    ensures DistinctNames(TableAfter(ops)) && |TableAfter(ops)| <= MAX_SYSCTL_ENTRIES
    ensures ToMap(TableAfter(ops)) == MapAfter(ops)
  {
    if ops == [] {
      EmptyTable();
    } else {
      hide ToMap, MapStep, TableStep, DistinctNames;
      TableIsMap(ops[..|ops| - 1]);
      StepIsMapStep(TableAfter(ops[..|ops| - 1]), ops[|ops| - 1]);
    }
  }

  /** Call `k` is the registration that created `name`. */
  ghost predicate Created(ops: seq<Op>, k: nat, name: string) {
    && k < |ops| && ops[k].Register? && ops[k].name == name
    && name !in MapAfter(ops[..k]) && |MapAfter(ops[..k])| < MAX_SYSCTL_ENTRIES
  }

  predicate CorrectWrite(op: Op, name: string, kind: Kind) {
    op.Write? && op.name == name && KindOf(op.value) == kind
  }

  /** The value of the last type-correct write after `k`, or the start value when there is none. */
  function LastCorrect(ops: seq<Op>, k: nat, name: string): Value
    requires k < |ops| && ops[k].Register?
    decreases |ops|
  {
    var last := |ops| - 1;
    if k == last then StartValue(ops[k].kind, ops[k].initial)
    else if CorrectWrite(ops[last], name, ops[k].kind) then ops[last].value
    else LastCorrect(ops[..last], k, name)
  }

  lemma {:induction false} LastCorrectKind(ops: seq<Op>, k: nat, name: string)
    requires k < |ops| && ops[k].Register?
    ensures KindOf(LastCorrect(ops, k, name)) == ops[k].kind
    decreases |ops|
  {
    if k < |ops| - 1 {
      LastCorrectKind(ops[..|ops| - 1], k, name);
    }
  }

  lemma MapStepKeepsName(m: map<string, Value>, op: Op, name: string)
    requires name in m
    ensures var m' := MapStep(m, op).0;
            name in m' && m'[name] == if CorrectWrite(op, name, KindOf(m[name])) then op.value else m[name]
  {
  }

  /** A registered name reads as its last type-correct value, and keeps its kind forever. */
  lemma {:induction false} ReadsLastCorrect(ops: seq<Op>, k: nat, name: string)
    requires Created(ops, k, name)
    ensures name in MapAfter(ops) && MapAfter(ops)[name] == LastCorrect(ops, k, name)
    ensures KindOf(MapAfter(ops)[name]) == ops[k].kind
    decreases |ops|
  {
    var last := |ops| - 1;
    LastCorrectKind(ops, k, name);
    if k < last {
      hide MapStep, StartValue, KindOf;
      assert ops[..last][..k] == ops[..k];
      LastCorrectKind(ops[..last], k, name);
      ReadsLastCorrect(ops[..last], k, name);
      MapStepKeepsName(MapAfter(ops[..last]), ops[last], name);
    }
  }

  // ---- listing ---------------------------------------------------------------------------

  function Line(e: Entry): string {
    e.name + "\n"
  }

  /** The lines of a listing: one per entry with a non-empty name. */
  function Lines(es: seq<Entry>): seq<string> {
    if es == [] then []
    else if es[|es| - 1].name == "" then Lines(es[..|es| - 1])
    else Lines(es[..|es| - 1]) + [Line(es[|es| - 1])]
  }

  function Joined(lines: seq<string>): string {
    if lines == [] then "" else Joined(lines[..|lines| - 1]) + lines[|lines| - 1]
  }

  /** `text` is the longest run of leading whole lines no longer than `room`. */
  ghost predicate LongestRun(lines: seq<string>, room: nat, text: string) {
    exists k :: IsLongest(lines, room, text, k)
  }

  ghost predicate IsLongest(lines: seq<string>, room: nat, text: string, k: nat) {
    && k <= |lines| && text == Joined(lines[..k]) && |text| <= room
    && (k < |lines| ==> |Joined(lines[..k + 1])| > room)
  }

  lemma JoinedSnoc(lines: seq<string>, l: string)
    ensures Joined(lines + [l]) == Joined(lines) + l
  {
    assert (lines + [l])[..|lines|] == lines;
  }

  lemma {:induction false} LinesPrefix(es: seq<Entry>, i: nat)
    requires i <= |es|
    ensures Lines(es[..i]) <= Lines(es)
    decreases |es| - i
  {
    if i == |es| {
      assert es[..i] == es;
    } else {
      assert es[..i + 1][..i] == es[..i];
      LinesPrefix(es, i + 1);
    }
  }

  lemma ListStart(es: seq<Entry>)
    ensures Lines(es[..0]) == [] && Joined(Lines(es)[..0]) == ""
  {
  }

  /** Passing one more entry adds its line, unless it has no name. */
  lemma ListAdvance(es: seq<Entry>, i: nat, k: nat)
    requires i < |es| && k == |Lines(es[..i])|
    ensures k <= |Lines(es)|
    ensures es[i].name == "" ==> Lines(es[..i + 1]) == Lines(es[..i])
    ensures es[i].name != "" ==>
              && |Lines(es[..i + 1])| == k + 1 <= |Lines(es)|
              && Joined(Lines(es)[..k + 1]) == Joined(Lines(es)[..k]) + Line(es[i])
  {
    assert es[..i + 1][..i] == es[..i] && es[..i + 1][i] == es[i];
    LinesPrefix(es, i);
    LinesPrefix(es, i + 1);
    if es[i].name != "" {
      assert Lines(es)[..k + 1] == Lines(es)[..k] + [Line(es[i])];
      JoinedSnoc(Lines(es)[..k], Line(es[i]));
    }
  }

  // ---- the table as it runs ----------------------------------------------------------------

  class Table {
    const slots: array<Option<Entry>>
    ghost var used: nat

    ghost predicate Shaped()
      reads this, slots
    {
      && slots.Length == MAX_SYSCTL_ENTRIES && used <= MAX_SYSCTL_ENTRIES
      && forall i :: 0 <= i < MAX_SYSCTL_ENTRIES ==> (slots[i].Some? <==> i < used)
    }

    ghost function Entries(): (es: seq<Entry>)
      reads this, slots
      requires Shaped()
      ensures |es| == used && forall i :: 0 <= i < used ==> es[i] == slots[i].value
    {
      seq(used, i requires 0 <= i < used && slots.Length == MAX_SYSCTL_ENTRIES && used <= slots.Length && slots[i].Some? reads this, slots => slots[i].value)
    }

    ghost predicate Valid()
      reads this, slots
    {
      Shaped() && DistinctNames(Entries())
    }

    constructor ()
      ensures Valid() && Entries() == [] && fresh(slots)
    {
      slots := new Option<Entry>[MAX_SYSCTL_ENTRIES](_ => None);
      used := 0;
    }

    /** The scan every call starts with. */
    method FindSlot(name: string) returns (k: nat)
      requires Valid()
      ensures k < MAX_SYSCTL_ENTRIES ==> k == Find(Entries(), name) < used
      ensures k >= MAX_SYSCTL_ENTRIES ==> Find(Entries(), name) == used
    {
      k := 0;
      while k < MAX_SYSCTL_ENTRIES
        invariant k <= MAX_SYSCTL_ENTRIES
        invariant forall i :: 0 <= i < k && i < used ==> Entries()[i].name != name
      {
        if slots[k].Some? && slots[k].value.name == name {
          assert Entries()[k].name == name;
          return;
        }
        k := k + 1;
      }
    }

    method Store(k: nat, e: Entry)
      requires Shaped() && (k < used || (k == used < MAX_SYSCTL_ENTRIES))
      modifies this, slots
      ensures Shaped()
      ensures Entries() == if k < old(used) then old(Entries())[k := e] else old(Entries()) + [e]
    {
      slots[k] := Some(e);
      if k == used {
        used := used + 1;
      }
    }

    method DoRegister(name: string, kind: Kind, initial: Value) returns (err: Option<Error>)
      requires Valid()
      modifies this, slots
      ensures Valid() && (Entries(), err) == TableStep(old(Entries()), Register(name, kind, initial))
      ensures MapStep(old(ToMap(Entries())), Register(name, kind, initial)) == (ToMap(Entries()), err)
    {
      hide ToMap, MapStep, NewEntry;
      StepIsMapStep(Entries(), Register(name, kind, initial));
      var k := FindSlot(name);
      if k < MAX_SYSCTL_ENTRIES {
        return Some(Duplicate);
      }
      var entry := NewEntry(name, kind, initial);
      var i := 0;
      while i < MAX_SYSCTL_ENTRIES
        invariant i <= used
      {
        if slots[i].None? {
          Store(i, entry);
          return None;
        }
        i := i + 1;
      }
      err := Some(TableFull);
    }

    method DoWrite(name: string, v: Value) returns (err: Option<Error>)
      requires Valid()
      modifies this, slots
      ensures Valid() && (Entries(), err) == TableStep(old(Entries()), Write(name, v))
      ensures MapStep(old(ToMap(Entries())), Write(name, v)) == (ToMap(Entries()), err)
    {
      hide ToMap, MapStep, EntryWrite;
      StepIsMapStep(Entries(), Write(name, v));
      var k := FindSlot(name);
      if k >= MAX_SYSCTL_ENTRIES {
        return Some(NotFound);
      }
      var e := EntryWrite(slots[k].value, v);
      if e.None? {
        return Some(TypeMismatch);
      }
      Store(k, e.value);
      err := None;
    }

    method DoRead(name: string) returns (v: Option<Value>)
      requires Valid()
      ensures v == if name in ToMap(Entries()) then Some(ToMap(Entries())[name]) else None
    {
      hide ToMap;
      var k := FindSlot(name);
      ToMapDomain(Entries(), name);
      if k >= MAX_SYSCTL_ENTRIES {
        return None;
      }
      ToMapAt(Entries(), k);
      v := Some(EntryRead(slots[k].value));
    }

    /** The listing: the longest run of leading whole lines that fits the buffer. */
    method List(buf: array<char>) returns (pos: nat)
      requires Valid()
      modifies buf
      ensures pos <= buf.Length
      ensures LongestRun(Lines(old(Entries())), buf.Length, buf[..pos])
      ensures buf[pos..] == old(buf[pos..])
    {
      hide Lines, Joined;
      ghost var es := Entries();
      ghost var lines := Lines(es);
      ListStart(es);
      pos := 0;
      ghost var k := 0;
      var i := 0;
      while i < MAX_SYSCTL_ENTRIES
        invariant i <= MAX_SYSCTL_ENTRIES && pos <= buf.Length && Shaped() && Entries() == es
        invariant var m := if i <= used then i else used; k == |Lines(es[..m])| <= |lines| && buf[..pos] == Joined(lines[..k])
        invariant buf[pos..] == old(buf[pos..])
      {
        if slots[i].Some? {
          var e := slots[i].value;
          ListAdvance(es, i, k);
          if e.name != "" {
            if pos + |e.name| + 1 > buf.Length {
              assert IsLongest(lines, buf.Length, buf[..pos], k);
              return;
            }
            assert old(buf[pos..])[|e.name| + 1..] == old(buf[pos + |e.name| + 1..]);
            pos := CopyLine(buf, pos, e.name);
            k := k + 1;
          }
        }
        i := i + 1;
      }
      assert es[..used] == es;
      assert IsLongest(lines, buf.Length, buf[..pos], k);
    }

    static method CopyLine(buf: array<char>, at: nat, name: string) returns (pos: nat)
      requires at + |name| + 1 <= buf.Length
      modifies buf
      ensures pos == at + |name| + 1
      ensures buf[..pos] == old(buf[..at]) + (name + "\n")
      ensures buf[pos..] == old(buf[at..])[|name| + 1..]
    {
      forall j | 0 <= j < |name| {
        buf[at + j] := name[j];
      }
      buf[at + |name|] := '\n';
      pos := at + |name| + 1;
    }
  }
}
