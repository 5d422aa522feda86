/** What the structure-block events mean: the node and property effects of privileged/dtb.rs. */
module DtbEvents {
  import opened Machine
  import opened DtbFormat

  const MAX_DEPTH: nat := 16
  const ROOT_DEPTH: nat := 1
  const GIC_REDIST_INDEX: nat := 1
  const CPU_MPIDR_MAX: nat := 8

  function Ascii(s: string): seq<Byte>
    requires forall i :: 0 <= i < |s| ==> s[i] < '\U{80}'
  {
    seq(|s|, i requires 0 <= i < |s| => s[i] as int)
  }

  const CPUS := Ascii("cpus")
  const CPU := Ascii("cpu")
  const PSCI := Ascii("psci")
  const METHOD := Ascii("method")
  const ADDRESS_CELLS := Ascii("#address-cells")
  const SIZE_CELLS := Ascii("#size-cells")
  const COMPATIBLE := Ascii("compatible")
  const DEVICE_TYPE := Ascii("device_type")
  const REG := Ascii("reg")
  const MEMORY := Ascii("memory")
  const PL011 := Ascii("arm,pl011")
  const GIC_V3 := Ascii("arm,gic-v3")

  datatype Event = Begin(name: seq<Byte>) | End | Prop(key: seq<Byte>, value: seq<Byte>) | Nop

  datatype PsciMethod = Hvc | Smc

  datatype CpuTopology = CpuTopology(count: nat, mpidrs: seq<nat>)

  datatype DtbInfo = DtbInfo(
    memoryBase: nat,
    memorySize: nat,
    uartBase: Option<nat>,
    gicDistBase: Option<nat>,
    gicRedistBase: Option<nat>,
    cpus: Option<CpuTopology>,
    psciMethod: Option<PsciMethod>)

  datatype NodeScan = NodeScan(name: seq<Byte>, compatible: seq<Byte>, deviceType: seq<Byte>, reg: seq<Byte>)

  /** The parser's state without its cursor; `stack` holds the open nodes only. */
  datatype Scan = Scan(
    addrCells: nat,
    sizeCells: nat,
    stack: seq<NodeScan>,
    info: DtbInfo,
    cpusDepth: nat,
    cpusAddrCells: nat,
    psciDepth: nat,
    mpidrs: seq<nat>)

  const START := Scan(2, 2, [], DtbInfo(0, 0, None, None, None, None, None), 0, 0, 0, [])

  function DecodePsciMethod(value: seq<Byte>): Option<PsciMethod> {
    var conduit :- CstrAt(value, 0);
    if conduit == Ascii("hvc") then Some(Hvc)
    else if conduit == Ascii("smc") then Some(Smc)
    else None
  }

  function BeginNode(s: Scan, name: seq<Byte>): Option<Scan> {
    var depth := |s.stack|;
    if depth >= MAX_DEPTH then None
    else
      Some(s.(
        cpusDepth := if depth == ROOT_DEPTH && name == CPUS then depth + 1 else s.cpusDepth,
        psciDepth := if depth == ROOT_DEPTH && name == PSCI then depth + 1 else s.psciDepth,
        stack := s.stack + [NodeScan(name, [], [], [])]))
  }

  function EndNode(s: Scan): Option<Scan> {
    if s.stack == [] then None
    else
      var depth := |s.stack| - 1;
      Some(RecordNode(s.(stack := s.stack[..depth]), s.stack[depth]))
  }

  function SetProperty(s: Scan, name: seq<Byte>, value: seq<Byte>): Option<Scan> {
    var depth := |s.stack|;
    if depth == ROOT_DEPTH && name == ADDRESS_CELLS then
      var cells :- ReadBe32(value, 0);
      Some(s.(addrCells := cells))
    else if depth == ROOT_DEPTH && name == SIZE_CELLS then
      var cells :- ReadBe32(value, 0);
      Some(s.(sizeCells := cells))
    else if s.cpusDepth != 0 && depth == s.cpusDepth && name == ADDRESS_CELLS then
      var cells :- ReadBe32(value, 0);
      Some(s.(cpusAddrCells := cells))
    else if s.psciDepth != 0 && depth == s.psciDepth && name == METHOD then
      Some(if s.info.psciMethod.None? then s.(info := s.info.(psciMethod := DecodePsciMethod(value))) else s)
    else if depth == 0 then None
    else Some(s.(stack := s.stack[depth - 1 := FillNode(s.stack[depth - 1], name, value)]))
  }

  function FillNode(node: NodeScan, name: seq<Byte>, value: seq<Byte>): NodeScan {
    if name == COMPATIBLE then node.(compatible := value)
    else if name == DEVICE_TYPE then node.(deviceType := value)
    else if name == REG then node.(reg := value)
    else node
  }

  function CpuId(s: Scan, node: NodeScan): nat {
    var index := |s.mpidrs|;
    if s.cpusAddrCells == 0 then index else ReadBeCells(node.reg, 0, s.cpusAddrCells).UnwrapOr(index)
  }

  predicate IsCpuNode(s: Scan, node: NodeScan) {
    s.cpusDepth != 0 && |s.stack| == s.cpusDepth && NodeNameIs(node.name, CPU)
  }

  function RegEntry(s: Scan, node: NodeScan, index: nat): Option<(nat, nat)> {
    DecodeReg(node.reg, s.addrCells, s.sizeCells, index)
  }

  function RecordNode(s: Scan, node: NodeScan): Scan {
    if IsCpuNode(s, node) then
      if |s.mpidrs| < CPU_MPIDR_MAX then s.(mpidrs := s.mpidrs + [CpuId(s, node)]) else s
    else s.(info := RecordResource(s.info, node, RegEntry(s, node, 0), RegEntry(s, node, GIC_REDIST_INDEX)))
  }

  function RecordResource(info: DtbInfo, node: NodeScan, entry0: Option<(nat, nat)>, entry1: Option<(nat, nat)>): DtbInfo {
    if info.memorySize == 0 && (node.deviceType == MEMORY || NodeNameIs(node.name, MEMORY)) then
      if entry0.Some? then info.(memoryBase := entry0.value.0, memorySize := entry0.value.1) else info
    else if info.uartBase.None? && CstrListContains(node.compatible, PL011) then
      if entry0.Some? then info.(uartBase := Some(entry0.value.0)) else info
    else if info.gicDistBase.None? && CstrListContains(node.compatible, GIC_V3) then
      var withDist := if entry0.Some? then info.(gicDistBase := Some(entry0.value.0)) else info;
      if entry1.Some? then withDist.(gicRedistBase := Some(entry1.value.0)) else withDist
    else info
  }

  function Apply(s: Scan, e: Event): Option<Scan> {
    match e
    case Begin(name) => BeginNode(s, name)
    case End => EndNode(s)
    case Prop(name, value) => SetProperty(s, name, value)
    case Nop => Some(s)
  }

  function Fold(s: Scan, es: seq<Event>): Option<Scan>
    decreases |es|
  {
    if es == [] then Some(s)
    else
      var s' :- Apply(s, es[0]);
      Fold(s', es[1..])
  }

  function PadMpidrs(ids: seq<nat>): seq<nat>
    requires |ids| <= CPU_MPIDR_MAX
  {
    ids + seq(CPU_MPIDR_MAX - |ids|, _ => 0)
  }

  /** What `run` returns once it meets FDT_END. */
  function Finish(s: Scan): DtbInfo {
    if s.cpusDepth != 0 && 0 < |s.mpidrs| <= CPU_MPIDR_MAX then
      s.info.(cpus := Some(CpuTopology(|s.mpidrs|, PadMpidrs(s.mpidrs))))
    else s.info
  }

  function Meaning(es: seq<Event>): Option<DtbInfo> {
    var s :- Fold(START, es);
    Some(Finish(s))
  }

  // ---- folding -------------------------------------------------------------

  lemma {:induction false} FoldConcat(s: Scan, a: seq<Event>, b: seq<Event>)
    ensures Fold(s, a + b) == match Fold(s, a) case None => None case Some(m) => Fold(m, b)
    decreases |a|
  {
    if a == [] {
      assert a + b == b;
    } else {
      assert (a + b)[0] == a[0] && (a + b)[1..] == a[1..] + b;
      var s' := Apply(s, a[0]);
      if s'.Some? {
        FoldConcat(s'.value, a[1..], b);
      }
    }
  }

  function DropNops(es: seq<Event>): seq<Event> {
    if es == [] then []
    else if es[0].Nop? then DropNops(es[1..])
    else [es[0]] + DropNops(es[1..])
  }

  /** NOP tokens carry no meaning, wherever they stand. */
  lemma {:induction false} NopsChangeNothing(s: Scan, es: seq<Event>)
    ensures Fold(s, DropNops(es)) == Fold(s, es)
    decreases |es|
  {
    if es != [] {
      var s' := Apply(s, es[0]);
      if s'.Some? {
        NopsChangeNothing(s'.value, es[1..]);
      }
      if !es[0].Nop? {
        assert DropNops(es)[1..] == DropNops(es[1..]);
      }
    }
  }

  // ---- what every accepted prefix keeps --------------------------------------

  function Begins(es: seq<Event>): nat {
    if es == [] then 0 else Begins(es[1..]) + if es[0].Begin? then 1 else 0
  }

  function Ends(es: seq<Event>): nat {
    if es == [] then 0 else Ends(es[1..]) + if es[0].End? then 1 else 0
  }

  ghost predicate SmallReg(node: NodeScan) {
    |node.reg| <= U64_MAX
  }

  /** Holds at START and is kept by every event whose value is a Rust slice. */
  ghost predicate Inv(s: Scan) {
    && |s.stack| <= MAX_DEPTH
    && |s.mpidrs| <= CPU_MPIDR_MAX
    && (s.info.gicRedistBase.Some? ==> s.info.gicDistBase.Some?)
    && s.info.cpus.None?
    && (s.mpidrs != [] ==> s.cpusDepth != 0)
    && s.cpusDepth in {0, 2} && s.psciDepth in {0, 2}
    && forall i :: 0 <= i < |s.stack| ==> SmallReg(s.stack[i])
  }

  ghost predicate SliceValue(e: Event) {
    e.Prop? ==> |e.value| <= U64_MAX
  }

  ghost predicate SliceValues(es: seq<Event>) {
    forall i :: 0 <= i < |es| ==> SliceValue(es[i])
  }

  /** Everything `t` may not take back once `s` has found it. */
  ghost predicate Frozen(s: Scan, t: Scan) {
    && (s.info.uartBase.Some? ==> t.info.uartBase == s.info.uartBase)
    && (s.info.gicDistBase.Some? ==>
          t.info.gicDistBase == s.info.gicDistBase && t.info.gicRedistBase == s.info.gicRedistBase)
    && (s.info.psciMethod.Some? ==> t.info.psciMethod == s.info.psciMethod)
    && (s.info.memorySize != 0 ==>
          t.info.memoryBase == s.info.memoryBase && t.info.memorySize == s.info.memorySize)
    && s.mpidrs <= t.mpidrs
    && (s.cpusDepth != 0 ==> t.cpusDepth == s.cpusDepth)
    && (s.psciDepth != 0 ==> t.psciDepth == s.psciDepth)
  }

  lemma RecordKeeps(s: Scan, node: NodeScan)
    requires Inv(s) && SmallReg(node)
    ensures Inv(RecordNode(s, node)) && Frozen(s, RecordNode(s, node))
    ensures RecordNode(s, node).stack == s.stack
  {
    hide Ascii, CstrListContains, NodeNameIs, CpuId;
    if RegEntry(s, node, 1).Some? {
      DecodeRegDownward(node.reg, s.addrCells, s.sizeCells, 0, 1);
    }
  }

  lemma PropKeeps(s: Scan, name: seq<Byte>, value: seq<Byte>)
    requires Inv(s) && |value| <= U64_MAX && SetProperty(s, name, value).Some?
    ensures Inv(SetProperty(s, name, value).value) && Frozen(s, SetProperty(s, name, value).value)
    ensures |SetProperty(s, name, value).value.stack| == |s.stack|
  {
    hide Ascii, ReadBe32, DecodePsciMethod;
  }

  lemma ApplyKeeps(s: Scan, e: Event)
    requires Inv(s) && SliceValue(e) && Apply(s, e).Some?
    ensures var t := Apply(s, e).value;
            && Inv(t)
            && Frozen(s, t)
            && |t.stack| == |s.stack| + Begins([e]) - Ends([e])
  {
    hide Ascii, CstrListContains, NodeNameIs, CpuId, ReadBe32, DecodePsciMethod, RecordNode, FillNode;
    assert [e][1..] == [];
    if e.Prop? {
      PropKeeps(s, e.key, e.value);
    }
    if e.End? {
      var depth := |s.stack| - 1;
      RecordKeeps(s.(stack := s.stack[..depth]), s.stack[depth]);
    }
  }

  /**
   * Along every run: the depth is the number of nodes begun minus those ended
   * and stays within 16, at most 8 CPUs are listed, and whatever has been found
   * is never changed or taken back.
   */
  lemma {:induction false} RunsKeep(s: Scan, es: seq<Event>)
    requires Inv(s) && SliceValues(es) && Fold(s, es).Some?
    ensures var t := Fold(s, es).value;
            && Inv(t)
            && Frozen(s, t)
            && |t.stack| == |s.stack| + Begins(es) - Ends(es)
    decreases |es|
  {
    if es != [] {
      ApplyKeeps(s, es[0]);
      assert [es[0]][1..] == [];
      RunsKeep(Apply(s, es[0]).value, es[1..]);
    }
  }

  /** Write-once, between any two points of one parse. */
  lemma DiscoveredOnce(es: seq<Event>, i: nat, j: nat)
    requires i <= j <= |es| && SliceValues(es) && Fold(START, es[..j]).Some?
    ensures Fold(START, es[..i]).Some?
    ensures Frozen(Fold(START, es[..i]).value, Fold(START, es[..j]).value)
  {
    assert es[..j] == es[..i] + es[i..j];
    FoldConcat(START, es[..i], es[i..j]);
    RunsKeep(START, es[..i]);
    RunsKeep(Fold(START, es[..i]).value, es[i..j]);
  }

  /** Two prefixes of one parse: open nodes are counted, bounds hold, and the later keeps what the earlier found. */
  ghost predicate PrefixesKeep(es: seq<Event>, i: nat, j: nat)
    requires i <= j <= |es|
  {
    var s, t := Fold(START, es[..i]), Fold(START, es[..j]);
    && s.Some? && t.Some?
    && |t.value.stack| == Begins(es[..j]) - Ends(es[..j]) <= 16
    && |t.value.mpidrs| <= 8
    && Frozen(s.value, t.value)
  }

  lemma AcceptedPrefixes(es: seq<Event>, i: nat, j: nat)
    requires i <= j <= |es| && SliceValues(es) && Fold(START, es).Some?
    ensures PrefixesKeep(es, i, j)
  {
    assert es[..|es|] == es;
    DiscoveredOnce(es, j, |es|);
    DiscoveredOnce(es, i, j);
    RunsKeep(START, es[..j]);
  }

  /** `t`'s memory range is entry 0 of the `reg` of the node that `s` is about to close. */
  ghost predicate MemoryReadAt(s: Scan, base: nat, size: nat) {
    s.stack != [] && RegEntry(s, s.stack[|s.stack| - 1], 0) == Some((base, size))
  }

  /** One event leaves the memory range alone, or closes the node it reads it from. */
  lemma MemoryStep(s: Scan, e: Event)
    requires Apply(s, e).Some?
    ensures var t := Apply(s, e).value;
            || (t.info.memoryBase == s.info.memoryBase && t.info.memorySize == s.info.memorySize)
            || (e.End? && MemoryReadAt(s, t.info.memoryBase, t.info.memorySize))
  {
    hide Ascii, RecordNode, RegEntry, FillNode, ReadBe32, DecodePsciMethod;
    if e.End? {
      var depth := |s.stack| - 1;
      MemoryRecorded(s.(stack := s.stack[..depth]), s.stack[depth]);
      SameRegEntry(s, s.(stack := s.stack[..depth]), s.stack[depth]);
    }
  }

  lemma MemoryRecorded(s: Scan, node: NodeScan)
    ensures var t := RecordNode(s, node);
            || (t.info.memoryBase == s.info.memoryBase && t.info.memorySize == s.info.memorySize)
            || RegEntry(s, node, 0) == Some((t.info.memoryBase, t.info.memorySize))
  {
    hide Ascii, RegEntry, NodeNameIs, CstrListContains, CpuId, IsCpuNode;
  }

  lemma SameRegEntry(s: Scan, t: Scan, node: NodeScan)
    requires s.addrCells == t.addrCells && s.sizeCells == t.sizeCells
    ensures RegEntry(s, node, 0) == RegEntry(t, node, 0)
  {
  }

  lemma FoldSnoc(s: Scan, es: seq<Event>, e: Event)
    ensures Fold(s, es + [e]) == match Fold(s, es) case None => None case Some(m) => Apply(m, e)
  {
    hide Apply;
    FoldConcat(s, es, [e]);
    assert [e][1..] == [];
  }

  /** The `k`-th event closes the node this memory range was read from. */
  ghost predicate MemoryReadBy(es: seq<Event>, k: nat, base: nat, size: nat)
    requires k < |es|
  {
    es[k].End? && Fold(START, es[..k]).Some? && MemoryReadAt(Fold(START, es[..k]).value, base, size)
  }

  /** The reported base and size are still unset, or come together from one `reg` entry of one node. */
  lemma {:induction false} MemoryFromOneEntry(es: seq<Event>)
    requires Fold(START, es).Some?
    ensures var info := Fold(START, es).value.info;
            || (info.memoryBase == 0 && info.memorySize == 0)
            || exists k :: 0 <= k < |es| && MemoryReadBy(es, k, info.memoryBase, info.memorySize)
    decreases |es|
  {
    hide Apply, MemoryReadAt;
    if es != [] {
      var k := |es| - 1;
      var before := es[..k];
      assert es == before + [es[k]];
      FoldSnoc(START, before, es[k]);
      hide Fold;
      MemoryFromOneEntry(before);
      var s := Fold(START, before).value;
      var t := Fold(START, es).value;
      MemoryStep(s, es[k]);
      if t.info.memoryBase == s.info.memoryBase && t.info.memorySize == s.info.memorySize {
        if m :| 0 <= m < k && MemoryReadBy(before, m, s.info.memoryBase, s.info.memorySize) {
          assert before[..m] == es[..m];
          assert MemoryReadBy(es, m, t.info.memoryBase, t.info.memorySize);
        }
      } else {
        assert MemoryReadBy(es, k, t.info.memoryBase, t.info.memorySize);
      }
    }
  }

  // ---- nesting ---------------------------------------------------------------------------

  function OpenAll(names: seq<seq<Byte>>): (es: seq<Event>)
    ensures |es| == |names|
  {
    seq(|names|, i requires 0 <= i < |names| => Begin(names[i]))
  }

  /** Nodes nest to a depth of sixteen and no further. */
  lemma {:induction false} NestingIff(names: seq<seq<Byte>>)
    ensures Fold(START, OpenAll(names)).Some? <==> |names| <= 16
    ensures Fold(START, OpenAll(names)).Some? ==> |Fold(START, OpenAll(names)).value.stack| == |names|
    decreases |names|
  {
    hide Ascii;
    if names != [] {
      var before, last := names[..|names| - 1], names[|names| - 1];
      NestingIff(before);
      assert OpenAll(names) == OpenAll(before) + [Begin(last)];
      FoldSnoc(START, OpenAll(before), Begin(last));
      hide Fold;
    }
  }

  /** Outside every node a property or an end is rejected. */
  lemma OutsideRejected(s: Scan, key: seq<Byte>, value: seq<Byte>)
    requires Inv(s) && s.stack == []
    ensures Apply(s, End) == None && Apply(s, Prop(key, value)) == None
  {
    hide Ascii;
  }

  // ---- which nodes count as CPUs -------------------------------------------------------

  /** A node of that name was begun directly below the root, whether or not it is still open. */
  ghost predicate RootChildBegan(es: seq<Event>, name: seq<Byte>) {
    exists k :: 0 <= k < |es| && es[k] == Begin(name) && Begins(es[..k]) == Ends(es[..k]) + ROOT_DEPTH
  }

  lemma DepthsStep(s: Scan, e: Event)
    requires Apply(s, e).Some?
    ensures Apply(s, e).value.cpusDepth == if e == Begin(CPUS) && |s.stack| == ROOT_DEPTH then 2 else s.cpusDepth
    ensures Apply(s, e).value.psciDepth == if e == Begin(PSCI) && |s.stack| == ROOT_DEPTH then 2 else s.psciDepth
  {
    hide Ascii, ReadBe32, DecodePsciMethod, FillNode, NodeNameIs, CpuId, IsCpuNode, RecordResource;
  }

  /** The remembered depths say only that such a node began. */
  lemma {:induction false} DepthsAre(es: seq<Event>)
    requires SliceValues(es) && Fold(START, es).Some?
    ensures Fold(START, es).value.cpusDepth == if RootChildBegan(es, CPUS) then 2 else 0
    ensures Fold(START, es).value.psciDepth == if RootChildBegan(es, PSCI) then 2 else 0
    decreases |es|
  {
    hide Apply, Begins, Ends;
    if es != [] {
      var k := |es| - 1;
      var before, e := es[..k], es[k];
      assert es == before + [e];
      FoldSnoc(START, before, e);
      hide Fold;
      DepthsAre(before);
      RunsKeep(START, before);
      DepthsStep(Fold(START, before).value, e);
      BeganNext(before, e, CPUS);
      BeganNext(before, e, PSCI);
    }
  }

  lemma BeganNext(es: seq<Event>, e: Event, name: seq<Byte>)
    ensures RootChildBegan(es + [e], name) <==>
            RootChildBegan(es, name) || (e == Begin(name) && Begins(es) == Ends(es) + ROOT_DEPTH)
  {
    hide Begins, Ends;
    var all := es + [e];
    assert all[..|es|] == es && all[|es|] == e;
    assert forall m :: 0 <= m < |es| ==> all[..m] == es[..m] && all[m] == es[m];
  }

  /**
   * A node that closes is listed as a CPU exactly when a root `cpus` node began
   * earlier in the parse, two nodes stay open, its base name is `cpu` and fewer
   * than eight are listed. The parent's name does not matter.
   */
  lemma CpuListedIff(es: seq<Event>)
    requires SliceValues(es) && Fold(START, es).Some? && Fold(START, es).value.stack != []
    ensures Fold(START, es + [End]).Some?
    ensures var s, t := Fold(START, es).value, Fold(START, es + [End]).value;
            if && RootChildBegan(es, CPUS) && Begins(es) == Ends(es) + 3
               && NodeNameIs(s.stack[|s.stack| - 1].name, CPU) && |s.mpidrs| < 8
            then |t.mpidrs| == |s.mpidrs| + 1 && s.mpidrs < t.mpidrs && t.info == s.info
            else t.mpidrs == s.mpidrs
  {
    hide Ascii, Fold, CpuId, NodeNameIs, Begins, Ends, RecordResource, RegEntry;
    FoldSnoc(START, es, End);
    DepthsAre(es);
    RunsKeep(START, es);
  }
}
