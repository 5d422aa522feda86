/** The board description of the dtb.rs tests, with every address left open. */
module DtbBoard {
  import opened Machine
  import opened DtbFormat
  import opened DtbEvents
  import opened DtbParser
  import opened DtbPrinter

  // ---- folding short event lists ---------------------------------------------------------

  lemma FoldOne(s: Scan, t: Scan, e: Event)
    requires Apply(s, e) == Some(t)
    ensures Fold(s, [e]) == Some(t)
  {
    hide Apply;
    assert [e][1..] == [];
  }

  lemma FoldNext(s: Scan, t: Scan, u: Scan, a: seq<Event>, b: seq<Event>)
    requires Fold(s, a) == Some(t) && Fold(t, b) == Some(u)
    ensures Fold(s, a + b) == Some(u)
  {
    hide Fold;
    FoldConcat(s, a, b);
  }

  lemma FoldFour(s: Scan, s1: Scan, s2: Scan, s3: Scan, s4: Scan, a: Event, b: Event, c: Event, d: Event)
    requires Apply(s, a) == Some(s1) && Apply(s1, b) == Some(s2) && Apply(s2, c) == Some(s3) && Apply(s3, d) == Some(s4)
    ensures Fold(s, [a] + [b] + [c] + [d]) == Some(s4)
  {
    hide Apply, Fold;
    FoldOne(s, s1, a);
    FoldOne(s1, s2, b);
    FoldOne(s2, s3, c);
    FoldOne(s3, s4, d);
    FoldNext(s, s1, s2, [a], [b]);
    FoldNext(s, s2, s3, [a] + [b], [c]);
    FoldNext(s, s3, s4, [a] + [b] + [c], [d]);
  }

  // ---- device nodes ------------------------------------------------------------------------

  lemma KeysDiffer()
    ensures COMPATIBLE != ADDRESS_CELLS && DEVICE_TYPE != ADDRESS_CELLS && REG != ADDRESS_CELLS && METHOD != ADDRESS_CELLS
    ensures COMPATIBLE != SIZE_CELLS && DEVICE_TYPE != SIZE_CELLS && REG != SIZE_CELLS && METHOD != SIZE_CELLS
    ensures METHOD != COMPATIBLE && METHOD != DEVICE_TYPE && METHOD != REG
    ensures REG != COMPATIBLE && REG != DEVICE_TYPE && COMPATIBLE != DEVICE_TYPE && ADDRESS_CELLS != SIZE_CELLS
  {
    assert ADDRESS_CELLS[0] == SIZE_CELLS[0] == 0x23 && |ADDRESS_CELLS| != |SIZE_CELLS|;
    assert COMPATIBLE[0] == 0x63 && DEVICE_TYPE[0] == 0x64 && REG[0] == 0x72 && METHOD[0] == 0x6d;
  }

  /** A node with one identifying property and a `reg`. */
  function DeviceEvents(name: seq<Byte>, key: seq<Byte>, value: seq<Byte>, reg: seq<Byte>): seq<Event> {
    [Begin(name)] + [Prop(key, value)] + [Prop(REG, reg)] + [End]
  }

  function DeviceScan(name: seq<Byte>, key: seq<Byte>, value: seq<Byte>, reg: seq<Byte>): NodeScan {
    FillNode(FillNode(NodeScan(name, [], [], []), key, value), REG, reg)
  }

  /** Some node is open and one more fits. */
  ghost predicate HasRoom(s: Scan) {
    1 <= |s.stack| < MAX_DEPTH
  }

  lemma FillTop(s: Scan, n: NodeScan, key: seq<Byte>, value: seq<Byte>)
    requires HasRoom(s) && key in {COMPATIBLE, DEVICE_TYPE, REG}
    ensures Apply(s.(stack := s.stack + [n]), Prop(key, value)) == Some(s.(stack := s.stack + [FillNode(n, key, value)]))
  {
    hide Ascii, FillNode;
    KeysDiffer();
    var d := |s.stack|;
    assert (s.stack + [n])[d := FillNode(n, key, value)] == s.stack + [FillNode(n, key, value)];
  }

  lemma CloseTop(s: Scan, n: NodeScan)
    ensures Apply(s.(stack := s.stack + [n]), End) == Some(RecordNode(s, n))
  {
    hide RecordNode;
    assert (s.stack + [n])[..|s.stack|] == s.stack;
    assert s.(stack := s.stack + [n]).(stack := s.stack) == s;
  }

  /** Opening, describing and closing a device node records exactly that node. */
  lemma DeviceNode(s: Scan, name: seq<Byte>, key: seq<Byte>, value: seq<Byte>, reg: seq<Byte>)
    requires HasRoom(s) && key in {COMPATIBLE, DEVICE_TYPE} && name != CPUS && name != PSCI
    ensures Fold(s, DeviceEvents(name, key, value, reg)) == Some(RecordNode(s, DeviceScan(name, key, value, reg)))
  {
    hide RecordNode, Ascii, FillNode, Fold;
    var n0 := NodeScan(name, [], [], []);
    var n1 := FillNode(n0, key, value);
    var n2 := FillNode(n1, REG, reg);
    var s1 := s.(stack := s.stack + [n0]);
    assert Apply(s, Begin(name)) == Some(s1);
    hide Apply;
    FillTop(s, n0, key, value);
    FillTop(s, n1, REG, reg);
    CloseTop(s, n2);
    FoldFour(s, s1, s.(stack := s.stack + [n1]), s.(stack := s.stack + [n2]), RecordNode(s, n2),
             Begin(name), Prop(key, value), Prop(REG, reg), End);
  }

  // ---- what a recorded node contributes ------------------------------------------------------

  ghost predicate Cells(s: Scan) {
    1 <= s.addrCells <= CELLS_MAX && 1 <= s.sizeCells <= CELLS_MAX
  }

  function Reg(s: Scan, entries: seq<(nat, nat)>): seq<Byte> {
    EncodeReg(entries, s.addrCells, s.sizeCells)
  }

  /** Entry `k` of a printed `reg`, as the parser reads it. */
  function Seen(s: Scan, entries: seq<(nat, nat)>, k: nat): Option<(nat, nat)> {
    if k < |entries| then Some((Held(entries[k].0, s.addrCells), Held(entries[k].1, s.sizeCells))) else None
  }

  lemma RegEntryPrinted(s: Scan, node: NodeScan, entries: seq<(nat, nat)>, k: nat)
    requires Cells(s) && node.reg == Reg(s, entries) && |node.reg| <= U64_MAX
    ensures RegEntry(s, node, k) == Seen(s, entries, k)
  {
    hide EncodeReg, DecodeReg, Held;
    DecodeRegPrinted(entries, s.addrCells, s.sizeCells, k);
  }

  /**
   * A node named `memory` or `memory@...` sets the memory range from its first
   * entry, if it has one, and nothing else, while no range of non-zero size is known.
   */
  lemma MemoryNode(s: Scan, name: seq<Byte>, value: seq<Byte>, entries: seq<(nat, nat)>)
    requires HasRoom(s) && Cells(s) && |Reg(s, entries)| <= U64_MAX
    requires NodeNameIs(name, MEMORY) && s.info.memorySize == 0
    ensures Fold(s, DeviceEvents(name, DEVICE_TYPE, value, Reg(s, entries))) ==
            Some(if entries == [] then s
                 else s.(info := s.info.(memoryBase := Held(entries[0].0, s.addrCells), memorySize := Held(entries[0].1, s.sizeCells))))
  {
    hide Fold, Ascii, Held, Reg, RegEntry, DeviceEvents;
    WordLengths();
    NamesDiffer(name, MEMORY);
    KeysDiffer();
    var node := DeviceScan(name, DEVICE_TYPE, value, Reg(s, entries));
    DeviceNode(s, name, DEVICE_TYPE, value, Reg(s, entries));
    RegEntryPrinted(s, node, entries, 0);
    hide NodeNameIs;
  }

  lemma WordLengths()
    ensures |MEMORY| == 6 && |CPUS| == 4 && |PSCI| == 4 && |PL011| == 9 && |GIC_V3| == 10 && |CPU| == 3 && PSCI != CPUS
  {
    assert PSCI[0] == 0x70 && CPUS[0] == 0x63;
  }

  /** A name whose base is none of the two special names is neither of them. */
  lemma NamesDiffer(name: seq<Byte>, base: seq<Byte>)
    requires NodeNameIs(name, base) && base != CPUS && base != PSCI
    ensures name != CPUS && name != PSCI
  {
    assert forall i :: 0 <= i < |CPUS| ==> CPUS[i] != 0x40;
    assert forall i :: 0 <= i < |PSCI| ==> PSCI[i] != 0x40;
    PositionUnique(CPUS, 0x40, |CPUS|);
    PositionUnique(PSCI, 0x40, |PSCI|);
    assert CPUS[..|CPUS|] == CPUS && PSCI[..|PSCI|] == PSCI;
  }

  /** A node that nothing earlier claims: not `/cpus`, `/psci`, a CPU, nor a memory node while memory is still sought. */
  ghost predicate OrdinaryName(s: Scan, name: seq<Byte>) {
    && name != CPUS && name != PSCI
    && (s.info.memorySize != 0 || !NodeNameIs(name, MEMORY))
    && !(s.cpusDepth != 0 && |s.stack| == s.cpusDepth && NodeNameIs(name, CPU))
  }

  /** The first node whose `compatible` list holds `arm,pl011` gives the UART base, and nothing else. */
  lemma UartNode(s: Scan, name: seq<Byte>, compat: seq<Byte>, entries: seq<(nat, nat)>)
    requires HasRoom(s) && Cells(s) && |Reg(s, entries)| <= U64_MAX && OrdinaryName(s, name)
    requires ListHolds(compat, PL011) && s.info.uartBase.None?
    ensures Fold(s, DeviceEvents(name, COMPATIBLE, compat, Reg(s, entries))) ==
            Some(if entries == [] then s else s.(info := s.info.(uartBase := Some(Held(entries[0].0, s.addrCells)))))
  {
    hide Fold, Ascii, Held, Reg, RegEntry, DeviceEvents, NodeNameIs, ListHolds, CstrListContains;
    WordLengths();
    KeysDiffer();
    CstrListContainsIff(compat, PL011);
    var node := DeviceScan(name, COMPATIBLE, compat, Reg(s, entries));
    assert node == NodeScan(name, compat, [], Reg(s, entries));
    DeviceNode(s, name, COMPATIBLE, compat, Reg(s, entries));
    RegEntryPrinted(s, node, entries, 0);
  }

  /** The first GICv3 node gives the distributor from its first `reg` entry and the redistributor from its second, and nothing else. */
  lemma GicNode(s: Scan, name: seq<Byte>, compat: seq<Byte>, entries: seq<(nat, nat)>)
    requires HasRoom(s) && Cells(s) && |Reg(s, entries)| <= U64_MAX && OrdinaryName(s, name)
    requires ListHolds(compat, GIC_V3) && s.info.gicDistBase.None?
    requires s.info.uartBase.Some? || !ListHolds(compat, PL011)
    ensures Fold(s, DeviceEvents(name, COMPATIBLE, compat, Reg(s, entries))) ==
            Some(s.(info := s.info.(
              gicDistBase := if |entries| >= 1 then Some(Held(entries[0].0, s.addrCells)) else None,
              gicRedistBase := if |entries| >= 2 then Some(Held(entries[1].0, s.addrCells)) else s.info.gicRedistBase)))
  {
    hide Fold, Ascii, Held, Reg, RegEntry, DeviceEvents, NodeNameIs, ListHolds, CstrListContains;
    WordLengths();
    KeysDiffer();
    CstrListContainsIff(compat, PL011);
    CstrListContainsIff(compat, GIC_V3);
    var node := DeviceScan(name, COMPATIBLE, compat, Reg(s, entries));
    assert node == NodeScan(name, compat, [], Reg(s, entries));
    DeviceNode(s, name, COMPATIBLE, compat, Reg(s, entries));
    RegEntryPrinted(s, node, entries, 0);
    RegEntryPrinted(s, node, entries, 1);
  }

  /**
   * `device_type` is compared without its terminating NUL: on a node not named
   * `memory` it sets the range exactly when its value is the six bare bytes and
   * the first `reg` entry decodes, while no range of non-zero size is known.
   */
  lemma DeviceTypeIff(s: Scan, name: seq<Byte>, value: seq<Byte>, reg: seq<Byte>)
    requires HasRoom(s) && OrdinaryName(s, name) && !NodeNameIs(name, MEMORY)
    ensures var entry := DecodeReg(reg, s.addrCells, s.sizeCells, 0);
            Fold(s, DeviceEvents(name, DEVICE_TYPE, value, reg)) ==
            Some(if s.info.memorySize == 0 && value == MEMORY && entry.Some?
                 then s.(info := s.info.(memoryBase := entry.value.0, memorySize := entry.value.1))
                 else s)
  {
    hide Fold, DecodeReg, DeviceEvents, NodeNameIs, Ascii;
    KeysDiffer();
    WordLengths();
    DeviceNode(s, name, DEVICE_TYPE, value, reg);
    assert DeviceScan(name, DEVICE_TYPE, value, reg) == NodeScan(name, [], value, reg);
  }

  /** A terminated value, as every conforming tree has it, never marks a memory node. */
  lemma TerminatedDeviceTypeIgnored(s: Scan, name: seq<Byte>, value: seq<Byte>, reg: seq<Byte>)
    requires HasRoom(s) && OrdinaryName(s, name) && !NodeNameIs(name, MEMORY)
    requires value != [] && value[|value| - 1] == 0
    ensures Fold(s, DeviceEvents(name, DEVICE_TYPE, value, reg)) == Some(s)
  {
    hide Fold, DecodeReg, DeviceEvents, NodeNameIs;
    assert MEMORY[5] == 0x79;
    DeviceTypeIff(s, name, value, reg);
  }

  /** A `cpu` node at the depth of the children of `/cpus` is recorded as a CPU and as nothing else. */
  lemma CpuRecorded(s: Scan, name: seq<Byte>, value: seq<Byte>, reg: seq<Byte>)
    requires |s.stack| == s.cpusDepth == 2 && NodeNameIs(name, CPU) && |s.mpidrs| < CPU_MPIDR_MAX
    ensures Fold(s, DeviceEvents(name, DEVICE_TYPE, value, reg)) ==
            Some(s.(mpidrs := s.mpidrs + [CpuId(s, NodeScan(name, [], value, reg))]))
  {
    hide Fold, Ascii, DeviceEvents, CpuId;
    WordLengths();
    NamesDiffer(name, CPU);
    KeysDiffer();
    hide NodeNameIs;
    DeviceNode(s, name, DEVICE_TYPE, value, reg);
    assert DeviceScan(name, DEVICE_TYPE, value, reg) == NodeScan(name, [], value, reg);
  }

  /**
   * A `cpu` node one level below the depth where `/cpus` was seen appends its
   * id to the CPU list: the first cells of its `reg`, as many as `/cpus`
   * declared, or its index when none were declared.
   */
  lemma CpuNode(s: Scan, name: seq<Byte>, value: seq<Byte>, id: nat, tail: seq<Byte>)
    requires |s.stack| == s.cpusDepth == 2 && NodeNameIs(name, CPU) && |s.mpidrs| < CPU_MPIDR_MAX
    requires 4 * s.cpusAddrCells + |tail| <= U64_MAX
    ensures Fold(s, DeviceEvents(name, DEVICE_TYPE, value, EncodeCells(id, s.cpusAddrCells) + tail)) ==
            Some(s.(mpidrs := s.mpidrs + [if s.cpusAddrCells == 0 then |s.mpidrs| else Held(id, s.cpusAddrCells)]))
  {
    hide Fold, Held, DeviceEvents, EncodeCells, ReadBeCells, NodeNameIs;
    var cells := EncodeCells(id, s.cpusAddrCells);
    var reg := cells + tail;
    CpuRecorded(s, name, value, reg);
    assert At(reg, 0, cells);
    ReadBeCellsPrinted(reg, 0, id, s.cpusAddrCells);
  }

  /** A `reg` too short for the declared cells gives the CPU its index. */
  lemma CpuNodeShort(s: Scan, name: seq<Byte>, value: seq<Byte>, reg: seq<Byte>)
    requires |s.stack| == s.cpusDepth == 2 && NodeNameIs(name, CPU) && |s.mpidrs| < CPU_MPIDR_MAX
    requires |reg| < 4 * s.cpusAddrCells && |reg| <= U64_MAX
    ensures Fold(s, DeviceEvents(name, DEVICE_TYPE, value, reg)) == Some(s.(mpidrs := s.mpidrs + [|s.mpidrs|]))
  {
    hide Fold, DeviceEvents, ReadBeCells, NodeNameIs;
    CpuRecorded(s, name, value, reg);
    ReadBeCellsDefined(reg, 0, s.cpusAddrCells);
  }

  // ---- a CPU outside /cpus -------------------------------------------------------------------

  /** An empty `/cpus` that is closed again, then a cpu node under some other node of the root. */
  function StrayCpu(cells: nat, other: seq<Byte>, name: seq<Byte>, value: seq<Byte>, id: nat): seq<Event> {
    [Begin([])] + [Begin(CPUS)] + [Prop(ADDRESS_CELLS, Be32(cells))] + [End] + [Begin(other)]
    + DeviceEvents(name, DEVICE_TYPE, value, EncodeCells(id, cells)) + [End] + [End]
  }

  /** A scan with nothing found but CPUs, below the given open nodes. */
  function CpusSeen(cells: nat, psciDepth: nat, stack: seq<NodeScan>, ids: seq<nat>): Scan {
    START.(cpusDepth := 2, cpusAddrCells := cells, psciDepth := psciDepth, stack := stack, mpidrs := ids)
  }

  function Bare(name: seq<Byte>): NodeScan {
    NodeScan(name, [], [], [])
  }

  lemma CpusClosed(cells: nat)
    requires cells < TWO32
    ensures Fold(START, [Begin([])] + [Begin(CPUS)] + [Prop(ADDRESS_CELLS, Be32(cells))] + [End]) ==
            Some(CpusSeen(cells, 0, [Bare([])], []))
  {
    hide Fold, Ascii, Be32, ReadBe32, NodeNameIs, CstrListContains, RecordResource;
    WordLengths();
    KeysDiffer();
    assert At(Be32(cells), 0, Be32(cells));
    PrintedAt(Be32(cells), 0, cells);
    var root, both := [Bare([])], [Bare([]), Bare(CPUS)];
    var s1 := START.(stack := root);
    var s2 := CpusSeen(0, 0, both, []);
    var s3 := CpusSeen(cells, 0, both, []);
    var s4 := CpusSeen(cells, 0, root, []);
    assert START.stack + root == root && root + [Bare(CPUS)] == both;
    assert Apply(START, Begin([])) == Some(s1);
    assert Apply(s1, Begin(CPUS)) == Some(s2);
    assert Apply(s2, Prop(ADDRESS_CELLS, Be32(cells))) == Some(s3);
    CloseBare(s4, CPUS);
    hide Apply;
    FoldFour(START, s1, s2, s3, s4, Begin([]), Begin(CPUS), Prop(ADDRESS_CELLS, Be32(cells)), End);
  }

  /** Closing a node without properties, at a depth where no CPU is expected, changes nothing else. */
  lemma CloseBare(s: Scan, name: seq<Byte>)
    requires |s.stack| != 2
    requires s.cpusDepth in {0, 2}
    ensures Apply(s.(stack := s.stack + [Bare(name)]), End) == Some(s)
  {
    hide NodeNameIs, CstrListContains, RecordResource, RegEntry;
    CloseTop(s, Bare(name));
    NoRegNoResource(s, Bare(name));
  }

  /** From below some node of the root: a cpu node, and the end of the tree. */
  lemma StrayRest(cells: nat, psci: nat, other: seq<Byte>, name: seq<Byte>, value: seq<Byte>, id: nat)
    requires 1 <= cells <= CELLS_MAX && NodeNameIs(name, CPU)
    ensures Fold(CpusSeen(cells, psci, [Bare([]), Bare(other)], []),
                 DeviceEvents(name, DEVICE_TYPE, value, EncodeCells(id, cells)) + [End] + [End]) ==
            Some(CpusSeen(cells, psci, [], [Held(id, cells)]))
  {
    hide Fold, Ascii, Held, DeviceEvents, EncodeCells, NodeNameIs;
    var root, both := [Bare([])], [Bare([]), Bare(other)];
    var s5 := CpusSeen(cells, psci, both, []);
    var s6 := CpusSeen(cells, psci, both, [Held(id, cells)]);
    var s7 := CpusSeen(cells, psci, root, [Held(id, cells)]);
    var s8 := CpusSeen(cells, psci, [], [Held(id, cells)]);
    CpuNode(s5, name, value, id, []);
    assert EncodeCells(id, cells) + [] == EncodeCells(id, cells);
    assert s5.mpidrs + [Held(id, cells)] == s6.mpidrs;
    assert root + [Bare(other)] == both;
    CloseBare(s7, other);
    assert s8.stack + [Bare([])] == root;
    CloseBare(s8, []);
    hide Apply, CpusSeen;
    FoldOne(s6, s7, End);
    FoldOne(s7, s8, End);
    var e1 := DeviceEvents(name, DEVICE_TYPE, value, EncodeCells(id, cells));
    FoldNext(s5, s6, s7, e1, [End]);
    FoldNext(s5, s7, s8, e1 + [End], [End]);
  }

  lemma OtherOpens(cells: nat, other: seq<Byte>)
    ensures var psci := if other == PSCI then 2 else 0;
            Apply(CpusSeen(cells, 0, [Bare([])], []), Begin(other)) == Some(CpusSeen(cells, psci, [Bare([]), Bare(other)], []))
  {
    hide Ascii;
    WordLengths();
    assert [Bare([])] + [Bare(other)] == [Bare([]), Bare(other)];
  }

  /**
   * The depth of `/cpus` is remembered after it closes: a cpu node under any
   * other node of the root is then reported as a CPU of the board.
   */
  lemma StrayCpuListed(cells: nat, other: seq<Byte>, name: seq<Byte>, value: seq<Byte>, id: nat)
    requires 1 <= cells <= CELLS_MAX && NodeNameIs(name, CPU)
    ensures Meaning(StrayCpu(cells, other, name, value, id)) ==
            Some(START.info.(cpus := Some(CpuTopology(1, PadMpidrs([Held(id, cells)])))))
  {
    hide Fold, Ascii, Held, DeviceEvents, EncodeCells, Be32, NodeNameIs, Apply, CpusSeen, Finish;
    var psci := if other == PSCI then 2 else 0;
    var s4, s5 := CpusSeen(cells, 0, [Bare([])], []), CpusSeen(cells, psci, [Bare([]), Bare(other)], []);
    var s8 := CpusSeen(cells, psci, [], [Held(id, cells)]);
    CpusClosed(cells);
    OtherOpens(cells, other);
    StrayRest(cells, psci, other, name, value, id);
    FoldOne(s4, s5, Begin(other));
    var e0 := [Begin([])] + [Begin(CPUS)] + [Prop(ADDRESS_CELLS, Be32(cells))] + [End];
    var e1 := DeviceEvents(name, DEVICE_TYPE, value, EncodeCells(id, cells));
    FoldNext(START, s4, s5, e0, [Begin(other)]);
    FoldNext(START, s5, s8, e0 + [Begin(other)], e1 + [End] + [End]);
    assert StrayCpu(cells, other, name, value, id) == e0 + [Begin(other)] + (e1 + [End] + [End]);
    FinishOneCpu(cells, psci, Held(id, cells));
  }

  /** The same tree with an `#address-cells` of its own on the other node. */
  function StrayCells(cells: nat, own: nat, other: seq<Byte>, name: seq<Byte>, value: seq<Byte>, id: nat): seq<Event> {
    [Begin([])] + [Begin(CPUS)] + [Prop(ADDRESS_CELLS, Be32(cells))] + [End] + [Begin(other)] + [Prop(ADDRESS_CELLS, Be32(own))]
    + (DeviceEvents(name, DEVICE_TYPE, value, EncodeCells(id, own)) + [End] + [End])
  }

  /** That property replaces the width `/cpus` declared. */
  lemma StrayCellsUsed(cells: nat, own: nat, other: seq<Byte>, name: seq<Byte>, value: seq<Byte>, id: nat)
    requires cells < TWO32 && 1 <= own <= CELLS_MAX && NodeNameIs(name, CPU)
    ensures Meaning(StrayCells(cells, own, other, name, value, id)) ==
            Some(START.info.(cpus := Some(CpuTopology(1, PadMpidrs([Held(id, own)])))))
  {
    hide Fold, Ascii, Held, DeviceEvents, EncodeCells, Be32, NodeNameIs, Finish;
    var psci := if other == PSCI then 2 else 0;
    var s4, s5 := CpusSeen(cells, 0, [Bare([])], []), CpusSeen(cells, psci, [Bare([]), Bare(other)], []);
    var s6 := CpusSeen(own, psci, [Bare([]), Bare(other)], []);
    var s8 := CpusSeen(own, psci, [], [Held(id, own)]);
    CellsReplaced(cells, own, psci, [Bare([]), Bare(other)]);
    hide Apply, CpusSeen;
    CpusClosed(cells);
    OtherOpens(cells, other);
    StrayRest(own, psci, other, name, value, id);
    FoldOne(s4, s5, Begin(other));
    FoldOne(s5, s6, Prop(ADDRESS_CELLS, Be32(own)));
    var e0 := [Begin([])] + [Begin(CPUS)] + [Prop(ADDRESS_CELLS, Be32(cells))] + [End];
    var e1 := DeviceEvents(name, DEVICE_TYPE, value, EncodeCells(id, own)) + [End] + [End];
    FoldNext(START, s4, s5, e0, [Begin(other)]);
    FoldNext(START, s5, s6, e0 + [Begin(other)], [Prop(ADDRESS_CELLS, Be32(own))]);
    FoldNext(START, s6, s8, e0 + [Begin(other)] + [Prop(ADDRESS_CELLS, Be32(own))], e1);
    FinishOneCpu(own, psci, Held(id, own));
  }

  lemma CellsReplaced(cells: nat, own: nat, psci: nat, stack: seq<NodeScan>)
    requires own < TWO32 && |stack| == 2
    ensures Apply(CpusSeen(cells, psci, stack, []), Prop(ADDRESS_CELLS, Be32(own))) == Some(CpusSeen(own, psci, stack, []))
  {
    hide Ascii, Be32, ReadBe32;
    assert At(Be32(own), 0, Be32(own));
    PrintedAt(Be32(own), 0, own);
  }

  /**
   * An `#address-cells` below the root sets the width of CPU ids exactly when a
   * root `cpus` node began earlier in the parse and two nodes are open, whatever
   * their names.
   */
  lemma CpuCellsSetIff(es: seq<Event>, value: seq<Byte>)
    requires SliceValues(es) && Fold(START, es + [Prop(ADDRESS_CELLS, value)]).Some?
    ensures Fold(START, es).Some?
    ensures var s, t := Fold(START, es).value, Fold(START, es + [Prop(ADDRESS_CELLS, value)]).value;
            if RootChildBegan(es, CPUS) && Begins(es) == Ends(es) + 2
            then ReadBe32(value, 0) == Some(t.cpusAddrCells)
            else t.cpusAddrCells == s.cpusAddrCells
  {
    hide Fold, Ascii, ReadBe32, Begins, Ends, RootChildBegan, DecodePsciMethod, FillNode;
    FoldSnoc(START, es, Prop(ADDRESS_CELLS, value));
    DepthsAre(es);
    RunsKeep(START, es);
  }

  // ---- a conduit outside /psci -----------------------------------------------------------------

  /** An empty `/psci` that is closed again, then a `method` on some other node of the root. */
  function StrayMethod(other: seq<Byte>, value: seq<Byte>): seq<Event> {
    [Begin([])] + [Begin(PSCI)] + [End] + [Begin(other)] + [Prop(METHOD, value)] + [End] + [End]
  }

  function PsciSeen(cpus: nat, stack: seq<NodeScan>, conduit: Option<PsciMethod>): Scan {
    START.(cpusDepth := cpus, psciDepth := 2, stack := stack, info := START.info.(psciMethod := conduit))
  }

  /** The depth of `/psci` is remembered after it closes: the other node's `method` sets the board's conduit. */
  lemma StrayMethodTaken(other: seq<Byte>, value: seq<Byte>)
    ensures Meaning(StrayMethod(other, value)) == Some(START.info.(psciMethod := DecodePsciMethod(value)))
  {
    hide Fold, Ascii, DecodePsciMethod;
    WordLengths();
    var cpus := if other == CPUS then 2 else 0;
    var root := [Bare([])];
    var s1, s2, s3 := START.(stack := root), PsciSeen(0, [Bare([]), Bare(PSCI)], None), PsciSeen(0, root, None);
    var both := [Bare([]), Bare(other)];
    var s4, s5 := PsciSeen(cpus, both, None), PsciSeen(cpus, both, DecodePsciMethod(value));
    var s6, s7 := PsciSeen(cpus, root, DecodePsciMethod(value)), PsciSeen(cpus, [], DecodePsciMethod(value));
    assert START.stack + root == root && root + [Bare(PSCI)] == [Bare([]), Bare(PSCI)] && root + [Bare(other)] == both;
    assert s7.stack + root == root;
    assert Apply(START, Begin([])) == Some(s1);
    assert Apply(s1, Begin(PSCI)) == Some(s2);
    CloseBare(s3, PSCI);
    assert Apply(s3, Begin(other)) == Some(s4);
    MethodTaken(s4, value);
    CloseBare(s6, other);
    CloseBare(s7, []);
    assert Finish(s7) == s7.info;
    hide Apply, PsciSeen;
    FoldFour(START, s1, s2, s3, s4, Begin([]), Begin(PSCI), End, Begin(other));
    FoldOne(s4, s5, Prop(METHOD, value));
    FoldOne(s5, s6, End);
    FoldOne(s6, s7, End);
    var e0 := [Begin([])] + [Begin(PSCI)] + [End] + [Begin(other)];
    FoldNext(START, s4, s5, e0, [Prop(METHOD, value)]);
    FoldNext(START, s5, s6, e0 + [Prop(METHOD, value)], [End]);
    FoldNext(START, s6, s7, e0 + [Prop(METHOD, value)] + [End], [End]);
  }

  lemma MethodTaken(s: Scan, value: seq<Byte>)
    requires |s.stack| == 2 == s.psciDepth && s.info.psciMethod.None?
    ensures Apply(s, Prop(METHOD, value)) == Some(s.(info := s.info.(psciMethod := DecodePsciMethod(value))))
  {
    hide Ascii, DecodePsciMethod;
    KeysDiffer();
  }

  /**
   * A `method` sets the conduit exactly when a root `psci` node began earlier in
   * the parse, two nodes are open, whatever their names, and none is known.
   */
  lemma MethodSetsIff(es: seq<Event>, value: seq<Byte>)
    requires SliceValues(es) && Fold(START, es + [Prop(METHOD, value)]).Some?
    ensures Fold(START, es).Some?
    ensures var s, t := Fold(START, es).value, Fold(START, es + [Prop(METHOD, value)]).value;
            t.info.psciMethod ==
            if RootChildBegan(es, PSCI) && Begins(es) == Ends(es) + 2 && s.info.psciMethod.None?
            then DecodePsciMethod(value) else s.info.psciMethod
  {
    hide Fold, Ascii, ReadBe32, Begins, Ends, RootChildBegan, DecodePsciMethod, FillNode;
    KeysDiffer();
    FoldSnoc(START, es, Prop(METHOD, value));
    DepthsAre(es);
    RunsKeep(START, es);
  }

  lemma FinishOneCpu(cells: nat, psci: nat, id: nat)
    ensures Finish(CpusSeen(cells, psci, [], [id])) == START.info.(cpus := Some(CpuTopology(1, PadMpidrs([id]))))
  {
  }

  function PsciEvents(compat: seq<Byte>, conduit: seq<Byte>): seq<Event> {
    [Begin(PSCI)] + [Prop(COMPATIBLE, compat)] + [Prop(METHOD, conduit)] + [End]
  }

  /** The root's `psci` node gives the conduit named by its `method`, unless one is already known. */
  lemma PsciNode(s: Scan, compat: seq<Byte>, conduit: seq<Byte>)
    requires |s.stack| == ROOT_DEPTH && s.cpusDepth in {0, 2}
    ensures var conduits := if s.info.psciMethod.None? then DecodePsciMethod(conduit) else s.info.psciMethod;
            Fold(s, PsciEvents(compat, conduit)) == Some(s.(psciDepth := 2, info := s.info.(psciMethod := conduits)))
  {
    hide Fold, Ascii, DecodePsciMethod, NodeNameIs, CstrListContains, RecordResource;
    WordLengths();
    KeysDiffer();
    var n0, n1 := NodeScan(PSCI, [], [], []), NodeScan(PSCI, compat, [], []);
    var p := s.(psciDepth := 2);
    var s1 := p.(stack := s.stack + [n0]);
    var s2 := p.(stack := s.stack + [n1]);
    var q := p.(info := s.info.(psciMethod := if s.info.psciMethod.None? then DecodePsciMethod(conduit) else s.info.psciMethod));
    var s3 := q.(stack := s.stack + [n1]);
    assert Apply(s, Begin(PSCI)) == Some(s1);
    assert s1.stack[1 := n1] == s2.stack;
    assert Apply(s1, Prop(COMPATIBLE, compat)) == Some(s2);
    assert Apply(s2, Prop(METHOD, conduit)) == Some(s3);
    CloseTop(q, n1);
    NoRegNoResource(q, n1);
    assert RecordNode(q, n1) == q;
    hide Apply;
    FoldFour(s, s1, s2, s3, q, Begin(PSCI), Prop(COMPATIBLE, compat), Prop(METHOD, conduit), End);
  }

  lemma NoRegNoResource(s: Scan, node: NodeScan)
    requires node.reg == []
    ensures RecordResource(s.info, node, RegEntry(s, node, 0), RegEntry(s, node, GIC_REDIST_INDEX)) == s.info
  {
    hide CstrListContains, NodeNameIs, ReadBeCells;
    if Cells(s) {
      DecodeEntryDefined([], s.addrCells, s.sizeCells, 0);
      DecodeEntryDefined([], s.addrCells, s.sizeCells, s.addrCells + s.sizeCells);
    }
  }

  // ---- the whole board ---------------------------------------------------------------------

  const MEMORY_NODE := MEMORY + Ascii("@40000000")
  const UART_NODE := Ascii("pl011@9000000")
  const GIC_NODE := Ascii("intc@8000000")
  const MEMORY_TYPE := MEMORY + [0]
  const UART_COMPAT := PL011 + ([0] + Ascii("arm,primecell") + [0])
  const GIC_COMPAT := GIC_V3 + [0]
  const PSCI_COMPAT := Ascii("arm,psci-1.0") + [0] + Ascii("arm,psci-0.2") + [0]

  /** The word that names a conduit. */
  function ConduitWord(m: PsciMethod): seq<Byte> {
    if m == Hvc then Ascii("hvc") else Ascii("smc")
  }

  /** The addresses of a board, the widths its root declares, and its conduit. */
  datatype Layout = Layout(
    a: nat, z: nat, mem: (nat, nat), uart: (nat, nat), dist: (nat, nat), redist: (nat, nat), conduit: PsciMethod)
  {
    predicate Widths() {
      1 <= a <= CELLS_MAX && 1 <= z <= CELLS_MAX
    }

    function RegOf(entries: seq<(nat, nat)>): seq<Byte> {
      EncodeReg(entries, a, z)
    }
  }

  function RootEvents(a: nat, z: nat): seq<Event> {
    [Begin([])] + [Prop(ADDRESS_CELLS, Be32(a))] + [Prop(SIZE_CELLS, Be32(z))]
  }

  /** The test module's QEMU-style tree, for any widths, memory range, UART, interrupt controller and conduit. */
  function Board(l: Layout): seq<Event> {
    RootEvents(l.a, l.z)
    + DeviceEvents(MEMORY_NODE, DEVICE_TYPE, MEMORY_TYPE, l.RegOf([l.mem]))
    + DeviceEvents(UART_NODE, COMPATIBLE, UART_COMPAT, l.RegOf([l.uart]))
    + DeviceEvents(GIC_NODE, COMPATIBLE, GIC_COMPAT, l.RegOf([l.dist, l.redist]))
    + PsciEvents(PSCI_COMPAT, ConduitWord(l.conduit) + [0])
    + [End]
  }

  function AtRoot(a: nat, z: nat, info: DtbInfo, psciDepth: nat): Scan {
    START.(addrCells := a, sizeCells := z, stack := [NodeScan([], [], [], [])], info := info, psciDepth := psciDepth)
  }

  /** The root's two properties set the widths of addresses and sizes. */
  lemma RootOpens(a: nat, z: nat)
    requires a < TWO32 && z < TWO32
    ensures Fold(START, RootEvents(a, z)) == Some(AtRoot(a, z, START.info, 0))
  {
    hide Fold, Ascii, Be32, ReadBe32;
    KeysDiffer();
    var r0, r1, r2 := AtRoot(2, 2, START.info, 0), AtRoot(a, 2, START.info, 0), AtRoot(a, z, START.info, 0);
    assert At(Be32(a), 0, Be32(a)) && At(Be32(z), 0, Be32(z));
    PrintedAt(Be32(a), 0, a);
    PrintedAt(Be32(z), 0, z);
    WordLengths();
    assert START.stack + [NodeScan([], [], [], [])] == [NodeScan([], [], [], [])];
    assert Apply(START, Begin([])) == Some(r0);
    assert Apply(r0, Prop(ADDRESS_CELLS, Be32(a))) == Some(r1);
    assert Apply(r1, Prop(SIZE_CELLS, Be32(z))) == Some(r2);
    hide Apply;
    FoldOne(START, r0, Begin([]));
    FoldOne(r0, r1, Prop(ADDRESS_CELLS, Be32(a)));
    FoldOne(r1, r2, Prop(SIZE_CELLS, Be32(z)));
    FoldNext(START, r0, r1, [Begin([])], [Prop(ADDRESS_CELLS, Be32(a))]);
    FoldNext(START, r1, r2, [Begin([])] + [Prop(ADDRESS_CELLS, Be32(a))], [Prop(SIZE_CELLS, Be32(z))]);
  }

  lemma BaseName(base: seq<Byte>, rest: seq<Byte>)
    requires forall i :: 0 <= i < |base| ==> base[i] != 0x40
    requires rest != [] && rest[0] == 0x40
    ensures NodeNameIs(base + rest, base)
  {
    PositionUnique(base + rest, 0x40, |base|);
    assert (base + rest)[..|base|] == base;
  }

  lemma BoardNames()
    ensures NodeNameIs(MEMORY_NODE, MEMORY)
    ensures |UART_NODE| == 13 && |GIC_NODE| == 12
  {
    BaseName(MEMORY, Ascii("@40000000"));
  }

  lemma FirstEntry(list: seq<Byte>, needle: seq<Byte>, rest: seq<Byte>)
    requires NulFree(needle) && needle != [] && rest != [] && rest[0] == 0 && list == needle + rest
    ensures ListHolds(list, needle)
  {
    assert list[0..0 + |needle|] == needle;
    assert EntryAt(list, needle, 0);
  }

  lemma BoardLists()
    ensures ListHolds(UART_COMPAT, PL011) && ListHolds(GIC_COMPAT, GIC_V3)
  {
    FirstEntry(UART_COMPAT, PL011, [0] + Ascii("arm,primecell") + [0]);
    FirstEntry(GIC_COMPAT, GIC_V3, [0]);
  }

  /** A `method` names a conduit exactly when it is one of the two words, up to its first NUL or its end. */
  lemma ConduitIff(word: seq<Byte>, tail: seq<Byte>)
    requires NulFree(word) && (tail == [] || tail[0] == 0)
    ensures DecodePsciMethod(word + tail) ==
            if word == Ascii("hvc") then Some(Hvc) else if word == Ascii("smc") then Some(Smc) else None
  {
    hide Ascii;
    var value := word + tail;
    assert value[0..] == value;
    PositionUnique(value, 0, |word|);
    assert value[..|word|] == word;
  }

  lemma ConduitDecodes(m: PsciMethod)
    ensures DecodePsciMethod(ConduitWord(m) + [0]) == Some(m)
    ensures |ConduitWord(m)| == 3 && NulFree(ConduitWord(m))
  {
    assert Ascii("hvc")[0] == 0x68 && Ascii("smc")[0] == 0x73;
    ConduitIff(ConduitWord(m), [0]);
  }

  lemma RegSize(l: Layout, entries: seq<(nat, nat)>)
    requires l.Widths() && |entries| <= 2
    ensures |l.RegOf(entries)| <= 64
  {
    if entries != [] {
      assert |EncodeEntry(entries[0], l.a, l.z)| == 4 * (l.a + l.z);
      if |entries| == 2 {
        assert entries[1..][1..] == [];
        assert |EncodeReg(entries[1..], l.a, l.z)| == 4 * (l.a + l.z);
      } else {
        assert entries[1..] == [];
      }
    }
  }

  /** What the board reports: each number as its declared cells can hold it. */
  function BoardInfo(l: Layout): DtbInfo {
    DtbInfo(Held(l.mem.0, l.a), Held(l.mem.1, l.z), Some(Held(l.uart.0, l.a)), Some(Held(l.dist.0, l.a)),
            Some(Held(l.redist.0, l.a)), None, Some(l.conduit))
  }

  lemma BoardMeaning(l: Layout)
    requires l.Widths() && Held(l.mem.1, l.z) != 0
    ensures Meaning(Board(l)) == Some(BoardInfo(l))
  {
    hide Fold, Ascii, Held, EncodeReg, DeviceEvents, PsciEvents, RootEvents, ListHolds, NodeNameIs, DecodePsciMethod, ConduitWord;
    RootOpens(l.a, l.z);
    BoardNames();
    BoardLists();
    ConduitDecodes(l.conduit);
    WordLengths();
    RegSize(l, [l.mem]);
    RegSize(l, [l.uart]);
    RegSize(l, [l.dist, l.redist]);
    var i0 := START.info;
    var i1 := i0.(memoryBase := Held(l.mem.0, l.a), memorySize := Held(l.mem.1, l.z));
    var i2 := i1.(uartBase := Some(Held(l.uart.0, l.a)));
    var i3 := i2.(gicDistBase := Some(Held(l.dist.0, l.a)), gicRedistBase := Some(Held(l.redist.0, l.a)));
    var s0, s1 := AtRoot(l.a, l.z, i0, 0), AtRoot(l.a, l.z, i1, 0);
    var s2, s3 := AtRoot(l.a, l.z, i2, 0), AtRoot(l.a, l.z, i3, 0);
    var s4 := AtRoot(l.a, l.z, BoardInfo(l), 2);
    MemoryNode(s0, MEMORY_NODE, MEMORY_TYPE, [l.mem]);
    UartNode(s1, UART_NODE, UART_COMPAT, [l.uart]);
    GicNode(s2, GIC_NODE, GIC_COMPAT, [l.dist, l.redist]);
    var conduit := ConduitWord(l.conduit) + [0];
    PsciNode(s3, PSCI_COMPAT, conduit);
    var e0, e1 := RootEvents(l.a, l.z), DeviceEvents(MEMORY_NODE, DEVICE_TYPE, MEMORY_TYPE, l.RegOf([l.mem]));
    var e2 := DeviceEvents(UART_NODE, COMPATIBLE, UART_COMPAT, l.RegOf([l.uart]));
    var e3 := DeviceEvents(GIC_NODE, COMPATIBLE, GIC_COMPAT, l.RegOf([l.dist, l.redist]));
    var e4 := PsciEvents(PSCI_COMPAT, conduit);
    FoldNext(START, s0, s1, e0, e1);
    FoldNext(START, s1, s2, e0 + e1, e2);
    FoldNext(START, s2, s3, e0 + e1 + e2, e3);
    FoldNext(START, s3, s4, e0 + e1 + e2 + e3, e4);
    RootCloses(l.a, l.z, BoardInfo(l));
    FoldNext(START, s4, s4.(stack := []), e0 + e1 + e2 + e3 + e4, [End]);
  }

  lemma RootCloses(a: nat, z: nat, info: DtbInfo)
    ensures Fold(AtRoot(a, z, info, 2), [End]) == Some(AtRoot(a, z, info, 2).(stack := []))
  {
    hide Fold, Ascii, CstrListContains, NodeNameIs, RecordResource;
    var n := NodeScan([], [], [], []);
    var s := AtRoot(a, z, info, 2).(stack := []);
    assert s.stack + [n] == [n];
    CloseTop(s, n);
    NoRegNoResource(s, n);
    assert RecordNode(s, n) == s;
    hide Apply;
    FoldOne(AtRoot(a, z, info, 2), s, End);
  }

  // ---- the printed board fits --------------------------------------------------------------

  /** Short parts and NUL-free names. */
  ghost predicate PlainEvent(e: Event) {
    && (e.Begin? ==> |e.name| <= 64 && NulFree(e.name))
    && (e.Prop? ==> |e.key| <= 64 && |e.value| <= 64 && NulFree(e.key))
  }

  ghost predicate Plain(es: seq<Event>) {
    forall i :: 0 <= i < |es| ==> PlainEvent(es[i])
  }

  lemma PlainConcat(a: seq<Event>, b: seq<Event>)
    requires Plain(a) && Plain(b)
    ensures Plain(a + b)
  {
  }

  lemma PlainSize(e: Event, off: nat)
    requires PlainEvent(e)
    ensures |EncodeEvent(e, off)| + |EventName(e)| <= 200
  {
    hide Be32, NulFree;
  }

  lemma {:induction false} PlainFits(es: seq<Event>, off: nat)
    requires Plain(es)
    ensures |EncodeEvents(es, off)| + |EncodeStrings(es)| <= 200 * |es|
    decreases |es|
  {
    hide EncodeEvent, EventName, PlainEvent;
    if es != [] {
      assert PlainEvent(es[0]);
      PlainSize(es[0], off);
      PlainFits(es[1..], off + |EventName(es[0])|);
    }
  }

  lemma PlainWords()
    ensures NulFree(MEMORY_NODE) && NulFree(UART_NODE) && NulFree(GIC_NODE) && NulFree(PSCI)
    ensures NulFree(COMPATIBLE) && NulFree(DEVICE_TYPE) && NulFree(REG) && NulFree(METHOD)
    ensures NulFree(ADDRESS_CELLS) && NulFree(SIZE_CELLS)
    ensures |MEMORY_NODE| == 15 && |COMPATIBLE| == 10 && |DEVICE_TYPE| == 11 && |REG| == 3 && |METHOD| == 6
    ensures |ADDRESS_CELLS| == 14 && |SIZE_CELLS| == 11
    ensures |MEMORY_TYPE| == 7 && |UART_COMPAT| == 24 && |GIC_COMPAT| == 11 && |PSCI_COMPAT| == 26
  {
  }

  lemma PlainDevice(name: seq<Byte>, key: seq<Byte>, value: seq<Byte>, reg: seq<Byte>)
    requires |name| <= 64 && NulFree(name) && |key| <= 64 && NulFree(key) && |value| <= 64 && |reg| <= 64
    ensures Plain(DeviceEvents(name, key, value, reg)) && |DeviceEvents(name, key, value, reg)| == 4
  {
    hide Ascii, NulFree;
    PlainWords();
  }

  lemma PlainBoard(l: Layout)
    requires l.Widths()
    ensures Plain(Board(l)) && |Board(l)| == 20
  {
    hide Ascii, NulFree, EncodeReg, Plain, ConduitWord;
    PlainWords();
    BoardNames();
    WordLengths();
    RegSize(l, [l.mem]);
    RegSize(l, [l.uart]);
    RegSize(l, [l.dist, l.redist]);
    PlainDevice(MEMORY_NODE, DEVICE_TYPE, MEMORY_TYPE, l.RegOf([l.mem]));
    PlainDevice(UART_NODE, COMPATIBLE, UART_COMPAT, l.RegOf([l.uart]));
    PlainDevice(GIC_NODE, COMPATIBLE, GIC_COMPAT, l.RegOf([l.dist, l.redist]));
    PlainEnds(l);
    hide DeviceEvents, RootEvents, PsciEvents;
    var e0, e1 := RootEvents(l.a, l.z), DeviceEvents(MEMORY_NODE, DEVICE_TYPE, MEMORY_TYPE, l.RegOf([l.mem]));
    var e2 := DeviceEvents(UART_NODE, COMPATIBLE, UART_COMPAT, l.RegOf([l.uart]));
    var e3 := DeviceEvents(GIC_NODE, COMPATIBLE, GIC_COMPAT, l.RegOf([l.dist, l.redist]));
    var e4 := PsciEvents(PSCI_COMPAT, ConduitWord(l.conduit) + [0]);
    PlainConcat(e0, e1);
    PlainConcat(e0 + e1, e2);
    PlainConcat(e0 + e1 + e2, e3);
    PlainConcat(e0 + e1 + e2 + e3, e4);
    PlainConcat(e0 + e1 + e2 + e3 + e4, [End]);
  }

  lemma PlainEnds(l: Layout)
    ensures Plain(RootEvents(l.a, l.z)) && |RootEvents(l.a, l.z)| == 3
    ensures var psci := PsciEvents(PSCI_COMPAT, ConduitWord(l.conduit) + [0]); Plain(psci) && |psci| == 4
    ensures Plain([End])
  {
    hide Ascii, Be32, ConduitWord;
    PlainWords();
    WordLengths();
    ConduitDecodes(l.conduit);
  }

  /**
   * The test tree parses to its own numbers, for all address and size widths,
   * every memory range of non-zero size, every UART, every
   * distributor/redistributor pair and both conduits.
   */
  lemma BoardParses(l: Layout)
    requires l.Widths() && Held(l.mem.1, l.z) != 0
    ensures Parse(Blob(Board(l))) == Some(BoardInfo(l))
  {
    hide Board, BoardInfo, Meaning, EncodeEvents, EncodeStrings, Be32, Parse, HeaderBytes, Held;
    var es := Board(l);
    PlainBoard(l);
    PlainFits(es, 0);
    PlainNames(es);
    BoardMeaning(l);
    ParsePrinted(es);
  }

  predicate Fits(v: nat, cells: nat) {
    v < TWO64 && (cells >= 2 || v < TWO32)
  }

  /** Numbers that fit their widths are reported unchanged. */
  lemma BoardParsesExactly(l: Layout)
    requires l.Widths() && l.mem.1 != 0 && Fits(l.mem.0, l.a) && Fits(l.mem.1, l.z)
    requires Fits(l.uart.0, l.a) && Fits(l.dist.0, l.a) && Fits(l.redist.0, l.a)
    ensures Parse(Blob(Board(l))) ==
            Some(DtbInfo(l.mem.0, l.mem.1, Some(l.uart.0), Some(l.dist.0), Some(l.redist.0), None, Some(l.conduit)))
  {
    hide Board, Parse, Held;
    HeldExact(l.mem.0, l.a);
    HeldExact(l.mem.1, l.z);
    HeldExact(l.uart.0, l.a);
    HeldExact(l.dist.0, l.a);
    HeldExact(l.redist.0, l.a);
    BoardParses(l);
  }

  lemma PlainNames(es: seq<Event>)
    requires Plain(es)
    ensures NulFreeNames(es)
  {
    hide NulFree;
    assert forall i :: 0 <= i < |es| ==> PlainEvent(es[i]);
  }
}
