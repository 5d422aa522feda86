/** The stateful `Parser` of privileged/dtb.rs, proved to compute `DtbParser.Parse`. */
module DtbLoop {
  import opened Machine
  import opened DtbFormat
  import opened DtbEvents
  import DtbParser

  const NO_SCAN := NodeScan([], [], [], [])

  class Parser {
    const region: DtbParser.Region
    const stack: array<NodeScan>
    const cpusMpidrs: array<nat>
    var structCur: nat
    var addrCells: nat
    var sizeCells: nat
    var depth: nat
    var info: DtbInfo
    var cpusDepth: nat
    var cpusAddrCells: nat
    var psciDepth: nat
    var cpusCount: nat

    ghost predicate Valid()
      reads this, stack, cpusMpidrs
    {
      && region.Valid() && structCur <= region.end
      && stack.Length == MAX_DEPTH && depth <= MAX_DEPTH
      && cpusMpidrs.Length == CPU_MPIDR_MAX && cpusCount <= CPU_MPIDR_MAX
      && forall i :: cpusCount <= i < CPU_MPIDR_MAX ==> cpusMpidrs[i] == 0
    }

    /** The open part of the stack and the used part of the CPU table are all that later steps can see. */
    ghost function Abs(): Scan
      reads this, stack, cpusMpidrs
      requires Valid()
    {
      Scan(addrCells, sizeCells, stack[..depth], info, cpusDepth, cpusAddrCells, psciDepth, cpusMpidrs[..cpusCount])
    }

    constructor (h: DtbParser.Header)
      requires h.region.Valid() && h.structOff <= h.region.end
      ensures Valid() && fresh(stack) && fresh(cpusMpidrs)
      ensures region == h.region && structCur == h.structOff && Abs() == START
    {
      region := h.region;
      stack := new NodeScan[MAX_DEPTH](_ => NO_SCAN);
      cpusMpidrs := new nat[CPU_MPIDR_MAX](_ => 0);
      structCur := h.structOff;
      addrCells, sizeCells := 2, 2;
      depth, cpusDepth, cpusAddrCells, psciDepth, cpusCount := 0, 0, 0, 0, 0;
      info := DtbInfo(0, 0, None, None, None, None, None);
    }

    method ReadStructU32() returns (w: Option<nat>)
      requires Valid()
      modifies this`structCur
      ensures Valid()
      ensures match DtbParser.ReadStructU32(region, old(structCur))
              case None => w.None? && structCur == old(structCur)
              case Some((value, next)) => w == Some(value) && structCur == next
    {
      var next := CheckedAdd(structCur, 4);
      if next.None? || next.value > region.end {
        return None;
      }
      w := ReadBe32(region.blob, structCur);
      if w.Some? {
        structCur := next.value;
      }
    }

    method ReadCstrStruct() returns (name: Option<seq<Byte>>)
      requires Valid()
      modifies this`structCur
      ensures Valid()
      ensures match DtbParser.ReadCstr(region, old(structCur))
              case None => name.None?
              case Some((s, next)) => name == Some(s) && structCur == next
    {
      var start := structCur;
      var idx := start;
      while idx < region.end
        invariant start <= idx <= region.end
        invariant DtbParser.FindNul(region, start) == DtbParser.FindNul(region, idx)
      {
        if region.blob[idx] == 0 {
          var next := Align4(idx + 1);
          if next.None? || next.value > region.end {
            return None;
          }
          structCur := next.value;
          return Some(region.blob[start..idx]);
        }
        idx := idx + 1;
      }
      name := None;
    }

    method BeginNode() returns (ok: bool)
      requires Valid()
      modifies this, stack
      ensures Valid()
      ensures var name := DtbParser.ReadCstr(region, old(structCur));
              var after := if name.Some? then DtbEvents.BeginNode(old(Abs()), name.value.0) else None;
              && (ok <==> after.Some?)
              && (ok ==> Abs() == after.value && structCur == name.value.1)
    {
      if depth >= MAX_DEPTH {
        return false;
      }
      ghost var was := Abs();
      var name := ReadCstrStruct();
      if name.None? {
        return false;
      }
      if depth == ROOT_DEPTH && name.value == CPUS {
        cpusDepth := depth + 1;
      }
      if depth == ROOT_DEPTH && name.value == PSCI {
        psciDepth := depth + 1;
      }
      stack[depth] := NodeScan(name.value, [], [], []);
      assert stack[..depth] == was.stack;
      depth := depth + 1;
      assert stack[..depth] == was.stack + [NodeScan(name.value, [], [], [])];
      ok := true;
    }

    method EndNode() returns (ok: bool)
      requires Valid()
      modifies this, cpusMpidrs
      ensures Valid() && structCur == old(structCur)
      ensures ok <==> DtbEvents.EndNode(old(Abs())).Some?
      ensures ok ==> Abs() == DtbEvents.EndNode(old(Abs())).value
    {
      if depth == 0 {
        return false;
      }
      ghost var was := Abs();
      depth := depth - 1;
      var scan := stack[depth];
      assert was.stack[..depth] == stack[..depth] && was.stack[depth] == scan;
      RecordNode(scan);
      ok := true;
    }

    method RecordNode(scan: NodeScan)
      requires Valid()
      modifies this`info, this`cpusCount, cpusMpidrs
      ensures Valid()
      ensures Abs() == DtbEvents.RecordNode(old(Abs()), scan)
    {
      ghost var was := Abs();
      if cpusDepth != 0 && depth == cpusDepth && NodeNameIs(scan.name, CPU) {
        if cpusCount < CPU_MPIDR_MAX {
          var mpidr := cpusCount;
          if cpusAddrCells != 0 {
            var cells := ReadCells(scan.reg, 0, cpusAddrCells);
            mpidr := cells.UnwrapOr(cpusCount);
          }
          cpusMpidrs[cpusCount] := mpidr;
          assert cpusMpidrs[..cpusCount] == was.mpidrs;
          cpusCount := cpusCount + 1;
          assert cpusMpidrs[..cpusCount] == was.mpidrs + [mpidr];
        }
        return;
      }
      RecordResource(scan);
    }

    method RecordResource(scan: NodeScan)
      requires Valid()
      modifies this`info
      ensures Valid()
      ensures info == DtbEvents.RecordResource(old(info), scan, RegEntry(old(Abs()), scan, 0), RegEntry(old(Abs()), scan, GIC_REDIST_INDEX))
    {
      var entry := DecodeReg(scan.reg, addrCells, sizeCells, 0);
      if info.memorySize == 0 && (scan.deviceType == MEMORY || NodeNameIs(scan.name, MEMORY)) {
        if entry.Some? {
          info := info.(memoryBase := entry.value.0, memorySize := entry.value.1);
        }
        return;
      }
      var isUart := HasCompatible(scan, PL011);
      if info.uartBase.None? && isUart {
        if entry.Some? {
          info := info.(uartBase := Some(entry.value.0));
        }
        return;
      }
      var isGic := HasCompatible(scan, GIC_V3);
      if info.gicDistBase.None? && isGic {
        if entry.Some? {
          info := info.(gicDistBase := Some(entry.value.0));
        }
        var redist := DecodeReg(scan.reg, addrCells, sizeCells, GIC_REDIST_INDEX);
        if redist.Some? {
          info := info.(gicRedistBase := Some(redist.value.0));
        }
      }
    }

    static method HasCompatible(scan: NodeScan, needle: seq<Byte>) returns (found: bool)
      ensures found <==> CstrListContains(scan.compatible, needle)
    {
      found := ScanCstrList(scan.compatible, needle);
      CstrListContainsIff(scan.compatible, needle);
    }

    method ReadProperty() returns (ok: bool)
      requires Valid()
      modifies this, stack
      ensures Valid()
      ensures var prop := DtbParser.ReadProp(region, old(structCur));
              var after := if prop.Some? then SetProperty(old(Abs()), prop.value.0.key, prop.value.0.value) else None;
              && (ok <==> after.Some?)
              && (ok ==> Abs() == after.value && structCur == prop.value.1)
    {
      var len := ReadStructU32();
      if len.None? {
        return false;
      }
      var nameOff := ReadStructU32();
      if nameOff.None? {
        return false;
      }
      var valueEnd := CheckedAdd(structCur, len.value);
      if valueEnd.None? || valueEnd.value > region.end {
        return false;
      }
      var value := region.blob[structCur..valueEnd.value];
      var padded := Align4(valueEnd.value);
      if padded.None? || padded.value > region.end {
        return false;
      }
      structCur := padded.value;
      var name := CstrAt(region.strings, nameOff.value);
      if name.None? {
        return false;
      }
      ok := StoreProperty(name.value, value);
    }

    method StoreProperty(name: seq<Byte>, value: seq<Byte>) returns (ok: bool)
      requires Valid()
      modifies this`addrCells, this`sizeCells, this`cpusAddrCells, this`info, stack
      ensures Valid()
      ensures ok <==> SetProperty(old(Abs()), name, value).Some?
      ensures ok ==> Abs() == SetProperty(old(Abs()), name, value).value
    {
      ghost var was := Abs();
      var cells := ReadBe32(value, 0);
      if depth == ROOT_DEPTH && name == ADDRESS_CELLS {
        addrCells := cells.UnwrapOr(addrCells);
        return cells.Some?;
      }
      if depth == ROOT_DEPTH && name == SIZE_CELLS {
        sizeCells := cells.UnwrapOr(sizeCells);
        return cells.Some?;
      }
      if cpusDepth != 0 && depth == cpusDepth && name == ADDRESS_CELLS {
        cpusAddrCells := cells.UnwrapOr(cpusAddrCells);
        return cells.Some?;
      }
      if psciDepth != 0 && depth == psciDepth && name == METHOD {
        if info.psciMethod.None? {
          info := info.(psciMethod := DecodePsciMethod(value));
        }
        return true;
      }
      if depth == 0 {
        return false;
      }
      stack[depth - 1] := FillNode(stack[depth - 1], name, value);
      assert stack[..depth] == was.stack[depth - 1 := FillNode(was.stack[depth - 1], name, value)];
      ok := true;
    }

    /** One turn of the loop after its token: the effect the specification gives that token. */
    method HandleToken(token: nat) returns (ok: bool)
      requires Valid() && token in {FDT_BEGIN_NODE, FDT_END_NODE, FDT_PROP, FDT_NOP}
      requires structCur >= 4 && DtbParser.ReadStructU32(region, structCur - 4) == Some((token, structCur))
      modifies this, stack, cpusMpidrs
      ensures Valid()
      ensures var t := DtbParser.NextToken(region, old(structCur) - 4);
              && (ok <==> t.Step? && Apply(old(Abs()), t.event).Some?)
              && (ok ==> Abs() == Apply(old(Abs()), t.event).value && structCur == t.next)
    {
      hide DtbParser.ReadStructU32, DtbParser.ReadCstr, DtbParser.ReadProp;
      hide DtbEvents.BeginNode, DtbEvents.EndNode, SetProperty;
      if token == FDT_BEGIN_NODE {
        ok := BeginNode();
      } else if token == FDT_END_NODE {
        ok := EndNode();
      } else if token == FDT_PROP {
        ok := ReadProperty();
      } else {
        ok := true;
      }
    }

    method Run() returns (res: Option<DtbInfo>)
      requires Valid()
      modifies this, stack, cpusMpidrs
      ensures res == DtbParser.Run(region, old(structCur), old(Abs()))
    {
      hide Apply, DtbParser.ReadCstr, DtbParser.ReadProp;
      ghost var goal := DtbParser.Run(region, structCur, Abs());
      while true
        invariant Valid() && DtbParser.Run(region, structCur, Abs()) == goal
        decreases region.end - structCur
      {
        ghost var cur := structCur;
        var token := ReadStructU32();
        if token.None? {
          return None;
        }
        if token.value == FDT_END {
          break;
        }
        if token.value !in {FDT_BEGIN_NODE, FDT_END_NODE, FDT_PROP, FDT_NOP} {
          return None;
        }
        assert structCur - 4 == cur;
        var ok := HandleToken(token.value);
        if !ok {
          return None;
        }
      }
      FinishInfo();
      res := Some(info);
    }

    method FinishInfo()
      requires Valid()
      modifies this`info
      ensures info == Finish(old(Abs()))
    {
      if cpusDepth != 0 && cpusCount > 0 {
        assert cpusMpidrs[..] == PadMpidrs(cpusMpidrs[..cpusCount]);
        info := info.(cpus := Some(CpuTopology(cpusCount, cpusMpidrs[..])));
      }
    }
  }

  /** `parse`: total on every byte string, and equal to the specification on each. */
  method Parse(blob: seq<Byte>) returns (res: Option<DtbInfo>)
    ensures res == DtbParser.Parse(blob)
  {
    var h := DtbParser.DecodeHeader(blob);
    if h.None? {
      return None;
    }
    var parser := new Parser(h.value);
    res := parser.Run();
  }
}
