/** `StandardBpfVerifier::verify` of functions/debug/ebpf_verifier.rs. */
module BpfVerifier {
  import opened Machine
  import opened BpfIsa

  const MAX_PATH_DEPTH: nat := 8

  datatype RegType = NotInit | Scalar | StackPtr | CtxPtr

  datatype RegState = RegState(kind: RegType, range: Option<(U64, U64)>)

  const UNINIT := RegState(NotInit, None)
  const UNKNOWN := RegState(Scalar, None)

  function ConstValue(v: U64): RegState {
    RegState(Scalar, Some((v, v)))
  }

  function HelperMinArgs(id: nat): nat {
    if id == 2 then 3 else if id == 1 || id == 3 then 2 else if id == 6 then 1 else 0
  }

  predicate IsValidHelper(id: nat) {
    id in {6, 5, 8, 1, 2, 3}
  }

  /** None is the overflow error; Some(None) an unknown result range. */
  function AluCheckedRange(opLow: nat, dst: Option<(U64, U64)>, src: Option<(U64, U64)>, srcIsReg: bool, imm: I32): Option<Option<(U64, U64)>> {
    if dst.None? || dst.value.0 != dst.value.1 then Some(None)
    else if srcIsReg && (src.None? || src.value.0 != src.value.1) then Some(None)
    else
      var a := dst.value.0;
      var b := if srcIsReg then src.value.0 else ImmU64(imm);
      if opLow != ADD && opLow != SUB && opLow != MUL then Some(None)
      else
        var v := Exact(opLow, a, b);
        if 0 <= v <= U64_MAX then Some(Some((v, v))) else None
  }

  /** The unbounded result of a checked operation. */
  function Exact(opLow: nat, a: U64, b: U64): int {
    if opLow == ADD then a + b else if opLow == SUB then a - b else a * b
  }

  datatype Abs = Abs(regs: seq<RegState>, depth: nat)

  const ENTRY := Abs(
    [UNINIT, RegState(CtxPtr, None), UNINIT, UNINIT, UNINIT, UNINIT, UNINIT, UNINIT, UNINIT, UNINIT,
     RegState(StackPtr, None)], 0)

  predicate Init(a: Abs, r: nat)
    requires r < |a.regs|
  {
    !a.regs[r].kind.NotInit?
  }

  predicate ArgsInit(a: Abs, n: nat)
    requires |a.regs| == BPF_REG_NUM && n < BPF_REG_NUM
  {
    forall r :: 1 <= r <= n ==> Init(a, r)
  }

  /** A jump target must lie in the program; a strictly backward one uses up a unit of path depth. */
  function CheckTarget(cnt: nat, pc: nat, insn: Insn, depth: nat): Option<nat> {
    var target := Target(pc, insn);
    if target < 0 || target >= cnt then None
    else if target < pc then if depth + 1 > MAX_PATH_DEPTH then None else Some(depth + 1)
    else Some(depth)
  }

  function CheckJump(cnt: nat, pc: nat, insn: Insn, a: Abs): Option<Abs>
    requires |a.regs| == BPF_REG_NUM && Encodable(insn)
  {
    if insn.OpLow() == CALL then
      var id := HelperId(insn);
      if !IsValidHelper(id) || !Init(a, R1) then None
      else if !ArgsInit(a, HelperMinArgs(id)) then None
      else Some(a.(regs := a.regs[R1 := UNKNOWN]))
    else if insn.OpLow() == EXIT then Some(a)
    else
      var depth :- CheckTarget(cnt, pc, insn, a.depth);
      if insn.OpLow() != JA && ((insn.UsesSrc() && !Init(a, insn.Src())) || !Init(a, insn.Dst())) then None
      else Some(a.(depth := depth))
  }

  function CheckAlu(insn: Insn, a: Abs): Option<Abs>
    requires |a.regs| == BPF_REG_NUM && Encodable(insn)
  {
    var dst, src := insn.Dst(), insn.Src();
    if insn.OpLow() == MOV then
      if insn.UsesSrc() then if Init(a, src) then Some(a.(regs := a.regs[dst := a.regs[src]])) else None
      else Some(a.(regs := a.regs[dst := ConstValue(ImmU64(insn.imm))]))
    else if !Init(a, dst) then None
    else if insn.Class() == ALU64 then
      if insn.UsesSrc() && !Init(a, src) then None
      else
        var range :- AluCheckedRange(insn.OpLow(), a.regs[dst].range, a.regs[src].range, insn.UsesSrc(), insn.imm);
        Some(a.(regs := a.regs[dst := RegState(Scalar, range)]))
    else Some(a.(regs := a.regs[dst := UNKNOWN]))
  }

  function CheckLoad(insn: Insn, a: Abs): Option<Abs>
    requires |a.regs| == BPF_REG_NUM && Encodable(insn)
  {
    var base := a.regs[insn.Src()].kind;
    var ok := if insn.Class() == LD then -4096 <= insn.off <= 4096
              else if base == StackPtr then -BPF_STACK_SIZE <= insn.off <= 0
              else base == CtxPtr;
    if ok then Some(a.(regs := a.regs[insn.Dst() := UNKNOWN])) else None
  }

  function CheckStore(insn: Insn, a: Abs): Option<Abs>
    requires |a.regs| == BPF_REG_NUM && Encodable(insn)
  {
    var base := a.regs[insn.Dst()].kind;
    if base != StackPtr && base != CtxPtr then None
    else if insn.Class() == STX && !Init(a, insn.Src()) then None
    else Some(a)
  }

  /** The verifier's transfer function for one instruction; None is a rejection. */
  function CheckInsn(cnt: nat, pc: nat, insn: Insn, a: Abs): (r: Option<Abs>)
    requires |a.regs| == BPF_REG_NUM
    ensures r.Some? ==> |r.value.regs| == BPF_REG_NUM
  {
    var cls := insn.Class();
    if !Encodable(insn) then None
    else if insn.Dst() == R10 && (cls == ST || cls == STX) then None
    else if insn.IsJump() then CheckJump(cnt, pc, insn, a)
    else if cls == ALU || cls == ALU64 then CheckAlu(insn, a)
    else if cls == LD || cls == LDX then CheckLoad(insn, a)
    else CheckStore(insn, a)
  }

  /** The state before instruction `n`, when every earlier one passed. */
  function StateAt(prog: Prog, n: nat): (r: Option<Abs>)
    requires n <= |prog.insns|
    ensures r.Some? ==> |r.value.regs| == BPF_REG_NUM
  {
    if n == 0 then Some(ENTRY)
    else
      var a :- StateAt(prog, n - 1);
      CheckInsn(prog.insnCnt, n - 1, prog.insns[n - 1], a)
  }

  predicate Accepted(prog: Prog) {
    && 0 < prog.insnCnt <= BPF_MAX_INSNS
    && (prog.insns != [] ==> prog.insns[|prog.insns| - 1].op == EXIT_OP)
    && StateAt(prog, Min(|prog.insns|, BPF_MAX_INSNS)).Some?
  }

  lemma {:induction false} StateAtEarlier(prog: Prog, m: nat, n: nat)
    requires m <= n <= |prog.insns| && StateAt(prog, n).Some?
    ensures StateAt(prog, m).Some?
  {
    if m < n {
      StateAtEarlier(prog, m, n - 1);
    }
  }

  // ---- the pass over the program ------------------------------------------------

  method ArgsInitialised(regs: array<RegState>, n: nat) returns (ok: bool)
    requires regs.Length == BPF_REG_NUM && n < BPF_REG_NUM
    ensures ok <==> forall r :: 1 <= r <= n ==> !regs[r].kind.NotInit?
  {
    var r := 1;
    while r <= n
      invariant 1 <= r <= n + 1
      invariant forall q :: 1 <= q < r ==> !regs[q].kind.NotInit?
    {
      if regs[r].kind.NotInit? {
        return false;
      }
      r := r + 1;
    }
    ok := true;
  }

  /** The body of the loop, updating `regs` in place and the path depth. */
  method VisitInsn(cnt: nat, pc: nat, insn: Insn, regs: array<RegState>, pathDepth: nat) returns (ok: bool, depth: nat)
    requires regs.Length == BPF_REG_NUM
    modifies regs
    ensures var next := CheckInsn(cnt, pc, insn, Abs(old(regs[..]), pathDepth));
            && (ok <==> next.Some?)
            && (ok ==> next.value == Abs(regs[..], depth))
  {
    depth := pathDepth;
    var dst, src, cls := insn.Dst(), insn.Src(), insn.Class();
    if dst >= BPF_REG_NUM || src >= BPF_REG_NUM {
      return false, depth;
    }
    if dst == R10 && (cls == ST || cls == STX) {
      return false, depth;
    }
    if cls == JMP || cls == JMP32 {
      ok, depth := VisitJump(cnt, pc, insn, regs, pathDepth);
    } else if cls == ALU || cls == ALU64 {
      ok := VisitAlu(insn, regs, pathDepth);
    } else if cls == LD {
      if insn.off < -4096 || insn.off > 4096 {
        return false, depth;
      }
      regs[dst] := UNKNOWN;
      ok := true;
    } else if cls == LDX {
      match regs[src].kind {
        case StackPtr =>
          if insn.off < -BPF_STACK_SIZE || insn.off > 0 {
            return false, depth;
          }
        case CtxPtr =>
        case _ =>
          return false, depth;
      }
      regs[dst] := UNKNOWN;
      ok := true;
    } else {
      if !regs[dst].kind.StackPtr? && !regs[dst].kind.CtxPtr? {
        return false, depth;
      }
      ok := !(cls == STX && regs[src].kind.NotInit?);
    }
  }

  method VisitJump(cnt: nat, pc: nat, insn: Insn, regs: array<RegState>, pathDepth: nat) returns (ok: bool, depth: nat)
    requires regs.Length == BPF_REG_NUM && Encodable(insn)
    modifies regs
    ensures var next := CheckJump(cnt, pc, insn, Abs(old(regs[..]), pathDepth));
            && (ok <==> next.Some?)
            && (ok ==> next.value == Abs(regs[..], depth))
  {
    depth := pathDepth;
    var opLow := insn.OpLow();
    if opLow == CALL {
      var id := HelperId(insn);
      if !IsValidHelper(id) || regs[R1].kind.NotInit? {
        return false, depth;
      }
      ghost var a := Abs(regs[..], pathDepth);
      ok := ArgsInitialised(regs, HelperMinArgs(id));
      assert forall r :: 0 <= r < BPF_REG_NUM ==> (Init(a, r) <==> !regs[r].kind.NotInit?);
      assert ok <==> ArgsInit(a, HelperMinArgs(id));
      regs[R1] := UNKNOWN;
    } else if opLow == EXIT {
      ok := true;
    } else {
      var target := Target(pc, insn);
      if target < 0 || target >= cnt {
        return false, depth;
      }
      if target < pc {
        depth := depth + 1;
        if depth > MAX_PATH_DEPTH {
          return false, depth;
        }
      }
      ok := opLow == JA || !((insn.UsesSrc() && regs[insn.Src()].kind.NotInit?) || regs[insn.Dst()].kind.NotInit?);
    }
  }

  method VisitAlu(insn: Insn, regs: array<RegState>, pathDepth: nat) returns (ok: bool)
    requires regs.Length == BPF_REG_NUM && Encodable(insn)
    modifies regs
    ensures var next := CheckAlu(insn, Abs(old(regs[..]), pathDepth));
            && (ok <==> next.Some?)
            && (ok ==> next.value == Abs(regs[..], pathDepth))
  {
    var dst, src := insn.Dst(), insn.Src();
    if insn.OpLow() != MOV && regs[dst].kind.NotInit? {
      return false;
    }
    if insn.OpLow() == MOV {
      if insn.UsesSrc() {
        if regs[src].kind.NotInit? {
          return false;
        }
        regs[dst] := regs[src];
      } else {
        regs[dst] := ConstValue(ImmU64(insn.imm));
      }
    } else if insn.Class() == ALU64 {
      if insn.UsesSrc() && regs[src].kind.NotInit? {
        return false;
      }
      var range := AluCheckedRange(insn.OpLow(), regs[dst].range, regs[src].range, insn.UsesSrc(), insn.imm);
      if range.None? {
        return false;
      }
      regs[dst] := RegState(Scalar, range.value);
    } else {
      regs[dst] := UNKNOWN;
    }
    ok := true;
  }

  /** `verify`: one linear pass, accepting exactly the programs of `Accepted`. */
  method Verify(prog: Prog) returns (ok: bool)
    ensures ok <==> Accepted(prog)
  {
    if prog.insnCnt == 0 || prog.insnCnt > BPF_MAX_INSNS {
      return false;
    }
    if prog.insns != [] && prog.insns[|prog.insns| - 1].op != EXIT_OP {
      return false;
    }
    var regs := new RegState[BPF_REG_NUM](_ => UNINIT);
    regs[R1] := RegState(CtxPtr, None);
    regs[R10] := RegState(StackPtr, None);
    assert regs[..] == ENTRY.regs;
    var pathDepth: nat := 0;
    var bound := Min(|prog.insns|, BPF_MAX_INSNS);
    for pc := 0 to bound
      invariant regs.Length == BPF_REG_NUM
      invariant StateAt(prog, pc) == Some(Abs(regs[..], pathDepth))
    {
      var passed, depth := VisitInsn(prog.insnCnt, pc, prog.insns[pc], regs, pathDepth);
      if !passed {
        if Accepted(prog) {
          StateAtEarlier(prog, pc + 1, bound);
        }
        return false;
      }
      pathDepth := depth;
    }
    ok := true;
  }
}
