/** What acceptance by the verifier means for the interpreter. */
module BpfSoundness {
  import opened Machine
  import opened BpfIsa
  import opened BpfVerifier

  // ---- control flow: every accepted program ---------------------------------------

  lemma StepCases(prog: Prog, s: State, t: State)
    requires Step(prog, s, t)
    ensures var insn := prog.insns[s.pc];
            && !insn.IsExit()
            && (t.pc == s.pc + 1 || (insn.HasTarget() && t.pc == Target(s.pc, insn)))
  {
    hide AluValue;
  }

  /** An accepted jump stays in the program. */
  lemma TargetInside(prog: Prog, pc: nat)
    requires Accepted(prog) && prog.insnCnt == |prog.insns| && pc < |prog.insns|
    requires prog.insns[pc].HasTarget()
    ensures 0 <= Target(pc, prog.insns[pc]) < |prog.insns|
  {
    StateAtEarlier(prog, pc + 1, |prog.insns|);
  }

  lemma LastIsExit(prog: Prog)
    requires Accepted(prog) && prog.insns != []
    ensures prog.insns[|prog.insns| - 1].IsExit()
  {
  }

  /** Along every run, whichever way conditional jumps go, the program counter stays inside the program until EXIT. */
  lemma {:induction false} PcStaysInside(prog: Prog, ctx: U64, fp: U64, run: seq<State>, i: nat)
    requires Accepted(prog) && prog.insnCnt == |prog.insns|
    requires IsRun(prog, ctx, fp, run) && i < |run|
    ensures 0 <= run[i].pc < |prog.insns|
  {
    if i > 0 {
      PcStaysInside(prog, ctx, fp, run, i - 1);
      var s, t := run[i - 1], run[i];
      assert Step(prog, s, t);
      StepCases(prog, s, t);
      LastIsExit(prog);
      if t.pc != s.pc + 1 {
        TargetInside(prog, s.pc);
      }
    }
  }

  predicate JumpsBack(prog: Prog, pc: nat)
    requires pc < |prog.insns|
  {
    prog.insns[pc].HasTarget() && Target(pc, prog.insns[pc]) < pc
  }

  function BackJumps(prog: Prog, n: nat): nat
    requires n <= |prog.insns|
  {
    if n == 0 then 0 else BackJumps(prog, n - 1) + if JumpsBack(prog, n - 1) then 1 else 0
  }

  lemma CheckInsnDepth(cnt: nat, pc: nat, insn: Insn, a: Abs)
    requires |a.regs| == BPF_REG_NUM && CheckInsn(cnt, pc, insn, a).Some?
    ensures var back := insn.HasTarget() && Target(pc, insn) < pc;
            && CheckInsn(cnt, pc, insn, a).value.depth == a.depth + (if back then 1 else 0)
            && (back ==> a.depth + 1 <= MAX_PATH_DEPTH)
  {
    hide AluCheckedRange;
  }

  lemma {:induction false} DepthCountsBackJumps(prog: Prog, n: nat)
    requires n <= |prog.insns| && StateAt(prog, n).Some?
    ensures StateAt(prog, n).value.depth == BackJumps(prog, n) <= MAX_PATH_DEPTH
  {
    if n > 0 {
      DepthCountsBackJumps(prog, n - 1);
      CheckInsnDepth(prog.insnCnt, n - 1, prog.insns[n - 1], StateAt(prog, n - 1).value);
    }
  }

  /** At most eight instructions of an accepted program jump strictly backward. */
  lemma FewBackJumps(prog: Prog)
    requires Accepted(prog) && prog.insnCnt == |prog.insns|
    ensures BackJumps(prog, |prog.insns|) <= 8
  {
    DepthCountsBackJumps(prog, |prog.insns|);
  }

  // ---- data flow: programs without jumps ------------------------------------------------

  predicate JumpFree(prog: Prog) {
    forall k :: 0 <= k < |prog.insns| ==> !prog.insns[k].HasTarget()
  }

  predicate Called(prog: Prog, n: nat)
    requires n <= |prog.insns|
  {
    exists k :: 0 <= k < n && prog.insns[k].IsCall()
  }

  ghost predicate RegOk(abs: RegState, v: U64, ctx: U64, fp: U64) {
    && (abs.kind == CtxPtr ==> v == ctx)
    && (abs.kind == StackPtr ==> v == fp)
    && (abs.range.Some? ==> abs.kind == Scalar && abs.range.value == (v, v))
  }

  function InitRegs(a: Abs): set<nat>
    requires |a.regs| == BPF_REG_NUM
  {
    set r: nat | r < BPF_REG_NUM && Init(a, r)
  }

  /** What holds a value: the registers the verifier counts as initialised, and R0 once a helper has returned. */
  function Holding(a: Abs, called: bool): set<nat>
    requires |a.regs| == BPF_REG_NUM
  {
    InitRegs(a) + if called then {R0} else {}
  }

  /** A register the verifier describes this way holds at most 32 bits. */
  predicate Narrow(r: RegState, ctx: U64, fp: U64) {
    match r.kind
    case NotInit => false
    case Scalar => r.range.Some? ==> r.range.value.0 < TWO32
    case CtxPtr => ctx < TWO32
    case StackPtr => fp < TWO32
  }

  /** The base address of a load through a pointer the verifier describes this way. */
  function Pointer(r: RegState, ctx: U64, fp: U64): U64 {
    if r.kind == CtxPtr then ctx else fp
  }

  /**
   * The exact condition under which the transfer function describes one
   * instruction, for given entry pointers. A 32-bit move must not be of a
   * negative immediate or of more than 32 bits; any other 32-bit operation must
   * not read an unwritten register; a load must write its register or find it
   * written; a call must find R0 untracked and its arguments written.
   */
  predicate Tracked(insn: Insn, a: Abs, called: bool, ctx: U64, fp: U64)
    requires |a.regs| == BPF_REG_NUM && Encodable(insn)
  {
    if insn.Class() == ALU then
      if insn.OpLow() != MOV then insn.UsesSrc() ==> insn.Src() in Holding(a, called)
      else if insn.UsesSrc() then Narrow(a.regs[insn.Src()], ctx, fp)
      else insn.imm >= 0
    else if insn.Class() == LD || insn.Class() == LDX then
      || insn.Dst() in Holding(a, called)
      || (insn.Delivers() && (insn.ReadsMemory() ==> Address(insn, Pointer(a.regs[insn.Src()], ctx, fp)) != 0))
    else insn.IsCall() ==> a.regs[R0] in {UNINIT, UNKNOWN} && HelperReads(HelperId(insn)) <= Holding(a, called)
  }

  /** The abstract state describes the concrete one, and with the calls so far says exactly which registers hold a value. */
  ghost predicate Related(a: Abs, called: bool, s: State, ctx: U64, fp: U64) {
    && |a.regs| == BPF_REG_NUM && |s.regs| == BPF_REG_NUM
    && s.written == Holding(a, called)
    && forall r :: 0 <= r < BPF_REG_NUM ==> RegOk(a.regs[r], s.regs[r], ctx, fp)
  }

  function Operand(insn: Insn, s: State): U64
    requires |s.regs| == BPF_REG_NUM && Encodable(insn)
  {
    if insn.UsesSrc() then s.regs[insn.Src()] else ImmU64(insn.imm)
  }

  ghost predicate ConstOperands(insn: Insn, a: Abs)
    requires |a.regs| == BPF_REG_NUM && Encodable(insn)
  {
    a.regs[insn.Dst()].range.Some? && (insn.UsesSrc() ==> a.regs[insn.Src()].range.Some?)
  }

  /** What the verifier promises about the instruction about to execute. */
  ghost predicate Safe(insn: Insn, a: Abs, s: State, ctx: U64, fp: U64)
    requires |a.regs| == BPF_REG_NUM && |s.regs| == BPF_REG_NUM
  {
    && Encodable(insn)
    && Reads(insn) <= s.written
    && (insn.Class() == LDX ==>
          var base := s.regs[insn.Src()];
          base == ctx || (base == fp && -BPF_STACK_SIZE <= insn.off <= 0))
    && (insn.Class() == ST || insn.Class() == STX ==> s.regs[insn.Dst()] == ctx || s.regs[insn.Dst()] == fp)
    && (insn.Class() == ALU64 && insn.OpLow() in {ADD, SUB, MUL} && ConstOperands(insn, a) ==>
          0 <= Exact(insn.OpLow(), s.regs[insn.Dst()], Operand(insn, s)) <= U64_MAX)
    && (insn.IsCall() ==> forall r :: 1 <= r <= HelperMinArgs(HelperId(insn)) ==> r in s.written)
  }

  lemma InitRegsAfter(a: Abs, r: nat, abs: RegState)
    requires |a.regs| == BPF_REG_NUM && r < BPF_REG_NUM && abs.kind != NotInit
    ensures InitRegs(a.(regs := a.regs[r := abs])) == InitRegs(a) + {r}
  {
  }

  /** Writing a described value keeps the states related. */
  lemma AssignKeeps(a: Abs, called: bool, s: State, t: State, ctx: U64, fp: U64, r: nat, abs: RegState, v: U64)
    requires Related(a, called, s, ctx, fp) && r < BPF_REG_NUM && Assigns(s, t, r, v)
    requires abs.kind != NotInit && RegOk(abs, v, ctx, fp)
    ensures Related(a.(regs := a.regs[r := abs]), called, t, ctx, fp)
  {
    hide InitRegs;
    InitRegsAfter(a, r, abs);
  }

  lemma WrapInRange(v: int)
    requires 0 <= v <= U64_MAX
    ensures Wrap64(v) == v
  {
  }

  /** A range the verifier computed is the value the interpreter computes. */
  lemma CheckedRangeIsValue(insn: Insn, a: Abs, called: bool, s: State, ctx: U64, fp: U64)
    requires Related(a, called, s, ctx, fp) && Encodable(insn) && insn.Class() == ALU64 && insn.OpLow() != MOV
    requires CheckAlu(insn, a).Some?
    ensures var dst := insn.Dst();
            RegOk(CheckAlu(insn, a).value.regs[dst], AluValue(insn, s.regs[dst], s.regs[insn.Src()]), ctx, fp)
    ensures insn.OpLow() in {ADD, SUB, MUL} && ConstOperands(insn, a) ==>
              0 <= Exact(insn.OpLow(), s.regs[insn.Dst()], Operand(insn, s)) <= U64_MAX
  {
    hide BitOp, Pow2, QuotientU64, RemainderU64, Signed32, Signed64, Wrap64, InitRegs, Insn.OpLow, Insn.UsesSrc;
    assert RegOk(a.regs[insn.Dst()], s.regs[insn.Dst()], ctx, fp);
    assert RegOk(a.regs[insn.Src()], s.regs[insn.Src()], ctx, fp);
    var exact := Exact(insn.OpLow(), s.regs[insn.Dst()], Operand(insn, s));
    if 0 <= exact <= U64_MAX {
      WrapInRange(exact);
    }
  }

  /** A tracked 32-bit operation leaves what the verifier says. */
  lemma NarrowValue(insn: Insn, a: Abs, called: bool, s: State, ctx: U64, fp: U64)
    requires Related(a, called, s, ctx, fp) && Encodable(insn) && insn.Class() == ALU && Tracked(insn, a, called, ctx, fp)
    requires CheckAlu(insn, a).Some?
    ensures var dst := insn.Dst();
            RegOk(CheckAlu(insn, a).value.regs[dst], AluValue(insn, s.regs[dst], s.regs[insn.Src()]), ctx, fp)
  {
    hide InitRegs, BitOp, Pow2, QuotientU64, RemainderU64, Signed32, Signed64, Wrap64, Insn.OpLow, Insn.UsesSrc;
    assert RegOk(a.regs[insn.Src()], s.regs[insn.Src()], ctx, fp);
  }

  lemma AluStep(insn: Insn, a: Abs, called: bool, s: State, t: State, ctx: U64, fp: U64)
    requires Related(a, called, s, ctx, fp) && Encodable(insn) && insn.Class() in {ALU, ALU64}
    requires Tracked(insn, a, called, ctx, fp) && CheckAlu(insn, a).Some?
    requires Assigns(s, t, insn.Dst(), AluValue(insn, s.regs[insn.Dst()], s.regs[insn.Src()]))
    ensures Related(CheckAlu(insn, a).value, called, t, ctx, fp)
  {
    var dst, src := insn.Dst(), insn.Src();
    var v := AluValue(insn, s.regs[dst], s.regs[src]);
    var abs := CheckAlu(insn, a).value.regs[dst];
    if insn.Class() == ALU {
      NarrowValue(insn, a, called, s, ctx, fp);
    } else if insn.OpLow() != MOV {
      CheckedRangeIsValue(insn, a, called, s, ctx, fp);
    } else {
      WideMove(insn, a, called, s, ctx, fp);
    }
    AluAssigns(insn, a);
    hide InitRegs, AluValue, CheckAlu, Tracked, Related, RegOk;
    AssignKeeps(a, called, s, t, ctx, fp, dst, abs, v);
  }

  lemma WideMove(insn: Insn, a: Abs, called: bool, s: State, ctx: U64, fp: U64)
    requires Related(a, called, s, ctx, fp) && Encodable(insn) && insn.Class() == ALU64 && insn.OpLow() == MOV
    requires CheckAlu(insn, a).Some?
    ensures var dst := insn.Dst();
            RegOk(CheckAlu(insn, a).value.regs[dst], AluValue(insn, s.regs[dst], s.regs[insn.Src()]), ctx, fp)
  {
    hide InitRegs, BitOp, Pow2, QuotientU64, RemainderU64, Signed32, Signed64, Wrap64, Insn.OpLow, Insn.UsesSrc;
    assert RegOk(a.regs[insn.Src()], s.regs[insn.Src()], ctx, fp);
  }

  /** An ALU check changes its destination only, to something initialised. */
  lemma AluAssigns(insn: Insn, a: Abs)
    requires |a.regs| == BPF_REG_NUM && Encodable(insn) && CheckAlu(insn, a).Some?
    ensures var a', dst := CheckAlu(insn, a).value, insn.Dst();
            |a'.regs| == BPF_REG_NUM && a'.regs[dst].kind != NotInit && a' == a.(regs := a.regs[dst := a'.regs[dst]])
  {
    hide AluCheckedRange;
  }

  /** Where an accepted load starts. */
  lemma LoadBase(insn: Insn, a: Abs, called: bool, s: State, ctx: U64, fp: U64)
    requires Related(a, called, s, ctx, fp) && Encodable(insn) && insn.Class() == LDX && CheckLoad(insn, a).Some?
    ensures s.regs[insn.Src()] == Pointer(a.regs[insn.Src()], ctx, fp)
  {
    hide InitRegs;
    assert RegOk(a.regs[insn.Src()], s.regs[insn.Src()], ctx, fp);
  }

  /** A tracked load writes its register or finds it written. */
  lemma LoadTracked(insn: Insn, a: Abs, called: bool, s: State, ctx: U64, fp: U64)
    requires Related(a, called, s, ctx, fp) && Encodable(insn) && insn.Class() in {LD, LDX} && CheckLoad(insn, a).Some?
    ensures Tracked(insn, a, called, ctx, fp) <==> LoadWrites(insn, s) || insn.Dst() in s.written
  {
    hide Address, CheckLoad, Holding;
    if insn.Class() == LDX {
      LoadBase(insn, a, called, s, ctx, fp);
    }
  }

  lemma LoadStep(insn: Insn, a: Abs, called: bool, s: State, t: State, ctx: U64, fp: U64)
    requires Related(a, called, s, ctx, fp) && Encodable(insn) && insn.Class() in {LD, LDX} && CheckLoad(insn, a).Some?
    requires Tracked(insn, a, called, ctx, fp)
    requires if LoadWrites(insn, s) then AssignsAny(s, t, insn.Dst()) else t == s.(pc := s.pc + 1)
    ensures Related(CheckLoad(insn, a).value, called, t, ctx, fp)
  {
    LoadTracked(insn, a, called, s, ctx, fp);
    hide InitRegs, Tracked, LoadWrites;
    if LoadWrites(insn, s) {
      var v: U64 :| Assigns(s, t, insn.Dst(), v);
      AssignKeeps(a, called, s, t, ctx, fp, insn.Dst(), UNKNOWN, v);
    } else {
      InitRegsAfter(a, insn.Dst(), UNKNOWN);
    }
  }

  /** A helper fills R0 with anything, and the verifier forgets R1. */
  lemma CallStep(cnt: nat, pc: nat, insn: Insn, a: Abs, called: bool, s: State, t: State, ctx: U64, fp: U64)
    requires Related(a, called, s, ctx, fp) && Encodable(insn) && insn.IsCall() && Tracked(insn, a, called, ctx, fp)
    requires CheckJump(cnt, pc, insn, a).Some? && AssignsAny(s, t, R0)
    ensures Related(CheckJump(cnt, pc, insn, a).value, true, t, ctx, fp)
  {
    hide InitRegs, IsValidHelper, HelperMinArgs, HelperId, HelperReads;
    var v: U64 :| Assigns(s, t, R0, v);
    InitRegsAfter(a, R1, UNKNOWN);
    InitIsIn(a, R1);
  }

  lemma InitIsIn(a: Abs, r: nat)
    requires |a.regs| == BPF_REG_NUM && r < BPF_REG_NUM && Init(a, r)
    ensures r in InitRegs(a)
  {
  }

  /** One instruction: the interpreter's step and the verifier's transfer stay in relation. */
  lemma StepKeeps(prog: Prog, a: Abs, called: bool, s: State, t: State, ctx: U64, fp: U64)
    requires Related(a, called, s, ctx, fp) && Step(prog, s, t) && !prog.insns[s.pc].HasTarget()
    requires CheckInsn(prog.insnCnt, s.pc, prog.insns[s.pc], a).Some? && Tracked(prog.insns[s.pc], a, called, ctx, fp)
    ensures t.pc == s.pc + 1
    ensures Related(CheckInsn(prog.insnCnt, s.pc, prog.insns[s.pc], a).value, called || prog.insns[s.pc].IsCall(), t, ctx, fp)
  {
    hide InitRegs, AluValue, CheckAlu, CheckLoad, CheckStore, CheckJump, Tracked;
    var insn := prog.insns[s.pc];
    if insn.Class() == ALU || insn.Class() == ALU64 {
      AluStep(insn, a, called, s, t, ctx, fp);
    } else if insn.Class() == LD || insn.Class() == LDX {
      LoadAssigns(prog, s, t);
      LoadStep(insn, a, called, s, t, ctx, fp);
    } else if insn.Class() == ST || insn.Class() == STX {
      StoreKeeps(insn, a);
    } else {
      CallStep(prog.insnCnt, s.pc, insn, a, called, s, t, ctx, fp);
    }
  }

  lemma LoadAssigns(prog: Prog, s: State, t: State)
    requires Step(prog, s, t) && prog.insns[s.pc].Class() in {LD, LDX}
    ensures var insn := prog.insns[s.pc];
            if LoadWrites(insn, s) then AssignsAny(s, t, insn.Dst()) else t == s.(pc := s.pc + 1)
  {
    hide AluValue, LdValue, LoadWrites;
    var insn := prog.insns[s.pc];
    if LoadWrites(insn, s) && !insn.ReadsMemory() {
      assert Assigns(s, t, insn.Dst(), LdValue(insn));
    }
  }

  lemma StoreKeeps(insn: Insn, a: Abs)
    requires |a.regs| == BPF_REG_NUM && Encodable(insn) && CheckStore(insn, a).Some?
    ensures CheckStore(insn, a).value == a
  {
  }

  lemma SafeInsn(cnt: nat, pc: nat, insn: Insn, a: Abs, called: bool, s: State, ctx: U64, fp: U64)
    requires Related(a, called, s, ctx, fp) && !insn.HasTarget() && CheckInsn(cnt, pc, insn, a).Some?
    requires Tracked(insn, a, called, ctx, fp)
    ensures Safe(insn, a, s, ctx, fp)
  {
    hide AluCheckedRange, AluValue, IsValidHelper, HelperId;
    assert Encodable(insn);
    assert RegOk(a.regs[insn.Src()], s.regs[insn.Src()], ctx, fp) && RegOk(a.regs[insn.Dst()], s.regs[insn.Dst()], ctx, fp);
    if insn.Class() == ALU64 && insn.OpLow() != MOV {
      CheckedRangeIsValue(insn, a, called, s, ctx, fp);
    }
  }

  lemma EntryRelated(s: State, ctx: U64, fp: U64)
    requires Initial(s, ctx, fp)
    ensures Related(ENTRY, false, s, ctx, fp)
  {
    assert InitRegs(ENTRY) == {R1, R10};
  }

  /** The instructions a jump-free program executes: those before its first EXIT, and that EXIT. */
  predicate Reached(prog: Prog, k: nat)
    requires k < |prog.insns|
  {
    forall j :: 0 <= j < k ==> !prog.insns[j].IsExit()
  }

  ghost predicate TrackedAt(prog: Prog, k: nat, ctx: U64, fp: U64)
    requires k < |prog.insns|
  {
    && StateAt(prog, k).Some? && Encodable(prog.insns[k])
    && Tracked(prog.insns[k], StateAt(prog, k).value, Called(prog, k), ctx, fp)
  }

  /** The `i`-th state of a run is described by the verifier's state there, and the instruction about to run is safe. */
  ghost predicate SoundAt(prog: Prog, ctx: U64, fp: U64, s: State, i: nat) {
    && s.pc == i < |prog.insns| && StateAt(prog, i).Some?
    && Related(StateAt(prog, i).value, Called(prog, i), s, ctx, fp)
    && Safe(prog.insns[i], StateAt(prog, i).value, s, ctx, fp)
  }

  lemma CalledNext(prog: Prog, n: nat)
    requires n < |prog.insns|
    ensures Called(prog, n + 1) <==> Called(prog, n) || prog.insns[n].IsCall()
  {
  }

  lemma {:induction false} RunReaches(prog: Prog, ctx: U64, fp: U64, run: seq<State>, i: nat)
    requires Accepted(prog) && prog.insnCnt == |prog.insns| && JumpFree(prog)
    requires IsRun(prog, ctx, fp, run) && i < |run|
    ensures run[i].pc == i < |prog.insns| && Reached(prog, i)
  {
    hide Step, Insn.IsExit, Insn.HasTarget;
    PcStaysInside(prog, ctx, fp, run, i);
    if i > 0 {
      RunReaches(prog, ctx, fp, run, i - 1);
      assert Step(prog, run[i - 1], run[i]);
      StepCases(prog, run[i - 1], run[i]);
    }
  }

  /**
   * Soundness: in any run of an accepted program without jumps, each state is
   * described by the verifier's state for that instruction, and the instruction
   * about to run is safe, as long as the instructions so far are tracked.
   */
  lemma {:induction false} VerifierSound(prog: Prog, ctx: U64, fp: U64, run: seq<State>, i: nat)
    requires Accepted(prog) && prog.insnCnt == |prog.insns| && JumpFree(prog)
    requires forall k :: 0 <= k < |prog.insns| && Reached(prog, k) ==> TrackedAt(prog, k, ctx, fp)
    requires IsRun(prog, ctx, fp, run) && i < |run|
    ensures i < |prog.insns| && SoundAt(prog, ctx, fp, run[i], i)
  {
    hide Tracked, CheckInsn, Related, Safe, Step, Insn.HasTarget, Reached, Called, Accepted;
    RunReaches(prog, ctx, fp, run, i);
    assert TrackedAt(prog, i, ctx, fp);
    if i == 0 {
      EntryRelated(run[0], ctx, fp);
      NoCallsYet(prog);
    } else {
      VerifierSound(prog, ctx, fp, run, i - 1);
      RunReaches(prog, ctx, fp, run, i - 1);
      assert TrackedAt(prog, i - 1, ctx, fp);
      assert Step(prog, run[i - 1], run[i]);
      StepKeeps(prog, StateAt(prog, i - 1).value, Called(prog, i - 1), run[i - 1], run[i], ctx, fp);
      CalledNext(prog, i - 1);
    }
    AcceptedState(prog, i + 1);
    SafeInsn(prog.insnCnt, i, prog.insns[i], StateAt(prog, i).value, Called(prog, i), run[i], ctx, fp);
  }

  lemma NoCallsYet(prog: Prog)
    ensures !Called(prog, 0)
  {
  }

  lemma AcceptedState(prog: Prog, n: nat)
    requires Accepted(prog) && prog.insnCnt == |prog.insns| && n <= |prog.insns|
    ensures StateAt(prog, n).Some?
    ensures n < |prog.insns| ==> Encodable(prog.insns[n])
  {
    hide CheckInsn, Encodable;
    StateAtEarlier(prog, n, |prog.insns|);
    if n < |prog.insns| {
      StateAtEarlier(prog, n + 1, |prog.insns|);
      PassedIsEncodable(prog.insnCnt, n, prog.insns[n], StateAt(prog, n).value);
    }
  }

  lemma PassedIsEncodable(cnt: nat, pc: nat, insn: Insn, a: Abs)
    requires |a.regs| == BPF_REG_NUM && CheckInsn(cnt, pc, insn, a).Some?
    ensures Encodable(insn)
  {
    hide CheckJump, CheckAlu, CheckLoad, CheckStore;
  }
}
