/** Where the verifier's claims end: when tracking is exact, what the stack rule covers, and accepted programs that break each claim. */
module BpfLimits {
  import opened Machine
  import opened BpfIsa
  import opened BpfVerifier
  import opened BpfSoundness
  import opened BpfFlow

  // ---- when soundness holds --------------------------------------------------------------

  /** A jump-free program can run up to any instruction before its first EXIT, and through it. */
  lemma {:induction false} RunTo(prog: Prog, ctx: U64, fp: U64, k: nat) returns (run: seq<State>)
    requires Accepted(prog) && prog.insnCnt == |prog.insns| && JumpFree(prog)
    requires k < |prog.insns| && Reached(prog, k)
    ensures IsRun(prog, ctx, fp, run) && |run| == k + 1 && |run[k].regs| == BPF_REG_NUM && run[k].pc == k
  {
    hide Accepted, JumpFree, Step, Next, StateAt, Insn.IsExit;
    if k == 0 {
      run := [Start(ctx, fp)];
    } else {
      assert Reached(prog, k - 1);
      var before := RunTo(prog, ctx, fp, k - 1);
      run := Extended(prog, ctx, fp, before, k - 1, 0);
    }
  }

  lemma Extended(prog: Prog, ctx: U64, fp: U64, run: seq<State>, k: nat, v: U64) returns (longer: seq<State>)
    requires Accepted(prog) && prog.insnCnt == |prog.insns| && JumpFree(prog)
    requires IsRun(prog, ctx, fp, run) && |run| == k + 1 && |run[k].regs| == BPF_REG_NUM && run[k].pc == k
    requires k < |prog.insns| && !prog.insns[k].IsExit()
    ensures Encodable(prog.insns[k]) && longer == run + [Next(prog.insns[k], run[k], v, false)]
    ensures IsRun(prog, ctx, fp, longer) && longer[k + 1].pc == k + 1 && |longer[k + 1].regs| == BPF_REG_NUM
  {
    hide Accepted, Step, StateAt, Encodable, Insn.IsExit;
    AcceptedState(prog, k);
    var t := Next(prog.insns[k], run[k], v, false);
    NextSteps(prog, run[k], v, false);
    longer := run + [t];
    NextInPlace(prog.insns[k], run[k], v);
    forall i | 0 <= i < |longer| - 1
      ensures Step(prog, longer[i], longer[i + 1])
    {
      if i < |run| - 1 {
        assert longer[i] == run[i] && longer[i + 1] == run[i + 1];
      }
    }
  }

  lemma NextInPlace(insn: Insn, s: State, v: U64)
    requires |s.regs| == BPF_REG_NUM && Encodable(insn) && !insn.HasTarget()
    ensures Next(insn, s, v, false).pc == s.pc + 1 && |Next(insn, s, v, false).regs| == BPF_REG_NUM
  {
    hide AluValue;
  }

  /** An untracked 32-bit move leaves a value the verifier does not describe. */
  lemma NarrowMoveBreaks(insn: Insn, a: Abs, called: bool, s: State, ctx: U64, fp: U64)
    requires Related(a, called, s, ctx, fp) && Encodable(insn)
    requires insn.Class() == ALU && insn.OpLow() == MOV && !Tracked(insn, a, called, ctx, fp) && CheckAlu(insn, a).Some?
    ensures var dst := insn.Dst();
            !RegOk(CheckAlu(insn, a).value.regs[dst], AluValue(insn, s.regs[dst], s.regs[insn.Src()]), ctx, fp)
  {
    hide InitRegs, BitOp, Pow2, QuotientU64, RemainderU64, Signed32, Signed64, Wrap64, Insn.OpLow, Insn.UsesSrc;
    assert RegOk(a.regs[insn.Src()], s.regs[insn.Src()], ctx, fp);
  }

  /** An untracked operation other than a move reads a register that holds nothing. */
  lemma NarrowReadBreaks(insn: Insn, a: Abs, called: bool, s: State, ctx: U64, fp: U64)
    requires Related(a, called, s, ctx, fp) && Encodable(insn)
    requires insn.Class() == ALU && insn.OpLow() != MOV && !Tracked(insn, a, called, ctx, fp)
    ensures !Safe(insn, a, s, ctx, fp)
  {
    hide Insn.OpLow, Insn.UsesSrc, Holding;
    assert insn.Src() in Reads(insn) && insn.Src() !in s.written;
  }

  /** After an untracked load the verifier counts a register as written that is not. */
  lemma LoadBreaks(insn: Insn, a: Abs, called: bool, s: State, ctx: U64, fp: U64)
    requires Related(a, called, s, ctx, fp) && Encodable(insn) && insn.Class() in {LD, LDX} && CheckLoad(insn, a).Some?
    requires !Tracked(insn, a, called, ctx, fp)
    ensures !LoadWrites(insn, s) && insn.Dst() !in s.written
    ensures insn.Dst() in Holding(CheckLoad(insn, a).value, called)
  {
    LoadTracked(insn, a, called, s, ctx, fp);
    hide Tracked, LoadWrites;
    InitIsIn(CheckLoad(insn, a).value, insn.Dst());
  }

  /** A value the verifier's belief about R0 excludes. */
  function Unexpected(r: RegState, ctx: U64, fp: U64): U64 {
    var believed := if r.range.Some? then r.range.value.0 else Pointer(r, ctx, fp);
    if believed == 0 then 1 else 0
  }

  /** An untracked call finds an argument unwritten, or R0 believed to be something it need not return. */
  lemma CallBreaks(insn: Insn, a: Abs, called: bool, s: State, ctx: U64, fp: U64)
    requires Related(a, called, s, ctx, fp) && Encodable(insn) && insn.IsCall() && !Tracked(insn, a, called, ctx, fp)
    ensures !Safe(insn, a, s, ctx, fp) || !RegOk(a.regs[R0], Unexpected(a.regs[R0], ctx, fp), ctx, fp)
  {
    hide InitRegs, HelperReads, HelperId;
    assert RegOk(a.regs[R0], s.regs[R0], ctx, fp);
  }

  /** What the transfer leaves where it counts. */
  lemma TransferAt(cnt: nat, pc: nat, insn: Insn, a: Abs)
    requires |a.regs| == BPF_REG_NUM && CheckInsn(cnt, pc, insn, a).Some?
    ensures insn.Class() == ALU ==> Encodable(insn) && CheckInsn(cnt, pc, insn, a) == CheckAlu(insn, a)
    ensures insn.Class() in {LD, LDX} ==> Encodable(insn) && CheckInsn(cnt, pc, insn, a) == CheckLoad(insn, a)
    ensures insn.IsCall() ==> CheckInsn(cnt, pc, insn, a).value.regs[R0] == a.regs[R0]
  {
    hide CheckAlu, CheckLoad, CheckStore, IsValidHelper, HelperId, ArgsInit;
  }

  /** Any reached instruction that is not tracked breaks soundness in some run from the same entry pointers. */
  lemma UntrackedBreaks(prog: Prog, ctx: U64, fp: U64, k: nat) returns (run: seq<State>, i: nat)
    requires Accepted(prog) && prog.insnCnt == |prog.insns| && JumpFree(prog)
    requires k < |prog.insns| && Reached(prog, k) && !TrackedAt(prog, k, ctx, fp)
    ensures IsRun(prog, ctx, fp, run) && i < |run| && !SoundAt(prog, ctx, fp, run[i], i)
  {
    hide Accepted, JumpFree, Step, Reached, Called, IsRun, SoundAt, Insn.IsExit, Related, CheckInsn;
    AcceptedState(prog, k);
    AcceptedState(prog, k + 1);
    i := k;
    run := RunTo(prog, ctx, fp, k);
    var insn, a, s := prog.insns[k], StateAt(prog, k).value, run[k];
    if SoundAt(prog, ctx, fp, s, k) {
      var v := Unexpected(a.regs[R0], ctx, fp);
      UntrackedIsNoExit(insn, a, Called(prog, k), ctx, fp);
      run := Extended(prog, ctx, fp, run, k, v);
      i := k + 1;
      UntrackedAfter(prog, ctx, fp, s, k);
    }
  }

  lemma UntrackedIsNoExit(insn: Insn, a: Abs, called: bool, ctx: U64, fp: U64)
    requires |a.regs| == BPF_REG_NUM && Encodable(insn) && !Tracked(insn, a, called, ctx, fp)
    ensures !insn.IsExit() && (insn.Class() in {ALU, LD, LDX} || insn.IsCall())
  {
    hide Holding, Narrow, HelperReads, Address;
  }

  /** One step past an untracked instruction the description fails. */
  lemma UntrackedAfter(prog: Prog, ctx: U64, fp: U64, s: State, k: nat)
    requires k < |prog.insns| && SoundAt(prog, ctx, fp, s, k) && StateAt(prog, k + 1).Some?
    requires Encodable(prog.insns[k]) && !TrackedAt(prog, k, ctx, fp)
    ensures var a := StateAt(prog, k).value;
            !SoundAt(prog, ctx, fp, Next(prog.insns[k], s, Unexpected(a.regs[R0], ctx, fp), false), k + 1)
  {
    hide Called, Safe, CheckInsn, CheckAlu, CheckLoad, AluValue, LoadWrites, Related, Unexpected, Tracked, Insn.UsesSrc, Holding;
    var insn, a, called := prog.insns[k], StateAt(prog, k).value, Called(prog, k);
    var v := Unexpected(a.regs[R0], ctx, fp);
    RelatedSizes(a, called, s, ctx, fp);
    var t, a' := Next(insn, s, v, false), StateAt(prog, k + 1).value;
    UntrackedIsNoExit(insn, a, called, ctx, fp);
    TransferAt(prog.insnCnt, k, insn, a);
    CalledNext(prog, k);
    if insn.IsCall() {
      CallBreaks(insn, a, called, s, ctx, fp);
      NotRelated(a', Called(prog, k + 1), t, R0, ctx, fp);
    } else if insn.Class() in {LD, LDX} {
      LoadBreaks(insn, a, called, s, ctx, fp);
      NotWritten(a', Called(prog, k + 1), t, insn.Dst(), ctx, fp);
    } else if insn.OpLow() == MOV {
      NarrowMoveBreaks(insn, a, called, s, ctx, fp);
      NotRelated(a', Called(prog, k + 1), t, insn.Dst(), ctx, fp);
    } else {
      NarrowReadBreaks(insn, a, called, s, ctx, fp);
    }
  }

  lemma RelatedSizes(a: Abs, called: bool, s: State, ctx: U64, fp: U64)
    requires Related(a, called, s, ctx, fp)
    ensures |a.regs| == BPF_REG_NUM == |s.regs|
  {
  }

  lemma NotRelated(a: Abs, called: bool, s: State, r: nat, ctx: U64, fp: U64)
    requires |a.regs| == BPF_REG_NUM == |s.regs| && r < BPF_REG_NUM && !RegOk(a.regs[r], s.regs[r], ctx, fp)
    ensures !Related(a, called, s, ctx, fp)
  {
    hide RegOk;
  }

  lemma NotWritten(a: Abs, called: bool, s: State, r: nat, ctx: U64, fp: U64)
    requires |a.regs| == BPF_REG_NUM && r in Holding(a, called) && r !in s.written
    ensures !Related(a, called, s, ctx, fp)
  {
    hide RegOk, Holding;
  }

  /**
   * For accepted programs without jumps and any entry pointers, soundness holds
   * in every run exactly when every instruction up to the first EXIT is tracked.
   */
  lemma SoundIff(prog: Prog, ctx: U64, fp: U64)
    requires Accepted(prog) && prog.insnCnt == |prog.insns| && JumpFree(prog)
    ensures (forall run, i :: IsRun(prog, ctx, fp, run) && 0 <= i < |run| ==> SoundAt(prog, ctx, fp, run[i], i))
            <==> (forall k :: 0 <= k < |prog.insns| && Reached(prog, k) ==> TrackedAt(prog, k, ctx, fp))
  {
    hide Accepted, JumpFree, IsRun, SoundAt, Reached, TrackedAt;
    if forall k :: 0 <= k < |prog.insns| && Reached(prog, k) ==> TrackedAt(prog, k, ctx, fp) {
      forall run, i | IsRun(prog, ctx, fp, run) && 0 <= i < |run|
        ensures SoundAt(prog, ctx, fp, run[i], i)
      {
        VerifierSound(prog, ctx, fp, run, i);
      }
    } else {
      var k :| 0 <= k < |prog.insns| && Reached(prog, k) && !TrackedAt(prog, k, ctx, fp);
      var run, i := UntrackedBreaks(prog, ctx, fp, k);
      assert !SoundAt(prog, ctx, fp, run[i], i);
    }
  }

  // ---- the stack rule ----------------------------------------------------------------------

  /** The bytes touched lie in the 512 below the frame pointer. */
  ghost predicate InStack(base: int, insn: Insn, fp: U64) {
    fp - BPF_STACK_SIZE <= base + insn.off && base + insn.off + insn.Width() <= fp
  }

  /**
   * The offset rule looks at where a load starts and not at how far it reaches,
   * and stores have no such rule: exactly these accesses stay in the stack.
   */
  lemma StackAccessIff(prog: Prog, ctx: U64, fp: U64, s: State, i: nat)
    requires Accepted(prog) && prog.insnCnt == |prog.insns| && i < |prog.insns| && SoundAt(prog, ctx, fp, s, i)
    ensures var insn, a := prog.insns[i], StateAt(prog, i).value;
            && (insn.Class() == LDX && a.regs[insn.Src()].kind == StackPtr ==>
                  (InStack(s.regs[insn.Src()], insn, fp) <==> insn.off + insn.Width() <= 0))
            && (insn.Class() in {ST, STX} && a.regs[insn.Dst()].kind == StackPtr ==>
                  (InStack(s.regs[insn.Dst()], insn, fp) <==> -BPF_STACK_SIZE <= insn.off && insn.off + insn.Width() <= 0))
  {
    hide Accepted, Insn.Width, Safe, StateAt;
    AcceptedState(prog, i + 1);
    StackLoadStart(prog, i);
    var insn, a := prog.insns[i], StateAt(prog, i).value;
    assert RegOk(a.regs[insn.Src()], s.regs[insn.Src()], ctx, fp) && RegOk(a.regs[insn.Dst()], s.regs[insn.Dst()], ctx, fp);
  }

  lemma StackLoadStart(prog: Prog, i: nat)
    requires i < |prog.insns| && StateAt(prog, i).Some? && StateAt(prog, i + 1).Some?
    ensures var insn, a := prog.insns[i], StateAt(prog, i).value;
            && Encodable(insn)
            && (insn.Class() == LDX && a.regs[insn.Src()].kind == StackPtr ==> -BPF_STACK_SIZE <= insn.off <= 0)
  {
    hide CheckAlu, CheckJump, CheckStore;
  }

  /** R0 := 8 bytes at R10; EXIT. */
  const PAST_STACK := Prog(2, [Insn(0x79, 0xa0, 0, 0), EXIT_INSN])

  /** Offset zero passes the rule and reads the eight bytes above the stack. */
  lemma LoadPastStack(ctx: U64, fp: U64)
    ensures Accepted(PAST_STACK) && IsRun(PAST_STACK, ctx, fp, [Start(ctx, fp)])
    ensures !InStack(Start(ctx, fp).regs[PAST_STACK.insns[0].Src()], PAST_STACK.insns[0], fp)
  {
    assert StateAt(PAST_STACK, 1) == Some(Abs(ENTRY.regs[R0 := UNKNOWN], 0));
    assert StateAt(PAST_STACK, 2) == StateAt(PAST_STACK, 1);
  }

  /** R2 := R10; 8 bytes at R2 + off := 0; EXIT. */
  function StoreAnywhere(off: I16): Prog {
    Prog(3, [Insn(0xbf, 0xa2, 0, 0), Insn(0x7a, 2, off, 0), EXIT_INSN])
  }

  /** A store through a copy of R10 is accepted at every offset. */
  lemma StoreAnywhereAccepted(off: I16)
    ensures Accepted(StoreAnywhere(off))
    ensures StateAt(StoreAnywhere(off), 1).Some? && StateAt(StoreAnywhere(off), 1).value.regs[2].kind == StackPtr
  {
    var prog := StoreAnywhere(off);
    assert StateAt(prog, 1) == Some(Abs(ENTRY.regs[2 := RegState(StackPtr, None)], 0));
    assert StateAt(prog, 2) == StateAt(prog, 1);
    assert StateAt(prog, 3) == StateAt(prog, 1);
  }

  // ---- accepted programs that break a claim --------------------------------------------------

  /** 32-bit MOV of -1 into R0. */
  const NARROW_MOVE := Prog(2, [Insn(0xb4, 0, 0, -1), EXIT_INSN])

  /** A negative 32-bit MOV is tracked as its 64-bit sign extension, which is not what the interpreter leaves in R0. */
  lemma NarrowMoveMistracked(ctx: U64, fp: U64)
    ensures Accepted(NARROW_MOVE)
    ensures var t := State(1, StartRegs(ctx, fp)[R0 := TWO32 - 1], {R0, R1, R10});
            && IsRun(NARROW_MOVE, ctx, fp, [Start(ctx, fp), t])
            && StateAt(NARROW_MOVE, 1).value.regs[R0].range == Some((U64_MAX, U64_MAX))
            && t.regs[R0] != U64_MAX
  {
    var insn := NARROW_MOVE.insns[0];
    assert StateAt(NARROW_MOVE, 1) == Some(Abs(ENTRY.regs[R0 := ConstValue(U64_MAX)], 0));
    assert StateAt(NARROW_MOVE, 2) == StateAt(NARROW_MOVE, 1);
    assert AluValue(insn, 0, 0) == TWO32 - 1;
    assert {R1, R10} + {R0} == {R0, R1, R10};
  }

  /** 32-bit R2 := R1; R0 := 8 bytes at R2; EXIT. */
  const NARROW_POINTER := Prog(3, [Insn(0xbc, 0x12, 0, 0), Insn(0x79, 0x20, 0, 0), EXIT_INSN])

  /** A 32-bit move keeps the pointer type and half the pointer: the accepted load goes through neither entry pointer. */
  lemma NarrowPointerLoads(ctx: U64, fp: U64)
    requires ctx >= TWO32 && fp != ctx % TWO32
    ensures Accepted(NARROW_POINTER)
    ensures var t := State(1, StartRegs(ctx, fp)[2 := ctx % TWO32], {2, R1, R10});
            && IsRun(NARROW_POINTER, ctx, fp, [Start(ctx, fp), t])
            && t.regs[NARROW_POINTER.insns[1].Src()] !in {ctx, fp}
            && StateAt(NARROW_POINTER, 1).Some? && !Safe(NARROW_POINTER.insns[1], StateAt(NARROW_POINTER, 1).value, t, ctx, fp)
  {
    var t := State(1, StartRegs(ctx, fp)[2 := ctx % TWO32], {2, R1, R10});
    var copied := ENTRY.regs[2 := RegState(CtxPtr, None)];
    assert StateAt(NARROW_POINTER, 1) == Some(Abs(copied, 0));
    assert StateAt(NARROW_POINTER, 2) == Some(Abs(copied[R0 := UNKNOWN], 0));
    assert StateAt(NARROW_POINTER, 3) == StateAt(NARROW_POINTER, 2);
    assert AluValue(NARROW_POINTER.insns[0], 0, ctx) == ctx % TWO32;
    assert {R1, R10} + {2} == {2, R1, R10};
    assert Step(NARROW_POINTER, Start(ctx, fp), t);
  }

  /** R0 := 1; 32-bit R0 += R2; EXIT. */
  const NARROW_ADD := Prog(3, [Insn(0xb7, 0, 0, 1), Insn(0x0c, 0x20, 0, 0), EXIT_INSN])

  /** A 32-bit operation on a register is accepted although that register was never written. */
  lemma NarrowAddReadsUnwritten(ctx: U64, fp: U64)
    ensures Accepted(NARROW_ADD)
    ensures var t := State(1, StartRegs(ctx, fp)[R0 := 1], {R0, R1, R10});
            && IsRun(NARROW_ADD, ctx, fp, [Start(ctx, fp), t])
            && !(Reads(NARROW_ADD.insns[t.pc]) <= t.written)
  {
    assert StateAt(NARROW_ADD, 1) == Some(Abs(ENTRY.regs[R0 := ConstValue(1)], 0));
    assert ENTRY.regs[R0 := ConstValue(1)][R0 := UNKNOWN] == ENTRY.regs[R0 := UNKNOWN];
    assert StateAt(NARROW_ADD, 2) == Some(Abs(ENTRY.regs[R0 := UNKNOWN], 0));
    assert StateAt(NARROW_ADD, 3) == StateAt(NARROW_ADD, 2);
    assert AluValue(NARROW_ADD.insns[0], 0, 0) == 1;
    assert {R1, R10} + {R0} == {R0, R1, R10};
    assert 2 in Reads(NARROW_ADD.insns[1]);
  }

  /** A load opcode the interpreter does not know, into R2; R0 := R2; EXIT. */
  const EMPTY_LOAD := Prog(3, [Insn(0x00, 2, 0, 0), Insn(0xbf, 0x20, 0, 0), EXIT_INSN])

  /** Every opcode of the load classes is accepted as a write, also those that do nothing. */
  lemma EmptyLoadReadsUnwritten(ctx: U64, fp: U64)
    ensures Accepted(EMPTY_LOAD)
    ensures var t := Start(ctx, fp).(pc := 1);
            && IsRun(EMPTY_LOAD, ctx, fp, [Start(ctx, fp), t])
            && !(Reads(EMPTY_LOAD.insns[t.pc]) <= t.written)
  {
    var loaded := ENTRY.regs[2 := UNKNOWN];
    assert StateAt(EMPTY_LOAD, 1) == Some(Abs(loaded, 0));
    assert StateAt(EMPTY_LOAD, 2) == Some(Abs(loaded[R0 := UNKNOWN], 0));
    assert StateAt(EMPTY_LOAD, 3) == StateAt(EMPTY_LOAD, 2);
    assert 2 in Reads(EMPTY_LOAD.insns[1]);
  }

  /** 8 bytes at R1 + off into R2; R0 := R2; EXIT. */
  function LoadThenUse(off: I16): Prog {
    Prog(3, [Insn(0x79, 0x12, off, 0), Insn(0xbf, 0x20, 0, 0), EXIT_INSN])
  }

  /** At the one context address whose load is from null, the load writes nothing and is accepted as a write. */
  lemma NullLoadReadsUnwritten(fp: U64, off: I16)
    ensures Accepted(LoadThenUse(off))
    ensures var ctx := Wrap64(0 - off as int);
            var t := Start(ctx, fp).(pc := 1);
            && IsRun(LoadThenUse(off), ctx, fp, [Start(ctx, fp), t])
            && !(Reads(LoadThenUse(off).insns[t.pc]) <= t.written)
  {
    var prog := LoadThenUse(off);
    var loaded := ENTRY.regs[2 := UNKNOWN];
    assert StateAt(prog, 1) == Some(Abs(loaded, 0));
    assert StateAt(prog, 2) == Some(Abs(loaded[R0 := UNKNOWN], 0));
    assert StateAt(prog, 3) == StateAt(prog, 2);
    assert Address(prog.insns[0], Wrap64(0 - off as int)) == 0;
    assert 2 in Reads(prog.insns[1]);
  }

  /** Call helper 6 (the trace log); EXIT. */
  const TRACE_CALL := Prog(2, [Insn(0x85, 0, 0, 6), EXIT_INSN])

  /** The trace helper looks at R2 and R3, and the verifier asks for R1 only. */
  lemma TraceCallReadsUnwritten(ctx: U64, fp: U64)
    ensures Accepted(TRACE_CALL)
    ensures IsRun(TRACE_CALL, ctx, fp, [Start(ctx, fp)])
    ensures !(Reads(TRACE_CALL.insns[0]) <= Start(ctx, fp).written)
  {
    assert StateAt(TRACE_CALL, 1) == Some(Abs(ENTRY.regs[R1 := UNKNOWN], 0));
    assert StateAt(TRACE_CALL, 2) == StateAt(TRACE_CALL, 1);
    assert 2 in Reads(TRACE_CALL.insns[0]);
  }

  /** For every valid helper but that one, the registers the verifier asks for cover those the helper looks at. */
  lemma HelperArgsIff(id: nat)
    requires IsValidHelper(id)
    ensures (forall r :: r in HelperReads(id) ==> 1 <= r <= HelperMinArgs(id)) <==> id != 6
  {
    if id == 6 {
      assert 2 in HelperReads(id);
    }
  }

  /** JA over the only write of R2, then R3 := R2; EXIT. */
  const SKIPPED_WRITE := Prog(4, [Insn(0x05, 0, 1, 0), Insn(0xb7, 2, 0, 1), Insn(0xbf, 0x23, 0, 0), EXIT_INSN])

  /** The pass walks the text, not the paths: a write that is jumped over still counts as done. */
  lemma SkippedWriteReadsUnwritten(ctx: U64, fp: U64)
    ensures Accepted(SKIPPED_WRITE)
    ensures var t := Start(ctx, fp).(pc := 2);
            && IsRun(SKIPPED_WRITE, ctx, fp, [Start(ctx, fp), t])
            && !(Reads(SKIPPED_WRITE.insns[t.pc]) <= t.written)
  {
    var one := ConstValue(1);
    assert StateAt(SKIPPED_WRITE, 1) == Some(ENTRY);
    assert StateAt(SKIPPED_WRITE, 2) == Some(Abs(ENTRY.regs[2 := one], 0));
    assert StateAt(SKIPPED_WRITE, 3) == Some(Abs(ENTRY.regs[2 := one][3 := one], 0));
    assert StateAt(SKIPPED_WRITE, 4) == StateAt(SKIPPED_WRITE, 3);
    assert 2 in Reads(SKIPPED_WRITE.insns[2]);
  }

  /** R0 := 5; call helper 5 (the clock); EXIT. */
  const CALL_RESULT := Prog(3, [Insn(0xb7, 0, 0, 5), Insn(0x85, 0, 0, 5), EXIT_INSN])

  /** A call rewrites R0, but the verifier still believes the constant it held before. */
  lemma CallResultMistracked(ctx: U64, fp: U64, v: U64)
    ensures Accepted(CALL_RESULT)
    ensures var s := State(1, StartRegs(ctx, fp)[R0 := 5], {R0, R1, R10});
            var t := State(2, StartRegs(ctx, fp)[R0 := v], {R0, R1, R10});
            && IsRun(CALL_RESULT, ctx, fp, [Start(ctx, fp), s, t])
            && StateAt(CALL_RESULT, 2).value.regs[R0].range == Some((5, 5))
  {
    var s := State(1, StartRegs(ctx, fp)[R0 := 5], {R0, R1, R10});
    var t := State(2, StartRegs(ctx, fp)[R0 := v], {R0, R1, R10});
    var five := ConstValue(5);
    assert StateAt(CALL_RESULT, 1) == Some(Abs(ENTRY.regs[R0 := five], 0));
    assert StateAt(CALL_RESULT, 2) == Some(Abs(ENTRY.regs[R0 := five][R1 := UNKNOWN], 0));
    assert StateAt(CALL_RESULT, 3) == StateAt(CALL_RESULT, 2);
    assert AluValue(CALL_RESULT.insns[0], 0, 0) == 5;
    assert {R1, R10} + {R0} == {R0, R1, R10} && {R0, R1, R10} + {R0} == {R0, R1, R10};
    assert Step(CALL_RESULT, Start(ctx, fp), s);
    assert s.regs[R0 := v] == t.regs;
    assert Assigns(s, t, R0, v);
    assert Step(CALL_RESULT, s, t);
  }

  /** EXIT alone. */
  const BARE_EXIT := Prog(1, [EXIT_INSN])

  /** The result register R0 is not required to have been written when EXIT returns it. */
  lemma BareExitReturnsUnwritten(ctx: U64, fp: U64)
    ensures Accepted(BARE_EXIT)
    ensures IsRun(BARE_EXIT, ctx, fp, [Start(ctx, fp)]) && R0 !in Start(ctx, fp).written
  {
    assert StateAt(BARE_EXIT, 1) == Some(ENTRY);
  }

  /** Where soundness holds, R0 has been written on reaching EXIT exactly when the verifier's state says so or a helper returned. */
  lemma ExitResultWritten(prog: Prog, ctx: U64, fp: U64, s: State, i: nat)
    requires i < |prog.insns| && SoundAt(prog, ctx, fp, s, i)
    ensures R0 in s.written <==> Init(StateAt(prog, i).value, R0) || Called(prog, i)
  {
    hide StateAt, Safe, Called;
  }
}
