/** Soundness with jumps, for programs whose jumps agree with the verifier's reading of the text. */
module BpfJumps {
  import opened Machine
  import opened BpfIsa
  import opened BpfVerifier
  import opened BpfSoundness

  /** The abstract state describes the concrete one; more registers may hold a value than it knows of. */
  ghost predicate Described(a: Abs, s: State, ctx: U64, fp: U64) {
    && |a.regs| == BPF_REG_NUM && |s.regs| == BPF_REG_NUM
    && InitRegs(a) <= s.written
    && forall r :: 0 <= r < BPF_REG_NUM ==> RegOk(a.regs[r], s.regs[r], ctx, fp)
  }

  /** `to` claims nothing that `from` does not. */
  predicate Covers(to: Abs, from: Abs)
    requires |to.regs| == BPF_REG_NUM == |from.regs|
  {
    forall r :: 0 <= r < BPF_REG_NUM ==>
      to.regs[r] == from.regs[r] || to.regs[r] == UNINIT || (to.regs[r] == UNKNOWN && Init(from, r))
  }

  lemma CoversKeeps(to: Abs, from: Abs, s: State, ctx: U64, fp: U64)
    requires Described(from, s, ctx, fp) && |to.regs| == BPF_REG_NUM && Covers(to, from)
    ensures Described(to, s, ctx, fp)
  {
    forall r | r in InitRegs(to)
      ensures r in s.written
    {
      assert to.regs[r] == from.regs[r] || Init(from, r);
      assert r in InitRegs(from);
    }
    forall r | 0 <= r < BPF_REG_NUM
      ensures RegOk(to.regs[r], s.regs[r], ctx, fp)
    {
      assert RegOk(from.regs[r], s.regs[r], ctx, fp);
    }
  }

  /** Every jump lands where the verifier, reading on, assumes no more than it knew at the jump. */
  ghost predicate JumpsAgree(prog: Prog) {
    forall p :: 0 <= p < |prog.insns| && prog.insns[p].HasTarget() ==> JumpAgrees(prog, p)
  }

  ghost predicate JumpAgrees(prog: Prog, p: nat)
    requires p < |prog.insns|
  {
    var q := Target(p, prog.insns[p]);
    && 0 <= q < |prog.insns| && StateAt(prog, p).Some? && StateAt(prog, q).Some?
    && Covers(StateAt(prog, q).value, StateAt(prog, p).value)
  }

  ghost predicate AllTracked(prog: Prog, ctx: U64, fp: U64) {
    forall k :: 0 <= k < |prog.insns| ==>
      StateAt(prog, k).Some? && Encodable(prog.insns[k]) && Tracked(prog.insns[k], StateAt(prog, k).value, false, ctx, fp)
  }

  /** The same state, as if only the registers the verifier knows of had been written. */
  function Known(a: Abs, s: State): State
    requires |a.regs| == BPF_REG_NUM
  {
    s.(written := InitRegs(a))
  }

  lemma KnownRelated(a: Abs, s: State, ctx: U64, fp: U64)
    requires Described(a, s, ctx, fp)
    ensures Related(a, false, Known(a, s), ctx, fp)
  {
    hide InitRegs, RegOk;
  }

  lemma RelatedDescribes(a: Abs, called: bool, s: State, t: State, ctx: U64, fp: U64)
    requires Related(a, called, s, ctx, fp) && t.regs == s.regs && s.written <= t.written
    ensures Described(a, t, ctx, fp)
  {
    hide InitRegs, RegOk;
  }

  /** What a step does to the registers does not depend on which of them were written. */
  lemma StepIgnoresWritten(prog: Prog, s: State, t: State, written: set<nat>) returns (t': State)
    requires Step(prog, s, t) && written <= s.written
    ensures Step(prog, s.(written := written), t')
    ensures t'.pc == t.pc && t'.regs == t.regs && t'.written <= t.written
  {
    hide AluValue, LdValue, Address;
    var insn, s' := prog.insns[s.pc], s.(written := written);
    assert LoadWrites(insn, s') == LoadWrites(insn, s);
    if insn.Class() in {ALU, ALU64} || (insn.Class() in {LD, LDX} && LoadWrites(insn, s)) {
      t' := t.(written := written + {insn.Dst()});
      if insn.ReadsMemory() {
        var v: U64 :| Assigns(s, t, insn.Dst(), v);
        assert Assigns(s', t', insn.Dst(), v);
      }
    } else if insn.IsCall() {
      t' := t.(written := written + {R0});
      var v: U64 :| Assigns(s, t, R0, v);
      assert Assigns(s', t', R0, v);
    } else {
      t' := t.(written := written);
    }
  }

  /** Stepping through an instruction that is not a jump. */
  lemma PlainStep(prog: Prog, a: Abs, s: State, t: State, ctx: U64, fp: U64)
    requires Described(a, s, ctx, fp) && Step(prog, s, t) && !prog.insns[s.pc].HasTarget()
    requires CheckInsn(prog.insnCnt, s.pc, prog.insns[s.pc], a).Some? && Tracked(prog.insns[s.pc], a, false, ctx, fp)
    ensures t.pc == s.pc + 1 && Described(CheckInsn(prog.insnCnt, s.pc, prog.insns[s.pc], a).value, t, ctx, fp)
  {
    var insn := prog.insns[s.pc];
    hide CheckInsn, Tracked, Step, RegOk, Insn.HasTarget, Insn.IsCall, InitRegs;
    KnownRelated(a, s, ctx, fp);
    var t' := StepIgnoresWritten(prog, s, t, InitRegs(a));
    StepKeeps(prog, a, false, Known(a, s), t', ctx, fp);
    RelatedDescribes(CheckInsn(prog.insnCnt, s.pc, insn, a).value, insn.IsCall(), t', t, ctx, fp);
  }

  /** A jump changes no register, and neither does its check. */
  lemma JumpStep(prog: Prog, a: Abs, s: State, t: State)
    requires |a.regs| == BPF_REG_NUM && Step(prog, s, t) && prog.insns[s.pc].HasTarget()
    requires CheckInsn(prog.insnCnt, s.pc, prog.insns[s.pc], a).Some?
    ensures t.regs == s.regs && t.written == s.written
    ensures t.pc == s.pc + 1 || t.pc == Target(s.pc, prog.insns[s.pc])
    ensures CheckInsn(prog.insnCnt, s.pc, prog.insns[s.pc], a).value.regs == a.regs
  {
    hide AluValue, CheckAlu, CheckLoad, CheckStore;
  }

  lemma PlainSafe(cnt: nat, pc: nat, insn: Insn, a: Abs, s: State, ctx: U64, fp: U64)
    requires Described(a, s, ctx, fp) && CheckInsn(cnt, pc, insn, a).Some? && Tracked(insn, a, false, ctx, fp)
    ensures Safe(insn, a, s, ctx, fp)
  {
    if insn.HasTarget() {
      JumpReads(cnt, pc, insn, a, s, ctx, fp);
    } else {
      hide CheckInsn, Tracked, Insn.HasTarget, RegOk;
      KnownRelated(a, s, ctx, fp);
      SafeInsn(cnt, pc, insn, a, false, Known(a, s), ctx, fp);
      hide Reads, Exact, HelperMinArgs, HelperId, Insn.OpLow, Insn.UsesSrc, Related;
    }
  }

  lemma JumpReads(cnt: nat, pc: nat, insn: Insn, a: Abs, s: State, ctx: U64, fp: U64)
    requires Described(a, s, ctx, fp) && CheckInsn(cnt, pc, insn, a).Some? && insn.HasTarget()
    ensures Safe(insn, a, s, ctx, fp)
  {
    hide CheckAlu, CheckLoad, CheckStore, RegOk, Exact;
  }

  /**
   * Soundness with jumps: if every jump agrees with the verifier's reading of
   * the text and every instruction is tracked, then in any run of an accepted
   * program, whichever way conditional jumps go, each state is described by the
   * verifier's state for its instruction, and that instruction is safe.
   */
  lemma {:induction false} JumpsSound(prog: Prog, ctx: U64, fp: U64, run: seq<State>, i: nat)
    requires Accepted(prog) && prog.insnCnt == |prog.insns| && JumpsAgree(prog) && AllTracked(prog, ctx, fp)
    requires IsRun(prog, ctx, fp, run) && i < |run|
    ensures 0 <= run[i].pc < |prog.insns| && StateAt(prog, run[i].pc).Some?
    ensures Described(StateAt(prog, run[i].pc).value, run[i], ctx, fp)
    ensures Safe(prog.insns[run[i].pc], StateAt(prog, run[i].pc).value, run[i], ctx, fp)
  {
    hide Accepted, Step, CheckInsn, Described, Safe, Tracked, Covers, Insn.HasTarget, Encodable, StateAt;
    PcStaysInside(prog, ctx, fp, run, i);
    AcceptedState(prog, run[i].pc);
    AcceptedState(prog, run[i].pc + 1);
    if i == 0 {
      EntryDescribed(prog, run[0], ctx, fp);
    } else {
      JumpsSound(prog, ctx, fp, run, i - 1);
      assert Step(prog, run[i - 1], run[i]);
      AcceptedState(prog, run[i - 1].pc + 1);
      StepDescribed(prog, run[i - 1], run[i], ctx, fp);
    }
    NextState(prog, run[i].pc);
    PlainSafe(prog.insnCnt, run[i].pc, prog.insns[run[i].pc], StateAt(prog, run[i].pc).value, run[i], ctx, fp);
  }

  lemma EntryDescribed(prog: Prog, s: State, ctx: U64, fp: U64)
    requires Initial(s, ctx, fp)
    ensures Described(StateAt(prog, 0).value, s, ctx, fp)
  {
    hide InitRegs, RegOk;
    EntryRelated(s, ctx, fp);
    RelatedDescribes(ENTRY, false, s, s, ctx, fp);
  }

  lemma NextState(prog: Prog, n: nat)
    requires n < |prog.insns| && StateAt(prog, n).Some? && StateAt(prog, n + 1).Some?
    ensures CheckInsn(prog.insnCnt, n, prog.insns[n], StateAt(prog, n).value) == StateAt(prog, n + 1)
  {
    hide CheckInsn;
  }

  lemma StepDescribed(prog: Prog, s: State, t: State, ctx: U64, fp: U64)
    requires JumpsAgree(prog) && AllTracked(prog, ctx, fp) && Step(prog, s, t)
    requires 0 <= s.pc < |prog.insns| && 0 <= t.pc < |prog.insns|
    requires StateAt(prog, s.pc).Some? && StateAt(prog, s.pc + 1).Some? && StateAt(prog, t.pc).Some?
    requires Described(StateAt(prog, s.pc).value, s, ctx, fp)
    ensures Described(StateAt(prog, t.pc).value, t, ctx, fp)
  {
    hide Step, CheckInsn, Tracked, Covers, Insn.HasTarget, Encodable, StateAt, InitRegs, RegOk;
    var a := StateAt(prog, s.pc).value;
    NextState(prog, s.pc);
    if prog.insns[s.pc].HasTarget() {
      JumpStep(prog, a, s, t);
      assert JumpAgrees(prog, s.pc);
      if t.pc == s.pc + 1 {
        SameRegs(a, StateAt(prog, t.pc).value, s, t, ctx, fp);
      } else {
        SameRegs(a, a, s, t, ctx, fp);
        CoversKeeps(StateAt(prog, t.pc).value, a, t, ctx, fp);
      }
    } else {
      PlainStep(prog, a, s, t, ctx, fp);
    }
  }

  lemma SameRegs(a: Abs, b: Abs, s: State, t: State, ctx: U64, fp: U64)
    requires Described(a, s, ctx, fp) && a.regs == b.regs && t.regs == s.regs && t.written == s.written
    ensures Described(b, t, ctx, fp)
  {
    hide RegOk;
  }
}
