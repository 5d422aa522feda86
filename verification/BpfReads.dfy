/** Which accepted programs use a register before it is written, and which write the frame pointer. */
module BpfReads {
  import opened Machine
  import opened BpfIsa
  import opened BpfVerifier
  import opened BpfSoundness
  import opened BpfFlow

  /** What an instruction needs a value of: its operands, and for EXIT the result. */
  function Uses(insn: Insn): set<nat> {
    Reads(insn) + if insn.IsExit() then {R0} else {}
  }

  ghost predicate UsesUnwritten(prog: Prog, s: State) {
    0 <= s.pc < |prog.insns| && !(Uses(prog.insns[s.pc]) <= s.written)
  }

  /** Some run gets to an instruction that uses a register nothing wrote. */
  ghost predicate UnwrittenRun(prog: Prog, ctx: U64, fp: U64) {
    exists run :: IsRun(prog, ctx, fp, run) && UsesUnwritten(prog, run[|run| - 1])
  }

  ghost predicate AtNullLoad(prog: Prog, s: State) {
    && 0 <= s.pc < |prog.insns| && |s.regs| == BPF_REG_NUM && Encodable(prog.insns[s.pc])
    && LoadsNull(prog.insns[s.pc], s)
  }

  /** Some run gets to a load from address zero, which delivers nothing. */
  ghost predicate NullLoadRun(prog: Prog, ctx: U64, fp: U64) {
    exists run :: IsRun(prog, ctx, fp, run) && AtNullLoad(prog, run[|run| - 1])
  }

  /** The registers the first `n` instructions along a path write, and the two that hold a value at entry. */
  function PathWrites(prog: Prog, ps: seq<int>, n: nat): set<nat>
    requires n <= |ps|
  {
    if n == 0 then {R1, R10}
    else
      var p := ps[n - 1];
      PathWrites(prog, ps, n - 1) + if 0 <= p < |prog.insns| then Writes(prog.insns[p]) else {}
  }

  /** A path through the text to an instruction that uses a register no earlier instruction of the path writes. */
  ghost predicate ReadsAhead(prog: Prog, ps: seq<int>) {
    && IsPath(prog, ps) && ps[0] == 0
    && var p := ps[|ps| - 1];
       0 <= p < |prog.insns| && !(Uses(prog.insns[p]) <= PathWrites(prog, ps, |ps| - 1))
  }

  lemma StepWrites(prog: Prog, s: State, t: State)
    requires Step(prog, s, t)
    ensures t.written <= s.written + Writes(prog.insns[s.pc])
    ensures !AtNullLoad(prog, s) ==> t.written == s.written + Writes(prog.insns[s.pc])
  {
    hide AluValue, LdValue, Address;
  }

  /** The registers written along a run are among those of its path, and all of them if no load was from null. */
  lemma {:induction false} RunWrites(prog: Prog, ctx: U64, fp: U64, run: seq<State>, i: nat)
    requires IsRun(prog, ctx, fp, run) && i < |run|
    ensures run[i].written <= PathWrites(prog, Pcs(run), i)
    ensures (forall k :: 0 <= k < i ==> !AtNullLoad(prog, run[k])) ==> run[i].written == PathWrites(prog, Pcs(run), i)
  {
    hide Step, Writes, AtNullLoad;
    if i > 0 {
      RunWrites(prog, ctx, fp, run, i - 1);
      assert Step(prog, run[i - 1], run[i]);
      StepInside(prog, run[i - 1], run[i]);
      StepWrites(prog, run[i - 1], run[i]);
    }
  }

  lemma StepInside(prog: Prog, s: State, t: State)
    requires Step(prog, s, t)
    ensures 0 <= s.pc < |prog.insns|
  {
  }

  lemma RunPrefix(prog: Prog, ctx: U64, fp: U64, run: seq<State>, n: nat)
    requires IsRun(prog, ctx, fp, run) && 1 <= n <= |run|
    ensures IsRun(prog, ctx, fp, run[..n])
  {
    hide Step;
  }

  lemma PathGivesRun(prog: Prog, ctx: U64, fp: U64, ps: seq<int>)
    requires Accepted(prog) && prog.insnCnt == |prog.insns| && ReadsAhead(prog, ps)
    ensures UnwrittenRun(prog, ctx, fp)
  {
    hide Accepted, Step, IsPath, Uses;
    var run := PathIsRun(prog, ctx, fp, ps);
    var last := |run| - 1;
    RunWrites(prog, ctx, fp, run, last);
    assert run[last].pc == ps[last];
    assert UsesUnwritten(prog, run[last]);
  }

  lemma RunGivesPath(prog: Prog, ctx: U64, fp: U64, run: seq<State>)
    requires IsRun(prog, ctx, fp, run) && UsesUnwritten(prog, run[|run| - 1])
    ensures NullLoadRun(prog, ctx, fp) || ReadsAhead(prog, Pcs(run))
  {
    hide IsPath, Uses, AtNullLoad, Step, PathWrites;
    RunIsPath(prog, ctx, fp, run);
    var last := |run| - 1;
    if k :| 0 <= k < last && AtNullLoad(prog, run[k]) {
      RunPrefix(prog, ctx, fp, run, k + 1);
      assert run[..k + 1][k] == run[k];
    } else {
      RunWrites(prog, ctx, fp, run, last);
    }
  }

  /**
   * For every accepted program and any entry pointers: a path that reads ahead
   * of its writes is followed by a run that does, and, unless some run loads
   * from address zero, there is no other way to use an unwritten register.
   */
  lemma UnwrittenUseIff(prog: Prog, ctx: U64, fp: U64)
    requires Accepted(prog) && prog.insnCnt == |prog.insns|
    ensures (exists ps :: ReadsAhead(prog, ps)) ==> UnwrittenRun(prog, ctx, fp)
    ensures UnwrittenRun(prog, ctx, fp) || NullLoadRun(prog, ctx, fp) <==>
            (exists ps :: ReadsAhead(prog, ps)) || NullLoadRun(prog, ctx, fp)
  {
    hide Accepted, Step, ReadsAhead, UsesUnwritten, NullLoadRun;
    if ps :| ReadsAhead(prog, ps) {
      PathGivesRun(prog, ctx, fp, ps);
    } else if UnwrittenRun(prog, ctx, fp) {
      var run :| IsRun(prog, ctx, fp, run) && UsesUnwritten(prog, run[|run| - 1]);
      RunGivesPath(prog, ctx, fp, run);
    }
  }

  /** Programs that read no memory load nothing from null, so for them the text decides. */
  lemma UnwrittenUseExact(prog: Prog, ctx: U64, fp: U64)
    requires Accepted(prog) && prog.insnCnt == |prog.insns|
    requires forall p :: 0 <= p < |prog.insns| ==> !prog.insns[p].ReadsMemory()
    ensures UnwrittenRun(prog, ctx, fp) <==> exists ps :: ReadsAhead(prog, ps)
  {
    hide Accepted, IsRun, ReadsAhead, UnwrittenRun, Insn.ReadsMemory;
    UnwrittenUseIff(prog, ctx, fp);
  }

  // ---- the frame pointer ---------------------------------------------------------------------

  ghost predicate FromStart(prog: Prog, p: int) {
    p == 0 || Reaches(prog, 0, p)
  }

  ghost predicate RunsTo(prog: Prog, ctx: U64, fp: U64, p: int) {
    exists run: seq<State> :: IsRun(prog, ctx, fp, run) && run[|run| - 1].pc == p
  }

  /** Runs get exactly to the instructions that paths get to. */
  lemma RunsToIff(prog: Prog, ctx: U64, fp: U64, p: int)
    requires Accepted(prog) && prog.insnCnt == |prog.insns|
    ensures RunsTo(prog, ctx, fp, p) <==> FromStart(prog, p)
  {
    hide Accepted, Step, Flows;
    if FromStart(prog, p) {
      var ps := [0];
      if p != 0 {
        ps :| Connects(prog, ps, 0, p);
      }
      var run := PathIsRun(prog, ctx, fp, ps);
      assert Pcs(run)[|run| - 1] == p;
    }
    if run: seq<State> :| IsRun(prog, ctx, fp, run) && run[|run| - 1].pc == p {
      RunIsPath(prog, ctx, fp, run);
      if |run| > 1 {
        assert Connects(prog, Pcs(run), 0, p);
      } else {
        assert Pcs(run)[0] == 0;
      }
    }
  }

  predicate WritesFrame(prog: Prog, p: int) {
    0 <= p < |prog.insns| && R10 in Writes(prog.insns[p])
  }

  lemma StepFrame(prog: Prog, s: State, t: State)
    requires Step(prog, s, t) && !WritesFrame(prog, s.pc)
    ensures |t.regs| == BPF_REG_NUM && t.regs[R10] == s.regs[R10]
  {
    hide AluValue, LdValue, Address;
  }

  /**
   * R10 is read-only exactly in the accepted programs whose reachable part does
   * not name it as a destination: then it holds the frame pointer throughout,
   * and otherwise some run gets to an instruction that assigns it.
   */
  lemma FrameRuleIff(prog: Prog, ctx: U64, fp: U64)
    requires Accepted(prog) && prog.insnCnt == |prog.insns|
    ensures (exists p :: WritesFrame(prog, p) && RunsTo(prog, ctx, fp, p)) <==>
            (exists p :: WritesFrame(prog, p) && FromStart(prog, p))
    ensures (forall p :: WritesFrame(prog, p) ==> !FromStart(prog, p)) ==>
            forall run, i :: IsRun(prog, ctx, fp, run) && 0 <= i < |run| ==> FrameKept(run[i], fp)
  {
    hide Accepted, IsRun, FromStart, RunsTo, WritesFrame, FrameKept;
    forall p
      ensures RunsTo(prog, ctx, fp, p) <==> FromStart(prog, p)
    {
      RunsToIff(prog, ctx, fp, p);
    }
    if forall p :: WritesFrame(prog, p) ==> !FromStart(prog, p) {
      forall run, i | IsRun(prog, ctx, fp, run) && 0 <= i < |run|
        ensures FrameKept(run[i], fp)
      {
        FrameKeptAlong(prog, ctx, fp, run, i);
      }
    }
  }

  ghost predicate FrameKept(s: State, fp: U64) {
    |s.regs| == BPF_REG_NUM && s.regs[R10] == fp
  }

  lemma {:induction false} FrameKeptAlong(prog: Prog, ctx: U64, fp: U64, run: seq<State>, i: nat)
    requires forall p :: WritesFrame(prog, p) ==> !RunsTo(prog, ctx, fp, p)
    requires IsRun(prog, ctx, fp, run) && i < |run|
    ensures FrameKept(run[i], fp)
  {
    hide Step, WritesFrame;
    if i > 0 {
      FrameKeptAlong(prog, ctx, fp, run, i - 1);
      RunPrefix(prog, ctx, fp, run, i);
      assert run[..i][i - 1] == run[i - 1];
      assert RunsTo(prog, ctx, fp, run[i - 1].pc);
      assert Step(prog, run[i - 1], run[i]);
      StepFrame(prog, run[i - 1], run[i]);
    }
  }

  /** R10 := 0; EXIT. */
  const FRAME_MOVE := Prog(2, [Insn(0xb7, 10, 0, 0), EXIT_INSN])

  /** The rule that R10 is read-only looks at stores only. */
  lemma FrameMoveAccepted(ctx: U64, fp: U64)
    ensures Accepted(FRAME_MOVE)
    ensures var t := State(1, StartRegs(ctx, fp)[R10 := 0], {R1, R10}); IsRun(FRAME_MOVE, ctx, fp, [Start(ctx, fp), t])
  {
    assert StateAt(FRAME_MOVE, 1) == Some(Abs(ENTRY.regs[R10 := ConstValue(0)], 0));
    assert StateAt(FRAME_MOVE, 2) == StateAt(FRAME_MOVE, 1);
    assert AluValue(FRAME_MOVE.insns[0], fp, 0) == 0;
    assert {R1, R10} + {R10} == {R1, R10};
  }

  /** R0 := 8 bytes at R1 + off; 8 bytes at R1 + off := 0; EXIT. */
  function ContextAccess(off: I16): Prog {
    Prog(3, [Insn(0x79, 0x10, off, 0), Insn(0x7a, 1, off, 0), EXIT_INSN])
  }

  /** Loads and stores through the context pointer are accepted at every offset. */
  lemma ContextAccessAccepted(off: I16)
    ensures Accepted(ContextAccess(off))
  {
    var prog := ContextAccess(off);
    assert StateAt(prog, 1) == Some(Abs(ENTRY.regs[R0 := UNKNOWN], 0));
    assert StateAt(prog, 2) == StateAt(prog, 1);
    assert StateAt(prog, 3) == StateAt(prog, 1);
  }
}
