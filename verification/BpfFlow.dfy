/** When accepted programs terminate: runs as paths through the program text. */
module BpfFlow {
  import opened Machine
  import opened BpfIsa
  import opened BpfVerifier
  import opened BpfSoundness

  const EXIT_INSN := Insn(0x95, 0, 0, 0)

  function StartRegs(ctx: U64, fp: U64): (regs: seq<U64>)
    ensures |regs| == BPF_REG_NUM
  {
    [0, ctx, 0, 0, 0, 0, 0, 0, 0, 0, fp]
  }

  function Start(ctx: U64, fp: U64): State {
    State(0, StartRegs(ctx, fp), {R1, R10})
  }

  // ---- control flow as a graph -----------------------------------------------------------

  /** Control can pass from instruction `p` to instruction `q`; jumps on a known condition go either way. */
  predicate Flows(prog: Prog, p: int, q: int) {
    && 0 <= p < |prog.insns| && !prog.insns[p].IsExit()
    && ( || (q == p + 1 && !(prog.insns[p].HasTarget() && prog.insns[p].OpLow() == JA))
         || (prog.insns[p].CanJump() && q == Target(p, prog.insns[p])))
  }

  /** A jump on one of the eleven known conditions may go either way; on any other it falls through. */
  lemma BranchesOf(prog: Prog, p: int, q: int)
    requires 0 <= p < |prog.insns| && prog.insns[p].HasTarget() && prog.insns[p].OpLow() != JA
    ensures var known := prog.insns[p].OpLow() in {0x10, 0x20, 0x30, 0x40, 0x50, 0x60, 0x70, 0xa0, 0xb0, 0xc0, 0xd0};
            Flows(prog, p, q) <==> q == p + 1 || (known && q == p + 1 + prog.insns[p].off)
  {
  }

  ghost predicate IsPath(prog: Prog, ps: seq<int>) {
    && ps != []
    && forall i :: 0 <= i < |ps| - 1 ==> Flows(prog, ps[i], ps[i + 1])
  }

  /** A path of at least one step. */
  ghost predicate Connects(prog: Prog, ps: seq<int>, p: int, q: int) {
    IsPath(prog, ps) && |ps| >= 2 && ps[0] == p && ps[|ps| - 1] == q
  }

  ghost predicate Reaches(prog: Prog, p: int, q: int) {
    exists ps :: Connects(prog, ps, p, q)
  }

  /** An instruction that can be reached from the first and can reach itself. */
  ghost predicate LoopAt(prog: Prog, p: int) {
    (p == 0 || Reaches(prog, 0, p)) && Reaches(prog, p, p)
  }

  /** Some run takes `n` steps. */
  ghost predicate HasRun(prog: Prog, ctx: U64, fp: U64, n: nat) {
    exists run :: IsRun(prog, ctx, fp, run) && |run| == n + 1
  }

  // ---- paths -------------------------------------------------------------------------------

  lemma PathPrefix(prog: Prog, ps: seq<int>, n: nat)
    requires IsPath(prog, ps) && 1 <= n <= |ps|
    ensures IsPath(prog, ps[..n])
  {
    hide Flows;
  }

  /** Two paths that meet. */
  lemma PathsJoin(prog: Prog, ps: seq<int>, qs: seq<int>)
    requires IsPath(prog, ps) && IsPath(prog, qs) && ps[|ps| - 1] == qs[0]
    ensures IsPath(prog, ps[..|ps| - 1] + qs)
  {
    hide Flows;
    var all, n := ps[..|ps| - 1] + qs, |ps| - 1;
    forall i | 0 <= i < |all| - 1
      ensures Flows(prog, all[i], all[i + 1])
    {
      if i < n {
        assert all[i] == ps[i] && all[i + 1] == ps[i + 1];
      } else {
        assert all[i] == qs[i - n] && all[i + 1] == qs[i - n + 1];
      }
    }
  }

  /** Going round a loop as long as one likes. */
  lemma {:induction false} GoRound(prog: Prog, loop: seq<int>, p: int, n: nat) returns (ps: seq<int>)
    requires Connects(prog, loop, p, p)
    ensures IsPath(prog, ps) && ps[0] == p && |ps| == n + 1
    decreases n
  {
    hide Flows;
    if n < |loop| {
      ps := loop[..n + 1];
      PathPrefix(prog, loop, n + 1);
    } else {
      var rest := GoRound(prog, loop, p, n - (|loop| - 1));
      ps := loop[..|loop| - 1] + rest;
      PathsJoin(prog, loop, rest);
    }
  }

  /** A loop gives paths of every length from the first instruction. */
  lemma LoopPath(prog: Prog, p: int, n: nat) returns (ps: seq<int>)
    requires LoopAt(prog, p)
    ensures IsPath(prog, ps) && ps[0] == 0 && |ps| == n + 1
  {
    hide Flows;
    var loop :| Connects(prog, loop, p, p);
    var round := GoRound(prog, loop, p, n);
    if p == 0 {
      ps := round;
    } else {
      var way :| Connects(prog, way, 0, p);
      PathsJoin(prog, way, round);
      var all := way[..|way| - 1] + round;
      ps := all[..n + 1];
      PathPrefix(prog, all, n + 1);
    }
  }

  // ---- runs and paths --------------------------------------------------------------------------

  lemma StepFlows(prog: Prog, s: State, t: State)
    requires Step(prog, s, t)
    ensures Flows(prog, s.pc, t.pc)
  {
    hide AluValue;
  }

  function Pcs(run: seq<State>): (ps: seq<int>)
    ensures |ps| == |run| && forall i :: 0 <= i < |run| ==> ps[i] == run[i].pc
  {
    seq(|run|, i requires 0 <= i < |run| => run[i].pc)
  }

  lemma RunIsPath(prog: Prog, ctx: U64, fp: U64, run: seq<State>)
    requires IsRun(prog, ctx, fp, run)
    ensures IsPath(prog, Pcs(run)) && Pcs(run)[0] == 0
  {
    hide Step, Flows;
    forall i | 0 <= i < |run| - 1
      ensures Flows(prog, Pcs(run)[i], Pcs(run)[i + 1])
    {
      assert Step(prog, run[i], run[i + 1]);
      StepFlows(prog, run[i], run[i + 1]);
    }
  }

  /** Whatever the registers hold, control can pass along every edge. */
  lemma FlowsStep(prog: Prog, s: State, q: int) returns (t: State)
    requires |s.regs| == BPF_REG_NUM && Flows(prog, s.pc, q) && Encodable(prog.insns[s.pc])
    ensures Step(prog, s, t) && t.pc == q && |t.regs| == BPF_REG_NUM
  {
    hide AluValue, Step;
    var insn := prog.insns[s.pc];
    var taken := insn.CanJump() && q == Target(s.pc, insn);
    t := Next(insn, s, 0, taken);
    NextSteps(prog, s, 0, taken);
  }

  /** Every path from the first instruction is the program counter of some run. */
  lemma {:induction false} PathIsRun(prog: Prog, ctx: U64, fp: U64, ps: seq<int>) returns (run: seq<State>)
    requires Accepted(prog) && prog.insnCnt == |prog.insns|
    requires IsPath(prog, ps) && ps[0] == 0
    ensures IsRun(prog, ctx, fp, run) && Pcs(run) == ps
    ensures |run[|run| - 1].regs| == BPF_REG_NUM
    decreases |ps|
  {
    hide Accepted, Step, Flows, Encodable;
    if |ps| == 1 {
      run := [Start(ctx, fp)];
    } else {
      var n := |ps| - 1;
      PathPrefix(prog, ps, n);
      var before := PathIsRun(prog, ctx, fp, ps[..n]);
      var s := before[n - 1];
      assert Pcs(before)[n - 1] == ps[n - 1];
      assert Flows(prog, s.pc, ps[n]);
      FlowsInside(prog, s.pc, ps[n]);
      AcceptedState(prog, s.pc);
      var t := FlowsStep(prog, s, ps[n]);
      run := before + [t];
      forall i | 0 <= i < |run| - 1
        ensures Step(prog, run[i], run[i + 1])
      {
        if i < n - 1 {
          assert run[i] == before[i] && run[i + 1] == before[i + 1];
        }
      }
      assert Pcs(run) == Pcs(before) + [t.pc] && ps == ps[..n] + [ps[n]];
    }
  }

  lemma FlowsInside(prog: Prog, p: int, q: int)
    requires Flows(prog, p, q)
    ensures 0 <= p < |prog.insns|
  {
  }

  // ---- a long run repeats itself -----------------------------------------------------------------

  ghost predicate Below(ps: seq<int>, n: nat) {
    forall i :: 0 <= i < |ps| ==> 0 <= ps[i] < n
  }

  /** The pigeonhole principle. */
  lemma {:induction false} Repetition(ps: seq<int>, n: nat) returns (i: nat, j: nat)
    requires Below(ps, n) && |ps| > n
    ensures i < j < |ps| && ps[i] == ps[j]
    decreases n
  {
    var last := |ps| - 1;
    if k :| 0 <= k < last && ps[k] == ps[last] {
      i, j := k, last;
    } else {
      // The last element is unique: rename the largest to it and drop it.
      var qs := seq(last, k requires 0 <= k < last => if ps[k] == n - 1 then ps[last] else ps[k]);
      i, j := Repetition(qs, n - 1);
    }
  }

  lemma RepeatedIsLoop(prog: Prog, ps: seq<int>, i: nat, j: nat)
    requires IsPath(prog, ps) && ps[0] == 0 && i < j < |ps| && ps[i] == ps[j]
    ensures LoopAt(prog, ps[i])
  {
    hide Flows;
    var p := ps[i];
    assert Connects(prog, ps[i..j + 1], p, p);
    if i > 0 {
      assert Connects(prog, ps[..i + 1], 0, p);
    }
  }

  /** A run longer than the program passes some instruction twice. */
  lemma LongRunLoops(prog: Prog, ctx: U64, fp: U64, run: seq<State>) returns (p: int)
    requires Accepted(prog) && prog.insnCnt == |prog.insns|
    requires IsRun(prog, ctx, fp, run) && |run| > |prog.insns|
    ensures LoopAt(prog, p)
  {
    hide Accepted, LoopAt, IsRun, IsPath;
    RunIsPath(prog, ctx, fp, run);
    forall i | 0 <= i < |run|
      ensures 0 <= Pcs(run)[i] < |prog.insns|
    {
      PcStaysInside(prog, ctx, fp, run, i);
    }
    var i, j := Repetition(Pcs(run), |prog.insns|);
    RepeatedIsLoop(prog, Pcs(run), i, j);
    p := Pcs(run)[i];
  }

  lemma LoopRuns(prog: Prog, ctx: U64, fp: U64, p: int, n: nat)
    requires Accepted(prog) && prog.insnCnt == |prog.insns| && LoopAt(prog, p)
    ensures HasRun(prog, ctx, fp, n)
  {
    hide Accepted, IsPath, LoopAt, IsRun;
    var ps := LoopPath(prog, p, n);
    var run := PathIsRun(prog, ctx, fp, ps);
  }

  /**
   * An accepted program has runs of every length exactly when some instruction
   * reachable from the first can reach itself; otherwise no run is longer than
   * the program.
   */
  lemma RunsForeverIff(prog: Prog, ctx: U64, fp: U64)
    requires Accepted(prog) && prog.insnCnt == |prog.insns|
    ensures (forall n: nat :: HasRun(prog, ctx, fp, n)) <==> (exists p :: LoopAt(prog, p))
    ensures (exists p :: LoopAt(prog, p)) || (forall run :: IsRun(prog, ctx, fp, run) ==> |run| <= |prog.insns|)
  {
    hide Accepted, IsRun, LoopAt;
    if p :| LoopAt(prog, p) {
      forall n: nat
        ensures HasRun(prog, ctx, fp, n)
      {
        LoopRuns(prog, ctx, fp, p, n);
      }
    } else {
      forall run | IsRun(prog, ctx, fp, run)
        ensures |run| <= |prog.insns|
      {
        if |run| > |prog.insns| {
          var p := LongRunLoops(prog, ctx, fp, run);
        }
      }
      assert !HasRun(prog, ctx, fp, |prog.insns|);
    }
  }

  /** If every jump goes strictly forward, each step does, and the program ends within its own length. */
  lemma {:induction false} ForwardTerminates(prog: Prog, ctx: U64, fp: U64, run: seq<State>, i: nat)
    requires Accepted(prog) && prog.insnCnt == |prog.insns|
    requires forall pc :: 0 <= pc < |prog.insns| && prog.insns[pc].HasTarget() ==> Target(pc, prog.insns[pc]) > pc
    requires IsRun(prog, ctx, fp, run) && i < |run|
    ensures i <= run[i].pc < |prog.insns|
  {
    hide Accepted, Step, Insn.HasTarget;
    PcStaysInside(prog, ctx, fp, run, i);
    if i > 0 {
      ForwardTerminates(prog, ctx, fp, run, i - 1);
      assert Step(prog, run[i - 1], run[i]);
      StepCases(prog, run[i - 1], run[i]);
    }
  }

  // ---- accepted programs that never end ------------------------------------------------------------

  /** JA to itself, then EXIT: not strictly backward, so not counted. */
  const SELF_LOOP := Prog(2, [Insn(0x05, 0, -1, 0), EXIT_INSN])

  /** The loop rule counts only strictly backward jumps: this accepted program has runs of every length and never exits. */
  lemma SelfLoopAccepted(ctx: U64, fp: U64, n: nat)
    ensures Accepted(SELF_LOOP) && LoopAt(SELF_LOOP, 0)
    ensures HasRun(SELF_LOOP, ctx, fp, n)
  {
    assert StateAt(SELF_LOOP, 1) == Some(ENTRY);
    assert StateAt(SELF_LOOP, 2) == Some(ENTRY);
    assert Connects(SELF_LOOP, [0, 0], 0, 0);
    LoopRuns(SELF_LOOP, ctx, fp, 0, n);
  }

  /** R0 := 1; JA back to it; EXIT. */
  const BACK_LOOP := Prog(3, [Insn(0xb7, 0, 0, 1), Insn(0x05, 0, -2, 0), EXIT_INSN])

  /** Up to eight strictly backward jumps are allowed, and one is enough to run forever. */
  lemma BackLoopAccepted(ctx: U64, fp: U64, n: nat)
    ensures Accepted(BACK_LOOP) && BackJumps(BACK_LOOP, 3) == 1 && LoopAt(BACK_LOOP, 0)
    ensures HasRun(BACK_LOOP, ctx, fp, n)
  {
    var a := ENTRY.regs[R0 := ConstValue(1)];
    assert StateAt(BACK_LOOP, 1) == Some(Abs(a, 0));
    assert StateAt(BACK_LOOP, 2) == Some(Abs(a, 1));
    assert StateAt(BACK_LOOP, 3) == Some(Abs(a, 1));
    DepthCountsBackJumps(BACK_LOOP, 3);
    assert Connects(BACK_LOOP, [0, 1, 0], 0, 0);
    LoopRuns(BACK_LOOP, ctx, fp, 0, n);
  }
}
