/** Acceptance read off the program text: the verifier's running state is a last-writer analysis. */
module BpfRules {
  import opened Machine
  import opened BpfIsa
  import opened BpfVerifier
  import opened BpfSoundness

  // ---- what the text says of a register --------------------------------------------------

  /** The instruction changes what is known of register `r`; a call forgets R1. */
  predicate Sets(insn: Insn, r: nat) {
    (insn.Class() in {ALU, ALU64, LD, LDX} && insn.Dst() == r) || (insn.IsCall() && r == 1)
  }

  predicate IsMove(insn: Insn) {
    insn.Class() in {ALU, ALU64} && insn.OpLow() == MOV
  }

  /** The last instruction before `k` that sets `r`. */
  function LastSet(prog: Prog, k: nat, r: nat): (j: Option<nat>)
    requires k <= |prog.insns|
    ensures j.Some? ==> j.value < k && Sets(prog.insns[j.value], r)
    ensures forall i :: (if j.Some? then j.value + 1 else 0) <= i < k ==> !Sets(prog.insns[i], r)
  {
    if k == 0 then None
    else if Sets(prog.insns[k - 1], r) then Some(k - 1)
    else LastSet(prog, k - 1, r)
  }

  /** Follow moves back to their origin: an entry pointer, a computed number, or nothing. */
  function KindAt(prog: Prog, k: nat, r: nat): RegType
    requires k <= |prog.insns|
    decreases k
  {
    match LastSet(prog, k, r)
    case None => if r == 1 then CtxPtr else if r == 10 then StackPtr else NotInit
    case Some(j) =>
      if IsMove(prog.insns[j]) && prog.insns[j].UsesSrc() then KindAt(prog, j, prog.insns[j].Src()) else Scalar
  }

  /** The constant a register holds, when it is built from immediates by moves, sums, differences and products. */
  function ConstAt(prog: Prog, k: nat, r: nat): Option<int>
    requires k <= |prog.insns|
    decreases k, 0
  {
    var j :- LastSet(prog, k, r);
    var insn := prog.insns[j];
    if IsMove(insn) then if insn.UsesSrc() then ConstAt(prog, j, insn.Src()) else Some(ImmU64(insn.imm))
    else if insn.Class() == ALU64 then FoldedAt(prog, j)
    else None
  }

  /** The exact sum, difference or product of two constant operands. */
  function FoldedAt(prog: Prog, j: nat): Option<int>
    requires j < |prog.insns|
    decreases j, 1
  {
    var insn := prog.insns[j];
    var a :- ConstAt(prog, j, insn.Dst());
    var b :- if insn.UsesSrc() then ConstAt(prog, j, insn.Src()) else Some(ImmU64(insn.imm));
    if insn.OpLow() == ADD then Some(a + b)
    else if insn.OpLow() == SUB then Some(a - b)
    else if insn.OpLow() == MUL then Some(a * b)
    else None
  }

  predicate Known(prog: Prog, k: nat, r: nat)
    requires k <= |prog.insns|
  {
    KindAt(prog, k, r) != NotInit
  }

  // ---- the rules, instruction by instruction -----------------------------------------------

  predicate JumpRule(prog: Prog, k: nat)
    requires k < |prog.insns|
  {
    var insn := prog.insns[k];
    && 0 <= k + 1 + insn.off < prog.insnCnt
    && (k + 1 + insn.off < k ==> BackJumps(prog, k + 1) <= 8)
    && (insn.OpLow() != JA ==> Known(prog, k, insn.Dst()) && (insn.UsesSrc() ==> Known(prog, k, insn.Src())))
  }

  predicate CallRule(prog: Prog, k: nat)
    requires k < |prog.insns|
  {
    var imm := prog.insns[k].imm;
    && imm in {1, 2, 3, 5, 6, 8}
    && (imm in {1, 2, 3} ==> Known(prog, k, 2))
    && (imm == 2 ==> Known(prog, k, 3))
  }

  predicate AluRule(prog: Prog, k: nat)
    requires k < |prog.insns|
  {
    var insn := prog.insns[k];
    && (insn.OpLow() != MOV ==> Known(prog, k, insn.Dst()))
    && (insn.UsesSrc() && (insn.OpLow() == MOV || insn.Class() == ALU64) ==> Known(prog, k, insn.Src()))
    && (insn.OpLow() != MOV && insn.Class() == ALU64 && FoldedAt(prog, k).Some? ==> 0 <= FoldedAt(prog, k).value < TWO64)
  }

  predicate LoadRule(prog: Prog, k: nat)
    requires k < |prog.insns|
  {
    var insn := prog.insns[k];
    if insn.Class() == LD then -4096 <= insn.off <= 4096
    else
      || KindAt(prog, k, insn.Src()) == CtxPtr
      || (KindAt(prog, k, insn.Src()) == StackPtr && -512 <= insn.off <= 0)
  }

  predicate StoreRule(prog: Prog, k: nat)
    requires k < |prog.insns|
  {
    var insn := prog.insns[k];
    && insn.Dst() != 10 && KindAt(prog, k, insn.Dst()) in {CtxPtr, StackPtr}
    && (insn.Class() == STX ==> Known(prog, k, insn.Src()))
  }

  predicate Rules(prog: Prog, k: nat)
    requires k < |prog.insns|
  {
    var insn := prog.insns[k];
    && insn.Dst() <= 10 && insn.Src() <= 10
    && (insn.HasTarget() ==> JumpRule(prog, k))
    && (insn.IsCall() ==> CallRule(prog, k))
    && (insn.Class() in {ALU, ALU64} ==> AluRule(prog, k))
    && (insn.Class() in {LD, LDX} ==> LoadRule(prog, k))
    && (insn.Class() in {ST, STX} ==> StoreRule(prog, k))
  }

  predicate RulesBelow(prog: Prog, n: nat)
    requires n <= |prog.insns|
  {
    forall k :: 0 <= k < n ==> Rules(prog, k)
  }

  // ---- the pass computes them ----------------------------------------------------------------

  /** What the text says of one register, as the pass would record it. */
  ghost predicate SaysOf(prog: Prog, k: nat, r: nat, reg: RegState)
    requires k <= |prog.insns|
  {
    && reg.kind == KindAt(prog, k, r)
    && (match ConstAt(prog, k, r)
        case None => reg.range == None
        case Some(v) => 0 <= v <= U64_MAX && reg.range == Some((v, v)))
  }

  ghost predicate Describes(prog: Prog, k: nat, a: Abs)
    requires k <= |prog.insns|
  {
    && |a.regs| == BPF_REG_NUM && a.depth == BackJumps(prog, k)
    && forall r :: 0 <= r < BPF_REG_NUM ==> SaysOf(prog, k, r, a.regs[r])
  }

  /** Between two settings nothing changes. */
  lemma Untouched(prog: Prog, k: nat, r: nat, reg: RegState)
    requires k < |prog.insns| && !Sets(prog.insns[k], r) && SaysOf(prog, k, r, reg)
    ensures SaysOf(prog, k + 1, r, reg)
  {
    assert LastSet(prog, k + 1, r) == LastSet(prog, k, r);
  }

  lemma JustSet(prog: Prog, k: nat, r: nat)
    requires k < |prog.insns| && Sets(prog.insns[k], r)
    ensures LastSet(prog, k + 1, r) == Some(k)
  {
  }

  /** What the text says of a register right after it is set. */
  lemma SetBy(prog: Prog, k: nat, r: nat)
    requires k < |prog.insns| && Sets(prog.insns[k], r)
    ensures var insn := prog.insns[k];
            && KindAt(prog, k + 1, r) == (if IsMove(insn) && insn.UsesSrc() then KindAt(prog, k, insn.Src()) else Scalar)
            && ConstAt(prog, k + 1, r) ==
               (if IsMove(insn) then if insn.UsesSrc() then ConstAt(prog, k, insn.Src()) else Some(ImmU64(insn.imm))
                else if insn.Class() == ALU64 then FoldedAt(prog, k) else None)
  {
    JustSet(prog, k, r);
  }

  lemma {:induction false} AlwaysKnown(prog: Prog, k: nat, r: nat)
    requires k <= |prog.insns| && RulesBelow(prog, k) && (r == 1 || LastSet(prog, k, r).Some?)
    ensures Known(prog, k, r)
    decreases k
  {
    hide Rules;
    var j := LastSet(prog, k, r);
    if j.Some? {
      assert Rules(prog, j.value);
      MoveSource(prog, j.value);
    }
  }

  lemma MoveSource(prog: Prog, j: nat)
    requires j < |prog.insns| && Rules(prog, j)
    ensures IsMove(prog.insns[j]) && prog.insns[j].UsesSrc() ==> Known(prog, j, prog.insns[j].Src())
  {
    hide KindAt, FoldedAt, LoadRule, StoreRule, CallRule, JumpRule;
  }

  // One class at a time: the check passes exactly when the rule holds, and leaves what the text says.

  /** The checked range is the folded constant, when there is one. */
  lemma RangeIsFolded(prog: Prog, k: nat, a: Abs)
    requires k < |prog.insns| && Describes(prog, k, a) && Encodable(prog.insns[k])
    ensures var insn := prog.insns[k];
            AluCheckedRange(insn.OpLow(), a.regs[insn.Dst()].range, a.regs[insn.Src()].range, insn.UsesSrc(), insn.imm) ==
            match FoldedAt(prog, k)
            case None => Some(None)
            case Some(v) => if 0 <= v < TWO64 then Some(Some((v, v))) else None
  {
    hide KindAt, ConstAt, BackJumps, Insn.OpLow, Insn.UsesSrc, ImmU64;
    var insn := prog.insns[k];
    assert SaysOf(prog, k, insn.Dst(), a.regs[insn.Dst()]) && SaysOf(prog, k, insn.Src(), a.regs[insn.Src()]);
  }

  lemma AluPasses(prog: Prog, k: nat, a: Abs)
    requires k < |prog.insns| && Describes(prog, k, a)
    requires Encodable(prog.insns[k]) && prog.insns[k].Class() in {ALU, ALU64}
    ensures CheckAlu(prog.insns[k], a).Some? <==> AluRule(prog, k)
  {
    RangeIsFolded(prog, k, a);
    hide KindAt, ConstAt, FoldedAt, BackJumps, Insn.OpLow, Insn.UsesSrc, ImmU64, AluCheckedRange;
    var insn := prog.insns[k];
    assert SaysOf(prog, k, insn.Dst(), a.regs[insn.Dst()]) && SaysOf(prog, k, insn.Src(), a.regs[insn.Src()]);
  }

  lemma AluLeaves(prog: Prog, k: nat, a: Abs)
    requires k < |prog.insns| && Describes(prog, k, a)
    requires Encodable(prog.insns[k]) && prog.insns[k].Class() in {ALU, ALU64} && CheckAlu(prog.insns[k], a).Some?
    ensures SaysOf(prog, k + 1, prog.insns[k].Dst(), CheckAlu(prog.insns[k], a).value.regs[prog.insns[k].Dst()])
  {
    var insn := prog.insns[k];
    SetBy(prog, k, insn.Dst());
    RangeIsFolded(prog, k, a);
    hide BackJumps, Insn.OpLow, Insn.UsesSrc, ImmU64, KindAt, ConstAt, FoldedAt, AluCheckedRange;
    assert SaysOf(prog, k, insn.Dst(), a.regs[insn.Dst()]) && SaysOf(prog, k, insn.Src(), a.regs[insn.Src()]);
  }

  lemma LoadPasses(prog: Prog, k: nat, a: Abs)
    requires k < |prog.insns| && Describes(prog, k, a)
    requires Encodable(prog.insns[k]) && prog.insns[k].Class() in {LD, LDX}
    ensures CheckLoad(prog.insns[k], a).Some? <==> LoadRule(prog, k)
  {
    hide KindAt, ConstAt, BackJumps;
    assert SaysOf(prog, k, prog.insns[k].Src(), a.regs[prog.insns[k].Src()]);
  }

  lemma StorePasses(prog: Prog, k: nat, a: Abs)
    requires k < |prog.insns| && Describes(prog, k, a)
    requires Encodable(prog.insns[k]) && prog.insns[k].Class() in {ST, STX}
    ensures prog.insns[k].Dst() != 10 && CheckStore(prog.insns[k], a).Some? <==> StoreRule(prog, k)
  {
    hide KindAt, ConstAt, BackJumps;
    var insn := prog.insns[k];
    assert SaysOf(prog, k, insn.Dst(), a.regs[insn.Dst()]) && SaysOf(prog, k, insn.Src(), a.regs[insn.Src()]);
  }

  lemma JumpPasses(prog: Prog, k: nat, a: Abs)
    requires k < |prog.insns| && Describes(prog, k, a) && Encodable(prog.insns[k]) && prog.insns[k].HasTarget()
    ensures CheckJump(prog.insnCnt, k, prog.insns[k], a).Some? <==> JumpRule(prog, k)
  {
    hide KindAt, ConstAt;
    var insn := prog.insns[k];
    assert SaysOf(prog, k, insn.Dst(), a.regs[insn.Dst()]) && SaysOf(prog, k, insn.Src(), a.regs[insn.Src()]);
  }

  lemma CallPasses(prog: Prog, k: nat, a: Abs)
    requires k < |prog.insns| && Describes(prog, k, a) && RulesBelow(prog, k)
    requires Encodable(prog.insns[k]) && prog.insns[k].IsCall()
    ensures CheckJump(prog.insnCnt, k, prog.insns[k], a).Some? <==> CallRule(prog, k)
  {
    AlwaysKnown(prog, k, 1);
    hide KindAt, ConstAt, BackJumps, RulesBelow;
    assert SaysOf(prog, k, 1, a.regs[1]) && SaysOf(prog, k, 2, a.regs[2]) && SaysOf(prog, k, 3, a.regs[3]);
    var n := HelperMinArgs(HelperId(prog.insns[k]));
    assert ArgsInit(a, n) <==> (n >= 1 ==> Init(a, 1)) && (n >= 2 ==> Init(a, 2)) && (n >= 3 ==> Init(a, 3));
  }

  /** One instruction passes exactly when its rules hold. */
  lemma PassesIff(prog: Prog, k: nat, a: Abs)
    requires k < |prog.insns| && Describes(prog, k, a) && RulesBelow(prog, k)
    ensures CheckInsn(prog.insnCnt, k, prog.insns[k], a).Some? <==> Rules(prog, k)
  {
    hide CheckAlu, CheckLoad, CheckStore, CheckJump, AluRule, LoadRule, StoreRule, JumpRule, CallRule, Describes, RulesBelow;
    var insn := prog.insns[k];
    assert |a.regs| == BPF_REG_NUM by {
      DescribedSize(prog, k, a);
    }
    if Encodable(insn) {
      if insn.Class() in {ALU, ALU64} {
        AluPasses(prog, k, a);
      } else if insn.Class() in {LD, LDX} {
        LoadPasses(prog, k, a);
      } else if insn.Class() in {ST, STX} {
        StorePasses(prog, k, a);
      } else if insn.IsCall() {
        CallPasses(prog, k, a);
      } else if insn.HasTarget() {
        JumpPasses(prog, k, a);
      } else {
        ExitPasses(prog.insnCnt, k, insn, a);
      }
    }
  }

  lemma DescribedSize(prog: Prog, k: nat, a: Abs)
    requires k <= |prog.insns| && Describes(prog, k, a)
    ensures |a.regs| == BPF_REG_NUM
  {
  }

  lemma ExitPasses(cnt: nat, k: nat, insn: Insn, a: Abs)
    requires |a.regs| == BPF_REG_NUM && Encodable(insn) && insn.IsExit()
    ensures CheckJump(cnt, k, insn, a) == Some(a)
  {
  }

  /** The registers an instruction does not set keep their state; a load and a call leave a number. */
  lemma TransferFrame(cnt: nat, k: nat, insn: Insn, a: Abs, r: nat)
    requires |a.regs| == BPF_REG_NUM && CheckInsn(cnt, k, insn, a).Some? && r < BPF_REG_NUM
    ensures var a' := CheckInsn(cnt, k, insn, a).value;
            && (!Sets(insn, r) ==> a'.regs[r] == a.regs[r])
            && (Sets(insn, r) ==>
                  if insn.Class() in {ALU, ALU64} then CheckAlu(insn, a).Some? && a'.regs[r] == CheckAlu(insn, a).value.regs[r]
                  else a'.regs[r] == UNKNOWN)
  {
    hide AluCheckedRange, IsValidHelper, ArgsInit, HelperId;
  }

  lemma DescribesNext(prog: Prog, k: nat, a: Abs)
    requires k < |prog.insns| && Describes(prog, k, a) && CheckInsn(prog.insnCnt, k, prog.insns[k], a).Some?
    ensures Describes(prog, k + 1, CheckInsn(prog.insnCnt, k, prog.insns[k], a).value)
  {
    var insn, a' := prog.insns[k], CheckInsn(prog.insnCnt, k, prog.insns[k], a).value;
    CheckInsnDepth(prog.insnCnt, k, insn, a);
    PassedIsEncodable(prog.insnCnt, k, insn, a);
    hide CheckInsn, CheckAlu, SaysOf;
    forall r | 0 <= r < BPF_REG_NUM
      ensures SaysOf(prog, k + 1, r, a'.regs[r])
    {
      TransferFrame(prog.insnCnt, k, insn, a, r);
      if !Sets(insn, r) {
        Untouched(prog, k, r, a.regs[r]);
      } else if insn.Class() in {ALU, ALU64} {
        AluLeaves(prog, k, a);
      } else {
        NumberLeft(prog, k, r);
      }
    }
  }

  lemma NumberLeft(prog: Prog, k: nat, r: nat)
    requires k < |prog.insns| && Sets(prog.insns[k], r) && prog.insns[k].Class() !in {ALU, ALU64}
    ensures SaysOf(prog, k + 1, r, UNKNOWN)
  {
    SetBy(prog, k, r);
  }

  lemma EntryDescribed(prog: Prog)
    ensures Describes(prog, 0, ENTRY)
  {
    assert forall r :: 0 <= r < BPF_REG_NUM ==> LastSet(prog, 0, r) == None;
  }

  /** The pass gets past `n` instructions exactly when each keeps the rules, and its state is what the text says. */
  lemma {:induction false} PassIff(prog: Prog, n: nat)
    requires n <= |prog.insns|
    ensures StateAt(prog, n).Some? <==> RulesBelow(prog, n)
    ensures StateAt(prog, n).Some? ==> Describes(prog, n, StateAt(prog, n).value)
  {
    hide CheckInsn, Rules, Describes;
    if n == 0 {
      EntryDescribed(prog);
    } else {
      PassIff(prog, n - 1);
      assert RulesBelow(prog, n) <==> RulesBelow(prog, n - 1) && Rules(prog, n - 1);
      if StateAt(prog, n - 1).Some? {
        var a := StateAt(prog, n - 1).value;
        PassesIff(prog, n - 1, a);
        if Rules(prog, n - 1) {
          DescribesNext(prog, n - 1, a);
        }
      }
    }
  }

  /**
   * Acceptance without the running state: a program of 1 to 4096 instructions
   * that ends in EXIT is accepted exactly when each instruction keeps the rules
   * the text before it determines.
   */
  lemma AcceptedIff(prog: Prog)
    ensures Accepted(prog) <==>
            && 1 <= prog.insnCnt <= 4096
            && (prog.insns != [] ==> prog.insns[|prog.insns| - 1].op == 0x95)
            && RulesBelow(prog, Min(|prog.insns|, 4096))
  {
    hide StateAt, RulesBelow;
    PassIff(prog, Min(|prog.insns|, 4096));
  }

  // ---- helpers ---------------------------------------------------------------------------------

  /** Accepted programs call the six known helpers only. */
  lemma AcceptedCalls(prog: Prog, k: nat)
    requires Accepted(prog) && prog.insnCnt == |prog.insns| && k < |prog.insns| && prog.insns[k].IsCall()
    ensures prog.insns[k].imm in {1, 2, 3, 5, 6, 8}
  {
    hide Accepted;
    AcceptedIff(prog);
    assert Rules(prog, k);
  }

  /** R2 to Rn := 0; call; EXIT. */
  function CallProgram(n: nat, id: I32): Prog
    requires 1 <= n <= 3
  {
    var call := [Insn(0x85, 0, 0, id), Insn(0x95, 0, 0, 0)];
    var insns := if n == 1 then call else if n == 2 then [Insn(0xb7, 2, 0, 0)] + call
                 else [Insn(0xb7, 2, 0, 0), Insn(0xb7, 3, 0, 0)] + call;
    Prog(|insns|, insns)
  }

  /** With R1 to Rn written, exactly these helpers may be called. */
  lemma CallProgramIff(n: nat, id: I32)
    requires 1 <= n <= 3
    ensures Accepted(CallProgram(n, id)) <==>
            id in {5, 6, 8} || (n >= 2 && id in {1, 3}) || (n == 3 && id == 2)
  {
    hide Accepted, Rules;
    var prog := CallProgram(n, id);
    AcceptedIff(prog);
    CallRuleOf(n, id);
    assert RulesBelow(prog, n + 1) <==> Rules(prog, n - 1) by {
      forall k | 0 <= k < n + 1 && k != n - 1
        ensures Rules(prog, k)
      {
        PlainRule(n, id, k);
      }
    }
  }

  lemma PlainRule(n: nat, id: I32, k: nat)
    requires 1 <= n <= 3 && k < n + 1 && k != n - 1
    ensures Rules(CallProgram(n, id), k)
  {
    hide KindAt;
  }

  lemma CallRuleOf(n: nat, id: I32)
    requires 1 <= n <= 3
    ensures Rules(CallProgram(n, id), n - 1) <==>
            id in {5, 6, 8} || (n >= 2 && id in {1, 3}) || (n == 3 && id == 2)
  {
    var prog := CallProgram(n, id);
    assert LastSet(prog, 0, 2) == None && LastSet(prog, 0, 3) == None;
    assert KindAt(prog, n - 1, 2) == if n >= 2 then Scalar else NotInit;
    assert KindAt(prog, n - 1, 3) == if n == 3 then Scalar else NotInit;
  }
}
