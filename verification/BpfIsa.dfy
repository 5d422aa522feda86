/** eBPF instructions and the interpreter's step (privileged/debug/ebpf.rs). */
module BpfIsa {
  import opened Machine

  type I16 = v: int | -0x8000 <= v < 0x8000
  type I32 = v: int | -0x8000_0000 <= v < 0x8000_0000

  const BPF_MAX_INSNS: nat := 4096
  const BPF_STACK_SIZE: int := 512
  const BPF_REG_NUM: nat := 11

  const LD: nat := 0
  const LDX: nat := 1
  const ST: nat := 2
  const STX: nat := 3
  const ALU: nat := 4
  const JMP: nat := 5
  const JMP32: nat := 6
  const ALU64: nat := 7

  const ADD: nat := 0x00
  const SUB: nat := 0x10
  const MUL: nat := 0x20
  const DIV: nat := 0x30
  const OR: nat := 0x40
  const AND: nat := 0x50
  const LSH: nat := 0x60
  const RSH: nat := 0x70
  const NEG: nat := 0x80
  const MOD: nat := 0x90
  const XOR: nat := 0xa0
  const MOV: nat := 0xb0
  const ARSH: nat := 0xc0
  const END: nat := 0xd0

  const JA: nat := 0x00
  const CALL: nat := 0x80
  const EXIT: nat := 0x90
  const EXIT_OP: nat := 0x95

  const R0: nat := 0
  const R1: nat := 1
  const R10: nat := 10

  datatype Insn = Insn(op: Byte, regs: Byte, off: I16, imm: I32) {
    function Dst(): nat {
      regs % 16
    }

    function Src(): nat {
      regs / 16
    }

    function Class(): nat {
      op % 8
    }

    function OpLow(): nat {
      op / 16 * 16
    }

    predicate UsesSrc() {
      op / 8 % 2 == 1
    }

    predicate IsJump() {
      Class() == JMP || Class() == JMP32
    }

    /** JA or a conditional jump: something with a target. */
    predicate HasTarget() {
      IsJump() && OpLow() != CALL && OpLow() != EXIT
    }

    predicate IsExit() {
      IsJump() && OpLow() == EXIT
    }

    predicate IsCall() {
      IsJump() && OpLow() == CALL
    }

    /** A jump that can be taken: the interpreter takes no conditional jump it has no condition for. */
    predicate CanJump() {
      HasTarget() && OpLow() < 0xe0
    }

    /** LDX from memory, in one of its four sizes. */
    predicate ReadsMemory() {
      op in {0x61, 0x69, 0x71, 0x79}
    }

    /** A load the interpreter knows; every other opcode of the load classes does nothing. */
    predicate Delivers() {
      op in {0x18, 0x20, 0x40} || ReadsMemory()
    }

    /** How many bytes a load or store touches. */
    function Width(): nat {
      var size := op / 8 % 4;
      if size == 0 then 4 else if size == 1 then 2 else if size == 2 then 1 else 8
    }
  }

  datatype Prog = Prog(insnCnt: nat, insns: seq<Insn>)

  function Target(pc: nat, insn: Insn): int {
    pc + 1 + insn.off
  }

  /** `insn.imm as u32`, the helper a CALL names. */
  function HelperId(insn: Insn): nat {
    if insn.imm >= 0 then insn.imm else insn.imm + TWO32
  }

  /** The argument registers a helper looks at. */
  function HelperReads(id: nat): set<nat> {
    if id == 2 then {1, 2, 3} else if id == 1 || id == 3 then {1, 2} else if id == 6 then {2, 3} else {}
  }

  /** `imm as u64`: sign extension. */
  function ImmU64(imm: I32): U64 {
    if imm >= 0 then imm else imm + TWO64
  }

  function Wrap64(v: int): U64 {
    v % TWO64
  }

  // ---- the interpreter -------------------------------------------------------

  /** Reinterpret a u64 as an i64. */
  function Signed64(v: U64): int {
    if v < TWO64 / 2 then v else v - TWO64
  }

  function Signed32(v: U64): int {
    var low := v % TWO32;
    if low < TWO32 / 2 then low else low - TWO32
  }

  /** OR, AND or XOR of the low `n` bits, bit by bit. */
  function BitOp(op: nat, a: nat, b: nat, n: nat): nat
    decreases n
  {
    if n == 0 then 0
    else
      var x, y := a % 2 == 1, b % 2 == 1;
      var bit := if op == OR then x || y else if op == AND then x && y else x != y;
      2 * BitOp(op, a / 2, b / 2, n - 1) + if bit then 1 else 0
  }

  /** `exec_alu` before the 32-bit truncation. */
  function AluResult(op: nat, is64: bool, a: U64, b: U64, imm: I32): U64 {
    if op == ADD then Wrap64(a + b)
    else if op == SUB then Wrap64(a - b)
    else if op == MUL then Wrap64(a * b)
    else if op == DIV then if b == 0 then 0 else QuotientU64(a, b)
    else if op == MOD then if b == 0 then 0 else RemainderU64(a, b)
    else if op == OR || op == AND || op == XOR then Wrap64(BitOp(op, a, b, 64))
    else if op == LSH then Wrap64(a * Pow2(b % TWO32 % 64))
    else if op == RSH then QuotientU64(a, Pow2(b % TWO32 % 64))
    else if op == NEG then Wrap64(TWO64 - a)
    else if op == MOV then b
    else if op == ARSH then
      if is64 then Wrap64(Signed64(a) / Pow2(b % TWO32 % 64))
      else Wrap64(Signed32(a) / Pow2(b % TWO32 % 32))
    else if op == END then
      if imm == 16 then a % 0x1_0000 else if imm == 32 then a % TWO32 else a
    else a
  }

  function QuotientU64(a: U64, b: nat): (q: U64)
    requires b > 0
  {
    DivBound(a, b);
    a / b
  }

  function RemainderU64(a: U64, b: U64): (q: U64)
    requires b > 0
  {
    ModBound(a, b);
    a % b
  }

  lemma DivBound(a: nat, b: nat)
    requires b > 0
    ensures 0 <= a / b <= a
  {
    MulAtLeast(b, a / b);
  }

  lemma ModBound(a: nat, b: nat)
    requires b > 0
    ensures 0 <= a % b < b
  {
  }

  function AluValue(insn: Insn, a: U64, src: U64): U64 {
    var b := if insn.UsesSrc() then src else ImmU64(insn.imm);
    var v := AluResult(insn.OpLow(), insn.Class() == ALU64, a, b, insn.imm);
    if insn.Class() == ALU64 then v else v % TWO32
  }

  /** What the loads that do not read memory leave: the wide immediate, or zero. */
  function LdValue(insn: Insn): U64 {
    if insn.op == 0x18 then insn.imm % TWO32 + insn.off % TWO32 * TWO32 else 0
  }

  /** Registers, program counter, and the registers that have been given a value so far. */
  datatype State = State(pc: int, regs: seq<U64>, written: set<nat>)

  predicate Encodable(insn: Insn) {
    insn.Dst() < BPF_REG_NUM && insn.Src() < BPF_REG_NUM
  }

  /** Entry: R1 points at the context and R10 just past the stack; nothing else has been written. */
  ghost predicate Initial(s: State, ctx: U64, fp: U64) {
    && s.pc == 0 && |s.regs| == BPF_REG_NUM
    && s.regs[R1] == ctx && s.regs[R10] == fp
    && s.written == {R1, R10}
  }

  /** Execution goes on with one register assigned. */
  ghost predicate Assigns(s: State, t: State, r: nat, v: U64)
    requires |s.regs| == BPF_REG_NUM && r < BPF_REG_NUM
  {
    t == State(s.pc + 1, s.regs[r := v], s.written + {r})
  }

  ghost predicate AssignsAny(s: State, t: State, r: nat)
    requires |s.regs| == BPF_REG_NUM && r < BPF_REG_NUM
  {
    exists v: U64 :: Assigns(s, t, r, v)
  }

  function Address(insn: Insn, base: U64): U64 {
    Wrap64(base + insn.off)
  }

  predicate LoadsNull(insn: Insn, s: State)
    requires |s.regs| == BPF_REG_NUM && Encodable(insn)
  {
    insn.ReadsMemory() && Address(insn, s.regs[insn.Src()]) == 0
  }

  /** An unknown load opcode and a null address leave the destination alone. */
  predicate LoadWrites(insn: Insn, s: State)
    requires |s.regs| == BPF_REG_NUM && Encodable(insn)
  {
    insn.Delivers() && !LoadsNull(insn, s)
  }

  /**
   * One turn of the interpreter loop. Memory is not part of the state: a read
   * from it leaves any value in its destination, and a helper any value in R0.
   */
  ghost predicate Step(prog: Prog, s: State, t: State) {
    && 0 <= s.pc < |prog.insns| && |s.regs| == BPF_REG_NUM
    && var insn := prog.insns[s.pc];
    && Encodable(insn)
    && if insn.Class() == ALU || insn.Class() == ALU64 then
         Assigns(s, t, insn.Dst(), AluValue(insn, s.regs[insn.Dst()], s.regs[insn.Src()]))
       else if insn.Class() == LD || insn.Class() == LDX then
         if !LoadWrites(insn, s) then t == s.(pc := s.pc + 1)
         else if insn.ReadsMemory() then AssignsAny(s, t, insn.Dst())
         else Assigns(s, t, insn.Dst(), LdValue(insn))
       else if insn.Class() == ST || insn.Class() == STX then
         t == s.(pc := s.pc + 1)
       else if insn.OpLow() == CALL then
         AssignsAny(s, t, R0)
       else if insn.OpLow() == EXIT then
         false
       else if insn.OpLow() == JA then
         t == s.(pc := Target(s.pc, insn))
       else
         t == s.(pc := s.pc + 1) || (insn.CanJump() && t == s.(pc := Target(s.pc, insn)))
  }

  ghost predicate IsRun(prog: Prog, ctx: U64, fp: U64, run: seq<State>) {
    && run != [] && Initial(run[0], ctx, fp)
    && forall i :: 0 <= i < |run| - 1 ==> Step(prog, run[i], run[i + 1])
  }

  /** The state after one turn, given what memory or a helper returns and whether a conditional jump is taken. */
  function Next(insn: Insn, s: State, v: U64, taken: bool): State
    requires |s.regs| == BPF_REG_NUM && Encodable(insn)
  {
    if insn.Class() == ALU || insn.Class() == ALU64 then
      s.(pc := s.pc + 1, regs := s.regs[insn.Dst() := AluValue(insn, s.regs[insn.Dst()], s.regs[insn.Src()])],
         written := s.written + {insn.Dst()})
    else if insn.Class() == LD || insn.Class() == LDX then
      if !LoadWrites(insn, s) then s.(pc := s.pc + 1)
      else
        s.(pc := s.pc + 1, regs := s.regs[insn.Dst() := if insn.ReadsMemory() then v else LdValue(insn)],
           written := s.written + {insn.Dst()})
    else if insn.IsCall() then
      s.(pc := s.pc + 1, regs := s.regs[R0 := v], written := s.written + {R0})
    else if insn.CanJump() && (taken || insn.OpLow() == JA) then s.(pc := if s.pc >= 0 then Target(s.pc, insn) else s.pc)
    else s.(pc := s.pc + 1)
  }

  /** Every instruction but EXIT can execute. */
  lemma NextSteps(prog: Prog, s: State, v: U64, taken: bool)
    requires 0 <= s.pc < |prog.insns| && |s.regs| == BPF_REG_NUM
    requires Encodable(prog.insns[s.pc]) && !prog.insns[s.pc].IsExit()
    ensures Step(prog, s, Next(prog.insns[s.pc], s, v, taken))
  {
    hide AluValue, LdValue, Address;
    var insn := prog.insns[s.pc];
    var t := Next(insn, s, v, taken);
    if insn.Class() == LD || insn.Class() == LDX {
      if LoadWrites(insn, s) {
        assert Assigns(s, t, insn.Dst(), if insn.ReadsMemory() then v else LdValue(insn));
      }
    } else if insn.IsCall() {
      assert Assigns(s, t, R0, v);
    }
  }

  /** The operands an instruction reads. */
  function Reads(insn: Insn): set<nat> {
    var src := if insn.UsesSrc() then {insn.Src()} else {};
    if insn.Class() == ALU || insn.Class() == ALU64 then
      if insn.OpLow() == MOV then src else src + {insn.Dst()}
    else if insn.Class() == LD || insn.Class() == LDX then if insn.ReadsMemory() then {insn.Src()} else {}
    else if insn.Class() == ST then {insn.Dst()}
    else if insn.Class() == STX then {insn.Dst(), insn.Src()}
    else if insn.HasTarget() && insn.OpLow() != JA then src + {insn.Dst()}
    else if insn.IsCall() then HelperReads(HelperId(insn))
    else {}
  }

  /** The register an instruction gives a value to, a null address aside. */
  function Writes(insn: Insn): set<nat> {
    if insn.Class() == ALU || insn.Class() == ALU64 then {insn.Dst()}
    else if insn.Class() == LD || insn.Class() == LDX then if insn.Delivers() then {insn.Dst()} else {}
    else if insn.IsCall() then {R0}
    else {}
  }
}
