// The word subset of the Dis virtual machine: its instructions, what the
// interpreter does with them, and what the JIT emits for them.
module Dis {
  import opened Basics
  import opened Rv64
  import opened LoadConst
  import opened Relax
  import opened Layout

  // -- instructions ------------------------------------------------------------

  // Source and destination operands: a slot of the frame or the module data,
  // an immediate, or a slot reached through a pointer in one of them.
  datatype Operand =
    | FP(ind: int)
    | MP(ind: int)
    | Imm(v: int)
    | IndFP(f: int, s: int)
    | IndMP(f: int, s: int)

  datatype Middle = XNone | XImm(v: int) | XFP(off: int) | XMP(off: int)

  datatype ArithOp = AddW | SubW | MulW | AndW | OrW | XorW
  datatype Cond = EQ | NE | LT | LE | GT | GE

  // A branch's destination field holds its target (and, read as a word, the
  // target's address dimm).  Other is any instruction outside the subset,
  // known only by the words and branch sites it becomes.
  datatype Inst =
    | MovW(s: Operand, d: Operand)
    | Arith(op: ArithOp, s: Operand, m: Middle, d: Operand)
    | BrW(cond: Cond, s: Operand, m: Middle, dimm: int, target: nat)
    | Jmp(target: nat)
    | Other(items: seq<Item>)

  predicate IsWord(v: int) { -TWO63 <= v < TWO63 }

  predicate OperandOk(o: Operand)
  {
    match o
    case FP(ind) => IsWord(ind)
    case MP(ind) => IsWord(ind)
    case Imm(v) => IsWord(v)
    case IndFP(f, s) => 0 <= f < 0x1_0000 && 0 <= s < 0x1_0000
    case IndMP(f, s) => 0 <= f < 0x1_0000 && 0 <= s < 0x1_0000
  }

  predicate MiddleOk(m: Middle)
  {
    match m
    case XNone => true
    case XImm(v) => -0x8000 <= v < 0x8000
    case XFP(off) => 0 <= off < 0x1_0000
    case XMP(off) => 0 <= off < 0x1_0000
  }

  // What the loader lets through, for a program of n instructions and a
  // module with nmac macros; results go to memory.
  predicate InstOk(i: Inst, n: nat, nmac: nat)
  {
    match i
    case MovW(s, d) => OperandOk(s) && OperandOk(d) && !d.Imm?
    case Arith(_, s, m, d) => OperandOk(s) && MiddleOk(m) && OperandOk(d) && !d.Imm?
    case BrW(_, s, m, dimm, t) => OperandOk(s) && MiddleOk(m) && IsWord(dimm) && t < n
    case Jmp(t) => t < n
    case Other(items) => forall k :: 0 <= k < |items| ==> OtherOk(items[k], n, nmac)
  }

  predicate OtherOk(it: Item, n: nat, nmac: nat)
  {
    match it
    case Ins(_) => true
    case Raw(_) => true
    case Skip(_, _, _, _) => false
    case Site(kind, f3, rs1, rs2, t) =>
      && (IsCondKind(kind) ==> IsCond(f3) && IsReg(rs1) && IsReg(rs2))
      && match t { case TDis(pc) => pc <= n case TMac(i) => i < nmac }
  }

  // -- the interpreter -----------------------------------------------------------

  // ic is what is left of the quantum as compiled code counts it: once per
  // executed branch that does not go forward.
  datatype State = State(pc: nat, ic: int, mem: Mem)

  datatype Outcome = Next(st: State) | Expired | Stuck

  // The frame and module pointers, and where the VM's own registers (R) are.
  datatype Env = Env(fp: int, mp: int, reg: int)

  const REGSIZE := 120
  const OREGFP := 16
  const OREGIC := 56

  predicate EnvOk(e: Env)
  {
    IsWord(e.fp) && IsWord(e.mp) && 0 <= e.reg && e.reg + REGSIZE < TWO63
  }

  function Addr(o: Operand, e: Env, mem: Mem): int
    requires !o.Imm?
  {
    match o
    case FP(ind) => e.fp + ind
    case MP(ind) => e.mp + ind
    case IndFP(f, s) => Load64(mem, e.fp + f) + s
    case IndMP(f, s) => Load64(mem, e.mp + f) + s
  }

  function Source(o: Operand, e: Env, mem: Mem): int
  {
    if o.Imm? then o.v else Load64(mem, Addr(o, e, mem))
  }

  // A missing middle operand is the destination's word.
  function Mid(m: Middle, dst: int, e: Env, mem: Mem): int
  {
    match m
    case XNone => dst
    case XImm(v) => v
    case XFP(off) => Load64(mem, e.fp + off)
    case XMP(off) => Load64(mem, e.mp + off)
  }

  // The interpreter's results: 64-bit arithmetic, then the low 32 bits
  // sign-extended.
  function ArithValue(op: ArithOp, m: int, s: int): int
  {
    match op
    case AddW => W32(W64(m + s))
    case SubW => W32(W64(m - s))
    case MulW => W32(U64(U64(m) * U64(s)))
    case AndW => W32(And64(m, s))
    case OrW => W32(Or64(m, s))
    case XorW => W32(Xor64(m, s))
  }

  predicate Holds2(c: Cond, a: int, b: int)
  {
    match c
    case EQ => a == b
    case NE => a != b
    case LT => a < b
    case LE => a <= b
    case GT => a > b
    case GE => a >= b
  }

  // The byte at a is one of the VM's own registers.
  predicate InReg(a: int, e: Env) { e.reg <= U64(a) < e.reg + REGSIZE }

  // The eight bytes from a are none of R's.
  ghost predicate Clear(a: int, e: Env)
  {
    forall b :: a <= b < a + 8 ==> !InReg(b, e)
  }

  // No Dis pointer leads into R: every word the operand reads is clear of it.
  ghost predicate OperandSafe(o: Operand, e: Env, mem: Mem)
  {
    match o
    case FP(ind) => Clear(e.fp + ind, e)
    case MP(ind) => Clear(e.mp + ind, e)
    case Imm(_) => true
    case IndFP(f, s) => Clear(e.fp + f, e) && Clear(Load64(mem, e.fp + f) + s, e)
    case IndMP(f, s) => Clear(e.mp + f, e) && Clear(Load64(mem, e.mp + f) + s, e)
  }

  ghost predicate MiddleSafe(m: Middle, e: Env)
  {
    match m
    case XNone => true
    case XImm(_) => true
    case XFP(off) => Clear(e.fp + off, e)
    case XMP(off) => Clear(e.mp + off, e)
  }

  ghost predicate Safe(i: Inst, e: Env, mem: Mem)
  {
    match i
    case MovW(s, d) => OperandSafe(s, e, mem) && OperandSafe(d, e, mem)
    case Arith(_, s, m, d) => OperandSafe(s, e, mem) && MiddleSafe(m, e) && OperandSafe(d, e, mem)
    case BrW(_, s, m, _, _) => OperandSafe(s, e, mem) && MiddleSafe(m, e)
    case Jmp(_) => true
    case Other(_) => false
  }

  // One instruction of the interpreter.
  ghost function DisStep(prog: seq<Inst>, e: Env, st: State): Outcome
  {
    if st.pc >= |prog| || !Safe(prog[st.pc], e, st.mem) then Stuck
    else
      match prog[st.pc]
      case MovW(s, d) =>
        if d.Imm? then Stuck
        else Next(State(st.pc + 1, st.ic, Store64(st.mem, Addr(d, e, st.mem), Source(s, e, st.mem))))
      case Arith(op, s, m, d) =>
        if d.Imm? then Stuck
        else
          var v := ArithValue(op, Mid(m, Load64(st.mem, Addr(d, e, st.mem)), e, st.mem), Source(s, e, st.mem));
          Next(State(st.pc + 1, st.ic, Store64(st.mem, Addr(d, e, st.mem), v)))
      case BrW(c, s, m, dimm, t) =>
        var ic := if t <= st.pc then W32(st.ic - 1) else st.ic;
        if t <= st.pc && ic <= 0 then Expired
        else
          var go := Holds2(c, Source(s, e, st.mem), Mid(m, dimm, e, st.mem));
          Next(State(if go then t else st.pc + 1, ic, st.mem))
      case Jmp(t) =>
        var ic := if t <= st.pc then W32(st.ic - 1) else st.ic;
        if t <= st.pc && ic <= 0 then Expired else Next(State(t, ic, st.mem))
      case Other(_) => Stuck
  }

  // n instructions; None if the run stops being inside the subset or its
  // quantum on the way.
  ghost function DisRun(prog: seq<Inst>, e: Env, st: State, n: nat): Option<State>
    decreases n
  {
    if n == 0 then Some(st)
    else
      match DisStep(prog, e, st)
      case Next(st') => DisRun(prog, e, st', n - 1)
      case Expired => None
      case Stuck => None
  }

  // -- what the JIT emits ------------------------------------------------------------

  const RCON := 6
  const RREG := 9
  const RA0 := 10
  const RA1 := 11
  const RFP := 18
  const RMP := 19

  const MACRELQ := 7
  const NMACRO := 11

  datatype MemOp = Ldw | Stw | Ldw32 | Ldw32s | Stw32

  function Access(op: MemOp, off: int, rbase: int, r: int): Insn
  {
    match op
    case Ldw => Ld(r, rbase, off)
    case Stw => Sd(r, rbase, off)
    case Ldw32 => Lwu(r, rbase, off)
    case Ldw32s => Lw(r, rbase, off)
    case Stw32 => Sw(r, rbase, off)
  }

  // A load or store at base register + byte offset; an offset that does not
  // fit 12 bits is built in RCON first.
  function MemSeq(op: MemOp, off: int, rbase: int, r: int): seq<Insn>
    requires IsWord(off)
  {
    if IsImm12(off) then [Access(op, off, rbase, r)]
    else LiSeq(RCON, off) + [Reg(ADD, RCON, RCON, rbase), Access(op, 0, RCON, r)]
  }

  function OpxSeq(o: Operand, op: MemOp, r: int): seq<Insn>
    requires OperandOk(o) && IsReg(r)
  {
    match o
    case FP(ind) => MemSeq(op, ind, RFP, r)
    case MP(ind) => MemSeq(op, ind, RMP, r)
    case Imm(v) => LiSeq(r, v)
    case IndFP(f, s) => IndSeq(op, f, s, RFP, r)
    case IndMP(f, s) => IndSeq(op, f, s, RMP, r)
  }

  // Through the pointer f bytes into the frame or the module data.
  function IndSeq(op: MemOp, f: int, s: int, rbase: int, r: int): seq<Insn>
    requires IsWord(f) && IsWord(s)
  {
    MemSeq(Ldw, f, rbase, RTA) + MemSeq(op, s, RTA, r)
  }

  function MidSeq(m: Middle, d: Operand, op: MemOp, r: int): seq<Insn>
    requires MiddleOk(m) && OperandOk(d) && IsReg(r)
  {
    match m
    case XNone => OpxSeq(d, op, r)
    case XImm(v) => LiSeq(r, v)
    case XFP(off) => MemSeq(op, off, RFP, r)
    case XMP(off) => MemSeq(op, off, RMP, r)
  }

  // The operation itself, middle operand in RA1 and source in RA0 (mulw the
  // other way round), result in RA0.
  function OpSeq(op: ArithOp): seq<Insn>
  {
    match op
    case AddW => [Reg(ADDW, RA0, RA1, RA0)]
    case SubW => [Reg(SUBW, RA0, RA1, RA0)]
    case MulW => [Reg(MULW, RA0, RA0, RA1)]
    case AndW => [Reg(AND, RA0, RA1, RA0), Addiw(RA0, RA0, 0)]
    case OrW => [Reg(OR, RA0, RA1, RA0), Addiw(RA0, RA0, 0)]
    case XorW => [Reg(XOR, RA0, RA1, RA0), Addiw(RA0, RA0, 0)]
  }

  function ArithSeq(op: ArithOp, s: Operand, m: Middle, d: Operand): seq<Insn>
    requires OperandOk(s) && MiddleOk(m) && OperandOk(d)
  {
    (if op == MulW then OpxSeq(s, Ldw, RA1) + MidSeq(m, d, Ldw, RA0)
     else MidSeq(m, d, Ldw, RA1) + OpxSeq(s, Ldw, RA0))
    + OpSeq(op) + OpxSeq(d, Stw, RA0)
  }

  // Count down IC, and call MACRELQ when it runs out.
  function CountSeq(): seq<Insn>
  {
    MemSeq(Ldw32s, OREGIC, RREG, RA0) + [Addiw(RA0, RA0, -1)] + MemSeq(Stw32, OREGIC, RREG, RA0)
  }

  function SchedItems(target: nat, pc: nat): seq<Item>
  {
    if target > pc then []
    else
      Insns(CountSeq())
      + [Skip(4, RZERO, RA0, |MemSeq(Stw, OREGFP, RREG, RFP)| + 1)]
      + Insns(MemSeq(Stw, OREGFP, RREG, RFP))
      + [Site(BrCall, 0, 0, 0, TMac(MACRELQ))]
  }

  // funct3 and operand order that branch if (a cond b).
  function CmpOp(c: Cond, a: int, b: int): (int, int, int)
  {
    match c
    case EQ => (0, a, b)
    case NE => (1, a, b)
    case LT => (4, a, b)
    case GE => (5, a, b)
    case GT => (4, b, a)
    case LE => (5, b, a)
  }

  function BraSeq(s: Operand, m: Middle, dimm: int): seq<Insn>
    requires OperandOk(s) && MiddleOk(m) && IsWord(dimm)
  {
    OpxSeq(s, Ldw, RA0) + MidSeq(m, Imm(dimm), Ldw, RA1)
  }

  function CmpSite(c: Cond, a: int, b: int, target: nat): Item
  {
    var o := CmpOp(c, a, b);
    Site(BrCond, o.0, o.1, o.2, TDis(target))
  }

  function CompItems(i: Inst, pc: nat, n: nat, nmac: nat): seq<Item>
    requires InstOk(i, n, nmac)
  {
    match i
    case MovW(s, d) => Insns(OpxSeq(s, Ldw, RA0) + OpxSeq(d, Stw, RA0))
    case Arith(op, s, m, d) => Insns(ArithSeq(op, s, m, d))
    case BrW(c, s, m, dimm, t) => SchedItems(t, pc) + Insns(BraSeq(s, m, dimm)) + [CmpSite(c, RA0, RA1, t)]
    case Jmp(t) => SchedItems(t, pc) + [Site(BrJ, 0, 0, 0, TDis(t))]
    case Other(items) => items
  }
}
