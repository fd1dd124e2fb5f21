// The word shifts shlw, shrw and lsrw: what the compiler emits for them, and
// when that is what the interpreter does.
module Shift {
  import opened Basics
  import opened Rv64
  import opened CodeRun
  import opened LoadConst
  import opened Relax
  import opened Layout
  import opened Dis
  import opened Sim
  import opened Program

  datatype ShiftOp = ShlW | ShrW | LsrW

  function U32(x: int): (r: int)
    ensures 0 <= r < TWO32
  {
    x % TWO32
  }

  // The interpreter's result: the middle word as 32 bits, signed for shrw only,
  // shifted by the source modulo 64, and the low 32 bits sign-extended.
  function ShiftValue(op: ShiftOp, m: int, s: int): int
  {
    match op
    case ShlW => W32(U64(U32(m) * Pow2(s % 64)))
    case ShrW => W32(W32(m) / Pow2(s % 64))
    case LsrW => W32(U32(m) / Pow2(s % 64))
  }

  // -- what is emitted ----------------------------------------------------------------

  function HalfLoad(op: ShiftOp): MemOp { if op == ShrW then Ldw32s else Ldw32 }

  function ShiftReg(op: ShiftOp): RegOp { if op == ShlW then SLL else if op == ShrW then SRA else SRL }

  function ShiftSeq(op: ShiftOp, s: Operand, m: Middle, d: Operand): seq<Insn>
    requires OperandOk(s) && MiddleOk(m) && OperandOk(d)
  {
    MidSeq(m, d, HalfLoad(op), RA1) + OpxSeq(s, Ldw, RA0)
    + [Reg(ShiftReg(op), RA0, RA1, RA0), Addiw(RA0, RA0, 0)] + OpxSeq(d, Stw, RA0)
  }

  // What is loaded as the middle operand: half of its word, but an immediate as
  // it is.
  function Half(op: ShiftOp, w: int): int { if op == ShrW then W32(w) else U32(w) }

  function Loaded(op: ShiftOp, mi: Middle, w: int): int { if mi.XImm? then w else Half(op, w) }

  // What the emitted code computes.
  function ShiftCode(op: ShiftOp, a: int, s: int): int { W32(Alu(ShiftReg(op), a, s)) }

  // -- when the two agree ---------------------------------------------------------------

  // A negative immediate shifted right as unsigned, by anything but nothing.
  predicate Strays(op: ShiftOp, mi: Middle, s: int)
  {
    op == LsrW && mi.XImm? && mi.v < 0 && s % 64 != 0
  }

  lemma ShlAgrees(a: int, w: int, p: int)
    requires U32(a) == U32(w)
    ensures W32(W64(a * p)) == W32(U64(U32(w) * p))
  {
    var k := a / TWO32;
    assert a == U32(w) + TWO32 * k;
    W32OfW64(a * p);
    W32OfU64(U32(w) * p);
    assert a * p == U32(w) * p + TWO32 * (k * p) by { Distributes(U32(w), k, p); }
    W32Shift(U32(w) * p, k * p);
  }

  lemma Distributes(u: int, k: int, p: int)
    ensures (u + TWO32 * k) * p == u * p + TWO32 * (k * p)
  {
  }

  lemma LsrAgrees(a: int, w: int, p: int)
    requires p >= 1
    requires a == U32(w) || (0 <= a == w < TWO32) || (p == 1 && a == w)
    ensures W32(W64(U64(a) / p)) == W32(U32(w) / p)
  {
    W32OfW64(U64(a) / p);
    if 0 <= a < TWO32 {
      ModUnique(a, 0, a, TWO64);
      ModUnique(a, 0, a, TWO32);
    } else {
      LowOnly(w);
    }
  }

  lemma LowOnly(w: int)
    ensures W32(U64(w)) == W32(U32(w))
  {
    W32OfU64(w);
    assert w == U32(w) + TWO32 * (w / TWO32);
    W32Shift(U32(w), w / TWO32);
  }

  // A multiple of p comes out of a division by p.
  lemma DivSplits(p: int, q: int, v: int)
    requires p >= 1
    ensures (p * q + v) / p == q + v / p
  {
    var f, r := v / p, v % p;
    assert p * q + v == p * (q + f) + r;
    ModUnique(p * q + v, q + f, r, p);
  }

  // A small negative number divided rounds down to another.
  lemma DivDown(v: int, p: int)
    requires -0x8000 <= v < 0 && p >= 1
    ensures -0x8000 <= v / p < 0
    ensures p >= 0x8000 && v > -p ==> v / p == -1
  {
    var q, r := v / p, v % p;
    assert v == p * q + r;
    if q >= 0 { Grows(p, 0, q); }
    if q < -0x8000 { Grows(p, q, -0x8001); }
    if q < -1 { Grows(p, q, -2); }
  }

  lemma Grows(p: int, a: int, b: int)
    requires p >= 1 && a <= b
    ensures p * a <= p * b
  {
  }

  lemma Powers()
    ensures Pow2(32) == TWO32 && Pow2(64) == TWO64
  {
    Pow2Of12();
    Pow2Of52();
    Pow2Add(52, 12);
    Pow2Add(12, 12);
    Pow2Add(24, 8);
    assert Pow2(8) == 256;
  }

  lemma NearPowers(k: nat)
    requires 1 <= k <= 32
    ensures var p, r := Pow2(k), Pow2(32 - k);
            p >= 1 && 1 <= r <= TWO31 && p * r == TWO32 && p * (TWO32 * r) == TWO64
  {
    var p, r := Pow2(k), Pow2(32 - k);
    Powers();
    Pow2Add(k, 32 - k);
    Pow2Monotone(32 - k, 31);
    Pow2Add(31, 1);
    assert Pow2(1) == 2 * Pow2(0);
    Regroup(p, r);
  }

  lemma Regroup(p: int, r: int)
    requires p * r == TWO32
    ensures p * (TWO32 * r) == TWO64
  {
    assert p * (TWO32 * r) == TWO32 * (p * r);
  }

  // By up to 32: the interpreter shifts zeros in, the code ones.
  lemma StraysNear(v: int, k: nat)
    requires -0x8000 <= v < 0 && 1 <= k <= 32
    ensures W32(W64(U64(v) / Pow2(k))) != W32(U32(v) / Pow2(k))
  {
    NearPowers(k);
    NearQuotients(v, Pow2(k), Pow2(32 - k));
  }

  lemma Unsigned(v: int)
    requires -0x8000 <= v < 0
    ensures U64(v) == TWO64 + v && U32(v) == TWO32 + v
  {
  }

  lemma NearQuotients(v: int, p: int, r: int)
    requires -0x8000 <= v < 0 && p >= 1 && 1 <= r <= TWO31 && p * r == TWO32 && p * (TWO32 * r) == TWO64
    ensures W32(W64(U64(v) / p)) != W32(U32(v) / p)
  {
    Unsigned(v);
    DivSplits(p, TWO32 * r, v);
    DivSplits(p, r, v);
    DivDown(v, p);
    assert U64(v) / p == TWO32 * r + v / p && U32(v) / p == r + v / p;
    LowHalves(r, v / p);
  }

  lemma LowHalves(r: int, f: int)
    requires -0x8000 <= f < 0 && 1 <= r <= TWO31
    ensures W32(W64(TWO32 * r + f)) == f && W32(r + f) == r + f
  {
    W32OfW64(TWO32 * r + f);
    W32Shift(f, r);
  }

  lemma FarPowers(k: nat)
    requires 33 <= k < 64
    ensures var p, q := Pow2(k), Pow2(64 - k);
            p >= TWO32 && 2 <= q <= TWO31 && p * q == TWO64
  {
    Powers();
    Pow2Add(k, 64 - k);
    Pow2Monotone(32, k);
    Pow2Monotone(1, 64 - k);
    Pow2Monotone(64 - k, 31);
    Pow2Add(31, 1);
    assert Pow2(1) == 2 * Pow2(0);
  }

  // By more: the interpreter has nothing left, the code ones.
  lemma StraysFar(v: int, k: nat)
    requires -0x8000 <= v < 0 && 33 <= k < 64
    ensures W32(W64(U64(v) / Pow2(k))) != W32(U32(v) / Pow2(k))
  {
    FarPowers(k);
    FarQuotients(v, Pow2(k), Pow2(64 - k));
  }

  lemma FarQuotients(v: int, p: int, q: int)
    requires -0x8000 <= v < 0 && p >= TWO32 && 2 <= q <= TWO31 && p * q == TWO64
    ensures W32(W64(U64(v) / p)) != W32(U32(v) / p)
  {
    Unsigned(v);
    DivSplits(p, q, v);
    DivDown(v, p);
    ModUnique(U32(v), 0, U32(v), p);
    assert U64(v) / p == q - 1 && U32(v) / p == 0;
    W32OfW64(q - 1);
  }

  // The code computes the interpreter's value exactly when it does not stray: an
  // immediate middle operand is loaded sign-extended whatever the instruction,
  // and lsrw by an amount other than a multiple of 64 brings the sign down.
  lemma ShiftAgrees(op: ShiftOp, mi: Middle, w: int, s: int)
    requires MiddleOk(mi) && IsWord(w) && (mi.XImm? ==> w == mi.v)
    ensures ShiftCode(op, Loaded(op, mi, w), s) == ShiftValue(op, w, s) <==> !Strays(op, mi, s)
  {
    var a, k := Loaded(op, mi, w), s % 64;
    match op
    case ShlW => ShlAgrees(a, w, Pow2(k));
    case ShrW =>
      if mi.XImm? { W32Id(w); }
      W32OfW64(a / Pow2(k));
    case LsrW =>
      if Strays(op, mi, s) {
        if k <= 32 { StraysNear(w, k); } else { StraysFar(w, k); }
      } else {
        LsrAgrees(a, w, Pow2(k));
      }
  }

  // For instance, lsrw of the immediate -1 by 1.
  lemma StraysAtOne()
    ensures ShiftCode(LsrW, Loaded(LsrW, XImm(-1), -1), 1) == -1 && ShiftValue(LsrW, -1, 1) == 0x7FFF_FFFF
  {
    assert Pow2(1) == 2 * Pow2(0);
    Unsigned(-1);
    assert U64(-1) / 2 == TWO63 - 1 && U32(-1) / 2 == TWO31 - 1;
    LowHalves(TWO31, -1);
    assert TWO32 * TWO31 == TWO63;
  }

  // -- running it -----------------------------------------------------------------------

  function HalfRead(op: ShiftOp, mem: Mem, a: int): int { if op == ShrW then Load32s(mem, a) else Load32(mem, a) }

  lemma {:induction false} LoadSplit(m: Mem, a: int, b: int, c: int)
    requires a <= b <= c
    ensures Load(m, a, c) == Load(m, a, b) + Pow256(b - a) * Load(m, b, c)
    ensures Load(m, a, b) < Pow256(b - a)
    decreases b - a
  {
    if a < b {
      LoadSplit(m, a + 1, b, c);
      LoadConst.Assoc(256, Pow256(b - a - 1), Load(m, b, c));
      Distribute(Load(m, a + 1, b), Pow256(b - a - 1), Load(m, b, c));
    }
  }

  lemma Distribute(x: int, p: int, y: int)
    ensures 256 * (x + p * y) == 256 * x + (256 * p) * y
  {
  }

  lemma Pow256Is32()
    ensures Pow256(4) == TWO32
  {
    assert Pow256(1) == 256;
    assert Pow256(2) == 256 * Pow256(1);
    assert Pow256(3) == 256 * Pow256(2);
  }

  // A half load is half of the word.
  lemma HalfOfWord(op: ShiftOp, mem: Mem, a: int)
    ensures HalfRead(op, mem, a) == Half(op, Load64(mem, a))
  {
    var x, y := Load(mem, a, a + 4), Load(mem, a + 4, a + 8);
    LoadSplit(mem, a, a + 4, a + 8);
    Pow256Is32();
    W32OfW64(x + TWO32 * y);
    W32Shift(x, y);
    LowOfWord(x, y);
  }

  lemma LowOfWord(x: int, y: int)
    requires 0 <= x < TWO32
    ensures U32(W64(x + TWO32 * y)) == x
  {
    var k := (W64(x + TWO32 * y) - (x + TWO32 * y)) / TWO64;
    assert W64(x + TWO32 * y) == x + TWO32 * (y + TWO32 * k);
    ModShift(x, y + TWO32 * k, TWO32);
  }

  lemma HalfCongruent(op: ShiftOp, mem: Mem, a: int, b: int)
    requires U64(a) == U64(b)
    ensures HalfRead(op, mem, a) == HalfRead(op, mem, b)
  {
    LoadCongruent(mem, a, b, 4);
  }

  lemma HalfExec(x: Effect, op: ShiftOp, off: int, rbase: int, r: int, m: Machine)
    requires IsRV(x) && 0 < r < 32
    ensures var m' := x(Access(HalfLoad(op), off, rbase, r), m);
            m'.mem == m.mem && m'.regs == m.regs[r := HalfRead(op, m.mem, Get(m.regs, rbase) + off)]
  {
    var i := Access(HalfLoad(op), off, rbase, r);
    assert x(i, m) == Exec(i, m);
  }

  // Half of the word at base register + offset.
  lemma ExecHalf(x: Effect, op: ShiftOp, off: int, rbase: int, r: int, m: Machine)
    requires IsRV(x) && IsWord(off) && 0 < rbase < 32 && rbase != RCON && 0 < r < 32
    ensures AllStraight(MemSeq(HalfLoad(op), off, rbase, r))
    ensures var m' := ExecAll(x, MemSeq(HalfLoad(op), off, rbase, r), m);
            && m'.mem == m.mem && Same(m.regs, m'.regs, {r, RCON})
            && m'.regs[r] == Half(op, Load64(m.mem, m.regs[rbase] + off))
  {
    HalfOfWord(op, m.mem, m.regs[rbase] + off);
    if IsImm12(off) {
      ExecAllOne(x, Access(HalfLoad(op), off, rbase, r), m);
      HalfExec(x, op, off, rbase, r, m);
    } else {
      ExecFarHalf(x, op, off, rbase, r, m);
    }
  }

  lemma ExecFarHalf(x: Effect, op: ShiftOp, off: int, rbase: int, r: int, m: Machine)
    requires IsRV(x) && IsWord(off) && !IsImm12(off) && 0 < rbase < 32 && rbase != RCON && 0 < r < 32
    ensures AllStraight(MemSeq(HalfLoad(op), off, rbase, r))
    ensures var m' := ExecAll(x, MemSeq(HalfLoad(op), off, rbase, r), m);
            && m'.mem == m.mem && Same(m.regs, m'.regs, {r, RCON})
            && m'.regs[r] == HalfRead(op, m.mem, m.regs[rbase] + off)
  {
    var a, b := LiSeq(RCON, off) + [Reg(ADD, RCON, RCON, rbase)], Access(HalfLoad(op), 0, RCON, r);
    assert MemSeq(HalfLoad(op), off, rbase, r) == a + [b];
    ExecBig(x, off, rbase, m);
    var m1 := ExecAll(x, a, m);
    ExecAllConcat(x, a, [b], m);
    ExecAllOne(x, b, m1);
    HalfExec(x, op, 0, RCON, r, m1);
    AllStraightConcat(a, [b]);
    U64OfW64(off + m.regs[rbase]);
    HalfCongruent(op, m.mem, W64(off + m.regs[rbase]) + 0, m.regs[rbase] + off);
  }

  lemma ExecHalfIndirect(x: Effect, op: ShiftOp, f: int, s: int, rbase: int, m: Machine)
    requires IsRV(x) && IsWord(f) && IsWord(s) && 0 < rbase < 32 && rbase != RCON
    ensures AllStraight(IndSeq(HalfLoad(op), f, s, rbase, RA1))
    ensures var m' := ExecAll(x, IndSeq(HalfLoad(op), f, s, rbase, RA1), m);
            && m'.mem == m.mem && Same(m.regs, m'.regs, {RA1, RCON, RTA})
            && m'.regs[RA1] == Half(op, Load64(m.mem, Load64(m.mem, m.regs[rbase] + f) + s))
  {
    var a, b := MemSeq(Ldw, f, rbase, RTA), MemSeq(HalfLoad(op), s, RTA, RA1);
    ExecLoad(x, f, rbase, RTA, m);
    ExecHalf(x, op, s, RTA, RA1, ExecAll(x, a, m));
    ExecAllConcat(x, a, b, m);
    AllStraightConcat(a, b);
  }

  // The destination as the middle operand.
  lemma ExecHalfDest(x: Effect, op: ShiftOp, d: Operand, e: Env, m: Machine)
    requires IsRV(x) && OperandOk(d) && !d.Imm? && Cached(m.regs, e)
    ensures AllStraight(OpxSeq(d, HalfLoad(op), RA1))
    ensures var m' := ExecAll(x, OpxSeq(d, HalfLoad(op), RA1), m);
            && m'.mem == m.mem && Same(m.regs, m'.regs, {RA1, RCON, RTA})
            && m'.regs[RA1] == Half(op, Source(d, e, m.mem))
  {
    match d
    case FP(ind) => ExecHalf(x, op, ind, RFP, RA1, m);
    case MP(ind) => ExecHalf(x, op, ind, RMP, RA1, m);
    case IndFP(f, s) => ExecHalfIndirect(x, op, f, s, RFP, m);
    case IndMP(f, s) => ExecHalfIndirect(x, op, f, s, RMP, m);
  }

  lemma ExecHalfMiddle(x: Effect, op: ShiftOp, mi: Middle, d: Operand, e: Env, m: Machine)
    requires IsRV(x) && MiddleOk(mi) && OperandOk(d) && !d.Imm? && Cached(m.regs, e)
    ensures AllStraight(MidSeq(mi, d, HalfLoad(op), RA1))
    ensures var m' := ExecAll(x, MidSeq(mi, d, HalfLoad(op), RA1), m);
            && m'.mem == m.mem && Same(m.regs, m'.regs, {RA1, RCON, RTA})
            && m'.regs[RA1] == Loaded(op, mi, Mid(mi, Source(d, e, m.mem), e, m.mem))
  {
    match mi
    case XNone => ExecHalfDest(x, op, d, e, m);
    case XImm(v) => ExecLi(x, RA1, v, m);
    case XFP(off) => ExecHalf(x, op, off, RFP, RA1, m);
    case XMP(off) => ExecHalf(x, op, off, RMP, RA1, m);
  }

  lemma ExecShiftOp(x: Effect, op: ShiftOp, m: Machine)
    requires IsRV(x)
    ensures var code := [Reg(ShiftReg(op), RA0, RA1, RA0), Addiw(RA0, RA0, 0)];
            AllStraight(code)
            && var m' := ExecAll(x, code, m);
               m'.mem == m.mem && m'.regs == m.regs[RA0 := ShiftCode(op, m.regs[RA1], m.regs[RA0])]
  {
    var i, j := Reg(ShiftReg(op), RA0, RA1, RA0), Addiw(RA0, RA0, 0);
    ExecAllTwo(x, i, j, m);
    var m1 := x(i, m);
    assert m1 == Exec(i, m);
    assert x(j, m1) == Exec(j, m1);
  }

  lemma ExecShiftOperands(x: Effect, op: ShiftOp, s: Operand, mi: Middle, d: Operand, e: Env, m: Machine)
    requires IsRV(x) && OperandOk(s) && MiddleOk(mi) && OperandOk(d) && !d.Imm? && Cached(m.regs, e)
    ensures var code := MidSeq(mi, d, HalfLoad(op), RA1) + OpxSeq(s, Ldw, RA0);
            AllStraight(code)
            && var m' := ExecAll(x, code, m);
               && Cached(m'.regs, e) && m'.mem == m.mem && m'.regs[RA0] == Source(s, e, m.mem)
               && m'.regs[RA1] == Loaded(op, mi, Mid(mi, Source(d, e, m.mem), e, m.mem))
  {
    var a, b := MidSeq(mi, d, HalfLoad(op), RA1), OpxSeq(s, Ldw, RA0);
    ExecHalfMiddle(x, op, mi, d, e, m);
    ExecSource(x, s, RA0, e, ExecAll(x, a, m));
    ExecAllConcat(x, a, b, m);
    AllStraightConcat(a, b);
  }

  lemma ExecShift(x: Effect, op: ShiftOp, s: Operand, mi: Middle, d: Operand, e: Env, m: Machine)
    requires IsRV(x) && OperandOk(s) && MiddleOk(mi) && OperandOk(d) && !d.Imm? && Cached(m.regs, e)
    ensures AllStraight(ShiftSeq(op, s, mi, d))
    ensures var m' := ExecAll(x, ShiftSeq(op, s, mi, d), m);
            && Cached(m'.regs, e)
            && m'.mem == Store64(m.mem, Addr(d, e, m.mem),
                 ShiftCode(op, Loaded(op, mi, Mid(mi, Source(d, e, m.mem), e, m.mem)), Source(s, e, m.mem)))
  {
    var a := MidSeq(mi, d, HalfLoad(op), RA1) + OpxSeq(s, Ldw, RA0);
    var b, c := [Reg(ShiftReg(op), RA0, RA1, RA0), Addiw(RA0, RA0, 0)], OpxSeq(d, Stw, RA0);
    ExecShiftOperands(x, op, s, mi, d, e, m);
    var m1 := ExecAll(x, a, m);
    ExecShiftOp(x, op, m1);
    var m2 := ExecAll(x, b, m1);
    ExecDest(x, d, e, m2);
    ExecAllConcat(x, a, b, m);
    ExecAllConcat(x, a + b, c, m);
    AllStraightConcat(a, b);
    AllStraightConcat(a + b, c);
  }

  lemma ShiftReaches(x: Effect, fetch: Fetcher, base: int, prog: seq<Inst>, p: Image, pos: nat -> nat, e: Env,
                     m: Machine, i: nat, op: ShiftOp, s: Operand, mi: Middle, d: Operand)
    returns (k: nat, m': Machine)
    requires Ready(x, fetch, base, prog, p, pos, e) && i < |prog|
    requires m.pc == base + 4 * pos(p.starts[i]) && Cached(m.regs, e)
    requires OperandOk(s) && MiddleOk(mi) && OperandOk(d) && !d.Imm?
    requires prog[i] == Other(Insns(ShiftSeq(op, s, mi, d)))
    ensures Run(x, fetch, m, k) == Some(m') && m'.pc == base + 4 * pos(p.starts[i + 1]) && Cached(m'.regs, e)
    ensures m'.mem == Store64(m.mem, Addr(d, e, m.mem),
              ShiftCode(op, Loaded(op, mi, Mid(mi, Source(d, e, m.mem), e, m.mem)), Source(s, e, m.mem)))
  {
    var code := ShiftSeq(op, s, mi, d);
    ExecShift(x, op, s, mi, d, e, m);
    k := |code|;
    m' := InstRuns(x, fetch, base, prog, p, pos, e, i, code, m);
  }

  // A compiled shift: run from patch[st.pc] it ends at the next instruction,
  // the destination holding the code's value and nothing else changed; that is
  // the interpreter's value exactly when the shift does not stray.
  lemma ShiftRuns(x: Effect, fetch: Fetcher, base: int, prog: seq<Inst>, p: Image, pos: nat -> nat, e: Env,
                  m: Machine, st: State, op: ShiftOp, s: Operand, mi: Middle, d: Operand)
    returns (k: nat, m': Machine, v: int)
    requires Ready(x, fetch, base, prog, p, pos, e) && InStep(p, pos, base, e, m, st) && st.pc < |prog|
    requires OperandOk(s) && MiddleOk(mi) && OperandOk(d) && !d.Imm?
    requires prog[st.pc] == Other(Insns(ShiftSeq(op, s, mi, d)))
    requires OperandSafe(s, e, st.mem) && MiddleSafe(mi, e) && OperandSafe(d, e, st.mem)
    ensures Run(x, fetch, m, k) == Some(m')
    ensures InStep(p, pos, base, e, m', State(st.pc + 1, st.ic, Store64(st.mem, Addr(d, e, st.mem), v)))
    ensures v == ShiftValue(op, Mid(mi, Source(d, e, st.mem), e, st.mem), Source(s, e, st.mem))
            <==> !Strays(op, mi, Source(s, e, st.mem))
  {
    k, m' := ShiftReaches(x, fetch, base, prog, p, pos, e, m, st.pc, op, s, mi, d);
    AgreeOperand(s, m.mem, st.mem, e);
    AgreeOperand(d, m.mem, st.mem, e);
    AgreeMiddle(mi, Source(d, e, st.mem), m.mem, st.mem, e);
    var w := Mid(mi, Source(d, e, st.mem), e, st.mem);
    v := ShiftCode(op, Loaded(op, mi, w), Source(s, e, st.mem));
    ShiftAgrees(op, mi, w, Source(s, e, st.mem));
    RelStore(m, m', st, e, Addr(d, e, st.mem), v, st.pc + 1);
  }
}
