// The code emitted for one instruction of the word subset does what the
// interpreter does.
module Sim {
  import opened Basics
  import opened Rv64
  import opened CodeRun
  import opened LoadConst
  import opened Relax
  import opened Dis

  // -- memory -------------------------------------------------------------------

  // The two memories differ at most in the VM's own registers.
  ghost predicate Agree(m1: Mem, m2: Mem, e: Env)
  {
    forall b :: !InReg(b, e) ==> Byte(m1, b) == Byte(m2, b)
  }

  lemma {:induction false} LoadAgree(m1: Mem, m2: Mem, a: int, end: int, e: Env)
    requires Agree(m1, m2, e)
    requires forall b :: a <= b < end ==> !InReg(b, e)
    ensures Load(m1, a, end) == Load(m2, a, end)
    decreases end - a
  {
    if a < end {
      assert !InReg(a, e);
      LoadAgree(m1, m2, a + 1, end, e);
    }
  }

  lemma {:induction false} StoreAgree(m1: Mem, m2: Mem, a: int, end: int, v: int, e: Env)
    requires Agree(m1, m2, e)
    ensures Agree(Store(m1, a, end, v), Store(m2, a, end, v), e)
    decreases end - a
  {
    if a < end {
      var x := (v % 256) as byte;
      StoreAgree(m1[U64(a) := x], m2[U64(a) := x], a + 1, end, v / 256, e);
    }
  }

  // A store leaves every byte outside its range alone.
  lemma {:induction false} StoreFrame(m: Mem, a: int, end: int, v: int, c: int)
    requires forall b :: a <= b < end ==> U64(b) != U64(c)
    ensures Byte(Store(m, a, end, v), c) == Byte(m, c)
    decreases end - a
  {
    if a < end {
      assert U64(a) != U64(c);
      StoreFrame(m[U64(a) := (v % 256) as byte], a + 1, end, v / 256, c);
    }
  }

  lemma {:induction false} LoadSame(m1: Mem, m2: Mem, a: int, end: int)
    requires forall b :: a <= b < end ==> Byte(m1, b) == Byte(m2, b)
    ensures Load(m1, a, end) == Load(m2, a, end)
    decreases end - a
  {
    if a < end {
      assert Byte(m1, a) == Byte(m2, a);
      LoadSame(m1, m2, a + 1, end);
    }
  }

  // A store clear of R leaves IC alone.
  lemma StoreKeepsIC(m: Mem, a: int, v: int, e: Env)
    requires EnvOk(e) && Clear(a, e)
    ensures Load32s(Store64(m, a, v), e.reg + OREGIC) == Load32s(m, e.reg + OREGIC)
  {
    var m' := Store64(m, a, v);
    var ic := e.reg + OREGIC;
    forall c | ic <= c < ic + 4 ensures Byte(m', c) == Byte(m, c) {
      assert InReg(c, e);
      forall b | a <= b < a + 8 ensures U64(b) != U64(c) {
        assert !InReg(b, e);
      }
      StoreFrame(m, a, a + 8, v, c);
    }
    LoadSame(m', m, ic, ic + 4);
  }

  // Addresses are taken modulo 2^64.
  lemma {:induction false} LoadCongruent(m: Mem, a: int, b: int, n: nat)
    requires U64(a) == U64(b)
    ensures Load(m, a, a + n) == Load(m, b, b + n)
    decreases n
  {
    if n > 0 {
      NextCongruent(a, b);
      LoadCongruent(m, a + 1, b + 1, n - 1);
    }
  }

  lemma {:induction false} StoreCongruent(m: Mem, a: int, b: int, n: nat, v: int)
    requires U64(a) == U64(b)
    ensures Store(m, a, a + n, v) == Store(m, b, b + n, v)
    decreases n
  {
    if n > 0 {
      NextCongruent(a, b);
      StoreCongruent(m[U64(a) := (v % 256) as byte], a + 1, b + 1, n - 1, v / 256);
    }
  }

  lemma NextCongruent(a: int, b: int)
    requires U64(a) == U64(b)
    ensures U64(a + 1) == U64(b + 1)
  {
  }

  // A stored 32-bit value is read back.
  lemma {:induction false} LoadStore(m: Mem, a: int, end: int, v: int)
    requires a <= end <= a + 8
    ensures Load(Store(m, a, end, v), a, end) == v % Pow256(end - a)
    decreases end - a
  {
    if a < end {
      var m1 := m[U64(a) := (v % 256) as byte];
      forall b | a + 1 <= b < end ensures U64(b) != U64(a) {
        NotWrapped(a, b);
      }
      StoreFrame(m1, a + 1, end, v / 256, a);
      LoadStore(m1, a + 1, end, v / 256);
      ModDigit(v, Pow256(end - (a + 1)));
    }
  }

  lemma NotWrapped(a: int, b: int)
    requires a < b < a + 8
    ensures U64(b) != U64(a)
  {
  }

  function Pow256(n: int): (p: int)
    ensures p >= 1
    decreases n
  {
    if n <= 0 then 1 else 256 * Pow256(n - 1)
  }

  lemma ModDigit(v: int, p: int)
    requires p >= 1
    ensures v % (256 * p) == v % 256 + 256 * (v / 256 % p)
  {
    var q := v / 256;
    var d := q / p;
    assert q == p * d + q % p;
    assert v == 256 * (p * d + q % p) + v % 256;
    Assoc(256, p, d);
    assert v == (256 * p) * d + (v % 256 + 256 * (q % p));
    ModUnique(v, d, v % 256 + 256 * (q % p), 256 * p);
  }

  lemma StoreLoad32(m: Mem, a: int, v: int)
    ensures Load32s(Store32(m, a, v), a) == W32(v)
  {
    LoadStore(m, a, a + 4, v);
    assert Pow256(4) == TWO32 by {
      assert Pow256(1) == 256;
      assert Pow256(2) == 256 * Pow256(1);
      assert Pow256(3) == 256 * Pow256(2);
    }
  }

  lemma StoreLoad64(m: Mem, a: int, v: int)
    requires IsWord(v)
    ensures Load64(Store64(m, a, v), a) == v
  {
    LoadStore(m, a, a + 8, v);
    Pow256Is64();
    W64OfU64(v);
  }

  lemma W64OfU64(v: int)
    requires IsWord(v)
    ensures W64(U64(v)) == v
  {
  }

  lemma Pow256Is64()
    ensures Pow256(8) == TWO64
  {
    assert Pow256(1) == 256;
    assert Pow256(2) == 256 * Pow256(1);
    assert Pow256(3) == 256 * Pow256(2);
    assert Pow256(4) == 256 * Pow256(3);
    assert Pow256(5) == 256 * Pow256(4);
    assert Pow256(6) == 256 * Pow256(5);
    assert Pow256(7) == 256 * Pow256(6);
  }

  // -- registers ------------------------------------------------------------------

  // Only the listed registers changed.
  predicate Same(r: Regs, r': Regs, ch: set<int>)
  {
    forall i :: 0 < i < 32 && i !in ch ==> r'[i] == r[i]
  }

  lemma ExecLi(x: Effect, r: int, v: int, m: Machine)
    requires IsRV(x)
    requires 0 < r < 32 && IsWord(v)
    ensures AllStraight(LiSeq(r, v))
    ensures var m' := ExecAll(x, LiSeq(r, v), m);
            m'.mem == m.mem && m'.regs[r] == v && Same(m.regs, m'.regs, {r})
  {
    LiRuns(x, r, v, m);
  }

  // RCON = base register + offset.
  lemma ExecBig(x: Effect, off: int, rbase: int, m: Machine)
    requires IsRV(x)
    requires IsWord(off) && 0 < rbase < 32 && rbase != RCON
    ensures var s := LiSeq(RCON, off) + [Reg(ADD, RCON, RCON, rbase)];
            AllStraight(s)
            && var m' := ExecAll(x, s, m);
               m'.mem == m.mem && m'.regs[RCON] == W64(off + m.regs[rbase]) && Same(m.regs, m'.regs, {RCON})
  {
    ExecLi(x, RCON, off, m);
    var a, b := LiSeq(RCON, off), Reg(ADD, RCON, RCON, rbase);
    ExecAllConcat(x, a, [b], m);
    ExecAllOne(x, b, ExecAll(x, a, m));
    assert x(b, ExecAll(x, a, m)) == Exec(b, ExecAll(x, a, m));
    AllStraightConcat(a, [b]);
  }

  lemma U64OfW64(x: int)
    ensures U64(W64(x)) == U64(x)
  {
  }

  // A 64-bit load at base register + offset, any offset.
  lemma ExecLoad(x: Effect, off: int, rbase: int, r: int, m: Machine)
    requires IsRV(x)
    requires IsWord(off) && 0 < rbase < 32 && rbase != RCON && 0 < r < 32
    ensures AllStraight(MemSeq(Ldw, off, rbase, r))
    ensures var m' := ExecAll(x, MemSeq(Ldw, off, rbase, r), m);
            m'.mem == m.mem && m'.regs[r] == Load64(m.mem, m.regs[rbase] + off) && Same(m.regs, m'.regs, {r, RCON})
  {
    if IsImm12(off) {
      ExecAllOne(x, Ld(r, rbase, off), m);
      assert x(Ld(r, rbase, off), m) == Exec(Ld(r, rbase, off), m);
    } else {
      var a, b := LiSeq(RCON, off) + [Reg(ADD, RCON, RCON, rbase)], Ld(r, RCON, 0);
      assert MemSeq(Ldw, off, rbase, r) == a + [b];
      ExecBig(x, off, rbase, m);
      var m1 := ExecAll(x, a, m);
      ExecAllConcat(x, a, [b], m);
      ExecAllOne(x, b, m1);
      assert x(b, m1) == Exec(b, m1);
      AllStraightConcat(a, [b]);
      U64OfW64(off + m.regs[rbase]);
      LoadCongruent(m.mem, W64(off + m.regs[rbase]) + 0, m.regs[rbase] + off, 8);
    }
  }

  lemma ExecStore(x: Effect, off: int, rbase: int, r: int, m: Machine)
    requires IsRV(x)
    requires IsWord(off) && 0 < rbase < 32 && rbase != RCON && 0 < r < 32 && r != RCON
    ensures AllStraight(MemSeq(Stw, off, rbase, r))
    ensures var m' := ExecAll(x, MemSeq(Stw, off, rbase, r), m);
            m'.mem == Store64(m.mem, m.regs[rbase] + off, m.regs[r]) && Same(m.regs, m'.regs, {RCON})
  {
    if IsImm12(off) {
      ExecAllOne(x, Sd(r, rbase, off), m);
      assert x(Sd(r, rbase, off), m) == Exec(Sd(r, rbase, off), m);
    } else {
      var a, b := LiSeq(RCON, off) + [Reg(ADD, RCON, RCON, rbase)], Sd(r, RCON, 0);
      assert MemSeq(Stw, off, rbase, r) == a + [b];
      ExecBig(x, off, rbase, m);
      var m1 := ExecAll(x, a, m);
      ExecAllConcat(x, a, [b], m);
      ExecAllOne(x, b, m1);
      assert x(b, m1) == Exec(b, m1);
      AllStraightConcat(a, [b]);
      U64OfW64(off + m.regs[rbase]);
      StoreCongruent(m.mem, W64(off + m.regs[rbase]) + 0, m.regs[rbase] + off, 8, m.regs[r]);
    }
  }

  // The cached pointers.
  predicate Cached(r: Regs, e: Env) { r[RFP] == e.fp && r[RMP] == e.mp && r[RREG] == e.reg }

  // Loading an operand: r gets the word the interpreter reads.
  lemma ExecSource(x: Effect, o: Operand, r: int, e: Env, m: Machine)
    requires IsRV(x)
    requires OperandOk(o) && Cached(m.regs, e) && (r == RA0 || r == RA1)
    ensures AllStraight(OpxSeq(o, Ldw, r))
    ensures var m' := ExecAll(x, OpxSeq(o, Ldw, r), m);
            m'.mem == m.mem && m'.regs[r] == Source(o, e, m.mem) && Same(m.regs, m'.regs, {r, RCON, RTA})
  {
    if o.IndFP? || o.IndMP? {
      var rbase := if o.IndFP? then RFP else RMP;
      assert OpxSeq(o, Ldw, r) == IndSeq(Ldw, o.f, o.s, rbase, r);
      ExecIndirect(x, o.f, o.s, rbase, r, m);
    } else {
      ExecDirect(x, o, r, e, m);
    }
  }

  lemma ExecDirect(x: Effect, o: Operand, r: int, e: Env, m: Machine)
    requires IsRV(x)
    requires OperandOk(o) && Cached(m.regs, e) && (r == RA0 || r == RA1)
    requires o.FP? || o.MP? || o.Imm?
    ensures AllStraight(OpxSeq(o, Ldw, r))
    ensures var m' := ExecAll(x, OpxSeq(o, Ldw, r), m);
            m'.mem == m.mem && m'.regs[r] == Source(o, e, m.mem) && Same(m.regs, m'.regs, {r, RCON})
  {
    if o.Imm? {
      ExecLi(x, r, o.v, m);
    } else {
      var rbase := if o.FP? then RFP else RMP;
      assert OpxSeq(o, Ldw, r) == MemSeq(Ldw, o.ind, rbase, r);
      ExecLoad(x, o.ind, rbase, r, m);
    }
  }

  lemma ExecIndirect(x: Effect, f: int, s: int, rbase: int, r: int, m: Machine)
    requires IsRV(x)
    requires IsWord(f) && IsWord(s) && 0 < rbase < 32 && rbase != RCON && (r == RA0 || r == RA1)
    ensures AllStraight(IndSeq(Ldw, f, s, rbase, r))
    ensures var m' := ExecAll(x, IndSeq(Ldw, f, s, rbase, r), m);
            && m'.mem == m.mem && m'.regs[r] == Load64(m.mem, Load64(m.mem, m.regs[rbase] + f) + s)
            && Same(m.regs, m'.regs, {r, RCON, RTA})
  {
    ExecLoad(x, f, rbase, RTA, m);
    var m1 := ExecAll(x, MemSeq(Ldw, f, rbase, RTA), m);
    ExecLoad(x, s, RTA, r, m1);
    ExecAllConcat(x, MemSeq(Ldw, f, rbase, RTA), MemSeq(Ldw, s, RTA, r), m);
    AllStraightConcat(MemSeq(Ldw, f, rbase, RTA), MemSeq(Ldw, s, RTA, r));
  }

  // Storing RA0 to the destination.
  lemma ExecDest(x: Effect, d: Operand, e: Env, m: Machine)
    requires IsRV(x)
    requires OperandOk(d) && !d.Imm? && Cached(m.regs, e)
    ensures AllStraight(OpxSeq(d, Stw, RA0))
    ensures var m' := ExecAll(x, OpxSeq(d, Stw, RA0), m);
            m'.mem == Store64(m.mem, Addr(d, e, m.mem), m.regs[RA0]) && Same(m.regs, m'.regs, {RCON, RTA})
  {
    if d.IndFP? || d.IndMP? {
      var rbase := if d.IndFP? then RFP else RMP;
      assert OpxSeq(d, Stw, RA0) == IndSeq(Stw, d.f, d.s, rbase, RA0);
      ExecStoreIndirect(x, d.f, d.s, rbase, m);
    } else {
      ExecDestDirect(x, d, e, m);
    }
  }

  lemma ExecDestDirect(x: Effect, d: Operand, e: Env, m: Machine)
    requires IsRV(x)
    requires OperandOk(d) && (d.FP? || d.MP?) && Cached(m.regs, e)
    ensures AllStraight(OpxSeq(d, Stw, RA0))
    ensures var m' := ExecAll(x, OpxSeq(d, Stw, RA0), m);
            m'.mem == Store64(m.mem, Addr(d, e, m.mem), m.regs[RA0]) && Same(m.regs, m'.regs, {RCON})
  {
    var rbase := if d.FP? then RFP else RMP;
    assert OpxSeq(d, Stw, RA0) == MemSeq(Stw, d.ind, rbase, RA0);
    ExecStore(x, d.ind, rbase, RA0, m);
  }

  lemma ExecStoreIndirect(x: Effect, f: int, s: int, rbase: int, m: Machine)
    requires IsRV(x)
    requires IsWord(f) && IsWord(s) && 0 < rbase < 32 && rbase != RCON
    ensures AllStraight(IndSeq(Stw, f, s, rbase, RA0))
    ensures var m' := ExecAll(x, IndSeq(Stw, f, s, rbase, RA0), m);
            && m'.mem == Store64(m.mem, Load64(m.mem, m.regs[rbase] + f) + s, m.regs[RA0])
            && Same(m.regs, m'.regs, {RCON, RTA})
  {
    ExecLoad(x, f, rbase, RTA, m);
    var m1 := ExecAll(x, MemSeq(Ldw, f, rbase, RTA), m);
    ExecStore(x, s, RTA, RA0, m1);
    ExecAllConcat(x, MemSeq(Ldw, f, rbase, RTA), MemSeq(Stw, s, RTA, RA0), m);
    AllStraightConcat(MemSeq(Ldw, f, rbase, RTA), MemSeq(Stw, s, RTA, RA0));
  }

  // The middle operand, d the destination it defaults to.
  lemma ExecMiddle(x: Effect, mi: Middle, d: Operand, r: int, e: Env, m: Machine)
    requires IsRV(x)
    requires MiddleOk(mi) && OperandOk(d) && Cached(m.regs, e) && (r == RA0 || r == RA1)
    ensures AllStraight(MidSeq(mi, d, Ldw, r))
    ensures var m' := ExecAll(x, MidSeq(mi, d, Ldw, r), m);
            && m'.mem == m.mem && m'.regs[r] == Mid(mi, Source(d, e, m.mem), e, m.mem)
            && Same(m.regs, m'.regs, {r, RCON, RTA})
  {
    match mi
    case XNone => ExecSource(x, d, r, e, m);
    case XImm(v) => ExecLi(x, r, v, m);
    case XFP(off) => ExecLoad(x, off, RFP, r, m);
    case XMP(off) => ExecLoad(x, off, RMP, r, m);
  }

  // -- arithmetic -------------------------------------------------------------------

  lemma W32OfW64(x: int)
    ensures W32(W64(x)) == W32(x)
  {
    var k := (W64(x) - x) / TWO64;
    assert W64(x) == x + TWO32 * (TWO32 * k);
    W32Shift(x, TWO32 * k);
  }

  lemma W32OfU64(x: int)
    ensures W32(U64(x)) == W32(x)
  {
    var k := (U64(x) - x) / TWO64;
    assert U64(x) == x + TWO32 * (TWO32 * k);
    W32Shift(x, TWO32 * k);
  }

  // The low half of a product depends only on the low halves.
  lemma W32OfProduct(x: int, y: int)
    ensures W32(U64(x) * U64(y)) == W32(x * y)
  {
    var a, b := -(x / TWO64), -(y / TWO64);
    assert U64(x) == x + TWO64 * a && U64(y) == y + TWO64 * b;
    ProductShift(x, y, TWO64, a, b);
    var k := x * b + y * a + TWO64 * a * b;
    assert TWO64 * k == TWO32 * (TWO32 * k);
    W32Shift(x * y, TWO32 * k);
  }

  lemma ProductShift(x: int, y: int, t: int, a: int, b: int)
    ensures (x + t * a) * (y + t * b) == x * y + t * (x * b + y * a + t * a * b)
  {
    calc {
      (x + t * a) * (y + t * b);
      x * y + x * (t * b) + (t * a) * y + (t * a) * (t * b);
      { assert x * (t * b) == t * (x * b); assert (t * a) * y == t * (y * a);
        assert (t * a) * (t * b) == t * (t * a * b); }
      x * y + t * (x * b) + t * (y * a) + t * (t * a * b);
      x * y + t * (x * b + y * a + t * a * b);
    }
  }

  // The operation's instructions leave the interpreter's result in RA0.
  lemma ExecOp(x: Effect, op: ArithOp, mv: int, sv: int, m: Machine)
    requires IsRV(x)
    requires if op == MulW then m.regs[RA0] == mv && m.regs[RA1] == sv else m.regs[RA1] == mv && m.regs[RA0] == sv
    ensures AllStraight(OpSeq(op))
    ensures var m' := ExecAll(x, OpSeq(op), m);
            m'.mem == m.mem && m'.regs == m.regs[RA0 := ArithValue(op, mv, sv)]
  {
    match op
    case AddW =>
      W32OfW64(mv + sv);
      ExecAllOne(x, OpSeq(op)[0], m);
      assert x(OpSeq(op)[0], m) == Exec(OpSeq(op)[0], m);
    case SubW =>
      W32OfW64(mv - sv);
      ExecAllOne(x, OpSeq(op)[0], m);
      assert x(OpSeq(op)[0], m) == Exec(OpSeq(op)[0], m);
    case MulW =>
      W32OfU64(U64(mv) * U64(sv));
      W32OfProduct(mv, sv);
      ExecAllOne(x, OpSeq(op)[0], m);
      assert x(OpSeq(op)[0], m) == Exec(OpSeq(op)[0], m);
    case _ => ExecLogic(x, op, mv, sv, m);
  }

  lemma ExecLogic(x: Effect, op: ArithOp, mv: int, sv: int, m: Machine)
    requires IsRV(x)
    requires op == AndW || op == OrW || op == XorW
    requires m.regs[RA1] == mv && m.regs[RA0] == sv
    ensures AllStraight(OpSeq(op))
    ensures var m' := ExecAll(x, OpSeq(op), m);
            m'.mem == m.mem && m'.regs == m.regs[RA0 := ArithValue(op, mv, sv)]
  {
    if op == AndW {
      LogicThenSext(x, Reg(AND, RA0, RA1, RA0), And64(mv, sv), m);
    } else if op == OrW {
      LogicThenSext(x, Reg(OR, RA0, RA1, RA0), Or64(mv, sv), m);
    } else {
      LogicThenSext(x, Reg(XOR, RA0, RA1, RA0), Xor64(mv, sv), m);
    }
  }

  lemma LogicThenSext(x: Effect, i: Insn, v: int, m: Machine)
    requires IsRV(x)
    requires Exec(i, m).regs == m.regs[RA0 := W64(v)] && Exec(i, m).mem == m.mem
    ensures var m' := ExecAll(x, [i, Addiw(RA0, RA0, 0)], m);
            m'.mem == m.mem && m'.regs == m.regs[RA0 := W32(v)]
  {
    var m1 := x(i, m);
    assert m1 == Exec(i, m);
    ExecAllTwo(x, i, Addiw(RA0, RA0, 0), m);
    W32OfW64(v);
    assert x(Addiw(RA0, RA0, 0), m1) == Exec(Addiw(RA0, RA0, 0), m1);
    assert Exec(Addiw(RA0, RA0, 0), m1).regs == m1.regs[RA0 := W32(W64(v) + 0)];
  }

  // The whole of movw: RV code and interpreter write the same word to the
  // same place.
  lemma ExecMov(x: Effect, s: Operand, d: Operand, e: Env, m: Machine)
    requires IsRV(x)
    requires OperandOk(s) && OperandOk(d) && !d.Imm? && Cached(m.regs, e)
    ensures var code := OpxSeq(s, Ldw, RA0) + OpxSeq(d, Stw, RA0);
            AllStraight(code)
            && var m' := ExecAll(x, code, m);
               Cached(m'.regs, e) && m'.mem == Store64(m.mem, Addr(d, e, m.mem), Source(s, e, m.mem))
  {
    var a, b := OpxSeq(s, Ldw, RA0), OpxSeq(d, Stw, RA0);
    ExecSource(x, s, RA0, e, m);
    ExecDest(x, d, e, ExecAll(x, a, m));
    ExecAllConcat(x, a, b, m);
    AllStraightConcat(a, b);
  }

  // Both operands loaded, in either order.
  lemma ExecOperands(x: Effect, op: ArithOp, s: Operand, mi: Middle, d: Operand, e: Env, m: Machine)
    requires IsRV(x)
    requires OperandOk(s) && MiddleOk(mi) && OperandOk(d) && Cached(m.regs, e)
    ensures var code := if op == MulW then OpxSeq(s, Ldw, RA1) + MidSeq(mi, d, Ldw, RA0)
                        else MidSeq(mi, d, Ldw, RA1) + OpxSeq(s, Ldw, RA0);
            AllStraight(code)
            && var m' := ExecAll(x, code, m);
               && Cached(m'.regs, e) && m'.mem == m.mem
               && m'.regs[if op == MulW then RA1 else RA0] == Source(s, e, m.mem)
               && m'.regs[if op == MulW then RA0 else RA1] == Mid(mi, Source(d, e, m.mem), e, m.mem)
  {
    if op == MulW {
      var a, b := OpxSeq(s, Ldw, RA1), MidSeq(mi, d, Ldw, RA0);
      ExecSource(x, s, RA1, e, m);
      ExecMiddle(x, mi, d, RA0, e, ExecAll(x, a, m));
      ExecAllConcat(x, a, b, m);
      AllStraightConcat(a, b);
    } else {
      var a, b := MidSeq(mi, d, Ldw, RA1), OpxSeq(s, Ldw, RA0);
      ExecMiddle(x, mi, d, RA1, e, m);
      ExecSource(x, s, RA0, e, ExecAll(x, a, m));
      ExecAllConcat(x, a, b, m);
      AllStraightConcat(a, b);
    }
  }

  lemma ExecArith(x: Effect, op: ArithOp, s: Operand, mi: Middle, d: Operand, e: Env, m: Machine)
    requires IsRV(x)
    requires OperandOk(s) && MiddleOk(mi) && OperandOk(d) && !d.Imm? && Cached(m.regs, e)
    ensures AllStraight(ArithSeq(op, s, mi, d))
    ensures var m' := ExecAll(x, ArithSeq(op, s, mi, d), m);
            && Cached(m'.regs, e)
            && m'.mem == Store64(m.mem, Addr(d, e, m.mem),
                                 ArithValue(op, Mid(mi, Source(d, e, m.mem), e, m.mem), Source(s, e, m.mem)))
  {
    var a := if op == MulW then OpxSeq(s, Ldw, RA1) + MidSeq(mi, d, Ldw, RA0)
             else MidSeq(mi, d, Ldw, RA1) + OpxSeq(s, Ldw, RA0);
    var b, c := OpSeq(op), OpxSeq(d, Stw, RA0);
    ExecOperands(x, op, s, mi, d, e, m);
    var m1 := ExecAll(x, a, m);
    ExecOp(x, op, Mid(mi, Source(d, e, m.mem), e, m.mem), Source(s, e, m.mem), m1);
    var m2 := ExecAll(x, b, m1);
    ExecDest(x, d, e, m2);
    ExecAllConcat(x, a, b, m);
    ExecAllConcat(x, a + b, c, m);
    AllStraightConcat(a, b);
    AllStraightConcat(a + b, c);
  }

  // Branch operands: the source in RA0, the middle in RA1.
  lemma ExecBra(x: Effect, s: Operand, mi: Middle, dimm: int, e: Env, m: Machine)
    requires IsRV(x)
    requires OperandOk(s) && MiddleOk(mi) && IsWord(dimm) && Cached(m.regs, e)
    ensures AllStraight(BraSeq(s, mi, dimm))
    ensures var m' := ExecAll(x, BraSeq(s, mi, dimm), m);
            && Cached(m'.regs, e) && m'.mem == m.mem
            && m'.regs[RA0] == Source(s, e, m.mem) && m'.regs[RA1] == Mid(mi, dimm, e, m.mem)
  {
    var a, b := OpxSeq(s, Ldw, RA0), MidSeq(mi, Imm(dimm), Ldw, RA1);
    ExecSource(x, s, RA0, e, m);
    ExecMiddle(x, mi, Imm(dimm), RA1, e, ExecAll(x, a, m));
    ExecAllConcat(x, a, b, m);
    AllStraightConcat(a, b);
  }

  // The comparison the site makes is the instruction's.
  lemma CmpTaken(c: Cond, a: int, b: int, r: Regs, ra: int, rb: int)
    requires 0 < ra < 32 && 0 < rb < 32 && r[ra] == a && r[rb] == b
    ensures var o := CmpOp(c, ra, rb);
            IsCond(o.0) && IsReg(o.1) && IsReg(o.2)
            && (Taken(o.0, Get(r, o.1), Get(r, o.2)) <==> Holds2(c, a, b))
  {
  }

  // -- the two memories ---------------------------------------------------------------

  lemma AgreeWord(m1: Mem, m2: Mem, a: int, e: Env)
    requires Agree(m1, m2, e) && Clear(a, e)
    ensures Load64(m1, a) == Load64(m2, a)
  {
    LoadAgree(m1, m2, a, a + 8, e);
  }

  // Safe operands are the same word at the same place in both memories.
  lemma AgreeOperand(o: Operand, m1: Mem, m2: Mem, e: Env)
    requires Agree(m1, m2, e) && OperandSafe(o, e, m2)
    ensures Source(o, e, m1) == Source(o, e, m2)
    ensures !o.Imm? ==> Addr(o, e, m1) == Addr(o, e, m2) && Clear(Addr(o, e, m2), e)
  {
    match o
    case FP(ind) => AgreeWord(m1, m2, e.fp + ind, e);
    case MP(ind) => AgreeWord(m1, m2, e.mp + ind, e);
    case Imm(_) =>
    case IndFP(f, s) => AgreeWord(m1, m2, e.fp + f, e); AgreeWord(m1, m2, Load64(m2, e.fp + f) + s, e);
    case IndMP(f, s) => AgreeWord(m1, m2, e.mp + f, e); AgreeWord(m1, m2, Load64(m2, e.mp + f) + s, e);
  }

  lemma AgreeMiddle(mi: Middle, dst: int, m1: Mem, m2: Mem, e: Env)
    requires Agree(m1, m2, e) && MiddleSafe(mi, e)
    ensures Mid(mi, dst, e, m1) == Mid(mi, dst, e, m2)
  {
    match mi
    case XFP(off) => AgreeWord(m1, m2, e.fp + off, e);
    case XMP(off) => AgreeWord(m1, m2, e.mp + off, e);
    case _ =>
  }

  // Machine and interpreter state correspond: frame and module memory are the
  // same, the VM registers are cached, and R.IC is the quantum.
  ghost predicate Rel(m: Machine, st: State, e: Env)
  {
    Cached(m.regs, e) && Agree(m.mem, st.mem, e) && Load32s(m.mem, e.reg + OREGIC) == st.ic
  }

  // The same word stored at the same safe place keeps the correspondence.
  lemma RelStore(m: Machine, m': Machine, st: State, e: Env, a: int, v: int, pc: nat)
    requires EnvOk(e) && Rel(m, st, e) && Clear(a, e)
    requires Cached(m'.regs, e) && m'.mem == Store64(m.mem, a, v)
    ensures Rel(m', State(pc, st.ic, Store64(st.mem, a, v)), e)
  {
    StoreAgree(m.mem, st.mem, a, a + 8, v, e);
    StoreKeepsIC(m.mem, a, v, e);
  }
}
