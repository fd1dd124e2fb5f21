// A whole module: the image the compiler lays out for a Dis program, and the
// proof that running its code is running the program.
module Program {
  import opened Basics
  import opened Rv64
  import opened CodeRun
  import opened LoadConst
  import opened Relax
  import opened Layout
  import opened Dis
  import opened Sim

  const EBREAK := 0x0010_0073

  // A program the loader accepts, and the words of its macros.
  predicate ProgOk(prog: seq<Inst>, macros: seq<seq<int>>)
  {
    |macros| == NMACRO && forall i :: 0 <= i < |prog| ==> InstOk(prog[i], |prog|, NMACRO)
  }

  // What the first k instructions become.
  function ProgItems(prog: seq<Inst>, macros: seq<seq<int>>, k: nat): seq<Item>
    requires ProgOk(prog, macros) && k <= |prog|
  {
    if k == 0 then [] else ProgItems(prog, macros, k - 1) + CompItems(prog[k - 1], k - 1, |prog|, NMACRO)
  }

  function Raws(ws: seq<int>): (r: seq<Item>)
    ensures |r| == |ws| && forall k :: 0 <= k < |ws| ==> r[k] == Raw(ws[k])
  {
    seq(|ws|, k requires 0 <= k < |ws| => Raw(ws[k]))
  }

  function MacItems(macros: seq<seq<int>>, k: nat): seq<Item>
    requires k <= |macros|
  {
    if k == 0 then [] else MacItems(macros, k - 1) + Raws(macros[k - 1])
  }

  // The instructions, a trap against falling off their end, and the macros.
  function ImageOf(prog: seq<Inst>, macros: seq<seq<int>>): Image
    requires ProgOk(prog, macros)
  {
    Image(ProgItems(prog, macros, |prog|) + [Raw(EBREAK)] + MacItems(macros, |macros|),
          Starts(prog, macros), MacStarts(prog, macros))
  }

  function Starts(prog: seq<Inst>, macros: seq<seq<int>>): (s: seq<nat>)
    requires ProgOk(prog, macros)
    ensures |s| == |prog| + 1
    ensures forall i :: 0 <= i <= |prog| ==> s[i] == |ProgItems(prog, macros, i)|
  {
    seq(|prog| + 1, i requires 0 <= i <= |prog| => |ProgItems(prog, macros, i)|)
  }

  function MacStarts(prog: seq<Inst>, macros: seq<seq<int>>): (s: seq<nat>)
    requires ProgOk(prog, macros)
    ensures |s| == |macros|
    ensures forall i :: 0 <= i < |macros| ==> s[i] == |ProgItems(prog, macros, |prog|)| + 1 + |MacItems(macros, i)|
  {
    seq(|macros|, i requires 0 <= i < |macros| => |ProgItems(prog, macros, |prog|)| + 1 + |MacItems(macros, i)|)
  }

  // -- the image is well formed --------------------------------------------------------

  // Instruction i's items are where the start table says.
  lemma {:induction false} ProgPrefix(prog: seq<Inst>, macros: seq<seq<int>>, i: nat, k: nat)
    requires ProgOk(prog, macros) && i < k <= |prog|
    ensures var a, c := ProgItems(prog, macros, i), CompItems(prog[i], i, |prog|, NMACRO);
            var r := ProgItems(prog, macros, k);
            |a| + |c| <= |r| && r[|a|..|a| + |c|] == c && |ProgItems(prog, macros, i + 1)| == |a| + |c|
    decreases k
  {
    var a, c := ProgItems(prog, macros, i), CompItems(prog[i], i, |prog|, NMACRO);
    if i < k - 1 {
      ProgPrefix(prog, macros, i, k - 1);
      PrefixAppend(ProgItems(prog, macros, k - 1), CompItems(prog[k - 1], k - 1, |prog|, NMACRO), a, c);
    } else {
      SliceOfSuffix(a, c);
    }
  }

  lemma PrefixAppend<T>(r: seq<T>, z: seq<T>, a: seq<T>, c: seq<T>)
    requires |a| + |c| <= |r| && r[|a|..|a| + |c|] == c
    ensures (r + z)[|a|..|a| + |c|] == c
  {
    SliceOfPrefix(r, z, |a|, |a| + |c|);
  }

  lemma InstItems(prog: seq<Inst>, macros: seq<seq<int>>, i: nat)
    requires ProgOk(prog, macros) && i < |prog|
    ensures var p := ImageOf(prog, macros);
            var c := CompItems(prog[i], i, |prog|, NMACRO);
            && p.starts[i] + |c| == p.starts[i + 1] <= |p.items|
            && p.items[p.starts[i]..p.starts[i] + |c|] == c
  {
    var p := ImageOf(prog, macros);
    ProgPrefix(prog, macros, i, |prog|);
    var a, c := ProgItems(prog, macros, i), CompItems(prog[i], i, |prog|, NMACRO);
    var tail := [Raw(EBREAK)] + MacItems(macros, |macros|);
    assert p.items == ProgItems(prog, macros, |prog|) + tail;
    SliceOfPrefix(ProgItems(prog, macros, |prog|), tail, |a|, |a| + |c|);
  }

  // Items of an instruction name only targets that exist.
  predicate ItemOk(it: Item, n: nat)
  {
    it.Site? ==>
      && (IsCondKind(it.kind) ==> IsCond(it.f3) && IsReg(it.rs1) && IsReg(it.rs2))
      && match it.target { case TDis(pc) => pc <= n case TMac(i) => i < NMACRO }
  }

  predicate ItemsOk(items: seq<Item>, n: nat) { forall k :: 0 <= k < |items| ==> ItemOk(items[k], n) }

  lemma CompItemsOk(i: Inst, pc: nat, n: nat)
    requires InstOk(i, n, NMACRO)
    ensures ItemsOk(CompItems(i, pc, n, NMACRO), n)
  {
    match i
    case MovW(_, _) =>
    case Arith(_, _, _, _) =>
    case BrW(c, _, _, _, t) => SchedItemsOk(t, pc, n);
    case Jmp(t) => SchedItemsOk(t, pc, n);
    case Other(items) =>
      forall k | 0 <= k < |items| ensures ItemOk(items[k], n) {
        assert OtherOk(items[k], n, NMACRO);
      }
  }

  lemma SchedItemsOk(t: nat, pc: nat, n: nat)
    ensures ItemsOk(SchedItems(t, pc), n)
  {
  }

  lemma {:induction false} ProgItemsOk(prog: seq<Inst>, macros: seq<seq<int>>, k: nat)
    requires ProgOk(prog, macros) && k <= |prog|
    ensures ItemsOk(ProgItems(prog, macros, k), |prog|)
  {
    if k > 0 {
      ProgItemsOk(prog, macros, k - 1);
      CompItemsOk(prog[k - 1], k - 1, |prog|);
    }
  }

  lemma {:induction false} MacItemsOk(macros: seq<seq<int>>, k: nat, n: nat)
    requires k <= |macros|
    ensures ItemsOk(MacItems(macros, k), n)
    ensures |MacItems(macros, k)| <= |MacItems(macros, |macros|)|
    decreases k
  {
    if k > 0 {
      MacItemsOk(macros, k - 1, n);
    }
    MacMonotone(macros, k, |macros|);
  }

  lemma {:induction false} MacMonotone(macros: seq<seq<int>>, a: nat, b: nat)
    requires a <= b <= |macros|
    ensures |MacItems(macros, a)| <= |MacItems(macros, b)|
    decreases b - a
  {
    if a < b { MacMonotone(macros, a, b - 1); }
  }

  lemma {:induction false} ProgMonotone(prog: seq<Inst>, macros: seq<seq<int>>, a: nat, b: nat)
    requires ProgOk(prog, macros) && a <= b <= |prog|
    ensures |ProgItems(prog, macros, a)| <= |ProgItems(prog, macros, b)|
    decreases b - a
  {
    if a < b { ProgMonotone(prog, macros, a, b - 1); }
  }

  lemma ImageOfOk(prog: seq<Inst>, macros: seq<seq<int>>)
    requires ProgOk(prog, macros)
    ensures ImageOk(ImageOf(prog, macros))
  {
    var p := ImageOf(prog, macros);
    forall i | 0 <= i < |p.starts| ensures p.starts[i] <= |p.items| {
      ProgMonotone(prog, macros, i, |prog|);
    }
    forall i | 0 <= i < |p.macs| ensures p.macs[i] <= |p.items| {
      MacMonotone(macros, i, |macros|);
    }
    ProgItemsOk(prog, macros, |prog|);
    MacItemsOk(macros, |macros|, |prog|);
    ItemsSitesOk(p.items, p, |prog|);
  }

  lemma ItemsSitesOk(items: seq<Item>, p: Image, n: nat)
    requires ItemsOk(items, n) && |p.starts| == n + 1 && |p.macs| == NMACRO
    ensures forall i :: 0 <= i < |items| ==> SiteOk(items[i], p)
  {
    forall i | 0 <= i < |items| ensures SiteOk(items[i], p) {
      assert ItemOk(items[i], n);
    }
  }

  // -- one instruction -------------------------------------------------------------------

  // Instruction i's items are in the image where its start table says.
  ghost predicate InstAt(prog: seq<Inst>, p: Image, i: nat)
    requires i < |prog| && |p.starts| == |prog| + 1
  {
    InstOk(prog[i], |prog|, NMACRO)
    && var c := CompItems(prog[i], i, |prog|, NMACRO);
       p.starts[i] + |c| == p.starts[i + 1] <= |p.items| && p.items[p.starts[i]..p.starts[i] + |c|] == c
  }

  // The code of prog is in place and the VM's registers are where e says.
  ghost predicate Ready(x: Effect, fetch: Fetcher, base: int, prog: seq<Inst>, p: Image, pos: nat -> nat, e: Env)
  {
    && IsRV(x) && Laid(fetch, base, p, pos) && EnvOk(e)
    && |p.starts| == |prog| + 1
    && (forall i: nat {:trigger InstAt(prog, p, i)} :: i < |prog| ==> InstAt(prog, p, i))
  }

  // The machine is at Dis instruction st.pc with the same memory.
  ghost predicate InStep(p: Image, pos: nat -> nat, base: int, e: Env, m: Machine, st: State)
  {
    st.pc < |p.starts| && m.pc == base + 4 * pos(p.starts[st.pc]) && Rel(m, st, e)
  }

  lemma OpxNonEmpty(o: Operand, op: MemOp, r: int)
    requires OperandOk(o) && IsReg(r)
    ensures |OpxSeq(o, op, r)| > 0
  {
    if o.Imm? { LiWellFormed(r, o.v); }
  }

  // An instruction that is straight-line code: after it the machine is at the
  // next instruction.
  lemma InstRuns(x: Effect, fetch: Fetcher, base: int, prog: seq<Inst>, p: Image, pos: nat -> nat, e: Env,
                 i: nat, s: seq<Insn>, m: Machine) returns (m': Machine)
    requires Ready(x, fetch, base, prog, p, pos, e) && i < |prog|
    requires InstAt(prog, p, i) ==> CompItems(prog[i], i, |prog|, NMACRO) == Insns(s)
    requires AllStraight(s) && m.pc == base + 4 * pos(p.starts[i])
    ensures Run(x, fetch, m, |s|) == Some(m') && m' == ExecAll(x, s, m) && m'.pc == base + 4 * pos(p.starts[i + 1])
  {
    assert InstAt(prog, p, i);
    assert PlainAt(p, p.starts[i], s);
    PlainRuns(x, fetch, base, p, pos, p.starts[i], s, m);
    m' := ExecAll(x, s, m);
  }

  lemma SimMov(x: Effect, fetch: Fetcher, base: int, prog: seq<Inst>, p: Image, pos: nat -> nat, e: Env,
               m: Machine, st: State, s: Operand, d: Operand, st': State)
    returns (k: nat, m': Machine)
    requires Ready(x, fetch, base, prog, p, pos, e) && InStep(p, pos, base, e, m, st)
    requires st.pc < |prog| && prog[st.pc] == MovW(s, d) && OperandOk(s) && OperandOk(d) && !d.Imm?
    requires OperandSafe(s, e, st.mem) && OperandSafe(d, e, st.mem)
    requires st' == State(st.pc + 1, st.ic, Store64(st.mem, Addr(d, e, st.mem), Source(s, e, st.mem)))
    ensures k > 0 && Run(x, fetch, m, k) == Some(m') && InStep(p, pos, base, e, m', st')
  {
    k, m' := MovRuns(x, fetch, base, prog, p, pos, e, m, st.pc, s, d);
    AgreeOperand(s, m.mem, st.mem, e);
    AgreeOperand(d, m.mem, st.mem, e);
    RelStore(m, m', st, e, Addr(d, e, st.mem), Source(s, e, st.mem), st.pc + 1);
  }

  lemma MovRuns(x: Effect, fetch: Fetcher, base: int, prog: seq<Inst>, p: Image, pos: nat -> nat, e: Env,
                m: Machine, i: nat, s: Operand, d: Operand)
    returns (k: nat, m': Machine)
    requires Ready(x, fetch, base, prog, p, pos, e) && i < |prog| && prog[i] == MovW(s, d)
    requires m.pc == base + 4 * pos(p.starts[i]) && Cached(m.regs, e)
    requires OperandOk(s) && OperandOk(d) && !d.Imm?
    ensures k > 0 && Run(x, fetch, m, k) == Some(m') && m'.pc == base + 4 * pos(p.starts[i + 1])
    ensures Cached(m'.regs, e) && m'.mem == Store64(m.mem, Addr(d, e, m.mem), Source(s, e, m.mem))
  {
    var code := OpxSeq(s, Ldw, RA0) + OpxSeq(d, Stw, RA0);
    ExecMov(x, s, d, e, m);
    k := |code|;
    m' := InstRuns(x, fetch, base, prog, p, pos, e, i, code, m);
    OpxNonEmpty(s, Ldw, RA0);
  }

  lemma SimArith(x: Effect, fetch: Fetcher, base: int, prog: seq<Inst>, p: Image, pos: nat -> nat, e: Env,
                 m: Machine, st: State, op: ArithOp, s: Operand, mi: Middle, d: Operand, v: int, st': State)
    returns (k: nat, m': Machine)
    requires Ready(x, fetch, base, prog, p, pos, e) && InStep(p, pos, base, e, m, st)
    requires st.pc < |prog| && prog[st.pc] == Arith(op, s, mi, d)
    requires OperandOk(s) && MiddleOk(mi) && OperandOk(d) && !d.Imm?
    requires OperandSafe(s, e, st.mem) && MiddleSafe(mi, e) && OperandSafe(d, e, st.mem)
    requires v == ArithValue(op, Mid(mi, Source(d, e, st.mem), e, st.mem), Source(s, e, st.mem))
    requires st' == State(st.pc + 1, st.ic, Store64(st.mem, Addr(d, e, st.mem), v))
    ensures k > 0 && Run(x, fetch, m, k) == Some(m') && InStep(p, pos, base, e, m', st')
  {
    k, m' := ArithRuns(x, fetch, base, prog, p, pos, e, m, st.pc, op, s, mi, d);
    AgreeOperand(s, m.mem, st.mem, e);
    AgreeOperand(d, m.mem, st.mem, e);
    AgreeMiddle(mi, Source(d, e, m.mem), m.mem, st.mem, e);
    RelStore(m, m', st, e, Addr(d, e, st.mem), v, st.pc + 1);
  }

  lemma ArithRuns(x: Effect, fetch: Fetcher, base: int, prog: seq<Inst>, p: Image, pos: nat -> nat, e: Env,
                  m: Machine, i: nat, op: ArithOp, s: Operand, mi: Middle, d: Operand)
    returns (k: nat, m': Machine)
    requires Ready(x, fetch, base, prog, p, pos, e) && i < |prog| && prog[i] == Arith(op, s, mi, d)
    requires m.pc == base + 4 * pos(p.starts[i]) && Cached(m.regs, e)
    requires OperandOk(s) && MiddleOk(mi) && OperandOk(d) && !d.Imm?
    ensures k > 0 && Run(x, fetch, m, k) == Some(m') && m'.pc == base + 4 * pos(p.starts[i + 1])
    ensures Cached(m'.regs, e)
    ensures m'.mem == Store64(m.mem, Addr(d, e, m.mem),
                              ArithValue(op, Mid(mi, Source(d, e, m.mem), e, m.mem), Source(s, e, m.mem)))
  {
    var code := ArithSeq(op, s, mi, d);
    ExecArith(x, op, s, mi, d, e, m);
    k := |code|;
    m' := InstRuns(x, fetch, base, prog, p, pos, e, i, code, m);
    OpxNonEmpty(d, Stw, RA0);
  }

  // -- branches ---------------------------------------------------------------------------

  // The quantum after the branch at pc to target is counted.
  function Counted(ic: int, target: nat, pc: nat): int { if target <= pc then W32(ic - 1) else ic }

  lemma ExecCount(x: Effect, e: Env, m: Machine, st: State)
    requires IsRV(x) && EnvOk(e) && Rel(m, st, e)
    ensures AllStraight(CountSeq()) && |CountSeq()| == 3
    ensures var m' := ExecAll(x, CountSeq(), m);
            m'.regs == m.regs[RA0 := W32(st.ic - 1)] && Rel(m', st.(ic := W32(st.ic - 1)), e)
  {
    var ic := W32(st.ic - 1);
    var a, b, c := Lw(RA0, RREG, OREGIC), Addiw(RA0, RA0, -1), Sw(RA0, RREG, OREGIC);
    assert CountSeq() == [a, b] + [c];
    ExecAllTwo(x, a, b, m);
    var m1 := x(a, m);
    assert m1 == Exec(a, m);
    var m2 := x(b, m1);
    assert m2 == Exec(b, m1);
    assert m2.regs == m.regs[RA0 := ic] && m2.mem == m.mem;
    ExecAllConcat(x, [a, b], [c], m);
    ExecAllOne(x, c, m2);
    assert x(c, m2) == Exec(c, m2);
    StoreLoad32(m.mem, e.reg + OREGIC, ic);
    W32Id(ic);
    CountAgree(m.mem, st.mem, ic, e);
  }

  // R.IC is R's own: writing it is not seen by the program.
  lemma CountAgree(m1: Mem, m2: Mem, v: int, e: Env)
    requires EnvOk(e) && Agree(m1, m2, e)
    ensures Agree(Store32(m1, e.reg + OREGIC, v), m2, e)
  {
    var a := e.reg + OREGIC;
    forall c | !InReg(c, e) ensures Byte(Store32(m1, a, v), c) == Byte(m2, c) {
      forall b | a <= b < a + 4 ensures U64(b) != U64(c) {
        assert InReg(b, e);
      }
      StoreFrame(m1, a, a + 4, v, c);
    }
  }

  // The items of schedcheck: three to count, the skip, and the two it skips.
  lemma SchedShape(p: Image, k0: nat, target: nat, pc: nat)
    requires target <= pc
    requires k0 + |SchedItems(target, pc)| <= |p.items|
    requires p.items[k0..k0 + |SchedItems(target, pc)|] == SchedItems(target, pc)
    ensures |SchedItems(target, pc)| == 6 && k0 + 6 <= |p.items|
    ensures PlainAt(p, k0, CountSeq()) && |CountSeq()| == 3
    ensures p.items[k0 + 3] == Skip(4, RZERO, RA0, 2)
  {
    var c := SchedItems(target, pc);
    assert |CountSeq()| == 3 && |MemSeq(Stw, OREGFP, RREG, RFP)| == 1;
    assert |c| == 6;
    assert p.items[k0..k0 + 3] == p.items[k0..k0 + 6][..3] == c[..3];
    assert c[..3] == Insns(CountSeq());
    assert p.items[k0..k0 + 6][3] == c[3] == p.items[k0 + 3];
  }

  // schedcheck, while the quantum lasts: count, and skip the reschedule.
  lemma SimSched(x: Effect, fetch: Fetcher, base: int, p: Image, pos: nat -> nat, e: Env,
                 m: Machine, st: State, target: nat, k0: nat)
    returns (k: nat, m': Machine)
    requires IsRV(x) && Laid(fetch, base, p, pos) && EnvOk(e) && Rel(m, st, e) && m.pc == base + 4 * pos(k0)
    requires k0 + |SchedItems(target, st.pc)| <= |p.items|
    requires p.items[k0..k0 + |SchedItems(target, st.pc)|] == SchedItems(target, st.pc)
    requires target <= st.pc ==> W32(st.ic - 1) > 0
    ensures Run(x, fetch, m, k) == Some(m')
    ensures m'.pc == base + 4 * pos(k0 + |SchedItems(target, st.pc)|)
    ensures Rel(m', st.(ic := Counted(st.ic, target, st.pc)), e)
  {
    if target > st.pc {
      k, m' := 0, m;
    } else {
      SchedShape(p, k0, target, st.pc);
      k, m' := CountRuns(x, fetch, base, p, pos, e, m, st, k0);
    }
  }

  // The count, and the skip taken while the quantum lasts.
  lemma CountRuns(x: Effect, fetch: Fetcher, base: int, p: Image, pos: nat -> nat, e: Env,
                  m: Machine, st: State, k0: nat)
    returns (k: nat, m': Machine)
    requires IsRV(x) && Laid(fetch, base, p, pos) && EnvOk(e) && Rel(m, st, e) && m.pc == base + 4 * pos(k0)
    requires k0 + 6 <= |p.items| && PlainAt(p, k0, CountSeq()) && |CountSeq()| == 3
    requires p.items[k0 + 3] == Skip(4, RZERO, RA0, 2) && W32(st.ic - 1) > 0
    ensures Run(x, fetch, m, k) == Some(m') && m'.pc == base + 4 * pos(k0 + 6)
    ensures Rel(m', st.(ic := W32(st.ic - 1)), e)
  {
    ExecCount(x, e, m, st);
    var m1 := ExecAll(x, CountSeq(), m);
    PlainRuns(x, fetch, base, p, pos, k0, CountSeq(), m);
    assert StepAt(p, pos, k0 + 3) && StepAt(p, pos, k0 + 4) && StepAt(p, pos, k0 + 5);
    assert SkipAt(p, pos, k0 + 3);
    m' := SkipJumps(x, fetch, base, p, pos, k0 + 3, m1);
    RunAdd(x, fetch, m, 3, 1, m1);
    k := 4;
  }

  // A branch's items: schedcheck, plain code, and its site.
  lemma BranchShape(prog: seq<Inst>, p: Image, i: nat, target: nat, s: seq<Insn>, site: Item)
    requires i < |prog| && |p.starts| == |prog| + 1 && InstAt(prog, p, i)
    requires CompItems(prog[i], i, |prog|, NMACRO) == SchedItems(target, i) + Insns(s) + [site]
    ensures var k0 := p.starts[i];
            var k1 := k0 + |SchedItems(target, i)|;
            var k2 := k1 + |s|;
            && k2 + 1 == p.starts[i + 1] <= |p.items|
            && p.items[k0..k1] == SchedItems(target, i)
            && PlainAt(p, k1, s) && p.items[k2] == site
  {
    SplitItems(p.items, p.starts[i], SchedItems(target, i), Insns(s), site);
  }

  lemma SplitItems(items: seq<Item>, k0: nat, a: seq<Item>, b: seq<Item>, z: Item)
    requires k0 + |a| + |b| + 1 <= |items|
    requires items[k0..k0 + |a| + |b| + 1] == a + b + [z]
    ensures items[k0..k0 + |a|] == a
    ensures items[k0 + |a|..k0 + |a| + |b|] == b
    ensures items[k0 + |a| + |b|] == z
  {
    SliceOfSlice(items, k0, k0 + |a| + |b| + 1, 0, |a|);
    SliceOfSlice(items, k0, k0 + |a| + |b| + 1, |a|, |a| + |b|);
    assert (a + b + [z])[..|a|] == a;
    assert (a + b + [z])[|a|..|a| + |b|] == b;
    assert items[k0..k0 + |a| + |b| + 1][|a| + |b|] == items[k0 + |a| + |b|];
  }

  lemma SliceOfSlice<T>(s: seq<T>, lo: nat, hi: nat, i: nat, j: nat)
    requires lo <= hi <= |s| && i <= j <= hi - lo
    ensures s[lo..hi][i..j] == s[lo + i..lo + j]
  {
    forall k | 0 <= k < j - i ensures s[lo..hi][i..j][k] == s[lo + i..lo + j][k] {
      assert s[lo..hi][i..j][k] == s[lo..hi][i + k] == s[lo + (i + k)];
    }
  }

  lemma SimBranch(x: Effect, fetch: Fetcher, base: int, prog: seq<Inst>, p: Image, pos: nat -> nat, e: Env,
                  m: Machine, st: State, c: Cond, s: Operand, mi: Middle, dimm: int, t: nat, st': State)
    returns (k: nat, m': Machine)
    requires Ready(x, fetch, base, prog, p, pos, e) && InStep(p, pos, base, e, m, st)
    requires st.pc < |prog| && prog[st.pc] == BrW(c, s, mi, dimm, t)
    requires OperandOk(s) && MiddleOk(mi) && IsWord(dimm) && t < |prog|
    requires OperandSafe(s, e, st.mem) && MiddleSafe(mi, e)
    requires t <= st.pc ==> W32(st.ic - 1) > 0
    requires var go := Holds2(c, Source(s, e, st.mem), Mid(mi, dimm, e, st.mem));
             st' == State(if go then t else st.pc + 1, Counted(st.ic, t, st.pc), st.mem)
    ensures k > 0 && Run(x, fetch, m, k) == Some(m') && InStep(p, pos, base, e, m', st')
  {
    assert Bra(s, mi, dimm, e, st.mem);
    var n1, m2, k2 := BranchReach(x, fetch, base, prog, p, pos, e, m, st, c, s, mi, dimm, t);
    assert GotKey(0);
    var n3: nat;
    n3, m' := CmpJumps(x, fetch, base, p, pos, e, k2, c, t, m2);
    RunAdd(x, fetch, m, n1, n3, m2);
    k := n1 + n3;
  }

  // Up to the branch itself, at item k.
  lemma BranchReach(x: Effect, fetch: Fetcher, base: int, prog: seq<Inst>, p: Image, pos: nat -> nat, e: Env,
                    m: Machine, st: State, c: Cond, s: Operand, mi: Middle, dimm: int, t: nat)
    returns (n: nat, m': Machine, k: nat)
    requires Ready(x, fetch, base, prog, p, pos, e) && InStep(p, pos, base, e, m, st)
    requires st.pc < |prog| && prog[st.pc] == BrW(c, s, mi, dimm, t)
    requires Bra(s, mi, dimm, e, st.mem) && t < |prog|
    requires t <= st.pc ==> W32(st.ic - 1) > 0
    ensures Run(x, fetch, m, n) == Some(m') && m'.pc == base + 4 * pos(k)
    ensures Rel(m', st.(ic := Counted(st.ic, t, st.pc)), e)
    ensures Got(m'.regs, s, mi, dimm, e, st.mem)
    ensures SiteAt(p, k) && p.items[k] == CmpSite(c, RA0, RA1, t) && k + 1 == p.starts[st.pc + 1]
  {
    assert InstAt(prog, p, st.pc);
    var code := BranchPlace(prog, p, st.pc, c, s, mi, dimm, t, e, st.mem);
    var k0 := p.starts[st.pc];
    k := k0 + |SchedItems(t, st.pc)| + |code|;
    n, m' := BranchLoads(x, fetch, base, p, pos, e, m, st, t, k0, s, mi, dimm, code);
  }

  // The operands of a branch, well formed and readable.  Opened by BraKey(0).
  ghost predicate Bra(s: Operand, mi: Middle, dimm: int, e: Env, mem: Mem)
  {
    forall u: int {:trigger BraKey(u)} :: BraKey(u) ==>
      OperandOk(s) && MiddleOk(mi) && IsWord(dimm) && OperandSafe(s, e, mem) && MiddleSafe(mi, e)
  }

  // Their words are in RA0 and RA1.  Opened by GotKey(0).
  ghost predicate Got(r: Regs, s: Operand, mi: Middle, dimm: int, e: Env, mem: Mem)
  {
    forall u: int {:trigger GotKey(u)} :: GotKey(u) ==>
      r[RA0] == Source(s, e, mem) && r[RA1] == Mid(mi, dimm, e, mem)
  }

  predicate GotKey(u: int) { true }

  // The loads of a branch's operands.  Opened by BraKey(0).
  ghost predicate IsBra(code: seq<Insn>, s: Operand, mi: Middle, dimm: int)
  {
    forall u: int {:trigger BraKey(u)} :: BraKey(u) ==>
      OperandOk(s) && MiddleOk(mi) && IsWord(dimm) && code == BraSeq(s, mi, dimm)
  }

  predicate BraKey(u: int) { true }

  // Where the parts of a branch are.
  lemma BranchPlace(prog: seq<Inst>, p: Image, i: nat, c: Cond, s: Operand, mi: Middle, dimm: int, t: nat,
                    e: Env, mem: Mem)
    returns (code: seq<Insn>)
    requires i < |prog| && |p.starts| == |prog| + 1 && InstAt(prog, p, i) && prog[i] == BrW(c, s, mi, dimm, t)
    requires Bra(s, mi, dimm, e, mem)
    ensures IsBra(code, s, mi, dimm)
    ensures var k1 := p.starts[i] + |SchedItems(t, i)|;
            var k2 := k1 + |code|;
            && k2 + 1 == p.starts[i + 1] <= |p.items|
            && p.items[p.starts[i]..k1] == SchedItems(t, i)
            && PlainAt(p, k1, code) && p.items[k2] == CmpSite(c, RA0, RA1, t)
  {
    assert BraKey(0);
    code := BraSeq(s, mi, dimm);
    BranchShape(prog, p, i, t, code, CmpSite(c, RA0, RA1, t));
  }

  // schedcheck, then the operands: the source in RA0, the middle in RA1.
  lemma BranchLoads(x: Effect, fetch: Fetcher, base: int, p: Image, pos: nat -> nat, e: Env,
                    m: Machine, st: State, t: nat, k0: nat, s: Operand, mi: Middle, dimm: int, code: seq<Insn>)
    returns (k: nat, m': Machine)
    requires IsRV(x) && Laid(fetch, base, p, pos) && EnvOk(e) && Rel(m, st, e) && m.pc == base + 4 * pos(k0)
    requires Bra(s, mi, dimm, e, st.mem)
    requires k0 + |SchedItems(t, st.pc)| <= |p.items|
    requires p.items[k0..k0 + |SchedItems(t, st.pc)|] == SchedItems(t, st.pc)
    requires PlainAt(p, k0 + |SchedItems(t, st.pc)|, code) && IsBra(code, s, mi, dimm)
    requires t <= st.pc ==> W32(st.ic - 1) > 0
    ensures Run(x, fetch, m, k) == Some(m')
    ensures m'.pc == base + 4 * pos(k0 + |SchedItems(t, st.pc)| + |code|)
    ensures Rel(m', st.(ic := Counted(st.ic, t, st.pc)), e)
    ensures Got(m'.regs, s, mi, dimm, e, st.mem)
  {
    var k1 := k0 + |SchedItems(t, st.pc)|;
    var n1, m1 := SimSched(x, fetch, base, p, pos, e, m, st, t, k0);
    var n2: nat;
    n2, m' := OperandLoads(x, fetch, base, p, pos, e, m1, st.(ic := Counted(st.ic, t, st.pc)), k1, s, mi, dimm, code);
    RunAdd(x, fetch, m, n1, n2, m1);
    k := n1 + n2;
  }

  lemma OperandLoads(x: Effect, fetch: Fetcher, base: int, p: Image, pos: nat -> nat, e: Env,
                     m: Machine, st: State, k: nat, s: Operand, mi: Middle, dimm: int, code: seq<Insn>)
    returns (n: nat, m': Machine)
    requires IsRV(x) && Laid(fetch, base, p, pos) && EnvOk(e) && Rel(m, st, e) && m.pc == base + 4 * pos(k)
    requires Bra(s, mi, dimm, e, st.mem)
    requires PlainAt(p, k, code) && IsBra(code, s, mi, dimm)
    ensures n == |code| && Run(x, fetch, m, n) == Some(m')
    ensures m'.pc == base + 4 * pos(k + n) && Rel(m', st, e)
    ensures Got(m'.regs, s, mi, dimm, e, st.mem)
  {
    assert BraKey(0);
    ExecBra(x, s, mi, dimm, e, m);
    PlainRuns(x, fetch, base, p, pos, k, code, m);
    AgreeOperand(s, m.mem, st.mem, e);
    AgreeMiddle(mi, dimm, m.mem, st.mem, e);
    n, m' := |BraSeq(s, mi, dimm)|, ExecAll(x, BraSeq(s, mi, dimm), m);
  }

  // The compare-and-branch site at the end of a branch instruction.
  lemma CmpJumps(x: Effect, fetch: Fetcher, base: int, p: Image, pos: nat -> nat, e: Env,
                 k: nat, c: Cond, t: nat, m: Machine)
    returns (n: nat, m': Machine)
    requires IsRV(x) && Laid(fetch, base, p, pos) && Cached(m.regs, e)
    requires SiteAt(p, k) && p.items[k] == CmpSite(c, RA0, RA1, t) && t < |p.starts| && m.pc == base + 4 * pos(k)
    ensures n > 0 && Run(x, fetch, m, n) == Some(m') && m'.mem == m.mem && Cached(m'.regs, e)
    ensures m'.pc == base + 4 * pos(if Holds2(c, m.regs[RA0], m.regs[RA1]) then p.starts[t] else k + 1)
  {
    CmpTaken(c, m.regs[RA0], m.regs[RA1], m.regs, RA0, RA1);
    n, m' := SiteJumps(x, fetch, base, p, pos, k, m);
  }

  lemma SimJmp(x: Effect, fetch: Fetcher, base: int, prog: seq<Inst>, p: Image, pos: nat -> nat, e: Env,
               m: Machine, st: State, t: nat, st': State)
    returns (k: nat, m': Machine)
    requires Ready(x, fetch, base, prog, p, pos, e) && InStep(p, pos, base, e, m, st)
    requires st.pc < |prog| && prog[st.pc] == Jmp(t) && t < |prog|
    requires t <= st.pc ==> W32(st.ic - 1) > 0
    requires st' == State(t, Counted(st.ic, t, st.pc), st.mem)
    ensures k > 0 && Run(x, fetch, m, k) == Some(m') && InStep(p, pos, base, e, m', st')
  {
    var site := Site(BrJ, 0, 0, 0, TDis(t));
    assert InstAt(prog, p, st.pc);
    assert CompItems(prog[st.pc], st.pc, |prog|, NMACRO) == SchedItems(t, st.pc) + Insns([]) + [site];
    BranchShape(prog, p, st.pc, t, [], site);
    var n1, m1 := SimSched(x, fetch, base, p, pos, e, m, st, t, p.starts[st.pc]);
    var n2: nat;
    n2, m' := SiteJumps(x, fetch, base, p, pos, p.starts[st.pc] + |SchedItems(t, st.pc)|, m1);
    RunAdd(x, fetch, m, n1, n2, m1);
    k := n1 + n2;
  }

  // -- when the quantum runs out ---------------------------------------------------------

  // A store into R is not seen by the program, and one at R.FP leaves R.IC alone.
  lemma StoreFP(m: Mem, st: Mem, v: int, e: Env)
    requires EnvOk(e) && Agree(m, st, e)
    ensures Agree(Store64(m, e.reg + OREGFP, v), st, e)
    ensures Load32s(Store64(m, e.reg + OREGFP, v), e.reg + OREGIC) == Load32s(m, e.reg + OREGIC)
  {
    var a, ic := e.reg + OREGFP, e.reg + OREGIC;
    forall c | !InReg(c, e) ensures Byte(Store64(m, a, v), c) == Byte(st, c) {
      forall b | a <= b < a + 8 ensures U64(b) != U64(c) {
        assert InReg(b, e);
      }
      StoreFrame(m, a, a + 8, v, c);
    }
    forall c | ic <= c < ic + 4 ensures Byte(Store64(m, a, v), c) == Byte(m, c) {
      StoreFrame(m, a, a + 8, v, c);
    }
    LoadSame(Store64(m, a, v), m, ic, ic + 4);
  }

  lemma SchedRest(p: Image, k0: nat, target: nat, pc: nat)
    requires target <= pc
    requires k0 + |SchedItems(target, pc)| <= |p.items|
    requires p.items[k0..k0 + |SchedItems(target, pc)|] == SchedItems(target, pc)
    ensures k0 + 6 <= |p.items| && MemSeq(Stw, OREGFP, RREG, RFP) == [Sd(RFP, RREG, OREGFP)]
    ensures PlainAt(p, k0 + 4, [Sd(RFP, RREG, OREGFP)])
    ensures p.items[k0 + 5] == Site(BrCall, 0, 0, 0, TMac(MACRELQ))
  {
    var c := SchedItems(target, pc);
    assert |CountSeq()| == 3 && |c| == 6;
    assert c[4] == Ins(Sd(RFP, RREG, OREGFP)) && c[5] == Site(BrCall, 0, 0, 0, TMac(MACRELQ));
    assert p.items[k0..k0 + 6][4] == p.items[k0 + 4];
    assert p.items[k0..k0 + 6][5] == p.items[k0 + 5];
    assert p.items[k0 + 4..k0 + 5] == Insns([Sd(RFP, RREG, OREGFP)]);
  }

  // schedcheck, the quantum used up: R.FP is saved and MACRELQ is called; its
  // link is the word after the check, where the branch's own work starts.
  lemma SchedExpires(x: Effect, fetch: Fetcher, base: int, p: Image, pos: nat -> nat, e: Env,
                     m: Machine, st: State, target: nat, k0: nat)
    returns (k: nat, m': Machine)
    requires IsRV(x) && Laid(fetch, base, p, pos) && EnvOk(e) && Rel(m, st, e) && m.pc == base + 4 * pos(k0)
    requires k0 + |SchedItems(target, st.pc)| <= |p.items| && MACRELQ < |p.macs|
    requires p.items[k0..k0 + |SchedItems(target, st.pc)|] == SchedItems(target, st.pc)
    requires target <= st.pc && W32(st.ic - 1) <= 0
    ensures Run(x, fetch, m, k) == Some(m')
    ensures m'.pc == base + 4 * pos(p.macs[MACRELQ])
    ensures m'.regs[RLINK] == W64(base + 4 * pos(k0 + |SchedItems(target, st.pc)|))
    ensures Rel(m', st.(ic := W32(st.ic - 1)), e)
    ensures Load64(m'.mem, e.reg + OREGFP) == e.fp
  {
    SchedRest(p, k0, target, st.pc);
    var m2 := CountsDown(x, fetch, base, p, pos, e, m, st, target, k0);
    var n: nat;
    n, m' := Reschedules(x, fetch, base, p, pos, e, m2, st.(ic := W32(st.ic - 1)), k0 + 4);
    RunAdd(x, fetch, m, 4, n, m2);
    k := 4 + n;
  }

  // The count, and the skip not taken.
  lemma CountsDown(x: Effect, fetch: Fetcher, base: int, p: Image, pos: nat -> nat, e: Env,
                   m: Machine, st: State, target: nat, k0: nat)
    returns (m': Machine)
    requires IsRV(x) && Laid(fetch, base, p, pos) && EnvOk(e) && Rel(m, st, e) && m.pc == base + 4 * pos(k0)
    requires k0 + |SchedItems(target, st.pc)| <= |p.items|
    requires p.items[k0..k0 + |SchedItems(target, st.pc)|] == SchedItems(target, st.pc)
    requires target <= st.pc && W32(st.ic - 1) <= 0
    ensures Run(x, fetch, m, 4) == Some(m') && m'.pc == base + 4 * pos(k0 + 4)
    ensures Rel(m', st.(ic := W32(st.ic - 1)), e)
  {
    SchedShape(p, k0, target, st.pc);
    ExecCount(x, e, m, st);
    var m1 := ExecAll(x, CountSeq(), m);
    PlainRuns(x, fetch, base, p, pos, k0, CountSeq(), m);
    m' := PastSkip(x, fetch, base, p, pos, k0 + 3, m1);
    RunAdd(x, fetch, m, 3, 1, m1);
  }

  lemma PastSkip(x: Effect, fetch: Fetcher, base: int, p: Image, pos: nat -> nat, k: nat, m: Machine)
    returns (m': Machine)
    requires IsRV(x) && Laid(fetch, base, p, pos) && k + 3 <= |p.items| && p.items[k] == Skip(4, RZERO, RA0, 2)
    requires m.pc == base + 4 * pos(k) && m.regs[RA0] <= 0
    ensures Run(x, fetch, m, 1) == Some(m') && m'.regs == m.regs && m'.mem == m.mem && m'.pc == base + 4 * pos(k + 1)
  {
    assert StepAt(p, pos, k) && StepAt(p, pos, k + 1) && StepAt(p, pos, k + 2);
    assert SkipAt(p, pos, k);
    m' := SkipJumps(x, fetch, base, p, pos, k, m);
  }

  lemma Reschedules(x: Effect, fetch: Fetcher, base: int, p: Image, pos: nat -> nat, e: Env,
                    m: Machine, st: State, k: nat)
    returns (n: nat, m': Machine)
    requires IsRV(x) && Laid(fetch, base, p, pos) && EnvOk(e) && Rel(m, st, e) && m.pc == base + 4 * pos(k)
    requires k + 2 <= |p.items| && MACRELQ < |p.macs|
    requires PlainAt(p, k, [Sd(RFP, RREG, OREGFP)]) && p.items[k + 1] == Site(BrCall, 0, 0, 0, TMac(MACRELQ))
    ensures Run(x, fetch, m, n) == Some(m')
    ensures m'.pc == base + 4 * pos(p.macs[MACRELQ]) && m'.regs[RLINK] == W64(base + 4 * pos(k + 2))
    ensures Rel(m', st, e) && Load64(m'.mem, e.reg + OREGFP) == e.fp
  {
    ExecStore(x, OREGFP, RREG, RFP, m);
    var code := [Sd(RFP, RREG, OREGFP)];
    assert MemSeq(Stw, OREGFP, RREG, RFP) == code;
    PlainRuns(x, fetch, base, p, pos, k, code, m);
    var m1 := ExecAll(x, code, m);
    StoreFP(m.mem, st.mem, e.fp, e);
    StoreLoad64(m.mem, e.reg + OREGFP, e.fp);
    var j: nat;
    j, m' := SiteJumps(x, fetch, base, p, pos, k + 1, m1);
    RunAdd(x, fetch, m, 1, j, m1);
    n := 1 + j;
  }

  // Resumed at that link, with whatever quantum is left then, a branch does
  // its own work and nothing else.
  lemma BranchResumes(x: Effect, fetch: Fetcher, base: int, prog: seq<Inst>, p: Image, pos: nat -> nat, e: Env,
                      m: Machine, st: State, c: Cond, s: Operand, mi: Middle, dimm: int, t: nat)
    returns (k: nat, m': Machine)
    requires Ready(x, fetch, base, prog, p, pos, e) && Rel(m, st, e)
    requires st.pc < |prog| && prog[st.pc] == BrW(c, s, mi, dimm, t)
    requires OperandOk(s) && MiddleOk(mi) && IsWord(dimm) && t < |prog|
    requires OperandSafe(s, e, st.mem) && MiddleSafe(mi, e)
    requires m.pc == base + 4 * pos(p.starts[st.pc] + |SchedItems(t, st.pc)|)
    ensures k > 0 && Run(x, fetch, m, k) == Some(m')
    ensures var go := Holds2(c, Source(s, e, st.mem), Mid(mi, dimm, e, st.mem));
            InStep(p, pos, base, e, m', State(if go then t else st.pc + 1, st.ic, st.mem))
  {
    assert Bra(s, mi, dimm, e, st.mem);
    var n1, m2, k2 := ResumeReach(x, fetch, base, prog, p, pos, e, m, st, c, s, mi, dimm, t);
    assert GotKey(0);
    var n3: nat;
    n3, m' := CmpJumps(x, fetch, base, p, pos, e, k2, c, t, m2);
    RunAdd(x, fetch, m, n1, n3, m2);
    k := n1 + n3;
  }

  lemma ResumeReach(x: Effect, fetch: Fetcher, base: int, prog: seq<Inst>, p: Image, pos: nat -> nat, e: Env,
                    m: Machine, st: State, c: Cond, s: Operand, mi: Middle, dimm: int, t: nat)
    returns (n: nat, m': Machine, k: nat)
    requires Ready(x, fetch, base, prog, p, pos, e) && Rel(m, st, e)
    requires st.pc < |prog| && prog[st.pc] == BrW(c, s, mi, dimm, t)
    requires Bra(s, mi, dimm, e, st.mem) && t < |prog|
    requires m.pc == base + 4 * pos(p.starts[st.pc] + |SchedItems(t, st.pc)|)
    ensures Run(x, fetch, m, n) == Some(m') && m'.pc == base + 4 * pos(k) && Rel(m', st, e)
    ensures Got(m'.regs, s, mi, dimm, e, st.mem)
    ensures SiteAt(p, k) && p.items[k] == CmpSite(c, RA0, RA1, t) && k + 1 == p.starts[st.pc + 1]
  {
    assert InstAt(prog, p, st.pc);
    var code := BranchPlace(prog, p, st.pc, c, s, mi, dimm, t, e, st.mem);
    var k1 := p.starts[st.pc] + |SchedItems(t, st.pc)|;
    n, m' := OperandLoads(x, fetch, base, p, pos, e, m, st, k1, s, mi, dimm, code);
    k := k1 + n;
  }

  // So does a jump.
  lemma JumpResumes(x: Effect, fetch: Fetcher, base: int, prog: seq<Inst>, p: Image, pos: nat -> nat, e: Env,
                    m: Machine, st: State, t: nat)
    returns (k: nat, m': Machine)
    requires Ready(x, fetch, base, prog, p, pos, e) && Rel(m, st, e)
    requires st.pc < |prog| && prog[st.pc] == Jmp(t) && t < |prog|
    requires m.pc == base + 4 * pos(p.starts[st.pc] + |SchedItems(t, st.pc)|)
    ensures k > 0 && Run(x, fetch, m, k) == Some(m') && InStep(p, pos, base, e, m', State(t, st.ic, st.mem))
  {
    assert InstAt(prog, p, st.pc);
    JumpShape(prog, p, st.pc, t);
    k, m' := SiteJumps(x, fetch, base, p, pos, p.starts[st.pc] + |SchedItems(t, st.pc)|, m);
  }

  lemma JumpShape(prog: seq<Inst>, p: Image, i: nat, t: nat)
    requires i < |prog| && |p.starts| == |prog| + 1 && InstAt(prog, p, i) && prog[i] == Jmp(t)
    ensures var k := p.starts[i] + |SchedItems(t, i)|;
            SiteAt(p, k) && p.items[k] == Site(BrJ, 0, 0, 0, TDis(t))
  {
    var site := Site(BrJ, 0, 0, 0, TDis(t));
    assert CompItems(prog[i], i, |prog|, NMACRO) == SchedItems(t, i) + Insns([]) + [site];
    BranchShape(prog, p, i, t, [], site);
  }

  // -- the whole run -------------------------------------------------------------------------

  // Compiled code simulates the interpreter, instruction by instruction.
  lemma SimStep(x: Effect, fetch: Fetcher, base: int, prog: seq<Inst>, p: Image, pos: nat -> nat, e: Env,
                m: Machine, st: State, st': State)
    returns (k: nat, m': Machine)
    requires Ready(x, fetch, base, prog, p, pos, e) && InStep(p, pos, base, e, m, st)
    requires DisStep(prog, e, st) == Next(st')
    ensures k > 0 && Run(x, fetch, m, k) == Some(m') && InStep(p, pos, base, e, m', st')
  {
    assert InstAt(prog, p, st.pc);
    match prog[st.pc]
    case MovW(s, d) =>
      k, m' := SimMov(x, fetch, base, prog, p, pos, e, m, st, s, d, st');
    case Arith(op, s, mi, d) =>
      var v := ArithValue(op, Mid(mi, Source(d, e, st.mem), e, st.mem), Source(s, e, st.mem));
      k, m' := SimArith(x, fetch, base, prog, p, pos, e, m, st, op, s, mi, d, v, st');
    case BrW(c, s, mi, dimm, t) =>
      k, m' := SimBranch(x, fetch, base, prog, p, pos, e, m, st, c, s, mi, dimm, t, st');
    case Jmp(t) =>
      k, m' := SimJmp(x, fetch, base, prog, p, pos, e, m, st, t, st');
  }

  lemma {:induction false} SimRun(
      x: Effect, fetch: Fetcher, base: int, prog: seq<Inst>, p: Image, pos: nat -> nat, e: Env,
      m: Machine, st: State, n: nat, st': State)
    returns (k: nat, m': Machine)
    requires Ready(x, fetch, base, prog, p, pos, e) && InStep(p, pos, base, e, m, st)
    requires DisRun(prog, e, st, n) == Some(st')
    ensures k >= n && Run(x, fetch, m, k) == Some(m') && InStep(p, pos, base, e, m', st')
    decreases n
  {
    if n == 0 {
      k, m' := 0, m;
    } else {
      var st1 := DisStep(prog, e, st).st;
      var k1, m1 := SimStep(x, fetch, base, prog, p, pos, e, m, st, st1);
      var k2: nat;
      k2, m' := SimRun(x, fetch, base, prog, p, pos, e, m1, st1, n - 1, st');
      RunAdd(x, fetch, m, k1, k2, m1);
      k := k1 + k2;
    }
  }

  lemma ImageReady(base: int, prog: seq<Inst>, macros: seq<seq<int>>, e: Env)
    requires Compiled(prog, macros, base) && EnvOk(e)
    ensures var p := ImageOf(prog, macros);
            Ready(Exec, FetchOf(FinalCode(p), base), base, prog, p, PosFn(p), e)
  {
    var p := ImageOf(prog, macros);
    ExecIsRV();
    FinalLaid(p, base);
    forall i: nat | i < |prog| ensures InstAt(prog, p, i) {
      InstItems(prog, macros, i);
    }
  }

  // The code of prog is mapped at base, below 2^63, and small enough to be
  // accepted.
  predicate Compiled(prog: seq<Inst>, macros: seq<seq<int>>, base: int)
  {
    ProgOk(prog, macros)
    && var p := ImageOf(prog, macros);
       ImageOk(p) && Small(p) && Low(base, |FinalCode(p)| + 4)
  }

  // The compiler is correct on the word subset: whatever n instructions the
  // interpreter executes from st, the final code, decoded and run from
  // patch[st.pc], reaches patch of the interpreter's pc with the same frame
  // and module memory.
  lemma CompilerCorrect(prog: seq<Inst>, macros: seq<seq<int>>, base: int, e: Env,
                        m: Machine, st: State, n: nat, st': State)
    returns (k: nat, m': Machine)
    requires Compiled(prog, macros, base) && EnvOk(e)
    requires st.pc <= |prog| && m.pc == base + 4 * At(ImageOf(prog, macros), Starts(prog, macros)[st.pc])
    requires Rel(m, st, e)
    requires DisRun(prog, e, st, n) == Some(st')
    ensures k >= n && Run(Exec, FetchOf(FinalCode(ImageOf(prog, macros)), base), m, k) == Some(m')
    ensures st'.pc <= |prog| && m'.pc == base + 4 * At(ImageOf(prog, macros), Starts(prog, macros)[st'.pc])
    ensures Rel(m', st', e)
  {
    var p := ImageOf(prog, macros);
    ImageReady(base, prog, macros, e);
    k, m' := SimRun(Exec, FetchOf(FinalCode(p), base), base, prog, p, PosFn(p), e, m, st, n, st');
  }
}
