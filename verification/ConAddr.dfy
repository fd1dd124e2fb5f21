// Addresses built relative to the pc: a word of the module itself, and a
// constant of the module's address pool, which is mapped after its code.
module ConAddr {
  import opened Rv64
  import opened CodeRun
  import opened Relax
  import opened Layout
  import opened Dis
  import opened Sim
  import opened Program
  import opened Jit
  import opened Compiler
  import Pool

  // -- what is emitted ---------------------------------------------------------------

  // The address off bytes from here.
  function ConPosSeq(rd: int, off: int): seq<Insn> { [Auipc(rd, SplitHi(off)), Addi(rd, rd, SplitLo(off))] }

  // The word off bytes from here.
  function ConAddrSeq(rd: int, off: int): seq<Insn> { [Auipc(rd, SplitHi(off)), Ld(rd, rd, SplitLo(off))] }

  // How far auipc and a low part are used for.
  predicate Near(pc: int, off: int)
  {
    0 <= pc < TWO63 && -0x7000_0000 <= off < 0x7000_0000 && 0 <= pc + off < TWO63
  }

  // At word pos of a module mapped at base, the address of its word wpos.
  lemma ConPosRuns(x: Effect, rd: int, base: int, pos: nat, wpos: nat, m: Machine)
    requires IsRV(x) && 0 < rd < 32 && m.pc == base + 4 * pos && Near(m.pc, (wpos - pos) * 4)
    ensures AllStraight(ConPosSeq(rd, (wpos - pos) * 4))
    ensures var m' := ExecAll(x, ConPosSeq(rd, (wpos - pos) * 4), m);
            m'.regs == m.regs[rd := base + 4 * wpos] && m'.mem == m.mem
  {
    var off := (wpos - pos) * 4;
    SplitRelValue(m.pc, off);
    UpperThenAdd(x, rd, SplitHi(off), SplitLo(off), m.pc + off, m);
  }

  lemma UpperThenAdd(x: Effect, rd: int, hi: int, lo: int, a: int, m: Machine)
    requires IsRV(x) && 0 < rd < 32 && U64(W64(m.pc + W32(hi * 4096)) + lo) == a < TWO63
    ensures var m' := ExecAll(x, [Auipc(rd, hi), Addi(rd, rd, lo)], m);
            m'.regs == m.regs[rd := a] && m'.mem == m.mem
  {
    var i, j := Auipc(rd, hi), Addi(rd, rd, lo);
    ExecAllTwo(x, i, j, m);
    var m1 := x(i, m);
    assert m1 == Exec(i, m);
    assert x(j, m1) == Exec(j, m1);
    SumIs(W64(m.pc + W32(hi * 4096)) + lo, a);
  }

  lemma SumIs(x: int, y: int)
    requires U64(x) == y && 0 <= y < TWO63
    ensures W64(x) == y
  {
  }

  // A load of the word off bytes on.
  lemma ConAddrRuns(x: Effect, rd: int, off: int, m: Machine)
    requires IsRV(x) && 0 < rd < 32 && Near(m.pc, off)
    ensures AllStraight(ConAddrSeq(rd, off))
    ensures var m' := ExecAll(x, ConAddrSeq(rd, off), m);
            m'.regs == m.regs[rd := Load64(m.mem, m.pc + off)] && m'.mem == m.mem
  {
    SplitRelValue(m.pc, off);
    UpperThenLoad(x, rd, SplitHi(off), SplitLo(off), m.pc + off, m);
  }

  lemma UpperThenLoad(x: Effect, rd: int, hi: int, lo: int, a: int, m: Machine)
    requires IsRV(x) && 0 < rd < 32 && U64(W64(m.pc + W32(hi * 4096)) + lo) == a
    ensures var m' := ExecAll(x, [Auipc(rd, hi), Ld(rd, rd, lo)], m);
            m'.regs == m.regs[rd := Load64(m.mem, a)] && m'.mem == m.mem
  {
    var i, j := Auipc(rd, hi), Ld(rd, rd, lo);
    ExecAllTwo(x, i, j, m);
    var m1 := x(i, m);
    assert m1 == Exec(i, m);
    assert x(j, m1) == Exec(j, m1);
    WordAt(m.mem, W64(m.pc + W32(hi * 4096)) + lo, a);
  }

  lemma WordAt(mem: Mem, x: int, y: int)
    requires U64(x) == y
    ensures Load64(mem, x) == Load64(mem, y)
  {
    LoadCongruent(mem, x, y, 8);
  }

  // -- the pool in memory --------------------------------------------------------------

  // Bytes between n words of code and the pool.
  function PoolBytes(n: nat): (r: int)
    ensures 0 <= r < 8 && (4 * n + r) % 8 == 0
  {
    (4 * n + 7) / 8 * 8 - 4 * n
  }

  // Slot k of the pool of a module of n words mapped at base.
  function SlotAddr(base: int, n: nat, k: nat): (a: int)
    ensures a >= base + 4 * n + 8 * k
  {
    base + 4 * n + PoolBytes(n) + 8 * k
  }

  // -- how large module and pool are ----------------------------------------------------

  // Twice what the compiler lets the instructions take.
  const MAXCODE := 2 * MAXWORDS

  lemma {:induction false} ItemsAreWords(items: seq<Item>)
    ensures |items| <= Len(items, [])
  {
    if items != [] { ItemsAreWords(items[..|items| - 1]); }
  }

  // An accepted module, sites at their longest.
  lemma AcceptedLength(prog: seq<Inst>, macros: seq<seq<int>>)
    requires ProgOk(prog, macros) && MacrosFit(macros) && Accepts(prog, macros)
    ensures Len(ImageOf(prog, macros).items, []) <= MAXCODE
  {
    MacrosLen(prog, macros, NMACRO);
    if |prog| > 0 { assert InstFits(prog, macros, |prog| - 1); }
    assert ImageOf(prog, macros).items == BeforeMac(prog, macros, NMACRO);
  }

  // Its final code, and where in that an item is.
  lemma AcceptedCode(prog: seq<Inst>, macros: seq<seq<int>>, k: nat)
    requires ProgOk(prog, macros) && MacrosFit(macros) && Accepts(prog, macros)
    requires k <= |ImageOf(prog, macros).items|
    ensures var p := ImageOf(prog, macros); ImageOk(p) && At(p, k) <= |FinalCode(p)| <= MAXCODE
  {
    var p := ImageOf(prog, macros);
    AcceptedSmall(prog, macros);
    AcceptedLength(prog, macros);
    FinalShaped(p);
    ShapedSteps(p, PosFn(p), FormFn(p), FinalWords(p));
    PosMonotone(p, PosFn(p), FormFn(p), FinalWords(p), k, |p.items|);
    Shrink(p.items, Chosen(p), 0, |p.items|);
    assert p.items[..|p.items|] == p.items;
  }

  // The places of the constants counted in pass 0: each has two items of its own, from at[i] on.
  predicate Reserved(items: seq<Item>, at: seq<nat>)
  {
    && (forall i :: 0 <= i < |at| ==> at[i] + 2 <= |items|)
    && (forall i :: 0 < i < |at| ==> at[i - 1] + 2 <= at[i])
  }

  lemma {:induction false} ReservedBound(items: seq<Item>, at: seq<nat>, n: nat)
    requires Reserved(items, at) && n <= |at|
    ensures n > 0 ==> 2 * n <= at[n - 1] + 2
    decreases n
  {
    if n > 0 { ReservedBound(items, at, n - 1); }
  }

  // Every slot is within reach of every word of the code.
  lemma PoolNear(base: int, n: nat, pos: nat, ncon: nat, k: nat)
    requires pos <= n <= MAXCODE && 2 * ncon <= MAXCODE && k < ncon
    requires 0 <= base && SlotAddr(base, n, ncon) < TWO63
    ensures Near(base + 4 * pos, SlotAddr(base, n, k) - (base + 4 * pos))
  {
  }

  ghost predicate PoolAt(mem: Mem, base: int, n: nat, pool: seq<Pool.uvlong>)
  {
    forall k: nat :: k < |pool| ==> Load64(mem, SlotAddr(base, n, k)) == W64(pool[k])
  }

  // The pair for off leaves v in rd and nothing else changed.  Opened by LoadsKey(0).
  ghost predicate Loads(x: Effect, rd: int, off: int, v: int, m: Machine)
    requires 0 <= rd < 32
  {
    forall u: int {:trigger LoadsKey(u)} :: LoadsKey(u) ==>
      var m' := ExecAll(x, ConAddrSeq(rd, off), m);
      m'.regs == m.regs[rd := W64(v)] && m'.mem == m.mem
  }

  predicate LoadsKey(u: int) { true }

  // The emit pass asks for vals, one for each place at that was counted, and is
  // given slots; when the code runs, with the finished pool in memory after it,
  // the pair at the i-th place loads exactly the i-th value, whatever was added
  // to the pool after it.
  lemma ConstantLoads(x: Effect, rd: int, base: int, prog: seq<Inst>, macros: seq<seq<int>>, at: seq<nat>,
                      vals: seq<Pool.uvlong>, slots: seq<nat>, i: nat, m: Machine)
    requires IsRV(x) && 0 < rd < 32 && ProgOk(prog, macros) && MacrosFit(macros) && Accepts(prog, macros)
    requires Reserved(ImageOf(prog, macros).items, at) && i < |at| == |vals|
    requires ImageOk(ImageOf(prog, macros)) && m.pc == base + 4 * At(ImageOf(prog, macros), at[i])
    requires Pool.Found(slots, Pool.AddAll([], vals), vals)
    requires var n := |FinalCode(ImageOf(prog, macros))|;
             0 <= base && SlotAddr(base, n, |vals|) < TWO63 && PoolAt(m.mem, base, n, Pool.AddAll([], vals))
    ensures var n := |FinalCode(ImageOf(prog, macros))|;
            var m' := ExecAll(x, ConAddrSeq(rd, SlotAddr(base, n, slots[i]) - m.pc), m);
            m'.regs == m.regs[rd := W64(vals[i])] && m'.mem == m.mem
  {
    SlotInside(vals, slots, i);
    ConstantPlaced(x, rd, base, prog, macros, at, Pool.AddAll([], vals), slots[i], vals[i], i, m);
    assert LoadsKey(0);
  }

  // The same for any pool with the value in its slot.
  lemma ConstantPlaced(x: Effect, rd: int, base: int, prog: seq<Inst>, macros: seq<seq<int>>, at: seq<nat>,
                       pool: seq<Pool.uvlong>, k: nat, v: Pool.uvlong, i: nat, m: Machine)
    requires IsRV(x) && 0 < rd < 32 && ProgOk(prog, macros) && MacrosFit(macros) && Accepts(prog, macros)
    requires Reserved(ImageOf(prog, macros).items, at) && i < |at| && k < |at|
    requires ImageOk(ImageOf(prog, macros)) && m.pc == base + 4 * At(ImageOf(prog, macros), at[i])
    requires k < |pool| && pool[k] == v
    requires var n := |FinalCode(ImageOf(prog, macros))|;
             0 <= base && SlotAddr(base, n, |at|) < TWO63 && PoolAt(m.mem, base, n, pool)
    ensures Loads(x, rd, SlotAddr(base, |FinalCode(ImageOf(prog, macros))|, k) - m.pc, v, m)
  {
    PlaceNear(base, prog, macros, at, i, k);
    ConstantAt(x, rd, base, |FinalCode(ImageOf(prog, macros))|, pool, k, v, m);
  }

  lemma ConstantAt(x: Effect, rd: int, base: int, n: nat, pool: seq<Pool.uvlong>, k: nat, v: Pool.uvlong, m: Machine)
    requires IsRV(x) && 0 < rd < 32 && PoolAt(m.mem, base, n, pool) && k < |pool| && pool[k] == v
    requires Near(m.pc, SlotAddr(base, n, k) - m.pc)
    ensures var m' := ExecAll(x, ConAddrSeq(rd, SlotAddr(base, n, k) - m.pc), m);
            m'.regs == m.regs[rd := W64(v)] && m'.mem == m.mem
  {
    SlotLoads(x, rd, SlotAddr(base, n, k), W64(v), m);
  }

  lemma PlaceNear(base: int, prog: seq<Inst>, macros: seq<seq<int>>, at: seq<nat>, i: nat, k: nat)
    requires ProgOk(prog, macros) && MacrosFit(macros) && Accepts(prog, macros) && ImageOk(ImageOf(prog, macros))
    requires Reserved(ImageOf(prog, macros).items, at) && i < |at| && k < |at|
    requires 0 <= base && SlotAddr(base, |FinalCode(ImageOf(prog, macros))|, |at|) < TWO63
    ensures var p := ImageOf(prog, macros);
            var pc := base + 4 * At(p, at[i]);
            Near(pc, SlotAddr(base, |FinalCode(p)|, k) - pc)
  {
    var p := ImageOf(prog, macros);
    AcceptedCode(prog, macros, at[i]);
    AcceptedLength(prog, macros);
    ItemsAreWords(p.items);
    ReservedBound(p.items, at, |at|);
    PoolNear(base, |FinalCode(p)|, At(p, at[i]), |at|, k);
  }

  lemma SlotInside(vals: seq<Pool.uvlong>, slots: seq<nat>, i: nat)
    requires i < |vals| && Pool.Found(slots, Pool.AddAll([], vals), vals)
    ensures slots[i] < |vals| && slots[i] < |Pool.AddAll([], vals)| && Pool.AddAll([], vals)[slots[i]] == vals[i]
  {
    Pool.AddAllBound([], vals);
  }

  lemma SlotLoads(x: Effect, rd: int, a: int, v: int, m: Machine)
    requires IsRV(x) && 0 < rd < 32 && Near(m.pc, a - m.pc) && Load64(m.mem, a) == v
    ensures var m' := ExecAll(x, ConAddrSeq(rd, a - m.pc), m);
            m'.regs == m.regs[rd := v] && m'.mem == m.mem
  {
    ConAddrRuns(x, rd, a - m.pc, m);
    assert m.pc + (a - m.pc) == a;
  }
}
