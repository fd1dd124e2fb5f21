// A case instruction of a compiled module, from its first word to the Dis
// instruction it selects: its operands, the relaxed jump to the case macro, the
// macro's search of the relocated table, and the jump out of it.
module CaseRun {
  import opened Basics
  import opened Rv64
  import opened CodeRun
  import opened LoadConst
  import opened Relax
  import opened Layout
  import opened Dis
  import opened Sim
  import opened Program
  import C = CaseJump
  import T = CaseTable

  const MACCASE := 2
  const RA3 := 13

  // -- the macros in the code ------------------------------------------------------

  lemma {:induction false} RawsLaid(p: Image, pos: nat -> nat, form: nat -> Form, w: nat -> seq<int>,
                                    k: nat, ws: seq<int>, n: nat)
    requires Shaped(p, pos, form, w) && k + |ws| <= |p.items| && n <= |ws|
    requires forall j :: 0 <= j < |ws| ==> p.items[k + j] == Raw(ws[j])
    ensures pos(k + n) == pos(k) + n
    decreases n
  {
    if n > 0 {
      RawsLaid(p, pos, form, w, k, ws, n - 1);
      assert p.items[k + (n - 1)] == Raw(ws[n - 1]);
      assert ItemShaped(p, pos, form, w, k + (n - 1));
    }
  }

  lemma RawsInCode(p: Image, pos: nat -> nat, form: nat -> Form, w: nat -> seq<int>, k: nat, ws: seq<int>)
    requires Shaped(p, pos, form, w) && k + |ws| <= |p.items|
    requires forall j :: 0 <= j < |ws| ==> p.items[k + j] == Raw(ws[j])
    ensures var code := Cat(w, |p.items|);
            pos(k) + |ws| <= |code| && code[pos(k)..pos(k) + |ws|] == ws
  {
    var code := Cat(w, |p.items|);
    RawsLaid(p, pos, form, w, k, ws, |ws|);
    PosMonotone(p, pos, form, w, k + |ws|, |p.items|);
    ShapedSteps(p, pos, form, w);
    forall j | 0 <= j < |ws| ensures pos(k) + j < |code| && code[pos(k) + j] == ws[j] {
      RawInCode(p, pos, form, w, k, ws, j);
    }
  }

  lemma RawInCode(p: Image, pos: nat -> nat, form: nat -> Form, w: nat -> seq<int>, k: nat, ws: seq<int>, j: nat)
    requires Shaped(p, pos, form, w) && k + |ws| <= |p.items| && j < |ws|
    requires forall i :: 0 <= i < |ws| ==> p.items[k + i] == Raw(ws[i])
    ensures pos(k) + j < |Cat(w, |p.items|)| && Cat(w, |p.items|)[pos(k) + j] == ws[j]
  {
    RawsLaid(p, pos, form, w, k, ws, j);
    WordInCode(p, pos, form, w, k + j, ws[j]);
  }

  lemma WordInCode(p: Image, pos: nat -> nat, form: nat -> Form, w: nat -> seq<int>, k: nat, v: int)
    requires Shaped(p, pos, form, w) && k < |p.items| && p.items[k] == Raw(v)
    ensures pos(k) < |Cat(w, |p.items|)| && Cat(w, |p.items|)[pos(k)] == v
  {
    assert ItemShaped(p, pos, form, w, k);
    ShapedAt(p, pos, form, w, k);
    var code := Cat(w, |p.items|);
    assert code[pos(k)..pos(k) + 1][0] == code[pos(k)];
  }

  lemma {:induction false} MacPrefix(macros: seq<seq<int>>, i: nat, k: nat)
    requires i < k <= |macros|
    ensures var a := MacItems(macros, i);
            |a| + |macros[i]| <= |MacItems(macros, k)|
            && MacItems(macros, k)[|a|..|a| + |macros[i]|] == Raws(macros[i])
    decreases k
  {
    if i < k - 1 {
      MacPrefix(macros, i, k - 1);
      PrefixAppend(MacItems(macros, k - 1), Raws(macros[k - 1]), MacItems(macros, i), Raws(macros[i]));
    } else {
      SliceOfSuffix(MacItems(macros, i), Raws(macros[i]));
    }
  }

  lemma MacroItems(prog: seq<Inst>, macros: seq<seq<int>>, i: nat, j: nat)
    requires ProgOk(prog, macros) && i < |macros| && j < |macros[i]|
    ensures var p := ImageOf(prog, macros);
            p.macs[i] + |macros[i]| <= |p.items| && p.items[p.macs[i] + j] == Raw(macros[i][j])
  {
    var p := ImageOf(prog, macros);
    var a, r := MacItems(macros, i), MacItems(macros, |macros|);
    MacPrefix(macros, i, |macros|);
    assert r[|a|..|a| + |macros[i]|][j] == r[|a| + j];
    var head := ProgItems(prog, macros, |prog|) + [Raw(EBREAK)];
    assert p.items == head + r;
    assert p.items[|head| + (|a| + j)] == r[|a| + j];
  }

  lemma MacroRaws(prog: seq<Inst>, macros: seq<seq<int>>, i: nat)
    requires ProgOk(prog, macros) && i < |macros| && macros[i] != []
    ensures var p := ImageOf(prog, macros);
            && p.macs[i] + |macros[i]| <= |p.items|
            && forall j :: 0 <= j < |macros[i]| ==> p.items[p.macs[i] + j] == Raw(macros[i][j])
  {
    var p := ImageOf(prog, macros);
    MacroItems(prog, macros, i, 0);
    forall j | 0 <= j < |macros[i]| ensures p.items[p.macs[i] + j] == Raw(macros[i][j]) {
      MacroItems(prog, macros, i, j);
    }
  }

  lemma RawsPlaced(p: Image, k: nat, ws: seq<int>)
    requires ImageOk(p) && Small(p) && k + |ws| <= |p.items|
    requires forall j :: 0 <= j < |ws| ==> p.items[k + j] == Raw(ws[j])
    ensures At(p, k) + |ws| <= |FinalCode(p)| && FinalCode(p)[At(p, k)..At(p, k) + |ws|] == ws
  {
    FinalShaped(p);
    RawsInCode(p, PosFn(p), FormFn(p), FinalWords(p), k, ws);
  }

  // Every macro's words are in the final code where the compiler says the
  // macro is.
  lemma MacroInPlace(prog: seq<Inst>, macros: seq<seq<int>>, base: int, i: nat)
    requires Compiled(prog, macros, base) && i < |macros| && macros[i] != []
    ensures var p := ImageOf(prog, macros);
            var at := At(p, p.macs[i]);
            at + |macros[i]| <= |FinalCode(p)| && FinalCode(p)[at..at + |macros[i]|] == macros[i]
  {
    var p := ImageOf(prog, macros);
    MacroRaws(prog, macros, i);
    RawsPlaced(p, p.macs[i], macros[i]);
  }

  // The macro is fetched as it was generated.
  lemma CaseMacroHolds(prog: seq<Inst>, macros: seq<seq<int>>, base: int)
    requires Compiled(prog, macros, base) && macros[MACCASE] == EncodeAll(C.MacCase())
    ensures var p := ImageOf(prog, macros);
            Holds(FetchOf(FinalCode(p), base), base, At(p, p.macs[MACCASE]), C.MacCase())
  {
    var p := ImageOf(prog, macros);
    C.MacCaseEncodable();
    MacroInPlace(prog, macros, base, MACCASE);
    FetchOfFetches(FinalCode(p), base);
    HoldsEncoded(FetchOf(FinalCode(p), base), FinalCode(p), base, At(p, p.macs[MACCASE]), C.MacCase());
  }

  // -- what a case instruction emits -------------------------------------------------

  // The address of the module's data at an offset.
  function LeaSeq(off: int): seq<Insn>
    requires IsWord(off)
  {
    if IsImm12(off) then [Addi(RA3, RMP, off)]
    else LiSeq(RCON, off) + [Reg(ADD, RA3, RMP, RCON)]
  }

  function CaseSeq(s: Operand, off: int): seq<Insn>
    requires OperandOk(s) && IsWord(off)
  {
    OpxSeq(s, Ldw, RA1) + LeaSeq(off)
  }

  function CaseSite(): Item { Site(BrJ, 0, 0, 0, TMac(MACCASE)) }

  function CaseItems(s: Operand, off: int): seq<Item>
    requires OperandOk(s) && IsWord(off)
  {
    Insns(CaseSeq(s, off)) + [CaseSite()]
  }

  lemma ExecLea(x: Effect, off: int, e: Env, m: Machine)
    requires IsRV(x) && IsWord(off) && Cached(m.regs, e)
    ensures AllStraight(LeaSeq(off))
    ensures var m' := ExecAll(x, LeaSeq(off), m);
            m'.mem == m.mem && m'.regs[RA3] == W64(e.mp + off) && Same(m.regs, m'.regs, {RA3, RCON})
  {
    if IsImm12(off) {
      var i := Addi(RA3, RMP, off);
      ExecAllOne(x, i, m);
      assert x(i, m) == Exec(i, m);
    } else {
      var a, i := LiSeq(RCON, off), Reg(ADD, RA3, RMP, RCON);
      ExecLi(x, RCON, off, m);
      var m1 := ExecAll(x, a, m);
      ExecAllConcat(x, a, [i], m);
      ExecAllOne(x, i, m1);
      assert x(i, m1) == Exec(i, m1);
      AllStraightConcat(a, [i]);
    }
  }

  lemma ExecCase(x: Effect, s: Operand, off: int, e: Env, m: Machine)
    requires IsRV(x) && OperandOk(s) && IsWord(off) && Cached(m.regs, e)
    ensures AllStraight(CaseSeq(s, off)) && |CaseSeq(s, off)| > 0
    ensures var m' := ExecAll(x, CaseSeq(s, off), m);
            && m'.mem == m.mem && Cached(m'.regs, e)
            && m'.regs[RA1] == Source(s, e, m.mem) && m'.regs[RA3] == W64(e.mp + off)
  {
    var a, b := OpxSeq(s, Ldw, RA1), LeaSeq(off);
    OpxNonEmpty(s, Ldw, RA1);
    ExecSource(x, s, RA1, e, m);
    var m1 := ExecAll(x, a, m);
    ExecLea(x, off, e, m1);
    ExecAllConcat(x, a, b, m);
    AllStraightConcat(a, b);
  }

  lemma CaseShape(prog: seq<Inst>, p: Image, i: nat, s: Operand, off: int)
    requires i < |prog| && |p.starts| == |prog| + 1 && InstAt(prog, p, i)
    requires OperandOk(s) && IsWord(off) && prog[i] == Other(CaseItems(s, off))
    ensures var code, k0 := CaseSeq(s, off), p.starts[i];
            PlainAt(p, k0, code) && SiteAt(p, k0 + |code|) && p.items[k0 + |code|] == CaseSite()
  {
    SplitItems(p.items, p.starts[i], [], Insns(CaseSeq(s, off)), CaseSite());
  }

  lemma JumpToMacro(x: Effect, fetch: Fetcher, base: int, p: Image, pos: nat -> nat, k: nat, m: Machine)
    returns (n: nat, m': Machine)
    requires IsRV(x) && Laid(fetch, base, p, pos) && SiteAt(p, k) && p.items[k] == CaseSite() && MACCASE < |p.macs|
    requires m.pc == base + 4 * pos(k)
    ensures Run(x, fetch, m, n) == Some(m') && m'.mem == m.mem && m'.pc == base + 4 * pos(p.macs[MACCASE])
    ensures Same(m.regs, m'.regs, {RTA})
  {
    n, m' := SiteJumps(x, fetch, base, p, pos, k, m);
  }

  // The value is in RA1, the table's address in RA3.  Opened by LoadsKey(0).
  ghost predicate CaseLoads(x: Effect, code: seq<Insn>, e: Env, m: Machine, s: Operand, off: int)
  {
    forall u: int {:trigger LoadsKey(u)} :: LoadsKey(u) ==>
      var m' := ExecAll(x, code, m);
      && m'.mem == m.mem && Cached(m'.regs, e)
      && m'.regs[RA1] == Source(s, e, m.mem) && m'.regs[RA3] == W64(e.mp + off)
  }

  predicate LoadsKey(u: int) { true }

  // The instruction's plain code: where it is and what it does.
  lemma CaseCode(x: Effect, prog: seq<Inst>, p: Image, e: Env, m: Machine, i: nat, s: Operand, off: int)
    returns (code: seq<Insn>)
    requires IsRV(x) && i < |prog| && |p.starts| == |prog| + 1 && InstAt(prog, p, i)
    requires OperandOk(s) && IsWord(off) && prog[i] == Other(CaseItems(s, off)) && Cached(m.regs, e)
    ensures PlainAt(p, p.starts[i], code) && AllStraight(code)
    ensures SiteAt(p, p.starts[i] + |code|) && p.items[p.starts[i] + |code|] == CaseSite()
    ensures CaseLoads(x, code, e, m, s, off)
  {
    code := CaseSeq(s, off);
    CaseShape(prog, p, i, s, off);
    ExecCase(x, s, off, e, m);
  }

  // From the instruction's first word to the macro's.
  lemma ReachMacro(x: Effect, fetch: Fetcher, base: int, prog: seq<Inst>, p: Image, pos: nat -> nat, e: Env,
                   m: Machine, i: nat, s: Operand, off: int) returns (k: nat, m': Machine)
    requires Ready(x, fetch, base, prog, p, pos, e) && i < |prog| && MACCASE < |p.macs|
    requires OperandOk(s) && IsWord(off) && prog[i] == Other(CaseItems(s, off))
    requires m.pc == base + 4 * pos(p.starts[i]) && Cached(m.regs, e)
    ensures Run(x, fetch, m, k) == Some(m') && m'.pc == base + 4 * pos(p.macs[MACCASE])
    ensures m'.mem == m.mem && Cached(m'.regs, e)
    ensures m'.regs[RA1] == Source(s, e, m.mem) && m'.regs[RA3] == W64(e.mp + off)
  {
    assert InstAt(prog, p, i);
    var code := CaseCode(x, prog, p, e, m, i, s, off);
    k, m' := PlainThenJump(x, fetch, base, p, pos, p.starts[i], code, m);
    assert LoadsKey(0);
  }

  lemma PlainThenJump(x: Effect, fetch: Fetcher, base: int, p: Image, pos: nat -> nat, k0: nat, code: seq<Insn>,
                      m: Machine)
    returns (k: nat, m': Machine)
    requires IsRV(x) && Laid(fetch, base, p, pos) && MACCASE < |p.macs|
    requires PlainAt(p, k0, code) && AllStraight(code) && m.pc == base + 4 * pos(k0)
    requires SiteAt(p, k0 + |code|) && p.items[k0 + |code|] == CaseSite()
    ensures Run(x, fetch, m, k) == Some(m') && m'.pc == base + 4 * pos(p.macs[MACCASE])
    ensures m'.mem == ExecAll(x, code, m).mem && Same(ExecAll(x, code, m).regs, m'.regs, {RTA})
  {
    PlainRuns(x, fetch, base, p, pos, k0, code, m);
    var m1 := ExecAll(x, code, m);
    var n: nat;
    n, m' := JumpToMacro(x, fetch, base, p, pos, k0 + |code|, m1);
    RunAdd(x, fetch, m, |code|, n, m1);
    k := |code| + n;
  }

  // -- the table, in the module's data --------------------------------------------------

  // Memory holds the module's data, none of it the VM's own registers.
  ghost predicate DataAt(mem: Mem, e: Env, data: seq<int>)
  {
    && 0 <= e.mp && e.mp + 8 * |data| <= TWO63
    && (forall j: nat :: j < |data| ==> WordAt(mem, e, j, data[j]))
  }

  ghost predicate WordAt(mem: Mem, e: Env, j: nat, v: int)
  {
    Clear(e.mp + 8 * j, e) && Load64(mem, e.mp + 8 * j) == v
  }

  lemma DataAgrees(m1: Mem, m2: Mem, e: Env, data: seq<int>)
    requires Agree(m1, m2, e) && DataAt(m2, e, data)
    ensures DataAt(m1, e, data)
  {
    forall j: nat | j < |data| ensures WordAt(m1, e, j, data[j]) {
      assert WordAt(m2, e, j, data[j]);
      LoadAgree(m1, m2, e.mp + 8 * j, e.mp + 8 * j + 8, e);
    }
  }

  // The ranges as loaded: slot b holds their number.
  function From(orig: seq<int>, b: nat, k: int): int
    requires 0 <= k && b + 3 * k + 2 < |orig|
  {
    orig[b + 3 * k + 1]
  }

  function Upto(orig: seq<int>, b: nat, k: int): int
    requires 0 <= k && b + 3 * k + 2 < |orig|
  {
    orig[b + 3 * k + 2]
  }

  predicate InRange(orig: seq<int>, b: nat, k: int, v: int)
    requires 0 <= k && b + 3 * k + 2 < |orig|
  {
    From(orig, b, k) <= v < Upto(orig, b, k)
  }

  predicate Ascending(orig: seq<int>, b: nat, n: nat)
    requires b + 3 * n + 1 < |orig|
  {
    && (forall k :: 0 <= k < n ==> From(orig, b, k) <= Upto(orig, b, k))
    && (forall j, k :: 0 <= j < k < n ==> Upto(orig, b, j) <= From(orig, b, k))
  }

  // The slot of range j's pc; the default's for j == -1.
  function PcSlot(b: nat, n: nat, j: int): int { if j == -1 then b + 3 * n + 1 else b + 3 * j + 3 }

  // The relocated table: counts and bounds as loaded.
  lemma BoundsKept(data: seq<int>, orig: seq<int>, cases: seq<nat>, patch: seq<int>, base: int, b: nat, j: int)
    requires T.Loaded(orig, cases, |patch|) && T.Relocated(data, orig, cases, patch, base) && b in cases
    requires T.InTable(b, orig[b], j) && !T.IsPc(b, orig[b], j)
    ensures 0 <= j < |data| && data[j] == orig[j]
  {
    forall c | c in cases ensures !T.IsPc(c, orig[c], j) {
      assert T.IsPc(c, orig[c], j) ==> T.InTable(c, orig[c], j);
    }
  }

  lemma PcMoved(data: seq<int>, orig: seq<int>, cases: seq<nat>, patch: seq<int>, base: int, b: nat, j: int)
    requires T.Loaded(orig, cases, |patch|) && T.Relocated(data, orig, cases, patch, base) && b in cases
    requires j == -1 || 0 <= j < orig[b]
    ensures var s := PcSlot(b, orig[b], j);
            0 <= s < |data| == |orig| && 0 <= orig[s] < |patch| && data[s] == base + 4 * patch[orig[s]]
  {
    assert T.IsPc(b, orig[b], PcSlot(b, orig[b], j));
  }

  // What the macro reads is what was loaded.
  lemma TableRead(mem: Mem, e: Env, data: seq<int>, orig: seq<int>, cases: seq<nat>, patch: seq<int>, base: int,
                  b: nat, k: int)
    requires T.Loaded(orig, cases, |patch|) && T.Relocated(data, orig, cases, patch, base) && b in cases
    requires DataAt(mem, e, data) && 0 <= k < orig[b]
    ensures var tab := e.mp + 8 * b;
            C.Lo(mem, tab, k) == From(orig, b, k) && C.Hi(mem, tab, k) == Upto(orig, b, k)
  {
    BoundsKept(data, orig, cases, patch, base, b, b + 3 * k + 1);
    BoundsKept(data, orig, cases, patch, base, b, b + 3 * k + 2);
    assert WordAt(mem, e, b + 3 * k + 1, data[b + 3 * k + 1]);
    assert WordAt(mem, e, b + 3 * k + 2, data[b + 3 * k + 2]);
  }

  lemma TableTarget(mem: Mem, e: Env, data: seq<int>, orig: seq<int>, cases: seq<nat>, patch: seq<int>, base: int,
                    b: nat, j: int)
    requires T.Loaded(orig, cases, |patch|) && T.Relocated(data, orig, cases, patch, base) && b in cases
    requires DataAt(mem, e, data) && (j == -1 || 0 <= j < orig[b])
    ensures var tab, s := e.mp + 8 * b, PcSlot(b, orig[b], j);
            && 0 <= s < |orig| && 0 <= orig[s] < |patch|
            && (if j == -1 then Load64(mem, tab + 24 * orig[b] + 8) else C.Pc(mem, tab, j)) == base + 4 * patch[orig[s]]
  {
    PcMoved(data, orig, cases, patch, base, b, j);
    var s := PcSlot(b, orig[b], j);
    assert WordAt(mem, e, s, data[s]);
  }

  lemma TableThere(mem: Mem, e: Env, data: seq<int>, orig: seq<int>, cases: seq<nat>, patch: seq<int>, base: int,
                   b: nat)
    requires T.Loaded(orig, cases, |patch|) && T.Relocated(data, orig, cases, patch, base) && b in cases
    requires DataAt(mem, e, data)
    ensures C.TableOk(mem, e.mp + 8 * b, orig[b])
    ensures Ascending(orig, b, orig[b]) ==> C.Sorted(mem, e.mp + 8 * b, orig[b])
  {
    BoundsKept(data, orig, cases, patch, base, b, b);
    assert WordAt(mem, e, b, data[b]);
    var tab, n := e.mp + 8 * b, orig[b];
    forall k | 0 <= k < n ensures C.Lo(mem, tab, k) == From(orig, b, k) && C.Hi(mem, tab, k) == Upto(orig, b, k) {
      TableRead(mem, e, data, orig, cases, patch, base, b, k);
    }
    if Ascending(orig, b, n) { AscendingSorted(mem, tab, orig, b, n); }
  }

  lemma AscendingSorted(mem: Mem, tab: int, orig: seq<int>, b: nat, n: nat)
    requires b + 3 * n + 1 < |orig| && Ascending(orig, b, n)
    requires forall k :: 0 <= k < n ==> C.Lo(mem, tab, k) == From(orig, b, k) && C.Hi(mem, tab, k) == Upto(orig, b, k)
    ensures C.Sorted(mem, tab, n)
  {
    forall j, k | 0 <= j < k < n ensures C.Hi(mem, tab, j) <= C.Lo(mem, tab, k) {
      assert Upto(orig, b, j) <= From(orig, b, k);
    }
    forall k | 0 <= k < n ensures C.Lo(mem, tab, k) <= C.Hi(mem, tab, k) {
      assert From(orig, b, k) <= Upto(orig, b, k);
    }
  }

  // -- the instruction ----------------------------------------------------------------

  lemma EvenCode(base: int, w: nat)
    requires 0 <= base && base % 4 == 0 && base + 4 * w < TWO64
    ensures C.Even(base + 4 * w) == base + 4 * w
  {
    ModUnique(base + 4 * w, 0, base + 4 * w, TWO64);
    ModUnique(base + 4 * w, 2 * (base / 4) + 2 * w, 0, 2);
  }

  lemma MacroRuns(x: Effect, fetch: Fetcher, base: int, at: nat, e: Env, m: Machine, tab: int, n: nat)
    returns (j: int, k: nat, m': Machine)
    requires IsRV(x) && Holds(fetch, base, at, C.MacCase()) && m.pc == base + 4 * at
    requires m.regs[RA3] == tab && C.TableOk(m.mem, tab, n) && Cached(m.regs, e)
    ensures Run(x, fetch, m, k) == Some(m') && m'.mem == m.mem && Cached(m'.regs, e)
    ensures j == -1 || (0 <= j < n && C.Contains(m.mem, tab, j, m.regs[RA1]))
    ensures m'.pc == C.Even(if j == -1 then Load64(m.mem, tab + 24 * n + 8) else C.Pc(m.mem, tab, j))
    ensures C.Sorted(m.mem, tab, n) ==>
      forall i :: 0 <= i < n ==> (C.Contains(m.mem, tab, i, m.regs[RA1]) <==> i == j)
  {
    j, m' := C.CaseDispatch(x, fetch, base, at, m, tab, n);
    k :| Run(x, fetch, m, k) == Some(m');
  }

  // The relocated table in memory, and the code it leads to.  Opened by TableKey(0).
  ghost predicate TableSet(mem: Mem, e: Env, data: seq<int>, orig: seq<int>, cases: seq<nat>, patch: seq<nat>,
                           base: int, b: nat)
  {
    && b < |orig| && 0 <= orig[b] && b + 3 * orig[b] + 1 < |orig|
    && forall u: int {:trigger TableKey(u)} :: TableKey(u) ==>
        && T.Loaded(orig, cases, |patch|) && T.Relocated(data, orig, cases, patch, base) && b in cases
        && DataAt(mem, e, data) && 0 <= base && base % 4 == 0
        && (forall i :: 0 <= i < |patch| ==> base + 4 * patch[i] < TWO64)
  }

  predicate TableKey(u: int) { true }

  lemma MakeTableSet(mem: Mem, e: Env, data: seq<int>, orig: seq<int>, cases: seq<nat>, patch: seq<nat>,
                     base: int, b: nat)
    requires T.Loaded(orig, cases, |patch|) && T.Relocated(data, orig, cases, patch, base) && b in cases
    requires DataAt(mem, e, data) && 0 <= base && base % 4 == 0
    requires forall i :: 0 <= i < |patch| ==> base + 4 * patch[i] < TWO64
    ensures TableSet(mem, e, data, orig, cases, patch, base, b)
  {
    assert b + 1 + 3 * orig[b] < |orig|;
  }

  lemma MacroOverTable(x: Effect, fetch: Fetcher, base: int, at: nat, e: Env, m: Machine,
                       data: seq<int>, orig: seq<int>, cases: seq<nat>, patch: seq<nat>, b: nat, tab: int)
    returns (j: int, k: nat, m': Machine)
    requires IsRV(x) && Holds(fetch, base, at, C.MacCase()) && m.pc == base + 4 * at
    requires TableSet(m.mem, e, data, orig, cases, patch, base, b)
    requires m.regs[RA3] == tab == e.mp + 8 * b && Cached(m.regs, e)
    ensures Run(x, fetch, m, k) == Some(m') && m'.mem == m.mem && Cached(m'.regs, e)
    ensures j == -1 || (0 <= j < orig[b] && C.Contains(m.mem, tab, j, m.regs[RA1]))
    ensures m'.pc == C.Even(if j == -1 then Load64(m.mem, tab + 24 * orig[b] + 8) else C.Pc(m.mem, tab, j))
    ensures C.Sorted(m.mem, tab, orig[b]) ==>
      forall i :: 0 <= i < orig[b] ==> (C.Contains(m.mem, tab, i, m.regs[RA1]) <==> i == j)
  {
    assert TableKey(0);
    TableThere(m.mem, e, data, orig, cases, patch, base, b);
    j, k, m' := MacroRuns(x, fetch, base, at, e, m, tab, orig[b]);
  }

  // From the macro's first word to the word of the Dis instruction selected.
  lemma LeaveMacro(x: Effect, fetch: Fetcher, base: int, at: nat, e: Env, m: Machine,
                   data: seq<int>, orig: seq<int>, cases: seq<nat>, patch: seq<nat>, b: nat)
    returns (j: int, k: nat, m': Machine)
    requires IsRV(x) && Holds(fetch, base, at, C.MacCase()) && m.pc == base + 4 * at
    requires TableSet(m.mem, e, data, orig, cases, patch, base, b)
    requires m.regs[RA3] == e.mp + 8 * b && Cached(m.regs, e)
    ensures Run(x, fetch, m, k) == Some(m') && m'.mem == m.mem && Cached(m'.regs, e)
    ensures Picks(orig, b, m.regs[RA1], j)
    ensures var s := PcSlot(b, orig[b], j);
            0 <= s < |orig| && 0 <= orig[s] < |patch| && m'.pc == base + 4 * patch[orig[s]]
  {
    var tab := e.mp + 8 * b;
    j, k, m' := MacroOverTable(x, fetch, base, at, e, m, data, orig, cases, patch, b, tab);
    TargetPc(m.mem, e, data, orig, cases, patch, base, b, j);
    OnlyRange(m.mem, e, data, orig, cases, patch, base, b, tab, m.regs[RA1], j);
  }

  // The range of the loaded table that a value selects: one holding it, or none
  // (-1); over ascending disjoint ranges the only one.  Opened by PickKey(0).
  ghost predicate Picks(orig: seq<int>, b: nat, v: int, j: int)
    requires b < |orig| && 0 <= orig[b] && b + 3 * orig[b] + 1 < |orig|
  {
    forall u: int {:trigger PickKey(u)} :: PickKey(u) ==>
      && (j == -1 || (0 <= j < orig[b] && InRange(orig, b, j, v)))
      && (Ascending(orig, b, orig[b]) ==> forall i :: 0 <= i < orig[b] ==> (InRange(orig, b, i, v) <==> i == j))
  }

  predicate PickKey(u: int) { true }

  // What the macro found in the table as it is holds of the table as it was.
  lemma OnlyRange(mem: Mem, e: Env, data: seq<int>, orig: seq<int>, cases: seq<nat>, patch: seq<nat>, base: int,
                  b: nat, tab: int, v: int, j: int)
    requires TableSet(mem, e, data, orig, cases, patch, base, b) && tab == e.mp + 8 * b
    requires j == -1 || (0 <= j < orig[b] && C.Contains(mem, tab, j, v))
    requires C.Sorted(mem, tab, orig[b]) ==> forall i :: 0 <= i < orig[b] ==> (C.Contains(mem, tab, i, v) <==> i == j)
    ensures Picks(orig, b, v, j)
  {
    assert TableKey(0);
    TableThere(mem, e, data, orig, cases, patch, base, b);
    RangesRead(mem, e, data, orig, cases, patch, base, b, v);
  }

  lemma TargetPc(mem: Mem, e: Env, data: seq<int>, orig: seq<int>, cases: seq<nat>, patch: seq<nat>, base: int,
                 b: nat, j: int)
    requires TableSet(mem, e, data, orig, cases, patch, base, b) && (j == -1 || 0 <= j < orig[b])
    ensures var tab, s := e.mp + 8 * b, PcSlot(b, orig[b], j);
            && 0 <= s < |orig| && 0 <= orig[s] < |patch|
            && C.Even(if j == -1 then Load64(mem, tab + 24 * orig[b] + 8) else C.Pc(mem, tab, j))
               == base + 4 * patch[orig[s]]
  {
    assert TableKey(0);
    TableTarget(mem, e, data, orig, cases, patch, base, b, j);
    EvenCode(base, patch[orig[PcSlot(b, orig[b], j)]]);
  }

  lemma RangesRead(mem: Mem, e: Env, data: seq<int>, orig: seq<int>, cases: seq<nat>, patch: seq<int>, base: int,
                   b: nat, v: int)
    requires T.Loaded(orig, cases, |patch|) && T.Relocated(data, orig, cases, patch, base) && b in cases
    requires DataAt(mem, e, data)
    ensures forall i :: 0 <= i < orig[b] ==> (InRange(orig, b, i, v) <==> C.Contains(mem, e.mp + 8 * b, i, v))
  {
    forall i | 0 <= i < orig[b] ensures InRange(orig, b, i, v) <==> C.Contains(mem, e.mp + 8 * b, i, v) {
      TableRead(mem, e, data, orig, cases, patch, base, b, i);
    }
  }

  lemma TableAddr(mem: Mem, e: Env, data: seq<int>, orig: seq<int>, cases: seq<nat>, patch: seq<int>, base: int, b: nat)
    requires T.Loaded(orig, cases, |patch|) && T.Relocated(data, orig, cases, patch, base) && b in cases
    requires DataAt(mem, e, data)
    ensures W64(e.mp + 8 * b) == e.mp + 8 * b
  {
    W64Id(e.mp + 8 * b);
  }

  // From a case instruction's first word to the macro's, over the table.
  lemma ReachTable(x: Effect, fetch: Fetcher, base: int, prog: seq<Inst>, p: Image, pos: nat -> nat, e: Env,
                   m: Machine, st: State, s: Operand,
                   b: nat, data: seq<int>, orig: seq<int>, cases: seq<nat>, patch: seq<nat>)
    returns (k: nat, m': Machine)
    requires Ready(x, fetch, base, prog, p, pos, e) && st.pc < |prog| && MACCASE < |p.macs|
    requires OperandOk(s) && IsWord(8 * b) && prog[st.pc] == Other(CaseItems(s, 8 * b))
    requires OperandSafe(s, e, st.mem) && DataAt(st.mem, e, data) && b in cases
    requires T.Loaded(orig, cases, |patch|) && T.Relocated(data, orig, cases, patch, base)
    requires 0 <= base && base % 4 == 0 && forall i :: 0 <= i < |patch| ==> base + 4 * patch[i] < TWO64
    requires m.pc == base + 4 * pos(p.starts[st.pc]) && Rel(m, st, e)
    ensures Run(x, fetch, m, k) == Some(m') && m'.pc == base + 4 * pos(p.macs[MACCASE])
    ensures m'.mem == m.mem && Cached(m'.regs, e) && TableSet(m.mem, e, data, orig, cases, patch, base, b)
    ensures m'.regs[RA1] == Source(s, e, st.mem) && m'.regs[RA3] == e.mp + 8 * b
  {
    k, m' := ReachMacro(x, fetch, base, prog, p, pos, e, m, st.pc, s, 8 * b);
    AgreeOperand(s, m.mem, st.mem, e);
    DataAgrees(m.mem, st.mem, e, data);
    TableAddr(m.mem, e, data, orig, cases, patch, base, b);
    MakeTableSet(m.mem, e, data, orig, cases, patch, base, b);
  }

  lemma CaseSteps(x: Effect, fetch: Fetcher, base: int, prog: seq<Inst>, p: Image, pos: nat -> nat, e: Env,
                  m: Machine, st: State, s: Operand,
                  b: nat, data: seq<int>, orig: seq<int>, cases: seq<nat>, patch: seq<nat>)
    returns (j: int, k: nat, m': Machine)
    requires Ready(x, fetch, base, prog, p, pos, e) && st.pc < |prog| && MACCASE < |p.macs|
    requires Holds(fetch, base, pos(p.macs[MACCASE]), C.MacCase())
    requires OperandOk(s) && IsWord(8 * b) && prog[st.pc] == Other(CaseItems(s, 8 * b))
    requires OperandSafe(s, e, st.mem) && DataAt(st.mem, e, data) && b in cases
    requires T.Loaded(orig, cases, |patch|) && T.Relocated(data, orig, cases, patch, base)
    requires base % 4 == 0 && forall i :: 0 <= i < |patch| ==> base + 4 * patch[i] < TWO64
    requires m.pc == base + 4 * pos(p.starts[st.pc]) && Rel(m, st, e)
    ensures Run(x, fetch, m, k) == Some(m')
    ensures Picks(orig, b, Source(s, e, st.mem), j)
    ensures var t := PcSlot(b, orig[b], j);
            && 0 <= t < |orig| && 0 <= orig[t] < |patch|
            && m'.pc == base + 4 * patch[orig[t]] && Rel(m', st.(pc := orig[t]), e)
  {
    var k1, m1 := ReachTable(x, fetch, base, prog, p, pos, e, m, st, s, b, data, orig, cases, patch);
    var k2: nat;
    j, k2, m' := LeaveMacro(x, fetch, base, pos(p.macs[MACCASE]), e, m1, data, orig, cases, patch, b);
    RunAdd(x, fetch, m, k1, k2, m1);
    k := k1 + k2;
  }

  // A compiled case instruction whose table is in slot b of the module's data:
  // run from patch[st.pc] it ends at patch of the pc that was loaded for a range
  // holding the value, or of the default's; over ascending disjoint ranges, at
  // the only such range's, and at the default's exactly when there is none.
  // The frame and the module's data are as they were.
  lemma CaseRuns(prog: seq<Inst>, macros: seq<seq<int>>, base: int, e: Env, m: Machine, st: State, s: Operand,
                 b: nat, data: seq<int>, orig: seq<int>, cases: seq<nat>, patch: seq<nat>)
    returns (j: int, k: nat, m': Machine)
    requires Compiled(prog, macros, base) && EnvOk(e) && macros[MACCASE] == EncodeAll(C.MacCase())
    requires patch == Tab(ImageOf(prog, macros).items, Starts(prog, macros), Chosen(ImageOf(prog, macros)))
    requires st.pc < |prog| && OperandOk(s) && IsWord(8 * b) && prog[st.pc] == Other(CaseItems(s, 8 * b))
    requires OperandSafe(s, e, st.mem) && DataAt(st.mem, e, data) && b in cases
    requires T.Loaded(orig, cases, |patch|) && T.Relocated(data, orig, cases, patch, base)
    requires m.pc == base + 4 * patch[st.pc] && Rel(m, st, e)
    ensures Run(Exec, FetchOf(FinalCode(ImageOf(prog, macros)), base), m, k) == Some(m')
    ensures j == -1 || (0 <= j < orig[b] && InRange(orig, b, j, Source(s, e, st.mem)))
    ensures var t := PcSlot(b, orig[b], j);
            && 0 <= t < |orig| && 0 <= orig[t] <= |prog|
            && m'.pc == base + 4 * patch[orig[t]] && Rel(m', st.(pc := orig[t]), e)
    ensures Ascending(orig, b, orig[b]) ==>
      forall i :: 0 <= i < orig[b] ==> (InRange(orig, b, i, Source(s, e, st.mem)) <==> i == j)
  {
    var p := ImageOf(prog, macros);
    var fetch := FetchOf(FinalCode(p), base);
    ImageReady(base, prog, macros, e);
    CaseMacroHolds(prog, macros, base);
    PatchInside(prog, macros, base, patch);
    j, k, m' := CaseSteps(Exec, fetch, base, prog, p, PosFn(p), e, m, st, s, b, data, orig, cases, patch);
    assert PickKey(0);
  }

  lemma PatchInside(prog: seq<Inst>, macros: seq<seq<int>>, base: int, patch: seq<nat>)
    requires Compiled(prog, macros, base)
    requires patch == Tab(ImageOf(prog, macros).items, Starts(prog, macros), Chosen(ImageOf(prog, macros)))
    ensures base % 4 == 0 && forall i :: 0 <= i < |patch| ==> base + 4 * patch[i] < TWO64
  {
    var p := ImageOf(prog, macros);
    FinalShaped(p);
    ShapedSteps(p, PosFn(p), FormFn(p), FinalWords(p));
    forall i | 0 <= i < |patch| ensures base + 4 * patch[i] < TWO64 {
      PosMonotone(p, PosFn(p), FormFn(p), FinalWords(p), p.starts[i], |p.items|);
    }
  }
}
