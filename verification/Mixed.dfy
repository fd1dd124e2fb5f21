// Runs of compiled programs that mix the word subset with word shifts and case
// instructions.
module Mixed {
  import opened Basics
  import opened Rv64
  import opened CodeRun
  import opened Relax
  import opened Layout
  import opened Dis
  import opened Sim
  import opened Program
  import opened Shift
  import opened CaseRun
  import C = CaseJump
  import T = CaseTable

  // The module's data with its case tables relocated, and as they were loaded.
  datatype Tables = Tables(data: seq<int>, orig: seq<int>, cases: seq<nat>)

  ghost predicate TablesOk(tb: Tables, patch: seq<nat>, base: int)
  {
    T.Loaded(tb.orig, tb.cases, |patch|) && T.Relocated(tb.data, tb.orig, tb.cases, patch, base)
  }

  predicate StepKey(u: int) { true }

  // The interpreter at an instruction of the word subset.  Opened by StepKey(0).
  ghost predicate WordStep(prog: seq<Inst>, e: Env, st: State, st': State)
  {
    forall u: int {:trigger StepKey(u)} :: StepKey(u) ==> DisStep(prog, e, st) == Next(st')
  }

  // The interpreter at a shift that the compiled code does as it does.
  ghost predicate ShiftStep(prog: seq<Inst>, e: Env, st: State, st': State, op: ShiftOp, s: Operand, mi: Middle,
                            d: Operand)
  {
    && st.pc < |prog| && OperandOk(s) && MiddleOk(mi) && OperandOk(d) && !d.Imm?
    && prog[st.pc] == Other(Insns(ShiftSeq(op, s, mi, d)))
    && OperandSafe(s, e, st.mem) && MiddleSafe(mi, e) && OperandSafe(d, e, st.mem)
    && !Strays(op, mi, Source(s, e, st.mem))
    && st' == State(st.pc + 1, st.ic, Store64(st.mem, Addr(d, e, st.mem),
         ShiftValue(op, Mid(mi, Source(d, e, st.mem), e, st.mem), Source(s, e, st.mem))))
  }

  // The interpreter at a case instruction: on to the pc of the range that holds
  // the value, or of the default if none does.
  ghost predicate CaseStep(prog: seq<Inst>, e: Env, tb: Tables, st: State, st': State, s: Operand, b: nat, j: int)
  {
    && st.pc < |prog| && OperandOk(s) && IsWord(8 * b) && prog[st.pc] == Other(CaseItems(s, 8 * b))
    && OperandSafe(s, e, st.mem) && DataAt(st.mem, e, tb.data)
    && b in tb.cases && b < |tb.orig| && tb.orig[b] >= 0 && b + 3 * tb.orig[b] + 1 < |tb.orig|
    && Ascending(tb.orig, b, tb.orig[b])
    && -1 <= j < tb.orig[b] && 0 <= tb.orig[PcSlot(b, tb.orig[b], j)]
    && (forall i :: 0 <= i < tb.orig[b] ==> (InRange(tb.orig, b, i, Source(s, e, st.mem)) <==> i == j))
    && st' == st.(pc := tb.orig[PcSlot(b, tb.orig[b], j)])
  }

  ghost predicate MixStep(prog: seq<Inst>, e: Env, tb: Tables, st: State, st': State)
  {
    || WordStep(prog, e, st, st')
    || (exists op, s, mi, d :: ShiftStep(prog, e, st, st', op, s, mi, d))
    || (exists s, b, j :: CaseStep(prog, e, tb, st, st', s, b, j))
  }

  // The states of a run, one instruction after the other.
  ghost predicate MixRun(prog: seq<Inst>, e: Env, tb: Tables, run: seq<State>)
  {
    run != [] && forall i :: 0 <= i < |run| - 1 ==> StepOf(prog, e, tb, run, i)
  }

  ghost predicate StepOf(prog: seq<Inst>, e: Env, tb: Tables, run: seq<State>, i: nat)
    requires i < |run| - 1
  {
    MixStep(prog, e, tb, run[i], run[i + 1])
  }

  // Code and tables in place.
  ghost predicate Set(x: Effect, fetch: Fetcher, base: int, prog: seq<Inst>, p: Image, pos: nat -> nat, e: Env,
                      tb: Tables, patch: seq<nat>)
  {
    && Ready(x, fetch, base, prog, p, pos, e) && MACCASE < |p.macs|
    && Holds(fetch, base, pos(p.macs[MACCASE]), C.MacCase())
    && TablesOk(tb, patch, base) && |patch| == |p.starts|
    && base % 4 == 0
    && (forall i {:trigger patch[i]} :: 0 <= i < |patch| ==>
        base + 4 * patch[i] < TWO64 && patch[i] == pos(p.starts[i]))
  }

  // Over ascending disjoint ranges a value selects one range.
  lemma OnePick(orig: seq<int>, b: nat, v: int, i: int, j: int)
    requires b < |orig| && 0 <= orig[b] && b + 3 * orig[b] + 1 < |orig| && Ascending(orig, b, orig[b])
    requires Picks(orig, b, v, i) && -1 <= j < orig[b]
    requires forall k :: 0 <= k < orig[b] ==> (InRange(orig, b, k, v) <==> k == j)
    ensures i == j
  {
    assert PickKey(0);
    if j >= 0 { assert InRange(orig, b, j, v); }
  }

  lemma SimCase(x: Effect, fetch: Fetcher, base: int, prog: seq<Inst>, p: Image, pos: nat -> nat, e: Env,
                tb: Tables, patch: seq<nat>, m: Machine, st: State, st': State, s: Operand, b: nat, j: int)
    returns (k: nat, m': Machine)
    requires Set(x, fetch, base, prog, p, pos, e, tb, patch) && InStep(p, pos, base, e, m, st)
    requires CaseStep(prog, e, tb, st, st', s, b, j)
    ensures Run(x, fetch, m, k) == Some(m') && InStep(p, pos, base, e, m', st')
  {
    var i;
    i, k, m' := CaseSteps(x, fetch, base, prog, p, pos, e, m, st, s, b, tb.data, tb.orig, tb.cases, patch);
    OnePick(tb.orig, b, Source(s, e, st.mem), i, j);
    assert patch[st'.pc] == pos(p.starts[st'.pc]);
  }

  lemma SimShift(x: Effect, fetch: Fetcher, base: int, prog: seq<Inst>, p: Image, pos: nat -> nat, e: Env,
                 tb: Tables, patch: seq<nat>, m: Machine, st: State, st': State, op: ShiftOp, s: Operand,
                 mi: Middle, d: Operand)
    returns (k: nat, m': Machine)
    requires Set(x, fetch, base, prog, p, pos, e, tb, patch) && InStep(p, pos, base, e, m, st)
    requires ShiftStep(prog, e, st, st', op, s, mi, d)
    ensures Run(x, fetch, m, k) == Some(m') && InStep(p, pos, base, e, m', st')
  {
    var v;
    k, m', v := ShiftRuns(x, fetch, base, prog, p, pos, e, m, st, op, s, mi, d);
  }

  lemma SimWord(x: Effect, fetch: Fetcher, base: int, prog: seq<Inst>, p: Image, pos: nat -> nat, e: Env,
                tb: Tables, patch: seq<nat>, m: Machine, st: State, st': State)
    returns (k: nat, m': Machine)
    requires Set(x, fetch, base, prog, p, pos, e, tb, patch) && InStep(p, pos, base, e, m, st)
    requires WordStep(prog, e, st, st')
    ensures Run(x, fetch, m, k) == Some(m') && InStep(p, pos, base, e, m', st')
  {
    assert StepKey(0);
    k, m' := SimStep(x, fetch, base, prog, p, pos, e, m, st, st');
  }

  lemma SimMixed(x: Effect, fetch: Fetcher, base: int, prog: seq<Inst>, p: Image, pos: nat -> nat, e: Env,
                 tb: Tables, patch: seq<nat>, m: Machine, st: State, st': State)
    returns (k: nat, m': Machine)
    requires Set(x, fetch, base, prog, p, pos, e, tb, patch) && InStep(p, pos, base, e, m, st)
    requires MixStep(prog, e, tb, st, st')
    ensures Run(x, fetch, m, k) == Some(m') && InStep(p, pos, base, e, m', st')
  {
    if WordStep(prog, e, st, st') {
      k, m' := SimWord(x, fetch, base, prog, p, pos, e, tb, patch, m, st, st');
    } else if exists op, s, mi, d :: ShiftStep(prog, e, st, st', op, s, mi, d) {
      var op, s, mi, d :| ShiftStep(prog, e, st, st', op, s, mi, d);
      k, m' := SimShift(x, fetch, base, prog, p, pos, e, tb, patch, m, st, st', op, s, mi, d);
    } else {
      var s, b, j :| CaseStep(prog, e, tb, st, st', s, b, j);
      k, m' := SimCase(x, fetch, base, prog, p, pos, e, tb, patch, m, st, st', s, b, j);
    }
  }

  lemma {:induction false} SimMixedRun(x: Effect, fetch: Fetcher, base: int, prog: seq<Inst>, p: Image, pos: nat -> nat,
                                       e: Env, tb: Tables, patch: seq<nat>, m: Machine, run: seq<State>)
    returns (k: nat, m': Machine)
    requires Set(x, fetch, base, prog, p, pos, e, tb, patch)
    requires MixRun(prog, e, tb, run) && InStep(p, pos, base, e, m, run[0])
    ensures Run(x, fetch, m, k) == Some(m') && InStep(p, pos, base, e, m', run[|run| - 1])
    decreases |run|
  {
    if |run| == 1 {
      k, m' := 0, m;
    } else {
      assert StepOf(prog, e, tb, run, 0);
      var k1, m1 := SimMixed(x, fetch, base, prog, p, pos, e, tb, patch, m, run[0], run[1]);
      forall i | 0 <= i < |run[1..]| - 1 ensures StepOf(prog, e, tb, run[1..], i) {
        assert StepOf(prog, e, tb, run, i + 1);
      }
      var k2: nat;
      k2, m' := SimMixedRun(x, fetch, base, prog, p, pos, e, tb, patch, m1, run[1..]);
      RunAdd(x, fetch, m, k1, k2, m1);
      k := k1 + k2;
    }
  }

  // The compiler is correct on mixed programs: any run of word instructions,
  // shifts that do not stray, and cases over ascending tables is matched by the
  // final code, from patch of its first pc to patch of its last, with the same
  // frame and module memory.
  lemma MixedCorrect(prog: seq<Inst>, macros: seq<seq<int>>, base: int, e: Env, tb: Tables, patch: seq<nat>,
                     m: Machine, run: seq<State>)
    returns (k: nat, m': Machine)
    requires Compiled(prog, macros, base) && EnvOk(e) && macros[MACCASE] == EncodeAll(C.MacCase())
    requires patch == Tab(ImageOf(prog, macros).items, Starts(prog, macros), Chosen(ImageOf(prog, macros)))
    requires TablesOk(tb, patch, base) && MixRun(prog, e, tb, run)
    requires run[0].pc < |patch| && m.pc == base + 4 * patch[run[0].pc] && Rel(m, run[0], e)
    ensures Run(Exec, FetchOf(FinalCode(ImageOf(prog, macros)), base), m, k) == Some(m')
    ensures var st := run[|run| - 1]; st.pc < |patch| && m'.pc == base + 4 * patch[st.pc] && Rel(m', st, e)
  {
    var p := ImageOf(prog, macros);
    ImageReady(base, prog, macros, e);
    CaseMacroHolds(prog, macros, base);
    PatchInside(prog, macros, base, patch);
    k, m' := SimMixedRun(Exec, FetchOf(FinalCode(p), base), base, prog, p, PosFn(p), e, tb, patch, m, run);
  }
}
