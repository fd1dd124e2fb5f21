// Running machine code: fetch, decode, execute.  The run functions take the
// effect of an instruction as an argument, so that what is proved about runs
// does not depend on it; everywhere else it is Rv64.Exec.
module CodeRun {
  import opened Basics
  import opened Rv64

  type Effect = (Insn, Machine) -> Machine

  // The instruction found at an address, if any.
  type Fetcher = int -> Option<Insn>

  // Neither a jump nor a branch: the next instruction is the next word.
  predicate Straight(i: Insn) { Encodable(i) && !i.Branch? && !i.Jal? && !i.Jalr? }

  predicate StraightAt(s: seq<Insn>, k: nat) requires k < |s| { Straight(s[k]) }
  predicate AllStraight(s: seq<Insn>) { forall k :: 0 <= k < |s| ==> StraightAt(s, k) }

  predicate EncodableAt(s: seq<Insn>, k: nat) requires k < |s| { Encodable(s[k]) }
  predicate AllEncodable(s: seq<Insn>) { forall k :: 0 <= k < |s| ==> EncodableAt(s, k) }

  lemma AllStraightConcat(a: seq<Insn>, b: seq<Insn>)
    requires AllStraight(a) && AllStraight(b)
    ensures AllStraight(a + b)
  {
    forall k | 0 <= k < |a + b| ensures StraightAt(a + b, k) {
      assert if k < |a| then StraightAt(a, k) else StraightAt(b, k - |a|);
    }
  }

  lemma AllStraightTail(s: seq<Insn>)
    requires AllStraight(s) && s != []
    ensures Straight(s[0]) && AllStraight(s[1..])
  {
    assert StraightAt(s, 0);
    forall k | 0 <= k < |s[1..]| ensures StraightAt(s[1..], k) {
      assert StraightAt(s, k + 1);
    }
  }

  function ExecAll(x: Effect, s: seq<Insn>, m: Machine): Machine
  {
    if s == [] then m else ExecAll(x, s[1..], x(s[0], m))
  }

  lemma {:induction false} ExecAllConcat(x: Effect, a: seq<Insn>, b: seq<Insn>, m: Machine)
    ensures ExecAll(x, a + b, m) == ExecAll(x, b, ExecAll(x, a, m))
  {
    if a == [] {
      assert a + b == b;
    } else {
      assert (a + b)[1..] == a[1..] + b;
      ExecAllConcat(x, a[1..], b, x(a[0], m));
    }
  }

  lemma ExecAllOne(x: Effect, i: Insn, m: Machine)
    ensures ExecAll(x, [i], m) == x(i, m)
  {
    assert [i][1..] == [];
  }

  lemma ExecAllTwo(x: Effect, i: Insn, j: Insn, m: Machine)
    ensures ExecAll(x, [i, j], m) == x(j, x(i, m))
  {
    assert [i, j] == [i] + [j];
    ExecAllConcat(x, [i], [j], m);
    ExecAllOne(x, i, m);
    ExecAllOne(x, j, x(i, m));
  }

  // k steps; None when there is nothing to execute at some pc on the way.
  function Run(x: Effect, fetch: Fetcher, m: Machine, k: nat): Option<Machine>
    decreases k
  {
    if k == 0 then Some(m)
    else
      match fetch(m.pc)
      case None => None
      case Some(i) => Run(x, fetch, x(i, m), k - 1)
  }

  lemma {:induction false} RunAdd(x: Effect, fetch: Fetcher, m: Machine, j: nat, k: nat, m1: Machine)
    requires Run(x, fetch, m, j) == Some(m1)
    ensures Run(x, fetch, m, j + k) == Run(x, fetch, m1, k)
    decreases j
  {
    if j > 0 {
      RunAdd(x, fetch, x(fetch(m.pc).value, m), j - 1, k, m1);
    }
  }

  // s is what is fetched from word index `at` on.
  predicate Holds(fetch: Fetcher, base: int, at: int, s: seq<Insn>)
  {
    && 0 <= base && 0 <= at && base + 4 * (at + |s|) < TWO64
    && forall k :: 0 <= k < |s| ==> fetch(base + 4 * (at + k)) == Some(s[k])
  }

  lemma HoldsSplit(fetch: Fetcher, base: int, at: int, a: seq<Insn>, b: seq<Insn>)
    requires Holds(fetch, base, at, a + b)
    ensures Holds(fetch, base, at, a) && Holds(fetch, base, at + |a|, b)
  {
    forall k | 0 <= k < |a| ensures fetch(base + 4 * (at + k)) == Some(a[k]) {
      assert (a + b)[k] == a[k];
    }
    forall k | 0 <= k < |b| ensures fetch(base + 4 * (at + |a| + k)) == Some(b[k]) {
      assert (a + b)[|a| + k] == b[k];
      assert at + |a| + k == at + (|a| + k);
    }
  }

  lemma RunOne(x: Effect, fetch: Fetcher, base: int, at: int, i: Insn, m: Machine)
    requires Holds(fetch, base, at, [i]) && m.pc == base + 4 * at
    ensures Run(x, fetch, m, 1) == Some(x(i, m))
  {
    assert fetch(base + 4 * (at + 0)) == Some([i][0]);
    assert Run(x, fetch, x(i, m), 0) == Some(x(i, m));
  }

  // Straight instructions move the pc on by one word.
  ghost predicate Advances(x: Effect)
  {
    forall i, m :: Straight(i) ==> x(i, m).pc == U64(m.pc + 4)
  }

  // x is the RV64 effect.  Stated so that it says nothing of an instruction
  // until Exec of it is mentioned.
  ghost predicate IsRV(x: Effect)
  {
    Advances(x) && forall i, m {:trigger Exec(i, m)} :: x(i, m) == Exec(i, m)
  }

  lemma ExecIsRV()
    ensures IsRV(Exec)
  {
    forall i, m | Straight(i) ensures Exec(i, m).pc == U64(m.pc + 4) {
    }
  }

  // Straight-line code in place runs as ExecAll says.
  lemma {:induction false} RunStraight(x: Effect, fetch: Fetcher, base: int, at: int, s: seq<Insn>, m: Machine)
    requires Advances(x)
    requires Holds(fetch, base, at, s) && AllStraight(s) && m.pc == base + 4 * at
    ensures Run(x, fetch, m, |s|) == Some(ExecAll(x, s, m))
    ensures ExecAll(x, s, m).pc == base + 4 * (at + |s|)
    decreases |s|
  {
    if s != [] {
      assert s == [s[0]] + s[1..];
      HoldsSplit(fetch, base, at, [s[0]], s[1..]);
      AllStraightTail(s);
      assert fetch(base + 4 * (at + 0)) == Some(s[0]);
      assert x(s[0], m).pc == base + 4 * (at + 1);
      RunStraight(x, fetch, base, at + 1, s[1..], x(s[0], m));
    }
  }

  // -- words --------------------------------------------------------------------

  // The code of a module: 32-bit words from a 4-aligned base that does not
  // wrap round the address space.
  predicate Mapped(code: seq<int>, base: int)
  {
    0 <= base && base % 4 == 0 && base + 4 * |code| < TWO64
  }

  function Fetch(code: seq<int>, base: int, pc: int): Option<Insn>
  {
    if base <= pc && (pc - base) % 4 == 0 && (pc - base) / 4 < |code| then
      var w := code[(pc - base) / 4];
      if 0 <= w < 0x1_0000_0000 then Decode(w) else None
    else None
  }

  function FetchOf(code: seq<int>, base: int): Fetcher { pc => Fetch(code, base, pc) }

  function EncodeAll(s: seq<Insn>): (ws: seq<int>)
    ensures |ws| == |s|
    ensures forall k :: 0 <= k < |s| ==> ws[k] == EncodeInt(s[k])
  {
    seq(|s|, k requires 0 <= k < |s| => EncodeInt(s[k]))
  }

  // fetch finds the encodable instructions of the code where they are.
  ghost predicate Fetches(fetch: Fetcher, code: seq<int>, base: int)
  {
    Serves(fetch, EncodeInt, Encodable, code, base)
  }

  ghost predicate Serves(fetch: Fetcher, enc: Insn -> int, ok: Insn -> bool, code: seq<int>, base: int)
  {
    && 0 <= base && base + 4 * |code| < TWO64
    && forall j, i :: 0 <= j < |code| && ok(i) && code[j] == enc(i) ==> fetch(base + 4 * j) == Some(i)
  }

  lemma FetchOfFetches(code: seq<int>, base: int)
    requires Mapped(code, base)
    ensures Fetches(FetchOf(code, base), code, base)
  {
    forall j, i | 0 <= j < |code| && Encodable(i) && code[j] == EncodeInt(i)
      ensures FetchOf(code, base)(base + 4 * j) == Some(i)
    {
      FetchAt(code, base, j, i);
    }
  }

  // Encoded instructions in place are fetched back as they were.
  lemma HoldsEncoded(fetch: Fetcher, code: seq<int>, base: int, at: nat, s: seq<Insn>)
    requires Fetches(fetch, code, base) && at + |s| <= |code| && code[at..at + |s|] == EncodeAll(s)
    requires AllEncodable(s)
    ensures Holds(fetch, base, at, s)
  {
    forall k | 0 <= k < |s| ensures Encodable(s[k]) {
      assert EncodableAt(s, k);
    }
    HoldsWords(fetch, EncodeInt, Encodable, code, base, at, s);
  }

  lemma HoldsWords(fetch: Fetcher, enc: Insn -> int, ok: Insn -> bool, code: seq<int>, base: int, at: nat, s: seq<Insn>)
    requires Serves(fetch, enc, ok, code, base)
    requires at + |s| <= |code| && |code[at..at + |s|]| == |s|
    requires forall k :: 0 <= k < |s| ==> code[at..at + |s|][k] == enc(s[k])
    requires forall k :: 0 <= k < |s| ==> ok(s[k])
    ensures Holds(fetch, base, at, s)
  {
    forall k | 0 <= k < |s| ensures fetch(base + 4 * (at + k)) == Some(s[k]) {
      assert code[at..at + |s|][k] == code[at + k];
    }
  }

  lemma FetchAt(code: seq<int>, base: int, at: nat, i: Insn)
    requires Mapped(code, base) && at < |code| && Encodable(i) && code[at] == EncodeInt(i)
    ensures FetchOf(code, base)(base + 4 * at) == Some(i)
  {
    DecodeEncode(i);
    assert (base + 4 * at - base) / 4 == at && (base + 4 * at - base) % 4 == 0;
  }
}
