// How the compiler relocates the tables of case instructions while it makes
// its three passes: tables live in the module's data, several instructions may
// share one, and a negated count marks a table still to be relocated.
module CaseTable {

  const PASSEMIT := 2

  // A table with n ranges at slot b: its count at b, then lo, hi, pc for each
  // range, then the default pc.
  predicate IsPc(b: int, n: int, j: int)
  {
    j == b + 1 + 3 * n || (b < j < b + 1 + 3 * n && (j - b) % 3 == 0)
  }

  predicate InTable(b: int, n: int, j: int) { b <= j <= b + 1 + 3 * n }

  function Relpc(base: int, patch: seq<int>, pc: int): int
    requires 0 <= pc < |patch|
  {
    base + 4 * patch[pc]
  }

  // The data as the loader leaves it: every table has a count and pcs of the
  // program, and tables at different places do not overlap.
  ghost predicate Loaded(orig: seq<int>, cases: seq<nat>, size: nat)
  {
    && (forall b :: b in cases ==> b < |orig| && orig[b] >= 0 && b + 1 + 3 * orig[b] < |orig|)
    && (forall b, j :: b in cases && 0 <= j < |orig| && IsPc(b, orig[b], j) ==> 0 <= orig[j] < size)
    && (forall b, c, j :: b in cases && c in cases && InTable(b, orig[b], j) && InTable(c, orig[c], j) ==> b == c)
  }

  function Marked(l: int): int { -l - 1 }

  // Some of the tables marked, nothing else changed.
  ghost predicate SomeMarked(d: seq<int>, orig: seq<int>, cases: seq<nat>)
  {
    && |d| == |orig|
    && forall j :: 0 <= j < |d| ==> d[j] == orig[j] || (j in cases && d[j] == Marked(orig[j]))
  }

  // The tables of `cases` marked.
  ghost predicate AllMarked(d: seq<int>, orig: seq<int>, cases: seq<nat>)
  {
    && |d| == |orig|
    && forall j :: 0 <= j < |d| ==> d[j] == if j in cases then Marked(orig[j]) else orig[j]
  }

  // The pcs of the tables of `done` relocated and their counts restored.
  ghost predicate IsDone(d: seq<int>, orig: seq<int>, cases: seq<nat>, done: seq<nat>, patch: seq<int>, base: int)
    requires Loaded(orig, cases, |patch|) && forall b :: b in done ==> b in cases
  {
    && |d| == |orig|
    && (forall j :: 0 <= j < |d| && j in cases ==> d[j] == if j in done then orig[j] else Marked(orig[j]))
    && (forall b, j :: b in done && 0 <= j < |d| && IsPc(b, orig[b], j) ==> d[j] == Relpc(base, patch, orig[j]))
    && (forall j :: 0 <= j < |d| && j !in cases && (forall b :: b in done ==> !IsPc(b, orig[b], j)) ==> d[j] == orig[j])
  }

  // Every table relocated once, whatever number of instructions share it: its
  // pcs are addresses in the code, its count and everything else as loaded.
  ghost predicate Relocated(d: seq<int>, orig: seq<int>, cases: seq<nat>, patch: seq<int>, base: int)
    requires Loaded(orig, cases, |patch|)
  {
    && |d| == |orig|
    && (forall b, j :: b in cases && 0 <= j < |d| && IsPc(b, orig[b], j) ==> d[j] == Relpc(base, patch, orig[j]))
    && (forall j :: 0 <= j < |d| && (forall b :: b in cases ==> !IsPc(b, orig[b], j)) ==> d[j] == orig[j])
  }

  // One case instruction's table, in one pass.
  method Comcase(b: nat, pass: nat, data: array<int>, patch: seq<int>, base: int)
    requires b < data.Length && b + 1 + 3 * (if data[b] < 0 then Marked(data[b]) else data[b]) < data.Length
    requires pass == PASSEMIT && data[b] < 0 ==>
      forall j :: 0 <= j < data.Length && IsPc(b, Marked(data[b]), j) ==> 0 <= data[j] < |patch|
    modifies data
    ensures pass != PASSEMIT || old(data[b]) >= 0 ==>
      data[..] == old(data[..])[b := if pass == 0 && old(data[b]) >= 0 then Marked(old(data[b])) else old(data[b])]
    ensures pass == PASSEMIT && old(data[b]) < 0 ==>
      var n := Marked(old(data[b]));
      forall j :: 0 <= j < data.Length ==>
        data[j] == if j == b then n else if IsPc(b, n, j) then Relpc(base, patch, old(data[j])) else old(data[j])
  {
    var l := data[b];
    if pass != PASSEMIT {
      if pass == 0 && l >= 0 {
        data[b] := -l - 1;
      }
      return;
    }
    if l >= 0 {
      return;
    }
    data[b] := -l - 1;
    var t, e := b + 1, b + 1 + 3 * data[b];
    ghost var was := old(data[..]);
    ghost var k := 0;
    while t < e
      invariant 0 <= k <= Marked(l) && t == b + 1 + 3 * k && data[b] == Marked(l)
      invariant forall j :: 0 <= j < data.Length && j != b ==>
        data[j] == if j < t && IsPc(b, Marked(l), j) then Relpc(base, patch, was[j]) else was[j]
    {
      assert IsPc(b, Marked(l), t + 2) && data[t + 2] == was[t + 2];
      data[t + 2] := base + 4 * patch[data[t + 2]];
      t, k := t + 3, k + 1;
    }
    assert IsPc(b, Marked(l), t) && data[t] == was[t];
    data[t] := base + 4 * patch[data[t]];
  }

  // Pass 0 as far as the first k case instructions: their tables are marked and
  // nothing else is changed.
  method MarkUpTo(cases: seq<nat>, k: nat, data: array<int>, ghost orig: seq<int>, patch: seq<int>, base: int)
    requires Loaded(orig, cases, |patch|) && SomeMarked(data[..], orig, cases) && k <= |cases|
    modifies data
    ensures SomeMarked(data[..], orig, cases)
    ensures forall j :: 0 <= j < data.Length ==>
      data[j] == if j in cases[..k] then Marked(orig[j]) else old(data[j])
  {
    for i := 0 to k
      invariant SomeMarked(data[..], orig, cases)
      invariant forall j :: 0 <= j < data.Length ==>
        data[j] == if j in cases[..i] then Marked(orig[j]) else old(data[j])
    {
      assert cases[i] in cases && cases[..i + 1] == cases[..i] + [cases[i]];
      Comcase(cases[i], 0, data, patch, base);
    }
  }

  // The passes of a compile that gives up before it emits: in pass 0 after k case
  // instructions, or, again, when pass 1 has run too.
  method SizeOnly(cases: seq<nat>, k: nat, data: array<int>, ghost orig: seq<int>, patch: seq<int>, base: int,
                  again: bool)
    requires Loaded(orig, cases, |patch|) && SomeMarked(data[..], orig, cases)
    requires k <= |cases| && (again ==> k == |cases|)
    modifies data
    ensures SomeMarked(data[..], orig, cases)
    ensures forall j :: 0 <= j < data.Length ==>
      data[j] == if j in cases[..k] then -orig[j] - 1 else old(data[j])
  {
    MarkUpTo(cases, k, data, orig, patch, base);
    if again {
      ghost var was := data[..];
      for i := 0 to |cases|
        invariant data[..] == was
      {
        assert cases[i] in cases;
        Comcase(cases[i], 1, data, patch, base);
      }
    }
  }

  // The three passes over all case instructions, from data as loaded or as an
  // abandoned compile left it.
  method AllPasses(cases: seq<nat>, data: array<int>, ghost orig: seq<int>, patch: seq<int>, base: int)
    requires Loaded(orig, cases, |patch|) && SomeMarked(data[..], orig, cases)
    modifies data
    ensures Relocated(data[..], orig, cases, patch, base)
  {
    SizeOnly(cases, |cases|, data, orig, patch, base, true);
    assert cases[..|cases|] == cases;
    assert AllMarked(data[..], orig, cases);
    for i := 0 to |cases|
      invariant IsDone(data[..], orig, cases, cases[..i], patch, base)
    {
      var b := cases[i];
      ghost var was := data[..];
      DoneReady(was, orig, cases, cases[..i], b, patch, base);
      Comcase(b, PASSEMIT, data, patch, base);
      assert cases[..i + 1] == cases[..i] + [b];
      DoneStep(was, data[..], orig, cases, cases[..i], b, patch, base);
    }
    assert cases[..|cases|] == cases;
  }

  lemma DoneReady(d: seq<int>, orig: seq<int>, cases: seq<nat>, done: seq<nat>, c: nat, patch: seq<int>, base: int)
    requires Loaded(orig, cases, |patch|) && c in cases && forall b :: b in done ==> b in cases
    requires IsDone(d, orig, cases, done, patch, base)
    ensures d[c] == if c in done then orig[c] else Marked(orig[c])
    ensures c !in done ==> forall j :: 0 <= j < |d| && IsPc(c, orig[c], j) ==> d[j] == orig[j]
  {
    if c !in done {
      forall j | 0 <= j < |d| && IsPc(c, orig[c], j) ensures d[j] == orig[j] {
        assert InTable(c, orig[c], j);
        assert j in cases ==> InTable(j, orig[j], j);
        forall b | b in done ensures !IsPc(b, orig[b], j) {
          assert IsPc(b, orig[b], j) ==> InTable(b, orig[b], j);
        }
      }
    }
  }

  lemma DoneStep(d: seq<int>, d': seq<int>, orig: seq<int>, cases: seq<nat>, done: seq<nat>, c: nat,
    patch: seq<int>, base: int)
    requires Loaded(orig, cases, |patch|) && c in cases && forall b :: b in done ==> b in cases
    requires IsDone(d, orig, cases, done, patch, base) && |d'| == |d|
    requires c in done ==> d' == d
    requires c !in done ==> forall j :: 0 <= j < |d| ==>
      d'[j] == if j == c then orig[c] else if IsPc(c, orig[c], j) then Relpc(base, patch, orig[j]) else d[j]
    ensures IsDone(d', orig, cases, done + [c], patch, base)
  {
    if c !in done {
      forall j | 0 <= j < |d| && j in cases && j != c ensures d'[j] == d[j] {
        assert InTable(j, orig[j], j);
        assert !InTable(c, orig[c], j);
      }
      forall b, j | b in done && 0 <= j < |d| && IsPc(b, orig[b], j) ensures d'[j] == Relpc(base, patch, orig[j]) {
        assert InTable(b, orig[b], j);
        assert InTable(c, orig[c], c);
      }
      assert forall b :: b in done ==> b in done + [c];
      assert c in done + [c];
    }
  }

  // Data that was as loaded, left by a compile given up after k case
  // instructions, is as loaded exactly when it reached none; what it leaves is
  // what the next compile may start from.
  lemma AbandonedKeepsMarks(d: seq<int>, orig: seq<int>, cases: seq<nat>, k: nat)
    requires k <= |cases| && AllMarked(d, orig, cases[..k]) && forall b :: b in cases ==> b < |orig| && orig[b] >= 0
    ensures d == orig <==> k == 0
    ensures SomeMarked(d, orig, cases)
  {
    if k > 0 {
      assert cases[0] in cases && cases[..k][0] == cases[0];
      assert d[cases[0]] < 0;
    }
    forall j | 0 <= j < |d| ensures d[j] == orig[j] || (j in cases && d[j] == Marked(orig[j])) {
      assert j in cases[..k] ==> j in cases;
    }
  }
}
