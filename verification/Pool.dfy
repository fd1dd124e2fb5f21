// The address pool: an open-addressed index over the constants of a module.
module Pool {
  import opened Basics

  type uvlong = v: int | 0 <= v < 0x1_0000_0000_0000_0000

  datatype Slot = Overflow | At(index: nat)

  function Hash(v: uvlong): nat
  {
    var b := v as bv64;
    var x := (b ^ (b >> 29) ^ (b >> 47)) as int;
    x % 0x1_0000_0000 * 2654435761 % 0x1_0000_0000
  }

  // The pool as a value: what adding v does to the constants seen so far.
  function Add(s: seq<uvlong>, v: uvlong): (r: seq<uvlong>)
    ensures v in r && s <= r
    ensures Distinct(s) ==> Distinct(r)
  {
    if v in s then s else s + [v]
  }

  predicate Distinct(s: seq<uvlong>) { forall i, j :: 0 <= i < j < |s| ==> s[i] != s[j] }

  function AddAll(s: seq<uvlong>, vs: seq<uvlong>): (r: seq<uvlong>)
    decreases |vs|
  {
    if vs == [] then s else Add(AddAll(s, vs[..|vs| - 1]), vs[|vs| - 1])
  }

  // Adding n constants takes at most n slots, keeps values distinct, and never
  // moves one already handed out.
  lemma {:induction false} AddAllBound(s: seq<uvlong>, vs: seq<uvlong>)
    ensures |AddAll(s, vs)| <= |s| + |vs| && s <= AddAll(s, vs)
    ensures Distinct(s) ==> Distinct(AddAll(s, vs))
    ensures forall v :: v in vs ==> v in AddAll(s, vs)
    decreases |vs|
  {
    if vs != [] {
      AddAllBound(s, vs[..|vs| - 1]);
      assert vs == vs[..|vs| - 1] + [vs[|vs| - 1]];
    }
  }

  // -- probing ---------------------------------------------------------------------------

  function Next(k: nat, n: nat): (r: nat)
    requires k < n
    ensures r < n
  {
    if k + 1 == n then 0 else k + 1
  }

  // The i-th cell probed from h.
  function Probe(h: nat, i: nat, n: nat): (k: nat)
    requires n > 0
    ensures k < n
  {
    if i == 0 then h % n else Next(Probe(h, i - 1, n), n)
  }

  lemma {:induction false} ProbeWraps(h: nat, i: nat, n: nat)
    requires i < n
    ensures Probe(h, i, n) == if h % n + i < n then h % n + i else h % n + i - n
  {
    if i > 0 {
      ProbeWraps(h, i - 1, n);
    }
  }

  lemma NextIsMod(k: nat, n: nat)
    requires k < n
    ensures Next(k, n) == (k + 1) % n
  {
  }

  // n probes from anywhere visit every cell.
  lemma ProbeCovers(h: nat, k: nat, n: nat)
    requires k < n
    ensures exists i :: 0 <= i < n && Probe(h, i, n) == k
  {
    var r := h % n;
    var i := if k >= r then k - r else k + n - r;
    ProbeWraps(h, i, n);
  }

  // As many distinct numbers below m as there are cells: no more cells than m.
  lemma {:induction false} PigeonHole(s: seq<int>, m: nat)
    requires forall i :: 0 <= i < |s| ==> 0 <= s[i] < m
    requires forall i, j :: 0 <= i < j < |s| ==> s[i] != s[j]
    ensures |s| <= m
    decreases m
  {
    if |s| > 0 {
      assert 0 <= s[0] < m;
      if m - 1 in s {
        var k :| 0 <= k < |s| && s[k] == m - 1;
        var t := s[..k] + s[k + 1..];
        PigeonHole(t, m - 1);
      } else {
        PigeonHole(s, m - 1);
      }
    }
  }

  // -- the index as a value ----------------------------------------------------------------

  type Hasher = uvlong -> nat

  // What hides the two predicates below until a proof opens them with Key(0).
  predicate Key(u: int) { true }

  // cells indexes pool: entry j is in cell at[j], which is probe dist[j] from
  // the hash of its value, and every earlier probe meets a cell in use.
  ghost predicate Indexes(hash: Hasher, cells: seq<int>, pool: seq<uvlong>, at: seq<nat>, dist: seq<nat>)
    requires |cells| > 0
  {
    forall u: int {:trigger Key(u)} :: Key(u) ==>
      && |at| == |dist| == |pool| && Distinct(pool)
      && (forall k :: 0 <= k < |cells| ==> cells[k] == -1 || (0 <= cells[k] < |pool| && at[cells[k]] == k))
      && (forall j :: 0 <= j < |pool| ==> at[j] < |cells| && cells[at[j]] == j)
      && (forall j :: 0 <= j < |pool| ==> Reached(cells, hash(pool[j]), at[j], dist[j]))
  }

  ghost predicate Reached(cells: seq<int>, h: nat, k: nat, d: nat)
    requires |cells| > 0
  {
    k == Probe(h, d, |cells|) && forall i :: 0 <= i < d ==> InUse(cells, h, i)
  }

  ghost predicate InUse(cells: seq<int>, h: nat, i: nat)
    requires |cells| > 0
  {
    cells[Probe(h, i, |cells|)] >= 0
  }

  // The first n probes from h all meet a cell in use by another value.
  ghost predicate Busy(cells: seq<int>, pool: seq<uvlong>, val: uvlong, h: nat, n: nat)
    requires |cells| > 0
  {
    forall i :: 0 <= i < n ==> Other(cells, pool, val, h, i)
  }

  ghost predicate Other(cells: seq<int>, pool: seq<uvlong>, val: uvlong, h: nat, i: nat)
    requires |cells| > 0
  {
    var c := cells[Probe(h, i, |cells|)];
    0 <= c < |pool| && pool[c] != val
  }

  lemma CellHolds(hash: Hasher, cells: seq<int>, pool: seq<uvlong>, at: seq<nat>, dist: seq<nat>, k: nat)
    requires k < |cells| && Indexes(hash, cells, pool, at, dist)
    ensures -1 <= cells[k] < |pool|
  {
    assert Key(0);
  }

  // More cells than entries: some cell is empty.
  lemma SomeEmpty(hash: Hasher, cells: seq<int>, pool: seq<uvlong>, at: seq<nat>, dist: seq<nat>)
    requires |pool| < |cells| && Indexes(hash, cells, pool, at, dist)
    ensures exists k :: 0 <= k < |cells| && cells[k] == -1
  {
    assert Key(0);
    if forall k :: 0 <= k < |cells| ==> cells[k] != -1 {
      assert forall i, j :: 0 <= i < j < |cells| ==> cells[i] != cells[j];
      PigeonHole(cells, |pool|);
      assert false;
    }
  }

  // Probing meets the value or an empty cell before it has been everywhere.
  lemma NotAllBusy(hash: Hasher, cells: seq<int>, pool: seq<uvlong>, at: seq<nat>, dist: seq<nat>,
    val: uvlong, h: nat, n: nat)
    requires |pool| < |cells| && Indexes(hash, cells, pool, at, dist)
    requires Busy(cells, pool, val, h, n)
    ensures n < |cells|
  {
    SomeEmpty(hash, cells, pool, at, dist);
    var k :| 0 <= k < |cells| && cells[k] == -1;
    ProbeCovers(h, k, |cells|);
    var j :| 0 <= j < |cells| && Probe(h, j, |cells|) == k;
    assert !Other(cells, pool, val, h, j);
  }

  // Probing past others only to an empty cell: the value is not in the pool.
  lemma NotStored(hash: Hasher, cells: seq<int>, pool: seq<uvlong>, at: seq<nat>, dist: seq<nat>, val: uvlong, i: nat)
    requires |cells| > 0 && Indexes(hash, cells, pool, at, dist) && !InUse(cells, hash(val), i)
    requires Busy(cells, pool, val, hash(val), i)
    ensures val !in pool
  {
    assert Key(0);
    forall j | 0 <= j < |pool| ensures pool[j] != val {
      assert cells[at[j]] == j;
      assert Reached(cells, hash(pool[j]), at[j], dist[j]);
      assert dist[j] < i ==> Other(cells, pool, val, hash(val), dist[j]);
      assert i < dist[j] ==> InUse(cells, hash(pool[j]), i);
    }
  }

  lemma Enter(hash: Hasher, cells: seq<int>, pool: seq<uvlong>, at: seq<nat>, dist: seq<nat>, val: uvlong, k: nat,
              i: nat)
    requires k < |cells| && Indexes(hash, cells, pool, at, dist) && val !in pool
    requires k == Probe(hash(val), i, |cells|) && cells[k] < 0
    requires Busy(cells, pool, val, hash(val), i)
    ensures Indexes(hash, cells[k := |pool|], pool + [val], at + [k], dist + [i])
  {
    assert Key(0);
    var cells', pool', at', dist' := cells[k := |pool|], pool + [val], at + [k], dist + [i];
    forall j | 0 <= j < |pool'| ensures Reached(cells', hash(pool'[j]), at'[j], dist'[j]) {
      assert j < |pool| ==> Reached(cells, hash(pool[j]), at[j], dist[j]);
      forall e | 0 <= e < dist'[j] ensures InUse(cells', hash(pool'[j]), e) {
        assert j < |pool| ==> InUse(cells, hash(pool[j]), e);
        assert j == |pool| ==> Other(cells, pool, val, hash(val), e);
      }
    }
  }

  // -- the pool as it is built -------------------------------------------------------------

  class AddressPool {
    const hash: Hasher             // Hash: nothing below depends on which it is
    const ncon: nat                // worst case, counted in the sizing passes
    const nchash: nat
    var cpool: array<uvlong>
    var ncpool: nat                // entries in use
    var chash: array<int>          // index of cpool, -1 empty
    ghost var at: seq<nat>         // the cell that indexes each entry
    ghost var dist: seq<nat>       // how many probes from its hash it is

    constructor (n: nat)
      ensures Valid() && fresh(cpool) && fresh(chash) && Contents() == [] && ncon == n
    {
      hash, ncon, nchash := Hash, n, 2 * n + 1;
      cpool := new uvlong[n + 1](i => 0);
      chash := new int[2 * n + 1](i => -1);
      ncpool := 0;
      at, dist := [], [];
    }

    ghost predicate Valid()
      reads this, cpool, chash
    {
      && nchash == 2 * ncon + 1 == chash.Length && cpool.Length == ncon + 1 && ncpool <= ncon
      && Indexes(hash, chash[..], cpool[..ncpool], at, dist)
    }

    ghost function Contents(): seq<uvlong>
      requires Valid()
      reads this, cpool, chash
    {
      cpool[..ncpool]
    }

    // The slot for val: the one it has, or a new one.
    method Slot(val: uvlong) returns (r: Slot)
      requires Valid()
      modifies this`ncpool, this`at, this`dist, cpool, chash
      ensures Valid()
      ensures r == Overflow <==> old(val !in Contents()) && old(ncpool) == ncon
      ensures Contents() == if r.At? then Add(old(Contents()), val) else old(Contents())
      ensures r.At? ==> r.index < ncpool && Contents()[r.index] == val
    {
      ghost var pool, cells := cpool[..ncpool], chash[..];
      var h := hash(val);
      var k := h % nchash;
      ghost var i := 0;
      CellHolds(hash, cells, pool, at, dist, k);
      while chash[k] >= 0
        invariant 0 <= i < nchash && k == Probe(h, i, nchash) && -1 <= cells[k] < |pool|
        invariant Busy(cells, pool, val, h, i)
        modifies {}
        decreases nchash - i
      {
        if cpool[chash[k]] == val {
          assert pool[cells[k]] == val;
          return At(chash[k]);
        }
        assert Other(cells, pool, val, h, i);
        NotAllBusy(hash, cells, pool, at, dist, val, h, i + 1);
        NextIsMod(k, nchash);
        k := (k + 1) % nchash;
        i := i + 1;
        CellHolds(hash, cells, pool, at, dist, k);
      }
      NotStored(hash, cells, pool, at, dist, val, i);
      if ncpool >= ncon {
        return Overflow;
      }
      Enter(hash, cells, pool, at, dist, val, k, i);
      chash[k] := ncpool;
      cpool[ncpool] := val;
      ncpool := ncpool + 1;
      at, dist := at + [k], dist + [i];
      assert cpool[..ncpool] == pool + [val] && chash[..] == cells[k := |pool|];
      r := At(ncpool - 1);
    }

    // The emit pass: as many constants as were counted never overflow.
    method SlotAll(vals: seq<uvlong>) returns (slots: seq<nat>)
      requires Valid() && Contents() == [] && |vals| <= ncon
      modifies this`ncpool, this`at, this`dist, cpool, chash
      ensures Valid() && Contents() == AddAll([], vals) && Found(slots, Contents(), vals)
    {
      slots := [];
      for i := 0 to |vals|
        invariant Valid() && Contents() == AddAll([], vals[..i])
        invariant Found(slots, AddAll([], vals[..i]), vals[..i])
      {
        AddAllBound([], vals[..i]);
        var r := Slot(vals[i]);
        FoundStep(slots, AddAll([], vals[..i]), vals, i, r.index);
        slots := slots + [r.index];
      }
      assert vals[..|vals|] == vals;
    }
  }

  // Each slot holds its value.
  ghost predicate Found(slots: seq<nat>, pool: seq<uvlong>, vals: seq<uvlong>)
  {
    |slots| == |vals| && forall i :: 0 <= i < |vals| ==> slots[i] < |pool| && pool[slots[i]] == vals[i]
  }

  lemma FoundStep(slots: seq<nat>, pool: seq<uvlong>, vals: seq<uvlong>, i: nat, k: nat)
    requires i < |vals| && Found(slots, pool, vals[..i]) && pool == AddAll([], vals[..i])
    requires k < |Add(pool, vals[i])| && Add(pool, vals[i])[k] == vals[i]
    ensures AddAll([], vals[..i + 1]) == Add(pool, vals[i])
    ensures Found(slots + [k], Add(pool, vals[i]), vals[..i + 1])
  {
    assert vals[..i + 1][..i] == vals[..i];
    forall j | 0 <= j < i ensures slots[j] < |pool| && pool[slots[j]] == vals[j] {
      assert vals[..i][j] == vals[j];
    }
  }
}
