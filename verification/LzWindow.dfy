// The encoder's window: the last NMEM positions of a block in a ring of chain
// nodes, linked into one list per hash value, newest first.
module LzWindow {
  import opened Basics
  import opened LzCode

  const NHASH := 512

  // -- the hash of three bytes ----------------------------------------------------------

  type hash = h: bv16 | h < 512

  function Update(h: bv16, c: bv16): bv16 { ((h << 3) ^ c) & 511 }

  lemma UpdateSmall(h: bv16, c: bv16)
    ensures Update(h, c) < 512
  {
  }

  function Hupdate(h: hash, c: byte): hash
  {
    UpdateSmall(h, c as bv16);
    Update(h, c as bv16)
  }

  lemma Forget(h: bv16, a: bv16, b: bv16, c: bv16)
    ensures Update(Update(Update(h, a), b), c) == Update(Update(Update(0, a), b), c)
  {
  }

  function Hash3(a: byte, b: byte, c: byte): hash { Hupdate(Hupdate(Hupdate(0, a), b), c) }

  // Three updates forget what was there before.
  lemma HashForgets(h: hash, a: byte, b: byte, c: byte)
    ensures Hupdate(Hupdate(Hupdate(h, a), b), c) == Hash3(a, b, c)
  {
    Forget(h as bv16, a as bv16, b as bv16, c as bv16);
  }

  // And different bytes after the same ones hash differently.
  lemma HashSpreads(h: hash, c: byte, d: byte)
    requires c != d
    ensures Hupdate(h, c) != Hupdate(h, d)
  {
    AsBits(c);
    AsBits(d);
    Spread(h as bv16, c as bv16, d as bv16);
  }

  lemma AsBits(c: byte)
    ensures (c as bv16) as int == c && c as bv16 < 256
  {
  }

  lemma Spread(h: bv16, c: bv16, d: bv16)
    requires c < 256 && d < 256 && c != d
    ensures Update(h, c) != Update(h, d)
  {
  }

  function Index(h: hash): (r: nat)
    ensures r < NHASH
  {
    h as int
  }

  // -- the ring as a value ----------------------------------------------------------------

  // Nodes 0 to NMEM - 1 are the ring, NMEM + k is the head of hash value k.
  // cp is the slot that position p will take; positions lo to p - 1 are linked.
  const NNODE := NMEM + NHASH

  datatype Ring = Ring(next: seq<int>, prev: seq<int>, at: seq<int>, key: seq<int>, cp: nat)

  ghost predicate Shape(r: Ring)
  {
    |r.next| == NNODE && |r.prev| == |r.at| == |r.key| == NMEM && r.cp < NMEM
  }

  // The last position slot v was given, if it has been given one.
  function PosOf(cp: nat, p: int, v: int): int { if v < cp then p - cp + v else p - cp + v - NMEM }

  predicate Live(cp: nat, lo: int, p: int, v: int) { 0 <= v < NMEM && lo <= PosOf(cp, p, v) }
  predicate Linked(cp: nat, lo: int, p: int, u: int) { NMEM <= u < NNODE || Live(cp, lo, p, u) }

  // The position of a node, a head being newer than all; and its hash value.
  function When(r: Ring, p: int, u: int): int { if u < NMEM then PosOf(r.cp, p, u) else p }

  function KeyOf(r: Ring, u: int): int
    requires Shape(r) && 0 <= u < NNODE
  {
    if u < NMEM then r.key[u] else u - NMEM
  }

  // A linked position: its node holds it, and hangs from a newer node of the
  // same hash value or from the head of it.
  ghost predicate Hung(r: Ring, lo: int, p: int, v: int)
    requires Shape(r) && 0 <= v < NMEM
  {
    var u := r.prev[v];
    && r.at[v] == PosOf(r.cp, p, v)
    && 0 <= u < NNODE && Linked(r.cp, lo, p, u) && r.next[u] == v
    && KeyOf(r, u) == r.key[v] && PosOf(r.cp, p, v) < When(r, p, u)
  }

  // A node's successor, if any, hangs from it; linked positions of the same
  // hash value older than the node are no newer than its successor.
  ghost predicate Chained(r: Ring, lo: int, p: int, u: int)
    requires Shape(r) && 0 <= u < NNODE
  {
    var v := r.next[u];
    && (v == -1 || (Live(r.cp, lo, p, v) && r.prev[v] == u))
    && (forall w :: Live(r.cp, lo, p, w) && r.key[w] == KeyOf(r, u) && PosOf(r.cp, p, w) < When(r, p, u) ==>
          v != -1 && PosOf(r.cp, p, w) <= PosOf(r.cp, p, v))
  }

  predicate RingKey(u: int) { true }

  // Opened by RingKey(0).
  ghost predicate RingOk(r: Ring, lo: int, p: int)
    requires Shape(r)
  {
    forall z: int {:trigger RingKey(z)} :: RingKey(z) ==>
      && lo <= p <= lo + NMEM
      && (forall v {:trigger Hung(r, lo, p, v)} :: Live(r.cp, lo, p, v) ==> Hung(r, lo, p, v))
      && (forall u {:trigger Chained(r, lo, p, u)} :: Linked(r.cp, lo, p, u) ==> Chained(r, lo, p, u))
  }

  function NextSlot(cp: nat): nat { if cp + 1 == NMEM then 0 else cp + 1 }

  // The oldest position of a full ring is in the slot to be taken next, and is
  // the tail of its chain.
  lemma OldestIsTail(r: Ring, p: int)
    requires Shape(r) && RingOk(r, p - NMEM, p)
    ensures Live(r.cp, p - NMEM, p, r.cp) && r.at[r.cp] == p - NMEM
    ensures r.next[r.cp] == -1
    ensures 0 <= r.prev[r.cp] < NNODE && r.prev[r.cp] != r.cp && r.next[r.prev[r.cp]] == r.cp
  {
    assert RingKey(0);
    assert Hung(r, p - NMEM, p, r.cp) && Chained(r, p - NMEM, p, r.cp);
    var v := r.next[r.cp];
    assert v != -1 ==> Hung(r, p - NMEM, p, v);
  }

  // Cutting the tail off.
  lemma Unlink(r: Ring, p: int)
    requires Shape(r) && RingOk(r, p - NMEM, p)
    ensures 0 <= r.prev[r.cp] < NNODE
    ensures RingOk(r.(next := r.next[r.prev[r.cp] := -1]), p - NMEM + 1, p)
  {
    assert RingKey(0);
    OldestIsTail(r, p);
    var lo, t := p - NMEM, r.prev[r.cp];
    var s := r.(next := r.next[t := -1]);
    assert Live(r.cp, lo, p, r.cp) && Hung(r, lo, p, r.cp) && Chained(r, lo, p, r.cp) && r.next[r.cp] == -1;
    forall v {:trigger Hung(s, lo + 1, p, v)} | Live(s.cp, lo + 1, p, v) ensures Hung(s, lo + 1, p, v) {
      assert Hung(r, lo, p, v);
    }
    forall u {:trigger Chained(s, lo + 1, p, u)} | Linked(s.cp, lo + 1, p, u) ensures Chained(s, lo + 1, p, u) {
      assert Chained(r, lo, p, u);
      assert Hung(r, lo, p, r.cp);
    }
  }

  // The ring after position p is put at the front of the chain of hash value k.
  function Put(r: Ring, p: int, k: nat): Ring
    requires Shape(r) && k < NHASH && (r.next[NMEM + k] == -1 || 0 <= r.next[NMEM + k] < NMEM)
  {
    var w := r.next[NMEM + k];
    var prev := r.prev[r.cp := NMEM + k];
    Ring(r.next[r.cp := w][NMEM + k := r.cp], if w == -1 then prev else prev[w := r.cp],
         r.at[r.cp := p], r.key[r.cp := k], NextSlot(r.cp))
  }

  lemma HeadOk(r: Ring, lo: int, p: int, k: nat)
    requires Shape(r) && RingOk(r, lo, p) && k < NHASH
    ensures r.next[NMEM + k] == -1 || Live(r.cp, lo, p, r.next[NMEM + k])
  {
    assert RingKey(0);
    assert Chained(r, lo, p, NMEM + k);
  }

  // A position keeps its slot when p moves on.
  lemma PosNext(cp: nat, p: int, v: int)
    requires cp < NMEM && 0 <= v < NMEM
    ensures PosOf(NextSlot(cp), p + 1, v) == if v == cp then p else PosOf(cp, p, v)
  {
  }

  lemma PutHung(r: Ring, lo: int, p: int, k: nat, v: int)
    requires Shape(r) && RingOk(r, lo, p) && p < lo + NMEM && k < NHASH
    requires r.next[NMEM + k] == -1 || 0 <= r.next[NMEM + k] < NMEM
    requires Live(NextSlot(r.cp), lo, p + 1, v)
    ensures Hung(Put(r, p, k), lo, p + 1, v)
  {
    assert RingKey(0);
    PosNext(r.cp, p, v);
    PosNext(r.cp, p, r.cp);
    assert Chained(r, lo, p, NMEM + k);
    if v != r.cp {
      assert Hung(r, lo, p, v);
      var u := r.prev[v];
      if u < NMEM { PosNext(r.cp, p, u); }
    }
  }

  lemma PutChained(r: Ring, lo: int, p: int, k: nat, u: int)
    requires Shape(r) && RingOk(r, lo, p) && p < lo + NMEM && k < NHASH
    requires r.next[NMEM + k] == -1 || 0 <= r.next[NMEM + k] < NMEM
    requires Linked(NextSlot(r.cp), lo, p + 1, u)
    ensures Chained(Put(r, p, k), lo, p + 1, u)
  {
    if u == r.cp {
      PutChainedNew(r, lo, p, k);
    } else if u == NMEM + k {
      PutChainedHead(r, lo, p, k);
    } else {
      PutChainedOther(r, lo, p, k, u);
    }
  }

  // The new node, where the head was.
  lemma PutChainedNew(r: Ring, lo: int, p: int, k: nat)
    requires Shape(r) && RingOk(r, lo, p) && p < lo + NMEM && k < NHASH
    requires r.next[NMEM + k] == -1 || 0 <= r.next[NMEM + k] < NMEM
    ensures Chained(Put(r, p, k), lo, p + 1, r.cp)
  {
    assert RingKey(0);
    var s := Put(r, p, k);
    PosNext(r.cp, p, r.cp);
    assert Chained(r, lo, p, NMEM + k);
    var v := s.next[r.cp];
    if v != -1 { PosNext(r.cp, p, v); }
    forall w | Live(s.cp, lo, p + 1, w) && s.key[w] == KeyOf(s, r.cp) && PosOf(s.cp, p + 1, w) < When(s, p + 1, r.cp)
      ensures v != -1 && PosOf(s.cp, p + 1, w) <= PosOf(s.cp, p + 1, v)
    {
      PosNext(r.cp, p, w);
    }
  }

  // The head, before the new node.
  lemma PutChainedHead(r: Ring, lo: int, p: int, k: nat)
    requires Shape(r) && RingOk(r, lo, p) && p < lo + NMEM && k < NHASH
    requires r.next[NMEM + k] == -1 || 0 <= r.next[NMEM + k] < NMEM
    ensures Chained(Put(r, p, k), lo, p + 1, NMEM + k)
  {
    assert lo <= p && Chained(r, lo, p, NMEM + k) by { assert RingKey(0); }
    var s := Put(r, p, k);
    assert s.next[NMEM + k] == r.cp && s.prev[r.cp] == NMEM + k;
    PosNext(r.cp, p, r.cp);
    forall w {:trigger Live(s.cp, lo, p + 1, w)} | Live(s.cp, lo, p + 1, w) ensures PosOf(s.cp, p + 1, w) <= p {
      PosNext(r.cp, p, w);
    }
  }

  lemma PutChainedOther(r: Ring, lo: int, p: int, k: nat, u: int)
    requires Shape(r) && RingOk(r, lo, p) && p < lo + NMEM && k < NHASH
    requires r.next[NMEM + k] == -1 || 0 <= r.next[NMEM + k] < NMEM
    requires Linked(NextSlot(r.cp), lo, p + 1, u) && u != r.cp && u != NMEM + k
    ensures Chained(Put(r, p, k), lo, p + 1, u)
  {
    assert RingKey(0);
    var s := Put(r, p, k);
    PosNext(r.cp, p, r.cp);
    if u < NMEM { PosNext(r.cp, p, u); }
    assert Chained(r, lo, p, u) && Chained(r, lo, p, NMEM + k);
    var v := s.next[u];
    if v != -1 {
      PosNext(r.cp, p, v);
      assert Hung(r, lo, p, v);
    }
    forall w | Live(s.cp, lo, p + 1, w) && s.key[w] == KeyOf(s, u) && PosOf(s.cp, p + 1, w) < When(s, p + 1, u)
      ensures v != -1 && PosOf(s.cp, p + 1, w) <= PosOf(s.cp, p + 1, v)
    {
      PosNext(r.cp, p, w);
    }
  }

  lemma PutOk(r: Ring, lo: int, p: int, k: nat)
    requires Shape(r) && RingOk(r, lo, p) && p < lo + NMEM && k < NHASH
    requires r.next[NMEM + k] == -1 || 0 <= r.next[NMEM + k] < NMEM
    ensures RingOk(Put(r, p, k), lo, p + 1)
  {
    assert lo <= p by { assert RingKey(0); }
    var s := Put(r, p, k);
    forall v {:trigger Hung(s, lo, p + 1, v)} | Live(s.cp, lo, p + 1, v)
      ensures Hung(s, lo, p + 1, v)
    {
      PutHung(r, lo, p, k, v);
    }
    forall u {:trigger Chained(s, lo, p + 1, u)} | Linked(s.cp, lo, p + 1, u)
      ensures Chained(s, lo, p + 1, u)
    {
      PutChained(r, lo, p, k, u);
    }
  }

  // -- the search against the reference ------------------------------------------------------

  lemma {:induction false} MatchIs(data: seq<byte>, q: nat, p: nat, e: nat, n: nat)
    requires q <= p <= e <= |data| && p + n <= e
    requires forall j :: p <= j < p + n ==> data[j] == data[j - (p - q)]
    requires p + n == e || data[q + n] != data[p + n]
    ensures Match(data, q, p, e) == n
    decreases n
  {
    if n > 0 {
      assert data[p] == data[p - (p - q)];
      MatchIs(data, q + 1, p + 1, e, n - 1);
    }
  }

  lemma {:induction false} MatchAtMost(data: seq<byte>, q: nat, p: nat, e: nat, n: nat)
    requires q <= p <= e <= |data| && p + n < e && data[q + n] != data[p + n]
    ensures Match(data, q, p, e) <= n
    decreases n
  {
    if n > 0 && data[q] == data[p] {
      MatchAtMost(data, q + 1, p + 1, e, n - 1);
    }
  }

  // q is the latest of the longest matches that are long enough.
  ghost predicate Best(data: seq<byte>, lo: nat, p: nat, e: nat, q: nat, n: nat)
    requires lo <= p <= e <= |data|
  {
    && (n > 0 ==> lo <= q < p && Match(data, q, p, e) == n)
    && (forall k :: lo <= k < p && Match(data, k, p, e) >= NMATCH ==>
          Match(data, k, p, e) <= n && (k > q ==> Match(data, k, p, e) < n))
  }

  lemma {:induction false} LongestFinds(data: seq<byte>, lo: nat, k: int, p: nat, e: nat, best: Found, q: nat, n: nat)
    requires -1 <= k && lo <= k + 1 && k < p <= e <= |data| && Best(data, lo, p, e, q, n) && n >= NMATCH
    requires if k >= q then best.n < n else best == Found(q, n)
    ensures Longest(data, lo, k, p, e, best) == Found(q, n)
    decreases k - lo + 1
  {
    if k >= lo {
      var m := Match(data, k, p, e);
      LongestFinds(data, lo, k - 1, p, e, if m > best.n then Found(k, m) else best, q, n);
    }
  }

  lemma {:induction false} LongestSmall(data: seq<byte>, lo: nat, k: int, p: nat, e: nat, best: Found)
    requires -1 <= k && lo <= k + 1 && k < p <= e <= |data| && best.n < NMATCH
    requires forall j :: lo <= j < p ==> Match(data, j, p, e) < NMATCH
    ensures Longest(data, lo, k, p, e, best).n < NMATCH
    decreases k - lo + 1
  {
    if k >= lo {
      var m := Match(data, k, p, e);
      LongestSmall(data, lo, k - 1, p, e, if m > best.n then Found(k, m) else best);
    }
  }

  // The encoder may do with q and n what the reference does with its best match.
  predicate Agrees(q: nat, n: nat, f: Found)
  {
    if n >= NMATCH then f == Found(q, n) else f.n < NMATCH
  }

  lemma BestAgrees(data: seq<byte>, lo: nat, p: nat, e: nat, q: nat, n: nat)
    requires lo <= p <= e <= |data| && Best(data, lo, p, e, q, n)
    ensures Agrees(q, n, Longest(data, lo, p - 1, p, e, Found(0, 0)))
  {
    if n >= NMATCH {
      LongestFinds(data, lo, p - 1, p, e, Found(0, 0), q, n);
    } else {
      forall j | lo <= j < p ensures Match(data, j, p, e) < NMATCH {
      }
      LongestSmall(data, lo, p - 1, p, e, Found(0, 0));
    }
  }

  // -- the ring of a block ---------------------------------------------------------------------

  function HashAt(data: seq<byte>, p: nat): hash
    requires p + NMATCH <= |data|
  {
    Hash3(data[p], data[p + 1], data[p + 2])
  }

  // The hash value to look for and to file position p under; at the end of the
  // data, where there are not three bytes, it may be anything.
  ghost predicate HashOk(h: hash, data: seq<byte>, p: nat)
  {
    p + NMATCH <= |data| ==> h == HashAt(data, p)
  }

  lemma HashNext(h: hash, data: seq<byte>, p: nat)
    requires HashOk(h, data, p) && p < |data|
    ensures HashOk(if |data| - p > NMATCH then Hupdate(h, data[p + NMATCH]) else h, data, p + 1)
  {
    if |data| - p > NMATCH {
      HashForgets(Hupdate(0, data[p]), data[p + 1], data[p + 2], data[p + 3]);
    }
  }

  ghost predicate KeyOk(r: Ring, data: seq<byte>, v: int)
    requires Shape(r) && 0 <= v < NMEM
  {
    0 <= r.at[v] && (r.at[v] + NMATCH <= |data| ==> r.key[v] == Index(HashAt(data, r.at[v])))
  }

  // The ring when the positions start to p - 1 of a block have been put in.
  ghost predicate RingOf(r: Ring, data: seq<byte>, start: nat, p: nat)
    requires Shape(r) && start <= p
  {
    var lo := Window(start, p);
    && RingOk(r, lo, p)
    && (forall v {:trigger KeyOk(r, data, v)} :: Live(r.cp, lo, p, v) ==> KeyOk(r, data, v))
    && (forall v :: 0 <= v < NMEM && !Live(r.cp, lo, p, v) ==> r.prev[v] == -1)
  }

  lemma EmptyRing(r: Ring, data: seq<byte>, start: nat)
    requires Shape(r) && r.cp == 0
    requires (forall u :: 0 <= u < NNODE ==> r.next[u] == -1) && (forall v :: 0 <= v < NMEM ==> r.prev[v] == -1)
    ensures RingOf(r, data, start, start)
  {
    forall u | Linked(r.cp, start, start, u) ensures Chained(r, start, start, u) {
    }
  }

  // Slot reused: its old node is unlinked first.
  function Recycled(r: Ring): (s: Ring)
    requires Shape(r) && -1 <= r.prev[r.cp] < NNODE
    ensures Shape(s)
  {
    if r.prev[r.cp] == -1 then r else r.(next := r.next[r.prev[r.cp] := -1])
  }

  lemma RecycledOk(r: Ring, data: seq<byte>, start: nat, p: nat)
    requires Shape(r) && start <= p && RingOf(r, data, start, p)
    ensures -1 <= r.prev[r.cp] < NNODE
    ensures RingOk(Recycled(r), Window(start, p + 1), p) && p < Window(start, p + 1) + NMEM
  {
    if p - start >= NMEM {
      OldestIsTail(r, p);
      Unlink(r, p);
    } else {
      assert !Live(r.cp, start, p, r.cp);
    }
  }

  lemma PutRing(r: Ring, data: seq<byte>, start: nat, p: nat, h: hash)
    requires Shape(r) && start <= p < |data| && RingOf(r, data, start, p) && HashOk(h, data, p)
    requires -1 <= r.prev[r.cp] < NNODE
    ensures var w := Recycled(r).next[NMEM + Index(h)]; w == -1 || 0 <= w < NMEM
    ensures RingOf(Put(Recycled(r), p, Index(h)), data, start, p + 1)
  {
    var lo, lo' := Window(start, p), Window(start, p + 1);
    var k := Index(h);
    RecycledOk(r, data, start, p);
    HeadOk(Recycled(r), lo', p, k);
    PutOk(Recycled(r), lo', p, k);
    PutRest(r, data, start, p, k);
  }

  // What Put leaves as it was.
  lemma PutRest(r: Ring, data: seq<byte>, start: nat, p: nat, k: nat)
    requires Shape(r) && start <= p < |data| && RingOf(r, data, start, p) && k < NHASH
    requires p + NMATCH <= |data| ==> k == Index(HashAt(data, p))
    requires -1 <= r.prev[r.cp] < NNODE
    requires var w := Recycled(r).next[NMEM + k]; w == -1 || Live(r.cp, Window(start, p + 1), p, w)
    ensures var s, lo' := Put(Recycled(r), p, k), Window(start, p + 1);
      && (forall v :: Live(s.cp, lo', p + 1, v) ==> KeyOk(s, data, v))
      && (forall v :: 0 <= v < NMEM && !Live(s.cp, lo', p + 1, v) ==> s.prev[v] == -1)
  {
    var lo, lo' := Window(start, p), Window(start, p + 1);
    var s := Put(Recycled(r), p, k);
    forall v | 0 <= v < NMEM && Live(s.cp, lo', p + 1, v) ensures KeyOk(s, data, v) {
      PosNext(r.cp, p, v);
      if v != r.cp { assert KeyOk(r, data, v); }
    }
    forall v | 0 <= v < NMEM && !Live(s.cp, lo', p + 1, v) ensures s.prev[v] == -1 {
      PosNext(r.cp, p, v);
      PosNext(r.cp, p, r.cp);
    }
  }

  // -- the search along a chain ----------------------------------------------------------------

  // Every position of hash value k newer than hp has been looked at.
  ghost predicate Looked(r: Ring, data: seq<byte>, lo: nat, p: nat, e: nat, k: int, hp: int, q: nat, n: nat)
    requires Shape(r) && lo <= p <= e <= |data|
  {
    && (n > 0 ==> lo <= q < p && Match(data, q, p, e) == n && (hp == -1 || PosOf(r.cp, p, hp) < q))
    && forall w {:trigger Seen(r, data, lo, p, e, k, hp, q, n, w)} :: Live(r.cp, lo, p, w) ==>
        Seen(r, data, lo, p, e, k, hp, q, n, w)
  }

  ghost predicate Seen(r: Ring, data: seq<byte>, lo: nat, p: nat, e: nat, k: int, hp: int, q: nat, n: nat, w: int)
    requires Shape(r) && lo <= p <= e <= |data| && Live(r.cp, lo, p, w)
  {
    var pos := PosOf(r.cp, p, w);
    r.key[w] == k && pos < p && (hp == -1 || PosOf(r.cp, p, hp) < pos) ==>
      Match(data, pos, p, e) <= n && (n > 0 && pos > q ==> Match(data, pos, p, e) < n)
  }

  lemma LookedFirst(r: Ring, data: seq<byte>, start: nat, p: nat, e: nat, k: nat)
    requires Shape(r) && start <= p <= e <= |data| && RingOf(r, data, start, p) && k < NHASH
    ensures Looked(r, data, Window(start, p), p, e, k, r.next[NMEM + k], 0, 0)
    ensures OnChain(r, Window(start, p), p, k, r.next[NMEM + k])
  {
    assert RingKey(0);
    var lo := Window(start, p);
    assert Chained(r, lo, p, NMEM + k);
    var v := r.next[NMEM + k];
    if v != -1 { assert Hung(r, lo, p, v); }
  }

  // A node of the chain of k, or its end.
  ghost predicate OnChain(r: Ring, lo: int, p: int, k: int, v: int)
    requires Shape(r)
  {
    v == -1 || (Live(r.cp, lo, p, v) && r.key[v] == k && r.at[v] == PosOf(r.cp, p, v) < p)
  }

  // The node hp has been looked at and gave m.
  lemma LookedNext(r: Ring, data: seq<byte>, start: nat, p: nat, e: nat, k: nat, hp: int, q: nat, n: nat, m: nat)
    requires Shape(r) && start <= p <= e <= |data| && RingOf(r, data, start, p) && k < NHASH
    requires hp != -1 && OnChain(r, Window(start, p), p, k, hp)
    requires Looked(r, data, Window(start, p), p, e, k, hp, q, n)
    requires if m > n then m == Match(data, r.at[hp], p, e) else Match(data, r.at[hp], p, e) <= n
    ensures Looked(r, data, Window(start, p), p, e, k, r.next[hp],
                   if m > n then r.at[hp] else q, if m > n then m else n)
    ensures OnChain(r, Window(start, p), p, k, r.next[hp])
    ensures r.next[hp] != -1 ==> r.at[r.next[hp]] < r.at[hp]
  {
    assert RingKey(0);
    var lo := Window(start, p);
    assert Chained(r, lo, p, hp);
    var v := r.next[hp];
    if v != -1 { assert Hung(r, lo, p, v); }
    var q', n' := if m > n then r.at[hp] else q, if m > n then m else n;
    forall w | Live(r.cp, lo, p, w) ensures Seen(r, data, lo, p, e, k, v, q', n', w) {
      assert Seen(r, data, lo, p, e, k, hp, q, n, w);
      SamePos(r.cp, p, w, hp);
    }
  }

  lemma SamePos(cp: nat, p: int, v: int, w: int)
    requires cp < NMEM && 0 <= v < NMEM && 0 <= w < NMEM
    ensures PosOf(cp, p, v) == PosOf(cp, p, w) <==> v == w
  {
  }

  // Looking along the whole chain of p's hash value, or as far as a match to e,
  // does as well as trying every position of the window.
  lemma ChainIsEnough(r: Ring, data: seq<byte>, start: nat, p: nat, e: nat, h: hash, hp: int, q: nat, n: nat)
    requires Shape(r) && start <= p <= e <= |data| && RingOf(r, data, start, p) && HashOk(h, data, p)
    requires Looked(r, data, Window(start, p), p, e, Index(h), hp, q, n)
    requires hp == -1 || (n == e - p > 0)
    ensures Best(data, Window(start, p), p, e, q, n)
  {
    var lo := Window(start, p);
    forall j | lo <= j < p && Match(data, j, p, e) >= NMATCH
      ensures Match(data, j, p, e) <= n && (j > q ==> Match(data, j, p, e) < n)
    {
      var d := p - j;
      var v := if r.cp >= d then r.cp - d else r.cp - d + NMEM;
      assert Live(r.cp, lo, p, v) && PosOf(r.cp, p, v) == j;
      assert Seen(r, data, lo, p, e, Index(h), hp, q, n, v);
      assert RingKey(0);
      assert Hung(r, lo, p, v) && KeyOk(r, data, v);
      MatchThree(data, j, p, e);
      assert HashAt(data, j) == HashAt(data, p);
    }
  }

  lemma MatchThree(data: seq<byte>, q: nat, p: nat, e: nat)
    requires q <= p <= e <= |data| && Match(data, q, p, e) >= NMATCH
    ensures p + NMATCH <= e && data[q] == data[p] && data[q + 1] == data[p + 1] && data[q + 2] == data[p + 2]
  {
    assert Match(data, q, p, e) == 1 + Match(data, q + 1, p + 1, e);
    assert Match(data, q + 1, p + 1, e) == 1 + Match(data, q + 2, p + 2, e);
  }

  // -- the ring in place ---------------------------------------------------------------------

  class Chains {
    var next: array<int>      // of a node: ring slots, then heads; -1 is nil
    var prev: array<int>      // of a slot
    var at: array<int>        // the position in a slot
    var cp: nat               // next slot to fall out of the window
    ghost var key: seq<int>   // the hash value a slot was filed under

    constructor ()
      ensures Sound() && fresh(next) && fresh(prev) && fresh(at)
    {
      next := new int[NNODE](i => -1);
      prev := new int[NMEM](i => -1);
      at := new int[NMEM](i => 0);
      cp := 0;
      key := seq(NMEM, i => 0);
    }

    ghost predicate Sound()
      reads this
    {
      next.Length == NNODE && prev.Length == at.Length == NMEM && |key| == NMEM && cp < NMEM && prev != at &&
      next != prev && next != at
    }

    ghost function View(): (r: Ring)
      requires Sound()
      reads this, next, prev, at
      ensures Shape(r)
    {
      Ring(next[..], prev[..], at[..], key, cp)
    }

    // At the start of a block.
    method Clear(ghost data: seq<byte>, ghost start: nat)
      requires Sound()
      modifies this`cp, next, prev, at
      ensures Sound() && RingOf(View(), data, start, start)
    {
      for i := 0 to NNODE
        invariant forall u :: 0 <= u < i ==> next[u] == -1
        modifies next
      {
        next[i] := -1;
      }
      for i := 0 to NMEM
        invariant forall v :: 0 <= v < i ==> prev[v] == -1
        modifies prev, at
      {
        prev[i], at[i] := -1, 0;
      }
      cp := 0;
      EmptyRing(View(), data, start);
    }

    // File position p under h.
    method Insert(h: hash, ghost data: seq<byte>, ghost start: nat, p: nat)
      requires Sound() && start <= p < |data| && RingOf(View(), data, start, p) && HashOk(h, data, p)
      modifies this`cp, this`key, next, prev, at
      ensures Sound() && RingOf(View(), data, start, p + 1)
    {
      RecycledOk(View(), data, start, p);
      PutRing(View(), data, start, p, h);
      Unhook();
      Hook(Index(h), p);
    }

    // The slot to be taken leaves its chain, of which it is the tail.
    method Unhook()
      requires Sound() && -1 <= prev[cp] < NNODE
      modifies next
      ensures View() == Recycled(old(View()))
    {
      if prev[cp] != -1 {
        next[prev[cp]] := -1;
      }
    }

    // The slot goes to the front of the chain of hash value k.
    method Hook(k: nat, p: nat)
      requires Sound() && k < NHASH && (next[NMEM + k] == -1 || 0 <= next[NMEM + k] < NMEM)
      modifies this`cp, this`key, next, prev, at
      ensures Sound() && View() == Put(old(View()), p, k)
    {
      ghost var r := View();
      next[cp] := next[NMEM + k];
      prev[cp] := NMEM + k;
      if next[cp] != -1 {
        prev[next[cp]] := cp;
      }
      assert prev[..] == Put(r, p, k).prev;
      next[prev[cp]] := cp;
      assert prev[..] == Put(r, p, k).prev && next[..] == Put(r, p, k).next;
      at[cp] := p;
      key := key[cp := k];
      cp := if cp + 1 == NMEM then 0 else cp + 1;
    }

    // The longest match for p along its hash chain; what the reference encoder
    // finds by looking everywhere.
    method Find(h: hash, data: seq<byte>, ghost start: nat, p: nat, es: nat) returns (q: nat, runlen: nat)
      requires Sound() && start <= p < es <= |data| && es - p <= NRUN
      requires RingOf(View(), data, start, p) && HashOk(h, data, p)
      ensures Agrees(q, runlen, Longest(data, Window(start, p), p - 1, p, es, Found(0, 0)))
      ensures runlen > 0 ==> Window(start, p) <= q < p
      ensures p + runlen <= es
    {
      ghost var r, lo, k := View(), Window(start, p), Index(h);
      q, runlen := 0, 0;
      var hp := next[NMEM + Index(h)];
      LookedFirst(r, data, start, p, es, k);
      ghost var left := hp;   // the first node not looked at
      while hp != -1
        invariant Looked(r, data, lo, p, es, k, hp, q, runlen) && OnChain(r, lo, p, k, hp) && p + runlen <= es
        invariant left == hp
        decreases if hp == -1 then -1 else at[hp]
      {
        assert at[hp] == r.at[hp] && next[hp] == r.next[hp];
        var n := Extend(data, at[hp], p, es, runlen);
        LookedNext(r, data, start, p, es, k, hp, q, runlen, n);
        left := next[hp];
        if n > runlen {
          runlen := n;
          q := at[hp];
          if n == NRUN {
            break;
          }
        }
        hp := next[hp];
      }
      ChainIsEnough(r, data, start, p, es, h, left, q, runlen);
      BestAgrees(data, lo, p, es, q, runlen);
    }

    // One candidate: compare backwards from the byte a longer match needs, then
    // forwards as far as it goes.  0 when it does not beat runlen.
    method Extend(data: seq<byte>, q: nat, p: nat, es: nat, runlen: nat) returns (n: nat)
      requires q < p < es <= |data| && p + runlen <= es
      ensures p + n <= es && (n == 0 || n > runlen)
      ensures if n > runlen then n == Match(data, q, p, es) else Match(data, q, p, es) <= runlen
    {
      ghost var d := p - q;
      var s: int := p + runlen;
      if s >= es {
        return 0;
      }
      var t: int := q + runlen;
      while s >= p
        invariant p - 1 <= s <= p + runlen && t == s - d
        invariant forall j :: s < j <= p + runlen ==> data[j] == data[j - d]
      {
        if data[s] != data[t] {
          MatchAtMost(data, q, p, es, s - p);
          return 0;
        }
        s, t := s - 1, t - 1;
      }
      t := t + runlen + 2;
      s := s + runlen + 2;
      while s < es && data[s] == data[t]
        invariant p + runlen < s <= es && t == s - d
        invariant forall j :: p <= j < s ==> data[j] == data[j - d]
      {
        s, t := s + 1, t + 1;
      }
      n := s - p;
      MatchIs(data, q, p, es, n);
    }
  }
}
