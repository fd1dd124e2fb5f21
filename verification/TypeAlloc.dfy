// The allocator of code blocks for types: bump allocation in slabs, blocks with
// a size header, exact-size free lists for small ones and a first-fit list for
// the rest.
module TypeAlloc {
  import opened Basics

  const SLAB := 2 * 1024 * 1024
  const HDR := 16
  const SMALL := 4096
  const NSMALL := SMALL / 16 + 1

  // A free-list node: a block and its size.
  datatype Free = Free(p: int, size: int)

  // The allocator's state; and, not in the program, every slab and block there
  // has been, the slab of each block, and the code compiled into each live block.
  datatype Heap = Heap(
    slab: Option<int>, used: int, small: seq<seq<Free>>, large: seq<Free>, spares: nat, mem: map<int, int>,
    slabs: set<int>, carved: map<int, int>, home: map<int, int>, live: map<int, seq<int>>)

  function Empty(): Heap
  {
    Heap(None, 0, seq(NSMALL, i => []), [], 0, map[], {}, map[], map[], map[])
  }

  // -- the operations on values --------------------------------------------------------------

  function Aligned(n: int): (a: int)
    requires n > 0
    ensures n <= a < n + 16 && a % 16 == 0
  {
    (n + 15) / 16 * 16
  }

  // The first block of at least size bytes.
  function FirstFit(large: seq<Free>, size: int): (i: nat)
    ensures i <= |large|
    ensures i < |large| ==> large[i].size >= size
  {
    if large == [] then 0 else if large[0].size >= size then 0 else 1 + FirstFit(large[1..], size)
  }

  function Without(s: seq<Free>, i: nat): seq<Free>
    requires i < |s|
  {
    s[..i] + s[i + 1..]
  }

  predicate Sized(h: Heap) { |h.small| == NSMALL }

  datatype Taken = Taken(h: Heap, p: Option<int>)

  // Off a free list; the node goes to the spares.
  function Take(h: Heap, size: int): (t: Taken)
    requires Sized(h) && size >= 0
    ensures Sized(t.h)
  {
    if size <= SMALL then
      var l := h.small[size / 16];
      if l == [] then Taken(h, None)
      else Taken(h.(small := h.small[size / 16 := l[1..]], spares := h.spares + 1), Some(l[0].p))
    else
      var i := FirstFit(h.large, size);
      if i == |h.large| then Taken(h, None)
      else Taken(h.(large := Without(h.large, i), spares := h.spares + 1), Some(h.large[i].p))
  }

  // A block handed out, and its size.
  datatype Given = Given(h: Heap, block: Option<Free>)

  function Carve(h: Heap, size: int): Given
    requires h.slab.Some?
  {
    var p := h.slab.value + h.used;
    Given(h.(used := h.used + size, carved := h.carved[p := size], home := h.home[p := h.slab.value]),
          Some(Free(p, size)))
  }

  function SlabFull(h: Heap, size: int): bool { h.slab.None? || h.used > SLAB - size }

  // A block of n bytes, header included: from a free list, its size the one in
  // its header, or from the slab, or from a new slab if the system gives one.
  function Alloc(h: Heap, n: int, slab: Option<int>): (g: Given)
    requires Sized(h)
    ensures Sized(g.h)
  {
    if n <= 0 || n > SLAB then Given(h, None)
    else
      var t := Take(h, Aligned(n));
      if t.p.Some? then Given(t.h, Some(Free(t.p.value, if t.p.value in h.mem then h.mem[t.p.value] else 0)))
      else if SlabFull(h, Aligned(n)) then
        match slab
        case None => Given(h, None)
        case Some(b) => Carve(h.(slab := slab, used := 0, slabs := h.slabs + {b}), Aligned(n))
      else Carve(h, Aligned(n))
  }

  // The code, from p + HDR on.
  function Write(mem: map<int, int>, a: int, code: seq<int>): map<int, int>
    decreases |code|
  {
    if code == [] then mem else Write(mem[a := code[0]], a + 1, code[1..])
  }

  // A type's code compiled into a block of its own, header first.
  function Typecom(h: Heap, code: seq<int>, slab: Option<int>): (g: Given)
    requires Sized(h)
    ensures Sized(g.h)
  {
    var n := |code| + HDR;
    var g := Alloc(h, n, slab);
    match g.block
    case None => g
    case Some(f) =>
      Given(g.h.(mem := Write(g.h.mem[f.p := f.size], f.p + HDR, code), live := g.h.live[f.p := code]), g.block)
  }

  // A type's block given back, unless there is no node to list it with.
  function FreeType(h: Heap, p: int, node: bool): Heap
    requires Sized(h) && p in h.mem && 0 <= h.mem[p]
  {
    if h.spares == 0 && !node then h
    else
      var size := h.mem[p];
      var f := Free(p, size);
      var g := h.(spares := if h.spares > 0 then h.spares - 1 else 0, live := h.live - {p});
      if size <= SMALL then g.(small := h.small[size / 16 := [f] + h.small[size / 16]])
      else g.(large := [f] + h.large)
  }

  // -- the invariant ------------------------------------------------------------------------

  // A slab the system may give: aligned, and clear of those it has given.
  predicate SlabOk(h: Heap, b: int)
  {
    b > 0 && b % 16 == 0 && forall c :: c in h.slabs ==> b + SLAB <= c || c + SLAB <= b
  }

  ghost predicate Block(h: Heap, p: int)
    requires p in h.carved
  {
    && p % 16 == 0 && h.carved[p] % 16 == 0 && h.carved[p] > 0
    && p in h.home && h.home[p] in h.slabs && h.home[p] <= p && p + h.carved[p] <= h.home[p] + SLAB
    && (h.slab == Some(h.home[p]) ==> p + h.carved[p] <= h.home[p] + h.used)
  }

  predicate Apart(h: Heap, p: int, q: int)
    requires p in h.carved && q in h.carved
  {
    p + h.carved[p] <= q || q + h.carved[q] <= p
  }

  // Slabs and blocks: the blocks are aligned, in their slabs, and do not overlap.
  ghost predicate Laid(h: Heap)
  {
    && (forall b :: b in h.slabs ==> b > 0 && b % 16 == 0)
    && (forall b, c :: b in h.slabs && c in h.slabs && b != c ==> b + SLAB <= c || c + SLAB <= b)
    && (h.slab.Some? ==> h.slab.value in h.slabs) && 0 <= h.used <= SLAB && h.used % 16 == 0
    && (forall p {:trigger Block(h, p)} :: p in h.carved ==> Block(h, p))
    && (forall p, q {:trigger Apart(h, p, q)} :: p in h.carved && q in h.carved && p != q ==> Apart(h, p, q))
  }

  // code is at a.
  predicate Stored(mem: map<int, int>, a: int, code: seq<int>)
    decreases |code|
  {
    code == [] || (a in mem && mem[a] == code[0] && Stored(mem, a + 1, code[1..]))
  }

  // A live block has room for its code and holds it.
  ghost predicate Coded(h: Heap, p: int)
    requires p in h.live
  {
    p in h.carved && HDR + |h.live[p]| <= h.carved[p] && Stored(h.mem, p + HDR, h.live[p])
  }

  // Headers, except of the blocks in out, which are being handed over.
  ghost predicate Headed(h: Heap, out: set<int>)
  {
    && (forall p :: p in h.carved && p !in out ==> p in h.mem && h.mem[p] == h.carved[p])
    && (forall p :: p in h.live ==> p !in out && Coded(h, p))
  }

  // The list a block of a size belongs to.
  function List(h: Heap, size: int): seq<Free>
    requires Sized(h) && size >= 0
  {
    if size <= SMALL then h.small[size / 16] else h.large
  }

  predicate Idle(h: Heap, out: set<int>, p: int) { p in h.carved && p !in h.live && p !in out }

  // f has every right to be on its list.
  ghost predicate Listed(h: Heap, out: set<int>, f: Free)
  {
    Idle(h, out, f.p) && f.size == h.carved[f.p]
  }

  predicate Once(l: seq<Free>) { forall i, j :: 0 <= i < j < |l| ==> l[i].p != l[j].p }

  ghost predicate SmallOk(h: Heap, out: set<int>, k: int)
    requires Sized(h) && 0 <= k < NSMALL
  {
    Once(h.small[k]) && forall f :: f in h.small[k] ==> Listed(h, out, f) && f.size == 16 * k
  }

  // The lists hold each idle block once, by its size, and nothing else.
  ghost predicate ListsOk(h: Heap, out: set<int>)
  {
    && Sized(h)
    && (forall k {:trigger SmallOk(h, out, k)} :: 0 <= k < NSMALL ==> SmallOk(h, out, k))
    && Once(h.large) && (forall f :: f in h.large ==> Listed(h, out, f) && f.size > SMALL)
    && (forall p {:trigger Idle(h, out, p)} :: Idle(h, out, p) && h.carved[p] >= 0 ==>
        Free(p, h.carved[p]) in List(h, h.carved[p]))
  }

  ghost predicate Inv(h: Heap) { Laid(h) && Headed(h, {}) && ListsOk(h, {}) }

  lemma EmptyOk()
    ensures Inv(Empty())
  {
    var h := Empty();
    forall k | 0 <= k < NSMALL ensures SmallOk(h, {}, k) {
      assert h.small[k] == [];
    }
  }

  // -- taking -------------------------------------------------------------------------------

  lemma TakeSmall(h: Heap, size: int)
    requires Laid(h) && ListsOk(h, {}) && 0 < size <= SMALL && size % 16 == 0 && h.small[size / 16] != []
    ensures var t := Take(h, size);
      var p := t.p.value;
      Idle(h, {}, p) && h.carved[p] == size && ListsOk(t.h, {p})
  {
    var t := Take(h, size);
    var k := size / 16;
    var l := h.small[k];
    var p := l[0].p;
    assert SmallOk(h, {}, k) && l[0] in l;
    forall j | 0 <= j < NSMALL ensures SmallOk(t.h, {p}, j) {
      assert SmallOk(h, {}, j);
      if j == k {
        assert forall f :: f in l[1..] ==> f in l && f.p != p;
      } else {
        assert forall f :: f in h.small[j] ==> f.p != p;
      }
    }
    forall q | Idle(t.h, {p}, q) && h.carved[q] >= 0 ensures Free(q, h.carved[q]) in List(t.h, h.carved[q]) {
      assert Idle(h, {}, q);
      if h.carved[q] <= SMALL && h.carved[q] / 16 == k {
        assert l == [l[0]] + l[1..];
      }
    }
  }

  lemma WithoutOk(l: seq<Free>, i: nat)
    requires Once(l) && i < |l|
    ensures Once(Without(l, i))
    ensures forall f :: f in Without(l, i) ==> f in l && f.p != l[i].p
    ensures forall f :: f in l && f.p != l[i].p ==> f in Without(l, i)
  {
    var w := Without(l, i);
    forall f | f in w ensures f in l && f.p != l[i].p {
      var j :| 0 <= j < |w| && w[j] == f;
      assert w[j] == if j < i then l[j] else l[j + 1];
    }
    forall f | f in l && f.p != l[i].p ensures f in w {
      var j :| 0 <= j < |l| && l[j] == f;
      assert f == if j < i then w[j] else w[j - 1];
    }
  }

  lemma TakeLarge(h: Heap, size: int)
    requires Laid(h) && ListsOk(h, {}) && size > SMALL && FirstFit(h.large, size) < |h.large|
    ensures var t := Take(h, size);
      var p := t.p.value;
      Idle(h, {}, p) && h.carved[p] >= size && ListsOk(t.h, {p})
  {
    var t := Take(h, size);
    var i := FirstFit(h.large, size);
    var p := h.large[i].p;
    assert h.large[i] in h.large;
    forall j | 0 <= j < NSMALL ensures SmallOk(t.h, {p}, j) {
      assert SmallOk(h, {}, j);
      assert forall f :: f in h.small[j] ==> f.p != p;
    }
    WithoutOk(h.large, i);
    forall q | Idle(t.h, {p}, q) && h.carved[q] >= 0 ensures Free(q, h.carved[q]) in List(t.h, h.carved[q]) {
      assert Idle(h, {}, q);
    }
  }

  lemma TakeOk(h: Heap, size: int)
    requires Inv(h) && size > 0 && size % 16 == 0 && Take(h, size).p.Some?
    ensures var t := Take(h, size);
      var p := t.p.value;
      && Idle(h, {}, p) && h.carved[p] >= size && (size <= SMALL ==> h.carved[p] == size)
      && Laid(t.h) && Headed(t.h, {p}) && ListsOk(t.h, {p}) && t.h.carved == h.carved && t.h.live == h.live &&
         t.h.mem == h.mem
  {
    if size <= SMALL { TakeSmall(h, size); } else { TakeLarge(h, size); }
    SameBlocks(h, Take(h, size).h);
  }

  // Blocks and slabs unchanged are still laid out.
  lemma SameBlocks(h: Heap, g: Heap)
    requires Laid(h) && g.slab == h.slab && g.used == h.used && g.slabs == h.slabs && g.carved == h.carved
    requires g.home == h.home
    ensures Laid(g)
  {
    forall p | p in g.carved ensures Block(g, p) {
      assert Block(h, p);
    }
    forall p, q | p in g.carved && q in g.carved && p != q ensures Apart(g, p, q) {
      assert Apart(h, p, q);
    }
  }

  // -- handing out ----------------------------------------------------------------------------

  // A new slab overlaps none before it.
  lemma SlabAdded(h: Heap, b: int)
    requires Inv(h) && SlabOk(h, b)
    ensures Inv(h.(slab := Some(b), used := 0, slabs := h.slabs + {b}))
  {
    var g := h.(slab := Some(b), used := 0, slabs := h.slabs + {b});
    forall p | p in g.carved ensures Block(g, p) {
      assert Block(h, p);
    }
    forall p, q | p in g.carved && q in g.carved && p != q ensures Apart(g, p, q) {
      assert Apart(h, p, q);
    }
    SameLists(h, g, {});
  }

  lemma SameLists(h: Heap, g: Heap, out: set<int>)
    requires ListsOk(h, out) && g.small == h.small && g.large == h.large && g.carved == h.carved && g.live == h.live
    ensures ListsOk(g, out)
  {
    forall k | 0 <= k < NSMALL ensures SmallOk(g, out, k) {
      assert SmallOk(h, out, k);
    }
    forall p | Idle(g, out, p) && g.carved[p] >= 0 ensures Free(p, g.carved[p]) in List(g, g.carved[p]) {
      assert Idle(h, out, p);
    }
  }

  // A block cut from the slab overlaps none.
  lemma CarveOk(h: Heap, size: int)
    requires Inv(h) && !SlabFull(h, size) && size > 0 && size % 16 == 0
    ensures var g := Carve(h, size);
      var p := g.block.value.p;
      && p !in h.carved && Laid(g.h) && Headed(g.h, {p}) && ListsOk(g.h, {p})
      && p in g.h.carved && g.h.carved[p] == size && g.h.live == h.live
  {
    var g := Carve(h, size).h;
    var b, p := h.slab.value, h.slab.value + h.used;
    forall q | q in h.carved ensures q + h.carved[q] <= p || p + size <= q {
      assert Block(h, q);
    }
    assert p in h.carved ==> Block(h, p);
    forall q | q in g.carved ensures Block(g, q) {
      if q != p { assert Block(h, q); }
    }
    forall q, r | q in g.carved && r in g.carved && q != r ensures Apart(g, q, r) {
      if q != p && r != p { assert Apart(h, q, r); }
    }
    CarvedLists(h, g, p, size);
  }

  lemma CarvedLists(h: Heap, g: Heap, p: int, size: int)
    requires ListsOk(h, {}) && p !in h.carved && g.carved == h.carved[p := size]
    requires g.small == h.small && g.large == h.large && g.live == h.live
    ensures ListsOk(g, {p})
  {
    forall k | 0 <= k < NSMALL ensures SmallOk(g, {p}, k) {
      assert SmallOk(h, {}, k);
    }
    forall q | Idle(g, {p}, q) && g.carved[q] >= 0 ensures Free(q, g.carved[q]) in List(g, g.carved[q]) {
      assert Idle(h, {}, q);
    }
  }

  // A block handed out was in nobody's hands, is big enough, and has the size it says.
  lemma AllocOk(h: Heap, n: int, slab: Option<int>)
    requires Inv(h) && (slab.Some? ==> SlabOk(h, slab.value))
    ensures var g := Alloc(h, n, slab);
      g.block.Some? ==>
        var p := g.block.value.p;
        && p !in h.live && p in g.h.carved && g.block.value.size == g.h.carved[p] && 0 < n <= g.h.carved[p]
        && Laid(g.h) && Headed(g.h, {p}) && ListsOk(g.h, {p}) && g.h.live == h.live
    ensures Alloc(h, n, slab).block.None? ==> Alloc(h, n, slab).h == h
    ensures Alloc(h, n, slab).block.None? <==>
      n <= 0 || n > SLAB || (Take(h, Aligned(n)).p.None? && SlabFull(h, Aligned(n)) && slab.None?)
  {
    if 0 < n <= SLAB {
      if Take(h, Aligned(n)).p.Some? {
        TakeOk(h, Aligned(n));
      } else if SlabFull(h, Aligned(n)) {
        if slab.Some? {
          SlabAdded(h, slab.value);
          CarveOk(h.(slab := slab, used := 0, slabs := h.slabs + {slab.value}), Aligned(n));
        }
      } else {
        CarveOk(h, Aligned(n));
      }
    }
  }

  // n rounded up to 16.
  function Rounded(n: int): int { (n + 15) / 16 * 16 }

  // An idle block that will do for n bytes: one of just that size, rounded up,
  // or above 4096 any that is large enough.
  predicate Serves(h: Heap, n: int, p: int)
    requires p in h.carved
  {
    if Rounded(n) <= 4096 then h.carved[p] == Rounded(n) else h.carved[p] >= Rounded(n)
  }

  ghost predicate Served(h: Heap, n: int)
  {
    exists p :: p in h.carved && p !in h.live && Serves(h, n, p)
  }

  lemma {:induction false} FirstFitFirst(large: seq<Free>, size: int, j: nat)
    requires j < FirstFit(large, size)
    ensures large[j].size < size
    decreases j
  {
    if j > 0 { FirstFitFirst(large[1..], size, j - 1); }
  }

  // Place i of its list has the first block that will do.
  predicate FirstOf(l: seq<Free>, n: int, i: nat)
  {
    i < |l| && l[i].size >= Rounded(n) && forall j :: 0 <= j < i ==> l[j].size < Rounded(n)
  }

  lemma ListedServes(h: Heap, n: int, f: Free)
    requires Inv(h) && n > 0 && f in List(h, Rounded(n)) && f.size >= Rounded(n)
    ensures f.p in h.carved && f.p !in h.live && Serves(h, n, f.p) && f.size == h.carved[f.p]
    ensures f.p in h.mem && h.mem[f.p] == f.size
  {
    if Rounded(n) <= SMALL { assert SmallOk(h, {}, Rounded(n) / 16); }
    assert Listed(h, {}, f);
  }

  lemma ServesListed(h: Heap, n: int, p: int)
    requires Inv(h) && n > 0 && p in h.carved && p !in h.live && Serves(h, n, p)
    ensures Free(p, h.carved[p]) in List(h, Rounded(n)) && h.carved[p] >= Rounded(n)
  {
    assert Block(h, p);
    assert Idle(h, {}, p);
  }

  // What will do and is idle is used: the first of its list, which loses it, and
  // nothing is cut from the slab.
  lemma ReusesFirst(h: Heap, n: int, slab: Option<int>) returns (i: nat)
    requires Inv(h) && 0 < n <= 2 * 1024 * 1024 && Served(h, n)
    ensures var g, l := Alloc(h, n, slab), List(h, Rounded(n));
            && FirstOf(l, n, i) && g.block == Some(l[i]) && List(g.h, Rounded(n)) == l[..i] + l[i + 1..]
            && l[i].p in h.carved && l[i].p !in h.live && l[i].size == h.carved[l[i].p]
            && g.h.slab == h.slab && g.h.used == h.used && g.h.slabs == h.slabs && g.h.carved == h.carved
  {
    var l, size := List(h, Rounded(n)), Rounded(n);
    var p :| p in h.carved && p !in h.live && Serves(h, n, p);
    ServesListed(h, n, p);
    var k :| 0 <= k < |l| && l[k] == Free(p, h.carved[p]);
    if size <= SMALL {
      i := 0;
      assert SmallOk(h, {}, size / 16) && l[0] in h.small[size / 16];
    } else {
      i := FirstFit(l, size);
      if i == |l| { FirstFitFirst(l, size, k); }
      forall j | 0 <= j < i ensures l[j].size < size {
        FirstFitFirst(l, size, j);
      }
    }
    ListedServes(h, n, l[i]);
  }

  // Otherwise the block is cut from the slab while it has room, whatever the
  // system offers; then from a new slab; and only without one is it refused.
  lemma CutsFromSlab(h: Heap, n: int, slab: Option<int>)
    requires Inv(h) && 0 < n <= 2 * 1024 * 1024 && !Served(h, n)
    ensures var g, size := Alloc(h, n, slab), Rounded(n);
            if h.slab.Some? && h.used + size <= 2 * 1024 * 1024 then
              && g.block == Some(Free(h.slab.value + h.used, size))
              && g.h.slab == h.slab && g.h.used == h.used + size && g.h.slabs == h.slabs
            else if slab.Some? then
              && g.block == Some(Free(slab.value, size))
              && g.h.slab == slab && g.h.used == size && g.h.slabs == h.slabs + {slab.value}
            else g.block.None? && g.h == h
    ensures var g := Alloc(h, n, slab).h; g.small == h.small && g.large == h.large
  {
    var size, l := Rounded(n), List(h, Rounded(n));
    if size <= SMALL {
      if l != [] {
        assert SmallOk(h, {}, size / 16) && l[0] in h.small[size / 16];
        ListedServes(h, n, l[0]);
      }
    } else if FirstFit(l, size) < |l| {
      ListedServes(h, n, l[FirstFit(l, size)]);
    }
  }

  lemma {:induction false} WriteKeeps(mem: map<int, int>, a: int, code: seq<int>, p: int)
    requires p < a || a + |code| <= p
    ensures p in Write(mem, a, code) <==> p in mem
    ensures p in mem ==> Write(mem, a, code)[p] == mem[p]
    decreases |code|
  {
    if code != [] {
      WriteKeeps(mem[a := code[0]], a + 1, code[1..], p);
    }
  }

  lemma {:induction false} WriteStores(mem: map<int, int>, a: int, code: seq<int>)
    ensures Stored(Write(mem, a, code), a, code)
    decreases |code|
  {
    if code != [] {
      WriteStores(mem[a := code[0]], a + 1, code[1..]);
      WriteKeeps(mem[a := code[0]], a + 1, code[1..], a);
    }
  }

  // Code elsewhere is not touched.
  lemma {:induction false} WriteApart(mem: map<int, int>, a: int, code: seq<int>, b: int, other: seq<int>)
    requires Stored(mem, b, other) && (b + |other| <= a || a + |code| <= b)
    ensures Stored(Write(mem, a, code), b, other)
    decreases |other|
  {
    if other != [] {
      WriteKeeps(mem, a, code, b);
      WriteApart(mem, a, code, b + 1, other[1..]);
    }
  }

  lemma {:induction false} HeaderApart(mem: map<int, int>, p: int, size: int, b: int, other: seq<int>)
    requires Stored(mem, b, other) && (p < b || b + |other| <= p)
    ensures Stored(mem[p := size], b, other)
    decreases |other|
  {
    if other != [] {
      HeaderApart(mem, p, size, b + 1, other[1..]);
    }
  }

  lemma CodeStays(h: Heap, p: int, size: int, code: seq<int>, q: int)
    requires Laid(h) && q in h.live && q != p && p in h.carved && h.carved[p] >= HDR + |code| && Coded(h, q)
    ensures Stored(Write(h.mem[p := size], p + HDR, code), q + HDR, h.live[q])
  {
    assert Apart(h, q, p) && Block(h, q);
    HeaderApart(h.mem, p, size, q + HDR, h.live[q]);
    WriteApart(h.mem[p := size], p + HDR, code, q + HDR, h.live[q]);
  }

  // Compiling a type: its block is live, holds its header and its code, and no
  // other block's header or code is touched.
  lemma TypecomOk(h: Heap, code: seq<int>, slab: Option<int>)
    requires Inv(h) && (slab.Some? ==> SlabOk(h, slab.value))
    ensures Inv(Typecom(h, code, slab).h)
    ensures var g := Typecom(h, code, slab);
      g.block.Some? ==>
        var p := g.block.value.p;
        && p !in h.live && g.h.live == h.live[p := code] && Coded(g.h, p)
  {
    var n := |code| + HDR;
    AllocOk(h, n, slab);
    var a := Alloc(h, n, slab);
    if a.block.Some? {
      WrittenOk(a.h, a.block.value.p, code);
    }
  }

  // The block handed over gets its header and its code.
  lemma WrittenOk(h: Heap, p: int, code: seq<int>)
    requires Laid(h) && Headed(h, {p}) && ListsOk(h, {p}) && p in h.carved && |code| + HDR <= h.carved[p]
    ensures var g := h.(mem := Write(h.mem[p := h.carved[p]], p + HDR, code), live := h.live[p := code]);
      Inv(g) && Coded(g, p)
  {
    var size := h.carved[p];
    var g := h.(mem := Write(h.mem[p := size], p + HDR, code), live := h.live[p := code]);
    SameBlocks(h, g);
    LiveLists(h, g, p);
    HeadersKept(h, p, code);
    WriteStores(h.mem[p := size], p + HDR, code);
    forall q | q in h.live ensures q != p && Coded(g, q) {
      CodeStays(h, p, size, code, q);
    }
  }

  lemma HeadersKept(h: Heap, p: int, code: seq<int>)
    requires Laid(h) && Headed(h, {p}) && p in h.carved && |code| + HDR <= h.carved[p]
    ensures var mem := Write(h.mem[p := h.carved[p]], p + HDR, code);
      forall q :: q in h.carved ==> q in mem && mem[q] == h.carved[q]
  {
    var mem := Write(h.mem[p := h.carved[p]], p + HDR, code);
    forall q | q in h.carved ensures q in mem && mem[q] == h.carved[q] {
      if q != p {
        assert Apart(h, q, p) && Block(h, q);
      }
      WriteKeeps(h.mem[p := h.carved[p]], p + HDR, code, q);
    }
  }

  lemma LiveLists(h: Heap, g: Heap, p: int)
    requires ListsOk(h, {p}) && p in g.live && g.live.Keys == h.live.Keys + {p}
    requires g.small == h.small && g.large == h.large && g.carved == h.carved
    ensures ListsOk(g, {})
  {
    forall k | 0 <= k < NSMALL ensures SmallOk(g, {}, k) {
      assert SmallOk(h, {p}, k);
    }
    forall q | Idle(g, {}, q) && g.carved[q] >= 0 ensures Free(q, g.carved[q]) in List(g, g.carved[q]) {
      assert Idle(h, {p}, q);
    }
  }

  // -- giving back ------------------------------------------------------------------------------

  lemma FreeOk(h: Heap, p: int, node: bool)
    requires Inv(h) && p in h.live
    ensures p in h.mem && h.mem[p] == h.carved[p] >= 0
    ensures Inv(FreeType(h, p, node))
    ensures var g := FreeType(h, p, node);
      if h.spares == 0 && !node then g == h
      else g.live == h.live - {p} && List(g, h.carved[p]) == [Free(p, h.carved[p])] + List(h, h.carved[p])
  {
    assert Block(h, p);
    if h.spares > 0 || node {
      var g := FreeType(h, p, node);
      var size := h.carved[p];
      SameBlocks(h, g);
      forall k | 0 <= k < NSMALL ensures SmallOk(g, {}, k) {
        assert SmallOk(h, {}, k);
        assert forall f :: f in h.small[k] ==> f.p != p;
      }
      assert forall f :: f in h.large ==> f.p != p;
      forall q | Idle(g, {}, q) && g.carved[q] >= 0 ensures Free(q, g.carved[q]) in List(g, g.carved[q]) {
        if q != p { assert Idle(h, {}, q); }
      }
    }
  }

  // -- over every run -----------------------------------------------------------------------------

  // A type compiled, with the slab the system would give; a type freed, with
  // whether there is memory for a node.
  datatype Op = Compile(code: seq<int>, slab: Option<int>) | Release(p: int, node: bool)

  // What callers and the system keep to: slabs are new memory, and only a
  // type that has code is freed.
  predicate OpOk(h: Heap, op: Op)
  {
    match op
    case Compile(_, slab) => slab.Some? ==> SlabOk(h, slab.value)
    case Release(p, _) => p in h.live
  }

  function Do(h: Heap, op: Op): (g: Heap)
    requires Sized(h)
    ensures Sized(g)
  {
    match op
    case Compile(code, slab) => Typecom(h, code, slab).h
    case Release(p, node) => if p in h.mem && 0 <= h.mem[p] then FreeType(h, p, node) else h
  }

  function Run(h: Heap, ops: seq<Op>): Option<Heap>
    requires Sized(h)
    decreases |ops|
  {
    if ops == [] then Some(h) else if !OpOk(h, ops[0]) then None else Run(Do(h, ops[0]), ops[1..])
  }

  // -- nodes ---------------------------------------------------------------------------------------

  function Total(ls: seq<seq<Free>>): nat { if ls == [] then 0 else |ls[0]| + Total(ls[1..]) }

  // Free-list nodes there are, on a list or spare.
  function Nodes(h: Heap): nat { h.spares + Total(h.small) + |h.large| }

  lemma {:induction false} TotalUpdate(ls: seq<seq<Free>>, k: nat, l: seq<Free>)
    requires k < |ls|
    ensures Total(ls[k := l]) + |ls[k]| == Total(ls) + |l|
    decreases k
  {
    if k == 0 {
      assert ls[k := l][1..] == ls[1..];
    } else {
      assert ls[k := l][1..] == ls[1..][k - 1 := l];
      TotalUpdate(ls[1..], k - 1, l);
    }
  }

  // Nodes are never lost, and a new one is made only when there is no spare.
  lemma NodesKept(h: Heap, op: Op)
    requires Inv(h) && OpOk(h, op)
    ensures Nodes(Do(h, op)) == Nodes(h) + if op.Release? && h.spares == 0 && op.node then 1 else 0
  {
    match op
    case Compile(code, slab) => AllocNodes(h, |code| + HDR, slab);
    case Release(p, node) =>
      FreeOk(h, p, node);
      FreeNodes(h, p, node);
  }

  lemma AllocNodes(h: Heap, n: int, slab: Option<int>)
    requires Sized(h)
    ensures Nodes(Alloc(h, n, slab).h) == Nodes(h)
  {
    if 0 < n <= SLAB { TakeNodes(h, Aligned(n)); }
  }

  lemma FreeNodes(h: Heap, p: int, node: bool)
    requires Sized(h) && p in h.mem && 0 <= h.mem[p]
    ensures Nodes(FreeType(h, p, node)) == Nodes(h) + if h.spares == 0 && node then 1 else 0
  {
    var size := h.mem[p];
    if size <= SMALL { TotalUpdate(h.small, size / 16, [Free(p, size)] + h.small[size / 16]); }
  }

  lemma TakeNodes(h: Heap, size: int)
    requires Sized(h) && size >= 0
    ensures Nodes(Take(h, size).h) == Nodes(h)
  {
    if size <= SMALL {
      if h.small[size / 16] != [] { TotalUpdate(h.small, size / 16, h.small[size / 16][1..]); }
    }
  }

  lemma {:induction false} RunOk(h: Heap, ops: seq<Op>)
    requires Inv(h)
    ensures Run(h, ops).Some? ==> Inv(Run(h, ops).value)
    decreases |ops|
  {
    if ops != [] && OpOk(h, ops[0]) {
      match ops[0]
      case Compile(code, slab) =>
        TypecomOk(h, code, slab);
        RunOk(Typecom(h, code, slab).h, ops[1..]);
      case Release(p, node) =>
        FreeOk(h, p, node);
        RunOk(FreeType(h, p, node), ops[1..]);
    }
  }

  // After any sequence of compilations and frees: a live block is 16-aligned,
  // inside a slab, at least as large as asked, and overlaps no other block,
  // live or free; its header says its size and its code is what was compiled.
  lemma LiveBlocks(ops: seq<Op>, p: int)
    requires Run(Empty(), ops).Some? && p in Run(Empty(), ops).value.live
    ensures var h := Run(Empty(), ops).value;
      && p in h.carved && p % 16 == 0 && 16 + |h.live[p]| <= h.carved[p] && p in h.mem && h.mem[p] == h.carved[p]
      && Stored(h.mem, p + 16, h.live[p])
      && (exists b :: b in h.slabs && b <= p && p + h.carved[p] <= b + 2 * 1024 * 1024)
      && (forall q :: q in h.carved && q != p ==> Apart(h, p, q))
  {
    EmptyOk();
    RunOk(Empty(), ops);
    var h := Run(Empty(), ops).value;
    assert Coded(h, p) && Block(h, p);
  }

  // And every other block there has been is on one list, the one for its size,
  // once; a listed block is not live, and its node and its header say its size.
  lemma FreeBlocks(ops: seq<Op>, p: int)
    requires Run(Empty(), ops).Some? && p in Run(Empty(), ops).value.carved
    ensures var h := Run(Empty(), ops).value;
      && Sized(h) && h.carved[p] >= 0
      && (p in h.live <==> forall f :: f in List(h, h.carved[p]) ==> f.p != p)
      && Once(List(h, h.carved[p]))
      && (forall k, f :: 0 <= k < NSMALL && f in h.small[k] && f.p == p ==>
          p in h.mem && f.size == h.carved[p] == h.mem[p] == 16 * k)
      && (forall f :: f in h.large && f.p == p ==> p in h.mem && f.size == h.carved[p] == h.mem[p] > 4096)
  {
    EmptyOk();
    RunOk(Empty(), ops);
    var h := Run(Empty(), ops).value;
    assert Block(h, p);
    var size := h.carved[p];
    if size <= SMALL { assert SmallOk(h, {}, size / 16); }
    forall k, f | 0 <= k < NSMALL && f in h.small[k] && f.p == p
      ensures p in h.mem && f.size == h.carved[p] == h.mem[p] == 16 * k
    {
      assert SmallOk(h, {}, k);
    }
    if p !in h.live {
      assert Idle(h, {}, p);
      assert Free(p, size) in List(h, size);
    }
  }

  // -- in place ---------------------------------------------------------------------------------

  // Where the first fit is, from where it is not.
  lemma {:induction false} FirstFitFrom(large: seq<Free>, size: int, i: nat)
    requires i <= |large| && forall j :: 0 <= j < i ==> large[j].size < size
    requires i == |large| || large[i].size >= size
    ensures FirstFit(large, size) == i
    decreases |large|
  {
    if i > 0 {
      assert large[0].size < size;
      FirstFitFrom(large[1..], size, i - 1);
    }
  }

  class Allocator {
    var slab: Option<int>
    var used: int
    var small: seq<seq<Free>>
    var large: seq<Free>
    var spares: nat              // nodes on the spare list
    var mem: map<int, int>
    ghost var slabs: set<int>
    ghost var carved: map<int, int>
    ghost var home: map<int, int>
    ghost var live: map<int, seq<int>>

    constructor ()
      ensures View() == Empty()
    {
      slab, used, small, large, spares, mem := None, 0, seq(NSMALL, i => []), [], 0, map[];
      slabs, carved, home, live := {}, map[], map[], map[];
    }

    ghost function View(): Heap
      reads this
    {
      Heap(slab, used, small, large, spares, mem, slabs, carved, home, live)
    }

    method TypefreeTake(size: int) returns (p: Option<int>)
      requires Sized(View()) && size >= 0
      modifies this`small, this`large, this`spares
      ensures Taken(View(), p) == Take(old(View()), size)
    {
      if size <= SMALL {
        var l := small[size / 16];
        if l == [] {
          return None;
        }
        small := small[size / 16 := l[1..]];
        p := Some(l[0].p);
      } else {
        var i := 0;
        while i < |large| && large[i].size < size
          invariant i <= |large| && forall j :: 0 <= j < i ==> large[j].size < size
        {
          i := i + 1;
        }
        FirstFitFrom(large, size, i);
        if i == |large| {
          return None;
        }
        p := Some(large[i].p);
        large := large[..i] + large[i + 1..];
      }
      spares := spares + 1;
    }

    // newSlab is what the system would give.
    method TypecomAlloc(n: int, newSlab: Option<int>) returns (block: Option<Free>)
      requires Inv(View()) && (newSlab.Some? ==> SlabOk(View(), newSlab.value))
      modifies this`small, this`large, this`spares, this`slab, this`used, this`slabs, this`carved, this`home
      ensures Given(View(), block) == Alloc(old(View()), n, newSlab)
    {
      if n <= 0 || n > SLAB {
        return None;
      }
      ghost var h := View();
      var aligned := (n + 15) / 16 * 16;
      assert aligned == Aligned(n);
      var taken := TypefreeTake(aligned);
      if taken.Some? {
        TakeOk(h, aligned);
        return Some(Free(taken.value, mem[taken.value]));
      }
      assert View() == h;
      if slab == None || used > SLAB - aligned {
        if newSlab == None {
          return None;
        }
        slab, used := newSlab, 0;
        slabs := slabs + {newSlab.value};
      }
      var p := slab.value + used;
      used := used + aligned;
      carved, home := carved[p := aligned], home[p := slab.value];
      block := Some(Free(p, aligned));
    }

    method Compile(code: seq<int>, newSlab: Option<int>) returns (block: Option<Free>)
      requires Inv(View()) && (newSlab.Some? ==> SlabOk(View(), newSlab.value))
      modifies this
      ensures Given(View(), block) == Typecom(old(View()), code, newSlab) && Inv(View())
    {
      TypecomOk(View(), code, newSlab);
      block := TypecomAlloc(|code| + HDR, newSlab);
      if block.Some? {
        var p := block.value.p;
        mem := mem[p := block.value.size];
        Emit(p + HDR, code);
        live := live[p := code];
      }
    }

    method Emit(a: int, code: seq<int>)
      modifies this`mem
      ensures mem == Write(old(mem), a, code)
    {
      var i := 0;
      while i < |code|
        invariant 0 <= i <= |code| && Write(mem, a + i, code[i..]) == Write(old(mem), a, code)
      {
        assert code[i..][1..] == code[i + 1..];
        mem := mem[a + i := code[i]];
        i := i + 1;
      }
    }

    // node says whether there is memory for one if none is spare.
    method Freetypejit(p: int, node: bool)
      requires Inv(View()) && p in live
      modifies this`small, this`large, this`spares, this`live
      ensures p in old(mem) && 0 <= old(mem[p]) && View() == FreeType(old(View()), p, node) && Inv(View())
    {
      FreeOk(View(), p, node);
      var size := mem[p];
      if spares > 0 {
        spares := spares - 1;
      } else if !node {
        return;
      }
      var f := Free(p, size);
      if size <= SMALL {
        small := small[size / 16 := [f] + small[size / 16]];
      } else {
        large := [f] + large;
      }
      live := live - {p};
    }
  }
}
