// The compiler's code generator as it runs: three passes over the program,
// each emitting words and relaxing branches as it goes.  The ghost trace is
// what has been emitted, item by item.
module Jit {
  import opened Basics
  import opened Rv64
  import opened CodeRun
  import opened LoadConst
  import opened Relax
  import opened Layout
  import opened Dis
  import opened Program

  // -- appending to a trace ----------------------------------------------------------

  lemma Append(t: seq<Item>, it: Item, forms: seq<Form>)
    ensures NSites(t + [it]) == NSites(t) + SiteCount(it)
    ensures Len(t + [it], forms) == Len(t, forms) + Size(it, FormAt(forms, NSites(t)))
    ensures SitePos(t + [it]) == SitePos(t) + (if it.Site? then [Len(t, [])] else [])
  {
    assert (t + [it])[..|t|] == t;
  }

  lemma AppendPick(t: seq<Item>, it: Item, sp: seq<nat>, ptab: seq<nat>, mtab: seq<nat>)
    requires NSites(t + [it]) <= |sp|
    ensures NSites(t) <= |sp| && (it.Site? ==> NSites(t) < |sp|)
    ensures Pick(t + [it], sp, ptab, mtab)
            == Pick(t, sp, ptab, mtab)
               + (if it.Site? then [BrForm(it.kind, (TPos(it.target, ptab, mtab) - sp[NSites(t)]) * 4)] else [])
  {
    Append(t, it, []);
    assert (t + [it])[..|t|] == t;
  }

  // A length depends only on the forms of its own sites.
  lemma {:induction false} LenForms(t: seq<Item>, f: seq<Form>, g: seq<Form>)
    requires NSites(t) <= |f| && NSites(t) <= |g| && f[..NSites(t)] == g[..NSites(t)]
    ensures Len(t, f) == Len(t, g)
  {
    if t != [] {
      var front := t[..|t| - 1];
      var k := NSites(front);
      assert f[..NSites(t)][..k] == f[..k] && g[..NSites(t)][..k] == g[..k];
      LenForms(front, f, g);
      if t[|t| - 1].Site? {
        assert f[..NSites(t)][k] == g[..NSites(t)][k];
      }
    }
  }

  lemma {:induction false} NSitesConcat(a: seq<Item>, b: seq<Item>)
    ensures NSites(a + b) == NSites(a) + NSites(b)
    decreases |b|
  {
    if b == [] {
      assert a + b == a;
    } else {
      var front := b[..|b| - 1];
      assert (a + b)[..|a + b| - 1] == a + front;
      NSitesConcat(a, front);
    }
  }

  // Every local branch but the open one has all its items.
  predicate Resolved(t: seq<Item>, open: int)
  {
    forall k :: 0 <= k < |t| && t[k].Skip? && k != open ==> k + 1 + t[k].n <= |t|
  }

  lemma {:induction false} CatSame(v: nat -> seq<int>, w: nat -> seq<int>, n: nat)
    requires forall j: nat :: j < n ==> v(j) == w(j)
    ensures Cat(v, n) == Cat(w, n)
  {
    if n > 0 { CatSame(v, w, n - 1); }
  }

  // Words already rendered stay as they are when an item is appended.
  lemma RenderAppend(t: seq<Item>, it: Item, forms: seq<Form>, ptab: seq<nat>, mtab: seq<nat>, open: int)
    requires Resolved(t, open)
    ensures Render(t + [it], forms, ptab, mtab, open, |t| + 1)
            == Render(t, forms, ptab, mtab, open, |t|) + ItemWords(t + [it], forms, ptab, mtab, open, |t|)
  {
    forall j: nat | j < |t|
      ensures ItemWords(t + [it], forms, ptab, mtab, open, j) == ItemWords(t, forms, ptab, mtab, open, j)
    {
      WordsAppend(t, it, forms, ptab, mtab, open, j);
    }
    CatSame(WordsOf(t + [it], forms, ptab, mtab, open), WordsOf(t, forms, ptab, mtab, open), |t|);
  }

  lemma WordsAppend(t: seq<Item>, it: Item, forms: seq<Form>, ptab: seq<nat>, mtab: seq<nat>, open: int, j: nat)
    requires Resolved(t, open) && j < |t|
    ensures ItemWords(t + [it], forms, ptab, mtab, open, j) == ItemWords(t, forms, ptab, mtab, open, j)
  {
    assert (t + [it])[..j] == t[..j];
    if t[j].Skip? && j != open {
      assert (t + [it])[..j + 1 + t[j].n] == t[..j + 1 + t[j].n];
    }
  }

  lemma {:induction false} CatPatch(v: nat -> seq<int>, w: nat -> seq<int>, n: nat, k: nat, x: int)
    requires k < n && |v(k)| == 1 && w(k) == [x]
    requires forall j: nat :: j < n && j != k ==> v(j) == w(j)
    ensures |Cat(v, k)| < |Cat(v, n)| && Cat(w, n) == Cat(v, n)[|Cat(v, k)| := x]
    decreases n
  {
    if k == n - 1 {
      CatSame(v, w, k);
    } else {
      CatPatch(v, w, n - 1, k, x);
    }
  }

  predicate BranchKey(u: int) { true }

  // w is the local branch it, off bytes on.  Opened by BranchKey(0).
  ghost predicate BranchWord(w: int, it: Item, off: int)
    requires it.Skip?
  {
    forall u: int {:trigger BranchKey(u)} :: BranchKey(u) ==> w == EncodeInt(Branch(it.f3, it.rs1, it.rs2, off))
  }

  // Patching the open branch closes it.
  lemma RenderPatch(t: seq<Item>, forms: seq<Form>, ptab: seq<nat>, mtab: seq<nat>, k: nat, at: nat, n: int, x: int)
    requires k < |t| && t[k].Skip? && k + 1 + t[k].n == |t| && LegalForms(t, forms)
    requires at == Len(t[..k], forms) && n == Len(t, forms) - at && BranchWord(x, t[k], 4 * n)
    ensures var before := Render(t, forms, ptab, mtab, k, |t|);
            at < |before| && Render(t, forms, ptab, mtab, -1, |t|) == before[at := x]
  {
    var v, w := WordsOf(t, forms, ptab, mtab, k), WordsOf(t, forms, ptab, mtab, -1);
    assert t[..|t|] == t;
    SkipWord(t, forms, ptab, mtab, k, n, x);
    CatPatch(v, w, |t|, k, x);
    RenderLen(t, forms, ptab, mtab, k, k);
  }

  lemma SkipWord(t: seq<Item>, forms: seq<Form>, ptab: seq<nat>, mtab: seq<nat>, k: nat, n: int, x: int)
    requires k < |t| && t[k].Skip? && k + 1 + t[k].n == |t| && n == Len(t, forms) - Len(t[..k], forms)
    requires BranchWord(x, t[k], 4 * n)
    ensures ItemWords(t, forms, ptab, mtab, -1, k) == [x] && |ItemWords(t, forms, ptab, mtab, k, k)| == 1
  {
    assert BranchKey(0);
    assert t[..|t|] == t;
  }

  // The items' sites have forms, from number k on, that relbr can emit.
  predicate LegalFrom(items: seq<Item>, forms: seq<Form>, k: nat)
  {
    && k + NSites(items) <= |forms|
    && forall j :: 0 <= j < |items| && items[j].Site? ==> SiteLegal(items, forms, k, j)
  }

  predicate SiteLegal(items: seq<Item>, forms: seq<Form>, k: nat, j: nat)
    requires j < |items| && items[j].Site?
  {
    Legal(items[j].kind, FormAt(forms, k + NSites(items[..j])))
  }

  lemma LegalSplit(a: seq<Item>, b: seq<Item>, forms: seq<Form>, k: nat)
    requires LegalFrom(a + b, forms, k)
    ensures LegalFrom(a, forms, k) && LegalFrom(b, forms, k + NSites(a))
  {
    NSitesConcat(a, b);
    forall j | 0 <= j < |a| && a[j].Site? ensures SiteLegal(a, forms, k, j) {
      LegalHead(a, b, forms, k, j);
    }
    forall j | 0 <= j < |b| && b[j].Site? ensures SiteLegal(b, forms, k + NSites(a), j) {
      LegalTail(a, b, forms, k, j);
    }
  }

  lemma LegalHead(a: seq<Item>, b: seq<Item>, forms: seq<Form>, k: nat, j: nat)
    requires LegalFrom(a + b, forms, k) && j < |a| && a[j].Site?
    ensures SiteLegal(a, forms, k, j)
  {
    assert (a + b)[j] == a[j];
    assert SiteLegal(a + b, forms, k, j);
    assert (a + b)[..j] == a[..j];
  }

  lemma LegalTail(a: seq<Item>, b: seq<Item>, forms: seq<Form>, k: nat, j: nat)
    requires LegalFrom(a + b, forms, k) && j < |b| && b[j].Site?
    ensures SiteLegal(b, forms, k + NSites(a), j)
  {
    assert (a + b)[|a| + j] == b[j];
    assert SiteLegal(a + b, forms, k, |a| + j);
    NSitesConcat(a, b[..j]);
    assert (a + b)[..|a| + j] == a + b[..j];
    assert k + NSites((a + b)[..|a| + j]) == k + NSites(a) + NSites(b[..j]);
  }

  lemma LegalAppend(t: seq<Item>, it: Item, forms: seq<Form>)
    requires LegalForms(t, forms) && (it.Site? ==> Legal(it.kind, FormAt(forms, NSites(t))))
    ensures LegalForms(t + [it], forms)
  {
    forall k | 0 <= k < |t + [it]| && (t + [it])[k].Site?
      ensures Legal((t + [it])[k].kind, FormAt(forms, NSites((t + [it])[..k])))
    {
      assert (t + [it])[..k] == t[..k];
      if k == |t| { assert t[..k] == t; }
    }
  }

  // -- the generator's state ---------------------------------------------------------------

  const PASSEMIT := 2

  // The fields of the generator, as a value.
  datatype St = St(
    pass: nat,
    code: seq<int>,          // the buffer being filled
    codeoff: nat,            // where the buffer starts in the module
    patch: seq<nat>,         // where each Dis instruction starts
    patch0: seq<nat>,        // pass 0's layout
    mac: seq<nat>,           // where each macro starts
    mac0: seq<nat>,
    sitepos0: seq<nat>,      // pass 0: where each site is
    nsite: nat,
    siteform: seq<Form>,     // pass 1: the form it gets
    site: nat,
    trace: seq<Item>,        // what has been emitted
    open: int)               // the local branch not patched yet

  // Pass 0 knows where everything is with every site at its longest.
  predicate Sizing(s: St)
  {
    s.codeoff + |s.code| == Len(s.trace, []) && s.sitepos0 == SitePos(s.trace) && s.nsite == |s.sitepos0|
  }

  // Pass 1 has picked a form for every site so far.
  predicate Choosing(s: St)
  {
    && NSites(s.trace) <= s.nsite == |s.sitepos0|
    && s.site == NSites(s.trace) && s.siteform == Pick(s.trace, s.sitepos0, s.patch0, s.mac0)
    && s.codeoff + |s.code| == Len(s.trace, s.siteform)
  }

  // Pass 2 has written the words of everything so far.
  predicate Emitting(s: St)
  {
    && s.site == NSites(s.trace) <= s.nsite == |s.siteform| && s.codeoff == 0
    && LegalForms(s.trace, s.siteform)
    && s.code == Render(s.trace, s.siteform, s.patch, s.mac, s.open, |s.trace|)
    && |s.code| == Len(s.trace, s.siteform)
  }

  predicate Consistent(s: St)
  {
    && s.pass <= PASSEMIT && Resolved(s.trace, s.open)
    && (s.pass == 0 ==> Sizing(s))
    && (s.pass == 1 ==> Choosing(s))
    && (s.pass == 2 ==> Emitting(s))
  }

  predicate Key(u: int) { true }

  // The invariant, closed: it is looked into only where Key is mentioned.
  ghost predicate Inv(s: St)
  {
    forall u: int {:trigger Key(u)} :: Key(u) ==> Consistent(s)
  }

  // A fixed word goes out.
  function PutWord(s: St, it: Item): St
    requires it.Ins? || it.Raw?
  {
    s.(code := s.code + [if it.Ins? then EncodeInt(it.i) else it.w], trace := s.trace + [it])
  }

  lemma StepWord(s: St, it: Item)
    requires Inv(s) && (it.Ins? || it.Raw?)
    ensures Inv(PutWord(s, it))
  {
    assert Key(0);
    AppendPlain(s.trace, it, s.siteform, s.patch, s.mac, s.open);
    if s.pass == 1 { AppendPick(s.trace, it, s.sitepos0, s.patch0, s.mac0); }
    assert Consistent(PutWord(s, it));
  }

  // A site of pass 0: at its longest, its place noted.
  lemma StepSize(s: St, it: Item, code: seq<int>)
    requires Inv(s) && s.pass == 0 && it.Site?
    requires |code| == |s.code| + BrSize(it.kind, FLong)
    ensures Inv(s.(code := code, sitepos0 := s.sitepos0 + [s.codeoff + |s.code|],
                  nsite := s.nsite + 1, trace := s.trace + [it]))
  {
    assert Key(0);
    Append(s.trace, it, []);
    ResolvedSite(s.trace, it, s.open);
    assert Sizing(s.(code := code, sitepos0 := s.sitepos0 + [s.codeoff + |s.code|],
                     nsite := s.nsite + 1, trace := s.trace + [it]));
  }

  // The tables have room, and forms relbr knows, for these items.
  ghost predicate Fits(s: St, items: seq<Item>)
  {
    && (s.pass == 1 ==> s.site + NSites(items) <= s.nsite)
    && (s.pass == 2 ==> LegalFrom(items, s.siteform, s.site))
  }

  function Choice(s: St, it: Item): Form
    requires it.Site? && s.site < |s.sitepos0|
  {
    BrForm(it.kind, (TPos(it.target, s.patch0, s.mac0) - s.sitepos0[s.site]) * 4)
  }

  lemma RoomToChoose(s: St, it: Item)
    requires Inv(s) && s.pass == 1 && it.Site? && Fits(s, [it])
    ensures s.site < s.nsite && s.site < |s.sitepos0|
  {
    assert Key(0);
    SiteAlone(it);
  }

  lemma StepChoose(s: St, it: Item, form: Form, code: seq<int>)
    requires Inv(s) && s.pass == 1 && it.Site? && s.site < s.nsite && s.site < |s.sitepos0|
    requires form == Choice(s, it) && |code| == |s.code| + BrSize(it.kind, form)
    ensures Inv(s.(code := code, siteform := s.siteform + [form], site := s.site + 1, trace := s.trace + [it]))
  {
    assert Key(0);
    ChooseFacts(s.trace, it, s.siteform, s.sitepos0, s.patch0, s.mac0, form);
    ResolvedSite(s.trace, it, s.open);
    assert Choosing(s.(code := code, siteform := s.siteform + [form], site := s.site + 1, trace := s.trace + [it]));
  }

  lemma RoomToPlace(s: St, it: Item)
    requires Inv(s) && s.pass == 2 && it.Site? && Fits(s, [it])
    ensures s.site < s.nsite == |s.siteform| && Legal(it.kind, s.siteform[s.site])
  {
    assert Key(0);
    SiteFits(it, s.siteform, s.site);
  }

  // A site of pass 2: the words of its form.
  function SiteWords(s: St, it: Item): seq<int>
    requires it.Site? && s.site < |s.siteform|
  {
    EncodeAll(SiteInsns(it, s.siteform[s.site], s.codeoff + |s.code|, TPos(it.target, s.patch, s.mac)))
  }

  lemma StepPlace(s: St, it: Item)
    requires Inv(s) && s.pass == 2 && it.Site? && s.site < |s.siteform| && Legal(it.kind, s.siteform[s.site])
    ensures Inv(s.(code := s.code + SiteWords(s, it), site := s.site + 1, trace := s.trace + [it]))
  {
    assert Key(0);
    RoomLeft(s);
    AppendSite(s.trace, it, s.siteform, s.patch, s.mac, s.open, SiteWords(s, it));
    assert Emitting(s.(code := s.code + SiteWords(s, it), site := s.site + 1, trace := s.trace + [it]));
  }

  lemma RoomLeft(s: St)
    requires Consistent(s) && s.pass == 2 && s.site < |s.siteform|
    ensures s.site + 1 <= s.nsite
  {
  }

  // A local branch opens, and is patched when its items are there.
  lemma StepOpen(s: St, it: Item)
    requires Inv(s) && s.open == -1 && it.Skip? && it.n > 0
    ensures var w := EncodeInt(Branch(it.f3, it.rs1, it.rs2, 0));
            Inv(s.(code := s.code + [w], trace := s.trace + [it], open := |s.trace|))
    ensures s.pass == 2 ==> |s.code| == Len(s.trace, s.siteform)
  {
    assert Key(0);
    AppendSkip(s.trace, it, s.siteform, s.patch, s.mac);
    if s.pass == 1 { AppendPick(s.trace, it, s.sitepos0, s.patch0, s.mac0); }
    assert Consistent(s.(code := s.code + [EncodeInt(Branch(it.f3, it.rs1, it.rs2, 0))],
                         trace := s.trace + [it], open := |s.trace|));
  }

  lemma StepPatch(s: St, p: nat, k: nat, w: int)
    requires Inv(s) && s.open == k < |s.trace| && p < |s.code|
    requires s.trace[k].Skip? && k + 1 + s.trace[k].n == |s.trace|
    requires s.pass == 2 ==> p == Len(s.trace[..k], s.siteform)
    requires BranchWord(w, s.trace[k], 4 * (|s.code| - p))
    ensures Inv(s.(code := s.code[p := w], open := -1))
  {
    if s.pass == 2 { PatchRenders(s, p, k, w); }
    PatchConsistent(s, p, k, w);
  }

  lemma PatchRenders(s: St, p: nat, k: nat, w: int)
    requires Inv(s) && s.pass == 2 && s.open == k < |s.trace| && p < |s.code|
    requires s.trace[k].Skip? && k + 1 + s.trace[k].n == |s.trace| && p == Len(s.trace[..k], s.siteform)
    requires BranchWord(w, s.trace[k], 4 * (|s.code| - p))
    ensures Render(s.trace, s.siteform, s.patch, s.mac, -1, |s.trace|) == s.code[p := w]
  {
    assert Key(0);
    RenderLen(s.trace, s.siteform, s.patch, s.mac, k, |s.trace|);
    assert s.trace[..|s.trace|] == s.trace;
    RenderPatch(s.trace, s.siteform, s.patch, s.mac, k, p, |s.code| - p, w);
  }

  // What the patched word is does not matter to the passes that only count.
  lemma PatchConsistent(s: St, p: nat, k: nat, w: int)
    requires Inv(s) && s.open == k < |s.trace| && p < |s.code|
    requires s.trace[k].Skip? && k + 1 + s.trace[k].n == |s.trace|
    requires s.pass == 2 ==> Render(s.trace, s.siteform, s.patch, s.mac, -1, |s.trace|) == s.code[p := w]
    ensures Inv(s.(code := s.code[p := w], open := -1))
  {
    assert Key(0);
    ResolvedPatch(s.trace, k);
  }

  // -- the generator --------------------------------------------------------------------

  class Jit {
    var pass: nat
    var code: seq<int>
    var codeoff: nat
    var patch: seq<nat>
    var patch0: seq<nat>
    var mac: seq<nat>
    var mac0: seq<nat>
    var sitepos0: seq<nat>
    var nsite: nat
    var siteform: seq<Form>
    var site: nat
    ghost var trace: seq<Item>
    ghost var open: int

    constructor ()
      ensures View() == St(0, [], 0, [], [], [], [], [], 0, [], 0, [], -1)
    {
      pass, code, codeoff, sitepos0, nsite, siteform, site := 0, [], 0, [], 0, [], 0;
      patch, patch0, mac, mac0 := [], [], [], [];
      trace, open := [], -1;
    }

    ghost function View(): St
      reads this
    {
      St(pass, code, codeoff, patch, patch0, mac, mac0, sitepos0, nsite, siteform, site, trace, open)
    }

    ghost predicate Valid()
      reads this
    {
      Inv(View())
    }

    // What emitting leaves alone.
    twostate predicate Kept()
      reads this
    {
      && pass == old(pass) && codeoff == old(codeoff)
      && patch == old(patch) && patch0 == old(patch0) && mac == old(mac) && mac0 == old(mac0)
      && (pass > 0 ==> sitepos0 == old(sitepos0) && nsite == old(nsite))
      && (pass == 1 ==> old(siteform) <= siteform)
      && (pass == 2 ==> siteform == old(siteform))
      && old(code) <= code
    }

    // Emitting exactly these instructions.
    twostate predicate Plain(s: seq<Insn>)
      reads this
    {
      Kept() && open == old(open) && site == old(site) && trace == old(trace) + Insns(s)
    }

    // Emitting exactly this branch site.
    twostate predicate Sited(it: Item)
      reads this
    {
      Kept() && open == old(open) && trace == old(trace) + [it] && (pass > 0 ==> site == old(site) + 1)
    }

    // Emitting exactly these items.
    twostate predicate Emitted(items: seq<Item>)
      reads this
    {
      Kept() && open == old(open) && trace == old(trace) + items && (pass > 0 ==> site == old(site) + NSites(items))
    }

    method Emit(i: Insn)
      requires Valid()
      modifies this
      ensures Valid() && Plain([i])
    {
      StepWord(View(), Ins(i));
      assert Insns([i]) == [Ins(i)];
      code := code + [EncodeInt(i)];
      trace := trace + [Ins(i)];
    }

    method EmitRaw(w: int)
      requires Valid()
      modifies this
      ensures Valid() && Kept() && open == old(open) && site == old(site) && trace == old(trace) + [Raw(w)]
      ensures siteform == old(siteform) && sitepos0 == old(sitepos0) && nsite == old(nsite)
    {
      StepWord(View(), Raw(w));
      code := code + [w];
      trace := trace + [Raw(w)];
    }

    // The word index of the next instruction in the module being compiled.
    function Pos(): nat
      reads this
    {
      codeoff + |code|
    }

    // A relaxed branch.  The two phase errors cannot occur.
    method RelBr(kind: Kind, f3: int, rs1: int, rs2: int, target: Target)
      requires Valid() && Fits(View(), [Site(kind, f3, rs1, rs2, target)]) && pass <= PASSEMIT
      modifies this
      ensures Valid() && Sited(Site(kind, f3, rs1, rs2, target))
    {
      if pass == 0 {
        SizeSite(kind, f3, rs1, rs2, target);
      } else if pass == 1 {
        ChooseSite(kind, f3, rs1, rs2, target);
      } else {
        PlaceSite(kind, f3, rs1, rs2, target);
      }
    }

    // Pass 0: where the site is, at its longest.
    method SizeSite(kind: Kind, f3: int, rs1: int, rs2: int, target: Target)
      requires Valid() && pass == 0
      modifies this
      ensures Valid() && Sited(Site(kind, f3, rs1, rs2, target))
    {
      ghost var s, it := View(), Site(kind, f3, rs1, rs2, target);
      var at := Pos();
      Pad(BrSize(kind, FLong));
      StepSize(s, it, code);
      sitepos0, nsite, trace := sitepos0 + [at], nsite + 1, trace + [it];
      assert View() == s.(code := code, sitepos0 := sitepos0, nsite := nsite, trace := trace);
    }

    // Pass 1: the shortest form that pass 0's layout proves will reach.
    method ChooseSite(kind: Kind, f3: int, rs1: int, rs2: int, target: Target)
      requires Valid() && pass == 1 && Fits(View(), [Site(kind, f3, rs1, rs2, target)])
      modifies this
      ensures Valid() && Sited(Site(kind, f3, rs1, rs2, target))
    {
      ghost var s, it := View(), Site(kind, f3, rs1, rs2, target);
      RoomToChoose(s, it);
      if site >= nsite { assert false; }
      var form := BrForm(kind, (TPos(target, patch0, mac0) - sitepos0[site]) * 4);
      siteform, site := siteform + [form], site + 1;
      Pad(BrSize(kind, form));
      StepChoose(s, it, form, code);
      trace := trace + [it];
    }

    // Pass 2: the form pass 1 picked.
    method PlaceSite(kind: Kind, f3: int, rs1: int, rs2: int, target: Target)
      requires Valid() && pass == 2 && Fits(View(), [Site(kind, f3, rs1, rs2, target)])
      modifies this
      ensures Valid() && Sited(Site(kind, f3, rs1, rs2, target))
    {
      ghost var s, it := View(), Site(kind, f3, rs1, rs2, target);
      RoomToPlace(s, it);
      if site >= nsite { assert false; }
      EmitSite(kind, f3, rs1, rs2, target, siteform[site]);
      StepPlace(s, it);
      site := site + 1;
      trace := trace + [it];
    }

    // Words of no interest: nothing runs what passes 0 and 1 emit.
    method Pad(n: nat)
      modifies this`code
      ensures |code| == |old(code)| + n && old(code) <= code
    {
      var k := n;
      while k > 0
        invariant 0 <= k <= n && |code| == |old(code)| + n - k && old(code) <= code
      {
        code := code + [EncodeInt(Addi(RZERO, RZERO, 0))];
        k := k - 1;
      }
    }

    // The jump of a site, with or without a link.
    method EmitJump(link: bool, form: Form, tpos: int)
      modifies this`code
      ensures code == old(code) + EncodeAll(JumpInsns(link, form, old(Pos()), tpos))
    {
      var rd := if link then RLINK else RZERO;
      var off := (tpos - Pos()) * 4;
      if form == FLong {
        var k := if rd == RLINK then RLINK else RTA;
        code := code + [EncodeInt(Auipc(k, SplitHi(off)))];
        code := code + [EncodeInt(Jalr(rd, k, SplitLo(off)))];
      } else {
        code := code + [EncodeInt(Jal(rd, off))];
      }
    }

    // The emit half of relbr, in the form pass 1 picked.
    method EmitSite(kind: Kind, f3: int, rs1: int, rs2: int, target: Target, form: Form)
      requires site < |siteform| && form == siteform[site]
      modifies this`code
      ensures code == old(code) + SiteWords(old(View()), Site(kind, f3, rs1, rs2, target))
    {
      var tpos := TPos(target, patch, mac);
      if kind == BrCond || kind == BrCondCall {
        if kind == BrCond && form == FShort {
          code := code + [EncodeInt(Branch(f3, rs1, rs2, (tpos - Pos()) * 4))];
          return;
        }
        // the inverted condition skips the jump that follows
        code := code + [EncodeInt(Branch(Invert(f3), rs1, rs2, BrSize(kind, form) * 4))];
      }
      EmitJump(IsLink(kind), form, tpos);
    }

    // A local forward branch over n items, patched by Patchb when they are there.
    method Bfwd(f3: int, rs1: int, rs2: int, ghost n: nat) returns (p: nat)
      requires Valid() && open == -1 && n > 0
      modifies this
      ensures Valid() && Kept() && open == |old(trace)| && site == old(site)
      ensures trace == old(trace) + [Skip(f3, rs1, rs2, n)]
      ensures p == |old(code)| < |code| && BranchWord(code[p], Skip(f3, rs1, rs2, n), 0)
      ensures pass == 2 ==> p == Len(old(trace), siteform)
    {
      StepOpen(View(), Skip(f3, rs1, rs2, n));
      p := |code|;
      code := code + [EncodeInt(Branch(f3, rs1, rs2, 0))];
      open := |trace|;
      trace := trace + [Skip(f3, rs1, rs2, n)];
    }

    // Aim the branch at p here, its operands read back from its word.
    method Patchb(p: nat, ghost k: nat, ghost it: Item)
      requires Valid() && open == k < |trace| && p < |code|
      requires it.Skip? && trace[k] == it && k + 1 + it.n == |trace|
      requires IsCond(it.f3) && IsReg(it.rs1) && IsReg(it.rs2)
      requires BranchWord(code[p], it, 0)
      requires pass == 2 ==> p == Len(trace[..k], siteform)
      modifies this`code, this`open
      ensures Valid() && open == -1
      ensures |code| == |old(code)| && code[..p] == old(code[..p])
    {
      var w := Reaimed(code[p], 4 * (|code| - p), it);
      StepPatch(View(), p, k, w);
      UpdateKeeps(code, p, w);
      code := code[p := w];
      open := -1;
    }

    static method Reaimed(w: int, off: int, ghost it: Item) returns (w': int)
      requires it.Skip? && IsCond(it.f3) && IsReg(it.rs1) && IsReg(it.rs2) && BranchWord(w, it, 0)
      ensures BranchWord(w', it, off)
    {
      assert BranchKey(0);
      PatchFields(w, it.f3, it.rs1, it.rs2, off);
      var f := Split(w);
      w' := BType(off, f.rs2, f.rs1, f.f3);
    }

    // -- constants, memory and operands, instruction by instruction ----------------

    // li: one instruction for 12 bits, two for 32, up to eight for 64.
    method Li(rd: int, val: int)
      requires Valid() && IsReg(rd) && IsWord(val)
      modifies this
      ensures Valid() && Plain(LiSeq(rd, val))
      decreases Abs(val), 1
    {
      if -2048 <= val < 2048 {
        Emit(Addi(rd, RZERO, val));
        return;
      }
      var lo := Sext12(val);
      if val == W32(val) {
        var up := Lui(rd, (val - lo) / 4096 % 0x10_0000);
        Emit(up);
        if lo != 0 {
          Emit(Addiw(rd, rd, lo));
          InsnsConcat([up], [Addiw(rd, rd, lo)]);
        }
        return;
      }
      var hi, sh := Halve(val);
      LiLong(rd, val, hi, sh);
    }

    // What is above the low 12 bits, halved until it is odd, and how far it is up.
    method Halve(val: int) returns (hi: int, sh: nat)
      requires IsWord(val) && !IsImm12(val)
      ensures High(val) != 0 && sh >= 12 && (hi, (sh - 12) as nat) == Odd(High(val))
      ensures IsWord(hi) && Abs(hi) < Abs(val)
    {
      HighBound(val);
      hi, sh := W64(val - Sext12(val)) / 4096, 12;
      while hi % 2 == 0
        invariant hi != 0 && sh >= 12 && Abs(hi) <= Abs(High(val))
        invariant Odd(High(val)) == (Odd(hi).0, Odd(hi).1 + (sh - 12))
        decreases Abs(hi)
      {
        hi, sh := hi / 2, sh + 1;
      }
    }

    method LiLong(rd: int, val: int, hi: int, sh: nat)
      requires Valid() && IsReg(rd) && IsWord(val) && val != W32(val) && !IsImm12(val)
      requires High(val) != 0 && sh >= 12 && (hi, (sh - 12) as nat) == Odd(High(val))
      requires IsWord(hi) && Abs(hi) < Abs(val)
      modifies this
      ensures Valid() && Plain(LiSeq(rd, val))
      decreases Abs(val), 0
    {
      var lo := Sext12(val);
      Li(rd, hi);
      Emit(Slli(rd, rd, sh));
      InsnsConcat(LiSeq(rd, hi), [Slli(rd, rd, sh)]);
      if lo != 0 {
        Emit(Addi(rd, rd, lo));
        InsnsConcat(LiSeq(rd, hi) + [Slli(rd, rd, sh)], [Addi(rd, rd, lo)]);
      }
      assert LiSeq(rd, val) == LiSeq(rd, hi) + [Slli(rd, rd, sh)] + (if lo != 0 then [Addi(rd, rd, lo)] else []);
    }

    method Mem(op: MemOp, off: int, rbase: int, r: int)
      requires Valid() && IsWord(off)
      modifies this
      ensures Valid() && Plain(MemSeq(op, off, rbase, r))
    {
      var rb, o := rbase, off;
      if off < -2048 || off >= 2048 {
        Li(RCON, off);
        Emit(Reg(ADD, RCON, RCON, rbase));
        rb, o := RCON, 0;
        InsnsConcat(LiSeq(RCON, off), [Reg(ADD, RCON, RCON, rbase)]);
      }
      ghost var before := if IsImm12(off) then [] else LiSeq(RCON, off) + [Reg(ADD, RCON, RCON, rbase)];
      Emit(Access(op, o, rb, r));
      InsnsConcat(before, [Access(op, o, rb, r)]);
      assert before + [Access(op, o, rb, r)] == MemSeq(op, off, rbase, r);
    }

    method Opx(op: MemOp, a: Operand, r: int)
      requires Valid() && OperandOk(a) && IsReg(r)
      modifies this
      ensures Valid() && Plain(OpxSeq(a, op, r))
    {
      match a
      case FP(ind) => Mem(op, ind, RFP, r);
      case MP(ind) => Mem(op, ind, RMP, r);
      case Imm(v) => Li(r, v);
      case IndFP(f, s) => Indirect(op, f, s, RFP, r);
      case IndMP(f, s) => Indirect(op, f, s, RMP, r);
    }

    method Indirect(op: MemOp, f: int, s: int, ir: int, r: int)
      requires Valid() && IsWord(f) && IsWord(s)
      modifies this
      ensures Valid() && Plain(IndSeq(op, f, s, ir, r))
    {
      Mem(Ldw, f, ir, RTA);
      Mem(op, s, RTA, r);
      InsnsConcat(MemSeq(Ldw, f, ir, RTA), MemSeq(op, s, RTA, r));
    }

    method Mid(m: Middle, d: Operand, op: MemOp, r: int)
      requires Valid() && MiddleOk(m) && OperandOk(d) && IsReg(r)
      modifies this
      ensures Valid() && Plain(MidSeq(m, d, op, r))
    {
      match m
      case XNone => Opx(op, d, r);
      case XImm(v) => Li(r, v);
      case XFP(off) => Mem(op, off, RFP, r);
      case XMP(off) => Mem(op, off, RMP, r);
    }

    // The word operations.
    method Arith(op: ArithOp, s: Operand, m: Middle, d: Operand)
      requires Valid() && OperandOk(s) && MiddleOk(m) && OperandOk(d)
      modifies this
      ensures Valid() && Plain(ArithSeq(op, s, m, d))
    {
      Loads(op, s, m, d);
      ghost var loads := LoadsSeq(op, s, m, d);
      Operate(op);
      InsnsConcat(loads, OpSeq(op));
      Opx(Stw, d, RA0);
      InsnsConcat(loads + OpSeq(op), OpxSeq(d, Stw, RA0));
    }

    method Loads(op: ArithOp, s: Operand, m: Middle, d: Operand)
      requires Valid() && OperandOk(s) && MiddleOk(m) && OperandOk(d)
      modifies this
      ensures Valid() && Plain(LoadsSeq(op, s, m, d))
    {
      if op == MulW {
        InsnsThen(trace, OpxSeq(s, Ldw, RA1), MidSeq(m, d, Ldw, RA0));
        Opx(Ldw, s, RA1);
        Mid(m, d, Ldw, RA0);
      } else {
        InsnsThen(trace, MidSeq(m, d, Ldw, RA1), OpxSeq(s, Ldw, RA0));
        Mid(m, d, Ldw, RA1);
        Opx(Ldw, s, RA0);
      }
    }

    method Operate(op: ArithOp)
      requires Valid()
      modifies this
      ensures Valid() && Plain(OpSeq(op))
    {
      match op
      case AddW => Emit(Reg(ADDW, RA0, RA1, RA0));
      case SubW => Emit(Reg(SUBW, RA0, RA1, RA0));
      case MulW => Emit(Reg(MULW, RA0, RA0, RA1));
      case _ =>
        var rop := if op == AndW then AND else if op == OrW then OR else XOR;
        Emit(Reg(rop, RA0, RA1, RA0));
        Emit(Addiw(RA0, RA0, 0));
        InsnsConcat([Reg(rop, RA0, RA1, RA0)], [Addiw(RA0, RA0, 0)]);
    }

    // -- branches and whole instructions --------------------------------------------

    // Decrement IC at a branch that does not go forward.
    method SchedCheck(pc: nat, target: nat)
      requires Valid() && open == -1 && pass <= PASSEMIT && Fits(View(), SchedItems(target, pc))
      modifies this
      ensures Valid() && Emitted(SchedItems(target, pc))
    {
      if target > pc { return; }
      ghost var t0, skip := trace, Skip(4, RZERO, RA0, |MemSeq(Stw, OREGFP, RREG, RFP)| + 1);
      FitsSched(View(), target, pc);
      Count();
      var p := Bfwd(4, RZERO, RA0, skip.n);
      ghost var t1 := trace;
      Mem(Stw, OREGFP, RREG, RFP);
      RelBr(BrCall, 0, 0, 0, TMac(MACRELQ));
      SkipPlace(t0 + Insns(CountSeq()), skip, trace);
      Patchb(p, |t1| - 1, skip);
    }

    method Count()
      requires Valid()
      modifies this
      ensures Valid() && Plain(CountSeq())
    {
      Mem(Ldw32s, OREGIC, RREG, RA0);
      Emit(Addiw(RA0, RA0, -1));
      InsnsConcat(MemSeq(Ldw32s, OREGIC, RREG, RA0), [Addiw(RA0, RA0, -1)]);
      Mem(Stw32, OREGIC, RREG, RA0);
      InsnsConcat(MemSeq(Ldw32s, OREGIC, RREG, RA0) + [Addiw(RA0, RA0, -1)], MemSeq(Stw32, OREGIC, RREG, RA0));
    }

    // Branch to a Dis instruction if (a cond b).
    method CmpBra(c: Cond, a: int, b: int, target: nat)
      requires Valid() && pass <= PASSEMIT && Fits(View(), [CmpSite(c, a, b, target)])
      modifies this
      ensures Valid() && Sited(CmpSite(c, a, b, target))
    {
      var o := CmpOp(c, a, b);
      RelBr(BrCond, o.0, o.1, o.2, TDis(target));
    }

    method Cbra(c: Cond, s: Operand, m: Middle, dimm: int, pc: nat, target: nat)
      requires Valid() && open == -1 && pass <= PASSEMIT
      requires OperandOk(s) && MiddleOk(m) && IsWord(dimm)
      requires Fits(View(), SchedItems(target, pc) + Insns(BraSeq(s, m, dimm)) + [CmpSite(c, RA0, RA1, target)])
      modifies this
      ensures Valid() && Emitted(SchedItems(target, pc) + Insns(BraSeq(s, m, dimm)) + [CmpSite(c, RA0, RA1, target)])
    {
      FitsBranch(View(), SchedItems(target, pc), BraSeq(s, m, dimm), CmpSite(c, RA0, RA1, target));
      ThreeParts(trace, SchedItems(target, pc), Insns(BraSeq(s, m, dimm)), [CmpSite(c, RA0, RA1, target)]);
      SchedCheck(pc, target);
      BraLoads(s, m, dimm);
      CmpBra(c, RA0, RA1, target);
    }

    method BraLoads(s: Operand, m: Middle, dimm: int)
      requires Valid() && OperandOk(s) && MiddleOk(m) && IsWord(dimm)
      modifies this
      ensures Valid() && Plain(BraSeq(s, m, dimm))
    {
      InsnsThen(trace, OpxSeq(s, Ldw, RA0), MidSeq(m, Imm(dimm), Ldw, RA1));
      Opx(Ldw, s, RA0);
      Mid(m, Imm(dimm), Ldw, RA1);
    }

    method Jump(pc: nat, target: nat)
      requires Valid() && open == -1 && pass <= PASSEMIT
      requires Fits(View(), SchedItems(target, pc) + [Site(BrJ, 0, 0, 0, TDis(target))])
      modifies this
      ensures Valid() && Emitted(SchedItems(target, pc) + [Site(BrJ, 0, 0, 0, TDis(target))])
    {
      FitsJump(View(), SchedItems(target, pc), Site(BrJ, 0, 0, 0, TDis(target)));
      SchedCheck(pc, target);
      RelBr(BrJ, 0, 0, 0, TDis(target));
    }

    // Any other instruction: its words and sites, in order.
    method Items(items: seq<Item>, n: nat)
      requires Valid() && open == -1 && pass <= PASSEMIT && Fits(View(), items)
      requires forall k :: 0 <= k < |items| ==> OtherOk(items[k], n, NMACRO)
      modifies this
      ensures Valid() && Emitted(items)
    {
      ghost var s := View();
      for k := 0 to |items|
        invariant Valid() && Kept() && open == -1
        invariant trace == s.trace + items[..k] && (pass > 0 ==> site == s.site + NSites(items[..k]))
      {
        assert items[..k + 1] == items[..k] + [items[k]];
        Append(items[..k], items[k], []);
        FitsItem(s, View(), items, k);
        assert OtherOk(items[k], n, NMACRO);
        match items[k]
        case Ins(i) => Emit(i); assert Insns([i]) == [Ins(i)];
        case Raw(w) => EmitRaw(w);
        case Site(kind, f3, rs1, rs2, t) => RelBr(kind, f3, rs1, rs2, t);
      }
      assert items[..|items|] == items;
    }

    // comp: one Dis instruction.
    method Comp(i: Inst, pc: nat, n: nat)
      requires Valid() && open == -1 && pass <= PASSEMIT && InstOk(i, n, NMACRO)
      requires Fits(View(), CompItems(i, pc, n, NMACRO))
      modifies this
      ensures Valid() && Emitted(CompItems(i, pc, n, NMACRO))
    {
      match i
      case MovW(s, d) => Move(s, d);
      case Arith(op, s, m, d) =>
        Arith(op, s, m, d);
        NSitesInsns(ArithSeq(op, s, m, d));
      case BrW(c, s, m, dimm, t) => Cbra(c, s, m, dimm, pc, t);
      case Jmp(t) => Jump(pc, t);
      case Other(items) => Items(items, n);
    }

    method Move(s: Operand, d: Operand)
      requires Valid() && OperandOk(s) && OperandOk(d)
      modifies this
      ensures Valid() && Emitted(Insns(OpxSeq(s, Ldw, RA0) + OpxSeq(d, Stw, RA0)))
    {
      Opx(Ldw, s, RA0);
      Opx(Stw, d, RA0);
      InsnsConcat(OpxSeq(s, Ldw, RA0), OpxSeq(d, Stw, RA0));
      NSitesInsns(OpxSeq(s, Ldw, RA0) + OpxSeq(d, Stw, RA0));
    }

    // -- the passes --------------------------------------------------------------------

    // The buffer starts afresh at word n, as it does for every instruction of
    // a sizing pass.
    method Flush()
      requires Valid() && pass < PASSEMIT
      modifies this`code, this`codeoff
      ensures Valid() && code == [] && codeoff == old(codeoff) + |old(code)|
    {
      StepFlush(View());
      codeoff := codeoff + |code|;
      code := [];
    }

    // Instruction i starts at word n.
    method Record(i: nat, n: nat)
      requires Valid() && pass < PASSEMIT && i < |patch|
      modifies this`patch
      ensures Valid() && patch == old(patch)[i := n]
    {
      StepTables(View(), patch[i := n], mac);
      patch := patch[i := n];
    }

    // Macro i starts at word n.
    method RecordMac(i: nat, n: nat)
      requires Valid() && pass < PASSEMIT && i < |mac|
      modifies this`mac
      ensures Valid() && mac == old(mac)[i := n]
    {
      StepTables(View(), patch, mac[i := n]);
      mac := mac[i := n];
    }

    // What a pass leaves alone.
    twostate predicate Fixed()
      reads this
    {
      && pass == old(pass) && patch0 == old(patch0) && mac0 == old(mac0)
      && (pass > 0 ==> sitepos0 == old(sitepos0) && nsite == old(nsite))
      && (pass == 2 ==> siteform == old(siteform) && patch == old(patch) && mac == old(mac))
    }

    // A sizing pass's turn at instruction i, which starts at word n.
    method SizeInst(prog: seq<Inst>, macros: seq<seq<int>>, ghost plan: seq<Item>, i: nat, n: nat)
      returns (r: Option<nat>)
      requires ProgOk(prog, macros) && i < |prog| && AtInst(View(), prog, macros, plan, i) && pass < PASSEMIT
      requires n == Pos()
      modifies this
      ensures Fixed() && mac == old(mac)
      ensures r.Some? ==> AtInst(View(), prog, macros, plan, i + 1) && r.value == Pos()
      ensures r.None? && pass == 0 ==> !InstFits(prog, macros, i)
      ensures r.Some? && pass == 0 ==> InstFits(prog, macros, i)
      ensures pass == 1 && InstFits(prog, macros, i) ==> r.Some?
    {
      ghost var s0 := View();
      EnterInst(s0, prog, macros, plan, i);
      Flush();
      Comp(prog[i], i, |prog|);
      ghost var s1 := View();
      SizeStep(s0, s1, prog, macros, plan, i, n);
      if |code| >= TmpSize(|prog|) { return None; }
      Record(i, n);
      if n + |code| > MAXWORDS { return None; }
      r := Some(n + |code|);
    }

    // The emit pass's turn at instruction i.  The phase error cannot occur.
    method EmitInst(prog: seq<Inst>, macros: seq<seq<int>>, ghost plan: seq<Item>, i: nat, n: nat) returns (r: nat)
      requires ProgOk(prog, macros) && i < |prog| && AtInst(View(), prog, macros, plan, i) && pass == PASSEMIT
      requires n == Pos()
      modifies this
      ensures Fixed() && mac == old(mac) && AtInst(View(), prog, macros, plan, i + 1) && r == Pos()
    {
      ghost var s0 := View();
      EnterInst(s0, prog, macros, plan, i);
      var s := |code|;
      Comp(prog[i], i, |prog|);
      EmitStep(s0, View(), prog, macros, plan, i);
      if patch[i] != n { assert false; }
      r := n + (|code| - s);
    }

    method OneInst(prog: seq<Inst>, macros: seq<seq<int>>, ghost plan: seq<Item>, i: nat, n: nat)
      returns (r: Option<nat>)
      requires ProgOk(prog, macros) && i < |prog| && AtInst(View(), prog, macros, plan, i) && n == Pos()
      modifies this
      ensures Fixed() && mac == old(mac)
      ensures r.Some? ==> AtInst(View(), prog, macros, plan, i + 1) && r.value == Pos()
      ensures pass == 0 ==> (r.Some? <==> InstFits(prog, macros, i))
      ensures pass == 1 && InstFits(prog, macros, i) ==> r.Some?
      ensures pass > 1 ==> r.Some?
    {
      if pass >= PASSEMIT {
        PassKnown(View(), prog, macros, plan, i);
        var m := EmitInst(prog, macros, plan, i, n);
        r := Some(m);
      } else {
        r := SizeInst(prog, macros, plan, i, n);
      }
    }

    // One pass over the instructions: None when one overflows the scratch
    // buffer or the module grows too large.
    method Insts(prog: seq<Inst>, macros: seq<seq<int>>, ghost plan: seq<Item>) returns (r: Option<nat>)
      requires ProgOk(prog, macros) && AtInst(View(), prog, macros, plan, 0) && code == [] && codeoff == 0
      requires pass == 1 ==> Accepts(prog, macros)
      modifies this
      ensures Fixed() && mac == old(mac)
      ensures r.Some? ==> PastInsts(View(), prog, macros, plan) && r.value == Pos()
      ensures pass == 0 ==> (r.Some? <==> Accepts(prog, macros))
      ensures pass > 0 ==> r.Some?
    {
      var n := 0;
      var i := 0;
      while i < |prog|
        invariant i <= |prog| && AtInst(View(), prog, macros, plan, i) && n == Pos()
        invariant Fixed() && mac == old(mac)
        invariant pass == 0 ==> AcceptsUpTo(prog, macros, i)
      {
        r := OneInst(prog, macros, plan, i, n);
        if r.None? { return; }
        n := r.value;
        i := i + 1;
      }
      LastStep(View(), prog, macros, plan, n);
      if pass != PASSEMIT {
        // one past the last Dis instruction
        Record(|prog|, n);
      }
      r := Some(n);
    }

    // The trap between the instructions and the macros.
    method Trap(prog: seq<Inst>, macros: seq<seq<int>>, ghost plan: seq<Item>, n: nat) returns (r: nat)
      requires ProgOk(prog, macros) && PastInsts(View(), prog, macros, plan) && |mac| == NMACRO && n == Pos()
      requires pass == 2 ==> MacedUpTo(prog, macros, mac, siteform, NMACRO)
      modifies this`code, this`codeoff, this`trace
      ensures AtMac(View(), prog, macros, 0) && r == Pos() && (pass == PASSEMIT ==> codeoff == 0)
    {
      TrapStep(View(), prog, macros, plan);
      if pass == PASSEMIT {
        code := code + [EBREAK];
      } else {
        codeoff := codeoff + |code| + 1;
        code := [];
      }
      trace := trace + [Raw(EBREAK)];
      r := n + 1;
    }

    // One macro's words.
    method GenMacro(ws: seq<int>)
      requires Valid()
      modifies this
      ensures Valid() && Kept() && open == old(open) && site == old(site) && trace == old(trace) + Raws(ws)
      ensures siteform == old(siteform) && sitepos0 == old(sitepos0) && nsite == old(nsite)
    {
      ghost var t := trace;
      for k := 0 to |ws|
        invariant Valid() && Kept() && open == old(open) && site == old(site) && trace == t + Raws(ws[..k])
        invariant siteform == old(siteform) && sitepos0 == old(sitepos0) && nsite == old(nsite)
      {
        EmitRaw(ws[k]);
        assert Raws(ws[..k + 1]) == Raws(ws[..k]) + [Raw(ws[k])];
      }
      assert ws[..|ws|] == ws;
    }

    method SizeMacro(prog: seq<Inst>, macros: seq<seq<int>>, i: nat, n: nat) returns (r: nat)
      requires ProgOk(prog, macros) && i < NMACRO && AtMac(View(), prog, macros, i) && pass < PASSEMIT && n == Pos()
      modifies this
      ensures Fixed() && patch == old(patch) && siteform == old(siteform) && sitepos0 == old(sitepos0)
      ensures nsite == old(nsite)
      ensures AtMac(View(), prog, macros, i + 1) && r == Pos()
    {
      ghost var s0 := View();
      EnterMac(s0, prog, macros, i);
      Flush();
      GenMacro(macros[i]);
      MacStep(s0, View(), prog, macros, i, n);
      RecordMac(i, n);
      r := n + |code|;
    }

    // The macro phase error cannot occur.
    method EmitMacro(prog: seq<Inst>, macros: seq<seq<int>>, i: nat, n: nat) returns (r: nat)
      requires ProgOk(prog, macros) && i < NMACRO && AtMac(View(), prog, macros, i) && pass == PASSEMIT && n == Pos()
      modifies this
      ensures Fixed() && sitepos0 == old(sitepos0) && nsite == old(nsite)
      ensures AtMac(View(), prog, macros, i + 1) && r == Pos()
    {
      ghost var s0 := View();
      EnterMac(s0, prog, macros, i);
      var s := |code|;
      GenMacro(macros[i]);
      MacEmitStep(s0, View(), prog, macros, i);
      if mac[i] != n { assert false; }
      r := n + (|code| - s);
    }

    // One pass over the whole module.
    method Compass(prog: seq<Inst>, macros: seq<seq<int>>, ghost plan: seq<Item>) returns (r: Option<nat>)
      requires ProgOk(prog, macros) && AtInst(View(), prog, macros, plan, 0) && code == [] && codeoff == 0
      requires |mac| == NMACRO && (pass == 2 ==> MacedUpTo(prog, macros, mac, siteform, NMACRO))
      requires pass == 1 ==> Accepts(prog, macros)
      modifies this
      ensures Fixed()
      ensures pass == 0 ==> (r.Some? <==> Accepts(prog, macros))
      ensures pass > 0 ==> r.Some?
      ensures r.Some? ==> Past(View(), prog, macros) && r.value == Pos()
    {
      r := Insts(prog, macros, plan);
      if r.None? { return; }
      var n := Trap(prog, macros, plan, r.value);
      var i := 0;
      while i < NMACRO
        invariant i <= NMACRO && AtMac(View(), prog, macros, i) && n == Pos() && Fixed()
      {
        if pass >= PASSEMIT {
          MacPassKnown(View(), prog, macros, i);
          n := EmitMacro(prog, macros, i, n);
        } else {
          n := SizeMacro(prog, macros, i, n);
        }
        i := i + 1;
      }
      PastStep(View(), prog, macros);
      r := Some(n);
    }

    // The three passes.  Pass 1 always picks from pass 0's layout, pass 2
    // always emits exactly what pass 1 sized, and what comes out is the final
    // code of the program's image.
    method Compile(prog: seq<Inst>, macros: seq<seq<int>>) returns (ok: bool)
      requires ProgOk(prog, macros)
      modifies this
      ensures ok <==> Accepts(prog, macros)
      ensures ok ==> ImageOk(ImageOf(prog, macros)) && code == FinalCode(ImageOf(prog, macros))
      ensures ok ==> patch == Tab(ImageOf(prog, macros).items, Starts(prog, macros), Chosen(ImageOf(prog, macros)))
      ensures ok ==> mac == Tab(ImageOf(prog, macros).items, MacStarts(prog, macros), Chosen(ImageOf(prog, macros)))
    {
      patch, mac := seq(|prog| + 1, i => 0), seq(NMACRO, i => 0);
      var r := Pass0(prog, macros);
      if r.None? { return false; }
      patch0, mac0 := patch, mac;
      var n := Pass1(prog, macros);
      var m := Pass2(prog, macros);
      if m != n { assert false; }
      ok := true;
    }

    // Pass 0: every site at its longest; where each is.
    method Pass0(prog: seq<Inst>, macros: seq<seq<int>>) returns (r: Option<nat>)
      requires ProgOk(prog, macros) && |patch| == |prog| + 1 && |mac| == NMACRO
      modifies this
      ensures r.Some? <==> Accepts(prog, macros)
      ensures r.Some? ==> Measured(View(), prog, macros)
    {
      ghost var plan := ImageOf(prog, macros).items;
      Begin(0);
      sitepos0, nsite := [], 0;
      StartPass0(View(), prog, macros, plan);
      r := Compass(prog, macros, plan);
      if r.Some? { EndPass0(View(), prog, macros); }
    }

    // Pass 1: the shortest form each site provably reaches with.
    method Pass1(prog: seq<Inst>, macros: seq<seq<int>>) returns (n: nat)
      requires ProgOk(prog, macros) && Accepts(prog, macros) && Measured(View(), prog, macros)
      requires patch0 == patch && mac0 == mac
      modifies this
      ensures Picked(View(), prog, macros) && n == Len(ImageOf(prog, macros).items, Chosen(ImageOf(prog, macros)))
    {
      ghost var plan := ImageOf(prog, macros).items;
      Begin(1);
      siteform := [];
      StartPass1(View(), prog, macros, plan);
      var r := Compass(prog, macros, plan);
      EndPass1(View(), prog, macros);
      if site != nsite { assert false; }
      n := r.value;
    }

    // Pass 2: emit.
    method Pass2(prog: seq<Inst>, macros: seq<seq<int>>) returns (n: nat)
      requires ProgOk(prog, macros) && Picked(View(), prog, macros)
      modifies this
      ensures Finished(View(), prog, macros) && n == Len(ImageOf(prog, macros).items, Chosen(ImageOf(prog, macros)))
    {
      ghost var plan := ImageOf(prog, macros).items;
      Begin(2);
      StartPass2(View(), prog, macros, plan);
      var r := Compass(prog, macros, plan);
      EndPass2(View(), prog, macros);
      n := r.value;
    }

    method Begin(p: nat)
      modifies this`pass, this`code, this`codeoff, this`site, this`trace, this`open
      ensures pass == p && code == [] && codeoff == 0 && site == 0 && trace == [] && open == -1
    {
      pass, code, codeoff, site := p, [], 0, 0;
      trace, open := [], -1;
    }
  }

  function LoadsSeq(op: ArithOp, s: Operand, m: Middle, d: Operand): seq<Insn>
    requires OperandOk(s) && MiddleOk(m) && OperandOk(d)
  {
    if op == MulW then OpxSeq(s, Ldw, RA1) + MidSeq(m, d, Ldw, RA0)
    else MidSeq(m, d, Ldw, RA1) + OpxSeq(s, Ldw, RA0)
  }

  lemma {:induction false} NSitesInsns(s: seq<Insn>)
    ensures NSites(Insns(s)) == 0
  {
    if s != [] {
      var front := s[..|s| - 1];
      assert Insns(s)[..|s| - 1] == Insns(front);
      NSitesInsns(front);
    }
  }

  // The site at the end of items without any.
  lemma FitsLast(s: St, a: seq<Item>, it: Item)
    requires Fits(s, a + [it]) && it.Site? && NSites(a) == 0
    ensures Fits(s, [it])
  {
    NSitesConcat(a, [it]);
    if s.pass == 2 { LegalSplit(a, [it], s.siteform, s.site); }
  }

  lemma FitsSplit(s: St, a: seq<Item>, b: seq<Item>)
    requires Fits(s, a + b)
    ensures Fits(s, a) && Fits(s.(site := s.site + NSites(a)), b)
  {
    NSitesConcat(a, b);
    if s.pass == 2 { LegalSplit(a, b, s.siteform, s.site); }
  }

  lemma FitsSched(s: St, target: nat, pc: nat)
    requires Fits(s, SchedItems(target, pc)) && target <= pc
    ensures NSites(SchedItems(target, pc)) == 1
    ensures Fits(s, [Site(BrCall, 0, 0, 0, TMac(MACRELQ))])
  {
    var a := Insns(CountSeq()) + [Skip(4, RZERO, RA0, |MemSeq(Stw, OREGFP, RREG, RFP)| + 1)];
    var b := Insns(MemSeq(Stw, OREGFP, RREG, RFP));
    var it := Site(BrCall, 0, 0, 0, TMac(MACRELQ));
    NSitesInsns(CountSeq());
    Append(Insns(CountSeq()), Skip(4, RZERO, RA0, |MemSeq(Stw, OREGFP, RREG, RFP)| + 1), []);
    NSitesInsns(MemSeq(Stw, OREGFP, RREG, RFP));
    NSitesConcat(a, b);
    Append(a + b, it, []);
    assert SchedItems(target, pc) == a + b + [it];
    FitsLast(s, a + b, it);
  }

  lemma FitsBranch(s: St, a: seq<Item>, code: seq<Insn>, it: Item)
    requires Fits(s, a + Insns(code) + [it]) && it.Site?
    ensures Fits(s, a) && Fits(s.(site := s.site + NSites(a)), [it])
    ensures NSites(a + Insns(code) + [it]) == NSites(a) + 1
  {
    NSitesInsns(code);
    NSitesConcat(a, Insns(code));
    Append(a + Insns(code), it, []);
    FitsSplit(s, a + Insns(code), [it]);
    FitsSplit(s, a, Insns(code));
  }

  lemma FitsJump(s: St, a: seq<Item>, it: Item)
    requires Fits(s, a + [it]) && it.Site?
    ensures Fits(s, a) && Fits(s.(site := s.site + NSites(a)), [it])
    ensures NSites(a + [it]) == NSites(a) + 1
  {
    Append(a, it, []);
    FitsSplit(s, a, [it]);
  }

  // Where the skip is in what follows it.
  lemma SkipPlace(t: seq<Item>, skip: Item, t': seq<Item>)
    requires skip.Skip? && t + [skip] <= t' && |t'| == |t| + 1 + skip.n
    ensures t'[|t|] == skip && t'[..|t|] == t
  {
  }

  lemma FitsItem(s: St, s': St, items: seq<Item>, k: nat)
    requires Fits(s, items) && k < |items|
    requires s'.pass == s.pass && (s.pass > 0 ==> s'.nsite == s.nsite) && (s.pass == 2 ==> s'.siteform == s.siteform)
    requires s.pass > 0 ==> s'.site == s.site + NSites(items[..k])
    ensures s.pass > 0 ==> Fits(s', [items[k]])
  {
    assert items == items[..k] + [items[k]] + items[k + 1..];
    FitsSplit(s, items[..k] + [items[k]], items[k + 1..]);
    FitsSplit(s, items[..k], [items[k]]);
  }

  lemma StepFlush(s: St)
    requires Inv(s) && s.pass < PASSEMIT
    ensures Inv(s.(codeoff := s.codeoff + |s.code|, code := []))
  {
    assert Key(0);
    assert Consistent(s.(codeoff := s.codeoff + |s.code|, code := []));
  }

  // -- what the passes know of the whole program ------------------------------------

  const MAXWORDS := 16 * 1024 * 1024

  // The scratch buffer for one instruction, in words.
  function TmpSize(size: nat): nat { if size * 64 < 8192 then 8192 else size * 64 }

  // Instruction i, every site at its longest, fits the scratch buffer and
  // does not take the module past its limit.
  predicate InstFits(prog: seq<Inst>, macros: seq<seq<int>>, i: nat)
    requires ProgOk(prog, macros) && i < |prog|
  {
    && Len(ProgItems(prog, macros, i + 1), []) - Len(ProgItems(prog, macros, i), []) < TmpSize(|prog|)
    && Len(ProgItems(prog, macros, i + 1), []) <= MAXWORDS
  }

  predicate AcceptsUpTo(prog: seq<Inst>, macros: seq<seq<int>>, n: nat)
    requires ProgOk(prog, macros) && n <= |prog|
  {
    forall i :: 0 <= i < n ==> InstFits(prog, macros, i)
  }

  // The programs the compiler compiles.
  predicate Accepts(prog: seq<Inst>, macros: seq<seq<int>>)
    requires ProgOk(prog, macros)
  {
    AcceptsUpTo(prog, macros, |prog|)
  }

  predicate PatchedAt(prog: seq<Inst>, macros: seq<seq<int>>, patch: seq<nat>, forms: seq<Form>, j: nat)
    requires ProgOk(prog, macros) && j < |patch| == |prog| + 1
  {
    patch[j] == Len(ProgItems(prog, macros, j), forms)
  }

  predicate PatchedUpTo(prog: seq<Inst>, macros: seq<seq<int>>, patch: seq<nat>, forms: seq<Form>, n: nat)
    requires ProgOk(prog, macros) && n <= |patch| == |prog| + 1
  {
    forall j :: 0 <= j < n ==> PatchedAt(prog, macros, patch, forms, j)
  }

  ghost function FormsOf(s: St): seq<Form> { if s.pass == 0 then [] else s.siteform }

  // The site tables are those of the items to come.
  ghost predicate Planned(s: St, plan: seq<Item>)
  {
    && (s.pass > 0 ==> s.nsite == NSites(plan) == |s.sitepos0| && s.site == NSites(s.trace))
    && (s.pass == 2 ==> LegalFrom(plan, s.siteform, 0))
  }

  // Instructions 0 to i - 1 have gone out in this pass.
  ghost predicate InstState(s: St, prog: seq<Inst>, macros: seq<seq<int>>, plan: seq<Item>, i: nat)
    requires ProgOk(prog, macros) && i <= |prog|
  {
    && Inv(s) && s.open == -1 && s.pass <= PASSEMIT
    && s.trace == ProgItems(prog, macros, i) && ProgItems(prog, macros, |prog|) <= plan && Planned(s, plan)
    && |s.patch| == |prog| + 1
    && PatchedUpTo(prog, macros, s.patch, FormsOf(s), if s.pass == 2 then |prog| + 1 else i)
    && (s.pass == 2 ==> s.codeoff == 0)
  }

  predicate InstKey(u: int) { true }

  // The same, closed.
  ghost predicate AtInst(s: St, prog: seq<Inst>, macros: seq<seq<int>>, plan: seq<Item>, i: nat)
    requires ProgOk(prog, macros) && i <= |prog|
  {
    forall u: int {:trigger InstKey(u)} :: InstKey(u) ==> InstState(s, prog, macros, plan, i)
  }

  // All instructions have gone out, and every start is recorded.
  ghost predicate PastInsts(s: St, prog: seq<Inst>, macros: seq<seq<int>>, plan: seq<Item>)
    requires ProgOk(prog, macros)
  {
    AtInst(s, prog, macros, plan, |prog|) && Inv(s) && |s.patch| == |prog| + 1
    && PatchedUpTo(prog, macros, s.patch, FormsOf(s), |prog| + 1)
  }

  lemma PassKnown(s: St, prog: seq<Inst>, macros: seq<seq<int>>, plan: seq<Item>, i: nat)
    requires ProgOk(prog, macros) && i <= |prog| && AtInst(s, prog, macros, plan, i)
    ensures s.pass <= PASSEMIT
  {
    assert InstKey(0);
  }

  // What comp may count on at instruction i.
  lemma EnterInst(s: St, prog: seq<Inst>, macros: seq<seq<int>>, plan: seq<Item>, i: nat)
    requires ProgOk(prog, macros) && i < |prog| && AtInst(s, prog, macros, plan, i)
    ensures Inv(s) && s.open == -1 && s.pass <= PASSEMIT && |s.patch| == |prog| + 1
    ensures Fits(s, CompItems(prog[i], i, |prog|, NMACRO))
    ensures s.pass < PASSEMIT ==>
      Fits(s.(codeoff := s.codeoff + |s.code|, code := []), CompItems(prog[i], i, |prog|, NMACRO))
  {
    assert InstKey(0);
    FitsInst(s, prog, macros, plan, i);
  }

  // comp ran from s0 to s1, emitting instruction i and nothing else.
  ghost predicate Compiled1(s0: St, s1: St, prog: seq<Inst>, i: nat)
    requires i < |prog| && InstOk(prog[i], |prog|, NMACRO)
  {
    var c := CompItems(prog[i], i, |prog|, NMACRO);
    && Inv(s1) && s1.pass == s0.pass && s1.open == s0.open && s1.trace == s0.trace + c
    && s1.patch == s0.patch
    && (s0.pass > 0 ==> s1.sitepos0 == s0.sitepos0 && s1.nsite == s0.nsite && s1.site == s0.site + NSites(c))
    && (s0.pass == 1 ==> s0.siteform <= s1.siteform)
    && (s0.pass == 2 ==> s1.siteform == s0.siteform && s1.codeoff == s0.codeoff)
  }

  // What the sizes are after instruction i, in this pass and in pass 0.
  lemma SizeNumbers(s0: St, s1: St, prog: seq<Inst>, macros: seq<seq<int>>, i: nat, n: nat)
    requires ProgOk(prog, macros) && i < |prog| && Inv(s0) && Inv(s1) && s0.pass < PASSEMIT
    requires s0.trace == ProgItems(prog, macros, i) && Compiled1(s0, s1, prog, i)
    requires n == s1.codeoff == s0.codeoff + |s0.code|
    ensures n == Len(ProgItems(prog, macros, i), FormsOf(s1))
    ensures FormsOf(s0) == FormsOf(s1) || (FormsOf(s0) <= FormsOf(s1) && |FormsOf(s0)| == NSites(s0.trace))
    ensures s0.pass == 0 ==> (InstFits(prog, macros, i) <==> |s1.code| < TmpSize(|prog|) && n + |s1.code| <= MAXWORDS)
    ensures s0.pass == 1 && InstFits(prog, macros, i) ==> |s1.code| < TmpSize(|prog|) && n + |s1.code| <= MAXWORDS
  {
    PosIsLen(s0);
    PosIsLen(s1);
    assert s1.trace == ProgItems(prog, macros, i + 1);
    CompGrows(prog, macros, i, FormsOf(s0), FormsOf(s1), s0.pass);
  }

  lemma SizeStep(s0: St, s1: St, prog: seq<Inst>, macros: seq<seq<int>>, plan: seq<Item>, i: nat, n: nat)
    requires ProgOk(prog, macros) && i < |prog| && AtInst(s0, prog, macros, plan, i) && s0.pass < PASSEMIT
    requires Compiled1(s0, s1, prog, i) && n == s1.codeoff == s0.codeoff + |s0.code|
    ensures |s1.patch| == |prog| + 1
    ensures AtInst(s1.(patch := s1.patch[i := n]), prog, macros, plan, i + 1)
    ensures s0.pass == 0 ==> (InstFits(prog, macros, i) <==> |s1.code| < TmpSize(|prog|) && n + |s1.code| <= MAXWORDS)
    ensures s0.pass == 1 && InstFits(prog, macros, i) ==> |s1.code| < TmpSize(|prog|) && n + |s1.code| <= MAXWORDS
  {
    assert InstKey(0);
    SizeNumbers(s0, s1, prog, macros, i, n);
    SizeState(s0, s1, prog, macros, plan, i, n);
  }

  lemma SizeState(s0: St, s1: St, prog: seq<Inst>, macros: seq<seq<int>>, plan: seq<Item>, i: nat, n: nat)
    requires ProgOk(prog, macros) && i < |prog| && InstState(s0, prog, macros, plan, i) && s0.pass < PASSEMIT
    requires Compiled1(s0, s1, prog, i) && n == Len(ProgItems(prog, macros, i), FormsOf(s1))
    requires FormsOf(s0) == FormsOf(s1) || (FormsOf(s0) <= FormsOf(s1) && |FormsOf(s0)| == NSites(s0.trace))
    ensures |s1.patch| == |prog| + 1
    ensures AtInst(s1.(patch := s1.patch[i := n]), prog, macros, plan, i + 1)
  {
    var s2 := s1.(patch := s1.patch[i := n]);
    PatchStays(prog, macros, s0.patch, s2.patch, FormsOf(s0), FormsOf(s1), i);
    StepTables(s1, s2.patch, s1.mac);
    NSitesConcat(s0.trace, CompItems(prog[i], i, |prog|, NMACRO));
    assert s2.trace == ProgItems(prog, macros, i + 1);
    assert InstState(s2, prog, macros, plan, i + 1);
  }

  lemma EmitStep(s0: St, s1: St, prog: seq<Inst>, macros: seq<seq<int>>, plan: seq<Item>, i: nat)
    requires ProgOk(prog, macros) && i < |prog| && AtInst(s0, prog, macros, plan, i) && s0.pass == PASSEMIT
    requires Compiled1(s0, s1, prog, i)
    ensures AtInst(s1, prog, macros, plan, i + 1)
    ensures s0.codeoff == s1.codeoff == 0 && |s1.patch| == |prog| + 1 && s1.patch[i] == |s0.code|
  {
    assert InstKey(0);
    PosIsLen(s0);
    assert PatchedAt(prog, macros, s0.patch, s0.siteform, i);
    NSitesConcat(s0.trace, CompItems(prog[i], i, |prog|, NMACRO));
    assert InstState(s1, prog, macros, plan, i + 1);
  }

  lemma LastStep(s: St, prog: seq<Inst>, macros: seq<seq<int>>, plan: seq<Item>, n: nat)
    requires ProgOk(prog, macros) && AtInst(s, prog, macros, plan, |prog|) && n == s.codeoff + |s.code|
    ensures Inv(s) && |s.patch| == |prog| + 1
    ensures s.pass < PASSEMIT ==> PastInsts(s.(patch := s.patch[|prog| := n]), prog, macros, plan)
    ensures s.pass >= PASSEMIT ==> s.pass == PASSEMIT && PastInsts(s, prog, macros, plan)
  {
    assert InstKey(0);
    PosIsLen(s);
    if s.pass < PASSEMIT {
      LastPatch(s, prog, macros, plan, n);
    }
  }

  lemma LastPatch(s: St, prog: seq<Inst>, macros: seq<seq<int>>, plan: seq<Item>, n: nat)
    requires ProgOk(prog, macros) && InstState(s, prog, macros, plan, |prog|) && s.pass < PASSEMIT
    requires |s.patch| == |prog| + 1 && n == s.codeoff + |s.code| == Len(s.trace, FormsOf(s))
    ensures PastInsts(s.(patch := s.patch[|prog| := n]), prog, macros, plan)
  {
    var s' := s.(patch := s.patch[|prog| := n]);
    PatchStays(prog, macros, s.patch, s'.patch, FormsOf(s), FormsOf(s), |prog|);
    StepTables(s, s'.patch, s.mac);
    assert InstState(s', prog, macros, plan, |prog|);
  }

  // -- the macros ------------------------------------------------------------------------

  // What precedes macro i.
  function BeforeMac(prog: seq<Inst>, macros: seq<seq<int>>, i: nat): seq<Item>
    requires ProgOk(prog, macros) && i <= |macros|
  {
    ProgItems(prog, macros, |prog|) + [Raw(EBREAK)] + MacItems(macros, i)
  }

  predicate MacedAt(prog: seq<Inst>, macros: seq<seq<int>>, mac: seq<nat>, forms: seq<Form>, j: nat)
    requires ProgOk(prog, macros) && j < |mac| == NMACRO
  {
    mac[j] == Len(BeforeMac(prog, macros, j), forms)
  }

  predicate MacedUpTo(prog: seq<Inst>, macros: seq<seq<int>>, mac: seq<nat>, forms: seq<Form>, n: nat)
    requires ProgOk(prog, macros) && n <= |mac| == NMACRO
  {
    forall j :: 0 <= j < n ==> MacedAt(prog, macros, mac, forms, j)
  }

  // The instructions, the trap and macros 0 to i - 1 have gone out.
  ghost predicate MacState(s: St, prog: seq<Inst>, macros: seq<seq<int>>, i: nat)
    requires ProgOk(prog, macros) && i <= NMACRO
  {
    && Inv(s) && s.open == -1 && s.pass <= PASSEMIT
    && s.trace == BeforeMac(prog, macros, i)
    && |s.patch| == |prog| + 1 && PatchedUpTo(prog, macros, s.patch, FormsOf(s), |prog| + 1)
    && |s.mac| == NMACRO && MacedUpTo(prog, macros, s.mac, FormsOf(s), if s.pass == 2 then NMACRO else i)
    && (s.pass == 2 ==> s.codeoff == 0)
  }

  predicate MacKey(u: int) { true }

  ghost predicate AtMac(s: St, prog: seq<Inst>, macros: seq<seq<int>>, i: nat)
    requires ProgOk(prog, macros) && i <= NMACRO
  {
    forall u: int {:trigger MacKey(u)} :: MacKey(u) ==> MacState(s, prog, macros, i)
  }

  // The whole module has gone out.
  ghost predicate Past(s: St, prog: seq<Inst>, macros: seq<seq<int>>)
    requires ProgOk(prog, macros)
  {
    && Inv(s) && s.open == -1 && s.trace == ImageOf(prog, macros).items
    && |s.patch| == |prog| + 1 && PatchedUpTo(prog, macros, s.patch, FormsOf(s), |prog| + 1)
    && |s.mac| == NMACRO && MacedUpTo(prog, macros, s.mac, FormsOf(s), NMACRO)
  }

  lemma MacPassKnown(s: St, prog: seq<Inst>, macros: seq<seq<int>>, i: nat)
    requires ProgOk(prog, macros) && i <= NMACRO && AtMac(s, prog, macros, i)
    ensures s.pass <= PASSEMIT
  {
    assert MacKey(0);
  }

  lemma EnterMac(s: St, prog: seq<Inst>, macros: seq<seq<int>>, i: nat)
    requires ProgOk(prog, macros) && i <= NMACRO && AtMac(s, prog, macros, i)
    ensures Inv(s) && s.open == -1 && |s.mac| == NMACRO && s.trace == BeforeMac(prog, macros, i)
  {
    assert MacKey(0);
  }

  lemma StepTrap(s: St)
    requires Inv(s) && s.pass < PASSEMIT
    ensures Inv(s.(codeoff := s.codeoff + |s.code| + 1, code := [], trace := s.trace + [Raw(EBREAK)]))
  {
    StepWord(s, Raw(EBREAK));
    StepFlush(PutWord(s, Raw(EBREAK)));
  }

  lemma TrapStep(s: St, prog: seq<Inst>, macros: seq<seq<int>>, plan: seq<Item>)
    requires ProgOk(prog, macros) && PastInsts(s, prog, macros, plan) && |s.mac| == NMACRO
    requires s.pass == 2 ==> MacedUpTo(prog, macros, s.mac, s.siteform, NMACRO)
    ensures s.pass == PASSEMIT ==> s.codeoff == 0 && AtMac(PutWord(s, Raw(EBREAK)), prog, macros, 0)
    ensures s.pass != PASSEMIT ==>
              AtMac(s.(codeoff := s.codeoff + |s.code| + 1, code := [], trace := s.trace + [Raw(EBREAK)]),
                    prog, macros, 0)
  {
    assert InstKey(0);
    assert s.trace + [Raw(EBREAK)] == BeforeMac(prog, macros, 0);
    if s.pass == PASSEMIT {
      StepWord(s, Raw(EBREAK));
      assert MacState(PutWord(s, Raw(EBREAK)), prog, macros, 0);
    } else {
      StepTrap(s);
      assert MacState(s.(codeoff := s.codeoff + |s.code| + 1, code := [], trace := s.trace + [Raw(EBREAK)]),
                      prog, macros, 0);
    }
  }

  // A macro's words went out between s0 and s1.
  ghost predicate Generated(s0: St, s1: St, ws: seq<int>)
  {
    && Inv(s1) && s1.pass == s0.pass && s1.open == s0.open && s1.trace == s0.trace + Raws(ws)
    && s1.patch == s0.patch && s1.mac == s0.mac && FormsOf(s1) == FormsOf(s0)
    && (s0.pass == 2 ==> s1.codeoff == s0.codeoff)
  }

  lemma BeforeNext(prog: seq<Inst>, macros: seq<seq<int>>, i: nat)
    requires ProgOk(prog, macros) && i < |macros|
    ensures BeforeMac(prog, macros, i + 1) == BeforeMac(prog, macros, i) + Raws(macros[i])
  {
    var a := ProgItems(prog, macros, |prog|) + [Raw(EBREAK)];
    assert a + (MacItems(macros, i) + Raws(macros[i])) == (a + MacItems(macros, i)) + Raws(macros[i]);
  }

  lemma MacStep(s0: St, s1: St, prog: seq<Inst>, macros: seq<seq<int>>, i: nat, n: nat)
    requires ProgOk(prog, macros) && i < NMACRO && AtMac(s0, prog, macros, i) && s0.pass < PASSEMIT
    requires Generated(s0, s1, macros[i]) && n == s0.codeoff + |s0.code|
    ensures |s1.mac| == NMACRO && AtMac(s1.(mac := s1.mac[i := n]), prog, macros, i + 1)
  {
    assert MacKey(0);
    PosIsLen(s0);
    BeforeNext(prog, macros, i);
    var s2 := s1.(mac := s1.mac[i := n]);
    StepTables(s1, s1.patch, s2.mac);
    MacsRecorded(prog, macros, s0.mac, FormsOf(s0), i, n);
    assert MacState(s2, prog, macros, i + 1);
  }

  lemma MacsRecorded(prog: seq<Inst>, macros: seq<seq<int>>, mac: seq<nat>, forms: seq<Form>, i: nat, n: nat)
    requires ProgOk(prog, macros) && i < NMACRO == |mac| && MacedUpTo(prog, macros, mac, forms, i)
    requires n == Len(BeforeMac(prog, macros, i), forms)
    ensures MacedUpTo(prog, macros, mac[i := n], forms, i + 1)
  {
    var mac' := mac[i := n];
    forall j | 0 <= j < i + 1 ensures MacedAt(prog, macros, mac', forms, j) {
      if j < i { assert MacedAt(prog, macros, mac, forms, j); }
    }
  }

  lemma MacEmitStep(s0: St, s1: St, prog: seq<Inst>, macros: seq<seq<int>>, i: nat)
    requires ProgOk(prog, macros) && i < NMACRO && AtMac(s0, prog, macros, i) && s0.pass == PASSEMIT
    requires Generated(s0, s1, macros[i])
    ensures AtMac(s1, prog, macros, i + 1)
    ensures s0.codeoff == s1.codeoff == 0 && |s1.mac| == NMACRO && s1.mac[i] == |s0.code|
  {
    assert MacKey(0);
    PosIsLen(s0);
    BeforeNext(prog, macros, i);
    assert MacedAt(prog, macros, s0.mac, s0.siteform, i);
    assert MacState(s1, prog, macros, i + 1);
  }

  lemma PastStep(s: St, prog: seq<Inst>, macros: seq<seq<int>>)
    requires ProgOk(prog, macros) && AtMac(s, prog, macros, NMACRO)
    ensures Past(s, prog, macros)
  {
    assert MacKey(0);
  }

  // -- between the passes ------------------------------------------------------------

  lemma {:induction false} MacPrefix(prog: seq<Inst>, macros: seq<seq<int>>, a: nat, b: nat)
    requires ProgOk(prog, macros) && a <= b <= |macros|
    ensures BeforeMac(prog, macros, a) <= BeforeMac(prog, macros, b)
    decreases b - a
  {
    if a < b {
      MacPrefix(prog, macros, a, b - 1);
      BeforeNext(prog, macros, b - 1);
    }
  }

  // The recorded starts are the image's.
  lemma TablesAre(s: St, prog: seq<Inst>, macros: seq<seq<int>>)
    requires ProgOk(prog, macros) && Past(s, prog, macros)
    ensures ImageOk(ImageOf(prog, macros))
    ensures s.patch == Tab(ImageOf(prog, macros).items, Starts(prog, macros), FormsOf(s))
    ensures s.mac == Tab(ImageOf(prog, macros).items, MacStarts(prog, macros), FormsOf(s))
  {
    ImageOfOk(prog, macros);
    var p := ImageOf(prog, macros);
    var f := FormsOf(s);
    forall i | 0 <= i <= |prog| ensures s.patch[i] == Len(p.items[..p.starts[i]], f) {
      StartPrefix(prog, macros, i);
      assert PatchedAt(prog, macros, s.patch, f, i);
      assert p.items[..p.starts[i]] == ProgItems(prog, macros, i);
    }
    forall i | 0 <= i < NMACRO ensures s.mac[i] == Len(p.items[..p.macs[i]], f) {
      MacPrefix(prog, macros, i, NMACRO);
      assert MacedAt(prog, macros, s.mac, f, i);
      assert p.items[..p.macs[i]] == BeforeMac(prog, macros, i);
    }
  }

  lemma PlanHasProg(prog: seq<Inst>, macros: seq<seq<int>>)
    requires ProgOk(prog, macros)
    ensures ProgItems(prog, macros, |prog|) <= ImageOf(prog, macros).items
  {
    StartPrefix(prog, macros, |prog|);
  }

  lemma StartPass0(s: St, prog: seq<Inst>, macros: seq<seq<int>>, plan: seq<Item>)
    requires ProgOk(prog, macros) && plan == ImageOf(prog, macros).items
    requires s.pass == 0 && s.code == [] && s.codeoff == 0 && s.trace == [] && s.open == -1
    requires s.sitepos0 == [] && s.nsite == 0 && |s.patch| == |prog| + 1
    ensures AtInst(s, prog, macros, plan, 0)
  {
    PlanHasProg(prog, macros);
    assert Sizing(s);
    assert InstState(s, prog, macros, plan, 0);
  }

  // What pass 0 leaves: where everything is with every site at its longest.
  predicate Measured(s: St, prog: seq<Inst>, macros: seq<seq<int>>)
    requires ProgOk(prog, macros)
  {
    var p := ImageOf(prog, macros);
    && ImageOk(p) && s.sitepos0 == SitePos(p.items) && s.nsite == NSites(p.items) == |s.sitepos0|
    && s.patch == Tab(p.items, p.starts, []) && s.mac == Tab(p.items, p.macs, [])
  }

  // What pass 1 leaves: the forms, and where everything is with them.
  predicate Picked(s: St, prog: seq<Inst>, macros: seq<seq<int>>)
    requires ProgOk(prog, macros)
  {
    var p := ImageOf(prog, macros);
    && ImageOk(p) && s.siteform == Chosen(p) && s.nsite == |s.siteform| == NSites(p.items) == |s.sitepos0|
    && |s.patch| == |prog| + 1 && PatchedUpTo(prog, macros, s.patch, Chosen(p), |prog| + 1)
    && |s.mac| == NMACRO && MacedUpTo(prog, macros, s.mac, Chosen(p), NMACRO)
  }

  // What pass 2 leaves: the code.
  predicate Finished(s: St, prog: seq<Inst>, macros: seq<seq<int>>)
    requires ProgOk(prog, macros)
  {
    var p := ImageOf(prog, macros);
    && ImageOk(p) && s.code == FinalCode(p)
    && s.patch == Tab(p.items, p.starts, Chosen(p)) && s.mac == Tab(p.items, p.macs, Chosen(p))
  }

  lemma EndPass0(s: St, prog: seq<Inst>, macros: seq<seq<int>>)
    requires ProgOk(prog, macros) && Past(s, prog, macros) && s.pass == 0
    ensures Measured(s, prog, macros)
  {
    assert Key(0);
    TablesAre(s, prog, macros);
  }

  lemma StartPass1(s: St, prog: seq<Inst>, macros: seq<seq<int>>, plan: seq<Item>)
    requires ProgOk(prog, macros) && plan == ImageOf(prog, macros).items
    requires s.pass == 1 && s.code == [] && s.codeoff == 0 && s.trace == [] && s.open == -1 && s.site == 0
    requires s.siteform == [] && s.nsite == NSites(plan) == |s.sitepos0| && |s.patch| == |prog| + 1
    ensures AtInst(s, prog, macros, plan, 0)
  {
    PlanHasProg(prog, macros);
    assert Choosing(s);
    assert InstState(s, prog, macros, plan, 0);
  }

  lemma EndPass1(s: St, prog: seq<Inst>, macros: seq<seq<int>>)
    requires ProgOk(prog, macros) && Past(s, prog, macros) && s.pass == 1 && ImageOk(ImageOf(prog, macros))
    requires var p := ImageOf(prog, macros);
             s.sitepos0 == SitePos(p.items) && s.patch0 == Tab(p.items, p.starts, []) &&
             s.mac0 == Tab(p.items, p.macs, [])
    ensures Picked(s, prog, macros) && s.site == s.nsite
    ensures s.codeoff + |s.code| == Len(ImageOf(prog, macros).items, Chosen(ImageOf(prog, macros)))
  {
    assert Key(0);
  }

  lemma StartPass2(s: St, prog: seq<Inst>, macros: seq<seq<int>>, plan: seq<Item>)
    requires ProgOk(prog, macros) && ImageOk(ImageOf(prog, macros)) && plan == ImageOf(prog, macros).items
    requires s.pass == 2 && s.code == [] && s.codeoff == 0 && s.trace == [] && s.open == -1 && s.site == 0
    requires s.siteform == Chosen(ImageOf(prog, macros)) && s.nsite == NSites(plan) == |s.siteform| == |s.sitepos0|
    requires |s.patch| == |prog| + 1 && PatchedUpTo(prog, macros, s.patch, s.siteform, |prog| + 1)
    ensures AtInst(s, prog, macros, plan, 0)
  {
    PlanHasProg(prog, macros);
    var p := ImageOf(prog, macros);
    PickLegal(p.items, SitePos(p.items), Tab(p.items, p.starts, []), Tab(p.items, p.macs, []));
    assert LegalFrom(plan, s.siteform, 0) by {
      forall j | 0 <= j < |plan| && plan[j].Site? ensures SiteLegal(plan, s.siteform, 0, j) {
      }
    }
    assert Emitting(s);
    assert InstState(s, prog, macros, plan, 0);
  }

  lemma EndPass2(s: St, prog: seq<Inst>, macros: seq<seq<int>>)
    requires ProgOk(prog, macros) && Past(s, prog, macros) && s.pass == 2 && ImageOk(ImageOf(prog, macros))
    requires s.siteform == Chosen(ImageOf(prog, macros))
    ensures Finished(s, prog, macros)
    ensures s.codeoff + |s.code| == Len(ImageOf(prog, macros).items, Chosen(ImageOf(prog, macros)))
  {
    assert Key(0);
    TablesAre(s, prog, macros);
  }

  lemma PosIsLen(s: St)
    requires Inv(s)
    ensures s.codeoff + |s.code| == Len(s.trace, if s.pass == 0 then [] else s.siteform) || s.pass > PASSEMIT
    ensures s.pass == 1 ==> |s.siteform| == NSites(s.trace)
    ensures s.pass == 2 ==> s.codeoff == 0
  {
    assert Key(0);
  }

  lemma StepTables(s: St, patch: seq<nat>, mac: seq<nat>)
    requires Inv(s) && s.pass < PASSEMIT
    ensures Inv(s.(patch := patch, mac := mac))
  {
    assert Key(0);
    assert Consistent(s.(patch := patch, mac := mac));
  }

  // There is room for instruction i.
  lemma FitsInst(s: St, prog: seq<Inst>, macros: seq<seq<int>>, plan: seq<Item>, i: nat)
    requires ProgOk(prog, macros) && i < |prog| && s.trace == ProgItems(prog, macros, i)
    requires ProgItems(prog, macros, |prog|) <= plan && Planned(s, plan)
    ensures Fits(s, CompItems(prog[i], i, |prog|, NMACRO))
  {
    var a, c := ProgItems(prog, macros, i), CompItems(prog[i], i, |prog|, NMACRO);
    ProgPrefixOf(prog, macros, i + 1, |prog|);
    FitsMiddle(s, plan, a, c);
  }

  lemma FitsMiddle(s: St, plan: seq<Item>, a: seq<Item>, c: seq<Item>)
    requires Planned(s, plan) && s.trace == a && a + c <= plan
    ensures Fits(s, c)
  {
    var rest := plan[|a + c|..];
    assert plan == a + (c + rest);
    FitsSplit(s.(site := 0), a, c + rest);
    if s.pass > 0 { FitsSplit(s, c, rest); }
  }

  // The items before instruction k are those of the first k instructions.
  lemma StartPrefix(prog: seq<Inst>, macros: seq<seq<int>>, k: nat)
    requires ProgOk(prog, macros) && k <= |prog|
    ensures ProgItems(prog, macros, k) <= ImageOf(prog, macros).items
  {
    ProgPrefixOf(prog, macros, k, |prog|);
  }

  lemma {:induction false} ProgPrefixOf(prog: seq<Inst>, macros: seq<seq<int>>, a: nat, b: nat)
    requires ProgOk(prog, macros) && a <= b <= |prog|
    ensures ProgItems(prog, macros, a) <= ProgItems(prog, macros, b)
    decreases b - a
  {
    if a < b { ProgPrefixOf(prog, macros, a, b - 1); }
  }

  // What instruction i adds, in the current pass and in pass 0.
  lemma CompGrows(prog: seq<Inst>, macros: seq<seq<int>>, i: nat, f: seq<Form>, g: seq<Form>, pass: nat)
    requires ProgOk(prog, macros) && i < |prog|
    requires if pass == 0 then f == g == []
             else f <= g && |f| == NSites(ProgItems(prog, macros, i)) && |g| == NSites(ProgItems(prog, macros, i + 1))
    ensures Len(ProgItems(prog, macros, i), f) == Len(ProgItems(prog, macros, i), g)
    ensures var grown := Len(ProgItems(prog, macros, i + 1), g) - Len(ProgItems(prog, macros, i), g);
            0 <= grown <= Len(ProgItems(prog, macros, i + 1), []) - Len(ProgItems(prog, macros, i), [])
    ensures Len(ProgItems(prog, macros, i + 1), g) <= Len(ProgItems(prog, macros, i + 1), [])
  {
    var a, b := ProgItems(prog, macros, i), ProgItems(prog, macros, i + 1);
    assert b[..|a|] == a && b[..|b|] == b && b[..0] == [];
    Shrink(b, g, |a|, |b|);
    Shrink(b, g, 0, |b|);
    if pass > 0 { LenForms(a, f, g); }
  }

  // Positions recorded before instruction i hold under the forms picked since.
  lemma PatchStays(prog: seq<Inst>, macros: seq<seq<int>>, p: seq<nat>, q: seq<nat>, f: seq<Form>, g: seq<Form>, i: nat)
    requires ProgOk(prog, macros) && i <= |prog| && |p| == |q| == |prog| + 1
    requires PatchedUpTo(prog, macros, p, f, i) && q == p[i := Len(ProgItems(prog, macros, i), g)]
    requires f == g || (f <= g && |f| == NSites(ProgItems(prog, macros, i)))
    ensures PatchedUpTo(prog, macros, q, g, i + 1)
  {
    forall j | 0 <= j < i + 1 ensures PatchedAt(prog, macros, q, g, j) {
      if j < i {
        assert PatchedAt(prog, macros, p, f, j);
        if f != g { LenStays(prog, macros, j, i, f, g); }
      }
    }
  }

  lemma LenStays(prog: seq<Inst>, macros: seq<seq<int>>, j: nat, i: nat, f: seq<Form>, g: seq<Form>)
    requires ProgOk(prog, macros) && j <= i <= |prog| && f <= g && |f| == NSites(ProgItems(prog, macros, i))
    ensures Len(ProgItems(prog, macros, j), f) == Len(ProgItems(prog, macros, j), g)
  {
    ProgPrefixOf(prog, macros, j, i);
    var a, b := ProgItems(prog, macros, j), ProgItems(prog, macros, i);
    assert b == a + b[|a|..];
    NSitesConcat(a, b[|a|..]);
    LenForms(a, f, g);
  }

  lemma InsnsConcat(a: seq<Insn>, b: seq<Insn>)
    ensures Insns(a + b) == Insns(a) + Insns(b)
  {
  }

  lemma InsnsThen(t: seq<Item>, a: seq<Insn>, b: seq<Insn>)
    ensures t + Insns(a) + Insns(b) == t + Insns(a + b)
  {
    InsnsConcat(a, b);
  }

  lemma ThreeParts(t: seq<Item>, a: seq<Item>, b: seq<Item>, c: seq<Item>)
    ensures t + a + b + c == t + (a + b + c)
  {
  }

  // A branch word gives its own operands back.
  lemma UpdateKeeps(s: seq<int>, p: nat, w: int)
    requires p < |s|
    ensures s[p := w][..p] == s[..p]
  {
  }

  lemma PatchFields(w: int, f3: int, rs1: int, rs2: int, off: int)
    requires IsCond(f3) && IsReg(rs1) && IsReg(rs2) && w == EncodeInt(Branch(f3, rs1, rs2, 0))
    ensures var f := Split(w);
            f.op == OPBRANCH && BType(off, f.rs2, f.rs1, f.f3) == EncodeInt(Branch(f3, rs1, rs2, off))
  {
    BTypeFields(0, rs2, rs1, f3);
  }

  lemma ResolvedPatch(t: seq<Item>, k: nat)
    requires Resolved(t, k) && k < |t| && t[k].Skip? && k + 1 + t[k].n == |t|
    ensures Resolved(t, -1)
  {
  }

  lemma ResolvedSite(t: seq<Item>, it: Item, open: int)
    requires Resolved(t, open) && it.Site?
    ensures Resolved(t + [it], open)
    ensures NSites([it]) == 1
  {
    SiteAlone(it);
  }

  lemma ChooseFacts(t: seq<Item>, it: Item, forms: seq<Form>, sp: seq<nat>, ptab: seq<nat>, mtab: seq<nat>, form: Form)
    requires it.Site? && NSites(t) < |sp| && forms == Pick(t, sp, ptab, mtab)
    requires form == BrForm(it.kind, (TPos(it.target, ptab, mtab) - sp[NSites(t)]) * 4)
    ensures NSites(t + [it]) == NSites(t) + 1
    ensures Pick(t + [it], sp, ptab, mtab) == forms + [form]
    ensures Len(t + [it], forms + [form]) == Len(t, forms) + BrSize(it.kind, form)
  {
    Append(t, it, forms + [form]);
    AppendPick(t, it, sp, ptab, mtab);
    LenForms(t, forms, forms + [form]);
  }

  lemma SiteAlone(it: Item)
    requires it.Site?
    ensures NSites([it]) == 1
  {
    assert [it][..0] == [];
  }

  lemma SiteFits(it: Item, forms: seq<Form>, k: nat)
    requires it.Site? && LegalFrom([it], forms, k)
    ensures k < |forms| && Legal(it.kind, forms[k])
  {
    SiteAlone(it);
    assert SiteLegal([it], forms, k, 0);
    assert [it][..0] == [];
  }

  // Facts an emitted site needs.
  lemma AppendSite(t: seq<Item>, it: Item, forms: seq<Form>, ptab: seq<nat>, mtab: seq<nat>, open: int, w: seq<int>)
    requires it.Site? && Resolved(t, open) && LegalForms(t, forms) && Legal(it.kind, FormAt(forms, NSites(t)))
    requires w == EncodeAll(SiteInsns(it, FormAt(forms, NSites(t)), Len(t, forms), TPos(it.target, ptab, mtab)))
    ensures Resolved(t + [it], open) && LegalForms(t + [it], forms)
    ensures NSites(t + [it]) == NSites(t) + 1
    ensures Len(t + [it], forms) == Len(t, forms) + |w|
    ensures Render(t + [it], forms, ptab, mtab, open, |t + [it]|) == Render(t, forms, ptab, mtab, open, |t|) + w
  {
    Append(t, it, forms);
    RenderAppend(t, it, forms, ptab, mtab, open);
    LegalAppend(t, it, forms);
    SiteLen(it, FormAt(forms, NSites(t)), Len(t, forms), TPos(it.target, ptab, mtab));
    assert (t + [it])[..|t|] == t;
  }

  // Facts a local branch needs while it is open.
  lemma AppendSkip(t: seq<Item>, it: Item, forms: seq<Form>, ptab: seq<nat>, mtab: seq<nat>)
    requires it.Skip? && it.n > 0 && Resolved(t, -1)
    ensures Resolved(t + [it], |t|)
    ensures NSites(t + [it]) == NSites(t)
    ensures Len(t + [it], []) == Len(t, []) + 1 && SitePos(t + [it]) == SitePos(t)
    ensures Len(t + [it], forms) == Len(t, forms) + 1
    ensures LegalForms(t, forms) ==> LegalForms(t + [it], forms)
    ensures Render(t + [it], forms, ptab, mtab, |t|, |t| + 1)
            == Render(t, forms, ptab, mtab, -1, |t|) + [EncodeInt(Branch(it.f3, it.rs1, it.rs2, 0))]
  {
    Append(t, it, forms);
    Append(t, it, []);
    if LegalForms(t, forms) { LegalAppend(t, it, forms); }
    RenderAppend(t, it, forms, ptab, mtab, |t|);
    CatSame(WordsOf(t, forms, ptab, mtab, |t|), WordsOf(t, forms, ptab, mtab, -1), |t|);
  }

  // Facts every emit of a fixed word needs.
  lemma AppendPlain(t: seq<Item>, it: Item, forms: seq<Form>, ptab: seq<nat>, mtab: seq<nat>, open: int)
    requires Resolved(t, open) && (it.Ins? || it.Raw?)
    ensures Resolved(t + [it], open)
    ensures NSites(t + [it]) == NSites(t) && NSites([it]) == 0
    ensures Len(t + [it], []) == Len(t, []) + 1 && SitePos(t + [it]) == SitePos(t)
    ensures Len(t + [it], forms) == Len(t, forms) + 1
    ensures LegalForms(t, forms) ==> LegalForms(t + [it], forms)
    ensures Render(t + [it], forms, ptab, mtab, open, |t| + 1)
            == Render(t, forms, ptab, mtab, open, |t|) + [if it.Ins? then EncodeInt(it.i) else it.w]
  {
    Append(t, it, forms);
    Append(t, it, []);
    NSitesConcat(t, [it]);
    RenderAppend(t, it, forms, ptab, mtab, open);
    if LegalForms(t, forms) { LegalAppend(t, it, forms); }
  }
}
