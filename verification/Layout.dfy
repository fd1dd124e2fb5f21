// The final layout: where each item's words are, and that they are what the
// item asks for.
module Layout {
  import opened Basics
  import opened Rv64
  import opened CodeRun
  import opened Relax

  // The forms relbr knows for each kind.
  predicate Legal(kind: Kind, form: Form)
  {
    (form == FMedium ==> IsCondKind(kind)) && (form == FShort ==> kind != BrCondCall)
  }

  predicate LegalForms(items: seq<Item>, forms: seq<Form>)
  {
    forall k :: 0 <= k < |items| && items[k].Site? ==> Legal(items[k].kind, FormAt(forms, NSites(items[..k])))
  }

  // A site takes exactly the words it was sized at.
  lemma SiteLen(it: Item, form: Form, pos: int, tpos: int)
    requires it.Site? && Legal(it.kind, form)
    ensures |SiteInsns(it, form, pos, tpos)| == BrSize(it.kind, form)
  {
  }

  lemma ItemLen(items: seq<Item>, forms: seq<Form>, ptab: seq<nat>, mtab: seq<nat>, open: int, k: nat)
    requires LegalForms(items, forms) && k < |items|
    ensures |ItemWords(items, forms, ptab, mtab, open, k)| == Size(items[k], FormAt(forms, NSites(items[..k])))
  {
    if items[k].Site? {
      SiteLen(items[k], FormAt(forms, NSites(items[..k])), Len(items[..k], forms), TPos(items[k].target, ptab, mtab));
    }
  }

  // Pieces of known lengths, one after the other.
  lemma {:induction false} CatLen(w: nat -> seq<int>, at: nat -> nat, n: nat)
    requires at(0) == 0 && forall j: nat :: j < n ==> at(j + 1) == at(j) + |w(j)|
    ensures |Cat(w, n)| == at(n)
  {
    if n > 0 {
      CatLen(w, at, n - 1);
      assert at((n - 1) + 1) == at(n - 1) + |w(n - 1)|;
    }
  }

  lemma {:induction false} CatAt(w: nat -> seq<int>, at: nat -> nat, n: nat, k: nat)
    requires at(0) == 0 && forall j: nat :: j < n ==> at(j + 1) == at(j) + |w(j)|
    requires k < n
    ensures at(k) + |w(k)| <= |Cat(w, n)| && Cat(w, n)[at(k)..at(k) + |w(k)|] == w(k)
    decreases n
  {
    CatLen(w, at, n - 1);
    if k < n - 1 {
      CatAt(w, at, n - 1, k);
      SliceOfPrefix(Cat(w, n - 1), w(n - 1), at(k), at(k) + |w(k)|);
    } else {
      SliceOfSuffix(Cat(w, n - 1), w(n - 1));
    }
  }

  lemma SliceOfPrefix<T>(a: seq<T>, b: seq<T>, lo: nat, hi: nat)
    requires lo <= hi <= |a|
    ensures (a + b)[lo..hi] == a[lo..hi]
  {
  }

  lemma SliceOfSuffix<T>(a: seq<T>, b: seq<T>)
    ensures (a + b)[|a|..|a| + |b|] == b
  {
  }

  // Where each item is.
  function PosOf(items: seq<Item>, forms: seq<Form>): nat -> nat
  {
    (k: nat) => if k <= |items| then Len(items[..k], forms) else 0
  }

  lemma PosSteps(items: seq<Item>, forms: seq<Form>, ptab: seq<nat>, mtab: seq<nat>, open: int, n: nat)
    requires LegalForms(items, forms) && n <= |items|
    ensures var at, w := PosOf(items, forms), WordsOf(items, forms, ptab, mtab, open);
            at(0) == 0 && forall j: nat :: j < n ==> at(j + 1) == at(j) + |w(j)|
  {
    var at, w := PosOf(items, forms), WordsOf(items, forms, ptab, mtab, open);
    forall j: nat | j < n ensures at(j + 1) == at(j) + |w(j)| {
      ItemLen(items, forms, ptab, mtab, open, j);
      Snoc(items, j, forms);
    }
  }

  // What has been rendered is as long as the layout says.
  lemma RenderLen(items: seq<Item>, forms: seq<Form>, ptab: seq<nat>, mtab: seq<nat>, open: int, n: nat)
    requires LegalForms(items, forms) && n <= |items|
    ensures |Render(items, forms, ptab, mtab, open, n)| == Len(items[..n], forms)
  {
    PosSteps(items, forms, ptab, mtab, open, n);
    CatLen(WordsOf(items, forms, ptab, mtab, open), PosOf(items, forms), n);
  }

  // Pass 1 only picks forms relbr can emit.
  lemma {:induction false} PickLegal(items: seq<Item>, sitepos0: seq<nat>, patch0: seq<nat>, macro0: seq<nat>)
    requires NSites(items) <= |sitepos0|
    ensures LegalForms(items, Pick(items, sitepos0, patch0, macro0))
  {
    forall k | 0 <= k < |items| && items[k].Site?
      ensures Legal(items[k].kind, FormAt(Pick(items, sitepos0, patch0, macro0), NSites(items[..k])))
    {
      assert items[..|items|] == items;
      SiteTables(items, |items|, k, sitepos0, patch0, macro0);
    }
  }

  // -- the final layout ----------------------------------------------------------------

  // The branch a skip at word `at` becomes when its end is word `to`.
  function SkipBranch(it: Item, at: int, to: int): Insn
    requires it.Skip?
  {
    Branch(it.f3, it.rs1, it.rs2, (to - at) * 4)
  }

  // Item k is w(k), at pos(k); a site is in form form(k).
  predicate ItemShaped(p: Image, pos: nat -> nat, form: nat -> Form, w: nat -> seq<int>, k: nat)
    requires k < |p.items|
  {
    && pos(k + 1) == pos(k) + |w(k)| && 1 <= |w(k)| <= 3
    && match p.items[k]
       case Ins(i) => w(k) == [EncodeInt(i)]
       case Raw(v) => w(k) == [v]
       case Skip(_, _, _, n) => SkipShaped(p, pos, w(k), k, n)
       case Site(kind, _, _, _, t) =>
         SiteShaped(p.items[k], form(k), pos(k), TargetItem(p, t), pos(TargetItem(p, t)), w(k), |p.items|)
  }

  predicate SkipShaped(p: Image, pos: nat -> nat, w: seq<int>, k: nat, n: nat)
    requires k < |p.items| && p.items[k].Skip?
  {
    k + 1 + n <= |p.items| ==> w == [EncodeInt(SkipBranch(p.items[k], pos(k), pos(k + 1 + n)))]
  }

  predicate SiteShaped(it: Item, form: Form, at: nat, target: nat, to: nat, w: seq<int>, n: nat)
    requires it.Site?
  {
    && Legal(it.kind, form) && target <= n
    && (IsCondKind(it.kind) ==> IsCond(it.f3) && IsReg(it.rs1) && IsReg(it.rs2))
    && Reaches(it.kind, form, (to - (at + JumpAt(it.kind, form))) * 4)
    && w == EncodeAll(SiteInsns(it, form, at, to)) && |w| == BrSize(it.kind, form)
  }

  ghost predicate Shaped(p: Image, pos: nat -> nat, form: nat -> Form, w: nat -> seq<int>)
  {
    && pos(0) == 0
    && forall k: nat {:trigger ItemShaped(p, pos, form, w, k)} :: k < |p.items| ==> ItemShaped(p, pos, form, w, k)
  }

  function FormFn(p: Image): nat -> Form
    requires ImageOk(p)
  {
    (k: nat) => if k < |p.items| then FormOf(p, k) else FLong
  }

  function FinalWords(p: Image): nat -> seq<int>
    requires ImageOk(p)
  {
    WordsOf(p.items, Chosen(p), Tab(p.items, p.starts, Chosen(p)), Tab(p.items, p.macs, Chosen(p)), -1)
  }

  function PosFn(p: Image): nat -> nat
    requires ImageOk(p)
  {
    PosOf(p.items, Chosen(p))
  }

  // The compiler's layout has that shape, for every module.
  lemma FinalShaped(p: Image)
    requires ImageOk(p) && Small(p)
    ensures Shaped(p, PosFn(p), FormFn(p), FinalWords(p))
  {
    forall k: nat | k < |p.items| ensures ItemShaped(p, PosFn(p), FormFn(p), FinalWords(p), k) {
      FinalItem(p, k);
    }
  }

  lemma FinalItem(p: Image, k: nat)
    requires ImageOk(p) && Small(p) && k < |p.items|
    ensures ItemShaped(p, PosFn(p), FormFn(p), FinalWords(p), k)
  {
    PickLegal(p.items, SitePos(p.items), Tab(p.items, p.starts, []), Tab(p.items, p.macs, []));
    FinalStep(p, k);
    match p.items[k]
    case Site(_, _, _, _, _) => FinalSite(p, k);
    case Skip(_, _, _, n) => FinalSkip(p, k, n);
    case _ =>
  }

  lemma FinalSkip(p: Image, k: nat, n: nat)
    requires ImageOk(p) && k < |p.items| && p.items[k].Skip? && p.items[k].n == n
    ensures SkipShaped(p, PosFn(p), FinalWords(p)(k), k, n)
  {
  }

  // The next item starts where this one's words end.
  lemma FinalStep(p: Image, k: nat)
    requires ImageOk(p) && k < |p.items|
    ensures PosFn(p)(k + 1) == PosFn(p)(k) + |FinalWords(p)(k)| && 1 <= |FinalWords(p)(k)| <= 3
  {
    PickLegal(p.items, SitePos(p.items), Tab(p.items, p.starts, []), Tab(p.items, p.macs, []));
    ItemLen(p.items, Chosen(p), Tab(p.items, p.starts, Chosen(p)), Tab(p.items, p.macs, Chosen(p)), -1, k);
    Snoc(p.items, k, Chosen(p));
  }

  lemma FinalSite(p: Image, k: nat)
    requires ImageOk(p) && Small(p) && k < |p.items| && p.items[k].Site?
    requires Legal(p.items[k].kind, FormOf(p, k))
    ensures var t := TargetItem(p, p.items[k].target);
            SiteShaped(p.items[k], FormOf(p, k), At(p, k), t, At(p, t), FinalWords(p)(k), |p.items|)
  {
    var t := TargetItem(p, p.items[k].target);
    RelaxationReaches(p, k);
    assert SiteOk(p.items[k], p);
    SiteLen(p.items[k], FormOf(p, k), At(p, k), At(p, t));
  }

  lemma {:induction false} PosMonotone(p: Image, pos: nat -> nat, form: nat -> Form, w: nat -> seq<int>, a: nat, b: nat)
    requires Shaped(p, pos, form, w) && a <= b <= |p.items|
    ensures pos(a) <= pos(b)
    decreases b - a
  {
    if a < b {
      PosMonotone(p, pos, form, w, a, b - 1);
      assert ItemShaped(p, pos, form, w, b - 1);
    }
  }

  // Item k's words in the code.
  lemma ShapedAt(p: Image, pos: nat -> nat, form: nat -> Form, w: nat -> seq<int>, k: nat)
    requires Shaped(p, pos, form, w) && k < |p.items|
    ensures var code := Cat(w, |p.items|);
            pos(k) + |w(k)| <= |code| && code[pos(k)..pos(k) + |w(k)|] == w(k)
  {
    ShapedSteps(p, pos, form, w);
    CatAt(w, pos, |p.items|, k);
  }

  lemma ShapedSteps(p: Image, pos: nat -> nat, form: nat -> Form, w: nat -> seq<int>)
    requires Shaped(p, pos, form, w)
    ensures forall j: nat :: j < |p.items| ==> pos(j + 1) == pos(j) + |w(j)|
    ensures |Cat(w, |p.items|)| == pos(|p.items|)
  {
    forall j: nat | j < |p.items| ensures pos(j + 1) == pos(j) + |w(j)| {
      assert ItemShaped(p, pos, form, w, j);
    }
    CatLen(w, pos, |p.items|);
  }

  // -- what is fetched ------------------------------------------------------------------

  // The code is in place below 2^63, and fetch reads it.
  ghost predicate Placed(fetch: Fetcher, base: int, p: Image, pos: nat -> nat, form: nat -> Form, w: nat -> seq<int>)
  {
    && Shaped(p, pos, form, w)
    && Low(base, |Cat(w, |p.items|)| + 4)
    && Fetches(fetch, Cat(w, |p.items|), base)
  }

  lemma WithinCode(fetch: Fetcher, base: int, p: Image, pos: nat -> nat, form: nat -> Form, w: nat -> seq<int>, k: nat)
    requires Placed(fetch, base, p, pos, form, w) && k <= |p.items|
    ensures pos(k) <= |Cat(w, |p.items|)| && Low(base, pos(k) + 4)
  {
    ShapedSteps(p, pos, form, w);
    PosMonotone(p, pos, form, w, k, |p.items|);
  }

  // The words of item k, read back as instructions s.
  lemma ItemHolds(fetch: Fetcher, base: int, p: Image, pos: nat -> nat, form: nat -> Form, w: nat -> seq<int>,
                  k: nat, s: seq<Insn>)
    requires Placed(fetch, base, p, pos, form, w) && k < |p.items|
    requires w(k) == EncodeAll(s) && AllEncodable(s)
    ensures Holds(fetch, base, pos(k), s)
  {
    ShapedAt(p, pos, form, w, k);
    HoldsEncoded(fetch, Cat(w, |p.items|), base, pos(k), s);
  }

  // s is what the items from k on are.
  predicate PlainAt(p: Image, k: nat, s: seq<Insn>)
  {
    k + |s| <= |p.items| && p.items[k..k + |s|] == Insns(s)
  }

  function Insns(s: seq<Insn>): (r: seq<Item>)
    ensures |r| == |s| && forall k :: 0 <= k < |s| ==> r[k] == Ins(s[k])
  {
    seq(|s|, k requires 0 <= k < |s| => Ins(s[k]))
  }

  lemma PlainItem(p: Image, k: nat, s: seq<Insn>, j: nat)
    requires PlainAt(p, k, s) && j < |s|
    ensures p.items[k + j] == Ins(s[j])
  {
    assert p.items[k..k + |s|][j] == p.items[k + j];
  }

  // A run of plain instructions takes one word each.
  lemma {:induction false} PlainLen(p: Image, pos: nat -> nat, form: nat -> Form, w: nat -> seq<int>,
                                    k: nat, s: seq<Insn>, n: nat)
    requires Shaped(p, pos, form, w) && PlainAt(p, k, s) && n <= |s|
    ensures pos(k + n) == pos(k) + n
    decreases n
  {
    if n > 0 {
      PlainLen(p, pos, form, w, k, s, n - 1);
      PlainItem(p, k, s, n - 1);
      assert ItemShaped(p, pos, form, w, k + (n - 1));
    }
  }

  lemma PlainWord(p: Image, pos: nat -> nat, form: nat -> Form, w: nat -> seq<int>, k: nat, s: seq<Insn>, j: nat)
    requires Shaped(p, pos, form, w) && PlainAt(p, k, s) && j < |s|
    ensures pos(k) + j < |Cat(w, |p.items|)| && Cat(w, |p.items|)[pos(k) + j] == EncodeInt(s[j])
  {
    PlainLen(p, pos, form, w, k, s, j);
    PlainItem(p, k, s, j);
    assert ItemShaped(p, pos, form, w, k + j);
    ShapedAt(p, pos, form, w, k + j);
    assert Cat(w, |p.items|)[pos(k + j)..pos(k + j) + 1][0] == w(k + j)[0];
  }

  // A run of plain instructions is in place.
  lemma PlainHolds(fetch: Fetcher, base: int, p: Image, pos: nat -> nat, form: nat -> Form, w: nat -> seq<int>,
                   k: nat, s: seq<Insn>)
    requires Placed(fetch, base, p, pos, form, w) && PlainAt(p, k, s) && AllStraight(s)
    ensures Holds(fetch, base, pos(k), s) && pos(k + |s|) == pos(k) + |s|
  {
    PlainLen(p, pos, form, w, k, s, |s|);
    WithinCode(fetch, base, p, pos, form, w, k + |s|);
    var code, at := Cat(w, |p.items|), pos(k);
    forall j | 0 <= j < |s| ensures code[at + j] == EncodeAll(s)[j] {
      PlainWord(p, pos, form, w, k, s, j);
    }
    assert code[at..at + |s|] == EncodeAll(s);
    StraightEncodable(s);
    HoldsEncoded(fetch, code, base, at, s);
  }

  lemma StraightEncodable(s: seq<Insn>)
    requires AllStraight(s)
    ensures AllEncodable(s)
  {
    forall k | 0 <= k < |s| ensures EncodableAt(s, k) {
      assert StraightAt(s, k);
    }
  }

  // Every instruction of a site can be encoded.
  lemma SiteEncodable(it: Item, form: Form, pos: int, tpos: int)
    requires it.Site? && Legal(it.kind, form)
    requires IsCondKind(it.kind) ==> IsCond(it.f3) && IsReg(it.rs1) && IsReg(it.rs2)
    requires Reaches(it.kind, form, (tpos - (pos + JumpAt(it.kind, form))) * 4)
    ensures AllEncodable(SiteInsns(it, form, pos, tpos))
  {
    var at := if IsCondKind(it.kind) && !(it.kind == BrCond && form == FShort) then pos + 1 else pos;
    EvenOffset(tpos - pos);
    EvenOffset(tpos - at);
    if form == FLong {
      SplitEncodable((tpos - at) * 4);
    }
  }

  lemma EvenOffset(n: int)
    ensures n * 4 % 2 == 0
  {
    ModUnique(n * 4, n * 2, 0, 2);
  }

  lemma SplitEncodable(off: int)
    ensures 0 <= SplitHi(off) < 0x10_0000 && IsImm12(SplitLo(off))
  {
  }

  lemma SkipEncodable(it: Item, at: nat, to: nat)
    requires it.Skip? && IsCond(it.f3) && IsReg(it.rs1) && IsReg(it.rs2) && at <= to < at + 1024
    ensures AllEncodable([SkipBranch(it, at, to)])
  {
    EvenOffset(to - at);
  }

  // -- the layout as the rest of the proof sees it -----------------------------------

  // Nothing more is needed of a laid-out module than this: where each item
  // is (pos), and which instructions are fetched there.
  ghost predicate Laid(fetch: Fetcher, base: int, p: Image, pos: nat -> nat)
  {
    && (forall k: nat :: StepAt(p, pos, k))
    && (forall k: nat, s: seq<Insn> :: PlainLaid(fetch, base, p, pos, k, s))
    && (forall k: nat {:trigger SkipAt(p, pos, k)} :: SkipAt(p, pos, k) ==> SkipLaid(fetch, base, p, pos, k))
    && (forall k: nat {:trigger SiteAt(p, k)} :: SiteAt(p, k) ==> SiteLaid(fetch, base, p, pos, k))
  }

  ghost predicate PlainLaid(fetch: Fetcher, base: int, p: Image, pos: nat -> nat, k: nat, s: seq<Insn>)
  {
    PlainAt(p, k, s) && AllStraight(s) ==> Holds(fetch, base, pos(k), s) && pos(k + |s|) == pos(k) + |s|
  }

  predicate StepAt(p: Image, pos: nat -> nat, k: nat)
  {
    k < |p.items| ==> pos(k) <= pos(k + 1) <= pos(k) + 3
  }

  predicate SkipAt(p: Image, pos: nat -> nat, k: nat)
  {
    && k < |p.items| && p.items[k].Skip? && k + 1 + p.items[k].n <= |p.items|
    && IsCond(p.items[k].f3) && IsReg(p.items[k].rs1) && IsReg(p.items[k].rs2)
    && pos(k + 1 + p.items[k].n) - pos(k) < 1024
  }

  ghost predicate SkipLaid(fetch: Fetcher, base: int, p: Image, pos: nat -> nat, k: nat)
    requires k < |p.items| && p.items[k].Skip?
  {
    var it := p.items[k];
    var to := pos(k + 1 + it.n);
    && Holds(fetch, base, pos(k), [SkipBranch(it, pos(k), to)])
    && pos(k + 1) == pos(k) + 1
    && Low(base, pos(k) + 4) && Low(base, to)
  }

  predicate SiteAt(p: Image, k: nat) { k < |p.items| && p.items[k].Site? }

  ghost predicate SiteLaid(fetch: Fetcher, base: int, p: Image, pos: nat -> nat, k: nat)
    requires SiteAt(p, k)
  {
    exists form :: SiteLaidAs(fetch, base, p, pos, k, form)
  }

  ghost predicate SiteLaidAs(fetch: Fetcher, base: int, p: Image, pos: nat -> nat, k: nat, form: Form)
    requires SiteAt(p, k)
  {
    SiteForm(fetch, base, p.items[k], form, pos(k), pos(TargetItem(p, p.items[k].target)), pos(k + 1))
  }

  ghost predicate SiteForm(fetch: Fetcher, base: int, it: Item, form: Form, at: nat, to: nat, end: nat)
  {
    && it.Site? && Legal(it.kind, form) && (IsCondKind(it.kind) ==> IsCond(it.f3))
    && Reaches(it.kind, form, (to - (at + JumpAt(it.kind, form))) * 4)
    && Holds(fetch, base, at, SiteInsns(it, form, at, to))
    && end == at + BrSize(it.kind, form)
    && Low(base, at + 4) && Low(base, to)
  }

  lemma SkipLaidAt(fetch: Fetcher, base: int, p: Image, pos: nat -> nat, form: nat -> Form, w: nat -> seq<int>, k: nat)
    requires Placed(fetch, base, p, pos, form, w) && SkipAt(p, pos, k)
    ensures SkipLaid(fetch, base, p, pos, k)
  {
    var it := p.items[k];
    var e := k + 1 + it.n;
    var br := SkipBranch(it, pos(k), pos(e));
    assert ItemShaped(p, pos, form, w, k);
    PosMonotone(p, pos, form, w, k, e);
    SkipEncodable(it, pos(k), pos(e));
    assert EncodeAll([br]) == [EncodeInt(br)];
    ItemHolds(fetch, base, p, pos, form, w, k, [br]);
    WithinCode(fetch, base, p, pos, form, w, k);
    WithinCode(fetch, base, p, pos, form, w, e);
  }

  lemma SiteLaidAt(fetch: Fetcher, base: int, p: Image, pos: nat -> nat, form: nat -> Form, w: nat -> seq<int>, k: nat)
    requires Placed(fetch, base, p, pos, form, w) && SiteAt(p, k)
    ensures SiteLaid(fetch, base, p, pos, k)
  {
    var it := p.items[k];
    var t := TargetItem(p, it.target);
    assert ItemShaped(p, pos, form, w, k);
    SiteEncodable(it, form(k), pos(k), pos(t));
    ItemHolds(fetch, base, p, pos, form, w, k, SiteInsns(it, form(k), pos(k), pos(t)));
    WithinCode(fetch, base, p, pos, form, w, k);
    WithinCode(fetch, base, p, pos, form, w, t);
    assert SiteLaidAs(fetch, base, p, pos, k, form(k));
  }

  // A module in place is laid out.
  lemma PlacedLaid(fetch: Fetcher, base: int, p: Image, pos: nat -> nat, form: nat -> Form, w: nat -> seq<int>)
    requires Placed(fetch, base, p, pos, form, w)
    ensures Laid(fetch, base, p, pos)
  {
    forall k: nat ensures StepAt(p, pos, k) {
      if k < |p.items| { assert ItemShaped(p, pos, form, w, k); }
    }
    forall k: nat, s: seq<Insn> ensures PlainLaid(fetch, base, p, pos, k, s) {
      if PlainAt(p, k, s) && AllStraight(s) { PlainHolds(fetch, base, p, pos, form, w, k, s); }
    }
    forall k: nat | SkipAt(p, pos, k) ensures SkipLaid(fetch, base, p, pos, k) {
      SkipLaidAt(fetch, base, p, pos, form, w, k);
    }
    forall k: nat | SiteAt(p, k) ensures SiteLaid(fetch, base, p, pos, k) {
      SiteLaidAt(fetch, base, p, pos, form, w, k);
    }
  }

  // The final code of every module, mapped at base, is laid out as its image
  // says, sites relaxed.
  lemma FinalLaid(p: Image, base: int)
    requires ImageOk(p) && Small(p) && Low(base, |FinalCode(p)| + 4)
    ensures Laid(FetchOf(FinalCode(p), base), base, p, PosFn(p))
  {
    FinalShaped(p);
    FetchOfFetches(FinalCode(p), base);
    PlacedLaid(FetchOf(FinalCode(p), base), base, p, PosFn(p), FormFn(p), FinalWords(p));
  }

  // Straight-line code for the items from k on.
  lemma PlainRuns(x: Effect, fetch: Fetcher, base: int, p: Image, pos: nat -> nat, k: nat, s: seq<Insn>, m: Machine)
    requires IsRV(x) && Laid(fetch, base, p, pos) && PlainAt(p, k, s) && AllStraight(s) && m.pc == base + 4 * pos(k)
    ensures Run(x, fetch, m, |s|) == Some(ExecAll(x, s, m))
    ensures ExecAll(x, s, m).pc == base + 4 * pos(k + |s|)
  {
    assert PlainLaid(fetch, base, p, pos, k, s);
    RunStraight(x, fetch, base, pos(k), s, m);
  }

  // Relaxation's main result: run from its first word, every site of every
  // module ends at its target when taken, and just past itself otherwise.
  lemma SiteJumps(x: Effect, fetch: Fetcher, base: int, p: Image, pos: nat -> nat, k: nat, m: Machine)
    returns (n: nat, m': Machine)
    requires IsRV(x) && Laid(fetch, base, p, pos) && SiteAt(p, k) && m.pc == base + 4 * pos(k)
    ensures n > 0 && Run(x, fetch, m, n) == Some(m') && m'.mem == m.mem
    ensures var it := p.items[k];
            var taken := IsCondKind(it.kind) ==> Taken(it.f3, Get(m.regs, it.rs1), Get(m.regs, it.rs2));
            if taken then
              && m'.pc == base + 4 * pos(TargetItem(p, it.target))
              && SiteRegs(it.kind, m.regs, m'.regs, base + 4 * pos(k + 1))
            else
              m'.pc == base + 4 * pos(k + 1) && m'.regs == m.regs
  {
    var it := p.items[k];
    var t := pos(TargetItem(p, it.target));
    assert SiteLaid(fetch, base, p, pos, k);
    var form :| SiteLaidAs(fetch, base, p, pos, k, form);
    n, m' := SiteRuns(x, fetch, base, it, form, pos(k), t, m);
  }

  // A local forward branch over n items lands just past them.
  lemma SkipJumps(x: Effect, fetch: Fetcher, base: int, p: Image, pos: nat -> nat, k: nat, m: Machine)
    returns (m': Machine)
    requires IsRV(x) && Laid(fetch, base, p, pos) && SkipAt(p, pos, k) && m.pc == base + 4 * pos(k)
    ensures Run(x, fetch, m, 1) == Some(m') && m'.regs == m.regs && m'.mem == m.mem
    ensures m'.pc == base + 4 * pos(if Taken(p.items[k].f3, Get(m.regs, p.items[k].rs1), Get(m.regs, p.items[k].rs2))
                                    then k + 1 + p.items[k].n else k + 1)
  {
    var it := p.items[k];
    assert SkipLaid(fetch, base, p, pos, k);
    m' := BranchRuns(x, fetch, base, pos(k), pos(k + 1 + it.n), it.f3, it.rs1, it.rs2, m);
  }

  lemma BranchRuns(x: Effect, fetch: Fetcher, base: int, at: nat, to: nat, f3: int, rs1: int, rs2: int, m: Machine)
    returns (m': Machine)
    requires IsRV(x)
    requires Low(base, at + 4) && Low(base, to) && m.pc == base + 4 * at
    requires Holds(fetch, base, at, [Branch(f3, rs1, rs2, (to - at) * 4)])
    ensures Run(x, fetch, m, 1) == Some(m') && m'.regs == m.regs && m'.mem == m.mem
    ensures m'.pc == (if Taken(f3, Get(m.regs, rs1), Get(m.regs, rs2)) then base + 4 * to else base + 4 * (at + 1))
  {
    var br := Branch(f3, rs1, rs2, (to - at) * 4);
    RunOne(x, fetch, base, at, br, m);
    BranchPc(base, at, to, m, f3, rs1, rs2);
    m' := x(br, m);
    assert m' == Exec(br, m);
  }
}
