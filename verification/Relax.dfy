// Branch relaxation: what a module is made of (fixed words and branch sites),
// how long each part is under a choice of forms, and the words it becomes.
module Relax {
  import opened Basics
  import opened Rv64
  import opened CodeRun

  datatype Kind = BrJ | BrCall | BrCond | BrCondCall
  datatype Form = FShort | FMedium | FLong

  // A branch target: a Dis instruction, or one of the module's macros.
  datatype Target = TDis(pc: nat) | TMac(idx: nat)

  const RZERO := 0
  const RLINK := 1
  const RTA := 5

  // One thing an instruction emits.  Skip is a local forward branch over the
  // next n items.
  datatype Item =
    | Ins(i: Insn)
    | Raw(w: int)
    | Skip(f3: int, rs1: int, rs2: int, n: nat)
    | Site(kind: Kind, f3: int, rs1: int, rs2: int, target: Target)

  function TPos(t: Target, ptab: seq<nat>, mtab: seq<nat>): nat
  {
    match t
    case TDis(pc) => if pc < |ptab| then ptab[pc] else 0
    case TMac(i) => if i < |mtab| then mtab[i] else 0
  }

  function BrSize(kind: Kind, form: Form): nat
  {
    match kind
    case BrJ => if form == FShort then 1 else 2
    case BrCall => if form == FShort then 1 else 2
    case BrCond => if form == FShort then 1 else if form == FMedium then 2 else 3
    case BrCondCall => if form == FMedium then 2 else 3
  }

  // The form for a branch whose target is d bytes away; the jump sits up to
  // two words into its site.
  function BrForm(kind: Kind, d: int): Form
  {
    var a := (if d < 0 then -d else d) + 16;
    match kind
    case BrJ => if a < 0x10_0000 then FShort else FLong
    case BrCall => if a < 0x10_0000 then FShort else FLong
    case BrCond => if a < 4096 then FShort else if a < 0x10_0000 then FMedium else FLong
    case BrCondCall => if a < 0x10_0000 then FMedium else FLong
  }

  // Sites beyond the chosen forms are sized at their longest: in pass 0 no
  // form is chosen.
  function FormAt(forms: seq<Form>, k: nat): Form { if k < |forms| then forms[k] else FLong }

  function SiteCount(it: Item): nat { if it.Site? then 1 else 0 }

  function NSites(items: seq<Item>): nat
  {
    if items == [] then 0 else NSites(items[..|items| - 1]) + SiteCount(items[|items| - 1])
  }

  function Size(it: Item, form: Form): nat { if it.Site? then BrSize(it.kind, form) else 1 }

  // Words taken by the items, site k in form FormAt(forms, k).
  function Len(items: seq<Item>, forms: seq<Form>): nat
  {
    if items == [] then 0
    else
      var front := items[..|items| - 1];
      Len(front, forms) + Size(items[|items| - 1], FormAt(forms, NSites(front)))
  }

  // Where the sites are when every one is at its longest.
  function SitePos(items: seq<Item>): (s: seq<nat>)
    ensures |s| == NSites(items)
  {
    if items == [] then []
    else
      var front := items[..|items| - 1];
      SitePos(front) + (if items[|items| - 1].Site? then [Len(front, [])] else [])
  }

  // The form each site gets, from the pass-0 positions of sites and targets.
  function Pick(items: seq<Item>, sitepos0: seq<nat>, patch0: seq<nat>, macro0: seq<nat>): (f: seq<Form>)
    requires NSites(items) <= |sitepos0|
    ensures |f| == NSites(items)
  {
    if items == [] then []
    else
      var front := items[..|items| - 1];
      var it := items[|items| - 1];
      Pick(front, sitepos0, patch0, macro0)
      + (if it.Site? then [BrForm(it.kind, (TPos(it.target, patch0, macro0) - sitepos0[NSites(front)]) * 4)] else [])
  }

  function Invert(f3: int): int { if f3 % 2 == 0 then f3 + 1 else f3 - 1 }

  // A PC-relative byte offset split for auipc and a 12-bit signed low part.
  function SplitHi(off: int): int { (off - Sext12(off)) / 4096 % 0x10_0000 }
  function SplitLo(off: int): int { Sext12(off) }

  // The jump at the end of a site, at word pos.
  function JumpInsns(link: bool, form: Form, pos: int, tpos: int): seq<Insn>
  {
    var rd := if link then RLINK else RZERO;
    var off := (tpos - pos) * 4;
    if form == FLong then
      var k := if link then RLINK else RTA;
      [Auipc(k, SplitHi(off)), Jalr(rd, k, SplitLo(off))]
    else
      [Jal(rd, off)]
  }

  predicate IsLink(kind: Kind) { kind == BrCall || kind == BrCondCall }
  predicate IsCondKind(kind: Kind) { kind == BrCond || kind == BrCondCall }

  // What relbr emits for a site that starts at word pos.
  function SiteInsns(it: Item, form: Form, pos: int, tpos: int): seq<Insn>
    requires it.Site?
  {
    if it.kind == BrCond && form == FShort then
      [Branch(it.f3, it.rs1, it.rs2, (tpos - pos) * 4)]
    else if IsCondKind(it.kind) then
      [Branch(Invert(it.f3), it.rs1, it.rs2, BrSize(it.kind, form) * 4)]
      + JumpInsns(IsLink(it.kind), form, pos + 1, tpos)
    else
      JumpInsns(IsLink(it.kind), form, pos, tpos)
  }

  // Words an unresolved skip jumps over: none while it is still open.
  function SkipWords(items: seq<Item>, forms: seq<Form>, idx: nat): int
    requires idx < |items| && items[idx].Skip?
  {
    var e := idx + 1 + items[idx].n;
    Len(items[..if e <= |items| then e else |items|], forms) - Len(items[..idx], forms)
  }

  // The words of item idx.  `open` is a local branch not patched yet.
  function ItemWords(items: seq<Item>, forms: seq<Form>, ptab: seq<nat>, mtab: seq<nat>, open: int, idx: nat): seq<int>
  {
    if idx >= |items| then []
    else
      var it := items[idx];
      match it
      case Ins(i) => [EncodeInt(i)]
      case Raw(w) => [w]
      case Skip(f3, rs1, rs2, _) =>
        [EncodeInt(Branch(f3, rs1, rs2, if idx == open then 0 else 4 * SkipWords(items, forms, idx)))]
      case Site(_, _, _, _, t) =>
        EncodeAll(SiteInsns(it, FormAt(forms, NSites(items[..idx])), Len(items[..idx], forms), TPos(t, ptab, mtab)))
  }

  function WordsOf(items: seq<Item>, forms: seq<Form>, ptab: seq<nat>, mtab: seq<nat>, open: int): nat -> seq<int>
  {
    (k: nat) => ItemWords(items, forms, ptab, mtab, open, k)
  }

  // w(0) + ... + w(n - 1)
  function Cat(w: nat -> seq<int>, n: nat): seq<int>
  {
    if n == 0 then [] else Cat(w, n - 1) + w(n - 1)
  }

  function Render(items: seq<Item>, forms: seq<Form>, ptab: seq<nat>, mtab: seq<nat>, open: int, n: nat): seq<int>
  {
    Cat(WordsOf(items, forms, ptab, mtab, open), n)
  }

  // -- layout lemmas -----------------------------------------------------------

  lemma Snoc(items: seq<Item>, k: nat, forms: seq<Form>)
    requires k < |items|
    ensures NSites(items[..k + 1]) == NSites(items[..k]) + SiteCount(items[k])
    ensures Len(items[..k + 1], forms)
            == Len(items[..k], forms) + Size(items[k], FormAt(forms, NSites(items[..k])))
  {
    assert items[..k + 1][..k] == items[..k];
  }

  // Pass 1 only shrinks: no distance grows, and order is kept.
  lemma {:induction false} Shrink(items: seq<Item>, forms: seq<Form>, a: nat, b: nat)
    requires a <= b <= |items|
    ensures 0 <= Len(items[..b], forms) - Len(items[..a], forms)
            <= Len(items[..b], []) - Len(items[..a], [])
    decreases b - a
  {
    if a < b {
      Shrink(items, forms, a, b - 1);
      Snoc(items, b - 1, forms);
      Snoc(items, b - 1, []);
    }
  }

  lemma {:induction false} NSitesUpTo(items: seq<Item>, a: nat, b: nat)
    requires a <= b <= |items|
    ensures NSites(items[..a]) <= NSites(items[..b])
    decreases b - a
  {
    if a < b {
      NSitesUpTo(items, a, b - 1);
      Snoc(items, b - 1, []);
    }
  }

  // Entry k of the two site tables belongs to the k-th site.
  lemma {:induction false} SiteTables(items: seq<Item>, n: nat, idx: nat, sitepos0: seq<nat>, patch0: seq<nat>,
                                      macro0: seq<nat>)
    requires idx < n <= |items| && items[idx].Site? && NSites(items) <= |sitepos0|
    ensures NSites(items[..idx]) < NSites(items[..n]) <= NSites(items)
    ensures SitePos(items[..n])[NSites(items[..idx])] == Len(items[..idx], [])
    ensures Pick(items[..n], sitepos0, patch0, macro0)[NSites(items[..idx])]
            == BrForm(items[idx].kind, (TPos(items[idx].target, patch0, macro0) - sitepos0[NSites(items[..idx])]) * 4)
    decreases n
  {
    NSitesUpTo(items, n, |items|);
    assert items[..|items|] == items;
    Snoc(items, n - 1, []);
    assert items[..n][..n - 1] == items[..n - 1];
    if idx < n - 1 {
      SiteTables(items, n - 1, idx, sitepos0, patch0, macro0);
    }
  }

  // -- the module as laid out ---------------------------------------------------

  // All items of a module, and where in them each Dis instruction (and the
  // end) and each macro starts.
  datatype Image = Image(items: seq<Item>, starts: seq<nat>, macs: seq<nat>)

  predicate SiteOk(it: Item, p: Image)
  {
    it.Site? ==>
      && (IsCondKind(it.kind) ==> IsCond(it.f3) && IsReg(it.rs1) && IsReg(it.rs2))
      && match it.target
         case TDis(pc) => pc < |p.starts|
         case TMac(i) => i < |p.macs|
  }

  predicate ImageOk(p: Image)
  {
    && (forall i :: 0 <= i < |p.starts| ==> p.starts[i] <= |p.items|)
    && (forall i :: 0 <= i < |p.macs| ==> p.macs[i] <= |p.items|)
    && (forall i :: 0 <= i < |p.items| ==> SiteOk(p.items[i], p))
  }

  // Positions of marked items under a choice of forms.
  function Tab(items: seq<Item>, marks: seq<nat>, forms: seq<Form>): (t: seq<nat>)
    requires forall i :: 0 <= i < |marks| ==> marks[i] <= |items|
    ensures |t| == |marks|
    ensures forall i :: 0 <= i < |marks| ==> t[i] == Len(items[..marks[i]], forms)
  {
    seq(|marks|, i requires 0 <= i < |marks| => Len(items[..marks[i]], forms))
  }

  function TargetItem(p: Image, t: Target): nat
  {
    match t
    case TDis(pc) => if pc < |p.starts| then p.starts[pc] else 0
    case TMac(i) => if i < |p.macs| then p.macs[i] else 0
  }

  // Pass 1's choice for the whole module.
  function Chosen(p: Image): (f: seq<Form>)
    requires ImageOk(p)
    ensures |f| == NSites(p.items)
  {
    Pick(p.items, SitePos(p.items), Tab(p.items, p.starts, []), Tab(p.items, p.macs, []))
  }

  // The final word position of item idx.
  function At(p: Image, idx: nat): nat
    requires ImageOk(p) && idx <= |p.items|
  {
    Len(p.items[..idx], Chosen(p))
  }

  function FormOf(p: Image, idx: nat): Form
    requires ImageOk(p) && idx < |p.items|
  {
    FormAt(Chosen(p), NSites(p.items[..idx]))
  }

  // The final words.
  function FinalCode(p: Image): seq<int>
    requires ImageOk(p)
  {
    Render(p.items, Chosen(p), Tab(p.items, p.starts, Chosen(p)), Tab(p.items, p.macs, Chosen(p)), -1, |p.items|)
  }

  // The largest module the compiler accepts is far inside auipc's reach.
  const MAXBYTES := 0x4000_0000

  predicate Small(p: Image) { Len(p.items, []) * 4 < MAXBYTES }

  // How far the k-th form can jump, from the jump's own address.
  predicate Reaches(kind: Kind, form: Form, d: int)
  {
    match form
    case FShort => if kind == BrCond then -4096 <= d < 4096 else -0x10_0000 <= d < 0x10_0000
    case FMedium => -0x10_0000 <= d < 0x10_0000
    case FLong => -0x7000_0000 <= d < 0x7000_0000
  }

  // How many words into the site the jump is.
  function JumpAt(kind: Kind, form: Form): nat
  {
    if IsCondKind(kind) && !(kind == BrCond && form == FShort) then 1 else 0
  }

  // A target within pass 0's distance is within the picked form's reach.
  lemma PickReaches(kind: Kind, d0: int, d: int)
    requires (if d < 0 then -d else d) <= (if d0 < 0 then -d0 else d0) < MAXBYTES
    ensures var form := BrForm(kind, d0); Reaches(kind, form, d - 4 * JumpAt(kind, form))
    ensures BrForm(kind, d0) == FMedium ==> IsCondKind(kind)
    ensures BrForm(kind, d0) == FShort ==> kind != BrCondCall
  {
  }

  // And no shorter form would do, with the 16 bytes kept for where the jump is.
  lemma PicksShortest(kind: Kind, d: int, form: Form)
    requires BrSize(kind, form) < BrSize(kind, BrForm(kind, d))
    ensures !Reaches(kind, form, (if d < 0 then -d else d) + 16)
  {
  }

  // Soundness of relaxation: every site reaches its target in the final
  // layout with the form picked from pass 0's layout.
  lemma RelaxationReaches(p: Image, idx: nat)
    requires ImageOk(p) && Small(p) && idx < |p.items| && p.items[idx].Site?
    ensures var it := p.items[idx];
            var form := FormOf(p, idx);
            Reaches(it.kind, form, (At(p, TargetItem(p, it.target)) - (At(p, idx) + JumpAt(it.kind, form))) * 4)
    ensures FormOf(p, idx) == FMedium ==> IsCondKind(p.items[idx].kind)
    ensures FormOf(p, idx) == FShort ==> p.items[idx].kind != BrCondCall
  {
    var it := p.items[idx];
    var f := Chosen(p);
    var t := TargetItem(p, it.target);
    assert p.items[..|p.items|] == p.items;
    assert SiteOk(it, p);
    SiteTables(p.items, |p.items|, idx, SitePos(p.items), Tab(p.items, p.starts, []), Tab(p.items, p.macs, []));
    var lo, hi := if idx <= t then idx else t, if idx <= t then t else idx;
    Shrink(p.items, f, lo, hi);
    Shrink(p.items, [], 0, lo);
    Shrink(p.items, [], hi, |p.items|);
    PickReaches(it.kind, (Len(p.items[..t], []) - Len(p.items[..idx], [])) * 4, (At(p, t) - At(p, idx)) * 4);
  }

  // -- running a site --------------------------------------------------------------

  // auipc + low part adds the whole offset to the address of the auipc.
  lemma SplitRelValue(pc: int, off: int)
    requires 0 <= pc < TWO63 && -0x7000_0000 <= off < 0x7000_0000 && 0 <= pc + off < TWO63
    ensures 0 <= SplitHi(off) < 0x10_0000 && IsImm12(SplitLo(off))
    ensures U64(W64(pc + W32(SplitHi(off) * 4096)) + SplitLo(off)) == pc + off
  {
    var lo := Sext12(off);
    var q := (off - lo) / 4096;
    assert 4096 * q == off - lo;
    assert SplitHi(off) * 4096 == (off - lo) + TWO32 * -(q / 0x10_0000);
    W32Shift(off - lo, -(q / 0x10_0000));
    W32Id(off - lo);
    W64Wraps(pc + off - lo, lo, pc + off);
  }

  lemma W64Wraps(x: int, y: int, z: int)
    requires x + y == z && 0 <= z < TWO64
    ensures U64(W64(x) + y) == z
  {
    var k := (W64(x) - x) / TWO64;
    assert W64(x) == x + TWO64 * k;
    ModShift(z, k, TWO64);
  }

  // Registers after a site that jumped: the link, or the long form's scratch.
  predicate SiteRegs(kind: Kind, r: Regs, r': Regs, back: int)
  {
    if IsLink(kind) then r' == r[RLINK := W64(back)]
    else r' == r[RTA := r'[RTA]]
  }

  // Low memory: the module's code is mapped below 2^63.
  predicate Low(base: int, words: int) { 0 <= base && base % 4 == 0 && base + 4 * words < TWO63 }

  // The jump of a site goes to its target.
  lemma JumpRuns(x: Effect, fetch: Fetcher, base: int, link: bool, form: Form, pos: nat, tpos: nat, m: Machine)
    returns (m': Machine)
    requires IsRV(x)
    requires Low(base, pos + 2) && Low(base, tpos) && m.pc == base + 4 * pos
    requires Holds(fetch, base, pos, JumpInsns(link, form, pos, tpos))
    requires if form == FLong then -0x7000_0000 <= (tpos - pos) * 4 < 0x7000_0000
             else -0x10_0000 <= (tpos - pos) * 4 < 0x10_0000
    ensures Run(x, fetch, m, |JumpInsns(link, form, pos, tpos)|) == Some(m')
    ensures m'.pc == base + 4 * tpos && m'.mem == m.mem
    ensures SiteRegs(if link then BrCall else BrJ, m.regs, m'.regs, m.pc + 4 * |JumpInsns(link, form, pos, tpos)|)
  {
    var off := (tpos - pos) * 4;
    var s := JumpInsns(link, form, pos, tpos);
    if form == FLong {
      m' := LongJumpValue(base, link, pos, tpos, m);
      assert m' == x(s[1], x(s[0], m));
      RunTwo(x, fetch, base, s[0], s[1], pos, m);
    } else {
      RunOne(x, fetch, base, pos, s[0], m);
      m' := x(s[0], m);
      assert m' == Exec(Jal(if link then RLINK else RZERO, off), m);
      assert m.pc + off == base + 4 * tpos;
    }
  }

  lemma RunTwo(x: Effect, fetch: Fetcher, base: int, a: Insn, b: Insn, pos: nat, m: Machine)
    requires Advances(x) && Straight(a) && Low(base, pos + 2) && m.pc == base + 4 * pos
    requires Holds(fetch, base, pos, [a, b])
    ensures Run(x, fetch, m, 2) == Some(x(b, x(a, m)))
  {
    assert [a, b] == [a] + [b];
    HoldsSplit(fetch, base, pos, [a], [b]);
    RunOne(x, fetch, base, pos, a, m);
    NextPc(x, a, base, pos, m);
    RunOne(x, fetch, base, pos + 1, b, x(a, m));
    RunAdd(x, fetch, m, 1, 1, x(a, m));
  }

  lemma NextPc(x: Effect, a: Insn, base: int, pos: nat, m: Machine)
    requires Advances(x) && Straight(a) && Low(base, pos + 2) && m.pc == base + 4 * pos
    ensures x(a, m).pc == base + 4 * (pos + 1)
  {
  }

  lemma LongJumpValue(base: int, link: bool, pos: nat, tpos: nat, m: Machine) returns (m': Machine)
    requires Low(base, pos + 2) && Low(base, tpos) && m.pc == base + 4 * pos
    requires -0x7000_0000 <= (tpos - pos) * 4 < 0x7000_0000
    ensures var s := JumpInsns(link, FLong, pos, tpos); Straight(s[0]) && m' == Exec(s[1], Exec(s[0], m))
    ensures m'.pc == base + 4 * tpos && m'.mem == m.mem
    ensures if link then m'.regs == m.regs[RLINK := W64(m.pc + 8)]
            else m'.regs == m.regs[RTA := m'.regs[RTA]]
  {
    var off := (tpos - pos) * 4;
    var k, rd := if link then RLINK else RTA, if link then RLINK else RZERO;
    SplitRelValue(m.pc, off);
    Even(base, tpos);
    var v := W64(m.pc + W32(SplitHi(off) * 4096));
    assert m.pc + off == base + 4 * tpos;
    m' := FarJumpEffect(k, rd, SplitHi(off), SplitLo(off), v, base + 4 * tpos, m);
  }

  lemma Even(base: int, n: int)
    requires base % 4 == 0
    ensures (base + 4 * n) % 2 == 0
  {
    ModUnique(base + 4 * n, 2 * (base / 4) + 2 * n, 0, 2);
  }

  lemma FarJumpEffect(k: int, rd: int, hi: int, lo: int, v: int, t: int, m: Machine) returns (m': Machine)
    requires 0 < k < 32 && (rd == k || rd == 0) && 0 <= m.pc < TWO63
    requires v == W64(m.pc + W32(hi * 4096)) && U64(v + lo) == t && t % 2 == 0
    ensures m' == Exec(Jalr(rd, k, lo), Exec(Auipc(k, hi), m))
    ensures m'.pc == t && m'.mem == m.mem
    ensures m'.regs == m.regs[k := if rd == 0 then v else W64(m.pc + 8)]
  {
    var m1 := Exec(Auipc(k, hi), m);
    assert m1 == Machine(m.pc + 4, m.regs[k := v], m.mem);
    m' := Exec(Jalr(rd, k, lo), m1);
    assert Get(m1.regs, k) == v;
  }

  lemma InvertTaken(f3: int, a: int, b: int)
    requires IsCond(f3)
    ensures IsCond(Invert(f3)) && (Taken(Invert(f3), a, b) <==> !Taken(f3, a, b))
  {
  }

  // Running a site from its first word: a taken (or unconditional) branch
  // ends at the target, an untaken one just past the site.
  lemma SiteRuns(x: Effect, fetch: Fetcher, base: int, it: Item, form: Form, pos: nat, tpos: nat, m: Machine)
    returns (k: nat, m': Machine)
    requires IsRV(x)
    requires it.Site? && Low(base, pos + 4) && Low(base, tpos) && m.pc == base + 4 * pos
    requires IsCondKind(it.kind) ==> IsCond(it.f3)
    requires Holds(fetch, base, pos, SiteInsns(it, form, pos, tpos))
    requires Reaches(it.kind, form, (tpos - (pos + JumpAt(it.kind, form))) * 4)
    requires form == FMedium ==> IsCondKind(it.kind)
    requires form == FShort ==> it.kind != BrCondCall
    ensures k > 0 && Run(x, fetch, m, k) == Some(m') && m'.mem == m.mem
    ensures var taken := IsCondKind(it.kind) ==> Taken(it.f3, Get(m.regs, it.rs1), Get(m.regs, it.rs2));
            if taken then
              m'.pc == base + 4 * tpos && SiteRegs(it.kind, m.regs, m'.regs, base + 4 * (pos + BrSize(it.kind, form)))
            else
              m'.pc == base + 4 * (pos + BrSize(it.kind, form)) && m'.regs == m.regs
  {
    var s := SiteInsns(it, form, pos, tpos);
    if it.kind == BrCond && form == FShort {
      RunOne(x, fetch, base, pos, s[0], m);
      k, m' := 1, x(s[0], m);
      assert m' == Exec(s[0], m);
      BranchPc(base, pos, tpos, m, it.f3, it.rs1, it.rs2);
    } else if IsCondKind(it.kind) {
      k, m' := InvertedRuns(x, fetch, base, it, form, pos, tpos, m);
    } else {
      k := |JumpInsns(IsLink(it.kind), form, pos, tpos)|;
      m' := JumpRuns(x, fetch, base, IsLink(it.kind), form, pos, tpos, m);
    }
  }

  lemma BranchPc(base: int, pos: nat, tpos: nat, m: Machine, f3: int, rs1: int, rs2: int)
    requires Low(base, pos + 4) && Low(base, tpos) && m.pc == base + 4 * pos
    ensures var m' := Exec(Branch(f3, rs1, rs2, (tpos - pos) * 4), m);
            m'.regs == m.regs && m'.mem == m.mem
            && m'.pc == (if Taken(f3, Get(m.regs, rs1), Get(m.regs, rs2)) then base + 4 * tpos
                         else base + 4 * (pos + 1))
  {
    assert m.pc + (tpos - pos) * 4 == base + 4 * tpos;
  }

  lemma InvertedRuns(x: Effect, fetch: Fetcher, base: int, it: Item, form: Form, pos: nat, tpos: nat, m: Machine)
    returns (k: nat, m': Machine)
    requires IsRV(x)
    requires it.Site? && Low(base, pos + 4) && Low(base, tpos) && m.pc == base + 4 * pos
    requires IsCondKind(it.kind) && IsCond(it.f3) && !(it.kind == BrCond && form == FShort)
    requires Holds(fetch, base, pos, SiteInsns(it, form, pos, tpos))
    requires Reaches(it.kind, form, (tpos - (pos + 1)) * 4)
    requires form == FShort ==> it.kind != BrCondCall
    ensures k > 0 && Run(x, fetch, m, k) == Some(m') && m'.mem == m.mem
    ensures if Taken(it.f3, Get(m.regs, it.rs1), Get(m.regs, it.rs2)) then
              m'.pc == base + 4 * tpos && SiteRegs(it.kind, m.regs, m'.regs, base + 4 * (pos + BrSize(it.kind, form)))
            else
              m'.pc == base + 4 * (pos + BrSize(it.kind, form)) && m'.regs == m.regs
  {
    var size := BrSize(it.kind, form);
    var br := Branch(Invert(it.f3), it.rs1, it.rs2, size * 4);
    var jump := JumpInsns(IsLink(it.kind), form, pos + 1, tpos);
    HoldsSplit(fetch, base, pos, [br], jump);
    RunOne(x, fetch, base, pos, br, m);
    InvertTaken(it.f3, Get(m.regs, it.rs1), Get(m.regs, it.rs2));
    BranchPc(base, pos, pos + size, m, Invert(it.f3), it.rs1, it.rs2);
    var m1 := x(br, m);
    assert m1 == Exec(br, m);
    if Taken(it.f3, Get(m.regs, it.rs1), Get(m.regs, it.rs2)) {
      m' := JumpRuns(x, fetch, base, IsLink(it.kind), form, pos + 1, tpos, m1);
      RunAdd(x, fetch, m, 1, |jump|, m1);
      k := 1 + |jump|;
    } else {
      k, m' := 1, m1;
    }
  }
}
