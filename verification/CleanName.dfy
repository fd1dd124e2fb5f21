// Cleaning a path in place, against folding its elements over a stack.
module CleanName {
  import opened Basics

  type Elem = seq<byte>

  const SLASH: byte := 47
  const DOT: byte := 46

  function Dots(): Elem { [DOT, DOT] }

  // -- the stack machine --------------------------------------------------------------

  // The pieces between slashes, empty ones and all.
  function Split(s: seq<byte>): (es: seq<Elem>)
    ensures es != []
  {
    if s == [] then [[]]
    else if s[0] == SLASH then [[]] + Split(s[1..])
    else
      var es := Split(s[1..]);
      [[s[0]] + es[0]] + es[1..]
  }

  // An element goes on the stack; "" and "." do not; ".." takes one off, stays
  // if there is none to take off, and vanishes at the root.
  function Push(rooted: bool, st: seq<Elem>, e: Elem): seq<Elem>
  {
    if e == [] || e == [DOT] then st
    else if e == Dots() then
      if st != [] && st[|st| - 1] != Dots() then st[..|st| - 1]
      else if rooted then st
      else st + [e]
    else st + [e]
  }

  function Fold(rooted: bool, st: seq<Elem>, es: seq<Elem>): seq<Elem>
    decreases |es|
  {
    if es == [] then st else Fold(rooted, Push(rooted, st, es[0]), es[1..])
  }

  function Join(st: seq<Elem>): seq<byte>
  {
    if st == [] then [] else if |st| == 1 then st[0] else Join(st[..|st| - 1]) + [SLASH] + st[|st| - 1]
  }

  function Root(rooted: bool): seq<byte> { if rooted then [SLASH] else [] }

  function Show(rooted: bool, st: seq<Elem>): seq<byte> { Root(rooted) + Join(st) }

  predicate IsRooted(s: seq<byte>) { s != [] && s[0] == SLASH }

  function Clean(s: seq<byte>): seq<byte>
  {
    var r := Show(IsRooted(s), Fold(IsRooted(s), [], Split(s)));
    if r == [] then [DOT] else r
  }

  // -- stacks ---------------------------------------------------------------------------

  // A path element that stays: not empty, no slash, not ".".
  predicate Real(e: Elem) { e != [] && SLASH !in e && e != [DOT] }

  // Such elements, those that are ".." first, and none of those at the root.
  ghost predicate Stack(rooted: bool, st: seq<Elem>)
  {
    && (forall i :: 0 <= i < |st| ==> Real(st[i]) && (rooted ==> st[i] != Dots()))
    && (forall i, j :: 0 <= i < j < |st| && st[j] == Dots() ==> st[i] == Dots())
  }

  lemma PushStack(rooted: bool, st: seq<Elem>, e: Elem)
    requires Stack(rooted, st) && SLASH !in e
    ensures Stack(rooted, Push(rooted, st, e))
  {
  }

  lemma {:induction false} SplitElems(s: seq<byte>)
    ensures forall i :: 0 <= i < |Split(s)| ==> SLASH !in Split(s)[i]
    decreases |s|
  {
    if s != [] {
      SplitElems(s[1..]);
      var es := Split(s[1..]);
      if s[0] != SLASH {
        assert SLASH !in [s[0]] + es[0];
      }
    }
  }

  lemma {:induction false} FoldStack(rooted: bool, st: seq<Elem>, es: seq<Elem>)
    requires Stack(rooted, st) && forall i :: 0 <= i < |es| ==> SLASH !in es[i]
    ensures Stack(rooted, Fold(rooted, st, es))
    decreases |es|
  {
    if es != [] {
      PushStack(rooted, st, es[0]);
      FoldStack(rooted, Push(rooted, st, es[0]), es[1..]);
    }
  }

  lemma JoinMore(st: seq<Elem>, e: Elem)
    ensures Join(st + [e]) == Join(st) + (if st == [] then [] else [SLASH]) + e
  {
    var s := st + [e];
    assert s[..|s| - 1] == st && s[|s| - 1] == e;
  }

  lemma {:induction false} SplitPiece(e: Elem, t: seq<byte>)
    requires SLASH !in e && (t == [] || t[0] == SLASH)
    ensures Split(e + t) == if t == [] then [e] else [e] + Split(t[1..])
    decreases |e|
  {
    if e == [] {
      assert e + t == t;
    } else {
      assert (e + t)[1..] == e[1..] + t;
      SplitPiece(e[1..], t);
      assert e == [e[0]] + e[1..];
    }
  }

  // Whatever element comes next, folding may go on from after it, at its slash or the end.
  lemma FoldPiece(rooted: bool, st: seq<Elem>, e: Elem, t: seq<byte>)
    requires SLASH !in e && (t == [] || t[0] == SLASH)
    ensures Fold(rooted, st, Split(e + t)) == Fold(rooted, Push(rooted, st, e), Split(t))
  {
    SplitPiece(e, t);
    var st' := Push(rooted, st, e);
    if t == [] {
      assert Split(e + t)[1..] == [] && Split(t)[1..] == [];
      assert Fold(rooted, st', []) == st';
    } else {
      assert Split(e + t)[1..] == Split(t[1..]);
      FoldSlash(rooted, st', t);
    }
  }

  lemma FoldSlash(rooted: bool, st: seq<Elem>, t: seq<byte>)
    requires t != [] && t[0] == SLASH
    ensures Fold(rooted, st, Split(t)) == Fold(rooted, st, Split(t[1..]))
  {
    assert Split(t)[1..] == Split(t[1..]);
  }

  // -- clean names stay -------------------------------------------------------------------

  // The pieces of what follows a path: nothing, or what is after its slash.
  function After(more: seq<byte>): seq<Elem> { if more == [] then [] else Split(more[1..]) }

  lemma {:induction false} SplitJoin(st: seq<Elem>, more: seq<byte>)
    requires st != [] && (forall i :: 0 <= i < |st| ==> SLASH !in st[i]) && (more == [] || more[0] == SLASH)
    ensures Split(Join(st) + more) == st + After(more)
    decreases |st|
  {
    if |st| == 1 {
      SplitPiece(st[0], more);
      SplitOne(st, more);
    } else {
      var pre, e := st[..|st| - 1], st[|st| - 1];
      SplitJoin(pre, [SLASH] + (e + more));
      SplitStep(pre, e, Join(pre), more);
      assert st == pre + [e];
    }
  }

  lemma SplitOne(st: seq<Elem>, more: seq<byte>)
    requires |st| == 1 && Split(st[0] + more) == if more == [] then [st[0]] else [st[0]] + Split(more[1..])
    ensures Split(Join(st) + more) == st + After(more)
  {
    assert st == [st[0]];
  }

  lemma SplitStep(pre: seq<Elem>, e: Elem, j: seq<byte>, more: seq<byte>)
    requires SLASH !in e && (more == [] || more[0] == SLASH)
    requires Split(j + ([SLASH] + (e + more))) == pre + After([SLASH] + (e + more))
    ensures Split(j + [SLASH] + e + more) == pre + [e] + After(more)
  {
    Assoc(j, e, more);
    AfterSlash(e + more);
    PieceAfter(e, more);
    Regroup(pre, e, After(more));
  }

  lemma Assoc(j: seq<byte>, e: Elem, more: seq<byte>)
    ensures j + ([SLASH] + (e + more)) == j + [SLASH] + e + more
  {
  }

  lemma AfterSlash(t: seq<byte>)
    ensures After([SLASH] + t) == Split(t)
  {
    assert ([SLASH] + t)[1..] == t;
  }

  lemma PieceAfter(e: Elem, more: seq<byte>)
    requires SLASH !in e && (more == [] || more[0] == SLASH)
    ensures Split(e + more) == [e] + After(more)
  {
    SplitPiece(e, more);
    if more == [] { assert [e] + After(more) == [e]; }
  }

  lemma Regroup(pre: seq<Elem>, e: Elem, rest: seq<Elem>)
    ensures pre + ([e] + rest) == pre + [e] + rest && [e] + [] == [e]
  {
  }

  lemma {:induction false} FoldSame(rooted: bool, st: seq<Elem>, k: nat)
    requires Stack(rooted, st) && k <= |st|
    ensures Fold(rooted, st[..k], st[k..]) == st
    decreases |st| - k
  {
    if k < |st| {
      var e := st[k];
      assert Push(rooted, st[..k], e) == st[..k + 1] by {
        assert st[..k + 1] == st[..k] + [e];
        if e == Dots() && k > 0 {
          assert st[k - 1] == Dots();
        }
      }
      assert st[k..][1..] == st[k + 1..] && st[k..][0] == e;
      FoldSame(rooted, st, k + 1);
    } else {
      assert st[..k] == st && st[k..] == [];
    }
  }

  lemma {:induction false} JoinNotEmpty(st: seq<Elem>)
    requires st != [] && forall i :: 0 <= i < |st| ==> Real(st[i])
    ensures Join(st) != [] && Join(st)[0] != SLASH
    decreases |st|
  {
    if |st| > 1 {
      JoinNotEmpty(st[..|st| - 1]);
    } else {
      assert st[0][0] in st[0];
    }
  }

  // A stack shown and folded again is the same stack.
  lemma ShowFolds(rooted: bool, st: seq<Elem>)
    requires Stack(rooted, st)
    ensures Fold(rooted, [], Split(Show(rooted, st))) == st
    ensures Show(rooted, st) != [] ==> IsRooted(Show(rooted, st)) == rooted
  {
    var r := Show(rooted, st);
    if st == [] {
      assert r == Root(rooted);
      assert Split([]) == [[]] && Split([])[1..] == [];
      if rooted { assert r[1..] == []; FoldSlash(rooted, [], r); }
    } else {
      JoinNotEmpty(st);
      SplitJoin(st, []);
      assert Join(st) + [] == Join(st) && st + After([]) == st;
      FoldSame(rooted, st, 0);
      assert st[..0] == [] && st[0..] == st;
      if rooted { assert r[1..] == Join(st); FoldSlash(rooted, [], r); } else { assert r == Join(st); }
    }
  }

  // A clean name is a fixed point.
  lemma CleanTwice(s: seq<byte>)
    ensures Clean(Clean(s)) == Clean(s)
  {
    var rooted := IsRooted(s);
    var st := Fold(rooted, [], Split(s));
    SplitElems(s);
    FoldStack(rooted, [], Split(s));
    ShowFolds(rooted, st);
    if Show(rooted, st) == [] {
      SplitPiece([DOT], []);
      assert [DOT] + [] == [DOT];
      var es: seq<Elem> := [[DOT]];
      assert es[1..] == [] && Push(false, [], es[0]) == [];
      assert Fold(false, [], es) == Fold(false, [], es[1..]);
      assert Show(false, []) == [];
    }
  }

  // -- what cleaning means ------------------------------------------------------------------

  lemma {:induction false} SplitAppend(s: seq<byte>, e: Elem)
    requires SLASH !in e
    ensures Split(s + [SLASH] + e) == Split(s) + [e]
    decreases |s|
  {
    if s == [] {
      SplitPiece(e, []);
      assert e + [] == e && ([] + [SLASH] + e)[1..] == e && [] + [SLASH] + e == [SLASH] + e;
    } else {
      SplitAppend(s[1..], e);
      assert s == [s[0]] + s[1..] && s + [SLASH] + e == [s[0]] + (s[1..] + [SLASH] + e);
      SplitCons(s[0], s[1..]);
      SplitCons(s[0], s[1..] + [SLASH] + e);
      Longer(s[0], Split(s[1..]), e);
    }
  }

  // A byte more in front.
  function Before(c: byte, es: seq<Elem>): seq<Elem>
    requires es != []
  {
    if c == SLASH then [[]] + es else [[c] + es[0]] + es[1..]
  }

  lemma SplitCons(c: byte, t: seq<byte>)
    ensures Split([c] + t) == Before(c, Split(t))
  {
    assert ([c] + t)[1..] == t;
  }

  lemma Longer(c: byte, es: seq<Elem>, e: Elem)
    requires es != []
    ensures Before(c, es + [e]) == Before(c, es) + [e]
  {
    assert (es + [e])[1..] == es[1..] + [e];
  }

  lemma {:induction false} FoldAppend(rooted: bool, st: seq<Elem>, es: seq<Elem>, e: Elem)
    ensures Fold(rooted, st, es + [e]) == Push(rooted, Fold(rooted, st, es), e)
    decreases |es|
  {
    if es == [] {
      assert es + [e] == [e] && [e][1..] == [];
      assert Fold(rooted, Push(rooted, st, e), []) == Push(rooted, st, e);
    } else {
      assert (es + [e])[1..] == es[1..] + [e];
      FoldAppend(rooted, Push(rooted, st, es[0]), es[1..], e);
    }
  }

  // The stack of a name, and of the name with one more element.
  function Elems(s: seq<byte>): seq<Elem> { Fold(IsRooted(s), [], Split(s)) }

  lemma OneMore(s: seq<byte>, e: Elem)
    requires s != [] && SLASH !in e
    ensures IsRooted(s + [SLASH] + e) == IsRooted(s)
    ensures Elems(s + [SLASH] + e) == Push(IsRooted(s), Elems(s), e)
  {
    SplitAppend(s, e);
    FoldAppend(IsRooted(s), [], Split(s), e);
  }

  // ".." after an element takes it back.
  lemma DotDotUndoes(s: seq<byte>, x: Elem)
    requires s != [] && Real(x) && x != Dots()
    ensures Clean(s + [SLASH] + x + [SLASH] + Dots()) == Clean(s)
  {
    OneMore(s, x);
    OneMore(s + [SLASH] + x, Dots());
    assert (Elems(s) + [x])[..|Elems(s)|] == Elems(s);
  }

  // A "." and an empty element are nothing.
  lemma DotIsNothing(s: seq<byte>)
    requires s != []
    ensures Clean(s + [SLASH]) == Clean(s) && Clean(s + [SLASH] + [DOT]) == Clean(s)
  {
    OneMore(s, []);
    OneMore(s, [DOT]);
    assert s + [SLASH] + [] == s + [SLASH];
  }

  lemma ElemsStack(s: seq<byte>)
    ensures Stack(IsRooted(s), Elems(s))
    ensures Elems(s) != [] ==> Join(Elems(s)) != [] && Join(Elems(s))[0] != SLASH
  {
    SplitElems(s);
    FoldStack(IsRooted(s), [], Split(s));
    if Elems(s) != [] { JoinNotEmpty(Elems(s)); }
  }

  // ".." at the root is the root.
  lemma DotDotAtRoot(s: seq<byte>)
    requires s != [] && Clean(s) == [SLASH]
    ensures Clean(s + [SLASH] + Dots()) == [SLASH]
  {
    ElemsStack(s);
    OneMore(s, Dots());
    assert Root(true) + Join(Elems(s)) == [SLASH] ==> Join(Elems(s)) == [];
  }

  lemma JoinNotDot(st: seq<Elem>)
    requires st != [] && forall i :: 0 <= i < |st| ==> Real(st[i])
    ensures Join(st) != [DOT]
  {
    SplitJoin(st, []);
    SplitPiece([DOT], []);
    assert Join(st) + [] == Join(st) && [DOT] + [] == [DOT] && st + After([]) == st;
  }

  // ".." with nothing to take back stays.
  lemma DotDotAlone(s: seq<byte>)
    requires s != [] && Clean(s) == [DOT]
    ensures Clean(s + [SLASH] + Dots()) == Dots()
  {
    OneMore(s, Dots());
    ElemsStack(s);
    var st := Elems(s);
    assert !IsRooted(s);
    if st != [] { JoinNotDot(st); }
    assert [] + [Dots()] == [Dots()] && Join([Dots()]) == Dots();
  }

  // And one more is added to those that stayed.
  lemma DotDotStays(s: seq<byte>, t: seq<byte>)
    requires s != [] && !IsRooted(s) && (Clean(s) == Dots() || Clean(s) == t + [SLASH] + Dots())
    ensures Clean(s + [SLASH] + Dots()) == Clean(s) + [SLASH] + Dots()
  {
    OneMore(s, Dots());
    ElemsStack(s);
    var st := Elems(s);
    LastIsDots(s, t);
    JoinMore(st, Dots());
    assert Show(false, st) == Join(st) && Show(false, st + [Dots()]) == Join(st + [Dots()]);
  }

  lemma LastIsDots(s: seq<byte>, t: seq<byte>)
    requires !IsRooted(s) && (Clean(s) == Dots() || Clean(s) == t + [SLASH] + Dots())
    ensures var st := Elems(s); st != [] && st[|st| - 1] == Dots()
  {
    var st := Elems(s);
    ElemsStack(s);
    assert Show(false, st) == Join(st);
    assert st != [];
    SplitJoin(st, []);
    assert Join(st) + [] == Join(st) && st + After([]) == st;
    if Clean(s) == Dots() {
      SplitPiece(Dots(), []);
      assert Dots() + [] == Dots();
    } else {
      SplitAppend(t, Dots());
    }
  }

  function Kept(e: Elem): seq<Elem> { if e == [] || e == [DOT] then [] else [e] }

  // The elements that count.
  function Reals(es: seq<Elem>): seq<Elem>
  {
    if es == [] then [] else Kept(es[0]) + Reals(es[1..])
  }

  lemma PushKept(rooted: bool, st: seq<Elem>, e: Elem)
    requires e != Dots()
    ensures Push(rooted, st, e) == st + Kept(e)
  {
  }

  lemma {:induction false} FoldReals(rooted: bool, st: seq<Elem>, es: seq<Elem>)
    requires Dots() !in es
    ensures Fold(rooted, st, es) == st + Reals(es)
    decreases |es|
  {
    if es == [] {
      assert st + [] == st;
    } else {
      assert es[0] in es && forall e :: e in es[1..] ==> e in es;
      PushKept(rooted, st, es[0]);
      FoldReals(rooted, st + Kept(es[0]), es[1..]);
      Regroup3(st, Kept(es[0]), Reals(es[1..]));
    }
  }

  lemma Regroup3(a: seq<Elem>, b: seq<Elem>, c: seq<Elem>)
    ensures a + b + c == a + (b + c)
  {
  }

  // A name without ".." becomes its real elements, in order, with a slash between.
  lemma PlainClean(s: seq<byte>)
    requires Dots() !in Split(s)
    ensures var r := (if IsRooted(s) then [SLASH] else []) + Join(Reals(Split(s)));
            Clean(s) == if r == [] then [DOT] else r
  {
    FoldReals(IsRooted(s), [], Split(s));
    assert [] + Reals(Split(s)) == Reals(Split(s));
  }

  // -- in place ---------------------------------------------------------------------------

  // A byte that ends an element: a slash or the NUL.
  predicate Sep(c: byte) { c == SLASH || c == 0 }

  // The string at the start of a buffer has n bytes.
  ghost predicate IsString(a: array<byte>, n: nat)
    reads a
  {
    n < a.Length && a[n] == 0 && 0 !in a[..n]
  }

  // The first k elements of the stack are its "..", and dotdot is just past them.
  ghost predicate DotsTo(rooted: bool, st: seq<Elem>, k: nat, dotdot: nat)
  {
    && k <= |st| && (forall i :: 0 <= i < k ==> st[i] == Dots()) && (forall i :: k <= i < |st| ==> st[i] != Dots())
    && dotdot == |Show(rooted, st[..k])|
  }

  lemma {:induction false} JoinPrefix(st: seq<Elem>, k: nat)
    requires k <= |st| && forall i :: 0 <= i < |st| ==> st[i] != []
    ensures |Join(st[..k])| <= |Join(st)| && (k < |st| ==> |Join(st[..k])| < |Join(st)|)
    decreases |st| - k
  {
    if k < |st| {
      assert st[..k + 1] == st[..k] + [st[k]];
      JoinMore(st[..k], st[k]);
      JoinPrefix(st, k + 1);
    } else {
      assert st[..k] == st;
    }
  }

  // Past the dots there is something to backtrack over exactly if q is past dotdot.
  lemma CanBacktrack(rooted: bool, st: seq<Elem>, k: nat, dotdot: nat, q: nat)
    requires Stack(rooted, st) && DotsTo(rooted, st, k, dotdot) && q == |Show(rooted, st)|
    ensures q > dotdot <==> k < |st|
  {
    JoinPrefix(st, k);
    assert k == |st| ==> st[..k] == st;
  }

  // All but the last element, and the last.
  function Rest(st: seq<Elem>): seq<Elem>
    requires st != []
  {
    st[..|st| - 1]
  }

  lemma PopDots(rooted: bool, st: seq<Elem>, k: nat, dotdot: nat)
    requires DotsTo(rooted, st, k, dotdot) && k < |st|
    ensures DotsTo(rooted, Rest(st), k, dotdot)
  {
    assert Rest(st)[..k] == st[..k];
  }

  lemma PopBound(rooted: bool, st: seq<Elem>, k: nat, dotdot: nat)
    requires Stack(rooted, st) && DotsTo(rooted, st, k, dotdot)
    ensures dotdot <= |Show(rooted, st)|
    ensures st == [] ==> dotdot == |Show(rooted, st)|
  {
    JoinPrefix(st, k);
  }

  lemma StackRest(rooted: bool, st: seq<Elem>)
    requires Stack(rooted, st) && st != []
    ensures Stack(rooted, Rest(st)) && SLASH !in st[|st| - 1] && Rest(st) + [st[|st| - 1]] == st
  {
  }

  // Where to backtrack to.
  lemma PopTo(rooted: bool, st: seq<Elem>, k: nat, dotdot: nat, r: seq<byte>) returns (t: nat)
    requires Stack(rooted, st) && DotsTo(rooted, st, k, dotdot) && k < |st| && r == Show(rooted, st)
    ensures dotdot <= t <= |r| && r[..t] == Show(rooted, Rest(st)) && DotsTo(rooted, Rest(st), k, dotdot)
    ensures t == dotdot || (t < |r| && r[t] == SLASH)
    ensures forall i :: t < i < |r| ==> r[i] != SLASH
  {
    t := |Show(rooted, Rest(st))|;
    StackRest(rooted, st);
    ShowPop(rooted, Rest(st), st[|st| - 1], r);
    PopDots(rooted, st, k, dotdot);
    PopBound(rooted, Rest(st), k, dotdot);
  }

  // The last element is taken off what is written.
  method Backtrack(a: array<byte>, q: nat, dotdot: nat, ghost rooted: bool, ghost st: seq<Elem>, ghost k: nat)
    returns (q': nat)
    requires Stack(rooted, st) && DotsTo(rooted, st, k, dotdot) && k < |st|
    requires q <= a.Length && a[..q] == Show(rooted, st) && q > dotdot
    ensures q' < q && a[..q'] == Show(rooted, Rest(st)) && DotsTo(rooted, Rest(st), k, dotdot)
  {
    ghost var t := PopTo(rooted, st, k, dotdot, a[..q]);
    q' := BackTo(a, q, dotdot, t);
    assert a[..q'] == a[..q][..q'];
  }

  method BackTo(a: array<byte>, q: nat, dotdot: nat, ghost t: nat) returns (q': nat)
    requires dotdot <= t <= q <= a.Length && dotdot < q && (t == dotdot || (t < q && a[t] == SLASH))
    requires forall i :: t < i < q ==> a[i] != SLASH
    ensures q' == t < q
  {
    q' := q - 1;
    while q' > dotdot && a[q'] != SLASH
      invariant t <= q' < q
    {
      q' := q' - 1;
    }
  }

  // Where the last element shown begins: at its slash, or at the start.
  lemma ShowPop(rooted: bool, pre: seq<Elem>, e: Elem, r: seq<byte>)
    requires r == Show(rooted, pre + [e]) && SLASH !in e
    ensures var t := |Show(rooted, pre)|;
      && t <= |r| && r[..t] == Show(rooted, pre)
      && (pre != [] ==> t < |r| && r[t] == SLASH)
      && (forall i :: t < i < |r| ==> r[i] != SLASH)
      && (pre == [] ==> forall i :: t <= i < |r| ==> r[i] != SLASH)
  {
    JoinMore(pre, e);
    var sep := if pre == [] then [] else [SLASH];
    assert r == Show(rooted, pre) + sep + e;
    LastPart(Show(rooted, pre), sep, e);
  }

  lemma LastPart(x: seq<byte>, sep: seq<byte>, e: Elem)
    requires SLASH !in e && (sep == [] || sep == [SLASH])
    ensures var r := x + sep + e;
      && r[..|x|] == x && (sep != [] ==> |x| < |r| && r[|x|] == SLASH)
      && forall i :: |x| + |sep| <= i < |r| ==> r[i] != SLASH
  {
    var r := x + sep + e;
    forall i | |x| + |sep| <= i < |r| ensures r[i] != SLASH {
      assert r[i] == e[i - |x| - |sep|];
    }
  }

  // An element written after what is there.
  lemma ShowPush(rooted: bool, st: seq<Elem>, e: Elem)
    ensures Show(rooted, st + [e]) == Show(rooted, st) + (if st == [] then [] else [SLASH]) + e
  {
    JoinMore(st, e);
  }

  // Bytes p to the next separator go to q on, and the separator after them.
  method CopyElement(a: array<byte>, p: nat, q: nat, ghost n: nat) returns (p': nat, q': nat)
    requires q <= p <= n < a.Length && a[n] == 0 && 0 !in a[p..n]
    modifies a
    ensures p <= p' <= n && q' == q + (p' - p)
    ensures a[..q'] == old(a[..q] + a[p..p']) && a[p'..] == old(a[p'..])
    ensures forall i :: p' <= i < a.Length ==> a[i] == old(a[i])
    ensures Sep(a[p']) && SLASH !in old(a[p..p']) && (p' < n ==> a[p'] == SLASH)
  {
    ghost var was := a[..];
    p', q' := CopyBytes(a, p, q, n);
    Copied(a[..], was, p, q, p', q');
    InText(was, p, n, p');
  }

  method CopyBytes(a: array<byte>, p: nat, q: nat, ghost n: nat) returns (p': nat, q': nat)
    requires q <= p <= n < a.Length && a[n] == 0
    modifies a
    ensures p <= p' <= n && q' == p' - (p - q) && a[q'] == old(a[p']) && Sep(a[q'])
    ensures forall i :: p <= i < p' ==> old(a[i]) != SLASH
    ensures forall i :: q <= i < q' ==> a[i] == old(a[i + (p - q)])
    ensures forall i :: 0 <= i < q || q' < i < a.Length ==> a[i] == old(a[i])
  {
    p', q' := p, q;
    a[q] := a[p];
    while a[q'] != SLASH && a[q'] != 0
      invariant p <= p' <= n && q' == p' - (p - q) && a[q'] == old(a[p'])
      invariant forall i :: p <= i < p' ==> old(a[i]) != SLASH
      invariant forall i :: q <= i < q' ==> a[i] == old(a[i + (p - q)])
      invariant forall i :: 0 <= i < q || q' < i < a.Length ==> a[i] == old(a[i])
      decreases n - p'
    {
      p', q' := p' + 1, q' + 1;
      a[q'] := a[p'];
    }
  }

  lemma InText(was: seq<byte>, p: nat, n: nat, i: nat)
    requires p <= i <= n < |was| && 0 !in was[p..n]
    ensures i < n ==> was[i] != 0
  {
    assert i < n ==> was[p..n][i - p] == was[i];
  }

  lemma Copied(now: seq<byte>, was: seq<byte>, p: nat, q: nat, p': nat, q': nat)
    requires q <= p <= p' < |was| == |now| && q' == p' - (p - q) && now[q'] == was[p']
    requires forall i :: p <= i < p' ==> was[i] != SLASH
    requires forall i :: q <= i < q' ==> now[i] == was[i + (p - q)]
    requires forall i :: 0 <= i < q || q' < i < |now| ==> now[i] == was[i]
    ensures now[..q'] == was[..q] + was[p..p'] && now[p'..] == was[p'..] && SLASH !in was[p..p']
  {
    forall i | q <= i < q' ensures now[..q'][i] == was[p..p'][i - q] {
      assert now[i] == was[i + (p - q)];
    }
  }

  // Halfway: s[p..] is still to be read, and is where it was; what has been read
  // is folded in st and shown before q, which is behind p.
  ghost predicate Going(s: seq<byte>, buf: seq<byte>, p: nat, q: nat, dotdot: nat, st: seq<Elem>, k: nat)
  {
    forall u: int {:trigger Key(u)} :: Key(u) ==>
      var rooted := IsRooted(s);
      && q <= p <= |s| < |buf| && buf[p..|s|] == s[p..] && buf[|s|] == 0
      && (q == p ==> p == |Root(rooted)| || Sep(buf[p]))
      && Stack(rooted, st) && buf[..q] == Show(rooted, st) && DotsTo(rooted, st, k, dotdot)
      && Fold(rooted, st, Split(s[p..])) == Fold(rooted, [], Split(s))
  }

  // Opens Going.
  predicate Key(u: int) { true }

  lemma GoingBytes(s: seq<byte>, buf: seq<byte>, p: nat, q: nat, dotdot: nat, st: seq<Elem>, k: nat)
    requires Going(s, buf, p, q, dotdot, st, k)
    ensures q <= p <= |s| < |buf| && buf[|s|] == 0
    ensures (p < |s| ==> s[p] == buf[p]) && (p + 1 < |s| ==> s[p + 1] == buf[p + 1])
    ensures p + 2 < |s| ==> s[p + 2] == buf[p + 2]
  {
    assert Key(0);
    if p < |s| { AtByte(s, buf, p); }
  }

  lemma GoingFirst(s: seq<byte>, buf: seq<byte>)
    requires |s| < |buf| && buf[..|s|] == s && buf[|s|] == 0
    ensures var p := |Root(IsRooted(s))|; Going(s, buf, p, p, p, [], 0)
  {
    if IsRooted(s) {
      FoldSlash(true, [], s);
    } else {
      assert s[0..] == s;
    }
  }

  // The element at p has been read: folding goes on with it pushed.
  lemma GoingPast(s: seq<byte>, p: nat, p': nat, rooted: bool, st: seq<Elem>)
    requires p <= p' <= |s| && SLASH !in s[p..p'] && (p' == |s| || s[p'] == SLASH)
    requires Fold(rooted, st, Split(s[p..])) == Fold(rooted, [], Split(s))
    ensures Fold(rooted, Push(rooted, st, s[p..p']), Split(s[p'..])) == Fold(rooted, [], Split(s))
  {
    assert s[p..] == s[p..p'] + s[p'..];
    FoldPiece(rooted, st, s[p..p'], s[p'..]);
  }

  // Popping or dropping or keeping "..".
  lemma GoingDots(s: seq<byte>, p: nat, st: seq<Elem>)
    requires p + 2 <= |s| && s[p] == DOT && s[p + 1] == DOT && (p + 2 == |s| || s[p + 2] == SLASH)
    requires Fold(IsRooted(s), st, Split(s[p..])) == Fold(IsRooted(s), [], Split(s)) && Stack(IsRooted(s), st)
    ensures Fold(IsRooted(s), Push(IsRooted(s), st, Dots()), Split(s[p + 2..])) == Fold(IsRooted(s), [], Split(s))
    ensures Stack(IsRooted(s), Push(IsRooted(s), st, Dots()))
  {
    assert s[p..p + 2] == Dots();
    GoingPast(s, p, p + 2, IsRooted(s), st);
    PushStack(IsRooted(s), st, Dots());
  }

  method PutDots(a: array<byte>, q: nat) returns (q': nat)
    requires q + 2 <= a.Length
    modifies a
    ensures q' == q + 2 && a[..q'] == old(a[..q]) + Dots()
    ensures forall i :: q' <= i < a.Length ==> a[i] == old(a[i])
  {
    q' := q;
    a[q'] := DOT;
    q' := q' + 1;
    a[q'] := DOT;
    q' := q' + 1;
  }

  // "../" goes in front of what comes next.
  method WriteDots(a: array<byte>, q: nat, ghost st: seq<Elem>) returns (q': nat)
    requires q + 3 <= a.Length || (q == 0 && 2 <= a.Length)
    requires q <= a.Length && a[..q] == Show(false, st) && (q == 0 <==> st == [])
    modifies a
    ensures q' == (if q == 0 then 2 else q + 3) <= a.Length && a[..q'] == Show(false, st + [Dots()])
    ensures forall i :: q' <= i < a.Length ==> a[i] == old(a[i])
  {
    q' := q;
    if q' != 0 {
      a[q'] := SLASH;
      q' := q' + 1;
    }
    assert a[..q'] == old(a[..q]) + Separator(st);
    q' := PutDots(a, q');
    ShowPush(false, st, Dots());
  }

  // What ".." does to the stack: off with the last that is not "..", or one more
  // of those, or nothing at the root.
  lemma PushDots(rooted: bool, st: seq<Elem>, k: nat, dotdot: nat)
    requires Stack(rooted, st) && DotsTo(rooted, st, k, dotdot)
    ensures k < |st| ==> Push(rooted, st, Dots()) == Rest(st)
    ensures k == |st| && rooted ==> Push(rooted, st, Dots()) == st
    ensures k == |st| && !rooted ==>
              && Push(rooted, st, Dots()) == st + [Dots()]
              && DotsTo(rooted, st + [Dots()], k + 1, |Show(rooted, st + [Dots()])|)
  {
    if k == |st| { assert (st + [Dots()])[..k + 1] == st + [Dots()]; }
  }

  // ".." at p.
  method DotDot(a: array<byte>, ghost s: seq<byte>, p: nat, q: nat, dotdot: nat, rooted: bool, ghost st: seq<Elem>,
                ghost k: nat)
    returns (q': nat, dotdot': nat, ghost st': seq<Elem>, ghost k': nat)
    requires rooted == IsRooted(s) && Going(s, a[..], p, q, dotdot, st, k) && |s| < a.Length
    requires p + 2 <= |s| && a[p] == DOT && a[p + 1] == DOT && Sep(a[p + 2]) && (p + 2 == |s| || s[p + 2] == SLASH)
    modifies a
    ensures Going(s, a[..], p + 2, q', dotdot', st', k')
    ensures forall i :: |s| <= i < a.Length ==> a[i] == old(a[i])
  {
    GoingShown(s, a[..], p, q, dotdot, st, k);
    CanBacktrack(rooted, st, k, dotdot, q);
    ghost var was := a[..];
    PushDots(rooted, st, k, dotdot);
    q', dotdot', st', k' := q, dotdot, Push(rooted, st, Dots()), k;
    if q > dotdot {
      q' := Backtrack(a, q, dotdot, rooted, st, k);
    } else if !rooted {
      q' := WriteDots(a, q, st);
      dotdot', k' := q', k + 1;
    }
    DotsGoing(s, was, a[..], p, q, dotdot, st, k, q', dotdot', st', k');
  }

  lemma GoingShown(s: seq<byte>, buf: seq<byte>, p: nat, q: nat, dotdot: nat, st: seq<Elem>, k: nat)
    requires Going(s, buf, p, q, dotdot, st, k) && p < |s| < |buf| && !Sep(buf[p])
    ensures Stack(IsRooted(s), st) && q <= p && buf[..q] == Show(IsRooted(s), st) && DotsTo(IsRooted(s), st, k, dotdot)
    ensures q == |Root(IsRooted(s))| || q < p
    ensures q == |Root(IsRooted(s))| <==> st == []
  {
    assert Key(0);
    NothingShown(IsRooted(s), st);
  }

  lemma DotsGoing(s: seq<byte>, was: seq<byte>, buf: seq<byte>, p: nat, q: nat, dotdot: nat, st: seq<Elem>, k: nat,
    q': nat, dotdot': nat, st': seq<Elem>, k': nat)
    requires Going(s, was, p, q, dotdot, st, k) && p + 2 <= |s| < |was| == |buf|
    requires was[p] == DOT && was[p + 1] == DOT && Sep(was[p + 2]) && (p + 2 == |s| || s[p + 2] == SLASH)
    requires forall i :: p + 2 <= i < |buf| ==> buf[i] == was[i]
    requires st' == Push(IsRooted(s), st, Dots()) && q' <= p + 2 && buf[..q'] == Show(IsRooted(s), st')
    requires DotsTo(IsRooted(s), st', k', dotdot')
    ensures Going(s, buf, p + 2, q', dotdot', st', k')
  {
    assert Key(0);
    AtByte(s, was, p);
    GoingDots(s, p, st);
    RestStays(s, was, buf, p);
  }

  lemma RestStays(s: seq<byte>, was: seq<byte>, buf: seq<byte>, p: nat)
    requires p + 2 <= |s| < |was| == |buf| && was[p..|s|] == s[p..]
    requires forall i :: p + 2 <= i < |buf| ==> buf[i] == was[i]
    ensures buf[p + 2..|s|] == s[p + 2..]
  {
    assert buf[p + 2..|s|] == was[p + 2..|s|] == was[p..|s|][2..] == s[p..][2..];
  }

  lemma GoingAt(s: seq<byte>, buf: seq<byte>, p: nat, q: nat, dotdot: nat, st: seq<Elem>, k: nat)
    requires Going(s, buf, p, q, dotdot, st, k) && 0 !in s && p < |s| < |buf|
    ensures Stack(IsRooted(s), st) && DotsTo(IsRooted(s), st, k, dotdot)
    ensures Fold(IsRooted(s), st, Split(s[p..])) == Fold(IsRooted(s), [], Split(s))
    ensures buf[p..|s|] == s[p..] && 0 !in s[p..]
  {
    assert Key(0);
  }

  // A real element at p.
  method Element(a: array<byte>, ghost s: seq<byte>, p: nat, q: nat, ghost dotdot: nat, rooted: bool,
                 ghost st: seq<Elem>, ghost k: nat)
    returns (p': nat, q': nat, ghost st': seq<Elem>)
    requires rooted == IsRooted(s) && Going(s, a[..], p, q, dotdot, st, k) && 0 !in s && |s| < a.Length
    requires p < |s| && a[|s|] == 0 && a[p] != SLASH && !(a[p] == DOT && Sep(a[p + 1]))
    requires p + 2 <= |s| ==> !(a[p] == DOT && a[p + 1] == DOT && Sep(a[p + 2]))
    modifies a
    ensures p < p' && Going(s, a[..], p', q', dotdot, st', k)
    ensures forall i :: |s| <= i < a.Length ==> a[i] == old(a[i])
  {
    ghost var was := a[..];
    GoingAt(s, was, p, q, dotdot, st, k);
    q' := Slash(a, s, p, q, dotdot, rooted, st, k);
    ghost var mid, q1 := a[..], q';
    assert mid[p..|s|] == was[p..][..|s| - p] == was[p..|s|];
    p', q' := CopyElement(a, p, q', |s|);
    st' := st + [s[p..p']];
    ElementGoing(s, was, mid, a[..], p, p', q1, q', dotdot, rooted, st, k);
  }

  // The slash before it, unless it is the first.
  method Slash(a: array<byte>, ghost s: seq<byte>, p: nat, q: nat, ghost dotdot: nat, rooted: bool,
               ghost st: seq<Elem>, ghost k: nat)
    returns (q': nat)
    requires rooted == IsRooted(s) && Going(s, a[..], p, q, dotdot, st, k) && p < |s| < a.Length && !Sep(a[p])
    modifies a
    ensures q' <= p && a[..q'] == Show(rooted, st) + Separator(st) && a[p..] == old(a[p..])
    ensures forall i :: p <= i < a.Length ==> a[i] == old(a[i])
  {
    assert Key(0);
    NothingShown(rooted, st);
    q' := q;
    if q' != (if rooted then 1 else 0) {
      a[q'] := SLASH;
      q' := q' + 1;
    }
    assert a[..q'] == old(a[..q]) + Separator(st);
  }

  function Separator(st: seq<Elem>): seq<byte> { if st == [] then [] else [SLASH] }

  lemma ElementGoing(s: seq<byte>, was: seq<byte>, mid: seq<byte>, buf: seq<byte>, p: nat, p': nat, q1: nat, q': nat,
    dotdot: nat, rooted: bool, st: seq<Elem>, k: nat)
    requires rooted == IsRooted(s) && q1 <= p <= p' <= |s| < |was| == |mid| == |buf| && p < |s|
    requires Stack(rooted, st) && DotsTo(rooted, st, k, dotdot)
    requires Fold(rooted, st, Split(s[p..])) == Fold(rooted, [], Split(s))
    requires was[p..|s|] == s[p..] && was[|s|] == 0 && mid[p..] == was[p..] && buf[p'..] == mid[p'..]
    requires mid[..q1] == Show(rooted, st) + Separator(st) && q' == q1 + (p' - p) && buf[..q'] == mid[..q1] + mid[p..p']
    requires Sep(buf[p']) && SLASH !in mid[p..p'] && (p' < |s| ==> buf[p'] == SLASH) && was[p] != SLASH
    requires !(was[p] == DOT && Sep(was[p + 1]))
    requires p + 2 <= |s| ==> !(was[p] == DOT && was[p + 1] == DOT && Sep(was[p + 2]))
    ensures p < p' && Going(s, buf, p', q', dotdot, st + [s[p..p']], k)
  {
    var e := s[p..p'];
    assert was[..|s|][p..] == was[p..|s|];
    Slices(s, was, mid, buf, p, p');
    NotDots(s, was, p, p');
    ElementPushed(s, p, p', rooted, st, k, dotdot);
    ShowPush(rooted, st, e);
  }

  // The parts of the name, through the two changes of the buffer.
  lemma Slices(s: seq<byte>, was: seq<byte>, mid: seq<byte>, buf: seq<byte>, p: nat, p': nat)
    requires p <= p' <= |s| < |was| == |mid| == |buf|
    requires was[..|s|][p..] == s[p..] && mid[p..] == was[p..] && buf[p'..] == mid[p'..]
    ensures mid[p..p'] == s[p..p'] && buf[p'..|s|] == s[p'..] && buf[|s|] == was[|s|]
    ensures p' < |s| ==> s[p'] == buf[p']
  {
    SuffixAt(s, was[..|s|], p);
    SuffixAt(mid, was, p);
    SuffixAt(buf, mid, p');
  }

  lemma SuffixAt(x: seq<byte>, y: seq<byte>, p: nat)
    requires p <= |x| == |y| && x[p..] == y[p..]
    ensures forall i :: p <= i < |x| ==> x[i] == y[i]
  {
    forall i | p <= i < |x| ensures x[i] == y[i] {
      assert x[p..][i - p] == y[p..][i - p];
    }
  }

  lemma NotDots(s: seq<byte>, buf: seq<byte>, p: nat, p': nat)
    requires p <= p' <= |s| < |buf| && p < |s| && buf[p..|s|] == s[p..] && buf[|s|] == 0
    requires (p' == |s| || s[p'] == SLASH) && buf[p] != SLASH
    requires !(buf[p] == DOT && Sep(buf[p + 1]))
    requires p + 2 <= |s| ==> !(buf[p] == DOT && buf[p + 1] == DOT && Sep(buf[p + 2]))
    ensures p < p' && s[p..p'] != [DOT] && s[p..p'] != Dots()
  {
    AtByte(s, buf, p);
    assert p < p' && s[p..p'][0] == s[p];
    assert p + 1 < p' ==> s[p..p'][1] == s[p + 1];
  }

  // Nothing on the stack: only the root is shown.
  lemma NothingShown(rooted: bool, st: seq<Elem>)
    requires Stack(rooted, st)
    ensures |Show(rooted, st)| == |Root(rooted)| <==> st == []
  {
    if st != [] { JoinNotEmpty(st); }
  }

  lemma AtByte(s: seq<byte>, buf: seq<byte>, p: nat)
    requires p < |s| < |buf| && buf[p..|s|] == s[p..]
    ensures s[p] == buf[p] && (p + 1 < |s| ==> s[p + 1] == buf[p + 1]) && (p + 2 < |s| ==> s[p + 2] == buf[p + 2])
  {
    assert s[p..][0] == buf[p..|s|][0];
    assert p + 1 < |s| ==> s[p..][1] == buf[p..|s|][1];
    assert p + 2 < |s| ==> s[p..][2] == buf[p..|s|][2];
  }

  lemma ElementPushed(s: seq<byte>, p: nat, p': nat, rooted: bool, st: seq<Elem>, k: nat, dotdot: nat)
    requires rooted == IsRooted(s) && p < p' <= |s| && SLASH !in s[p..p'] && (p' == |s| || s[p'] == SLASH)
    requires s[p..p'] != [DOT] && s[p..p'] != Dots()
    requires Stack(rooted, st) && DotsTo(rooted, st, k, dotdot)
    requires Fold(rooted, st, Split(s[p..])) == Fold(rooted, [], Split(s))
    ensures Fold(rooted, st + [s[p..p']], Split(s[p'..])) == Fold(rooted, [], Split(s))
    ensures Stack(rooted, st + [s[p..p']]) && DotsTo(rooted, st + [s[p..p']], k, dotdot)
  {
    GoingPast(s, p, p', rooted, st);
    PushStack(rooted, st, s[p..p']);
    assert (st + [s[p..p']])[..k] == st[..k];
  }

  // No NUL appears.
  lemma {:induction false} SplitFree(s: seq<byte>)
    requires 0 !in s
    ensures forall i :: 0 <= i < |Split(s)| ==> 0 !in Split(s)[i]
    decreases |s|
  {
    if s != [] {
      SplitFree(s[1..]);
      var es := Split(s[1..]);
      assert s[0] in s;
      if s[0] != SLASH {
        assert 0 !in [s[0]] + es[0];
      }
    }
  }

  lemma {:induction false} FoldFree(rooted: bool, st: seq<Elem>, es: seq<Elem>)
    requires (forall i :: 0 <= i < |es| ==> 0 !in es[i]) && (forall i :: 0 <= i < |st| ==> 0 !in st[i])
    ensures forall i :: 0 <= i < |Fold(rooted, st, es)| ==> 0 !in Fold(rooted, st, es)[i]
    decreases |es|
  {
    if es != [] {
      FoldFree(rooted, Push(rooted, st, es[0]), es[1..]);
    }
  }

  lemma {:induction false} JoinFree(st: seq<Elem>)
    requires forall i :: 0 <= i < |st| ==> 0 !in st[i]
    ensures 0 !in Join(st)
    decreases |st|
  {
    if |st| > 1 {
      JoinFree(st[..|st| - 1]);
    }
  }

  lemma CleanFree(s: seq<byte>)
    requires 0 !in s
    ensures 0 !in Clean(s)
  {
    SplitFree(s);
    FoldFree(IsRooted(s), [], Split(s));
    JoinFree(Fold(IsRooted(s), [], Split(s)));
  }

  // A slash or a dot stepped over.
  lemma GoingOn(s: seq<byte>, buf: seq<byte>, p: nat, q: nat, dotdot: nat, st: seq<Elem>, k: nat)
    requires Going(s, buf, p, q, dotdot, st, k) && p < |s|
    requires s[p] == SLASH || s[p] == DOT
    requires Fold(IsRooted(s), st, Split(s[p + 1..])) == Fold(IsRooted(s), [], Split(s))
    ensures Going(s, buf, p + 1, q, dotdot, st, k)
  {
    assert Key(0);
    assert buf[p + 1..|s|] == buf[p..|s|][1..] == s[p..][1..] == s[p + 1..];
  }

  lemma StepSlash(s: seq<byte>, buf: seq<byte>, p: nat, q: nat, dotdot: nat, st: seq<Elem>, k: nat)
    requires Going(s, buf, p, q, dotdot, st, k) && p < |s| && s[p] == SLASH
    ensures Going(s, buf, p + 1, q, dotdot, st, k)
  {
    assert Key(0);
    FoldSlash(IsRooted(s), st, s[p..]);
    assert s[p..][1..] == s[p + 1..];
    GoingOn(s, buf, p, q, dotdot, st, k);
  }

  lemma OneDot(s: seq<byte>, buf: seq<byte>, p: nat, q: nat, dotdot: nat, st: seq<Elem>, k: nat)
    requires Going(s, buf, p, q, dotdot, st, k) && p < |s| && s[p] == DOT && (p + 1 == |s| || s[p + 1] == SLASH)
    ensures Fold(IsRooted(s), st, Split(s[p + 1..])) == Fold(IsRooted(s), [], Split(s))
  {
    assert Fold(IsRooted(s), st, Split(s[p..])) == Fold(IsRooted(s), [], Split(s)) by { assert Key(0); }
    assert s[p..p + 1] == [s[p]];
    GoingPast(s, p, p + 1, IsRooted(s), st);
  }

  lemma StepDot(s: seq<byte>, buf: seq<byte>, p: nat, q: nat, dotdot: nat, st: seq<Elem>, k: nat)
    requires Going(s, buf, p, q, dotdot, st, k) && p < |s| < |buf| && s[p] == DOT && (p + 1 == |s| || s[p + 1] == SLASH)
    ensures Going(s, buf, p + 1, q, dotdot, st, k)
  {
    OneDot(s, buf, p, q, dotdot, st, k);
    GoingOn(s, buf, p, q, dotdot, st, k);
  }

  lemma AtEnd(s: seq<byte>, buf: seq<byte>, p: nat, q: nat, dotdot: nat, st: seq<Elem>, k: nat)
    requires Going(s, buf, p, q, dotdot, st, k) && 0 !in s && p < |buf| && buf[p] == 0
    ensures p == |s| && Fold(IsRooted(s), [], Split(s)) == st && q <= p && buf[..q] == Show(IsRooted(s), st)
  {
    assert Key(0);
    if p < |s| {
      AtByte(s, buf, p);
    }
    assert s[p..] == [] && Split([])[1..] == [];
  }

  // The loop: the name read to its end, and what to show of it written.
  method Walk(a: array<byte>, ghost n: nat) returns (q: nat)
    requires IsString(a, n)
    modifies a
    ensures q <= n && a[..q] == Show(IsRooted(old(a[..n])), Fold(IsRooted(old(a[..n])), [], Split(old(a[..n]))))
    ensures forall i :: n <= i < a.Length ==> a[i] == old(a[i])
  {
    ghost var s := a[..n];
    var rooted := a[0] == SLASH;
    assert n > 0 ==> s[0] == a[0];
    var p: nat := if rooted then 1 else 0;
    var dotdot: nat;
    q, dotdot := p, p;
    ghost var st: seq<Elem>, k: nat := [], 0;
    GoingFirst(s, a[..]);
    GoingBytes(s, a[..], p, q, dotdot, st, k);
    while a[p] != 0
      invariant Going(s, a[..], p, q, dotdot, st, k) && p <= n
      invariant forall i :: n <= i < a.Length ==> a[i] == old(a[i])
      decreases n - p
    {
      GoingBytes(s, a[..], p, q, dotdot, st, k);
      if a[p] == SLASH {
        StepSlash(s, a[..], p, q, dotdot, st, k);
        p := p + 1;
      } else if a[p] == DOT && Sep(a[p + 1]) {
        assert p + 1 < |s| ==> s[p + 1] in s;
        StepDot(s, a[..], p, q, dotdot, st, k);
        p := p + 1;
      } else if a[p] == DOT && a[p + 1] == DOT && Sep(a[p + 2]) {
        assert p + 2 < |s| ==> s[p + 2] in s;
        q, dotdot, st, k := DotDot(a, s, p, q, dotdot, rooted, st, k);
        p := p + 2;
      } else {
        p, q, st := Element(a, s, p, q, dotdot, rooted, st, k);
        GoingBytes(s, a[..], p, q, dotdot, st, k);
      }
    }
    AtEnd(s, a[..], p, q, dotdot, st, k);
  }

  // The name cleaned where it is; a name of n bytes becomes one of m, at most n
  // unless it was empty.  What follows the old name's NUL is not touched, but
  // for the second byte of an empty name's buffer.
  method Cleanname(a: array<byte>, ghost n: nat) returns (ghost m: nat)
    requires IsString(a, n) && a.Length >= 2
    modifies a
    ensures IsString(a, m) && a[..m] == Clean(old(a[..n])) && (m <= n || (n == 0 && m == 1))
    ensures forall i :: n < i < a.Length && i != 1 ==> a[i] == old(a[i])
  {
    ghost var s := a[..n];
    var q := Walk(a, n);
    CleanFree(s);
    if q == 0 {
      a[q] := DOT;
      q := q + 1;
    }
    assert a[..q] == Clean(s);
    a[q] := 0;
    m := q;
    assert a[..m] == Clean(s);
  }
}
