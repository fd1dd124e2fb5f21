// Quoting a string for printing, and the tokenizer that takes quotes off.
module Quote {
  import opened Basics

  type rune = r: int | 0 < r < 0x1_0000 witness 1

  const QUOTE: byte := 39
  const SPACE: byte := 32
  const RUNEERROR := 0x80

  // -- UTF ---------------------------------------------------------------------------

  // runetochar.
  function Enc(r: rune): (b: seq<byte>)
    ensures 1 <= |b| <= 3
  {
    if r < 0x80 then [r]
    else if r < 0x800 then [0xC0 + r / 64, 0x80 + r % 64]
    else [0xE0 + r / 4096, 0x80 + r / 64 % 64, 0x80 + r % 64]
  }

  function EncAll(rs: seq<rune>): seq<byte> { if rs == [] then [] else Enc(rs[0]) + EncAll(rs[1..]) }

  // The byte i of a C string.
  function ByteAt(s: seq<byte>, i: nat): byte { if i < |s| then s[i] else 0 }

  predicate Tail(c: int) { 0x80 <= c < 0xC0 }

  datatype Decoded = Decoded(r: int, w: nat)

  // chartorune.
  function Dec(s: seq<byte>): (d: Decoded)
    ensures 1 <= d.w <= 3
  {
    var c, c1, c2 := ByteAt(s, 0) as int, ByteAt(s, 1) as int, ByteAt(s, 2) as int;
    var bad := Decoded(RUNEERROR, 1);
    if c < 0x80 then Decoded(c, 1)
    else if !Tail(c1) then bad
    else if c < 0xE0 then
      if c < 0xC0 then bad
      else
        var l := (c - 0xC0) * 64 + (c1 - 0x80);
        if l < 0x80 then bad else Decoded(l, 2)
    else if !Tail(c2) then bad
    else if c < 0xF0 then
      var l := ((c - 0xE0) * 64 + (c1 - 0x80)) * 64 + (c2 - 0x80);
      if l < 0x800 then bad else Decoded(l, 3)
    else bad
  }

  lemma DecEnc(r: rune, more: seq<byte>)
    ensures Dec(Enc(r) + more) == Decoded(r, |Enc(r)|)
  {
    var s := Enc(r) + more;
    if r >= 0x800 {
      assert r == (r / 4096 * 64 + r / 64 % 64) * 64 + r % 64;
    }
  }

  // What the bits of two and of three bytes make.
  function Two(b: int, b1: int): int { (b - 0xC0) * 64 + (b1 - 0x80) }
  function Three(b: int, b1: int, b2: int): int { (b - 0xE0) * 4096 + (b1 - 0x80) * 64 + (b2 - 0x80) }

  // The encoding is UTF-8's, the shortest there is.
  lemma EncBytes(r: rune)
    ensures r < 0x80 ==> Enc(r) == [r]
    ensures 0x80 <= r < 0x800 ==>
      var b := Enc(r);
      |b| == 2 && 0xC2 <= b[0] < 0xE0 && 0x80 <= b[1] < 0xC0 && r == Two(b[0], b[1])
    ensures 0x800 <= r ==>
      var b := Enc(r);
      |b| == 3 && 0xE0 <= b[0] < 0xF0 && 0x80 <= b[1] < 0xC0 && 0x80 <= b[2] < 0xC0 && r == Three(b[0], b[1], b[2])
  {
    if r >= 0x800 { assert r / 64 == r / 4096 * 64 + r / 64 % 64; }
  }

  lemma TwoEnc(b: byte, b1: byte)
    requires 0xC0 <= b < 0xE0 && Tail(b1) && Two(b, b1) >= 0x80
    ensures Two(b, b1) < 0x800 && Enc(Two(b, b1)) == [b, b1]
  {
  }

  lemma ThreeEnc(b: byte, b1: byte, b2: byte)
    requires 0xE0 <= b < 0xF0 && Tail(b1) && Tail(b2) && Three(b, b1, b2) >= 0x800
    ensures Three(b, b1, b2) < 0x1_0000 && Enc(Three(b, b1, b2)) == [b, b1, b2]
  {
    var h: int, m: int, l: int, r: int := b - 0xE0, b1 - 0x80, b2 - 0x80, Three(b, b1, b2);
    assert r / 4096 == h && r / 64 == h * 64 + m && r % 64 == l;
    assert (h * 64 + m) % 64 == m;
  }

  // r in w bytes, at the front of s.
  ghost predicate Starts(s: seq<byte>, r: int, w: nat)
  {
    0 < r < 0x1_0000 && w <= |s| && s[..w] == Enc(r)
  }

  lemma StartsTwo(s: seq<byte>)
    requires |s| >= 2 && 0xC0 <= s[0] < 0xE0 && Tail(s[1]) && Two(s[0], s[1]) >= 0x80
    ensures Starts(s, Two(s[0], s[1]), 2)
  {
    TwoEnc(s[0], s[1]);
    assert s[..2] == [s[0], s[1]];
  }

  lemma StartsThree(s: seq<byte>)
    requires |s| >= 3 && 0xE0 <= s[0] < 0xF0 && Tail(s[1]) && Tail(s[2]) && Three(s[0], s[1], s[2]) >= 0x800
    ensures Starts(s, Three(s[0], s[1], s[2]), 3)
  {
    ThreeEnc(s[0], s[1], s[2]);
    assert s[..3] == [s[0], s[1], s[2]];
  }

  // What the decoder makes of the bytes.
  lemma DecCases(s: seq<byte>)
    ensures var d := Dec(s);
            || (d.w == 1 && (d.r == RUNEERROR || (d.r < 0x80 && d.r == ByteAt(s, 0))))
            || (d.w == 2 && |s| >= 2 && 0xC0 <= s[0] < 0xE0 && Tail(s[1]) && d.r == Two(s[0], s[1]) >= 0x80)
            || (d.w == 3 && |s| >= 3 && 0xE0 <= s[0] < 0xF0 && Tail(s[1]) && Tail(s[2])
                && d.r == Three(s[0], s[1], s[2]) >= 0x800)
  {
  }

  // Nothing else decodes to more than the error: what does is its encoding.
  lemma DecOnlyEnc(s: seq<byte>)
    ensures var d := Dec(s); d.r > 0 && d != Decoded(0x80, 1) ==> Starts(s, d.r, d.w)
  {
    DecCases(s);
    var d := Dec(s);
    if d.w == 3 {
      StartsThree(s);
    } else if d.w == 2 {
      StartsTwo(s);
    } else if 0 < d.r < 0x80 {
      assert s[..1] == [s[0]];
    }
  }

  lemma {:induction false} EncAllConcat(a: seq<rune>, b: seq<rune>)
    ensures EncAll(a + b) == EncAll(a) + EncAll(b)
    decreases |a|
  {
    if a == [] {
      assert a + b == b;
    } else {
      assert (a + b)[1..] == a[1..] + b;
      EncAllConcat(a[1..], b);
    }
  }

  // -- quoting -----------------------------------------------------------------------

  // What has to be quoted; doquote is what the program may add to it.
  type Doquote = rune -> bool

  predicate Special(c: rune, doquote: Doquote) { c <= 32 || c == 39 || doquote(c) }

  predicate AnySpecial(rs: seq<rune>, doquote: Doquote) { exists i :: 0 <= i < |rs| && Special(rs[i], doquote) }

  function Inner(r: rune): seq<byte> { if r == 39 then [QUOTE, QUOTE] else Enc(r) }

  // The inside of the quotes: quotes twice.
  function Doubled(rs: seq<rune>): seq<byte> { if rs == [] then [] else Inner(rs[0]) + Doubled(rs[1..]) }

  function Shown(rs: seq<rune>, quoted: bool): seq<byte>
  {
    if quoted then [QUOTE] + Doubled(rs) + [QUOTE] else EncAll(rs)
  }

  predicate Needs(rs: seq<rune>, sharp: bool, doquote: Doquote) { sharp || rs == [] || AnySpecial(rs, doquote) }

  function Quoted(rs: seq<rune>, doquote: Doquote): seq<byte> { Shown(rs, Needs(rs, false, doquote)) }

  // -- tokenizing ----------------------------------------------------------------------

  predicate Sep(c: byte) { c == 32 || c == 9 || c == 13 || c == 10 }

  function Skip(s: seq<byte>): (r: seq<byte>)
    ensures |r| <= |s| && (r != [] ==> !Sep(r[0]))
  {
    if s != [] && Sep(s[0]) then Skip(s[1..]) else s
  }

  datatype Token = Token(t: seq<byte>, rest: seq<byte>)

  // A token, inside quotes or not, and what is after it.
  function Tok(s: seq<byte>, quoting: bool): (r: Token)
    ensures |r.rest| <= |s|
    ensures s != [] && (quoting || !Sep(s[0])) ==> |r.rest| < |s|
    decreases |s|
  {
    if s == [] || (!quoting && Sep(s[0])) then Token([], s)
    else if s[0] != QUOTE then
      var r := Tok(s[1..], quoting);
      Token([s[0]] + r.t, r.rest)
    else if !quoting then Tok(s[1..], true)
    else if ByteAt(s, 1) != QUOTE then Tok(s[1..], false)
    else
      var r := Tok(s[2..], true);
      Token([QUOTE] + r.t, r.rest)
  }

  function Tokens(s: seq<byte>): seq<seq<byte>>
    decreases |s|
  {
    var r := Skip(s);
    if r == [] then []
    else
      var k := Tok(r, false);
      [k.t] + Tokens(k.rest)
  }

  // -- the round trip ---------------------------------------------------------------------

  // Bytes that stand for themselves outside quotes.
  predicate Plain(c: byte) { c != QUOTE && !Sep(c) && c != 0 }

  lemma {:induction false} TokPlain(x: seq<byte>, more: seq<byte>)
    requires (forall i :: 0 <= i < |x| ==> Plain(x[i])) && (more == [] || Sep(more[0]))
    ensures Tok(x + more, false) == Token(x, more)
    decreases |x|
  {
    if x == [] {
      assert x + more == more;
    } else {
      assert (x + more)[1..] == x[1..] + more;
      TokPlain(x[1..], more);
      assert x == [x[0]] + x[1..];
    }
  }

  // Bytes that stand for themselves inside.
  lemma {:induction false} TokInside(x: seq<byte>, more: seq<byte>)
    requires QUOTE !in x
    ensures Tok(x + more, true) == Token(x + Tok(more, true).t, Tok(more, true).rest)
    decreases |x|
  {
    if x == [] {
      assert x + more == more && x + Tok(more, true).t == Tok(more, true).t;
    } else {
      assert x[0] in x;
      assert (x + more)[1..] == x[1..] + more;
      TokInside(x[1..], more);
      assert x + Tok(more, true).t == [x[0]] + (x[1..] + Tok(more, true).t);
    }
  }

  lemma {:induction false} TokDoubled(rs: seq<rune>, more: seq<byte>)
    requires more == [] || more[0] == SPACE
    ensures Tok(Doubled(rs) + ([QUOTE] + more), true) == Token(EncAll(rs), more)
    decreases |rs|
  {
    if rs == [] {
      var s := [QUOTE] + more;
      assert Doubled(rs) + s == s && s[1..] == more;
    } else {
      var tail := Doubled(rs[1..]) + ([QUOTE] + more);
      assert Doubled(rs) + ([QUOTE] + more) == Inner(rs[0]) + tail;
      TokDoubled(rs[1..], more);
      if rs[0] == 39 {
        assert (Inner(rs[0]) + tail)[2..] == tail;
      } else {
        TokInside(Enc(rs[0]), tail);
      }
    }
  }

  lemma {:induction false} EncPlain(rs: seq<rune>, doquote: Doquote)
    requires !AnySpecial(rs, doquote)
    ensures forall i :: 0 <= i < |EncAll(rs)| ==> Plain(EncAll(rs)[i])
    decreases |rs|
  {
    if rs != [] {
      assert !Special(rs[0], doquote);
      forall i | 0 <= i < |rs[1..]| ensures !Special(rs[1..][i], doquote) {
        assert rs[1..][i] == rs[i + 1];
      }
      EncPlain(rs[1..], doquote);
    }
  }

  // A quoted string is one token, the string.
  lemma TokQuoted(rs: seq<rune>, doquote: Doquote, more: seq<byte>)
    requires more == [] || more[0] == SPACE
    ensures Tok(Quoted(rs, doquote) + more, false) == Token(EncAll(rs), more)
    ensures Quoted(rs, doquote) != [] && !Sep(Quoted(rs, doquote)[0])
  {
    if Needs(rs, false, doquote) {
      var s := Quoted(rs, doquote) + more;
      assert s == [QUOTE] + (Doubled(rs) + ([QUOTE] + more));
      assert s[1..] == Doubled(rs) + ([QUOTE] + more);
      TokDoubled(rs, more);
    } else {
      EncPlain(rs, doquote);
      TokPlain(EncAll(rs), more);
    }
  }

  // The quoted strings with a space between.
  function Line(xs: seq<seq<rune>>, doquote: Doquote): seq<byte>
  {
    if xs == [] then []
    else Quoted(xs[0], doquote) + if |xs| == 1 then [] else [SPACE] + Line(xs[1..], doquote)
  }

  function EncEach(xs: seq<seq<rune>>): seq<seq<byte>> { if xs == [] then [] else [EncAll(xs[0])] + EncEach(xs[1..]) }

  // Tokenizing them gives the strings back.
  lemma {:induction false} TokensOfLine(xs: seq<seq<rune>>, doquote: Doquote)
    ensures Tokens(Line(xs, doquote)) == EncEach(xs)
    decreases |xs|
  {
    if xs != [] {
      var more := if |xs| == 1 then [] else [SPACE] + Line(xs[1..], doquote);
      TokQuoted(xs[0], doquote, more);
      TokensOfLine(xs[1..], doquote);
      var s := Line(xs, doquote);
      assert Skip(s) == s;
      if |xs| > 1 {
        assert more[1..] == Line(xs[1..], doquote);
        assert Skip(more) == Skip(more[1..]);
      } else {
        assert xs[1..] == [] && Tokens([]) == [];
      }
    }
  }

  // -- what is quoted, and what separates ----------------------------------------------------

  // Nothing in the string asks for quotes.
  predicate Ordinary(rs: seq<rune>, doquote: Doquote)
  {
    rs != [] && forall i :: 0 <= i < |rs| ==> rs[i] > 32 && rs[i] != 39 && !doquote(rs[i])
  }

  function Quotes(rs: seq<rune>): nat { if rs == [] then 0 else Quotes(rs[1..]) + if rs[0] == 39 then 1 else 0 }

  lemma {:induction false} DoubledLength(rs: seq<rune>)
    ensures |Doubled(rs)| == |EncAll(rs)| + Quotes(rs)
    decreases |rs|
  {
    if rs != [] { DoubledLength(rs[1..]); }
  }

  // An ordinary string is printed as it is; any other between quotes, with a byte
  // more for each quote inside.
  lemma QuotedOnlyWhen(rs: seq<rune>, doquote: Doquote)
    ensures Ordinary(rs, doquote) ==> Quoted(rs, doquote) == EncAll(rs)
    ensures !Ordinary(rs, doquote) ==>
      var q := Quoted(rs, doquote);
      |q| == |EncAll(rs)| + Quotes(rs) + 2 && q[0] == 39 && q[|q| - 1] == 39
  {
    DoubledLength(rs);
    assert Ordinary(rs, doquote) <==> !Needs(rs, false, doquote) by {
      if AnySpecial(rs, doquote) {
        var i :| 0 <= i < |rs| && Special(rs[i], doquote);
        assert !(rs[i] > 32 && rs[i] != 39 && !doquote(rs[i]));
      } else {
        forall i | 0 <= i < |rs| ensures rs[i] > 32 && rs[i] != 39 && !doquote(rs[i]) {
          assert !Special(rs[i], doquote);
        }
      }
    }
  }

  // Blanks: space, tab, newline, carriage return.
  predicate Blank(s: seq<byte>) { forall i :: 0 <= i < |s| ==> s[i] == 32 || s[i] == 9 || s[i] == 10 || s[i] == 13 }

  predicate Word(s: seq<byte>)
  {
    s != [] && forall i :: 0 <= i < |s| ==> s[i] !in {0, 9, 10, 13, 32, 39}
  }

  // Words with blanks after each, and between them at least one.
  predicate Spaced(ws: seq<seq<byte>>, gaps: seq<seq<byte>>)
  {
    && |ws| == |gaps| && (forall i :: 0 <= i < |ws| ==> Word(ws[i]) && Blank(gaps[i]))
    && (forall i :: 0 <= i < |ws| - 1 ==> gaps[i] != [])
  }

  function Joined(ws: seq<seq<byte>>, gaps: seq<seq<byte>>): seq<byte>
    requires |ws| == |gaps|
  {
    if ws == [] then [] else ws[0] + (gaps[0] + Joined(ws[1..], gaps[1..]))
  }

  lemma {:induction false} SkipBlank(g: seq<byte>, s: seq<byte>)
    requires Blank(g)
    ensures Skip(g + s) == Skip(s)
    decreases |g|
  {
    if g == [] {
      assert g + s == s;
    } else {
      assert (g + s)[1..] == g[1..] + s;
      SkipBlank(g[1..], s);
    }
  }

  // Tokenizing words set apart by any blanks gives the words.
  lemma {:induction false} TokensOfWords(lead: seq<byte>, ws: seq<seq<byte>>, gaps: seq<seq<byte>>)
    requires Blank(lead) && Spaced(ws, gaps)
    ensures Tokens(lead + Joined(ws, gaps)) == ws
    decreases |ws|
  {
    SkipBlank(lead, Joined(ws, gaps));
    if ws != [] {
      var more := gaps[0] + Joined(ws[1..], gaps[1..]);
      assert Word(ws[0]) && Blank(gaps[0]);
      forall i | 0 <= i < |ws[1..]| ensures Word(ws[1..][i]) && Blank(gaps[1..][i]) {
        assert Word(ws[i + 1]) && Blank(gaps[i + 1]);
      }
      if gaps[0] == [] { assert ws[1..] == [] && more == []; }
      TokPlain(ws[0], more);
      assert Skip(Joined(ws, gaps)) == Joined(ws, gaps);
      TokensOfWords(gaps[0], ws[1..], gaps[1..]);
      assert ws == [ws[0]] + ws[1..];
    }
  }

  // -- sizing and printing ------------------------------------------------------------------

  datatype Quoteinfo = Quoteinfo(quoted: bool, nrunesin: nat, nbytesin: nat, nbytesout: nat)

  lemma {:induction false} DoubledConcat(a: seq<rune>, b: seq<rune>)
    ensures Doubled(a + b) == Doubled(a) + Doubled(b)
    decreases |a|
  {
    if a == [] {
      assert a + b == b;
    } else {
      assert (a + b)[1..] == a[1..] + b;
      DoubledConcat(a[1..], b);
    }
  }

  lemma {:induction false} DoubledPlain(rs: seq<rune>, doquote: Doquote)
    requires !AnySpecial(rs, doquote)
    ensures Doubled(rs) == EncAll(rs)
    decreases |rs|
  {
    if rs != [] {
      assert !Special(rs[0], doquote);
      forall i | 0 <= i < |rs[1..]| ensures !Special(rs[1..][i], doquote) {
        assert rs[1..][i] == rs[i + 1];
      }
      DoubledPlain(rs[1..], doquote);
    }
  }

  // What one more rune adds.
  lemma ShownMore(rs: seq<rune>, k: nat)
    requires k < |rs|
    ensures rs[..k + 1] == rs[..k] + [rs[k]]
    ensures EncAll(rs[..k + 1]) == EncAll(rs[..k]) + Enc(rs[k])
    ensures Doubled(rs[..k + 1]) == Doubled(rs[..k]) + Inner(rs[k])
  {
    assert rs[..k + 1] == rs[..k] + [rs[k]];
    EncAllConcat(rs[..k], [rs[k]]);
    DoubledConcat(rs[..k], [rs[k]]);
    assert [rs[k]][1..] == [];
    assert EncAll([rs[k]]) == Enc(rs[k]) + EncAll([]) && Doubled([rs[k]]) == Inner(rs[k]) + Doubled([]);
    assert EncAll([rs[k]]) == Enc(rs[k]) && Doubled([rs[k]]) == Inner(rs[k]);
  }

  // More of the string shows as at least as much.
  lemma {:induction false} ShownGrows(rs: seq<rune>, k: nat)
    requires k <= |rs|
    ensures |EncAll(rs[..k])| <= |EncAll(rs)| && |Doubled(rs[..k])| <= |Doubled(rs)| && |EncAll(rs)| <= |Doubled(rs)|
    decreases |rs| - k
  {
    if k < |rs| {
      ShownMore(rs, k);
      ShownGrows(rs, k + 1);
    } else {
      assert rs[..k] == rs;
      DoubledLonger(rs);
    }
  }

  lemma {:induction false} DoubledLonger(rs: seq<rune>)
    ensures |EncAll(rs)| <= |Doubled(rs)|
    decreases |rs|
  {
    if rs != [] { DoubledLonger(rs[1..]); }
  }

  // The rune at byte p, after the first k.
  lemma DecAt(s: seq<byte>, rs: seq<rune>, k: nat, p: nat)
    requires s == EncAll(rs) && k <= |rs| && p == |EncAll(rs[..k])|
    ensures p <= |s| && s[..p] == EncAll(rs[..k])
    ensures k < |rs| ==> Dec(s[p..]) == Decoded(rs[k], |Enc(rs[k])|) && p + |Enc(rs[k])| <= |s|
    ensures k < |rs| ==> s[p..p + |Enc(rs[k])|] == Enc(rs[k])
    ensures k == |rs| ==> p == |s| && Dec(s[p..]).r == 0
  {
    assert rs == rs[..k] + rs[k..];
    EncAllConcat(rs[..k], rs[k..]);
    assert s[p..] == EncAll(rs[k..]);
    if k < |rs| {
      assert s[p..] == Enc(rs[k]) + EncAll(rs[k..][1..]);
      DecEnc(rs[k], EncAll(rs[k..][1..]));
    } else {
      assert rs[k..] == [];
    }
  }

  // The prefix accepted is k runes, shown in nbytesout bytes.
  ghost predicate Accepted(rs: seq<rune>, q: Quoteinfo, sharp: bool, doquote: Doquote)
  {
    && q.nrunesin <= |rs| && q.nbytesin == |EncAll(rs[..q.nrunesin])|
    && q.nbytesout == |Shown(rs[..q.nrunesin], q.quoted)|
    && (!q.quoted ==> !AnySpecial(rs[..q.nrunesin], doquote))
  }

  lemma AcceptMore(rs: seq<rune>, k: nat, doquote: Doquote)
    requires k < |rs|
    ensures AnySpecial(rs[..k + 1], doquote) <==> AnySpecial(rs[..k], doquote) || Special(rs[k], doquote)
    ensures AnySpecial(rs[..k], doquote) ==> AnySpecial(rs, doquote)
    ensures Special(rs[k], doquote) ==> AnySpecial(rs, doquote)
  {
    if AnySpecial(rs[..k], doquote) {
      var i :| 0 <= i < k && Special(rs[..k][i], doquote);
      assert rs[i] == rs[..k][i] == rs[..k + 1][i];
    }
    if AnySpecial(rs[..k + 1], doquote) {
      var i :| 0 <= i < k + 1 && Special(rs[..k + 1][i], doquote);
      assert i < k ==> rs[..k][i] == rs[..k + 1][i];
    }
    assert rs[..k + 1][k] == rs[k];
  }

  // One more rune would not fit.
  predicate Full(rs: seq<rune>, k: nat, nout: nat, sharp: bool, doquote: Doquote)
  {
    k < |rs| ==> |Shown(rs[..k + 1], Needs(rs[..k + 1], sharp, doquote))| > nout
  }

  // Quotes so far only if needed so far.
  predicate Prompt(rs: seq<rune>, q: Quoteinfo, sharp: bool, doquote: Doquote)
    requires q.nrunesin <= |rs|
  {
    q.quoted ==> sharp || rs == [] || AnySpecial(rs[..q.nrunesin], doquote)
  }

  // One rune more, if the output has room for it.
  method QuoteRune(s: seq<byte>, nout: nat, doquote: Doquote, q: Quoteinfo, ghost rs: seq<rune>, ghost sharp: bool)
    returns (stop: bool, q': Quoteinfo)
    requires s == EncAll(rs) && Accepted(rs, q, sharp, doquote) && q.nbytesout <= nout
    requires (sharp || rs == [] ==> q.quoted) && Prompt(rs, q, sharp, doquote)
    ensures Accepted(rs, q', sharp, doquote) && q'.nbytesout <= nout
    ensures (sharp || rs == [] ==> q'.quoted) && (!stop ==> Prompt(rs, q', sharp, doquote))
    ensures if stop then q'.nrunesin == q.nrunesin else q'.nrunesin == q.nrunesin + 1
    ensures stop ==> Full(rs, q'.nrunesin, nout, sharp, doquote) && (q'.nrunesin == |rs| ==> q' == q)
  {
    ghost var k := q.nrunesin;
    q', stop := q, true;
    var c, w := Chartorune(s, q.nbytesin, rs, k);
    if c != 0 {
      stop, q' := Admit(q, c, w, nout, doquote);
      if stop {
        Refused(rs, q, q', w, nout, sharp, doquote);
      } else {
        Admitted(rs, q, w, sharp, doquote);
      }
    }
  }

  // The two quotes, for the first rune that needs them.
  function Opened(q: Quoteinfo, c: rune, doquote: Doquote): Quoteinfo
  {
    if Special(c, doquote) && !q.quoted then q.(nbytesout := q.nbytesout + 2, quoted := true) else q
  }

  function Advanced(q: Quoteinfo, c: rune, w: nat, doquote: Doquote): Quoteinfo
  {
    var o := Opened(q, c, doquote);
    Quoteinfo(o.quoted, o.nrunesin + 1, o.nbytesin + w, o.nbytesout + w + if c == 39 then 1 else 0)
  }

  // A rune of w bytes is let in if it, and what it adds, fits.
  method Admit(q: Quoteinfo, c: rune, w: nat, nout: nat, doquote: Doquote) returns (stop: bool, q': Quoteinfo)
    requires q.nbytesout <= nout
    ensures stop <==> Advanced(q, c, w, doquote).nbytesout > nout
    ensures if stop then (q' == q || q' == Opened(q, c, doquote)) && q'.nbytesout <= nout
            else q' == Advanced(q, c, w, doquote)
  {
    q', stop := q, true;
    if q.nbytesout + w > nout {
      return;
    }
    if Special(c, doquote) {
      if !q'.quoted {
        if 1 + q'.nbytesout + w + 1 > nout {
          return;
        }
        q' := q'.(nbytesout := q'.nbytesout + 2, quoted := true);
      }
      if c == 39 {
        if 1 + q'.nbytesout + w > nout {
          return;
        }
        q' := q'.(nbytesout := q'.nbytesout + 1);
      }
    }
    q' := q'.(nbytesin := q'.nbytesin + w, nrunesin := q'.nrunesin + 1, nbytesout := q'.nbytesout + w);
    stop := false;
  }

  lemma Admitted(rs: seq<rune>, q: Quoteinfo, w: nat, sharp: bool, doquote: Doquote)
    requires Accepted(rs, q, sharp, doquote) && Prompt(rs, q, sharp, doquote) && q.nrunesin < |rs|
    requires w == |EncAll(rs[..q.nrunesin + 1])| - |EncAll(rs[..q.nrunesin])|
    ensures var q' := Advanced(q, rs[q.nrunesin], w, doquote);
      Accepted(rs, q', sharp, doquote) && Prompt(rs, q', sharp, doquote)
  {
    AcceptMore(rs, q.nrunesin, doquote);
    ShownSizes(rs, q.nrunesin, doquote);
  }

  lemma Refused(rs: seq<rune>, q: Quoteinfo, q': Quoteinfo, w: nat, nout: nat, sharp: bool, doquote: Doquote)
    requires Accepted(rs, q, sharp, doquote) && Prompt(rs, q, sharp, doquote) && q.nrunesin < |rs|
    requires w == |EncAll(rs[..q.nrunesin + 1])| - |EncAll(rs[..q.nrunesin])|
    requires Advanced(q, rs[q.nrunesin], w, doquote).nbytesout > nout
    requires q' == q || q' == Opened(q, rs[q.nrunesin], doquote)
    ensures Accepted(rs, q', sharp, doquote) && Full(rs, q.nrunesin, nout, sharp, doquote)
  {
    AcceptMore(rs, q.nrunesin, doquote);
    ShownSizes(rs, q.nrunesin, doquote);
  }

  // The rune after the first k, and its width; 0 after the last.
  method Chartorune(s: seq<byte>, p: nat, ghost rs: seq<rune>, ghost k: nat) returns (c: int, w: nat)
    requires s == EncAll(rs) && k <= |rs| && p == |EncAll(rs[..k])|
    ensures p <= |s| && (c == 0 <==> k == |rs|)
    ensures k < |rs| ==> c == rs[k] && w == |Enc(rs[k])| == |EncAll(rs[..k + 1])| - |EncAll(rs[..k])|
  {
    DecAt(s, rs, k, p);
    if k < |rs| { ShownMore(rs, k); }
    var d := Dec(s[p..]);
    c, w := d.r, d.w;
  }

  lemma ShownSizes(rs: seq<rune>, k: nat, doquote: Doquote)
    requires k < |rs|
    ensures var w := |EncAll(rs[..k + 1])| - |EncAll(rs[..k])|;
      |Doubled(rs[..k + 1])| == |Doubled(rs[..k])| + w + if rs[k] == 39 then 1 else 0
    ensures |EncAll(rs[..k + 1])| <= |Doubled(rs[..k + 1])|
    ensures !AnySpecial(rs[..k], doquote) ==> Doubled(rs[..k]) == EncAll(rs[..k])
  {
    ShownMore(rs, k);
    DoubledLonger(rs[..k + 1]);
    if !AnySpecial(rs[..k], doquote) { DoubledPlain(rs[..k], doquote); }
  }

  // What fits whole is not cut off.
  lemma NotFull(rs: seq<rune>, k: nat, nout: nat, sharp: bool, doquote: Doquote)
    requires k < |rs| && nout >= |Shown(rs, Needs(rs, sharp, doquote))|
    ensures !Full(rs, k, nout, sharp, doquote)
  {
    ShownGrows(rs, k + 1);
    if AnySpecial(rs[..k + 1], doquote) {
      var i :| 0 <= i < k + 1 && Special(rs[..k + 1][i], doquote);
      assert Special(rs[i], doquote);
    }
    if !Needs(rs[..k + 1], sharp, doquote) && Needs(rs, sharp, doquote) {
      assert |EncAll(rs[..k + 1])| <= |Doubled(rs)|;
    }
  }

  // How much of the string goes into nout bytes, quoted if it must be, and how
  // many bytes that takes: as many runes as fit, so all of them if they do.
  method QuoteSetup(s: seq<byte>, nout: nat, sharp: bool, doquote: Doquote, ghost rs: seq<rune>) returns (q: Quoteinfo)
    requires s == EncAll(rs)
    ensures Accepted(rs, q, sharp, doquote) && q.nbytesout <= nout
    ensures q.nrunesin < |rs| ==>
      |Shown(rs[..q.nrunesin + 1], Needs(rs[..q.nrunesin + 1], sharp, doquote))| > nout
    ensures nout >= |Shown(rs, Needs(rs, sharp, doquote))| ==>
      q.nrunesin == |rs| && q.quoted == Needs(rs, sharp, doquote)
  {
    q := Quoteinfo(false, 0, 0, 0);
    assert rs[..0] == [] && EncAll([]) == [] && Doubled([]) == [];
    NoFirst(s, rs);
    if sharp || ByteAt(s, 0) == 0 {
      if nout < 2 {
        return;
      }
      q := Quoteinfo(true, 0, 0, 2);
    }
    var stop := false;
    while !stop
      invariant Accepted(rs, q, sharp, doquote) && q.nbytesout <= nout && (sharp || rs == [] ==> q.quoted)
      invariant !stop || q.nrunesin == |rs| ==> Prompt(rs, q, sharp, doquote)
      invariant stop ==> Full(rs, q.nrunesin, nout, sharp, doquote)
      decreases |rs| - q.nrunesin, !stop
    {
      stop, q := QuoteRune(s, nout, doquote, q, rs, sharp);
    }
    SetUp(rs, q, nout, sharp, doquote);
  }

  lemma SetUp(rs: seq<rune>, q: Quoteinfo, nout: nat, sharp: bool, doquote: Doquote)
    requires Accepted(rs, q, sharp, doquote) && (sharp || rs == [] ==> q.quoted)
    requires q.nrunesin == |rs| ==> Prompt(rs, q, sharp, doquote)
    requires Full(rs, q.nrunesin, nout, sharp, doquote)
    ensures nout >= |Shown(rs, Needs(rs, sharp, doquote))| ==>
      q.nrunesin == |rs| && q.quoted == Needs(rs, sharp, doquote)
  {
    assert rs[..|rs|] == rs;
    if q.nrunesin < |rs| && nout >= |Shown(rs, Needs(rs, sharp, doquote))| {
      NotFull(rs, q.nrunesin, nout, sharp, doquote);
    }
  }

  lemma NoFirst(s: seq<byte>, rs: seq<rune>)
    requires s == EncAll(rs)
    ensures ByteAt(s, 0) == 0 <==> rs == []
  {
    if rs != [] { assert s[0] == Enc(rs[0])[0]; }
  }

  // qstrfmt: the accepted runes between quotes, each quote twice.
  method PrintQuoted(s: seq<byte>, q: Quoteinfo, ghost rs: seq<rune>) returns (out: seq<byte>)
    requires s == EncAll(rs) && q.nrunesin <= |rs| && q.nbytesin == |EncAll(rs[..q.nrunesin])|
    ensures out == Shown(rs[..q.nrunesin], true)
  {
    out := [QUOTE];
    var m: nat, me: nat, nc: nat := 0, q.nbytesin, q.nrunesin;
    ghost var k: nat := 0;
    assert Doubled(rs[..0]) == [] && EncAll(rs[..0]) == [];
    while nc > 0
      invariant nc + k == q.nrunesin && m == |EncAll(rs[..k])| && out == [QUOTE] + Doubled(rs[..k])
    {
      out, m := PrintRune(out, s, m, me, rs, k, q.nrunesin);
      nc := nc - 1;
      k := k + 1;
    }
    out := out + [QUOTE];
  }

  method PrintRune(out: seq<byte>, s: seq<byte>, m: nat, me: nat, ghost rs: seq<rune>, ghost k: nat, ghost n: nat)
    returns (out': seq<byte>, m': nat)
    requires s == EncAll(rs) && k < n <= |rs| && m == |EncAll(rs[..k])| && me == |EncAll(rs[..n])|
    requires out == [QUOTE] + Doubled(rs[..k])
    ensures m' == |EncAll(rs[..k + 1])| && out' == [QUOTE] + Doubled(rs[..k + 1])
  {
    RuneAt(s, m, me, rs, k, n);
    var r: rune;
    m', r := NextRune(s, m, me, rs[k]);
    out' := out + Enc(r);
    if r == 39 {
      out' := out' + Enc(r);
    }
    InnerPrinted(Doubled(rs[..k]), r);
  }

  // The k-th rune, and what showing it adds.
  lemma RuneAt(s: seq<byte>, m: nat, me: nat, rs: seq<rune>, k: nat, n: nat)
    requires s == EncAll(rs) && k < n <= |rs| && m == |EncAll(rs[..k])| && me == |EncAll(rs[..n])|
    ensures m < |s| && Dec(s[m..]) == Decoded(rs[k], |Enc(rs[k])|)
    ensures m + |Enc(rs[k])| <= me <= |s| && s[m..m + |Enc(rs[k])|] == Enc(rs[k])
    ensures |EncAll(rs[..k + 1])| == m + |Enc(rs[k])| && Doubled(rs[..k + 1]) == Doubled(rs[..k]) + Inner(rs[k])
  {
    PrefixGrows(rs, k + 1, n);
    DecAt(s, rs, n, me);
    DecAt(s, rs, k, m);
    ShownMore(rs, k);
  }

  lemma InnerPrinted(d: seq<byte>, r: rune)
    ensures [QUOTE] + (d + Inner(r)) == if r == 39 then [QUOTE] + d + Enc(r) + Enc(r) else [QUOTE] + d + Enc(r)
  {
  }

  lemma PrefixGrows(rs: seq<rune>, k: nat, n: nat)
    requires k <= n <= |rs|
    ensures |EncAll(rs[..k])| <= |EncAll(rs[..n])|
  {
    assert rs[..n][..k] == rs[..k];
    ShownGrows(rs[..n], k);
  }

  predicate Fullrune(s: seq<byte>, m: nat, n: int)
  {
    n > 0 && (ByteAt(s, m) < 0x80 || (n > 1 && (ByteAt(s, m) < 0xE0 || n > 2)))
  }

  // The rune at m: below Runeself itself, else decoded if it is all there.
  method NextRune(s: seq<byte>, m: nat, me: nat, ghost c: rune) returns (m': nat, r: rune)
    requires m < |s| && Dec(s[m..]) == Decoded(c, |Enc(c)|) && m + |Enc(c)| <= me <= |s| && s[m..m + |Enc(c)|] == Enc(c)
    ensures m' == m + |Enc(c)| && r == c
  {
    assert s[m] == s[m..m + |Enc(c)|][0];
    if s[m] < 0x80 {
      return m + 1, s[m];
    }
    assert me - m >= 3 || Fullrune(s, m, me - m);
    var d := Dec(s[m..]);
    m', r := m + d.w, d.r;
  }

  // Printing a string quoted, if it must be, in at most nout bytes: exactly the
  // bytes counted, a prefix of the string shown, all of it if there is room.
  method Quotestrfmt(s: seq<byte>, nout: nat, sharp: bool, doquote: Doquote, ghost rs: seq<rune>)
    returns (out: seq<byte>, q: Quoteinfo)
    requires s == EncAll(rs)
    ensures |out| == q.nbytesout <= nout && q.nrunesin <= |rs| && out == Shown(rs[..q.nrunesin], q.quoted)
    ensures nout >= |Shown(rs, Needs(rs, sharp, doquote))| ==> out == Shown(rs, Needs(rs, sharp, doquote))
  {
    q := QuoteSetup(s, nout, sharp, doquote, rs);
    assert rs[..|rs|] == rs;
    DecAt(s, rs, q.nrunesin, q.nbytesin);
    if !q.quoted {
      out := s[..q.nbytesin];
    } else {
      out := PrintQuoted(s, q, rs);
    }
  }

  // -- tokenizing in place ---------------------------------------------------------------------

  // Skipping a separator first changes no tokens.
  lemma TokensSkip(s: seq<byte>)
    requires s != [] && Sep(s[0])
    ensures Tokens(s) == Tokens(s[1..])
  {
    assert Skip(s) == Skip(s[1..]);
  }

  // x read, then what follows.
  function Then(x: seq<byte>, r: Token): Token { Token(x + r.t, r.rest) }

  // The text up to n, with its NUL there.
  ghost predicate Text(a: array<byte>, p: nat, n: nat)
    reads a
  {
    p <= n < a.Length && a[n] == 0 && 0 !in a[p..n]
  }

  // One turn of its loop.
  method Qstep(a: array<byte>, ghost p: nat, s: nat, t: nat, ghost n: nat, quoting: bool, ghost was: seq<byte>,
               ghost goal: Token)
    returns (t': nat, s': nat, quoting': bool)
    requires p <= s <= t < n < a.Length == |was| && was[n] == 0 && a[t] != 0 && (quoting || !Sep(a[t]))
    requires 0 !in was[p..n] && 0 !in a[p..s] && (forall i :: 0 <= i < p || t <= i < a.Length ==> a[i] == was[i])
    requires goal == Then(a[p..s], Tok(was[t..n], quoting))
    modifies a
    ensures p <= s' <= t' <= n && t < t' && 0 !in a[p..s']
    ensures goal == Then(a[p..s'], Tok(was[t'..n], quoting'))
    ensures forall i :: 0 <= i < p || t' <= i < a.Length ==> a[i] == was[i]
  {
    TokTurn(was, t, n, quoting);
    if a[t] != QUOTE {
      Keep(a, p, s, t);
      t', s', quoting' := t + 1, s + 1, quoting;
      Moved(old(a[p..s]), a[p..s'], was[t], Tok(was[t'..n], quoting));
    } else if !quoting {
      t', s', quoting' := t + 1, s, true;
    } else if a[t + 1] != QUOTE {
      t', s', quoting' := t + 1, s, false;
    } else {
      Keep(a, p, s, t + 1);
      t', s', quoting' := t + 2, s + 1, quoting;
      Moved(old(a[p..s]), a[p..s'], QUOTE, Tok(was[t'..n], true));
    }
  }

  // What the turn does to the token.
  lemma TokTurn(was: seq<byte>, t: nat, n: nat, quoting: bool)
    requires t < n < |was| && was[n] == 0 && (quoting || !Sep(was[t]))
    ensures was[t] != QUOTE ==>
      Tok(was[t..n], quoting) == Token([was[t]] + Tok(was[t + 1..n], quoting).t, Tok(was[t + 1..n], quoting).rest)
    ensures was[t] == QUOTE && !quoting ==> Tok(was[t..n], quoting) == Tok(was[t + 1..n], true)
    ensures was[t] == QUOTE && quoting && was[t + 1] != QUOTE ==> Tok(was[t..n], quoting) == Tok(was[t + 1..n], false)
    ensures was[t] == QUOTE && was[t + 1] == QUOTE ==> t + 2 <= n
    ensures was[t] == QUOTE && quoting && was[t + 1] == QUOTE ==>
      Tok(was[t..n], quoting) == Token([QUOTE] + Tok(was[t + 2..n], true).t, Tok(was[t + 2..n], true).rest)
  {
    var rest := was[t..n];
    assert rest[1..] == was[t + 1..n] && ByteAt(rest, 1) == was[t + 1];
    if t + 2 <= n { assert rest[2..] == was[t + 2..n]; }
  }

  // The byte at t is kept, at s.
  method Keep(a: array<byte>, ghost p: nat, s: nat, t: nat)
    requires p <= s <= t < a.Length
    modifies a
    ensures a[p..s + 1] == old(a[p..s]) + [old(a[t])]
    ensures forall i :: 0 <= i < a.Length && i != s ==> a[i] == old(a[i])
  {
    a[s] := a[t];
  }

  lemma Moved(x: seq<byte>, y: seq<byte>, c: byte, r: Token)
    requires y == x + [c]
    ensures Then(x, Token([c] + r.t, r.rest)) == Then(y, r)
  {
    assert x + ([c] + r.t) == x + [c] + r.t;
  }

  // At the end of the text, or at a separator outside quotes, the token is done.
  lemma TokStops(was: seq<byte>, t: nat, n: nat, quoting: bool)
    requires t <= n < |was| && was[n] == 0 && (t < n ==> was[t] != 0) && (was[t] == 0 || (!quoting && Sep(was[t])))
    ensures Tok(was[t..n], quoting) == Token([], was[t..n])
    ensures t < n ==> was[t..n] != [] && Sep(was[t..n][0])
  {
    if t < n {
      assert was[t..n][0] == was[t];
    } else {
      assert was[t..n] == [];
    }
  }

  // qtoken: the token at p unquoted where it is, ending at e; scanning goes on at t.
  method Qtoken(a: array<byte>, p: nat, ghost n: nat) returns (t: nat, ghost e: nat)
    requires Text(a, p, n) && p < n && !Sep(a[p])
    modifies a
    ensures p <= e <= t <= n && p < t && (e < t || e == n) && a[e] == 0
    ensures a[p..e] == Tok(old(a[p..n]), false).t && 0 !in a[p..e]
    ensures Tokens(old(a[t..n])) == Tokens(Tok(old(a[p..n]), false).rest)
    ensures forall i :: 0 <= i < p || t <= i < a.Length ==> a[i] == old(a[i])
  {
    ghost var was := a[..];
    ghost var goal := Tok(was[p..n], false);
    var s := p;
    t := p;
    var quoting := false;
    assert Then([], goal) == goal;
    while a[t] != 0 && (quoting || !Sep(a[t]))
      invariant p <= s <= t <= n && (t == p ==> s == p && !quoting)
      invariant goal == Then(a[p..s], Tok(was[t..n], quoting)) && 0 !in a[p..s]
      invariant forall i :: 0 <= i < p || t <= i < a.Length ==> a[i] == was[i]
      decreases n - t
    {
      t, s, quoting := Qstep(a, p, s, t, n, quoting, was, goal);
    }
    TokStops(was, t, n, quoting);
    assert a[p..s] + [] == a[p..s];
    e := s;
    t := EndToken(a, p, s, t, n, was);
  }

  // The token's NUL, over the byte after it; scanning goes on past that if it was
  // not read.
  method EndToken(a: array<byte>, ghost p: nat, s: nat, t: nat, ghost n: nat, ghost was: seq<byte>) returns (t': nat)
    requires p <= s <= t <= n < a.Length == |was| && was[n] == 0 && (t < n ==> was[t..n] != [] && Sep(was[t..n][0]))
    requires forall i :: 0 <= i < p || t <= i < a.Length ==> a[i] == was[i]
    modifies a
    ensures t <= t' <= n && (s < t' || s == n) && a[s] == 0 && a[p..s] == old(a[p..s])
    ensures Tokens(was[t'..n]) == Tokens(was[t..n])
    ensures forall i :: 0 <= i < p || t' <= i < a.Length ==> a[i] == was[i]
  {
    t' := t;
    if a[s] != 0 {
      if t == s {
        TokensSkip(was[t..n]);
        assert was[t..n][1..] == was[t + 1..n];
        t' := t + 1;
      }
      a[s] := 0;
    }
  }

  // A token where tokenize says, with its NUL after it.
  predicate TokenAt(buf: seq<byte>, p: nat, x: seq<byte>, hi: nat)
  {
    p + |x| <= hi < |buf| && buf[p..p + |x|] == x && buf[p + |x|] == 0
  }

  // The first tokens of a text are at args.
  predicate TokensAt(buf: seq<byte>, args: seq<nat>, xs: seq<seq<byte>>, hi: nat)
  {
    |args| == |xs| && forall i :: 0 <= i < |args| ==> TokenAt(buf, args[i], xs[i], hi)
  }

  lemma TokensStay(buf: seq<byte>, buf': seq<byte>, args: seq<nat>, xs: seq<seq<byte>>, p: nat, hi: nat)
    requires p > 0 && TokensAt(buf, args, xs, p - 1) && p - 1 <= hi < |buf'| == |buf| && buf'[..p] == buf[..p]
    ensures TokensAt(buf', args, xs, hi)
  {
    forall i | 0 <= i < |args| ensures TokenAt(buf', args[i], xs[i], hi) {
      var e := args[i] + |xs[i]|;
      assert buf'[..p][args[i]..e] == buf[..p][args[i]..e] && buf'[..p][e] == buf[..p][e];
    }
  }

  // The text at p split into at most maxargs tokens, in place; what is written
  // is behind what is read.
  method Tokenize(a: array<byte>, p0: nat, ghost n: nat, maxargs: nat) returns (args: seq<nat>)
    requires Text(a, p0, n)
    modifies a
    ensures var ts := Tokens(old(a[p0..n]));
      |args| == (if |ts| < maxargs then |ts| else maxargs) && TokensAt(a[..], args, ts[..|args|], n)
    ensures forall i :: 0 <= i < p0 || n < i < a.Length ==> a[i] == old(a[i])
  {
    ghost var was := a[..];
    ghost var ts := Tokens(was[p0..n]);
    ghost var done: seq<seq<byte>> := [];
    var p := p0;
    args := [];
    ghost var hi := p0;
    assert [] + ts == ts;
    while |args| < maxargs
      invariant Split(was, a[..], p0, p, n, hi, args, done, ts) && |args| <= maxargs
      decreases maxargs - |args|
    {
      NoneWritten(was, a[..], p0, p, n);
      p := SkipSeps(a, p, n);
      NoneWritten(was, a[..], p0, p, n);
      if a[p] == 0 {
        assert was[n..n] == [] && Tokens([]) == [];
        break;
      }
      args, p, done, hi := OneToken(a, was, p0, p, n, hi, args, done, ts);
    }
    assert ts[..|args|] == done;
  }

  // Halfway: the tokens done are at args, before p; what is from p on is untouched.
  ghost predicate Split(was: seq<byte>, buf: seq<byte>, p0: nat, p: nat, n: nat, hi: nat, args: seq<nat>,
    done: seq<seq<byte>>, ts: seq<seq<byte>>)
  {
    && p0 <= p <= n < |was| == |buf| && 0 !in was[p0..n] && was[n] == 0
    && ts == done + Tokens(was[p..n])
    && (forall i :: 0 <= i < p0 || p <= i < |was| ==> buf[i] == was[i])
    && TokensAt(buf, args, done, hi) && hi <= n && (done == [] || hi < p || p == n)
  }

  lemma NoneWritten(was: seq<byte>, buf: seq<byte>, p0: nat, p: nat, n: nat)
    requires p0 <= p <= n < |was| == |buf| && 0 !in was[p0..n] && forall i :: p <= i < |was| ==> buf[i] == was[i]
    ensures buf[p..n] == was[p..n] && 0 !in was[p..n]
  {
    assert was[p0..n][p - p0..] == was[p..n];
  }

  // One token more.
  lemma SplitMore(was: seq<byte>, buf: seq<byte>, buf': seq<byte>, p0: nat, p: nat, p': nat, n: nat, hi: nat, hi': nat,
    args: seq<nat>, done: seq<seq<byte>>, ts: seq<seq<byte>>)
    requires Split(was, buf, p0, p, n, hi, args, done, ts) && p < n && !Sep(was[p])
    requires |buf'| == |buf| && p <= hi' <= p' <= n && p < p' && (hi' < p' || p' == n)
    requires forall i :: 0 <= i < p || p' <= i < |buf| ==> buf'[i] == buf[i]
    requires TokenAt(buf', p, Tok(was[p..n], false).t, hi') && Tokens(was[p'..n]) == Tokens(Tok(was[p..n], false).rest)
    ensures Split(was, buf', p0, p', n, hi', args + [p], done + [Tok(was[p..n], false).t], ts)
  {
    var x := Tok(was[p..n], false).t;
    TokensFirst(was[p..n]);
    assert done + ([x] + Tokens(was[p'..n])) == done + [x] + Tokens(was[p'..n]);
    if done != [] {
      assert buf'[..hi + 1] == buf[..hi + 1];
      TokensStay(buf, buf', args, done, hi + 1, hi');
    }
  }

  method OneToken(
      a: array<byte>, ghost was: seq<byte>, ghost p0: nat, p: nat, ghost n: nat, ghost hi: nat, args: seq<nat>,
      ghost done: seq<seq<byte>>, ghost ts: seq<seq<byte>>)
    returns (args': seq<nat>, p': nat, ghost done': seq<seq<byte>>, ghost hi': nat)
    requires Split(was, a[..], p0, p, n, hi, args, done, ts) && p < n && !Sep(a[p])
    modifies a
    ensures Split(was, a[..], p0, p', n, hi', args', done', ts) && |args'| == |args| + 1
    ensures forall i :: 0 <= i < p0 || n < i < a.Length ==> a[i] == old(a[i])
  {
    ghost var buf := a[..];
    NoneWritten(was, buf, p0, p, n);
    p', hi' := Qtoken(a, p, n);
    assert buf[p'..n] == was[p'..n];
    SplitMore(was, buf, a[..], p0, p, p', n, hi, hi', args, done, ts);
    args', done' := args + [p], done + [Tok(was[p..n], false).t];
  }

  // Over separators.
  method SkipSeps(a: array<byte>, p: nat, ghost n: nat) returns (p': nat)
    requires Text(a, p, n)
    ensures p <= p' <= n && Tokens(a[p'..n]) == Tokens(a[p..n])
    ensures if a[p'] == 0 then p' == n else p' < n && !Sep(a[p'])
  {
    p' := p;
    while a[p'] != 0 && Sep(a[p'])
      invariant p <= p' <= n && Tokens(a[p'..n]) == Tokens(a[p..n])
      decreases n - p'
    {
      TokensSkip(a[p'..n]);
      assert a[p'..n][1..] == a[p' + 1..n];
      p' := p' + 1;
    }
    assert p' < n ==> a[p..n][p' - p] == a[p'];
  }

  lemma TokensFirst(s: seq<byte>)
    requires s != [] && !Sep(s[0])
    ensures Tokens(s) == [Tok(s, false).t] + Tokens(Tok(s, false).rest)
  {
  }

  // -- there and back -------------------------------------------------------------------

  lemma {:induction false} DoubledAtMost(rs: seq<rune>)
    ensures |Doubled(rs)| <= 2 * |EncAll(rs)|
    decreases |rs|
  {
    if rs != [] { DoubledAtMost(rs[1..]); }
  }

  lemma {:induction false} LineMore(xs: seq<seq<rune>>, x: seq<rune>, doquote: Doquote)
    ensures Line(xs + [x], doquote) == Line(xs, doquote) + (if xs == [] then [] else [SPACE]) + Quoted(x, doquote)
    decreases |xs|
  {
    if xs == [] {
      assert xs + [x] == [x];
    } else {
      LineMore(xs[1..], x, doquote);
      assert (xs + [x])[1..] == xs[1..] + [x];
      var y, q := Quoted(xs[0], doquote), Quoted(x, doquote);
      if |xs| == 1 {
        assert xs[1..] == [] && Line([], doquote) == [];
        assert y + ([SPACE] + ([] + [] + q)) == y + [] + [SPACE] + q;
      } else {
        var l := Line(xs[1..], doquote);
        assert y + ([SPACE] + (l + [SPACE] + q)) == y + ([SPACE] + l) + [SPACE] + q;
      }
    }
  }

  // No NUL is printed.
  lemma {:induction false} EncClean(rs: seq<rune>)
    ensures 0 !in EncAll(rs) && 0 !in Doubled(rs)
    decreases |rs|
  {
    if rs != [] {
      EncClean(rs[1..]);
      assert 0 !in Enc(rs[0]);
    }
  }

  lemma {:induction false} LineClean(xs: seq<seq<rune>>, doquote: Doquote)
    ensures 0 !in Line(xs, doquote)
    decreases |xs|
  {
    if xs != [] {
      EncClean(xs[0]);
      LineClean(xs[1..], doquote);
    }
  }

  // Each string quoted, no limit on the output, with a space between.
  method PrintLine(ss: seq<seq<byte>>, doquote: Doquote, ghost xs: seq<seq<rune>>) returns (out: seq<byte>)
    requires |ss| == |xs| && forall i :: 0 <= i < |xs| ==> ss[i] == EncAll(xs[i])
    ensures out == Line(xs, doquote)
  {
    out := [];
    for i := 0 to |ss|
      invariant out == Line(xs[..i], doquote)
    {
      assert xs[..i + 1] == xs[..i] + [xs[i]];
      LineMore(xs[..i], xs[i], doquote);
      DoubledAtMost(xs[i]);
      var one, _ := Quotestrfmt(ss[i], 2 * |ss[i]| + 2, false, doquote, xs[i]);
      if i > 0 {
        out := out + [SPACE];
      }
      out := out + one;
    }
    assert xs[..|xs|] == xs;
  }

  // The strings quoted into a buffer and taken apart there again: with slots
  // enough, each argument is where a string is, as it was.
  method QuoteTokenize(ss: seq<seq<byte>>, a: array<byte>, maxargs: nat, doquote: Doquote, ghost xs: seq<seq<rune>>)
    returns (args: seq<nat>, n: nat)
    requires |ss| == |xs| <= maxargs && forall i :: 0 <= i < |xs| ==> ss[i] == EncAll(xs[i])
    requires |Line(xs, doquote)| < a.Length
    modifies a
    ensures n == |Line(xs, doquote)| && |args| == |xs| && TokensAt(a[..], args, EncEach(xs), n)
  {
    var out := PrintLine(ss, doquote, xs);
    n := |out|;
    forall i | 0 <= i < n {
      a[i] := out[i];
    }
    a[n] := 0;
    assert a[0..n] == out;
    LineClean(xs, doquote);
    TokensOfLine(xs, doquote);
    EncEachLength(xs);
    args := Tokenize(a, 0, n, maxargs);
    assert EncEach(xs)[..|xs|] == EncEach(xs);
  }

  lemma {:induction false} EncEachLength(xs: seq<seq<rune>>)
    ensures |EncEach(xs)| == |xs|
    decreases |xs|
  {
    if xs != [] { EncEachLength(xs[1..]); }
  }
}
