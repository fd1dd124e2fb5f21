// The compressed image format: its decoder, and a reference encoder that looks
// for the longest match by trying every position of the window.
module LzCode {
  import opened Basics

  const NMATCH := 3             // shortest match
  const NRUN := NMATCH + 31     // longest match
  const NMEM := 1024            // window
  const NDUMP := 128            // longest dump
  const NCBLOCK := 6000

  // -- the decoder: image(6) of the Plan 9 manual ------------------------------------

  // n more bytes, each copied from offs + 1 back.
  function CopyFrom(out: seq<byte>, offs: nat, n: nat): (r: seq<byte>)
    requires offs < |out|
    ensures |r| == |out| + n
    decreases n
  {
    if n == 0 then out else CopyFrom(out + [out[|out| - 1 - offs]], offs, n - 1)
  }

  // The two fields of a repeat: its length, and how far back it copies from.
  function RunOf(c: nat): nat { c / 4 + NMATCH }
  function OffsOf(c: nat, b: nat): nat { c % 4 * 256 + b }

  // What the code of a block adds to out, the bytes of the block so far.
  function Expand(code: seq<byte>, out: seq<byte>): Option<seq<byte>>
    decreases |code|
  {
    if code == [] then Some(out)
    else
      var c := code[0] as int;
      if c >= 128 then
        var k := c - 128 + 1;
        if |code| < 1 + k then None else Expand(code[1 + k..], out + code[1..1 + k])
      else if |code| < 2 then None
      else
        var runlen, offs := RunOf(c), OffsOf(c, code[1]);
        if offs >= |out| then None else Expand(code[2..], CopyFrom(out, offs, runlen))
  }

  // One token decodes as if nothing followed it.
  lemma ExpandToken(a: seq<byte>, b: seq<byte>, out: seq<byte>) returns (n: nat, mid: seq<byte>)
    requires a != [] && Expand(a, out).Some?
    ensures 0 < n <= |a| && Expand(a, out) == Expand(a[n..], mid) && Expand(a + b, out) == Expand(a[n..] + b, mid)
  {
    if a[0] >= 128 {
      n, mid := DumpedToken(a, b, out);
    } else {
      n, mid := CopiedToken(a, b, out);
    }
  }

  lemma DumpedToken(a: seq<byte>, b: seq<byte>, out: seq<byte>) returns (n: nat, mid: seq<byte>)
    requires a != [] && a[0] >= 128 && |a| >= 1 + (a[0] - 127)
    ensures 0 < n <= |a| && Expand(a, out) == Expand(a[n..], mid) && Expand(a + b, out) == Expand(a[n..] + b, mid)
  {
    n, mid := ExpandDumped(a, out);
    var _, _ := ExpandDumped(a + b, out);
    assert (a + b)[1..n] == a[1..n] && (a + b)[n..] == a[n..] + b;
  }

  lemma CopiedToken(a: seq<byte>, b: seq<byte>, out: seq<byte>) returns (n: nat, mid: seq<byte>)
    requires |a| >= 2 && a[0] < 128 && OffsOf(a[0], a[1]) < |out|
    ensures 0 < n <= |a| && Expand(a, out) == Expand(a[n..], mid) && Expand(a + b, out) == Expand(a[n..] + b, mid)
  {
    n, mid := ExpandCopied(a, out);
    var _, _ := ExpandCopied(a + b, out);
    assert (a + b)[2..] == a[2..] + b;
  }

  lemma ExpandDumped(a: seq<byte>, out: seq<byte>) returns (n: nat, mid: seq<byte>)
    requires a != [] && a[0] >= 128 && |a| >= 1 + (a[0] - 127)
    ensures n == 1 + (a[0] - 127) <= |a| && mid == out + a[1..n] && Expand(a, out) == Expand(a[n..], mid)
  {
    n, mid := 1 + (a[0] - 127), out + a[1..1 + (a[0] - 127)];
  }

  lemma ExpandCopied(a: seq<byte>, out: seq<byte>) returns (n: nat, mid: seq<byte>)
    requires |a| >= 2 && a[0] < 128 && OffsOf(a[0], a[1]) < |out|
    ensures n == 2 && mid == CopyFrom(out, OffsOf(a[0], a[1]), RunOf(a[0])) && Expand(a, out) == Expand(a[n..], mid)
  {
    n, mid := 2, CopyFrom(out, OffsOf(a[0], a[1]), RunOf(a[0]));
  }

  lemma {:induction false} ExpandAppend(a: seq<byte>, b: seq<byte>, out: seq<byte>)
    requires Expand(a, out).Some?
    ensures Expand(a + b, out) == Expand(b, Expand(a, out).value)
    decreases |a|
  {
    if a == [] {
      assert a + b == b;
    } else {
      var n, mid := ExpandToken(a, b, out);
      ExpandAppend(a[n..], b, mid);
    }
  }

  // -- what the encoder writes ----------------------------------------------------------

  function Dump(d: seq<byte>): (r: seq<byte>)
    requires |d| <= NDUMP
    ensures |r| == if d == [] then 0 else |d| + 1
  {
    if d == [] then [] else [|d| - 1 + 128] + d
  }

  // A repeat's first byte.
  function CopyHead(offs: nat, runlen: nat): (c: nat)
    requires NMATCH <= runlen
  {
    (runlen - NMATCH) * 4 + offs / 256
  }

  // It is never taken for a dump's.
  lemma CopyHeadSmall(offs: nat, runlen: nat)
    requires offs < NMEM && NMATCH <= runlen <= NRUN
    ensures CopyHead(offs, runlen) < 128
  {
  }

  lemma CopyHeadSplits(offs: nat, runlen: nat)
    requires offs < NMEM && NMATCH <= runlen
    ensures var c := CopyHead(offs, runlen); RunOf(c) == runlen && OffsOf(c, offs % 256) == offs
  {
  }

  function Copy(offs: nat, runlen: nat): (r: seq<byte>)
    requires offs < NMEM && NMATCH <= runlen <= NRUN
    ensures |r| == 2
  {
    CopyHeadSmall(offs, runlen);
    [CopyHead(offs, runlen), offs % 256]
  }

  lemma ExpandDump(d: seq<byte>, out: seq<byte>)
    requires |d| <= NDUMP
    ensures Expand(Dump(d), out) == Some(out + d)
  {
    if d == [] {
      assert out + d == out;
    } else {
      var c := Dump(d);
      assert c[1..1 + |d|] == d && c[1 + |d|..] == [];
      assert Expand([], out + d) == Some(out + d);
    }
  }

  lemma ExpandCopy(offs: nat, runlen: nat, out: seq<byte>)
    requires offs < NMEM && NMATCH <= runlen <= NRUN && offs < |out|
    ensures Expand(Copy(offs, runlen), out) == Some(CopyFrom(out, offs, runlen))
  {
    CopyHeadSplits(offs, runlen);
    CopyHeadSmall(offs, runlen);
    ExpandTwo(CopyHead(offs, runlen), offs % 256, out, offs, runlen);
  }

  lemma ExpandTwo(c: byte, b: byte, out: seq<byte>, offs: nat, runlen: nat)
    requires c < 128 && RunOf(c) == runlen && OffsOf(c, b) == offs < |out|
    ensures Expand([c, b], out) == Some(CopyFrom(out, offs, runlen))
  {
    assert [c, b][2..] == [];
    assert Expand([], CopyFrom(out, offs, runlen)) == Some(CopyFrom(out, offs, runlen));
  }

  // -- matches ----------------------------------------------------------------------------

  // How many bytes from q on equal those from p on, up to e.
  function Match(data: seq<byte>, q: nat, p: nat, e: nat): (n: nat)
    requires q <= p <= e <= |data|
    ensures p + n <= e
    decreases e - p
  {
    if p < e && data[q] == data[p] then 1 + Match(data, q + 1, p + 1, e) else 0
  }

  // Copying from a match reproduces the data, whether or not the match overlaps
  // what it produces.
  lemma {:induction false} CopyMatch(data: seq<byte>, start: nat, q: nat, p: nat, e: nat, n: nat)
    requires start <= q < p <= e <= |data| && n <= Match(data, q, p, e)
    ensures CopyFrom(data[start..p], p - q - 1, n) == data[start..p + n]
    decreases n
  {
    if n > 0 {
      var out := data[start..p];
      assert out[|out| - 1 - (p - q - 1)] == data[q] == data[p];
      assert out + [data[p]] == data[start..p + 1];
      CopyMatch(data, start, q + 1, p + 1, e, n - 1);
    }
  }

  // -- the reference encoder ----------------------------------------------------------------

  datatype Found = Found(q: nat, n: nat)

  // The longest match for p among positions lo to k, latest first; ties go to
  // the latest.
  function Longest(data: seq<byte>, lo: nat, k: int, p: nat, e: nat, best: Found): (f: Found)
    requires -1 <= k && lo <= k + 1 && k < p <= e <= |data|
    decreases k - lo + 1
  {
    if k < lo then best
    else
      var n := Match(data, k, p, e);
      Longest(data, lo, k - 1, p, e, if n > best.n then Found(k, n) else best)
  }

  function Min(a: nat, b: nat): nat { if a < b then a else b }
  function Max(a: int, b: int): int { if a < b then b else a }

  // The positions a match for p can start at: the last NMEM of the block.
  function Window(start: nat, p: nat): (lo: nat)
    requires start <= p
    ensures start <= lo <= p && p - lo <= NMEM
  {
    Max(start, p - NMEM)
  }

  function BestMatch(data: seq<byte>, start: nat, p: nat, eline: nat): Found
    requires start <= p <= eline <= |data|
  {
    Longest(data, Window(start, p), p - 1, p, Min(eline, p + NRUN), Found(0, 0))
  }

  lemma {:induction false} LongestIsMatch(data: seq<byte>, lo: nat, k: int, p: nat, e: nat, best: Found)
    requires -1 <= k && lo <= k + 1 && k < p <= e <= |data|
    requires best.n > 0 ==> lo <= best.q < p && Match(data, best.q, p, e) == best.n
    ensures var f := Longest(data, lo, k, p, e, best); f.n > 0 ==> lo <= f.q < p && Match(data, f.q, p, e) == f.n
    decreases k - lo + 1
  {
    if k >= lo {
      var n := Match(data, k, p, e);
      LongestIsMatch(data, lo, k - 1, p, e, if n > best.n then Found(k, n) else best);
    }
  }

  // The rest of a line: data[p..eline] not yet encoded, dump the bytes before p
  // waiting to be dumped.
  function EncodeLine(data: seq<byte>, start: nat, p: nat, eline: nat, dump: seq<byte>): (r: seq<byte>)
    requires start <= p <= eline <= |data| && |dump| <= NDUMP
    decreases eline - p
  {
    if p == eline then Dump(dump)
    else
      var f := BestMatch(data, start, p, eline);
      LongestIsMatch(data, Window(start, p), p - 1, p, Min(eline, p + NRUN), Found(0, 0));
      if f.n < NMATCH then
        if |dump| == NDUMP then Dump(dump) + EncodeLine(data, start, p + 1, eline, [data[p]])
        else EncodeLine(data, start, p + 1, eline, dump + [data[p]])
      else
        Dump(dump) + Copy(p - f.q - 1, f.n) + EncodeLine(data, start, p + f.n, eline, [])
  }

  // What hides the predicates below: each says what stands behind its key, and a
  // proof that needs to look asserts the key of 0.
  predicate CopyKey(u: int) { true }
  predicate MatchKey(u: int) { true }
  predicate GivesKey(u: int) { true }
  predicate RestKey(u: int) { true }
  predicate BestKey(u: int) { true }

  // c is a repeat.
  ghost predicate IsCopy(c: seq<byte>, offs: nat, runlen: nat)
    requires offs < NMEM && NMATCH <= runlen <= NRUN
  {
    |c| == 2 && forall u: int {:trigger CopyKey(u)} :: CopyKey(u) ==> c == Copy(offs, runlen)
  }

  lemma CopyIs(offs: nat, runlen: nat) returns (c: seq<byte>)
    requires offs < NMEM && NMATCH <= runlen <= NRUN
    ensures c == Copy(offs, runlen) && IsCopy(c, offs, runlen)
  {
    c := Copy(offs, runlen);
  }

  lemma SameCopy(c: seq<byte>, d: seq<byte>, offs: nat, runlen: nat)
    requires offs < NMEM && NMATCH <= runlen <= NRUN && IsCopy(c, offs, runlen) && IsCopy(d, offs, runlen)
    ensures c == d
  {
    assert CopyKey(0);
  }

  // The match for p at q is n bytes long.
  ghost predicate Matches(data: seq<byte>, q: nat, p: nat, e: nat, n: nat)
    requires q <= p <= e <= |data|
  {
    forall u: int {:trigger MatchKey(u)} :: MatchKey(u) ==> n == Match(data, q, p, e)
  }

  // Decoding code after out gives all.
  ghost predicate Gives(code: seq<byte>, out: seq<byte>, all: seq<byte>)
  {
    forall u: int {:trigger GivesKey(u)} :: GivesKey(u) ==> Expand(code, out) == Some(all)
  }

  lemma GivesThen(a: seq<byte>, b: seq<byte>, out: seq<byte>, mid: seq<byte>, all: seq<byte>)
    requires Gives(a, out, mid) && Gives(b, mid, all)
    ensures Gives(a + b, out, all)
  {
    assert GivesKey(0);
    ExpandAppend(a, b, out);
  }

  lemma GivesDump(data: seq<byte>, start: nat, d: nat, p: nat)
    requires start <= d <= p <= |data| && p - d <= NDUMP
    ensures Gives(Dump(data[d..p]), data[start..d], data[start..p])
  {
    ExpandDump(data[d..p], data[start..d]);
    assert data[start..d] + data[d..p] == data[start..p];
  }

  // A pending dump and a match, as one piece of code.
  lemma ExpandDumpCopy(data: seq<byte>, start: nat, d: nat, p: nat, q: nat, e: nat, n: nat, c: seq<byte>)
    requires start <= d <= p <= |data| && p - d <= NDUMP
    requires start <= q < p <= e <= |data| && p - q <= NMEM && NMATCH <= n <= NRUN
    requires p + n <= e && Matches(data, q, p, e, n)
    requires IsCopy(c, p - q - 1, n)
    ensures Gives(Dump(data[d..p]) + c, data[start..d], data[start..p + n])
  {
    GivesDump(data, start, d, p);
    GivesCopy(data, start, p, q, e, n, c);
    GivesThen(Dump(data[d..p]), c, data[start..d], data[start..p], data[start..p + n]);
  }

  lemma GivesCopy(data: seq<byte>, start: nat, p: nat, q: nat, e: nat, n: nat, c: seq<byte>)
    requires start <= q < p <= e <= |data| && p - q <= NMEM && NMATCH <= n <= NRUN
    requires p + n <= e && Matches(data, q, p, e, n)
    requires IsCopy(c, p - q - 1, n)
    ensures Gives(c, data[start..p], data[start..p + n])
  {
    assert CopyKey(0) && MatchKey(0) && GivesKey(0);
    ExpandCopy(p - q - 1, n, data[start..p]);
    CopyMatch(data, start, q, p, e, n);
  }

  lemma BestIsMatch(data: seq<byte>, start: nat, p: nat, eline: nat)
    requires start <= p <= eline <= |data|
    ensures var f := BestMatch(data, start, p, eline);
      f.n > 0 ==> Window(start, p) <= f.q < p && Match(data, f.q, p, Min(eline, p + NRUN)) == f.n
  {
    LongestIsMatch(data, Window(start, p), p - 1, p, Min(eline, p + NRUN), Found(0, 0));
  }

  // code is what the rest of a line becomes.
  ghost predicate IsRest(data: seq<byte>, start: nat, d: nat, p: nat, eline: nat, code: seq<byte>)
    requires start <= d <= p <= eline <= |data| && p - d <= NDUMP
  {
    forall u: int {:trigger RestKey(u)} :: RestKey(u) ==> EncodeLine(data, start, p, eline, data[d..p]) == code
  }

  ghost predicate IsBest(data: seq<byte>, start: nat, p: nat, eline: nat, f: Found)
    requires start <= p <= eline <= |data|
  {
    forall u: int {:trigger BestKey(u)} :: BestKey(u) ==> f == BestMatch(data, start, p, eline)
  }

  // How the rest of a line starts: with a match after the pending dump, with
  // the full dump, or with a longer dump.
  lemma RestStarts(data: seq<byte>, start: nat, d: nat, p: nat, eline: nat, code: seq<byte>)
    returns (f: Found, c: seq<byte>, rest: seq<byte>)
    requires start <= d <= p < eline <= |data| && p - d <= NDUMP && IsRest(data, start, d, p, eline, code)
    ensures IsBest(data, start, p, eline, f)
    ensures f.n > 0 ==> Window(start, p) <= f.q < p && p + f.n <= Min(eline, p + NRUN)
    ensures f.n > 0 ==> Matches(data, f.q, p, Min(eline, p + NRUN), f.n)
    ensures f.n >= NMATCH ==> IsRest(data, start, p + f.n, p + f.n, eline, rest) && IsCopy(c, p - f.q - 1, f.n)
    ensures f.n >= NMATCH ==> code == Dump(data[d..p]) + c + rest
    ensures f.n < NMATCH && p - d == NDUMP ==>
      IsRest(data, start, p, p + 1, eline, rest) && code == Dump(data[d..p]) + rest
    ensures f.n < NMATCH && p - d < NDUMP ==> IsRest(data, start, d, p + 1, eline, rest) && code == rest
  {
    f := BestFound(data, start, p, eline);
    c := [];
    if f.n >= NMATCH { c := CopyIs(p - f.q - 1, f.n); }
    rest := RestAfter(data, start, d, p, eline, code, f, c);
  }

  lemma BestFound(data: seq<byte>, start: nat, p: nat, eline: nat) returns (f: Found)
    requires start <= p <= eline <= |data|
    ensures IsBest(data, start, p, eline, f)
    ensures f.n > 0 ==> Window(start, p) <= f.q < p && p + f.n <= Min(eline, p + NRUN)
    ensures f.n > 0 ==> Matches(data, f.q, p, Min(eline, p + NRUN), f.n)
  {
    BestIsMatch(data, start, p, eline);
    f := BestMatch(data, start, p, eline);
  }

  // The encoder's next turn.
  lemma RestAfter(data: seq<byte>, start: nat, d: nat, p: nat, eline: nat, code: seq<byte>, f: Found, c: seq<byte>)
    returns (rest: seq<byte>)
    requires start <= d <= p < eline <= |data| && p - d <= NDUMP && IsRest(data, start, d, p, eline, code)
    requires IsBest(data, start, p, eline, f)
    requires f.n > 0 ==> Window(start, p) <= f.q < p && p + f.n <= Min(eline, p + NRUN)
    requires f.n >= NMATCH ==> IsCopy(c, p - f.q - 1, f.n)
    ensures f.n >= NMATCH ==> code == Dump(data[d..p]) + c + rest && IsRest(data, start, p + f.n, p + f.n, eline, rest)
    ensures f.n < NMATCH && p - d == NDUMP ==>
      IsRest(data, start, p, p + 1, eline, rest) && code == Dump(data[d..p]) + rest
    ensures f.n < NMATCH && p - d < NDUMP ==> IsRest(data, start, d, p + 1, eline, rest) && code == rest
  {
    assert RestKey(0) && BestKey(0) && CopyKey(0);
    if f.n >= NMATCH {
      rest := EncodeLine(data, start, p + f.n, eline, []);
      assert data[p + f.n..p + f.n] == [];
    } else if p - d == NDUMP {
      rest := EncodeLine(data, start, p + 1, eline, [data[p]]);
      assert data[p..p + 1] == [data[p]];
    } else {
      rest := code;
      assert data[d..p + 1] == data[d..p] + [data[p]];
    }
  }

  // So it starts with a token that decodes to what it covers.
  lemma RestGoesOn(data: seq<byte>, start: nat, d: nat, p: nat, eline: nat, code: seq<byte>)
    returns (d': nat, p': nat, token: seq<byte>, rest: seq<byte>)
    requires start <= d <= p < eline <= |data| && p - d <= NDUMP && IsRest(data, start, d, p, eline, code)
    ensures d <= d' <= p' && p < p' <= eline && p' - d' <= NDUMP && IsRest(data, start, d', p', eline, rest)
    ensures code == token + rest && Gives(token, data[start..d], data[start..d'])
  {
    var f, c;
    f, c, rest := RestStarts(data, start, d, p, eline, code);
    if f.n >= NMATCH {
      d', p' := p + f.n, p + f.n;
      token := RepeatGives(data, start, d, p, eline, f, c);
    } else if p - d == NDUMP {
      d', p', token := p, p + 1, Dump(data[d..p]);
      GivesDump(data, start, d, p);
    } else {
      d', p', token := d, p + 1, [];
      GivesNothing(data[start..d]);
    }
  }

  lemma RepeatGives(data: seq<byte>, start: nat, d: nat, p: nat, eline: nat, f: Found, c: seq<byte>)
    returns (token: seq<byte>)
    requires start <= d <= p < eline <= |data| && p - d <= NDUMP && f.n >= NMATCH
    requires Window(start, p) <= f.q < p && p + f.n <= Min(eline, p + NRUN)
    requires Matches(data, f.q, p, Min(eline, p + NRUN), f.n) && IsCopy(c, p - f.q - 1, f.n)
    ensures token == Dump(data[d..p]) + c && Gives(token, data[start..d], data[start..p + f.n])
  {
    token := Dump(data[d..p]) + c;
    ExpandDumpCopy(data, start, d, p, f.q, Min(eline, p + NRUN), f.n, c);
  }

  lemma GivesNothing(out: seq<byte>)
    ensures Gives([], out, out)
  {
  }

  lemma {:induction false} RestDecodes(data: seq<byte>, start: nat, d: nat, p: nat, eline: nat, code: seq<byte>)
    requires start <= d <= p <= eline <= |data| && p - d <= NDUMP && IsRest(data, start, d, p, eline, code)
    ensures Gives(code, data[start..d], data[start..eline])
    decreases eline - p
  {
    if p == eline {
      RestEnds(data, start, d, eline, code);
    } else {
      var d', p', token, rest := RestGoesOn(data, start, d, p, eline, code);
      RestDecodes(data, start, d', p', eline, rest);
      GivesThen(token, rest, data[start..d], data[start..d'], data[start..eline]);
    }
  }

  lemma RestEnds(data: seq<byte>, start: nat, d: nat, eline: nat, code: seq<byte>)
    requires start <= d <= eline <= |data| && eline - d <= NDUMP && IsRest(data, start, d, eline, eline, code)
    ensures code == Dump(data[d..eline]) && Gives(code, data[start..d], data[start..eline])
  {
    assert RestKey(0);
    GivesDump(data, start, d, eline);
  }

  // Decoding a line's code after the block so far gives the block up to its end.
  lemma LineDecodes(data: seq<byte>, start: nat, line: nat, eline: nat)
    requires start <= line <= eline <= |data|
    ensures Expand(EncodeLine(data, start, line, eline, []), data[start..line]) == Some(data[start..eline])
  {
    assert data[line..line] == [];
    RestDecodes(data, start, line, line, eline, EncodeLine(data, start, line, eline, []));
    assert GivesKey(0);
  }

  // A line never takes more than twice its length.
  lemma {:induction false} LineSize(data: seq<byte>, start: nat, p: nat, eline: nat, dump: seq<byte>)
    requires start <= p <= eline <= |data| && |dump| <= NDUMP
    ensures |EncodeLine(data, start, p, eline, dump)| <= |Dump(dump)| + 2 * (eline - p)
    ensures |EncodeLine(data, start, p, eline, dump)| >= if dump == [] && p == eline then 0 else 1
    decreases eline - p
  {
    if p < eline {
      var f := BestMatch(data, start, p, eline);
      LongestIsMatch(data, Window(start, p), p - 1, p, Min(eline, p + NRUN), Found(0, 0));
      if f.n < NMATCH {
        LineSize(data, start, p + 1, eline, if |dump| == NDUMP then [data[p]] else dump + [data[p]]);
      } else {
        LineSize(data, start, p + f.n, eline, []);
      }
    }
  }

  // A byte of dump for every 128 is all that a line can take beyond its length.
  lemma {:induction false} LineBound(data: seq<byte>, start: nat, p: nat, eline: nat, dump: seq<byte>)
    requires start <= p <= eline <= |data| && |dump| <= NDUMP
    ensures var n := |dump| + (eline - p); |EncodeLine(data, start, p, eline, dump)| <= n + (n + 127) / 128
    decreases eline - p
  {
    if p < eline {
      var f := BestMatch(data, start, p, eline);
      LongestIsMatch(data, Window(start, p), p - 1, p, Min(eline, p + NRUN), Found(0, 0));
      if f.n < NMATCH {
        LineBound(data, start, p + 1, eline, if |dump| == NDUMP then [data[p]] else dump + [data[p]]);
      } else {
        LineBound(data, start, p + f.n, eline, []);
      }
    }
  }

  // -- how well the reference encoder does -------------------------------------------------

  // The same k bytes, ending before e, at q and at p.
  predicate Repeats(data: seq<byte>, q: nat, p: nat, e: nat, k: nat)
  {
    q <= p && p + k <= e <= |data| && data[q..q + k] == data[p..p + k]
  }

  lemma {:induction false} MatchRepeats(data: seq<byte>, q: nat, p: nat, e: nat, k: nat)
    requires q <= p <= e <= |data|
    ensures Repeats(data, q, p, e, k) <==> k <= Match(data, q, p, e)
    decreases k
  {
    if k > 0 && p < e {
      MatchRepeats(data, q + 1, p + 1, e, k - 1);
      if p + k <= e {
        assert data[q..q + k] == [data[q]] + data[q + 1..q + 1 + (k - 1)];
        assert data[p..p + k] == [data[p]] + data[p + 1..p + 1 + (k - 1)];
      }
    }
  }

  lemma {:induction false} LongestIsLongest(data: seq<byte>, lo: nat, k: int, p: nat, e: nat, best: Found, j: nat)
    requires -1 <= k && lo <= k + 1 && k < p <= e <= |data|
    ensures best.n <= Longest(data, lo, k, p, e, best).n
    ensures lo <= j <= k ==> Match(data, j, p, e) <= Longest(data, lo, k, p, e, best).n
    decreases k - lo + 1
  {
    if k >= lo {
      var n := Match(data, k, p, e);
      LongestIsLongest(data, lo, k - 1, p, e, if n > best.n then Found(k, n) else best, j);
    }
  }

  // The match found repeats, as long as it is.
  lemma BestRepeats(data: seq<byte>, start: nat, p: nat, eline: nat, f: Found)
    requires start <= p <= eline <= |data| && IsBest(data, start, p, eline, f)
    ensures f.n > 0 ==> start <= f.q < p && p - f.q <= 1024 && f.n <= 34 && Repeats(data, f.q, p, eline, f.n)
    ensures f.n >= 3 ==> Repeats(data, f.q, p, eline, 3)
  {
    assert BestKey(0);
    BestIsMatch(data, start, p, eline);
    if f.n > 0 {
      MatchRepeats(data, f.q, p, Min(eline, p + NRUN), f.n);
      MatchRepeats(data, f.q, p, Min(eline, p + NRUN), if f.n >= 3 then 3 else 0);
    }
  }

  // And nothing in the window repeats for longer.
  lemma BestIsLongest(data: seq<byte>, start: nat, p: nat, eline: nat, f: Found, j: nat, k: nat)
    requires start <= j < p <= eline <= |data| && p - j <= 1024 && k <= 34 && Repeats(data, j, p, eline, k)
    requires IsBest(data, start, p, eline, f)
    ensures k <= f.n
  {
    assert BestKey(0);
    MatchRepeats(data, j, p, Min(eline, p + NRUN), k);
    LongestIsLongest(data, Window(start, p), p - 1, p, Min(eline, p + NRUN), Found(0, 0), j);
  }

  // Where k bytes, three or more, come again within the last 1024 of the block,
  // what goes out next is the pending dump and a repeat at least as long.
  lemma TakesRepeat(data: seq<byte>, start: nat, d: nat, p: nat, eline: nat, code: seq<byte>, j: nat, k: nat)
    returns (q: nat, n: nat, c: seq<byte>, rest: seq<byte>)
    requires start <= d <= p < eline <= |data| && p - d <= 128 && IsRest(data, start, d, p, eline, code)
    requires start <= j < p && p - j <= 1024 && 3 <= k <= 34 && Repeats(data, j, p, eline, k)
    ensures start <= q < p && p - q <= 1024 && k <= n <= 34 && Repeats(data, q, p, eline, n)
    ensures c == [(n - 3) * 4 + (p - q - 1) / 256, (p - q - 1) % 256] && code == Dump(data[d..p]) + c + rest
    ensures IsRest(data, start, p + n, p + n, eline, rest)
  {
    var f := LongRepeat(data, start, p, eline, j, k);
    c := CopyIs(p - f.q - 1, f.n);
    rest := RestAfter(data, start, d, p, eline, code, f, c);
    q, n := f.q, f.n;
  }

  lemma LongRepeat(data: seq<byte>, start: nat, p: nat, eline: nat, j: nat, k: nat) returns (f: Found)
    requires start <= j < p <= eline <= |data| && p - j <= 1024 && k <= 34 && Repeats(data, j, p, eline, k)
    ensures IsBest(data, start, p, eline, f) && k <= f.n <= 34
    ensures f.n > 0 ==> Window(start, p) <= f.q < p && Repeats(data, f.q, p, eline, f.n)
  {
    f := BestFound(data, start, p, eline);
    BestIsLongest(data, start, p, eline, f, j, k);
    BestRepeats(data, start, p, eline, f);
  }

  // Where no three bytes do, the next byte joins the dump, and the dump goes out
  // only when it has 128.
  lemma TakesByte(data: seq<byte>, start: nat, d: nat, p: nat, eline: nat, code: seq<byte>) returns (rest: seq<byte>)
    requires start <= d <= p < eline <= |data| && p - d <= 128 && IsRest(data, start, d, p, eline, code)
    requires forall j: nat :: start <= j < p && p - j <= 1024 ==> !Repeats(data, j, p, eline, 3)
    ensures p - d < 128 ==> code == rest && IsRest(data, start, d, p + 1, eline, rest)
    ensures p - d == 128 ==> code == Dump(data[d..p]) + rest && IsRest(data, start, p, p + 1, eline, rest)
  {
    var f, c;
    f, c, rest := RestStarts(data, start, d, p, eline, code);
    BestRepeats(data, start, p, eline, f);
  }
}
