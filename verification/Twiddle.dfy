// Flipping the pixels of compressed data without decompressing it.
module Twiddle {
  import opened Basics
  import opened LzCode

  function Flip(b: byte): byte { 255 - b }

  lemma FlipIsXor(b: byte)
    ensures (b as bv8 ^ 0xFF) as int == Flip(b)
  {
    var v := b as bv8;
    assert v ^ 0xFF == 255 - v;
  }

  function Complement(s: seq<byte>): (r: seq<byte>)
    ensures |r| == |s|
  {
    seq(|s|, i requires 0 <= i < |s| => Flip(s[i]))
  }

  lemma ComplementTwice(s: seq<byte>)
    ensures Complement(Complement(s)) == s
  {
  }

  lemma ComplementConcat(a: seq<byte>, b: seq<byte>)
    ensures Complement(a + b) == Complement(a) + Complement(b)
  {
  }

  // A code that starts with a dump: where the dump ends.
  predicate StartsDump(code: seq<byte>) { code != [] && code[0] >= 128 }

  function DumpEnd(code: seq<byte>): nat
    requires StartsDump(code)
  {
    1 + (code[0] as int - 128 + 1)
  }

  // Every dump is all there.
  predicate DumpsFit(code: seq<byte>)
    decreases |code|
  {
    if StartsDump(code) then DumpEnd(code) <= |code| && DumpsFit(code[DumpEnd(code)..])
    else |code| < 2 || DumpsFit(code[2..])
  }

  // The bytes of the dumps flipped.
  function Twiddled(code: seq<byte>): (r: seq<byte>)
    requires DumpsFit(code)
    ensures |r| == |code|
    decreases |code|
  {
    if StartsDump(code) then
      code[..1] + Complement(code[1..DumpEnd(code)]) + Twiddled(code[DumpEnd(code)..])
    else if |code| < 2 then code
    else code[..2] + Twiddled(code[2..])
  }

  lemma {:induction false} DecodableFits(code: seq<byte>, out: seq<byte>)
    requires Expand(code, out).Some?
    ensures DumpsFit(code)
    decreases |code|
  {
    if StartsDump(code) {
      DecodableFits(code[DumpEnd(code)..], out + code[1..DumpEnd(code)]);
    } else if code != [] {
      DecodableFits(code[2..], CopyFrom(out, OffsOf(code[0], code[1]), RunOf(code[0])));
    }
  }

  // A dump's first byte and what follows it survive twiddling.
  lemma TwiddledDump(code: seq<byte>)
    requires DumpsFit(code) && StartsDump(code)
    ensures var t, e := Twiddled(code), DumpEnd(code);
      StartsDump(t) && DumpEnd(t) == e && t[..1] == code[..1] && t[1..e] == Complement(code[1..e]) &&
      t[e..] == Twiddled(code[e..])
  {
    var e := DumpEnd(code);
    ThreeParts(code[..1], Complement(code[1..e]), Twiddled(code[e..]));
  }

  lemma ThreeParts(a: seq<byte>, b: seq<byte>, c: seq<byte>)
    ensures var s := a + b + c; s[..|a|] == a && s[|a|..|a| + |b|] == b && s[|a| + |b|..] == c
  {
  }

  lemma TwiddledCopy(code: seq<byte>)
    requires DumpsFit(code) && |code| >= 2 && !StartsDump(code)
    ensures var t := Twiddled(code); t[0] == code[0] && t[1] == code[1] && t[2..] == Twiddled(code[2..])
  {
  }

  // Twiddling twice is the identity.
  lemma {:induction false} TwiddleTwice(code: seq<byte>)
    requires DumpsFit(code)
    ensures DumpsFit(Twiddled(code)) && Twiddled(Twiddled(code)) == code
    decreases |code|
  {
    if StartsDump(code) {
      TwiddledDump(code);
      TwiddleTwice(code[DumpEnd(code)..]);
      ComplementTwice(code[1..DumpEnd(code)]);
      assert code == code[..1] + code[1..DumpEnd(code)] + code[DumpEnd(code)..];
    } else if |code| >= 2 {
      TwiddledCopy(code);
      TwiddleTwice(code[2..]);
    }
  }

  lemma {:induction false} CopyComplement(out: seq<byte>, offs: nat, n: nat)
    requires offs < |out|
    ensures CopyFrom(Complement(out), offs, n) == Complement(CopyFrom(out, offs, n))
    decreases n
  {
    if n > 0 {
      assert Complement(out + [out[|out| - 1 - offs]]) == Complement(out) + [Complement(out)[|out| - 1 - offs]];
      CopyComplement(out + [out[|out| - 1 - offs]], offs, n - 1);
    }
  }

  function MapSome(o: Option<seq<byte>>): Option<seq<byte>>
  {
    match o
    case None => None
    case Some(s) => Some(Complement(s))
  }

  // Decoding the twiddled code gives the complement of decoding the code, and
  // fails exactly where that fails.
  lemma {:induction false} TwiddleCommutes(code: seq<byte>, out: seq<byte>)
    requires DumpsFit(code)
    ensures Expand(Twiddled(code), Complement(out)) == MapSome(Expand(code, out))
    decreases |code|
  {
    if StartsDump(code) {
      var e := DumpEnd(code);
      TwiddledDump(code);
      TwiddleCommutes(code[e..], out + code[1..e]);
      ComplementConcat(out, code[1..e]);
    } else if |code| >= 2 {
      TwiddledCopy(code);
      var offs, runlen := OffsOf(code[0], code[1]), RunOf(code[0]);
      if offs < |out| {
        CopyComplement(out, offs, runlen);
        TwiddleCommutes(code[2..], CopyFrom(out, offs, runlen));
      }
    }
  }

  // The rest of the code at p; a last lone byte is stepped over.
  function From(code: seq<byte>, p: nat): seq<byte> { if p <= |code| then code[p..] else [] }

  method FlipRun(buf: array<byte>, p: nat, k: nat)
    requires p + k <= buf.Length
    modifies buf
    ensures forall i :: 0 <= i < buf.Length ==> buf[i] == if p <= i < p + k then Flip(old(buf[i])) else old(buf[i])
  {
    for j := 0 to k
      invariant forall i :: 0 <= i < buf.Length ==> buf[i] == if p <= i < p + j then Flip(old(buf[i])) else old(buf[i])
    {
      FlipIsXor(buf[p + j]);
      buf[p + j] := (buf[p + j] as bv8 ^ 0xFF) as int;
    }
  }

  // Step over the codes, flipping the dumps' bytes in place.
  method TwiddleCompressed(buf: array<byte>)
    requires DumpsFit(buf[..])
    modifies buf
    ensures buf[..] == Twiddled(old(buf[..]))
  {
    ghost var was := buf[..];
    var p, ebuf := 0, buf.Length;
    while p < ebuf
      invariant 0 <= p && DumpsFit(From(was, p)) && From(buf[..], p) == From(was, p)
      invariant buf[..(if p < ebuf then p else ebuf)] + Twiddled(From(was, p)) == Twiddled(was)
      decreases ebuf - p
    {
      ghost var at, now := p, buf[..];
      var c := buf[p];
      p := p + 1;
      if c >= 128 {
        var k := c - 128 + 1;
        assert StartsDump(From(was, at)) && DumpEnd(From(was, at)) == 1 + k;
        FlipRun(buf, p, k);
        p := p + k;
        forall i | at < i < p ensures now[i] == was[i] {
          assert now[at..][i - at] == was[at..][i - at];
        }
        Flipped(was, now, buf[..], at, p);
      } else {
        p := p + 1;
        SteppedOver(was, now, at);
      }
    }
  }

  lemma Flipped(was: seq<byte>, now: seq<byte>, buf: seq<byte>, at: nat, p: nat)
    requires at < p <= |was| == |now| == |buf| && DumpsFit(was[at..]) && now[at..] == was[at..]
    requires was[at] >= 128 && p == at + 1 + (was[at] as int - 128 + 1)
    requires forall i :: 0 <= i < |was| ==> buf[i] == if at < i < p then Flip(was[i]) else now[i]
    ensures DumpsFit(was[p..]) && buf[p..] == was[p..]
    ensures buf[..p] + Twiddled(was[p..]) == now[..at] + Twiddled(was[at..])
  {
    var w := was[at..];
    assert StartsDump(w) && DumpEnd(w) == p - at;
    SuffixOf(was, at, p - at);
    FlippedPart(was, now, buf, at, p);
    Regroup(now[..at], w[..1], Complement(was[at + 1..p]), Twiddled(was[p..]));
  }

  lemma SuffixOf(s: seq<byte>, at: nat, n: nat)
    requires 1 <= n && at + n <= |s|
    ensures s[at..][n..] == s[at + n..] && s[at..][1..n] == s[at + 1..at + n]
  {
  }

  lemma Regroup(a: seq<byte>, b: seq<byte>, c: seq<byte>, d: seq<byte>)
    ensures a + (b + c) + d == a + (b + c + d)
  {
  }

  lemma FlippedPart(was: seq<byte>, now: seq<byte>, buf: seq<byte>, at: nat, p: nat)
    requires at < p <= |was| == |now| == |buf| && now[at..] == was[at..]
    requires forall i :: 0 <= i < |was| ==> buf[i] == if at < i < p then Flip(was[i]) else now[i]
    ensures buf[p..] == was[p..] && buf[..p] == now[..at] + (was[at..][..1] + Complement(was[at + 1..p]))
  {
    assert now[at..][0] == was[at..][0];
    forall i | p <= i < |was| ensures now[i] == was[i] {
      assert now[at..][i - at] == was[at..][i - at];
    }
  }

  lemma SteppedOver(was: seq<byte>, now: seq<byte>, at: nat)
    requires at < |was| == |now| && DumpsFit(was[at..]) && now[at..] == was[at..] && was[at] < 128
    ensures DumpsFit(From(was, at + 2))
    ensures now[..(if at + 2 < |was| then at + 2 else |was|)] + Twiddled(From(was, at + 2))
            == now[..at] + Twiddled(was[at..])
  {
    if at + 2 <= |was| {
      TwiddledCopy(was[at..]);
      assert was[at..][2..] == was[at + 2..];
      assert now[..at + 2] == now[..at] + was[at..at + 2];
    } else {
      assert now == now[..at] + was[at..];
    }
  }
}
