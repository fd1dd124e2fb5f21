// Buffered reading and writing against the plain byte stream.  The buffer is
// filled at its end: ebuf[icount..0) are the bytes read from the file and not
// yet delivered.
module Bio {
  import opened Basics

  const BUNGETSIZE := 4      // UTFmax + 1
  const BEOF := -1

  datatype State = Ractive | Wactive | Racteof

  // No delim among the first k bytes of s.
  predicate Clear(s: seq<byte>, k: nat, delim: byte)
  {
    k <= |s| && delim !in s[..k]
  }

  // The first n bytes of s are its first line: they end in its first delim.
  predicate IsLine(s: seq<byte>, n: nat, delim: byte)
  {
    0 < n <= |s| && s[n - 1] == delim && Clear(s, n - 1, delim)
  }

  function Min(a: nat, b: nat): nat { if a < b then a else b }

  class Biobuf {
    const bsize: int
    const b: array<byte>       // room for ungets, then the buffer: bbuf to ebuf
    const bbuf: nat
    const ebuf: nat
    var icount: int            // minus the number of bytes at the end of the buffer
    var ocount: int            // minus the room left at the end of the buffer
    var rdline: nat
    var state: State
    var offset: nat
    var file: seq<byte>        // what the file descriptor reads
    var fpos: nat              // how much of it has been read
    var disk: seq<byte>        // what has been written to the file descriptor
    ghost var back: nat        // how many of the bytes before the next one are still in the buffer

    constructor (contents: seq<byte>, size: int, writing: bool)
      requires size > 0
      ensures bsize == size && fresh(b) && file == contents && disk == []
      ensures if writing then Writing() && Pending() == [] else Reading() && Pos() == 0 && icount == 0
    {
      bsize := size;
      b := new byte[BUNGETSIZE + size](i => 0);
      bbuf, ebuf := BUNGETSIZE, BUNGETSIZE + size;
      icount, ocount, rdline, offset, fpos, back := 0, if writing then -size else 0, 0, 0, 0, 0;
      state := if writing then Wactive else Ractive;
      file, disk := contents, [];
    }

    ghost predicate Shape()
      reads this
    {
      bsize > 0 && bbuf == BUNGETSIZE && ebuf == bbuf + bsize == b.Length
    }

    // -- reading --------------------------------------------------------------------------

    // Reading, and the buffer holds what it should.
    ghost predicate Reading()
      reads this, b
    {
      && Shape() && state != Wactive && icount <= 0 && -icount <= ebuf
      && offset == fpos <= |file| && offset + icount >= 0
      && (state == Racteof ==> fpos == |file|)
      && back <= offset + icount && back <= ebuf + icount
      && Holds(ebuf + icount - back, ebuf, offset - ebuf)
    }

    // The buffer from lo to hi holds the file, d further on.
    ghost predicate Holds(lo: int, hi: int, d: int)
      requires 0 <= lo && hi <= b.Length
      reads this, b
    {
      && (lo < hi ==> 0 <= lo + d && hi + d <= |file|)
      && forall k :: lo <= k < hi ==> b[k] == file[k + d]
    }

    // The next byte of the file to be delivered.
    ghost function Pos(): int
      reads this
    {
      offset + icount
    }

    // read(2) into b at `at`: some of the bytes there are, none at the end.
    method Read(at: nat, n: nat) returns (i: nat)
      requires 0 < n && at + n <= b.Length && fpos <= |file|
      modifies this`fpos, b
      ensures i <= n && (i == 0 <==> old(fpos) == |file|) && fpos == old(fpos) + i <= |file|
      ensures forall j :: at <= j < at + i ==> b[j] == file[j + (old(fpos) - at)]
      ensures forall j :: 0 <= j < at || at + i <= j < b.Length ==> b[j] == old(b[j])
    {
      var left := |file| - fpos;
      if left == 0 {
        return 0;
      }
      i :| 0 < i <= n && i <= left;
      forall j | at <= j < at + i {
        b[j] := file[j + (fpos - at)];
      }
      fpos := fpos + i;
    }

    // memmove inside the buffer.
    method Move(to: nat, from: nat, n: nat)
      requires to + n <= b.Length && from + n <= b.Length
      modifies b
      ensures forall j :: 0 <= j < b.Length ==> b[j] == if to <= j < to + n then old(b[from + j - to]) else old(b[j])
    {
      forall j | to <= j < to + n {
        b[j] := b[from + j - to];
      }
    }

    // A byte, or Beof exactly at the end of the file; and after it that byte,
    // with what came before it, can be put back: of those, as many as before,
    // but for a refill only four.
    method Bgetc() returns (c: int)
      requires Reading()
      modifies this`icount, this`state, this`offset, this`fpos, this`back, b
      ensures Reading() && file == old(file) && (-old(icount) <= bsize ==> -icount <= bsize)
      ensures if old(Pos()) == |file| then c == BEOF && Pos() == old(Pos())
              else c == file[old(Pos())] && Pos() == old(Pos()) + 1
      ensures c != BEOF ==> back >= Min(old(back), 4) + 1
    {
      if icount == 0 {
        if state != Ractive {
          if state == Racteof {
            state := Ractive;
          }
          return BEOF;
        }
        var got := Refill();
        if !got {
          return BEOF;
        }
      }
      c := b[ebuf + icount];
      icount := icount + 1;
      back := back + 1;
    }

    // The next buffer, keeping BUNGETSIZE bytes in front of it.
    method Refill() returns (got: bool)
      requires Reading() && icount == 0 && state == Ractive
      modifies this`icount, this`state, this`offset, this`fpos, this`back, b
      ensures Reading() && Pos() == old(Pos())
      ensures got <==> old(offset) < |file|
      ensures got ==> -bsize <= icount < 0 && back == Min(old(back), BUNGETSIZE) && state == Ractive
      ensures !got ==> icount == 0
    {
      ghost var kept := Min(back, BUNGETSIZE);
      KeepBack(kept);
      var i := ReadOn(kept);
      if i == 0 {
        state := Racteof;
        back := Min(back, bsize);
        return false;
      }
      offset := offset + i;
      ToEnd(i, kept);
      got := true;
    }

    // The last bytes delivered go in front of the buffer.
    method KeepBack(ghost kept: nat)
      requires Reading() && icount == 0 && kept == Min(back, BUNGETSIZE)
      modifies b
      ensures Holds(bbuf - kept, bbuf, offset - bbuf) && Holds(ebuf - Min(back, bsize), ebuf, offset - ebuf)
    {
      Move(bbuf - BUNGETSIZE, ebuf - BUNGETSIZE, BUNGETSIZE);
      forall k | bbuf - kept <= k < bbuf ensures b[k] == file[k + (offset - bbuf)] {
        var from := ebuf - bbuf + k;
        assert b[k] == old(b[from]) && from + (offset - ebuf) == k + (offset - bbuf);
      }
      forall k | ebuf - Min(back, bsize) <= k < ebuf ensures b[k] == file[k + (offset - ebuf)] {
        assert b[k] == old(b[k]);
      }
    }

    // A buffer read behind them.
    method ReadOn(ghost kept: nat) returns (i: nat)
      requires Shape() && kept <= BUNGETSIZE && offset == fpos <= |file| && Holds(bbuf - kept, bbuf, offset - bbuf)
      modifies this`fpos, b
      ensures i <= bsize && (i == 0 <==> old(fpos) == |file|) && fpos == old(fpos) + i <= |file|
      ensures Holds(bbuf - kept, bbuf + i, offset - bbuf)
      ensures i == 0 ==> forall j :: 0 <= j < b.Length ==> b[j] == old(b[j])
    {
      i := Read(bbuf, bsize);
      assert Holds(bbuf, bbuf + i, offset - bbuf);
      assert Holds(bbuf - kept, bbuf, offset - bbuf);
    }

    // i new bytes, and those kept in front of them, go to the end of the buffer.
    method ToEnd(i: int, ghost kept: nat)
      requires Shape() && state == Ractive && offset == fpos <= |file| && 0 < i <= bsize
      requires kept <= BUNGETSIZE && i + kept <= offset && Holds(bbuf - kept, bbuf + i, offset - i - bbuf)
      modifies this`icount, this`back, b
      ensures Reading() && Pos() == offset - i && back == kept && icount == -i
    {
      if i < bsize {
        Move(ebuf - i - BUNGETSIZE, bbuf - BUNGETSIZE, i + BUNGETSIZE);
      }
      icount := -i;
      back := kept;
    }

    // One byte back, while the buffer still has it.
    method Bungetc() returns (r: int)
      requires Reading() || Writing()
      modifies this`icount, this`state, this`back
      ensures if old(state) == Wactive then r == BEOF && icount == old(icount) else r == 1 && icount == old(icount) - 1
      ensures old(Reading() && back > 0) ==> Reading() && Pos() == old(Pos()) - 1 && back == old(back) - 1
      ensures old(Writing()) ==> Writing() && state == old(state)
    {
      if state == Racteof {
        state := Ractive;
      }
      if state != Ractive {
        return BEOF;
      }
      icount := icount - 1;
      back := if back > 0 then back - 1 else 0;
      r := 1;
    }

    // As many bytes as asked for, or as the file still has.
    method Bread(count: int) returns (data: seq<byte>)
      requires Reading()
      modifies this`icount, this`state, this`offset, this`fpos, this`back, b
      ensures Reading() && file == old(file) && Pos() == old(Pos()) + |data|
      ensures -old(icount) <= bsize ==> -icount <= bsize
      ensures data == file[old(Pos())..Pos()]
      ensures |data| == if count <= 0 then 0 else Min(count, |file| - old(Pos()))
    {
      data := [];
      var c := count;
      while c > 0
        invariant Reading() && file == old(file) && Pos() == old(Pos()) + |data| <= |file|
        invariant -old(icount) <= bsize ==> -icount <= bsize
        invariant data == file[old(Pos())..Pos()] && (count > 0 ==> c >= 0) && c == count - |data|
        invariant count <= 0 ==> data == []
        decreases c, |file| - offset
      {
        var n := -icount;
        if n > c {
          n := c;
        }
        if n == 0 {
          if state != Ractive {
            break;
          }
          var got := Replace();
          if !got {
            break;
          }
        } else {
          ghost var p := Pos();
          var d := Deliver(n);
          Joins(file, old(Pos()), p, Pos());
          data := data + d;
          c := c - n;
        }
      }
    }

    // n bytes of the buffer.
    method Deliver(n: nat) returns (d: seq<byte>)
      requires Reading() && n <= -icount
      modifies this`icount, this`back
      ensures Reading() && Pos() == old(Pos()) + n <= |file| && d == file[old(Pos())..Pos()]
      ensures icount == old(icount) + n
    {
      NextBytes(n);
      d := b[ebuf + icount..ebuf + icount + n];
      icount := icount + n;
      back := back + n;
    }

    lemma NextBytes(n: nat)
      requires Reading() && n <= -icount
      ensures Pos() + n <= |file| && b[ebuf + icount..ebuf + icount + n] == file[Pos()..Pos() + n]
    {
      assert n > 0 ==> 0 <= ebuf - 1 + (offset - ebuf) < |file|;
    }

    // The next buffer, nothing in front of it.
    method Replace() returns (got: bool)
      requires Reading() && icount == 0 && state == Ractive
      modifies this`icount, this`state, this`offset, this`fpos, this`back, b
      ensures Reading() && Pos() == old(Pos())
      ensures got <==> old(offset) < |file|
      ensures got ==> -bsize <= icount < 0 && offset > old(offset)
      ensures !got ==> icount == 0
    {
      var i := Read(bbuf, bsize);
      back := 0;
      if i == 0 {
        state := Racteof;
        return false;
      }
      offset := offset + i;
      if i < bsize {
        Move(ebuf - i, bbuf, i);
      }
      icount := -i;
      got := true;
    }

    // The rest of the file.
    ghost function Rest(): seq<byte>
      requires Reading()
      reads this, b
    {
      file[Pos()..]
    }

    // The next line with its delimiter, where it lies in the buffer; nothing
    // when the delimiter is not among the next bsize bytes or those the file
    // still has, and then those bytes are what is in the buffer.
    method Brdline(delim: byte) returns (line: Option<nat>)
      requires Reading() && -icount <= bsize
      modifies this`icount, this`rdline, this`state, this`offset, this`fpos, this`back, b
      ensures Reading() && file == old(file) && -icount <= bsize
      ensures Answer(line, delim, old(Pos()), old(Rest()))
    {
      ghost var p: nat, rest := Pos(), Rest();
      var i: nat := -icount;
      if i == 0 {
        if state != Ractive {
          if state == Racteof {
            state := Ractive;
          }
          rdline := 0;
          return None;
        }
      }
      var j := InBuffer(i, delim, p, rest);
      if j > 0 {
        Advance(j);
        return Some(ebuf - i);
      }
      ToFront(i, p, rest);
      line := Append(delim, i, p, rest);
    }

    // The length of a line among the i bytes buffered, 0 if there is none.
    method InBuffer(i: nat, delim: byte, ghost p: nat, ghost rest: seq<byte>) returns (j: nat)
      requires Reading() && -icount == i <= bsize && p == Pos() && rest == Rest()
      ensures j <= i <= |rest|
      ensures if j == 0 then Clear(rest, i, delim) else IsLine(rest, j, delim) && b[ebuf - i..ebuf - i + j] == rest[..j]
    {
      var ip := ebuf - i;
      Buffered(ip, i, p);
      var ep := Memchr(ip, delim, i);
      j := 0;
      if ep < ip + i {
        j := ep - ip + 1;
        TakeSlice(b, ip, ip + i, j - 1);
        TakeSlice(b, ip, ip + i, j);
        FirstLine(rest, b[ip..ip + i], delim, j);
      }
    }

    // j bytes of the buffer are delivered as a line.
    method Advance(j: nat)
      requires Reading() && j <= -icount
      modifies this`icount, this`rdline, this`back
      ensures Reading() && Pos() == old(Pos()) + j && rdline == j && icount == old(icount) + j
    {
      rdline := j;
      icount := icount + j;
      back := back + j;
    }

    // What is left in the buffer goes to its beginning.
    method ToFront(i: nat, ghost p: nat, ghost rest: seq<byte>)
      requires Reading() && -icount == i <= bsize && p == Pos() && rest == Rest()
      modifies b
      ensures Front(i, p, rest)
    {
      Buffered(ebuf - i, i, p);
      ghost var left := b[ebuf - i..ebuf];
      Move(bbuf, ebuf - i, i);
      forall k | bbuf <= k < bbuf + i ensures b[k] == left[k - bbuf] {
        assert b[k] == old(b[ebuf - i + k - bbuf]);
      }
      assert b[bbuf..bbuf + i] == left;
    }

    // The first delim among n bytes from ip, or their end.
    method Memchr(ip: nat, delim: byte, n: nat) returns (ep: nat)
      requires ip + n <= b.Length
      ensures ip <= ep <= ip + n && delim !in b[ip..ep] && (ep < ip + n ==> b[ep] == delim)
    {
      ep := ip;
      while ep < ip + n && b[ep] != delim
        invariant ip <= ep <= ip + n && delim !in b[ip..ep]
      {
        ep := ep + 1;
      }
    }

    lemma Buffered(ip: nat, i: nat, p: nat)
      requires Reading() && i == -icount && ip == ebuf - i && p == Pos()
      ensures ip + i <= b.Length && p + i <= |file| && b[ip..ip + i] == file[p..][..i]
    {
      assert b[ip..ip + i] == file[p..p + i] == file[p..][..i];
    }

    // i bytes of the rest are at the beginning of the buffer.
    ghost predicate Front(i: nat, p: nat, rest: seq<byte>)
      reads this, b
    {
      && Shape() && i <= bsize && offset == fpos <= |file| && p + i == offset
      && state != Wactive && (state == Racteof ==> fpos == |file|)
      && rest == file[p..] && b[bbuf..bbuf + i] == rest[..i]
    }

    // What Brdline answers when rest is what was left of the file at p.
    ghost predicate Answer(line: Option<nat>, delim: byte, p: nat, rest: seq<byte>)
      reads this, b
    {
      match line
      case None =>
        var n := Min(if bsize > 0 then bsize else 0, |rest|);
        Clear(rest, n, delim) && rdline == n && Pos() == p
      case Some(at) =>
        && IsLine(rest, rdline, delim) && Pos() == p + rdline
        && at + rdline <= b.Length && b[at..at + rdline] == rest[..rdline]
    }

    // There, and with no delim: read more until there is one.
    method Append(delim: byte, i0: nat, ghost p: nat, ghost rest: seq<byte>) returns (line: Option<nat>)
      requires Front(i0, p, rest) && Clear(rest, i0, delim)
      modifies this`icount, this`rdline, this`state, this`offset, this`fpos, this`back, b
      ensures Reading() && -icount <= bsize && Answer(line, delim, p, rest)
    {
      var i := i0;
      while i < bsize
        invariant Front(i, p, rest) && Clear(rest, i, delim)
      {
        var j := More(i, p, rest);
        if j == 0 {
          NotFound(i, delim, p, rest);
          return None;
        }
        var k := InPiece(i, j, delim, p, rest);
        i := i + j;
        if k > 0 {
          line := FoundAt(i, k, delim, p, rest);
          return;
        }
      }
      NotFound(i, delim, p, rest);
      line := None;
    }

    // The length of a line that ends in the j bytes after the first i, 0 if none does.
    method InPiece(i: nat, j: nat, delim: byte, ghost p: nat, ghost rest: seq<byte>) returns (k: nat)
      requires Front(i + j, p, rest) && i + j <= |rest| && Clear(rest, i, delim)
      requires b[bbuf + i..bbuf + i + j] == rest[i..i + j]
      ensures k <= i + j && if k == 0 then Clear(rest, i + j, delim) else IsLine(rest, k, delim)
    {
      var ep := Memchr(bbuf + i, delim, j);
      var m := ep - bbuf - i;
      TakeSlice(b, bbuf + i, bbuf + i + j, m);
      assert rest[i..i + j][..m] == rest[i..i + m];
      InNew(rest, i, m, delim, b[bbuf + i..ep]);
      k := 0;
      if m < j {
        assert b[ep] == b[bbuf + i..bbuf + i + j][m] == rest[i..i + j][m] == rest[i + m];
        k := i + m + 1;
      }
    }

    method NotFound(i: nat, delim: byte, ghost p: nat, ghost rest: seq<byte>)
      requires Front(i, p, rest) && Clear(rest, i, delim) && (i == bsize || i == |rest|)
      modifies this`icount, this`rdline, this`back, b
      ensures Reading() && -icount <= bsize && Answer(None, delim, p, rest)
    {
      Settle(i, 0, p, rest);
      rdline := i;
    }

    method FoundAt(i: nat, k: nat, delim: byte, ghost p: nat, ghost rest: seq<byte>) returns (line: Option<nat>)
      requires Front(i, p, rest) && k <= i && IsLine(rest, k, delim)
      modifies this`icount, this`rdline, this`back, b
      ensures Reading() && -icount <= bsize && Answer(line, delim, p, rest)
    {
      Settle(i, k, p, rest);
      rdline := k;
      TakeOf(b, ebuf - i, ebuf, k, rest);
      line := Some(ebuf - i);
    }

    method More(i: nat, ghost p: nat, ghost rest: seq<byte>) returns (j: nat)
      requires Front(i, p, rest) && i < bsize
      modifies this`offset, this`fpos, b
      ensures j == 0 <==> |rest| == i
      ensures i + j <= bsize && Front(i + j, p, rest) && b[bbuf + i..bbuf + i + j] == rest[i..i + j]
    {
      ghost var was := b[bbuf..bbuf + i];
      j := Read(bbuf + i, bsize - i);
      offset := offset + j;
      assert b[bbuf..bbuf + i] == was;
      assert b[bbuf + i..bbuf + i + j] == rest[i..i + j];
      assert b[bbuf..bbuf + i + j] == b[bbuf..bbuf + i] + b[bbuf + i..bbuf + i + j];
    }

    // What is at the beginning of the buffer goes back to its end; k bytes of it are delivered.
    method Settle(i: nat, k: nat, ghost p: nat, ghost rest: seq<byte>)
      requires Front(i, p, rest) && k <= i
      modifies this`icount, this`back, b
      ensures Reading() && -icount <= bsize && Pos() == p + k && b[ebuf - i..ebuf] == rest[..i]
    {
      if i < bsize {
        Move(ebuf - i, bbuf, i);
      }
      assert b[ebuf - i..ebuf] == rest[..i];
      icount := k - i;
      back := k;
      forall j | ebuf - i <= j < ebuf ensures b[j] == file[j + (offset - ebuf)] {
        assert b[j] == b[ebuf - i..ebuf][j - (ebuf - i)] == rest[..i][j - (ebuf - i)];
      }
    }

    // -- writing ------------------------------------------------------------------------------

    // Writing, to a file descriptor that takes all it is given.
    ghost predicate Writing()
      reads this
    {
      Shape() && state == Wactive && -bsize <= ocount <= 0 && offset == |disk|
    }

    // Written to the buffer and not yet to the file.
    ghost function Pending(): seq<byte>
      requires Writing()
      reads this, b
    {
      b[bbuf..ebuf + ocount]
    }

    // write(2) of n bytes from bbuf.
    method Write(n: nat) returns (c: nat)
      requires Shape() && n <= bsize
      modifies this`disk
      ensures c == n && disk == old(disk) + b[bbuf..bbuf + n]
    {
      disk := disk + b[bbuf..bbuf + n];
      c := n;
    }

    // Everything accepted so far goes to the file; reading, what is buffered is dropped.
    method Bflush() returns (r: int)
      requires Writing() || Reading()
      modifies this`icount, this`ocount, this`state, this`offset, this`disk, this`back
      ensures r == 0
      ensures old(Writing()) ==> Writing() && disk == old(disk + Pending()) && Pending() == []
      ensures old(Reading()) ==> Reading() && Pos() == offset == old(offset) && disk == old(disk)
    {
      if state == Wactive {
        var n := bsize + ocount;
        if n == 0 {
          assert Pending() == [];
          return 0;
        }
        var c := Write(n);
        offset := offset + n;
        ocount := -bsize;
        assert Pending() == [];
        return 0;
      }
      if state == Racteof {
        state := Ractive;
      }
      icount := 0;
      back := 0;
      r := 0;
    }

    method Bputc(c: byte) returns (r: int)
      requires Writing()
      modifies this`icount, this`ocount, this`state, this`offset, this`disk, this`back, b
      ensures r == 0 && Writing() && disk + Pending() == old(disk + Pending()) + [c]
      ensures disk == if old(|Pending()|) == bsize then old(disk + Pending()) else old(disk)
    {
      ghost var all := disk + Pending();
      while true
        invariant Writing() && disk + Pending() == all
        invariant if ocount == old(ocount) then disk == old(disk)
                  else old(ocount) == 0 && ocount == -bsize && disk == all
        modifies this`icount, this`ocount, this`state, this`offset, this`disk, this`back, b
        decreases if ocount == 0 then 1 else 0
      {
        var i := ocount;
        if i != 0 {
          ghost var was := Pending();
          b[ebuf + i] := c;
          ocount := i + 1;
          assert Pending() == was + [c];
          return 0;
        }
        var f := Bflush();
        assert disk + Pending() == disk;
      }
    }

    // Into the room left in the buffer.
    method Store(d: seq<byte>)
      requires Writing() && |d| <= -ocount
      modifies this`ocount, b
      ensures Writing() && Pending() == old(Pending()) + d && disk + Pending() == old(disk + Pending()) + d
      ensures disk == old(disk)
    {
      ghost var was := Pending();
      var at := ebuf + ocount;
      forall k | at <= k < at + |d| {
        b[k] := d[k - at];
      }
      ocount := ocount + |d|;
      assert b[bbuf..at] == was && b[at..at + |d|] == d;
      assert b[bbuf..at + |d|] == b[bbuf..at] + b[at..at + |d|];
    }

    // A full buffer goes to the file.
    method WriteFull()
      requires Writing() && ocount == 0
      modifies this`ocount, this`offset, this`disk
      ensures Writing() && Pending() == [] && disk == old(disk + Pending()) == disk + Pending()
      ensures |disk| == old(|disk|) + bsize && old(disk) <= disk && disk != old(disk)
    {
      assert Pending() == b[bbuf..bbuf + bsize];
      var c := Write(bsize);
      offset := offset + c;
      ocount := -bsize;
      assert Pending() == [];
    }

    // As much as fits, or the full buffer out to the file.
    method Chunk(data: seq<byte>, p: nat) returns (p': nat)
      requires Writing() && p < |data|
      modifies this`ocount, this`offset, this`disk, b
      ensures Writing() && p <= p' <= |data| && (p' > p <==> old(ocount) < 0) && (p' == p ==> ocount < 0)
      ensures disk + Pending() == old(disk + Pending()) + data[p..p'] && old(disk) <= disk
      ensures |disk| == old(|disk|) + (if p' > p then 0 else bsize) && (p' > p ==> disk == old(disk) && Pending() != [])
    {
      var m := -ocount;
      if m > |data| - p {
        m := |data| - p;
      }
      if m == 0 {
        WriteFull();
      } else {
        Store(data[p..p + m]);
      }
      p' := p + m;
    }

    method Bwrite(data: seq<byte>) returns (n: int)
      requires Writing()
      modifies this`ocount, this`offset, this`disk, b
      ensures n == |data| && Writing() && disk + Pending() == old(disk + Pending()) + data
      ensures old(disk) <= disk && (|disk| - old(|disk|)) % bsize == 0 && (disk != old(disk) ==> Pending() != [])
    {
      ghost var all := disk + Pending();
      var p := 0;
      assert data[..0] == [];
      while p < |data|
        invariant Writing() && p <= |data| && disk + Pending() == all + data[..p]
        invariant old(disk) <= disk && (|disk| - old(|disk|)) % bsize == 0
        invariant disk != old(disk) && p == |data| ==> Pending() != []
        decreases |data| - p, -ocount == 0
      {
        ModShift(|disk| - old(|disk|), 1, bsize);
        ghost var q := p;
        p := Chunk(data, p);
        assert data[..p] == data[..q] + data[q..p];
      }
      n := |data|;
      assert data[..|data|] == data;
    }

    // Where the program is in the file, as it sees it.
    method Boffset() returns (n: int)
      requires Reading() || Writing()
      ensures Reading() ==> n == Pos()
      ensures Writing() ==> n == |disk + Pending()|
    {
      match state
      case Racteof => n := offset + icount;
      case Ractive => n := offset + icount;
      case Wactive => n := offset + (bsize + ocount);
    }
  }

  lemma Joins(s: seq<byte>, p: nat, q: nat, r: nat)
    requires p <= q <= r <= |s|
    ensures s[p..q] + s[q..r] == s[p..r]
  {
  }

  lemma TakeSlice(a: array<byte>, lo: nat, hi: nat, k: nat)
    requires lo + k <= hi <= a.Length
    ensures a[lo..lo + k] == a[lo..hi][..k]
  {
  }

  lemma TakeOf(a: array<byte>, lo: nat, hi: nat, k: nat, rest: seq<byte>)
    requires lo + k <= hi <= a.Length && hi - lo <= |rest| && a[lo..hi] == rest[..hi - lo]
    ensures a[lo..lo + k] == rest[..k]
  {
    TakeSlice(a, lo, hi, k);
    assert rest[..hi - lo][..k] == rest[..k];
  }

  // A line of the part already there is the first line.
  lemma FirstLine(rest: seq<byte>, part: seq<byte>, delim: byte, n: nat)
    requires |part| <= |rest| && part == rest[..|part|]
    requires 0 < n <= |part| && part[n - 1] == delim && delim !in part[..n - 1]
    ensures IsLine(rest, n, delim) && part[..n] == rest[..n]
  {
    assert rest[..n - 1] == part[..n - 1];
  }

  // None in what is there and none in what follows it.
  lemma InNew(rest: seq<byte>, i: nat, k: nat, delim: byte, more: seq<byte>)
    requires i + k <= |rest| && Clear(rest, i, delim) && more == rest[i..i + k] && delim !in more
    ensures Clear(rest, i + k, delim)
  {
    assert rest[..i + k] == rest[..i] + rest[i..i + k];
  }

  // A call that reads.
  datatype Call = Getc | Read(count: int) | Line(delim: byte)

  // Any mix of reads, over however short reads of the file: what is delivered is
  // the file, in order, none lost and none repeated.
  method ReadMix(bp: Biobuf, calls: seq<Call>) returns (out: seq<byte>)
    requires bp.Reading() && -bp.icount <= bp.bsize
    modifies bp, bp.b
    ensures bp.Reading() && bp.file == old(bp.file) && old(bp.Pos()) <= bp.Pos() <= |bp.file|
    ensures out == bp.file[old(bp.Pos())..bp.Pos()]
  {
    out := [];
    ghost var p := bp.Pos();
    for i := 0 to |calls|
      invariant bp.Reading() && -bp.icount <= bp.bsize && bp.file == old(bp.file) && p <= bp.Pos() <= |bp.file|
      invariant out == bp.file[p..bp.Pos()]
    {
      ghost var at := bp.Pos();
      match calls[i]
      case Getc =>
        var c := bp.Bgetc();
        if c != BEOF {
          Joins(bp.file, p, at, at + 1);
          out := out + [c];
        }
      case Read(n) =>
        var data := bp.Bread(n);
        Joins(bp.file, p, at, bp.Pos());
        out := out + data;
      case Line(delim) =>
        var line := bp.Brdline(delim);
        if line != None {
          Joins(bp.file, p, at, bp.Pos());
          assert bp.file[at..][..bp.rdline] == bp.file[at..bp.Pos()];
          out := out + bp.b[line.value..line.value + bp.rdline];
        }
    }
  }
}
