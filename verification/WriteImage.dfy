// Writing an image compressed: blocks of whole lines, each with a fresh window
// and at most ncblock bytes of code; and the checks its reader makes.
module WriteImage {
  import opened Basics
  import opened LzCode
  import opened LzWindow

  // A block reaches up to row maxy.
  datatype Block = Block(maxy: int, code: seq<byte>)

  function BlockSize(bpl: nat): nat { if 2 * bpl < NCBLOCK then NCBLOCK else 2 * bpl }

  // -- what is written -----------------------------------------------------------------

  // rows lines of bpl bytes from line to the end of the data.
  predicate Rows(data: seq<byte>, bpl: nat, line: nat, rows: nat)
    decreases rows
  {
    bpl > 0 && if rows == 0 then line == |data| else line + bpl <= |data| && Rows(data, bpl, line + bpl, rows - 1)
  }

  lemma {:induction false} RowsProduct(data: seq<byte>, bpl: nat, line: nat, rows: nat)
    ensures Rows(data, bpl, line, rows) <==> bpl > 0 && line + rows * bpl == |data|
    decreases rows
  {
    if rows > 0 {
      RowsProduct(data, bpl, line + bpl, rows - 1);
      assert rows * bpl == bpl + (rows - 1) * bpl;
      Positive(rows - 1, bpl);
    }
  }

  lemma Positive(a: nat, b: nat)
    ensures a * b >= 0
  {
  }

  datatype Fit = Fit(line: nat, y: int, rows: nat, code: seq<byte>)

  // As many whole lines as fit in room, with the window that starts at start.
  function FitLines(data: seq<byte>, bpl: nat, start: nat, line: nat, y: int, rows: nat, room: nat): (f: Fit)
    requires start <= line && Rows(data, bpl, line, rows)
    ensures f.rows <= rows && line <= f.line && Rows(data, bpl, f.line, f.rows)
    decreases rows
  {
    if rows == 0 then Fit(line, y, rows, [])
    else
      var c := EncodeLine(data, start, line, line + bpl, []);
      if |c| > room then Fit(line, y, rows, [])
      else
        var f := FitLines(data, bpl, start, line + bpl, y + 1, rows - 1, room - |c|);
        f.(code := c + f.code)
  }

  // The first line of a block always fits.
  lemma FirstFits(data: seq<byte>, bpl: nat, line: nat, y: int, rows: nat, room: nat)
    requires Rows(data, bpl, line, rows) && rows > 0 && 2 * bpl <= room
    ensures var f := FitLines(data, bpl, line, line, y, rows, room); f.rows < rows && f.code != []
  {
    LineSize(data, line, line, line + bpl, []);
  }

  function Compress(data: seq<byte>, bpl: nat, line: nat, y: int, rows: nat, ncblock: nat): seq<Block>
    requires Rows(data, bpl, line, rows) && 2 * bpl <= ncblock
    decreases rows
  {
    if rows == 0 then []
    else
      FirstFits(data, bpl, line, y, rows, ncblock);
      var f := FitLines(data, bpl, line, line, y, rows, ncblock);
      [Block(f.y, f.code)] + Compress(data, bpl, f.line, f.y, f.rows, ncblock)
  }

  // The blocks for an image of rows lines from miny on; none for an empty one.
  function Written(data: seq<byte>, bpl: nat, miny: int, rows: nat): seq<Block>
    requires |data| == rows * bpl
  {
    RowsProduct(data, bpl, 0, rows);
    if bpl == 0 then [] else Compress(data, bpl, 0, miny, rows, BlockSize(bpl))
  }

  // -- reading it back --------------------------------------------------------------------

  // The reader's loop: up to row maxy, a block at a time, with its checks on
  // the row and the count; each block must decode, by itself, to its rows.
  function Unpack(blocks: seq<Block>, bpl: nat, miny: int, maxy: int, ncblock: nat): Option<seq<byte>>
    decreases |blocks|
  {
    if miny == maxy then Some([])
    else if blocks == [] then None
    else
      var b := blocks[0];
      if b.maxy <= miny || maxy < b.maxy then None
      else if |b.code| <= 0 || ncblock < |b.code| then None
      else
        match Expand(b.code, [])
        case None => None
        case Some(out) =>
          if |out| != (b.maxy - miny) * bpl then None
          else
            match Unpack(blocks[1..], bpl, b.maxy, maxy, ncblock)
            case None => None
            case Some(rest) => Some(out + rest)
  }

  predicate FitKey(u: int) { true }

  // What FitLines gives.  Opened by FitKey(0).
  ghost predicate IsFit(data: seq<byte>, bpl: nat, start: nat, line: nat, y: int, rows: nat, room: nat, f: Fit)
    requires start <= line && Rows(data, bpl, line, rows)
  {
    forall u: int {:trigger FitKey(u)} :: FitKey(u) ==> f == FitLines(data, bpl, start, line, y, rows, room)
  }

  // Either one line more, and what fits after it, or nothing.
  lemma FitCase(data: seq<byte>, bpl: nat, start: nat, line: nat, y: int, rows: nat, room: nat, f: Fit)
    returns (more: bool, c: seq<byte>, g: Fit)
    requires start <= line && Rows(data, bpl, line, rows) && IsFit(data, bpl, start, line, y, rows, room, f)
    ensures !more ==> f == Fit(line, y, rows, []) && line <= |data|
    ensures more ==> rows > 0 && |c| <= room && line + bpl <= |data|
    ensures more ==> Gives(c, data[start..line], data[start..line + bpl])
    ensures more ==> IsFit(data, bpl, start, line + bpl, y + 1, rows - 1, room - |c|, g)
    ensures more ==> f == Fit(g.line, g.y, g.rows, c + g.code)
  {
    assert FitKey(0);
    RowsProduct(data, bpl, line, rows);
    Positive(rows, bpl);
    more, c, g := false, [], f;
    if rows > 0 {
      more, c, g := FitFirst(data, bpl, start, line, y, rows, room);
    } else {
      assert FitLines(data, bpl, start, line, y, rows, room) == Fit(line, y, rows, []);
    }
  }

  lemma FitFirst(data: seq<byte>, bpl: nat, start: nat, line: nat, y: int, rows: nat, room: nat)
    returns (more: bool, c: seq<byte>, g: Fit)
    requires start <= line && Rows(data, bpl, line, rows) && rows > 0
    ensures !more ==> FitLines(data, bpl, start, line, y, rows, room) == Fit(line, y, rows, [])
    ensures more ==> |c| <= room && Gives(c, data[start..line], data[start..line + bpl])
    ensures more ==> g == FitLines(data, bpl, start, line + bpl, y + 1, rows - 1, room - |c|)
    ensures more ==> FitLines(data, bpl, start, line, y, rows, room) == Fit(g.line, g.y, g.rows, c + g.code)
  {
    c := EncodeLine(data, start, line, line + bpl, []);
    more, g := |c| <= room, Fit(line, y, rows, []);
    if more {
      g := FitLines(data, bpl, start, line + bpl, y + 1, rows - 1, room - |c|);
      FitMore(data, bpl, start, line, y, rows, room);
      LineGives(data, start, line, line + bpl);
    }
  }

  // f is lines from line on, coded in at most room bytes.
  lemma {:induction false} FitGives(data: seq<byte>, bpl: nat, start: nat, line: nat, y: int, rows: nat, room: nat,
                                    f: Fit)
    requires start <= line && Rows(data, bpl, line, rows) && IsFit(data, bpl, start, line, y, rows, room, f)
    ensures line <= f.line <= |data| && |f.code| <= room && f.y - y == rows - f.rows
    ensures Gives(f.code, data[start..line], data[start..f.line])
    decreases rows
  {
    var more, c, g := FitCase(data, bpl, start, line, y, rows, room, f);
    if more {
      FitGives(data, bpl, start, line + bpl, y + 1, rows - 1, room - |c|, g);
      GivesThen(c, g.code, data[start..line], data[start..line + bpl], data[start..g.line]);
    } else {
      GivesNothing(data[start..line]);
    }
  }

  lemma FitDecodes(data: seq<byte>, bpl: nat, start: nat, line: nat, y: int, rows: nat, room: nat)
    requires start <= line && Rows(data, bpl, line, rows)
    ensures var f := FitLines(data, bpl, start, line, y, rows, room);
      && f.line <= |data| && |f.code| <= room && f.y - y == rows - f.rows
      && Gives(f.code, data[start..line], data[start..f.line])
  {
    FitGives(data, bpl, start, line, y, rows, room, FitLines(data, bpl, start, line, y, rows, room));
  }

  // A line that fits comes first.
  lemma FitMore(data: seq<byte>, bpl: nat, start: nat, line: nat, y: int, rows: nat, room: nat)
    requires start <= line && Rows(data, bpl, line, rows) && rows > 0
    requires |EncodeLine(data, start, line, line + bpl, [])| <= room
    ensures var c := EncodeLine(data, start, line, line + bpl, []);
      var g := FitLines(data, bpl, start, line + bpl, y + 1, rows - 1, room - |c|);
      FitLines(data, bpl, start, line, y, rows, room) == Fit(g.line, g.y, g.rows, c + g.code)
  {
  }

  lemma RowsApart(data: seq<byte>, bpl: nat, line: nat, line': nat, rows: nat, rows': nat)
    requires Rows(data, bpl, line, rows) && Rows(data, bpl, line', rows')
    ensures line' - line == (rows - rows') * bpl
  {
    RowsProduct(data, bpl, line, rows);
    RowsProduct(data, bpl, line', rows');
  }

  lemma LineGives(data: seq<byte>, start: nat, line: nat, eline: nat)
    requires start <= line <= eline <= |data|
    ensures Gives(EncodeLine(data, start, line, eline, []), data[start..line], data[start..eline])
  {
    LineDecodes(data, start, line, eline);
  }

  // A block is some of the rows, coded.
  lemma BlockGives(data: seq<byte>, bpl: nat, line: nat, y: int, rows: nat, room: nat)
    requires Rows(data, bpl, line, rows) && rows > 0 && 2 * bpl <= room && line <= |data|
    ensures var f := FitLines(data, bpl, line, line, y, rows, room);
            && f.rows < rows && f.y - y == rows - f.rows && line <= f.line <= |data| && 0 < |f.code| <= room
            && Expand(f.code, []) == Some(data[line..f.line]) && f.line - line == (f.y - y) * bpl
  {
    FirstFits(data, bpl, line, y, rows, room);
    FitDecodes(data, bpl, line, line, y, rows, room);
    var f := FitLines(data, bpl, line, line, y, rows, room);
    RowsApart(data, bpl, line, f.line, rows, f.rows);
    assert data[line..line] == [] && GivesKey(0);
  }

  // What the reader gets is what was written, and every check passes.
  lemma {:induction false} UnpackCompress(data: seq<byte>, bpl: nat, line: nat, y: int, rows: nat, ncblock: nat)
    requires Rows(data, bpl, line, rows) && 2 * bpl <= ncblock && line <= |data|
    ensures Unpack(Compress(data, bpl, line, y, rows, ncblock), bpl, y, y + rows, ncblock) == Some(data[line..])
    decreases rows
  {
    if rows > 0 {
      FirstFits(data, bpl, line, y, rows, ncblock);
      BlockGives(data, bpl, line, y, rows, ncblock);
      var f := FitLines(data, bpl, line, line, y, rows, ncblock);
      UnpackCompress(data, bpl, f.line, f.y, f.rows, ncblock);
      assert data[line..] == data[line..f.line] + data[f.line..];
      var all := Compress(data, bpl, line, y, rows, ncblock);
      assert all[0] == Block(f.y, f.code) && all[1..] == Compress(data, bpl, f.line, f.y, f.rows, ncblock);
      assert f.y + f.rows == y + rows;
    } else {
      assert data[line..] == [];
    }
  }

  // Every image with bytes in its rows, and every one without rows, reads back.
  lemma ReadsBack(data: seq<byte>, bpl: nat, miny: int, rows: nat)
    requires |data| == rows * bpl
    ensures bpl > 0 || rows == 0 ==>
      var ncblock := if bpl < 3000 then 6000 else 2 * bpl;
      Unpack(Written(data, bpl, miny, rows), bpl, miny, miny + rows, ncblock) == Some(data)
  {
    RowsProduct(data, bpl, 0, rows);
    if bpl > 0 {
      UnpackCompress(data, bpl, 0, miny, rows, BlockSize(bpl));
      assert data[0..] == data;
    } else {
      assert data == [] by { Zero(rows, bpl); }
    }
  }

  // -- how full the blocks are ------------------------------------------------------------

  // The row block i starts at.
  function FirstRow(blocks: seq<Block>, miny: int, i: nat): int
    requires i <= |blocks|
  {
    if i == 0 then miny else blocks[i - 1].maxy
  }

  // A block of the rows from byte from to byte to: at most room bytes, and the
  // row after it, if there is one, would not fit there too.
  ghost predicate Full(data: seq<byte>, bpl: nat, from: int, to: int, code: seq<byte>, last: bool, room: nat)
  {
    && 0 <= from < to <= |data| && 0 < |code| <= room && Expand(code, []) == Some(data[from..to])
    && if last then to == |data|
       else to + bpl <= |data| && |code| + |EncodeLine(data, from, to, to + bpl, [])| > room
  }

  // Block i, where row y is at byte row(y).
  ghost predicate FullBlock(data: seq<byte>, bpl: nat, row: int -> int, miny: int, blocks: seq<Block>, i: nat,
                            room: nat)
    requires i < |blocks|
  {
    Full(data, bpl, row(FirstRow(blocks, miny, i)), row(blocks[i].maxy), blocks[i].code, i == |blocks| - 1, room)
  }

  // Row after row, bpl bytes on.
  predicate NextRow(bpl: nat, row: int -> int, y: int) { row(y + 1) == row(y) + bpl }

  ghost predicate RowsOf(bpl: nat, row: int -> int) { forall y :: NextRow(bpl, row, y) }

  lemma {:induction false} FitStops(data: seq<byte>, bpl: nat, start: nat, line: nat, y: int, rows: nat, room: nat)
    requires start <= line && Rows(data, bpl, line, rows)
    ensures var f := FitLines(data, bpl, start, line, y, rows, room);
            f.rows > 0 ==> |f.code| + |EncodeLine(data, start, f.line, f.line + bpl, [])| > room
    decreases rows
  {
    if rows > 0 {
      var c := EncodeLine(data, start, line, line + bpl, []);
      if |c| <= room { FitStops(data, bpl, start, line + bpl, y + 1, rows - 1, room - |c|); }
    }
  }

  lemma FullFirst(data: seq<byte>, bpl: nat, line: nat, y: int, rows: nat, room: nat)
    requires Rows(data, bpl, line, rows) && rows > 0 && 2 * bpl <= room && line <= |data|
    ensures var f := FitLines(data, bpl, line, line, y, rows, room);
            Full(data, bpl, line, f.line, f.code, f.rows == 0, room)
  {
    BlockGives(data, bpl, line, y, rows, room);
    FitStops(data, bpl, line, line, y, rows, room);
    FitMoves(data, bpl, line, y, rows, room);
  }

  // It moves on, a row at a time.
  lemma FitMoves(data: seq<byte>, bpl: nat, line: nat, y: int, rows: nat, room: nat)
    requires Rows(data, bpl, line, rows) && rows > 0 && 2 * bpl <= room && line <= |data|
    ensures FitLines(data, bpl, line, line, y, rows, room).line > line
  {
    BlockGives(data, bpl, line, y, rows, room);
    var f := FitLines(data, bpl, line, line, y, rows, room);
    AtLeastOnce(bpl, rows - f.rows);
  }

  lemma {:induction false} FitRow(data: seq<byte>, bpl: nat, start: nat, line: nat, y: int, rows: nat, room: nat,
                                  row: int -> int)
    requires start <= line && Rows(data, bpl, line, rows) && RowsOf(bpl, row) && row(y) == line
    ensures var f := FitLines(data, bpl, start, line, y, rows, room); row(f.y) == f.line
    decreases rows
  {
    if rows > 0 {
      var c := EncodeLine(data, start, line, line + bpl, []);
      assert NextRow(bpl, row, y);
      if |c| <= room { FitRow(data, bpl, start, line + bpl, y + 1, rows - 1, room - |c|, row); }
    }
  }

  lemma {:induction false} CompressFull(data: seq<byte>, bpl: nat, line: nat, y: int, rows: nat, room: nat,
                                        row: int -> int, i: nat)
    requires Rows(data, bpl, line, rows) && 2 * bpl <= room && line <= |data| && RowsOf(bpl, row) && row(y) == line
    requires i < |Compress(data, bpl, line, y, rows, room)|
    ensures FullBlock(data, bpl, row, y, Compress(data, bpl, line, y, rows, room), i, room)
    decreases rows
  {
    FirstFits(data, bpl, line, y, rows, room);
    FitRow(data, bpl, line, line, y, rows, room, row);
    var f := FitLines(data, bpl, line, line, y, rows, room);
    if i == 0 {
      FullFirst(data, bpl, line, y, rows, room);
    } else {
      FitDecodes(data, bpl, line, line, y, rows, room);
      CompressFull(data, bpl, f.line, f.y, f.rows, room, row, i - 1);
    }
  }

  // Where row y of the image is.
  function RowAt(bpl: nat, miny: int): int -> int { y => (y - miny) * bpl }

  // Every block of an image takes at most 6000 bytes, or 2 bpl if that is more,
  // and one more row would take it past that.
  lemma BlocksFull(data: seq<byte>, bpl: nat, miny: int, rows: nat, i: nat)
    requires |data| == rows * bpl && i < |Written(data, bpl, miny, rows)|
    ensures var ncblock := if bpl < 3000 then 6000 else 2 * bpl;
            FullBlock(data, bpl, RowAt(bpl, miny), miny, Written(data, bpl, miny, rows), i, ncblock)
  {
    RowsProduct(data, bpl, 0, rows);
    forall y ensures NextRow(bpl, RowAt(bpl, miny), y) {
      OneMoreRow(bpl, y - miny);
    }
    CompressFull(data, bpl, 0, miny, rows, BlockSize(bpl), RowAt(bpl, miny), i);
  }

  lemma OneMoreRow(bpl: nat, k: int)
    ensures (k + 1) * bpl == k * bpl + bpl
  {
  }

  lemma Zero(a: nat, b: nat)
    requires b == 0
    ensures a * b == 0
  {
  }

  // -- the encoder ----------------------------------------------------------------------------

  class Encoder {
    var outbuf: array<byte>
    var outp: nat
    var dumpbuf: array<byte>
    var chains: Chains

    constructor (ncblock: nat)
      ensures Sound() && outbuf.Length == ncblock
      ensures fresh(this) && fresh(outbuf) && fresh(dumpbuf) && fresh(chains)
      ensures fresh(chains.next) && fresh(chains.prev) && fresh(chains.at)
    {
      outbuf := new byte[ncblock];
      outp := 0;
      dumpbuf := new byte[NDUMP];
      chains := new Chains();
    }

    ghost predicate Sound()
      reads this, chains
    {
      outp <= outbuf.Length && dumpbuf.Length == NDUMP && outbuf != dumpbuf && chains.Sound()
    }

    // The dump accumulator goes out, if there is room for it.
    method PutDump(ndump: nat) returns (ok: bool)
      requires Sound() && 0 < ndump <= NDUMP
      modifies this`outp, outbuf
      ensures Sound()
      ensures ok <==> old(outp) + |Dump(dumpbuf[..ndump])| <= outbuf.Length
      ensures ok ==> outbuf[..outp] == old(outbuf[..outp]) + Dump(dumpbuf[..ndump])
      ensures !ok ==> outp == old(outp) && outbuf[..] == old(outbuf[..])
    {
      if outbuf.Length - outp < ndump + 1 {
        return false;
      }
      ghost var was := outbuf[..outp];
      outbuf[outp] := ndump - 1 + 128;
      outp := outp + 1;
      forall i | 0 <= i < ndump {
        outbuf[outp + i] := dumpbuf[i];
      }
      outp := outp + ndump;
      assert outbuf[..outp] == was + Dump(dumpbuf[..ndump]);
      ok := true;
    }

    method PutCopy(offs: nat, runlen: nat) returns (ok: bool, ghost c: seq<byte>)
      requires Sound() && offs < NMEM && NMATCH <= runlen <= NRUN
      modifies this`outp, outbuf
      ensures Sound() && IsCopy(c, offs, runlen)
      ensures ok <==> old(outp) + 2 <= outbuf.Length
      ensures ok ==> outbuf[..outp] == old(outbuf[..outp]) + c
      ensures !ok ==> outp == old(outp) && outbuf[..] == old(outbuf[..])
    {
      c := CopyIs(offs, runlen);
      if outbuf.Length - outp < 2 {
        return false, c;
      }
      ghost var was := outbuf[..outp];
      CopyHeadSmall(offs, runlen);
      outbuf[outp] := (runlen - NMATCH) * 4 + offs / 256;
      outbuf[outp + 1] := offs % 256;
      outp := outp + 2;
      assert outbuf[..outp] == was + c;
      ok := true;
    }

    // The runlen positions from p on go into the window.
    method Consume(data: seq<byte>, ghost start: nat, p: nat, runlen: nat, h: hash) returns (h': hash)
      requires Sound() && start <= p && p + runlen <= |data|
      requires RingOf(chains.View(), data, start, p) && HashOk(h, data, p)
      modifies chains`cp, chains`key, chains.next, chains.prev, chains.at
      ensures Sound() && RingOf(chains.View(), data, start, p + runlen) && HashOk(h', data, p + runlen)
    {
      h' := h;
      for q := p to p + runlen
        invariant Sound() && RingOf(chains.View(), data, start, q) && HashOk(h', data, q)
      {
        HashNext(h', data, q);
        chains.Insert(h', data, start, q);
        if |data| - q > NMATCH {
          h' := Hupdate(h', data[q + NMATCH]);
        }
      }
    }
  
    // A literal byte joins the dump; a full dump goes out first.
    method Literal(c: byte, ndump: nat) returns (ok: bool, ndump': nat)
      requires Sound() && ndump <= NDUMP
      modifies this`outp, outbuf, dumpbuf
      ensures Sound() && (!ok ==> outp >= old(outp) && outbuf[..old(outp)] == old(outbuf[..outp]))
      ensures !ok ==> ndump == NDUMP && old(outp) + |Dump(old(dumpbuf[..ndump]))| > outbuf.Length
      ensures ok && ndump == NDUMP ==> ndump' == 1 && dumpbuf[..1] == [c]
      ensures ok && ndump == NDUMP ==> outbuf[..outp] == old(outbuf[..outp]) + Dump(old(dumpbuf[..ndump]))
      ensures ok && ndump < NDUMP ==> ndump' == ndump + 1 && dumpbuf[..ndump'] == old(dumpbuf[..ndump]) + [c]
      ensures ok && ndump < NDUMP ==> outbuf[..outp] == old(outbuf[..outp])
    {
      ndump', ok := ndump, true;
      if ndump' == NDUMP {
        ok := PutDump(ndump');
        if !ok {
          return;
        }
        ndump' := 0;
      }
      ndump' := Store(c, ndump');
    }

    method Store(c: byte, ndump: nat) returns (ndump': nat)
      requires Sound() && ndump < NDUMP
      modifies dumpbuf
      ensures Sound() && ndump' == ndump + 1 && dumpbuf[..ndump'] == old(dumpbuf[..ndump]) + [c]
    {
      dumpbuf[ndump] := c;
      ndump' := ndump + 1;
    }

    // A match: what is in the dump goes out before it.
    method Repeat(ndump: nat, offs: nat, runlen: nat) returns (ok: bool, ghost c: seq<byte>)
      requires Sound() && ndump <= NDUMP && offs < NMEM && NMATCH <= runlen <= NRUN
      modifies this`outp, outbuf
      ensures Sound() && (!ok ==> outp >= old(outp) && outbuf[..old(outp)] == old(outbuf[..outp]))
      ensures IsCopy(c, offs, runlen)
      ensures !ok ==> old(outp) + |Dump(dumpbuf[..ndump]) + c| > outbuf.Length
      ensures ok ==> outbuf[..outp] == old(outbuf[..outp]) + (Dump(dumpbuf[..ndump]) + c)
    {
      ghost var was := outbuf[..outp];
      if ndump != 0 {
        ok := PutDump(ndump);
        if !ok {
          c := CopyIs(offs, runlen);
          return;
        }
      }
      ghost var mid := outbuf[..outp];
      assert mid == was + Dump(dumpbuf[..ndump]);
      ok, c := PutCopy(offs, runlen);
      if ok {
        Assoc(was, Dump(dumpbuf[..ndump]), c);
      } else {
        assert outbuf[..outp] == mid;
        TakePrefix(outbuf[..], |mid|, |was|);
      }
    }

    // No match: the byte joins the dump, which goes out first if it is full.
    method TokenLiteral(data: seq<byte>, ghost start: nat, p: nat, eline: nat, ndump: nat, q: nat, runlen: nat,
                        ghost rest: seq<byte>)
      returns (ok: bool, n: nat, ndump': nat, ghost rest': seq<byte>)
      requires Sound() && start + ndump <= p < eline <= |data| && ndump <= NDUMP
      requires dumpbuf[..ndump] == data[p - ndump..p] && IsRest(data, start, p - ndump, p, eline, rest)
      requires IsChosen(data, start, p, eline, q, runlen)
      requires runlen < NMATCH
      modifies this`outp, outbuf, dumpbuf
      ensures Sound() && (!ok ==> outp >= old(outp) && outbuf[..old(outp)] == old(outbuf[..outp]))
      ensures !ok ==> old(outp) + |rest| > outbuf.Length
      ensures ok ==> n > 0 && p + n <= eline && start + ndump' <= p + n && ndump' <= NDUMP
      ensures ok ==> dumpbuf[..ndump'] == data[p + n - ndump'..p + n]
      ensures ok ==> IsRest(data, start, p + n - ndump', p + n, eline, rest')
      ensures ok ==> outp >= old(outp) && outbuf[..outp] + rest' == old(outbuf[..outp]) + rest
    {
      ghost var f, c;
      f, c, rest' := RestStarts(data, start, p - ndump, p, eline, rest);
      BestSame(data, start, p, eline, f, q, runlen);
      LongerDump(data, p, ndump);
      ghost var was, d := outbuf[..outp], Dump(dumpbuf[..ndump]);
      ok, ndump' := Literal(data[p], ndump);
      if ndump == NDUMP { Assoc(was, d, rest'); }
      n := 1;
    }

    // A match goes out, after the dump.
    method TokenMatch(data: seq<byte>, ghost start: nat, p: nat, eline: nat, ndump: nat, q: nat, runlen: nat,
                      ghost rest: seq<byte>)
      returns (ok: bool, n: nat, ndump': nat, ghost rest': seq<byte>)
      requires Sound() && start + ndump <= p < eline <= |data| && ndump <= NDUMP
      requires dumpbuf[..ndump] == data[p - ndump..p] && IsRest(data, start, p - ndump, p, eline, rest)
      requires IsChosen(data, start, p, eline, q, runlen)
      requires runlen >= NMATCH
      modifies this`outp, outbuf, dumpbuf
      ensures Sound() && (!ok ==> outp >= old(outp) && outbuf[..old(outp)] == old(outbuf[..outp]))
      ensures !ok ==> old(outp) + |rest| > outbuf.Length
      ensures ok ==> n > 0 && p + n <= eline && start + ndump' <= p + n && ndump' <= NDUMP
      ensures ok ==> dumpbuf[..ndump'] == data[p + n - ndump'..p + n]
      ensures ok ==> IsRest(data, start, p + n - ndump', p + n, eline, rest')
      ensures ok ==> outp >= old(outp) && outbuf[..outp] + rest' == old(outbuf[..outp]) + rest
    {
      ghost var f, c;
      f, c, rest' := RestStarts(data, start, p - ndump, p, eline, rest);
      BestSame(data, start, p, eline, f, q, runlen);
      ghost var was, token := outbuf[..outp], Dump(dumpbuf[..ndump]) + c;
      assert rest == token + rest';
      ghost var c';
      ok, c' := Repeat(ndump, p - q - 1, runlen);
      SameCopy(c, c', p - q - 1, runlen);
      Assoc(was, token, rest');
      n, ndump' := runlen, 0;
    }

    // What the search found for p goes out.
    method Token(data: seq<byte>, ghost start: nat, p: nat, eline: nat, ndump: nat, q: nat, runlen: nat,
                 ghost rest: seq<byte>)
      returns (ok: bool, n: nat, ndump': nat, ghost rest': seq<byte>)
      requires Sound() && start + ndump <= p < eline <= |data| && ndump <= NDUMP
      requires dumpbuf[..ndump] == data[p - ndump..p] && IsRest(data, start, p - ndump, p, eline, rest)
      requires IsChosen(data, start, p, eline, q, runlen)
      modifies this`outp, outbuf, dumpbuf
      ensures Sound() && (!ok ==> outp >= old(outp) && outbuf[..old(outp)] == old(outbuf[..outp]))
      ensures !ok ==> old(outp) + |rest| > outbuf.Length
      ensures ok ==> n > 0 && p + n <= eline && start + ndump' <= p + n && ndump' <= NDUMP
      ensures ok ==> dumpbuf[..ndump'] == data[p + n - ndump'..p + n]
      ensures ok ==> IsRest(data, start, p + n - ndump', p + n, eline, rest')
      ensures ok ==> outp >= old(outp) && outbuf[..outp] + rest' == old(outbuf[..outp]) + rest
    {
      if runlen < NMATCH {
        ok, n, ndump', rest' := TokenLiteral(data, start, p, eline, ndump, q, runlen, rest);
      } else {
        ok, n, ndump', rest' := TokenMatch(data, start, p, eline, ndump, q, runlen, rest);
      }
    }

    // One turn of the line loop: a literal byte or a match.
    method Turn(data: seq<byte>, ghost start: nat, p: nat, eline: nat, ndump: nat, h: hash, ghost rest: seq<byte>)
      returns (ok: bool, p': nat, ndump': nat, h': hash, ghost rest': seq<byte>)
      requires Sound() && start + ndump <= p < eline <= |data| && ndump <= NDUMP
      requires RingOf(chains.View(), data, start, p) && HashOk(h, data, p)
      requires dumpbuf[..ndump] == data[p - ndump..p] && IsRest(data, start, p - ndump, p, eline, rest)
      modifies this`outp, outbuf, dumpbuf, chains`cp, chains`key, chains.next, chains.prev, chains.at
      ensures Sound() && (!ok ==> outp >= old(outp) && outbuf[..old(outp)] == old(outbuf[..outp]))
      ensures !ok ==> old(outp) + |rest| > outbuf.Length
      ensures ok ==> p < p' <= eline && start + ndump' <= p' && ndump' <= NDUMP
      ensures ok ==> RingOf(chains.View(), data, start, p') && HashOk(h', data, p')
      ensures ok ==> dumpbuf[..ndump'] == data[p' - ndump'..p'] && IsRest(data, start, p' - ndump', p', eline, rest')
      ensures ok ==> outp >= old(outp) && outbuf[..outp] + rest' == old(outbuf[..outp]) + rest
    {
      var es := if eline - p < NRUN then eline else p + NRUN;
      var q, runlen := chains.Find(h, data, start, p, es);
      var n;
      ok, n, ndump', rest' := Token(data, start, p, eline, ndump, q, runlen, rest);
      p', h' := p, h;
      if ok {
        h' := Consume(data, start, p, n, h);
        p' := p + n;
      }
    }

    method LastDump(ndump: nat) returns (ok: bool)
      requires Sound() && ndump <= NDUMP
      modifies this`outp, outbuf
      ensures Sound() && (ok <==> old(outp) + |Dump(dumpbuf[..ndump])| <= outbuf.Length)
      ensures ok ==> outbuf[..outp] == old(outbuf[..outp]) + Dump(dumpbuf[..ndump])
      ensures !ok ==> outp == old(outp) && outbuf[..] == old(outbuf[..])
    {
      ok := true;
      if ndump != 0 {
        ok := PutDump(ndump);
      }
    }

    // A line, after what is already in the buffer.
    method Line(data: seq<byte>, ghost start: nat, line: nat, bpl: nat, h: hash) returns (ok: bool, h': hash)
      requires Sound() && start <= line && line + bpl <= |data|
      requires RingOf(chains.View(), data, start, line) && HashOk(h, data, line)
      modifies this`outp, outbuf, dumpbuf, chains`cp, chains`key, chains.next, chains.prev, chains.at
      ensures Sound() && (!ok ==> outp >= old(outp) && outbuf[..old(outp)] == old(outbuf[..outp]))
      ensures ok <==> old(outp) + |EncodeLine(data, start, line, line + bpl, [])| <= outbuf.Length
      ensures ok ==> outbuf[..outp] == old(outbuf[..outp]) + EncodeLine(data, start, line, line + bpl, [])
      ensures ok ==> RingOf(chains.View(), data, start, line + bpl) && HashOk(h', data, line + bpl)
    {
      RestBegins(data, start, line, line + bpl);
      ok, h' := LineTo(data, start, line, line + bpl, h, EncodeLine(data, start, line, line + bpl, []));
    }

    method LineTo(data: seq<byte>, ghost start: nat, line: nat, eline: nat, h: hash, ghost code: seq<byte>)
      returns (ok: bool, h': hash)
      requires Sound() && start <= line <= eline <= |data| && IsRest(data, start, line, line, eline, code)
      requires RingOf(chains.View(), data, start, line) && HashOk(h, data, line)
      modifies this`outp, outbuf, dumpbuf, chains`cp, chains`key, chains.next, chains.prev, chains.at
      ensures Sound() && (!ok ==> outp >= old(outp) && outbuf[..old(outp)] == old(outbuf[..outp]))
      ensures ok <==> old(outp) + |code| <= outbuf.Length
      ensures ok ==> outbuf[..outp] == old(outbuf[..outp]) + code
      ensures ok ==> RingOf(chains.View(), data, start, eline) && HashOk(h', data, eline)
    {
      ghost var was := outbuf[..outp];
      var ndump: nat, p: nat := 0, line;
      h' := h;
      ghost var rest := code;
      while p != eline
        invariant Sound() && start + ndump <= p && line <= p <= eline && ndump <= NDUMP
        invariant RingOf(chains.View(), data, start, p) && HashOk(h', data, p)
        invariant dumpbuf[..ndump] == data[p - ndump..p] && IsRest(data, start, p - ndump, p, eline, rest)
        invariant was <= outbuf[..outp] && outbuf[..outp] + rest == was + code
        decreases eline - p
      {
        ghost var now := outbuf[..outp];
        ok, p, ndump, h', rest := Turn(data, start, p, eline, ndump, h', rest);
        if !ok {
          assert outbuf[..|was|] == outbuf[..|now|][..|was|];
          return;
        }
        Longer(was, code, outbuf[..outp], rest, now);
      }
      RestEnds(data, start, p - ndump, eline, rest);
      ok := LastDump(ndump);
    }

    // A block: whole lines from line on until one does not fit.  Near the end
    // of the data the first hash reads bytes beyond it, whatever they are.
    method Fill(data: seq<byte>, beyond: seq<byte>, bpl: nat, line: nat, y: int, ghost rows: nat)
      returns (line': nat, y': int, loutp: nat, ghost rows': nat)
      requires Sound() && Rows(data, bpl, line, rows) && rows > 0 && |beyond| >= NMATCH && 2 * bpl <= outbuf.Length
      modifies this`outp, outbuf, dumpbuf, chains`cp, chains`key, chains.next, chains.prev, chains.at
      ensures Sound() && 0 < loutp <= outbuf.Length
      ensures Fit(line', y', rows', outbuf[..loutp]) == FitLines(data, bpl, line, line, y, rows, outbuf.Length)
    {
      chains.Clear(data, line);
      outp := 0;
      var h := FirstHash(data, beyond, line);
      line', y', loutp, rows' := FillFrom(data, bpl, line, y, rows, h);
      FirstFits(data, bpl, line, y, rows, outbuf.Length);
    }

    // The hash of the three bytes from line on.
    static method FirstHash(data: seq<byte>, beyond: seq<byte>, line: nat) returns (h: hash)
      requires line <= |data| && |beyond| >= NMATCH
      ensures HashOk(h, data, line)
    {
      h := 0;
      ghost var b := k requires 0 <= k < 3 => if line + k < |data| then data[line + k] else beyond[line + k - |data|];
      for n := 0 to NMATCH
        invariant (n == 0 ==> h == 0) && (n == 1 ==> h == Hupdate(0, b(0)))
        invariant (n == 2 ==> h == Hupdate(Hupdate(0, b(0)), b(1))) && (n == 3 ==> h == Hash3(b(0), b(1), b(2)))
      {
        h := Hupdate(h, if line + n < |data| then data[line + n] else beyond[line + n - |data|]);
      }
    }

    // The lines of the block, in a window that starts with the first of them.
    method FillFrom(data: seq<byte>, bpl: nat, line: nat, y: int, ghost rows: nat, h0: hash)
      returns (line': nat, y': int, loutp: nat, ghost rows': nat)
      requires Sound() && Rows(data, bpl, line, rows) && outp == 0
      requires line <= |data| && RingOf(chains.View(), data, line, line) && HashOk(h0, data, line)
      modifies this`outp, outbuf, dumpbuf, chains`cp, chains`key, chains.next, chains.prev, chains.at
      ensures Sound() && loutp <= outbuf.Length
      ensures Fit(line', y', rows', outbuf[..loutp]) == FitLines(data, bpl, line, line, y, rows, outbuf.Length)
    {
      var h := h0;
      line', y', loutp, rows' := line, y, 0, rows;
      ghost var room := outbuf.Length;
      ghost var all := FitLines(data, bpl, line, line, y, rows, room);
      while line' != |data|
        invariant Sound() && line <= line' && Rows(data, bpl, line', rows') && loutp == outp
        invariant RingOf(chains.View(), data, line, line') && HashOk(h, data, line')
        invariant FilledTo(data, bpl, line, line', y', rows', room, outbuf[..loutp], all)
        decreases rows'
      {
        ghost var done := outbuf[..loutp];
        var ok;
        ok, h := Line(data, line, line', bpl, h);
        if !ok {
          FullAt(data, bpl, line, line', y', rows', room, done, all);
          return;
        }
        FilledMore(data, bpl, line, line', y', rows', room, done, all);
        line', loutp, y', rows' := line' + bpl, outp, y' + 1, rows' - 1;
      }
    }
  }

  // What FitLines gives is what is done and then as many lines as fit after it.
  ghost predicate FilledTo(data: seq<byte>, bpl: nat, start: nat, line: nat, y: int, rows: nat, room: nat,
                           done: seq<byte>, all: Fit)
    requires start <= line && Rows(data, bpl, line, rows)
  {
    && |done| <= room
    && var f := FitLines(data, bpl, start, line, y, rows, room - |done|);
    all == f.(code := done + f.code)
  }

  lemma FilledMore(data: seq<byte>, bpl: nat, start: nat, line: nat, y: int, rows: nat, room: nat, done: seq<byte>,
                   all: Fit)
    requires start <= line && Rows(data, bpl, line, rows) && rows > 0
    requires FilledTo(data, bpl, start, line, y, rows, room, done, all)
    requires |done| + |EncodeLine(data, start, line, line + bpl, [])| <= room
    ensures FilledTo(data, bpl, start, line + bpl, y + 1, rows - 1, room,
                     done + EncodeLine(data, start, line, line + bpl, []), all)
  {
    var c := EncodeLine(data, start, line, line + bpl, []);
    var f := FitLines(data, bpl, start, line + bpl, y + 1, rows - 1, room - |done| - |c|);
    assert done + (c + f.code) == done + c + f.code;
  }

  lemma FullAt(data: seq<byte>, bpl: nat, start: nat, line: nat, y: int, rows: nat, room: nat, done: seq<byte>,
               all: Fit)
    requires start <= line && Rows(data, bpl, line, rows) && rows > 0
    requires FilledTo(data, bpl, start, line, y, rows, room, done, all)
    requires |done| + |EncodeLine(data, start, line, line + bpl, [])| > room
    ensures all == Fit(line, y, rows, done)
  {
    assert done + [] == done;
  }

  lemma RestBegins(data: seq<byte>, start: nat, line: nat, eline: nat)
    requires start <= line <= eline <= |data|
    ensures data[line..line] == [] && IsRest(data, start, line, line, eline, EncodeLine(data, start, line, eline, []))
  {
    assert data[line..line] == [];
  }

  // What is written only grows.
  lemma Longer(was: seq<byte>, code: seq<byte>, now: seq<byte>, rest: seq<byte>, before: seq<byte>)
    requires was <= before && |before| <= |now| && now + rest == was + code
    ensures was <= now
  {
    assert (now + rest)[..|was|] == (was + code)[..|was|];
    assert now[..|was|] == was;
  }

  lemma TakePrefix(s: seq<byte>, m: nat, n: nat)
    requires n <= m <= |s|
    ensures s[..m][..n] == s[..n]
  {
  }

  lemma Assoc(a: seq<byte>, b: seq<byte>, c: seq<byte>)
    ensures a + b + c == a + (b + c)
  {
  }

  lemma LongerDump(data: seq<byte>, p: nat, n: nat)
    requires n <= p < |data|
    ensures data[p - n..p] + [data[p]] == data[p - n..p + 1] && [data[p]] == data[p..p + 1]
  {
  }

  predicate ChosenKey(u: int) { true }

  // The search's choice is the reference encoder's.  Opened by ChosenKey(0).
  ghost predicate IsChosen(data: seq<byte>, start: nat, p: nat, eline: nat, q: nat, n: nat)
    requires start <= p <= eline <= |data|
  {
    forall u: int {:trigger ChosenKey(u)} :: ChosenKey(u) ==> Agrees(q, n, BestMatch(data, start, p, eline))
  }

  lemma BestSame(data: seq<byte>, start: nat, p: nat, eline: nat, f: Found, q: nat, n: nat)
    requires start <= p <= eline <= |data| && IsBest(data, start, p, eline, f) && IsChosen(data, start, p, eline, q, n)
    ensures Agrees(q, n, f)
  {
    assert ChosenKey(0) && BestKey(0);
  }

  lemma NextBlock(data: seq<byte>, bpl: nat, line: nat, y: int, rows: nat, ncblock: nat, blocks: seq<Block>)
    requires Rows(data, bpl, line, rows) && 2 * bpl <= ncblock && rows > 0
    ensures var f := FitLines(data, bpl, line, line, y, rows, ncblock);
      && f.rows < rows
      && blocks + Compress(data, bpl, line, y, rows, ncblock)
         == blocks + [Block(f.y, f.code)] + Compress(data, bpl, f.line, f.y, f.rows, ncblock)
  {
    FirstFits(data, bpl, line, y, rows, ncblock);
  }

  // The image's blocks, row by row from miny: bpl bytes for each of rows rows.
  method WriteBlocks(data: seq<byte>, beyond: seq<byte>, bpl: nat, miny: int, ghost rows: nat)
    returns (blocks: seq<Block>)
    requires |data| == rows * bpl && |beyond| >= NMATCH
    ensures blocks == Written(data, bpl, miny, rows)
  {
    var e := new Encoder(BlockSize(bpl));
    ghost var ncblock := BlockSize(bpl);
    blocks := [];
    var line, y := 0, miny;
    ghost var left := rows;
    RowsProduct(data, bpl, 0, rows);
    if bpl == 0 { Zero(rows, bpl); }
    while line != |data|
      invariant e.Sound() && e.outbuf.Length == ncblock && fresh(e.outbuf) && fresh(e.dumpbuf) && fresh(e.chains)
      invariant fresh(e) && fresh(e.chains.next) && fresh(e.chains.prev) && fresh(e.chains.at)
      invariant bpl == 0 ==> line == |data|
      invariant bpl > 0 ==> Rows(data, bpl, line, left)
      invariant bpl > 0 ==> Written(data, bpl, miny, rows) == blocks + Compress(data, bpl, line, y, left, ncblock)
      invariant bpl == 0 ==> blocks == []
      decreases left
    {
      NextBlock(data, bpl, line, y, left, ncblock, blocks);
      var n;
      line, y, n, left := e.Fill(data, beyond, bpl, line, y, left);
      blocks := blocks + [Block(y, e.outbuf[..n])];
    }
  }
}
