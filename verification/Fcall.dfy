// 9P messages: their fields, their wire form, and the two conversions.  The 27
// cases of each conversion's switch are the rows of Fields (what a message
// carries, in wire order) and Layout (what a message type carries).
module Fcall {
  import opened Basics

  const MAXWELEM := 16
  const BIT8SZ := 1
  const BIT16SZ := 2
  const BIT32SZ := 4
  const BIT64SZ := 8
  const QIDSZ := BIT8SZ + BIT32SZ + BIT64SZ

  // -- messages ------------------------------------------------------------------------

  datatype Qid = Qid(qtype: nat, vers: nat, path: nat)

  // A string; nil is None.
  type Text = Option<seq<byte>>

  datatype Msg =
    | Tversion(msize: nat, version: Text)
    | Rversion(msize: nat, version: Text)
    | Tauth(afid: nat, uname: Text, aname: Text)
    | Rauth(aqid: Qid)
    | Tattach(fid: nat, afid: nat, uname: Text, aname: Text)
    | Rattach(qid: Qid)
    | Rerror(ename: Text)
    | Tflush(oldtag: nat)
    | Rflush
    | Twalk(fid: nat, newfid: nat, wname: seq<Text>)
    | Rwalk(wqid: seq<Qid>)
    | Topen(fid: nat, mode: nat)
    | Ropen(qid: Qid, iounit: nat)
    | Tcreate(fid: nat, name: Text, perm: nat, mode: nat)
    | Rcreate(qid: Qid, iounit: nat)
    | Tread(fid: nat, offset: nat, count: nat)
    | Rread(data: seq<byte>)
    | Twrite(fid: nat, offset: nat, data: seq<byte>)
    | Rwrite(count: nat)
    | Tclunk(fid: nat)
    | Rclunk
    | Tremove(fid: nat)
    | Rremove
    | Tstat(fid: nat)
    | Rstat(stat: seq<byte>)
    | Twstat(fid: nat, stat: seq<byte>)
    | Rwstat

  function TypeOf(m: Msg): nat
  {
    match m
    case Tversion(_, _) => 100
    case Rversion(_, _) => 101
    case Tauth(_, _, _) => 102
    case Rauth(_) => 103
    case Tattach(_, _, _, _) => 104
    case Rattach(_) => 105
    case Rerror(_) => 107
    case Tflush(_) => 108
    case Rflush => 109
    case Twalk(_, _, _) => 110
    case Rwalk(_) => 111
    case Topen(_, _) => 112
    case Ropen(_, _) => 113
    case Tcreate(_, _, _, _) => 114
    case Rcreate(_, _) => 115
    case Tread(_, _, _) => 116
    case Rread(_) => 117
    case Twrite(_, _, _) => 118
    case Rwrite(_) => 119
    case Tclunk(_) => 120
    case Rclunk => 121
    case Tremove(_) => 122
    case Rremove => 123
    case Tstat(_) => 124
    case Rstat(_) => 125
    case Twstat(_, _) => 126
    case Rwstat => 127
  }

  // -- fields --------------------------------------------------------------------------

  // A field's value: an integer of w bytes, a counted string, a qid, bytes with
  // a 32-bit or a 16-bit count, a walk's names or qids with a 16-bit count.
  datatype Val =
    | Int(w: nat, v: nat)
    | Str(s: Text)
    | QidV(q: Qid)
    | Data(d: seq<byte>)
    | Stat(d: seq<byte>)
    | Names(ns: seq<Text>)
    | Qids(qs: seq<Qid>)

  datatype Kind = KInt(w: nat) | KStr | KQid | KData | KStat | KNames | KQids

  function V8(v: nat): Val { Int(BIT8SZ, v) }
  function V16(v: nat): Val { Int(BIT16SZ, v) }
  function V32(v: nat): Val { Int(BIT32SZ, v) }
  function V64(v: nat): Val { Int(BIT64SZ, v) }

  function Fields(m: Msg): seq<Val>
  {
    match m
    case Tversion(msize, version) => [V32(msize), Str(version)]
    case Rversion(msize, version) => [V32(msize), Str(version)]
    case Tauth(afid, uname, aname) => [V32(afid), Str(uname), Str(aname)]
    case Rauth(aqid) => [QidV(aqid)]
    case Tattach(fid, afid, uname, aname) => [V32(fid), V32(afid), Str(uname), Str(aname)]
    case Rattach(qid) => [QidV(qid)]
    case Rerror(ename) => [Str(ename)]
    case Tflush(oldtag) => [V16(oldtag)]
    case Rflush => []
    case Twalk(fid, newfid, wname) => [V32(fid), V32(newfid), Names(wname)]
    case Rwalk(wqid) => [Qids(wqid)]
    case Topen(fid, mode) => [V32(fid), V8(mode)]
    case Ropen(qid, iounit) => [QidV(qid), V32(iounit)]
    case Tcreate(fid, name, perm, mode) => [V32(fid), Str(name), V32(perm), V8(mode)]
    case Rcreate(qid, iounit) => [QidV(qid), V32(iounit)]
    case Tread(fid, offset, count) => [V32(fid), V64(offset), V32(count)]
    case Rread(data) => [Data(data)]
    case Twrite(fid, offset, data) => [V32(fid), V64(offset), Data(data)]
    case Rwrite(count) => [V32(count)]
    case Tclunk(fid) => [V32(fid)]
    case Rclunk => []
    case Tremove(fid) => [V32(fid)]
    case Rremove => []
    case Tstat(fid) => [V32(fid)]
    case Rstat(stat) => [Stat(stat)]
    case Twstat(fid, stat) => [V32(fid), Stat(stat)]
    case Rwstat => []
  }

  function Layout(t: nat): Option<seq<Kind>>
  {
    var k8, k16, k32, k64 := KInt(BIT8SZ), KInt(BIT16SZ), KInt(BIT32SZ), KInt(BIT64SZ);
    if t == 100 then Some([k32, KStr])
    else if t == 101 then Some([k32, KStr])
    else if t == 102 then Some([k32, KStr, KStr])
    else if t == 103 then Some([KQid])
    else if t == 104 then Some([k32, k32, KStr, KStr])
    else if t == 105 then Some([KQid])
    else if t == 107 then Some([KStr])
    else if t == 108 then Some([k16])
    else if t == 109 then Some([])
    else if t == 110 then Some([k32, k32, KNames])
    else if t == 111 then Some([KQids])
    else if t == 112 then Some([k32, k8])
    else if t == 113 then Some([KQid, k32])
    else if t == 114 then Some([k32, KStr, k32, k8])
    else if t == 115 then Some([KQid, k32])
    else if t == 116 then Some([k32, k64, k32])
    else if t == 117 then Some([KData])
    else if t == 118 then Some([k32, k64, KData])
    else if t == 119 then Some([k32])
    else if t == 120 then Some([k32])
    else if t == 121 then Some([])
    else if t == 122 then Some([k32])
    else if t == 123 then Some([])
    else if t == 124 then Some([k32])
    else if t == 125 then Some([KStat])
    else if t == 126 then Some([k32, KStat])
    else if t == 127 then Some([])
    else None
  }

  function KindOf(v: Val): Kind
  {
    match v
    case Int(w, _) => KInt(w)
    case Str(_) => KStr
    case QidV(_) => KQid
    case Data(_) => KData
    case Stat(_) => KStat
    case Names(_) => KNames
    case Qids(_) => KQids
  }

  function KindsOf(vs: seq<Val>): (ks: seq<Kind>)
    ensures |ks| == |vs| && forall i :: 0 <= i < |vs| ==> ks[i] == KindOf(vs[i])
  {
    seq(|vs|, i requires 0 <= i < |vs| => KindOf(vs[i]))
  }

  predicate KindsAre(ks: seq<Kind>, vs: seq<Val>)
  {
    |ks| == |vs| && forall i :: 0 <= i < |vs| ==> ks[i] == KindOf(vs[i])
  }

  // The two tables agree: what starts a session, and what follows.
  lemma EarlyFields(m: Msg)
    requires TypeOf(m) < 112
    ensures Layout(TypeOf(m)).Some? && KindsAre(Layout(TypeOf(m)).value, Fields(m))
  {
  }

  lemma MiddleFields(m: Msg)
    requires 112 <= TypeOf(m) < 119
    ensures Layout(TypeOf(m)).Some? && KindsAre(Layout(TypeOf(m)).value, Fields(m))
  {
  }

  lemma LateFields(m: Msg)
    requires 119 <= TypeOf(m)
    ensures Layout(TypeOf(m)).Some? && KindsAre(Layout(TypeOf(m)).value, Fields(m))
  {
  }

  lemma LayoutFields(m: Msg)
    ensures Layout(TypeOf(m)) == Some(KindsOf(Fields(m)))
  {
    if TypeOf(m) < 112 {
      EarlyFields(m);
    } else if TypeOf(m) < 119 {
      MiddleFields(m);
    } else {
      LateFields(m);
    }
    assert Layout(TypeOf(m)).value == KindsOf(Fields(m));
  }

  // The message of a type with given fields.
  function Make(t: nat, vs: seq<Val>): Msg
    requires Layout(t) == Some(KindsOf(vs))
  {
    if t == 100 then Tversion(vs[0].v, vs[1].s)
    else if t == 101 then Rversion(vs[0].v, vs[1].s)
    else if t == 102 then Tauth(vs[0].v, vs[1].s, vs[2].s)
    else if t == 103 then Rauth(vs[0].q)
    else if t == 104 then Tattach(vs[0].v, vs[1].v, vs[2].s, vs[3].s)
    else if t == 105 then Rattach(vs[0].q)
    else if t == 107 then Rerror(vs[0].s)
    else if t == 108 then Tflush(vs[0].v)
    else if t == 109 then Rflush
    else if t == 110 then Twalk(vs[0].v, vs[1].v, vs[2].ns)
    else if t == 111 then Rwalk(vs[0].qs)
    else if t == 112 then Topen(vs[0].v, vs[1].v)
    else if t == 113 then Ropen(vs[0].q, vs[1].v)
    else if t == 114 then Tcreate(vs[0].v, vs[1].s, vs[2].v, vs[3].v)
    else if t == 115 then Rcreate(vs[0].q, vs[1].v)
    else if t == 116 then Tread(vs[0].v, vs[1].v, vs[2].v)
    else if t == 117 then Rread(vs[0].d)
    else if t == 118 then Twrite(vs[0].v, vs[1].v, vs[2].d)
    else if t == 119 then Rwrite(vs[0].v)
    else if t == 120 then Tclunk(vs[0].v)
    else if t == 121 then Rclunk
    else if t == 122 then Tremove(vs[0].v)
    else if t == 123 then Rremove
    else if t == 124 then Tstat(vs[0].v)
    else if t == 125 then Rstat(vs[0].d)
    else if t == 126 then Twstat(vs[0].v, vs[1].d)
    else Rwstat
  }

  lemma MakeFields(m: Msg)
    ensures Layout(TypeOf(m)) == Some(KindsOf(Fields(m))) && Make(TypeOf(m), Fields(m)) == m
  {
    LayoutFields(m);
  }

  // And every message type with its fields is a message of that type.
  lemma EarlyMade(t: nat, vs: seq<Val>)
    requires Layout(t) == Some(KindsOf(vs)) && t < 113
    ensures TypeOf(Make(t, vs)) == t && Fields(Make(t, vs)) == vs
  {
  }

  lemma LateMade(t: nat, vs: seq<Val>)
    requires Layout(t) == Some(KindsOf(vs)) && 113 <= t
    ensures TypeOf(Make(t, vs)) == t && Fields(Make(t, vs)) == vs
  {
  }

  lemma FieldsMake(t: nat, vs: seq<Val>)
    requires Layout(t) == Some(KindsOf(vs))
    ensures TypeOf(Make(t, vs)) == t && Fields(Make(t, vs)) == vs
  {
    if t < 113 { EarlyMade(t, vs); } else { LateMade(t, vs); }
  }

  // -- the wire form ------------------------------------------------------------------------

  // v in w bytes, low byte first, losing what does not fit.
  function Put(w: nat, v: nat): (r: seq<byte>)
    ensures |r| == w
  {
    if w == 0 then [] else [v % 256] + Put(w - 1, v / 256)
  }

  function Get(b: seq<byte>): (v: nat)
  {
    if b == [] then 0 else b[0] as nat + 256 * Get(b[1..])
  }

  function Limit(w: nat): nat { if w == 0 then 1 else 256 * Limit(w - 1) }

  lemma {:induction false} GetPut(w: nat, v: nat)
    requires v < Limit(w)
    ensures Get(Put(w, v)) == v
  {
    if w > 0 {
      assert Put(w, v)[1..] == Put(w - 1, v / 256);
      GetPut(w - 1, v / 256);
    }
  }

  lemma {:induction false} PutGet(b: seq<byte>)
    ensures Get(b) < Limit(|b|) && Put(|b|, Get(b)) == b
    decreases |b|
  {
    if b != [] {
      PutGet(b[1..]);
      var lo, hi := b[0] as nat, Get(b[1..]);
      ModUnique(lo + 256 * hi, hi, lo, 256);
      assert Put(|b|, Get(b)) == [b[0]] + Put(|b| - 1, hi);
    }
  }

  function Chars(s: Text): seq<byte> { if s.Some? then s.value else [] }

  function WireText(s: Text): seq<byte> { Put(BIT16SZ, |Chars(s)|) + Chars(s) }

  function WireQid(q: Qid): (r: seq<byte>)
    ensures |r| == QIDSZ
  {
    Put(BIT8SZ, q.qtype) + Put(BIT32SZ, q.vers) + Put(BIT64SZ, q.path)
  }

  function WireTexts(ns: seq<Text>): seq<byte> { if ns == [] then [] else WireText(ns[0]) + WireTexts(ns[1..]) }
  function WireQids(qs: seq<Qid>): seq<byte> { if qs == [] then [] else WireQid(qs[0]) + WireQids(qs[1..]) }

  function WireVal(v: Val): seq<byte>
  {
    match v
    case Int(w, n) => Put(w, n)
    case Str(s) => WireText(s)
    case QidV(q) => WireQid(q)
    case Data(d) => Put(BIT32SZ, |d|) + d
    case Stat(d) => Put(BIT16SZ, |d|) + d
    case Names(ns) => Put(BIT16SZ, |ns|) + WireTexts(ns)
    case Qids(qs) => Put(BIT16SZ, |qs|) + WireQids(qs)
  }

  function WireVals(vs: seq<Val>): seq<byte> { if vs == [] then [] else WireVal(vs[0]) + WireVals(vs[1..]) }

  const HDRSZ := BIT32SZ + BIT8SZ + BIT16SZ

  // size[4] type[1] tag[2] and the fields.
  function Wire(m: Msg, tag: nat): seq<byte>
  {
    Put(BIT32SZ, HDRSZ + |WireVals(Fields(m))|) + Put(BIT8SZ, TypeOf(m)) + Put(BIT16SZ, tag) + WireVals(Fields(m))
  }

  // What a caller of convS2M gives it: integers that fit their width, strings
  // and stat buffers under 2^16 bytes, at most MAXWELEM names or qids, and less
  // than 2^32 bytes in all.
  predicate TextOk(s: Text) { |Chars(s)| < Limit(BIT16SZ) }
  predicate QidOk(q: Qid) { q.qtype < Limit(BIT8SZ) && q.vers < Limit(BIT32SZ) && q.path < Limit(BIT64SZ) }

  predicate ValOk(v: Val)
  {
    match v
    case Int(w, n) => n < Limit(w)
    case Str(s) => TextOk(s)
    case QidV(q) => QidOk(q)
    case Data(d) => |d| < Limit(BIT32SZ)
    case Stat(d) => |d| < Limit(BIT16SZ)
    case Names(ns) => |ns| <= MAXWELEM && forall i :: 0 <= i < |ns| ==> TextOk(ns[i])
    case Qids(qs) => |qs| <= MAXWELEM && forall i :: 0 <= i < |qs| ==> QidOk(qs[i])
  }

  lemma Limits()
    ensures Limit(1) == 256 && Limit(2) == 65536 && Limit(4) == 4294967296 && Limit(8) == 4294967296 * 4294967296
  {
    assert Limit(1) == 256 && Limit(3) == 256 * Limit(2) && Limit(5) == 256 * Limit(4);
    assert Limit(6) == 256 * Limit(5) && Limit(7) == 256 * Limit(6);
  }

  predicate ValsOk(vs: seq<Val>) { forall i :: 0 <= i < |vs| ==> ValOk(vs[i]) }

  predicate MsgOk(m: Msg, tag: nat)
  {
    ValsOk(Fields(m)) && tag < Limit(BIT16SZ) && HDRSZ + |WireVals(Fields(m))| < Limit(BIT32SZ)
  }

  // -- the size -------------------------------------------------------------------------------

  function Stringsz(s: Text): nat { BIT16SZ + if s == None then 0 else |s.value| }
  function Stringszs(ns: seq<Text>): nat { if ns == [] then 0 else Stringsz(ns[0]) + Stringszs(ns[1..]) }

  function SizeS2M(m: Msg): nat
  {
    BIT32SZ + BIT8SZ + BIT16SZ +
    match m
    case Tversion(_, version) => BIT32SZ + Stringsz(version)
    case Rversion(_, version) => BIT32SZ + Stringsz(version)
    case Tauth(_, uname, aname) => BIT32SZ + Stringsz(uname) + Stringsz(aname)
    case Rauth(_) => QIDSZ
    case Tattach(_, _, uname, aname) => BIT32SZ + BIT32SZ + Stringsz(uname) + Stringsz(aname)
    case Rattach(_) => QIDSZ
    case Rerror(ename) => Stringsz(ename)
    case Tflush(_) => BIT16SZ
    case Rflush => 0
    case Twalk(_, _, wname) => BIT32SZ + BIT32SZ + BIT16SZ + Stringszs(wname)
    case Rwalk(wqid) => BIT16SZ + |wqid| * QIDSZ
    case Topen(_, _) => BIT32SZ + BIT8SZ
    case Ropen(_, _) => QIDSZ + BIT32SZ
    case Tcreate(_, name, _, _) => BIT32SZ + Stringsz(name) + BIT32SZ + BIT8SZ
    case Rcreate(_, _) => QIDSZ + BIT32SZ
    case Tread(_, _, _) => BIT32SZ + BIT64SZ + BIT32SZ
    case Rread(data) => BIT32SZ + |data|
    case Twrite(_, _, data) => BIT32SZ + BIT64SZ + BIT32SZ + |data|
    case Rwrite(_) => BIT32SZ
    case Tclunk(_) => BIT32SZ
    case Rclunk => 0
    case Tremove(_) => BIT32SZ
    case Rremove => 0
    case Tstat(_) => BIT32SZ
    case Rstat(stat) => BIT16SZ + |stat|
    case Twstat(_, stat) => BIT32SZ + BIT16SZ + |stat|
    case Rwstat => 0
  }

  lemma {:induction false} TextsSize(ns: seq<Text>)
    ensures |WireTexts(ns)| == Stringszs(ns)
    decreases |ns|
  {
    if ns != [] { TextsSize(ns[1..]); }
  }

  lemma {:induction false} QidsSize(qs: seq<Qid>)
    ensures |WireQids(qs)| == |qs| * QIDSZ
    decreases |qs|
  {
    if qs != [] { QidsSize(qs[1..]); }
  }

  // sizeS2M is exact.
  lemma EarlySize(m: Msg)
    requires TypeOf(m) < 112
    ensures SizeS2M(m) == HDRSZ + |WireVals(Fields(m))|
  {
    SizeOfFew(Fields(m));
    if m.Twalk? { TextsSize(m.wname); }
    if m.Rwalk? { QidsSize(m.wqid); }
  }

  lemma MiddleSize(m: Msg)
    requires 112 <= TypeOf(m) < 119
    ensures SizeS2M(m) == HDRSZ + |WireVals(Fields(m))|
  {
    SizeOfFew(Fields(m));
  }

  lemma LateSize(m: Msg)
    requires 119 <= TypeOf(m)
    ensures SizeS2M(m) == HDRSZ + |WireVals(Fields(m))|
  {
    SizeOfFew(Fields(m));
  }

  function SizeAt(vs: seq<Val>, i: nat): nat { if i < |vs| then |WireVal(vs[i])| else 0 }

  lemma SizeOfFew(vs: seq<Val>)
    ensures |vs| <= 4 ==> |WireVals(vs)| == SizeAt(vs, 0) + SizeAt(vs, 1) + SizeAt(vs, 2) + SizeAt(vs, 3)
  {
    if |vs| <= 4 {
      SizeFrom(vs, 0);
      SizeFrom(vs, 1);
      SizeFrom(vs, 2);
      SizeFrom(vs, 3);
      assert vs[0..] == vs;
    }
  }

  lemma SizeFrom(vs: seq<Val>, i: nat)
    ensures i < |vs| ==> |WireVals(vs[i..])| == SizeAt(vs, i) + |WireVals(vs[i + 1..])|
    ensures i == |vs| ==> |WireVals(vs[i..])| == 0
  {
    if i < |vs| { assert vs[i..][1..] == vs[i + 1..]; }
  }

  lemma SizeExact(m: Msg, tag: nat)
    ensures SizeS2M(m) == |Wire(m, tag)|
  {
    if TypeOf(m) < 112 {
      EarlySize(m);
    } else if TypeOf(m) < 119 {
      MiddleSize(m);
    } else {
      LateSize(m);
    }
  }

  // -- the wire form, message by message ----------------------------------------------------------

  function Le2(v: nat): seq<byte> { [v % 256, v / 256 % 256] }
  function Le4(v: nat): seq<byte> { Le2(v) + Le2(v / 65536) }
  function Le8(v: nat): seq<byte> { Le4(v) + Le4(v / 4294967296) }
  function Bytes2(d: seq<byte>): seq<byte> { Le2(|d|) + d }
  function Bytes4(d: seq<byte>): seq<byte> { Le4(|d|) + d }
  function String(s: Text): seq<byte> { Bytes2(Chars(s)) }
  function Qid13(q: Qid): seq<byte> { [q.qtype % 256] + Le4(q.vers) + Le8(q.path) }
  function Strings(ns: seq<Text>): seq<byte> { if ns == [] then [] else String(ns[0]) + Strings(ns[1..]) }
  function Qid13s(qs: seq<Qid>): seq<byte> { if qs == [] then [] else Qid13(qs[0]) + Qid13s(qs[1..]) }

  // Type byte and fields, as section 5 of the manual lists them.
  function Body(m: Msg): (byte, seq<byte>)
  {
    match m
    case Tversion(msize, version) => (100, Le4(msize) + String(version))
    case Rversion(msize, version) => (101, Le4(msize) + String(version))
    case Tauth(afid, uname, aname) => (102, Le4(afid) + String(uname) + String(aname))
    case Rauth(aqid) => (103, Qid13(aqid))
    case Tattach(fid, afid, uname, aname) => (104, Le4(fid) + Le4(afid) + String(uname) + String(aname))
    case Rattach(qid) => (105, Qid13(qid))
    case Rerror(ename) => (107, String(ename))
    case Tflush(oldtag) => (108, Le2(oldtag))
    case Rflush => (109, [])
    case Twalk(fid, newfid, wname) => (110, Le4(fid) + Le4(newfid) + (Le2(|wname|) + Strings(wname)))
    case Rwalk(wqid) => (111, Le2(|wqid|) + Qid13s(wqid))
    case Topen(fid, mode) => (112, Le4(fid) + [mode % 256])
    case Ropen(qid, iounit) => (113, Qid13(qid) + Le4(iounit))
    case Tcreate(fid, name, perm, mode) => (114, Le4(fid) + String(name) + Le4(perm) + [mode % 256])
    case Rcreate(qid, iounit) => (115, Qid13(qid) + Le4(iounit))
    case Tread(fid, offset, count) => (116, Le4(fid) + Le8(offset) + Le4(count))
    case Rread(data) => (117, Bytes4(data))
    case Twrite(fid, offset, data) => (118, Le4(fid) + Le8(offset) + Bytes4(data))
    case Rwrite(count) => (119, Le4(count))
    case Tclunk(fid) => (120, Le4(fid))
    case Rclunk => (121, [])
    case Tremove(fid) => (122, Le4(fid))
    case Rremove => (123, [])
    case Tstat(fid) => (124, Le4(fid))
    case Rstat(stat) => (125, Bytes2(stat))
    case Twstat(fid, stat) => (126, Le4(fid) + Bytes2(stat))
    case Rwstat => (127, [])
  }

  lemma PutLe2(v: nat)
    ensures Put(1, v) == [v % 256] && Put(2, v) == Le2(v)
  {
    assert Put(0, v / 256) == [] && Put(0, v / 256 / 256) == [];
    assert Put(1, v / 256) == [v / 256 % 256] + Put(0, v / 256 / 256);
    assert Put(2, v) == [v % 256] + Put(1, v / 256);
  }

  lemma PutLe4(v: nat)
    ensures Put(4, v) == Le4(v)
  {
    PutLe2(v);
    PutLe2(v / 256 / 256);
    assert v / 256 / 256 == v / 65536;
    assert Put(4, v) == [v % 256] + Put(3, v / 256) == [v % 256] + ([v / 256 % 256] + Put(2, v / 256 / 256));
  }

  lemma PutLe8(v: nat)
    ensures Put(8, v) == Le8(v)
  {
    PutFour(8, v);
    assert v / 256 / 256 / 256 / 256 == v / 4294967296;
    PutLe4(v);
    PutLe4(v / 4294967296);
  }

  lemma PutFour(w: nat, v: nat)
    requires w >= 4
    ensures Put(w, v) == Put(4, v) + Put(w - 4, v / 256 / 256 / 256 / 256)
  {
    PutStep(w, v);
    PutStep(w - 1, v / 256);
    PutStep(w - 2, v / 256 / 256);
    PutStep(w - 3, v / 256 / 256 / 256);
    PutStep(4, v);
    PutStep(3, v / 256);
    PutStep(2, v / 256 / 256);
    PutStep(1, v / 256 / 256 / 256);
  }

  lemma PutStep(w: nat, v: nat)
    requires w > 0
    ensures Put(w, v) == [v % 256] + Put(w - 1, v / 256)
  {
  }

  lemma ValBytes(v: Val)
    ensures v.Int? && v.w == 1 ==> WireVal(v) == [v.v % 256]
    ensures v.Int? && v.w == 2 ==> WireVal(v) == Le2(v.v)
    ensures v.Int? && v.w == 4 ==> WireVal(v) == Le4(v.v)
    ensures v.Int? && v.w == 8 ==> WireVal(v) == Le8(v.v)
    ensures v.Str? ==> WireVal(v) == String(v.s)
    ensures v.QidV? ==> WireVal(v) == Qid13(v.q)
    ensures v.Data? ==> WireVal(v) == Bytes4(v.d)
    ensures v.Stat? ==> WireVal(v) == Bytes2(v.d)
    ensures v.Names? ==> WireVal(v) == Le2(|v.ns|) + Strings(v.ns)
    ensures v.Qids? ==> WireVal(v) == Le2(|v.qs|) + Qid13s(v.qs)
  {
    match v
    case Int(_, n) => PutLe2(n); PutLe4(n); PutLe8(n);
    case Str(s) => PutLe2(|Chars(s)|);
    case QidV(q) => QidBytes(q);
    case Data(d) => PutLe4(|d|);
    case Stat(d) => PutLe2(|d|);
    case Names(ns) => PutLe2(|ns|); NameBytes(ns);
    case Qids(qs) => PutLe2(|qs|); QidsBytes(qs);
  }

  lemma QidBytes(q: Qid)
    ensures WireQid(q) == Qid13(q)
  {
    PutLe2(q.qtype);
    PutLe4(q.vers);
    PutLe8(q.path);
  }

  lemma {:induction false} NameBytes(ns: seq<Text>)
    ensures WireTexts(ns) == Strings(ns)
    decreases |ns|
  {
    if ns != [] {
      PutLe2(|Chars(ns[0])|);
      NameBytes(ns[1..]);
    }
  }

  lemma {:induction false} QidsBytes(qs: seq<Qid>)
    ensures WireQids(qs) == Qid13s(qs)
    decreases |qs|
  {
    if qs != [] {
      QidBytes(qs[0]);
      QidsBytes(qs[1..]);
    }
  }

  lemma WireOne(vs: seq<Val>)
    ensures vs == [] ==> WireVals(vs) == []
    ensures |vs| == 1 ==> WireVals(vs) == WireVal(vs[0])
  {
    if |vs| == 1 { assert vs[1..] == []; }
  }

  lemma WireTwo(vs: seq<Val>)
    ensures |vs| == 2 ==> WireVals(vs) == WireVal(vs[0]) + WireVal(vs[1])
  {
    if |vs| == 2 { WireOne(vs[1..]); }
  }

  lemma WireThree(vs: seq<Val>)
    ensures |vs| == 3 ==> WireVals(vs) == WireVal(vs[0]) + WireVal(vs[1]) + WireVal(vs[2])
  {
    if |vs| == 3 { WireTwo(vs[1..]); }
  }

  lemma WireFour(vs: seq<Val>)
    ensures |vs| == 4 ==> WireVals(vs) == WireVal(vs[0]) + WireVal(vs[1]) + WireVal(vs[2]) + WireVal(vs[3])
  {
    if |vs| == 4 { WireThree(vs[1..]); }
  }

  // The values of a message's fields, as bytes.
  lemma FieldBytes(vs: seq<Val>)
    ensures |vs| == 0 ==> WireVals(vs) == []
    ensures |vs| == 1 ==> WireVals(vs) == WireVal(vs[0])
    ensures |vs| == 2 ==> WireVals(vs) == WireVal(vs[0]) + WireVal(vs[1])
    ensures |vs| == 3 ==> WireVals(vs) == WireVal(vs[0]) + WireVal(vs[1]) + WireVal(vs[2])
    ensures |vs| == 4 ==> WireVals(vs) == WireVal(vs[0]) + WireVal(vs[1]) + WireVal(vs[2]) + WireVal(vs[3])
  {
    WireOne(vs);
    WireTwo(vs);
    WireThree(vs);
    WireFour(vs);
  }

  lemma BodyEarly(m: Msg)
    requires TypeOf(m) < 109
    ensures (TypeOf(m), WireVals(Fields(m))) == Body(m)
  {
    var vs := Fields(m);
    FieldBytes(vs);
    if |vs| > 0 { ValBytes(vs[0]); }
    if |vs| > 1 { ValBytes(vs[1]); }
    if |vs| > 2 { ValBytes(vs[2]); }
    if |vs| > 3 { ValBytes(vs[3]); }
  }

  lemma BodyMiddle(m: Msg)
    requires 109 <= TypeOf(m) < 116
    ensures (TypeOf(m), WireVals(Fields(m))) == Body(m)
  {
    var vs := Fields(m);
    FieldBytes(vs);
    if |vs| > 0 { ValBytes(vs[0]); }
    if |vs| > 1 { ValBytes(vs[1]); }
    if |vs| > 2 { ValBytes(vs[2]); }
    if |vs| > 3 { ValBytes(vs[3]); }
  }

  lemma BodyLate(m: Msg)
    requires 116 <= TypeOf(m)
    ensures (TypeOf(m), WireVals(Fields(m))) == Body(m)
  {
    var vs := Fields(m);
    FieldBytes(vs);
    if |vs| > 0 { ValBytes(vs[0]); }
    if |vs| > 1 { ValBytes(vs[1]); }
    if |vs| > 2 { ValBytes(vs[2]); }
  }

  lemma BodyIs(m: Msg)
    ensures (TypeOf(m), WireVals(Fields(m))) == Body(m)
  {
    if TypeOf(m) < 109 {
      BodyEarly(m);
    } else if TypeOf(m) < 116 {
      BodyMiddle(m);
    } else {
      BodyLate(m);
    }
  }

  lemma HeaderBytes(n: nat, t: byte, tag: nat)
    ensures Put(BIT32SZ, HDRSZ + n) + Put(BIT8SZ, t) + Put(BIT16SZ, tag) == Le4(7 + n) + [t] + Le2(tag)
  {
    PutLe4(7 + n);
    PutLe2(tag);
    PutLe2(t);
  }

  // size[4] type[1] tag[2] and the fields in the manual's order.
  lemma WireBytes(m: Msg, tag: nat)
    ensures Wire(m, tag) == Le4(7 + |Body(m).1|) + [Body(m).0] + Le2(tag) + Body(m).1
  {
    BodyIs(m);
    var (t, body) := Body(m);
    HeaderBytes(|body|, t, tag);
  }

  // -- reading it back --------------------------------------------------------------------------

  datatype Parsed<T> = Fail | Ok(v: T, rest: seq<byte>)

  function ParseInt(w: nat, b: seq<byte>): Parsed<nat>
  {
    if |b| < w then Fail else Ok(Get(b[..w]), b[w..])
  }

  function ParseBytes(w: nat, b: seq<byte>): Parsed<seq<byte>>
  {
    match ParseInt(w, b)
    case Fail => Fail
    case Ok(n, r) => if |r| < n then Fail else Ok(r[..n], r[n..])
  }

  function ParseText(b: seq<byte>): Parsed<Text>
  {
    match ParseBytes(BIT16SZ, b)
    case Fail => Fail
    case Ok(s, r) => Ok(Some(s), r)
  }

  function ParseQid(b: seq<byte>): Parsed<Qid>
  {
    if |b| < QIDSZ then Fail else Ok(Qid(Get(b[..1]), Get(b[1..5]), Get(b[5..13])), b[13..])
  }

  function ParseTexts(n: nat, b: seq<byte>): Parsed<seq<Text>>
    decreases n
  {
    if n == 0 then Ok([], b)
    else
      match ParseText(b)
      case Fail => Fail
      case Ok(s, r) =>
        match ParseTexts(n - 1, r)
        case Fail => Fail
        case Ok(ss, r') => Ok([s] + ss, r')
  }

  function ParseQids(n: nat, b: seq<byte>): Parsed<seq<Qid>>
    decreases n
  {
    if n == 0 then Ok([], b)
    else
      match ParseQid(b)
      case Fail => Fail
      case Ok(q, r) =>
        match ParseQids(n - 1, r)
        case Fail => Fail
        case Ok(qs, r') => Ok([q] + qs, r')
  }

  function ParseVal(k: Kind, b: seq<byte>): Parsed<Val>
  {
    match k
    case KInt(w) => (match ParseInt(w, b) case Fail => Fail case Ok(n, r) => Ok(Int(w, n), r))
    case KStr => (match ParseText(b) case Fail => Fail case Ok(s, r) => Ok(Str(s), r))
    case KQid => (match ParseQid(b) case Fail => Fail case Ok(q, r) => Ok(QidV(q), r))
    case KData => (match ParseBytes(BIT32SZ, b) case Fail => Fail case Ok(d, r) => Ok(Data(d), r))
    case KStat => (match ParseBytes(BIT16SZ, b) case Fail => Fail case Ok(d, r) => Ok(Stat(d), r))
    case KNames =>
      (match ParseInt(BIT16SZ, b)
       case Fail => Fail
       case Ok(n, r) =>
         if n > MAXWELEM then Fail
         else match ParseTexts(n, r) case Fail => Fail case Ok(ns, r') => Ok(Names(ns), r'))
    case KQids =>
      (match ParseInt(BIT16SZ, b)
       case Fail => Fail
       case Ok(n, r) =>
         if n > MAXWELEM then Fail
         else match ParseQids(n, r) case Fail => Fail case Ok(qs, r') => Ok(Qids(qs), r'))
  }

  function ParseVals(ks: seq<Kind>, b: seq<byte>): Parsed<seq<Val>>
    decreases |ks|
  {
    if ks == [] then Ok([], b)
    else
      match ParseVal(ks[0], b)
      case Fail => Fail
      case Ok(v, r) =>
        match ParseVals(ks[1..], r)
        case Fail => Fail
        case Ok(vs, r') => Ok([v] + vs, r')
  }

  datatype Received = Received(size: nat, tag: nat, t: nat, vs: seq<Val>)

  // convM2S: the size field must be that of the fields it is followed by.
  function Decode(b: seq<byte>): Option<Received>
  {
    if |b| < HDRSZ then None
    else
      var size, t, tag := Get(b[..4]), b[4] as nat, Get(b[5..7]);
      if size < HDRSZ then None
      else
        match Layout(t)
        case None => None
        case Some(ks) =>
          match ParseVals(ks, b[7..])
          case Fail => None
          case Ok(vs, r) => if size == |b| - |r| then Some(Received(size, tag, t, vs)) else None
  }

  // What a string comes back as: nil as the empty string.
  function NormText(s: Text): Text { Some(Chars(s)) }
  function NormTexts(ns: seq<Text>): (r: seq<Text>)
    ensures |r| == |ns|
  {
    seq(|ns|, i requires 0 <= i < |ns| => NormText(ns[i]))
  }

  function NormVal(v: Val): Val
  {
    match v
    case Str(s) => Str(NormText(s))
    case Names(ns) => Names(NormTexts(ns))
    case _ => v
  }

  function Norm(m: Msg): Msg
  {
    match m
    case Tversion(msize, version) => Tversion(msize, NormText(version))
    case Rversion(msize, version) => Rversion(msize, NormText(version))
    case Tauth(afid, uname, aname) => Tauth(afid, NormText(uname), NormText(aname))
    case Tattach(fid, afid, uname, aname) => Tattach(fid, afid, NormText(uname), NormText(aname))
    case Rerror(ename) => Rerror(NormText(ename))
    case Twalk(fid, newfid, wname) => Twalk(fid, newfid, NormTexts(wname))
    case Tcreate(fid, name, perm, mode) => Tcreate(fid, NormText(name), perm, mode)
    case _ => m
  }

  function NormVals(vs: seq<Val>): (r: seq<Val>)
    ensures |r| == |vs|
  {
    seq(|vs|, i requires 0 <= i < |vs| => NormVal(vs[i]))
  }

  lemma NormFields(m: Msg)
    ensures Fields(Norm(m)) == NormVals(Fields(m)) && TypeOf(Norm(m)) == TypeOf(m)
  {
  }

  lemma ReadInt(w: nat, n: nat, more: seq<byte>)
    requires n < Limit(w)
    ensures ParseInt(w, Put(w, n) + more) == Ok(n, more)
  {
    GetPut(w, n);
    assert (Put(w, n) + more)[..w] == Put(w, n) && (Put(w, n) + more)[w..] == more;
  }

  lemma ReadBytes(w: nat, d: seq<byte>, more: seq<byte>)
    requires |d| < Limit(w)
    ensures ParseBytes(w, Put(w, |d|) + d + more) == Ok(d, more)
  {
    assert Put(w, |d|) + d + more == Put(w, |d|) + (d + more);
    ReadInt(w, |d|, d + more);
    assert (d + more)[..|d|] == d && (d + more)[|d|..] == more;
  }

  lemma ReadText(s: Text, more: seq<byte>)
    requires TextOk(s)
    ensures ParseText(WireText(s) + more) == Ok(NormText(s), more)
  {
    ReadBytes(BIT16SZ, Chars(s), more);
  }

  lemma ReadQid(q: Qid, more: seq<byte>)
    requires QidOk(q)
    ensures ParseQid(WireQid(q) + more) == Ok(q, more)
  {
    var b := WireQid(q) + more;
    var x, y, z := Put(BIT8SZ, q.qtype), Put(BIT32SZ, q.vers), Put(BIT64SZ, q.path);
    assert b == x + y + z + more;
    assert b[..1] == x && b[1..5] == y && b[5..13] == z && b[13..] == more;
    GetPut(BIT8SZ, q.qtype);
    GetPut(BIT32SZ, q.vers);
    GetPut(BIT64SZ, q.path);
  }

  lemma {:induction false} ReadTexts(ns: seq<Text>, more: seq<byte>)
    requires forall i :: 0 <= i < |ns| ==> TextOk(ns[i])
    ensures ParseTexts(|ns|, WireTexts(ns) + more) == Ok(NormTexts(ns), more)
    decreases |ns|
  {
    if ns == [] {
      assert WireTexts(ns) + more == more && NormTexts(ns) == [];
    } else {
      assert WireTexts(ns) + more == WireText(ns[0]) + (WireTexts(ns[1..]) + more);
      ReadText(ns[0], WireTexts(ns[1..]) + more);
      ReadTexts(ns[1..], more);
      NormMore(ns);
    }
  }

  lemma NormMore(ns: seq<Text>)
    requires ns != []
    ensures NormTexts(ns) == [NormText(ns[0])] + NormTexts(ns[1..])
  {
  }

  lemma {:induction false} ReadQids(qs: seq<Qid>, more: seq<byte>)
    requires forall i :: 0 <= i < |qs| ==> QidOk(qs[i])
    ensures ParseQids(|qs|, WireQids(qs) + more) == Ok(qs, more)
    decreases |qs|
  {
    if qs == [] {
      assert WireQids(qs) + more == more;
    } else {
      assert WireQids(qs) + more == WireQid(qs[0]) + (WireQids(qs[1..]) + more);
      ReadQid(qs[0], WireQids(qs[1..]) + more);
      ReadQids(qs[1..], more);
      assert qs == [qs[0]] + qs[1..];
    }
  }

  lemma ReadVal(v: Val, more: seq<byte>)
    requires ValOk(v)
    ensures ParseVal(KindOf(v), WireVal(v) + more) == Ok(NormVal(v), more)
  {
    match v
    case Int(w, n) => ReadInt(w, n, more);
    case Str(s) => ReadText(s, more);
    case QidV(q) => ReadQid(q, more);
    case Data(d) => ReadBytes(BIT32SZ, d, more);
    case Stat(d) => ReadBytes(BIT16SZ, d, more);
    case Names(ns) => ReadNames(ns, more);
    case Qids(qs) => ReadQidList(qs, more);
  }

  lemma ReadNames(ns: seq<Text>, more: seq<byte>)
    requires ValOk(Names(ns))
    ensures ParseVal(KNames, WireVal(Names(ns)) + more) == Ok(Names(NormTexts(ns)), more)
  {
    assert WireVal(Names(ns)) + more == Put(BIT16SZ, |ns|) + (WireTexts(ns) + more);
    SmallCount(|ns|);
    ReadInt(BIT16SZ, |ns|, WireTexts(ns) + more);
    ReadTexts(ns, more);
  }

  lemma ReadQidList(qs: seq<Qid>, more: seq<byte>)
    requires ValOk(Qids(qs))
    ensures ParseVal(KQids, WireVal(Qids(qs)) + more) == Ok(Qids(qs), more)
  {
    assert WireVal(Qids(qs)) + more == Put(BIT16SZ, |qs|) + (WireQids(qs) + more);
    SmallCount(|qs|);
    ReadInt(BIT16SZ, |qs|, WireQids(qs) + more);
    ReadQids(qs, more);
  }

  lemma SmallCount(n: nat)
    requires n <= MAXWELEM
    ensures n < Limit(BIT16SZ)
  {
    assert Limit(2) == 256 * Limit(1) && Limit(1) == 256 * Limit(0);
  }

  lemma {:induction false} ReadVals(vs: seq<Val>, more: seq<byte>)
    requires ValsOk(vs)
    ensures ParseVals(KindsOf(vs), WireVals(vs) + more) == Ok(NormVals(vs), more)
    decreases |vs|
  {
    if vs == [] {
      assert WireVals(vs) + more == more && NormVals(vs) == [];
    } else {
      assert WireVals(vs) + more == WireVal(vs[0]) + (WireVals(vs[1..]) + more);
      ReadVal(vs[0], WireVals(vs[1..]) + more);
      ReadVals(vs[1..], more);
      assert KindsOf(vs)[1..] == KindsOf(vs[1..]);
      assert NormVals(vs) == [NormVal(vs[0])] + NormVals(vs[1..]);
    }
  }

  // What convS2M writes, convM2S reads as the same message, nil strings as
  // empty ones, whatever follows in the buffer.
  lemma RoundTrip(m: Msg, tag: nat, more: seq<byte>)
    requires MsgOk(m, tag)
    ensures var r := Decode(Wire(m, tag) + more);
      && r == Some(Received(SizeS2M(m), tag, TypeOf(m), NormVals(Fields(m))))
      && Layout(TypeOf(m)) == Some(KindsOf(NormVals(Fields(m))))
      && Make(r.value.t, r.value.vs) == Norm(m)
  {
    var b := Wire(m, tag) + more;
    var vs := Fields(m);
    var size := HDRSZ + |WireVals(vs)|;
    WireHeader(m, tag, more);
    GetPut(BIT32SZ, size);
    GetPut(BIT16SZ, tag);
    LayoutFields(m);
    ReadVals(vs, more);
    SizeExact(m, tag);
    NormFields(m);
    MakeFields(Norm(m));
  }

  lemma WireHeader(m: Msg, tag: nat, more: seq<byte>)
    ensures var b, vs := Wire(m, tag) + more, Fields(m);
      && |b| >= HDRSZ && b[..4] == Put(BIT32SZ, HDRSZ + |WireVals(vs)|) && b[4] as nat == TypeOf(m)
      && b[5..7] == Put(BIT16SZ, tag) && b[7..] == WireVals(vs) + more
  {
    var w := WireVals(Fields(m));
    var x, y, z := Put(BIT32SZ, HDRSZ + |w|), Put(BIT8SZ, TypeOf(m)), Put(BIT16SZ, tag);
    assert y == [TypeOf(m)] by { assert Put(0, TypeOf(m) / 256) == []; }
    FourParts(x, y, z, w, more);
  }

  lemma FourParts(x: seq<byte>, y: seq<byte>, z: seq<byte>, w: seq<byte>, more: seq<byte>)
    requires |x| == 4 && |y| == 1 && |z| == 2
    ensures var b := x + y + z + w + more; b[..4] == x && b[4] == y[0] && b[5..7] == z && b[7..] == w + more
  {
  }

  // -- and only that ------------------------------------------------------------------------------

  lemma WroteInt(w: nat, b: seq<byte>)
    requires ParseInt(w, b).Ok?
    ensures var p := ParseInt(w, b); p.v < Limit(w) && b == Put(w, p.v) + p.rest
  {
    PutGet(b[..w]);
  }

  lemma WroteBytes(w: nat, b: seq<byte>)
    requires ParseBytes(w, b).Ok?
    ensures var p := ParseBytes(w, b); |p.v| < Limit(w) && b == Put(w, |p.v|) + p.v + p.rest
  {
    WroteInt(w, b);
  }

  lemma WroteText(b: seq<byte>)
    requires ParseText(b).Ok?
    ensures var p := ParseText(b); TextOk(p.v) && b == WireText(p.v) + p.rest
  {
    WroteBytes(BIT16SZ, b);
  }

  lemma WroteQid(b: seq<byte>)
    requires ParseQid(b).Ok?
    ensures var p := ParseQid(b); QidOk(p.v) && b == WireQid(p.v) + p.rest
  {
    PutGet(b[..1]);
    PutGet(b[1..5]);
    PutGet(b[5..13]);
  }

  lemma {:induction false} WroteTexts(n: nat, b: seq<byte>)
    requires ParseTexts(n, b).Ok?
    ensures var p := ParseTexts(n, b);
      |p.v| == n && (forall i :: 0 <= i < n ==> TextOk(p.v[i])) && b == WireTexts(p.v) + p.rest
    decreases n
  {
    if n > 0 {
      WroteText(b);
      var p := ParseText(b);
      WroteTexts(n - 1, p.rest);
      var q := ParseTexts(n - 1, p.rest);
      assert ([p.v] + q.v)[1..] == q.v;
      assert b == WireText(p.v) + WireTexts(q.v) + q.rest;
    }
  }

  lemma {:induction false} WroteQids(n: nat, b: seq<byte>)
    requires ParseQids(n, b).Ok?
    ensures var p := ParseQids(n, b);
      |p.v| == n && (forall i :: 0 <= i < n ==> QidOk(p.v[i])) && b == WireQids(p.v) + p.rest
    decreases n
  {
    if n > 0 {
      WroteQid(b);
      var p := ParseQid(b);
      WroteQids(n - 1, p.rest);
      var q := ParseQids(n - 1, p.rest);
      assert ([p.v] + q.v)[1..] == q.v;
      assert b == WireQid(p.v) + WireQids(q.v) + q.rest;
    }
  }

  lemma WroteVal(k: Kind, b: seq<byte>)
    requires ParseVal(k, b).Ok?
    ensures var p := ParseVal(k, b); ValOk(p.v) && KindOf(p.v) == k && b == WireVal(p.v) + p.rest
  {
    match k
    case KInt(w) => WroteInt(w, b);
    case KStr => WroteText(b);
    case KQid => WroteQid(b);
    case KData => WroteBytes(BIT32SZ, b);
    case KStat => WroteBytes(BIT16SZ, b);
    case KNames => WroteNames(b);
    case KQids => WroteQidList(b);
  }

  lemma WroteNames(b: seq<byte>)
    requires ParseVal(KNames, b).Ok?
    ensures var p := ParseVal(KNames, b); p.v.Names? && ValOk(p.v) && b == WireVal(p.v) + p.rest
  {
    WroteInt(BIT16SZ, b);
    var c := ParseInt(BIT16SZ, b);
    WroteTexts(c.v, c.rest);
    var t := ParseTexts(c.v, c.rest);
    Regroup(Put(BIT16SZ, c.v), WireTexts(t.v), t.rest);
  }

  lemma WroteQidList(b: seq<byte>)
    requires ParseVal(KQids, b).Ok?
    ensures var p := ParseVal(KQids, b); p.v.Qids? && ValOk(p.v) && b == WireVal(p.v) + p.rest
  {
    WroteInt(BIT16SZ, b);
    var c := ParseInt(BIT16SZ, b);
    WroteQids(c.v, c.rest);
    var t := ParseQids(c.v, c.rest);
    Regroup(Put(BIT16SZ, c.v), WireQids(t.v), t.rest);
  }

  lemma Regroup(a: seq<byte>, b: seq<byte>, c: seq<byte>)
    ensures a + (b + c) == a + b + c
  {
  }

  lemma {:induction false} WroteVals(ks: seq<Kind>, b: seq<byte>)
    requires ParseVals(ks, b).Ok?
    ensures var p := ParseVals(ks, b); ValsOk(p.v) && KindsOf(p.v) == ks && b == WireVals(p.v) + p.rest
    decreases |ks|
  {
    if ks != [] {
      WroteVal(ks[0], b);
      var p := ParseVal(ks[0], b);
      WroteVals(ks[1..], p.rest);
      var q := ParseVals(ks[1..], p.rest);
      assert ParseVals(ks, b) == Ok([p.v] + q.v, q.rest);
      assert [ks[0]] + ks[1..] == ks;
      WroteMore(b, p.v, q.v, q.rest);
    }
  }

  lemma WroteMore(b: seq<byte>, v: Val, vs: seq<Val>, rest: seq<byte>)
    requires ValOk(v) && ValsOk(vs) && b == WireVal(v) + (WireVals(vs) + rest)
    ensures ValsOk([v] + vs) && KindsOf([v] + vs) == [KindOf(v)] + KindsOf(vs) && b == WireVals([v] + vs) + rest
  {
    assert ([v] + vs)[1..] == vs;
    KindsMore(v, vs);
    forall i | 0 <= i < |[v] + vs| ensures ValOk(([v] + vs)[i]) {
      assert ([v] + vs)[i] == if i == 0 then v else vs[i - 1];
    }
  }

  lemma KindsMore(v: Val, vs: seq<Val>)
    ensures KindsOf([v] + vs) == [KindOf(v)] + KindsOf(vs)
  {
  }

  // What convM2S takes is a message as convS2M writes it: nothing else decodes.
  lemma DecodesOnlyWire(b: seq<byte>)
    requires Decode(b).Some?
    ensures var r := Decode(b).value;
      && Layout(r.t) == Some(KindsOf(r.vs)) && MsgOk(Make(r.t, r.vs), r.tag)
      && r.size <= |b| && b[..r.size] == Wire(Make(r.t, r.vs), r.tag)
  {
    var r := Decode(b).value;
    var ks := Layout(r.t).value;
    WroteVals(ks, b[7..]);
    FieldsMake(r.t, r.vs);
    PutGet(b[..4]);
    PutGet(b[5..7]);
    assert Put(BIT8SZ, r.t) == [b[4]] by { assert Put(0, r.t / 256) == []; }
    FiveParts(b, WireVals(r.vs), ParseVals(ks, b[7..]).rest);
  }

  // A buffer cut into header and fields, and what is after them.
  lemma FiveParts(b: seq<byte>, w: seq<byte>, rest: seq<byte>)
    requires |b| >= HDRSZ && b[7..] == w + rest
    ensures HDRSZ + |w| == |b| - |rest| && b[..HDRSZ + |w|] == b[..4] + [b[4]] + b[5..7] + w
  {
    assert b[7..][..|w|] == w;
  }

  // -- convS2M ----------------------------------------------------------------------------------

  // b is a with w at p.
  predicate Wrote(a: seq<byte>, b: seq<byte>, p: nat, w: seq<byte>)
  {
    p + |w| <= |a| && b == a[..p] + w + a[p + |w|..]
  }

  lemma WroteThen(a: seq<byte>, b: seq<byte>, c: seq<byte>, p: nat, v: seq<byte>, w: seq<byte>)
    requires Wrote(a, b, p, v) && Wrote(b, c, p + |v|, w)
    ensures Wrote(a, c, p, v + w)
  {
    assert b[..p + |v|] == a[..p] + v;
    assert b[p + |v| + |w|..] == a[p + |v + w|..];
  }

  lemma WroteNothing(a: seq<byte>, p: nat)
    requires p <= |a|
    ensures Wrote(a, a, p, [])
  {
  }

  // v in w bytes at p.
  method PutInt(ap: array<byte>, p: nat, w: nat, v: nat) returns (p': nat)
    requires p + w <= ap.Length
    modifies ap
    ensures p' == p + w && Wrote(old(ap[..]), ap[..], p, Put(w, v))
  {
    var left := v;
    ghost var done: seq<byte> := [];
    for i := 0 to w
      invariant |done| == i && done + Put(w - i, left) == Put(w, v)
      invariant forall j :: 0 <= j < ap.Length ==> ap[j] == if p <= j < p + i then done[j - p] else old(ap[j])
    {
      assert Put(w - i, left)[1..] == Put(w - i - 1, left / 256);
      ap[p + i] := left % 256;
      done := done + [left % 256];
      left := left / 256;
    }
    p' := p + w;
  }

  method PutBytes(ap: array<byte>, p: nat, d: seq<byte>) returns (p': nat)
    requires p + |d| <= ap.Length
    modifies ap
    ensures p' == p + |d| && Wrote(old(ap[..]), ap[..], p, d)
  {
    forall i | 0 <= i < |d| {
      ap[p + i] := d[i];
    }
    p' := p + |d|;
  }

  method PutCounted(ap: array<byte>, p: nat, w: nat, d: seq<byte>) returns (p': nat)
    requires p + w + |d| <= ap.Length
    modifies ap
    ensures p' == p + w + |d| && Wrote(old(ap[..]), ap[..], p, Put(w, |d|) + d)
  {
    ghost var a := ap[..];
    p' := PutInt(ap, p, w, |d|);
    ghost var b := ap[..];
    p' := PutBytes(ap, p', d);
    WroteThen(a, b, ap[..], p, Put(w, |d|), d);
  }

  method Pstring(ap: array<byte>, p: nat, s: Text) returns (p': nat)
    requires p + |WireText(s)| <= ap.Length
    modifies ap
    ensures p' == p + |WireText(s)| && Wrote(old(ap[..]), ap[..], p, WireText(s))
  {
    if s == None {
      p' := PutInt(ap, p, BIT16SZ, 0);
      assert WireText(s) == Put(BIT16SZ, 0);
    } else {
      p' := PutCounted(ap, p, BIT16SZ, s.value);
    }
  }

  method Pqid(ap: array<byte>, p: nat, q: Qid) returns (p': nat)
    requires p + QIDSZ <= ap.Length
    modifies ap
    ensures p' == p + QIDSZ && Wrote(old(ap[..]), ap[..], p, WireQid(q))
  {
    ghost var a := ap[..];
    p' := PutInt(ap, p, BIT8SZ, q.qtype);
    ghost var b := ap[..];
    p' := PutInt(ap, p', BIT32SZ, q.vers);
    ghost var c := ap[..];
    WroteThen(a, b, c, p, Put(BIT8SZ, q.qtype), Put(BIT32SZ, q.vers));
    p' := PutInt(ap, p', BIT64SZ, q.path);
    WroteThen(a, c, ap[..], p, Put(BIT8SZ, q.qtype) + Put(BIT32SZ, q.vers), Put(BIT64SZ, q.path));
  }

  // A walk's names and qids, after their count.
  lemma WireTextsSplit(ns: seq<Text>, i: nat)
    requires i < |ns|
    ensures WireTexts(ns[i..]) == WireText(ns[i]) + WireTexts(ns[i + 1..])
  {
    assert ns[i..][1..] == ns[i + 1..];
  }

  method PutTexts(ap: array<byte>, p: nat, ns: seq<Text>) returns (p': nat)
    requires p + |WireTexts(ns)| <= ap.Length
    modifies ap
    ensures p' == p + |WireTexts(ns)| && Wrote(old(ap[..]), ap[..], p, WireTexts(ns))
  {
    p' := p;
    ghost var a := ap[..];
    ghost var done: seq<byte> := [];
    WroteNothing(a, p);
    for i := 0 to |ns|
      invariant p' == p + |done| && done + WireTexts(ns[i..]) == WireTexts(ns) && Wrote(a, ap[..], p, done)
    {
      ghost var b := ap[..];
      WireTextsSplit(ns, i);
      Regroup(done, WireText(ns[i]), WireTexts(ns[i + 1..]));
      p' := Pstring(ap, p', ns[i]);
      WroteThen(a, b, ap[..], p, done, WireText(ns[i]));
      done := done + WireText(ns[i]);
    }
    assert done == WireTexts(ns);
  }

  lemma WireQidsSplit(qs: seq<Qid>, i: nat)
    requires i < |qs|
    ensures WireQids(qs[i..]) == WireQid(qs[i]) + WireQids(qs[i + 1..])
  {
    assert qs[i..][1..] == qs[i + 1..];
  }

  method PutQids(ap: array<byte>, p: nat, qs: seq<Qid>) returns (p': nat)
    requires p + |WireQids(qs)| <= ap.Length
    modifies ap
    ensures p' == p + |WireQids(qs)| && Wrote(old(ap[..]), ap[..], p, WireQids(qs))
  {
    p' := p;
    ghost var a := ap[..];
    ghost var done: seq<byte> := [];
    WroteNothing(a, p);
    for i := 0 to |qs|
      invariant p' == p + |done| && done + WireQids(qs[i..]) == WireQids(qs) && Wrote(a, ap[..], p, done)
    {
      ghost var b := ap[..];
      WireQidsSplit(qs, i);
      Regroup(done, WireQid(qs[i]), WireQids(qs[i + 1..]));
      p' := Pqid(ap, p', qs[i]);
      WroteThen(a, b, ap[..], p, done, WireQid(qs[i]));
      done := done + WireQid(qs[i]);
    }
    assert done == WireQids(qs);
  }

  predicate TooMany(v: Val) { (v.Names? && |v.ns| > MAXWELEM) || (v.Qids? && |v.qs| > MAXWELEM) }

  method PutVal(ap: array<byte>, p: nat, v: Val) returns (ok: bool, p': nat)
    requires p + |WireVal(v)| <= ap.Length
    modifies ap
    ensures ok <==> !TooMany(v)
    ensures ok ==> p' == p + |WireVal(v)| && Wrote(old(ap[..]), ap[..], p, WireVal(v))
  {
    ok := true;
    ghost var a := ap[..];
    match v
    case Int(w, n) => p' := PutInt(ap, p, w, n);
    case Str(s) => p' := Pstring(ap, p, s);
    case QidV(q) => p' := Pqid(ap, p, q);
    case Data(d) => p' := PutCounted(ap, p, BIT32SZ, d);
    case Stat(d) => p' := PutCounted(ap, p, BIT16SZ, d);
    case Names(ns) =>
      p' := PutInt(ap, p, BIT16SZ, |ns|);
      ghost var b := ap[..];
      if |ns| > MAXWELEM {
        return false, p';
      }
      p' := PutTexts(ap, p', ns);
      WroteThen(a, b, ap[..], p, Put(BIT16SZ, |ns|), WireTexts(ns));
    case Qids(qs) =>
      p' := PutInt(ap, p, BIT16SZ, |qs|);
      ghost var b := ap[..];
      if |qs| > MAXWELEM {
        return false, p';
      }
      p' := PutQids(ap, p', qs);
      WroteThen(a, b, ap[..], p, Put(BIT16SZ, |qs|), WireQids(qs));
  }

  predicate SomeTooMany(vs: seq<Val>) { exists i :: 0 <= i < |vs| && TooMany(vs[i]) }

  // Only a walk can have too many.
  lemma WalkTooLong(m: Msg)
    ensures SomeTooMany(Fields(m)) <==> (m.Twalk? && |m.wname| > 16) || (m.Rwalk? && |m.wqid| > 16)
  {
    if m.Twalk? { assert Fields(m)[2] == Names(m.wname); }
    if m.Rwalk? { assert Fields(m)[0] == Qids(m.wqid); }
  }

  lemma WireValsSplit(vs: seq<Val>, i: nat)
    requires i < |vs|
    ensures WireVals(vs[i..]) == WireVal(vs[i]) + WireVals(vs[i + 1..])
  {
    assert vs[i..][1..] == vs[i + 1..];
  }

  lemma PutMore(a: seq<byte>, b: seq<byte>, c: seq<byte>, p: nat, done: seq<byte>, vs: seq<Val>, i: nat)
    requires i < |vs| && done + WireVals(vs[i..]) == WireVals(vs) && Wrote(a, b, p, done)
    requires Wrote(b, c, p + |done|, WireVal(vs[i]))
    ensures done + WireVal(vs[i]) + WireVals(vs[i + 1..]) == WireVals(vs) && Wrote(a, c, p, done + WireVal(vs[i]))
  {
    WireValsSplit(vs, i);
    Regroup(done, WireVal(vs[i]), WireVals(vs[i + 1..]));
    WroteThen(a, b, c, p, done, WireVal(vs[i]));
  }

  lemma RoomLeft(done: seq<byte>, vs: seq<Val>, i: nat)
    requires i < |vs| && done + WireVals(vs[i..]) == WireVals(vs)
    ensures |done| + |WireVal(vs[i])| <= |WireVals(vs)|
  {
    WireValsSplit(vs, i);
  }

  method PutVals(ap: array<byte>, p: nat, vs: seq<Val>) returns (ok: bool, p': nat)
    requires p + |WireVals(vs)| <= ap.Length
    modifies ap
    ensures ok <==> !SomeTooMany(vs)
    ensures ok ==> p' == p + |WireVals(vs)| && Wrote(old(ap[..]), ap[..], p, WireVals(vs))
  {
    ok, p' := true, p;
    ghost var a := ap[..];
    ghost var done: seq<byte> := [];
    WroteNothing(a, p);
    for i := 0 to |vs|
      invariant p' == p + |done| && done + WireVals(vs[i..]) == WireVals(vs) && Wrote(a, ap[..], p, done)
      invariant forall j :: 0 <= j < i ==> !TooMany(vs[j])
    {
      ghost var b := ap[..];
      RoomLeft(done, vs, i);
      ok, p' := PutVal(ap, p', vs[i]);
      if !ok {
        return;
      }
      PutMore(a, b, ap[..], p, done, vs, i);
      done := done + WireVal(vs[i]);
    }
    assert done == WireVals(vs);
    ok := true;
  }

  // The message into the buffer; 0 if it does not fit or has too many names or qids.
  method ConvS2M(m: Msg, tag: nat, ap: array<byte>) returns (n: nat)
    modifies ap
    ensures n == 0 <==>
      |Wire(m, tag)| > ap.Length || (m.Twalk? && |m.wname| > 16) || (m.Rwalk? && |m.wqid| > 16)
    ensures n > 0 ==> n == SizeS2M(m) == |Wire(m, tag)| && Wrote(old(ap[..]), ap[..], 0, Wire(m, tag))
  {
    var size := SizeS2M(m);
    SizeExact(m, tag);
    WalkTooLong(m);
    if size > ap.Length {
      return 0;
    }
    ghost var a := ap[..];
    ghost var x, y, z, w := Put(BIT32SZ, size), Put(BIT8SZ, TypeOf(m)), Put(BIT16SZ, tag), WireVals(Fields(m));
    var p := PutInt(ap, 0, BIT32SZ, size);
    ghost var b := ap[..];
    p := PutInt(ap, p, BIT8SZ, TypeOf(m));
    WroteThen(a, b, ap[..], 0, x, y);
    b := ap[..];
    p := PutInt(ap, p, BIT16SZ, tag);
    WroteThen(a, b, ap[..], 0, x + y, z);
    b := ap[..];
    var ok;
    ok, p := PutVals(ap, p, Fields(m));
    if ok {
      WroteThen(a, b, ap[..], 0, x + y + z, w);
    }
    n := if ok then size else 0;
  }

  // -- convM2S, in place --------------------------------------------------------------------------

  // What the decoder leaves in its Fcall: numbers, and pointers into the buffer.
  datatype Ptr =
    | PInt(v: nat)
    | PStr(p: nat)
    | PQid(q: Qid)
    | PBytes(p: nat, n: nat)
    | PNames(ps: seq<nat>)
    | PQids(qs: seq<Qid>)

  // s and its NUL are at p, below hi.
  predicate StringAt(buf: seq<byte>, p: nat, s: seq<byte>, hi: nat)
  {
    p + |s| < hi <= |buf| && buf[p..p + |s|] == s && buf[p + |s|] == 0
  }

  predicate StringsAt(buf: seq<byte>, ps: seq<nat>, ns: seq<Text>, hi: nat)
  {
    |ps| == |ns| && forall i :: 0 <= i < |ps| ==> StringAt(buf, ps[i], Chars(ns[i]), hi)
  }

  // ptr shows v in the buffer, below hi.
  predicate Shows(buf: seq<byte>, ptr: Ptr, v: Val, hi: nat)
  {
    match v
    case Int(_, n) => ptr == PInt(n)
    case Str(s) => ptr.PStr? && StringAt(buf, ptr.p, Chars(s), hi)
    case QidV(q) => ptr == PQid(q)
    case Data(d) => ptr.PBytes? && ptr.n == |d| && ptr.p + |d| <= hi <= |buf| && buf[ptr.p..ptr.p + |d|] == d
    case Stat(d) => ptr.PBytes? && ptr.n == |d| && ptr.p + |d| <= hi <= |buf| && buf[ptr.p..ptr.p + |d|] == d
    case Names(ns) => ptr.PNames? && StringsAt(buf, ptr.ps, ns, hi)
    case Qids(qs) => ptr == PQids(qs)
  }

  predicate ShowsAll(buf: seq<byte>, ptrs: seq<Ptr>, vs: seq<Val>, hi: nat)
  {
    |ptrs| == |vs| && forall i :: 0 <= i < |vs| ==> Shows(buf, ptrs[i], vs[i], hi)
  }

  lemma SliceStays(buf: seq<byte>, buf': seq<byte>, lo: nat, to: nat, hi: nat)
    requires lo <= to <= hi <= |buf| && hi <= |buf'| && buf'[..hi] == buf[..hi]
    ensures buf'[lo..to] == buf[lo..to]
  {
    forall i | lo <= i < to ensures buf'[i] == buf[i] {
      assert buf'[..hi][i] == buf[..hi][i];
    }
  }

  lemma StringStays(buf: seq<byte>, buf': seq<byte>, p: nat, s: seq<byte>, hi: nat, hi': nat)
    requires StringAt(buf, p, s, hi) && hi <= hi' <= |buf'| && buf'[..hi] == buf[..hi]
    ensures StringAt(buf', p, s, hi')
  {
    SliceStays(buf, buf', p, p + |s|, hi);
    assert buf'[..hi][p + |s|] == buf[..hi][p + |s|];
  }

  // What is shown below hi stays shown when only what is above changes.
  lemma ShowsStays(buf: seq<byte>, buf': seq<byte>, ptr: Ptr, v: Val, hi: nat, hi': nat)
    requires Shows(buf, ptr, v, hi) && hi <= hi' <= |buf'| && hi <= |buf| && buf'[..hi] == buf[..hi]
    ensures Shows(buf', ptr, v, hi')
  {
    match v
    case Str(s) => StringStays(buf, buf', ptr.p, Chars(s), hi, hi');
    case Names(ns) =>
      forall i | 0 <= i < |ns| ensures StringAt(buf', ptr.ps[i], Chars(ns[i]), hi') {
        StringStays(buf, buf', ptr.ps[i], Chars(ns[i]), hi, hi');
      }
    case Data(d) => SliceStays(buf, buf', ptr.p, ptr.p + |d|, hi);
    case Stat(d) => SliceStays(buf, buf', ptr.p, ptr.p + |d|, hi);
    case _ =>
  }

  // The bytes of a C string.
  function CString(buf: seq<byte>, p: nat): seq<byte>
    decreases |buf| - p
  {
    if p >= |buf| || buf[p] == 0 then [] else [buf[p]] + CString(buf, p + 1)
  }

  // A string with no NUL in it is what C sees at its pointer.
  lemma {:induction false} StringIsC(buf: seq<byte>, p: nat, s: seq<byte>, hi: nat)
    requires StringAt(buf, p, s, hi) && forall i :: 0 <= i < |s| ==> s[i] != 0
    ensures CString(buf, p) == s
    decreases |s|
  {
    if s != [] {
      assert buf[p] == buf[p..p + |s|][0];
      assert buf[p + 1..p + 1 + |s[1..]|] == buf[p..p + |s|][1..];
      StringIsC(buf, p + 1, s[1..], hi);
      assert s == [s[0]] + s[1..];
    } else {
      assert buf[p + |s|] == 0;
    }
  }

  method GetInt(buf: array<byte>, p: nat, w: nat) returns (v: nat)
    requires p + w <= buf.Length
    ensures v == Get(buf[p..p + w])
  {
    v := 0;
    var i := w;
    while i > 0
      invariant 0 <= i <= w && v == Get(buf[p + i..p + w])
    {
      i := i - 1;
      assert buf[p + i..p + w][1..] == buf[p + i + 1..p + w];
      v := buf[p + i] as nat + 256 * v;
    }
  }

  // A string: moved down by one byte, onto its count, to make room for its NUL.
  method Gstring(buf: array<byte>, p: nat) returns (ok: bool, p': nat, s: nat)
    requires p <= buf.Length
    modifies buf
    ensures ok <==> ParseText(old(buf[p..])).Ok?
    ensures ok ==>
      var t := ParseText(old(buf[p..]));
      && p <= p' <= buf.Length && buf[..p] == old(buf[..p]) && buf[p'..] == old(buf[p'..]) == t.rest
      && StringAt(buf[..], s, Chars(t.v), p')
  {
    p', s := p, p;
    ghost var was := buf[..];
    if p + BIT16SZ > buf.Length {
      return false, p', s;
    }
    var n := GetInt(buf, p, BIT16SZ);
    assert was[p..][..2] == buf[p..p + 2] && was[p..][2..] == was[p + 2..];
    var q := p + BIT16SZ - 1;
    if q + n + 1 > buf.Length {
      return false, p', s;
    }
    forall i | 0 <= i < n {
      buf[q + i] := buf[q + 1 + i];
    }
    buf[q + n] := 0;
    StringMoved(was, buf[..], p, n);
    ok, p', s := true, q + n + 1, q;
  }

  // A string of n bytes, its count at p, moved down onto the count's second byte.
  lemma StringMoved(was: seq<byte>, now: seq<byte>, p: nat, n: nat)
    requires |now| == |was| && p + BIT16SZ + n <= |was| && Get(was[p..][..BIT16SZ]) == n
    requires forall i :: 0 <= i <= p || p + BIT16SZ + n <= i < |was| ==> now[i] == was[i]
    requires forall i :: p < i <= p + n ==> now[i] == was[i + 1]
    requires now[p + 1 + n] == 0
    ensures ParseText(was[p..]) == Ok(Some(was[p + BIT16SZ..][..n]), was[p + BIT16SZ + n..])
    ensures StringAt(now, p + 1, was[p + BIT16SZ..][..n], p + 2 + n)
    ensures now[..p] == was[..p] && now[p + BIT16SZ + n..] == was[p + BIT16SZ + n..]
  {
    assert was[p..][BIT16SZ..] == was[p + BIT16SZ..];
    assert was[p + BIT16SZ..][n..] == was[p + BIT16SZ + n..];
    assert now[p + 1..p + 1 + n] == was[p + BIT16SZ..][..n];
  }

  method Gqid(buf: array<byte>, p: nat) returns (ok: bool, p': nat, q: Qid)
    requires p <= buf.Length
    ensures if ok then p <= p' <= buf.Length && ParseQid(buf[p..]) == Ok(q, buf[p'..]) else ParseQid(buf[p..]) == Fail
  {
    p', q := p, Qid(0, 0, 0);
    if p + QIDSZ > buf.Length {
      return false, p', q;
    }
    var t := GetInt(buf, p, BIT8SZ);
    var v := GetInt(buf, p + 1, BIT32SZ);
    var x := GetInt(buf, p + 5, BIT64SZ);
    ghost var b := buf[p..];
    assert b[..1] == buf[p..p + 1] && b[1..5] == buf[p + 1..p + 5] && b[5..13] == buf[p + 5..p + 13] &&
      b[13..] == buf[p + 13..];
    ok, p', q := true, p + QIDSZ, Qid(t, v, x);
  }

  // What has been read, then what is still to be.
  function After<T>(done: seq<T>, p: Parsed<seq<T>>): Parsed<seq<T>>
  {
    match p
    case Fail => Fail
    case Ok(v, r) => Ok(done + v, r)
  }

  lemma AfterNone<T>(p: Parsed<seq<T>>)
    ensures After([], p) == p
  {
    if p.Ok? {
      assert [] + p.v == p.v;
    }
  }

  lemma AfterMore<T>(done: seq<T>, v: T, p: Parsed<seq<T>>)
    ensures After(done, After([v], p)) == After(done + [v], p)
  {
    if p.Ok? {
      assert done + ([v] + p.v) == done + [v] + p.v;
    }
  }

  lemma StringsStay(buf: seq<byte>, buf': seq<byte>, ps: seq<nat>, ns: seq<Text>, hi: nat, hi': nat)
    requires StringsAt(buf, ps, ns, hi) && hi <= hi' <= |buf'| && hi <= |buf| && buf'[..hi] == buf[..hi]
    ensures StringsAt(buf', ps, ns, hi')
  {
    forall i | 0 <= i < |ns| ensures StringAt(buf', ps[i], Chars(ns[i]), hi') {
      StringStays(buf, buf', ps[i], Chars(ns[i]), hi, hi');
    }
  }

  method GetTexts(buf: array<byte>, p: nat, n: nat) returns (ok: bool, p': nat, ps: seq<nat>)
    requires p <= buf.Length
    modifies buf
    ensures ok <==> ParseTexts(n, old(buf[p..])).Ok?
    ensures ok ==>
      var t := ParseTexts(n, old(buf[p..]));
      && p <= p' <= buf.Length && buf[..p] == old(buf[..p]) && buf[p'..] == old(buf[p'..]) == t.rest
      && StringsAt(buf[..], ps, t.v, p')
  {
    ghost var b := buf[p..];
    ok, p', ps := true, p, [];
    ghost var done: seq<Text> := [];
    AfterNone(ParseTexts(n, b));
    for i := 0 to n
      invariant p <= p' <= buf.Length && buf[..p] == old(buf[..p]) && buf[p'..] == old(buf[p'..])
      invariant ParseTexts(n, b) == After(done, ParseTexts(n - i, buf[p'..]))
      invariant StringsAt(buf[..], ps, done, p')
    {
      ghost var was, at := buf[..], p';
      var s;
      ok, p', s := Gstring(buf, p');
      if !ok {
        return;
      }
      ghost var t := ParseText(was[at..]);
      AfterMore(done, t.v, ParseTexts(n - i - 1, t.rest));
      StringsStay(was, buf[..], ps, done, at, p');
      Prefixed(was, buf[..], old(buf[..]), p, at, p');
      ps, done := ps + [s], done + [t.v];
    }
    ok := true;
    assert done + [] == done;
  }

  lemma Prefixed(was: seq<byte>, now: seq<byte>, orig: seq<byte>, p: nat, at: nat, p': nat)
    requires p <= at <= p' <= |was| == |now| == |orig|
    requires now[..at] == was[..at] && now[p'..] == was[p'..] && was[..p] == orig[..p] && was[at..] == orig[at..]
    ensures now[..p] == orig[..p] && now[p'..] == orig[p'..]
  {
    assert now[..at][..p] == was[..at][..p];
    assert was[at..][p' - at..] == orig[at..][p' - at..];
  }

  method GetQids(buf: array<byte>, p: nat, n: nat) returns (ok: bool, p': nat, qs: seq<Qid>)
    requires p <= buf.Length
    ensures ok <==> ParseQids(n, buf[p..]).Ok?
    ensures ok ==> p <= p' <= buf.Length && ParseQids(n, buf[p..]) == Ok(qs, buf[p'..])
  {
    ghost var b := buf[p..];
    ok, p', qs := true, p, [];
    AfterNone(ParseQids(n, b));
    for i := 0 to n
      invariant p <= p' <= buf.Length && ParseQids(n, b) == After(qs, ParseQids(n - i, buf[p'..]))
    {
      ghost var at := p';
      var q;
      ok, p', q := Gqid(buf, p');
      if !ok {
        return;
      }
      AfterMore(qs, q, ParseQids(n - i - 1, buf[p'..]));
      qs := qs + [q];
    }
    ok := true;
    assert qs + [] == qs;
  }

  // A count and that many bytes, where they are.
  method GetBytes(buf: array<byte>, p: nat, w: nat) returns (ok: bool, p': nat, d: nat, n: nat)
    requires p <= buf.Length
    ensures ok <==> ParseBytes(w, buf[p..]).Ok?
    ensures ok ==> p <= d <= p' == d + n <= buf.Length && ParseBytes(w, buf[p..]) == Ok(buf[d..d + n], buf[p'..])
  {
    p', d, n := p, p, 0;
    if p + w > buf.Length {
      return false, p', d, n;
    }
    n := GetInt(buf, p, w);
    ghost var b := buf[p..];
    assert b[..w] == buf[p..p + w] && b[w..] == buf[p + w..];
    d := p + w;
    if d + n > buf.Length {
      return false, p', d, n;
    }
    assert buf[d..][..n] == buf[d..d + n] && buf[d..][n..] == buf[d + n..];
    ok, p' := true, d + n;
  }

  method GetNumber(buf: array<byte>, p: nat, w: nat) returns (ok: bool, p': nat, v: nat)
    requires p <= buf.Length
    ensures if ok then p <= p' <= buf.Length && ParseInt(w, buf[p..]) == Ok(v, buf[p'..])
            else ParseInt(w, buf[p..]) == Fail
  {
    ok, p', v := false, p, 0;
    if p + w > buf.Length {
      return;
    }
    v := GetInt(buf, p, w);
    assert buf[p..][..w] == buf[p..p + w] && buf[p..][w..] == buf[p + w..];
    ok, p' := true, p + w;
  }

  method GetVal(buf: array<byte>, p: nat, k: Kind) returns (ok: bool, p': nat, ptr: Ptr)
    requires p <= buf.Length
    modifies buf
    ensures ok <==> ParseVal(k, old(buf[p..])).Ok?
    ensures ok ==>
      var t := ParseVal(k, old(buf[p..]));
      && p <= p' <= buf.Length && buf[..p] == old(buf[..p]) && buf[p'..] == old(buf[p'..]) == t.rest
      && Shows(buf[..], ptr, t.v, p')
  {
    ok, p', ptr := false, p, PInt(0);
    match k
    case KInt(w) =>
      var v;
      ok, p', v := GetNumber(buf, p, w);
      ptr := PInt(v);
    case KStr =>
      var s;
      ok, p', s := Gstring(buf, p);
      ptr := PStr(s);
    case KQid =>
      var q;
      ok, p', q := Gqid(buf, p);
      ptr := PQid(q);
    case KData =>
      var d, n;
      ok, p', d, n := GetBytes(buf, p, BIT32SZ);
      ptr := PBytes(d, n);
    case KStat =>
      var d, n;
      ok, p', d, n := GetBytes(buf, p, BIT16SZ);
      ptr := PBytes(d, n);
    case KNames => ok, p', ptr := GetNames(buf, p);
    case KQids => ok, p', ptr := GetQidList(buf, p);
  }

  method GetNames(buf: array<byte>, p: nat) returns (ok: bool, p': nat, ptr: Ptr)
    requires p <= buf.Length
    modifies buf
    ensures ok <==> ParseVal(KNames, old(buf[p..])).Ok?
    ensures ok ==>
      var t := ParseVal(KNames, old(buf[p..]));
      && p <= p' <= buf.Length && buf[..p] == old(buf[..p]) && buf[p'..] == old(buf[p'..]) == t.rest
      && Shows(buf[..], ptr, t.v, p')
  {
    ok, p', ptr := false, p, PInt(0);
    if p + BIT16SZ > buf.Length {
      return;
    }
    var n := GetInt(buf, p, BIT16SZ);
    assert buf[p..][..2] == buf[p..p + 2] && buf[p..][2..] == buf[p + 2..];
    if n > MAXWELEM {
      return;
    }
    ghost var was := buf[..];
    var ps;
    ok, p', ps := GetTexts(buf, p + 2, n);
    if ok {
      Prefixed(was, buf[..], was, p, p + 2, p');
    }
    ptr := PNames(ps);
  }

  method GetQidList(buf: array<byte>, p: nat) returns (ok: bool, p': nat, ptr: Ptr)
    requires p <= buf.Length
    ensures ok <==> ParseVal(KQids, buf[p..]).Ok?
    ensures ok ==>
      var t := ParseVal(KQids, buf[p..]);
      p <= p' <= buf.Length && buf[p'..] == t.rest && Shows(buf[..], ptr, t.v, p')
  {
    ok, p', ptr := false, p, PInt(0);
    if p + BIT16SZ > buf.Length {
      return;
    }
    var n := GetInt(buf, p, BIT16SZ);
    assert buf[p..][..2] == buf[p..p + 2] && buf[p..][2..] == buf[p + 2..];
    if n > MAXWELEM {
      return;
    }
    var qs;
    ok, p', qs := GetQids(buf, p + 2, n);
    ptr := PQids(qs);
  }

  lemma AllStay(buf: seq<byte>, buf': seq<byte>, ptrs: seq<Ptr>, vs: seq<Val>, hi: nat, hi': nat)
    requires ShowsAll(buf, ptrs, vs, hi) && hi <= hi' <= |buf'| && hi <= |buf| && buf'[..hi] == buf[..hi]
    ensures ShowsAll(buf', ptrs, vs, hi')
  {
    forall i | 0 <= i < |vs| ensures Shows(buf', ptrs[i], vs[i], hi') {
      ShowsStays(buf, buf', ptrs[i], vs[i], hi, hi');
    }
  }

  // A field whose string is moved disturbs none before it and none after.
  method GetVals(buf: array<byte>, p: nat, ks: seq<Kind>) returns (ok: bool, p': nat, ptrs: seq<Ptr>)
    requires p <= buf.Length
    modifies buf
    ensures ok <==> ParseVals(ks, old(buf[p..])).Ok?
    ensures ok ==>
      var t := ParseVals(ks, old(buf[p..]));
      && p <= p' <= buf.Length && buf[..p] == old(buf[..p]) && buf[p'..] == old(buf[p'..]) == t.rest
      && ShowsAll(buf[..], ptrs, t.v, p')
  {
    ghost var b := buf[p..];
    ok, p', ptrs := true, p, [];
    ghost var done: seq<Val> := [];
    assert ks[0..] == ks;
    AfterNone(ParseVals(ks, b));
    for i := 0 to |ks|
      invariant p <= p' <= buf.Length && buf[..p] == old(buf[..p]) && buf[p'..] == old(buf[p'..])
      invariant ParseVals(ks, b) == After(done, ParseVals(ks[i..], buf[p'..]))
      invariant ShowsAll(buf[..], ptrs, done, p')
    {
      ghost var was, at := buf[..], p';
      var ptr;
      ok, p', ptr := GetVal(buf, p', ks[i]);
      ParseOne(ks, i, was[at..]);
      if !ok {
        return;
      }
      ghost var t := ParseVal(ks[i], was[at..]);
      AfterMore(done, t.v, ParseVals(ks[i + 1..], t.rest));
      AllStay(was, buf[..], ptrs, done, at, p');
      Prefixed(was, buf[..], old(buf[..]), p, at, p');
      ptrs, done := ptrs + [ptr], done + [t.v];
    }
    ok := true;
    assert done + [] == done && ks[|ks|..] == [];
  }

  lemma ParseOne(ks: seq<Kind>, i: nat, b: seq<byte>)
    requires i < |ks|
    ensures var t := ParseVal(ks[i], b);
      ParseVals(ks[i..], b) == if t.Ok? then After([t.v], ParseVals(ks[i + 1..], t.rest)) else Fail
  {
    assert ks[i..][1..] == ks[i + 1..];
  }

  // The decoder: the size, or 0; and an Fcall whose pointers show the message's
  // fields in the buffer as it is left.
  method ConvM2S(ap: array<byte>) returns (size: nat, tag: nat, t: nat, ptrs: seq<Ptr>)
    modifies ap
    ensures size == 0 <==> Decode(old(ap[..])) == None
    ensures size > 0 ==>
      var r := Decode(old(ap[..])).value;
      && size == r.size <= ap.Length && tag == r.tag && t == r.t && ShowsAll(ap[..], ptrs, r.vs, size)
      && ap[size..] == old(ap[size..])
  {
    size, tag, t, ptrs := 0, 0, 0, [];
    if ap.Length < HDRSZ {
      return;
    }
    ghost var b := ap[..];
    var n := GetInt(ap, 0, BIT32SZ);
    assert b[..4] == ap[0..0 + 4] && b[5..7] == ap[5..5 + 2];
    if n < HDRSZ {
      return;
    }
    t := ap[4];
    tag := GetInt(ap, 5, BIT16SZ);
    var ks := Layout(t);
    if ks == None {
      return;
    }
    assert b[7..] == ap[7..];
    var ok, p;
    ok, p, ptrs := GetVals(ap, 7, ks.value);
    if ok && n == p {
      size := n;
    }
  }

  // The two conversions through one buffer: what is sent is what is shown to
  // the receiver, each string as C sees it.
  method SendReceive(m: Msg, tag: nat, buf: array<byte>) returns (n: nat, tag': nat, t: nat, ptrs: seq<Ptr>)
    requires MsgOk(m, tag) && |Wire(m, tag)| <= buf.Length
    modifies buf
    ensures n == SizeS2M(m) && tag' == tag && t == TypeOf(m) && ShowsAll(buf[..], ptrs, Fields(Norm(m)), n)
  {
    FewEnough(Fields(m));
    WalkTooLong(m);
    ghost var was := buf[..];
    var sent := ConvS2M(m, tag, buf);
    ghost var more := was[sent..];
    WroteAll(was, buf[..], Wire(m, tag));
    RoundTrip(m, tag, more);
    NormFields(m);
    n, tag', t, ptrs := ConvM2S(buf);
  }

  lemma WroteAll(a: seq<byte>, b: seq<byte>, w: seq<byte>)
    requires |w| <= |a| && Wrote(a, b, 0, w)
    ensures b == w + a[|w|..]
  {
  }

  lemma FewEnough(vs: seq<Val>)
    requires ValsOk(vs)
    ensures !SomeTooMany(vs)
  {
    forall i | 0 <= i < |vs| ensures !TooMany(vs[i]) {
      assert ValOk(vs[i]);
    }
  }
}
