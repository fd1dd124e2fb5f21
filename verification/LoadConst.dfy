// The instruction sequences that build a 64-bit constant.
module LoadConst {
  import opened Rv64
  import opened CodeRun

  // -- li ----------------------------------------------------------------------

  function Abs(x: int): nat { if x < 0 then -x else x }

  // The shift of li's inner loop: halve until odd, counting.
  function Odd(h: int): (r: (int, nat))
    requires h != 0
    ensures r.0 % 2 == 1 && h == r.0 * Pow2(r.1) && Abs(r.0) <= Abs(h)
    decreases Abs(h)
  {
    if h % 2 == 1 then (h, 0) else var r := Odd(h / 2); (r.0, r.1 + 1)
  }

  // What is left above the low 12 bits; val - lo wraps near 2^63.
  function High(val: int): int { W64(val - Sext12(val)) / 4096 }

  // val - lo is 4096 times the high part, modulo 2^64, and the high part is small.
  lemma HighBound(val: int)
    requires -TWO63 <= val < TWO63
    ensures exists k :: 4096 * High(val) == val - Sext12(val) + TWO64 * k
    ensures Abs(High(val)) * 4096 <= Abs(val) + 2048
    ensures !IsImm12(val) ==> High(val) != 0
  {
    var d := val - Sext12(val);
    assert d % 4096 == 0;
    if d >= TWO63 {
      assert W64(d) == d - TWO64;
      assert 4096 * High(val) == d + TWO64 * -1;
    } else {
      W64Id(d);
      assert 4096 * High(val) == d + TWO64 * 0;
    }
  }

  function LiSeq(rd: int, val: int): (s: seq<Insn>)
    requires IsReg(rd) && -TWO63 <= val < TWO63
    decreases Abs(val)
  {
    if IsImm12(val) then [Addi(rd, 0, val)]
    else if val == W32(val) then
      var lo := Sext12(val);
      [Lui(rd, (val - lo) / 4096 % 0x10_0000)] + (if lo != 0 then [Addiw(rd, rd, lo)] else [])
    else
      HighBound(val);
      var lo := Sext12(val);
      var (h, k) := Odd(High(val));
      LiSeq(rd, h) + [Slli(rd, rd, 12 + k)] + (if lo != 0 then [Addi(rd, rd, lo)] else [])
  }

  // 2^k <= |h * 2^k| keeps every shift amount below 64.
  lemma ShiftBound(h: int, o: int, k: nat)
    requires o % 2 == 1 && h == o * Pow2(k) && Abs(h) <= 0x8_0000_0000_0000
    ensures k <= 51
  {
    if k > 51 {
      Pow2Monotone(52, k);
      Pow2Of52();
      AbsProduct(o, Pow2(k));
    }
  }

  lemma AbsProduct(o: int, p: int)
    requires o != 0 && p >= 1
    ensures Abs(o * p) >= p
  {
  }

  lemma {:induction false} Pow2Monotone(a: nat, b: nat)
    requires a <= b
    ensures Pow2(a) <= Pow2(b)
  {
    if a < b { Pow2Monotone(a, b - 1); }
  }

  lemma {:induction false} Pow2Add(a: nat, b: nat)
    ensures Pow2(a + b) == Pow2(a) * Pow2(b)
  {
    if a > 0 { Pow2Add(a - 1, b); }
  }

  lemma Pow2Of12()
    ensures Pow2(12) == 4096
  {
  }

  lemma Pow2Of52()
    ensures Pow2(52) == 0x10_0000_0000_0000
  {
    Pow2Of12();
    Pow2Add(12, 12);
    Pow2Add(24, 24);
    Pow2Add(48, 4);
    assert Pow2(4) == 16;
  }

  // li emits at most eight instructions, all of them encodable: in
  // particular every shift amount is below 64.
  lemma {:induction false} LiWellFormed(rd: int, val: int)
    requires IsReg(rd) && -TWO63 <= val < TWO63
    ensures AllStraight(LiSeq(rd, val))
    ensures 1 <= |LiSeq(rd, val)| <= 8
    ensures Abs(val) <= 0x8_0000_0000_0000 ==> |LiSeq(rd, val)| <= 6
    ensures Abs(val) <= 0x80_0000_0000 ==> |LiSeq(rd, val)| <= 4
    ensures val == W32(val) ==> |LiSeq(rd, val)| <= 2
    ensures -2048 <= val < 2048 || (val == W32(val) && val % 4096 == 0) ==> |LiSeq(rd, val)| == 1
    decreases Abs(val)
  {
    if IsImm12(val) {
    } else if val == W32(val) {
    } else {
      HighBound(val);
      var (h, k) := Odd(High(val));
      ShiftBound(High(val), h, k);
      LiWellFormed(rd, h);
      if Abs(val) <= 0x80_0000_0000 { W32Id(h); }
      var lo := Sext12(val);
      var fin := [Slli(rd, rd, 12 + k)] + (if lo != 0 then [Addi(rd, rd, lo)] else []);
      assert LiSeq(rd, val) == LiSeq(rd, h) + fin;
      AllStraightConcat(LiSeq(rd, h), fin);
    }
  }

  // The 32-bit case: lui then addiw.
  lemma LiShortValue(val: int)
    requires val == W32(val) && !IsImm12(val)
    ensures var lo := Sext12(val);
            W32(W32((val - lo) / 4096 % 0x10_0000 * 4096) + lo) == val
    ensures Sext12(val) == 0 ==> W32((val - Sext12(val)) / 4096 % 0x10_0000 * 4096) == val
  {
    var lo := Sext12(val);
    var q := (val - lo) / 4096;
    assert 4096 * q == val - lo;
    var r := q % 0x10_0000;
    var t := q / 0x10_0000;
    assert r * 4096 == (val - lo) + TWO32 * -t;
    W32Shift(val - lo, -t);
    W32Add(val - lo, lo);
    W32Id(val);
  }

  // The shift and add that finish the 64-bit case.
  lemma LiLongValue(val: int, h: int, k: nat)
    requires -TWO63 <= val < TWO63
    requires High(val) == h * Pow2(k)
    ensures W64(W64(h * Pow2(12 + k)) + Sext12(val)) == val
    ensures Sext12(val) == 0 ==> W64(h * Pow2(12 + k)) == val
  {
    HighBound(val);
    var j :| 4096 * High(val) == val - Sext12(val) + TWO64 * j;
    ShiftTwelve(h, k);
    SumBack(h * Pow2(12 + k), Sext12(val), j, val);
  }

  lemma SumBack(x: int, lo: int, j: int, val: int)
    requires -TWO63 <= val < TWO63 && x == val - lo + TWO64 * j
    ensures W64(W64(x) + lo) == val
    ensures lo == 0 ==> W64(x) == val
  {
    W64Add(x, lo);
    W64Shift(val, j);
    W64Id(val);
  }

  lemma ShiftTwelve(h: int, k: nat)
    ensures h * Pow2(12 + k) == 4096 * (h * Pow2(k))
  {
    Pow2Of12();
    Pow2Add(12, k);
    Assoc(h, 4096, Pow2(k));
  }

  lemma Assoc(a: int, b: int, c: int)
    ensures a * (b * c) == b * (a * c)
  {
  }

  // Running what li emits leaves exactly the value in rd, for every 64-bit
  // value, and changes nothing else.
  lemma {:induction false} LiRuns(x: Effect, rd: int, val: int, m: Machine)
    requires IsRV(x)
    requires 0 < rd < 32 && -TWO63 <= val < TWO63
    ensures AllStraight(LiSeq(rd, val))
    ensures var r := ExecAll(x, LiSeq(rd, val), m); r.regs == m.regs[rd := val] && r.mem == m.mem
    decreases Abs(val)
  {
    LiWellFormed(rd, val);
    if IsImm12(val) {
      W64Id(val);
      ExecAllOne(x, Addi(rd, 0, val), m);
      assert x(Addi(rd, 0, val), m) == Exec(Addi(rd, 0, val), m);
    } else if val == W32(val) {
      LiShortCorrect(x, rd, val, m);
    } else {
      LiLongCorrect(x, rd, val, m);
    }
  }

  lemma LiShortCorrect(x: Effect, rd: int, val: int, m: Machine)
    requires IsRV(x)
    requires 0 < rd < 32 && val == W32(val) && !IsImm12(val)
    requires AllStraight(LiSeq(rd, val))
    ensures var r := ExecAll(x, LiSeq(rd, val), m); r.regs == m.regs[rd := val] && r.mem == m.mem
  {
    var lo := Sext12(val);
    var hi := (val - lo) / 4096 % 0x10_0000;
    LiShortValue(val);
    var m1 := x(Lui(rd, hi), m);
    assert m1 == Exec(Lui(rd, hi), m);
    assert m1.regs == m.regs[rd := W32(hi * 4096)];
    if lo == 0 {
      ExecAllOne(x, Lui(rd, hi), m);
    } else {
      assert LiSeq(rd, val) == [Lui(rd, hi), Addiw(rd, rd, lo)];
      ExecAllTwo(x, Lui(rd, hi), Addiw(rd, rd, lo), m);
      assert x(Addiw(rd, rd, lo), m1) == Exec(Addiw(rd, rd, lo), m1);
      assert Exec(Addiw(rd, rd, lo), m1).regs == m.regs[rd := val];
    }
  }

  lemma {:induction false} LiLongCorrect(x: Effect, rd: int, val: int, m: Machine)
    requires IsRV(x)
    requires 0 < rd < 32 && -TWO63 <= val < TWO63 && val != W32(val) && !IsImm12(val)
    requires AllStraight(LiSeq(rd, val))
    ensures var r := ExecAll(x, LiSeq(rd, val), m); r.regs == m.regs[rd := val] && r.mem == m.mem
    decreases Abs(val), 0
  {
    HighBound(val);
    var (h, k) := Odd(High(val));
    ShiftBound(High(val), h, k);
    LiRuns(x, rd, h, m);
    LiLongValue(val, h, k);
    var m1 := ExecAll(x, LiSeq(rd, h), m);
    ShiftAdd(x, rd, h, 12 + k, Sext12(val), val, m, m1);
    var lo := Sext12(val);
    var fin := [Slli(rd, rd, 12 + k)] + (if lo != 0 then [Addi(rd, rd, lo)] else []);
    assert LiSeq(rd, val) == LiSeq(rd, h) + fin;
    ExecAllConcat(x, LiSeq(rd, h), fin, m);
  }

  // slli by sh, then addi when there is a low part.
  lemma ShiftAdd(x: Effect, rd: int, h: int, sh: nat, lo: int, val: int, m: Machine, m1: Machine)
    requires IsRV(x)
    requires 0 < rd < 32
    requires m1.regs == m.regs[rd := h] && m1.mem == m.mem
    requires W64(W64(h * Pow2(sh)) + lo) == val && (lo == 0 ==> W64(h * Pow2(sh)) == val)
    ensures var r := ExecAll(x, [Slli(rd, rd, sh)] + (if lo != 0 then [Addi(rd, rd, lo)] else []), m1);
            r.regs == m.regs[rd := val] && r.mem == m.mem
  {
    var a := Slli(rd, rd, sh);
    var m2 := x(a, m1);
    assert m2 == Exec(a, m1);
    assert m2.regs == m.regs[rd := W64(h * Pow2(sh))] && m2.mem == m.mem;
    ExecAllOne(x, a, m1);
    if lo == 0 {
      assert [a] + [] == [a];
    } else {
      var b := Addi(rd, rd, lo);
      assert [a] + [b] == [a, b];
      ExecAllTwo(x, a, b, m1);
      assert x(b, m2) == Exec(b, m2);
      assert Exec(b, m2).regs == m.regs[rd := val];
    }
  }

  // The same for RV64 itself, with the length.
  lemma LiCorrect(rd: int, val: int, m: Machine)
    requires 0 < rd < 32 && -TWO63 <= val < TWO63
    ensures AllStraight(LiSeq(rd, val)) && |LiSeq(rd, val)| <= 8
    ensures var r := ExecAll(Exec, LiSeq(rd, val), m); r.regs == m.regs[rd := val] && r.mem == m.mem
  {
    ExecIsRV();
    LiWellFormed(rd, val);
    LiRuns(Exec, rd, val, m);
  }
}
