// The case macro: the RV64 code of a binary search over a case table
// ([count] then [lo][hi][pc] for each range, then [default pc], all 64-bit
// words) and where it jumps.
module CaseJump {
  import opened Basics
  import opened Rv64
  import opened CodeRun

  const RTA := 5
  const RCON := 6
  const RT2 := 7    // the table, kept for the default
  const RA0 := 10
  const RA1 := 11   // the value
  const RA2 := 12   // ranges left to search
  const RA3 := 13   // the table from the first of them on

  // -- the table -----------------------------------------------------------------

  function Lo(mem: Mem, tab: int, k: int): int { Load64(mem, tab + 24 * k + 8) }
  function Hi(mem: Mem, tab: int, k: int): int { Load64(mem, tab + 24 * k + 16) }
  function Pc(mem: Mem, tab: int, k: int): int { Load64(mem, tab + 24 * k + 24) }

  predicate Contains(mem: Mem, tab: int, k: int, v: int) { Lo(mem, tab, k) <= v < Hi(mem, tab, k) }

  // A table of n ranges in the lower half of the address space.
  predicate TableOk(mem: Mem, tab: int, n: nat)
  {
    0 <= tab && tab + 24 * n + 16 <= TWO63 && Load64(mem, tab) == n
  }

  // Sorted disjoint ranges.
  predicate Sorted(mem: Mem, tab: int, n: nat)
  {
    && (forall k :: 0 <= k < n ==> Lo(mem, tab, k) <= Hi(mem, tab, k))
    && (forall j, k :: 0 <= j < k < n ==> Hi(mem, tab, j) <= Lo(mem, tab, k))
  }

  lemma ContainsOnce(mem: Mem, tab: int, n: nat, j: int, k: int, v: int)
    requires Sorted(mem, tab, n) && 0 <= j < n && 0 <= k < n
    requires Contains(mem, tab, j, v) && Contains(mem, tab, k, v)
    ensures j == k
  {
    assert j < k ==> Hi(mem, tab, j) <= Lo(mem, tab, k);
    assert k < j ==> Hi(mem, tab, k) <= Lo(mem, tab, j);
  }

  // -- the code ------------------------------------------------------------------

  function Entry(): seq<Insn> { [Ld(RA2, RA3, 0), Addi(RT2, RA3, 0)] }
  function Test(): seq<Insn> { [Branch(5, 0, RA2, 4 * 17)] }                    // to Default
  function Pivot(): seq<Insn>
  {
    [Srli(RA0, RA2, 1), Addi(RTA, 0, 24), Reg(MUL, RCON, RA0, RTA), Reg(ADD, RCON, RA3, RCON), Ld(RTA, RCON, 8)]
  }
  function BelowLo(): seq<Insn> { [Branch(5, RA1, RTA, 4 * 3)] }                // to Upper
  function Left(): seq<Insn> { [Addi(RA2, RA0, 0)] }
  function LeftBack(): seq<Insn> { [Jal(0, 4 * -8)] }                           // to Test
  function Upper(): seq<Insn> { [Ld(RTA, RCON, 16)] }
  function AboveHi(): seq<Insn> { [Branch(5, RA1, RTA, 4 * 3)] }                // to Right
  function Found(): seq<Insn> { [Ld(RTA, RCON, 24)] }
  function Go(): seq<Insn> { [Jalr(0, RTA, 0)] }
  function Right(): seq<Insn> { [Addi(RA3, RCON, 24), Addi(RA0, RA0, 1), Reg(SUB, RA2, RA2, RA0)] }
  function RightBack(): seq<Insn> { [Jal(0, 4 * -16)] }                         // to Test
  function Default(): seq<Insn>
  {
    [Ld(RA2, RT2, 0), Addi(RTA, 0, 24), Reg(MUL, RA2, RA2, RTA), Reg(ADD, RT2, RT2, RA2), Ld(RTA, RT2, 8)]
  }

  function MacCase(): seq<Insn>
  {
    Entry() + (Test() + (Pivot() + (BelowLo() + (Left() + (LeftBack() + (Upper() + (AboveHi()
    + (Found() + (Go() + (Right() + (RightBack() + (Default() + Go()))))))))))))
  }

  // The generator: forward branches go out with no offset and are patched when
  // their target is reached; backward ones jump to where the loop began.
  method GenCase() returns (code: seq<Insn>)
    ensures code == MacCase()
  {
    code := [Ld(RA2, RA3, 0), Addi(RT2, RA3, 0)];
    var loop := |code|;
    var out := |code|;
    code := code + [Branch(5, 0, RA2, 0)];
    code := code + Pivot();
    var notlt := |code|;
    code := code + [Branch(5, RA1, RTA, 0)];
    code := code + [Addi(RA2, RA0, 0)];
    code := code + [Jal(0, 4 * (loop - |code|))];
    code := code[notlt := Branch(5, RA1, RTA, 4 * (|code| - notlt))];
    code := code + [Ld(RTA, RCON, 16)];
    var notfound := |code|;
    code := code + [Branch(5, RA1, RTA, 0)];
    code := code + [Ld(RTA, RCON, 24), Jalr(0, RTA, 0)];
    code := code[notfound := Branch(5, RA1, RTA, 4 * (|code| - notfound))];
    code := code + [Addi(RA3, RCON, 24), Addi(RA0, RA0, 1), Reg(SUB, RA2, RA2, RA0)];
    code := code + [Jal(0, 4 * (loop - |code|))];
    code := code[out := Branch(5, 0, RA2, 4 * (|code| - out))];
    code := code + Default() + Go();
  }

  // The words are encodable, so they are fetched as they were written.
  lemma MacCaseEncodable()
    ensures AllEncodable(MacCase()) && |MacCase()| == 25
  {
  }

  // -- running -------------------------------------------------------------------

  ghost predicate Steps(x: Effect, fetch: Fetcher, m: Machine, m': Machine)
  {
    exists k: nat :: Run(x, fetch, m, k) == Some(m')
  }

  lemma StepsOver(x: Effect, fetch: Fetcher, m: Machine, m1: Machine, m2: Machine)
    requires Steps(x, fetch, m, m1) && Steps(x, fetch, m1, m2)
    ensures Steps(x, fetch, m, m2)
  {
    var j: nat :| Run(x, fetch, m, j) == Some(m1);
    var k: nat :| Run(x, fetch, m1, k) == Some(m2);
    RunAdd(x, fetch, m, j, k, m1);
  }

  lemma StepsJump(x: Effect, fetch: Fetcher, base: int, at: int, i: Insn, m: Machine)
    requires Holds(fetch, base, at, [i]) && m.pc == base + 4 * at
    ensures Steps(x, fetch, m, x(i, m))
  {
    RunOne(x, fetch, base, at, i, m);
  }

  lemma StepsStraight(x: Effect, fetch: Fetcher, base: int, at: int, s: seq<Insn>, m: Machine)
    requires Advances(x) && Holds(fetch, base, at, s) && AllStraight(s) && m.pc == base + 4 * at
    ensures Steps(x, fetch, m, ExecAll(x, s, m)) && ExecAll(x, s, m).pc == base + 4 * (at + |s|)
  {
    RunStraight(x, fetch, base, at, s, m);
  }

  // The code is at word `at`, block by block.
  ghost predicate Blocks(fetch: Fetcher, base: int, at: int)
  {
    && Holds(fetch, base, at, Entry()) && Holds(fetch, base, at + 2, Test())
    && Holds(fetch, base, at + 3, Pivot()) && Holds(fetch, base, at + 8, BelowLo())
    && Holds(fetch, base, at + 9, Left()) && Holds(fetch, base, at + 10, LeftBack())
    && Holds(fetch, base, at + 11, Upper()) && Holds(fetch, base, at + 12, AboveHi())
    && Holds(fetch, base, at + 13, Found()) && Holds(fetch, base, at + 14, Go())
    && Holds(fetch, base, at + 15, Right()) && Holds(fetch, base, at + 18, RightBack())
    && Holds(fetch, base, at + 19, Default()) && Holds(fetch, base, at + 24, Go())
  }

  lemma HoldsBlocks(fetch: Fetcher, base: int, at: int)
    requires Holds(fetch, base, at, MacCase())
    ensures Blocks(fetch, base, at)
  {
    var t13 := Default() + Go();
    var t12 := RightBack() + t13;
    var t11 := Right() + t12;
    var t10 := Go() + t11;
    var t9 := Found() + t10;
    var t8 := AboveHi() + t9;
    var t7 := Upper() + t8;
    var t6 := LeftBack() + t7;
    var t5 := Left() + t6;
    var t4 := BelowLo() + t5;
    var t3 := Pivot() + t4;
    var t2 := Test() + t3;
    HoldsSplit(fetch, base, at, Entry(), t2);
    HoldsSplit(fetch, base, at + 2, Test(), t3);
    HoldsSplit(fetch, base, at + 3, Pivot(), t4);
    HoldsSplit(fetch, base, at + 8, BelowLo(), t5);
    HoldsSplit(fetch, base, at + 9, Left(), t6);
    HoldsSplit(fetch, base, at + 10, LeftBack(), t7);
    HoldsSplit(fetch, base, at + 11, Upper(), t8);
    HoldsSplit(fetch, base, at + 12, AboveHi(), t9);
    HoldsSplit(fetch, base, at + 13, Found(), t10);
    HoldsSplit(fetch, base, at + 14, Go(), t11);
    HoldsSplit(fetch, base, at + 15, Right(), t12);
    HoldsSplit(fetch, base, at + 18, RightBack(), t13);
    HoldsSplit(fetch, base, at + 19, Default(), Go());
  }

  // Only the macro's own registers change, and no memory.
  predicate Scratch(r: int) { r == RTA || r == RCON || r == RT2 || r == RA0 || r == RA2 || r == RA3 }

  ghost predicate Same(m: Machine, m': Machine)
  {
    m'.mem == m.mem && forall r :: 0 < r < 32 && !Scratch(r) ==> m'.regs[r] == m.regs[r]
  }

  // -- the straight blocks ----------------------------------------------------------

  lemma Unroll(x: Effect, i: Insn, s: seq<Insn>, m: Machine)
    ensures ExecAll(x, [i] + s, m) == ExecAll(x, s, x(i, m))
  {
    assert ([i] + s)[1..] == s;
  }

  lemma ExecFive(x: Effect, a: Insn, b: Insn, c: Insn, d: Insn, e: Insn, m: Machine)
    ensures ExecAll(x, [a, b, c, d, e], m) == x(e, x(d, x(c, x(b, x(a, m)))))
  {
    assert [a, b, c, d, e] == [a] + ([b] + ([c] + ([d] + [e])));
    Unroll(x, a, [b] + ([c] + ([d] + [e])), m);
    Unroll(x, b, [c] + ([d] + [e]), x(a, m));
    Unroll(x, c, [d] + [e], x(b, x(a, m)));
    ExecAllTwo(x, d, e, x(c, x(b, x(a, m))));
  }

  // One instruction: the register it sets.
  lemma DoAddi(x: Effect, rd: int, rs: int, imm: int, m: Machine)
    requires IsRV(x) && 0 < rd < 32 && -TWO63 <= Get(m.regs, rs) + imm < TWO63
    ensures x(Addi(rd, rs, imm), m).regs == m.regs[rd := Get(m.regs, rs) + imm] && x(Addi(rd, rs, imm), m).mem == m.mem
  {
    W64Id(Get(m.regs, rs) + imm);
    assert x(Addi(rd, rs, imm), m) == Exec(Addi(rd, rs, imm), m);
  }

  lemma DoReg(x: Effect, op: RegOp, rd: int, a: int, b: int, m: Machine)
    requires IsRV(x) && 0 < rd < 32
    ensures x(Reg(op, rd, a, b), m).regs == m.regs[rd := Alu(op, Get(m.regs, a), Get(m.regs, b))]
    ensures x(Reg(op, rd, a, b), m).mem == m.mem
  {
    assert x(Reg(op, rd, a, b), m) == Exec(Reg(op, rd, a, b), m);
  }

  lemma DoLd(x: Effect, rd: int, rs: int, imm: int, m: Machine)
    requires IsRV(x) && 0 < rd < 32
    ensures x(Ld(rd, rs, imm), m).regs == m.regs[rd := Load64(m.mem, Get(m.regs, rs) + imm)]
    ensures x(Ld(rd, rs, imm), m).mem == m.mem
  {
    assert x(Ld(rd, rs, imm), m) == Exec(Ld(rd, rs, imm), m);
  }

  lemma DoHalve(x: Effect, m: Machine, n: int)
    requires IsRV(x) && m.regs[RA2] == n && 0 <= n < TWO63
    ensures x(Srli(RA0, RA2, 1), m).regs == m.regs[RA0 := n / 2] && x(Srli(RA0, RA2, 1), m).mem == m.mem
  {
    assert Pow2(1) == 2 * Pow2(0);
    assert x(Srli(RA0, RA2, 1), m) == Exec(Srli(RA0, RA2, 1), m);
  }

  lemma RunsEntry(x: Effect, m: Machine)
    requires IsRV(x) && -TWO63 <= m.regs[RA3] < TWO63
    ensures var m' := ExecAll(x, Entry(), m);
      Same(m, m') && m'.regs[RA2] == Load64(m.mem, m.regs[RA3]) && m'.regs[RT2] == m.regs[RA3] &&
      m'.regs[RA3] == m.regs[RA3]
  {
    var i, j := Ld(RA2, RA3, 0), Addi(RT2, RA3, 0);
    ExecAllTwo(x, i, j, m);
    DoLd(x, RA2, RA3, 0, m);
    DoAddi(x, RT2, RA3, 0, x(i, m));
  }

  // p the table from the first range searched on: the middle one's address and lo.
  lemma RunsPivot(x: Effect, m: Machine, p: int, n: int)
    requires IsRV(x) && m.regs[RA2] == n && m.regs[RA3] == p && 0 < n && 0 <= p && p + 24 * n < TWO63
    ensures var m' := ExecAll(x, Pivot(), m);
      && Same(m, m') && m'.regs[RA0] == n / 2 && m'.regs[RCON] == p + 24 * (n / 2)
      && m'.regs[RTA] == Load64(m.mem, p + 24 * (n / 2) + 8)
      && m'.regs[RA2] == n && m'.regs[RA3] == p && m'.regs[RT2] == m.regs[RT2]
  {
    var i1, i2, i3, i4, i5 := Srli(RA0, RA2, 1), Addi(RTA, 0, 24), Reg(MUL, RCON, RA0, RTA),
                              Reg(ADD, RCON, RA3, RCON), Ld(RTA, RCON, 8);
    var m1 := x(i1, m);
    var m2 := x(i2, m1);
    var m3 := x(i3, m2);
    var m4 := x(i4, m3);
    ExecFive(x, i1, i2, i3, i4, i5, m);
    DoHalve(x, m, n);
    DoAddi(x, RTA, 0, 24, m1);
    W64Id(24 * (n / 2));
    DoReg(x, MUL, RCON, RA0, RTA, m2);
    W64Id(p + 24 * (n / 2));
    DoReg(x, ADD, RCON, RA3, RCON, m3);
    DoLd(x, RTA, RCON, 8, m4);
  }

  lemma RunsRight(x: Effect, m: Machine, q: int, n: int, h: int)
    requires IsRV(x) && m.regs[RCON] == q && m.regs[RA2] == n && m.regs[RA0] == h
    requires 0 <= q && q + 24 < TWO63 && 0 <= h < n < TWO63
    ensures var m' := ExecAll(x, Right(), m);
      Same(m, m') && m'.regs[RA3] == q + 24 && m'.regs[RA2] == n - (h + 1) && m'.regs[RT2] == m.regs[RT2]
  {
    var i1, i2, i3 := Addi(RA3, RCON, 24), Addi(RA0, RA0, 1), Reg(SUB, RA2, RA2, RA0);
    var m1 := x(i1, m);
    var m2 := x(i2, m1);
    assert Right() == [i1] + ([i2] + [i3]);
    Unroll(x, i1, [i2] + [i3], m);
    Unroll(x, i2, [i3], m1);
    ExecAllOne(x, i3, m2);
    DoAddi(x, RA3, RCON, 24, m);
    DoAddi(x, RA0, RA0, 1, m1);
    W64Id(n - (h + 1));
    DoReg(x, SUB, RA2, RA2, RA0, m2);
  }

  lemma RunsDefault(x: Effect, m: Machine, tab: int, n: nat)
    requires IsRV(x) && TableOk(m.mem, tab, n) && m.regs[RT2] == tab
    ensures var m' := ExecAll(x, Default(), m);
      Same(m, m') && m'.regs[RTA] == Load64(m.mem, tab + 24 * n + 8)
  {
    var i1, i2, i3, i4, i5 := Ld(RA2, RT2, 0), Addi(RTA, 0, 24), Reg(MUL, RA2, RA2, RTA),
                              Reg(ADD, RT2, RT2, RA2), Ld(RTA, RT2, 8);
    var m1 := x(i1, m);
    var m2 := x(i2, m1);
    var m3 := x(i3, m2);
    var m4 := x(i4, m3);
    ExecFive(x, i1, i2, i3, i4, i5, m);
    DoLd(x, RA2, RT2, 0, m);
    DoAddi(x, RTA, 0, 24, m1);
    W64Id(24 * n);
    DoReg(x, MUL, RA2, RA2, RTA, m2);
    W64Id(tab + 24 * n);
    DoReg(x, ADD, RT2, RT2, RA2, m3);
    DoLd(x, RTA, RT2, 8, m4);
  }

  // -- the jumps ----------------------------------------------------------------------

  // A branch block at word k: where it goes, and nothing else.
  lemma RunsBranch(x: Effect, fetch: Fetcher, base: int, k: int, f3: int, a: int, b: int, d: int, m: Machine)
    returns (m': Machine)
    requires IsRV(x) && Holds(fetch, base, k, [Branch(f3, a, b, 4 * d)]) && m.pc == base + 4 * k
    requires 0 <= k + d && base + 4 * (k + d) < TWO64
    ensures Steps(x, fetch, m, m') && m'.regs == m.regs && m'.mem == m.mem
    ensures m'.pc == base + 4 * (if Taken(f3, Get(m.regs, a), Get(m.regs, b)) then k + d else k + 1)
  {
    var i := Branch(f3, a, b, 4 * d);
    StepsJump(x, fetch, base, k, i, m);
    m' := x(i, m);
    assert m' == Exec(i, m);
  }

  lemma RunsBack(x: Effect, fetch: Fetcher, base: int, k: int, d: int, m: Machine) returns (m': Machine)
    requires IsRV(x) && Holds(fetch, base, k, [Jal(0, 4 * d)]) && m.pc == base + 4 * k
    requires 0 <= k + d && base + 4 * (k + d) < TWO64
    ensures Steps(x, fetch, m, m') && m' == m.(pc := base + 4 * (k + d))
  {
    var i := Jal(0, 4 * d);
    StepsJump(x, fetch, base, k, i, m);
    m' := x(i, m);
    assert m' == Exec(i, m);
  }

  // Jump targets lose their low bit.
  function Even(v: int): int { U64(v) - U64(v) % 2 }

  lemma RunsGo(x: Effect, fetch: Fetcher, base: int, k: int, m: Machine) returns (m': Machine)
    requires IsRV(x) && Holds(fetch, base, k, Go()) && m.pc == base + 4 * k
    ensures Steps(x, fetch, m, m') && m' == m.(pc := Even(m.regs[RTA]))
  {
    var i := Jalr(0, RTA, 0);
    StepsJump(x, fetch, base, k, i, m);
    m' := x(i, m);
    assert m' == Exec(i, m);
  }

  // -- the search -----------------------------------------------------------------------

  // At Test with ranges i to i + n left.
  ghost predicate Searching(m: Machine, base: int, at: int, tab: int, cnt: nat, v: int, i: nat, n: nat)
  {
    && m.pc == base + 4 * (at + 2) && m.regs[RA1] == v && m.regs[RT2] == tab
    && m.regs[RA3] == tab + 24 * i && m.regs[RA2] == n && i + n <= cnt && TableOk(m.mem, tab, cnt)
  }

  // No range from i up to j holds v.
  predicate NoneIn(mem: Mem, tab: int, i: int, j: int, v: int)
  {
    forall k :: i <= k < j ==> !Contains(mem, tab, k, v)
  }

  // v is below range k, so below all after it; or above, so above all before.
  lemma NoneAfter(mem: Mem, tab: int, cnt: nat, k: nat, j: nat, v: int)
    requires Sorted(mem, tab, cnt) && k < cnt && j <= cnt && v < Lo(mem, tab, k)
    ensures NoneIn(mem, tab, k, j, v)
  {
    assert Lo(mem, tab, k) <= Hi(mem, tab, k);
  }

  lemma NoneBefore(mem: Mem, tab: int, cnt: nat, i: nat, k: nat, v: int)
    requires Sorted(mem, tab, cnt) && k < cnt && v >= Hi(mem, tab, k)
    ensures NoneIn(mem, tab, i, k + 1, v)
  {
    forall j | i <= j < k + 1 ensures !Contains(mem, tab, j, v) {
      if j < k {
        assert Hi(mem, tab, j) <= Lo(mem, tab, k) <= Hi(mem, tab, k);
      }
    }
  }

  // From Test, the search ends at the pc of a range that holds v, or at
  // Default; and at Default only if no range left holds v.
  lemma {:induction false} SearchEnds(x: Effect, fetch: Fetcher, base: int, at: int, m: Machine,
    tab: int, cnt: nat, v: int, i: nat, n: nat) returns (j: int, m': Machine)
    requires IsRV(x) && Blocks(fetch, base, at) && Searching(m, base, at, tab, cnt, v, i, n)
    ensures Steps(x, fetch, m, m') && Same(m, m')
    ensures j == -1 || i <= j < i + n
    ensures j >= 0 ==> Contains(m.mem, tab, j, v) && m'.pc == Even(Pc(m.mem, tab, j))
    ensures j == -1 ==> m'.pc == base + 4 * (at + 19) && m'.regs[RT2] == tab
    ensures j == -1 && Sorted(m.mem, tab, cnt) ==> NoneIn(m.mem, tab, i, i + n, v)
    decreases n
  {
    var m1 := RunsBranch(x, fetch, base, at + 2, 5, 0, RA2, 17, m);
    if n == 0 {
      j, m' := -1, m1;
    } else {
      var c, m2 := RunsProbe(x, fetch, base, at, m1, tab, cnt, v, i, n);
      StepsOver(x, fetch, m, m1, m2);
      var h := n / 2;
      if c == Below {
        j, m' := SearchEnds(x, fetch, base, at, m2, tab, cnt, v, i, h);
        StepsOver(x, fetch, m, m2, m');
        if Sorted(m.mem, tab, cnt) { NoneAfter(m.mem, tab, cnt, i + h, i + n, v); }
      } else if c == Above {
        j, m' := SearchEnds(x, fetch, base, at, m2, tab, cnt, v, i + h + 1, n - (h + 1));
        StepsOver(x, fetch, m, m2, m');
        if Sorted(m.mem, tab, cnt) { NoneBefore(m.mem, tab, cnt, i, i + h, v); }
      } else {
        j, m' := i + h, m2;
      }
    }
  }

  datatype Side = Below | Within | Above

  // One look at the middle of the ranges left.
  lemma RunsProbe(x: Effect, fetch: Fetcher, base: int, at: int, m: Machine,
    tab: int, cnt: nat, v: int, i: nat, n: nat) returns (c: Side, m': Machine)
    requires IsRV(x) && Blocks(fetch, base, at) && n > 0 && m.pc == base + 4 * (at + 3)
    requires Searching(m.(pc := base + 4 * (at + 2)), base, at, tab, cnt, v, i, n)
    ensures Steps(x, fetch, m, m') && Same(m, m')
    ensures c == if v < Lo(m.mem, tab, i + n / 2) then Below
                 else if v >= Hi(m.mem, tab, i + n / 2) then Above else Within
    ensures c == Below ==> Searching(m', base, at, tab, cnt, v, i, n / 2)
    ensures c == Above ==> Searching(m', base, at, tab, cnt, v, i + n / 2 + 1, n - (n / 2 + 1))
    ensures c == Within ==> m'.pc == Even(Pc(m.mem, tab, i + n / 2))
  {
    var k := i + n / 2;
    RunsPivot(x, m, tab + 24 * i, n);
    StepsStraight(x, fetch, base, at + 3, Pivot(), m);
    var m1 := ExecAll(x, Pivot(), m);
    var m2 := RunsBranch(x, fetch, base, at + 8, 5, RA1, RTA, 3, m1);
    StepsOver(x, fetch, m, m1, m2);
    if v < Lo(m.mem, tab, k) {
      c := Below;
      m' := RunsLeft(x, fetch, base, at, m2);
    } else {
      c, m' := RunsUpper(x, fetch, base, at, m2, tab, cnt, k, n, n / 2);
    }
    StepsOver(x, fetch, m, m2, m');
  }

  lemma RunsLeft(x: Effect, fetch: Fetcher, base: int, at: int, m: Machine) returns (m': Machine)
    requires IsRV(x) && Blocks(fetch, base, at) && m.pc == base + 4 * (at + 9) && 0 <= m.regs[RA0] < TWO63
    ensures Steps(x, fetch, m, m') && Same(m, m') && m'.pc == base + 4 * (at + 2)
    ensures m'.regs == m.regs[RA2 := m.regs[RA0]]
  {
    var i := Addi(RA2, RA0, 0);
    StepsStraight(x, fetch, base, at + 9, Left(), m);
    ExecAllOne(x, i, m);
    var m1 := x(i, m);
    W64Id(m.regs[RA0]);
    assert m1 == Exec(i, m);
    m' := RunsBack(x, fetch, base, at + 10, -8, m1);
    StepsOver(x, fetch, m, m1, m');
  }

  // A load block: one register.
  lemma RunsLoad(x: Effect, fetch: Fetcher, base: int, k: int, off: int, m: Machine) returns (m': Machine)
    requires IsRV(x) && Holds(fetch, base, k, [Ld(RTA, RCON, off)]) && m.pc == base + 4 * k && IsImm12(off)
    ensures Steps(x, fetch, m, m') && m'.pc == base + 4 * (k + 1) && m'.mem == m.mem
    ensures m'.regs == m.regs[RTA := Load64(m.mem, m.regs[RCON] + off)]
  {
    var i := Ld(RTA, RCON, off);
    StepsStraight(x, fetch, base, k, [i], m);
    ExecAllOne(x, i, m);
    m' := x(i, m);
    assert m' == Exec(i, m);
  }

  lemma RunsUpper(x: Effect, fetch: Fetcher, base: int, at: int, m: Machine, tab: int, cnt: nat, k: nat, n: nat, h: nat)
    returns (c: Side, m': Machine)
    requires IsRV(x) && Blocks(fetch, base, at) && m.pc == base + 4 * (at + 11)
    requires TableOk(m.mem, tab, cnt) && k < cnt && h < n <= cnt && m.regs[RCON] == tab + 24 * k
    requires m.regs[RA2] == n && m.regs[RA0] == h
    ensures Steps(x, fetch, m, m') && Same(m, m')
    ensures c == if m.regs[RA1] >= Hi(m.mem, tab, k) then Above else Within
    ensures c == Above ==> m'.pc == base + 4 * (at + 2) && m'.regs[RA3] == tab + 24 * (k + 1)
    ensures c == Above ==> m'.regs[RA2] == n - (h + 1) && m'.regs[RT2] == m.regs[RT2]
    ensures c == Within ==> m'.pc == Even(Pc(m.mem, tab, k))
  {
    var m1 := RunsLoad(x, fetch, base, at + 11, 16, m);
    var m2 := RunsBranch(x, fetch, base, at + 12, 5, RA1, RTA, 3, m1);
    StepsOver(x, fetch, m, m1, m2);
    if m.regs[RA1] >= Hi(m.mem, tab, k) {
      c := Above;
      m' := GoesRight(x, fetch, base, at, m2, tab + 24 * k, n, h);
    } else {
      c := Within;
      m' := GoesFound(x, fetch, base, at, m2);
    }
    StepsOver(x, fetch, m, m2, m');
  }

  // On to the ranges after the middle one.
  lemma GoesRight(x: Effect, fetch: Fetcher, base: int, at: int, m: Machine, q: int, n: int, h: int)
    returns (m': Machine)
    requires IsRV(x) && Blocks(fetch, base, at) && m.pc == base + 4 * (at + 15)
    requires m.regs[RCON] == q && m.regs[RA2] == n && m.regs[RA0] == h && 0 <= q && q + 24 < TWO63 && 0 <= h < n < TWO63
    ensures Steps(x, fetch, m, m') && Same(m, m') && m'.pc == base + 4 * (at + 2)
    ensures m'.regs[RA3] == q + 24 && m'.regs[RA2] == n - (h + 1) && m'.regs[RT2] == m.regs[RT2]
  {
    RunsRight(x, m, q, n, h);
    StepsStraight(x, fetch, base, at + 15, Right(), m);
    var m1 := ExecAll(x, Right(), m);
    m' := RunsBack(x, fetch, base, at + 18, -16, m1);
    StepsOver(x, fetch, m, m1, m');
  }

  // The middle one's pc, and there.
  lemma GoesFound(x: Effect, fetch: Fetcher, base: int, at: int, m: Machine) returns (m': Machine)
    requires IsRV(x) && Blocks(fetch, base, at) && m.pc == base + 4 * (at + 13)
    ensures Steps(x, fetch, m, m') && Same(m, m') && m'.pc == Even(Load64(m.mem, m.regs[RCON] + 24))
  {
    var m1 := RunsLoad(x, fetch, base, at + 13, 24, m);
    m' := RunsGo(x, fetch, base, at + 14, m1);
    StepsOver(x, fetch, m, m1, m');
  }

  lemma GoesDefault(x: Effect, fetch: Fetcher, base: int, at: int, m: Machine, tab: int, n: nat) returns (m': Machine)
    requires IsRV(x) && Blocks(fetch, base, at) && m.pc == base + 4 * (at + 19)
    requires TableOk(m.mem, tab, n) && m.regs[RT2] == tab
    ensures Steps(x, fetch, m, m') && Same(m, m') && m'.pc == Even(Load64(m.mem, tab + 24 * n + 8))
  {
    RunsDefault(x, m, tab, n);
    StepsStraight(x, fetch, base, at + 19, Default(), m);
    var m1 := ExecAll(x, Default(), m);
    m' := RunsGo(x, fetch, base, at + 24, m1);
    StepsOver(x, fetch, m, m1, m');
  }

  // The macro: for every table and value it terminates, at the pc of a range
  // that holds the value or at the default pc; over sorted disjoint ranges, at
  // the pc of the only range that holds it, and at the default exactly when
  // none does.  Memory and the other registers are as they were.
  lemma CaseDispatch(x: Effect, fetch: Fetcher, base: int, at: int, m: Machine, tab: int, n: nat)
    returns (j: int, m': Machine)
    requires IsRV(x) && Holds(fetch, base, at, MacCase()) && m.pc == base + 4 * at
    requires m.regs[RA3] == tab && TableOk(m.mem, tab, n)
    ensures Steps(x, fetch, m, m') && Same(m, m')
    ensures j == -1 || (0 <= j < n && Contains(m.mem, tab, j, m.regs[RA1]))
    ensures m'.pc == Even(if j == -1 then Load64(m.mem, tab + 24 * n + 8) else Pc(m.mem, tab, j))
    ensures Sorted(m.mem, tab, n) ==>
      forall k :: 0 <= k < n ==> (Contains(m.mem, tab, k, m.regs[RA1]) <==> k == j)
  {
    var v := m.regs[RA1];
    HoldsBlocks(fetch, base, at);
    RunsEntry(x, m);
    StepsStraight(x, fetch, base, at, Entry(), m);
    var m1 := ExecAll(x, Entry(), m);
    j, m' := SearchEnds(x, fetch, base, at, m1, tab, n, v, 0, n);
    StepsOver(x, fetch, m, m1, m');
    if j == -1 {
      var m2 := m';
      m' := GoesDefault(x, fetch, base, at, m2, tab, n);
      StepsOver(x, fetch, m, m2, m');
    }
    if Sorted(m.mem, tab, n) {
      forall k | 0 <= k < n ensures Contains(m.mem, tab, k, v) <==> k == j {
        if j >= 0 && Contains(m.mem, tab, k, v) {
          ContainsOnce(m.mem, tab, n, j, k, v);
        }
      }
    }
  }
}
