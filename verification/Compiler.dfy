// The compiler end to end: what Compile accepts, it compiles correctly.
module Compiler {
  import opened Basics
  import opened Rv64
  import opened CodeRun
  import opened LoadConst
  import opened Relax
  import opened Layout
  import opened Dis
  import opened Sim
  import opened Program
  import opened Jit

  // Every macro fits the smallest scratch buffer, as the eleven of the
  // compiler do.
  predicate MacrosFit(macros: seq<seq<int>>) { forall i :: 0 <= i < |macros| ==> |macros[i]| <= 8192 }

  lemma {:induction false} RawsLen(t: seq<Item>, ws: seq<int>, forms: seq<Form>)
    ensures Len(t + Raws(ws), forms) == Len(t, forms) + |ws|
    decreases |ws|
  {
    if ws == [] {
      assert t + Raws(ws) == t;
    } else {
      var front := ws[..|ws| - 1];
      RawsLen(t, front, forms);
      assert t + Raws(ws) == (t + Raws(front)) + [Raw(ws[|ws| - 1])];
      Append(t + Raws(front), Raw(ws[|ws| - 1]), forms);
    }
  }

  lemma {:induction false} MacrosLen(prog: seq<Inst>, macros: seq<seq<int>>, i: nat)
    requires ProgOk(prog, macros) && MacrosFit(macros) && i <= |macros|
    ensures Len(BeforeMac(prog, macros, i), []) <= Len(ProgItems(prog, macros, |prog|), []) + 1 + 8192 * i
  {
    var t := ProgItems(prog, macros, |prog|);
    if i == 0 {
      assert BeforeMac(prog, macros, 0) == t + [Raw(EBREAK)];
      Append(t, Raw(EBREAK), []);
    } else {
      MacrosLen(prog, macros, i - 1);
      BeforeNext(prog, macros, i - 1);
      RawsLen(BeforeMac(prog, macros, i - 1), macros[i - 1], []);
    }
  }

  // An accepted module is far smaller than auipc can reach across.
  lemma AcceptedSmall(prog: seq<Inst>, macros: seq<seq<int>>)
    requires ProgOk(prog, macros) && MacrosFit(macros) && Accepts(prog, macros)
    ensures ImageOk(ImageOf(prog, macros)) && Small(ImageOf(prog, macros))
  {
    ImageOfOk(prog, macros);
    MacrosLen(prog, macros, NMACRO);
    if |prog| > 0 { assert InstFits(prog, macros, |prog| - 1); }
    assert ImageOf(prog, macros).items == BeforeMac(prog, macros, NMACRO);
  }

  // -- which programs are accepted ----------------------------------------------------

  // Words of instruction i with every site at its longest.
  function InstWords(prog: seq<Inst>, i: nat): nat
    requires i < |prog| && InstOk(prog[i], |prog|, NMACRO)
  {
    Len(CompItems(prog[i], i, |prog|, NMACRO), [])
  }

  lemma {:induction false} LenConcat(a: seq<Item>, b: seq<Item>)
    ensures Len(a + b, []) == Len(a, []) + Len(b, [])
    decreases |b|
  {
    if b == [] {
      assert a + b == a;
    } else {
      var front := b[..|b| - 1];
      LenConcat(a, front);
      assert a + b == (a + front) + [b[|b| - 1]] && b == front + [b[|b| - 1]];
      Append(a + front, b[|b| - 1], []);
      Append(front, b[|b| - 1], []);
    }
  }

  lemma ProgGrows(prog: seq<Inst>, macros: seq<seq<int>>, i: nat)
    requires ProgOk(prog, macros) && i < |prog|
    ensures Len(ProgItems(prog, macros, i + 1), []) == Len(ProgItems(prog, macros, i), []) + InstWords(prog, i)
  {
    LenConcat(ProgItems(prog, macros, i), CompItems(prog[i], i, |prog|, NMACRO));
  }

  // The sizes of all instructions, and what the first n come to.
  function Sizes(prog: seq<Inst>): (ws: seq<nat>)
    requires forall i :: 0 <= i < |prog| ==> InstOk(prog[i], |prog|, NMACRO)
    ensures |ws| == |prog| && forall i :: 0 <= i < |prog| ==> ws[i] == InstWords(prog, i)
  {
    seq(|prog|, i requires 0 <= i < |prog| => InstWords(prog, i))
  }

  function Sum(ws: seq<nat>, n: nat): nat
    requires n <= |ws|
  {
    if n == 0 then 0 else Sum(ws, n - 1) + ws[n - 1]
  }

  lemma {:induction false} SumMonotone(ws: seq<nat>, i: nat, j: nat)
    requires i <= j <= |ws|
    ensures Sum(ws, i) <= Sum(ws, j)
    decreases j
  {
    if i < j { SumMonotone(ws, i, j - 1); }
  }

  lemma {:induction false} ProgSum(prog: seq<Inst>, macros: seq<seq<int>>, n: nat)
    requires ProgOk(prog, macros) && n <= |prog|
    ensures Len(ProgItems(prog, macros, n), []) == Sum(Sizes(prog), n)
    decreases n
  {
    if n > 0 {
      ProgSum(prog, macros, n - 1);
      ProgGrows(prog, macros, n - 1);
    }
  }

  // An instruction that takes fewer than 8192 words, or fewer than 64 for each
  // instruction there is.
  predicate Fair(w: nat, n: nat) { w < 8192 || w < 64 * n }

  predicate FitsIn(ws: seq<nat>, i: nat)
    requires i < |ws|
  {
    Fair(ws[i], |ws|) && Sum(ws, i + 1) <= 16 * 1024 * 1024
  }

  lemma InstFitsIn(prog: seq<Inst>, macros: seq<seq<int>>, i: nat)
    requires ProgOk(prog, macros) && i < |prog|
    ensures InstFits(prog, macros, i) <==> FitsIn(Sizes(prog), i)
  {
    ProgSum(prog, macros, i);
    ProgSum(prog, macros, i + 1);
    FitsByLen(prog, macros, i, Sum(Sizes(prog), i), Sum(Sizes(prog), i + 1));
  }

  lemma FitsByLen(prog: seq<Inst>, macros: seq<seq<int>>, i: nat, x: nat, y: nat)
    requires ProgOk(prog, macros) && i < |prog|
    requires x == Len(ProgItems(prog, macros, i), []) && y == Len(ProgItems(prog, macros, i + 1), [])
    ensures InstFits(prog, macros, i) <==> (y - x < 8192 || y - x < 64 * |prog|) && y <= 16 * 1024 * 1024
  {
  }

  lemma AllFitIn(ws: seq<nat>)
    ensures (forall i :: 0 <= i < |ws| ==> FitsIn(ws, i)) <==>
      (forall i :: 0 <= i < |ws| ==> Fair(ws[i], |ws|)) && Sum(ws, |ws|) <= 16 * 1024 * 1024
  {
    if forall i :: 0 <= i < |ws| ==> FitsIn(ws, i) {
      if |ws| > 0 { assert FitsIn(ws, |ws| - 1); }
      forall i | 0 <= i < |ws| ensures Fair(ws[i], |ws|) {
        assert FitsIn(ws, i);
      }
    }
    if Sum(ws, |ws|) <= 16 * 1024 * 1024 && forall i :: 0 <= i < |ws| ==> Fair(ws[i], |ws|) {
      forall i | 0 <= i < |ws| ensures FitsIn(ws, i) {
        SumMonotone(ws, i + 1, |ws|);
      }
    }
  }

  // Accepted are exactly the programs of at most 16M words in which every
  // instruction is fair.
  lemma AcceptedWhen(prog: seq<Inst>, macros: seq<seq<int>>)
    requires ProgOk(prog, macros)
    ensures Accepts(prog, macros) <==>
      && (forall i :: 0 <= i < |prog| ==> Fair(Sizes(prog)[i], |prog|))
      && Sum(Sizes(prog), |prog|) <= 16 * 1024 * 1024
  {
    forall i | 0 <= i < |prog| ensures InstFits(prog, macros, i) <==> FitsIn(Sizes(prog), i) {
      InstFitsIn(prog, macros, i);
    }
    AllFitIn(Sizes(prog));
  }

  // In particular one instruction of at least 8192 words and 64 for each
  // instruction there is has the program refused.
  lemma RefusedWhen(prog: seq<Inst>, macros: seq<seq<int>>, i: nat)
    requires ProgOk(prog, macros) && i < |prog| && InstWords(prog, i) >= 8192 && InstWords(prog, i) >= 64 * |prog|
    ensures !Accepts(prog, macros)
  {
    AcceptedWhen(prog, macros);
    assert !Fair(Sizes(prog)[i], |prog|);
  }

  lemma {:induction false} InsnsLen(s: seq<Insn>)
    ensures Len(Insns(s), []) == |s|
    decreases |s|
  {
    if s != [] {
      InsnsLen(s[..|s| - 1]);
      assert Insns(s) == Insns(s[..|s| - 1]) + [Ins(s[|s| - 1])];
      Append(Insns(s[..|s| - 1]), Ins(s[|s| - 1]), []);
    }
  }

  lemma MemLen(op: MemOp, off: int, rbase: int, r: int)
    requires IsWord(off)
    ensures |MemSeq(op, off, rbase, r)| <= 10
  {
    LiWellFormed(RCON, off);
  }

  lemma ShortMemLen(op: MemOp, off: int, rbase: int, r: int)
    requires 0 <= off < 0x1_0000
    ensures |MemSeq(op, off, rbase, r)| <= 4
  {
    LiWellFormed(RCON, off);
  }

  lemma OpxLen(o: Operand, op: MemOp, r: int)
    requires OperandOk(o) && IsReg(r)
    ensures |OpxSeq(o, op, r)| <= 10
  {
    match o
    case FP(ind) => MemLen(op, ind, RFP, r);
    case MP(ind) => MemLen(op, ind, RMP, r);
    case Imm(v) => LiWellFormed(r, v);
    case IndFP(f, s) => ShortMemLen(Ldw, f, RFP, RTA); ShortMemLen(op, s, RTA, r);
    case IndMP(f, s) => ShortMemLen(Ldw, f, RMP, RTA); ShortMemLen(op, s, RTA, r);
  }

  // Near the frame or the module data an operand takes one word; two when it is
  // reached through a pointer there.
  lemma NearOperand(o: Operand, op: MemOp, r: int)
    requires OperandOk(o) && IsReg(r)
    ensures (match o
             case FP(ind) => -2048 <= ind < 2048
             case MP(ind) => -2048 <= ind < 2048
             case Imm(v) => -2048 <= v < 2048
             case IndFP(f, s) => f < 2048 && s < 2048
             case IndMP(f, s) => f < 2048 && s < 2048)
            ==> |OpxSeq(o, op, r)| == if o.IndFP? || o.IndMP? then 2 else 1
  {
    if o.Imm? { LiWellFormed(r, o.v); }
  }

  lemma MidLen(m: Middle, d: Operand, op: MemOp, r: int)
    requires MiddleOk(m) && OperandOk(d) && IsReg(r)
    ensures |MidSeq(m, d, op, r)| <= 10
  {
    match m
    case XNone => OpxLen(d, op, r);
    case XImm(v) => LiWellFormed(r, v);
    case XFP(off) => MemLen(op, off, RFP, r);
    case XMP(off) => MemLen(op, off, RMP, r);
  }

  lemma SchedLen(target: nat, pc: nat)
    ensures Len(SchedItems(target, pc), []) <= 7
  {
    if target <= pc {
      var a, b := CountSeq(), MemSeq(Stw, OREGFP, RREG, RFP);
      var skip, site := Skip(4, RZERO, RA0, |b| + 1), Site(BrCall, 0, 0, 0, TMac(MACRELQ));
      assert |a| == 3 && |b| == 1;
      InsnsLen(a);
      InsnsLen(b);
      Append(Insns(a), skip, []);
      LenConcat(Insns(a) + [skip], Insns(b));
      Append(Insns(a) + [skip] + Insns(b), site, []);
    }
  }

  lemma ArithLen(op: ArithOp, s: Operand, m: Middle, d: Operand)
    requires OperandOk(s) && MiddleOk(m) && OperandOk(d)
    ensures |ArithSeq(op, s, m, d)| <= 32
  {
    OpxLen(s, Ldw, if op == MulW then RA1 else RA0);
    MidLen(m, d, Ldw, if op == MulW then RA0 else RA1);
    OpxLen(d, Stw, RA0);
    assert |OpSeq(op)| <= 2;
  }

  lemma TailLen(a: seq<Item>, code: seq<Insn>, site: Item)
    requires site.Site?
    ensures Len(a + Insns(code) + [site], []) <= Len(a, []) + |code| + 3
  {
    InsnsLen(code);
    LenConcat(a, Insns(code));
    Append(a + Insns(code), site, []);
  }

  // A word instruction takes at most 32 words.
  lemma SubsetWords(i: Inst, pc: nat, n: nat)
    requires InstOk(i, n, NMACRO) && !i.Other?
    ensures Len(CompItems(i, pc, n, NMACRO), []) <= 32
  {
    match i
    case MovW(s, d) =>
      OpxLen(s, Ldw, RA0);
      OpxLen(d, Stw, RA0);
      InsnsLen(OpxSeq(s, Ldw, RA0) + OpxSeq(d, Stw, RA0));
    case Arith(op, s, m, d) =>
      ArithLen(op, s, m, d);
      InsnsLen(ArithSeq(op, s, m, d));
    case BrW(c, s, m, dimm, t) =>
      SchedLen(t, pc);
      OpxLen(s, Ldw, RA0);
      MidLen(m, Imm(dimm), Ldw, RA1);
      TailLen(SchedItems(t, pc), BraSeq(s, m, dimm), CmpSite(c, RA0, RA1, t));
    case Jmp(t) =>
      SchedLen(t, pc);
      Append(SchedItems(t, pc), Site(BrJ, 0, 0, 0, TDis(t)), []);
  }

  lemma {:induction false} SumBound(ws: seq<nat>, n: nat, b: nat)
    requires n <= |ws| && forall i :: 0 <= i < |ws| ==> ws[i] <= b
    ensures Sum(ws, n) <= b * n
    decreases n
  {
    if n > 0 {
      SumBound(ws, n - 1, b);
      assert b * n == b * (n - 1) + b;
    }
  }

  // Every program of at most half a million word instructions is accepted.
  lemma SubsetAccepted(prog: seq<Inst>, macros: seq<seq<int>>)
    requires ProgOk(prog, macros) && (forall i :: 0 <= i < |prog| ==> !prog[i].Other?) && |prog| <= 0x8_0000
    ensures Accepts(prog, macros)
  {
    forall i | 0 <= i < |prog| ensures Sizes(prog)[i] <= 32 {
      SubsetWords(prog[i], i, |prog|);
    }
    SumBound(Sizes(prog), |prog|, 32);
    AcceptedWhen(prog, macros);
  }

  // End to end: the words Compile leaves, mapped at base, run every program it
  // accepts as the interpreter does.
  lemma CompileRuns(prog: seq<Inst>, macros: seq<seq<int>>, code: seq<int>, patch: seq<nat>, base: int, e: Env,
                    m: Machine, st: State, n: nat, st': State)
    returns (k: nat, m': Machine)
    requires ProgOk(prog, macros) && MacrosFit(macros) && Accepts(prog, macros) && ImageOk(ImageOf(prog, macros))
    requires code == FinalCode(ImageOf(prog, macros))
    requires patch == Tab(ImageOf(prog, macros).items, Starts(prog, macros), Chosen(ImageOf(prog, macros)))
    requires Low(base, |code| + 4) && EnvOk(e)
    requires st.pc <= |prog| && m.pc == base + 4 * patch[st.pc] && Rel(m, st, e)
    requires DisRun(prog, e, st, n) == Some(st')
    ensures k >= n && Run(Exec, FetchOf(code, base), m, k) == Some(m')
    ensures st'.pc <= |prog| && m'.pc == base + 4 * patch[st'.pc] && Rel(m', st', e)
  {
    AcceptedSmall(prog, macros);
    k, m' := CompilerCorrect(prog, macros, base, e, m, st, n, st');
  }
}
