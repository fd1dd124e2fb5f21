// The part of RV64IM that the JIT's word subset uses: 64-bit registers, byte
// memory, one step of execution, and the 32-bit encodings.  A register holds
// its value as a signed integer in [-2^63, 2^63).
module Rv64 {
  import opened Basics

  const TWO31 := 0x8000_0000
  const TWO32 := 0x1_0000_0000
  const TWO63 := 0x8000_0000_0000_0000
  const TWO64 := 0x1_0000_0000_0000_0000

  // -- fixed-width arithmetic ------------------------------------------------

  function U64(x: int): (r: int)
    ensures 0 <= r < TWO64
  {
    x % TWO64
  }

  // The 64-bit two's complement value congruent to x.
  function W64(x: int): (r: int)
    ensures -TWO63 <= r < TWO63
  {
    var u := x % TWO64;
    if u >= TWO63 then u - TWO64 else u
  }

  // The low 32 bits of x, sign-extended.
  function W32(x: int): (r: int)
    ensures -TWO31 <= r < TWO31
  {
    var u := x % TWO32;
    if u >= TWO31 then u - TWO32 else u
  }

  // The low 12 bits of x, sign-extended.
  function Sext12(x: int): (r: int)
    ensures -2048 <= r < 2048
  {
    (x + 2048) % 4096 - 2048
  }

  function And64(a: int, b: int): int { (U64(a) as bv64 & U64(b) as bv64) as int }

  function Or64(a: int, b: int): int { (U64(a) as bv64 | U64(b) as bv64) as int }

  function Xor64(a: int, b: int): int { (U64(a) as bv64 ^ U64(b) as bv64) as int }

  lemma W64Id(x: int)
    requires -TWO63 <= x < TWO63
    ensures W64(x) == x
  {
  }

  lemma W32Id(x: int)
    requires -TWO31 <= x < TWO31
    ensures W32(x) == x
  {
  }

  lemma W64Shift(x: int, k: int)
    ensures W64(x + TWO64 * k) == W64(x)
  {
    ModShift(x, k, TWO64);
  }

  lemma W32Shift(x: int, k: int)
    ensures W32(x + TWO32 * k) == W32(x)
  {
    ModShift(x, k, TWO32);
  }

  // Wrapping an intermediate result does not change the wrapped sum.
  lemma W64Add(x: int, y: int)
    ensures W64(W64(x) + y) == W64(x + y)
  {
    var k := (W64(x) - x) / TWO64;
    assert W64(x) == x + TWO64 * k;
    W64Shift(x + y, k);
  }

  lemma W32Add(x: int, y: int)
    ensures W32(W32(x) + y) == W32(x + y)
  {
    var k := (W32(x) - x) / TWO32;
    assert W32(x) == x + TWO32 * k;
    W32Shift(x + y, k);
  }

  // -- instructions ----------------------------------------------------------

  datatype RegOp = ADD | SUB | MUL | AND | OR | XOR | SLL | SRL | SRA | ADDW | SUBW | MULW

  datatype Insn =
    | Lui(rd: int, imm20: int)
    | Auipc(rd: int, imm20: int)
    | Addi(rd: int, rs1: int, imm: int)
    | Addiw(rd: int, rs1: int, imm: int)
    | Slli(rd: int, rs1: int, sh: int)
    | Srli(rd: int, rs1: int, sh: int)
    | Reg(op: RegOp, rd: int, rs1: int, rs2: int)
    | Ld(rd: int, rs1: int, imm: int)
    | Lw(rd: int, rs1: int, imm: int)
    | Lwu(rd: int, rs1: int, imm: int)
    | Sd(rs2: int, rs1: int, imm: int)
    | Sw(rs2: int, rs1: int, imm: int)
    | Branch(f3: int, rs1: int, rs2: int, off: int)
    | Jal(rd: int, off: int)
    | Jalr(rd: int, rs1: int, imm: int)

  predicate IsReg(r: int) { 0 <= r < 32 }
  predicate IsImm12(i: int) { -2048 <= i < 2048 }
  predicate IsCond(f3: int) { f3 in {0, 1, 4, 5, 6, 7} }

  // The operands an encoding can carry.
  predicate Encodable(i: Insn)
  {
    match i
    case Lui(rd, imm) => IsReg(rd) && 0 <= imm < 0x10_0000
    case Auipc(rd, imm) => IsReg(rd) && 0 <= imm < 0x10_0000
    case Addi(rd, rs1, imm) => IsReg(rd) && IsReg(rs1) && IsImm12(imm)
    case Addiw(rd, rs1, imm) => IsReg(rd) && IsReg(rs1) && IsImm12(imm)
    case Slli(rd, rs1, sh) => IsReg(rd) && IsReg(rs1) && 0 <= sh < 64
    case Srli(rd, rs1, sh) => IsReg(rd) && IsReg(rs1) && 0 <= sh < 64
    case Reg(_, rd, rs1, rs2) => IsReg(rd) && IsReg(rs1) && IsReg(rs2)
    case Ld(rd, rs1, imm) => IsReg(rd) && IsReg(rs1) && IsImm12(imm)
    case Lw(rd, rs1, imm) => IsReg(rd) && IsReg(rs1) && IsImm12(imm)
    case Lwu(rd, rs1, imm) => IsReg(rd) && IsReg(rs1) && IsImm12(imm)
    case Sd(rs2, rs1, imm) => IsReg(rs2) && IsReg(rs1) && IsImm12(imm)
    case Sw(rs2, rs1, imm) => IsReg(rs2) && IsReg(rs1) && IsImm12(imm)
    case Branch(f3, rs1, rs2, off) =>
      IsCond(f3) && IsReg(rs1) && IsReg(rs2) && -4096 <= off < 4096 && off % 2 == 0
    case Jal(rd, off) => IsReg(rd) && -0x10_0000 <= off < 0x10_0000 && off % 2 == 0
    case Jalr(rd, rs1, imm) => IsReg(rd) && IsReg(rs1) && IsImm12(imm)
  }

  // -- memory ----------------------------------------------------------------

  type Mem = map<int, byte>

  // Every 64-bit address holds a byte; the ones never written hold 0.
  function Byte(m: Mem, a: int): byte { if U64(a) in m then m[U64(a)] else 0 }

  // The bytes from a up to e, little-endian, as an unsigned number.
  function Load(m: Mem, a: int, e: int): (v: nat)
    decreases e - a
  {
    if a >= e then 0 else Byte(m, a) as int + 256 * Load(m, a + 1, e)
  }

  function Store(m: Mem, a: int, e: int, v: int): Mem
    decreases e - a
  {
    if a >= e then m else Store(m[U64(a) := (v % 256) as byte], a + 1, e, v / 256)
  }

  function Load64(m: Mem, a: int): int { W64(Load(m, a, a + 8)) }
  function Load32(m: Mem, a: int): int { Load(m, a, a + 4) }
  function Load32s(m: Mem, a: int): int { W32(Load(m, a, a + 4)) }
  function Store64(m: Mem, a: int, v: int): Mem { Store(m, a, a + 8, v) }
  function Store32(m: Mem, a: int, v: int): Mem { Store(m, a, a + 4, v) }

  // -- machine ---------------------------------------------------------------

  function Zeros(): seq<int> { seq(32, i => 0) }
  type Regs = r: seq<int> | |r| == 32 witness Zeros()

  datatype Machine = Machine(pc: int, regs: Regs, mem: Mem)

  // Register 0 reads as zero and ignores writes.
  function Get(r: Regs, i: int): int { if 0 < i < 32 then r[i] else 0 }

  function Set(r: Regs, i: int, v: int): Regs { if 0 < i < 32 then r[i := v] else r }

  function Alu(op: RegOp, a: int, b: int): int
  {
    match op
    case ADD => W64(a + b)
    case SUB => W64(a - b)
    case MUL => W64(a * b)
    case AND => W64(And64(a, b))
    case OR => W64(Or64(a, b))
    case XOR => W64(Xor64(a, b))
    case SLL => W64(a * Pow2(b % 64))
    case SRL => W64(U64(a) / Pow2(b % 64))
    case SRA => W64(a / Pow2(b % 64))
    case ADDW => W32(a + b)
    case SUBW => W32(a - b)
    case MULW => W32(a * b)
  }

  // Branch conditions by funct3; 6 and 7 compare the values as unsigned.
  predicate Taken(f3: int, a: int, b: int)
  {
    if f3 == 0 then a == b
    else if f3 == 1 then a != b
    else if f3 == 4 then a < b
    else if f3 == 5 then a >= b
    else if f3 == 6 then U64(a) < U64(b)
    else U64(a) >= U64(b)
  }

  function Pow2(n: nat): (p: int)
    ensures p >= 1
  {
    if n == 0 then 1 else 2 * Pow2(n - 1)
  }

  // One instruction, already decoded.
  function Exec(i: Insn, s: Machine): Machine
  {
    var r, m, pc := s.regs, s.mem, s.pc;
    var next := U64(pc + 4);
    match i
    case Lui(rd, imm) => Machine(next, Set(r, rd, W32(imm * 4096)), m)
    case Auipc(rd, imm) => Machine(next, Set(r, rd, W64(pc + W32(imm * 4096))), m)
    case Addi(rd, rs1, imm) => Machine(next, Set(r, rd, W64(Get(r, rs1) + imm)), m)
    case Addiw(rd, rs1, imm) => Machine(next, Set(r, rd, W32(Get(r, rs1) + imm)), m)
    case Slli(rd, rs1, sh) => Machine(next, Set(r, rd, W64(Get(r, rs1) * Pow2(if sh >= 0 then sh else 0))), m)
    case Srli(rd, rs1, sh) => Machine(next, Set(r, rd, W64(U64(Get(r, rs1)) / Pow2(if sh >= 0 then sh else 0))), m)
    case Reg(op, rd, rs1, rs2) => Machine(next, Set(r, rd, Alu(op, Get(r, rs1), Get(r, rs2))), m)
    case Ld(rd, rs1, imm) => Machine(next, Set(r, rd, Load64(m, Get(r, rs1) + imm)), m)
    case Lw(rd, rs1, imm) => Machine(next, Set(r, rd, Load32s(m, Get(r, rs1) + imm)), m)
    case Lwu(rd, rs1, imm) => Machine(next, Set(r, rd, Load32(m, Get(r, rs1) + imm)), m)
    case Sd(rs2, rs1, imm) => Machine(next, r, Store64(m, Get(r, rs1) + imm, Get(r, rs2)))
    case Sw(rs2, rs1, imm) => Machine(next, r, Store32(m, Get(r, rs1) + imm, Get(r, rs2)))
    case Branch(f3, rs1, rs2, off) =>
      Machine(if Taken(f3, Get(r, rs1), Get(r, rs2)) then U64(pc + off) else next, r, m)
    case Jal(rd, off) => Machine(U64(pc + off), Set(r, rd, W64(pc + 4)), m)
    case Jalr(rd, rs1, imm) =>
      var t := U64(Get(r, rs1) + imm);
      Machine(t - t % 2, Set(r, rd, W64(pc + 4)), m)
  }

  // -- encoding ---------------------------------------------------------------

  type word = w: int | 0 <= w < 0x1_0000_0000

  const OPLOAD := 0x03
  const OPIMM := 0x13
  const OPAUIPC := 0x17
  const OPIMM32 := 0x1B
  const OPSTORE := 0x23
  const OPREG := 0x33
  const OPLUI := 0x37
  const OPREG32 := 0x3B
  const OPBRANCH := 0x63
  const OPJALR := 0x67
  const OPJAL := 0x6F

  // Disjoint bit fields: or-ing the shifted fields is adding them.
  function RType(f7: int, rs2: int, rs1: int, f3: int, rd: int, op: int): int
  {
    f7 * 0x200_0000 + rs2 * 0x10_0000 + rs1 * 0x8000 + f3 * 0x1000 + rd * 0x80 + op
  }

  function IType(imm: int, rs1: int, f3: int, rd: int, op: int): int
  {
    (imm % 0x1000) * 0x10_0000 + rs1 * 0x8000 + f3 * 0x1000 + rd * 0x80 + op
  }

  function SType(imm: int, rs2: int, rs1: int, f3: int, op: int): int
  {
    (imm / 32 % 0x80) * 0x200_0000 + rs2 * 0x10_0000 + rs1 * 0x8000 + f3 * 0x1000 + (imm % 32) * 0x80 + op
  }

  function UType(imm20: int, rd: int, op: int): int
  {
    (imm20 % 0x10_0000) * 0x1000 + rd * 0x80 + op
  }

  function BType(off: int, rs2: int, rs1: int, f3: int): int
  {
    (off / 4096 % 2) * 0x8000_0000 + (off / 32 % 64) * 0x200_0000 + rs2 * 0x10_0000 + rs1 * 0x8000
    + f3 * 0x1000 + (off / 2 % 16) * 0x100 + (off / 2048 % 2) * 0x80 + OPBRANCH
  }

  function JType(off: int, rd: int): int
  {
    (off / 0x10_0000 % 2) * 0x8000_0000 + (off / 2 % 1024) * 0x20_0000 + (off / 2048 % 2) * 0x10_0000
    + (off / 4096 % 256) * 0x1000 + rd * 0x80 + OPJAL
  }

  // funct7, funct3 and opcode of the register-register operations.
  function RegFields(op: RegOp): (int, int, int)
  {
    match op
    case ADD => (0x00, 0, OPREG)
    case SUB => (0x20, 0, OPREG)
    case MUL => (0x01, 0, OPREG)
    case AND => (0x00, 7, OPREG)
    case OR => (0x00, 6, OPREG)
    case XOR => (0x00, 4, OPREG)
    case SLL => (0x00, 1, OPREG)
    case SRL => (0x00, 5, OPREG)
    case SRA => (0x20, 5, OPREG)
    case ADDW => (0x00, 0, OPREG32)
    case SUBW => (0x20, 0, OPREG32)
    case MULW => (0x01, 0, OPREG32)
  }

  function EncodeInt(i: Insn): int
  {
    match i
    case Lui(rd, imm) => UType(imm, rd, OPLUI)
    case Auipc(rd, imm) => UType(imm, rd, OPAUIPC)
    case Addi(rd, rs1, imm) => IType(imm, rs1, 0, rd, OPIMM)
    case Addiw(rd, rs1, imm) => IType(imm, rs1, 0, rd, OPIMM32)
    case Slli(rd, rs1, sh) => IType(sh % 64, rs1, 1, rd, OPIMM)
    case Srli(rd, rs1, sh) => IType(sh % 64, rs1, 5, rd, OPIMM)
    case Reg(op, rd, rs1, rs2) =>
      var f := RegFields(op); RType(f.0, rs2, rs1, f.1, rd, f.2)
    case Ld(rd, rs1, imm) => IType(imm, rs1, 3, rd, OPLOAD)
    case Lw(rd, rs1, imm) => IType(imm, rs1, 2, rd, OPLOAD)
    case Lwu(rd, rs1, imm) => IType(imm, rs1, 6, rd, OPLOAD)
    case Sd(rs2, rs1, imm) => SType(imm, rs2, rs1, 3, OPSTORE)
    case Sw(rs2, rs1, imm) => SType(imm, rs2, rs1, 2, OPSTORE)
    case Branch(f3, rs1, rs2, off) => BType(off, rs2, rs1, f3)
    case Jal(rd, off) => JType(off, rd)
    case Jalr(rd, rs1, imm) => IType(imm, rs1, 0, rd, OPJALR)
  }

  // The words of the instruction set manual, their operands zero.
  lemma ImmediateWords()
    ensures EncodeInt(Lui(0, 0)) == 0x37 && EncodeInt(Auipc(0, 0)) == 0x17
    ensures EncodeInt(Addi(0, 0, 0)) == 0x13 && EncodeInt(Addiw(0, 0, 0)) == 0x1B
    ensures EncodeInt(Slli(0, 0, 0)) == 0x1013 && EncodeInt(Srli(0, 0, 0)) == 0x5013
    ensures EncodeInt(Jal(0, 0)) == 0x6F && EncodeInt(Jalr(0, 0, 0)) == 0x67
  {
  }

  lemma RegisterWord(op: RegOp, rd: int, rs1: int, rs2: int)
    ensures EncodeInt(Reg(op, rd, rs1, rs2)) == rs2 * 0x10_0000 + rs1 * 0x8000 + rd * 0x80
              + match op
                case ADD => 0x33
                case SUB => 0x4000_0033
                case MUL => 0x0200_0033
                case AND => 0x7033
                case OR => 0x6033
                case XOR => 0x4033
                case SLL => 0x1033
                case SRL => 0x5033
                case SRA => 0x4000_5033
                case ADDW => 0x3B
                case SUBW => 0x4000_003B
                case MULW => 0x0200_003B
  {
  }

  lemma MemoryWords()
    ensures EncodeInt(Ld(0, 0, 0)) == 0x3003 && EncodeInt(Lw(0, 0, 0)) == 0x2003 && EncodeInt(Lwu(0, 0, 0)) == 0x6003
    ensures EncodeInt(Sd(0, 0, 0)) == 0x3023 && EncodeInt(Sw(0, 0, 0)) == 0x2023
  {
  }

  lemma BranchWords(f3: int)
    ensures EncodeInt(Branch(f3, 0, 0, 0)) == 0x63 + 0x1000 * f3
  {
  }

  // The fields of an instruction word, low to high.
  datatype Fields = Fields(op: int, rd: int, f3: int, rs1: int, rs2: int, f7: int)

  function Split(w: int): Fields
  {
    var q1 := w / 128;
    var q2 := q1 / 32;
    var q3 := q2 / 8;
    var q4 := q3 / 32;
    Fields(w % 128, q1 % 32, q2 % 8, q3 % 32, q4 % 32, q4 / 32)
  }

  function Sign(imm: int, bits: int): int { if imm >= bits / 2 then imm - bits else imm }

  // The decoder of the RISC-V unprivileged ISA, sections 2.2 to 2.5 and the
  // RV64I and M chapters, for the instructions above.
  function Decode(w: word): Option<Insn> { DecodeFields(Split(w)) }

  function DecodeFields(f: Fields): Option<Insn>
  {
    var immI := Sign(f.f7 * 32 + f.rs2, 4096);
    var immS := Sign(f.f7 * 32 + f.rd, 4096);
    var immU := f.f7 * 0x2000 + f.rs2 * 0x100 + f.rs1 * 8 + f.f3;
    var immB := Sign(f.f7 / 64 * 4096 + f.rd % 2 * 2048 + f.f7 % 64 * 32 + f.rd / 2 * 2, 8192);
    var immJ := Sign(f.f7 / 64 * 0x10_0000 + (f.rs1 * 8 + f.f3) * 4096 + f.rs2 % 2 * 2048
                     + f.f7 % 64 * 32 + f.rs2 / 2 * 2, 0x20_0000);
    if f.op == OPLUI then Some(Lui(f.rd, immU))
    else if f.op == OPAUIPC then Some(Auipc(f.rd, immU))
    else if f.op == OPIMM && f.f3 == 0 then Some(Addi(f.rd, f.rs1, immI))
    else if f.op == OPIMM && f.f3 == 1 && f.f7 < 2 then Some(Slli(f.rd, f.rs1, f.f7 * 32 + f.rs2))
    else if f.op == OPIMM && f.f3 == 5 && f.f7 < 2 then Some(Srli(f.rd, f.rs1, f.f7 * 32 + f.rs2))
    else if f.op == OPIMM32 && f.f3 == 0 then Some(Addiw(f.rd, f.rs1, immI))
    else if f.op == OPLOAD && f.f3 == 3 then Some(Ld(f.rd, f.rs1, immI))
    else if f.op == OPLOAD && f.f3 == 2 then Some(Lw(f.rd, f.rs1, immI))
    else if f.op == OPLOAD && f.f3 == 6 then Some(Lwu(f.rd, f.rs1, immI))
    else if f.op == OPSTORE && f.f3 == 3 then Some(Sd(f.rs2, f.rs1, immS))
    else if f.op == OPSTORE && f.f3 == 2 then Some(Sw(f.rs2, f.rs1, immS))
    else if f.op == OPBRANCH && f.f3 != 2 && f.f3 != 3 then Some(Branch(f.f3, f.rs1, f.rs2, immB))
    else if f.op == OPJAL then Some(Jal(f.rd, immJ))
    else if f.op == OPJALR && f.f3 == 0 then Some(Jalr(f.rd, f.rs1, immI))
    else if f.op == OPREG && f.f7 == 0 && f.f3 in {0, 1, 4, 5, 6, 7} then
      Some(Reg(if f.f3 == 0 then ADD else if f.f3 == 1 then SLL else if f.f3 == 4 then XOR else if f.f3 == 5 then SRL
               else if f.f3 == 6 then OR else AND, f.rd, f.rs1, f.rs2))
    else if f.op == OPREG && f.f7 == 0x20 && f.f3 == 5 then Some(Reg(SRA, f.rd, f.rs1, f.rs2))
    else if f.op == OPREG && f.f3 == 0 && f.f7 in {0x20, 0x01} then
      Some(Reg(if f.f7 == 0x20 then SUB else MUL, f.rd, f.rs1, f.rs2))
    else if f.op == OPREG32 && f.f3 == 0 && f.f7 in {0x00, 0x20, 0x01} then
      Some(Reg(if f.f7 == 0 then ADDW else if f.f7 == 0x20 then SUBW else MULW, f.rd, f.rs1, f.rs2))
    else None
  }

  // Peeling one field off a word.
  lemma Peel(lo: int, hi: int, m: int)
    requires m > 0 && 0 <= lo < m
    ensures (lo + m * hi) % m == lo && (lo + m * hi) / m == hi
  {
    ModUnique(lo + m * hi, hi, lo, m);
  }

  // Six fields in range come back out of their word.
  lemma SplitPacked(op: int, rd: int, f3: int, rs1: int, rs2: int, f7: int)
    requires 0 <= op < 128 && IsReg(rd) && 0 <= f3 < 8 && IsReg(rs1) && IsReg(rs2) && 0 <= f7 < 128
    ensures 0 <= RType(f7, rs2, rs1, f3, rd, op) < 0x1_0000_0000
    ensures Split(RType(f7, rs2, rs1, f3, rd, op)) == Fields(op, rd, f3, rs1, rs2, f7)
  {
    var q4 := rs2 + 32 * f7;
    var q3 := rs1 + 32 * q4;
    var q2 := f3 + 8 * q3;
    var q1 := rd + 32 * q2;
    assert RType(f7, rs2, rs1, f3, rd, op) == op + 128 * q1;
    Peel(op, q1, 128);
    Peel(rd, q2, 32);
    Peel(f3, q3, 8);
    Peel(rs1, q4, 32);
    Peel(rs2, f7, 32);
  }

  lemma ITypeFields(imm: int, rs1: int, f3: int, rd: int, op: int)
    requires 0 <= op < 128 && IsReg(rd) && 0 <= f3 < 8 && IsReg(rs1) && -2048 <= imm < 2048
    ensures 0 <= IType(imm, rs1, f3, rd, op) < 0x1_0000_0000
    ensures var f := Split(IType(imm, rs1, f3, rd, op));
            f.op == op && f.rd == rd && f.f3 == f3 && f.rs1 == rs1 && f.f7 * 32 + f.rs2 == imm % 4096
            && Sign(f.f7 * 32 + f.rs2, 4096) == imm
  {
    var u := imm % 4096;
    assert u / 32 < 128;
    SplitPacked(op, rd, f3, rs1, u % 32, u / 32);
    assert IType(imm, rs1, f3, rd, op) == RType(u / 32, u % 32, rs1, f3, rd, op);
  }

  lemma STypeFields(imm: int, rs2: int, rs1: int, f3: int, op: int)
    requires 0 <= op < 128 && IsReg(rs2) && 0 <= f3 < 8 && IsReg(rs1) && -2048 <= imm < 2048
    ensures 0 <= SType(imm, rs2, rs1, f3, op) < 0x1_0000_0000
    ensures var f := Split(SType(imm, rs2, rs1, f3, op));
            f.op == op && f.rs2 == rs2 && f.f3 == f3 && f.rs1 == rs1 && Sign(f.f7 * 32 + f.rd, 4096) == imm
  {
    SplitPacked(op, imm % 32, f3, rs1, rs2, imm / 32 % 128);
    assert SType(imm, rs2, rs1, f3, op) == RType(imm / 32 % 128, rs2, rs1, f3, imm % 32, op);
  }

  lemma UTypeFields(imm: int, rd: int, op: int)
    requires 0 <= op < 128 && IsReg(rd) && 0 <= imm < 0x10_0000
    ensures 0 <= UType(imm, rd, op) < 0x1_0000_0000
    ensures var f := Split(UType(imm, rd, op));
            f.op == op && f.rd == rd && f.f7 * 0x2000 + f.rs2 * 0x100 + f.rs1 * 8 + f.f3 == imm
  {
    var a := imm / 8;
    var b := a / 32;
    SplitPacked(op, rd, imm % 8, a % 32, b % 32, b / 32);
    assert UType(imm, rd, op) == RType(b / 32, b % 32, a % 32, imm % 8, rd, op);
  }

  lemma BTypeFields(off: int, rs2: int, rs1: int, f3: int)
    requires IsReg(rs2) && 0 <= f3 < 8 && IsReg(rs1) && -4096 <= off < 4096 && off % 2 == 0
    ensures 0 <= BType(off, rs2, rs1, f3) < 0x1_0000_0000
    ensures var f := Split(BType(off, rs2, rs1, f3));
            f.op == OPBRANCH && f.rs2 == rs2 && f.f3 == f3 && f.rs1 == rs1
            && Sign(f.f7 / 64 * 4096 + f.rd % 2 * 2048 + f.f7 % 64 * 32 + f.rd / 2 * 2, 8192) == off
  {
    var b12, b11, b10, b4 := off / 4096 % 2, off / 2048 % 2, off / 32 % 64, off / 2 % 16;
    Peel(b11, b4, 2);
    Peel(b10, b12, 64);
    SplitPacked(OPBRANCH, b11 + 2 * b4, f3, rs1, rs2, b10 + 64 * b12);
    assert BType(off, rs2, rs1, f3) == RType(b10 + 64 * b12, rs2, rs1, f3, b11 + 2 * b4, OPBRANCH);
    var u := if off < 0 then off + 8192 else off;
    BitsOfBranch(off, u);
  }

  lemma BitsOfBranch(off: int, u: int)
    requires -4096 <= off < 4096 && off % 2 == 0 && u == (if off < 0 then off + 8192 else off)
    ensures off / 4096 % 2 * 4096 + off / 2048 % 2 * 2048 + off / 32 % 64 * 32 + off / 2 % 16 * 2 == u
  {
    var a := off / 2;
    var b := a / 16;
    var c := b / 64;
    assert off / 32 == b;
    assert off / 2048 == c;
    assert off / 4096 == c / 2;
  }

  lemma JTypeFields(off: int, rd: int)
    requires IsReg(rd) && -0x10_0000 <= off < 0x10_0000 && off % 2 == 0
    ensures 0 <= JType(off, rd) < 0x1_0000_0000
    ensures var f := Split(JType(off, rd));
            f.op == OPJAL && f.rd == rd
            && Sign(f.f7 / 64 * 0x10_0000 + (f.rs1 * 8 + f.f3) * 4096 + f.rs2 % 2 * 2048
                    + f.f7 % 64 * 32 + f.rs2 / 2 * 2, 0x20_0000) == off
  {
    var b20, b1, b11, b12 := off / 0x10_0000 % 2, off / 2 % 1024, off / 2048 % 2, off / 4096 % 256;
    var lo, hi := b1 % 16, b1 / 16;
    Peel(b11, lo, 2);
    Peel(hi, b20, 64);
    SplitPacked(OPJAL, rd, b12 % 8, b12 / 8, b11 + 2 * lo, hi + 64 * b20);
    assert JType(off, rd) == RType(hi + 64 * b20, b11 + 2 * lo, b12 / 8, b12 % 8, rd, OPJAL);
    BitsOfJump(off, if off < 0 then off + 0x20_0000 else off);
  }

  lemma BitsOfJump(off: int, u: int)
    requires -0x10_0000 <= off < 0x10_0000 && off % 2 == 0 && u == (if off < 0 then off + 0x20_0000 else off)
    ensures off / 0x10_0000 % 2 * 0x10_0000 + off / 4096 % 256 * 4096 + off / 2048 % 2 * 2048 + off / 2 % 1024 * 2 == u
  {
    var a := off / 2;
    var b := a / 1024;
    var c := b / 2;
    assert off / 2048 == b;
    assert off / 4096 == c;
    assert off / 0x10_0000 == c / 256;
  }

  // Register-register words.
  lemma DecodeEncodeReg(op: RegOp, rd: int, rs1: int, rs2: int)
    requires IsReg(rd) && IsReg(rs1) && IsReg(rs2)
    ensures 0 <= EncodeInt(Reg(op, rd, rs1, rs2)) < 0x1_0000_0000
    ensures Decode(EncodeInt(Reg(op, rd, rs1, rs2))) == Some(Reg(op, rd, rs1, rs2))
  {
    var f := RegFields(op);
    SplitPacked(f.2, rd, f.1, rs1, rs2, f.0);
  }

  // What the decoder makes of a word with a 12-bit I immediate.
  function FromI(op: int, f3: int, rd: int, rs1: int, imm: int): Option<Insn>
  {
    if op == OPIMM && f3 == 0 then Some(Addi(rd, rs1, imm))
    else if op == OPIMM && f3 == 1 && 0 <= imm < 64 then Some(Slli(rd, rs1, imm))
    else if op == OPIMM && f3 == 5 && 0 <= imm < 64 then Some(Srli(rd, rs1, imm))
    else if op == OPIMM32 && f3 == 0 then Some(Addiw(rd, rs1, imm))
    else if op == OPLOAD && f3 == 3 then Some(Ld(rd, rs1, imm))
    else if op == OPLOAD && f3 == 2 then Some(Lw(rd, rs1, imm))
    else if op == OPLOAD && f3 == 6 then Some(Lwu(rd, rs1, imm))
    else if op == OPJALR && f3 == 0 then Some(Jalr(rd, rs1, imm))
    else None
  }

  lemma DecodeI(f: Fields, imm: int)
    requires 0 <= f.rs2 < 32 && 0 <= f.f7 && f.f7 * 32 + f.rs2 == imm % 4096
    requires Sign(f.f7 * 32 + f.rs2, 4096) == imm
    requires FromI(f.op, f.f3, f.rd, f.rs1, imm).Some?
    ensures DecodeFields(f) == FromI(f.op, f.f3, f.rd, f.rs1, imm)
  {
  }

  lemma DecodeEncodeI(imm: int, rs1: int, f3: int, rd: int, op: int)
    requires IsReg(rd) && IsReg(rs1) && IsImm12(imm)
    requires FromI(op, f3, rd, rs1, imm).Some?
    ensures 0 <= IType(imm, rs1, f3, rd, op) < 0x1_0000_0000
    ensures Decode(IType(imm, rs1, f3, rd, op)) == FromI(op, f3, rd, rs1, imm)
  {
    ITypeFields(imm, rs1, f3, rd, op);
    SplitRange(IType(imm, rs1, f3, rd, op));
    DecodeI(Split(IType(imm, rs1, f3, rd, op)), imm);
  }

  lemma SplitRange(w: word)
    ensures 0 <= Split(w).rs2 < 32 && 0 <= Split(w).f7
  {
  }

  lemma DecodeEncodeS(imm: int, rs2: int, rs1: int, f3: int)
    requires IsReg(rs2) && IsReg(rs1) && IsImm12(imm) && (f3 == 2 || f3 == 3)
    ensures 0 <= SType(imm, rs2, rs1, f3, OPSTORE) < 0x1_0000_0000
    ensures Decode(SType(imm, rs2, rs1, f3, OPSTORE))
            == Some(if f3 == 3 then Sd(rs2, rs1, imm) else Sw(rs2, rs1, imm))
  {
    STypeFields(imm, rs2, rs1, f3, OPSTORE);
  }

  lemma DecodeEncodeU(i: Insn)
    requires (i.Lui? || i.Auipc?) && Encodable(i)
    ensures 0 <= EncodeInt(i) < 0x1_0000_0000
    ensures Decode(EncodeInt(i)) == Some(i)
  {
    if i.Lui? { UTypeFields(i.imm20, i.rd, OPLUI); } else { UTypeFields(i.imm20, i.rd, OPAUIPC); }
  }

  lemma DecodeEncodeB(f3: int, rs1: int, rs2: int, off: int)
    requires Encodable(Branch(f3, rs1, rs2, off))
    ensures 0 <= BType(off, rs2, rs1, f3) < 0x1_0000_0000
    ensures Decode(BType(off, rs2, rs1, f3)) == Some(Branch(f3, rs1, rs2, off))
  {
    BTypeFields(off, rs2, rs1, f3);
  }

  lemma DecodeEncodeJ(rd: int, off: int)
    requires Encodable(Jal(rd, off))
    ensures 0 <= JType(off, rd) < 0x1_0000_0000
    ensures Decode(JType(off, rd)) == Some(Jal(rd, off))
  {
    JTypeFields(off, rd);
  }

  lemma DecodeEncodeImm(i: Insn)
    requires Encodable(i) && (i.Addi? || i.Addiw? || i.Jalr?)
    ensures 0 <= EncodeInt(i) < 0x1_0000_0000
    ensures Decode(EncodeInt(i)) == Some(i)
  {
    match i
    case Addi(rd, rs1, imm) => DecodeEncodeI(imm, rs1, 0, rd, OPIMM);
    case Addiw(rd, rs1, imm) => DecodeEncodeI(imm, rs1, 0, rd, OPIMM32);
    case Jalr(rd, rs1, imm) => DecodeEncodeI(imm, rs1, 0, rd, OPJALR);
  }

  lemma DecodeEncodeShift(i: Insn)
    requires Encodable(i) && (i.Slli? || i.Srli?)
    ensures 0 <= EncodeInt(i) < 0x1_0000_0000
    ensures Decode(EncodeInt(i)) == Some(i)
  {
    assert i.sh % 64 == i.sh;
    DecodeEncodeI(i.sh, i.rs1, if i.Slli? then 1 else 5, i.rd, OPIMM);
  }

  lemma DecodeEncodeMem(i: Insn)
    requires Encodable(i) && (i.Ld? || i.Lw? || i.Lwu? || i.Sd? || i.Sw?)
    ensures 0 <= EncodeInt(i) < 0x1_0000_0000
    ensures Decode(EncodeInt(i)) == Some(i)
  {
    match i
    case Ld(rd, rs1, imm) => DecodeEncodeI(imm, rs1, 3, rd, OPLOAD);
    case Lw(rd, rs1, imm) => DecodeEncodeI(imm, rs1, 2, rd, OPLOAD);
    case Lwu(rd, rs1, imm) => DecodeEncodeI(imm, rs1, 6, rd, OPLOAD);
    case Sd(rs2, rs1, imm) => DecodeEncodeS(imm, rs2, rs1, 3);
    case Sw(rs2, rs1, imm) => DecodeEncodeS(imm, rs2, rs1, 2);
  }

  // The encoder and the decoder are inverses on everything the encoder takes.
  lemma DecodeEncode(i: Insn)
    requires Encodable(i)
    ensures 0 <= EncodeInt(i) < 0x1_0000_0000
    ensures Decode(EncodeInt(i)) == Some(i)
  {
    if i.Addi? || i.Addiw? || i.Jalr? {
      DecodeEncodeImm(i);
    } else if i.Slli? || i.Srli? {
      DecodeEncodeShift(i);
    } else if i.Ld? || i.Lw? || i.Lwu? || i.Sd? || i.Sw? {
      DecodeEncodeMem(i);
    } else if i.Lui? || i.Auipc? {
      DecodeEncodeU(i);
    } else {
      match i
      case Reg(op, rd, rs1, rs2) => DecodeEncodeReg(op, rd, rs1, rs2);
      case Branch(f3, rs1, rs2, off) => DecodeEncodeB(f3, rs1, rs2, off);
      case Jal(rd, off) => DecodeEncodeJ(rd, off);
    }
  }
}
