/** What the 32-bit instruction words mean: what one step of the processor leaves in the registers,
 *  the PC and memory, as numbers and bits (chapters 2 and 7 of the RISC-V Unprivileged ISA,
 *  version 20191213).  The words are assembled with the formats of section 2.3. */
module Meaning {
  import opened MemoryBus
  import opened BaseIsa
  import opened CompressedIsa
  import opened Expansion
  import opened Assembly
  import opened Rv32
  import opened Wrappers
  import Words
  import MExtension

  const TWO_TO_32 := 0x1_0000_0000

  /** The number in a register, and the same as two's complement. */
  function Number(s: Cpu, r: bv32): MExtension.word { FromBits(Get(s.regs, r)) }

  function TwosComplement32(x: int): int { if x >= 0x8000_0000 then x - TWO_TO_32 else x }

  // ----- instructions that write a register -----

  /** The outcome o of a step goes on to the next instruction, n bytes on, and changes nothing but rd, of
      which P holds then. */
  ghost predicate Changes(s: Cpu, o: Outcome, n: int, rd: bv32, P: bv32 -> bool) {
    && o.Done? && !o.breakpoint && FromBits(o.cpu.pc) == (FromBits(s.pc) + n) % TWO_TO_32
    && o.cpu.mem == s.mem && KeepsOthers(s, o.cpu, rd)
    && (rd != 0 ==> P(Get(o.cpu.regs, rd)))
  }

  ghost predicate Leaves(s: Cpu, w: bv32, io: Io, rd: bv32, P: bv32 -> bool) {
    Changes(s, Step(s, w, io), 4, rd, P)
  }

  lemma UnsignedIsNumber(x: bv32)
    ensures Words.Unsigned(x) == FromBits(x)
  {
    hide Words.Unsigned;
    Words.UnsignedIsInt(x);
  }

  lemma PlusMeans(x: bv32, y: bv32)
    ensures FromBits(Plus(x, y)) == (FromBits(x) + FromBits(y)) % TWO_TO_32
  {
    hide Plus, Words.Unsigned, FromBits;
    Words.SumWraps(x, y);
    UnsignedIsNumber(x);
    UnsignedIsNumber(y);
    UnsignedIsNumber(Plus(x, y));
  }

  lemma MinusMeans(x: bv32, y: bv32)
    ensures FromBits(Minus(x, y)) == (FromBits(x) - FromBits(y)) % TWO_TO_32
  {
    hide Minus, Words.Unsigned, FromBits;
    Words.DifferenceWraps(x, y);
    UnsignedIsNumber(x);
    UnsignedIsNumber(y);
    UnsignedIsNumber(Minus(x, y));
  }

  lemma SmallNumbers()
    ensures FromBits(4) == 4 && FromBits(2) == 2 && FromBits(0) == 0
  {
  }

  lemma LeavesBy(s: Cpu, w: bv32, io: Io, rd: bv32, v: bv32, P: bv32 -> bool)
    requires rd < 32 && Step(s, w, io) == Finished(Runs(SetReg(s, rd, v)), 4) && P(v)
    ensures Leaves(s, w, io, rd, P)
  {
    hide *;
    SmallNumbers();
    ChangesBy(s, 4, rd, v, P);
    LeavesIs(s, w, io, rd, P);
  }

  lemma LeavesIs(s: Cpu, w: bv32, io: Io, rd: bv32, P: bv32 -> bool)
    ensures Leaves(s, w, io, rd, P) <==> Changes(s, Step(s, w, io), 4, rd, P)
  {
    hide Step, Changes;
  }

  lemma ChangesBy(s: Cpu, length: bv32, rd: bv32, v: bv32, P: bv32 -> bool)
    requires rd < 32 && P(v)
    ensures Changes(s, Finished(Runs(SetReg(s, rd, v)), length), FromBits(length), rd, P)
  {
    hide Plus, FromBits, SetReg, Get;
    SetRegKeeps(s, rd, v);
    PlusMeans(s.pc, length);
    AfterFinish(s, rd, v, length);
  }

  lemma AfterFinish(s: Cpu, rd: bv32, v: bv32, length: bv32)
    ensures var o, c := Finished(Runs(SetReg(s, rd, v)), length), SetReg(s, rd, v);
            && o.Done? && !o.breakpoint && o.cpu.pc == Plus(s.pc, length) && o.cpu.mem == s.mem
            && o.cpu.regs == c.regs && o.cpu.csrs == c.csrs && o.cpu.stopped == c.stopped
  {
    hide Plus;
  }

  lemma StepOfBase(s: Cpu, w: bv32, io: Io)
    requires Decode(w) != OP_ERROR
    ensures Step(s, w, io) == Finished(Exec(s, Decode(w), w, 4, io), 4)
  {
    hide Decode, Exec, Finished;
  }

  // ----- registers with registers -----

  // What may be said of a result: it stands for n, or its bits are those of x and y, combined.

  ghost function Is(n: int): bv32 -> bool { r => FromBits(r) == n }

  ghost function EitherOf(x: bv32, y: bv32): bv32 -> bool {
    r => forall k :: Words.BitAt(r, k) <==> Words.BitAt(x, k) != Words.BitAt(y, k)
  }

  ghost function AnyOf(x: bv32, y: bv32): bv32 -> bool {
    r => forall k :: Words.BitAt(r, k) <==> Words.BitAt(x, k) || Words.BitAt(y, k)
  }

  ghost function AllOf(x: bv32, y: bv32): bv32 -> bool {
    r => forall k :: Words.BitAt(r, k) <==> Words.BitAt(x, k) && Words.BitAt(y, k)
  }

  lemma BitwiseMeans(x: bv32, y: bv32)
    ensures EitherOf(x, y)(BitXor(x, y)) && AnyOf(x, y)(BitOr(x, y)) && AllOf(x, y)(BitAnd(x, y))
  {
    hide BitXor, BitOr, BitAnd, Words.BitAt;
    forall k
      ensures Words.BitAt(BitXor(x, y), k) <==> Words.BitAt(x, k) != Words.BitAt(y, k)
      ensures Words.BitAt(BitOr(x, y), k) <==> Words.BitAt(x, k) || Words.BitAt(y, k)
      ensures Words.BitAt(BitAnd(x, y), k) <==> Words.BitAt(x, k) && Words.BitAt(y, k)
    {
      Words.BitsAt(x, y, k);
    }
  }

  lemma IsNumber(r: bv32)
    ensures Is(FromBits(r))(r)
  {
  }

  lemma ExecSums(s: Cpu, w: bv32, io: Io)
    ensures Exec(s, OP_ADD, w, 4, io) == ExecADD(s, w) && Exec(s, OP_SUB, w, 4, io) == ExecSUB(s, w)
  {
    hide ExecADD, ExecSUB;
  }

  lemma ExecBits(s: Cpu, w: bv32, io: Io)
    ensures Exec(s, OP_XOR, w, 4, io) == ExecXOR(s, w) && Exec(s, OP_OR, w, 4, io) == ExecOR(s, w)
    ensures Exec(s, OP_AND, w, 4, io) == ExecAND(s, w)
  {
    hide ExecXOR, ExecOR, ExecAND;
  }

  lemma RegisterExec(s: Cpu, w: bv32)
    ensures var x, y := Get(s.regs, Rs1(w)), Get(s.regs, Rs2(w));
            && ExecADD(s, w) == Runs(SetReg(s, Rd(w), Plus(x, y)))
            && ExecSUB(s, w) == Runs(SetReg(s, Rd(w), Minus(x, y)))
            && ExecXOR(s, w) == Runs(SetReg(s, Rd(w), BitXor(x, y)))
            && ExecOR(s, w) == Runs(SetReg(s, Rd(w), BitOr(x, y)))
            && ExecAND(s, w) == Runs(SetReg(s, Rd(w), BitAnd(x, y)))
  {
    hide Rs1, Rs2, Rd, Get, SetReg, Plus, Minus, BitXor, BitOr, BitAnd;
  }

  /** ADD and SUB on numbers, XOR, OR and AND bit by bit. */
  lemma RegisterMeans(s: Cpu, rd: bv32, rs1: bv32, rs2: bv32, io: Io)
    requires rd < 32 && rs1 < 32 && rs2 < 32
    ensures var a, b, x, y := Number(s, rs1), Number(s, rs2), Get(s.regs, rs1), Get(s.regs, rs2);
            && Leaves(s, RType(0, rs2, rs1, 0, rd, 0x33), io, rd, Is((a + b) % TWO_TO_32))
            && Leaves(s, RType(0x20, rs2, rs1, 0, rd, 0x33), io, rd, Is((a - b) % TWO_TO_32))
            && Leaves(s, RType(0, rs2, rs1, 4, rd, 0x33), io, rd, EitherOf(x, y))
            && Leaves(s, RType(0, rs2, rs1, 6, rd, 0x33), io, rd, AnyOf(x, y))
            && Leaves(s, RType(0, rs2, rs1, 7, rd, 0x33), io, rd, AllOf(x, y))
  {
    hide *;
    var x, y := Get(s.regs, rs1), Get(s.regs, rs2);
    Numbers(s, rs1);
    Numbers(s, rs2);
    RegisterSteps(s, rd, rs1, rs2, io);
    PlusMeans(x, y);
    MinusMeans(x, y);
    IsNumber(Plus(x, y));
    IsNumber(Minus(x, y));
    BitwiseMeans(x, y);
    LeavesBy(s, RType(0, rs2, rs1, 0, rd, 0x33), io, rd, Plus(x, y), Is(FromBits(Plus(x, y))));
    LeavesBy(s, RType(0x20, rs2, rs1, 0, rd, 0x33), io, rd, Minus(x, y), Is(FromBits(Minus(x, y))));
    LeavesBy(s, RType(0, rs2, rs1, 4, rd, 0x33), io, rd, BitXor(x, y), EitherOf(x, y));
    LeavesBy(s, RType(0, rs2, rs1, 6, rd, 0x33), io, rd, BitOr(x, y), AnyOf(x, y));
    LeavesBy(s, RType(0, rs2, rs1, 7, rd, 0x33), io, rd, BitAnd(x, y), AllOf(x, y));
  }

  lemma Numbers(s: Cpu, r: bv32)
    ensures Number(s, r) == FromBits(Get(s.regs, r))
  {
    hide Get, FromBits;
  }

  lemma RegisterSteps(s: Cpu, rd: bv32, rs1: bv32, rs2: bv32, io: Io)
    requires rd < 32 && rs1 < 32 && rs2 < 32
    ensures var x, y := Get(s.regs, rs1), Get(s.regs, rs2);
            && Step(s, RType(0, rs2, rs1, 0, rd, 0x33), io) == Finished(Runs(SetReg(s, rd, Plus(x, y))), 4)
            && Step(s, RType(0x20, rs2, rs1, 0, rd, 0x33), io) == Finished(Runs(SetReg(s, rd, Minus(x, y))), 4)
            && Step(s, RType(0, rs2, rs1, 4, rd, 0x33), io) == Finished(Runs(SetReg(s, rd, BitXor(x, y))), 4)
            && Step(s, RType(0, rs2, rs1, 6, rd, 0x33), io) == Finished(Runs(SetReg(s, rd, BitOr(x, y))), 4)
            && Step(s, RType(0, rs2, rs1, 7, rd, 0x33), io) == Finished(Runs(SetReg(s, rd, BitAnd(x, y))), 4)
  {
    hide *;
    RegisterDecoded(rd, rs1, rs2, 0);
    RegisterStep(s, 0, rs2, rs1, 0, rd, io);
    RegisterStep(s, 0x20, rs2, rs1, 0, rd, io);
    RegisterStep(s, 0, rs2, rs1, 4, rd, io);
    RegisterStep(s, 0, rs2, rs1, 6, rd, io);
    RegisterStep(s, 0, rs2, rs1, 7, rd, io);
  }

  lemma RegisterStep(s: Cpu, f7: bv32, rs2: bv32, rs1: bv32, f3: bv32, rd: bv32, io: Io)
    requires f7 < 128 && rd < 32 && rs1 < 32 && rs2 < 32 && f3 < 8
    ensures var w, x, y := RType(f7, rs2, rs1, f3, rd, 0x33), Get(s.regs, rs1), Get(s.regs, rs2);
            && (Decode(w) == OP_ADD ==> Step(s, w, io) == Finished(Runs(SetReg(s, rd, Plus(x, y))), 4))
            && (Decode(w) == OP_SUB ==> Step(s, w, io) == Finished(Runs(SetReg(s, rd, Minus(x, y))), 4))
            && (Decode(w) == OP_XOR ==> Step(s, w, io) == Finished(Runs(SetReg(s, rd, BitXor(x, y))), 4))
            && (Decode(w) == OP_OR ==> Step(s, w, io) == Finished(Runs(SetReg(s, rd, BitOr(x, y))), 4))
            && (Decode(w) == OP_AND ==> Step(s, w, io) == Finished(Runs(SetReg(s, rd, BitAnd(x, y))), 4))
  {
    hide *;
    var w := RType(f7, rs2, rs1, f3, rd, 0x33);
    RRoundTrip(f7, rs2, rs1, f3, rd, 0x33);
    RegisterExec(s, w);
    ExecSums(s, w, io);
    ExecBits(s, w, io);
    if Decode(w) != OP_ERROR {
      StepOfBase(s, w, io);
    }
  }

  // ----- registers with immediates -----

  /** The immediates of 12, 13 and 21 bits, written as the 32-bit words they are extended to. */
  predicate Fits12(imm: bv32) { imm >> 11 == 0 || imm >> 11 == 0x1f_ffff }
  predicate Fits13(imm: bv32) { (imm >> 12 == 0 || imm >> 12 == 0xf_ffff) && imm & 1 == 0 }
  predicate Fits21(imm: bv32) { (imm >> 20 == 0 || imm >> 20 == 0xfff) && imm & 1 == 0 }

  lemma Extended12(imm: bv32)
    requires Fits12(imm)
    ensures Signed12(imm) == imm
  {
  }

  lemma Extended13(imm: bv32)
    requires Fits13(imm)
    ensures Signed13(imm) == imm
  {
  }

  lemma Extended21(imm: bv32)
    requires Fits21(imm)
    ensures Signed21(imm) == imm
  {
    if imm >> 20 == 0 {
      Positive21(imm);
    } else {
      Negative21(imm);
    }
  }

  lemma Positive21(imm: bv32)
    requires imm >> 20 == 0
    ensures Signed21(imm) == imm
  {
  }

  lemma Negative21(imm: bv32)
    requires imm >> 20 == 0xfff
    ensures Signed21(imm) == imm
  {
  }

  lemma Fitting13IsEven(imm: bv32)
    requires Fits13(imm)
    ensures imm & 1 == 0
  {
  }

  lemma Fitting21IsEven(imm: bv32)
    requires Fits21(imm)
    ensures imm & 1 == 0
  {
  }

  lemma ExecImmediate(s: Cpu, w: bv32, io: Io)
    ensures var x := Get(s.regs, Rs1(w));
            && Exec(s, OP_ADDI, w, 4, io) == Runs(SetReg(s, Rd(w), Plus(x, ImmI(w))))
            && Exec(s, OP_ANDI, w, 4, io) == Runs(SetReg(s, Rd(w), BitAnd(x, ImmI(w))))
  {
    hide Rs1, Rd, ImmI, Get, SetReg, Plus, BitAnd;
  }

  lemma ImmediateStep(s: Cpu, imm: bv32, rs1: bv32, f3: bv32, rd: bv32, io: Io)
    requires rd < 32 && rs1 < 32 && f3 < 8 && Fits12(imm)
    ensures var w, x := IType(imm, rs1, f3, rd, 0x13), Get(s.regs, rs1);
            && (Decode(w) == OP_ADDI ==> Step(s, w, io) == Finished(Runs(SetReg(s, rd, Plus(x, imm))), 4))
            && (Decode(w) == OP_ANDI ==> Step(s, w, io) == Finished(Runs(SetReg(s, rd, BitAnd(x, imm))), 4))
  {
    hide *;
    var w := IType(imm, rs1, f3, rd, 0x13);
    Extended12(imm);
    IRoundTrip(imm, rs1, f3, rd, 0x13);
    ExecImmediate(s, w, io);
    if Decode(w) != OP_ERROR {
      StepOfBase(s, w, io);
    }
  }

  lemma ImmediateSteps(s: Cpu, imm: bv32, rs1: bv32, rd: bv32, io: Io)
    requires rd < 32 && rs1 < 32 && Fits12(imm)
    ensures var x := Get(s.regs, rs1);
            && Step(s, IType(imm, rs1, 0, rd, 0x13), io) == Finished(Runs(SetReg(s, rd, Plus(x, imm))), 4)
            && Step(s, IType(imm, rs1, 7, rd, 0x13), io) == Finished(Runs(SetReg(s, rd, BitAnd(x, imm))), 4)
  {
    hide *;
    ImmediateDecoded(rd, rs1, 0, imm);
    ImmediateStep(s, imm, rs1, 0, rd, io);
    ImmediateStep(s, imm, rs1, 7, rd, io);
  }

  /** ADDI and ANDI, whose immediates are extended by their sign. */
  lemma ImmediateMeans(s: Cpu, rd: bv32, rs1: bv32, imm: bv32, io: Io)
    requires rd < 32 && rs1 < 32 && Fits12(imm)
    ensures Leaves(s, IType(imm, rs1, 0, rd, 0x13), io, rd, Is((Number(s, rs1) + FromBits(imm)) % TWO_TO_32))
    ensures Leaves(s, IType(imm, rs1, 7, rd, 0x13), io, rd, AllOf(Get(s.regs, rs1), imm))
  {
    hide *;
    var x := Get(s.regs, rs1);
    Numbers(s, rs1);
    ImmediateSteps(s, imm, rs1, rd, io);
    PlusMeans(x, imm);
    IsNumber(Plus(x, imm));
    BitwiseMeans(x, imm);
    LeavesBy(s, IType(imm, rs1, 0, rd, 0x13), io, rd, Plus(x, imm), Is(FromBits(Plus(x, imm))));
    LeavesBy(s, IType(imm, rs1, 7, rd, 0x13), io, rd, BitAnd(x, imm), AllOf(x, imm));
  }

  lemma ExecUpper(s: Cpu, w: bv32, io: Io)
    ensures Exec(s, OP_LUI, w, 4, io) == Runs(SetReg(s, Rd(w), Upper(ImmU(w))))
  {
    hide Rd, SetReg, Upper, ImmU;
  }

  lemma UpperPart(imm: bv32)
    requires imm & 0xfff == 0
    ensures imm & 0xffff_f000 == imm
  {
  }

  /** LUI. */
  lemma UpperMeans(s: Cpu, rd: bv32, imm: bv32, io: Io)
    requires rd < 32 && imm & 0xfff == 0
    ensures Leaves(s, UType(imm, rd, 0x37), io, rd, Is(FromBits(imm)))
  {
    hide *;
    var w := UType(imm, rd, 0x37);
    JumpDecoded(rd, 0, 0, imm);
    URoundTrip(imm, rd, 0x37);
    UpperPart(imm);
    StepOfBase(s, w, io);
    ExecUpper(s, w, io);
    IsNumber(imm);
    LeavesBy(s, w, io, rd, imm, Is(FromBits(imm)));
  }

  // ----- shifts -----

  ghost function IsSigned(n: int): bv32 -> bool { r => TwosComplement32(FromBits(r)) == n }

  lemma ShiftFields(f7: bv32, n: bv32, rs1: bv32, f3: bv32, rd: bv32)
    requires f7 < 128 && n < 32 && rs1 < 32 && f3 < 8 && rd < 32
    ensures var w := RType(f7, n, rs1, f3, rd, 0x13);
            && Rs1(w) == rs1 && Rd(w) == rd && Rs2(w) == n && Low5(n) == n
            && (f7 & 1 == 0 ==> Shamt(w) == n) && (f7 & 1 == 1 ==> Shamt(w) >= 0x20)
  {
  }

  lemma ExecShift(s: Cpu, w: bv32, io: Io)
    ensures var x := Get(s.regs, Rs1(w));
            && Exec(s, OP_SRLI, w, 4, io) == Runs(SetReg(s, Rd(w), Srl(x, Low5(Rs2(w)))))
            && Exec(s, OP_SRAI, w, 4, io) == Runs(SetReg(s, Rd(w), Sra(x, Low5(Rs2(w)))))
  {
    hide Rs1, Rs2, Rd, Get, SetReg, Srl, Sra, Low5;
  }

  lemma ExecShiftLeft(s: Cpu, w: bv32, io: Io)
    ensures Exec(s, OP_SLLI, w, 4, io)
         == if Shamt(w) >= 0x20 then Jumps(Raised(s.(stopped := true), Illegal, w))
            else Runs(SetReg(s, Rd(w), Sll(Get(s.regs, Rs1(w)), Low5(Shamt(w)))))
  {
    hide Rs1, Shamt, Rd, Get, SetReg, Sll, Low5, Raised;
  }

  lemma ShiftValues(x: bv32, n: bv32)
    requires n < 32
    ensures FromBits(Sll(x, n)) == FromBits(x) * Words.Power(n) % TWO_TO_32
    ensures FromBits(Srl(x, n)) == FromBits(x) / Words.Power(n)
    ensures TwosComplement32(FromBits(Sra(x, n))) == TwosComplement32(FromBits(x)) / Words.Power(n)
  {
    hide Sll, Srl, Sra, FromBits, Words.Unsigned, Words.Signed, Words.Power, TwosComplement32;
    Words.ShiftsScale(x, n);
    Words.ArithmeticShiftIsFloor(x, n);
    UnsignedIsNumber(x);
    UnsignedIsNumber(Sll(x, n));
    UnsignedIsNumber(Srl(x, n));
    SignedIsNumber(x);
    SignedIsNumber(Sra(x, n));
  }

  lemma SignedIsNumber(x: bv32)
    ensures Words.Signed(x) == TwosComplement32(FromBits(x))
  {
    hide FromBits, Words.Unsigned;
    UnsignedIsNumber(x);
  }

  lemma IsSignedNumber(r: bv32)
    ensures IsSigned(TwosComplement32(FromBits(r)))(r)
  {
  }

  /** SLLI multiplies by 2^n, SRLI divides by it, and SRAI divides the signed number, rounding down. */
  lemma ShiftMeans(s: Cpu, rd: bv32, rs1: bv32, n: bv32, io: Io)
    requires rd < 32 && rs1 < 32 && n < 32
    ensures var a, p := Number(s, rs1), Words.Power(n);
            && Leaves(s, RType(0, n, rs1, 1, rd, 0x13), io, rd, Is(a * p % TWO_TO_32))
            && Leaves(s, RType(0, n, rs1, 5, rd, 0x13), io, rd, Is(a / p))
            && Leaves(s, RType(0x20, n, rs1, 5, rd, 0x13), io, rd, IsSigned(TwosComplement32(a) / p))
  {
    hide *;
    var x := Get(s.regs, rs1);
    var l, r, a := RType(0, n, rs1, 1, rd, 0x13), RType(0, n, rs1, 5, rd, 0x13), RType(0x20, n, rs1, 5, rd, 0x13);
    Numbers(s, rs1);
    ShiftDecoded(rd, rs1, 0, n);
    ShiftFields(0, n, rs1, 1, rd);
    ShiftFields(0, n, rs1, 5, rd);
    ShiftFields(0x20, n, rs1, 5, rd);
    StepOfBase(s, l, io);
    StepOfBase(s, r, io);
    StepOfBase(s, a, io);
    ExecShiftLeft(s, l, io);
    ExecShift(s, r, io);
    ExecShift(s, a, io);
    ShiftValues(x, n);
    IsNumber(Sll(x, n));
    IsNumber(Srl(x, n));
    IsSignedNumber(Sra(x, n));
    LeavesBy(s, l, io, rd, Sll(x, n), Is(FromBits(Sll(x, n))));
    LeavesBy(s, r, io, rd, Srl(x, n), Is(FromBits(Srl(x, n))));
    LeavesBy(s, a, io, rd, Sra(x, n), IsSigned(TwosComplement32(FromBits(Sra(x, n)))));
  }

  // ----- exceptions -----

  /** The processor has taken an exception: the PC is at the trap vector, the CSRs say where it was and
      why; the simulator stops or not. */
  ghost predicate Traps(s: Cpu, o: Outcome, cause: bv32, tval: bv32, stops: bool) {
    && o.Done? && !o.breakpoint && o.cpu.stopped == (s.stopped || stops) && o.cpu.regs == s.regs && o.cpu.mem == s.mem
    && o.cpu.pc == o.cpu.csrs.mtvec == s.csrs.mtvec && o.cpu.csrs.mepc == s.pc
    && o.cpu.csrs.mcause == cause && o.cpu.csrs.mtval == tval && o.cpu.csrs.mstatus == BitOr(s.csrs.mstatus, cause)
  }

  lemma RaisedTraps(s: Cpu, w: bv32)
    ensures Traps(s, Finished(Jumps(Raised(s.(stopped := true), Illegal, w)), 4), 2, w, true)
    ensures Traps(s, Finished(Jumps(Raised(s, Breakpoint, w)), 4), 3, s.csrs.mtval, true)
    ensures Traps(s, Finished(Jumps(Raised(s, Illegal, w)), 2), 2, w, false)
    ensures Traps(s, Finished(Jumps(Raised(s, CallFromM, w)), 4), 11, 0, false)
  {
    hide BitOr;
  }

  lemma ExecBreak(s: Cpu, w: bv32, io: Io)
    ensures Exec(s, OP_EBREAK, w, 4, io) == Jumps(Raised(s, Breakpoint, w))
  {
    hide Raised;
  }

  /** EBREAK, and SLLI by 32 or more, which is illegal. */
  lemma TrapMeans(s: Cpu, f7: bv32, n: bv32, rs1: bv32, rd: bv32, io: Io)
    requires f7 < 128 && f7 & 1 == 1 && n < 32 && rs1 < 32 && rd < 32
    ensures Traps(s, Step(s, IType(1, 0, 0, 0, 0x73), io), 3, s.csrs.mtval, true)
    ensures var w := RType(f7, n, rs1, 1, rd, 0x13); Traps(s, Step(s, w, io), 2, w, true)
  {
    hide *;
    var e, w := IType(1, 0, 0, 0, 0x73), RType(f7, n, rs1, 1, rd, 0x13);
    SystemDecoded(0, 0, 0, 0);
    RWord(f7, n, rs1, 1, rd, 0x13);
    ImmediateShift(f7 >> 1);
    ShiftFields(f7, n, rs1, 1, rd);
    StepOfBase(s, e, io);
    StepOfBase(s, w, io);
    ExecBreak(s, e, io);
    ExecShiftLeft(s, w, io);
    RaisedTraps(s, e);
    RaisedTraps(s, w);
  }

  lemma ImmediateShift(top6: bv32)
    ensures DecodeOpImm(1, top6) == OP_SLLI
  {
  }

  // ----- jumps -----

  /** The step on w jumps to pc, and links in rd. */
  ghost predicate JumpsTo(s: Cpu, w: bv32, io: Io, rd: bv32, pc: int) {
    var o := Step(s, w, io);
    && o.Done? && !o.breakpoint && FromBits(o.cpu.pc) == pc && o.cpu.mem == s.mem && KeepsOthers(s, o.cpu, rd)
    && (rd != 0 ==> FromBits(Get(o.cpu.regs, rd)) == (FromBits(s.pc) + 4) % TWO_TO_32)
  }

  lemma JumpsBy(s: Cpu, w: bv32, io: Io, rd: bv32, pc: bv32)
    requires rd < 32 && Step(s, w, io) == Jumps(SetReg(s, rd, Plus(s.pc, 4)).(pc := pc))
    ensures JumpsTo(s, w, io, rd, FromBits(pc))
  {
    hide Step, Plus, FromBits, SetReg, Get;
    SetRegKeeps(s, rd, Plus(s.pc, 4));
    SmallNumbers();
    PlusMeans(s.pc, 4);
    RegOnly(s, rd, Plus(s.pc, 4));
  }

  lemma RegOnly(s: Cpu, rd: bv32, v: bv32)
    ensures SetReg(s, rd, v) == s.(regs := SetReg(s, rd, v).regs)
    ensures rd == 0 ==> SetReg(s, rd, v) == s
  {
  }

  lemma ExecJump(s: Cpu, w: bv32, io: Io)
    ensures Exec(s, OP_JAL, w, 4, io) == Jumps(SetReg(s, Rd(w), Plus(s.pc, 4)).(pc := Plus(s.pc, ImmJ(w))))
    ensures Exec(s, OP_JALR, w, 4, io)
         == Jumps(SetReg(s, Rd(w), Plus(s.pc, 4)).(pc := Even(Plus(Get(s.regs, Rs1(w)), ImmI(w)))))
  {
    hide Rd, Rs1, ImmJ, ImmI, Plus, Even, Get, Set;
  }

  lemma FinishedJump(c: Cpu)
    ensures Finished(Jumps(c), 4) == Jumps(c)
  {
  }

  lemma EvenMeans(x: bv32)
    ensures FromBits(Even(x)) == FromBits(x) - FromBits(x) % 2
  {
    hide Words.Unsigned, FromBits;
    Words.EvenValue(x);
    UnsignedIsNumber(x);
    UnsignedIsNumber(Even(x));
  }

  lemma LinkStep(s: Cpu, rd: bv32, offset: bv32, io: Io)
    requires rd < 32 && Fits21(offset)
    ensures Step(s, JType(offset, rd, 0x6f), io) == Jumps(SetReg(s, rd, Plus(s.pc, 4)).(pc := Plus(s.pc, offset)))
  {
    hide *;
    var w := JType(offset, rd, 0x6f);
    Extended21(offset);
    Fitting21IsEven(offset);
    UWord(offset, rd, 0x6f);
    JRoundTrip(offset, rd, 0x6f);
    StepOfBase(s, w, io);
    ExecJump(s, w, io);
    FinishedJump(SetReg(s, rd, Plus(s.pc, 4)).(pc := Plus(s.pc, offset)));
  }

  /** JAL. */
  lemma JumpMeans(s: Cpu, rd: bv32, offset: bv32, io: Io)
    requires rd < 32 && Fits21(offset)
    ensures JumpsTo(s, JType(offset, rd, 0x6f), io, rd, (FromBits(s.pc) + FromBits(offset)) % TWO_TO_32)
  {
    hide *;
    LinkStep(s, rd, offset, io);
    PlusMeans(s.pc, offset);
    JumpsBy(s, JType(offset, rd, 0x6f), io, rd, Plus(s.pc, offset));
  }

  lemma LinkRegisterStep(s: Cpu, rd: bv32, rs1: bv32, imm: bv32, io: Io)
    requires rd < 32 && rs1 < 32 && Fits12(imm)
    ensures Step(s, IType(imm, rs1, 0, rd, 0x67), io)
         == Jumps(SetReg(s, rd, Plus(s.pc, 4)).(pc := Even(Plus(Get(s.regs, rs1), imm))))
  {
    hide *;
    var w := IType(imm, rs1, 0, rd, 0x67);
    Extended12(imm);
    IWord(imm, rs1, 0, rd, 0x67);
    IRoundTrip(imm, rs1, 0, rd, 0x67);
    StepOfBase(s, w, io);
    ExecJump(s, w, io);
    FinishedJump(SetReg(s, rd, Plus(s.pc, 4)).(pc := Even(Plus(Get(s.regs, rs1), imm))));
  }

  /** JALR, which clears the lowest bit of the sum and no other. */
  lemma JumpRegisterMeans(s: Cpu, rd: bv32, rs1: bv32, imm: bv32, io: Io)
    requires rd < 32 && rs1 < 32 && Fits12(imm)
    ensures var t := (Number(s, rs1) + FromBits(imm)) % TWO_TO_32;
            JumpsTo(s, IType(imm, rs1, 0, rd, 0x67), io, rd, t - t % 2)
  {
    hide *;
    var x := Get(s.regs, rs1);
    Numbers(s, rs1);
    LinkRegisterStep(s, rd, rs1, imm, io);
    PlusMeans(x, imm);
    EvenMeans(Plus(x, imm));
    JumpsBy(s, IType(imm, rs1, 0, rd, 0x67), io, rd, Even(Plus(x, imm)));
  }

  lemma ExecBranch(s: Cpu, w: bv32, io: Io)
    ensures var x, y := Get(s.regs, Rs1(w)), Get(s.regs, Rs2(w));
            && Exec(s, OP_BEQ, w, 4, io) == Jumps(s.(pc := Plus(s.pc, if x == y then ImmB(w) else 4)))
            && Exec(s, OP_BNE, w, 4, io) == Jumps(s.(pc := Plus(s.pc, if x != y then ImmB(w) else 4)))
  {
    hide Rs1, Rs2, ImmB, Plus, Get;
  }

  lemma BranchStep(s: Cpu, rs1: bv32, rs2: bv32, f3: bv32, offset: bv32, io: Io)
    requires rs1 < 32 && rs2 < 32 && f3 < 8 && Fits13(offset)
    ensures var w, x, y := BType(offset, rs2, rs1, f3, 0x63), Get(s.regs, rs1), Get(s.regs, rs2);
            && (Decode(w) == OP_BEQ ==> Step(s, w, io) == Jumps(s.(pc := Plus(s.pc, if x == y then offset else 4))))
            && (Decode(w) == OP_BNE ==> Step(s, w, io) == Jumps(s.(pc := Plus(s.pc, if x != y then offset else 4))))
  {
    hide *;
    var w, x, y := BType(offset, rs2, rs1, f3, 0x63), Get(s.regs, rs1), Get(s.regs, rs2);
    Extended13(offset);
    Fitting13IsEven(offset);
    BRoundTrip(offset, rs2, rs1, f3, 0x63);
    ExecBranch(s, w, io);
    FinishedJump(s.(pc := Plus(s.pc, if x == y then offset else 4)));
    FinishedJump(s.(pc := Plus(s.pc, if x != y then offset else 4)));
    if Decode(w) != OP_ERROR {
      StepOfBase(s, w, io);
    }
  }

  lemma BranchSteps(s: Cpu, rs1: bv32, rs2: bv32, offset: bv32, io: Io)
    requires rs1 < 32 && rs2 < 32 && Fits13(offset)
    ensures var x, y := Get(s.regs, rs1), Get(s.regs, rs2);
            && Step(s, BType(offset, rs2, rs1, 0, 0x63), io)
               == Jumps(s.(pc := Plus(s.pc, if x == y then offset else 4)))
            && Step(s, BType(offset, rs2, rs1, 1, 0x63), io)
               == Jumps(s.(pc := Plus(s.pc, if x != y then offset else 4)))
  {
    hide *;
    BranchDecoded(0, rs1, rs2, offset);
    BranchStep(s, rs1, rs2, 0, offset, io);
    BranchStep(s, rs1, rs2, 1, offset, io);
  }

  /** BEQ and BNE. */
  lemma BranchMeans(s: Cpu, rs1: bv32, rs2: bv32, offset: bv32, io: Io)
    requires rs1 < 32 && rs2 < 32 && Fits13(offset)
    ensures var taken, next := (FromBits(s.pc) + FromBits(offset)) % TWO_TO_32, (FromBits(s.pc) + 4) % TWO_TO_32;
            var same := Number(s, rs1) == Number(s, rs2);
            && JumpsTo(s, BType(offset, rs2, rs1, 0, 0x63), io, 0, if same then taken else next)
            && JumpsTo(s, BType(offset, rs2, rs1, 1, 0x63), io, 0, if same then next else taken)
  {
    hide *;
    var x, y := Get(s.regs, rs1), Get(s.regs, rs2);
    Numbers(s, rs1);
    Numbers(s, rs2);
    SameNumber(x, y);
    BranchSteps(s, rs1, rs2, offset, io);
    PlusMeans(s.pc, offset);
    PlusMeans(s.pc, 4);
    SmallNumbers();
    RegOnly(s, 0, Plus(s.pc, 4));
    JumpsBy(s, BType(offset, rs2, rs1, 0, 0x63), io, 0, Plus(s.pc, if x == y then offset else 4));
    JumpsBy(s, BType(offset, rs2, rs1, 1, 0x63), io, 0, Plus(s.pc, if x != y then offset else 4));
  }

  lemma SameNumber(x: bv32, y: bv32)
    ensures x == y <==> FromBits(x) == FromBits(y)
  {
    hide FromBits, ToBits;
    Words.NumberOfBits(x);
    Words.NumberOfBits(y);
  }

  // ----- loads and stores -----

  /** Where a load or store goes. */
  function Target(s: Cpu, rs1: bv32, imm: bv32): int {
    (Number(s, rs1) + FromBits(imm)) % TWO_TO_32
  }

  lemma ExecLoad(s: Cpu, w: bv32, io: Io)
    ensures Exec(s, OP_LW, w, 4, io) == Loaded(s, Rd(w), ReadData(s, Plus(Get(s.regs, Rs1(w)), ImmI(w)), io))
  {
    hide Rd, Rs1, ImmI, Plus, Get, ReadData, Loaded;
  }

  lemma ExecStore(s: Cpu, w: bv32, io: Io)
    ensures Exec(s, OP_SW, w, 4, io)
         == Stored(WriteData(s, Plus(Get(s.regs, Rs1(w)), ImmS(w)), Get(s.regs, Rs2(w))))
  {
    hide Rs1, Rs2, ImmS, Plus, Get, WriteData, Stored;
  }

  lemma LoadStep(s: Cpu, rd: bv32, rs1: bv32, imm: bv32, io: Io)
    requires rd < 32 && rs1 < 32 && Fits12(imm)
    ensures Step(s, IType(imm, rs1, 2, rd, 0x03), io)
         == Finished(Loaded(s, rd, ReadData(s, Plus(Get(s.regs, rs1), imm), io)), 4)
  {
    hide *;
    var w := IType(imm, rs1, 2, rd, 0x03);
    Extended12(imm);
    LoadIsLw(rd, rs1, imm);
    IRoundTrip(imm, rs1, 2, rd, 0x03);
    ExecLoad(s, w, io);
    StepOfBase(s, w, io);
  }

  lemma LoadIsLw(rd: bv32, rs1: bv32, imm: bv32)
    requires rd < 32 && rs1 < 32
    ensures Decode(IType(imm, rs1, 2, rd, 0x03)) == OP_LW
  {
    hide *;
    LoadDecoded(rd, rs1, 0, imm);
  }

  lemma StoreStep(s: Cpu, rs2: bv32, rs1: bv32, imm: bv32, io: Io)
    requires rs2 < 32 && rs1 < 32 && Fits12(imm)
    ensures Step(s, SType(imm, rs2, rs1, 2, 0x23), io)
         == Finished(Stored(WriteData(s, Plus(Get(s.regs, rs1), imm), Get(s.regs, rs2))), 4)
  {
    hide *;
    var w := SType(imm, rs2, rs1, 2, 0x23);
    Extended12(imm);
    StoreIsSw(rs2, rs1, imm);
    SRoundTrip(imm, rs2, rs1, 2, 0x23);
    ExecStore(s, w, io);
    StepOfBase(s, w, io);
  }

  lemma StoreIsSw(rs2: bv32, rs1: bv32, imm: bv32)
    requires rs2 < 32 && rs1 < 32
    ensures Decode(SType(imm, rs2, rs1, 2, 0x23)) == OP_SW
  {
    hide *;
    StoreDecoded(0, rs1, rs2, imm);
  }

  lemma LoadedRuns(s: Cpu, rd: bv32, data: Option<bv32>)
    ensures data.Some? ==> Loaded(s, rd, data) == Runs(SetReg(s, rd, data.value))
  {
    hide SetReg;
  }

  /** The number in the four bytes at a, least first. */
  function WordAt(s: Cpu, a: int): int
    requires 0 <= a && a + 4 <= 0x100_0000
  {
    LittleEndian(s.mem[a], s.mem[a + 1], s.mem[a + 2], s.mem[a + 3])
  }

  lemma ReadMeans(s: Cpu, address: bv32, io: Io)
    requires FromBits(address) + 4 <= 0x100_0000
    ensures ReadData(s, address, io).Some? && FromBits(ReadData(s, address, io).value) == WordAt(s, FromBits(address))
  {
    hide ReadData, Load, LittleEndian, FromBits, ReadWord;
    Words.ReadDataMeans(s, address, io);
    LoadedWord(s.mem, FromBits(address), io.junk, io.answer);
  }

  /** LW of a word in main memory. */
  lemma LoadMeans(s: Cpu, rd: bv32, rs1: bv32, imm: bv32, io: Io)
    requires rd < 32 && rs1 < 32 && Fits12(imm) && 0 <= Target(s, rs1, imm) && Target(s, rs1, imm) + 4 <= 0x100_0000
    ensures Leaves(s, IType(imm, rs1, 2, rd, 0x03), io, rd, Is(WordAt(s, Target(s, rs1, imm))))
  {
    hide *;
    var a := Plus(Get(s.regs, rs1), imm);
    TargetIs(s, rs1, imm);
    ReadMeans(s, a, io);
    LoadStep(s, rd, rs1, imm, io);
    LoadedRuns(s, rd, ReadData(s, a, io));
    IsNumber(ReadData(s, a, io).value);
    LeavesBy(s, IType(imm, rs1, 2, rd, 0x03), io, rd, ReadData(s, a, io).value, Is(WordAt(s, Target(s, rs1, imm))));
  }

  lemma TargetIs(s: Cpu, rs1: bv32, imm: bv32)
    ensures FromBits(Plus(Get(s.regs, rs1), imm)) == Target(s, rs1, imm)
  {
    hide FromBits, Plus, Get;
    PlusMeans(Get(s.regs, rs1), imm);
  }

  /** What SW leaves: v in the four bytes at a, least first, and all else as it was. */
  ghost predicate Stores(s: Cpu, o: Outcome, a: int, v: int)
    requires 0 <= a && a + 4 <= 0x100_0000
  {
    && o.Done? && !o.breakpoint && FromBits(o.cpu.pc) == (FromBits(s.pc) + 4) % TWO_TO_32
    && KeepsOthers(s, o.cpu, 0) && WordAt(o.cpu, a) == v
    && forall i | 0 <= i < SIZE && !(a <= i < a + 4) :: o.cpu.mem[i] == s.mem[i]
  }

  lemma WriteMeans(s: Cpu, address: bv32, data: bv32, io: Io)
    requires FromBits(address) + 4 <= 0x100_0000
    ensures Stores(s, Finished(Stored(WriteData(s, address, data)), 4), FromBits(address), FromBits(data))
  {
    hide WriteData, Load, LittleEndian, FromBits, Plus, Get, ReadWord;
    Words.WriteDataMeans(s, address, data, io);
    LoadedWord(WriteData(s, address, data).value.mem, FromBits(address), io.junk, io.answer);
    PlusMeans(s.pc, 4);
    SmallNumbers();
  }

  /** SW to main memory. */
  lemma StoreMeans(s: Cpu, rs2: bv32, rs1: bv32, imm: bv32, io: Io)
    requires rs2 < 32 && rs1 < 32 && Fits12(imm) && 0 <= Target(s, rs1, imm) && Target(s, rs1, imm) + 4 <= 0x100_0000
    ensures Stores(s, Step(s, SType(imm, rs2, rs1, 2, 0x23), io), Target(s, rs1, imm), Number(s, rs2))
  {
    hide *;
    TargetIs(s, rs1, imm);
    StoreStep(s, rs2, rs1, imm, io);
    WriteMeans(s, Plus(Get(s.regs, rs1), imm), Get(s.regs, rs2), io);
    Numbers(s, rs2);
  }

  /** LW after SW at one address returns what was stored. */
  lemma LoadAfterStoreStep(s: Cpu, rs2: bv32, rd: bv32, rs1: bv32, imm: bv32, io: Io)
    requires rs2 < 32 && rd < 32 && rs1 < 32 && Fits12(imm)
    requires 0 <= Target(s, rs1, imm) && Target(s, rs1, imm) + 4 <= 0x100_0000
    ensures var o := Step(s, SType(imm, rs2, rs1, 2, 0x23), io);
            o.Done? && Leaves(o.cpu, IType(imm, rs1, 2, rd, 0x03), io, rd, Is(Number(s, rs2)))
  {
    hide *;
    StoreMeans(s, rs2, rs1, imm, io);
    var o := Step(s, SType(imm, rs2, rs1, 2, 0x23), io);
    StoredThere(s, o, rs1, imm, Number(s, rs2));
    LoadMeans(o.cpu, rd, rs1, imm, io);
  }

  lemma StoredThere(s: Cpu, o: Outcome, rs1: bv32, imm: bv32, v: int)
    requires 0 <= Target(s, rs1, imm) && Target(s, rs1, imm) + 4 <= 0x100_0000
    requires Stores(s, o, Target(s, rs1, imm), v)
    ensures o.Done? && Target(o.cpu, rs1, imm) == Target(s, rs1, imm) && WordAt(o.cpu, Target(s, rs1, imm)) == v
  {
    hide Get, FromBits, LittleEndian;
  }

  // ----- multiplications and divisions -----

  /** q and r are the quotient, rounded toward zero, and the remainder of x by y. */
  predicate Divides(x: int, y: int, q: int, r: int) {
    && x == q * y + r && (if r < 0 then -r else r) < (if y < 0 then -y else y)
    && (r != 0 ==> (r < 0 <==> x < 0))
  }

  /** What chapter 7 says that the M instruction with this funct3 makes of a and b.  Quotient and
      remainder by zero are all ones and a; -2^31 by -1 gives -2^31 and 0. */
  ghost predicate Combines(f3: bv32, a: int, b: int, r: int) {
    var x, y, z := TwosComplement32(a), TwosComplement32(b), TwosComplement32(r);
    if f3 == 0 then r == a * b % TWO_TO_32
    else if f3 == 1 then z * TWO_TO_32 <= x * y < z * TWO_TO_32 + TWO_TO_32
    else if f3 == 2 then z * TWO_TO_32 <= x * b < z * TWO_TO_32 + TWO_TO_32
    else if f3 == 3 then r * TWO_TO_32 <= a * b < r * TWO_TO_32 + TWO_TO_32
    else if f3 == 4 then
      if b == 0 then z == -1 else if x == -0x8000_0000 && y == -1 then z == x else Divides(x, y, z, x - z * y)
    else if f3 == 5 then if b == 0 then r == 0xffff_ffff else Divides(a, b, r, a - r * b)
    else if f3 == 6 then
      if b == 0 then r == a else if x == -0x8000_0000 && y == -1 then r == 0 else exists q :: Divides(x, y, q, z)
    else if b == 0 then r == a else exists q :: Divides(a, b, q, r)
  }

  ghost function CombinedFrom(f3: bv32, a: int, b: int): bv32 -> bool { r => Combines(f3, a, b, FromBits(r)) }

  lemma ProductsCombine(a: MExtension.word, b: MExtension.word)
    ensures Combines(0, a, b, MExtension.Mul32(a, b)) && Combines(1, a, b, MExtension.Mulh32(a, b))
    ensures Combines(2, a, b, MExtension.Mulhsu32(a, b)) && Combines(3, a, b, MExtension.Mulhu32(a, b))
  {
    hide MExtension.Mul32, MExtension.Mulh32, MExtension.Mulhsu32, MExtension.Mulhu32;
    MulMeans(a, b);
    MExtension.Multiply32IsExact(a, b);
  }

  lemma MulMeans(a: MExtension.word, b: MExtension.word)
    ensures MExtension.Mul32(a, b) == a * b % TWO_TO_32
  {
    MExtension.LowHalf(a, b, MExtension.W32);
  }

  lemma SignedQuotientsCombine(a: MExtension.word, b: MExtension.word)
    ensures Combines(4, a, b, MExtension.Div32(a, b)) && Combines(6, a, b, MExtension.Rem32(a, b))
  {
    hide MExtension.Div32, MExtension.Rem32, Divides;
    var x, y := TwosComplement32(a), TwosComplement32(b);
    var q, r := TwosComplement32(MExtension.Div32(a, b)), TwosComplement32(MExtension.Rem32(a, b));
    if b == 0 {
      DivisionByZero(a);
    } else if x == -0x8000_0000 && y == -1 {
      DivisionOverflow(a, b);
    } else {
      MExtension.SignedDivisionIsExact(a, b);
      MExtension.SignedQuotientExactly(a, b);
      DividesBy(x, y, q, r);
    }
  }

  lemma DividesBy(x: int, y: int, q: int, r: int)
    requires q * y + r == x && MExtension.Abs(r) < MExtension.Abs(y) && (r != 0 ==> (r < 0 <==> x < 0))
    ensures Divides(x, y, q, r) && Divides(x, y, q, x - q * y)
  {
  }

  lemma DivisionByZero(a: MExtension.word)
    ensures MExtension.Div32(a, 0) == 0xffff_ffff && MExtension.Rem32(a, 0) == a
  {
    hide MExtension.Quotient, MExtension.Remainder;
  }

  lemma DivisionOverflow(a: MExtension.word, b: MExtension.word)
    requires TwosComplement32(a) == -0x8000_0000 && TwosComplement32(b) == -1
    ensures MExtension.Div32(a, b) == 0x8000_0000 && MExtension.Rem32(a, b) == 0
  {
    hide MExtension.Quotient, MExtension.Remainder;
  }

  lemma UnsignedQuotientsCombine(a: MExtension.word, b: MExtension.word)
    ensures Combines(5, a, b, MExtension.Divu32(a, b)) && Combines(7, a, b, MExtension.Remu32(a, b))
  {
    hide MExtension.Divu32, MExtension.Remu32, Divides;
    MExtension.UnsignedDivisionIsExact(a, b);
    if b != 0 {
      DividesBy(a, b, MExtension.Divu32(a, b), MExtension.Remu32(a, b));
    }
  }

  lemma ResultsCombine(f3: bv32, a: MExtension.word, b: MExtension.word)
    requires f3 < 8
    ensures Combines(f3, a, b, MResult(MDecodeOp(f3), a, b))
  {
    hide Combines;
    hide MExtension.Mul32, MExtension.Mulh32, MExtension.Mulhsu32, MExtension.Mulhu32;
    hide MExtension.Div32, MExtension.Divu32, MExtension.Rem32, MExtension.Remu32;
    ProductsCombine(a, b);
    SignedQuotientsCombine(a, b);
    UnsignedQuotientsCombine(a, b);
  }

  lemma MStep(s: Cpu, f3: bv32, rd: bv32, rs1: bv32, rs2: bv32, io: Io)
    requires f3 < 8 && rd < 32 && rs1 < 32 && rs2 < 32
    ensures Step(s, RType(1, rs2, rs1, f3, rd, 0x33), io)
         == Finished(Runs(SetReg(s, rd, ToBits(MResult(MDecodeOp(f3), Number(s, rs1), Number(s, rs2))))), 4)
  {
    hide *;
    var w := RType(1, rs2, rs1, f3, rd, 0x33);
    RRoundTrip(1, rs2, rs1, f3, rd, 0x33);
    RWord(1, rs2, rs1, f3, rd, 0x33);
    NoSuchOp(f3);
    OpcodeLowBits(w);
    OddLowBits();
    BaseAndCompressedApart(w);
    MDecodeIs(w);
    SomeMOp(f3);
    StepOfM(s, w, io);
    ExecMIs(s, MDecodeOp(f3), w);
    Numbers(s, rs1);
    Numbers(s, rs2);
  }

  lemma NoSuchOp(f3: bv32)
    ensures DecodeOp(f3, 1) == OP_ERROR
  {
  }

  lemma OddLowBits()
    ensures 0x33 & 3 == 3 as bv32
  {
  }

  lemma MDecodeIs(w: bv32)
    ensures Opcode(w) == 0x33 ==> MDecode(w) == MDecodeOp(Funct3(w))
  {
    hide Opcode, Funct3;
  }

  lemma SomeMOp(f3: bv32)
    ensures MDecodeOp(f3) != OP_M_ERROR
  {
  }

  lemma StepOfM(s: Cpu, w: bv32, io: Io)
    ensures Decode(w) == OP_ERROR && CDecode(w) == OP_C_ERROR && MDecode(w) != OP_M_ERROR ==>
              Step(s, w, io) == Finished(ExecM(s, MDecode(w), w), 4)
  {
    hide Decode, CDecode, MDecode, ExecM, Finished, Exec, CExec;
  }

  lemma ExecMIs(s: Cpu, op: MOp, w: bv32)
    ensures ExecM(s, op, w)
         == Runs(SetReg(s, Rd(w), ToBits(MResult(op, FromBits(Get(s.regs, Rs1(w))), FromBits(Get(s.regs, Rs2(w)))))))
  {
    hide Rd, Rs1, Rs2, Get, SetReg, MResult, FromBits, ToBits;
  }

  /** Every word of M, one funct3 after the other. */
  lemma MultiplyDivideMeans(s: Cpu, f3: bv32, rd: bv32, rs1: bv32, rs2: bv32, io: Io)
    requires f3 < 8 && rd < 32 && rs1 < 32 && rs2 < 32
    ensures Leaves(s, RType(1, rs2, rs1, f3, rd, 0x33), io, rd, CombinedFrom(f3, Number(s, rs1), Number(s, rs2)))
  {
    hide Step, RType, Leaves, Combines, CombinedFrom, MResult, MDecodeOp, SetReg, Finished, FromBits, ToBits, Number;
    var a, b := Number(s, rs1), Number(s, rs2);
    var r := MResult(MDecodeOp(f3), a, b);
    MStep(s, f3, rd, rs1, rs2, io);
    ResultsCombine(f3, a, b);
    Words.BitsOfNumber(r);
    FromCombined(f3, a, b, ToBits(r));
    LeavesBy(s, RType(1, rs2, rs1, f3, rd, 0x33), io, rd, ToBits(r), CombinedFrom(f3, a, b));
  }

  lemma FromCombined(f3: bv32, a: int, b: int, r: bv32)
    ensures CombinedFrom(f3, a, b)(r) <==> Combines(f3, a, b, FromBits(r))
  {
    hide Combines, FromBits;
  }

  lemma NoSuchOp32(f3: bv32)
    ensures DecodeOp32(f3, 1, 0) == OP_ERROR
  {
  }

  lemma MDecodeIsOther(w: bv32)
    ensures Opcode(w) != 0x33 ==> MDecode(w) == MDecodeOther(Funct3(w))
  {
    hide Opcode, Funct3;
  }

  /** The OP-32 words of M, which on RV32 run as well. */
  lemma WideStep(s: Cpu, f3: bv32, rd: bv32, rs1: bv32, rs2: bv32, io: Io)
    requires f3 < 8 && rd < 32 && rs1 < 32 && rs2 < 32 && MDecodeOther(f3) != OP_M_ERROR
    ensures Step(s, RType(1, rs2, rs1, f3, rd, 0x3b), io)
         == Finished(Runs(SetReg(s, rd, ToBits(MResult(MDecodeOther(f3), Number(s, rs1), Number(s, rs2))))), 4)
  {
    hide *;
    var w := RType(1, rs2, rs1, f3, rd, 0x3b);
    RRoundTrip(1, rs2, rs1, f3, rd, 0x3b);
    RWord(1, rs2, rs1, f3, rd, 0x3b);
    NoSuchOp32(f3);
    WideConstants();
    OpcodeLowBits(w);
    BaseAndCompressedApart(w);
    MDecodeIsOther(w);
    StepOfM(s, w, io);
    ExecMIs(s, MDecodeOther(f3), w);
    Numbers(s, rs1);
    Numbers(s, rs2);
  }

  lemma WideConstants()
    ensures 0x3b & 3 == 3 as bv32 && 0x3b != 0x33 as bv32 && 1 >> 1 == 0 as bv32
  {
  }

  /** What the W form with this funct3 makes of a and b: what MUL, DIV, REM and REMU make of them, and
      DIVU but for one pair. */
  ghost predicate CombinesWide(f3: bv32, a: int, b: int, r: int) {
    if f3 == 5 && a == 0x8000_0000 && b == 0xffff_ffff then r == 0x8000_0000 else Combines(f3, a, b, r)
  }

  lemma WideResultsCombine(a: MExtension.word, b: MExtension.word)
    ensures CombinesWide(0, a, b, MResult(MDecodeOther(0), a, b))
    ensures CombinesWide(4, a, b, MResult(MDecodeOther(4), a, b))
    ensures CombinesWide(5, a, b, MResult(MDecodeOther(5), a, b))
    ensures CombinesWide(6, a, b, MResult(MDecodeOther(6), a, b))
    ensures CombinesWide(7, a, b, MResult(MDecodeOther(7), a, b))
  {
    hide Combines;
    hide MExtension.Mul32, MExtension.Mulw32, MExtension.Divuw32, MExtension.Remw32;
    hide MExtension.Div32, MExtension.Divu32, MExtension.Rem32, MExtension.Remu32;
    MExtension.WideFormsExactly(a, b);
    WideOverflow();
    ProductsCombine(a, b);
    SignedQuotientsCombine(a, b);
    UnsignedQuotientsCombine(a, b);
  }

  lemma WideOverflow()
    ensures MExtension.Divuw32(0x8000_0000, 0xffff_ffff) == 0x8000_0000
  {
  }

  ghost function WideFrom(f3: bv32, a: int, b: int): bv32 -> bool { r => CombinesWide(f3, a, b, FromBits(r)) }

  lemma FromWide(f3: bv32, a: int, b: int, r: bv32)
    ensures WideFrom(f3, a, b)(r) <==> CombinesWide(f3, a, b, FromBits(r))
  {
    hide CombinesWide, FromBits;
  }

  lemma WideMultiplyDivideMeans(s: Cpu, f3: bv32, rd: bv32, rs1: bv32, rs2: bv32, io: Io)
    requires f3 == 0 || f3 == 4 || f3 == 5 || f3 == 6 || f3 == 7
    requires rd < 32 && rs1 < 32 && rs2 < 32
    ensures Leaves(s, RType(1, rs2, rs1, f3, rd, 0x3b), io, rd, WideFrom(f3, Number(s, rs1), Number(s, rs2)))
  {
    hide Step, RType, Leaves, CombinesWide, WideFrom, MResult, MDecodeOther, SetReg, Finished, FromBits, ToBits, Number;
    var a, b := Number(s, rs1), Number(s, rs2);
    var r := MResult(MDecodeOther(f3), a, b);
    WideOps(f3);
    WideStep(s, f3, rd, rs1, rs2, io);
    WideResultsCombine(a, b);
    Words.BitsOfNumber(r);
    FromWide(f3, a, b, ToBits(r));
    LeavesBy(s, RType(1, rs2, rs1, f3, rd, 0x3b), io, rd, ToBits(r), WideFrom(f3, a, b));
  }

  lemma WideOps(f3: bv32)
    ensures f3 == 0 || f3 == 4 || f3 == 5 || f3 == 6 || f3 == 7 ==> MDecodeOther(f3) != OP_M_ERROR
  {
  }

  // ----- the compressed words that are no legal RV32C integer instruction -----

  lemma StepOfCompressed(s: Cpu, w: bv32, io: Io)
    ensures COpcode(w) != 3 && CDecode(w) != OP_C_ERROR ==> Step(s, w, io) == Finished(CExec(s, CDecode(w), w, io), 2)
  {
    hide CExec, CDecode, Decode, COpcode, Finished, Exec;
    BaseAndCompressedApart(w);
  }

  lemma CExecWords(s: Cpu, w: bv32, io: Io)
    ensures var x, y := Get(s.regs, CRs1p(w)), Get(s.regs, CRs2p(w));
            && CExec(s, OP_C_SUBW, w, io) == Runs(SetReg(s, CRs1p(w), Minus(x, y)))
            && CExec(s, OP_C_ADDW, w, io) == Runs(SetReg(s, CRs1p(w), Plus(x, y)))
  {
    hide CRs1p, CRs2p, Get, SetReg, Plus, Minus;
  }

  lemma DecodesWords(w: bv32)
    requires COpcode(w) == 1 && CFunct3(w) == 4 && CFunct2(w) == 3 && CBit12(w) != 0
    ensures CFunct2b(w) == 0 ==> CDecode(w) == OP_C_SUBW
    ensures CFunct2b(w) == 1 ==> CDecode(w) == OP_C_ADDW
  {
    hide COpcode, CFunct3, CFunct2, CFunct2b, CBit12, CLow5, CMid10;
  }

  /** C.SUBW and C.ADDW, which RV32 reserves, subtract and add. */
  lemma WordFormsMean(s: Cpu, w: bv32, io: Io)
    requires COpcode(w) == 1 && CFunct3(w) == 4 && CFunct2(w) == 3 && CBit12(w) != 0 && CFunct2b(w) <= 1
    ensures var a, b := Number(s, CRs1p(w)), Number(s, CRs2p(w));
            Changes(s, Step(s, w, io), 2, CRs1p(w), Is((if CFunct2b(w) == 0 then a - b else a + b) % TWO_TO_32))
  {
    hide *;
    var x, y, rd := Get(s.regs, CRs1p(w)), Get(s.regs, CRs2p(w)), CRs1p(w);
    ZeroOrOne(CFunct2b(w));
    DecodesWords(w);
    StepOfCompressed(s, w, io);
    CExecWords(s, w, io);
    FieldsBounded(w);
    Numbers(s, CRs1p(w));
    Numbers(s, CRs2p(w));
    PlusMeans(x, y);
    MinusMeans(x, y);
    IsNumber(Plus(x, y));
    IsNumber(Minus(x, y));
    SmallNumbers();
    if CFunct2b(w) == 0 {
      ChangesBy(s, 2, rd, Minus(x, y), Is(FromBits(Minus(x, y))));
    } else {
      ChangesBy(s, 2, rd, Plus(x, y), Is(FromBits(Plus(x, y))));
    }
  }

  lemma ZeroOrOne(x: bv32)
    ensures x <= 1 ==> x == 0 || x == 1
  {
  }

  lemma DecodesFloats(w: bv32)
    requires COpcode(w) == 0 || COpcode(w) == 2
    ensures COpcode(w) == 0 && CFunct3(w) == 0 ==> CDecode(w) == OP_C_ADDI4SPN
    ensures COpcode(w) == 0 && CFunct3(w) == 1 ==> CDecode(w) == OP_C_FLD
    ensures COpcode(w) == 0 && CFunct3(w) == 3 ==> CDecode(w) == OP_C_FLW
    ensures COpcode(w) == 0 && CFunct3(w) == 5 ==> CDecode(w) == OP_C_FSD
    ensures COpcode(w) == 0 && CFunct3(w) == 7 ==> CDecode(w) == OP_C_FSW
    ensures COpcode(w) == 2 && CFunct3(w) == 1 ==> CDecode(w) == OP_C_LWSP
    ensures COpcode(w) == 2 && CFunct3(w) == 3 ==> CDecode(w) == OP_C_FLWSP
    ensures COpcode(w) == 2 && CFunct3(w) == 7 ==> CDecode(w) == OP_C_FSWSP
  {
    hide COpcode, CFunct3, CFunct2, CFunct2b, CBit12, CLow5, CMid10, CDecodeJr, CDecodeAlu;
  }

  lemma CExecFloats(s: Cpu, w: bv32, io: Io)
    ensures CExec(s, OP_C_FLD, w, io) == CExec(s, OP_C_FLW, w, io) == CExec(s, OP_C_FSD, w, io)
         == CExec(s, OP_C_FSWSP, w, io) == Runs(s.(stopped := true))
    ensures CExec(s, OP_C_FLWSP, w, io) == Runs(s)
  {
  }

  lemma CExecMemory(s: Cpu, w: bv32, io: Io)
    ensures CExec(s, OP_C_LWSP, w, io) == Loaded(s, Rd(w), ReadData(s, Plus(Get(s.regs, 2), CImmLwsp(w)), io))
    ensures CExec(s, OP_C_FSW, w, io) == ExecCFSW(s, w)
    ensures CExec(s, OP_C_ADDI4SPN, w, io) == ExecCADDI4SPN(s, w)
  {
    hide Rd, Get, Plus, CImmLwsp, ReadData, ExecCFSW, ExecCADDI4SPN, Loaded;
  }

  lemma FinishedRun(c: Cpu)
    ensures Finished(Runs(c), 2) == Done(c.(pc := Plus(c.pc, 2)), true, false)
  {
    hide Plus;
  }

  /** The floating-point forms: C.FLD, C.FLW, C.FSD and C.FSWSP stop the simulator, C.FLWSP does nothing,
      and C.FLDSP is taken for C.LWSP; an illegal C.ADDI4SPN traps. */
  lemma OtherFormsMean(s: Cpu, w: bv32, io: Io)
    requires COpcode(w) == 0 || COpcode(w) == 2
    ensures (COpcode(w) == 0 && (CFunct3(w) == 1 || CFunct3(w) == 3 || CFunct3(w) == 5))
            || (COpcode(w) == 2 && CFunct3(w) == 7)
        ==> Step(s, w, io) == Done(s.(stopped := true, pc := Plus(s.pc, 2)), true, false)
    ensures COpcode(w) == 2 && CFunct3(w) == 3 ==> Step(s, w, io) == Done(s.(pc := Plus(s.pc, 2)), true, false)
    ensures COpcode(w) == 0 && CFunct3(w) == 0 && UimmSpn(w) == 0 ==> Traps(s, Step(s, w, io), 2, w, false)
  {
    hide *;
    LowBitsDiffer(w);
    DecodesFloats(w);
    StepOfCompressed(s, w, io);
    CExecFloats(s, w, io);
    CExecMemory(s, w, io);
    FinishedRun(s);
    FinishedRun(s.(stopped := true));
    SpnIs(s, w);
    SpnImmediate(w);
    RaisedTraps(s, w);
  }

  lemma LowBitsDiffer(w: bv32)
    ensures COpcode(w) == 0 || COpcode(w) == 2 ==> COpcode(w) != 3
  {
    hide COpcode;
  }

  lemma SpnIs(s: Cpu, w: bv32)
    ensures CImmAddi4spn(w) == 0 ==> ExecCADDI4SPN(s, w) == Jumps(Raised(s, Illegal, w))
  {
    hide CImmAddi4spn, Raised;
  }

  lemma LwspStep(s: Cpu, w: bv32, io: Io)
    requires COpcode(w) == 2 && CFunct3(w) == 1
    ensures Step(s, w, io)
         == Finished(Loaded(s, CRs1(w), ReadData(s, Plus(Get(s.regs, 2), UimmLwsp(w)), io)), 2)
  {
    hide *;
    LowBitsDiffer(w);
    DecodesFloats(w);
    StepOfCompressed(s, w, io);
    CExecMemory(s, w, io);
    FieldsBounded(w);
    LwspUnsigned(w);
  }

  lemma LwspUnsigned(w: bv32)
    ensures CImmLwsp(w) == UimmLwsp(w)
  {
  }

  /** C.FLDSP, on a word of main memory. */
  lemma FldspMeans(s: Cpu, w: bv32, io: Io)
    requires COpcode(w) == 2 && CFunct3(w) == 1
    requires 0 <= Target(s, 2, UimmLwsp(w)) && Target(s, 2, UimmLwsp(w)) + 4 <= 0x100_0000
    ensures Changes(s, Step(s, w, io), 2, CRs1(w), Is(WordAt(s, Target(s, 2, UimmLwsp(w)))))
  {
    hide *;
    var a, rd := Plus(Get(s.regs, 2), UimmLwsp(w)), CRs1(w);
    TargetIs(s, 2, UimmLwsp(w));
    ReadMeans(s, a, io);
    LwspStep(s, w, io);
    FieldsBounded(w);
    LoadedRuns(s, rd, ReadData(s, a, io));
    IsNumber(ReadData(s, a, io).value);
    SmallNumbers();
    ChangesBy(s, 2, rd, ReadData(s, a, io).value, Is(WordAt(s, Target(s, 2, UimmLwsp(w)))));
  }

  /** C.FSW stores a zero word, and rs2 behind it. */
  lemma FswMeans(s: Cpu, w: bv32, io: Io)
    requires COpcode(w) == 0 && CFunct3(w) == 7
    requires 0 <= Target(s, CRs1p(w), UimmWord(w)) && Target(s, CRs1p(w), UimmWord(w)) + 8 <= 0x100_0000
    ensures var o, a := Step(s, w, io), Target(s, CRs1p(w), UimmWord(w));
            && o.Done? && !o.breakpoint && o.cpu.pc == Plus(s.pc, 2) && KeepsOthers(s, o.cpu, 0)
            && WordAt(o.cpu, a) == 0 && WordAt(o.cpu, a + 4) == Number(s, CRs2p(w))
            && forall i | 0 <= i < SIZE && !(a <= i < a + 8) :: o.cpu.mem[i] == s.mem[i]
  {
    hide *;
    LowBitsDiffer(w);
    DecodesFloats(w);
    StepOfCompressed(s, w, io);
    CExecMemory(s, w, io);
    UnsignedWord(w);
    TargetIs(s, CRs1p(w), UimmWord(w));
    Numbers(s, CRs2p(w));
    SmallNumbers();
    PlusMeans(Plus(Get(s.regs, CRs1p(w)), UimmWord(w)), 4);
    TwoWritesMean(s, Plus(Get(s.regs, CRs1p(w)), UimmWord(w)), Get(s.regs, CRs2p(w)), io);
    CfswIs(s, w);
  }

  lemma UnsignedWord(w: bv32)
    ensures CImmL(w) == UimmWord(w)
  {
  }

  /** The two stores of C.FSW at address a. */
  function Twice(s: Cpu, a: bv32, v: bv32): Outcome {
    match WriteData(s, a, 0)
    case None => Undefined
    case Some(c) => Stored(WriteData(c, Plus(a, 4), v))
  }

  lemma CfswIs(s: Cpu, w: bv32)
    ensures ExecCFSW(s, w) == Twice(s, Plus(Get(s.regs, CRs1p(w)), CImmL(w)), Get(s.regs, CRs2p(w)))
  {
    hide Get, Plus, CRs1p, CRs2p, CImmL, WriteData, Stored;
  }

  lemma TwoWritesMean(s: Cpu, a: bv32, v: bv32, io: Io)
    requires FromBits(a) + 8 <= 0x100_0000
    ensures FromBits(Plus(a, 4)) == FromBits(a) + 4
    ensures var o := Finished(Twice(s, a, v), 2);
            && o.Done? && !o.breakpoint && o.cpu.pc == Plus(s.pc, 2) && KeepsOthers(s, o.cpu, 0)
            && WordAt(o.cpu, FromBits(a)) == 0 && WordAt(o.cpu, FromBits(a) + 4) == FromBits(v)
            && forall i | 0 <= i < SIZE && !(FromBits(a) <= i < FromBits(a) + 8) :: o.cpu.mem[i] == s.mem[i]
  {
    hide WriteData, Load, LittleEndian, FromBits, Plus, Get, ReadWord;
    SmallNumbers();
    PlusMeans(a, 4);
    var b := Plus(a, 4);
    Words.WriteDataMeans(s, a, 0, io);
    var c := WriteData(s, a, 0).value;
    Words.WriteDataMeans(c, b, v, io);
    var d := WriteData(c, b, v).value;
    LoadedWord(c.mem, FromBits(a), io.junk, io.answer);
    LoadedWord(d.mem, FromBits(b), io.junk, io.answer);
  }

  /** A word that no decoder takes stops the simulator and does nothing else. */
  lemma NobodyMeans(s: Cpu, w: bv32, io: Io)
    requires Cascade(w) == NO_EXTENSION
    ensures Step(s, w, io) == Done(s.(stopped := true), false, false)
  {
    hide Decode, CDecode, MDecode, ADecode, Exec, CExec, ExecM, Finished;
  }

  // ----- compressed words mean what their expansions mean -----

  predicate Jumping(op: BaseOp) {
    op == OP_JAL || op == OP_JALR || op == OP_BEQ || op == OP_BNE
  }

  lemma LengthMatters(s: Cpu, op: BaseOp, w: bv32, io: Io)
    ensures !Jumping(op) ==> Exec(s, op, w, 2, io) == Exec(s, op, w, 4, io)
  {
    hide ExecADD, ExecSUB, ExecXOR, ExecOR, ExecAND, ExecADDI, ExecANDI, ExecSLLI, ExecSRLI, ExecSRAI, ExecLUI;
    hide ExecJAL, ExecJALR, ExecBEQ, ExecBNE, ExecLW, ExecSW, ExecEBREAK;
  }

  lemma ShorterStep(s: Cpu, o: Outcome, rd: bv32, P: bv32 -> bool)
    requires o.Done? && o.pcNotAffected && Changes(s, Finished(o, 4), 4, rd, P)
    ensures Changes(s, Finished(o, 2), 2, rd, P)
  {
    hide Plus, FromBits, Get;
    SmallNumbers();
    PlusMeans(o.cpu.pc, 4);
    PlusMeans(o.cpu.pc, 2);
  }

  lemma BreakpointsAffectPc(s: Cpu, w: bv32, io: Io)
    ensures CExec(s, OP_C_EBREAK, w, io).Done? && !CExec(s, OP_C_EBREAK, w, io).pcNotAffected
  {
    hide Raised;
  }

  lemma AlikeRuns(s: Cpu, w: bv32, io: Io, o: Outcome)
    requires Expand(w).Some? && o == Exec(s, Decode(Expand(w).value), Expand(w).value, 2, io)
    requires o.Done? && o.pcNotAffected
    ensures Step(s, w, io) == Finished(o, 2)
  {
    hide Expand, CExec, Exec, CDecode, Decode, COpcode, Step, Finished;
    ExpandedIsShort(w);
    CompressedRefinesBase(s, w, io);
    BreakpointsAffectPc(s, w, io);
    ExpansionIsExactly(s, w, io);
    ErrorIsUnmodelled(s, w, io);
    StepOfCompressed(s, w, io);
  }

  lemma ExpandedIsShort(w: bv32)
    ensures Expand(w).Some? ==> COpcode(w) == 0 || COpcode(w) == 1 || COpcode(w) == 2
  {
    hide COpcode, Expand0, Expand1, Expand2;
  }

  /** What is true of rd after the expansion of a compressed word is true after the word itself, with
      the PC two bytes on instead of four; JAL, JALR, BEQ and BNE, whose length is what they link or skip,
      and exceptions aside. */
  lemma CompressedMeans(s: Cpu, w: bv32, io: Io, rd: bv32, P: bv32 -> bool)
    requires Expand(w).Some?
    requires var e := Expand(w).value;
             var o := Exec(s, Decode(e), e, 4, io);
             !Jumping(Decode(e)) && o.Done? && o.pcNotAffected && Leaves(s, e, io, rd, P)
    ensures Changes(s, Step(s, w, io), 2, rd, P)
  {
    hide Expand, Exec, Decode, Step, Finished, Changes, Jumping, Leaves;
    var e := Expand(w).value;
    var o := Exec(s, Decode(e), e, 4, io);
    LengthMatters(s, Decode(e), e, io);
    LeavesIs(s, e, io, rd, P);
    DoneIsDecoded(s, Decode(e), e, io);
    StepOfBase(s, e, io);
    ShorterStep(s, o, rd, P);
    AlikeRuns(s, w, io, o);
  }

  lemma DoneIsDecoded(s: Cpu, op: BaseOp, w: bv32, io: Io)
    ensures Exec(s, op, w, 4, io).Done? ==> op != OP_ERROR
  {
  }
}
