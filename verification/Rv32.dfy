/** One step of the RV32 processor (src/RV32.cpp): the four decoders are asked in turn, base
 *  first; src/Instruction.cpp says which extension a word belongs to. */
module Rv32 {
  import opened MemoryBus
  import opened BaseIsa
  import opened CompressedIsa
  import opened Expansion
  import opened Wrappers
  import MExtension

  // ----- the M and A decoders -----

  datatype MOp =
    | OP_M_MUL | OP_M_MULH | OP_M_MULHSU | OP_M_MULHU | OP_M_DIV | OP_M_DIVU | OP_M_REM | OP_M_REMU
    | OP_M_MULW | OP_M_DIVW | OP_M_DIVUW | OP_M_REMW | OP_M_REMUW | OP_M_ERROR

  function MDecodeOp(f3: bv32): MOp {
    if f3 == 0 then OP_M_MUL else if f3 == 1 then OP_M_MULH else if f3 == 2 then OP_M_MULHSU
    else if f3 == 3 then OP_M_MULHU
    else if f3 == 4 then OP_M_DIV else if f3 == 5 then OP_M_DIVU else if f3 == 6 then OP_M_REM else OP_M_REMU
  }

  function MDecodeOther(f3: bv32): MOp {
    if f3 == 0 then OP_M_MULW else if f3 == 4 then OP_M_DIVW else if f3 == 5 then OP_M_DIVUW
    else if f3 == 6 then OP_M_REMW else if f3 == 7 then OP_M_REMUW else OP_M_ERROR
  }

  /** M_extension::decode, which looks at the opcode only to tell OP from everything else. */
  function MDecode(w: bv32): MOp {
    if Opcode(w) == 0x33 then MDecodeOp(Funct3(w)) else MDecodeOther(Funct3(w))
  }

  datatype AOp =
    | OP_A_LR | OP_A_SC | OP_A_AMOSWAP | OP_A_AMOADD | OP_A_AMOXOR | OP_A_AMOAND | OP_A_AMOOR
    | OP_A_AMOMIN | OP_A_AMOMAX | OP_A_AMOMINU | OP_A_AMOMAXU | OP_A_ERROR

  function Funct5(w: bv32): bv32 { w >> 27 }

  /** A_extension::decode, which looks at no opcode at all. */
  function ADecode(w: bv32): AOp {
    var f5 := Funct5(w);
    if f5 == 2 then OP_A_LR else if f5 == 3 then OP_A_SC else if f5 == 1 then OP_A_AMOSWAP
    else if f5 == 0 then OP_A_AMOADD
    else if f5 == 4 then OP_A_AMOXOR else if f5 == 12 then OP_A_AMOAND else if f5 == 8 then OP_A_AMOOR
    else if f5 == 16 then OP_A_AMOMIN else if f5 == 20 then OP_A_AMOMAX else if f5 == 24 then OP_A_AMOMINU
    else if f5 == 28 then OP_A_AMOMAXU else OP_A_ERROR
  }

  // ----- which extension a word belongs to -----

  datatype Extension = BASE_EXTENSION | M_EXTENSION | A_EXTENSION | C_EXTENSION | NO_EXTENSION

  /** Instruction::check_extension.  The mask leaves out bit 31 of funct7. */
  function CheckExtension(w: bv32): Extension {
    if (Opcode(w) == 0x33 || Opcode(w) == 0x3b) && MField(w) == 1 then M_EXTENSION
    else if Opcode(w) == 0x2f then A_EXTENSION
    else if COpcode(w) != 3 then C_EXTENSION
    else BASE_EXTENSION
  }

  function MField(w: bv32): bv32 { (w & 0x7f00_0000) >> 25 }

  /** The decoder that accepts a word first in CPU_step. */
  function Cascade(w: bv32): Extension {
    if Decode(w) != OP_ERROR then BASE_EXTENSION
    else if CDecode(w) != OP_C_ERROR then C_EXTENSION
    else if MDecode(w) != OP_M_ERROR then M_EXTENSION
    else if ADecode(w) != OP_A_ERROR then A_EXTENSION
    else NO_EXTENSION
  }

  lemma OpcodeLowBits(w: bv32)
    ensures COpcode(w) == Opcode(w) & 3 && COpcode(w) < 4
  {
  }

  lemma MajorLowBits(op: bv32)
    ensures op & 3 != 3 ==> MajorOf(op) == OtherMajor
  {
  }

  /** Only words with low bits 11 are base instructions, and no such word is a compressed one. */
  lemma BaseAndCompressedApart(w: bv32)
    ensures Decode(w) != OP_ERROR ==> COpcode(w) == 3
    ensures CDecode(w) != OP_C_ERROR ==> COpcode(w) != 3
  {
    hide Opcode, COpcode, Funct3, Funct7, Top6, Csr, MajorOf, CDecode0, CDecode1, CDecode2;
    hide DecodeBranch, DecodeLoad, DecodeStore, DecodeOpImm, DecodeOp, DecodeSystem, DecodeOpImm32, DecodeOp32;
    OpcodeLowBits(w);
    MajorLowBits(Opcode(w));
  }

  lemma MFieldIsFunct7(w: bv32)
    requires MField(w) == 1
    ensures Funct7(w) == 1 || Funct7(w) == 0x41
  {
  }

  // ----- words that no decoder before M accepts -----

  // The unused minor opcodes of each major one.

  predicate BranchHole(f3: bv32) { f3 == 2 || f3 == 3 }

  predicate LoadHole(f3: bv32) { f3 == 7 }

  predicate StoreHole(f3: bv32) { f3 >= 4 }

  predicate OpImmHole(f3: bv32, top6: bv32) { f3 == 5 && top6 != 0 && top6 != 0x10 }

  predicate OpHole(f7: bv32) { f7 != 0 && f7 != 0x20 }

  predicate SystemHole(f3: bv32, csr: bv32, f7: bv32) {
    f3 == 4 || (f3 == 0 && f7 != 9 && csr !in {0, 1, 2, 9, 0x102, 0x105, 0x302})
  }

  predicate OpImm32Hole(f3: bv32, top6: bv32) {
    !(f3 == 0 || f3 == 1 || (f3 == 5 && (top6 == 0 || top6 == 0x10)))
  }

  predicate Op32Hole(f3: bv32, f7: bv32) {
    !((f7 == 0 || f7 == 0x20) && (f3 == 0 || f3 == 1 || f3 == 5))
  }

  /** The 32-bit words that are no base instruction, by their fields: an unused major opcode, or an
      unused minor one. */
  predicate BaseHole(major: Major, f3: bv32, f7: bv32, top6: bv32, csr: bv32) {
    match major
    case BranchMajor => BranchHole(f3)
    case LoadMajor => LoadHole(f3)
    case StoreMajor => StoreHole(f3)
    case ImmMajor => OpImmHole(f3, top6)
    case RegMajor => OpHole(f7)
    case SystemMajor => SystemHole(f3, csr, f7)
    case Imm32Major => OpImm32Hole(f3, top6)
    case Reg32Major => Op32Hole(f3, f7)
    case OtherMajor => true
    case _ => false
  }

  /** The 16-bit words that are no compressed instruction: two reserved values of funct3. */
  predicate CompressedHole(quadrant: bv32, f3: bv32) {
    (quadrant == 0 && f3 == 4) || (quadrant == 2 && f3 == 5)
  }

  predicate Hole(w: bv32) {
    if COpcode(w) == 3 then BaseHole(MajorOf(Opcode(w)), Funct3(w), Funct7(w), Top6(w), Csr(w))
    else CompressedHole(COpcode(w), CFunct3(w))
  }

  predicate Octal(f3: bv32) {
    f3 == 0 || f3 == 1 || f3 == 2 || f3 == 3 || f3 == 4 || f3 == 5 || f3 == 6 || f3 == 7
  }

  lemma FieldFacts(w: bv32)
    ensures Octal(Funct3(w)) && Octal(CFunct3(w))
    ensures COpcode(w) == 0 || COpcode(w) == 1 || COpcode(w) == 2 || COpcode(w) == 3
    ensures Funct7(w) == 0 ==> Top6(w) == 0
    ensures Funct7(w) == 0x20 ==> Top6(w) == 0x10
  {
  }

  lemma BranchHoles(f3: bv32, f7: bv32, csr: bv32)
    requires Octal(f3)
    ensures IsError(DecodeBranch(f3)) <==> BranchHole(f3)
    ensures IsError(DecodeLoad(f3)) <==> LoadHole(f3)
    ensures IsError(DecodeStore(f3)) <==> StoreHole(f3)
    ensures IsError(DecodeSystem(f3, csr, f7)) <==> SystemHole(f3, csr, f7)
  {
  }

  lemma OpHoles(f3: bv32, f7: bv32, top6: bv32)
    requires Octal(f3) && (f7 == 0 ==> top6 == 0) && (f7 == 0x20 ==> top6 == 0x10)
    ensures IsError(DecodeOpImm(f3, top6)) <==> OpImmHole(f3, top6)
    ensures IsError(DecodeOp(f3, f7)) <==> OpHole(f7)
    ensures IsError(DecodeOpImm32(f3, top6)) <==> OpImm32Hole(f3, top6)
    ensures IsError(DecodeOp32(f3, f7, top6)) <==> Op32Hole(f3, f7)
  {
  }

  lemma CompressedHoles(w: bv32)
    requires Octal(CFunct3(w))
    ensures CDecode(w) == OP_C_ERROR <==> COpcode(w) !in {0, 1, 2} || CompressedHole(COpcode(w), CFunct3(w))
  {
    hide COpcode, CFunct3, CFunct2, CFunct2b, CBit12, CLow5, CMid10;
  }

  predicate IsError(op: BaseOp) { op == OP_ERROR }

  lemma MinorHoles(w: bv32)
    ensures var f3, f7, top6, csr := Funct3(w), Funct7(w), Top6(w), Csr(w);
            && (IsError(DecodeBranch(f3)) <==> BranchHole(f3))
            && (IsError(DecodeLoad(f3)) <==> LoadHole(f3))
            && (IsError(DecodeStore(f3)) <==> StoreHole(f3))
            && (IsError(DecodeSystem(f3, csr, f7)) <==> SystemHole(f3, csr, f7))
            && (IsError(DecodeOpImm(f3, top6)) <==> OpImmHole(f3, top6))
            && (IsError(DecodeOp(f3, f7)) <==> OpHole(f7))
            && (IsError(DecodeOpImm32(f3, top6)) <==> OpImm32Hole(f3, top6))
            && (IsError(DecodeOp32(f3, f7, top6)) <==> Op32Hole(f3, f7))
  {
    hide *;
    FieldFacts(w);
    BranchHoles(Funct3(w), Funct7(w), Csr(w));
    OpHoles(Funct3(w), Funct7(w), Top6(w));
  }

  lemma PlainMajors()
    ensures !IsError(OP_LUI) && !IsError(OP_AUIPC) && !IsError(OP_JAL) && !IsError(OP_JALR) && !IsError(OP_FENCE)
    ensures IsError(OP_ERROR)
  {
  }

  lemma BaseHoles(w: bv32)
    ensures IsError(Decode(w)) <==> BaseHole(MajorOf(Opcode(w)), Funct3(w), Funct7(w), Top6(w), Csr(w))
  {
    hide IsError, Opcode, MajorOf, Funct3, Funct7, Top6, Csr;
    hide DecodeBranch, DecodeLoad, DecodeStore, DecodeOpImm, DecodeOp, DecodeSystem, DecodeOpImm32, DecodeOp32;
    hide BranchHole, LoadHole, StoreHole, OpImmHole, OpHole, SystemHole, OpImm32Hole, Op32Hole;
    MinorHoles(w);
    PlainMajors();
  }

  lemma UndecodedExactly(w: bv32)
    ensures Decode(w) == OP_ERROR && CDecode(w) == OP_C_ERROR <==> Hole(w)
  {
    hide Opcode, COpcode, Funct3, Funct7, Top6, Csr, CFunct3, Decode, CDecode, Octal, BaseHole;
    FieldFacts(w);
    BaseAndCompressedApart(w);
    BaseHoles(w);
    CompressedHoles(w);
  }

  predicate WordForm(f3: bv32) {
    f3 == 0 || f3 == 4 || f3 == 5 || f3 == 6 || f3 == 7
  }

  predicate AmoForm(f5: bv32) {
    f5 < 5 || f5 == 8 || f5 == 12 || f5 == 16 || f5 == 20 || f5 == 24 || f5 == 28
  }

  lemma MTakesExactly(w: bv32)
    ensures MDecode(w) != OP_M_ERROR <==> Opcode(w) == 0x33 || WordForm(Funct3(w))
  {
    hide Opcode, Funct3;
  }

  lemma ATakesExactly(w: bv32)
    ensures ADecode(w) != OP_A_ERROR <==> AmoForm(Funct5(w))
  {
    hide Funct5;
    SmallFunct5(Funct5(w));
  }

  lemma SmallFunct5(f5: bv32)
    ensures f5 < 5 <==> f5 == 0 || f5 == 1 || f5 == 2 || f5 == 3 || f5 == 4
  {
  }

  /** Who takes a word, by its fields.  M and A take words of any major opcode that base and C leave. */
  lemma CascadeExactly(w: bv32)
    ensures Cascade(w) == BASE_EXTENSION <==> COpcode(w) == 3 && !Hole(w)
    ensures Cascade(w) == C_EXTENSION <==> COpcode(w) != 3 && !Hole(w)
    ensures Cascade(w) == M_EXTENSION <==> Hole(w) && (Opcode(w) == 0x33 || WordForm(Funct3(w)))
    ensures Cascade(w) == A_EXTENSION <==>
            Hole(w) && !(Opcode(w) == 0x33 || WordForm(Funct3(w))) && AmoForm(Funct5(w))
    ensures Cascade(w) == NO_EXTENSION <==>
            Hole(w) && !(Opcode(w) == 0x33 || WordForm(Funct3(w))) && !AmoForm(Funct5(w))
  {
    hide Opcode, COpcode, Funct3, Decode, CDecode, MDecode, ADecode, Funct5, Hole, WordForm, AmoForm;
    BaseAndCompressedApart(w);
    UndecodedExactly(w);
    MTakesExactly(w);
    ATakesExactly(w);
  }

  /** When the cascade takes a word for what check_extension says it is. */
  predicate Recognised(w: bv32) {
    match CheckExtension(w)
    case M_EXTENSION => Opcode(w) == 0x33 || WordForm(Funct3(w))
    case A_EXTENSION => !WordForm(Funct3(w)) && AmoForm(Funct5(w))
    case _ => !Hole(w)
  }

  lemma MAndAAreHoles(w: bv32)
    requires CheckExtension(w) == M_EXTENSION || CheckExtension(w) == A_EXTENSION
    ensures Hole(w) && COpcode(w) == 3
  {
    hide Opcode, COpcode, Funct3, Funct7, MField, Csr, CFunct3;
    OpcodeLowBits(w);
    if MField(w) == 1 {
      MFieldIsFunct7(w);
    }
  }

  /** So every OP word that belongs to M is taken by M, and an AMO word with funct3 010 by A.  But an
      OP-32 word of M with a wrong funct3 goes on to the A decoder, an AMO word with one to M, and the
      undecodable base and compressed words to either. */
  lemma CascadeAgreesExactly(w: bv32)
    ensures Cascade(w) == CheckExtension(w) <==> Recognised(w)
  {
    hide Opcode, COpcode, Funct3, Funct5, MField, Cascade, Hole, WordForm, AmoForm;
    CascadeExactly(w);
    OpcodeLowBits(w);
    if CheckExtension(w) == M_EXTENSION || CheckExtension(w) == A_EXTENSION {
      MAndAAreHoles(w);
    }
  }

  /** So the two agree on every word that base or C decodes. */
  lemma DecodedWordsAgree(w: bv32)
    ensures Decode(w) != OP_ERROR ==> Cascade(w) == CheckExtension(w) == BASE_EXTENSION
    ensures CDecode(w) != OP_C_ERROR ==> Cascade(w) == CheckExtension(w) == C_EXTENSION
  {
    hide Opcode, COpcode, Funct3, Funct5, MField, Cascade, Hole, WordForm, AmoForm, Decode, CDecode;
    CascadeExactly(w);
    UndecodedExactly(w);
    BaseAndCompressedApart(w);
    OpcodeLowBits(w);
    if CheckExtension(w) == M_EXTENSION || CheckExtension(w) == A_EXTENSION {
      MAndAAreHoles(w);
    }
  }

  /** The words of A for RV32: major opcode AMO, funct3 010 and one of eleven values of funct5. */
  lemma AmoWordsAgree(w: bv32)
    requires Opcode(w) == 0x2f && Funct3(w) == 2
    ensures Funct5(w) in {0, 1, 2, 3, 4, 8, 12, 16, 20, 24, 28} <==> ADecode(w) != OP_A_ERROR
    ensures Funct5(w) in {0, 1, 2, 3, 4, 8, 12, 16, 20, 24, 28} ==> Cascade(w) == CheckExtension(w) == A_EXTENSION
  {
    hide Opcode, COpcode, Funct3, Funct5, Cascade, Hole, ADecode;
    AmoIsA(w);
    CascadeExactly(w);
    ATakesExactly(w);
    SmallFunct5(Funct5(w));
    MAndAAreHoles(w);
  }

  /** The words of M for RV32, and those of OP-32 that have an operation. */
  lemma MultiplyWordsAgree(w: bv32)
    requires Funct7(w) == 1 && (Opcode(w) == 0x33 || (Opcode(w) == 0x3b && Funct3(w) in {0, 4, 5, 6, 7}))
    ensures Cascade(w) == CheckExtension(w) == M_EXTENSION
  {
    hide Opcode, COpcode, Funct3, Funct5, Funct7, MField, Cascade, Hole, AmoForm;
    Funct7IsMField(w);
    CascadeAgreesExactly(w);
  }

  lemma Funct7IsMField(w: bv32)
    ensures Funct7(w) == 1 ==> MField(w) == 1
  {
  }

  lemma AmoIsA(w: bv32)
    ensures Opcode(w) == 0x2f ==> CheckExtension(w) == A_EXTENSION
  {
    hide Opcode;
  }

  /** And what they are decoded as. */
  lemma AmoTable(w: bv32)
    ensures Funct5(w) == 2 ==> ADecode(w) == OP_A_LR
    ensures Funct5(w) == 3 ==> ADecode(w) == OP_A_SC
    ensures Funct5(w) == 1 ==> ADecode(w) == OP_A_AMOSWAP
    ensures Funct5(w) == 0 ==> ADecode(w) == OP_A_AMOADD
    ensures Funct5(w) == 4 ==> ADecode(w) == OP_A_AMOXOR
    ensures Funct5(w) == 12 ==> ADecode(w) == OP_A_AMOAND
    ensures Funct5(w) == 8 ==> ADecode(w) == OP_A_AMOOR
    ensures Funct5(w) == 16 ==> ADecode(w) == OP_A_AMOMIN
    ensures Funct5(w) == 20 ==> ADecode(w) == OP_A_AMOMAX
    ensures Funct5(w) == 24 ==> ADecode(w) == OP_A_AMOMINU
    ensures Funct5(w) == 28 ==> ADecode(w) == OP_A_AMOMAXU
  {
    hide Funct5;
  }

  /** An OP-32 word with funct7 0000001 and funct3 001 is executed as AMOADD. */
  lemma Op32TakenForAmo()
    ensures CheckExtension(0x0200_103b) == M_EXTENSION && Cascade(0x0200_103b) == A_EXTENSION
    ensures ADecode(0x0200_103b) == OP_A_AMOADD
  {
  }

  /** Undecodable words that belong to base or C: a branch with funct3 010 is executed as AMOADD,
      an unused major opcode and a reserved compressed word as MULW. */
  lemma BranchTakenForAmo()
    ensures CheckExtension(0x0000_2063) == BASE_EXTENSION && Cascade(0x0000_2063) == A_EXTENSION
    ensures ADecode(0x0000_2063) == OP_A_AMOADD
  {
  }

  lemma UnusedOpcodeTakenForMulw()
    ensures CheckExtension(0x0000_0007) == BASE_EXTENSION && Cascade(0x0000_0007) == M_EXTENSION
    ensures MDecode(0x0000_0007) == OP_M_MULW
  {
  }

  lemma CompressedTakenForMulw()
    ensures CheckExtension(0x0000_8000) == C_EXTENSION && Cascade(0x0000_8000) == M_EXTENSION
    ensures MDecode(0x0000_8000) == OP_M_MULW
  {
  }

  // ----- one step -----

  /** What an M operation computes from its operands. */
  function MResult(op: MOp, a: word, b: word): word {
    match op
    case OP_M_MUL => MExtension.Mul32(a, b)
    case OP_M_MULH => MExtension.Mulh32(a, b)
    case OP_M_MULHSU => MExtension.Mulhsu32(a, b)
    case OP_M_MULHU => MExtension.Mulhu32(a, b)
    case OP_M_DIV => MExtension.Div32(a, b)
    case OP_M_DIVU => MExtension.Divu32(a, b)
    case OP_M_REM => MExtension.Rem32(a, b)
    case OP_M_REMU => MExtension.Remu32(a, b)
    case OP_M_MULW => MExtension.Mulw32(a, b)
    case OP_M_DIVW => MExtension.Div32(a, b)
    case OP_M_DIVUW => MExtension.Divuw32(a, b)
    case OP_M_REMW => MExtension.Remw32(a, b)
    case OP_M_REMUW => MExtension.Remu32(a, b)
    case OP_M_ERROR => 0
  }

  /** What the M instruction w writes to rd. */
  function MValue(s: Cpu, op: MOp, w: bv32): bv32 {
    ToBits(MResult(op, FromBits(Get(s.regs, Rs1(w))), FromBits(Get(s.regs, Rs2(w)))))
  }

  /** M_extension::exec_instruction; OP_M_ERROR never gets there. */
  function ExecM(s: Cpu, op: MOp, w: bv32): Outcome {
    Runs(SetReg(s, Rd(w), MValue(s, op, w)))
  }

  /** Nobody has taken the word: the simulator stops, and the PC stays. */
  function Untaken(s: Cpu): Outcome {
    Jumps(s.(stopped := true))
  }

  /** CPURV32::CPU_step after fetching w; what A instructions do is modelled elsewhere. */
  function Step(s: Cpu, w: bv32, io: Io): Outcome {
    if Decode(w) != OP_ERROR then Finished(Exec(s, Decode(w), w, 4, io), 4)
    else if CDecode(w) != OP_C_ERROR then Finished(CExec(s, CDecode(w), w, io), 2)
    else if MDecode(w) != OP_M_ERROR then Finished(ExecM(s, MDecode(w), w), 4)
    else if ADecode(w) != OP_A_ERROR then Unmodelled
    else Untaken(s)
  }

  predicate SameResult(a: Outcome, b: Outcome) {
    (a.Done? && b.Done? && a.cpu == b.cpu) || (a.Undefined? && b.Undefined?)
  }

  /** Fetching a legal compressed instruction, whatever follows it in the upper half-word, has the
      effect of its expansion with length 2 instead of 4. */
  lemma StepRefinesExpansion(s: Cpu, w: bv32, io: Io)
    requires Expand(w).Some?
    ensures var e := Expand(w).value; SameResult(Step(s, w, io), Finished(Exec(s, Decode(e), e, 2, io), 2))
  {
    hide Decode, Exec, CExec, COpcode, Expand0, Expand1, Expand2, MDecode, ADecode, ExecM;
    CompressedRefinesBase(s, w, io);
    BaseAndCompressedApart(w);
    if CDecode(w) == OP_C_ERROR {
      assert CExec(s, CDecode(w), w, io) == Unmodelled by {
        ErrorIsUnmodelled(s, w, io);
      }
    }
  }

  lemma ErrorIsUnmodelled(s: Cpu, w: bv32, io: Io)
    ensures CExec(s, OP_C_ERROR, w, io) == Unmodelled
  {
  }

  // ----- the upper half-word -----

  predicate SameHalf(w: bv32, v: bv32) { w & 0xffff == v & 0xffff }

  lemma SameDecoderFields(w: bv32, v: bv32)
    requires SameHalf(w, v)
    ensures COpcode(w) == COpcode(v) && CFunct3(w) == CFunct3(v) && CFunct2(w) == CFunct2(v)
            && CFunct2b(w) == CFunct2b(v)
    ensures CBit12(w) == CBit12(v) && CLow5(w) == CLow5(v) && CMid10(w) == CMid10(v)
  {
  }

  lemma SameFields(w: bv32, v: bv32)
    requires SameHalf(w, v)
    ensures Rd(w) == Rd(v) && CRs1(w) == CRs1(v) && CRs2(w) == CRs2(v)
    ensures CRdp(w) == CRdp(v) && CRs1p(w) == CRs1p(v) && CRs2p(w) == CRs2p(v)
  {
  }

  lemma SameImmediates(w: bv32, v: bv32)
    requires SameHalf(w, v)
    ensures CImmL(w) == CImmL(v) && CImmLwsp(w) == CImmLwsp(v) && CImmCss(w) == CImmCss(v)
    ensures CImmAddi4spn(w) == CImmAddi4spn(v)
  {
  }

  lemma SameSignedImmediates(w: bv32, v: bv32)
    requires SameHalf(w, v)
    ensures CImmAddi(w) == CImmAddi(v) && CImmAddi16sp(w) == CImmAddi16sp(v) && CImmLui(w) == CImmLui(v)
  {
  }

  lemma SameJumpOffset(w: bv32, v: bv32)
    requires SameHalf(w, v)
    ensures CImmJ(w) == CImmJ(v)
  {
  }

  lemma SameBranchOffset(w: bv32, v: bv32)
    requires SameHalf(w, v)
    ensures CImmCb(w) == CImmCb(v)
  {
  }

  predicate ZeroSpn(w: bv32) { CImmAddi4spn(w) == 0 }

  /** The all-zero immediate of C.ADDI4SPN, which is an illegal instruction. */
  predicate IllegalSpn(w: bv32) {
    CDecode(w) == OP_C_ADDI4SPN && ZeroSpn(w)
  }

  lemma SameMoves(s: Cpu, w: bv32, v: bv32)
    requires SameHalf(w, v)
    ensures ExecCADDI(s, w) == ExecCADDI(s, v)
    ensures ExecCLI(s, w) == ExecCLI(s, v)
    ensures ExecCADDI16SP(s, w) == ExecCADDI16SP(s, v)
    ensures ExecCMV(s, w) == ExecCMV(s, v)
    ensures ExecCADD(s, w) == ExecCADD(s, v)
    ensures ExecCJR(s, w) == ExecCJR(s, v)
    ensures ExecCJALR(s, w) == ExecCJALR(s, v)
    ensures ExecCEBREAK(s, w) == ExecCEBREAK(s, v)
  {
    hide Rd, CRs1, CRs2, CRdp, CRs1p, CRs2p, Get, Set, Plus, Minus, BitAnd, BitOr, BitXor, Even, Sll, Srl, Sra;
    hide CImmJ, CImmL, CImmLwsp, CImmAddi, CImmAddi4spn, CImmAddi16sp, CImmCss, CImmCb, CImmLui, ReadData, WriteData;
    hide SameHalf, ShiftDefined;
    SameFields(w, v);
    SameImmediates(w, v);
    SameSignedImmediates(w, v);
  }

  lemma SameShifts(s: Cpu, w: bv32, v: bv32)
    requires SameHalf(w, v)
    ensures ExecCSRLI(s, w) == ExecCSRLI(s, v)
    ensures ExecCSRAI(s, w) == ExecCSRAI(s, v)
    ensures ExecCSLLI(s, w) == ExecCSLLI(s, v)
  {
    hide Rd, CRs1, CRs2, CRdp, CRs1p, CRs2p, Get, Set, Plus, Minus, BitAnd, BitOr, BitXor, Even, Sll, Srl, Sra;
    hide CImmJ, CImmL, CImmLwsp, CImmAddi, CImmAddi4spn, CImmAddi16sp, CImmCss, CImmCb, CImmLui, ReadData, WriteData;
    hide SameHalf, ShiftDefined;
    SameFields(w, v);
    SameImmediates(w, v);
    SameSignedImmediates(w, v);
  }

  lemma SameArithmetic(s: Cpu, w: bv32, v: bv32)
    requires SameHalf(w, v)
    ensures ExecCANDI(s, w) == ExecCANDI(s, v)
    ensures ExecCSUB(s, w) == ExecCSUB(s, v)
    ensures ExecCXOR(s, w) == ExecCXOR(s, v)
    ensures ExecCOR(s, w) == ExecCOR(s, v)
    ensures ExecCAND(s, w) == ExecCAND(s, v)
  {
    hide Rd, CRs1, CRs2, CRdp, CRs1p, CRs2p, Get, Set, Plus, Minus, BitAnd, BitOr, BitXor, Even, Sll, Srl, Sra;
    hide CImmJ, CImmL, CImmLwsp, CImmAddi, CImmAddi4spn, CImmAddi16sp, CImmCss, CImmCb, CImmLui, ReadData, WriteData;
    hide SameHalf, ShiftDefined;
    SameFields(w, v);
    SameImmediates(w, v);
    SameSignedImmediates(w, v);
  }

  lemma SameWide(s: Cpu, w: bv32, v: bv32)
    requires SameHalf(w, v)
    ensures ExecCSUBW(s, w) == ExecCSUBW(s, v)
    ensures ExecCADDW(s, w) == ExecCADDW(s, v)
    ensures ExecCFSW(s, w) == ExecCFSW(s, v)
  {
    hide Rd, CRs1, CRs2, CRdp, CRs1p, CRs2p, Get, Set, Plus, Minus, BitAnd, BitOr, BitXor, Even, Sll, Srl, Sra;
    hide CImmJ, CImmL, CImmLwsp, CImmAddi, CImmAddi4spn, CImmAddi16sp, CImmCss, CImmCb, CImmLui, ReadData, WriteData;
    hide SameHalf, ShiftDefined;
    SameFields(w, v);
    SameImmediates(w, v);
  }

  lemma SameAccesses(s: Cpu, w: bv32, v: bv32, io: Io)
    requires SameHalf(w, v)
    ensures ExecCLW(s, w, io) == ExecCLW(s, v, io)
    ensures ExecCSW(s, w) == ExecCSW(s, v)
    ensures ExecCLWSP(s, w, io) == ExecCLWSP(s, v, io)
    ensures ExecCSWSP(s, w) == ExecCSWSP(s, v)
  {
    hide Rd, CRs1, CRs2, CRdp, CRs1p, CRs2p, Get, Set, Plus, Minus, BitAnd, BitOr, BitXor, Even, Sll, Srl, Sra;
    hide CImmJ, CImmL, CImmLwsp, CImmAddi, CImmAddi4spn, CImmAddi16sp, CImmCss, CImmCb, CImmLui, ReadData, WriteData;
    hide SameHalf, ShiftDefined;
    SameFields(w, v);
    SameImmediates(w, v);
    SameSignedImmediates(w, v);
  }

  lemma SameJumps(s: Cpu, w: bv32, v: bv32, rd: bv32)
    requires SameHalf(w, v)
    ensures ExecCJAL(s, w, rd) == ExecCJAL(s, v, rd)
    ensures ExecCBEQZ(s, w) == ExecCBEQZ(s, v)
    ensures ExecCBNEZ(s, w) == ExecCBNEZ(s, v)
  {
    hide Rd, CRs1, CRs2, CRdp, CRs1p, CRs2p, Get, Set, Plus, Minus, BitAnd, BitOr, BitXor, Even, Sll, Srl, Sra;
    hide CImmJ, CImmL, CImmLwsp, CImmAddi, CImmAddi4spn, CImmAddi16sp, CImmCss, CImmCb, CImmLui, ReadData, WriteData;
    hide SameHalf, ShiftDefined;
    SameFields(w, v);
    SameJumpOffset(w, v);
    SameBranchOffset(w, v);
  }

  lemma SameSpn(s: Cpu, w: bv32, v: bv32)
    requires SameHalf(w, v) && !ZeroSpn(w)
    ensures ExecCADDI4SPN(s, w) == ExecCADDI4SPN(s, v)
  {
    hide CRdp, Get, Set, Plus, CImmAddi4spn, SameHalf;
    SameFields(w, v);
    SameImmediates(w, v);
  }

  /** w and v are executed alike, whatever the instruction. */
  ghost predicate SameEffects(s: Cpu, w: bv32, v: bv32, io: Io) {
    && ExecCLW(s, w, io) == ExecCLW(s, v, io) && ExecCSW(s, w) == ExecCSW(s, v)
    && ExecCLWSP(s, w, io) == ExecCLWSP(s, v, io) && ExecCSWSP(s, w) == ExecCSWSP(s, v)
    && ExecCJAL(s, w, 1) == ExecCJAL(s, v, 1) && ExecCJAL(s, w, 0) == ExecCJAL(s, v, 0)
    && ExecCBEQZ(s, w) == ExecCBEQZ(s, v) && ExecCBNEZ(s, w) == ExecCBNEZ(s, v)
    && ExecCSRLI(s, w) == ExecCSRLI(s, v) && ExecCSRAI(s, w) == ExecCSRAI(s, v) && ExecCSLLI(s, w) == ExecCSLLI(s, v)
    && ExecCANDI(s, w) == ExecCANDI(s, v) && ExecCSUB(s, w) == ExecCSUB(s, v) && ExecCXOR(s, w) == ExecCXOR(s, v)
    && ExecCOR(s, w) == ExecCOR(s, v) && ExecCAND(s, w) == ExecCAND(s, v)
    && ExecCADDI(s, w) == ExecCADDI(s, v) && ExecCLI(s, w) == ExecCLI(s, v)
    && ExecCADDI16SP(s, w) == ExecCADDI16SP(s, v) && ExecCMV(s, w) == ExecCMV(s, v) && ExecCADD(s, w) == ExecCADD(s, v)
    && ExecCJR(s, w) == ExecCJR(s, v) && ExecCJALR(s, w) == ExecCJALR(s, v) && ExecCEBREAK(s, w) == ExecCEBREAK(s, v)
    && ExecCSUBW(s, w) == ExecCSUBW(s, v) && ExecCADDW(s, w) == ExecCADDW(s, v) && ExecCFSW(s, w) == ExecCFSW(s, v)
  }

  lemma SameEffect(s: Cpu, w: bv32, v: bv32, io: Io)
    requires SameHalf(w, v)
    ensures SameEffects(s, w, v, io)
  {
    hide SameHalf;
    hide ExecCLW, ExecCSW, ExecCADDI, ExecCJAL, ExecCLI, ExecCADDI16SP, ExecCSRLI, ExecCSRAI;
    hide ExecCANDI, ExecCSUB, ExecCXOR, ExecCOR, ExecCAND, ExecCBEQZ, ExecCBNEZ, ExecCSLLI, ExecCLWSP, ExecCJR;
    hide ExecCMV, ExecCEBREAK, ExecCJALR, ExecCADD, ExecCSWSP, ExecCSUBW, ExecCADDW, ExecCFSW;
    SameAccesses(s, w, v, io);
    SameJumps(s, w, v, 1);
    SameJumps(s, w, v, 0);
    SameShifts(s, w, v);
    SameArithmetic(s, w, v);
    SameMoves(s, w, v);
    SameWide(s, w, v);
  }

  lemma SameChoice(s: Cpu, op: COp, w: bv32, v: bv32, io: Io)
    requires SameEffects(s, w, v, io) && op != OP_C_ADDI4SPN
    ensures CExec(s, op, w, io) == CExec(s, op, v, io)
  {
    hide ExecCADDI4SPN, ExecCLW, ExecCSW, ExecCADDI, ExecCJAL, ExecCLI, ExecCADDI16SP, ExecCSRLI, ExecCSRAI;
    hide ExecCANDI, ExecCSUB, ExecCXOR, ExecCOR, ExecCAND, ExecCBEQZ, ExecCBNEZ, ExecCSLLI, ExecCLWSP, ExecCJR;
    hide ExecCMV, ExecCEBREAK, ExecCJALR, ExecCADD, ExecCSWSP, ExecCSUBW, ExecCADDW, ExecCFSW;
  }

  lemma SameExec(s: Cpu, op: COp, w: bv32, v: bv32, io: Io)
    requires SameHalf(w, v) && !(op == OP_C_ADDI4SPN && ZeroSpn(w))
    ensures CExec(s, op, w, io) == CExec(s, op, v, io)
  {
    if op == OP_C_ADDI4SPN {
      hide ExecCADDI4SPN, SameHalf, ZeroSpn;
      SameSpn(s, w, v);
    } else {
      hide *;
      SameEffect(s, w, v, io);
      SameChoice(s, op, w, v, io);
    }
  }

  /** Two words of one compressed instruction, whatever follows it, step alike exactly if they are
      the same word or not the illegal C.ADDI4SPN, whose trap value is the whole word. */
  lemma DecodedUpperHalfExactly(s: Cpu, w: bv32, v: bv32, io: Io)
    requires SameHalf(w, v) && CDecode(w) != OP_C_ERROR
    ensures Step(s, w, io) == Step(s, v, io) <==> w == v || !IllegalSpn(w)
  {
    hide SameHalf, COpcode, CFunct3, CFunct2, CFunct2b, CBit12, CLow5, CMid10, Decode, Exec, CExec, CImmAddi4spn;
    hide MDecode, ADecode, ExecM;
    SameDecoderFields(w, v);
    BaseAndCompressedApart(w);
    BaseAndCompressedApart(v);
    if IllegalSpn(w) {
      SameImmediates(w, v);
      SpnTraps(s, w, io);
      SpnTraps(s, v, io);
    } else {
      SameExec(s, CDecode(w), w, v, io);
    }
  }

  /** A reserved compressed word: its low half decides whether M takes it, as which operation, and
      what rd is; otherwise its upper half decides whether A takes it. */
  lemma ReservedTakers(w: bv32, v: bv32)
    requires SameHalf(w, v) && COpcode(w) != 3 && Hole(w)
    ensures COpcode(v) != 3 && Hole(v) && MDecode(w) == MDecode(v) && Rd(w) == Rd(v)
    ensures Cascade(w) == M_EXTENSION <==> WordForm(Funct3(w))
    ensures Cascade(v) == M_EXTENSION <==> WordForm(Funct3(w))
    ensures !WordForm(Funct3(w)) ==> (Cascade(w) == Cascade(v) <==> AmoForm(Funct5(w)) == AmoForm(Funct5(v)))
  {
    hide SameHalf, COpcode, CFunct3, Opcode, Funct3, Funct5, Cascade, WordForm, AmoForm, Rd, CRs1, CRs2;
    hide CRdp, CRs1p, CRs2p, CFunct2, CFunct2b, CBit12, CLow5, CMid10, MDecodeOp, MDecodeOther;
    SameDecoderFields(w, v);
    SameFields(w, v);
    SameLowFields(w, v);
    CascadeExactly(w);
    CascadeExactly(v);
    OpcodeLowBits(w);
    NotOp(w);
    NotOp(v);
  }

  lemma SameLowFields(w: bv32, v: bv32)
    requires SameHalf(w, v)
    ensures Opcode(w) == Opcode(v) && Funct3(w) == Funct3(v)
  {
  }

  lemma NotOp(w: bv32)
    requires COpcode(w) != 3
    ensures Opcode(w) != 0x33
  {
  }

  /** The second source register is any that the upper half asks for. */
  lemma UpperHalfNamesOperand(w: bv32, r: bv32)
    requires r < 32
    ensures var v := (w & 0xfe0f_ffff) | (r << 20);
            SameHalf(w, v) && Rs2(v) == r && (forall u | SameHalf(w, u) :: Rd(u) == Rd(w))
  {
    var v := (w & 0xfe0f_ffff) | (r << 20);
    Renamed(w, r);
    forall u | SameHalf(w, u)
      ensures Rd(u) == Rd(w)
    {
      SameFields(w, u);
    }
  }

  lemma Renamed(w: bv32, r: bv32)
    requires r < 32
    ensures var v := (w & 0xfe0f_ffff) | (r << 20); SameHalf(w, v) && Rs2(v) == r
  {
  }

  /** So for words that A does not take, the upper half-word matters in exactly two cases: the trap
      value of the illegal C.ADDI4SPN, and the operands of a reserved word that runs as a
      multiplication or division, if rd is not x0.  When A takes a word is ReservedTakers; what A does
      with it is not part of Step. */
  lemma UpperHalfMattersExactly(s: Cpu, w: bv32, v: bv32, io: Io)
    requires SameHalf(w, v) && COpcode(w) != 3
    requires Cascade(w) != A_EXTENSION && Cascade(v) != A_EXTENSION
    ensures Step(s, w, io) == Step(s, v, io) <==>
            if !Hole(w) then w == v || !IllegalSpn(w)
            else !WordForm(Funct3(w)) || Rd(w) == 0 || MValue(s, MDecode(w), w) == MValue(s, MDecode(w), v)
  {
    hide SameHalf, COpcode, Hole, WordForm, Funct3, Rd, MValue, Decode, CDecode, MDecode, ADecode, IllegalSpn;
    hide Exec, CExec, Opcode, AmoForm, Funct5;
    BaseAndCompressedApart(w);
    UndecodedExactly(w);
    if Hole(w) {
      ReservedTakers(w, v);
      UndecodedExactly(v);
      if WordForm(Funct3(w)) {
        SameWrites(s, w, MValue(s, MDecode(w), w), MValue(s, MDecode(w), v));
      }
    } else {
      DecodedUpperHalfExactly(s, w, v, io);
    }
  }

  lemma SameWrites(s: Cpu, w: bv32, x: bv32, y: bv32)
    ensures Finished(Runs(SetReg(s, Rd(w), x)), 4) == Finished(Runs(SetReg(s, Rd(w), y)), 4) <==> Rd(w) == 0 || x == y
  {
    hide Plus;
    RdBounded(w);
    SetThenGet(s.regs, Rd(w), x, Rd(w));
    SetThenGet(s.regs, Rd(w), y, Rd(w));
    hide Rd, Get;
  }

  lemma SpnTraps(s: Cpu, w: bv32, io: Io)
    requires IllegalSpn(w)
    ensures CExec(s, OP_C_ADDI4SPN, w, io).Done? && !CExec(s, OP_C_ADDI4SPN, w, io).pcNotAffected
    ensures CExec(s, OP_C_ADDI4SPN, w, io).cpu.csrs.mtval == w
  {
    hide CDecode, CImmAddi4spn, BitOr;
  }

  lemma ZeroIsIllegal()
    ensures SameHalf(0, 0x1_0000) && CDecode(0) != OP_C_ERROR && IllegalSpn(0)
  {
  }

  /** The inputs that show it: the words 0 and 0x10000; */
  lemma UpperHalfReachesTrapValue(s: Cpu, io: Io)
    ensures Step(s, 0, io) != Step(s, 0x1_0000, io)
  {
    hide *;
    ZeroIsIllegal();
    DecodedUpperHalfExactly(s, 0, 0x1_0000, io);
  }

  lemma ReservedMulw()
    ensures SameHalf(0x8080, 0x10_8080) && COpcode(0x8080) == 0 && Hole(0x8080) && WordForm(Funct3(0x8080))
    ensures MDecode(0x8080) == OP_M_MULW && Rd(0x8080) == Rs1(0x8080) == Rs1(0x10_8080) == 1
    ensures Rs2(0x8080) == 0 && Rs2(0x10_8080) == 1
  {
  }

  lemma MulwOfZeroAndOfTwo()
    ensures MResult(OP_M_MULW, FromBits(2), FromBits(0)) == 0 && MResult(OP_M_MULW, FromBits(2), FromBits(2)) == 4
    ensures ToBits(0) != ToBits(4)
  {
  }

  /** the reserved words 0x8080 and 0x108080, which multiply x1 by x0 and by itself; */
  lemma UpperHalfChangesProduct(s: Cpu, io: Io)
    requires Get(s.regs, 1) == 2
    ensures Step(s, 0x8080, io) != Step(s, 0x10_8080, io)
  {
    hide SameHalf, COpcode, Hole, WordForm, Funct3, Rd, Rs1, Rs2, Get, MDecode, MResult, FromBits, ToBits, Step;
    hide Cascade;
    ReservedMulw();
    ZeroRegister(s.regs);
    MulwOfZeroAndOfTwo();
    ReservedTakers(0x8080, 0x10_8080);
    UpperHalfMattersExactly(s, 0x8080, 0x10_8080, io);
  }

  /** and the reserved words 0x9000, which A takes, and 0xf8009000, which nobody takes. */
  lemma UpperHalfChangesTaker()
    ensures SameHalf(0x9000, 0xf800_9000)
    ensures Cascade(0x9000) == A_EXTENSION && Cascade(0xf800_9000) == NO_EXTENSION
  {
  }
}
