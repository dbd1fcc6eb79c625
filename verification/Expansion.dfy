/** Sections 16.3 to 16.5 of the RISC-V Unprivileged ISA (version 20191213): what each 16-bit
 *  instruction expands to, assembled with the formats of section 2.3; and that executing the
 *  16-bit form equals executing its expansion with length 2. */
module Expansion {
  import opened MemoryBus
  import opened BaseIsa
  import opened CompressedIsa
  import opened Wrappers

  // ----- the 32-bit formats -----

  function RType(f7: bv32, rs2: bv32, rs1: bv32, f3: bv32, rd: bv32, op: bv32): bv32 {
    (f7 << 25) | (rs2 << 20) | (rs1 << 15) | (f3 << 12) | (rd << 7) | op
  }

  function IType(imm: bv32, rs1: bv32, f3: bv32, rd: bv32, op: bv32): bv32 {
    (imm << 20) | (rs1 << 15) | (f3 << 12) | (rd << 7) | op
  }

  function SType(imm: bv32, rs2: bv32, rs1: bv32, f3: bv32, op: bv32): bv32 {
    (((imm >> 5) & 0x7f) << 25) | (rs2 << 20) | (rs1 << 15) | (f3 << 12) | ((imm & 0x1f) << 7) | op
  }

  function BType(imm: bv32, rs2: bv32, rs1: bv32, f3: bv32, op: bv32): bv32 {
    (((imm >> 12) & 1) << 31) | (((imm >> 5) & 0x3f) << 25) | (rs2 << 20) | (rs1 << 15) | (f3 << 12)
    | (((imm >> 1) & 0xf) << 8) | (((imm >> 11) & 1) << 7) | op
  }

  function UType(imm: bv32, rd: bv32, op: bv32): bv32 {
    (imm & 0xffff_f000) | (rd << 7) | op
  }

  function JType(imm: bv32, rd: bv32, op: bv32): bv32 {
    (((imm >> 20) & 1) << 31) | (((imm >> 1) & 0x3ff) << 21) | (((imm >> 11) & 1) << 20) | (((imm >> 12) & 0xff) << 12)
    | (rd << 7) | op
  }

  /** Sign extension of the low 12 bits, 13 bits or 21 bits. */
  function Signed12(x: bv32): bv32 { if x & 0x800 != 0 then x | 0xffff_f000 else x & 0xfff }
  function Signed13(x: bv32): bv32 { if x & 0x1000 != 0 then x | 0xffff_e000 else x & 0x1fff }
  function Signed21(x: bv32): bv32 { if x & 0x10_0000 != 0 then x | 0xffe0_0000 else x & 0x1f_ffff }

  /** The decoders of the simulator invert the formats of the standard. */
  lemma IRoundTrip(imm: bv32, rs1: bv32, f3: bv32, rd: bv32, op: bv32)
    requires rs1 < 32 && f3 < 8 && rd < 32 && op < 128
    ensures var w := IType(imm, rs1, f3, rd, op);
            ImmI(w) == Signed12(imm) && Rs1(w) == rs1 && Funct3(w) == f3 && Rd(w) == rd && Opcode(w) == op
  {
  }

  lemma SRoundTrip(imm: bv32, rs2: bv32, rs1: bv32, f3: bv32, op: bv32)
    requires rs1 < 32 && rs2 < 32 && f3 < 8 && op < 128
    ensures var w := SType(imm, rs2, rs1, f3, op);
            ImmS(w) == Signed12(imm) && Rs1(w) == rs1 && Rs2(w) == rs2 && Funct3(w) == f3 && Opcode(w) == op
  {
  }

  lemma BRoundTrip(imm: bv32, rs2: bv32, rs1: bv32, f3: bv32, op: bv32)
    requires rs1 < 32 && rs2 < 32 && f3 < 8 && op < 128 && imm & 1 == 0
    ensures var w := BType(imm, rs2, rs1, f3, op);
            ImmB(w) == Signed13(imm) && Rs1(w) == rs1 && Rs2(w) == rs2 && Funct3(w) == f3 && Opcode(w) == op
  {
  }

  lemma URoundTrip(imm: bv32, rd: bv32, op: bv32)
    requires rd < 32 && op < 128
    ensures var w := UType(imm, rd, op); Upper(ImmU(w)) == imm & 0xffff_f000 && Rd(w) == rd && Opcode(w) == op
  {
  }

  lemma JParts(imm: bv32, rd: bv32, op: bv32)
    requires rd < 32 && op < 128
    ensures var w := JType(imm, rd, op);
            && w >> 31 == (imm >> 20) & 1 && (w >> 12) & 0xff == (imm >> 12) & 0xff
            && (w >> 20) & 1 == (imm >> 11) & 1 && (w >> 21) & 0x3ff == (imm >> 1) & 0x3ff
  {
  }

  function JParted(a: bv32, b: bv32, c: bv32, d: bv32): bv32 {
    var aux := (a << 20) | (b << 12) | (c << 11) | (d << 1);
    if a == 1 then aux | 0xfff0_0000 else aux
  }

  lemma JOfParts(w: bv32)
    ensures ImmJ(w) == JParted(w >> 31, (w >> 12) & 0xff, (w >> 20) & 1, (w >> 21) & 0x3ff)
  {
  }

  lemma JPieces(imm: bv32)
    requires imm & 1 == 0
    ensures (((imm >> 20) & 1) << 20) | (((imm >> 12) & 0xff) << 12) | (((imm >> 11) & 1) << 11)
            | (((imm >> 1) & 0x3ff) << 1)
         == imm & 0x1f_ffff
    ensures (imm >> 20) & 1 == 1 <==> imm & 0x10_0000 != 0
    ensures imm & 0x10_0000 != 0 ==> (imm & 0x1f_ffff) | 0xfff0_0000 == imm | 0xffe0_0000
  {
  }

  lemma JJoined(imm: bv32)
    requires imm & 1 == 0
    ensures JParted((imm >> 20) & 1, (imm >> 12) & 0xff, (imm >> 11) & 1, (imm >> 1) & 0x3ff) == Signed21(imm)
  {
    JPieces(imm);
  }

  lemma JFields(imm: bv32, rd: bv32, op: bv32)
    requires rd < 32 && op < 128
    ensures Rd(JType(imm, rd, op)) == rd && Opcode(JType(imm, rd, op)) == op
  {
  }

  lemma JRoundTrip(imm: bv32, rd: bv32, op: bv32)
    requires rd < 32 && op < 128 && imm & 1 == 0
    ensures var w := JType(imm, rd, op); ImmJ(w) == Signed21(imm) && Rd(w) == rd && Opcode(w) == op
  {
    hide JType, ImmJ, Signed21, Rd, Opcode, JParted;
    JParts(imm, rd, op);
    JOfParts(JType(imm, rd, op));
    JJoined(imm);
    JFields(imm, rd, op);
  }

  lemma RRoundTrip(f7: bv32, rs2: bv32, rs1: bv32, f3: bv32, rd: bv32, op: bv32)
    requires f7 < 128 && rs1 < 32 && rs2 < 32 && f3 < 8 && rd < 32 && op < 128
    ensures var w := RType(f7, rs2, rs1, f3, rd, op);
            Funct7(w) == f7 && Rs2(w) == rs2 && Rs1(w) == rs1 && Funct3(w) == f3 && Rd(w) == rd && Opcode(w) == op
  {
  }

  // ----- the 16-bit formats -----

  function B2(w: bv32): bv32 { (w >> 2) & 1 }
  function B3(w: bv32): bv32 { (w >> 3) & 1 }
  function B4(w: bv32): bv32 { (w >> 4) & 1 }
  function B5(w: bv32): bv32 { (w >> 5) & 1 }
  function B6(w: bv32): bv32 { (w >> 6) & 1 }
  function B7(w: bv32): bv32 { (w >> 7) & 1 }
  function B8(w: bv32): bv32 { (w >> 8) & 1 }
  function B9(w: bv32): bv32 { (w >> 9) & 1 }
  function B10(w: bv32): bv32 { (w >> 10) & 1 }
  function B11(w: bv32): bv32 { (w >> 11) & 1 }
  function B12(w: bv32): bv32 { (w >> 12) & 1 }

  function Cat(x: bv32, b: bv32): bv32 { (x << 1) | b }

  /** Immediates, their bits listed from the highest down as in the tables of section 16.8. */
  function OffsetJ(w: bv32): bv32 {
    SignExtended(Cat(Cat(Cat(Cat(Cat(Cat(Cat(Cat(Cat(Cat(B12(w), B8(w)), B10(w)), B9(w)), B6(w)), B7(w)), B2(w)),
                     B11(w)), B5(w)), B4(w)), B3(w)) << 1, 0x800, 0xffff_f000)
  }

  function OffsetB(w: bv32): bv32 {
    SignExtended(Cat(Cat(Cat(Cat(Cat(Cat(Cat(B12(w), B6(w)), B5(w)), B2(w)), B11(w)), B10(w)), B4(w)), B3(w)) << 1,
                 0x100, 0xffff_fe00)
  }

  function Imm6(w: bv32): bv32 {
    SignExtended(Cat(Cat(Cat(Cat(Cat(B12(w), B6(w)), B5(w)), B4(w)), B3(w)), B2(w)), 0x20, 0xffff_ffc0)
  }

  function Imm18(w: bv32): bv32 {
    SignExtended(Cat(Cat(Cat(Cat(Cat(B12(w), B6(w)), B5(w)), B4(w)), B3(w)), B2(w)) << 12, 0x2_0000, 0xfffc_0000)
  }

  function Imm10(w: bv32): bv32 {
    SignExtended(Cat(Cat(Cat(Cat(Cat(B12(w), B4(w)), B3(w)), B5(w)), B2(w)), B6(w)) << 4, 0x200, 0xffff_fc00)
  }

  function UimmSpn(w: bv32): bv32 {
    Cat(Cat(Cat(Cat(Cat(Cat(Cat(B10(w), B9(w)), B8(w)), B7(w)), B12(w)), B11(w)), B5(w)), B6(w)) << 2
  }

  function UimmWord(w: bv32): bv32 { Cat(Cat(Cat(Cat(B5(w), B12(w)), B11(w)), B10(w)), B6(w)) << 2 }

  function UimmLwsp(w: bv32): bv32 { Cat(Cat(Cat(Cat(Cat(B3(w), B2(w)), B12(w)), B6(w)), B5(w)), B4(w)) << 2 }

  function UimmSwsp(w: bv32): bv32 { Cat(Cat(Cat(Cat(Cat(B8(w), B7(w)), B12(w)), B11(w)), B10(w)), B9(w)) << 2 }

  function SignExtended(x: bv32, sign: bv32, above: bv32): bv32 {
    if x & sign != 0 then x | above else x
  }

  function Expand0(w: bv32): Option<bv32> {
    var f3, p, q := CFunct3(w), CRs1p(w), CRs2p(w);
    if f3 == 0 then if UimmSpn(w) == 0 then None else Some(IType(UimmSpn(w), 2, 0, q, 0x13))   // addi q, x2, imm
    else if f3 == 2 then Some(IType(UimmWord(w), p, 2, q, 0x03))                                  // lw q, imm(p)
    else if f3 == 6 then Some(SType(UimmWord(w), q, p, 2, 0x23))                                  // sw q, imm(p)
    else None
  }

  function ExpandAlu(w: bv32): Option<bv32> {
    var f2, f2b, p, q := CFunct2(w), CFunct2b(w), CRs1p(w), CRs2p(w);
    if f2 == 2 then Some(IType(Imm6(w), p, 7, p, 0x13))                         // andi p, p, imm
    else if CBit12(w) != 0 then None
    else if f2 == 0 then Some(IType(CRs2(w), p, 5, p, 0x13))                    // srli p, p, shamt
    else if f2 == 1 then Some(IType(CRs2(w) | 0x400, p, 5, p, 0x13))            // srai p, p, shamt
    else if f2b == 0 then Some(RType(0x20, q, p, 0, p, 0x33))                   // sub p, p, q
    else if f2b == 1 then Some(RType(0, q, p, 4, p, 0x33))                      // xor p, p, q
    else if f2b == 2 then Some(RType(0, q, p, 6, p, 0x33))                      // or p, p, q
    else Some(RType(0, q, p, 7, p, 0x33))                                       // and p, p, q
  }

  function ExpandUpper(w: bv32): Option<bv32> {
    if Imm6(w) == 0 then None
    else if CRs1(w) == 2 then Some(IType(Imm10(w), 2, 0, 2, 0x13))              // addi x2, x2, imm
    else Some(UType(Imm18(w), CRs1(w), 0x37))                                   // lui rd, imm
  }

  function Expand1(w: bv32): Option<bv32> {
    var f3, rd, p := CFunct3(w), CRs1(w), CRs1p(w);
    if f3 == 0 then Some(IType(Imm6(w), rd, 0, rd, 0x13))                       // addi rd, rd, imm
    else if f3 == 1 then Some(JType(OffsetJ(w), 1, 0x6f))                       // jal x1, offset
    else if f3 == 2 then Some(IType(Imm6(w), 0, 0, rd, 0x13))                   // addi rd, x0, imm
    else if f3 == 3 then ExpandUpper(w)
    else if f3 == 4 then ExpandAlu(w)
    else if f3 == 5 then Some(JType(OffsetJ(w), 0, 0x6f))                       // jal x0, offset
    else if f3 == 6 then Some(BType(OffsetB(w), 0, p, 0, 0x63))                 // beq p, x0, offset
    else Some(BType(OffsetB(w), 0, p, 1, 0x63))                                 // bne p, x0, offset
  }

  function ExpandJr(w: bv32): Option<bv32> {
    var rd, rs2 := CRs1(w), CRs2(w);
    if CBit12(w) == 0 then
      if rs2 != 0 then Some(RType(0, rs2, 0, 0, rd, 0x33))                      // add rd, x0, rs2
      else if rd != 0 then Some(IType(0, rd, 0, 0, 0x67))                       // jalr x0, 0(rd)
      else None
    else if rs2 != 0 then Some(RType(0, rs2, rd, 0, rd, 0x33))                  // add rd, rd, rs2
    else if rd != 0 then Some(IType(0, rd, 0, 1, 0x67))                         // jalr x1, 0(rd)
    else Some(IType(1, 0, 0, 0, 0x73))                                          // ebreak
  }

  function Expand2(w: bv32): Option<bv32> {
    var f3, rd := CFunct3(w), CRs1(w);
    if f3 == 0 then if CBit12(w) == 0 then Some(IType(CRs2(w), rd, 1, rd, 0x13)) else None   // slli rd, rd, shamt
    else if f3 == 2 then if rd != 0 then Some(IType(UimmLwsp(w), 2, 2, rd, 0x03)) else None  // lw rd, imm(x2)
    else if f3 == 4 then ExpandJr(w)
    else if f3 == 6 then Some(SType(UimmSwsp(w), CRs2(w), 2, 2, 0x23))                          // sw rs2, imm(x2)
    else None
  }

  /** The expansions of the legal RV32C integer instructions (tables 16.5 to 16.7), hints included;
      None for reserved, custom and floating-point encodings. */
  function Expand(w: bv32): Option<bv32> {
    if COpcode(w) == 0 then Expand0(w) else if COpcode(w) == 1 then Expand1(w) else if COpcode(w) == 2 then Expand2(w)
    else None
  }

  // ----- the immediates agree -----

  lemma FieldsBounded(w: bv32)
    ensures CRs1(w) == Rd(w) < 32 && CRs2(w) < 32 && CRs1p(w) < 32 && CRs2p(w) < 32 && CRdp(w) == CRs2p(w)
    ensures CLow5(w) == CRs2(w) && (CMid10(w) == 0 <==> CRs1(w) == 0 && CRs2(w) == 0)
  {
  }

  lemma JumpIsEven(w: bv32)
    ensures OffsetJ(w) & 1 == 0
  {
  }

  lemma JumpOffset(w: bv32)
    ensures Signed21(OffsetJ(w)) == CImmJ(w)
  {
  }

  lemma BranchOffset(w: bv32)
    ensures OffsetB(w) & 1 == 0 && Signed13(OffsetB(w)) == CImmCb(w)
  {
  }

  lemma SignedImmediates(w: bv32)
    ensures Signed12(Imm6(w)) == CImmAddi(w)
    ensures Signed12(Imm10(w)) == CImmAddi16sp(w)
    ensures Imm18(w) & 0xffff_f000 == CImmLui(w)
  {
  }

  lemma SpnImmediate(w: bv32)
    ensures Signed12(UimmSpn(w)) == UimmSpn(w) == CImmAddi4spn(w)
  {
  }

  lemma WordImmediate(w: bv32)
    ensures Signed12(UimmWord(w)) == CImmL(w)
  {
  }

  lemma LwspImmediate(w: bv32)
    ensures Signed12(UimmLwsp(w)) == CImmLwsp(w)
  {
  }

  lemma SwspImmediate(w: bv32)
    ensures Signed12(UimmSwsp(w)) == CImmCss(w)
  {
  }

  lemma ShiftAmounts(w: bv32)
    requires CBit12(w) == 0
    ensures CImmAddi(w) == CRs2(w) < 32
  {
  }

  // ----- the 16-bit form does what its expansion does -----

  /** Both run, with the same effect on registers, memory, PC and CSRs; or both are undefined.
      Whether a breakpoint is reported is left out: C.EBREAK reports one and EBREAK does not. */
  predicate Alike(a: Outcome, b: Outcome) {
    (a.Done? && b.Done? && a.cpu == b.cpu && a.pcNotAffected == b.pcNotAffected) || (a.Undefined? && b.Undefined?)
  }

  /** The word w, executed as a 16-bit instruction, does what e does with length 2. */
  predicate Refines(s: Cpu, w: bv32, e: bv32, io: Io) {
    Alike(CExec(s, CDecode(w), w, io), Exec(s, Decode(e), e, 2, io))
  }

  lemma ZeroRegister(regs: Bank)
    ensures Get(regs, 0) == 0
  {
  }

  lemma ZeroImmediate()
    ensures Signed12(0) == 0 && forall x :: Plus(x, 0) == x && Plus(0, x) == x
  {
  }

  // Form by form.  Hiding what is done with the fields leaves the solver with the fields themselves.

  lemma RefinesAddi4spn(s: Cpu, w: bv32, io: Io)
    requires COpcode(w) == 0 && CFunct3(w) == 0 && UimmSpn(w) != 0
    ensures Refines(s, w, IType(UimmSpn(w), 2, 0, CRs2p(w), 0x13), io)
  {
    hide Get, Set, Plus, Minus, BitAnd, BitOr, BitXor, Even, Sll, Srl, Sra, ReadData, WriteData, Raised;
    hide IType, ImmI, Signed12, UimmSpn, CImmAddi4spn, Rd, Rs1, CRdp, CRs2p, Opcode, Funct3;
    FieldsBounded(w);
    SpnImmediate(w);
    IRoundTrip(UimmSpn(w), 2, 0, CRs2p(w), 0x13);
  }

  lemma RefinesLw(s: Cpu, w: bv32, io: Io)
    requires COpcode(w) == 0 && CFunct3(w) == 2
    ensures Refines(s, w, IType(UimmWord(w), CRs1p(w), 2, CRs2p(w), 0x03), io)
  {
    hide Get, Set, Plus, Minus, BitAnd, BitOr, BitXor, Even, Sll, Srl, Sra, ReadData, WriteData, Raised;
    hide IType, ImmI, Signed12, UimmWord, CImmL, Rd, Rs1, CRdp, CRs1p, CRs2p, Opcode, Funct3;
    FieldsBounded(w);
    WordImmediate(w);
    IRoundTrip(UimmWord(w), CRs1p(w), 2, CRs2p(w), 0x03);
  }

  lemma RefinesSw(s: Cpu, w: bv32, io: Io)
    requires COpcode(w) == 0 && CFunct3(w) == 6
    ensures Refines(s, w, SType(UimmWord(w), CRs2p(w), CRs1p(w), 2, 0x23), io)
  {
    hide Get, Set, Plus, Minus, BitAnd, BitOr, BitXor, Even, Sll, Srl, Sra, ReadData, WriteData, Raised;
    hide SType, ImmS, Signed12, UimmWord, CImmL, Rs1, Rs2, CRs1p, CRs2p, Opcode, Funct3;
    FieldsBounded(w);
    WordImmediate(w);
    SRoundTrip(UimmWord(w), CRs2p(w), CRs1p(w), 2, 0x23);
  }

  lemma RefinesAddi(s: Cpu, w: bv32, io: Io)
    requires COpcode(w) == 1 && CFunct3(w) == 0
    ensures Refines(s, w, IType(Imm6(w), CRs1(w), 0, CRs1(w), 0x13), io)
  {
    hide Get, Set, Plus, Minus, BitAnd, BitOr, BitXor, Even, Sll, Srl, Sra, ReadData, WriteData, Raised;
    hide IType, ImmI, Signed12, Imm6, CImmAddi, Rd, Rs1, CRs1, Opcode, Funct3;
    FieldsBounded(w);
    SignedImmediates(w);
    IRoundTrip(Imm6(w), CRs1(w), 0, CRs1(w), 0x13);
  }

  lemma RefinesJal(s: Cpu, w: bv32, io: Io)
    requires COpcode(w) == 1 && CFunct3(w) == 1
    ensures Refines(s, w, JType(OffsetJ(w), 1, 0x6f), io)
  {
    hide Get, Set, Plus, Minus, BitAnd, BitOr, BitXor, Even, Sll, Srl, Sra, ReadData, WriteData, Raised;
    hide JType, ImmJ, Signed21, OffsetJ, CImmJ, Rd, Opcode, Funct3;
    FieldsBounded(w);
    JumpIsEven(w);
    JumpOffset(w);
    JRoundTrip(OffsetJ(w), 1, 0x6f);
  }

  lemma RefinesLi(s: Cpu, w: bv32, io: Io)
    requires COpcode(w) == 1 && CFunct3(w) == 2
    ensures Refines(s, w, IType(Imm6(w), 0, 0, CRs1(w), 0x13), io)
  {
    hide Get, Set, Plus, Minus, BitAnd, BitOr, BitXor, Even, Sll, Srl, Sra, ReadData, WriteData, Raised;
    hide IType, ImmI, Signed12, Imm6, CImmAddi, Rd, Rs1, CRs1, Opcode, Funct3;
    FieldsBounded(w);
    SignedImmediates(w);
    IRoundTrip(Imm6(w), 0, 0, CRs1(w), 0x13);
  }

  lemma RefinesAddi16sp(s: Cpu, w: bv32, io: Io)
    requires COpcode(w) == 1 && CFunct3(w) == 3 && CRs1(w) == 2
    ensures Refines(s, w, IType(Imm10(w), 2, 0, 2, 0x13), io)
  {
    hide Get, Set, Plus, Minus, BitAnd, BitOr, BitXor, Even, Sll, Srl, Sra, ReadData, WriteData, Raised;
  }

  lemma RefinesLui(s: Cpu, w: bv32, io: Io)
    requires COpcode(w) == 1 && CFunct3(w) == 3 && CRs1(w) != 2
    ensures Refines(s, w, UType(Imm18(w), CRs1(w), 0x37), io)
  {
    hide Get, Set, Plus, Minus, BitAnd, BitOr, BitXor, Even, Sll, Srl, Sra, ReadData, WriteData, Raised;
  }

  lemma RefinesSrli(s: Cpu, w: bv32, io: Io)
    requires COpcode(w) == 1 && CFunct3(w) == 4 && CFunct2(w) == 0 && CBit12(w) == 0
    ensures Refines(s, w, IType(CRs2(w), CRs1p(w), 5, CRs1p(w), 0x13), io)
  {
    hide Get, Set, Plus, Minus, BitAnd, BitOr, BitXor, Even, Sll, Srl, Sra, ReadData, WriteData, Raised;
  }

  lemma RefinesSrai(s: Cpu, w: bv32, io: Io)
    requires COpcode(w) == 1 && CFunct3(w) == 4 && CFunct2(w) == 1 && CBit12(w) == 0
    ensures Refines(s, w, IType(CRs2(w) | 0x400, CRs1p(w), 5, CRs1p(w), 0x13), io)
  {
    hide Get, Set, Plus, Minus, BitAnd, BitOr, BitXor, Even, Sll, Srl, Sra, ReadData, WriteData, Raised;
  }

  lemma RefinesAndi(s: Cpu, w: bv32, io: Io)
    requires COpcode(w) == 1 && CFunct3(w) == 4 && CFunct2(w) == 2
    ensures Refines(s, w, IType(Imm6(w), CRs1p(w), 7, CRs1p(w), 0x13), io)
  {
    hide Get, Set, Plus, Minus, BitAnd, BitOr, BitXor, Even, Sll, Srl, Sra, ReadData, WriteData, Raised;
  }

  lemma RefinesSub(s: Cpu, w: bv32, io: Io)
    requires COpcode(w) == 1 && CFunct3(w) == 4 && CFunct2(w) == 3 && CFunct2b(w) == 0 && CBit12(w) == 0
    ensures Refines(s, w, RType(0x20, CRs2p(w), CRs1p(w), 0, CRs1p(w), 0x33), io)
  {
    hide Get, Set, Plus, Minus, BitAnd, BitOr, BitXor, Even, Sll, Srl, Sra, ReadData, WriteData, Raised;
  }

  lemma RefinesXor(s: Cpu, w: bv32, io: Io)
    requires COpcode(w) == 1 && CFunct3(w) == 4 && CFunct2(w) == 3 && CFunct2b(w) == 1 && CBit12(w) == 0
    ensures Refines(s, w, RType(0, CRs2p(w), CRs1p(w), 4, CRs1p(w), 0x33), io)
  {
    hide Get, Set, Plus, Minus, BitAnd, BitOr, BitXor, Even, Sll, Srl, Sra, ReadData, WriteData, Raised;
  }

  lemma RefinesOr(s: Cpu, w: bv32, io: Io)
    requires COpcode(w) == 1 && CFunct3(w) == 4 && CFunct2(w) == 3 && CFunct2b(w) == 2 && CBit12(w) == 0
    ensures Refines(s, w, RType(0, CRs2p(w), CRs1p(w), 6, CRs1p(w), 0x33), io)
  {
    hide Get, Set, Plus, Minus, BitAnd, BitOr, BitXor, Even, Sll, Srl, Sra, ReadData, WriteData, Raised;
  }

  lemma RefinesAnd(s: Cpu, w: bv32, io: Io)
    requires COpcode(w) == 1 && CFunct3(w) == 4 && CFunct2(w) == 3 && CFunct2b(w) == 3 && CBit12(w) == 0
    ensures Refines(s, w, RType(0, CRs2p(w), CRs1p(w), 7, CRs1p(w), 0x33), io)
  {
    hide Get, Set, Plus, Minus, BitAnd, BitOr, BitXor, Even, Sll, Srl, Sra, ReadData, WriteData, Raised;
  }

  lemma RefinesJ(s: Cpu, w: bv32, io: Io)
    requires COpcode(w) == 1 && CFunct3(w) == 5
    ensures Refines(s, w, JType(OffsetJ(w), 0, 0x6f), io)
  {
    hide Get, Plus, Minus, BitAnd, BitOr, BitXor, Even, Sll, Srl, Sra, ReadData, WriteData, Raised;
    hide JType, ImmJ, Signed21, OffsetJ, CImmJ, Rd, Opcode, Funct3;
    FieldsBounded(w);
    JumpIsEven(w);
    JumpOffset(w);
    JRoundTrip(OffsetJ(w), 0, 0x6f);
  }

  lemma RefinesBeqz(s: Cpu, w: bv32, io: Io)
    requires COpcode(w) == 1 && CFunct3(w) == 6
    ensures Refines(s, w, BType(OffsetB(w), 0, CRs1p(w), 0, 0x63), io)
  {
    hide Get, Set, Plus, Minus, BitAnd, BitOr, BitXor, Even, Sll, Srl, Sra, ReadData, WriteData, Raised;
    ZeroRegister(s.regs);
    hide BType, ImmB, Signed13, OffsetB, CImmCb, Rs1, Rs2, CRs1p, Opcode, Funct3;
    FieldsBounded(w);
    BranchOffset(w);
    BRoundTrip(OffsetB(w), 0, CRs1p(w), 0, 0x63);
  }

  lemma RefinesBnez(s: Cpu, w: bv32, io: Io)
    requires COpcode(w) == 1 && CFunct3(w) == 7
    ensures Refines(s, w, BType(OffsetB(w), 0, CRs1p(w), 1, 0x63), io)
  {
    hide Get, Set, Plus, Minus, BitAnd, BitOr, BitXor, Even, Sll, Srl, Sra, ReadData, WriteData, Raised;
    ZeroRegister(s.regs);
    hide BType, ImmB, Signed13, OffsetB, CImmCb, Rs1, Rs2, CRs1p, Opcode, Funct3;
    FieldsBounded(w);
    BranchOffset(w);
    BRoundTrip(OffsetB(w), 0, CRs1p(w), 1, 0x63);
  }

  lemma RefinesSlli(s: Cpu, w: bv32, io: Io)
    requires COpcode(w) == 2 && CFunct3(w) == 0 && CBit12(w) == 0
    ensures Refines(s, w, IType(CRs2(w), CRs1(w), 1, CRs1(w), 0x13), io)
  {
    hide Get, Set, Plus, Minus, BitAnd, BitOr, BitXor, Even, Sll, Srl, Sra, ReadData, WriteData, Raised;
  }

  lemma RefinesLwsp(s: Cpu, w: bv32, io: Io)
    requires COpcode(w) == 2 && CFunct3(w) == 2
    ensures Refines(s, w, IType(UimmLwsp(w), 2, 2, CRs1(w), 0x03), io)
  {
    hide Get, Set, Plus, Minus, BitAnd, BitOr, BitXor, Even, Sll, Srl, Sra, ReadData, WriteData, Raised;
    hide IType, ImmI, Signed12, UimmLwsp, CImmLwsp, Rd, Rs1, CRs1, Opcode, Funct3;
    FieldsBounded(w);
    LwspImmediate(w);
    IRoundTrip(UimmLwsp(w), 2, 2, CRs1(w), 0x03);
  }

  lemma RefinesMv(s: Cpu, w: bv32, io: Io)
    requires COpcode(w) == 2 && CFunct3(w) == 4 && CBit12(w) == 0 && CRs2(w) != 0
    ensures Refines(s, w, RType(0, CRs2(w), 0, 0, CRs1(w), 0x33), io)
  {
    hide Get, Set, Plus, Minus, BitAnd, BitOr, BitXor, Even, Sll, Srl, Sra, ReadData, WriteData, Raised;
    ZeroImmediate();
    ZeroRegister(s.regs);
  }

  lemma RefinesJr(s: Cpu, w: bv32, io: Io)
    requires COpcode(w) == 2 && CFunct3(w) == 4 && CBit12(w) == 0 && CRs2(w) == 0
    ensures Refines(s, w, IType(0, CRs1(w), 0, 0, 0x67), io)
  {
    hide Get, Plus, Minus, BitAnd, BitOr, BitXor, Even, Sll, Srl, Sra, ReadData, WriteData, Raised;
    ZeroImmediate();
  }

  lemma RefinesAdd(s: Cpu, w: bv32, io: Io)
    requires COpcode(w) == 2 && CFunct3(w) == 4 && CBit12(w) != 0 && CRs2(w) != 0
    ensures Refines(s, w, RType(0, CRs2(w), CRs1(w), 0, CRs1(w), 0x33), io)
  {
    hide Get, Set, Plus, Minus, BitAnd, BitOr, BitXor, Even, Sll, Srl, Sra, ReadData, WriteData, Raised;
  }

  lemma RefinesJalr(s: Cpu, w: bv32, io: Io)
    requires COpcode(w) == 2 && CFunct3(w) == 4 && CBit12(w) != 0 && CRs2(w) == 0 && CRs1(w) != 0
    ensures Refines(s, w, IType(0, CRs1(w), 0, 1, 0x67), io)
  {
    hide Get, Set, Plus, Minus, BitAnd, BitOr, BitXor, Even, Sll, Srl, Sra, ReadData, WriteData, Raised;
    ZeroImmediate();
  }

  lemma RefinesEbreak(s: Cpu, w: bv32, io: Io)
    requires COpcode(w) == 2 && CFunct3(w) == 4 && CBit12(w) != 0 && CRs2(w) == 0 && CRs1(w) == 0
    ensures Refines(s, w, IType(1, 0, 0, 0, 0x73), io)
  {
    hide Get, Set, Plus, Minus, BitAnd, BitOr, BitXor, Even, Sll, Srl, Sra, ReadData, WriteData;
  }

  lemma RefinesSwsp(s: Cpu, w: bv32, io: Io)
    requires COpcode(w) == 2 && CFunct3(w) == 6
    ensures Refines(s, w, SType(UimmSwsp(w), CRs2(w), 2, 2, 0x23), io)
  {
    hide Get, Set, Plus, Minus, BitAnd, BitOr, BitXor, Even, Sll, Srl, Sra, ReadData, WriteData, Raised;
    hide SType, ImmS, Signed12, UimmSwsp, CImmCss, Rs1, Rs2, CRs2, Opcode, Funct3;
    FieldsBounded(w);
    SwspImmediate(w);
    SRoundTrip(UimmSwsp(w), CRs2(w), 2, 2, 0x23);
  }

  // ----- the main theorem -----

  lemma FieldRanges(w: bv32)
    ensures CFunct3(w) < 8 && CFunct2(w) < 4 && CFunct2b(w) < 4 && COpcode(w) < 4
  {
  }

  lemma LastOf4(x: bv32)
    requires x < 4 && x != 0 && x != 1 && x != 2
    ensures x == 3
  {
  }

  lemma LastOf8(x: bv32)
    requires x < 8 && x != 0 && x != 1 && x != 2 && x != 3 && x != 4 && x != 5 && x != 6
    ensures x == 7
  {
  }

  lemma RefinesQuadrant0(s: Cpu, w: bv32, io: Io)
    requires COpcode(w) == 0 && Expand0(w).Some?
    ensures Refines(s, w, Expand0(w).value, io)
  {
    hide Refines, IType, RType, SType, BType, UType, JType, OffsetJ, OffsetB, Imm6, Imm10, Imm18, UimmSpn, UimmWord;
    hide UimmLwsp, UimmSwsp, COpcode, CFunct3, CFunct2, CFunct2b, CBit12, CRs1, CRs2, CRs1p, CRs2p;
    if CFunct3(w) == 0 {
      RefinesAddi4spn(s, w, io);
    } else if CFunct3(w) == 2 {
      RefinesLw(s, w, io);
    } else {
      RefinesSw(s, w, io);
    }
  }

  lemma RefinesAlu(s: Cpu, w: bv32, io: Io)
    requires COpcode(w) == 1 && CFunct3(w) == 4 && ExpandAlu(w).Some?
    ensures Refines(s, w, ExpandAlu(w).value, io)
  {
    hide Refines, IType, RType, SType, BType, UType, JType, OffsetJ, OffsetB, Imm6, Imm10, Imm18, UimmSpn, UimmWord;
    hide UimmLwsp, UimmSwsp, COpcode, CFunct3, CFunct2, CFunct2b, CBit12, CRs1, CRs2, CRs1p, CRs2p;
    FieldRanges(w);
    if CFunct2(w) == 2 {
      RefinesAndi(s, w, io);
    } else if CFunct2(w) == 0 {
      RefinesSrli(s, w, io);
    } else if CFunct2(w) == 1 {
      RefinesSrai(s, w, io);
    } else {
      LastOf4(CFunct2(w));
      if CFunct2b(w) == 0 {
        RefinesSub(s, w, io);
      } else if CFunct2b(w) == 1 {
        RefinesXor(s, w, io);
      } else if CFunct2b(w) == 2 {
        RefinesOr(s, w, io);
      } else {
        LastOf4(CFunct2b(w));
        RefinesAnd(s, w, io);
      }
    }
  }

  lemma RefinesQuadrant1(s: Cpu, w: bv32, io: Io)
    requires COpcode(w) == 1 && Expand1(w).Some?
    ensures Refines(s, w, Expand1(w).value, io)
  {
    hide Refines, IType, RType, SType, BType, UType, JType, OffsetJ, OffsetB, Imm6, Imm10, Imm18, UimmSpn, UimmWord;
    hide UimmLwsp, UimmSwsp, COpcode, CFunct3, CFunct2, CFunct2b, CBit12, CRs1, CRs2, CRs1p, CRs2p;
    hide ExpandAlu;
    FieldRanges(w);
    if CFunct3(w) == 0 {
      RefinesAddi(s, w, io);
    } else if CFunct3(w) == 1 {
      RefinesJal(s, w, io);
    } else if CFunct3(w) == 2 {
      RefinesLi(s, w, io);
    } else if CFunct3(w) == 3 {
      if CRs1(w) == 2 {
        RefinesAddi16sp(s, w, io);
      } else {
        RefinesLui(s, w, io);
      }
    } else if CFunct3(w) == 4 {
      RefinesAlu(s, w, io);
    } else if CFunct3(w) == 5 {
      RefinesJ(s, w, io);
    } else if CFunct3(w) == 6 {
      RefinesBeqz(s, w, io);
    } else {
      LastOf8(CFunct3(w));
      RefinesBnez(s, w, io);
    }
  }

  lemma RefinesQuadrant2(s: Cpu, w: bv32, io: Io)
    requires COpcode(w) == 2 && Expand2(w).Some?
    ensures Refines(s, w, Expand2(w).value, io)
  {
    hide Refines, IType, RType, SType, BType, UType, JType, OffsetJ, OffsetB, Imm6, Imm10, Imm18, UimmSpn, UimmWord;
    hide UimmLwsp, UimmSwsp, COpcode, CFunct3, CFunct2, CFunct2b, CBit12, CRs1, CRs2, CRs1p, CRs2p;
    if CFunct3(w) == 0 {
      RefinesSlli(s, w, io);
    } else if CFunct3(w) == 2 {
      RefinesLwsp(s, w, io);
    } else if CFunct3(w) == 6 {
      RefinesSwsp(s, w, io);
    } else if CBit12(w) == 0 {
      if CRs2(w) != 0 {
        RefinesMv(s, w, io);
      } else {
        RefinesJr(s, w, io);
      }
    } else if CRs2(w) != 0 {
      RefinesAdd(s, w, io);
    } else if CRs1(w) != 0 {
      RefinesJalr(s, w, io);
    } else {
      RefinesEbreak(s, w, io);
    }
  }

  /** Executing any legal RV32C instruction equals executing its expansion with length 2. */
  lemma CompressedRefinesBase(s: Cpu, w: bv32, io: Io)
    requires Expand(w).Some?
    ensures Refines(s, w, Expand(w).value, io)
  {
    hide COpcode, Refines, Expand0, Expand1, Expand2;
    if COpcode(w) == 0 {
      RefinesQuadrant0(s, w, io);
    } else if COpcode(w) == 1 {
      RefinesQuadrant1(s, w, io);
    } else {
      RefinesQuadrant2(s, w, io);
    }
  }

  // ----- breakpoints -----

  lemma BaseReportsNone(s: Cpu, op: BaseOp, w: bv32, length: bv32, io: Io)
    ensures Exec(s, op, w, length, io).Done? ==> !Exec(s, op, w, length, io).breakpoint
  {
    hide Rd, Rs1, Rs2, Shamt, Low5, Get, Set, SetReg, Plus, Minus, BitAnd, BitOr, BitXor, Even, Upper, Sll, Srl, Sra;
    hide ImmI, ImmS, ImmB, ImmU, ImmJ, ReadData, WriteData, Raised;
  }

  lemma CompressedReportsExactly(s: Cpu, op: COp, w: bv32, io: Io)
    ensures CExec(s, op, w, io).Done? ==> (CExec(s, op, w, io).breakpoint <==> op == OP_C_EBREAK)
  {
    hide Rd, CRs1, CRs2, CRdp, CRs1p, CRs2p, Get, Set, SetReg, Plus, Minus, BitAnd, BitOr, BitXor, Even, Sll, Srl, Sra;
    hide CImmJ, CImmL, CImmLwsp, CImmAddi, CImmAddi4spn, CImmAddi16sp, CImmCss, CImmCb, CImmLui, ReadData, WriteData;
    hide ShiftDefined, Raised;
  }

  /** C.EBREAK is the one instruction whose expansion does not do everything it does: it reports a
      breakpoint to the simulator, and EBREAK does not. */
  lemma ExpansionIsExactly(s: Cpu, w: bv32, io: Io)
    requires Expand(w).Some?
    ensures var e := Expand(w).value;
            CExec(s, CDecode(w), w, io) == Exec(s, Decode(e), e, 2, io) <==> CDecode(w) != OP_C_EBREAK
  {
    hide Expand, CExec, Exec, CDecode, Decode;
    var e := Expand(w).value;
    CompressedRefinesBase(s, w, io);
    BaseReportsNone(s, Decode(e), e, 2, io);
    CompressedReportsExactly(s, CDecode(w), w, io);
    if CDecode(w) == OP_C_EBREAK {
      EbreakIsDone(s, w, io);
    }
  }

  lemma EbreakIsDone(s: Cpu, w: bv32, io: Io)
    ensures CExec(s, OP_C_EBREAK, w, io).Done?
  {
  }
}
