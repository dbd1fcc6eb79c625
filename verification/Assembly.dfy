/** The listing of chapter 24 of the RISC-V Unprivileged ISA (version 20191213), and the decoder of
 *  the base instructions as its inverse. */
module Assembly {
  import opened BaseIsa
  import opened Expansion

  lemma RFields(f7: bv32, rs2: bv32, rs1: bv32, f3: bv32, rd: bv32, op: bv32)
    requires f7 < 128 && rs1 < 32 && rs2 < 32 && f3 < 8 && rd < 32 && op < 128
    ensures var w := RType(f7, rs2, rs1, f3, rd, op); Opcode(w) == op && Funct3(w) == f3 && Funct7(w) == f7
  {
  }

  lemma RTopFields(f7: bv32, rs2: bv32, rs1: bv32, f3: bv32, rd: bv32, op: bv32)
    requires f7 < 128 && rs1 < 32 && rs2 < 32 && f3 < 8 && rd < 32 && op < 128
    ensures var w := RType(f7, rs2, rs1, f3, rd, op); Top6(w) == f7 >> 1 && Csr(w) == (f7 << 5) | rs2
  {
  }

  lemma IFields(imm: bv32, rs1: bv32, f3: bv32, rd: bv32, op: bv32)
    requires rs1 < 32 && f3 < 8 && rd < 32 && op < 128
    ensures var w := IType(imm, rs1, f3, rd, op); Opcode(w) == op && Funct3(w) == f3 && Csr(w) == imm & 0xfff
  {
  }

  lemma SFields(imm: bv32, rs2: bv32, rs1: bv32, f3: bv32, op: bv32)
    requires rs1 < 32 && rs2 < 32 && f3 < 8 && op < 128
    ensures Opcode(SType(imm, rs2, rs1, f3, op)) == op && Funct3(SType(imm, rs2, rs1, f3, op)) == f3
    ensures Opcode(BType(imm, rs2, rs1, f3, op)) == op && Funct3(BType(imm, rs2, rs1, f3, op)) == f3
  {
  }

  lemma UFields(imm: bv32, rd: bv32, op: bv32)
    requires rd < 32 && op < 128
    ensures Opcode(UType(imm, rd, op)) == op && Opcode(JType(imm, rd, op)) == op
  {
  }

  lemma FenceIsNoReturn(rs2: bv32)
    requires rs2 < 32
    ensures (9 << 5) | rs2 !in {0, 1, 2, 0x102, 0x302, 0x105}
  {
  }

  /** The decoder, one major opcode after the other. */
  lemma DecodeByMajor(w: bv32)
    ensures Opcode(w) == 0x37 ==> Decode(w) == OP_LUI
    ensures Opcode(w) == 0x17 ==> Decode(w) == OP_AUIPC
    ensures Opcode(w) == 0x6f ==> Decode(w) == OP_JAL
    ensures Opcode(w) == 0x67 ==> Decode(w) == OP_JALR
    ensures Opcode(w) == 0x0f ==> Decode(w) == OP_FENCE
    ensures Opcode(w) == 0x63 ==> Decode(w) == DecodeBranch(Funct3(w))
    ensures Opcode(w) == 0x03 ==> Decode(w) == DecodeLoad(Funct3(w))
    ensures Opcode(w) == 0x23 ==> Decode(w) == DecodeStore(Funct3(w))
    ensures Opcode(w) == 0x13 ==> Decode(w) == DecodeOpImm(Funct3(w), Top6(w))
    ensures Opcode(w) == 0x33 ==> Decode(w) == DecodeOp(Funct3(w), Funct7(w))
    ensures Opcode(w) == 0x73 ==> Decode(w) == DecodeSystem(Funct3(w), Csr(w), Funct7(w))
    ensures Opcode(w) == 0x1b ==> Decode(w) == DecodeOpImm32(Funct3(w), Top6(w))
    ensures Opcode(w) == 0x3b ==> Decode(w) == DecodeOp32(Funct3(w), Funct7(w), Top6(w))
  {
    hide Opcode, Funct3, Funct7, Top6, Csr;
    hide DecodeBranch, DecodeLoad, DecodeStore, DecodeOpImm, DecodeOp, DecodeSystem, DecodeOpImm32, DecodeOp32;
  }

  lemma RWord(f7: bv32, rs2: bv32, rs1: bv32, f3: bv32, rd: bv32, op: bv32)
    requires f7 < 128 && rs1 < 32 && rs2 < 32 && f3 < 8 && rd < 32 && op < 128
    ensures var w := RType(f7, rs2, rs1, f3, rd, op);
            && (op == 0x33 ==> Decode(w) == DecodeOp(f3, f7))
            && (op == 0x13 ==> Decode(w) == DecodeOpImm(f3, f7 >> 1))
            && (op == 0x1b ==> Decode(w) == DecodeOpImm32(f3, f7 >> 1))
            && (op == 0x3b ==> Decode(w) == DecodeOp32(f3, f7, f7 >> 1))
            && (op == 0x73 ==> Decode(w) == DecodeSystem(f3, (f7 << 5) | rs2, f7))
  {
    hide *;
    RFields(f7, rs2, rs1, f3, rd, op);
    RTopFields(f7, rs2, rs1, f3, rd, op);
    DecodeByMajor(RType(f7, rs2, rs1, f3, rd, op));
  }

  lemma IWord(imm: bv32, rs1: bv32, f3: bv32, rd: bv32, op: bv32)
    requires rs1 < 32 && f3 < 8 && rd < 32 && op < 128
    ensures var w := IType(imm, rs1, f3, rd, op);
            && (op == 0x67 ==> Decode(w) == OP_JALR) && (op == 0x0f ==> Decode(w) == OP_FENCE)
            && (op == 0x03 ==> Decode(w) == DecodeLoad(f3))
            && (op == 0x13 ==> Decode(w) == DecodeOpImm(f3, Top6(w)))
            && (op == 0x1b ==> Decode(w) == DecodeOpImm32(f3, Top6(w)))
            && (op == 0x73 ==> Decode(w) == DecodeSystem(f3, imm & 0xfff, Funct7(w)) && Csr(w) == imm & 0xfff)
  {
    hide *;
    IFields(imm, rs1, f3, rd, op);
    DecodeByMajor(IType(imm, rs1, f3, rd, op));
  }

  lemma SWord(imm: bv32, rs2: bv32, rs1: bv32, f3: bv32, op: bv32)
    requires rs1 < 32 && rs2 < 32 && f3 < 8 && op < 128
    ensures op == 0x23 ==> Decode(SType(imm, rs2, rs1, f3, op)) == DecodeStore(f3)
    ensures op == 0x63 ==> Decode(BType(imm, rs2, rs1, f3, op)) == DecodeBranch(f3)
  {
    hide *;
    SFields(imm, rs2, rs1, f3, op);
    DecodeByMajor(SType(imm, rs2, rs1, f3, op));
    DecodeByMajor(BType(imm, rs2, rs1, f3, op));
  }

  lemma UWord(imm: bv32, rd: bv32, op: bv32)
    requires rd < 32 && op < 128
    ensures op == 0x37 ==> Decode(UType(imm, rd, op)) == OP_LUI
    ensures op == 0x17 ==> Decode(UType(imm, rd, op)) == OP_AUIPC
    ensures op == 0x6f ==> Decode(JType(imm, rd, op)) == OP_JAL
  {
    hide *;
    UFields(imm, rd, op);
    DecodeByMajor(UType(imm, rd, op));
    DecodeByMajor(JType(imm, rd, op));
  }

  // One group of operations after the other: the rows of its table, then the words.

  lemma BranchTable()
    ensures DecodeBranch(0) == OP_BEQ
    ensures DecodeBranch(1) == OP_BNE
    ensures DecodeBranch(4) == OP_BLT
    ensures DecodeBranch(5) == OP_BGE
    ensures DecodeBranch(6) == OP_BLTU
    ensures DecodeBranch(7) == OP_BGEU
  {
  }

  lemma BranchDecoded(rd: bv32, rs1: bv32, rs2: bv32, imm: bv32)
    requires rs1 < 32 && rs2 < 32
    ensures Decode(BType(imm, rs2, rs1, 0, 0x63)) == OP_BEQ
    ensures Decode(BType(imm, rs2, rs1, 1, 0x63)) == OP_BNE
    ensures Decode(BType(imm, rs2, rs1, 4, 0x63)) == OP_BLT
    ensures Decode(BType(imm, rs2, rs1, 5, 0x63)) == OP_BGE
    ensures Decode(BType(imm, rs2, rs1, 6, 0x63)) == OP_BLTU
    ensures Decode(BType(imm, rs2, rs1, 7, 0x63)) == OP_BGEU
  {
    hide *;
    BranchTable();
    SWord(imm, rs2, rs1, 0, 0x63);
    SWord(imm, rs2, rs1, 1, 0x63);
    SWord(imm, rs2, rs1, 4, 0x63);
    SWord(imm, rs2, rs1, 5, 0x63);
    SWord(imm, rs2, rs1, 6, 0x63);
    SWord(imm, rs2, rs1, 7, 0x63);
  }

  lemma LoadTable()
    ensures DecodeLoad(0) == OP_LB
    ensures DecodeLoad(1) == OP_LH
    ensures DecodeLoad(2) == OP_LW
    ensures DecodeLoad(3) == OP_LD
    ensures DecodeLoad(4) == OP_LBU
    ensures DecodeLoad(5) == OP_LHU
    ensures DecodeLoad(6) == OP_LWU
  {
  }

  lemma LoadDecoded(rd: bv32, rs1: bv32, rs2: bv32, imm: bv32)
    requires rs1 < 32 && rd < 32
    ensures Decode(IType(imm, rs1, 0, rd, 0x03)) == OP_LB
    ensures Decode(IType(imm, rs1, 1, rd, 0x03)) == OP_LH
    ensures Decode(IType(imm, rs1, 2, rd, 0x03)) == OP_LW
    ensures Decode(IType(imm, rs1, 3, rd, 0x03)) == OP_LD
    ensures Decode(IType(imm, rs1, 4, rd, 0x03)) == OP_LBU
    ensures Decode(IType(imm, rs1, 5, rd, 0x03)) == OP_LHU
    ensures Decode(IType(imm, rs1, 6, rd, 0x03)) == OP_LWU
  {
    hide *;
    LoadTable();
    IWord(imm, rs1, 0, rd, 0x03);
    IWord(imm, rs1, 1, rd, 0x03);
    IWord(imm, rs1, 2, rd, 0x03);
    IWord(imm, rs1, 3, rd, 0x03);
    IWord(imm, rs1, 4, rd, 0x03);
    IWord(imm, rs1, 5, rd, 0x03);
    IWord(imm, rs1, 6, rd, 0x03);
  }

  lemma StoreTable()
    ensures DecodeStore(0) == OP_SB
    ensures DecodeStore(1) == OP_SH
    ensures DecodeStore(2) == OP_SW
    ensures DecodeStore(3) == OP_SD
  {
  }

  lemma StoreDecoded(rd: bv32, rs1: bv32, rs2: bv32, imm: bv32)
    requires rs1 < 32 && rs2 < 32
    ensures Decode(SType(imm, rs2, rs1, 0, 0x23)) == OP_SB
    ensures Decode(SType(imm, rs2, rs1, 1, 0x23)) == OP_SH
    ensures Decode(SType(imm, rs2, rs1, 2, 0x23)) == OP_SW
    ensures Decode(SType(imm, rs2, rs1, 3, 0x23)) == OP_SD
  {
    hide *;
    StoreTable();
    SWord(imm, rs2, rs1, 0, 0x23);
    SWord(imm, rs2, rs1, 1, 0x23);
    SWord(imm, rs2, rs1, 2, 0x23);
    SWord(imm, rs2, rs1, 3, 0x23);
  }

  lemma ImmediateTable(top6: bv32)
    ensures DecodeOpImm(0, top6) == OP_ADDI
    ensures DecodeOpImm(2, top6) == OP_SLTI
    ensures DecodeOpImm(3, top6) == OP_SLTIU
    ensures DecodeOpImm(4, top6) == OP_XORI
    ensures DecodeOpImm(6, top6) == OP_ORI
    ensures DecodeOpImm(7, top6) == OP_ANDI
  {
  }

  lemma ImmediateDecoded(rd: bv32, rs1: bv32, rs2: bv32, imm: bv32)
    requires rs1 < 32 && rd < 32
    ensures Decode(IType(imm, rs1, 0, rd, 0x13)) == OP_ADDI
    ensures Decode(IType(imm, rs1, 2, rd, 0x13)) == OP_SLTI
    ensures Decode(IType(imm, rs1, 3, rd, 0x13)) == OP_SLTIU
    ensures Decode(IType(imm, rs1, 4, rd, 0x13)) == OP_XORI
    ensures Decode(IType(imm, rs1, 6, rd, 0x13)) == OP_ORI
    ensures Decode(IType(imm, rs1, 7, rd, 0x13)) == OP_ANDI
  {
    hide *;
    IWord(imm, rs1, 0, rd, 0x13);
    ImmediateTable(Top6(IType(imm, rs1, 0, rd, 0x13)));
    IWord(imm, rs1, 2, rd, 0x13);
    ImmediateTable(Top6(IType(imm, rs1, 2, rd, 0x13)));
    IWord(imm, rs1, 3, rd, 0x13);
    ImmediateTable(Top6(IType(imm, rs1, 3, rd, 0x13)));
    IWord(imm, rs1, 4, rd, 0x13);
    ImmediateTable(Top6(IType(imm, rs1, 4, rd, 0x13)));
    IWord(imm, rs1, 6, rd, 0x13);
    ImmediateTable(Top6(IType(imm, rs1, 6, rd, 0x13)));
    IWord(imm, rs1, 7, rd, 0x13);
    ImmediateTable(Top6(IType(imm, rs1, 7, rd, 0x13)));
  }

  lemma ShiftTable()
    ensures DecodeOpImm(1, 0) == OP_SLLI
    ensures DecodeOpImm(5, 0) == OP_SRLI
    ensures DecodeOpImm(5, 0x10) == OP_SRAI
  {
  }

  lemma ShiftDecoded(rd: bv32, rs1: bv32, rs2: bv32, imm: bv32)
    requires rs1 < 32 && rd < 32 && imm < 32
    ensures Decode(RType(0, imm, rs1, 1, rd, 0x13)) == OP_SLLI
    ensures Decode(RType(0, imm, rs1, 5, rd, 0x13)) == OP_SRLI
    ensures Decode(RType(0x20, imm, rs1, 5, rd, 0x13)) == OP_SRAI
  {
    hide *;
    ShiftTable();
    RWord(0, imm, rs1, 1, rd, 0x13);
    RWord(0, imm, rs1, 5, rd, 0x13);
    RWord(0x20, imm, rs1, 5, rd, 0x13);
  }

  lemma RegisterTable()
    ensures DecodeOp(0, 0) == OP_ADD
    ensures DecodeOp(0, 0x20) == OP_SUB
    ensures DecodeOp(1, 0) == OP_SLL
    ensures DecodeOp(2, 0) == OP_SLT
    ensures DecodeOp(3, 0) == OP_SLTU
    ensures DecodeOp(4, 0) == OP_XOR
    ensures DecodeOp(5, 0) == OP_SRL
    ensures DecodeOp(5, 0x20) == OP_SRA
    ensures DecodeOp(6, 0) == OP_OR
    ensures DecodeOp(7, 0) == OP_AND
  {
  }

  lemma RegisterDecoded(rd: bv32, rs1: bv32, rs2: bv32, imm: bv32)
    requires rs1 < 32 && rs2 < 32 && rd < 32
    ensures Decode(RType(0, rs2, rs1, 0, rd, 0x33)) == OP_ADD
    ensures Decode(RType(0x20, rs2, rs1, 0, rd, 0x33)) == OP_SUB
    ensures Decode(RType(0, rs2, rs1, 1, rd, 0x33)) == OP_SLL
    ensures Decode(RType(0, rs2, rs1, 2, rd, 0x33)) == OP_SLT
    ensures Decode(RType(0, rs2, rs1, 3, rd, 0x33)) == OP_SLTU
    ensures Decode(RType(0, rs2, rs1, 4, rd, 0x33)) == OP_XOR
    ensures Decode(RType(0, rs2, rs1, 5, rd, 0x33)) == OP_SRL
    ensures Decode(RType(0x20, rs2, rs1, 5, rd, 0x33)) == OP_SRA
    ensures Decode(RType(0, rs2, rs1, 6, rd, 0x33)) == OP_OR
    ensures Decode(RType(0, rs2, rs1, 7, rd, 0x33)) == OP_AND
  {
    hide *;
    RegisterTable();
    RWord(0, rs2, rs1, 0, rd, 0x33);
    RWord(0x20, rs2, rs1, 0, rd, 0x33);
    RWord(0, rs2, rs1, 1, rd, 0x33);
    RWord(0, rs2, rs1, 2, rd, 0x33);
    RWord(0, rs2, rs1, 3, rd, 0x33);
    RWord(0, rs2, rs1, 4, rd, 0x33);
    RWord(0, rs2, rs1, 5, rd, 0x33);
    RWord(0x20, rs2, rs1, 5, rd, 0x33);
    RWord(0, rs2, rs1, 6, rd, 0x33);
    RWord(0, rs2, rs1, 7, rd, 0x33);
  }

  lemma JumpDecoded(rd: bv32, rs1: bv32, rs2: bv32, imm: bv32)
    requires rs1 < 32 && rd < 32
    ensures Decode(UType(imm, rd, 0x37)) == OP_LUI
    ensures Decode(UType(imm, rd, 0x17)) == OP_AUIPC
    ensures Decode(JType(imm, rd, 0x6f)) == OP_JAL
    ensures Decode(IType(imm, rs1, 0, rd, 0x67)) == OP_JALR
    ensures Decode(IType(imm, rs1, 0, rd, 0x0f)) == OP_FENCE
  {
    hide *;
    UWord(imm, rd, 0x37);
    UWord(imm, rd, 0x17);
    UWord(imm, rd, 0x6f);
    IWord(imm, rs1, 0, rd, 0x67);
    IWord(imm, rs1, 0, rd, 0x0f);
  }

  lemma ReturnTable(f7: bv32)
    ensures DecodeSystem(0, 0, f7) == OP_ECALL
    ensures DecodeSystem(0, 1, f7) == OP_EBREAK
    ensures DecodeSystem(0, 2, f7) == OP_URET
    ensures DecodeSystem(0, 0x102, f7) == OP_SRET
    ensures DecodeSystem(0, 0x302, f7) == OP_MRET
    ensures DecodeSystem(0, 0x105, f7) == OP_WFI
  {
  }

  lemma FenceTable(csr: bv32)
    requires csr !in {0, 1, 2, 0x102, 0x302, 0x105}
    ensures DecodeSystem(0, csr, 9) == OP_SFENCE
  {
  }

  lemma CsrTable(csr: bv32, f7: bv32)
    ensures DecodeSystem(1, csr, f7) == OP_CSRRW
    ensures DecodeSystem(2, csr, f7) == OP_CSRRS
    ensures DecodeSystem(3, csr, f7) == OP_CSRRC
    ensures DecodeSystem(5, csr, f7) == OP_CSRRWI
    ensures DecodeSystem(6, csr, f7) == OP_CSRRSI
    ensures DecodeSystem(7, csr, f7) == OP_CSRRCI
  {
  }

  lemma SystemDecoded(rd: bv32, rs1: bv32, rs2: bv32, imm: bv32)
    requires rs1 < 32 && rs2 < 32 && rd < 32
    ensures Decode(IType(0, 0, 0, 0, 0x73)) == OP_ECALL
    ensures Decode(IType(1, 0, 0, 0, 0x73)) == OP_EBREAK
    ensures Decode(IType(2, 0, 0, 0, 0x73)) == OP_URET
    ensures Decode(IType(0x102, 0, 0, 0, 0x73)) == OP_SRET
    ensures Decode(IType(0x302, 0, 0, 0, 0x73)) == OP_MRET
    ensures Decode(IType(0x105, 0, 0, 0, 0x73)) == OP_WFI
    ensures Decode(RType(9, rs2, rs1, 0, 0, 0x73)) == OP_SFENCE
    ensures Decode(IType(imm, rs1, 1, rd, 0x73)) == OP_CSRRW
    ensures Decode(IType(imm, rs1, 2, rd, 0x73)) == OP_CSRRS
    ensures Decode(IType(imm, rs1, 3, rd, 0x73)) == OP_CSRRC
    ensures Decode(IType(imm, rs1, 5, rd, 0x73)) == OP_CSRRWI
    ensures Decode(IType(imm, rs1, 6, rd, 0x73)) == OP_CSRRSI
    ensures Decode(IType(imm, rs1, 7, rd, 0x73)) == OP_CSRRCI
  {
    hide *;
    FenceIsNoReturn(rs2);
    FenceTable((9 << 5) | rs2);
    IWord(0, 0, 0, 0, 0x73);
    ReturnTable(Funct7(IType(0, 0, 0, 0, 0x73)));
    IWord(1, 0, 0, 0, 0x73);
    ReturnTable(Funct7(IType(1, 0, 0, 0, 0x73)));
    IWord(2, 0, 0, 0, 0x73);
    ReturnTable(Funct7(IType(2, 0, 0, 0, 0x73)));
    IWord(0x102, 0, 0, 0, 0x73);
    ReturnTable(Funct7(IType(0x102, 0, 0, 0, 0x73)));
    IWord(0x302, 0, 0, 0, 0x73);
    ReturnTable(Funct7(IType(0x302, 0, 0, 0, 0x73)));
    IWord(0x105, 0, 0, 0, 0x73);
    ReturnTable(Funct7(IType(0x105, 0, 0, 0, 0x73)));
    RWord(9, rs2, rs1, 0, 0, 0x73);
    IWord(imm, rs1, 1, rd, 0x73);
    CsrTable(Csr(IType(imm, rs1, 1, rd, 0x73)), Funct7(IType(imm, rs1, 1, rd, 0x73)));
    IWord(imm, rs1, 2, rd, 0x73);
    CsrTable(Csr(IType(imm, rs1, 2, rd, 0x73)), Funct7(IType(imm, rs1, 2, rd, 0x73)));
    IWord(imm, rs1, 3, rd, 0x73);
    CsrTable(Csr(IType(imm, rs1, 3, rd, 0x73)), Funct7(IType(imm, rs1, 3, rd, 0x73)));
    IWord(imm, rs1, 5, rd, 0x73);
    CsrTable(Csr(IType(imm, rs1, 5, rd, 0x73)), Funct7(IType(imm, rs1, 5, rd, 0x73)));
    IWord(imm, rs1, 6, rd, 0x73);
    CsrTable(Csr(IType(imm, rs1, 6, rd, 0x73)), Funct7(IType(imm, rs1, 6, rd, 0x73)));
    IWord(imm, rs1, 7, rd, 0x73);
    CsrTable(Csr(IType(imm, rs1, 7, rd, 0x73)), Funct7(IType(imm, rs1, 7, rd, 0x73)));
  }

  lemma WideTable(top6: bv32)
    ensures DecodeOpImm32(0, top6) == OP_ADDIW
    ensures DecodeOp32(0, 0, 0) == OP_ADDW
    ensures DecodeOp32(0, 0x20, 0x10) == OP_SUBW
    ensures DecodeOp32(1, 0, 0) == OP_SLLW
    ensures DecodeOp32(5, 0, 0) == OP_SRLW
    ensures DecodeOp32(5, 0x20, 0x10) == OP_SRAW
  {
  }

  lemma WideDecoded(rd: bv32, rs1: bv32, rs2: bv32, imm: bv32)
    requires rs1 < 32 && rs2 < 32 && rd < 32
    ensures Decode(IType(imm, rs1, 0, rd, 0x1b)) == OP_ADDIW
    ensures Decode(RType(0, rs2, rs1, 0, rd, 0x3b)) == OP_ADDW
    ensures Decode(RType(0x20, rs2, rs1, 0, rd, 0x3b)) == OP_SUBW
    ensures Decode(RType(0, rs2, rs1, 1, rd, 0x3b)) == OP_SLLW
    ensures Decode(RType(0, rs2, rs1, 5, rd, 0x3b)) == OP_SRLW
    ensures Decode(RType(0x20, rs2, rs1, 5, rd, 0x3b)) == OP_SRAW
  {
    hide *;
    IWord(imm, rs1, 0, rd, 0x1b);
    WideTable(Top6(IType(imm, rs1, 0, rd, 0x1b)));
    RWord(0, rs2, rs1, 0, rd, 0x3b);
    RWord(0x20, rs2, rs1, 0, rd, 0x3b);
    RWord(0, rs2, rs1, 1, rd, 0x3b);
    RWord(0, rs2, rs1, 5, rd, 0x3b);
    RWord(0x20, rs2, rs1, 5, rd, 0x3b);
  }

  lemma WideShiftTable()
    ensures DecodeOpImm32(1, 0) == OP_SLLIW
    ensures DecodeOpImm32(5, 0) == OP_SRLIW
    ensures DecodeOpImm32(5, 0x10) == OP_SRAIW
  {
  }

  lemma WideShiftDecoded(rd: bv32, rs1: bv32, rs2: bv32, imm: bv32)
    requires rs1 < 32 && rd < 32 && imm < 32
    ensures Decode(RType(0, imm, rs1, 1, rd, 0x1b)) == OP_SLLIW
    ensures Decode(RType(0, imm, rs1, 5, rd, 0x1b)) == OP_SRLIW
    ensures Decode(RType(0x20, imm, rs1, 5, rd, 0x1b)) == OP_SRAIW
  {
    hide *;
    WideShiftTable();
    RWord(0, imm, rs1, 1, rd, 0x1b);
    RWord(0, imm, rs1, 5, rd, 0x1b);
    RWord(0x20, imm, rs1, 5, rd, 0x1b);
  }
}
