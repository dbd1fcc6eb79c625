/** The 16-bit instructions of inc/C_extension.h for RV32: a second implementation with its own
 *  fields, immediates, decoder and executor.  The word fetched is 32 bits wide; the upper half
 *  belongs to whatever follows. */
module CompressedIsa {
  import opened MemoryBus
  import opened BaseIsa
  import opened Wrappers

  // ----- fields and immediates -----

  function COpcode(w: bv32): bv32 { w & 0x3 }
  function CFunct3(w: bv32): bv32 { (w >> 13) & 0x7 }
  function CRs1(w: bv32): bv32 { (w >> 7) & 0x1f }
  function CRs2(w: bv32): bv32 { (w >> 2) & 0x1f }
  function CRdp(w: bv32): bv32 { ((w >> 2) & 0x7) + 8 }
  function CRs1p(w: bv32): bv32 { ((w >> 7) & 0x7) + 8 }
  function CRs2p(w: bv32): bv32 { ((w >> 2) & 0x7) + 8 }
  function CBit12(w: bv32): bv32 { (w >> 12) & 1 }
  function CFunct2(w: bv32): bv32 { (w >> 10) & 0x3 }
  function CFunct2b(w: bv32): bv32 { (w >> 5) & 0x3 }
  function CLow5(w: bv32): bv32 { (w >> 2) & 0x1f }
  function CMid10(w: bv32): bv32 { (w >> 2) & 0x3ff }

  function CImmJ(w: bv32): bv32 {
    var aux := (((w >> 12) & 1) << 11) | (((w >> 11) & 1) << 4) | (((w >> 10) & 1) << 9) | (((w >> 9) & 1) << 8)
             | (((w >> 8) & 1) << 10) | (((w >> 7) & 1) << 6) | (((w >> 6) & 1) << 7) | (((w >> 3) & 7) << 1)
             | (((w >> 2) & 1) << 5);
    if CBit12(w) == 1 then aux | 0xffff_f000 else aux
  }

  function CImmL(w: bv32): bv32 {
    (((w >> 10) & 7) << 3) | (((w >> 6) & 1) << 2) | (((w >> 5) & 1) << 6)
  }

  function CImmLwsp(w: bv32): bv32 {
    (((w >> 12) & 1) << 5) | (((w >> 4) & 7) << 2) | (((w >> 2) & 3) << 6)
  }

  function CImmAddi(w: bv32): bv32 {
    var aux := (((w >> 12) & 1) << 5) | ((w >> 2) & 0x1f);
    if CBit12(w) == 1 then aux | 0xffff_ffc0 else aux
  }

  function CImmAddi4spn(w: bv32): bv32 {
    (((w >> 11) & 3) << 4) | (((w >> 7) & 0xf) << 6) | (((w >> 6) & 1) << 2) | (((w >> 5) & 1) << 3)
  }

  function CImmAddi16sp(w: bv32): bv32 {
    var aux := (((w >> 12) & 1) << 9) | (((w >> 6) & 1) << 4) | (((w >> 5) & 1) << 6) | (((w >> 4) & 1) << 8)
             | (((w >> 3) & 1) << 7) | (((w >> 2) & 1) << 5);
    if CBit12(w) == 1 then aux | 0xffff_fc00 else aux
  }

  function CImmCss(w: bv32): bv32 {
    (((w >> 9) & 0xf) << 2) | (((w >> 7) & 3) << 6)
  }

  function CImmCb(w: bv32): bv32 {
    var aux := (((w >> 12) & 1) << 8) | (((w >> 11) & 1) << 4) | (((w >> 10) & 1) << 3) | (((w >> 6) & 1) << 7)
             | (((w >> 5) & 1) << 6) | (((w >> 4) & 1) << 2) | (((w >> 3) & 1) << 1) | (((w >> 2) & 1) << 5);
    if CBit12(w) == 1 then aux | 0xffff_fe00 else aux
  }

  function CImmLui(w: bv32): bv32 {
    var aux := (((w >> 12) & 1) << 17) | (((w >> 2) & 0x1f) << 12);
    if CBit12(w) == 1 then aux | 0xfffe_0000 else aux
  }

  // ----- decoding -----

  datatype COp =
    | OP_C_ADDI4SPN | OP_C_FLD | OP_C_LW | OP_C_FLW | OP_C_FSD | OP_C_SW | OP_C_FSW
    | OP_C_ADDI | OP_C_JAL | OP_C_LI | OP_C_ADDI16SP | OP_C_SRLI | OP_C_SRAI | OP_C_ANDI
    | OP_C_SUB | OP_C_SUBW | OP_C_XOR | OP_C_ADDW | OP_C_OR | OP_C_AND | OP_C_J | OP_C_BEQZ | OP_C_BNEZ
    | OP_C_SLLI | OP_C_LWSP | OP_C_FLWSP | OP_C_JR | OP_C_MV | OP_C_EBREAK | OP_C_JALR | OP_C_ADD | OP_C_SWSP
    | OP_C_FSWSP
    | OP_C_ERROR

  function CDecode0(f3: bv32): COp {
    if f3 == 0 then OP_C_ADDI4SPN else if f3 == 1 then OP_C_FLD else if f3 == 2 then OP_C_LW
    else if f3 == 3 then OP_C_FLW
    else if f3 == 5 then OP_C_FSD else if f3 == 6 then OP_C_SW else if f3 == 7 then OP_C_FSW else OP_C_ERROR
  }

  function CDecodeAlu(f2: bv32, f2b: bv32, bit12: bv32): COp {
    if f2 == 0 then OP_C_SRLI else if f2 == 1 then OP_C_SRAI else if f2 == 2 then OP_C_ANDI
    else if f2b == 0 then if bit12 == 0 then OP_C_SUB else OP_C_SUBW
    else if f2b == 1 then if bit12 == 0 then OP_C_XOR else OP_C_ADDW
    else if f2b == 2 then OP_C_OR else OP_C_AND
  }

  function CDecode1(f3: bv32, f2: bv32, f2b: bv32, bit12: bv32): COp {
    if f3 == 0 then OP_C_ADDI else if f3 == 1 then OP_C_JAL else if f3 == 2 then OP_C_LI
    else if f3 == 3 then OP_C_ADDI16SP
    else if f3 == 4 then CDecodeAlu(f2, f2b, bit12)
    else if f3 == 5 then OP_C_J else if f3 == 6 then OP_C_BEQZ else OP_C_BNEZ
  }

  function CDecodeJr(bit12: bv32, low5: bv32, mid10: bv32): COp {
    if bit12 == 0 then if low5 == 0 then OP_C_JR else OP_C_MV
    else if mid10 == 0 then OP_C_EBREAK else if low5 == 0 then OP_C_JALR else OP_C_ADD
  }

  function CDecode2(f3: bv32, bit12: bv32, low5: bv32, mid10: bv32): COp {
    if f3 == 0 then OP_C_SLLI else if f3 == 1 || f3 == 2 then OP_C_LWSP else if f3 == 3 then OP_C_FLWSP
    else if f3 == 4 then CDecodeJr(bit12, low5, mid10)
    else if f3 == 5 then OP_C_ERROR else if f3 == 6 then OP_C_SWSP else OP_C_FSWSP
  }

  /** C_extension::decode. */
  function CDecode(w: bv32): COp {
    if COpcode(w) == 0 then CDecode0(CFunct3(w))
    else if COpcode(w) == 1 then CDecode1(CFunct3(w), CFunct2(w), CFunct2b(w), CBit12(w))
    else if COpcode(w) == 2 then CDecode2(CFunct3(w), CBit12(w), CLow5(w), CMid10(w))
    else OP_C_ERROR
  }

  // ----- execution -----

  /** A shift by 32 or more is undefined behaviour. */
  predicate ShiftDefined(n: bv32) { n < 32 }

  // Exec_C_ADDI4SPN and so on.

  function ExecCADDI4SPN(s: Cpu, w: bv32): Outcome {
    if CImmAddi4spn(w) == 0 then Jumps(Raised(s, Illegal, w))
    else Runs(SetReg(s, CRdp(w), Plus(Get(s.regs, 2), CImmAddi4spn(w))))
  }

  function ExecCLW(s: Cpu, w: bv32, io: Io): Outcome {
    Loaded(s, CRdp(w), ReadData(s, Plus(Get(s.regs, CRs1p(w)), CImmL(w)), io))
  }

  function ExecCSW(s: Cpu, w: bv32): Outcome {
    Stored(WriteData(s, Plus(Get(s.regs, CRs1p(w)), CImmL(w)), Get(s.regs, CRs2p(w))))
  }

  function ExecCADDI(s: Cpu, w: bv32): Outcome {
    Runs(SetReg(s, Rd(w), Plus(Get(s.regs, Rd(w)), CImmAddi(w))))
  }

  function ExecCJAL(s: Cpu, w: bv32, rd: bv32): Outcome {
    Jumps(SetReg(s.(pc := Plus(s.pc, CImmJ(w))), rd, Plus(s.pc, 2)))
  }

  function ExecCLI(s: Cpu, w: bv32): Outcome {
    Runs(SetReg(s, Rd(w), Plus(Get(s.regs, 0), CImmAddi(w))))
  }

  function ExecCADDI16SP(s: Cpu, w: bv32): Outcome {
    if Rd(w) == 2 then Runs(SetReg(s, 2, Plus(Get(s.regs, 2), CImmAddi16sp(w))))
    else Runs(SetReg(s, Rd(w), CImmLui(w)))
  }

  function ExecCSRLI(s: Cpu, w: bv32): Outcome {
    if ShiftDefined(CImmAddi(w)) then Runs(SetReg(s, CRs1p(w), Srl(Get(s.regs, CRs1p(w)), CImmAddi(w)))) else Undefined
  }

  function ExecCSRAI(s: Cpu, w: bv32): Outcome {
    if ShiftDefined(CImmAddi(w)) then Runs(SetReg(s, CRs1p(w), Sra(Get(s.regs, CRs1p(w)), CImmAddi(w)))) else Undefined
  }

  function ExecCANDI(s: Cpu, w: bv32): Outcome {
    Runs(SetReg(s, CRs1p(w), BitAnd(Get(s.regs, CRs1p(w)), CImmAddi(w))))
  }

  function ExecCSUB(s: Cpu, w: bv32): Outcome {
    Runs(SetReg(s, CRs1p(w), Minus(Get(s.regs, CRs1p(w)), Get(s.regs, CRs2p(w)))))
  }

  function ExecCXOR(s: Cpu, w: bv32): Outcome {
    Runs(SetReg(s, CRs1p(w), BitXor(Get(s.regs, CRs1p(w)), Get(s.regs, CRs2p(w)))))
  }

  function ExecCOR(s: Cpu, w: bv32): Outcome {
    Runs(SetReg(s, CRs1p(w), BitOr(Get(s.regs, CRs1p(w)), Get(s.regs, CRs2p(w)))))
  }

  function ExecCAND(s: Cpu, w: bv32): Outcome {
    Runs(SetReg(s, CRs1p(w), BitAnd(Get(s.regs, CRs1p(w)), Get(s.regs, CRs2p(w)))))
  }

  function ExecCBEQZ(s: Cpu, w: bv32): Outcome {
    Jumps(s.(pc := Plus(s.pc, if Get(s.regs, CRs1p(w)) == 0 then CImmCb(w) else 2)))
  }

  function ExecCBNEZ(s: Cpu, w: bv32): Outcome {
    Jumps(s.(pc := Plus(s.pc, if Get(s.regs, CRs1p(w)) != 0 then CImmCb(w) else 2)))
  }

  function ExecCSLLI(s: Cpu, w: bv32): Outcome {
    if ShiftDefined(CImmAddi(w)) then Runs(SetReg(s, CRs1(w), Sll(Get(s.regs, CRs1(w)), CImmAddi(w)))) else Undefined
  }

  function ExecCLWSP(s: Cpu, w: bv32, io: Io): Outcome {
    Loaded(s, Rd(w), ReadData(s, Plus(Get(s.regs, 2), CImmLwsp(w)), io))
  }

  function ExecCJR(s: Cpu, w: bv32): Outcome {
    Jumps(s.(pc := Even(Get(s.regs, CRs1(w)))))
  }

  function ExecCMV(s: Cpu, w: bv32): Outcome {
    Runs(SetReg(s, Rd(w), Get(s.regs, CRs2(w))))
  }

  function ExecCEBREAK(s: Cpu, w: bv32): Outcome {
    Done(Raised(s, Breakpoint, w), false, true)
  }

  function ExecCJALR(s: Cpu, w: bv32): Outcome {
    Jumps(SetReg(s, 1, Plus(s.pc, 2)).(pc := Even(Get(s.regs, CRs1(w)))))
  }

  function ExecCADD(s: Cpu, w: bv32): Outcome {
    Runs(SetReg(s, CRs1(w), Plus(Get(s.regs, CRs1(w)), Get(s.regs, CRs2(w)))))
  }

  function ExecCSWSP(s: Cpu, w: bv32): Outcome {
    Stored(WriteData(s, Plus(Get(s.regs, 2), CImmCss(w)), Get(s.regs, CRs2(w))))
  }

  function ExecCSUBW(s: Cpu, w: bv32): Outcome { ExecCSUB(s, w) }

  function ExecCADDW(s: Cpu, w: bv32): Outcome {
    Runs(SetReg(s, CRs1p(w), Plus(Get(s.regs, CRs1p(w)), Get(s.regs, CRs2p(w)))))
  }

  /** Exec_C_FSW_SD: a register of 32 bits is stored as the 64-bit number shifted by one word. */
  function ExecCFSW(s: Cpu, w: bv32): Outcome {
    var a := Plus(Get(s.regs, CRs1p(w)), CImmL(w));
    match WriteData(s, a, 0)
    case None => Undefined
    case Some(c) => Stored(WriteData(c, Plus(a, 4), Get(s.regs, CRs2p(w))))
  }

  /** An operation that is not implemented stops the simulator. */
  function ExecCNOP(s: Cpu): Outcome {
    Runs(s.(stopped := true))
  }

  /** C_extension::exec_instruction; OP_C_ERROR never gets there. */
  function CExec(s: Cpu, op: COp, w: bv32, io: Io): Outcome {
    match op
    case OP_C_ADDI4SPN => ExecCADDI4SPN(s, w)
    case OP_C_LW => ExecCLW(s, w, io)
    case OP_C_SW => ExecCSW(s, w)
    case OP_C_ADDI => ExecCADDI(s, w)
    case OP_C_JAL => ExecCJAL(s, w, 1)
    case OP_C_J => ExecCJAL(s, w, 0)
    case OP_C_LI => ExecCLI(s, w)
    case OP_C_ADDI16SP => ExecCADDI16SP(s, w)
    case OP_C_SRLI => ExecCSRLI(s, w)
    case OP_C_SRAI => ExecCSRAI(s, w)
    case OP_C_ANDI => ExecCANDI(s, w)
    case OP_C_SUB => ExecCSUB(s, w)
    case OP_C_XOR => ExecCXOR(s, w)
    case OP_C_OR => ExecCOR(s, w)
    case OP_C_AND => ExecCAND(s, w)
    case OP_C_BEQZ => ExecCBEQZ(s, w)
    case OP_C_BNEZ => ExecCBNEZ(s, w)
    case OP_C_SLLI => ExecCSLLI(s, w)
    case OP_C_LWSP => ExecCLWSP(s, w, io)
    case OP_C_JR => ExecCJR(s, w)
    case OP_C_MV => ExecCMV(s, w)
    case OP_C_EBREAK => ExecCEBREAK(s, w)
    case OP_C_JALR => ExecCJALR(s, w)
    case OP_C_ADD => ExecCADD(s, w)
    case OP_C_SWSP => ExecCSWSP(s, w)
    case OP_C_SUBW => ExecCSUBW(s, w)
    case OP_C_ADDW => ExecCADDW(s, w)
    case OP_C_FSW => ExecCFSW(s, w)
    case OP_C_FLWSP => Runs(s)
    case OP_C_ERROR => Unmodelled
    case _ => ExecCNOP(s)
  }
}
