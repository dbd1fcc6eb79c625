/** The RV32 processor as it runs: a register bank, a PC and the memory interface, changed by one
 *  method per instruction as in inc/BASE_ISA.h and inc/C_extension.h, by the M unit, and by CPU_step. */
module Hart {
  import opened MemoryBus
  import opened BaseIsa
  import opened CompressedIsa
  import opened RegisterBank
  import opened Wrappers
  import MUnits
  import Rv32

  class Cpu {
    const regs: Registers
    const mem_intf: MemoryInterface
    const m_inst: MUnits.MUnit32
    var m_instr: bv32
    var stopped: bool

    ghost predicate Valid()
      reads regs.register_bank, mem_intf, mem_intf.bus, mem_intf.bus.memory
    {
      && regs.Valid() && mem_intf.Valid() && m_inst.regs == regs
      && (regs.register_bank as object) != (mem_intf.bus.memory.mem as object)
    }

    ghost function Value(): BaseIsa.Cpu
      requires Valid()
      reads this, regs, regs.register_bank, mem_intf, mem_intf.bus, mem_intf.bus.memory, mem_intf.bus.memory.mem
    {
      BaseIsa.Cpu(regs.register_bank[..], regs.register_PC, mem_intf.bus.memory.mem[..], regs.csrs, stopped)
    }

    /** CPURV32, which starts at PC with the stack pointer at a quarter of the memory. */
    constructor (mem_intf: MemoryInterface, PC: bv32)
      requires mem_intf.Valid()
      ensures Valid() && this.mem_intf == mem_intf && fresh(regs) && fresh(regs.register_bank)
      ensures Value().regs == Set(seq(32, _ => 0), 2, 0x3f_ffff) && Value().pc == PC && !stopped
    {
      this.mem_intf := mem_intf;
      var bank := new Registers();
      regs := bank;
      m_inst := new MUnits.MUnit32(bank);
      m_instr, stopped := 0, false;
      new;
      regs.register_PC := PC;
      regs.SetValue(2, 0x3f_ffff);
      assert regs.register_bank[..] == Set(seq(32, _ => 0), 2, 0x3f_ffff);
    }

    /** extension_base::RaiseException. */
    method RaiseException(cause: Cause, inst: bv32)
      requires Valid()
      modifies this`stopped, regs`csrs, regs`register_PC
      ensures Valid()
      ensures Value() == Raised(old(Value()), cause, inst)
    {
      var current_pc, new_pc := regs.register_PC, regs.csrs.mtvec;
      var m_cause := BitOr(regs.csrs.mstatus, CauseCode(cause));
      regs.csrs := regs.csrs.(mepc := current_pc);
      match cause {
        case Illegal => regs.csrs := regs.csrs.(mtval := inst);
        case Breakpoint => stopped := true;
        case CallFromM => regs.csrs := regs.csrs.(mtval := 0);
      }
      regs.csrs := regs.csrs.(mcause := CauseCode(cause), mstatus := m_cause);
      regs.register_PC := new_pc;
    }

    /** Two helpers for the loads and stores of a word. */
    method LoadWord(mem_addr: bv32, io: Io) returns (data: bv32)
      requires Valid() && ReadData(Value(), mem_addr, io).Some?
      modifies mem_intf.bus.memory.mem
      ensures Valid()
      ensures Value() == old(Value()) && ReadData(Value(), mem_addr, io) == Some(data)
    {
      hide ReadWord, ToBits, FromBits;
      var x, error := mem_intf.ReadDataMem(FromBits(mem_addr), 4, io.junk, io.answer);
      data := ToBits(x);
    }

    method StoreWord(mem_addr: bv32, data: bv32)
      requires Valid() && WriteData(Value(), mem_addr, data).Some?
      modifies mem_intf.bus.memory.mem
      ensures Valid()
      ensures Some(Value()) == WriteData(old(Value()), mem_addr, data)
    {
      hide Written, FromBits;
      var error := mem_intf.WriteDataMem(FromBits(mem_addr), FromBits(data), 4);
    }

    // ----- Exec_LUI and so on -----

    method LUI()
      requires Valid()
      modifies regs.register_bank
      ensures Valid()
      ensures BaseIsa.ExecLUI(old(Value()), m_instr) == Runs(Value())
    {
      regs.SetValue(Rd(m_instr), Upper(ImmU(m_instr)));
    }

    method JAL()
      requires Valid()
      modifies regs.register_bank, regs`register_PC
      ensures Valid()
      ensures BaseIsa.ExecJAL(old(Value()), m_instr, 4) == Jumps(Value())
    {
      var old_pc := regs.register_PC;
      regs.register_PC := Plus(old_pc, ImmJ(m_instr));
      regs.SetValue(Rd(m_instr), Plus(old_pc, 4));
    }

    method JALR()
      requires Valid()
      modifies regs.register_bank, regs`register_PC
      ensures Valid()
      ensures BaseIsa.ExecJALR(old(Value()), m_instr, 4) == Jumps(Value())
    {
      var old_pc := regs.register_PC;
      var x := regs.GetValue(Rs1(m_instr));
      var new_pc := Even(Plus(x, ImmI(m_instr)));
      regs.SetValue(Rd(m_instr), Plus(old_pc, 4));
      regs.register_PC := new_pc;
    }

    method BEQ()
      requires Valid()
      modifies regs`register_PC
      ensures Valid()
      ensures BaseIsa.ExecBEQ(old(Value()), m_instr, 4) == Jumps(Value())
    {
      var x := regs.GetValue(Rs1(m_instr));
      var y := regs.GetValue(Rs2(m_instr));
      if x == y {
        regs.register_PC := Plus(regs.register_PC, ImmB(m_instr));
      } else {
        regs.IncPC();
      }
    }

    method BNE()
      requires Valid()
      modifies regs`register_PC
      ensures Valid()
      ensures BaseIsa.ExecBNE(old(Value()), m_instr, 4) == Jumps(Value())
    {
      var x := regs.GetValue(Rs1(m_instr));
      var y := regs.GetValue(Rs2(m_instr));
      if x != y {
        regs.register_PC := Plus(regs.register_PC, ImmB(m_instr));
      } else {
        regs.IncPC();
      }
    }

    method LW(io: Io)
      requires Valid() && BaseIsa.ExecLW(Value(), m_instr, io).Done?
      modifies regs.register_bank, mem_intf.bus.memory.mem
      ensures Valid()
      ensures BaseIsa.ExecLW(old(Value()), m_instr, io) == Runs(Value())
    {
      hide ReadData, Plus, Get, Set;
      var x := regs.GetValue(Rs1(m_instr));
      var data := LoadWord(Plus(x, ImmI(m_instr)), io);
      regs.SetValue(Rd(m_instr), data);
    }

    method SW()
      requires Valid() && BaseIsa.ExecSW(Value(), m_instr).Done?
      modifies mem_intf.bus.memory.mem
      ensures Valid()
      ensures BaseIsa.ExecSW(old(Value()), m_instr) == Runs(Value())
    {
      var x := regs.GetValue(Rs1(m_instr));
      var y := regs.GetValue(Rs2(m_instr));
      StoreWord(Plus(x, ImmS(m_instr)), y);
    }

    method ADDI()
      requires Valid()
      modifies regs.register_bank
      ensures Valid()
      ensures BaseIsa.ExecADDI(old(Value()), m_instr) == Runs(Value())
    {
      var x := regs.GetValue(Rs1(m_instr));
      regs.SetValue(Rd(m_instr), Plus(x, ImmI(m_instr)));
    }

    method ANDI()
      requires Valid()
      modifies regs.register_bank
      ensures Valid()
      ensures BaseIsa.ExecANDI(old(Value()), m_instr) == Runs(Value())
    {
      var x := regs.GetValue(Rs1(m_instr));
      regs.SetValue(Rd(m_instr), BitAnd(x, ImmI(m_instr)));
    }

    method SLLI() returns (PC_not_affected: bool)
      requires Valid()
      modifies this`stopped, regs.register_bank, regs`csrs, regs`register_PC
      ensures Valid()
      ensures BaseIsa.ExecSLLI(old(Value()), m_instr) == Done(Value(), PC_not_affected, false)
    {
      var x := regs.GetValue(Rs1(m_instr));
      if Shamt(m_instr) >= 0x20 {
        stopped := true;
        RaiseException(Illegal, m_instr);
        return false;
      }
      regs.SetValue(Rd(m_instr), Sll(x, Low5(Shamt(m_instr))));
      PC_not_affected := true;
    }

    method SRLI()
      requires Valid()
      modifies regs.register_bank
      ensures Valid()
      ensures BaseIsa.ExecSRLI(old(Value()), m_instr) == Runs(Value())
    {
      var x := regs.GetValue(Rs1(m_instr));
      regs.SetValue(Rd(m_instr), Srl(x, Low5(Rs2(m_instr))));
    }

    method SRAI()
      requires Valid()
      modifies regs.register_bank
      ensures Valid()
      ensures BaseIsa.ExecSRAI(old(Value()), m_instr) == Runs(Value())
    {
      var x := regs.GetValue(Rs1(m_instr));
      regs.SetValue(Rd(m_instr), Sra(x, Low5(Rs2(m_instr))));
    }

    method ADD()
      requires Valid()
      modifies regs.register_bank
      ensures Valid()
      ensures BaseIsa.ExecADD(old(Value()), m_instr) == Runs(Value())
    {
      var x := regs.GetValue(Rs1(m_instr));
      var y := regs.GetValue(Rs2(m_instr));
      regs.SetValue(Rd(m_instr), Plus(x, y));
    }

    method SUB()
      requires Valid()
      modifies regs.register_bank
      ensures Valid()
      ensures BaseIsa.ExecSUB(old(Value()), m_instr) == Runs(Value())
    {
      var x := regs.GetValue(Rs1(m_instr));
      var y := regs.GetValue(Rs2(m_instr));
      regs.SetValue(Rd(m_instr), Minus(x, y));
    }

    method XOR()
      requires Valid()
      modifies regs.register_bank
      ensures Valid()
      ensures BaseIsa.ExecXOR(old(Value()), m_instr) == Runs(Value())
    {
      var x := regs.GetValue(Rs1(m_instr));
      var y := regs.GetValue(Rs2(m_instr));
      regs.SetValue(Rd(m_instr), BitXor(x, y));
    }

    method OR()
      requires Valid()
      modifies regs.register_bank
      ensures Valid()
      ensures BaseIsa.ExecOR(old(Value()), m_instr) == Runs(Value())
    {
      var x := regs.GetValue(Rs1(m_instr));
      var y := regs.GetValue(Rs2(m_instr));
      regs.SetValue(Rd(m_instr), BitOr(x, y));
    }

    method AND()
      requires Valid()
      modifies regs.register_bank
      ensures Valid()
      ensures BaseIsa.ExecAND(old(Value()), m_instr) == Runs(Value())
    {
      var x := regs.GetValue(Rs1(m_instr));
      var y := regs.GetValue(Rs2(m_instr));
      regs.SetValue(Rd(m_instr), BitAnd(x, y));
    }

    method EBREAK()
      requires Valid()
      modifies this`stopped, regs`csrs, regs`register_PC
      ensures Valid()
      ensures BaseIsa.ExecEBREAK(old(Value()), m_instr) == Jumps(Value())
    {
      RaiseException(Breakpoint, m_instr);
    }

    /** BASE_ISA::exec_instruction. */
    method ExecBase(code: BaseOp, io: Io) returns (PC_not_affected: bool, breakpoint: bool)
      requires Valid() && Exec(Value(), code, m_instr, 4, io).Done?
      modifies this`stopped, regs.register_bank, regs`csrs, regs`register_PC, mem_intf.bus.memory.mem
      ensures Valid()
      ensures Exec(old(Value()), code, m_instr, 4, io) == Done(Value(), PC_not_affected, breakpoint)
    {
      hide BaseIsa.ExecLUI, BaseIsa.ExecJAL, BaseIsa.ExecJALR, BaseIsa.ExecBEQ, BaseIsa.ExecBNE, BaseIsa.ExecLW;
      hide BaseIsa.ExecSW, BaseIsa.ExecADDI, BaseIsa.ExecANDI, BaseIsa.ExecSLLI, BaseIsa.ExecSRLI;
      hide BaseIsa.ExecSRAI, BaseIsa.ExecADD, BaseIsa.ExecSUB, BaseIsa.ExecXOR, BaseIsa.ExecOR, BaseIsa.ExecAND;
      hide BaseIsa.ExecEBREAK;
      PC_not_affected, breakpoint := true, false;
      match code {
        case OP_LUI => LUI();
        case OP_JAL =>
          JAL();
          PC_not_affected := false;
        case OP_JALR =>
          JALR();
          PC_not_affected := false;
        case OP_BEQ =>
          BEQ();
          PC_not_affected := false;
        case OP_BNE =>
          BNE();
          PC_not_affected := false;
        case OP_LW => LW(io);
        case OP_SW => SW();
        case OP_ADDI => ADDI();
        case OP_ANDI => ANDI();
        case OP_SLLI => PC_not_affected := SLLI();
        case OP_SRLI => SRLI();
        case OP_SRAI => SRAI();
        case OP_ADD => ADD();
        case OP_SUB => SUB();
        case OP_XOR => XOR();
        case OP_OR => OR();
        case OP_AND => AND();
        case OP_EBREAK =>
          EBREAK();
          PC_not_affected := false;
        case _ => assert false;
      }
    }

    // ----- Exec_C_ADDI4SPN and so on -----

    method C_ADDI4SPN() returns (PC_not_affected: bool)
      requires Valid()
      modifies this`stopped, regs.register_bank, regs`csrs, regs`register_PC
      ensures Valid()
      ensures ExecCADDI4SPN(old(Value()), m_instr) == Done(Value(), PC_not_affected, false)
    {
      var imm := CImmAddi4spn(m_instr);
      if imm == 0 {
        RaiseException(Illegal, m_instr);
        return false;
      }
      var x := regs.GetValue(2);
      regs.SetValue(CRdp(m_instr), Plus(x, imm));
      PC_not_affected := true;
    }

    method C_LW(io: Io)
      requires Valid() && ExecCLW(Value(), m_instr, io).Done?
      modifies regs.register_bank, mem_intf.bus.memory.mem
      ensures Valid()
      ensures ExecCLW(old(Value()), m_instr, io) == Runs(Value())
    {
      hide ReadData, Plus, Get, Set;
      var x := regs.GetValue(CRs1p(m_instr));
      var data := LoadWord(Plus(x, CImmL(m_instr)), io);
      regs.SetValue(CRdp(m_instr), data);
    }

    method C_SW()
      requires Valid() && ExecCSW(Value(), m_instr).Done?
      modifies mem_intf.bus.memory.mem
      ensures Valid()
      ensures ExecCSW(old(Value()), m_instr) == Runs(Value())
    {
      var x := regs.GetValue(CRs1p(m_instr));
      var y := regs.GetValue(CRs2p(m_instr));
      StoreWord(Plus(x, CImmL(m_instr)), y);
    }

    method C_ADDI()
      requires Valid()
      modifies regs.register_bank
      ensures Valid()
      ensures ExecCADDI(old(Value()), m_instr) == Runs(Value())
    {
      var x := regs.GetValue(Rd(m_instr));
      regs.SetValue(Rd(m_instr), Plus(x, CImmAddi(m_instr)));
    }

    method C_JAL(rd: bv32)
      requires Valid()
      modifies regs.register_bank, regs`register_PC
      ensures Valid()
      ensures ExecCJAL(old(Value()), m_instr, rd) == Jumps(Value())
    {
      var old_pc := regs.register_PC;
      regs.register_PC := Plus(old_pc, CImmJ(m_instr));
      regs.SetValue(rd, Plus(old_pc, 2));
    }

    method C_LI()
      requires Valid()
      modifies regs.register_bank
      ensures Valid()
      ensures ExecCLI(old(Value()), m_instr) == Runs(Value())
    {
      var x := regs.GetValue(0);
      regs.SetValue(Rd(m_instr), Plus(x, CImmAddi(m_instr)));
    }

    method C_ADDI16SP()
      requires Valid()
      modifies regs.register_bank
      ensures Valid()
      ensures ExecCADDI16SP(old(Value()), m_instr) == Runs(Value())
    {
      if Rd(m_instr) == 2 {
        var x := regs.GetValue(2);
        regs.SetValue(2, Plus(x, CImmAddi16sp(m_instr)));
      } else {
        regs.SetValue(Rd(m_instr), CImmLui(m_instr));
      }
    }

    method C_SRLI()
      requires Valid() && ShiftDefined(CImmAddi(m_instr))
      modifies regs.register_bank
      ensures Valid()
      ensures ExecCSRLI(old(Value()), m_instr) == Runs(Value())
    {
      var x := regs.GetValue(CRs1p(m_instr));
      regs.SetValue(CRs1p(m_instr), Srl(x, CImmAddi(m_instr)));
    }

    method C_SRAI()
      requires Valid() && ShiftDefined(CImmAddi(m_instr))
      modifies regs.register_bank
      ensures Valid()
      ensures ExecCSRAI(old(Value()), m_instr) == Runs(Value())
    {
      var x := regs.GetValue(CRs1p(m_instr));
      regs.SetValue(CRs1p(m_instr), Sra(x, CImmAddi(m_instr)));
    }

    method C_ANDI()
      requires Valid()
      modifies regs.register_bank
      ensures Valid()
      ensures ExecCANDI(old(Value()), m_instr) == Runs(Value())
    {
      var x := regs.GetValue(CRs1p(m_instr));
      regs.SetValue(CRs1p(m_instr), BitAnd(x, CImmAddi(m_instr)));
    }

    method C_SUB()
      requires Valid()
      modifies regs.register_bank
      ensures Valid()
      ensures ExecCSUB(old(Value()), m_instr) == Runs(Value())
    {
      var x := regs.GetValue(CRs1p(m_instr));
      var y := regs.GetValue(CRs2p(m_instr));
      regs.SetValue(CRs1p(m_instr), Minus(x, y));
    }

    method C_XOR()
      requires Valid()
      modifies regs.register_bank
      ensures Valid()
      ensures ExecCXOR(old(Value()), m_instr) == Runs(Value())
    {
      var x := regs.GetValue(CRs1p(m_instr));
      var y := regs.GetValue(CRs2p(m_instr));
      regs.SetValue(CRs1p(m_instr), BitXor(x, y));
    }

    method C_OR()
      requires Valid()
      modifies regs.register_bank
      ensures Valid()
      ensures ExecCOR(old(Value()), m_instr) == Runs(Value())
    {
      var x := regs.GetValue(CRs1p(m_instr));
      var y := regs.GetValue(CRs2p(m_instr));
      regs.SetValue(CRs1p(m_instr), BitOr(x, y));
    }

    method C_AND()
      requires Valid()
      modifies regs.register_bank
      ensures Valid()
      ensures ExecCAND(old(Value()), m_instr) == Runs(Value())
    {
      var x := regs.GetValue(CRs1p(m_instr));
      var y := regs.GetValue(CRs2p(m_instr));
      regs.SetValue(CRs1p(m_instr), BitAnd(x, y));
    }

    method C_BEQZ()
      requires Valid()
      modifies regs`register_PC
      ensures Valid()
      ensures ExecCBEQZ(old(Value()), m_instr) == Jumps(Value())
    {
      var x := regs.GetValue(CRs1p(m_instr));
      if x == 0 {
        regs.register_PC := Plus(regs.register_PC, CImmCb(m_instr));
      } else {
        regs.IncPCby2();
      }
    }

    method C_BNEZ()
      requires Valid()
      modifies regs`register_PC
      ensures Valid()
      ensures ExecCBNEZ(old(Value()), m_instr) == Jumps(Value())
    {
      var x := regs.GetValue(CRs1p(m_instr));
      if x != 0 {
        regs.register_PC := Plus(regs.register_PC, CImmCb(m_instr));
      } else {
        regs.IncPCby2();
      }
    }

    method C_SLLI()
      requires Valid() && ShiftDefined(CImmAddi(m_instr))
      modifies regs.register_bank
      ensures Valid()
      ensures ExecCSLLI(old(Value()), m_instr) == Runs(Value())
    {
      var x := regs.GetValue(CRs1(m_instr));
      regs.SetValue(CRs1(m_instr), Sll(x, CImmAddi(m_instr)));
    }

    method C_LWSP(io: Io)
      requires Valid() && ExecCLWSP(Value(), m_instr, io).Done?
      modifies regs.register_bank, mem_intf.bus.memory.mem
      ensures Valid()
      ensures ExecCLWSP(old(Value()), m_instr, io) == Runs(Value())
    {
      hide ReadData, Plus, Get, Set;
      var x := regs.GetValue(2);
      var data := LoadWord(Plus(x, CImmLwsp(m_instr)), io);
      regs.SetValue(Rd(m_instr), data);
    }

    method C_JR()
      requires Valid()
      modifies regs`register_PC
      ensures Valid()
      ensures ExecCJR(old(Value()), m_instr) == Jumps(Value())
    {
      var x := regs.GetValue(CRs1(m_instr));
      regs.register_PC := Even(x);
    }

    method C_MV()
      requires Valid()
      modifies regs.register_bank
      ensures Valid()
      ensures ExecCMV(old(Value()), m_instr) == Runs(Value())
    {
      var y := regs.GetValue(CRs2(m_instr));
      regs.SetValue(Rd(m_instr), y);
    }

    method C_EBREAK()
      requires Valid()
      modifies this`stopped, regs`csrs, regs`register_PC
      ensures Valid()
      ensures ExecCEBREAK(old(Value()), m_instr) == Done(Value(), false, true)
    {
      RaiseException(Breakpoint, m_instr);
    }

    method C_JALR()
      requires Valid()
      modifies regs.register_bank, regs`register_PC
      ensures Valid()
      ensures ExecCJALR(old(Value()), m_instr) == Jumps(Value())
    {
      var x := regs.GetValue(CRs1(m_instr));
      var old_pc, new_pc := regs.register_PC, Even(x);
      regs.SetValue(1, Plus(old_pc, 2));
      regs.register_PC := new_pc;
    }

    method C_ADD()
      requires Valid()
      modifies regs.register_bank
      ensures Valid()
      ensures ExecCADD(old(Value()), m_instr) == Runs(Value())
    {
      var x := regs.GetValue(CRs1(m_instr));
      var y := regs.GetValue(CRs2(m_instr));
      regs.SetValue(CRs1(m_instr), Plus(x, y));
    }

    method C_SWSP()
      requires Valid() && ExecCSWSP(Value(), m_instr).Done?
      modifies mem_intf.bus.memory.mem
      ensures Valid()
      ensures ExecCSWSP(old(Value()), m_instr) == Runs(Value())
    {
      var x := regs.GetValue(2);
      var y := regs.GetValue(CRs2(m_instr));
      StoreWord(Plus(x, CImmCss(m_instr)), y);
    }

    method C_SUBW()
      requires Valid()
      modifies regs.register_bank
      ensures Valid()
      ensures ExecCSUBW(old(Value()), m_instr) == Runs(Value())
    {
      var x := regs.GetValue(CRs1p(m_instr));
      var y := regs.GetValue(CRs2p(m_instr));
      regs.SetValue(CRs1p(m_instr), Minus(x, y));
    }

    method C_ADDW()
      requires Valid()
      modifies regs.register_bank
      ensures Valid()
      ensures ExecCADDW(old(Value()), m_instr) == Runs(Value())
    {
      var x := regs.GetValue(CRs1p(m_instr));
      var y := regs.GetValue(CRs2p(m_instr));
      regs.SetValue(CRs1p(m_instr), Plus(x, y));
    }

    method C_FSW_SD()
      requires Valid() && ExecCFSW(Value(), m_instr).Done?
      modifies mem_intf.bus.memory.mem
      ensures Valid()
      ensures ExecCFSW(old(Value()), m_instr) == Runs(Value())
    {
      hide WriteData, Plus, Get;
      var x := regs.GetValue(CRs1p(m_instr));
      var y := regs.GetValue(CRs2p(m_instr));
      var mem_addr := Plus(x, CImmL(m_instr));
      StoreWord(mem_addr, 0);
      StoreWord(Plus(mem_addr, 4), y);
    }

    /** C_extension::exec_instruction. */
    method ExecCompressed(code: COp, io: Io) returns (PC_not_affected: bool, breakpoint: bool)
      requires Valid() && CExec(Value(), code, m_instr, io).Done?
      modifies this`stopped, regs.register_bank, regs`csrs, regs`register_PC, mem_intf.bus.memory.mem
      ensures Valid()
      ensures CExec(old(Value()), code, m_instr, io) == Done(Value(), PC_not_affected, breakpoint)
    {
      hide ExecCADDI4SPN, ExecCLW, ExecCSW, ExecCADDI, ExecCJAL, ExecCLI, ExecCADDI16SP, ExecCANDI, ExecCSUB;
      hide ExecCXOR, ExecCOR, ExecCAND, ExecCBEQZ, ExecCBNEZ, ExecCLWSP, ExecCJR, ExecCMV, ExecCEBREAK, ExecCJALR;
      hide ExecCADD, ExecCSWSP, ExecCSUBW, ExecCADDW, ExecCFSW;
      PC_not_affected, breakpoint := true, false;
      match code {
        case OP_C_ADDI4SPN => PC_not_affected := C_ADDI4SPN();
        case OP_C_LW => C_LW(io);
        case OP_C_SW => C_SW();
        case OP_C_ADDI => C_ADDI();
        case OP_C_JAL =>
          C_JAL(1);
          PC_not_affected := false;
        case OP_C_J =>
          C_JAL(0);
          PC_not_affected := false;
        case OP_C_LI => C_LI();
        case OP_C_ADDI16SP => C_ADDI16SP();
        case OP_C_SRLI => C_SRLI();
        case OP_C_SRAI => C_SRAI();
        case OP_C_ANDI => C_ANDI();
        case OP_C_SUB => C_SUB();
        case OP_C_XOR => C_XOR();
        case OP_C_OR => C_OR();
        case OP_C_AND => C_AND();
        case OP_C_BEQZ =>
          C_BEQZ();
          PC_not_affected := false;
        case OP_C_BNEZ =>
          C_BNEZ();
          PC_not_affected := false;
        case OP_C_SLLI => C_SLLI();
        case OP_C_LWSP => C_LWSP(io);
        case OP_C_JR =>
          C_JR();
          PC_not_affected := false;
        case OP_C_MV => C_MV();
        case OP_C_EBREAK =>
          C_EBREAK();
          PC_not_affected, breakpoint := false, true;
        case OP_C_JALR =>
          C_JALR();
          PC_not_affected := false;
        case OP_C_ADD => C_ADD();
        case OP_C_SWSP => C_SWSP();
        case OP_C_SUBW => C_SUBW();
        case OP_C_ADDW => C_ADDW();
        case OP_C_FSW => C_FSW_SD();
        case OP_C_FLWSP =>
        case OP_C_ERROR => assert false;
        case _ => stopped := true;
      }
    }

    /** M_extension::exec_instruction. */
    method ExecM(code: Rv32.MOp)
      requires Valid() && code != Rv32.OP_M_ERROR
      modifies regs.register_bank
      ensures Valid()
      ensures Rv32.ExecM(old(Value()), code, m_instr) == Runs(Value())
    {
      hide FromBits, ToBits, Get, Set, Rd, Rs1, Rs2;
      var rd, rs1, rs2 := Rd(m_instr), Rs1(m_instr), Rs2(m_instr);
      match code {
        case OP_M_MUL => m_inst.MUL(rd, rs1, rs2);
        case OP_M_MULH => m_inst.MULH(rd, rs1, rs2);
        case OP_M_MULHSU => m_inst.MULHSU(rd, rs1, rs2);
        case OP_M_MULHU => m_inst.MULHU(rd, rs1, rs2);
        case OP_M_DIV => m_inst.DIV(rd, rs1, rs2);
        case OP_M_DIVU => m_inst.DIVU(rd, rs1, rs2);
        case OP_M_REM => m_inst.REM(rd, rs1, rs2);
        case OP_M_REMU => m_inst.REMU(rd, rs1, rs2);
        case OP_M_MULW => m_inst.MULW(rd, rs1, rs2);
        case OP_M_DIVW => m_inst.DIVW(rd, rs1, rs2);
        case OP_M_DIVUW => m_inst.DIVUW(rd, rs1, rs2);
        case OP_M_REMW => m_inst.REMW(rd, rs1, rs2);
        case OP_M_REMUW => m_inst.REMUW(rd, rs1, rs2);
      }
    }

    /** CPURV32::CPU_step for a fetched word whose effect is modelled and defined. */
    method CpuStep(INSTR: bv32, io: Io) returns (breakpoint: bool)
      requires Valid() && Rv32.Step(Value(), INSTR, io).Done?
      modifies this, regs, regs.register_bank, mem_intf.bus.memory.mem
      ensures Valid() && Value() == Rv32.Step(old(Value()), INSTR, io).cpu
      ensures breakpoint == Rv32.Step(old(Value()), INSTR, io).breakpoint
    {
      hide Exec, CExec, Decode, CDecode, Rv32.MDecode, Rv32.ADecode, Rv32.ExecM, Plus;
      m_instr, breakpoint := INSTR, false;
      var deco := Decode(INSTR);
      var PC_not_affected;
      if deco != OP_ERROR {
        PC_not_affected, breakpoint := ExecBase(deco, io);
        if PC_not_affected {
          regs.IncPC();
        }
      } else {
        var c_deco := CDecode(INSTR);
        if c_deco != OP_C_ERROR {
          PC_not_affected, breakpoint := ExecCompressed(c_deco, io);
          if PC_not_affected {
            regs.IncPCby2();
          }
        } else {
          var m_deco := Rv32.MDecode(INSTR);
          if m_deco != Rv32.OP_M_ERROR {
            ExecM(m_deco);
            regs.IncPC();
          } else {
            stopped := true;
          }
        }
      }
    }
  }
}
