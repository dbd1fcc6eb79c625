/** The 32-bit base instructions of inc/BASE_ISA.h and src/BASE_ISA.cpp for RV32: fields,
 *  immediates, decoding, and the effect of the instructions that compressed forms expand to. */
module BaseIsa {
  import opened MemoryBus
  import opened Wrappers

  // ----- state -----

  /** The register bank; x0 is zero. */
  type Bank = s: seq<bv32> | |s| == 32 && s[0] == 0 witness seq(32, _ => 0)
  type Image = s: seq<byte> | |s| == SIZE witness seq(SIZE, _ => 0)
  type Quad = s: seq<byte> | |s| == 4 witness [0, 0, 0, 0]

  /** The control and status registers that an exception touches. */
  datatype Csrs = Csrs(mstatus: bv32, mtvec: bv32, mepc: bv32, mcause: bv32, mtval: bv32)

  datatype Cpu = Cpu(regs: Bank, pc: bv32, mem: Image, csrs: Csrs, stopped: bool)

  /** What the outside supplies to a data read: stale buffer contents and a timer register. */
  datatype Io = Io(junk: Quad, answer: Quad)

  /** Undefined: an access across the end of main memory, one that ends the simulation, or a shift by
      32 or more.  Unmodelled: not part of this model. */
  datatype Outcome = Undefined | Unmodelled | Done(cpu: Cpu, pcNotAffected: bool, breakpoint: bool)

  /** Registers::getValue and setValue. */
  function Get(regs: Bank, r: bv32): bv32 {
    if r < 32 then regs[r as int] else 0xffff_ffff
  }

  function Set(regs: Bank, r: bv32, v: bv32): Bank {
    if r != 0 && r < 32 then regs[r as int := v] else regs
  }

  /** x0 is never written; a register that has been written reads back. */
  lemma SetThenGet(regs: Bank, r: bv32, v: bv32, q: bv32)
    ensures Get(regs, 0) == 0
    ensures Get(Set(regs, r, v), q) == if q == r && r != 0 && r < 32 then v else Get(regs, q)
  {
  }

  function SetReg(s: Cpu, r: bv32, v: bv32): Cpu {
    s.(regs := Set(s.regs, r, v))
  }

  /** The instruction has left CSRs and registers alone, except rd if that is not x0. */
  ghost predicate KeepsOthers(s: Cpu, c: Cpu, rd: bv32) {
    && c.csrs == s.csrs && c.stopped == s.stopped
    && forall q: bv32 :: q != rd || q == 0 ==> Get(c.regs, q) == Get(s.regs, q)
  }

  lemma SetRegKeeps(s: Cpu, rd: bv32, v: bv32)
    ensures KeepsOthers(s, SetReg(s, rd, v), rd)
    ensures 0 < rd < 32 ==> Get(SetReg(s, rd, v).regs, rd) == v
  {
  }

  datatype Cause = Illegal | Breakpoint | CallFromM

  function CauseCode(c: Cause): bv32 {
    match c
    case Illegal => 2
    case Breakpoint => 3
    case CallFromM => 11
  }

  /** RaiseException. */
  function Raised(s: Cpu, c: Cause, inst: bv32): Cpu {
    var tval := if c.Illegal? then inst else if c.Breakpoint? then s.csrs.mtval else 0;
    s.(csrs := Csrs(BitOr(s.csrs.mstatus, CauseCode(c)), s.csrs.mtvec, s.pc, CauseCode(c), tval),
       pc := s.csrs.mtvec, stopped := s.stopped || c.Breakpoint?)
  }

  function ToBits(x: word): bv32 { x as bv32 }

  function FromBits(b: bv32): word { b as int }

  /** An access of four bytes that is defined and returns. */
  predicate Returns(a: Address) {
    Defined(a, 4) && !Reported(a)
  }

  /** readDataMem and writeDataMem of four bytes at a 32-bit address. */
  function ReadData(s: Cpu, address: bv32, io: Io): Option<bv32> {
    var a: Address := FromBits(address);
    if Returns(a) then Some(ToBits(ReadWord(s.mem, a, 4, io.junk, io.answer))) else None
  }

  function WriteData(s: Cpu, address: bv32, data: bv32): Option<Cpu> {
    var a: Address := FromBits(address);
    if Returns(a) then Some(s.(mem := Written(s.mem, a, 4, FromBits(data)))) else None
  }

  // ----- fields and immediates -----

  function Opcode(w: bv32): bv32 { w & 0x7f }
  function Rd(w: bv32): bv32 { (w >> 7) & 0x1f }
  function Funct3(w: bv32): bv32 { (w >> 12) & 0x7 }
  function Rs1(w: bv32): bv32 { (w >> 15) & 0x1f }
  function Rs2(w: bv32): bv32 { (w >> 20) & 0x1f }
  function Shamt(w: bv32): bv32 { (w >> 20) & 0x3f }
  function Funct7(w: bv32): bv32 { w >> 25 }
  function Top6(w: bv32): bv32 { w >> 26 }
  function Csr(w: bv32): bv32 { w >> 20 }

  /** One bit of the word, as 0 or 1. */
  function Sign(w: bv32): bv32 { w >> 31 }

  function ImmI(w: bv32): bv32 {
    if Sign(w) == 1 then (w >> 20) | 0xffff_f000 else w >> 20
  }

  function ImmS(w: bv32): bv32 {
    var aux := ((w >> 25) << 5) | ((w >> 7) & 0x1f);
    if Sign(w) == 1 then aux | 0xffff_f000 else aux
  }

  function ImmB(w: bv32): bv32 {
    var aux := (((w >> 7) & 1) << 11) | (((w >> 25) & 0x3f) << 5) | ((w >> 31) << 12) | (((w >> 8) & 0xf) << 1);
    if Sign(w) == 1 then aux | 0xffff_f000 else aux
  }

  function ImmU(w: bv32): bv32 { w >> 12 }

  function ImmJ(w: bv32): bv32 {
    var aux := ((w >> 31) << 20) | (((w >> 12) & 0xff) << 12) | (((w >> 20) & 1) << 11) | (((w >> 21) & 0x3ff) << 1);
    if Sign(w) == 1 then aux | 0xfff0_0000 else aux
  }

  lemma RdBounded(w: bv32)
    ensures Rd(w) < 32
  {
  }

  // ----- decoding -----

  datatype BaseOp =
    | OP_LUI | OP_AUIPC | OP_JAL | OP_JALR
    | OP_BEQ | OP_BNE | OP_BLT | OP_BGE | OP_BLTU | OP_BGEU
    | OP_LB | OP_LH | OP_LW | OP_LBU | OP_LHU | OP_LWU | OP_LD
    | OP_SB | OP_SH | OP_SW | OP_SD
    | OP_ADDI | OP_SLTI | OP_SLTIU | OP_XORI | OP_ORI | OP_ANDI | OP_SLLI | OP_SRLI | OP_SRAI
    | OP_ADD | OP_SUB | OP_SLL | OP_SLT | OP_SLTU | OP_XOR | OP_SRL | OP_SRA | OP_OR | OP_AND
    | OP_FENCE | OP_ECALL | OP_EBREAK | OP_URET | OP_SRET | OP_MRET | OP_WFI | OP_SFENCE
    | OP_CSRRW | OP_CSRRS | OP_CSRRC | OP_CSRRWI | OP_CSRRSI | OP_CSRRCI
    | OP_ADDIW | OP_SLLIW | OP_SRLIW | OP_SRAIW | OP_ADDW | OP_SUBW | OP_SLLW | OP_SRLW | OP_SRAW
    | OP_ERROR

  function DecodeBranch(f3: bv32): BaseOp {
    if f3 == 0 then OP_BEQ else if f3 == 1 then OP_BNE else if f3 == 4 then OP_BLT else if f3 == 5 then OP_BGE
    else if f3 == 6 then OP_BLTU else if f3 == 7 then OP_BGEU else OP_ERROR
  }

  function DecodeLoad(f3: bv32): BaseOp {
    if f3 == 0 then OP_LB else if f3 == 1 then OP_LH else if f3 == 2 then OP_LW else if f3 == 4 then OP_LBU
    else if f3 == 5 then OP_LHU else if f3 == 6 then OP_LWU else if f3 == 3 then OP_LD else OP_ERROR
  }

  function DecodeStore(f3: bv32): BaseOp {
    if f3 == 0 then OP_SB else if f3 == 1 then OP_SH else if f3 == 2 then OP_SW else if f3 == 3 then OP_SD else OP_ERROR
  }

  function DecodeOpImm(f3: bv32, top6: bv32): BaseOp {
    if f3 == 0 then OP_ADDI else if f3 == 2 then OP_SLTI else if f3 == 3 then OP_SLTIU else if f3 == 4 then OP_XORI
    else if f3 == 6 then OP_ORI else if f3 == 7 then OP_ANDI else if f3 == 1 then OP_SLLI
    else if top6 == 0 then OP_SRLI else if top6 == 0x10 then OP_SRAI else OP_ERROR
  }

  function DecodeOp(f3: bv32, f7: bv32): BaseOp {
    if f7 != 0 && f7 != 0x20 then OP_ERROR
    else if f3 == 0 then if f7 == 0 then OP_ADD else OP_SUB
    else if f3 == 1 then OP_SLL else if f3 == 2 then OP_SLT else if f3 == 3 then OP_SLTU else if f3 == 4 then OP_XOR
    else if f3 == 5 then if f7 == 0 then OP_SRL else OP_SRA
    else if f3 == 6 then OP_OR else OP_AND
  }

  function DecodeSystem(f3: bv32, csr: bv32, f7: bv32): BaseOp {
    if f3 == 0 then
      if csr == 0 then OP_ECALL else if csr == 1 then OP_EBREAK else if csr == 2 then OP_URET
      else if csr == 0x102 then OP_SRET else if csr == 0x302 then OP_MRET else if csr == 0x105 then OP_WFI
      else if csr == 9 || f7 == 9 then OP_SFENCE else OP_ERROR
    else if f3 == 1 then OP_CSRRW else if f3 == 2 then OP_CSRRS else if f3 == 3 then OP_CSRRC
    else if f3 == 5 then OP_CSRRWI else if f3 == 6 then OP_CSRRSI else if f3 == 7 then OP_CSRRCI else OP_ERROR
  }

  function DecodeOpImm32(f3: bv32, top6: bv32): BaseOp {
    if f3 == 0 then OP_ADDIW else if f3 == 1 then OP_SLLIW
    else if f3 == 5 then if top6 == 0 then OP_SRLIW else if top6 == 0x10 then OP_SRAIW else OP_ERROR
    else OP_ERROR
  }

  function DecodeOp32(f3: bv32, f7: bv32, top6: bv32): BaseOp {
    if f7 != 0 && f7 != 0x20 then OP_ERROR
    else if f3 == 0 then if top6 == 0 then OP_ADDW else if top6 == 0x10 then OP_SUBW else OP_ERROR
    else if f3 == 1 then OP_SLLW
    else if f3 == 5 then if top6 == 0 then OP_SRLW else if top6 == 0x10 then OP_SRAW else OP_ERROR
    else OP_ERROR
  }

  datatype Major =
    | LuiMajor | AuipcMajor | JalMajor | JalrMajor | BranchMajor | LoadMajor | StoreMajor | ImmMajor | RegMajor
    | FenceMajor | SystemMajor | Imm32Major | Reg32Major | OtherMajor

  function MajorOf(op: bv32): Major {
    if op == 0x37 then LuiMajor
    else if op == 0x17 then AuipcMajor
    else if op == 0x6f then JalMajor
    else if op == 0x67 then JalrMajor
    else if op == 0x63 then BranchMajor
    else if op == 0x03 then LoadMajor
    else if op == 0x23 then StoreMajor
    else if op == 0x13 then ImmMajor
    else if op == 0x33 then RegMajor
    else if op == 0x0f then FenceMajor
    else if op == 0x73 then SystemMajor
    else if op == 0x1b then Imm32Major
    else if op == 0x3b then Reg32Major
    else OtherMajor
  }

  /** BASE_ISA::decode. */
  function Decode(w: bv32): BaseOp {
    var f3, f7, top6 := Funct3(w), Funct7(w), Top6(w);
    match MajorOf(Opcode(w))
    case LuiMajor => OP_LUI
    case AuipcMajor => OP_AUIPC
    case JalMajor => OP_JAL
    case JalrMajor => OP_JALR
    case BranchMajor => DecodeBranch(f3)
    case LoadMajor => DecodeLoad(f3)
    case StoreMajor => DecodeStore(f3)
    case ImmMajor => DecodeOpImm(f3, top6)
    case RegMajor => DecodeOp(f3, f7)
    case FenceMajor => OP_FENCE
    case SystemMajor => DecodeSystem(f3, Csr(w), f7)
    case Imm32Major => DecodeOpImm32(f3, top6)
    case Reg32Major => DecodeOp32(f3, f7, top6)
    case OtherMajor => OP_ERROR
  }

  // ----- arithmetic -----

  /** Sums and differences wrap modulo 2^32. */
  function Plus(x: bv32, y: bv32): bv32 { x + y }

  function Minus(x: bv32, y: bv32): bv32 { x - y }

  function BitAnd(x: bv32, y: bv32): bv32 { x & y }

  function BitOr(x: bv32, y: bv32): bv32 { x | y }

  function BitXor(x: bv32, y: bv32): bv32 { x ^ y }

  function Even(x: bv32): bv32 { x & 0xffff_fffe }

  function Upper(x: bv32): bv32 { x << 12 }

  function Sll(v: bv32, n: bv32): bv32
    requires n < 32
  {
    v << n
  }

  function Srl(v: bv32, n: bv32): bv32
    requires n < 32
  {
    v >> n
  }

  /** The shift of a signed value: vacated bits copy the sign. */
  function Sra(v: bv32, n: bv32): bv32
    requires n < 32
  {
    if v & 0x8000_0000 == 0 then v >> n else !((!v) >> n)
  }

  function Low5(n: bv32): (r: bv32)
    ensures r < 32
  {
    n & 0x1f
  }

  // ----- execution -----

  function Runs(s: Cpu): Outcome { Done(s, true, false) }

  function Jumps(s: Cpu): Outcome { Done(s, false, false) }

  function Loaded(s: Cpu, rd: bv32, data: Option<bv32>): Outcome {
    if data.Some? then Runs(SetReg(s, rd, data.value)) else Undefined
  }

  function Stored(s: Option<Cpu>): Outcome {
    if s.Some? then Runs(s.value) else Undefined
  }

  // Exec_LUI and so on; length is the 4 that JAL, JALR and the branches add to the PC.

  function ExecLUI(s: Cpu, w: bv32): Outcome {
    Runs(SetReg(s, Rd(w), Upper(ImmU(w))))
  }

  function ExecJAL(s: Cpu, w: bv32, length: bv32): Outcome {
    Jumps(SetReg(s.(pc := Plus(s.pc, ImmJ(w))), Rd(w), Plus(s.pc, length)))
  }

  function ExecJALR(s: Cpu, w: bv32, length: bv32): Outcome {
    Jumps(SetReg(s, Rd(w), Plus(s.pc, length)).(pc := Even(Plus(Get(s.regs, Rs1(w)), ImmI(w)))))
  }

  function ExecBEQ(s: Cpu, w: bv32, length: bv32): Outcome {
    Jumps(s.(pc := Plus(s.pc, if Get(s.regs, Rs1(w)) == Get(s.regs, Rs2(w)) then ImmB(w) else length)))
  }

  function ExecBNE(s: Cpu, w: bv32, length: bv32): Outcome {
    Jumps(s.(pc := Plus(s.pc, if Get(s.regs, Rs1(w)) != Get(s.regs, Rs2(w)) then ImmB(w) else length)))
  }

  function ExecLW(s: Cpu, w: bv32, io: Io): Outcome {
    Loaded(s, Rd(w), ReadData(s, Plus(Get(s.regs, Rs1(w)), ImmI(w)), io))
  }

  function ExecSW(s: Cpu, w: bv32): Outcome {
    Stored(WriteData(s, Plus(Get(s.regs, Rs1(w)), ImmS(w)), Get(s.regs, Rs2(w))))
  }

  function ExecADDI(s: Cpu, w: bv32): Outcome {
    Runs(SetReg(s, Rd(w), Plus(Get(s.regs, Rs1(w)), ImmI(w))))
  }

  function ExecANDI(s: Cpu, w: bv32): Outcome {
    Runs(SetReg(s, Rd(w), BitAnd(Get(s.regs, Rs1(w)), ImmI(w))))
  }

  function ExecSLLI(s: Cpu, w: bv32): Outcome {
    if Shamt(w) >= 0x20 then Jumps(Raised(s.(stopped := true), Illegal, w))
    else Runs(SetReg(s, Rd(w), Sll(Get(s.regs, Rs1(w)), Low5(Shamt(w)))))
  }

  function ExecSRLI(s: Cpu, w: bv32): Outcome {
    Runs(SetReg(s, Rd(w), Srl(Get(s.regs, Rs1(w)), Low5(Rs2(w)))))
  }

  function ExecSRAI(s: Cpu, w: bv32): Outcome {
    Runs(SetReg(s, Rd(w), Sra(Get(s.regs, Rs1(w)), Low5(Rs2(w)))))
  }

  function ExecADD(s: Cpu, w: bv32): Outcome {
    Runs(SetReg(s, Rd(w), Plus(Get(s.regs, Rs1(w)), Get(s.regs, Rs2(w)))))
  }

  function ExecSUB(s: Cpu, w: bv32): Outcome {
    Runs(SetReg(s, Rd(w), Minus(Get(s.regs, Rs1(w)), Get(s.regs, Rs2(w)))))
  }

  function ExecXOR(s: Cpu, w: bv32): Outcome {
    Runs(SetReg(s, Rd(w), BitXor(Get(s.regs, Rs1(w)), Get(s.regs, Rs2(w)))))
  }

  function ExecOR(s: Cpu, w: bv32): Outcome {
    Runs(SetReg(s, Rd(w), BitOr(Get(s.regs, Rs1(w)), Get(s.regs, Rs2(w)))))
  }

  function ExecAND(s: Cpu, w: bv32): Outcome {
    Runs(SetReg(s, Rd(w), BitAnd(Get(s.regs, Rs1(w)), Get(s.regs, Rs2(w)))))
  }

  function ExecEBREAK(s: Cpu, w: bv32): Outcome {
    Jumps(Raised(s, Breakpoint, w))
  }

  /** BASE_ISA::exec_instruction. */
  function Exec(s: Cpu, op: BaseOp, w: bv32, length: bv32, io: Io): Outcome {
    match op
    case OP_LUI => ExecLUI(s, w)
    case OP_JAL => ExecJAL(s, w, length)
    case OP_JALR => ExecJALR(s, w, length)
    case OP_BEQ => ExecBEQ(s, w, length)
    case OP_BNE => ExecBNE(s, w, length)
    case OP_LW => ExecLW(s, w, io)
    case OP_SW => ExecSW(s, w)
    case OP_ADDI => ExecADDI(s, w)
    case OP_ANDI => ExecANDI(s, w)
    case OP_SLLI => ExecSLLI(s, w)
    case OP_SRLI => ExecSRLI(s, w)
    case OP_SRAI => ExecSRAI(s, w)
    case OP_ADD => ExecADD(s, w)
    case OP_SUB => ExecSUB(s, w)
    case OP_XOR => ExecXOR(s, w)
    case OP_OR => ExecOR(s, w)
    case OP_AND => ExecAND(s, w)
    case OP_EBREAK => ExecEBREAK(s, w)
    case _ => Unmodelled
  }

  /** The end of CPU_step: an instruction that does not set the PC is stepped over. */
  function Finished(o: Outcome, length: bv32): Outcome {
    if o.Done? && o.pcNotAffected then o.(cpu := o.cpu.(pc := Plus(o.cpu.pc, length))) else o
  }
}
