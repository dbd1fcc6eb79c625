/** LR.W and SC.W of inc/A_extension.h: reservations are a set of addresses that only these two
 *  instructions change. */
module AExtension {
  import opened BaseIsa
  import opened MemoryBus
  import opened Wrappers
  import Hart
  import opened Words

  /** What the reservation protocol sees of an instruction. */
  datatype Access = Reserved(address: bv32) | Conditional(address: bv32, ok: bool)

  /** The processor, TLB_A_Entries, and all legal LR.W and SC.W executed so far. */
  datatype Reserving = Reserving(cpu: Cpu, tlb: set<bv32>, log: seq<Access>)

  /** Exec_A_LR; None is an access across the end of memory. */
  function LoadReserved(s: Reserving, w: bv32, io: Io): Option<Reserving> {
    var a := Get(s.cpu.regs, Rs1(w));
    if Rs2(w) != 0 then Some(s.(cpu := Raised(s.cpu, Illegal, w)))
    else
      match ReadData(s.cpu, a, io)
      case None => None
      case Some(data) => Some(Reserving(SetReg(s.cpu, Rd(w), data), s.tlb + {a}, s.log + [Reserved(a)]))
  }

  /** Exec_A_SC. */
  function StoreConditional(s: Reserving, w: bv32): Option<Reserving> {
    var a, data := Get(s.cpu.regs, Rs1(w)), Get(s.cpu.regs, Rs2(w));
    if a !in s.tlb then Some(s.(cpu := SetReg(s.cpu, Rd(w), 1), log := s.log + [Conditional(a, false)]))
    else
      match WriteData(s.cpu, a, data)
      case None => None
      case Some(c) => Some(Reserving(SetReg(c, Rd(w), 0), s.tlb - {a}, s.log + [Conditional(a, true)]))
  }

  /** Elsewhere is any other instruction, ordinary stores and AMOs included, with whatever effect. */
  datatype Event = LR(w: bv32, io: Io) | SC(w: bv32) | Elsewhere(cpu: Cpu)

  function Step(s: Reserving, e: Event): Option<Reserving> {
    match e
    case LR(w, io) => LoadReserved(s, w, io)
    case SC(w) => StoreConditional(s, w)
    case Elsewhere(c) => Some(s.(cpu := c))
  }

  function Run(s: Reserving, es: seq<Event>): Option<Reserving>
    decreases |es|
  {
    if |es| == 0 then Some(s)
    else
      match Step(s, es[0])
      case None => None
      case Some(r) => Run(r, es[1..])
  }

  /** The latest LR.W or SC.W on an address was an LR.W. */
  predicate LatestReserves(log: seq<Access>, a: bv32) {
    if |log| == 0 then false
    else
      var last := log[|log| - 1];
      if last.address == a then last.Reserved? else LatestReserves(log[..|log| - 1], a)
  }

  ghost predicate Explained(log: seq<Access>, i: nat)
    requires i < |log|
  {
    log[i].Conditional? ==> (log[i].ok <==> LatestReserves(log[..i], log[i].address))
  }

  /** Reservations are exactly the addresses reserved last, and every SC.W so far went accordingly. */
  ghost predicate Consistent(s: Reserving) {
    && (forall a :: a in s.tlb <==> LatestReserves(s.log, a))
    && (forall i: nat | i < |s.log| :: Explained(s.log, i))
  }

  lemma LogGrows(s: Reserving, x: Access, tlb: set<bv32>, cpu: Cpu)
    requires Consistent(s)
    requires x.Conditional? ==> (x.ok <==> x.address in s.tlb)
    requires tlb == if x.Reserved? then s.tlb + {x.address} else s.tlb - {x.address}
    ensures Consistent(Reserving(cpu, tlb, s.log + [x]))
  {
    var log := s.log + [x];
    assert log[..|log| - 1] == s.log;
    forall a
      ensures a in tlb <==> LatestReserves(log, a)
    {
      assert a in s.tlb <==> LatestReserves(s.log, a);
    }
    forall i: nat | i < |log|
      ensures Explained(log, i)
    {
      if i < |s.log| {
        assert log[..i] == s.log[..i];
        assert Explained(s.log, i);
      } else {
        assert log[..i] == s.log;
      }
    }
  }

  lemma StepConsistent(s: Reserving, e: Event)
    requires Consistent(s) && Step(s, e).Some?
    ensures Consistent(Step(s, e).value)
  {
    hide LatestReserves, Explained, ReadData, WriteData, SetReg, Get, Rs1, Rs2, Rd;
    match e
    case LR(w, io) =>
      var a := Get(s.cpu.regs, Rs1(w));
      if Rs2(w) == 0 {
        var r := LoadReserved(s, w, io).value;
        LogGrows(s, Reserved(a), s.tlb + {a}, r.cpu);
      }
    case SC(w) =>
      var a, r := Get(s.cpu.regs, Rs1(w)), StoreConditional(s, w).value;
      LogGrows(s, Conditional(a, a in s.tlb), s.tlb - {a}, r.cpu);
      if a !in s.tlb {
        assert s.tlb - {a} == s.tlb;
      }
    case Elsewhere(c) =>
  }

  /** Over any run, whatever happens in between, SC.W to an address succeeds exactly when the latest
      legal LR.W or SC.W on that address was an LR.W. */
  lemma {:induction false} ConditionalsSucceedExactly(s: Reserving, es: seq<Event>)
    requires Consistent(s) && Run(s, es).Some?
    ensures Consistent(Run(s, es).value)
    decreases |es|
  {
    hide Step, Consistent;
    if |es| > 0 {
      StepConsistent(s, es[0]);
      ConditionalsSucceedExactly(Step(s, es[0]).value, es[1..]);
    }
  }

  lemma NothingReserved(cpu: Cpu)
    ensures Consistent(Reserving(cpu, {}, []))
  {
  }

  /** SC.W reports success as 0 in rd, and writes memory only then. */
  lemma ConditionalReports(s: Reserving, w: bv32)
    requires StoreConditional(s, w).Some? && Rd(w) != 0
    ensures var a, r := Get(s.cpu.regs, Rs1(w)), StoreConditional(s, w).value;
            && r.log == s.log + [Conditional(a, a in s.tlb)] && a !in r.tlb
            && Get(r.cpu.regs, Rd(w)) == (if a in s.tlb then 0 else 1)
            && (a !in s.tlb ==> r.cpu.mem == s.cpu.mem)
  {
    hide Rs1, Rs2, Rd, WriteData;
    RdBounded(w);
  }

  /** LR.W of a word in main memory: rd receives that word, and nothing else changes. */
  lemma LoadReservedMeans(s: Reserving, w: bv32, io: Io)
    requires Rs2(w) == 0 && FromBits(Get(s.cpu.regs, Rs1(w))) + 4 <= 0x100_0000
    ensures LoadReserved(s, w, io).Some?
    ensures var a, r := Get(s.cpu.regs, Rs1(w)), LoadReserved(s, w, io).value;
            && KeepsOthers(s.cpu, r.cpu, Rd(w)) && r.cpu.pc == s.cpu.pc && r.cpu.mem == s.cpu.mem
            && r.tlb == s.tlb + {a}
            && (Rd(w) != 0 ==>
                  Load(s.cpu.mem, FromBits(a), Full, false, io.junk, io.answer)
                    == Some(FromBits(Get(r.cpu.regs, Rd(w)))))
  {
    hide Rs1, Rs2, Rd, ReadData, Load, FromBits, KeepsOthers;
    var a := Get(s.cpu.regs, Rs1(w));
    ReadDataMeans(s.cpu, a, io);
    SetRegKeeps(s.cpu, Rd(w), ReadData(s.cpu, a, io).value);
    RdBounded(w);
  }

  /** SC.W of a word in main memory: if the address is reserved, the word there becomes rs2 and rd is 0;
      otherwise memory stays as it is and rd is 1.  Nothing else changes, and the reservation is gone. */
  lemma StoreConditionalMeans(s: Reserving, w: bv32, io: Io)
    requires FromBits(Get(s.cpu.regs, Rs1(w))) + 4 <= 0x100_0000
    ensures StoreConditional(s, w).Some?
    ensures var a, r := Get(s.cpu.regs, Rs1(w)), StoreConditional(s, w).value;
            && KeepsOthers(s.cpu, r.cpu, Rd(w)) && r.cpu.pc == s.cpu.pc && r.tlb == s.tlb - {a}
            && (Rd(w) != 0 ==> Get(r.cpu.regs, Rd(w)) == if a in s.tlb then 0 else 1)
            && (a !in s.tlb ==> r.cpu.mem == s.cpu.mem)
            && (a in s.tlb ==>
                  Load(r.cpu.mem, FromBits(a), Full, false, io.junk, io.answer)
                    == Some(FromBits(Get(s.cpu.regs, Rs2(w)))))
            && forall i | 0 <= i < |s.cpu.mem| && !(FromBits(a) <= i < FromBits(a) + 4) :: r.cpu.mem[i] == s.cpu.mem[i]
  {
    hide Rs1, Rs2, Rd, WriteData, Load, FromBits, KeepsOthers;
    var a, data := Get(s.cpu.regs, Rs1(w)), Get(s.cpu.regs, Rs2(w));
    WriteDataMeans(s.cpu, a, data, io);
    var c := WriteData(s.cpu, a, data).value;
    SetRegKeeps(c, Rd(w), 0);
    SameBase(s.cpu, c, SetReg(c, Rd(w), 0), Rd(w));
    SetRegKeeps(s.cpu, Rd(w), 1);
    RdBounded(w);
    if a !in s.tlb {
      assert s.tlb - {a} == s.tlb;
    }
  }

  lemma SameBase(s: Cpu, c: Cpu, r: Cpu, rd: bv32)
    requires c == s.(mem := c.mem) && KeepsOthers(c, r, rd)
    ensures KeepsOthers(s, r, rd)
  {
  }

  function Reserves(log: seq<Access>, a: bv32): nat {
    if |log| == 0 then 0
    else Reserves(log[..|log| - 1], a) + if log[|log| - 1] == Reserved(a) then 1 else 0
  }

  function Successes(log: seq<Access>, a: bv32): nat {
    if |log| == 0 then 0
    else Successes(log[..|log| - 1], a) + if log[|log| - 1] == Conditional(a, true) then 1 else 0
  }

  /** So successful SC.W to an address never exceed LR.W to it, a pending reservation included. */
  lemma {:induction false} SuccessesBounded(log: seq<Access>, a: bv32)
    requires forall i: nat | i < |log| :: Explained(log, i)
    ensures Successes(log, a) + (if LatestReserves(log, a) then 1 else 0) <= Reserves(log, a)
  {
    if |log| > 0 {
      var front := log[..|log| - 1];
      forall i: nat | i < |front|
        ensures Explained(front, i)
      {
        assert front[..i] == log[..i];
        assert Explained(log, i);
      }
      assert Explained(log, |log| - 1);
      SuccessesBounded(front, a);
    }
  }

  /** So it is in every run from the start, with no reservations. */
  lemma RunFromReset(cpu: Cpu, es: seq<Event>, a: bv32)
    requires Run(Reserving(cpu, {}, []), es).Some?
    ensures var s := Run(Reserving(cpu, {}, []), es).value;
            Consistent(s) && Successes(s.log, a) + (if a in s.tlb then 1 else 0) <= Reserves(s.log, a)
  {
    hide Run, Step, Explained, Successes, Reserves;
    NothingReserved(cpu);
    ConditionalsSucceedExactly(Reserving(cpu, {}, []), es);
    SuccessesBounded(Run(Reserving(cpu, {}, []), es).value.log, a);
  }

  /** exec_instruction reports every LR.W as not having set the PC.  So after the exception for one
      with rs2 not zero, and only then, the PC is four bytes past the trap vector. */
  lemma IllegalReserveSkipsVector(s: Reserving, w: bv32, io: Io)
    requires LoadReserved(s, w, io).Some?
    ensures var r := LoadReserved(s, w, io).value;
            var c := r.cpu;
            && Finished(Done(c, true, false), 4).cpu.pc == Plus(if Rs2(w) != 0 then s.cpu.csrs.mtvec else s.cpu.pc, 4)
            && if Rs2(w) != 0
               then c.csrs.mcause == 2 && c.csrs.mepc == s.cpu.pc && c.csrs.mtval == w
                 && c.csrs.mtvec == s.cpu.csrs.mtvec
                 && r.tlb == s.tlb && r.log == s.log && c.regs == s.cpu.regs && c.mem == s.cpu.mem
               else c.csrs == s.cpu.csrs
  {
    hide Plus, BitOr;
  }

  // ----- the instructions as they run -----

  class Atomics {
    const cpu: Hart.Cpu
    var TLB_A_Entries: set<bv32>
    ghost var log: seq<Access>

    ghost function Value(): Reserving
      requires cpu.Valid()
      reads this, cpu, cpu.regs, cpu.regs.register_bank, cpu.mem_intf, cpu.mem_intf.bus, cpu.mem_intf.bus.memory
      reads cpu.mem_intf.bus.memory.mem
    {
      Reserving(cpu.Value(), TLB_A_Entries, log)
    }

    constructor (cpu: Hart.Cpu)
      requires cpu.Valid()
      ensures this.cpu == cpu && Value() == Reserving(cpu.Value(), {}, [])
    {
      this.cpu := cpu;
      TLB_A_Entries, log := {}, [];
    }

    /** TLB_reserve. */
    method Reserve(address: bv32)
      modifies this
      ensures TLB_A_Entries == old(TLB_A_Entries) + {address} && log == old(log) + [Reserved(address)]
    {
      TLB_A_Entries := TLB_A_Entries + {address};
      log := log + [Reserved(address)];
    }

    /** TLB_reserved, which also ends the reservation. */
    method CheckReserved(address: bv32) returns (reserved: bool)
      modifies this
      ensures reserved == (address in old(TLB_A_Entries)) && TLB_A_Entries == old(TLB_A_Entries) - {address}
      ensures log == old(log) + [Conditional(address, reserved)]
    {
      reserved := address in TLB_A_Entries;
      if reserved {
        TLB_A_Entries := TLB_A_Entries - {address};
      }
      log := log + [Conditional(address, reserved)];
    }

    /** Exec_A_LR on m_instr. */
    method LoadReservedWord(io: Io) returns (legal: bool)
      requires cpu.Valid() && LoadReserved(Value(), cpu.m_instr, io).Some?
      modifies this, cpu`stopped, cpu.regs.register_bank, cpu.regs`csrs, cpu.regs`register_PC,
               cpu.mem_intf.bus.memory.mem
      ensures cpu.Valid()
      ensures Some(Value()) == LoadReserved(old(Value()), cpu.m_instr, io) && legal == (Rs2(cpu.m_instr) == 0)
    {
      hide ReadData, Get, Set, Rs1, Rs2, Rd, Plus, BitOr;
      var w := cpu.m_instr;
      if Rs2(w) != 0 {
        cpu.RaiseException(Illegal, w);
        return false;
      }
      var mem_addr := cpu.regs.GetValue(Rs1(w));
      var data := cpu.LoadWord(mem_addr, io);
      cpu.regs.SetValue(Rd(w), data);
      Reserve(mem_addr);
      legal := true;
    }

    /** Exec_A_SC on m_instr. */
    method StoreConditionalWord()
      requires cpu.Valid() && StoreConditional(Value(), cpu.m_instr).Some?
      modifies this, cpu.regs.register_bank, cpu.mem_intf.bus.memory.mem
      ensures cpu.Valid()
      ensures Some(Value()) == StoreConditional(old(Value()), cpu.m_instr)
    {
      hide WriteData, Get, Set, Rs1, Rs2, Rd;
      var w := cpu.m_instr;
      var mem_addr := cpu.regs.GetValue(Rs1(w));
      var data := cpu.regs.GetValue(Rs2(w));
      ghost var tlb := TLB_A_Entries;
      var reserved := CheckReserved(mem_addr);
      if reserved {
        cpu.StoreWord(mem_addr, data);
        cpu.regs.SetValue(Rd(w), 0);
      } else {
        assert tlb - {mem_addr} == tlb;
        cpu.regs.SetValue(Rd(w), 1);
      }
    }
  }
}
