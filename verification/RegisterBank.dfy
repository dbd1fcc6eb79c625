/** The registers of an RV32 processor (inc/Registers.h). */
module RegisterBank {
  import opened BaseIsa

  /** The bank, the PC, and the control and status registers that an exception touches. */
  class Registers {
    const register_bank: array<bv32>
    var register_PC: bv32
    var csrs: Csrs

    ghost predicate Valid()
      reads register_bank
    {
      register_bank.Length == 32 && register_bank[0] == 0
    }

    constructor ()
      ensures Valid() && fresh(register_bank) && register_PC == 0x8000_0000
      ensures csrs == Csrs(0x4000_0000, 0, 0, 0, 0)
      ensures register_bank[..] == Set(seq(32, _ => 0), 2, 0xff_fffc)
    {
      register_bank := new bv32[32](_ => 0);
      register_PC := 0x8000_0000;
      csrs := Csrs(0x4000_0000, 0, 0, 0, 0);
      new;
      register_bank[2] := 0xff_fffc;
      assert register_bank[..] == Set(seq(32, _ => 0), 2, 0xff_fffc);
    }

    method SetValue(reg_num: bv32, value: bv32)
      requires Valid()
      modifies register_bank
      ensures Valid()
      ensures register_bank[..] == Set(old(register_bank[..]), reg_num, value)
    {
      if reg_num != 0 && reg_num < 32 {
        register_bank[reg_num as int] := value;
      }
    }

    method GetValue(reg_num: bv32) returns (value: bv32)
      requires Valid()
      ensures value == Get(register_bank[..], reg_num)
    {
      if reg_num < 32 {
        value := register_bank[reg_num as int];
      } else {
        value := 0xffff_ffff;
      }
    }

    method IncPC()
      modifies this`register_PC
      ensures register_PC == Plus(old(register_PC), 4)
    {
      register_PC := register_PC + 4;
    }

    method IncPCby2()
      modifies this`register_PC
      ensures register_PC == Plus(old(register_PC), 2)
    {
      register_PC := register_PC + 2;
    }
  }
}
