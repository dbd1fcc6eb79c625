/** The M instructions as they run, on the registers of an RV32 processor and on those of an RV64 one. */
module MUnits {
  import opened MExtension
  import BaseIsa
  import opened RegisterBank

  /** Registers<std::uint64_t>::setValue. */
  function Written(regs: seq<int>, rd: nat, value: int): seq<int>
    requires rd < |regs|
  {
    if rd == 0 then regs else regs[rd := value]
  }

  class MUnit32 {
    const regs: Registers

    ghost predicate Valid()
      reads regs.register_bank
    {
      regs.Valid()
    }

    /** The number in a register. */
    ghost function Number(r: bv32): word
      requires Valid()
      reads regs.register_bank
    {
      BaseIsa.FromBits(BaseIsa.Get(regs.register_bank[..], r))
    }

    constructor (regs: Registers)
      requires regs.Valid()
      ensures Valid() && this.regs == regs
    {
      this.regs := regs;
    }

    method GetNumber(r: bv32) returns (v: word)
      requires Valid()
      ensures v == Number(r)
    {
      var bits := regs.GetValue(r);
      v := BaseIsa.FromBits(bits);
    }

    /** Exec_M_MUL. */
    method MUL(rd: bv32, rs1: bv32, rs2: bv32)
      requires Valid()
      modifies regs.register_bank
      ensures Valid() && regs.register_bank[..]
           == BaseIsa.Set(old(regs.register_bank[..]), rd, BaseIsa.ToBits(Mul32(old(Number(rs1)), old(Number(rs2)))))
    {
      var x := GetNumber(rs1);
      var y := GetNumber(rs2);
      var multiplier := Signed(x, W32);
      var multiplicand := Signed(y, W32);
      regs.SetValue(rd, BaseIsa.ToBits(multiplier * multiplicand % W32));
    }

    /** Exec_M_MULH. */
    method MULH(rd: bv32, rs1: bv32, rs2: bv32)
      requires Valid()
      modifies regs.register_bank
      ensures Valid() && regs.register_bank[..]
           == BaseIsa.Set(old(regs.register_bank[..]), rd, BaseIsa.ToBits(Mulh32(old(Number(rs1)), old(Number(rs2)))))
    {
      var x := GetNumber(rs1);
      var y := GetNumber(rs2);
      var multiplier := Signed(x, W32);
      var multiplicand := Signed(y, W32);
      var result := multiplier * multiplicand;
      regs.SetValue(rd, BaseIsa.ToBits(result / W32 % W32));
    }

    /** Exec_M_MULHSU. */
    method MULHSU(rd: bv32, rs1: bv32, rs2: bv32)
      requires Valid()
      modifies regs.register_bank
      ensures Valid() && regs.register_bank[..]
           == BaseIsa.Set(old(regs.register_bank[..]), rd, BaseIsa.ToBits(Mulhsu32(old(Number(rs1)), old(Number(rs2)))))
    {
      var x := GetNumber(rs1);
      var y := GetNumber(rs2);
      var multiplier := Signed(x, W32);
      var multiplicand := y;
      var result := Signed(multiplier % W64 * multiplicand % W64, W64);
      regs.SetValue(rd, BaseIsa.ToBits(result / W32 % W32));
    }

    /** Exec_M_MULHU. */
    method MULHU(rd: bv32, rs1: bv32, rs2: bv32)
      requires Valid()
      modifies regs.register_bank
      ensures Valid() && regs.register_bank[..]
           == BaseIsa.Set(old(regs.register_bank[..]), rd, BaseIsa.ToBits(Mulhu32(old(Number(rs1)), old(Number(rs2)))))
    {
      var x := GetNumber(rs1);
      var y := GetNumber(rs2);
      var multiplier: int, multiplicand: int := x, y;
      var result := multiplier * multiplicand;
      regs.SetValue(rd, BaseIsa.ToBits(result / W32 % W32));
    }

    /** Exec_M_DIV. */
    method DIV(rd: bv32, rs1: bv32, rs2: bv32)
      requires Valid()
      modifies regs.register_bank
      ensures Valid() && regs.register_bank[..]
           == BaseIsa.Set(old(regs.register_bank[..]), rd, BaseIsa.ToBits(Div32(old(Number(rs1)), old(Number(rs2)))))
    {
      var x := GetNumber(rs1);
      var y := GetNumber(rs2);
      var dividend, divisor := Signed(x, W32), Signed(y, W32);
      var result: int;
      if divisor == 0 {
        result := -1;
      } else if divisor == -1 && dividend == LEAST {
        result := 0x8000_0000;
      } else {
        result := Quotient(dividend, divisor);
      }
      regs.SetValue(rd, BaseIsa.ToBits(result % W32));
    }

    /** Exec_M_REM. */
    method REM(rd: bv32, rs1: bv32, rs2: bv32)
      requires Valid()
      modifies regs.register_bank
      ensures Valid() && regs.register_bank[..]
           == BaseIsa.Set(old(regs.register_bank[..]), rd, BaseIsa.ToBits(Rem32(old(Number(rs1)), old(Number(rs2)))))
    {
      var x := GetNumber(rs1);
      var y := GetNumber(rs2);
      var dividend, divisor := Signed(x, W32), Signed(y, W32);
      var result: int;
      if divisor == 0 {
        result := dividend;
      } else if divisor == -1 && dividend == LEAST {
        result := 0;
      } else {
        result := Remainder(dividend, divisor);
      }
      regs.SetValue(rd, BaseIsa.ToBits(result % W32));
    }

    /** Exec_M_DIVU. */
    method DIVU(rd: bv32, rs1: bv32, rs2: bv32)
      requires Valid()
      modifies regs.register_bank
      ensures Valid() && regs.register_bank[..]
           == BaseIsa.Set(old(regs.register_bank[..]), rd, BaseIsa.ToBits(Divu32(old(Number(rs1)), old(Number(rs2)))))
    {
      hide BaseIsa.ToBits, BaseIsa.FromBits, BaseIsa.Get, BaseIsa.Set;
      var x := GetNumber(rs1);
      var y := GetNumber(rs2);
      var dividend, divisor := x, y;
      var result: int;
      if divisor == 0 {
        result := -1;
      } else {
        result := dividend / divisor;
      }
      regs.SetValue(rd, BaseIsa.ToBits(result % W32));
    }

    /** Exec_M_REMU. */
    method REMU(rd: bv32, rs1: bv32, rs2: bv32)
      requires Valid()
      modifies regs.register_bank
      ensures Valid() && regs.register_bank[..]
           == BaseIsa.Set(old(regs.register_bank[..]), rd, BaseIsa.ToBits(Remu32(old(Number(rs1)), old(Number(rs2)))))
    {
      var x := GetNumber(rs1);
      var y := GetNumber(rs2);
      var dividend, divisor := x, y;
      var result: int;
      if divisor == 0 {
        result := dividend;
      } else {
        result := dividend % divisor;
      }
      regs.SetValue(rd, BaseIsa.ToBits(result % W32));
    }

    /** Exec_M_MULW. */
    method MULW(rd: bv32, rs1: bv32, rs2: bv32)
      requires Valid()
      modifies regs.register_bank
      ensures Valid() && regs.register_bank[..]
           == BaseIsa.Set(old(regs.register_bank[..]), rd, BaseIsa.ToBits(Mulw32(old(Number(rs1)), old(Number(rs2)))))
    {
      var multiplier := GetNumber(rs1);
      var multiplicand := GetNumber(rs2);
      regs.SetValue(rd, BaseIsa.ToBits(multiplier * multiplicand % W32));
    }

    /** Exec_M_DIVW. */
    method DIVW(rd: bv32, rs1: bv32, rs2: bv32)
      requires Valid()
      modifies regs.register_bank
      ensures Valid() && regs.register_bank[..]
           == BaseIsa.Set(old(regs.register_bank[..]), rd, BaseIsa.ToBits(Div32(old(Number(rs1)), old(Number(rs2)))))
    {
      var x := GetNumber(rs1);
      var y := GetNumber(rs2);
      var dividend, divisor := Signed(x, W32), Signed(y, W32);
      var result: int;
      if divisor == 0 {
        result := -1;
      } else if divisor == -1 && dividend == LEAST {
        result := 0x8000_0000;
      } else {
        result := Quotient(dividend, divisor);
      }
      regs.SetValue(rd, BaseIsa.ToBits(result % W32));
    }

    /** Exec_M_DIVUW. */
    method DIVUW(rd: bv32, rs1: bv32, rs2: bv32)
      requires Valid()
      modifies regs.register_bank
      ensures Valid() && regs.register_bank[..]
           == BaseIsa.Set(old(regs.register_bank[..]), rd, BaseIsa.ToBits(Divuw32(old(Number(rs1)), old(Number(rs2)))))
    {
      hide BaseIsa.ToBits, BaseIsa.FromBits, BaseIsa.Get, BaseIsa.Set;
      var dividend := GetNumber(rs1);
      var divisor := GetNumber(rs2);
      var result: int;
      if divisor == 0 {
        result := -1;
      } else if divisor == 0xffff_ffff && dividend == 0x8000_0000 {
        result := 0x8000_0000;
      } else {
        result := dividend / divisor;
      }
      regs.SetValue(rd, BaseIsa.ToBits(result % W32));
    }

    /** Exec_M_REMW. */
    method REMW(rd: bv32, rs1: bv32, rs2: bv32)
      requires Valid()
      modifies regs.register_bank
      ensures Valid() && regs.register_bank[..]
           == BaseIsa.Set(old(regs.register_bank[..]), rd, BaseIsa.ToBits(Remw32(old(Number(rs1)), old(Number(rs2)))))
    {
      var x := GetNumber(rs1);
      var y := GetNumber(rs2);
      var dividend, divisor := Signed(x, W32), Signed(y, W32);
      var result: int;
      if divisor == 0 {
        result := dividend;
      } else if divisor == -1 {
        result := 0;
      } else {
        result := Remainder(dividend, divisor);
      }
      regs.SetValue(rd, BaseIsa.ToBits(result % W32));
    }

    /** Exec_M_REMUW. */
    method REMUW(rd: bv32, rs1: bv32, rs2: bv32)
      requires Valid()
      modifies regs.register_bank
      ensures Valid() && regs.register_bank[..]
           == BaseIsa.Set(old(regs.register_bank[..]), rd, BaseIsa.ToBits(Remu32(old(Number(rs1)), old(Number(rs2)))))
    {
      hide BaseIsa.ToBits, BaseIsa.FromBits, BaseIsa.Get, BaseIsa.Set;
      var dividend := GetNumber(rs1);
      var divisor := GetNumber(rs2);
      var result: int;
      if divisor == 0 {
        result := dividend;
      } else {
        result := dividend % divisor;
      }
      regs.SetValue(rd, BaseIsa.ToBits(result % W32));
    }
  }

  class MUnit64 {
    const register_bank: array<double>

    ghost predicate Valid() { register_bank.Length == 32 }

    constructor (register_bank: array<double>)
      requires register_bank.Length == 32
      ensures Valid() && this.register_bank == register_bank
    {
      this.register_bank := register_bank;
    }

    method SetValue(reg_num: nat, value: double)
      requires Valid() && reg_num < 32
      modifies register_bank
      ensures register_bank[..] == Written(old(register_bank[..]), reg_num, value)
    {
      if reg_num != 0 {
        register_bank[reg_num] := value;
      }
    }

    /** Exec_M_MUL. */
    method MUL(rd: nat, rs1: nat, rs2: nat)
      requires Valid() && rd < 32 && rs1 < 32 && rs2 < 32
      modifies register_bank
      ensures register_bank[..]
           == Written(old(register_bank[..]), rd, Mul64(old(register_bank[rs1]), old(register_bank[rs2])))
    {
      var multiplier := Signed(register_bank[rs1], W64);
      var multiplicand := Signed(register_bank[rs2], W64);
      SetValue(rd, multiplier * multiplicand % W64);
    }

    /** Exec_M_MULH. */
    method MULH(rd: nat, rs1: nat, rs2: nat)
      requires Valid() && rd < 32 && rs1 < 32 && rs2 < 32
      modifies register_bank
      ensures register_bank[..]
           == Written(old(register_bank[..]), rd, Mulh64(old(register_bank[rs1]), old(register_bank[rs2])))
    {
      var multiplier := Signed(register_bank[rs1], W64);
      var multiplicand := Signed(register_bank[rs2], W64);
      var res := multiplier * multiplicand % (W64 * W64);
      SetValue(rd, res / W64);
    }

    /** Exec_M_MULHSU. */
    method MULHSU(rd: nat, rs1: nat, rs2: nat)
      requires Valid() && rd < 32 && rs1 < 32 && rs2 < 32
      modifies register_bank
      ensures register_bank[..]
           == Written(old(register_bank[..]), rd, Mulhsu64(old(register_bank[rs1]), old(register_bank[rs2])))
    {
      var multiplier := Signed(register_bank[rs1], W64);
      var multiplicand := register_bank[rs2];
      var res := multiplier * multiplicand % (W64 * W64);
      SetValue(rd, res / W64);
    }

    /** Exec_M_MULHU. */
    method MULHU(rd: nat, rs1: nat, rs2: nat)
      requires Valid() && rd < 32 && rs1 < 32 && rs2 < 32
      modifies register_bank
      ensures register_bank[..]
           == Written(old(register_bank[..]), rd, Mulhu64(old(register_bank[rs1]), old(register_bank[rs2])))
    {
      var multiplier: int, multiplicand: int := register_bank[rs1], register_bank[rs2];
      var res := multiplier * multiplicand % (W64 * W64);
      SetValue(rd, res / W64);
    }
  }
}
