/** What the 32-bit arithmetic of BaseIsa means on integers.  A mask m of the form 2^n - 1 stands
 *  for the number n of bits that are looked at. */
module Words {
  import opened Arithmetic
  import opened BaseIsa
  import opened MemoryBus
  import opened Wrappers

  const ALL: bv32 := 0xffff_ffff
  const MODULUS := 0x1_0000_0000
  const HALF_MODULUS := 0x8000_0000

  function Half(x: bv32): bv32 { x >> 1 }

  predicate Odd(x: bv32) { x & 1 == 1 }

  predicate Mask(m: bv32) { m & (m + 1) == 0 }

  function Bit(o: bool): nat { if o then 1 else 0 }

  /** 2^n. */
  function Size(m: bv32): (p: nat)
    ensures p > 0
    decreases m
  {
    HalfShrinks(m);
    if m == 0 then 1 else 2 * Size(Half(m))
  }

  /** The number that the low n bits of x stand for. */
  function Low(x: bv32, m: bv32): (v: nat)
    ensures v < Size(m)
    decreases m
  {
    HalfShrinks(m);
    if m == 0 then 0 else Bit(Odd(x)) + 2 * Low(Half(x), Half(m))
  }

  lemma HalfShrinks(m: bv32)
    ensures m != 0 ==> Half(m) < m
  {
  }

  /** The number that a register stands for, unsigned and as two's complement. */
  function Unsigned(x: bv32): (v: nat)
    ensures v < MODULUS
  {
    SizeOfWord();
    Low(x, ALL)
  }

  function Signed(x: bv32): int {
    if Unsigned(x) >= HALF_MODULUS then Unsigned(x) - MODULUS else Unsigned(x)
  }

  // ----- sizes -----

  function Clear(p: bv32): bv32 { p & 0x7fff_ffff }

  /** One more bit in a mask. */
  function Widened(m: bv32): bv32 { (m << 1) | 1 }

  lemma HalfWidened(m: bv32)
    requires m <= 0x7fff_ffff
    ensures Half(Widened(m)) == m && Widened(m) != 0
  {
  }

  lemma SizeWidened(m: bv32)
    requires m <= 0x7fff_ffff
    ensures Size(Widened(m)) == 2 * Size(m)
  {
    hide Widened, Half;
    HalfWidened(m);
  }

  lemma FourWidened(m: bv32)
    requires m <= 0xfff_ffff
    ensures Widened(m) <= 0x1fff_ffff && Widened(Widened(m)) <= 0x3fff_ffff
    ensures Widened(Widened(Widened(m))) <= 0x7fff_ffff
    ensures Widened(Widened(Widened(Widened(m)))) == (m << 4) | 0xf
  {
  }

  lemma SizeFour(m: bv32, r: bv32)
    requires m <= 0xfff_ffff && r == (m << 4) | 0xf
    ensures Size(r) == 16 * Size(m)
  {
    hide Widened, Size;
    FourWidened(m);
    SizeWidened(m);
    SizeWidened(Widened(m));
    SizeWidened(Widened(Widened(m)));
    SizeWidened(Widened(Widened(Widened(m))));
  }

  lemma SizeOfWord()
    ensures Size(0) == 1 && Size(ALL) == MODULUS && Size(Half(ALL)) == HALF_MODULUS
  {
    assert Half(ALL) == 0x7fff_ffff && ALL == 0xffff_ffff;
    SizeFour(0, 0xf);
    SizeFour(0xf, 0xff);
    SizeFour(0xff, 0xfff);
    SizeFour(0xfff, 0xffff);
    SizeFour(0xffff, 0xf_ffff);
    SizeFour(0xf_ffff, 0xff_ffff);
    SizeFour(0xff_ffff, 0xfff_ffff);
    SizeFour(0xfff_ffff, 0xffff_ffff);
  }

  // ----- which bits matter -----

  lemma MaskHalves(m: bv32)
    requires Mask(m) && m != 0
    ensures Mask(Half(m)) && Odd(m) && Clear(Half(m)) == Half(m)
  {
  }

  lemma {:induction false} OnlyMaskedMatters(x: bv32, y: bv32, m: bv32)
    requires Mask(m) && BitAnd(x, m) == BitAnd(y, m)
    ensures Low(x, m) == Low(y, m)
    decreases m
  {
    hide Half, Odd, Mask, BitAnd;
    if m != 0 {
      HalfShrinks(m);
      MaskHalves(m);
      MaskedHalves(x, y, m);
      OnlyMaskedMatters(Half(x), Half(y), Half(m));
    }
  }

  lemma MaskedHalves(x: bv32, y: bv32, m: bv32)
    requires BitAnd(x, m) == BitAnd(y, m)
    ensures BitAnd(Half(x), Half(m)) == BitAnd(Half(y), Half(m))
    ensures Odd(m) ==> Odd(x) == Odd(y)
  {
  }

  /** A zero bit on top adds nothing. */
  lemma {:induction false} TopZero(x: bv32, m: bv32)
    requires Mask(m) && BitAnd(x, m) == BitAnd(x, Half(m))
    ensures Low(x, m) == Low(x, Half(m))
    decreases m
  {
    hide Odd, Mask, BitAnd, Half;
    if m != 0 {
      HalfShrinks(m);
      MaskHalves(m);
      TopHalves(x, m);
      if Half(m) != 0 {
        TopZero(Half(x), Half(m));
      } else {
        LowNone(Half(x));
      }
    } else {
      ZeroHalf();
    }
  }

  lemma LowNone(x: bv32)
    ensures Low(x, 0) == 0
  {
  }

  lemma ZeroHalf()
    ensures Half(0) == 0
  {
  }

  lemma TopHalves(x: bv32, m: bv32)
    requires Mask(m) && m != 0 && BitAnd(x, m) == BitAnd(x, Half(m))
    ensures BitAnd(Half(x), Half(m)) == BitAnd(Half(x), Half(Half(m)))
    ensures Half(m) == 0 ==> !Odd(x)
  {
  }

  predicate Top(x: bv32) { x & 0x8000_0000 != 0 }

  lemma TopBits(x: bv32)
    ensures Mask(ALL) && (!Top(x) ==> BitAnd(x, ALL) == BitAnd(x, Half(ALL))) && !Top(Half(x))
  {
  }

  lemma TopIsSign(x: bv32)
    ensures Top(x) <==> Unsigned(x) >= HALF_MODULUS
  {
    hide Odd, Mask, BitAnd, Half, Top;
    SizeOfWord();
    TopBits(x);
    if !Top(x) {
      TopZero(x, ALL);
    } else {
      ComplementValue(x);
      ComplementTop(x);
      TopBits(!x);
      TopZero(!x, ALL);
    }
  }

  // ----- sums -----

  /** s is twice t, or one more, as far as 32 bits show. */
  predicate Halved(s: bv32, t: bv32, o: bool) { Half(s) == Clear(t) && Odd(s) == o }

  predicate Plain(x: bv32, y: bv32, t: bv32, o: bool) { Halved(x + y, t, o) }

  predicate Carried(x: bv32, y: bv32, t: bv32, o: bool) { Halved(x + y + 1, t, o) }

  lemma Doubled(t: bv32)
    ensures Halved(t + t, t, false) && Halved(t + t + 1, t, true)
  {
  }

  lemma AddEven(p: bv32, q: bv32)
    ensures Plain(p + p, q + q, p + q, false) && Carried(p + p, q + q, p + q, true)
  {
    hide Halved;
    Doubled(p + q);
  }

  lemma AddMixed(p: bv32, q: bv32)
    ensures Plain(p + p + 1, q + q, p + q, true) && Carried(p + p + 1, q + q, p + q + 1, false)
  {
    hide Halved;
    Doubled(p + q);
    Doubled(p + q + 1);
  }

  lemma AddOdd(p: bv32, q: bv32)
    ensures Plain(p + p + 1, q + q + 1, p + q + 1, false) && Carried(p + p + 1, q + q + 1, p + q + 1, true)
  {
    hide Halved;
    Doubled(p + q + 1);
  }

  lemma EvenSums(x: bv32, y: bv32, p: bv32, q: bv32)
    requires x == p + p && y == q + q
    ensures Plain(x, y, p + q, false) && Carried(x, y, p + q, true)
  {
    hide Plain, Carried;
    AddEven(p, q);
  }

  lemma MixedSums(x: bv32, y: bv32, p: bv32, q: bv32)
    requires x == p + p + 1 && y == q + q
    ensures Plain(x, y, p + q, true) && Carried(x, y, p + q + 1, false)
  {
    hide Plain, Carried;
    AddMixed(p, q);
  }

  lemma OddSums(x: bv32, y: bv32, p: bv32, q: bv32)
    requires x == p + p + 1 && y == q + q + 1
    ensures Plain(x, y, p + q + 1, false) && Carried(x, y, p + q + 1, true)
  {
    hide Plain, Carried;
    AddOdd(p, q);
  }

  lemma HalvesOf(x: bv32)
    ensures Odd(x) ==> x == Half(x) + Half(x) + 1
    ensures !Odd(x) ==> x == Half(x) + Half(x)
  {
  }

  lemma Evens(x: bv32, y: bv32)
    requires !Odd(x) && !Odd(y)
    ensures Plain(x, y, Half(x) + Half(y), false) && Carried(x, y, Half(x) + Half(y), true)
  {
    hide Plain, Carried, Half, Odd;
    HalvesOf(x);
    HalvesOf(y);
    EvenSums(x, y, Half(x), Half(y));
  }

  lemma Mixed(x: bv32, y: bv32)
    requires Odd(x) && !Odd(y)
    ensures Plain(x, y, Half(x) + Half(y), true) && Carried(x, y, Half(x) + Half(y) + 1, false)
  {
    hide Plain, Carried, Half, Odd;
    HalvesOf(x);
    HalvesOf(y);
    MixedSums(x, y, Half(x), Half(y));
  }

  lemma Odds(x: bv32, y: bv32)
    requires Odd(x) && Odd(y)
    ensures Plain(x, y, Half(x) + Half(y) + 1, false) && Carried(x, y, Half(x) + Half(y) + 1, true)
  {
    hide Plain, Carried, Half, Odd;
    HalvesOf(x);
    HalvesOf(y);
    OddSums(x, y, Half(x), Half(y));
  }

  predicate Carry(a: bool, b: bool, c: bool) { (a && b) || (a && c) || (b && c) }

  function Sum(x: bv32, y: bv32, c: bool): bv32 { if c then x + y + 1 else x + y }

  /** One step of addition from the low end. */
  lemma SumHalved(x: bv32, y: bv32, c: bool)
    ensures Halved(Sum(x, y, c), Sum(Half(x), Half(y), Carry(Odd(x), Odd(y), c)), (Odd(x) != Odd(y)) != c)
  {
    hide Halved, Half, Odd;
    if Odd(x) && Odd(y) {
      Odds(x, y);
    } else if Odd(x) {
      Mixed(x, y);
    } else if Odd(y) {
      Mixed(y, x);
      assert x + y == y + x;
    } else {
      Evens(x, y);
    }
  }

  lemma SumHalves(x: bv32, y: bv32, c: bool)
    ensures var d := Carry(Odd(x), Odd(y), c);
            && Half(Sum(x, y, c)) == Clear(Sum(Half(x), Half(y), d))
            && Bit(Odd(x)) + Bit(Odd(y)) + Bit(c) == Bit(Odd(Sum(x, y, c))) + 2 * Bit(d)
  {
    hide Half, Odd, Clear, Sum;
    SumHalved(x, y, c);
  }

  lemma ClearUnder(t: bv32, h: bv32)
    requires Clear(h) == h
    ensures BitAnd(Clear(t), h) == BitAnd(t, h)
  {
  }

  lemma LowStep(x: bv32, m: bv32)
    ensures Size(m) == if m == 0 then 1 else 2 * Size(Half(m))
    ensures Low(x, m) == if m == 0 then 0 else Bit(Odd(x)) + 2 * Low(Half(x), Half(m))
  {
  }

  lemma {:induction false} SumLow(x: bv32, y: bv32, c: bool, m: bv32)
    requires Mask(m)
    ensures Low(Sum(x, y, c), m) == (Low(x, m) + Low(y, m) + Bit(c)) % Size(m)
    decreases m
  {
    hide Half, Odd, Mask, BitAnd, Sum, Carry, Clear, Low, Size;
    LowStep(x, m);
    LowStep(y, m);
    LowStep(Sum(x, y, c), m);
    if m != 0 {
      var d, h := Carry(Odd(x), Odd(y), c), Half(m);
      HalfShrinks(m);
      MaskHalves(m);
      SumHalves(x, y, c);
      var t := Sum(Half(x), Half(y), d);
      ClearUnder(t, h);
      OnlyMaskedMatters(Clear(t), t, h);
      SumLow(Half(x), Half(y), d, h);
      CarryMod(Low(Half(x), h) + Low(Half(y), h) + Bit(d), Size(h), Bit(Odd(Sum(x, y, c))));
    }
  }

  lemma CarryMod(a: nat, w: nat, b: nat)
    requires w > 0 && b <= 1
    ensures b + 2 * (a % w) == (b + 2 * a) % (2 * w)
  {
    var q, r := a / w, a % w;
    assert a == q * w + r;
    assert b + 2 * a == q * (2 * w) + (b + 2 * r);
    ModUnique(b + 2 * a, 2 * w, q, b + 2 * r);
  }

  /** Plus is the sum modulo 2^32. */
  lemma SumWraps(x: bv32, y: bv32)
    ensures Unsigned(Plus(x, y)) == (Unsigned(x) + Unsigned(y)) % MODULUS
  {
    hide Half, Odd, Mask, BitAnd, Low, Size;
    SizeOfWord();
    TopBits(x);
    SumLow(x, y, false, ALL);
  }

  /** Minus is the difference modulo 2^32. */
  lemma DifferenceWraps(x: bv32, y: bv32)
    ensures Unsigned(Minus(x, y)) == (Unsigned(x) - Unsigned(y)) % MODULUS
  {
    hide Unsigned;
    SumWraps(x - y, y);
  }

  // ----- complements -----

  lemma {:induction false} OnesLow(m: bv32)
    requires Mask(m)
    ensures Low(m, m) == Size(m) - 1
    decreases m
  {
    hide Half, Odd, Mask;
    if m != 0 {
      HalfShrinks(m);
      MaskHalves(m);
      OnesLow(Half(m));
    }
  }

  lemma ComplementTop(x: bv32)
    ensures Plus(x, !x) == ALL && !!x == x
    ensures Top(!x) <==> !Top(x)
  {
  }

  lemma ComplementValue(x: bv32)
    ensures Unsigned(!x) == MODULUS - 1 - Unsigned(x)
  {
    hide Half, Odd, Mask, BitAnd, Low, Size, Plus;
    SizeOfWord();
    TopBits(x);
    OnesLow(ALL);
    ComplementTop(x);
    SumWraps(x, !x);
  }

  // ----- shifts -----

  /** 2^n for a shift by n. */
  function Power(n: bv32): (p: nat)
    ensures p > 0
    decreases n
  {
    if n == 0 then 1 else 2 * Power(n - 1)
  }

  lemma HalfValue(x: bv32)
    ensures Unsigned(Half(x)) == Unsigned(x) / 2
  {
    hide Half, Odd, Mask, BitAnd, Top;
    TopBits(x);
    TopBits(Half(x));
    TopZero(Half(x), ALL);
  }

  lemma DoubleValue(x: bv32)
    ensures Unsigned(Plus(x, x)) == 2 * Unsigned(x) % MODULUS
  {
    hide Unsigned;
    SumWraps(x, x);
  }

  lemma ShiftOnce(v: bv32, n: bv32)
    requires 0 < n < 32
    ensures Srl(v, n) == Half(Srl(v, n - 1)) && Sll(v, n) == Plus(Sll(v, n - 1), Sll(v, n - 1))
  {
  }

  lemma ShiftNone(v: bv32)
    ensures Srl(v, 0) == v && Sll(v, 0) == v
  {
  }

  lemma DivUnique(x: int, m: int, q: int, r: int)
    requires m > 0 && x == q * m + r && 0 <= r < m
    ensures x / m == q
  {
    ModUnique(x, m, q, r);
    assert x == (x / m) * m + x % m;
    assert (x / m - q) * m == 0;
    SmallMultiple(x / m - q, m);
  }

  lemma DivTwice(v: nat, p: nat)
    requires p > 0
    ensures v / p / 2 == v / (2 * p)
  {
    var q, r := v / p, v % p;
    var e := if q % 2 == 1 then p + r else r;
    assert v == q * p + r;
    assert q == 2 * (q / 2) + q % 2;
    assert q * p == (q / 2) * (2 * p) + (q % 2) * p;
    DivUnique(v, 2 * p, q / 2, e);
  }

  lemma DoubleMod(z: nat)
    ensures 2 * (z % MODULUS) % MODULUS == 2 * z % MODULUS
  {
  }

  lemma TwiceMod(a: nat, p: nat)
    ensures 2 * (a * p % MODULUS) % MODULUS == a * (2 * p) % MODULUS
  {
    DoubleMod(a * p);
    assert a * (2 * p) == 2 * (a * p);
  }

  /** Srl is division by 2^n, Sll is multiplication by 2^n modulo 2^32. */
  lemma {:induction false} ShiftsScale(v: bv32, n: bv32)
    requires n < 32
    ensures Unsigned(Srl(v, n)) == Unsigned(v) / Power(n)
    ensures Unsigned(Sll(v, n)) == Unsigned(v) * Power(n) % MODULUS
    decreases n
  {
    hide Unsigned, Srl, Sll, Plus, Half;
    if n == 0 {
      ShiftNone(v);
    } else {
      var p := Power(n - 1);
      ShiftsScale(v, n - 1);
      ShiftOnce(v, n);
      HalfValue(Srl(v, n - 1));
      DivTwice(Unsigned(v), p);
      DoubleValue(Sll(v, n - 1));
      TwiceMod(Unsigned(v), p);
    }
  }

  lemma ShiftTop(v: bv32, n: bv32)
    requires n < 32 && !Top(v)
    ensures !Top(Srl(v, n))
  {
    hide Top, Srl, Sll, Half, Mask, BitAnd;
    if n == 0 {
      ShiftNone(v);
    } else {
      ShiftOnce(v, n);
      TopBits(Srl(v, n - 1));
    }
  }

  function Not(x: bv32): bv32 { !x }

  lemma SraByNegation(v: bv32, n: bv32)
    requires n < 32
    ensures Top(v) ==> Sra(v, n) == !Srl(!v, n)
    ensures !Top(v) ==> Sra(v, n) == Srl(v, n)
  {
  }

  lemma SraOfComplement(v: bv32, n: bv32)
    requires n < 32 && Top(v)
    ensures Sra(v, n) == Not(Srl(Not(v), n))
  {
    hide Sra, Srl, Top;
    SraByNegation(v, n);
  }

  lemma NotFacts(x: bv32)
    ensures Not(Not(x)) == x && (Top(Not(x)) <==> !Top(x)) && Unsigned(Not(x)) == MODULUS - 1 - Unsigned(x)
  {
    hide Top, Unsigned, Plus;
    ComplementTop(x);
    ComplementValue(x);
  }

  lemma FloorOfComplement(a: nat, p: nat)
    requires p > 0
    ensures (-1 - a as int) / p == -1 - (a / p) as int
  {
    var q, r := a / p, a % p;
    assert a == q * p + r;
    assert -1 - a as int == (-1 - q as int) * p + (p - 1 - r);
    DivUnique(-1 - a as int, p, -1 - q as int, p - 1 - r);
  }

  lemma SignedByTop(x: bv32)
    ensures Signed(x) == if Top(x) then Unsigned(x) - MODULUS else Unsigned(x)
  {
    hide Unsigned, Top;
    TopIsSign(x);
  }

  /** Sra is the floor of the signed value divided by 2^n. */
  lemma ArithmeticShiftIsFloor(v: bv32, n: bv32)
    requires n < 32
    ensures Signed(Sra(v, n)) == Signed(v) / Power(n)
  {
    hide *;
    SignedByTop(v);
    SignedByTop(Sra(v, n));
    if Top(v) {
      var u := Not(v);
      SraOfComplement(v, n);
      NotFacts(v);
      NotFacts(Srl(u, n));
      ShiftTop(u, n);
      ShiftsScale(u, n);
      FloorOfComplement(Unsigned(u), Power(n));
    } else {
      SraByNegation(v, n);
      ShiftTop(v, n);
      ShiftsScale(v, n);
    }
  }

  // ----- the arithmetic instructions -----

  /** The register that an instruction has written. */
  function Result(o: Outcome, rd: bv32): bv32
    requires o.Done?
  {
    Get(o.cpu.regs, rd)
  }

  lemma ResultOfSet(s: Cpu, rd: bv32, v: bv32)
    requires 0 != rd && rd < 32
    ensures Result(Runs(SetReg(s, rd, v)), rd) == v
  {
    SetThenGet(s.regs, rd, v, rd);
  }

  /** ADD, ADDI and SUB compute modulo 2^32. */
  lemma SumInstructions(s: Cpu, w: bv32)
    requires Rd(w) != 0
    ensures var a, b := Unsigned(Get(s.regs, Rs1(w))), Unsigned(Get(s.regs, Rs2(w)));
            && Unsigned(Result(ExecADD(s, w), Rd(w))) == (a + b) % MODULUS
            && Unsigned(Result(ExecADDI(s, w), Rd(w))) == (a + Unsigned(ImmI(w))) % MODULUS
            && Unsigned(Result(ExecSUB(s, w), Rd(w))) == (a - b) % MODULUS
  {
    hide Unsigned, Rd, Rs1, Rs2, ImmI, Get, Plus, Minus, SetReg, Result;
    var a, b, i := Get(s.regs, Rs1(w)), Get(s.regs, Rs2(w)), ImmI(w);
    RdBounded(w);
    ResultOfSet(s, Rd(w), Plus(a, b));
    ResultOfSet(s, Rd(w), Plus(a, i));
    ResultOfSet(s, Rd(w), Minus(a, b));
    SumWraps(a, b);
    SumWraps(a, i);
    DifferenceWraps(a, b);
  }

  /** SRLI and SRAI divide, rounding down, by a power of two, and SLLI multiplies by one. */
  lemma ShiftInstructions(s: Cpu, w: bv32)
    requires Rd(w) != 0
    ensures var a, n, m := Get(s.regs, Rs1(w)), Low5(Rs2(w)), Low5(Shamt(w));
            && Unsigned(Result(ExecSRLI(s, w), Rd(w))) == Unsigned(a) / Power(n)
            && Signed(Result(ExecSRAI(s, w), Rd(w))) == Signed(a) / Power(n)
            && (Shamt(w) < 0x20 ==> Unsigned(Result(ExecSLLI(s, w), Rd(w))) == Unsigned(a) * Power(m) % MODULUS)
  {
    hide Unsigned, Signed, Rd, Rs1, Rs2, Shamt, Low5, Get, Srl, Sra, Sll, SetReg, Result, Power;
    var a, n, m := Get(s.regs, Rs1(w)), Low5(Rs2(w)), Low5(Shamt(w));
    RdBounded(w);
    ResultOfSet(s, Rd(w), Srl(a, n));
    ResultOfSet(s, Rd(w), Sra(a, n));
    ResultOfSet(s, Rd(w), Sll(a, m));
    ShiftsScale(a, n);
    ShiftsScale(a, m);
    ArithmeticShiftIsFloor(a, n);
  }

  // ----- the same number as in conversions -----

  function AsInt(x: bv32, m: bv32): int { (x & m) as int }

  predicate Agrees(x: bv32, m: bv32) { AsInt(x, m) == Low(x, m) }

  predicate TopBit(x: bv32, m: bv32) { x & (m ^ (m >> 1)) != 0 }

  /** A mask with one more bit adds the value of that bit. */
  predicate Grows(x: bv32, m: bv32, p: nat) {
    (x & m) as int == (x & (m >> 1)) as int + (if x & (m ^ (m >> 1)) != 0 then p else 0)
  }

  lemma TopHalved(x: bv32, m: bv32)
    requires Mask(m) && m != 0
    ensures if Half(m) == 0 then TopBit(x, m) == Odd(x) else TopBit(Half(x), Half(m)) == TopBit(x, m)
  {
  }

  lemma {:induction false} LowGrows(x: bv32, m: bv32)
    requires Mask(m) && m != 0
    ensures Low(x, m) == Low(x, Half(m)) + (if TopBit(x, m) then Size(Half(m)) else 0)
    decreases m
  {
    hide Half, Odd, Mask, TopBit, Low, Size;
    MaskHalves(m);
    HalfShrinks(m);
    TopHalved(x, m);
    LowStep(x, m);
    LowStep(x, Half(m));
    if Half(m) != 0 {
      LowGrows(Half(x), Half(m));
    } else {
      LowStep(Half(x), 0);
    }
  }

  lemma FirstByteGrows(x: bv32)
    ensures Grows(x, 0x1, 0x1) && Grows(x, 0x3, 0x2) && Grows(x, 0x7, 0x4) && Grows(x, 0xf, 0x8)
    ensures Grows(x, 0x1f, 0x10) && Grows(x, 0x3f, 0x20) && Grows(x, 0x7f, 0x40) && Grows(x, 0xff, 0x80)
  {
  }

  lemma SecondByteGrows(x: bv32)
    ensures Grows(x, 0x1ff, 0x100) && Grows(x, 0x3ff, 0x200) && Grows(x, 0x7ff, 0x400) && Grows(x, 0xfff, 0x800)
    ensures Grows(x, 0x1fff, 0x1000) && Grows(x, 0x3fff, 0x2000) && Grows(x, 0x7fff, 0x4000) && Grows(x, 0xffff, 0x8000)
  {
  }

  lemma ThirdByteGrows(x: bv32)
    ensures Grows(x, 0x1_ffff, 0x1_0000) && Grows(x, 0x3_ffff, 0x2_0000)
    ensures Grows(x, 0x7_ffff, 0x4_0000) && Grows(x, 0xf_ffff, 0x8_0000)
    ensures Grows(x, 0x1f_ffff, 0x10_0000) && Grows(x, 0x3f_ffff, 0x20_0000)
    ensures Grows(x, 0x7f_ffff, 0x40_0000) && Grows(x, 0xff_ffff, 0x80_0000)
  {
  }

  lemma FourthByteGrows(x: bv32)
    ensures Grows(x, 0x1ff_ffff, 0x100_0000) && Grows(x, 0x3ff_ffff, 0x200_0000)
    ensures Grows(x, 0x7ff_ffff, 0x400_0000) && Grows(x, 0xfff_ffff, 0x800_0000)
    ensures Grows(x, 0x1fff_ffff, 0x1000_0000) && Grows(x, 0x3fff_ffff, 0x2000_0000)
    ensures Grows(x, 0x7fff_ffff, 0x4000_0000) && Grows(x, 0xffff_ffff, 0x8000_0000)
  {
  }

  lemma GrowsAsInt(x: bv32, m: bv32, p: nat)
    requires Grows(x, m, p)
    ensures AsInt(x, m) == AsInt(x, m >> 1) + (if x & (m ^ (m >> 1)) != 0 then p else 0)
  {
  }

  lemma Grow(x: bv32, m: bv32, p: nat)
    requires Mask(m) && m != 0 && Agrees(x, Half(m)) && Size(Half(m)) == p && Grows(x, m, p)
    ensures Agrees(x, m) && Size(m) == 2 * p
  {
    hide AsInt, Grows, Mask, Low, Size, BitAnd;
    GrowsAsInt(x, m, p);
    LowGrows(x, m);
    LowStep(x, m);
  }

  lemma FirstByteAgrees(x: bv32)
    requires Agrees(x, 0x0) && Size(0x0) == 0x1
    ensures Agrees(x, 0xff) && Size(0xff) == 0x100
  {
    hide Agrees, Grows, Low, Size;
    FirstByteGrows(x);
    Grow(x, 0x1, 0x1);
    Grow(x, 0x3, 0x2);
    Grow(x, 0x7, 0x4);
    Grow(x, 0xf, 0x8);
    Grow(x, 0x1f, 0x10);
    Grow(x, 0x3f, 0x20);
    Grow(x, 0x7f, 0x40);
    Grow(x, 0xff, 0x80);
  }

  lemma SecondByteAgrees(x: bv32)
    requires Agrees(x, 0xff) && Size(0xff) == 0x100
    ensures Agrees(x, 0xffff) && Size(0xffff) == 0x1_0000
  {
    hide Agrees, Grows, Low, Size;
    SecondByteGrows(x);
    Grow(x, 0x1ff, 0x100);
    Grow(x, 0x3ff, 0x200);
    Grow(x, 0x7ff, 0x400);
    Grow(x, 0xfff, 0x800);
    Grow(x, 0x1fff, 0x1000);
    Grow(x, 0x3fff, 0x2000);
    Grow(x, 0x7fff, 0x4000);
    Grow(x, 0xffff, 0x8000);
  }

  lemma ThirdByteAgrees(x: bv32)
    requires Agrees(x, 0xffff) && Size(0xffff) == 0x1_0000
    ensures Agrees(x, 0xff_ffff) && Size(0xff_ffff) == 0x100_0000
  {
    hide Agrees, Grows, Low, Size;
    ThirdByteGrows(x);
    Grow(x, 0x1_ffff, 0x1_0000);
    Grow(x, 0x3_ffff, 0x2_0000);
    Grow(x, 0x7_ffff, 0x4_0000);
    Grow(x, 0xf_ffff, 0x8_0000);
    Grow(x, 0x1f_ffff, 0x10_0000);
    Grow(x, 0x3f_ffff, 0x20_0000);
    Grow(x, 0x7f_ffff, 0x40_0000);
    Grow(x, 0xff_ffff, 0x80_0000);
  }

  lemma FourthByteAgrees(x: bv32)
    requires Agrees(x, 0xff_ffff) && Size(0xff_ffff) == 0x100_0000
    ensures Agrees(x, 0xffff_ffff) && Size(0xffff_ffff) == 0x1_0000_0000
  {
    hide Agrees, Grows, Low, Size;
    FourthByteGrows(x);
    Grow(x, 0x1ff_ffff, 0x100_0000);
    Grow(x, 0x3ff_ffff, 0x200_0000);
    Grow(x, 0x7ff_ffff, 0x400_0000);
    Grow(x, 0xfff_ffff, 0x800_0000);
    Grow(x, 0x1fff_ffff, 0x1000_0000);
    Grow(x, 0x3fff_ffff, 0x2000_0000);
    Grow(x, 0x7fff_ffff, 0x4000_0000);
    Grow(x, 0xffff_ffff, 0x8000_0000);
  }

  /** The number that a register stands for is the one that conversion to an integer gives. */
  lemma UnsignedIsInt(x: bv32)
    ensures Unsigned(x) == x as int
  {
    hide Agrees, Low, Size;
    NothingAgrees(x);
    FirstByteAgrees(x);
    SecondByteAgrees(x);
    ThirdByteAgrees(x);
    FourthByteAgrees(x);
    AllAgrees(x);
  }

  lemma NothingAgrees(x: bv32)
    ensures Agrees(x, 0) && Size(0) == 1
  {
    LowNone(x);
  }

  lemma AllAgrees(x: bv32)
    ensures Agrees(x, ALL) <==> x as int == Low(x, ALL)
  {
    assert x & 0xffff_ffff == x;
  }

  lemma ZeroAndOne()
    ensures Unsigned(0) == 0 && Unsigned(1) == 1
  {
    UnsignedIsInt(0);
    UnsignedIsInt(1);
  }

  lemma {:induction false} Numbered(x: nat) returns (b: bv32)
    requires x < MODULUS
    ensures Unsigned(b) == x
  {
    hide Unsigned, Plus;
    ZeroAndOne();
    b := 0;
    if x > 0 {
      b := Numbered(x - 1);
      SumWraps(b, 1);
      b := Plus(b, 1);
    }
  }

  lemma NumberOfBits(b: bv32)
    ensures ToBits(FromBits(b)) == b
  {
  }

  /** A number below 2^32 survives being put into a register. */
  lemma BitsOfNumber(x: word)
    ensures FromBits(ToBits(x)) == x
  {
    hide ToBits, Unsigned;
    var b := Numbered(x);
    UnsignedIsInt(b);
    NumberOfBits(b);
  }

  lemma EvenHalves(x: bv32)
    ensures Half(x & 0xffff_fffe) == Half(x) && !Odd(x & 0xffff_fffe)
  {
  }

  lemma EvenValue(x: bv32)
    ensures Unsigned(x & 0xffff_fffe) == Unsigned(x) - Unsigned(x) % 2
  {
    hide Unsigned;
    EvenHalves(x);
    HalfValue(x);
    HalfValue(x & 0xffff_fffe);
    OddValue(x);
    OddValue(x & 0xffff_fffe);
  }

  lemma OddValue(x: bv32)
    ensures Unsigned(x) % 2 == Bit(Odd(x))
  {
    hide Half, Odd, Low;
    LowStep(x, ALL);
  }

  // ----- bit by bit -----

  /** Bit k of a register, counted from the lowest. */
  predicate BitAt(x: bv32, k: nat)
    decreases k
  {
    if k == 0 then Odd(x) else BitAt(Half(x), k - 1)
  }

  lemma HalvedXor(x: bv32, y: bv32)
    ensures Half(BitXor(x, y)) == BitXor(Half(x), Half(y)) && (Odd(BitXor(x, y)) <==> Odd(x) != Odd(y))
  {
  }

  lemma HalvedOr(x: bv32, y: bv32)
    ensures Half(BitOr(x, y)) == BitOr(Half(x), Half(y)) && (Odd(BitOr(x, y)) <==> Odd(x) || Odd(y))
  {
  }

  lemma HalvedAnd(x: bv32, y: bv32)
    ensures Half(BitAnd(x, y)) == BitAnd(Half(x), Half(y)) && (Odd(BitAnd(x, y)) <==> Odd(x) && Odd(y))
  {
  }

  /** XOR, OR and AND work on every bit by itself. */
  lemma {:induction false} BitsAt(x: bv32, y: bv32, k: nat)
    ensures BitAt(BitXor(x, y), k) <==> BitAt(x, k) != BitAt(y, k)
    ensures BitAt(BitOr(x, y), k) <==> BitAt(x, k) || BitAt(y, k)
    ensures BitAt(BitAnd(x, y), k) <==> BitAt(x, k) && BitAt(y, k)
    decreases k
  {
    hide BitXor, BitOr, BitAnd, Half, Odd;
    HalvedXor(x, y);
    HalvedOr(x, y);
    HalvedAnd(x, y);
    if k > 0 {
      BitsAt(Half(x), Half(y), k - 1);
    }
  }

  // ----- words in memory -----

  /** A four-byte read of main memory returns the word there, in whatever state the buffer was. */
  lemma ReadDataMeans(s: Cpu, address: bv32, io: Io)
    requires FromBits(address) + 4 <= 0x100_0000
    ensures ReadData(s, address, io).Some?
    ensures Load(s.mem, FromBits(address), Full, false, io.junk, io.answer)
         == Some(FromBits(ReadData(s, address, io).value))
  {
    hide Load, ReadWord, FromBits, ToBits;
    var a: Address := FromBits(address);
    MainMemoryIsMain(a);
    LoadedWord(s.mem, a, io.junk, io.answer);
    BitsOfNumber(ReadWord(s.mem, a, 4, io.junk, io.answer));
  }

  /** A four-byte write of main memory: the word is read back from there, and nothing else changes. */
  lemma WriteDataMeans(s: Cpu, address: bv32, data: bv32, io: Io)
    requires FromBits(address) + 4 <= 0x100_0000
    ensures WriteData(s, address, data).Some?
    ensures var c, a := WriteData(s, address, data).value, FromBits(address);
            && c == s.(mem := c.mem)
            && Load(c.mem, a, Full, false, io.junk, io.answer) == Some(FromBits(data))
            && forall i | 0 <= i < SIZE && !(a <= i < a + 4) :: c.mem[i] == s.mem[i]
  {
    hide Load, Written, Extended, FromBits, ToBits;
    var a: Address := FromBits(address);
    MainMemoryIsMain(a);
    LoadAfterStore(s.mem, a, Full, false, FromBits(data), io.junk, io.answer);
    FullIsWord(FromBits(data));
    StoreIsLocal(s.mem, a, Full, FromBits(data), a + 4, Byte, false, io.junk, io.answer);
  }
}
