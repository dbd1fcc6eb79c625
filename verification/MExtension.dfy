/** The multiplications and divisions of inc/M_extension.h and src/M_extension.cpp, on the
 *  integers that the registers stand for (sections 7.1 and 7.2 of the RISC-V Unprivileged ISA). */
module MExtension {
  import opened Arithmetic

  const W32 := 0x1_0000_0000
  const W64 := 0x1_0000_0000_0000_0000

  type word = x: int | 0 <= x < W32
  type double = x: int | 0 <= x < W64

  /** The value of an XLEN-bit pattern read as a signed number; w is 2^XLEN. */
  function Signed(x: int, w: int): int
    requires w > 0
  {
    if x >= w / 2 then x - w else x
  }

  // ----- RV32, as the code computes it -----

  function Mul32(a: word, b: word): word {
    Signed(a, W32) * Signed(b, W32) % W32
  }

  /** The 64-bit product, shifted right as a signed number and cut to 32 bits. */
  function Mulh32(a: word, b: word): word {
    Signed(a, W32) * Signed(b, W32) / W32 % W32
  }

  /** The signed operand is converted to uint64_t, the product wraps and is read as int64_t. */
  function Mulhsu32(a: word, b: word): word {
    var result := Signed(Signed(a, W32) % W64 * b % W64, W64);
    result / W32 % W32
  }

  function Mulhu32(a: word, b: word): word {
    a * b / W32 % W32
  }

  // ----- RV64: sc_bigint<128> keeps products modulo 2^128, of which bits 127 to 64 are taken -----

  function Mul64(a: double, b: double): double {
    Signed(a, W64) * Signed(b, W64) % W64
  }

  function High64(product: int): double {
    product % (W64 * W64) / W64
  }

  function Mulh64(a: double, b: double): double { High64(Signed(a, W64) * Signed(b, W64)) }

  function Mulhsu64(a: double, b: double): double { High64(Signed(a, W64) * b) }

  function Mulhu64(a: double, b: double): double { High64(a * b) }

  // ----- facts about products -----

  function Abs(x: int): nat { if x < 0 then -x else x }

  lemma AbsProduct(x: int, y: int)
    ensures Abs(x * y) == Abs(x) * Abs(y)
  {
    if x < 0 && y < 0 {
      assert (-x) * (-y) == x * y;
    } else if x < 0 {
      assert (-x) * y == -(x * y);
    } else if y < 0 {
      assert x * (-y) == -(x * y);
    }
    ProductSign(Abs(x), Abs(y));
  }

  lemma ProductSign(p: nat, q: nat)
    ensures p * q >= 0
  {
  }

  lemma ProductMonotone(p: nat, q: nat, m: nat, n: nat)
    requires p <= m && q <= n
    ensures p * q <= m * n
  {
    assert (m - p) * q >= 0 && m * (n - q) >= 0;
    assert m * n - p * q == (m - p) * q + m * (n - q);
  }

  lemma ProductBound(x: int, y: int, m: nat, n: nat)
    requires Abs(x) <= m && Abs(y) <= n
    ensures -(m * n) <= x * y <= m * n
  {
    AbsProduct(x, y);
    ProductMonotone(Abs(x), Abs(y), m, n);
  }

  /** Products are congruent when their factors are. */
  lemma ProductModulo(x: int, y: int, i: int, j: int, w: int)
    requires w > 0
    ensures (x + i * w) * (y + j * w) % w == x * y % w
  {
    var k := x * j + i * y + i * j * w;
    assert (x + i * w) * (y + j * w) == x * y + k * w by {
      assert (x + i * w) * (y + j * w) == x * y + x * (j * w) + (i * w) * y + (i * w) * (j * w);
      assert x * (j * w) == (x * j) * w && (i * w) * y == (i * y) * w && (i * w) * (j * w) == (i * j * w) * w;
    }
    ShiftModulo(x * y, k, w);
  }

  lemma ShiftModulo(p: int, k: int, w: int)
    requires w > 0
    ensures (p + k * w) % w == p % w && (p + k * w) / w == p / w + k
  {
    assert p == (p / w) * w + p % w;
    assert p + k * w == (p / w + k) * w + p % w;
    ModUnique(p + k * w, w, p / w + k, p % w);
    var d := (p + k * w) / w - (p / w + k);
    assert d * w == 0;
    SmallMultiple(d, w);
  }

  /** The two halves of a number: floor and remainder by w. */
  lemma Halves(p: int, w: int)
    requires w > 0
    ensures w * (p / w) + p % w == p
  {
  }

  lemma FloorBound(p: int, w: int, lo: int, hi: int)
    requires w > 0 && lo * w <= p < hi * w
    ensures lo <= p / w < hi
  {
    var q := p / w;
    assert p == q * w + p % w;
    assert (q + 1 - lo) * w > 0 && (hi - q) * w > 0;
    PositiveFactor(q + 1 - lo, w);
    PositiveFactor(hi - q, w);
  }

  lemma PositiveFactor(d: int, w: int)
    requires w > 0 && d * w > 0
    ensures d > 0
  {
    if d < 0 {
      AtMost(d, w);
    }
  }

  lemma SignedOfModulo(q: int, w: int)
    requires w > 0 && w % 2 == 0 && -(w / 2) <= q < w / 2
    ensures Signed(q % w, w) == q
  {
    if q < 0 {
      ModUnique(q, w, -1, q + w);
    } else {
      ModUnique(q, w, 0, q);
    }
  }

  // ----- multiplications give both halves of the exact product -----

  /** The low half of the product does not depend on signedness. */
  lemma LowHalf(a: int, b: int, w: int)
    requires w > 0 && w % 2 == 0 && 0 <= a < w && 0 <= b < w
    ensures Signed(a, w) * Signed(b, w) % w == a * b % w == Signed(a, w) * b % w
  {
    var i, j := if a >= w / 2 then -1 else 0, if b >= w / 2 then -1 else 0;
    ProductModulo(a, b, i, j, w);
    ProductModulo(a, b, i, 0, w);
    assert Signed(a, w) == a + i * w && Signed(b, w) == b + j * w;
  }

  lemma HighSigned(p: int, w: int)
    requires w > 0 && w % 2 == 0 && -(w / 2) * w <= p < (w / 2) * w
    ensures w * Signed(p / w % w, w) + p % w == p
  {
    FloorBound(p, w, -(w / 2), w / 2);
    SignedOfModulo(p / w, w);
    Halves(p, w);
  }

  lemma HighUnsigned(p: int, w: int)
    requires w > 0 && 0 <= p < w * w
    ensures w * (p / w % w) + p % w == p
  {
    FloorBound(p, w, 0, w);
    ModUnique(p / w, w, 0, p / w);
    Halves(p, w);
  }

  /** What the detour through unsigned 64-bit arithmetic computes. */
  lemma MixedProduct32(a: word, b: word)
    ensures Signed(Signed(a, W32) % W64 * b % W64, W64) == Signed(a, W32) * b
  {
    var x := Signed(a, W32);
    ProductBound(x, b, W32 / 2, W32 - 1);
    var i := if x < 0 then 1 else 0;
    assert x % W64 == x + i * W64;
    ProductModulo(x, b, i, 0, W64);
    SignedOfModulo(x * b, W64);
  }

  /** RV32: 2^32 times the high half, read with the right sign, plus MUL is the exact product. */
  lemma Multiply32IsExact(a: word, b: word)
    ensures W32 * Signed(Mulh32(a, b), W32) + Mul32(a, b) == Signed(a, W32) * Signed(b, W32)
    ensures W32 * Signed(Mulhsu32(a, b), W32) + Mul32(a, b) == Signed(a, W32) * b
    ensures W32 * Mulhu32(a, b) + Mul32(a, b) == a * b
  {
    var x, y := Signed(a, W32), Signed(b, W32);
    LowHalf(a, b, W32);
    ProductBound(x, y, W32 / 2, W32 / 2);
    HighSigned(x * y, W32);
    ProductBound(x, b, W32 / 2, W32 - 1);
    HighSigned(x * b, W32);
    MixedProduct32(a, b);
    ProductBound(a, b, W32 - 1, W32 - 1);
    ProductSign(a, b);
    HighUnsigned(a * b, W32);
  }

  lemma High64IsFloor(p: int)
    ensures High64(p) == p / W64 % W64
  {
    var m := W64 * W64;
    var r, k := p % m, p / m;
    assert p == r + (k * W64) * W64;
    ShiftModulo(r, k * W64, W64);
    FloorBound(r, W64, 0, W64);
    ModUnique(p / W64, W64, k, r / W64);
  }

  /** RV64: the same through 128-bit products. */
  lemma Multiply64IsExact(a: double, b: double)
    ensures W64 * Signed(Mulh64(a, b), W64) + Mul64(a, b) == Signed(a, W64) * Signed(b, W64)
    ensures W64 * Signed(Mulhsu64(a, b), W64) + Mul64(a, b) == Signed(a, W64) * b
    ensures W64 * Mulhu64(a, b) + Mul64(a, b) == a * b
  {
    var x, y := Signed(a, W64), Signed(b, W64);
    LowHalf(a, b, W64);
    ProductBound(x, y, W64 / 2, W64 / 2);
    HighSigned(x * y, W64);
    High64IsFloor(x * y);
    ProductBound(x, b, W64 / 2, W64 - 1);
    HighSigned(x * b, W64);
    High64IsFloor(x * b);
    ProductBound(a, b, W64 - 1, W64 - 1);
    ProductSign(a, b);
    HighUnsigned(a * b, W64);
    High64IsFloor(a * b);
  }

  // ----- RV32 divisions -----

  /** Division of C++, which rounds toward zero. */
  function Quotient(n: int, d: int): int
    requires d != 0
  {
    var q := Abs(n) / Abs(d);
    if (n < 0) == (d < 0) then q else -q
  }

  function Remainder(n: int, d: int): int
    requires d != 0
  {
    n - Quotient(n, d) * d
  }

  const LEAST := -0x8000_0000

  function Div32(a: word, b: word): word {
    var dividend, divisor := Signed(a, W32), Signed(b, W32);
    (if divisor == 0 then -1
     else if divisor == -1 && dividend == LEAST then 0x8000_0000
     else Quotient(dividend, divisor)) % W32
  }

  function Rem32(a: word, b: word): word {
    var dividend, divisor := Signed(a, W32), Signed(b, W32);
    (if divisor == 0 then dividend
     else if divisor == -1 && dividend == LEAST then 0
     else Remainder(dividend, divisor)) % W32
  }

  function Divu32(a: word, b: word): word {
    (if b == 0 then -1 else a / b) % W32
  }

  function Remu32(a: word, b: word): word {
    (if b == 0 then a else a % b) % W32
  }

  // The 32-bit-wide forms on a 32-bit processor; DIVW and REMUW are DIV and REMU.

  function Mulw32(a: word, b: word): word {
    a * b % W32
  }

  function Divuw32(a: word, b: word): word {
    (if b == 0 then -1 else if b == 0xffff_ffff && a == 0x8000_0000 then 0x8000_0000 else a / b) % W32
  }

  function Remw32(a: word, b: word): word {
    var dividend, divisor := Signed(a, W32), Signed(b, W32);
    (if divisor == 0 then dividend else if divisor == -1 then 0 else Remainder(dividend, divisor)) % W32
  }

  lemma Negate(q: int, d: int)
    ensures q * (-d) == -(q * d) == (-q) * d
  {
  }

  lemma Euclid(m: nat, k: nat)
    requires k > 0
    ensures m == (m / k) * k + m % k && 0 <= m % k < k && 0 <= m / k <= m
  {
    FloorBound(m, k, 0, m + 1);
  }

  lemma QuotientTimes(n: int, d: int)
    requires d != 0
    ensures Quotient(n, d) * d == if n < 0 then -(Abs(n) / Abs(d) * Abs(d)) else Abs(n) / Abs(d) * Abs(d)
  {
    Negate(Abs(n) / Abs(d), d);
  }

  lemma RemainderIs(n: int, d: int)
    requires d != 0
    ensures Remainder(n, d) == if n < 0 then -(Abs(n) % Abs(d)) else Abs(n) % Abs(d)
  {
    hide Quotient;
    QuotientTimes(n, d);
    Euclid(Abs(n), Abs(d));
  }

  /** The remainder is smaller than the divisor, and has the dividend's sign unless it is zero. */
  lemma RemainderShape(n: int, d: int)
    requires d != 0
    ensures Quotient(n, d) * d + Remainder(n, d) == n
    ensures Abs(Remainder(n, d)) < Abs(d) && Abs(Remainder(n, d)) <= Abs(n)
    ensures Remainder(n, d) != 0 ==> (Remainder(n, d) < 0 <==> n < 0)
    ensures Abs(Quotient(n, d)) <= Abs(n)
  {
    RemainderIs(n, d);
    Euclid(Abs(n), Abs(d));
    hide Remainder;
    assert Remainder(n, d) == n - Quotient(n, d) * d by {
      RemainderDefined(n, d);
    }
    RemainderSmall(Abs(n), Abs(d));
  }

  lemma RemainderDefined(n: int, d: int)
    requires d != 0
    ensures Remainder(n, d) == n - Quotient(n, d) * d
  {
  }

  lemma RemainderSmall(m: nat, k: nat)
    requires k > 0
    ensures m % k <= m
  {
    Euclid(m, k);
    ProductSign(m / k, k);
  }

  /** No other quotient and remainder have these properties. */
  lemma DivisionIsUnique(n: int, d: int, q: int, r: int)
    requires d != 0 && n == q * d + r && Abs(r) < Abs(d) && (r != 0 ==> (r < 0 <==> n < 0))
    ensures q == Quotient(n, d) && r == Remainder(n, d)
  {
    hide Quotient, Remainder;
    RemainderShape(n, d);
    SameQuotient(n, d, q, r, Quotient(n, d), Remainder(n, d));
  }

  lemma SameQuotient(n: int, d: int, q: int, r: int, p: int, s: int)
    requires d != 0 && q * d + r == n == p * d + s && Abs(r) < Abs(d) && Abs(s) < Abs(d)
    requires (r != 0 ==> (r < 0 <==> n < 0)) && (s != 0 ==> (s < 0 <==> n < 0))
    ensures q == p && r == s
  {
    Distribute(q, p, d);
    AbsProduct(q - p, d);
    assert Abs(s - r) < Abs(d);
    if q != p {
      AtLeast(Abs(q - p), Abs(d));
    }
  }

  lemma Distribute(q: int, p: int, d: int)
    ensures (q - p) * d == q * d - p * d
  {
  }

  /** The quotient and the remainder before they are cut to 32 bits. */
  function WideQuotient(n: int, d: int): int {
    if d == 0 then -1 else if d == -1 && n == LEAST then 0x8000_0000 else Quotient(n, d)
  }

  function WideRemainder(n: int, d: int): int {
    if d == 0 then n else if d == -1 && n == LEAST then 0 else Remainder(n, d)
  }

  lemma WideDivision(n: int, d: int)
    requires LEAST <= n < -LEAST && LEAST <= d < -LEAST
    ensures WideQuotient(n, d) * d + WideRemainder(n, d) == n
    ensures LEAST <= WideRemainder(n, d) < -LEAST
    ensures d != 0 ==> Abs(WideRemainder(n, d)) < Abs(d)
    ensures d != 0 && WideRemainder(n, d) != 0 ==> (WideRemainder(n, d) < 0 <==> n < 0)
  {
    hide Quotient, Remainder;
    if d != 0 {
      RemainderShape(n, d);
    }
  }

  lemma ProductOfResidues(q: int, b: int, d: int, w: int)
    requires w > 0 && (b == d || b == d + w)
    ensures (q % w) * b % w == q * d % w
  {
    Halves(q, w);
    ProductModulo(q, d, -(q / w), if b == d then 0 else 1, w);
  }

  lemma SumOfParts(x: int, y: int, r: int, s: int, a: word)
    requires x % W32 == y % W32 && r == s % W32 && (y + s) % W32 == a
    ensures (x + r) % W32 == a
  {
    SumModulo(x, y, r, s, W32);
  }

  lemma SignedModulo(a: word)
    ensures Signed(a, W32) % W32 == a
  {
  }

  lemma DivisionSum(a: word, b: word)
    ensures (Div32(a, b) * b + Rem32(a, b)) % W32 == a
  {
    hide Quotient, Remainder, WideQuotient, WideRemainder, Div32, Rem32;
    var n, d := Signed(a, W32), Signed(b, W32);
    DivisionsAreWide(a, b);
    WideDivision(n, d);
    ProductOfResidues(WideQuotient(n, d), b, d, W32);
    SignedModulo(a);
    SumOfParts(Div32(a, b) * b, WideQuotient(n, d) * d, Rem32(a, b), WideRemainder(n, d), a);
  }

  /** For every dividend and divisor, zero and -2^31 / -1 included, quotient times divisor plus
      remainder is the dividend modulo 2^32. */
  lemma SignedDivisionIsExact(a: word, b: word)
    ensures (Div32(a, b) * b + Rem32(a, b)) % W32 == a
    ensures b != 0 ==> Abs(Signed(Rem32(a, b), W32)) < Abs(Signed(b, W32))
    ensures b != 0 && Rem32(a, b) != 0 ==> (Signed(Rem32(a, b), W32) < 0 <==> Signed(a, W32) < 0)
  {
    hide WideQuotient, WideRemainder, Div32, Rem32;
    DivisionSum(a, b);
    DivisionsAreWide(a, b);
    WideDivision(Signed(a, W32), Signed(b, W32));
    SignedOfModulo(WideRemainder(Signed(a, W32), Signed(b, W32)), W32);
  }

  /** Read as signed numbers, quotient and remainder multiply back exactly unless the quotient
      2^31 of -2^31 / -1 does not fit. */
  lemma SignedQuotientExactly(a: word, b: word)
    ensures Signed(Div32(a, b), W32) * Signed(b, W32) + Signed(Rem32(a, b), W32) == Signed(a, W32)
       <==> !(Signed(a, W32) == LEAST && Signed(b, W32) == -1)
  {
    hide Quotient, Remainder;
    var n, d := Signed(a, W32), Signed(b, W32);
    WideDivision(n, d);
    SignedOfModulo(WideRemainder(n, d), W32);
    if !(n == LEAST && d == -1) {
      QuotientFits(n, d);
      SignedOfModulo(WideQuotient(n, d), W32);
    }
  }

  lemma QuotientFits(n: int, d: int)
    requires LEAST <= n < -LEAST && !(n == LEAST && d == -1)
    ensures LEAST <= WideQuotient(n, d) < -LEAST
  {
    hide Quotient, Remainder;
    if d != 0 {
      RemainderShape(n, d);
    }
  }

  lemma DivisionsAreWide(a: word, b: word)
    ensures Div32(a, b) == WideQuotient(Signed(a, W32), Signed(b, W32)) % W32
    ensures Rem32(a, b) == WideRemainder(Signed(a, W32), Signed(b, W32)) % W32
  {
  }

  lemma SumModulo(x: int, y: int, r: int, s: int, w: int)
    requires w > 0 && x % w == y % w && r % w == s % w
    ensures (x + r) % w == (y + s) % w
  {
    var i := Multiple(x, y, w);
    var j := Multiple(r, s, w);
    assert x + r == (y + s) + (i + j) * w;
    ShiftModulo(y + s, i + j, w);
  }

  lemma Multiple(x: int, y: int, w: int) returns (i: int)
    requires w > 0 && x % w == y % w
    ensures x == y + i * w
  {
    i := x / w - y / w;
    Halves(x, w);
    Halves(y, w);
  }

  lemma UnsignedDivisionIsExact(a: word, b: word)
    ensures (Divu32(a, b) * b + Remu32(a, b)) % W32 == a
    ensures b != 0 ==> Divu32(a, b) * b + Remu32(a, b) == a && Remu32(a, b) < b
    ensures b == 0 ==> Divu32(a, b) == W32 - 1 && Remu32(a, b) == a
  {
    if b != 0 {
      Euclid(a, b);
      RemainderSmall(a, b);
      Unwrapped(a / b);
      Unwrapped(a % b);
    }
  }

  lemma Unwrapped(x: word)
    ensures x % W32 == x
  {
  }

  // ----- the 32-bit-wide forms -----

  lemma RemainderByMinusOne(n: int)
    ensures Remainder(n, -1) == 0
  {
    RemainderIs(n, -1);
  }

  /** On a 32-bit processor they compute what MUL, REM and DIVU compute, except DIVUW for exactly one
      pair of operands, which it takes for the overflow of a signed division. */
  lemma WideFormsExactly(a: word, b: word)
    ensures Mulw32(a, b) == Mul32(a, b) && Remw32(a, b) == Rem32(a, b)
    ensures Divuw32(a, b) == Divu32(a, b) <==> !(a == 0x8000_0000 && b == 0xffff_ffff)
  {
    hide Remainder;
    LowHalf(a, b, W32);
    RemainderByMinusOne(Signed(a, W32));
    if a == 0x8000_0000 && b == 0xffff_ffff {
      assert a / b == 0;
    }
  }
}
