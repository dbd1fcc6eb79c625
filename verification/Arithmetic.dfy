/** Facts about division by a variable that the solver does not find by itself. */
module Arithmetic {
  function Min(x: int, y: int): int { if x < y then x else y }

  lemma SuccessorMod(i: nat, m: nat)
    requires m > 0
    ensures (i + 1) % m == if i % m + 1 == m then 0 else i % m + 1
  {
    var q := i / m;
    assert i == q * m + i % m;
    if i % m + 1 == m {
      assert i + 1 == (q + 1) * m + 0;
      ModUnique(i + 1, m, q + 1, 0);
    } else {
      ModUnique(i + 1, m, q, i % m + 1);
    }
  }

  lemma ModUnique(x: int, m: int, q: int, r: int)
    requires m > 0 && x == q * m + r && 0 <= r < m
    ensures x % m == r
  {
    var d := x / m - q;
    assert x == (x / m) * m + x % m;
    assert d * m == r - x % m;
    SmallMultiple(d, m);
  }

  lemma SmallMultiple(d: int, m: int)
    requires m > 0 && -m < d * m < m
    ensures d == 0
  {
    if d > 0 {
      AtLeast(d, m);
      assert false;
    } else if d < 0 {
      AtMost(d, m);
      assert false;
    }
  }

  lemma AtMost(d: int, m: int)
    requires d < 0 && m >= 0
    ensures d * m <= -m
  {
    AtLeast(-d, m);
    assert (-d) * m == -(d * m);
  }

  lemma AtLeast(d: nat, m: nat)
    requires d > 0
    ensures d * m >= m
  {
    if d > 1 {
      AtLeast(d - 1, m);
      assert d * m == (d - 1) * m + m;
    }
  }
}
