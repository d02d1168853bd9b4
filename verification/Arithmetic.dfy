/** The 64-bit range, and division by variables in the small steps the solver can follow. */
module Arithmetic {
  type U64 = x: int | 0 <= x < 0x1_0000_0000_0000_0000

  const U64_MAX: U64 := 0xFFFF_FFFF_FFFF_FFFF

  lemma MulAtLeast(b: int, x: int)
    requires b > 0 && x >= 1
    ensures b * x >= b
  {
  }

  lemma DivisionIs(a: int, b: int, q: int, r: int)
    requires b > 0 && 0 <= r < b && a == b * q + r
    ensures a / b == q && a % b == r
  {
    var d, m := a / b, a % b;
    assert a == b * d + m;
    assert b * (d - q) == r - m && b * (q - d) == m - r;
    if d > q {
      MulAtLeast(b, d - q);
    } else if d < q {
      MulAtLeast(b, q - d);
    }
  }

  lemma MulMonotone(a: nat, b: nat, m: nat)
    requires a <= b
    ensures a * m <= b * m
  {
  }

  lemma SmallModulo(i: nat, m: nat)
    requires i < m
    ensures i % m == i
  {
  }

  function CeilDiv(a: nat, b: nat): (q: nat)
    requires b > 0
    ensures a <= q * b && (q > 0 ==> (q - 1) * b < a)
  {
    var q := (a + b - 1) / b;
    CeilDivIs(a, b, q);
    q
  }

  lemma CeilDivIs(a: nat, b: nat, q: nat)
    requires b > 0 && q == (a + b - 1) / b
    ensures a <= q * b && (q > 0 ==> (q - 1) * b < a)
  {
    assert a + b - 1 == q * b + (a + b - 1) % b;
    assert q > 0 ==> (q - 1) * b == q * b - b;
  }

  lemma CeilDivParts(n: nat, c: nat, q: nat, r: nat)
    requires c >= 1 && r < c && n == q * c + r
    ensures CeilDiv(n, c) == q + if r > 0 then 1 else 0
  {
    assert (q + 1) * c == q * c + c;
    if r > 0 {
      DivisionIs(n + c - 1, c, q + 1, r - 1);
    } else {
      DivisionIs(n + c - 1, c, q, c - 1);
    }
  }

  lemma CeilDivMonotone(a: nat, b: nat, d: nat)
    requires a <= b && d > 0
    ensures CeilDiv(a, d) <= CeilDiv(b, d)
  {
    var p, q := CeilDiv(a, d), CeilDiv(b, d);
    if p > q {
      MulMonotone(q, p - 1, d);
    }
  }
}
