/** The few facts about products, quotients and remainders that the models need. */
module Arith {

  lemma {:induction false} LemmaMulMonotone(a: nat, b: nat, c: nat)
    requires a <= b
    ensures a * c <= b * c
    decreases b
  {
    if a < b {
      LemmaMulMonotone(a, b - 1, c);
      assert b * c == (b - 1) * c + c;
    }
  }

  lemma {:induction false} LemmaMulStrict(a: nat, b: nat, c: nat)
    requires a < b
    ensures a * c + c <= b * c
  {
    LemmaMulMonotone(a + 1, b, c);
    assert (a + 1) * c == a * c + c;
  }

  /** Quotient and remainder are determined by x == q * a + r. */
  lemma {:induction false} LemmaDivModUnique(x: nat, a: nat, q: nat, r: nat)
    requires r < a && x == q * a + r
    ensures x / a == q && x % a == r
  {
    var q', r' := x / a, x % a;
    assert x == q' * a + r';
    if q < q' {
      LemmaMulStrict(q, q', a);
    } else if q' < q {
      LemmaMulStrict(q', q, a);
    }
  }

  lemma {:induction false} LemmaMultiple(q: nat, a: nat)
    requires a > 0
    ensures q * a % a == 0 && q * a / a == q
  {
    LemmaDivModUnique(q * a, a, q, 0);
  }

  lemma {:induction false} LemmaSumOfMultiples(x: nat, y: nat, a: nat)
    requires a > 0 && x % a == 0 && y % a == 0
    ensures (x + y) % a == 0
  {
    var p, q := x / a, y / a;
    assert x == p * a && y == q * a;
    assert (p + q) * a == p * a + q * a;
    LemmaMultiple(p + q, a);
  }

  lemma {:induction false} LemmaDivBound(x: nat, d: nat, n: nat)
    requires d > 0
    ensures n <= x / d <==> n * d <= x
  {
    var q := x / d;
    assert x == q * d + x % d;
    if n <= q {
      LemmaMulMonotone(n, q, d);
    } else {
      LemmaMulStrict(q, n, d);
    }
  }

  /** C's division, which truncates toward zero. */
  function TruncDiv(x: int, d: nat): int
    requires d > 0
  {
    if x >= 0 then x / d else -(-x / d)
  }

  lemma LemmaTruncDiv(x: int, d: nat)
    requires d > 0
    ensures forall n: nat | n >= 1 :: n <= TruncDiv(x, d) <==> n * d <= x
  {
    forall n: nat | n >= 1
      ensures n <= TruncDiv(x, d) <==> n * d <= x
    {
      if x >= 0 {
        LemmaDivBound(x, d, n);
      } else {
        LemmaMulMonotone(0, n, d);
      }
    }
  }
}
