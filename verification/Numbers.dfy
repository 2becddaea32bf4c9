/** The least of two numbers, and what division and remainder of natural numbers are. */
module Numbers {

  function Min(a: nat, b: nat): nat {
    if a < b then a else b
  }

  lemma ExactQuotient(v: nat, src: nat)
    requires src > 0
    ensures v * src / src == v
  {
    QuotientIs(v * src, src, v, 0);
  }

  lemma Product(a: nat, b: nat, c: nat)
    requires a <= b
    ensures a * c <= b * c
  {
  }

  lemma Quotient(a: nat, b: nat)
    requires b > 0
    ensures a / b * b <= a < (a / b + 1) * b
  {
  }

  lemma AtLeastOne(k: int, d: nat)
    requires k >= 1
    ensures k * d >= d
  {
  }

  lemma DivisionLaw(a: int, d: nat)
    requires d > 0
    ensures a == a / d * d + a % d && 0 <= a % d < d
  {
  }

  lemma Difference(p: int, q: int, d: int)
    ensures (p - q) * d == p * d - q * d
  {
  }

  lemma QuotientIs(a: int, d: nat, q: int, r: nat)
    requires r < d && a == q * d + r
    ensures a / d == q && a % d == r
  {
    var p, m := a / d, a % d;
    DivisionLaw(a, d);
    Difference(p, q, d);
    Difference(q, p, d);
    if p > q {
      AtLeastOne(p - q, d);
    } else if p < q {
      AtLeastOne(q - p, d);
    }
  }

  lemma DivideOneLess(a: nat, d: nat)
    requires a >= d > 0
    ensures (a - d) / d == a / d - 1 && (a - d) % d == a % d
  {
    var q, r := a / d, a % d;
    var b := a - d;
    assert b == (q - 1) * d + r by {
      Difference(q, 1, d);
    }
    QuotientIs(b, d, q - 1, r);
  }

  lemma SmallRemainder(a: nat, d: nat)
    requires a < d
    ensures a / d == 0 && a % d == a
  {
  }
}
