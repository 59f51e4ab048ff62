/** Facts about products, one at a time. */
module Arithmetic {

  lemma ProductOrder(factor: nat, x: int, y: int)
    requires x <= y
    ensures factor * x <= factor * y
  {
  }

  lemma ProductStep(factor: int, x: int)
    ensures factor * (x + 1) == factor * x + factor
  {
  }

  lemma OneMore(n: int, x: int)
    ensures (n + 1) * x == n * x + x
  {
  }

  lemma Distribute(x: int, y: int, z: int)
    ensures (x + y) * z == x * z + y * z
  {
  }

  lemma Commute(a: int, b: int)
    ensures a * b == b * a
  {
  }

  lemma EuclidMonotone(divisor: nat, a: int, ra: int, b: int, rb: int)
    requires 0 <= ra < divisor && 0 <= rb < divisor && divisor * a + ra <= divisor * b + rb
    ensures a <= b && (a == b ==> ra <= rb)
  {
    ProductStep(divisor, b);
    if a > b {
      ProductOrder(divisor, b + 1, a);
    }
  }

  /** A quotient is the only one with a remainder in range. */
  lemma QuotientIs(value: nat, divisor: nat, q: nat, r: nat)
    requires r < divisor && value == divisor * q + r
    ensures value / divisor == q
  {
    EuclidMonotone(divisor, q, r, value / divisor, value % divisor);
    EuclidMonotone(divisor, value / divisor, value % divisor, q, r);
  }
}
