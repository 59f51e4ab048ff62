/** Factorials, falling products and binomial coefficients. */
module Combinatorics {
  import opened Arithmetic

  ghost function Factorial(n: nat): (r: nat)
    ensures r > 0
  {
    if n == 0 then 1 else Product2(n, Factorial(n - 1))
  }

  /** A product of positive numbers, kept positive. */
  ghost function Product2(a: nat, b: nat): (r: nat)
    requires a > 0 && b > 0
    ensures r == a * b && r > 0
  {
    PositiveProduct(a, b);
    a * b
  }

  lemma PositiveProduct(a: nat, b: nat)
    requires a > 0 && b > 0
    ensures a * b > 0
  {
  }

  /** n * (n - 1) * ... with k factors; zero as soon as a factor is. */
  ghost function Falling(n: int, k: nat): int {
    if k == 0 then 1 else Falling(n, k - 1) * (n - (k - 1))
  }

  /** Number of k-element subsets of n elements, by Pascal's rule. */
  ghost function Choose(n: nat, k: nat): nat {
    if k == 0 then 1 else if n == 0 then 0 else Choose(n - 1, k - 1) + Choose(n - 1, k)
  }

  lemma {:induction false} FallingIsFactorial(n: nat, k: nat)
    requires k <= n
    ensures Falling(n, k) * Factorial(n - k) == Factorial(n)
  {
    if k > 0 {
      FallingIsFactorial(n, k - 1);
      var f, m, g := Falling(n, k - 1), n - (k - 1), Factorial(n - k);
      assert Factorial(n - k + 1) == m * g;
      Regroup(f, m, g);
    }
  }

  lemma Regroup(a: int, b: int, c: int)
    ensures a * (b * c) == (a * b) * c
  {
  }

  lemma {:induction false} FallingVanishes(n: nat, k: nat)
    requires k > n
    ensures Falling(n, k) == 0
  {
    if k > n + 1 {
      FallingVanishes(n, k - 1);
    }
  }

  lemma {:induction false} ChooseBeyond(n: nat, k: nat)
    requires k > n
    ensures Choose(n, k) == 0
  {
    if n > 0 {
      ChooseBeyond(n - 1, k - 1);
      ChooseBeyond(n - 1, k);
    }
  }

  /** Choose(n, k) * k! * (n - k)! == n! */
  lemma {:induction false} ChooseByFactorials(n: nat, k: nat)
    requires k <= n
    ensures Choose(n, k) * (Factorial(k) * Factorial(n - k)) == Factorial(n)
    decreases n
  {
    if k == 0 {
      assert Choose(n, 0) == 1 && Factorial(0) == 1;
    } else if k == n {
      ChooseByFactorials(n - 1, n - 1);
      ChooseBeyond(n - 1, n);
      var c, f := Choose(n - 1, n - 1), Factorial(n - 1);
      assert Choose(n, n) == c && Factorial(n) == n * f;
      assert c * (f * Factorial(0)) == f;
      Regroup(c, n, f);
      Swap(c, n, f);
    } else {
      ChooseByFactorials(n - 1, k - 1);
      ChooseByFactorials(n - 1, k);
      PascalStep(n, k, Choose(n - 1, k - 1), Choose(n - 1, k), Factorial(k - 1), Factorial(n - k - 1),
                 Factorial(n - 1));
    }
  }

  lemma Swap(c: int, n: int, f: int)
    requires c * (f * 1) == f
    ensures c * (n * f) == n * f
  {
    assert c * (n * f) == n * (c * f);
  }

  lemma PascalStep(n: nat, k: nat, a: int, b: int, fk: int, fm: int, fn: int)
    requires 0 < k < n
    requires a * (fk * ((n - k) * fm)) == fn
    requires b * ((k * fk) * fm) == fn
    ensures (a + b) * ((k * fk) * ((n - k) * fm)) == n * fn
  {
    var m := n - k;
    calc {
      (a + b) * ((k * fk) * (m * fm));
      a * ((k * fk) * (m * fm)) + b * ((k * fk) * (m * fm));
      { assert (k * fk) * (m * fm) == k * (fk * (m * fm)); }
      a * (k * (fk * (m * fm))) + b * ((k * fk) * (m * fm));
      { assert (k * fk) * (m * fm) == m * ((k * fk) * fm); }
      a * (k * (fk * (m * fm))) + b * (m * ((k * fk) * fm));
      { PullOut(a, k, fk * (m * fm)); PullOut(b, m, (k * fk) * fm); }
      k * (a * (fk * (m * fm))) + m * (b * ((k * fk) * fm));
      k * fn + m * fn;
      { Distribute(k, m, fn); }
      n * fn;
    }
  }

  lemma PullOut(a: int, k: int, x: int)
    ensures a * (k * x) == k * (a * x)
  {
  }
}
