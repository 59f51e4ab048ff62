/** The distribution of the sampler: one over the number of subsets, whatever the
    strategy. */
module SampleDistribution {
  import opened Arithmetic
  import opened ChoiceStreams
  import opened Combinatorics
  import opened RandomSample
  import opened SampleUniformity

  ghost predicate SampleGives(strategy: Strategy, n: nat, k: nat, c: seq<nat>, s: set<nat>) {
    k <= n && Below(c, Bounds(strategy, n, k)) && Elements(Sample(strategy, n, k, c)) == s
  }

  ghost function SampleIs(strategy: Strategy, n: nat, k: nat, s: set<nat>): seq<nat> -> bool {
    c => SampleGives(strategy, n, k, c, s)
  }

  // ----- how many streams each strategy has

  lemma {:induction false} FloydTotal(n: nat, k: nat, j: nat)
    requires j <= k <= n
    ensures Product(FloydBounds(n, k, j)) * Factorial(n - k) == Factorial(n - k + j)
    decreases j
  {
    if j > 0 {
      FloydTotal(n, k, j - 1);
      var bounds, m := FloydBounds(n, k, j - 1), n - k + j;
      assert FloydBounds(n, k, j) == bounds + [m];
      ProductAppend(bounds, m);
      MoveFactor(Product(bounds), Factorial(n - k), m);
    }
  }

  lemma {:induction false} PrefixTotal(n: nat, r: nat)
    requires r <= n
    ensures Product(CompactPrefix(n, r)) == Falling(n, r)
    decreases r
  {
    if r > 0 {
      PrefixTotal(n, r - 1);
      assert CompactPrefix(n, r) == CompactPrefix(n, r - 1) + [n - (r - 1)];
      ProductAppend(CompactPrefix(n, r - 1), n - (r - 1));
    }
  }

  // ----- how many of them give one subset

  lemma FloydSubset(n: nat, k: nat, s: set<nat>)
    requires 0 < k <= n && SubsetOf(s, n) && |s| == k
    ensures Count(Bounds(Floyd, n, k), SampleIs(Floyd, n, k, s)) * Choose(n, k) == Product(Bounds(Floyd, n, k))
  {
    var bounds := FloydBounds(n, k, k);
    assert forall c :: Below(c, bounds) ==> SampleIs(Floyd, n, k, s)(c) == FloydIs(n, k, s)(c);
    CountAgrees(bounds, SampleIs(Floyd, n, k, s), FloydIs(n, k, s));
    FloydCount(n, k, k, s);
    FloydTotal(n, k, k);
    ChooseByFactorials(n, k);
    CancelRight(Factorial(k), Choose(n, k), Product(bounds), Factorial(n - k), Factorial(n));
  }

  lemma CompactSubset(n: nat, k: nat, s: set<nat>)
    requires 0 < k <= n && SubsetOf(s, n) && |s| == k
    ensures Count(Bounds(CompactUnique, n, k), SampleIs(CompactUnique, n, k, s)) * Choose(n, k)
         == Product(Bounds(CompactUnique, n, k))
  {
    var bounds := CompactPrefix(n, n);
    assert bounds == CompactBounds(n);
    assert forall c :: Below(c, bounds) ==> SampleIs(CompactUnique, n, k, s)(c) == CompactIs(n, k, s)(c);
    CountAgrees(bounds, SampleIs(CompactUnique, n, k, s), CompactIs(n, k, s));
    CompactCount(n, k, n, s);
    PrefixTotal(n, n);
    FallingIsFactorial(n, n);
    FallingIsFactorial(k, k);
    FallingIsFactorial(n - k, n - k);
    ChooseByFactorials(n, k);
    Commute(Choose(n, k), Factorial(k) * Factorial(n - k));
  }

  lemma SubtractSubset(n: nat, k: nat, s: set<nat>)
    requires 0 < k <= n && SubsetOf(s, n) && |s| == k
    ensures Count(Bounds(Subtract, n, k), SampleIs(Subtract, n, k, s)) * Choose(n, k) == Product(Bounds(Subtract, n, k))
  {
    var bounds := SubtractBounds(n, k);
    assert forall c :: Below(c, bounds) ==> SampleIs(Subtract, n, k, s)(c) == SubtractIs(Iota(n), k, s)(c);
    CountAgrees(bounds, SampleIs(Subtract, n, k, s), SubtractIs(Iota(n), k, s));
    assert s <= Elements(Iota(n)) by {
      forall x | x in s ensures x in Iota(n) { assert Iota(n)[x] == x; }
    }
    SubtractCount(Iota(n), k, s);
    assert bounds == CompactPrefix(n, n - k);
    PrefixTotal(n, n - k);
    FallingIsFactorial(n, n - k);
    ChooseByFactorials(n, k);
    Commute(Factorial(k), Factorial(n - k));
    CancelRight(Factorial(n - k), Choose(n, k), Product(bounds), Factorial(k), Factorial(n));
  }

  lemma DirectSubset(n: nat, s: set<nat>)
    requires 0 < n && SubsetOf(s, n) && |s| == 1
    ensures Count(Bounds(Direct, n, 1), SampleIs(Direct, n, 1, s)) * Choose(n, 1) == Product(Bounds(Direct, n, 1))
  {
    var e :| e in s;
    assert s == {e} by { assert |s - {e}| == 0; }
    forall c: seq<nat>
      ensures c in Leading([n], SampleIs(Direct, n, 1, s)) <==> c == [e]
    {
      if |c| == 1 { assert c == [c[0]] && Elements(c) == {c[0]}; }
    }
    assert Leading([n], SampleIs(Direct, n, 1, s)) == {[e]};
    ChooseOne(n);
    assert Product([n]) == Product([]) * n;
  }

  lemma {:induction false} ChooseOne(n: nat)
    ensures Choose(n, 1) == n
  {
    if n > 0 { ChooseOne(n - 1); }
  }

  lemma AllSubset(n: nat, s: set<nat>)
    requires 0 < n && SubsetOf(s, n) && |s| == n
    ensures Count(Bounds(All, n, n), SampleIs(All, n, n, s)) * Choose(n, n) == Product(Bounds(All, n, n))
  {
    assert s <= Elements(Iota(n)) by {
      forall x | x in s ensures x in Iota(n) { assert Iota(n)[x] == x; }
    }
    AllElements(Iota(n), s);
    OneEmptyStream([], SampleIs(All, n, n, s));
    ChooseByFactorials(n, n);
    ChooseAll(n);
  }

  lemma {:induction false} ChooseAll(n: nat)
    ensures Choose(n, n) == 1
  {
    if n > 0 {
      ChooseAll(n - 1);
      ChooseBeyond(n - 1, n);
    }
  }

  /** From total * f == all == c * (a * f), that a * c == total. */
  lemma CancelRight(a: nat, c: nat, total: nat, f: nat, all: nat)
    requires f > 0 && total * f == all && c * (a * f) == all
    ensures a * c == total
  {
    Regroup(c, a, f);
    SameFactor(c * a, total, f);
    Commute(a, c);
  }

  lemma SameFactor(x: int, y: int, f: nat)
    requires f > 0 && x * f == y * f
    ensures x == y
  {
    if x < y { Apart(x, y, f); }
    if y < x { Apart(y, x, f); }
  }

  lemma Apart(x: int, y: int, f: nat)
    requires f > 0 && x < y
    ensures x * f < y * f
  {
  }

  lemma RatioIsInverse(count: nat, total: nat, subsets: nat)
    requires total > 0 && count * subsets == total
    ensures subsets > 0 && count as real / total as real == 1.0 / subsets as real
  {
    assert subsets > 0;
    var c, t, s := count as real, total as real, subsets as real;
    assert c * s == t;
  }

  /** Whatever strategy is chosen, every subset of the requested size has
      probability one over the number of such subsets. */
  lemma EverySubsetEquallyLikely(n: nat, k: nat, compact: bool, s: set<nat>)
    requires 0 < k <= n && SubsetOf(s, n) && |s| == k
    ensures var strategy := ChooseRandomSampleStrategy(n, k, compact);
            |Streams(Bounds(strategy, n, k))| > 0 && Choose(n, k) > 0 &&
            Probability(Bounds(strategy, n, k), SampleIs(strategy, n, k, s)) == 1.0 / Choose(n, k) as real
  {
    var strategy := ChooseRandomSampleStrategy(n, k, compact);
    match strategy {
      case Direct => DirectSubset(n, s);
      case All => AllSubset(n, s);
      case CompactUnique => CompactSubset(n, k, s);
      case Subtract => SubtractSubset(n, k, s);
      case Floyd => FloydSubset(n, k, s);
    }
    var bounds := Bounds(strategy, n, k);
    StreamCount(bounds);
    PositiveBounds(bounds);
    RatioIsInverse(Count(bounds, SampleIs(strategy, n, k, s)), Product(bounds), Choose(n, k));
  }

  lemma {:induction false} PositiveBounds(bounds: seq<nat>)
    requires forall i :: 0 <= i < |bounds| ==> bounds[i] > 0
    ensures Product(bounds) > 0
    decreases |bounds|
  {
    if bounds != [] {
      PositiveBounds(bounds[..|bounds| - 1]);
      PositiveProduct(Product(bounds[..|bounds| - 1]), bounds[|bounds| - 1]);
    }
  }
}
