/** Latency histograms: totals as sums of what was recorded, and what the rendered
    buckets count. */
module Histogram {
  import opened MachineInts
  import opened Sums

  /** Bucket upper bounds in ticks; one more bucket takes the rest. */
  ghost predicate Nondecreasing(bounds: seq<u64>) {
    forall i, j :: 0 <= i <= j < |bounds| ==> bounds[i] <= bounds[j]
  }

  /** The first bucket whose bound is not below `x`. */
  function LowerBound(bounds: seq<u64>, x: u64): (b: nat)
    ensures b <= |bounds|
    ensures forall i :: 0 <= i < b ==> bounds[i] < x
    ensures b < |bounds| ==> x <= bounds[b]
  {
    if bounds == [] || x <= bounds[0] then 0
    else
      var b := LowerBound(bounds[1..], x);
      assert forall i :: 0 < i < b + 1 ==> bounds[i] == bounds[1..][i - 1];
      b + 1
  }

  lemma LowerBoundIsTheBucket(bounds: seq<u64>, x: u64, b: nat)
    requires Nondecreasing(bounds) && b <= |bounds|
    ensures (b == 0 || x > bounds[b - 1]) && (b == |bounds| || x <= bounds[b]) <==> b == LowerBound(bounds, x)
  {
  }

  method FindLowerBound(bounds: seq<u64>, x: u64) returns (b: nat)
    requires Nondecreasing(bounds)
    ensures b == LowerBound(bounds, x)
  {
    var first, count := 0, |bounds|;
    while count > 0
      invariant 0 <= first && 0 <= count && first + count <= |bounds|
      invariant first == 0 || bounds[first - 1] < x
      invariant first + count == |bounds| || x <= bounds[first + count]
    {
      var half := count / 2;
      if bounds[first + half] < x {
        first, count := first + half + 1, count - half - 1;
      } else {
        count := half;
      }
    }
    b := first;
    LowerBoundIsTheBucket(bounds, x, b);
  }

  // ----- totals

  datatype Totals = Totals(calls: u64, ticks: u64, bins: seq<u64>)

  function Zero(bounds: seq<u64>): Totals {
    Totals(0, 0, seq(|bounds| + 1, i => 0))
  }

  function Merge(a: Totals, b: Totals): (r: Totals)
    requires |a.bins| == |b.bins|
    ensures |r.bins| == |a.bins|
  {
    Totals(WrappingAdd(a.calls, b.calls), WrappingAdd(a.ticks, b.ticks),
           seq(|a.bins|, i requires 0 <= i < |a.bins| => WrappingAdd(a.bins[i], b.bins[i])))
  }

  /** One record: one call, its ticks, one more in its bucket. */
  function Once(bounds: seq<u64>, x: u64): Totals {
    Totals(1, x, seq(|bounds| + 1, i => if i == LowerBound(bounds, x) then 1 else 0))
  }

  function TotalsOf(latencies: seq<u64>, bounds: seq<u64>): (t: Totals)
    ensures |t.bins| == |bounds| + 1
  {
    if latencies == [] then Zero(bounds)
    else Merge(TotalsOf(latencies[..|latencies| - 1], bounds), Once(bounds, latencies[|latencies| - 1]))
  }

  lemma MergeZero(t: Totals, bounds: seq<u64>)
    requires |t.bins| == |bounds| + 1
    ensures Merge(t, Zero(bounds)) == t && Merge(Zero(bounds), t) == t
  {
  }

  lemma AddAssociates(a: u64, b: u64, c: u64)
    ensures WrappingAdd(WrappingAdd(a, b), c) == WrappingAdd(a, WrappingAdd(b, c))
  {
  }

  lemma MergeAssociates(a: Totals, b: Totals, c: Totals)
    requires |a.bins| == |b.bins| == |c.bins|
    ensures Merge(Merge(a, b), c) == Merge(a, Merge(b, c))
  {
    AddAssociates(a.calls, b.calls, c.calls);
    AddAssociates(a.ticks, b.ticks, c.ticks);
    forall i | 0 <= i < |a.bins|
      ensures Merge(Merge(a, b), c).bins[i] == Merge(a, Merge(b, c)).bins[i]
    {
      AddAssociates(a.bins[i], b.bins[i], c.bins[i]);
    }
  }

  /** Merging the totals of two workers gives the totals of all their records. */
  lemma {:induction false} MergeIsConcatenation(a: seq<u64>, b: seq<u64>, bounds: seq<u64>)
    ensures Merge(TotalsOf(a, bounds), TotalsOf(b, bounds)) == TotalsOf(a + b, bounds)
    decreases |b|
  {
    if b == [] {
      MergeZero(TotalsOf(a, bounds), bounds);
      assert a + b == a;
    } else {
      var front, x := b[..|b| - 1], b[|b| - 1];
      MergeIsConcatenation(a, front, bounds);
      MergeAssociates(TotalsOf(a, bounds), TotalsOf(front, bounds), Once(bounds, x));
      assert (a + b)[..|a + b| - 1] == a + front;
    }
  }

  // ----- what the totals count

  function Wrap(n: nat): u64 {
    n % U64_MODULUS
  }

  lemma WrapAdd(a: nat, b: nat)
    ensures WrappingAdd(Wrap(a), Wrap(b)) == Wrap(a + b)
  {
  }

  function CountIn(latencies: seq<u64>, bounds: seq<u64>, b: nat): nat {
    if latencies == [] then 0
    else CountIn(latencies[..|latencies| - 1], bounds, b)
         + if LowerBound(bounds, latencies[|latencies| - 1]) == b then 1 else 0
  }

  /** How many records took at most `limit`. */
  function AtMost(latencies: seq<u64>, limit: u64): (n: nat)
    ensures n <= |latencies|
  {
    if latencies == [] then 0
    else AtMost(latencies[..|latencies| - 1], limit) + if latencies[|latencies| - 1] <= limit then 1 else 0
  }

  lemma {:induction false} TotalsCount(latencies: seq<u64>, bounds: seq<u64>, b: nat)
    requires b <= |bounds|
    ensures TotalsOf(latencies, bounds).calls == Wrap(|latencies|)
    ensures TotalsOf(latencies, bounds).bins[b] == Wrap(CountIn(latencies, bounds, b))
    decreases |latencies|
  {
    if latencies != [] {
      var front, x := latencies[..|latencies| - 1], latencies[|latencies| - 1];
      TotalsCount(front, bounds, b);
      WrapAdd(|front|, 1);
      WrapAdd(CountIn(front, bounds, b), if LowerBound(bounds, x) == b then 1 else 0);
    }
  }

  /** The ticks add up, modulo 2^64. */
  lemma {:induction false} TicksAddUp(latencies: seq<u64>, bounds: seq<u64>)
    ensures 0 <= Sum(latencies) && TotalsOf(latencies, bounds).ticks == Wrap(Sum(latencies))
    decreases |latencies|
  {
    if latencies != [] {
      var front, x := latencies[..|latencies| - 1], latencies[|latencies| - 1];
      TicksAddUp(front, bounds);
      WrapAdd(Sum(front), x);
      WrapSmall(x);
    }
  }

  /** All records in buckets up to `b`: those at or below its bound, or all of them
      for the last bucket. */
  ghost function UpTo(latencies: seq<u64>, bounds: seq<u64>, b: nat): nat
    requires b <= |bounds|
  {
    if b == |bounds| then |latencies| else AtMost(latencies, bounds[b])
  }

  lemma {:induction false} UpToSteps(latencies: seq<u64>, bounds: seq<u64>, b: nat)
    requires Nondecreasing(bounds) && b <= |bounds|
    ensures UpTo(latencies, bounds, b)
         == CountIn(latencies, bounds, b) + if b == 0 then 0 else UpTo(latencies, bounds, b - 1)
    decreases |latencies|
  {
    if latencies != [] {
      var front, x := latencies[..|latencies| - 1], latencies[|latencies| - 1];
      UpToSteps(front, bounds, b);
      LowerBoundIsTheBucket(bounds, x, b);
    }
  }

  // ----- rendering

  function Cumulative(bins: seq<u64>): (r: seq<u64>)
    ensures |r| == |bins|
  {
    if bins == [] then []
    else
      var front := Cumulative(bins[..|bins| - 1]);
      front + [WrappingAdd(if front == [] then 0 else front[|front| - 1], bins[|bins| - 1])]
  }

  method RenderBuckets(bins: seq<u64>) returns (rendered: seq<u64>)
    ensures rendered == Cumulative(bins)
  {
    rendered := [];
    var cumulative: u64 := 0;
    for bucket := 0 to |bins|
      invariant rendered == Cumulative(bins[..bucket])
      invariant cumulative == if rendered == [] then 0 else rendered[|rendered| - 1]
    {
      assert bins[..bucket + 1][..bucket] == bins[..bucket];
      cumulative := WrappingAdd(cumulative, bins[bucket]);
      rendered := rendered + [cumulative];
    }
    assert bins[..|bins|] == bins;
  }

  lemma {:induction false} CumulativeSteps(bins: seq<u64>, b: nat)
    requires b < |bins|
    ensures Cumulative(bins)[b] == WrappingAdd(if b == 0 then 0 else Cumulative(bins)[b - 1], bins[b])
    decreases |bins|
  {
    if b < |bins| - 1 { CumulativeSteps(bins[..|bins| - 1], b); }
  }

  lemma {:induction false} RenderedCounts(latencies: seq<u64>, bounds: seq<u64>, b: nat)
    requires Nondecreasing(bounds) && b <= |bounds|
    ensures Cumulative(TotalsOf(latencies, bounds).bins)[b] == Wrap(UpTo(latencies, bounds, b))
  {
    CumulativeSteps(TotalsOf(latencies, bounds).bins, b);
    TotalsCount(latencies, bounds, b);
    UpToSteps(latencies, bounds, b);
    if b > 0 {
      RenderedCounts(latencies, bounds, b - 1);
      WrapAdd(UpTo(latencies, bounds, b - 1), CountIn(latencies, bounds, b));
    }
  }

  /** The +Inf bucket is the count, whatever was recorded. */
  lemma PlusInfIsTheCount(latencies: seq<u64>, bounds: seq<u64>)
    requires Nondecreasing(bounds)
    ensures Cumulative(TotalsOf(latencies, bounds).bins)[|bounds|] == TotalsOf(latencies, bounds).calls
  {
    RenderedCounts(latencies, bounds, |bounds|);
    TotalsCount(latencies, bounds, 0);
  }

  /** While the number of calls fits in 64 bits, each bucket counts exactly the calls
      that took at most its bound. */
  lemma BucketsCountExactly(latencies: seq<u64>, bounds: seq<u64>, b: nat)
    requires Nondecreasing(bounds) && |latencies| <= U64_MAX && b <= |bounds|
    ensures Cumulative(TotalsOf(latencies, bounds).bins)[b]
         == if b == |bounds| then |latencies| else AtMost(latencies, bounds[b])
  {
    RenderedCounts(latencies, bounds, b);
    WrapSmall(UpTo(latencies, bounds, b));
  }

  lemma WrapSmall(n: nat)
    requires n <= U64_MAX
    ensures Wrap(n) == n
  {
  }

  lemma BucketsNeverDecrease(latencies: seq<u64>, bounds: seq<u64>, b: nat, c: nat)
    requires Nondecreasing(bounds) && |latencies| <= U64_MAX && b <= c <= |bounds|
    ensures var rendered := Cumulative(TotalsOf(latencies, bounds).bins); rendered[b] <= rendered[c]
  {
    BucketsCountExactly(latencies, bounds, b);
    BucketsCountExactly(latencies, bounds, c);
    if c < |bounds| { AtMostMonotone(latencies, bounds[b], bounds[c]); }
  }

  lemma {:induction false} AtMostMonotone(latencies: seq<u64>, low: u64, high: u64)
    requires low <= high
    ensures AtMost(latencies, low) <= AtMost(latencies, high)
    decreases |latencies|
  {
    if latencies != [] { AtMostMonotone(latencies[..|latencies| - 1], low, high); }
  }
}
