/** How the configured memory limit is divided: the steady part for retained
    state, the client-buffer part, and each worker's fixed share of both. */
module MemoryLimits {
  import opened Arithmetic
  import opened MachineInts
  import opened Sums

  const MAX_MEMORY_WORKERS: nat := 1024
  const MINIMUM_CLIENT_BUFFER_BYTES: u64 := 128 * 1024

  datatype ClientBufferLimit = ClientBufferLimit(value: u64, percentage: bool) {
    ghost predicate Valid() { percentage ==> value <= 100 }
  }

  function DistributedShare(total: u64, workerId: nat, workers: nat): (r: u64)
    requires workers > 0
    ensures total / workers <= r <= total / workers + 1
  {
    QuotientBelow(total, workers);
    total / workers + (if workerId < total % workers then 1 else 0)
  }

  lemma QuotientBelow(total: nat, divisor: nat)
    requires divisor > 0
    ensures total == divisor * (total / divisor) + total % divisor
    ensures 0 <= total / divisor <= total
    ensures total % divisor > 0 ==> total / divisor < total
  {
    EuclidBelow(total, divisor, total / divisor, total % divisor);
  }

  lemma EuclidBelow(total: nat, divisor: nat, q: int, r: int)
    requires divisor > 0 && total == divisor * q + r && 0 <= r < divisor
    ensures 0 <= q <= total && (r > 0 ==> q < total)
  {
    if q < 0 {
      ProductOrder(divisor, q, -1);
    } else {
      ProductOrder(q, 1, divisor);
    }
  }

  ghost function Shares(total: u64, workers: nat): (r: seq<int>)
    requires workers > 0
    ensures |r| == workers
  {
    seq(workers, w requires 0 <= w < workers => DistributedShare(total, w, workers))
  }

  /** The shares handed out separately add up to the whole limit: nothing is
      lost to rounding and nothing is handed out twice. */
  lemma SharesSumToTotal(total: u64, workers: nat)
    requires workers > 0
    ensures Sum(Shares(total, workers)) == total
  {
    PrefixOfShares(total, workers, workers);
    assert Shares(total, workers)[..workers] == Shares(total, workers);
    assert total == workers * (total / workers) + total % workers;
  }

  lemma {:induction false} PrefixOfShares(total: u64, workers: nat, n: nat)
    requires 0 < workers && n <= workers
    ensures Sum(Shares(total, workers)[..n])
         == n * (total / workers) + (if n <= total % workers then n else total % workers)
  {
    if n > 0 {
      PrefixOfShares(total, workers, n - 1);
      var shares := Shares(total, workers);
      assert shares[..n] == shares[..n - 1] + [shares[n - 1]];
      SumAppend(shares[..n - 1], shares[n - 1]);
      OneMore(n - 1, total / workers);
    }
  }

  /** What cannot be divided evenly goes to the first workers, one byte each. */
  lemma SharesAreOrdered(total: u64, first: nat, second: nat, workers: nat)
    requires workers > 0 && first <= second
    ensures 0 <= DistributedShare(total, first, workers) - DistributedShare(total, second, workers) <= 1
  {
  }

  /** A smaller total never gives any worker a larger share. This is what makes
      a stale, too large reading of the shared bytes conservative. */
  lemma ShareMonotone(small: u64, large: u64, workerId: nat, workers: nat)
    requires workers > 0 && small <= large
    ensures DistributedShare(small, workerId, workers) <= DistributedShare(large, workerId, workers)
  {
    QuotientMonotone(small, large, workers);
  }

  lemma QuotientMonotone(small: nat, large: nat, divisor: nat)
    requires divisor > 0 && small <= large
    ensures small / divisor <= large / divisor
    ensures small / divisor == large / divisor ==> small % divisor <= large % divisor
  {
    QuotientBelow(small, divisor);
    QuotientBelow(large, divisor);
    EuclidMonotone(divisor, small / divisor, small % divisor, large / divisor, large % divisor);
  }

  /** 90% of the maximum, rounded up: what is withheld is exactly a tenth. */
  function SteadyMemoryLimit(maximum: u64): (r: u64)
    ensures r + maximum / 10 == maximum
    ensures r < U64_MAX
    ensures r == 0 <==> maximum == 0
  {
    Minus(maximum, maximum / 10)
  }

  function EffectiveClientBufferLimit(maximum: u64, limit: ClientBufferLimit): (r: u64)
    requires limit.Valid()
    ensures r == 0 <==> limit.value == 0
    ensures limit.value != 0 ==> r >= MINIMUM_CLIENT_BUFFER_BYTES
  {
    if limit.value == 0 then 0
    else
      var bytes: u64 :=
        if limit.percentage then
          PercentageSplit(maximum, limit.value);
          var hundreds: u64 := maximum / 100 * limit.value;
          var rest: u64 := maximum % 100 * limit.value / 100;
          var total: u64 := hundreds + rest;
          total
        else limit.value;
      if bytes > MINIMUM_CLIENT_BUFFER_BYTES then bytes else MINIMUM_CLIENT_BUFFER_BYTES
  }

  /** Splitting the multiplication keeps the exact floor and cannot overflow. */
  lemma PercentageSplit(maximum: u64, percent: nat)
    requires percent <= 100
    ensures 0 <= maximum / 100 * percent <= maximum
    ensures 0 <= maximum % 100 * percent / 100
    ensures maximum / 100 * percent + maximum % 100 * percent / 100 == maximum * percent / 100 <= maximum
  {
    var q, r := maximum / 100, maximum % 100;
    var qp, rp := q * percent, r * percent;
    assert 0 <= qp <= 100 * q && 0 <= rp <= 100 * r by {
      ProductBelow(q, percent, 100);
      ProductBelow(r, percent, 100);
    }
    Distribute(100 * q, r, percent);
    assert maximum * percent == 100 * qp + rp by {
      assert (100 * q) * percent == 100 * qp;
    }
  }

  lemma ProductBelow(x: nat, y: nat, bound: nat)
    requires y <= bound
    ensures 0 <= x * y <= bound * x
  {
  }

  /** The percentage form is floor(maximum * percentage / 100), raised to the
      protocol-recovery minimum. */
  lemma PercentageLimitIsExact(maximum: u64, limit: ClientBufferLimit)
    requires limit.Valid() && limit.percentage && limit.value != 0
    ensures EffectiveClientBufferLimit(maximum, limit)
         == if maximum * limit.value / 100 > 131072 then maximum * limit.value / 100 else 131072
  {
    PercentageSplit(maximum, limit.value);
  }

  /** A limit in bytes is taken as it is, raised to the same minimum. */
  lemma ByteLimitIsExact(maximum: u64, limit: ClientBufferLimit)
    requires !limit.percentage && limit.value != 0
    ensures EffectiveClientBufferLimit(maximum, limit) == if limit.value > 131072 then limit.value else 131072
  {
  }

  /** The two budgets fit the configured maximum together exactly when a tenth
      of it covers both the percentage and the fixed minimum. */
  lemma BudgetsFitTogether(maximum: u64, limit: ClientBufferLimit)
    requires limit.Valid() && limit.percentage && limit.value != 0
    ensures SteadyMemoryLimit(maximum) + EffectiveClientBufferLimit(maximum, limit) <= maximum
       <==> maximum * limit.value / 100 <= maximum / 10 && MINIMUM_CLIENT_BUFFER_BYTES <= maximum / 10
  {
    PercentageLimitIsExact(maximum, limit);
  }

  /** Up to ten percent the first half of that condition always holds. */
  lemma TenPercentFits(maximum: u64, percent: nat)
    requires percent <= 10
    ensures maximum * percent / 100 <= maximum / 10
  {
    ProductBelow(maximum, percent, 10);
  }

  /** Admission outside a bound worker: every subtraction is guarded by the
      disjunct before it. */
  function ProcessWouldExceed(maximum: u64, used: u64, reserved: u64, pending: u64, additional: u64): (r: bool)
    ensures r <==> maximum != 0 && (used >= maximum || used + reserved + pending + additional > maximum)
  {
    maximum != 0 &&
    (used >= maximum || reserved > Minus(maximum, used) ||
     pending > Minus(Minus(maximum, used), reserved) ||
     additional > Minus(Minus(Minus(maximum, used), reserved), pending))
  }

  /** Admission inside a bound worker, from that worker's shares only. */
  function ShareWouldExceed(
      capacity: u64, shared: u64, owned: u64, fullsync: u64, pending: u64, additional: u64): (r: bool)
    ensures r <==> shared >= capacity || shared + owned + fullsync + pending + additional > capacity
  {
    shared >= capacity || owned > Minus(capacity, shared) ||
    fullsync > Minus(Minus(capacity, shared), owned) ||
    pending > Minus(Minus(Minus(capacity, shared), owned), fullsync) ||
    additional > Minus(Minus(Minus(Minus(capacity, shared), owned), fullsync), pending)
  }

  function Saturated(x: nat): (r: u64)
    ensures r == U64_MAX ==> x >= U64_MAX
    ensures r < U64_MAX ==> r == x
  {
    if x > U64_MAX then U64_MAX else x
  }

  function SaturatingAdd(left: u64, right: u64): (r: u64)
    ensures r == Saturated(left + right)
  {
    if right > Minus(U64_MAX, left) then U64_MAX else left + right
  }

  /** The retained sum stops at the first overflow. */
  method RetainedUsed(retained: seq<u64>) returns (total: u64)
    ensures Sum(retained) >= 0 && total == Saturated(Sum(retained))
  {
    total := 0;
    for index := 0 to |retained|
      invariant total == Sum(retained[..index])
    {
      var shard := retained[index];
      assert retained[..index + 1] == retained[..index] + [shard];
      SumAppend(retained[..index], shard);
      if shard > Minus(U64_MAX, total) {
        PrefixBelowSum(retained, index + 1);
        return U64_MAX;
      }
      total := total + shard;
    }
    assert retained[..|retained|] == retained;
  }

  /** The pending, full-sync and client sums saturate at every addition. */
  method SaturatingSum(values: seq<u64>) returns (total: u64)
    ensures Sum(values) >= 0 && total == Saturated(Sum(values))
  {
    total := 0;
    for index := 0 to |values|
      invariant Sum(values[..index]) >= 0
      invariant total == Saturated(Sum(values[..index]))
    {
      assert values[..index + 1] == values[..index] + [values[index]];
      SumAppend(values[..index], values[index]);
      total := SaturatingAdd(total, values[index]);
    }
    assert values[..|values|] == values;
  }

  lemma {:induction false} PrefixBelowSum(values: seq<u64>, n: nat)
    requires n <= |values|
    ensures 0 <= Sum(values[..n]) <= Sum(values)
    decreases |values|
  {
    if n == |values| {
      assert values[..n] == values;
      if n > 0 {
        PrefixBelowSum(values[..n - 1], n - 1);
        assert values[..n - 1][..n - 1] == values[..n - 1];
      }
    } else {
      PrefixBelowSum(values[..|values| - 1], n);
      assert values[..|values| - 1][..n] == values[..n];
    }
  }

  /** Saturated shard sums take the decision the true sums would: every steady
      limit is below the saturation value, so saturating cannot hide an excess. */
  lemma SaturationHidesNothing(maximum: u64, used: nat, reserved: nat, pending: nat, additional: u64)
    requires maximum < U64_MAX
    ensures ProcessWouldExceed(maximum, Saturated(used), Saturated(reserved), Saturated(pending), additional)
       <==> maximum != 0 && (used >= maximum || used + reserved + pending + additional > maximum)
  {
  }
}
