/** Per-worker command metrics: recording with a cached bucket, resetting, and
    merging the workers' snapshots. */
module Metrics {
  import opened MachineInts
  import opened Histogram

  const BUCKET_UPPER_US: seq<nat> :=
    [1, 2, 4, 8, 16, 32, 64, 128, 256, 512, 1000, 1250, 1500, 2000, 2500, 3000, 3500, 4000, 5000, 6000, 8000,
     16000, 32000, 64000, 128000, 256000, 512000, 1000000, 2000000, 4000000, 8000000]

  function ExactTicks(frequency: real, microseconds: nat): real {
    frequency * microseconds as real / 1000000.0
  }

  /** A bound in whole ticks, at least one. */
  function TickBound(frequency: real, microseconds: nat): (t: nat)
    requires frequency >= 1.0
    ensures t >= 1
  {
    var ticks := (ExactTicks(frequency, microseconds) + 0.999).Floor;
    if ticks < 1 then 1 else ticks
  }

  /** No latency within the bound is left out of its bucket, and what is let in beyond
      the bound is less than a tick, unless the bound itself is below one. */
  lemma TickBoundIsTight(frequency: real, microseconds: nat, ticks: nat)
    requires frequency >= 1.0
    ensures ticks as real <= ExactTicks(frequency, microseconds) ==> ticks <= TickBound(frequency, microseconds)
    ensures 1 < ticks <= TickBound(frequency, microseconds) ==>
              ticks as real < ExactTicks(frequency, microseconds) + 1.0
  {
    var exact := ExactTicks(frequency, microseconds);
    if ticks as real <= exact { assert (exact + 0.999).Floor >= (ticks as real).Floor; }
  }

  /** The bound is the exact number of ticks rounded up, save that a fraction below a
      thousandth is dropped. */
  lemma TickBoundIsExact(frequency: real, microseconds: nat, ticks: nat)
    requires frequency >= 1.0
    ensures ticks <= TickBound(frequency, microseconds) <==>
            ticks <= 1 || ticks as real <= frequency * microseconds as real / 1000000.0 + 0.999
  {
    var up := ExactTicks(frequency, microseconds) + 0.999;
    assert ticks as real <= up <==> ticks <= up.Floor;
  }

  /** Powers of two up to half a millisecond, then steps of the same octaves in round
      numbers. */
  lemma UpperBoundsTable(i: nat)
    requires i < |BUCKET_UPPER_US|
    ensures |BUCKET_UPPER_US| == 31
    ensures i < 9 ==> BUCKET_UPPER_US[0] == 1 && BUCKET_UPPER_US[i + 1] == 2 * BUCKET_UPPER_US[i]
    ensures BUCKET_UPPER_US[10..20] == [1000, 1250, 1500, 2000, 2500, 3000, 3500, 4000, 5000, 6000]
    ensures 20 <= i < 26 ==> BUCKET_UPPER_US[20] == 8000 && BUCKET_UPPER_US[i + 1] == 2 * BUCKET_UPPER_US[i]
    ensures 27 <= i < 30 ==> BUCKET_UPPER_US[27] == 1000000 && BUCKET_UPPER_US[i + 1] == 2 * BUCKET_UPPER_US[i]
  {
  }

  /** Every bound fits in 64 bits as long as the counter runs below 2 * 10^18 Hz. */
  lemma TickBoundFits(frequency: real, i: nat)
    requires 1.0 <= frequency <= 2000000000000000000.0 && i < |BUCKET_UPPER_US|
    ensures TickBound(frequency, BUCKET_UPPER_US[i]) <= U64_MAX
  {
    UpperBoundsAscend(i, 30);
    ScaleMonotone(frequency, BUCKET_UPPER_US[i] as real, 8000000.0);
    assert ExactTicks(frequency, BUCKET_UPPER_US[i]) <= frequency * 8000000.0 / 1000000.0 == frequency * 8.0;
  }

  lemma TickBoundMonotone(frequency: real, low: nat, high: nat)
    requires frequency >= 1.0 && low <= high
    ensures TickBound(frequency, low) <= TickBound(frequency, high)
  {
    ScaleMonotone(frequency, low as real, high as real);
    var a, b := ExactTicks(frequency, low), ExactTicks(frequency, high);
    assert a <= b && (a + 0.999).Floor <= (b + 0.999).Floor;
  }

  lemma ScaleMonotone(f: real, x: real, y: real)
    requires f >= 1.0 && x <= y
    ensures f * x / 1000000.0 <= f * y / 1000000.0
  {
    assert f * x <= f * y;
  }

  /** The bounds are nondecreasing at every counter frequency. */
  method InitLatencyBounds(counterFrequency: real) returns (bounds: seq<nat>)
    ensures |bounds| == |BUCKET_UPPER_US|
    ensures var frequency := if counterFrequency < 1.0 then 1.0 else counterFrequency;
            forall i :: 0 <= i < |bounds| ==> bounds[i] == TickBound(frequency, BUCKET_UPPER_US[i])
    ensures forall i, j :: 0 <= i <= j < |bounds| ==> bounds[i] <= bounds[j]
  {
    var frequency := if counterFrequency < 1.0 then 1.0 else counterFrequency;
    bounds := [];
    for i := 0 to |BUCKET_UPPER_US|
      invariant |bounds| == i
      invariant forall k :: 0 <= k < i ==> bounds[k] == TickBound(frequency, BUCKET_UPPER_US[k])
    {
      bounds := bounds + [TickBound(frequency, BUCKET_UPPER_US[i])];
    }
    forall i, j | 0 <= i <= j < |bounds|
      ensures bounds[i] <= bounds[j]
    {
      UpperBoundsAscend(i, j);
      TickBoundMonotone(frequency, BUCKET_UPPER_US[i], BUCKET_UPPER_US[j]);
    }
  }

  lemma UpperBoundsAscend(i: nat, j: nat)
    requires i <= j < |BUCKET_UPPER_US|
    ensures BUCKET_UPPER_US[i] <= BUCKET_UPPER_US[j]
    decreases j - i
  {
    if i < j { UpperBoundsAscend(i + 1, j); }
  }

  /** What one worker owns. */
  class WorkerMetrics {
    const bounds: seq<u64>
    var commands: seq<Totals>
    var lastBuckets: seq<nat>
    /** Per command, the latencies recorded since the last reset. */
    ghost var recorded: seq<seq<u64>>

    ghost predicate Valid()
      reads this
    {
      && Nondecreasing(bounds)
      && |commands| == |lastBuckets| == |recorded| > 0
      && (forall k :: 0 <= k < |commands| ==> commands[k] == TotalsOf(recorded[k], bounds))
      && (forall k :: 0 <= k < |lastBuckets| ==> lastBuckets[k] <= |bounds|)
    }

    constructor (kinds: nat, bounds: seq<u64>)
      requires kinds > 0 && Nondecreasing(bounds)
      ensures Valid() && this.bounds == bounds && |commands| == kinds
      ensures forall k :: 0 <= k < kinds ==> recorded[k] == []
    {
      this.bounds := bounds;
      commands := seq(kinds, i => Zero(bounds));
      lastBuckets := seq(kinds, i => 0);
      recorded := seq(kinds, i => []);
    }

    /** Whatever the cache holds, the record lands in the exact bucket. An unknown
        kind counts as the last one. */
    method RecordCommandMetric(kind: nat, elapsed: u64)
      requires Valid()
      modifies this
      ensures Valid() && |commands| == old(|commands|)
      ensures var k := if kind < |commands| then kind else |commands| - 1;
              recorded == old(recorded)[k := old(recorded[k]) + [elapsed]]
    {
      var k := if kind < |commands| then kind else |commands| - 1;
      var bucket := lastBuckets[k];
      var aboveLower := bucket == 0 || elapsed > bounds[bucket - 1];
      var belowUpper := bucket == |bounds| || elapsed <= bounds[bucket];
      LowerBoundIsTheBucket(bounds, elapsed, bucket);
      if !aboveLower || !belowUpper {
        bucket := FindLowerBound(bounds, elapsed);
        lastBuckets := lastBuckets[k := bucket];
      }
      var metric := commands[k];
      BumpIsMerge(metric, bounds, elapsed);
      commands := commands[k := Totals(WrappingAdd(metric.calls, 1), WrappingAdd(metric.ticks, elapsed),
                                       metric.bins[bucket := WrappingAdd(metric.bins[bucket], 1)])];
      assert (recorded[k] + [elapsed])[..|recorded[k]|] == recorded[k];
      recorded := recorded[k := recorded[k] + [elapsed]];
    }

    /** Totals start over; the cached buckets stay, and stay harmless. */
    method ResetCommandMetrics()
      requires Valid()
      modifies this`commands, this`recorded
      ensures Valid() && |commands| == old(|commands|)
      ensures forall k :: 0 <= k < |commands| ==> recorded[k] == [] && commands[k] == Zero(bounds)
    {
      commands := seq(|commands|, i => Zero(bounds));
      recorded := seq(|commands|, i => []);
    }
  }

  lemma BumpIsMerge(t: Totals, bounds: seq<u64>, x: u64)
    requires |t.bins| == |bounds| + 1
    ensures var b := LowerBound(bounds, x);
            Merge(t, Once(bounds, x)) ==
              Totals(WrappingAdd(t.calls, 1), WrappingAdd(t.ticks, x), t.bins[b := WrappingAdd(t.bins[b], 1)])
  {
  }

  // ----- runs

  datatype Event = Record(kind: nat, elapsed: u64) | Reset

  /** What a run leaves recorded for one command. */
  ghost function Since(events: seq<Event>, kinds: nat, k: nat): seq<u64>
    requires kinds > 0
  {
    if events == [] then []
    else
      var before := Since(events[..|events| - 1], kinds, k);
      match events[|events| - 1]
      case Reset => []
      case Record(kind, elapsed) =>
        if k == (if kind < kinds then kind else kinds - 1) then before + [elapsed] else before
  }

  /** Any sequence of records and resets leaves the totals of exactly what was
      recorded since the last reset. */
  method Replay(kinds: nat, bounds: seq<u64>, events: seq<Event>) returns (commands: seq<Totals>)
    requires kinds > 0 && Nondecreasing(bounds)
    ensures |commands| == kinds
    ensures forall k :: 0 <= k < kinds ==> commands[k] == TotalsOf(Since(events, kinds, k), bounds)
  {
    var metrics := new WorkerMetrics(kinds, bounds);
    for i := 0 to |events|
      invariant fresh(metrics) && metrics.Valid() && |metrics.commands| == kinds && metrics.bounds == bounds
      invariant forall k :: 0 <= k < kinds ==> metrics.recorded[k] == Since(events[..i], kinds, k)
    {
      assert events[..i + 1][..i] == events[..i];
      if events[i].Reset? {
        metrics.ResetCommandMetrics();
      } else {
        metrics.RecordCommandMetric(events[i].kind, events[i].elapsed);
      }
    }
    assert events[..|events|] == events;
    commands := metrics.commands;
  }

  // ----- collecting

  ghost function AllRecorded(histories: seq<seq<u64>>): seq<u64> {
    if histories == [] then [] else AllRecorded(histories[..|histories| - 1]) + histories[|histories| - 1]
  }

  /** One command across the workers. The snapshots may be taken at different
      times: each is the totals of what its worker had recorded by then, and the
      merged totals are those of all these records together. */
  method CollectCommand(snapshots: seq<Totals>, bounds: seq<u64>, ghost histories: seq<seq<u64>>)
    returns (destination: Totals)
    requires |snapshots| == |histories|
    requires forall w :: 0 <= w < |snapshots| ==> snapshots[w] == TotalsOf(histories[w], bounds)
    ensures destination == TotalsOf(AllRecorded(histories), bounds)
  {
    destination := Zero(bounds);
    for worker := 0 to |snapshots|
      invariant destination == TotalsOf(AllRecorded(histories[..worker]), bounds)
    {
      assert histories[..worker + 1][..worker] == histories[..worker];
      MergeIsConcatenation(AllRecorded(histories[..worker]), histories[worker], bounds);
      destination := Merge(destination, snapshots[worker]);
    }
    assert histories[..|snapshots|] == histories;
  }
}
