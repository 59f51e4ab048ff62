/** Random subset sampling: which strategy is used, what each makes of a stream of
    choices, and that every result has the requested distinct in-range ranks. */
module RandomSample {
  import opened ChoiceStreams

  datatype Strategy = Direct | All | CompactUnique | Subtract | Floyd

  const SUB_STRATEGY_MULTIPLIER: nat := 3

  function ChooseRandomSampleStrategy(population: nat, requested: nat, compact: bool): Strategy {
    if requested <= 1 then Direct
    else if requested >= population then All
    else if compact then CompactUnique
    else if requested > population / SUB_STRATEGY_MULTIPLIER then Subtract
    else Floyd
  }

  // ----- samples as functions of the choices made

  function Iota(n: nat): seq<nat> {
    seq(n, i requires 0 <= i < n => i)
  }

  /** One pass over the ranks; rank r is kept when its choice is below what is
      still requested. */
  function CompactRanks(n: nat, k: nat, c: seq<nat>): (r: seq<nat>)
    requires |c| <= n
    ensures |r| <= |c|
  {
    if c == [] then []
    else
      var last := |c| - 1;
      var ranks := CompactRanks(n, k, c[..last]);
      if Keeps(n - last, k - |ranks|, c[last]) then ranks + [last] else ranks
  }

  predicate Keeps(remaining: nat, requested: int, choice: nat) {
    requested > 0 && (requested >= remaining || choice < requested)
  }

  /** Swap-remove: the last rank takes the place of the removed one. */
  function Removed(ranks: seq<nat>, at: nat): (r: seq<nat>)
    requires at < |ranks|
    ensures |r| == |ranks| - 1
  {
    ranks[at := ranks[|ranks| - 1]][..|ranks| - 1]
  }

  function Subtracted(ranks: seq<nat>, c: seq<nat>): (r: seq<nat>)
    requires |c| <= |ranks|
    requires forall i :: 0 <= i < |c| ==> c[i] < |ranks| - i
    decreases |c|
  {
    if c == [] then ranks
    else
      assert forall i :: 0 <= i < |c[1..]| ==> c[1..][i] == c[i + 1];
      Subtracted(Removed(ranks, c[0]), c[1..])
  }

  /** Floyd's sampling: a candidate that is already there becomes the upper rank. */
  function FloydRanks(n: nat, k: nat, c: seq<nat>): (r: seq<nat>)
    requires |c| <= k <= n
    ensures |r| == |c|
  {
    if c == [] then []
    else
      var last := |c| - 1;
      var ranks := FloydRanks(n, k, c[..last]);
      ranks + [if c[last] in ranks then n - k + last else c[last]]
  }

  function CompactBounds(n: nat): (b: seq<nat>)
  {
    seq(n, i requires 0 <= i < n => n - i)
  }

  function SubtractBounds(n: nat, k: nat): (b: seq<nat>)
    requires k <= n
  {
    seq(n - k, i requires 0 <= i < n - k => n - i)
  }

  function FloydBounds(n: nat, k: nat, j: nat): (b: seq<nat>)
    requires j <= k <= n
  {
    seq(j, i requires 0 <= i < j => n - k + i + 1)
  }

  /** The choices a strategy makes, and the sample it makes of them. */
  function Bounds(s: Strategy, n: nat, k: nat): (b: seq<nat>)
    requires k <= n
  {
    match s
    case Direct => [n]
    case All => []
    case CompactUnique => CompactBounds(n)
    case Subtract => SubtractBounds(n, k)
    case Floyd => FloydBounds(n, k, k)
  }

  ghost function Sample(s: Strategy, n: nat, k: nat, c: seq<nat>): (r: seq<nat>)
    requires k <= n && Below(c, Bounds(s, n, k))
  {
    match s
    case Direct => c
    case All => Iota(n)
    case CompactUnique => CompactRanks(n, k, c)
    case Subtract => Subtracted(Iota(n), c)
    case Floyd => FloydRanks(n, k, c)
  }

  /** How many choices are made: one for a single rank, none for all of them, one for each
      rank of a compact population, and otherwise one for each rank that is left out where
      more than a third is asked for, else one for each that is asked for. */
  lemma ChoicesNeeded(n: nat, k: nat, compact: bool)
    requires 0 < k <= n
    ensures |Bounds(ChooseRandomSampleStrategy(n, k, compact), n, k)|
         == if k == 1 then 1 else if k == n then 0 else if compact then n else if k > n / 3 then n - k else k
  {
  }

  // ----- every sample is distinct and in range

  ghost predicate Distinct(ranks: seq<nat>) {
    forall i, j :: 0 <= i < j < |ranks| ==> ranks[i] != ranks[j]
  }

  ghost predicate InRange(ranks: seq<nat>, n: nat) {
    forall i :: 0 <= i < |ranks| ==> ranks[i] < n
  }

  ghost predicate Increasing(ranks: seq<nat>) {
    forall i, j :: 0 <= i < j < |ranks| ==> ranks[i] < ranks[j]
  }

  lemma {:induction false} FloydSampleValid(n: nat, k: nat, c: seq<nat>)
    requires |c| <= k <= n && Below(c, FloydBounds(n, k, |c|))
    ensures Distinct(FloydRanks(n, k, c)) && InRange(FloydRanks(n, k, c), n - k + |c|)
  {
    if c != [] {
      var last := |c| - 1;
      assert Below(c[..last], FloydBounds(n, k, last));
      FloydSampleValid(n, k, c[..last]);
      assert c[last] < FloydBounds(n, k, |c|)[last];
    }
  }

  /** The pass keeps its ranks in order and never asks for more than is left. */
  lemma {:induction false} CompactSampleValid(n: nat, k: nat, c: seq<nat>)
    requires |c| <= n && k <= n
    ensures Increasing(CompactRanks(n, k, c)) && InRange(CompactRanks(n, k, c), |c|)
    ensures 0 <= k - |CompactRanks(n, k, c)| <= n - |c|
  {
    if c != [] {
      CompactSampleValid(n, k, c[..|c| - 1]);
    }
  }

  /** Once enough ranks are kept, later choices change nothing. */
  lemma {:induction false} CompactStops(n: nat, k: nat, c: seq<nat>, r: nat)
    requires r <= |c| <= n && k <= n && |CompactRanks(n, k, c[..r])| == k
    ensures CompactRanks(n, k, c) == CompactRanks(n, k, c[..r])
    decreases |c|
  {
    if r == |c| {
      assert c[..r] == c;
    } else {
      assert c[..|c| - 1][..r] == c[..r];
      CompactStops(n, k, c[..|c| - 1], r);
    }
  }

  lemma RemovedIsDistinct(ranks: seq<nat>, at: nat, n: nat)
    requires at < |ranks| && Distinct(ranks) && InRange(ranks, n)
    ensures Distinct(Removed(ranks, at)) && InRange(Removed(ranks, at), n)
  {
  }

  lemma {:induction false} SubtractedValid(ranks: seq<nat>, c: seq<nat>, n: nat)
    requires |c| <= |ranks| && Distinct(ranks) && InRange(ranks, n)
    requires forall i :: 0 <= i < |c| ==> c[i] < |ranks| - i
    ensures |Subtracted(ranks, c)| == |ranks| - |c|
    ensures Distinct(Subtracted(ranks, c)) && InRange(Subtracted(ranks, c), n)
    decreases |c|
  {
    if c != [] {
      RemovedIsDistinct(ranks, c[0], n);
      assert forall i :: 0 <= i < |c[1..]| ==> c[1..][i] == c[i + 1];
      SubtractedValid(Removed(ranks, c[0]), c[1..], n);
    }
  }

  /** One more choice removes one more rank. */
  lemma {:induction false} SubtractedAppend(ranks: seq<nat>, c: seq<nat>, x: nat)
    requires |c| < |ranks| && x < |ranks| - |c|
    requires forall i :: 0 <= i < |c| ==> c[i] < |ranks| - i
    ensures |Subtracted(ranks, c)| == |ranks| - |c|
    ensures Subtracted(ranks, c + [x]) == Removed(Subtracted(ranks, c), x)
    decreases |c|
  {
    if c == [] {
      assert ([] + [x])[1..] == [];
    } else {
      assert (c + [x])[1..] == c[1..] + [x];
      assert forall i :: 0 <= i < |c[1..]| ==> c[1..][i] == c[i + 1];
      SubtractedAppend(Removed(ranks, c[0]), c[1..], x);
    }
  }

  // ----- the sampler

  /** The generator: draw number `i`, uniform below `bound`. */
  type Draw = (nat, nat) -> nat

  ghost predicate Draws(draw: Draw) {
    forall i, bound :: bound > 0 ==> draw(i, bound) < bound
  }

  ghost function Choices(draw: Draw, bounds: seq<nat>): (c: seq<nat>)
  {
    seq(|bounds|, i requires 0 <= i < |bounds| => draw(i, bounds[i]))
  }

  lemma ChoicesAreBelow(draw: Draw, bounds: seq<nat>)
    requires Draws(draw) && forall i :: 0 <= i < |bounds| ==> bounds[i] > 0
    ensures Below(Choices(draw, bounds), bounds)
  {
  }

  method SelectCurrentRandomRank(remaining: nat, requested: nat, draw: Draw, drawn: nat)
    returns (selected: bool, drawn': nat)
    ensures selected == Keeps(remaining, requested, draw(drawn, remaining))
    ensures drawn' == if 0 < requested < remaining then drawn + 1 else drawn
  {
    if requested == 0 { return false, drawn; }
    if requested >= remaining { return true, drawn; }
    return draw(drawn, remaining) < requested, drawn + 1;
  }

  method SampleCompact(population: nat, wanted: nat, draw: Draw) returns (ranks: seq<nat>)
    requires 0 < wanted < population && Draws(draw)
    ensures ranks == CompactRanks(population, wanted, Choices(draw, CompactBounds(population)))
  {
    ghost var c := Choices(draw, CompactBounds(population));
    var requested, remaining, rank, drawn := wanted, population, 0, 0;
    ranks := [];
    while requested != 0
      invariant rank <= population && remaining == population - rank
      invariant ranks == CompactRanks(population, wanted, c[..rank]) && requested == wanted - |ranks|
      invariant requested <= remaining && (drawn == rank || requested == remaining)
      decreases remaining
    {
      assert c[..rank + 1][..rank] == c[..rank] && c[..rank + 1][rank] == draw(rank, remaining);
      var selected;
      selected, drawn := SelectCurrentRandomRank(remaining, requested, draw, drawn);
      if selected {
        ranks := ranks + [rank];
        requested := requested - 1;
      }
      rank := rank + 1;
      remaining := remaining - 1;
    }
    CompactStops(population, wanted, c, rank);
  }

  method SampleBySubtraction(population: nat, requested: nat, draw: Draw) returns (ranks: seq<nat>)
    requires requested <= population && Draws(draw)
    ensures Below(Choices(draw, SubtractBounds(population, requested)), SubtractBounds(population, requested))
    ensures ranks == Subtracted(Iota(population), Choices(draw, SubtractBounds(population, requested)))
  {
    ghost var bounds := SubtractBounds(population, requested);
    ghost var c := Choices(draw, bounds);
    ChoicesAreBelow(draw, bounds);
    ranks := Iota(population);
    var drawn := 0;
    while |ranks| > requested
      invariant requested <= |ranks| <= population && drawn == population - |ranks|
      invariant ranks == Subtracted(Iota(population), c[..drawn])
    {
      var at := draw(drawn, |ranks|);
      SubtractedAppend(Iota(population), c[..drawn], at);
      assert c[..drawn] + [at] == c[..drawn + 1];
      ranks := ranks[at := ranks[|ranks| - 1]];
      ranks := ranks[..|ranks| - 1];
      drawn := drawn + 1;
    }
    assert c[..drawn] == c;
  }

  method SampleByFloyd(population: nat, requested: nat, draw: Draw) returns (ranks: seq<nat>)
    requires requested <= population && Draws(draw)
    ensures ranks == FloydRanks(population, requested, Choices(draw, FloydBounds(population, requested, requested)))
  {
    ghost var c := Choices(draw, FloydBounds(population, requested, requested));
    ranks := [];
    var selected: set<nat> := {};
    for offset := 0 to requested
      invariant ranks == FloydRanks(population, requested, c[..offset])
      invariant selected == set x | x in ranks
    {
      assert c[..offset + 1][..offset] == c[..offset];
      var upper := population - requested + offset;
      var candidate := draw(offset, upper + 1);
      var rank := if candidate in selected then upper else candidate;
      selected := selected + {rank};
      ranks := ranks + [rank];
    }
    assert c[..requested] == c;
  }

  /** For every population, request and generator the sampler ends with exactly the
      requested number of distinct ranks, or all of them, and they are the sample
      its strategy makes of the choices drawn. */
  method SampleUniqueRandomRanks(population: nat, asked: nat, compact: bool, draw: Draw)
    returns (ranks: seq<nat>)
    requires Draws(draw)
    ensures |ranks| == if asked < population then asked else population
    ensures Distinct(ranks) && InRange(ranks, population)
    ensures compact && 1 < asked < population ==> Increasing(ranks)
    ensures var k := if asked < population then asked else population;
            k > 0 ==>
            var s := ChooseRandomSampleStrategy(population, k, compact);
            Below(Choices(draw, Bounds(s, population, k)), Bounds(s, population, k)) &&
            ranks == Sample(s, population, k, Choices(draw, Bounds(s, population, k)))
  {
    var requested := if asked < population then asked else population;
    if requested == 0 { return []; }
    var strategy := ChooseRandomSampleStrategy(population, requested, compact);
    ghost var c := Choices(draw, Bounds(strategy, population, requested));
    ChoicesAreBelow(draw, Bounds(strategy, population, requested));
    match strategy
    case Direct =>
      ranks := [draw(0, population)];
      assert c == ranks;
    case All =>
      ranks := Iota(population);
    case CompactUnique =>
      ranks := SampleCompact(population, requested, draw);
      CompactSampleValid(population, requested, c);
    case Subtract =>
      ranks := SampleBySubtraction(population, requested, draw);
      SubtractedValid(Iota(population), c, population);
    case Floyd =>
      ranks := SampleByFloyd(population, requested, draw);
      FloydSampleValid(population, requested, c);
  }
}
