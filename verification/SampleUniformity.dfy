/** Every strategy gives every subset of the requested size the same probability,
    by counting the equally likely choice streams that lead to it. */
module SampleUniformity {
  import opened ChoiceStreams
  import opened Combinatorics
  import opened RandomSample

  ghost function Elements(ranks: seq<nat>): set<nat> {
    set x | x in ranks
  }

  ghost predicate SubsetOf(s: set<nat>, n: nat) {
    forall x :: x in s ==> x < n
  }

  // ----- Floyd

  ghost predicate FloydGives(n: nat, k: nat, c: seq<nat>, s: set<nat>) {
    |c| <= k <= n && Elements(FloydRanks(n, k, c)) == s
  }

  ghost function FloydIs(n: nat, k: nat, s: set<nat>): seq<nat> -> bool {
    c => FloydGives(n, k, c, s)
  }

  /** What the earlier choices must have given for the last choice `x` to complete
      `s`: without the upper rank if it is in `s`, else without `x`. */
  ghost function FloydBefore(s: set<nat>, upper: nat, x: nat): set<nat> {
    if upper in s then s - {upper} else s - {x}
  }

  lemma FloydSetStep(before: set<nat>, s: set<nat>, upper: nat, x: nat)
    requires upper !in before
    ensures before + {if x in before then upper else x} == s <==> x in s && before == FloydBefore(s, upper, x)
  {
    var after := before + {if x in before then upper else x};
    if after == s {
      if upper in s {
        assert before == s - {upper};
      } else {
        assert before == s - {x};
      }
    }
    if x in s && before == FloydBefore(s, upper, x) {
      assert upper in s ==> after == s;
      assert upper !in s ==> after == s;
    }
  }

  lemma FloydLastChoice(n: nat, k: nat, s: set<nat>, c: seq<nat>, x: nat)
    requires |c| < k <= n && Below(c, FloydBounds(n, k, |c|))
    ensures FloydGives(n, k, c + [x], s) <==> x in s && FloydGives(n, k, c, FloydBefore(s, n - k + |c|, x))
  {
    var upper := n - k + |c|;
    var before, after := Elements(FloydRanks(n, k, c)), Elements(FloydRanks(n, k, c + [x]));
    assert upper !in before by { FloydSampleValid(n, k, c); }
    assert after == before + {if x in before then upper else x} by { FloydElements(n, k, c, x); }
    FloydSetStep(before, s, upper, x);
  }

  lemma FloydElements(n: nat, k: nat, c: seq<nat>, x: nat)
    requires |c| < k <= n
    ensures var before := Elements(FloydRanks(n, k, c));
            Elements(FloydRanks(n, k, c + [x])) == before + {if x in before then n - k + |c| else x}
  {
    var ranks := FloydRanks(n, k, c);
    assert (c + [x])[..|c|] == c;
    var added := if x in ranks then n - k + |c| else x;
    assert FloydRanks(n, k, c + [x]) == ranks + [added];
  }

  /** Exactly j! of the streams of j choices give any one j-element subset. */
  lemma {:induction false} FloydCount(n: nat, k: nat, j: nat, s: set<nat>)
    requires j <= k <= n && SubsetOf(s, n - k + j) && |s| == j
    ensures Count(FloydBounds(n, k, j), FloydIs(n, k, s)) == Factorial(j)
    decreases j
  {
    if j == 0 {
      assert s == {};
      OneEmptyStream(FloydBounds(n, k, 0), FloydIs(n, k, s));
    } else {
      var bounds, choices := FloydBounds(n, k, j - 1), n - k + j;
      forall x: nat | x < choices
        ensures CountAfter(bounds, FloydIs(n, k, s))(x) == Weight(s, Factorial(j - 1))(x)
      {
        FloydCountAfter(n, k, j, s, x);
      }
      assert FloydBounds(n, k, j) == bounds + [choices];
      WeighedCount(bounds, choices, FloydIs(n, k, s), s, Factorial(j - 1));
    }
  }

  /** If the last choice must be in `s`, and each member of `s` completes equally
      many streams, the count is the product. */
  lemma WeighedCount(bounds: seq<nat>, choices: nat, p: seq<nat> -> bool, s: set<nat>, each: nat)
    requires SubsetOf(s, choices)
    requires forall x: nat :: x < choices ==> CountAfter(bounds, p)(x) == Weight(s, each)(x)
    ensures Count(bounds + [choices], p) == |s| * each
  {
    CountByLast(bounds, choices, p);
    SumToAgrees(choices, CountAfter(bounds, p), Weight(s, each));
    SumOverMembers(choices, s, each);
  }

  lemma {:induction false} FloydCountAfter(n: nat, k: nat, j: nat, s: set<nat>, x: nat)
    requires 0 < j <= k <= n && SubsetOf(s, n - k + j) && |s| == j && x < n - k + j
    ensures Count(FloydBounds(n, k, j - 1), After(FloydIs(n, k, s), x)) == if x in s then Factorial(j - 1) else 0
    decreases j, 0
  {
    var upper := n - k + j - 1;
    var bounds := FloydBounds(n, k, j - 1);
    var before := FloydBefore(s, upper, x);
    FloydPredicates(n, k, j, s, x, before);
    if x in s {
      FloydBeforeSize(s, upper, x);
      CountAgrees(bounds, After(FloydIs(n, k, s), x), FloydIs(n, k, before));
      FloydCount(n, k, j - 1, before);
    } else {
      CountNone(bounds, After(FloydIs(n, k, s), x));
    }
  }

  lemma FloydBeforeSize(s: set<nat>, upper: nat, x: nat)
    requires x in s && SubsetOf(s, upper + 1)
    ensures SubsetOf(FloydBefore(s, upper, x), upper) && |FloydBefore(s, upper, x)| == |s| - 1
  {
  }

  lemma FloydPredicates(n: nat, k: nat, j: nat, s: set<nat>, x: nat, before: set<nat>)
    requires 0 < j <= k <= n && before == FloydBefore(s, n - k + j - 1, x)
    ensures forall c :: Below(c, FloydBounds(n, k, j - 1)) ==>
              After(FloydIs(n, k, s), x)(c) == (x in s && FloydIs(n, k, before)(c))
  {
    forall c | Below(c, FloydBounds(n, k, j - 1))
      ensures FloydGives(n, k, c + [x], s) == (x in s && FloydGives(n, k, c, before))
    {
      FloydLastChoice(n, k, s, c, x);
    }
  }

  lemma OneEmptyStream(bounds: seq<nat>, p: seq<nat> -> bool)
    requires bounds == [] && p([])
    ensures Count(bounds, p) == 1
  {
    assert forall c :: Below(c, bounds) <==> c == [];
    assert Leading(bounds, p) == {[]};
  }

  // ----- one compact pass

  ghost predicate CompactGives(n: nat, k: nat, c: seq<nat>, s: set<nat>) {
    |c| <= n && Elements(CompactRanks(n, k, c)) == s
  }

  ghost function CompactIs(n: nat, k: nat, s: set<nat>): seq<nat> -> bool {
    c => CompactGives(n, k, c, s)
  }

  ghost function CompactPrefix(n: nat, r: nat): seq<nat>
    requires r <= n
  {
    seq(r, i requires 0 <= i < r => n - i)
  }

  /** The last choice decides about its own rank only. */
  lemma CompactLastChoice(n: nat, k: nat, s: set<nat>, c: seq<nat>, x: nat)
    requires |c| < n && k <= n
    ensures CompactGives(n, k, c + [x], s) <==>
            CompactGives(n, k, c, s - {|c|}) && (|c| in s <==> Keeps(n - |c|, k - |s - {|c|}|, x))
  {
    var r: nat := |c|;
    var ranks := CompactRanks(n, k, c);
    CompactSampleValid(n, k, c);
    ElementCount(ranks);
    CompactElements(n, k, c, x);
    KeptOrNot(Elements(ranks), s, r, Keeps(n - r, k - |ranks|, x));
  }

  lemma CompactElements(n: nat, k: nat, c: seq<nat>, x: nat)
    requires |c| < n
    ensures var ranks := CompactRanks(n, k, c);
            Elements(CompactRanks(n, k, c + [x]))
            == Elements(ranks) + (if Keeps(n - |c|, k - |ranks|, x) then {|c| as nat} else {})
  {
    assert (c + [x])[..|c|] == c;
  }

  lemma KeptOrNot(before: set<nat>, s: set<nat>, r: nat, keep: bool)
    requires r !in before
    ensures before + (if keep then {r} else {}) == s <==> before == s - {r} && (r in s <==> keep)
  {
    if before == s - {r} && (r in s <==> keep) {
      assert before + (if keep then {r} else {}) == s;
    }
  }

  /** Of the streams of r choices, as many keep exactly `s` as there are
      ways to place its members and its non-members. */
  lemma {:induction false} CompactCount(n: nat, k: nat, r: nat, s: set<nat>)
    requires k <= n && r <= n && SubsetOf(s, r)
    ensures |s| <= r && Count(CompactPrefix(n, r), CompactIs(n, k, s)) == Falling(k, |s|) * Falling(n - k, r - |s|)
    decreases r
  {
    if r == 0 {
      assert s == {};
      OneEmptyStream(CompactPrefix(n, 0), CompactIs(n, k, s));
    } else {
      var rank: nat := r - 1;
      CompactCount(n, k, rank, s - {rank});
      SizeWithout(s, rank);
      CompactStep(n, k, rank, s, s - {rank});
    }
  }

  lemma SizeWithout(s: set<nat>, x: nat)
    ensures |s| == |s - {x}| + if x in s then 1 else 0
  {
    if x !in s { assert s - {x} == s; }
  }

  lemma CompactStep(n: nat, k: nat, rank: nat, s: set<nat>, before: set<nat>)
    requires k <= n && rank < n && before == s - {rank} && |before| <= rank
    requires Count(CompactPrefix(n, rank), CompactIs(n, k, before))
          == Falling(k, |before|) * Falling(n - k, rank - |before|)
    ensures Count(CompactPrefix(n, rank + 1), CompactIs(n, k, s))
         == if rank in s then Falling(k, |before| + 1) * Falling(n - k, rank - |before|)
            else Falling(k, |before|) * Falling(n - k, rank + 1 - |before|)
  {
    var count := Count(CompactPrefix(n, rank), CompactIs(n, k, before));
    StillPossible(n, k, rank, |before|);
    assert CompactPrefix(n, rank + 1) == CompactPrefix(n, rank) + [n - rank];
    CompactLastSum(n, k, rank, s, before, count, k - |before|);
    FallingStep(n, k, rank, |before|);
  }

  lemma CompactCountAfter(n: nat, k: nat, rank: nat, s: set<nat>, before: set<nat>, x: nat)
    requires k <= n && rank < n && before == s - {rank}
    ensures Count(CompactPrefix(n, rank), After(CompactIs(n, k, s), x))
         == if rank in s <==> Keeps(n - rank, k - |before|, x)
            then Count(CompactPrefix(n, rank), CompactIs(n, k, before)) else 0
  {
    var bounds := CompactPrefix(n, rank);
    forall c | Below(c, bounds)
      ensures CompactGives(n, k, c + [x], s) <==>
              CompactGives(n, k, c, before) && (rank in s <==> Keeps(n - rank, k - |before|, x))
    {
      CompactLastChoice(n, k, s, c, x);
    }
    if rank in s <==> Keeps(n - rank, k - |before|, x) {
      CountAgrees(bounds, After(CompactIs(n, k, s), x), CompactIs(n, k, before));
    } else {
      CountNone(bounds, After(CompactIs(n, k, s), x));
    }
  }

  /** A prefix that some stream reaches leaves no more requested than remaining. */
  lemma StillPossible(n: nat, k: nat, rank: nat, kept: nat)
    requires k <= n && kept <= rank < n
    ensures Falling(k, kept) * Falling(n - k, rank - kept) != 0 ==> 0 <= k - kept <= n - rank
  {
    if kept > k { FallingVanishes(k, kept); }
    if rank - kept > n - k { FallingVanishes(n - k, rank - kept); }
  }

  /** Summed over the last choice: as many choices keep the rank as ranks are
      still requested, and the others pass over it. */
  lemma CompactLastSum(n: nat, k: nat, rank: nat, s: set<nat>, before: set<nat>, count: nat, wanted: int)
    requires k <= n && rank < n && before == s - {rank} && wanted == k - |before|
    requires count == Count(CompactPrefix(n, rank), CompactIs(n, k, before))
    requires count != 0 ==> 0 <= wanted <= n - rank
    ensures Count(CompactPrefix(n, rank) + [n - rank], CompactIs(n, k, s))
         == if rank in s then wanted * count else (n - rank - wanted) * count
  {
    forall x: nat | x < n - rank
      ensures Count(CompactPrefix(n, rank), After(CompactIs(n, k, s), x))
           == if rank in s <==> Keeps(n - rank, wanted, x) then count else 0
    {
      CompactCountAfter(n, k, rank, s, before, x);
    }
    LastSum(CompactPrefix(n, rank), n - rank, CompactIs(n, k, s), wanted, rank in s, count);
  }

  lemma LastSum(bounds: seq<nat>, choices: nat, p: seq<nat> -> bool, wanted: int, member: bool, count: nat)
    requires count != 0 ==> 0 <= wanted <= choices
    requires forall x: nat :: x < choices ==>
               Count(bounds, After(p, x)) == if member <==> Keeps(choices, wanted, x) then count else 0
    ensures Count(bounds + [choices], p) == if member then wanted * count else (choices - wanted) * count
  {
    SplitSum(choices, wanted, member, CountAfter(bounds, p), count);
    CountByLast(bounds, choices, p);
  }

  lemma SplitSum(choices: nat, wanted: int, member: bool, f: nat -> nat, count: nat)
    requires count != 0 ==> 0 <= wanted <= choices
    requires forall x: nat :: x < choices ==> f(x) == if member <==> Keeps(choices, wanted, x) then count else 0
    ensures SumTo(choices, f) == if member then wanted * count else (choices - wanted) * count
  {
    if count == 0 {
      SumToAgrees(choices, f, LowWeight(0, 0));
      SumLow(choices, 0, 0);
    } else if member {
      SumToAgrees(choices, f, LowWeight(wanted, count));
      SumLow(choices, wanted, count);
    } else {
      SumToAgrees(choices, f, HighWeight(wanted, count));
      SumHigh(choices, wanted, count);
    }
  }

  lemma FallingStep(n: nat, k: nat, rank: nat, kept: nat)
    requires k <= n && kept <= rank < n
    ensures (k - kept) * (Falling(k, kept) * Falling(n - k, rank - kept))
         == Falling(k, kept + 1) * Falling(n - k, rank - kept)
    ensures (n - rank - (k - kept)) * (Falling(k, kept) * Falling(n - k, rank - kept))
         == Falling(k, kept) * Falling(n - k, rank + 1 - kept)
  {
    var a, b := Falling(k, kept), Falling(n - k, rank - kept);
    MoveFactor(a, b, k - kept);
    MoveFactor2(a, b, n - rank - (k - kept));
    assert Falling(n - k, rank + 1 - kept) == b * (n - k - (rank - kept));
  }

  lemma MoveFactor(a: int, b: int, w: int)
    ensures w * (a * b) == (a * w) * b
  {
  }

  lemma MoveFactor2(a: int, b: int, w: int)
    ensures w * (a * b) == a * (b * w)
  {
  }

  // ----- swap-remove subtraction

  ghost function SubtractIs(ranks: seq<nat>, k: nat, s: set<nat>): seq<nat> -> bool
    requires k <= |ranks|
  {
    c => Below(c, SubtractBounds(|ranks|, k)) && Elements(Subtracted(ranks, c)) == s
  }

  lemma RemovedElements(ranks: seq<nat>, at: nat)
    requires at < |ranks| && Distinct(ranks)
    ensures Elements(Removed(ranks, at)) == Elements(ranks) - {ranks[at]}
  {
    var r, last := Removed(ranks, at), |ranks| - 1;
    forall x
      ensures x in r <==> x in ranks && x != ranks[at]
    {
      if x in ranks && x != ranks[at] {
        var i :| 0 <= i < |ranks| && ranks[i] == x;
        assert if i == last then r[at] == x else r[i] == x;
      }
    }
  }

  /** The sample never contains what was removed. */
  lemma {:induction false} SubtractedStaysInside(ranks: seq<nat>, c: seq<nat>)
    requires |c| <= |ranks| && Distinct(ranks)
    requires forall i :: 0 <= i < |c| ==> c[i] < |ranks| - i
    ensures Elements(Subtracted(ranks, c)) <= Elements(ranks)
    decreases |c|
  {
    if c != [] {
      RemovedElements(ranks, c[0]);
      RemovedIsDistinct(ranks, c[0], MaxPlusOne(ranks));
      assert forall i :: 0 <= i < |c[1..]| ==> c[1..][i] == c[i + 1];
      SubtractedStaysInside(Removed(ranks, c[0]), c[1..]);
    }
  }

  ghost function MaxPlusOne(ranks: seq<nat>): (m: nat)
    ensures InRange(ranks, m)
  {
    if ranks == [] then 0
    else
      var m := MaxPlusOne(ranks[..|ranks| - 1]);
      if ranks[|ranks| - 1] < m then m else ranks[|ranks| - 1] + 1
  }

  lemma FirstRemoval(ranks: seq<nat>, k: nat, s: set<nat>, c: seq<nat>, x: nat)
    requires k < |ranks| && Distinct(ranks) && x < |ranks| && Below(c, SubtractBounds(|ranks| - 1, k))
    ensures SubtractIs(ranks, k, s)([x] + c) <==> ranks[x] !in s && SubtractIs(Removed(ranks, x), k, s)(c)
  {
    var d := [x] + c;
    assert Below(d, SubtractBounds(|ranks|, k)) by {
      forall i | 0 <= i < |d|
        ensures d[i] < SubtractBounds(|ranks|, k)[i]
      {
        if i > 0 { assert c[i - 1] < SubtractBounds(|ranks| - 1, k)[i - 1]; }
      }
    }
    assert d[1..] == c;
    RemovedElements(ranks, x);
    RemovedIsDistinct(ranks, x, MaxPlusOne(ranks));
    SubtractedStaysInside(Removed(ranks, x), c);
  }

  /** Exactly (m - k)! of the streams reduce m distinct ranks to a given k of them. */
  lemma {:induction false} SubtractCount(ranks: seq<nat>, k: nat, s: set<nat>)
    requires k <= |ranks| && Distinct(ranks) && s <= Elements(ranks) && |s| == k
    ensures Count(SubtractBounds(|ranks|, k), SubtractIs(ranks, k, s)) == Factorial(|ranks| - k)
    decreases |ranks|
  {
    if |ranks| == k {
      AllElements(ranks, s);
      assert SubtractBounds(k, k) == [];
      assert Subtracted(ranks, []) == ranks;
      OneEmptyStream(SubtractBounds(k, k), SubtractIs(ranks, k, s));
    } else {
      var m := |ranks|;
      var bounds := SubtractBounds(m - 1, k);
      assert SubtractBounds(m, k) == [m] + bounds;
      var gone: set<nat> := set x: nat | x < m && ranks[x] !in s;
      forall x: nat | x < m
        ensures CountBefore(bounds, SubtractIs(ranks, k, s))(x) == Weight(gone, Factorial(m - 1 - k))(x)
      {
        SubtractCountBefore(ranks, k, s, x);
      }
      FirstSum(m, bounds, SubtractIs(ranks, k, s), gone, Factorial(m - 1 - k));
      PositionsOutside(ranks, s, gone);
    }
  }

  lemma FirstSum(choices: nat, bounds: seq<nat>, p: seq<nat> -> bool, s: set<nat>, each: nat)
    requires forall x: nat :: x < choices ==> CountBefore(bounds, p)(x) == Weight(s, each)(x)
    requires forall x :: x in s ==> x < choices
    ensures Count([choices] + bounds, p) == |s| * each
  {
    CountByFirst(choices, bounds, p);
    SumToAgrees(choices, CountBefore(bounds, p), Weight(s, each));
    SumOverMembers(choices, s, each);
  }

  lemma {:induction false} SubtractCountBefore(ranks: seq<nat>, k: nat, s: set<nat>, x: nat)
    requires k < |ranks| && Distinct(ranks) && s <= Elements(ranks) && |s| == k && x < |ranks|
    ensures Count(SubtractBounds(|ranks| - 1, k), Before(SubtractIs(ranks, k, s), x))
         == if ranks[x] !in s then Factorial(|ranks| - 1 - k) else 0
    decreases |ranks|, 0
  {
    var bounds := SubtractBounds(|ranks| - 1, k);
    var rest := Removed(ranks, x);
    forall c | Below(c, bounds)
      ensures Before(SubtractIs(ranks, k, s), x)(c) <==> ranks[x] !in s && SubtractIs(rest, k, s)(c)
    {
      FirstRemoval(ranks, k, s, c, x);
    }
    if ranks[x] !in s {
      CountAgrees(bounds, Before(SubtractIs(ranks, k, s), x), SubtractIs(rest, k, s));
      RemovedElements(ranks, x);
      RemovedIsDistinct(ranks, x, MaxPlusOne(ranks));
      SubtractCount(rest, k, s);
    } else {
      CountNone(bounds, Before(SubtractIs(ranks, k, s), x));
    }
  }

  /** A subset with as many members as there are ranks is all of them. */
  lemma {:induction false} AllElements(ranks: seq<nat>, s: set<nat>)
    requires Distinct(ranks) && s <= Elements(ranks) && |s| == |ranks|
    ensures Elements(ranks) == s
    decreases |ranks|
  {
    ElementCount(ranks);
    var outside := Elements(ranks) - s;
    assert |outside| == 0;
  }

  lemma {:induction false} ElementCount(ranks: seq<nat>)
    requires Distinct(ranks)
    ensures |Elements(ranks)| == |ranks|
    decreases |ranks|
  {
    if ranks != [] {
      var last := |ranks| - 1;
      ElementCount(ranks[..last]);
      assert Elements(ranks) == Elements(ranks[..last]) + {ranks[last]};
    }
  }

  /** Distinct ranks have one position each, so as many positions lie outside a
      subset as there are ranks outside it. */
  lemma {:induction false} PositionsOutside(ranks: seq<nat>, s: set<nat>, gone: set<nat>)
    requires Distinct(ranks) && s <= Elements(ranks)
    requires forall x: nat :: x in gone <==> x < |ranks| && ranks[x] !in s
    ensures |gone| == |ranks| - |s|
    decreases |s|
  {
    if s == {} {
      AllPositions(|ranks|, gone);
    } else {
      var e :| e in s;
      assert e in Elements(ranks);
      var at: nat :| at < |ranks| && ranks[at] == e;
      assert forall x: nat :: x < |ranks| && ranks[x] == e ==> x == at;
      var more := gone + {at};
      assert forall x: nat :: x in more <==> x < |ranks| && ranks[x] !in s - {e};
      PositionsOutside(ranks, s - {e}, more);
    }
  }

  lemma {:induction false} AllPositions(m: nat, all: set<nat>)
    requires forall x: nat :: x in all <==> x < m
    ensures |all| == m
  {
    if m == 0 {
      assert all == {};
    } else {
      AllPositions(m - 1, all - {m - 1});
    }
  }
}
