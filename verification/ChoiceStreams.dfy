/** A random generator as its stream of choices. A program that draws uniformly
    below each bound in turn makes every stream below the bounds equally likely, so
    the probability of an outcome is the fraction of streams that lead to it. */
module ChoiceStreams {
  import opened Arithmetic

  ghost predicate Below(c: seq<nat>, bounds: seq<nat>) {
    |c| == |bounds| && forall i :: 0 <= i < |c| ==> c[i] < bounds[i]
  }

  ghost predicate AllBelow(s: set<seq<nat>>, bounds: seq<nat>) {
    forall c :: c in s <==> Below(c, bounds)
  }

  lemma {:induction false} StreamsExist(bounds: seq<nat>) returns (s: set<seq<nat>>)
    ensures AllBelow(s, bounds)
    decreases |bounds|
  {
    if bounds == [] {
      s := {[]};
    } else {
      var last := |bounds| - 1;
      var rest := StreamsExist(bounds[..last]);
      s := set c, x | c in rest && 0 <= x < bounds[last] :: c + [x];
      forall c: seq<nat> | Below(c, bounds)
        ensures c in s
      {
        assert Below(c[..last], bounds[..last]);
        assert c == c[..last] + [c[last]];
      }
    }
  }

  /** All streams below the bounds; there are finitely many. */
  ghost function Streams(bounds: seq<nat>): (s: set<seq<nat>>)
    ensures AllBelow(s, bounds)
  {
    assert exists s :: AllBelow(s, bounds) by {
      var s := StreamsExist(bounds);
    }
    var s :| AllBelow(s, bounds);
    s
  }

  lemma StreamsAreBelow(bounds: seq<nat>, c: seq<nat>)
    ensures c in Streams(bounds) <==> Below(c, bounds)
  {
  }

  ghost function Leading(bounds: seq<nat>, outcome: seq<nat> -> bool): set<seq<nat>> {
    set c | c in Streams(bounds) && outcome(c)
  }

  ghost function Count(bounds: seq<nat>, outcome: seq<nat> -> bool): nat {
    |Leading(bounds, outcome)|
  }

  ghost function Probability(bounds: seq<nat>, outcome: seq<nat> -> bool): real
    requires |Streams(bounds)| > 0
  {
    Count(bounds, outcome) as real / |Streams(bounds)| as real
  }

  lemma CountAgrees(bounds: seq<nat>, p: seq<nat> -> bool, q: seq<nat> -> bool)
    requires forall c :: Below(c, bounds) ==> p(c) == q(c)
    ensures Count(bounds, p) == Count(bounds, q)
  {
    forall c | c in Streams(bounds)
      ensures p(c) == q(c)
    {
      StreamsAreBelow(bounds, c);
    }
    assert Leading(bounds, p) == Leading(bounds, q);
  }

  lemma CountNone(bounds: seq<nat>, p: seq<nat> -> bool)
    requires forall c :: Below(c, bounds) ==> !p(c)
    ensures Count(bounds, p) == 0
  {
    forall c | c in Streams(bounds)
      ensures !p(c)
    {
      StreamsAreBelow(bounds, c);
    }
    assert Leading(bounds, p) == {};
  }

  // ----- sums over a choice

  ghost function SumTo(n: nat, f: nat -> nat): nat {
    if n == 0 then 0 else SumTo(n - 1, f) + f(n - 1)
  }

  lemma {:induction false} SumToAgrees(n: nat, f: nat -> nat, g: nat -> nat)
    requires forall x :: 0 <= x < n ==> f(x) == g(x)
    ensures SumTo(n, f) == SumTo(n, g)
  {
    if n > 0 {
      SumToAgrees(n - 1, f, g);
    }
  }

  ghost function Weight(s: set<nat>, v: nat): nat -> nat { x => if x in s then v else 0 }

  lemma {:induction false} SumOverMembers(n: nat, s: set<nat>, v: nat)
    requires forall x :: x in s ==> x < n
    ensures SumTo(n, Weight(s, v)) == |s| * v
  {
    if n == 0 {
      assert s == {};
    } else {
      var last: nat := n - 1;
      var rest := s - {last};
      SumOverMembers(last, rest, v);
      SumToAgrees(last, Weight(s, v), Weight(rest, v));
      if last in s {
        assert |s| == |rest| + 1;
        OneMore(|rest|, v);
      } else {
        assert s == rest;
      }
    }
  }

  ghost function LowWeight(t: nat, v: nat): nat -> nat { x => if x < t then v else 0 }

  ghost function HighWeight(t: nat, v: nat): nat -> nat { x => if x < t then 0 else v }

  lemma {:induction false} SumLow(n: nat, t: nat, v: nat)
    requires t <= n
    ensures SumTo(n, LowWeight(t, v)) == t * v
  {
    if t < n {
      SumLow(n - 1, t, v);
    } else if n > 0 {
      SumLow(n - 1, n - 1, v);
      SumToAgrees(n - 1, LowWeight(n, v), LowWeight(n - 1, v));
      OneMore(n - 1, v);
    }
  }

  lemma {:induction false} SumHigh(n: nat, t: nat, v: nat)
    requires t <= n
    ensures SumTo(n, HighWeight(t, v)) == (n - t) * v
  {
    if t < n {
      SumHigh(n - 1, t, v);
      OneMore(n - 1 - t, v);
    } else {
      SumToAgrees(n, HighWeight(n, v), LowWeight(n, 0));
      SumLow(n, n, 0);
    }
  }

  // ----- splitting on the last and on the first choice

  ghost function After(p: seq<nat> -> bool, x: nat): seq<nat> -> bool { c => p(c + [x]) }

  ghost function Before(p: seq<nat> -> bool, x: nat): seq<nat> -> bool { c => p([x] + c) }

  ghost function CountAfter(bounds: seq<nat>, p: seq<nat> -> bool): nat -> nat { x => Count(bounds, After(p, x)) }

  ghost function CountBefore(bounds: seq<nat>, p: seq<nat> -> bool): nat -> nat { x => Count(bounds, Before(p, x)) }

  /** Two sets with mutually inverse maps between them have the same size. */
  lemma {:induction false} SameSize(s: set<seq<nat>>, t: set<seq<nat>>, f: seq<nat> -> seq<nat>,
      g: seq<nat> -> seq<nat>)
    requires forall c :: c in s ==> f(c) in t && g(f(c)) == c
    requires forall d :: d in t ==> g(d) in s && f(g(d)) == d
    ensures |s| == |t|
    decreases |s|
  {
    if s == {} {
      assert t == {} by {
        if d :| d in t { assert g(d) in s; }
      }
    } else {
      var c :| c in s;
      SameSize(s - {c}, t - {f(c)}, f, g);
    }
  }

  lemma {:induction false} CountByLast(bounds: seq<nat>, m: nat, p: seq<nat> -> bool)
    ensures Count(bounds + [m], p) == SumTo(m, CountAfter(bounds, p))
    decreases m
  {
    if m == 0 {
      NoLastChoice(bounds, p);
    } else {
      CountByLast(bounds, m - 1, p);
      LastChoiceSplits(bounds, m - 1, p);
    }
  }

  lemma NoLastChoice(bounds: seq<nat>, p: seq<nat> -> bool)
    ensures Count(bounds + [0], p) == 0
  {
    var none := Leading(bounds + [0], p);
    if c :| c in none {
      InLast(bounds, 0, c);
    }
  }

  lemma InLast(bounds: seq<nat>, m: nat, c: seq<nat>)
    ensures c in Streams(bounds + [m]) <==>
            |c| == |bounds| + 1 && Below(c[..|bounds|], bounds) && c[|bounds|] < m
  {
    StreamsAreBelow(bounds + [m], c);
  }

  ghost predicate EndsIn(bounds: seq<nat>, top: nat, c: seq<nat>) {
    |c| == |bounds| + 1 && c[|bounds|] == top && Below(c[..|bounds|], bounds)
  }

  ghost predicate StartsIn(bounds: seq<nat>, top: nat, c: seq<nat>) {
    |c| == |bounds| + 1 && c[0] == top && Below(c[1..], bounds)
  }

  lemma LastChoiceSplits(bounds: seq<nat>, top: nat, p: seq<nat> -> bool)
    ensures Count(bounds + [top + 1], p) == Count(bounds + [top], p) + Count(bounds, After(p, top))
  {
    var all, fewer, tails := Leading(bounds + [top + 1], p), Leading(bounds + [top], p), Leading(bounds, After(p, top));
    var n := |bounds|;
    var tops := all - fewer;
    forall c: seq<nat>
      ensures c in fewer ==> c in all
      ensures c in tops <==> EndsIn(bounds, top, c) && p(c)
    {
      InLast(bounds, top + 1, c);
      InLast(bounds, top, c);
    }
    LastTails(bounds, top, p, tops);
    assert fewer <= all;
  }

  lemma LastTails(bounds: seq<nat>, top: nat, p: seq<nat> -> bool, tops: set<seq<nat>>)
    requires forall c: seq<nat> :: c in tops <==> EndsIn(bounds, top, c) && p(c)
    ensures |tops| == Count(bounds, After(p, top))
  {
    var tails, n := Leading(bounds, After(p, top)), |bounds|;
    var extend: seq<nat> -> seq<nat> := c => c + [top];
    var cut: seq<nat> -> seq<nat> := c => if |c| == n + 1 then c[..n] else [];
    forall c | c in tails
      ensures extend(c) in tops && cut(extend(c)) == c
    {
      StreamsAreBelow(bounds, c);
      assert extend(c)[..n] == c;
    }
    forall c | c in tops
      ensures cut(c) in tails && extend(cut(c)) == c
    {
      StreamsAreBelow(bounds, c[..n]);
      assert c[..n] + [c[n]] == c;
    }
    SameSize(tails, tops, extend, cut);
  }

  lemma {:induction false} CountByFirst(m: nat, bounds: seq<nat>, p: seq<nat> -> bool)
    ensures Count([m] + bounds, p) == SumTo(m, CountBefore(bounds, p))
    decreases m
  {
    if m == 0 {
      NoFirstChoice(bounds, p);
    } else {
      CountByFirst(m - 1, bounds, p);
      FirstChoiceSplits(m - 1, bounds, p);
    }
  }

  lemma NoFirstChoice(bounds: seq<nat>, p: seq<nat> -> bool)
    ensures Count([0] + bounds, p) == 0
  {
    var none := Leading([0] + bounds, p);
    if c :| c in none {
      InFirst(0, bounds, c);
    }
  }

  lemma InFirst(m: nat, bounds: seq<nat>, c: seq<nat>)
    ensures c in Streams([m] + bounds) <==> |c| == |bounds| + 1 && Below(c[1..], bounds) && c[0] < m
  {
    StreamsAreBelow([m] + bounds, c);
    if |c| == |bounds| + 1 {
      if Below(c, [m] + bounds) {
        forall i | 0 <= i < |bounds| ensures c[1..][i] < bounds[i] { assert c[i + 1] < ([m] + bounds)[i + 1]; }
      }
      if Below(c[1..], bounds) && c[0] < m {
        forall i | 0 <= i < |c| ensures c[i] < ([m] + bounds)[i] { if i > 0 { assert c[1..][i - 1] < bounds[i - 1]; } }
      }
    }
  }

  lemma FirstChoiceSplits(top: nat, bounds: seq<nat>, p: seq<nat> -> bool)
    ensures Count([top + 1] + bounds, p) == Count([top] + bounds, p) + Count(bounds, Before(p, top))
  {
    var all, fewer := Leading([top + 1] + bounds, p), Leading([top] + bounds, p);
    var tops := all - fewer;
    forall c: seq<nat>
      ensures c in fewer ==> c in all
      ensures c in tops <==> StartsIn(bounds, top, c) && p(c)
    {
      InFirst(top + 1, bounds, c);
      InFirst(top, bounds, c);
    }
    FirstTails(bounds, top, p, tops);
    assert fewer <= all;
  }

  lemma FirstTails(bounds: seq<nat>, top: nat, p: seq<nat> -> bool, tops: set<seq<nat>>)
    requires forall c: seq<nat> :: c in tops <==> StartsIn(bounds, top, c) && p(c)
    ensures |tops| == Count(bounds, Before(p, top))
  {
    var tails := Leading(bounds, Before(p, top));
    var extend: seq<nat> -> seq<nat> := c => [top] + c;
    var cut: seq<nat> -> seq<nat> := c => if c != [] then c[1..] else [];
    forall c | c in tails
      ensures extend(c) in tops && cut(extend(c)) == c
    {
      StreamsAreBelow(bounds, c);
      assert extend(c)[1..] == c;
    }
    forall c | c in tops
      ensures cut(c) in tails && extend(cut(c)) == c
    {
      StreamsAreBelow(bounds, c[1..]);
      assert [c[0]] + c[1..] == c;
    }
    SameSize(tails, tops, extend, cut);
  }

  // ----- how many streams there are

  ghost function Product(bounds: seq<nat>): nat {
    if bounds == [] then 1 else Product(bounds[..|bounds| - 1]) * bounds[|bounds| - 1]
  }

  lemma {:induction false} StreamCount(bounds: seq<nat>)
    ensures |Streams(bounds)| == Product(bounds)
    decreases |bounds|
  {
    var any: seq<nat> -> bool := c => true;
    assert Leading(bounds, any) == Streams(bounds);
    if bounds == [] {
      assert forall c :: Below(c, bounds) <==> c == [];
      assert Streams(bounds) == {[]};
    } else {
      var rest, m := bounds[..|bounds| - 1], bounds[|bounds| - 1];
      StreamCount(rest);
      assert bounds == rest + [m];
      CountByLast(rest, m, any);
      forall x | 0 <= x < m
        ensures CountAfter(rest, any)(x) == Product(rest)
      {
        assert Leading(rest, After(any, x)) == Streams(rest);
      }
      SumToAgrees(m, CountAfter(rest, any), LowWeight(m, Product(rest)));
      SumLow(m, m, Product(rest));
    }
  }

  lemma ProductAppend(bounds: seq<nat>, m: nat)
    ensures Product(bounds + [m]) == Product(bounds) * m
  {
    assert (bounds + [m])[..|bounds|] == bounds;
  }
}
