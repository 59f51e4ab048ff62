/** How far overlapping unbound operations can drive slot 0. All M of them decide on the
    limit before any publishes. All but one then begin again and read that nothing is
    retained. The last one commits everything that is pending; the others read that
    nothing is pending, and commit too. That is 2 * M - 1 times the limit, and no run
    gets further. */
module MemoryAbort {
  import opened Arithmetic
  import opened MachineInts
  import opened MemoryCounters
  import opened MemoryMachine
  import opened MemorySafety
  import opened MemoryRuns
  import opened MemoryUnbound

  // ----- the states of that run

  ghost function UnboundThread(cfg: Config, j: nat): nat { if j == 0 then 0 else cfg.workers + j }

  /** The first `k` unbound threads are at `pc`, all other threads idle. */
  ghost function Line(cfg: Config, k: nat, pc: Pc): (pcs: seq<Pc>)
    ensures |pcs| == cfg.Threads()
  {
    seq(cfg.Threads(), t requires 0 <= t < cfg.Threads() =>
      if cfg.SlotOf(t) == 0 && (if t == 0 then 0 else t - cfg.workers) < k then pc else Idle)
  }

  lemma LineGrows(cfg: Config, k: nat, pc: Pc)
    requires cfg.Valid() && k < cfg.unbound
    ensures UnboundThread(cfg, k) < cfg.Threads() && cfg.SlotOf(UnboundThread(cfg, k)) == 0
    ensures Line(cfg, k, pc)[UnboundThread(cfg, k)] == Idle && Line(cfg, k + 1, pc)[UnboundThread(cfg, k)] == pc
    ensures Line(cfg, k + 1, pc) == Line(cfg, k, pc)[UnboundThread(cfg, k) := pc]
    ensures Line(cfg, k, pc) == Line(cfg, k + 1, pc)[UnboundThread(cfg, k) := Idle]
  {
  }

  /** The limit added up `n` times, as a counter shows it. */
  ghost function Shown(cfg: Config, n: nat): u64 {
    if n == 0 then 0 else WrappingAdd(Shown(cfg, n - 1), cfg.limit)
  }

  /** Whether one of `n` such additions wrapped. */
  ghost predicate Wraps(cfg: Config, n: nat) {
    n > 0 && (Wraps(cfg, n - 1) || Shown(cfg, n - 1) + cfg.limit > U64_MAX)
  }

  lemma {:induction false} ShownIsProduct(cfg: Config, n: nat)
    ensures Wraps(cfg, n) <==> n * cfg.limit > U64_MAX
    ensures !Wraps(cfg, n) ==> Shown(cfg, n) == n * cfg.limit
  {
    if n > 0 {
      OneMore(n - 1, cfg.limit);
      ShownIsProduct(cfg, n - 1);
    }
  }

  /** `spent` commits of the limit, and `open` reservations of it. */
  ghost function Counted(cfg: Config, spent: nat, open: nat): (c: Counters)
    ensures c.Shaped(cfg.workers)
  {
    var c := EmptyCounters(cfg.workers);
    c.(shards := c.shards[0 := Shard(Shown(cfg, spent), Shown(cfg, open), 0, 0)], aborted := Wraps(cfg, spent))
  }

  ghost function Tokens(cfg: Config, spent: nat, open: nat): seq<Reservation> {
    seq(spent, _ => Reservation(0, 0, false)) + seq(open, _ => Reservation(cfg.limit, 0, true))
  }

  ghost function Stage(cfg: Config, pcs: seq<Pc>, spent: nat, open: nat): State {
    At(cfg, Counted(cfg, spent, open), pcs, Tokens(cfg, spent, open), seq(spent, _ => Charge(0, cfg.limit)), false)
  }

  ghost predicate Gets(cfg: Config, pcs: seq<Pc>, spent: nat, open: nat)
    requires cfg.Valid()
  {
    |pcs| == cfg.Threads() && Reaches(cfg, Init(cfg), Stage(cfg, pcs, spent, open))
  }

  // ----- publishing and committing, one reservation at a time

  lemma PublishCounts(cfg: Config, spent: nat, open: nat)
    ensures AddPending(Counted(cfg, spent, open), 0, cfg.limit) == Counted(cfg, spent, open + 1)
    ensures Tokens(cfg, spent, open) + [Reservation(cfg.limit, 0, true)] == Tokens(cfg, spent, open + 1)
  {
  }

  lemma PublishesOne(cfg: Config, pcs: seq<Pc>, t: nat, spent: nat, open: nat)
    requires cfg.Valid() && Gets(cfg, pcs, spent, open) && t < cfg.Threads() && cfg.SlotOf(t) == 0
    requires pcs[t] == Admitted(Retention, cfg.limit)
    ensures Gets(cfg, pcs[t := Idle], spent, open + 1)
  {
    var st := Stage(cfg, pcs, spent, open);
    PublishCounts(cfg, spent, open);
    Publishes(cfg, st.c, pcs, st.reservations, st.charges, false, t, cfg.limit);
    Then(cfg, Init(cfg), st, Publish(t), Stage(cfg, pcs[t := Idle], spent, open + 1));
  }

  lemma CommitCounts(cfg: Config, spent: nat, open: nat)
    requires cfg.Valid()
    ensures AccountRetained(DropPending(Counted(cfg, spent, open + 1), 0, cfg.limit), 0, cfg.limit)
         == Counted(cfg, spent + 1, open)
  {
  }

  lemma CommitTokens(cfg: Config, spent: nat, open: nat)
    ensures Tokens(cfg, spent, open + 1)[spent] == Reservation(cfg.limit, 0, true)
    ensures Tokens(cfg, spent, open + 1)[spent := Reservation(0, 0, false)] == Tokens(cfg, spent + 1, open)
    ensures seq(spent, _ => Charge(0, cfg.limit)) + [Charge(0, cfg.limit)] == seq(spent + 1, _ => Charge(0, cfg.limit))
  {
  }

  lemma CommitsOne(cfg: Config, pcs: seq<Pc>, t: nat, spent: nat, open: nat)
    requires cfg.Valid() && Gets(cfg, pcs, spent, open + 1) && t < cfg.Threads() && cfg.SlotOf(t) == 0 && pcs[t] == Idle
    ensures Gets(cfg, pcs, spent + 1, open)
  {
    var st := Stage(cfg, pcs, spent, open + 1);
    CommitCounts(cfg, spent, open);
    CommitTokens(cfg, spent, open);
    Commits(cfg, Init(cfg), st.c, pcs, st.reservations, st.charges, false, spent, t);
  }

  lemma {:induction false} CommitsAll(cfg: Config, pcs: seq<Pc>, t: nat, spent: nat, open: nat, all: nat)
    requires cfg.Valid() && Gets(cfg, pcs, spent, open) && t < cfg.Threads() && cfg.SlotOf(t) == 0 && pcs[t] == Idle
    requires spent + open == all
    ensures Gets(cfg, pcs, all, 0)
    decreases open
  {
    if open > 0 {
      var rest: nat := open - 1;
      CommitsOne(cfg, pcs, t, spent, rest);
      CommitsAll(cfg, pcs, t, spent + 1, rest, all);
    }
  }

  // ----- all of them admit, then publish

  lemma {:induction false} AllAdmit(cfg: Config, k: nat)
    requires cfg.Valid() && k <= cfg.unbound
    ensures Gets(cfg, Line(cfg, k, Admitted(Retention, cfg.limit)), 0, 0)
  {
    var pc, a := Admitted(Retention, cfg.limit), Init(cfg);
    if k == 0 {
      Stay(cfg, a);
      assert Stage(cfg, Line(cfg, 0, pc), 0, 0) == a;
    } else {
      AllAdmit(cfg, k - 1);
      LineGrows(cfg, k - 1, pc);
      var st, t := Stage(cfg, Line(cfg, k - 1, pc), 0, 0), UnboundThread(cfg, k - 1);
      assert st.c == EmptyCounters(cfg.workers);
      AdmitsWhenEmpty(cfg, a, st, t, cfg.limit);
      assert WithPc(st, t, pc) == Stage(cfg, Line(cfg, k, pc), 0, 0);
    }
  }

  lemma {:induction false} AllPublish(cfg: Config, k: nat)
    requires cfg.Valid() && k <= cfg.unbound
    ensures Gets(cfg, Line(cfg, cfg.unbound - k, Admitted(Retention, cfg.limit)), 0, k)
  {
    if k == 0 {
      AllAdmit(cfg, cfg.unbound);
    } else {
      AllPublish(cfg, k - 1);
      LineGrows(cfg, cfg.unbound - k, Admitted(Retention, cfg.limit));
      var pcs := Line(cfg, cfg.unbound - k + 1, Admitted(Retention, cfg.limit));
      PublishesOne(cfg, pcs, UnboundThread(cfg, cfg.unbound - k), 0, k - 1);
    }
  }

  // ----- all but one begin again, and find nothing retained

  lemma {:induction false} OthersBegin(cfg: Config, k: nat)
    requires cfg.Valid() && k < cfg.unbound
    ensures Gets(cfg, Line(cfg, k, Summing(cfg.limit, 1, 0)), 0, cfg.unbound)
  {
    var pc := Summing(cfg.limit, 1, 0);
    if k == 0 {
      AllPublish(cfg, cfg.unbound);
      assert Line(cfg, 0, pc) == Line(cfg, 0, Admitted(Retention, cfg.limit));
    } else {
      OthersBegin(cfg, k - 1);
      LineGrows(cfg, k - 1, pc);
      BeginsAgain(cfg, Line(cfg, k - 1, pc), UnboundThread(cfg, k - 1));
    }
  }

  lemma BeginsAgain(cfg: Config, pcs: seq<Pc>, t: nat)
    requires cfg.Valid() && Gets(cfg, pcs, 0, cfg.unbound) && t < cfg.Threads() && cfg.SlotOf(t) == 0 && pcs[t] == Idle
    ensures Gets(cfg, pcs[t := Summing(cfg.limit, 1, 0)], 0, cfg.unbound)
  {
    var a, st := Init(cfg), Stage(cfg, pcs, 0, cfg.unbound);
    var b, c := WithPc(st, t, Summing(cfg.limit, 0, 0)), WithPc(st, t, Summing(cfg.limit, 1, 0));
    Then(cfg, a, st, BeginSum(t, cfg.limit), b);
    assert b.pcs[t := Summing(cfg.limit, 1, 0)] == c.pcs;
    Then(cfg, a, b, ReadNext(t), c);
    assert c == Stage(cfg, c.pcs, 0, cfg.unbound);
  }

  // ----- the last one commits everything, and the others then finish

  lemma Finishes(cfg: Config, pcs: seq<Pc>, t: nat, spent: nat)
    requires cfg.Valid() && Gets(cfg, pcs, spent, 0) && t < cfg.Threads() && cfg.SlotOf(t) == 0
    requires pcs[t] == Summing(cfg.limit, 1, 0)
    ensures Gets(cfg, pcs[t := Idle], spent + 1, 0)
  {
    var st, pc := Stage(cfg, pcs, spent, 0), Admitted(Retention, cfg.limit);
    assert st == WithPc(st, t, Summing(cfg.limit, 1, 0));
    NothingElse(cfg, spent);
    AdmitsAfter(cfg, Init(cfg), st, t, cfg.limit, 1);
    assert WithPc(st, t, pc) == Stage(cfg, pcs[t := pc], spent, 0);
    PublishesOne(cfg, pcs[t := pc], t, spent, 0);
    assert pcs[t := pc][t := Idle] == pcs[t := Idle];
    CommitsOne(cfg, pcs[t := Idle], t, spent, 0);
  }

  lemma NothingElse(cfg: Config, spent: nat)
    requires cfg.Valid()
    ensures NothingFrom(cfg, Counted(cfg, spent, 0), 1)
  {
  }

  lemma LastCommits(cfg: Config)
    requires cfg.Valid()
    ensures Gets(cfg, Line(cfg, cfg.unbound - 1, Summing(cfg.limit, 1, 0)), cfg.unbound, 0)
  {
    var last := cfg.unbound - 1;
    OthersBegin(cfg, last);
    LineGrows(cfg, last, Summing(cfg.limit, 1, 0));
    CommitsAll(cfg, Line(cfg, last, Summing(cfg.limit, 1, 0)), UnboundThread(cfg, last), 0, cfg.unbound,
               cfg.unbound);
  }

  lemma {:induction false} OthersFinish(cfg: Config, k: nat, spent: nat, all: nat)
    requires cfg.Valid() && k < cfg.unbound && Gets(cfg, Line(cfg, k, Summing(cfg.limit, 1, 0)), spent, 0)
    requires spent + k == all
    ensures Gets(cfg, Line(cfg, 0, Summing(cfg.limit, 1, 0)), all, 0)
    decreases k
  {
    if k > 0 {
      var left: nat := k - 1;
      NextFinishes(cfg, left, spent);
      OthersFinish(cfg, left, spent + 1, all);
    }
  }

  lemma NextFinishes(cfg: Config, k: nat, spent: nat)
    requires cfg.Valid() && k < cfg.unbound && Gets(cfg, Line(cfg, k + 1, Summing(cfg.limit, 1, 0)), spent, 0)
    ensures Gets(cfg, Line(cfg, k, Summing(cfg.limit, 1, 0)), spent + 1, 0)
  {
    LineGrows(cfg, k, Summing(cfg.limit, 1, 0));
    Finishes(cfg, Line(cfg, k + 1, Summing(cfg.limit, 1, 0)), UnboundThread(cfg, k), spent);
  }

  // ----- the theorems

  /** A run fills slot 0 to its capacity, or aborts on the way. */
  lemma OverlapFillsSlotZero(cfg: Config) returns (st: State)
    requires cfg.Valid()
    ensures Reaches(cfg, Init(cfg), st) && Shaped(cfg, st)
    ensures st.c.aborted <==> (2 * cfg.unbound - 1) * cfg.limit > U64_MAX
    ensures !st.c.aborted ==> st.c.shards[0].retained == (2 * cfg.unbound - 1) * cfg.limit == Capacity(cfg, 0)
  {
    var spent := 2 * cfg.unbound - 1;
    LastCommits(cfg);
    OthersFinish(cfg, cfg.unbound - 1, cfg.unbound, spent);
    st := Stage(cfg, Line(cfg, 0, Summing(cfg.limit, 1, 0)), spent, 0);
    CapacityIsMultiple(cfg);
    ShownIsProduct(cfg, spent);
  }

  ghost predicate AllRunsConserve(cfg: Config)
    requires cfg.Valid()
  {
    forall states: seq<State>, actions: seq<Action> :: IsRun(cfg, states, actions) ==>
      CountersMatchTokens(cfg, states[|actions|]) && !states[|actions|].c.aborted
  }

  /** Over all runs the counters are exact and the process never aborts exactly when
      2 * M - 1 times the limit fits in 64 bits, for M overlapping unbound operations. */
  lemma CountersHoldExactlyWhenRoomy(cfg: Config)
    requires cfg.Valid()
    ensures AllRunsConserve(cfg) <==> (2 * cfg.unbound - 1) * cfg.limit <= U64_MAX
  {
    CapacityIsMultiple(cfg);
    if (2 * cfg.unbound - 1) * cfg.limit <= U64_MAX {
      forall states: seq<State>, actions: seq<Action> | IsRun(cfg, states, actions)
        ensures CountersMatchTokens(cfg, states[|actions|]) && !states[|actions|].c.aborted
      {
        EveryRunConservesBytes(cfg, states, actions, |actions|);
      }
    } else {
      var st := OverlapFillsSlotZero(cfg);
      var states, actions :| Continues(cfg, states, actions) && states[0] == Init(cfg) && states[|actions|] == st;
      assert IsRun(cfg, states, actions);
    }
  }
}
