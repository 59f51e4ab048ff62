/** What threads without a worker must not do. If two of their operations overlap, or if
    one retains memory while workers serve, then for every worker count and every limit
    there is a run that ends above the limit. */
module MemoryUnbound {
  import opened MachineInts
  import opened MemoryLimits
  import opened MemoryCounters
  import opened MemoryCovers
  import opened MemoryMachine
  import opened MemoryRuns
  import opened Sums

  // ----- putting runs together

  ghost predicate Reaches(cfg: Config, a: State, b: State)
    requires cfg.Valid()
  {
    exists states, actions :: Continues(cfg, states, actions) && states[0] == a && states[|actions|] == b
  }

  lemma Stay(cfg: Config, a: State)
    requires cfg.Valid()
    ensures Reaches(cfg, a, a)
  {
    var states: seq<State>, actions: seq<Action> := [a], [];
    assert Continues(cfg, states, actions) && states[0] == a && states[|actions|] == a;
  }

  /** One step more. */
  lemma Then(cfg: Config, a: State, b: State, action: Action, c: State)
    requires cfg.Valid() && Reaches(cfg, a, b) && StepsTo(cfg, b, action, c)
    ensures Reaches(cfg, a, c)
  {
    var states, actions :| Continues(cfg, states, actions) && states[0] == a && states[|actions|] == b;
    var states', actions' := states + [c], actions + [action];
    forall k | 0 <= k < |actions'|
      ensures StepsTo(cfg, states'[k], actions'[k], states'[k + 1])
    {
      if k < |actions| { assert StepsTo(cfg, states[k], actions[k], states[k + 1]); }
    }
    assert Continues(cfg, states', actions') && states'[0] == a && states'[|actions'|] == c;
  }

  // ----- an unbound thread admits what it likes while nothing is accounted

  /** Nothing is left to read from counter `n` on. */
  ghost predicate NothingFrom(cfg: Config, c: Counters, n: nat) {
    c.Shaped(cfg.workers) &&
    forall m {:trigger Reading(c, cfg.workers, m)} :: n <= m < Readings(cfg.workers) ==> Reading(c, cfg.workers, m) == 0
  }

  lemma {:induction false} SumsNothing(cfg: Config, a: State, st: State, t: nat, bytes: u64, n: nat)
    requires cfg.Valid() && Shaped(cfg, st) && t < cfg.Threads() && n <= Readings(cfg.workers)
    requires NothingFrom(cfg, st.c, n)
    requires Reaches(cfg, a, WithPc(st, t, Summing(bytes, n, 0)))
    ensures Reaches(cfg, a, WithPc(st, t, Summing(bytes, Readings(cfg.workers), 0)))
    decreases Readings(cfg.workers) - n
  {
    if n < Readings(cfg.workers) {
      var b, c := WithPc(st, t, Summing(bytes, n, 0)), WithPc(st, t, Summing(bytes, n + 1, 0));
      assert Reading(st.c, cfg.workers, n) == 0;
      assert b.pcs[t := Summing(bytes, n + 1, 0)] == c.pcs;
      Then(cfg, a, b, ReadNext(t), c);
      SumsNothing(cfg, a, st, t, bytes, n + 1);
    }
  }

  /** And is then admitted. */
  lemma AdmitsAfter(cfg: Config, a: State, st: State, t: nat, bytes: u64, n: nat)
    requires cfg.Valid() && Shaped(cfg, st) && t < cfg.Threads() && n <= Readings(cfg.workers)
    requires NothingFrom(cfg, st.c, n)
    requires bytes <= cfg.limit && Reaches(cfg, a, WithPc(st, t, Summing(bytes, n, 0)))
    ensures Reaches(cfg, a, WithPc(st, t, Admitted(Retention, bytes)))
  {
    SumsNothing(cfg, a, st, t, bytes, n);
    var b, c := WithPc(st, t, Summing(bytes, Readings(cfg.workers), 0)), WithPc(st, t, Admitted(Retention, bytes));
    assert b.pcs[t := Admitted(Retention, bytes)] == c.pcs;
    Then(cfg, a, b, DecideUnbound(t), c);
  }

  lemma AdmitsWhenEmpty(cfg: Config, a: State, st: State, t: nat, bytes: u64)
    requires cfg.Valid() && Shaped(cfg, st) && st.c == EmptyCounters(cfg.workers) && IdleOn(cfg, st, t, 0)
    requires 0 < bytes <= cfg.limit && Reaches(cfg, a, st)
    ensures Reaches(cfg, a, WithPc(st, t, Admitted(Retention, bytes)))
  {
    Then(cfg, a, st, BeginSum(t, bytes), WithPc(st, t, Summing(bytes, 0, 0)));
    AdmitsAfter(cfg, a, st, t, bytes, 0);
  }

  // ----- publishing and committing

  /** What a run made of admissions and commits alone can look like. */
  ghost function At(cfg: Config, c: Counters, pcs: seq<Pc>, rs: seq<Reservation>, cs: seq<Charge>, serving: bool): State
  {
    Init(cfg).(c := c, pcs := pcs, reservations := rs, charges := cs, owned := seq(|cs|, _ => false),
               serving := serving)
  }

  lemma Publishes(cfg: Config, c: Counters, pcs: seq<Pc>, rs: seq<Reservation>, cs: seq<Charge>, serving: bool, t: nat,
      bytes: u64)
    requires cfg.Valid() && t < cfg.Threads() && Shaped(cfg, At(cfg, c, pcs, rs, cs, serving))
    requires pcs[t] == Admitted(Retention, bytes)
    ensures var s := cfg.SlotOf(t);
            StepsTo(cfg, At(cfg, c, pcs, rs, cs, serving), Publish(t),
                    At(cfg, AddPending(c, s, bytes), pcs[t := Idle], rs + [Reservation(bytes, s, true)], cs, serving))
  {
  }

  lemma BeginsCommit(cfg: Config, c: Counters, pcs: seq<Pc>, rs: seq<Reservation>, cs: seq<Charge>, serving: bool,
      i: nat, t: nat)
    requires cfg.Valid() && t < cfg.Threads() && Shaped(cfg, At(cfg, c, pcs, rs, cs, serving)) && pcs[t] == Idle
    requires i < |rs| && rs[i].admitted && rs[i].bytes > 0 && rs[i].shard == cfg.SlotOf(t)
    requires MayRetain(cfg, serving, rs[i].shard)
    ensures StepsTo(cfg, At(cfg, c, pcs, rs, cs, serving), BeginCommit(i, t, rs[i].bytes, Explicit),
                    At(cfg, DropPending(c, rs[i].shard, rs[i].bytes), pcs[t := Retaining(Explicit, rs[i].bytes)],
                       rs[i := Reservation(0, rs[i].shard, false)], cs, serving))
  {
    assert Close([], i) == [];
  }

  lemma FinishesCommit(cfg: Config, c: Counters, pcs: seq<Pc>, rs: seq<Reservation>, cs: seq<Charge>, serving: bool,
      t: nat, bytes: u64)
    requires cfg.Valid() && t < cfg.Threads() && Shaped(cfg, At(cfg, c, pcs, rs, cs, serving))
    requires pcs[t] == Retaining(Explicit, bytes)
    ensures var s := cfg.SlotOf(t);
            StepsTo(cfg, At(cfg, c, pcs, rs, cs, serving), FinishRetain(t),
                    At(cfg, AccountRetained(c, s, bytes), pcs[t := Idle], rs, cs + [Charge(s, bytes)], serving))
  {
    assert seq(|cs|, _ => false) + [false] == seq(|cs + [Charge(cfg.SlotOf(t), bytes)]|, _ => false);
  }

  // ----- two unbound operations overlap before anything is served

  /** Two threads decide on the limit and on `bytes`, then publish, then commit. */
  ghost function Raced(cfg: Config, bytes: u64): Counters
    requires cfg.Valid()
  {
    var L := cfg.limit;
    var pending := AddPending(AddPending(EmptyCounters(cfg.workers), 0, L), 0, bytes);
    var first := AccountRetained(DropPending(pending, 0, L), 0, L);
    AccountRetained(DropPending(first, 0, bytes), 0, bytes)
  }

  lemma RacedCounts(cfg: Config, bytes: u64)
    requires cfg.Valid() && 0 < bytes <= cfg.limit
    ensures var c := Raced(cfg, bytes);
            c.Shaped(cfg.workers) && c.shards[0].retained == WrappingAdd(cfg.limit, bytes) &&
            c.aborted == (cfg.limit + bytes > U64_MAX) &&
            forall w :: 0 < w <= cfg.workers ==> c.shards[w] == Shard(0, 0, 0, 0)
  {
  }

  ghost predicate RaceEnds(cfg: Config, bytes: u64, st: State)
    requires cfg.Valid()
  {
    Shaped(cfg, st) && st.c == Raced(cfg, bytes) && st.covers == []
  }

  lemma RaceAdmits(cfg: Config, bytes: u64)
    requires cfg.Valid() && cfg.unbound > 1 && 0 < bytes <= cfg.limit
    ensures var pcs := Init(cfg).pcs[0 := Admitted(Retention, cfg.limit)];
            Reaches(cfg, Init(cfg), At(cfg, EmptyCounters(cfg.workers),
                                       pcs[cfg.workers + 1 := Admitted(Retention, bytes)], [], [], false))
  {
    var a, L, u := Init(cfg), cfg.limit, cfg.workers + 1;
    Stay(cfg, a);
    AdmitsWhenEmpty(cfg, a, a, 0, L);
    AdmitsWhenEmpty(cfg, a, WithPc(a, 0, Admitted(Retention, L)), u, bytes);
    assert WithPc(WithPc(a, 0, Admitted(Retention, L)), u, Admitted(Retention, bytes))
        == At(cfg, a.c, a.pcs[0 := Admitted(Retention, L)][u := Admitted(Retention, bytes)], [], [], false);
  }

  lemma RacePublishes(cfg: Config, bytes: u64, pcs: seq<Pc>, a: State) returns (pcs': seq<Pc>)
    requires cfg.Valid() && cfg.unbound > 1 && 0 < bytes <= cfg.limit && |pcs| == cfg.Threads()
    requires pcs[0] == Admitted(Retention, cfg.limit) && pcs[cfg.workers + 1] == Admitted(Retention, bytes)
    requires Reaches(cfg, a, At(cfg, EmptyCounters(cfg.workers), pcs, [], [], false))
    ensures |pcs'| == cfg.Threads() && pcs'[0] == Idle == pcs'[cfg.workers + 1]
    ensures Reaches(cfg, a, At(cfg, AddPending(AddPending(EmptyCounters(cfg.workers), 0, cfg.limit), 0, bytes), pcs',
                               [Reservation(cfg.limit, 0, true), Reservation(bytes, 0, true)], [], false))
  {
    var c, L, u := EmptyCounters(cfg.workers), cfg.limit, cfg.workers + 1;
    Publishes(cfg, c, pcs, [], [], false, 0, L);
    var rs := [] + [Reservation(L, 0, true)];
    Then(cfg, a, At(cfg, c, pcs, [], [], false), Publish(0),
         At(cfg, AddPending(c, 0, L), pcs[0 := Idle], rs, [], false));
    var c1, pcs1 := AddPending(c, 0, L), pcs[0 := Idle];
    Publishes(cfg, c1, pcs1, rs, [], false, u, bytes);
    pcs' := pcs1[u := Idle];
    var rs' := rs + [Reservation(bytes, 0, true)];
    assert rs' == [Reservation(L, 0, true), Reservation(bytes, 0, true)];
    Then(cfg, a, At(cfg, c1, pcs1, rs, [], false), Publish(u), At(cfg, AddPending(c1, 0, bytes), pcs', rs', [], false));
  }

  lemma Commits(cfg: Config, a: State, c: Counters, pcs: seq<Pc>, rs: seq<Reservation>, cs: seq<Charge>, serving: bool,
      i: nat, t: nat)
    requires cfg.Valid() && t < cfg.Threads() && Shaped(cfg, At(cfg, c, pcs, rs, cs, serving)) && pcs[t] == Idle
    requires i < |rs| && rs[i].admitted && rs[i].bytes > 0 && rs[i].shard == cfg.SlotOf(t)
    requires MayRetain(cfg, serving, rs[i].shard)
    requires Reaches(cfg, a, At(cfg, c, pcs, rs, cs, serving))
    ensures var s, bytes := rs[i].shard, rs[i].bytes;
            Reaches(cfg, a, At(cfg, AccountRetained(DropPending(c, s, bytes), s, bytes), pcs,
                               rs[i := Reservation(0, s, false)], cs + [Charge(s, bytes)], serving))
  {
    var s, bytes := rs[i].shard, rs[i].bytes;
    var c1, pcs1 := DropPending(c, s, bytes), pcs[t := Retaining(Explicit, bytes)];
    var rs1 := rs[i := Reservation(0, s, false)];
    BeginsCommit(cfg, c, pcs, rs, cs, serving, i, t);
    Then(cfg, a, At(cfg, c, pcs, rs, cs, serving), BeginCommit(i, t, bytes, Explicit),
         At(cfg, c1, pcs1, rs1, cs, serving));
    FinishesCommit(cfg, c1, pcs1, rs1, cs, serving, t, bytes);
    assert pcs1[t := Idle] == pcs;
    Then(cfg, a, At(cfg, c1, pcs1, rs1, cs, serving), FinishRetain(t),
         At(cfg, AccountRetained(c1, s, bytes), pcs, rs1, cs + [Charge(s, bytes)], serving));
  }

  lemma OverlapRuns(cfg: Config, bytes: u64) returns (st: State)
    requires cfg.Valid() && cfg.unbound > 1 && 0 < bytes <= cfg.limit
    ensures Reaches(cfg, Init(cfg), st) && RaceEnds(cfg, bytes, st)
  {
    var a, L, u := Init(cfg), cfg.limit, cfg.workers + 1;
    RaceAdmits(cfg, bytes);
    var pcs := RacePublishes(cfg, bytes, a.pcs[0 := Admitted(Retention, L)][u := Admitted(Retention, bytes)], a);
    var rs := [Reservation(L, 0, true), Reservation(bytes, 0, true)];
    var c := AddPending(AddPending(a.c, 0, L), 0, bytes);
    Commits(cfg, a, c, pcs, rs, [], false, 0, 0);
    var c1 := AccountRetained(DropPending(c, 0, L), 0, L);
    var rs1, cs1 := rs[0 := Reservation(0, 0, false)], [] + [Charge(0, L)];
    Commits(cfg, a, c1, pcs, rs1, cs1, false, 1, u);
    st := At(cfg, AccountRetained(DropPending(c1, 0, bytes), 0, bytes), pcs,
             rs1[1 := Reservation(0, 0, false)], cs1 + [Charge(0, bytes)], false);
  }

  // ----- an unbound thread retains while workers serve

  /** It decides on the whole limit, worker 1 takes a byte, and it then commits. */
  lemma RetentionRuns(cfg: Config) returns (st: State)
    requires cfg.Valid() && cfg.unboundRetains
    ensures Reaches(cfg, Init(cfg), st) && Shaped(cfg, st) && st.covers == []
    ensures st.c.shards[0].retained == cfg.limit && st.c.shards[1].pending == 1
  {
    var a, L := Init(cfg), cfg.limit;
    ServingAdmits(cfg);
    var pcs := WorkerTakesByte(cfg, a, a.pcs[0 := Admitted(Retention, L)]);
    var rs, c := [Reservation(1, 1, true)], AddPending(a.c, 1, 1);
    Publishes(cfg, c, pcs, rs, [], true, 0, L);
    var c1, pcs1, rs1 := AddPending(c, 0, L), pcs[0 := Idle], rs + [Reservation(L, 0, true)];
    Then(cfg, a, At(cfg, c, pcs, rs, [], true), Publish(0), At(cfg, c1, pcs1, rs1, [], true));
    Commits(cfg, a, c1, pcs1, rs1, [], true, 1, 0);
    st := At(cfg, AccountRetained(DropPending(c1, 0, L), 0, L), pcs1, rs1[1 := Reservation(0, 0, false)],
             [] + [Charge(0, L)], true);
    RetentionCounts(cfg);
  }

  lemma RetentionCounts(cfg: Config)
    requires cfg.Valid()
    ensures var c := AddPending(AddPending(EmptyCounters(cfg.workers), 1, 1), 0, cfg.limit);
            var c' := AccountRetained(DropPending(c, 0, cfg.limit), 0, cfg.limit);
            c.Shaped(cfg.workers) && c'.Shaped(cfg.workers) &&
            c'.shards[0].retained == cfg.limit && c'.shards[1].pending == 1
  {
  }

  lemma ServingAdmits(cfg: Config)
    requires cfg.Valid()
    ensures Reaches(cfg, Init(cfg), At(cfg, EmptyCounters(cfg.workers),
                                       Init(cfg).pcs[0 := Admitted(Retention, cfg.limit)], [], [], true))
  {
    var a := Init(cfg);
    var served := At(cfg, a.c, a.pcs, [], [], true);
    assert served == a.(serving := true);
    Stay(cfg, a);
    Then(cfg, a, a, StartServing, served);
    AdmitsWhenEmpty(cfg, a, served, 0, cfg.limit);
  }

  lemma FirstShareIsPositive(total: u64, workers: nat)
    requires workers > 0 && total > 0
    ensures DistributedShare(total, 0, workers) >= 1 && DistributedShare(0, 0, workers) == 0
  {
    QuotientBelow(total, workers);
  }

  lemma WorkerTakesByte(cfg: Config, a: State, pcs: seq<Pc>) returns (pcs': seq<Pc>)
    requires cfg.Valid() && |pcs| == cfg.Threads() && pcs[1] == Idle
    requires Reaches(cfg, a, At(cfg, EmptyCounters(cfg.workers), pcs, [], [], true))
    ensures |pcs'| == cfg.Threads() && pcs'[0] == pcs[0]
    ensures Reaches(cfg, a, At(cfg, AddPending(EmptyCounters(cfg.workers), 1, 1), pcs',
                               [Reservation(1, 1, true)], [], true))
  {
    var c := EmptyCounters(cfg.workers);
    var st := At(cfg, c, pcs, [], [], true);
    var saw, admitted := WithPc(st, 1, SawShared(Retention, 1, 0)), WithPc(st, 1, Admitted(Retention, 1));
    Then(cfg, a, st, ReadShared(1, Retention, 1), saw);
    FirstShareIsPositive(cfg.limit, cfg.workers);
    assert saw.pcs[1 := Admitted(Retention, 1)] == admitted.pcs;
    Then(cfg, a, saw, Decide(1), admitted);
    Publishes(cfg, c, admitted.pcs, [], [], true, 1, 1);
    pcs' := admitted.pcs[1 := Idle];
    assert [] + [Reservation(1, 1, true)] == [Reservation(1, 1, true)];
    Then(cfg, a, admitted, Publish(1), At(cfg, AddPending(c, 1, 1), pcs', [Reservation(1, 1, true)], [], true));
  }

  // ----- the theorems

  ghost predicate AllRunsWithinLimit(cfg: Config)
    requires cfg.Valid()
  {
    forall states, actions :: IsRun(cfg, states, actions) ==>
      Shaped(cfg, states[|actions|]) && ProcessTotal(cfg, states[|actions|]) <= cfg.limit
  }

  /** Without covers, a worker's use is what its counters show. */
  lemma TotalAbove(cfg: Config, st: State, w: nat)
    requires cfg.Valid() && Shaped(cfg, st) && st.covers == [] && 0 < w <= cfg.workers
    ensures ProcessTotal(cfg, st) >= st.c.shards[0].retained + st.c.shards[w].pending
  {
    SumBoundsEntry(Use(cfg, st), w - 1);
  }

  lemma OverlapExceedsLimit(cfg: Config)
    requires cfg.Valid() && cfg.unbound > 1
    ensures !AllRunsWithinLimit(cfg)
  {
    var st := OverlapRuns(cfg, 1);
    RacedCounts(cfg, 1);
    TotalAbove(cfg, st, 1);
    var states, actions :| Continues(cfg, states, actions) && states[0] == Init(cfg) && states[|actions|] == st;
    assert IsRun(cfg, states, actions);
  }

  lemma RetentionExceedsLimit(cfg: Config)
    requires cfg.Valid() && cfg.unboundRetains
    ensures !AllRunsWithinLimit(cfg)
  {
    var st := RetentionRuns(cfg);
    TotalAbove(cfg, st, 1);
    var states, actions :| Continues(cfg, states, actions) && states[0] == Init(cfg) && states[|actions|] == st;
    assert IsRun(cfg, states, actions);
  }

  /** The limit holds over all runs exactly when unbound operations do not overlap and
      none of them retains memory while workers serve. */
  lemma LimitHoldsExactlyWhenDisciplined(cfg: Config)
    requires cfg.Valid()
    ensures AllRunsWithinLimit(cfg) <==> cfg.unbound == 1 && !cfg.unboundRetains
  {
    if cfg.unbound > 1 {
      OverlapExceedsLimit(cfg);
    } else if cfg.unboundRetains {
      RetentionExceedsLimit(cfg);
    } else {
      forall states, actions | IsRun(cfg, states, actions)
        ensures Shaped(cfg, states[|actions|]) && ProcessTotal(cfg, states[|actions|]) <= cfg.limit
      {
        EveryRunStaysWithinLimit(cfg, states, actions, |actions|);
      }
    }
  }
}
