/** Bytes that a charge holds under a reservation that still holds them too are counted
    twice by the raw counters: by exactly how much, and that it can be everything. */
module MemoryOverlap {
  import opened Arithmetic
  import opened MachineInts
  import opened MemoryLimits
  import opened MemoryCounters
  import opened MemoryCovers
  import opened MemoryMachine
  import opened MemorySafety
  import opened MemoryRuns
  import opened MemoryUnbound
  import opened Sums

  ghost function RawUse(cfg: Config, st: State): (r: seq<int>)
    requires Shaped(cfg, st)
    ensures |r| == cfg.workers
    ensures forall w :: 0 <= w < cfg.workers ==>
              r[w] == st.c.shards[w + 1].retained + st.c.shards[w + 1].pending + st.c.shards[w + 1].fullsync
  {
    seq(cfg.workers, w requires 0 <= w < cfg.workers =>
      st.c.shards[w + 1].retained + st.c.shards[w + 1].pending + st.c.shards[w + 1].fullsync)
  }

  ghost function Overlap(cfg: Config, st: State): (r: seq<int>)
    requires Shaped(cfg, st)
    ensures |r| == cfg.workers && forall w :: 0 <= w < cfg.workers ==> r[w] == Covered(st, w + 1)
  {
    seq(cfg.workers, w requires 0 <= w < cfg.workers => Covered(st, w + 1))
  }

  /** Slot 0's retained bytes and all that the workers' counters show. */
  ghost function RawTotal(cfg: Config, st: State): int
    requires Shaped(cfg, st)
  {
    st.c.shards[0].retained + Sum(RawUse(cfg, st))
  }

  /** In every state of every run the raw counters exceed the limit by no more than
      the overlap; with no charge under an open reservation, not at all. */
  lemma EveryRunExceedsByOverlapOnly(cfg: Config, states: seq<State>, actions: seq<Action>, k: nat)
    requires cfg.Valid() && IsRun(cfg, states, actions) && k <= |actions| && cfg.Disciplined()
    ensures Shaped(cfg, states[k])
    ensures RawTotal(cfg, states[k]) == ProcessTotal(cfg, states[k]) + Sum(Overlap(cfg, states[k]))
    ensures RawTotal(cfg, states[k]) <= cfg.limit + Sum(Overlap(cfg, states[k]))
    ensures (forall n :: 0 <= n < |states[k].covers| ==> states[k].covers[n].bytes == 0) ==>
              RawTotal(cfg, states[k]) <= cfg.limit
  {
    var st := states[k];
    EveryRunStaysWithinLimit(cfg, states, actions, k);
    SumAdd(Use(cfg, st), Overlap(cfg, st), RawUse(cfg, st));
    if forall n :: 0 <= n < |st.covers| ==> st.covers[n].bytes == 0 {
      forall w | 0 <= w < cfg.workers
        ensures Overlap(cfg, st)[w] == 0
      {
        AmountZero(st.covers, OnSlot(w + 1));
      }
      SumZero(Overlap(cfg, st));
    }
  }

  /** The overlap is live: each part of it lies within bytes that a charge still holds
      and within bytes that an open reservation of the same slot still holds. */
  lemma EveryRunOverlapsLiveBytes(cfg: Config, states: seq<State>, actions: seq<Action>, k: nat)
    requires cfg.Valid() && Roomy(cfg) && IsRun(cfg, states, actions) && k <= |actions|
    ensures var st := states[k];
            (forall n :: 0 <= n < |st.covers| ==> CoverOk(st.covers[n], st.reservations, st.charges)) &&
            (forall j :: 0 <= j < |st.charges| ==> Amount(st.covers, OfCharge(j)) <= st.charges[j].bytes) &&
            (forall i :: 0 <= i < |st.reservations| ==> Amount(st.covers, Under(i)) <= st.reservations[i].bytes)
  {
    RunKeepsInv(cfg, states, actions, k);
  }

  // ----- every worker reserves its share, then accounts it before releasing

  ghost function ShareOf(cfg: Config, s: nat): u64
    requires cfg.Valid() && s > 0
  {
    DistributedShare(cfg.limit, s - 1, cfg.workers)
  }

  /** How many workers have a share: the first ones. */
  ghost function Sharing(cfg: Config): nat { if cfg.limit < cfg.workers then cfg.limit else cfg.workers }

  lemma SharesArePositive(cfg: Config, s: nat)
    requires cfg.Valid() && 0 < s <= cfg.workers
    ensures ShareOf(cfg, s) > 0 <==> s <= Sharing(cfg)
  {
    if cfg.limit < cfg.workers {
      QuotientIs(cfg.limit, cfg.workers, 0, cfg.limit);
    } else {
      QuotientIs(cfg.workers, cfg.workers, 1, 0);
      QuotientMonotone(cfg.workers, cfg.limit, cfg.workers);
    }
  }

  /** The first `k` workers have reserved and accounted their shares, and the charges of
      the first `r` of them are gone. */
  ghost function Filled(cfg: Config, k: nat, r: nat): (st: State)
    requires cfg.Valid() && r <= k <= cfg.workers
    ensures Shaped(cfg, st)
  {
    Init(cfg).(
      serving := true,
      c := Counters(seq(cfg.workers + 1, s requires 0 <= s < cfg.workers + 1 => ShardOf(cfg, k, r, s)),
                    seq(cfg.workers + 1, s requires 0 <= s < cfg.workers + 1 =>
                        if 0 < s <= k then Mirror(ShareOf(cfg, s), 0, 0) else Mirror(0, 0, 0)), false),
      reservations := seq(k, i requires 0 <= i < k => Reservation(ShareOf(cfg, i + 1), i + 1, true)),
      charges := seq(k, j requires 0 <= j < k => if j < r then EMPTY_CHARGE else Charge(j + 1, ShareOf(cfg, j + 1))),
      owned := seq(k, _ => true), covers := Covers(cfg, k, r))
  }

  ghost function ShardOf(cfg: Config, k: nat, r: nat, s: nat): Shard
    requires cfg.Valid()
  {
    if 0 < s <= k then Shard(if s <= r then 0 else ShareOf(cfg, s), ShareOf(cfg, s), 0, 0) else Shard(0, 0, 0, 0)
  }

  ghost function Covers(cfg: Config, k: nat, r: nat): seq<Cover>
    requires cfg.Valid()
  {
    seq(k, j requires 0 <= j < k => Cover(j, j, j + 1, if j < r then 0 else ShareOf(cfg, j + 1)))
  }

  ghost predicate Fills(cfg: Config, k: nat, r: nat)
    requires cfg.Valid() && r <= k <= cfg.workers
  {
    Reaches(cfg, Init(cfg), Filled(cfg, k, r))
  }

  lemma StartsServing(cfg: Config)
    requires cfg.Valid()
    ensures Fills(cfg, 0, 0)
  {
    var a := Init(cfg);
    assert Filled(cfg, 0, 0).c == a.c;
    assert Filled(cfg, 0, 0) == a.(serving := true);
    Stay(cfg, a);
    Then(cfg, a, a, StartServing, Filled(cfg, 0, 0));
  }

  lemma WorkerAdmitsItsShare(cfg: Config, k: nat)
    requires cfg.Valid() && k < Sharing(cfg) && Fills(cfg, k, 0)
    ensures Reaches(cfg, Init(cfg), WithPc(Filled(cfg, k, 0), k + 1, Admitted(Retention, ShareOf(cfg, k + 1))))
  {
    var st, s, share := Filled(cfg, k, 0), k + 1, ShareOf(cfg, k + 1);
    var saw, admitted := WithPc(st, s, SawShared(Retention, share, 0)), WithPc(st, s, Admitted(Retention, share));
    SharesArePositive(cfg, s);
    QuotientBelow(0, cfg.workers);
    Then(cfg, Init(cfg), st, ReadShared(s, Retention, share), saw);
    assert saw.pcs[s := Admitted(Retention, share)] == admitted.pcs;
    Then(cfg, Init(cfg), saw, Decide(s), admitted);
  }

  /** Worker `k + 1` has reserved its share and accounted nothing yet. */
  ghost function Booked(cfg: Config, k: nat): State
    requires cfg.Valid() && k < cfg.workers
  {
    var st := Filled(cfg, k, 0);
    st.(c := StorePending(st.c, k + 1, ShareOf(cfg, k + 1)),
        reservations := st.reservations + [Reservation(ShareOf(cfg, k + 1), k + 1, true)])
  }

  lemma WorkerReserves(cfg: Config, k: nat)
    requires cfg.Valid() && k < cfg.workers
    ensures StepsTo(cfg, WithPc(Filled(cfg, k, 0), k + 1, Admitted(Retention, ShareOf(cfg, k + 1))), Publish(k + 1),
                    Booked(cfg, k))
  {
    var st, s := Filled(cfg, k, 0), k + 1;
    assert st.pcs[s := Admitted(Retention, ShareOf(cfg, s))][s := Idle] == st.pcs;
  }

  lemma WorkerAccountsUnderIt(cfg: Config, k: nat)
    requires cfg.Valid() && k < Sharing(cfg)
    ensures StepsTo(cfg, Booked(cfg, k), AccountCovered(k, k + 1, ShareOf(cfg, k + 1), true), Filled(cfg, k + 1, 0))
  {
    var st, s := Booked(cfg, k), k + 1;
    SharesArePositive(cfg, s);
    AmountZero(st.covers, Under(k));
    AccountsShare(cfg, k);
  }

  lemma AccountsShare(cfg: Config, k: nat)
    requires cfg.Valid() && k < Sharing(cfg)
    ensures AfterAccount(cfg, Booked(cfg, k), k, ShareOf(cfg, k + 1), true) == Filled(cfg, k + 1, 0)
  {
    var st, s, next := Booked(cfg, k), k + 1, Filled(cfg, k + 1, 0);
    AccountsCounters(cfg, k);
    assert st.reservations == next.reservations;
    assert st.charges + [Charge(s, ShareOf(cfg, s))] == next.charges && st.owned + [true] == next.owned;
    assert st.covers + [Cover(k, k, s, ShareOf(cfg, s))] == next.covers;
  }

  lemma AccountsCounters(cfg: Config, k: nat)
    requires cfg.Valid() && k < Sharing(cfg)
    ensures AccountRetained(Booked(cfg, k).c, k + 1, ShareOf(cfg, k + 1)) == Filled(cfg, k + 1, 0).c
  {
    SharesArePositive(cfg, k + 1);
  }

  lemma {:induction false} WorkersFill(cfg: Config, k: nat)
    requires cfg.Valid() && k <= Sharing(cfg)
    ensures Fills(cfg, k, 0)
  {
    if k == 0 {
      StartsServing(cfg);
    } else {
      var a, last: nat := Init(cfg), k - 1;
      WorkersFill(cfg, last);
      WorkerAdmitsItsShare(cfg, last);
      WorkerReserves(cfg, last);
      Then(cfg, a, WithPc(Filled(cfg, last, 0), k, Admitted(Retention, ShareOf(cfg, k))), Publish(k),
           Booked(cfg, last));
      WorkerAccountsUnderIt(cfg, last);
      Then(cfg, a, Booked(cfg, last), AccountCovered(last, k, ShareOf(cfg, k), true), Filled(cfg, k, 0));
    }
  }

  lemma DoubledTotal(cfg: Config)
    requires cfg.Valid()
    ensures RawTotal(cfg, Filled(cfg, Sharing(cfg), 0)) == 2 * cfg.limit
  {
    var st, shares := Filled(cfg, Sharing(cfg), 0), Shares(cfg.limit, cfg.workers);
    forall w | 0 <= w < cfg.workers
      ensures RawUse(cfg, st)[w] == shares[w] + shares[w]
    {
      SharesArePositive(cfg, w + 1);
    }
    SumAdd(shares, shares, RawUse(cfg, st));
    SharesSumToTotal(cfg.limit, cfg.workers);
  }

  /** For every limit and every number of workers, a run whose counters show twice the
      limit. */
  lemma OverlapCountsTwice(cfg: Config)
    requires cfg.Valid()
    ensures var st := Filled(cfg, Sharing(cfg), 0);
            Reaches(cfg, Init(cfg), st) && RawTotal(cfg, st) == 2 * cfg.limit > cfg.limit
  {
    WorkersFill(cfg, Sharing(cfg));
    DoubledTotal(cfg);
  }

  // ----- the charges go, the reservations stay

  lemma ResetsNext(cfg: Config, r: nat)
    requires cfg.Valid() && r < Sharing(cfg)
    ensures AfterReset(cfg, Filled(cfg, Sharing(cfg), r), r) == Filled(cfg, Sharing(cfg), r + 1)
  {
    var n := Sharing(cfg);
    var st, next := Filled(cfg, n, r), Filled(cfg, n, r + 1);
    ResetsCounters(cfg, r);
    LowerOnly(st.covers, r, OfCharge(r));
    assert st.charges[r := EMPTY_CHARGE] == next.charges;
    assert st.covers[r := st.covers[r].(bytes := 0)] == next.covers;
  }

  lemma ResetsCounters(cfg: Config, r: nat)
    requires cfg.Valid() && r < Sharing(cfg)
    ensures ResetCharge(Filled(cfg, Sharing(cfg), r).c, Charge(r + 1, ShareOf(cfg, r + 1)))
         == (Filled(cfg, Sharing(cfg), r + 1).c, EMPTY_CHARGE)
  {
    var c, c' := Filled(cfg, Sharing(cfg), r).c, Filled(cfg, Sharing(cfg), r + 1).c;
    SharesArePositive(cfg, r + 1);
    assert ReleaseRetained(c, r + 1, ShareOf(cfg, r + 1)).shards == c'.shards && c.mirrors == c'.mirrors;
  }

  lemma {:induction false} ChargesGo(cfg: Config, r: nat)
    requires cfg.Valid() && r <= Sharing(cfg)
    ensures Fills(cfg, Sharing(cfg), r)
  {
    if r == 0 {
      WorkersFill(cfg, Sharing(cfg));
    } else {
      var n, last: nat := Sharing(cfg), r - 1;
      ChargesGo(cfg, last);
      ResetsNext(cfg, last);
      Then(cfg, Init(cfg), Filled(cfg, n, last), Reset(last), Filled(cfg, n, r));
    }
  }

  /** Giving the charges back ends the overlap: the reservations count again in full. */
  lemma ReservationOutlivesCharge(cfg: Config)
    requires cfg.Valid()
    ensures var st := Filled(cfg, Sharing(cfg), Sharing(cfg));
            Reaches(cfg, Init(cfg), st) && (forall j :: 0 <= j < |st.charges| ==> st.charges[j].bytes == 0) &&
            Sum(Overlap(cfg, st)) == 0 && ProcessTotal(cfg, st) == cfg.limit
  {
    var n := Sharing(cfg);
    var st, shares := Filled(cfg, n, n), Shares(cfg.limit, cfg.workers);
    ChargesGo(cfg, n);
    forall w | 0 <= w < cfg.workers
      ensures Overlap(cfg, st)[w] == 0 && Use(cfg, st)[w] == shares[w]
    {
      AmountZero(st.covers, OnSlot(w + 1));
      SharesArePositive(cfg, w + 1);
    }
    SumZero(Overlap(cfg, st));
    assert Use(cfg, st) == shares;
    SharesSumToTotal(cfg.limit, cfg.workers);
  }
}
