/** Each method of `MemoryTokens` is a run of the machine: its steps are enabled one
    after the other, and undisturbed they end with the counters and the token that the
    method is proved to leave. */
module MemoryRefinement {
  import opened MachineInts
  import opened MemoryCounters
  import opened MemoryCovers
  import opened MemoryMachine
  import opened MemoryUnbound
  import opened Sums

  // ----- a worker's admission

  /** The bytes are reserved, or granted as full-sync credit. */
  ghost function AdmittedState(st: State, s: nat, kind: Kind, bytes: u64): State
    requires s < |st.c.shards| == |st.c.mirrors| == |st.granted|
  {
    if kind == Retention then
      st.(c := AddPending(st.c, s, bytes), reservations := st.reservations + [Reservation(bytes, s, true)])
    else st.(c := AddFullSync(st.c, s, bytes), granted := st.granted[s := st.granted[s] + bytes])
  }

  lemma AdmissionAlone(cfg: Config, st: State, s: nat, kind: Kind, bytes: u64)
    requires cfg.Valid() && Shaped(cfg, st) && 0 < s <= cfg.workers && st.pcs[s].Idle? && st.serving && bytes > 0
    ensures Reaches(cfg, st, if WorkerWouldExceed(st.c, s, cfg.workers, cfg.limit, bytes) then st
                             else AdmittedState(st, s, kind, bytes))
  {
    WorkerDecides(cfg, st, s, kind, bytes);
    if !WorkerWouldExceed(st.c, s, cfg.workers, cfg.limit, bytes) {
      WorkerPublishes(cfg, st, s, kind, bytes);
    }
  }

  lemma WorkerDecides(cfg: Config, st: State, s: nat, kind: Kind, bytes: u64)
    requires cfg.Valid() && Shaped(cfg, st) && 0 < s <= cfg.workers && st.pcs[s].Idle? && st.serving && bytes > 0
    ensures Reaches(cfg, st, if WorkerWouldExceed(st.c, s, cfg.workers, cfg.limit, bytes) then st
                             else WithPc(st, s, Admitted(kind, bytes)))
  {
    var st1 := WithPc(st, s, SawShared(kind, bytes, st.c.shards[0].retained));
    Stay(cfg, st);
    Then(cfg, st, st, ReadShared(s, kind, bytes), st1);
    Then(cfg, st, st1, Decide(s), AfterDecide(cfg, st1, s));
    assert st1.pcs[s := Idle] == st.pcs && st1.pcs[s := Admitted(kind, bytes)] == st.pcs[s := Admitted(kind, bytes)];
  }

  lemma WorkerPublishes(cfg: Config, st: State, s: nat, kind: Kind, bytes: u64)
    requires cfg.Valid() && Shaped(cfg, st) && 0 < s <= cfg.workers && st.pcs[s].Idle?
    requires Reaches(cfg, st, WithPc(st, s, Admitted(kind, bytes)))
    ensures Reaches(cfg, st, AdmittedState(st, s, kind, bytes))
  {
    assert st.pcs[s := Admitted(kind, bytes)][s := Idle] == st.pcs;
    Then(cfg, st, WithPc(st, s, Admitted(kind, bytes)), Publish(s), AdmittedState(st, s, kind, bytes));
  }

  // ----- giving back and committing a reservation

  ghost function GivenBack(st: State, i: nat): State
    requires i < |st.reservations| && st.reservations[i].shard < |st.c.shards| == |st.c.mirrors|
  {
    var (c, token) := ReleaseReservation(st.c, st.reservations[i]);
    st.(c := c, reservations := st.reservations[i := token], covers := Close(st.covers, i))
  }

  lemma ReleaseAlone(cfg: Config, st: State, i: nat, t: nat)
    requires cfg.Valid() && Shaped(cfg, st) && i < |st.reservations| && IdleOn(cfg, st, t, st.reservations[i].shard)
    ensures Reaches(cfg, st, GivenBack(st, i))
  {
    assert st.pcs[t := Idle] == st.pcs;
    Stay(cfg, st);
    Then(cfg, st, st, Release(i, t), GivenBack(st, i));
  }

  /** A commit of at most what the reservation has left. */
  lemma CommitAlone(cfg: Config, st: State, i: nat, t: nat, bytes: u64, owner: Owner)
    requires cfg.Valid() && Shaped(cfg, st) && OpenFor(cfg, st, i, t, bytes) && owner != Consumed
    ensures var s := st.reservations[i].shard;
            var (c, token) := CommitReservation(st.c, st.reservations[i], bytes);
            Reaches(cfg, st, st.(c := c, reservations := st.reservations[i := token], covers := Close(st.covers, i),
                                 charges := st.charges + [Charge(s, bytes)], owned := st.owned + [owner == Owned]))
  {
    var s := st.reservations[i].shard;
    var st1 := AfterRelease(cfg, st, i, t, Retaining(owner, bytes));
    var st2 := AfterRetain(cfg, st1, t);
    Stay(cfg, st);
    Then(cfg, st, st, BeginCommit(i, t, bytes, owner), st1);
    Then(cfg, st, st1, FinishRetain(t), st2);
    assert st1.pcs[t := Idle] == st.pcs;
  }

  // ----- charges

  /** Any thread may shrink or reset a charge. */
  lemma ShrinkAlone(cfg: Config, st: State, j: nat, bytes: u64)
    requires cfg.Valid() && Shaped(cfg, st) && j < |st.charges| && bytes <= st.charges[j].bytes
    ensures var (c, token) := ResizeCharge(st.c, st.charges[j], bytes);
            Reaches(cfg, st, st.(c := c, charges := st.charges[j := token],
                                 covers := Lower(st.covers, OfCharge(j), st.charges[j].bytes - bytes)))
  {
    Stay(cfg, st);
    Then(cfg, st, st, Shrink(j, bytes), AfterShrink(cfg, st, j, bytes));
  }

  lemma ResetAlone(cfg: Config, st: State, j: nat)
    requires cfg.Valid() && Shaped(cfg, st) && j < |st.charges|
    ensures var (c, token) := ResetCharge(st.c, st.charges[j]);
            Reaches(cfg, st, st.(c := c, charges := st.charges[j := token],
                                 covers := Lower(st.covers, OfCharge(j), st.charges[j].bytes)))
  {
    Stay(cfg, st);
    Then(cfg, st, st, Reset(j), AfterReset(cfg, st, j));
  }

  /** Growing takes an open reservation of the same slot with as much left. */
  lemma GrowAlone(cfg: Config, st: State, j: nat, i: nat, t: nat, bytes: u64)
    requires cfg.Valid() && Shaped(cfg, st) && j < |st.charges| && st.owned[j] && st.charges[j].bytes < bytes
    requires OpenFor(cfg, st, i, t, bytes - st.charges[j].bytes) && st.charges[j].owner == st.reservations[i].shard
    ensures var (c, token) := ResizeCharge(st.c, st.charges[j], bytes);
            Reaches(cfg, st, st.(c := c, charges := st.charges[j := token],
                                 covers := st.covers + [Cover(j, i, st.charges[j].owner, bytes - st.charges[j].bytes)]))
  {
    Stay(cfg, st);
    Then(cfg, st, st, GrowCovered(j, i, t, bytes), AfterGrow(cfg, st, j, i, bytes));
  }

  /** Moving a charge into an empty one, or a reservation into an inert one. */
  lemma MoveAlone(cfg: Config, st: State, j: nat, k: nat)
    requires cfg.Valid() && Shaped(cfg, st)
    ensures j < |st.charges| && k < |st.charges| && j != k && st.owned[j] && st.owned[k] && st.charges[k].bytes == 0 ==>
              Reaches(cfg, st, st.(charges := st.charges[k := st.charges[j]][j := EMPTY_CHARGE],
                                   covers := MoveChargeKey(st.covers, j, k)))
    ensures j < |st.reservations| && k < |st.reservations| && j != k && !st.reservations[k].admitted ==>
              Reaches(cfg, st, st.(reservations := st.reservations[k := st.reservations[j]][j := INERT_RESERVATION],
                                   covers := MoveReservationKey(st.covers, j, k)))
  {
    Stay(cfg, st);
    if j < |st.charges| && k < |st.charges| && j != k && st.owned[j] && st.owned[k] && st.charges[k].bytes == 0 {
      Then(cfg, st, st, MoveCharge(j, k), AfterMoveCharge(st, j, k));
    }
    if j < |st.reservations| && k < |st.reservations| && j != k && !st.reservations[k].admitted {
      Then(cfg, st, st, MoveReservation(j, k), AfterMoveReservation(st, j, k));
    }
  }

  // ----- full-sync credit

  lemma ConsumeAlone(cfg: Config, st: State, s: nat, bytes: u64)
    requires cfg.Valid() && Shaped(cfg, st) && 0 < s <= cfg.workers && st.pcs[s].Idle?
    requires 0 < bytes <= st.c.mirrors[s].fullsync
    ensures Reaches(cfg, st, st.(c := AccountRetained(DropFullSync(st.c, s, bytes), s, bytes),
                                 consumed := st.consumed[s := st.consumed[s] + bytes]))
  {
    var st1 := AfterDropCredit(cfg, st, s, bytes, true);
    Stay(cfg, st);
    Then(cfg, st, st, BeginConsume(s, bytes), st1);
    Then(cfg, st, st1, FinishRetain(s), AfterRetain(cfg, st1, s));
    ConsumedState(cfg, st, s, bytes);
  }

  lemma ConsumedState(cfg: Config, st: State, s: nat, bytes: u64)
    requires Shaped(cfg, st) && 0 < s <= cfg.workers && s < cfg.Threads() && st.pcs[s].Idle?
    ensures var st1 := AfterDropCredit(cfg, st, s, bytes, true);
            Shaped(cfg, st1) &&
            AfterRetain(cfg, st1, s) == st.(c := AccountRetained(DropFullSync(st.c, s, bytes), s, bytes),
                                            consumed := st.consumed[s := st.consumed[s] + bytes])
  {
    assert st.pcs[s := Retaining(Consumed, bytes)][s := Idle] == st.pcs;
  }

  lemma RestoreAlone(cfg: Config, st: State, s: nat, bytes: u64)
    requires cfg.Valid() && Shaped(cfg, st) && 0 < s <= cfg.workers && st.pcs[s].Idle? && 0 < bytes <= st.consumed[s]
    ensures Reaches(cfg, st, st.(c := AddFullSync(ReleaseRetained(st.c, s, bytes), s, bytes),
                                 consumed := st.consumed[s := st.consumed[s] - bytes]))
  {
    var st1 := AfterBeginRestore(cfg, st, s, bytes);
    Stay(cfg, st);
    Then(cfg, st, st, BeginRestore(s, bytes), st1);
    Then(cfg, st, st1, FinishRestore(s), AfterRestore(cfg, st1, s));
    RestoredState(cfg, st, s, bytes);
  }

  lemma RestoredState(cfg: Config, st: State, s: nat, bytes: u64)
    requires Shaped(cfg, st) && 0 < s <= cfg.workers && s < cfg.Threads() && st.pcs[s].Idle? && bytes <= st.consumed[s]
    ensures var st1 := AfterBeginRestore(cfg, st, s, bytes);
            Shaped(cfg, st1) &&
            AfterRestore(cfg, st1, s) == st.(c := AddFullSync(ReleaseRetained(st.c, s, bytes), s, bytes),
                                             consumed := st.consumed[s := st.consumed[s] - bytes])
  {
    assert st.pcs[s := Restoring(bytes)][s := Idle] == st.pcs;
  }

  lemma ReleaseCreditAlone(cfg: Config, st: State, s: nat, bytes: u64)
    requires cfg.Valid() && Shaped(cfg, st) && 0 < s <= cfg.workers && st.pcs[s].Idle?
    requires 0 < bytes <= st.c.mirrors[s].fullsync
    ensures Reaches(cfg, st, st.(c := DropFullSync(st.c, s, bytes), granted := st.granted[s := st.granted[s] - bytes]))
  {
    assert st.pcs[s := Idle] == st.pcs;
    Stay(cfg, st);
    Then(cfg, st, st, ReleaseCredit(s, bytes), AfterDropCredit(cfg, st, s, bytes, false));
  }

  // ----- client buffers

  lemma ClientAlone(cfg: Config, st: State, h: nat, bytes: u64)
    requires cfg.Valid() && Shaped(cfg, st) && h < |st.holds| && st.pcs[st.holds[h].shard].Idle?
    ensures var (c, hold, _) := AcquireClient(st.c, st.holds[h], bytes, cfg.maximum, cfg.clientLimit, cfg.workers);
            Reaches(cfg, st, st.(c := c, holds := st.holds[h := hold]))
    ensures bytes <= st.holds[h].bytes ==>
              var (c, hold) := ReleaseClient(st.c, st.holds[h], bytes);
              Reaches(cfg, st, st.(c := c, holds := st.holds[h := hold]))
  {
    Stay(cfg, st);
    Then(cfg, st, st, ClientAcquire(h, bytes), AfterClientAcquire(cfg, st, h, bytes));
    if bytes <= st.holds[h].bytes {
      Then(cfg, st, st, ClientRelease(h, bytes), AfterClientRelease(cfg, st, h, bytes));
    }
  }

  // ----- an unbound thread's sums

  ghost function Read(c: Counters, workers: nat, n: nat): nat
    requires c.Shaped(workers) && n <= Readings(workers)
  {
    if n == 0 then 0 else Read(c, workers, n - 1) + Reading(c, workers, n - 1)
  }

  lemma ReadOneMore(c: Counters, workers: nat, n: nat)
    requires c.Shaped(workers) && n < Readings(workers)
    ensures Read(c, workers, n + 1) == Read(c, workers, n) + Reading(c, workers, n)
  {
  }

  /** What has been read of one kind of counter, after `n` of its shards. */
  lemma {:induction false} ReadPrefix(c: Counters, workers: nat, values: seq<u64>, from: nat, n: nat)
    requires c.Shaped(workers) && |values| == workers + 1 && n <= |values| && from + n <= Readings(workers)
    requires forall k :: 0 <= k < n ==> Reading(c, workers, from + k) == values[k]
    ensures Read(c, workers, from + n) == Read(c, workers, from) + Sum(values[..n])
    decreases n
  {
    if n > 0 {
      var last: nat := n - 1;
      ReadPrefix(c, workers, values, from, last);
      assert values[..n] == values[..last] + [values[last]];
      SumAppend(values[..last], values[last]);
      ReadOneMore(c, workers, from + last);
    }
  }

  /** Undisturbed, the readings of an unbound thread add up to the three process-wide
      sums, and its decision is the one of the method. */
  lemma SummingAlone(c: Counters, workers: nat, limit: u64, bytes: u64)
    requires c.Shaped(workers) && limit > 0 && bytes > 0
    ensures Read(c, workers, Readings(workers))
         == Total(Retained(c.shards)) + Total(FullSync(c.shards)) + Total(Pending(c.shards))
    ensures Read(c, workers, Readings(workers)) + bytes > limit <==> WorkerWouldExceed(c, 0, workers, limit, bytes)
  {
    var n := workers + 1;
    var a, b, d := Retained(c.shards), FullSync(c.shards), Pending(c.shards);
    ReadPrefix(c, workers, a, 0, n);
    ReadPrefix(c, workers, b, n, n);
    ReadPrefix(c, workers, d, 2 * n, n);
    assert a[..n] == a && b[..n] == b && d[..n] == d && c.shards[..n] == c.shards;
  }

  lemma {:induction false} ReadsOn(cfg: Config, st: State, t: nat, bytes: u64, n: nat)
    requires cfg.Valid() && Shaped(cfg, st) && IdleOn(cfg, st, t, 0) && bytes > 0 && n <= Readings(cfg.workers)
    ensures Reaches(cfg, st, WithPc(st, t, Summing(bytes, n, Read(st.c, cfg.workers, n))))
  {
    if n == 0 {
      Stay(cfg, st);
      Then(cfg, st, st, BeginSum(t, bytes), WithPc(st, t, Summing(bytes, 0, 0)));
    } else {
      ReadsOn(cfg, st, t, bytes, n - 1);
      var last := WithPc(st, t, Summing(bytes, n - 1, Read(st.c, cfg.workers, n - 1)));
      var now := Summing(bytes, n, Read(st.c, cfg.workers, n));
      assert last.pcs[t := now] == st.pcs[t := now];
      Then(cfg, st, last, ReadNext(t), WithPc(st, t, now));
    }
  }

  /** The admission of a thread without a worker: all its readings, then its decision. */
  lemma UnboundAdmissionAlone(cfg: Config, st: State, t: nat, bytes: u64)
    requires cfg.Valid() && Shaped(cfg, st) && IdleOn(cfg, st, t, 0) && bytes > 0
    ensures Reaches(cfg, st, if WorkerWouldExceed(st.c, 0, cfg.workers, cfg.limit, bytes) then st
                             else AdmittedState(st, 0, Retention, bytes))
  {
    var read := Summing(bytes, Readings(cfg.workers), Read(st.c, cfg.workers, Readings(cfg.workers)));
    var st1 := WithPc(st, t, read);
    var st2 := AfterDecideUnbound(cfg, st1, t);
    ReadsOn(cfg, st, t, bytes, Readings(cfg.workers));
    SummingAlone(st.c, cfg.workers, cfg.limit, bytes);
    Then(cfg, st, st1, DecideUnbound(t), st2);
    assert st1.pcs[t := Idle] == st.pcs;
    if !WorkerWouldExceed(st.c, 0, cfg.workers, cfg.limit, bytes) {
      assert st2.pcs[t := Idle] == st.pcs;
      Then(cfg, st, st2, Publish(t), AdmittedState(st, 0, Retention, bytes));
    }
  }
}
