/** The steps that change counters keep the invariant of `MemorySafety`. Each touches
    the counters of one slot and at most one thread; its proof gives the new view of
    that slot and leaves the rest to `SlotStepKeeps`. */
module MemorySteps {
  import opened MachineInts
  import opened MemoryLimits
  import opened MemoryCounters
  import opened MemoryCovers
  import opened MemoryMachine
  import opened MemorySafety
  import opened MemoryAdmission
  import opened MemoryCoverage

  /** `next` looks like `v` on slot `s` and like `st` on the others. */
  ghost predicate Only(cfg: Config, st: State, next: State, s: nat, v: View)
    requires Shaped(cfg, st)
  {
    Shaped(cfg, next) && next.c.aborted == st.c.aborted && next.serving == st.serving && s <= cfg.workers &&
    forall k :: 0 <= k <= cfg.workers ==> ViewOf(cfg, next, k) == if k == s then v else ViewOf(cfg, st, k)
  }

  /** The tokens are fine, and slot 0's retained bytes changed as they may. */
  ghost predicate Sound(cfg: Config, st: State, next: State)
    requires Shaped(cfg, st) && Shaped(cfg, next)
  {
    TokensOk(cfg, next.reservations) && CoversOk(next.covers, next.reservations, next.charges) &&
    SharedMayChange(cfg, st.serving, st.c.shards[0].retained, next.c.shards[0].retained)
  }

  lemma SlotStepKeeps(cfg: Config, st: State, next: State, t: nat, v: View)
    requires cfg.Valid() && Inv(cfg, st) && t < cfg.Threads() && Only(cfg, st, next, cfg.SlotOf(t), v)
    requires Sound(cfg, st, next)
    requires next.pcs == st.pcs[t := next.pcs[t]]
    requires ViewOk(cfg, st.serving, next.c.shards[0].retained, cfg.SlotOf(t), v)
    requires ZeroMayChange(cfg, st.serving, cfg.SlotOf(t), st.c.shards[0], next.c.shards[0])
    requires ThreadOk(cfg, next.serving, next.c.shards[0], cfg.SlotOf(t), next.pcs[t])
    ensures Inv(cfg, next)
  {
    OneThreadChanged(cfg, st, next, t);
    OneSlotChanged(cfg, st, next, cfg.SlotOf(t));
  }

  lemma QuietStepKeeps(cfg: Config, st: State, next: State, s: nat, v: View)
    requires cfg.Valid() && Inv(cfg, st) && Only(cfg, st, next, s, v) && Sound(cfg, st, next) && next.pcs == st.pcs
    requires SlotOk(cfg, next, s) && next.c.shards[0].retained <= st.c.shards[0].retained
    ensures Inv(cfg, next)
  {
    NoThreadChanged(cfg, st, next);
    OneSlotChanged(cfg, st, next, s);
  }

  /** No view changed at all. */
  lemma SilentStepKeeps(cfg: Config, st: State, next: State)
    requires cfg.Valid() && Inv(cfg, st) && Shaped(cfg, next) && Only(cfg, st, next, 0, ViewOf(cfg, st, 0))
    requires TokensOk(cfg, next.reservations) && CoversOk(next.covers, next.reservations, next.charges)
    requires next.pcs == st.pcs
    ensures Inv(cfg, next)
  {
    assert SlotOk(cfg, st, 0);
    assert next.c.shards[0] == ViewOf(cfg, next, 0).shard == ViewOf(cfg, st, 0).shard;
    if !SlotSettled(cfg, st, 0) { StillFineWithout(cfg, st, next); }
    QuietStepKeeps(cfg, st, next, 0, ViewOf(cfg, st, 0));
  }

  // ----- publishing a decision

  lemma PublishKeeps(cfg: Config, st: State, t: nat)
    requires cfg.Valid() && Roomy(cfg) && Inv(cfg, st) && t < cfg.Threads() && st.pcs[t].Admitted?
    ensures Inv(cfg, AfterPublish(cfg, st, t))
  {
    assert ThreadOk(cfg, st.serving, st.c.shards[0], cfg.SlotOf(t), st.pcs[t]);
    if st.pcs[t].kind == Retention {
      PublishReservation(cfg, st, t, st.pcs[t].bytes);
    } else {
      PublishCredit(cfg, st, t, st.pcs[t].bytes);
    }
  }

  lemma PublishReservation(cfg: Config, st: State, t: nat, bytes: u64)
    requires cfg.Valid() && Roomy(cfg) && Inv(cfg, st) && t < cfg.Threads() && st.pcs[t] == Admitted(Retention, bytes)
    ensures Inv(cfg, AfterPublish(cfg, st, t))
  {
    var s := cfg.SlotOf(t);
    assert ThreadOk(cfg, st.serving, st.c.shards[0], s, st.pcs[t]);
    PendingRoom(cfg, st, t, bytes);
    PublishMoves(cfg, st, t, bytes);
    var next := PublishedState(st, t, s, bytes);
    forall k | 0 <= k <= cfg.workers
      ensures Shaped(cfg, next)
      ensures ViewOf(cfg, next, k) == if k == s then PublishedView(ViewOf(cfg, st, s), s, bytes) else ViewOf(cfg, st, k)
    {
      PublishedViews(cfg, st, t, bytes, k);
    }
    ReservationAdded(st.covers, st.reservations, st.charges, Reservation(bytes, s, true));
    TokenAdded(cfg, st.reservations, Reservation(bytes, s, true));
    SlotStepKeeps(cfg, st, next, t, PublishedView(ViewOf(cfg, st, s), s, bytes));
  }

  lemma PublishMoves(cfg: Config, st: State, t: nat, bytes: u64)
    requires cfg.Valid() && Shaped(cfg, st) && t < cfg.Threads() && st.pcs[t] == Admitted(Retention, bytes)
    requires var s := cfg.SlotOf(t);
             st.c.shards[s].pending + bytes <= U64_MAX && (s > 0 ==> st.c.mirrors[s].pending == st.c.shards[s].pending)
    ensures AfterPublish(cfg, st, t) == PublishedState(st, t, cfg.SlotOf(t), bytes)
  {
    AddPendingExact(st.c, cfg.SlotOf(t), bytes);
  }

  ghost function PublishedState(st: State, t: nat, s: nat, bytes: u64): State
    requires t < |st.pcs| && s < |st.c.shards| == |st.c.mirrors| && st.c.shards[s].pending + bytes <= U64_MAX
  {
    st.(c := WithPending(st.c, s, st.c.shards[s].pending + bytes), pcs := st.pcs[t := Idle],
        reservations := st.reservations + [Reservation(bytes, s, true)])
  }

  /** The bytes were counted as credit, so adding them cannot wrap. */
  lemma PendingRoom(cfg: Config, st: State, t: nat, bytes: u64)
    requires cfg.Valid() && Roomy(cfg) && Inv(cfg, st) && t < cfg.Threads() && st.pcs[t] == Admitted(Retention, bytes)
    ensures var s := cfg.SlotOf(t);
            st.c.shards[s].pending + bytes <= U64_MAX &&
            (s > 0 ==> st.c.mirrors[s].pending == st.c.shards[s].pending) &&
            ViewOk(cfg, st.serving, st.c.shards[0].retained, s, PublishedView(ViewOf(cfg, st, s), s, bytes))
  {
    var s := cfg.SlotOf(t);
    Settled(cfg, st, t);
    assert ThreadOk(cfg, st.serving, st.c.shards[0], s, st.pcs[t]);
    PcBounds(cfg, st.pcs, t);
    CapacityFits(cfg, s);
    PublishedFits(cfg, st.serving, st.c.shards[0].retained, s, ViewOf(cfg, st, s), bytes);
  }

  ghost function PublishedView(v: View, s: nat, bytes: u64): View
    requires v.shard.pending + bytes <= U64_MAX
  {
    var pending: u64 := v.shard.pending + bytes;
    v.(shard := v.shard.(pending := pending), mirror := if s == 0 then v.mirror else v.mirror.(pending := pending),
       credit := v.credit - bytes, pendingCredit := v.pendingCredit - bytes, reserved := v.reserved + bytes)
  }

  lemma PublishedFits(cfg: Config, serving: bool, shared: u64, s: nat, v: View, bytes: u64)
    requires cfg.Valid() && ViewOk(cfg, serving, shared, s, v) && (s == 0 || serving)
    requires bytes <= v.credit && bytes <= v.pendingCredit && v.shard.pending + bytes <= U64_MAX
    ensures ViewOk(cfg, serving, shared, s, PublishedView(v, s, bytes))
  {
  }

  lemma PublishedViews(cfg: Config, st: State, t: nat, bytes: u64, k: nat)
    requires cfg.Valid() && Shaped(cfg, st) && t < cfg.Threads() && k <= cfg.workers
    requires st.pcs[t] == Admitted(Retention, bytes) && st.c.shards[cfg.SlotOf(t)].pending + bytes <= U64_MAX
    ensures var s := cfg.SlotOf(t);
            var next := PublishedState(st, t, s, bytes);
            Shaped(cfg, next) &&
            ViewOf(cfg, next, k) == if k == s then PublishedView(ViewOf(cfg, st, s), s, bytes) else ViewOf(cfg, st, k)
  {
    PcChanged(cfg, st.pcs, t, Idle, k);
    ReservationAppended(st.reservations, Reservation(bytes, cfg.SlotOf(t), true), k);
  }

  lemma ReservationAppended(rs: seq<Reservation>, t: Reservation, k: nat)
    ensures On(ReservationParts(rs + [t]), k) == On(ReservationParts(rs), k) + (if k == t.shard then t.bytes else 0)
  {
    OnAppend(ReservationParts(rs), Part(t.shard, t.bytes), k);
    assert ReservationParts(rs + [t]) == ReservationParts(rs) + [Part(t.shard, t.bytes)];
  }

  lemma PublishCredit(cfg: Config, st: State, t: nat, bytes: u64)
    requires cfg.Valid() && Roomy(cfg) && Inv(cfg, st) && t < cfg.Threads()
    requires st.pcs[t] == Admitted(FullSyncCredit, bytes)
    ensures Inv(cfg, AfterPublish(cfg, st, t))
  {
    assert ThreadOk(cfg, st.serving, st.c.shards[0], cfg.SlotOf(t), st.pcs[t]);
    assert SlotOk(cfg, st, t);
    CreditRoom(cfg, st, t);
    PublishCreditMoves(cfg, st, t, bytes);
    CreditMoves(cfg, st, t, Idle, bytes, 0, bytes);
  }

  lemma PublishCreditMoves(cfg: Config, st: State, t: nat, bytes: u64)
    requires cfg.Valid() && Shaped(cfg, st) && 0 < t <= cfg.workers && st.pcs[t] == Admitted(FullSyncCredit, bytes)
    requires st.c.mirrors[t].fullsync == st.c.shards[t].fullsync && CreditInRange(st, t, bytes, 0)
    ensures AfterPublish(cfg, st, t) == CreditState(st, t, Idle, bytes, 0, bytes)
  {
    AddFullSyncExact(st.c, t, bytes);
    assert st.consumed == st.consumed[t := st.consumed[t] + 0];
  }

  // ----- full-sync credit: a worker's counter, its session and its thread

  /** The bytes a thread may still add fit its slot's counters. */
  lemma CreditRoom(cfg: Config, st: State, t: nat)
    requires cfg.Valid() && Roomy(cfg) && Inv(cfg, st) && t < cfg.Threads() && !Early(cfg, st.pcs[t])
    ensures var s := cfg.SlotOf(t);
            st.c.shards[s].fullsync + Credit(cfg, st.pcs[t]) <= U64_MAX &&
            st.c.shards[s].retained + Credit(cfg, st.pcs[t]) <= U64_MAX &&
            st.c.shards[s].retained + Credit(cfg, st.pcs[t]) <= Capacity(cfg, s)
  {
    var s := cfg.SlotOf(t);
    Settled(cfg, st, t);
    PcBounds(cfg, st.pcs, t);
    CapacityFits(cfg, s);
  }

  /** Worker `t` goes to `pc` while its full-sync counter, its consumed bytes (with as
      many retained) and its session's credit change by these amounts. */
  ghost function CreditState(st: State, t: nat, pc: Pc, fullsync: int, consumed: int, granted: int): State
    requires t < |st.pcs| && t < |st.c.shards| == |st.c.mirrors| == |st.consumed| == |st.granted|
    requires CreditInRange(st, t, fullsync, consumed)
  {
    st.(c := WithCredit(st.c, t, st.c.shards[t].fullsync + fullsync, st.c.shards[t].retained + consumed),
        pcs := st.pcs[t := pc], consumed := st.consumed[t := st.consumed[t] + consumed],
        granted := st.granted[t := st.granted[t] + granted])
  }

  ghost predicate CreditInRange(st: State, t: nat, fullsync: int, consumed: int)
    requires t < |st.c.shards| == |st.consumed|
  {
    0 <= st.c.shards[t].fullsync + fullsync <= U64_MAX && 0 <= st.consumed[t] + consumed &&
    0 <= st.c.shards[t].retained + consumed <= U64_MAX
  }

  lemma CreditMoves(cfg: Config, st: State, t: nat, pc: Pc, fullsync: int, consumed: int, granted: int)
    requires cfg.Valid() && Inv(cfg, st) && 0 < t <= cfg.workers && st.serving
    requires CreditInRange(st, t, fullsync, consumed)
    requires ThreadOk(cfg, st.serving, st.c.shards[0], t, pc)
    requires PendingCredit(cfg, st.pcs[t]) == 0 == PendingCredit(cfg, pc)
    requires fullsync + consumed + Credit(cfg, pc) - Credit(cfg, st.pcs[t]) <= 0
    requires fullsync + consumed + Transit(pc) - Transit(st.pcs[t]) == granted
    ensures Inv(cfg, CreditState(st, t, pc, fullsync, consumed, granted))
  {
    var next, v := CreditState(st, t, pc, fullsync, consumed, granted), ViewOf(cfg, st, t);
    assert SlotOk(cfg, st, t);
    PcBounds(cfg, st.pcs, t);
    CreditFits(cfg, st.c.shards[0].retained, t, v, st.pcs[t], pc, fullsync, consumed, granted);
    forall k | 0 <= k <= cfg.workers
      ensures ViewOf(cfg, next, k) == if k == t then CreditView(cfg, v, st.pcs[t], pc, fullsync, consumed, granted)
                                      else ViewOf(cfg, st, k)
    {
      CreditViews(cfg, st, t, pc, fullsync, consumed, granted, k);
    }
    SlotStepKeeps(cfg, st, next, t, CreditView(cfg, v, st.pcs[t], pc, fullsync, consumed, granted));
  }

  lemma CreditViews(cfg: Config, st: State, t: nat, pc: Pc, fullsync: int, consumed: int, granted: int, k: nat)
    requires cfg.Valid() && Shaped(cfg, st) && 0 < t <= cfg.workers && k <= cfg.workers
    requires CreditInRange(st, t, fullsync, consumed)
    ensures var next := CreditState(st, t, pc, fullsync, consumed, granted);
            Shaped(cfg, next) &&
            ViewOf(cfg, next, k)
              == if k == t then CreditView(cfg, ViewOf(cfg, st, t), st.pcs[t], pc, fullsync, consumed, granted)
                 else ViewOf(cfg, st, k)
  {
    PcChanged(cfg, st.pcs, t, pc, k);
  }

  lemma CreditFits(cfg: Config, shared: u64, s: nat, v: View, was: Pc, pc: Pc, fullsync: int, consumed: int,
      granted: int)
    requires cfg.Valid() && ViewOk(cfg, true, shared, s, v) && s > 0
    requires 0 <= v.shard.fullsync + fullsync <= U64_MAX && 0 <= v.consumed + consumed
    requires 0 <= v.shard.retained + consumed <= U64_MAX
    requires Credit(cfg, was) <= v.credit && Transit(was) <= v.transit
    requires PendingCredit(cfg, was) == 0 == PendingCredit(cfg, pc)
    requires fullsync + consumed + Credit(cfg, pc) - Credit(cfg, was) <= 0
    requires fullsync + consumed + Transit(pc) - Transit(was) == granted
    ensures ViewOk(cfg, true, shared, s, CreditView(cfg, v, was, pc, fullsync, consumed, granted))
  {
  }

  ghost function CreditView(cfg: Config, v: View, was: Pc, now: Pc, fullsync: int, consumed: int, granted: int): View
    requires 0 <= v.shard.fullsync + fullsync <= U64_MAX && 0 <= v.consumed + consumed
    requires 0 <= v.shard.retained + consumed <= U64_MAX
  {
    Moved(cfg, v, was, now).(
      shard := v.shard.(fullsync := v.shard.fullsync + fullsync, retained := v.shard.retained + consumed),
      mirror := v.mirror.(fullsync := v.shard.fullsync + fullsync),
      consumed := v.consumed + consumed, granted := v.granted + granted)
  }

  lemma WorkerInUse(cfg: Config, st: State, s: nat)
    requires cfg.Valid() && Inv(cfg, st) && 0 < s <= cfg.workers
    ensures st.c.mirrors[s].fullsync == st.c.shards[s].fullsync && st.consumed[s] <= st.c.shards[s].retained
    ensures st.c.shards[s].retained > 0 || st.c.shards[s].fullsync > 0 ==> st.serving
  {
    assert SlotOk(cfg, st, s);
  }

  lemma DropCreditKeeps(cfg: Config, st: State, s: nat, bytes: u64, consume: bool)
    requires cfg.Valid() && Inv(cfg, st) && 0 < s <= cfg.workers && st.pcs[s].Idle?
    requires 0 < bytes <= st.c.mirrors[s].fullsync
    ensures Inv(cfg, AfterDropCredit(cfg, st, s, bytes, consume))
  {
    WorkerInUse(cfg, st, s);
    var less := 0 - bytes as int;
    DropCreditMoves(cfg, st, s, bytes, consume, less);
    if consume {
      CreditMoves(cfg, st, s, Retaining(Consumed, bytes), less, 0, 0);
    } else {
      CreditMoves(cfg, st, s, Idle, less, 0, less);
    }
  }

  lemma DropCreditMoves(cfg: Config, st: State, s: nat, bytes: u64, consume: bool, less: int)
    requires cfg.Valid() && Shaped(cfg, st) && 0 < s <= cfg.workers && less + bytes == 0
    requires bytes <= st.c.mirrors[s].fullsync == st.c.shards[s].fullsync
    ensures CreditInRange(st, s, less, 0)
    ensures AfterDropCredit(cfg, st, s, bytes, consume)
         == if consume then CreditState(st, s, Retaining(Consumed, bytes), less, 0, 0)
            else CreditState(st, s, Idle, less, 0, less)
  {
    DropFullSyncExact(st.c, s, bytes);
    assert st.consumed == st.consumed[s := st.consumed[s] + 0] && st.granted == st.granted[s := st.granted[s] + 0];
  }

  lemma BeginRestoreKeeps(cfg: Config, st: State, s: nat, bytes: u64)
    requires cfg.Valid() && Inv(cfg, st) && 0 < s <= cfg.workers && st.pcs[s].Idle? && 0 < bytes <= st.consumed[s]
    ensures Inv(cfg, AfterBeginRestore(cfg, st, s, bytes))
  {
    WorkerInUse(cfg, st, s);
    var less := 0 - bytes as int;
    BeginRestoreMoves(cfg, st, s, bytes, less);
    CreditMoves(cfg, st, s, Restoring(bytes), 0, less, 0);
  }

  lemma BeginRestoreMoves(cfg: Config, st: State, s: nat, bytes: u64, less: int)
    requires cfg.Valid() && Shaped(cfg, st) && 0 < s <= cfg.workers && less + bytes == 0
    requires bytes <= st.consumed[s] <= st.c.shards[s].retained && st.c.mirrors[s].fullsync == st.c.shards[s].fullsync
    ensures CreditInRange(st, s, 0, less)
    ensures AfterBeginRestore(cfg, st, s, bytes) == CreditState(st, s, Restoring(bytes), 0, less, 0)
  {
    ReleaseCreditExact(st.c, s, bytes);
    assert st.granted == st.granted[s := st.granted[s] + 0];
  }

  lemma FinishRestoreKeeps(cfg: Config, st: State, t: nat)
    requires cfg.Valid() && Roomy(cfg) && Inv(cfg, st) && t < cfg.Threads() && st.pcs[t].Restoring?
    ensures Inv(cfg, AfterRestore(cfg, st, t))
  {
    assert ThreadOk(cfg, st.serving, st.c.shards[0], cfg.SlotOf(t), st.pcs[t]);
    assert SlotOk(cfg, st, t);
    CreditRoom(cfg, st, t);
    FinishRestoreMoves(cfg, st, t);
    CreditMoves(cfg, st, t, Idle, st.pcs[t].bytes, 0, 0);
  }

  lemma FinishRestoreMoves(cfg: Config, st: State, t: nat)
    requires cfg.Valid() && Shaped(cfg, st) && 0 < t <= cfg.workers && st.pcs[t].Restoring?
    requires st.c.mirrors[t].fullsync == st.c.shards[t].fullsync && CreditInRange(st, t, st.pcs[t].bytes, 0)
    ensures AfterRestore(cfg, st, t) == CreditState(st, t, Idle, st.pcs[t].bytes, 0, 0)
  {
    AddFullSyncExact(st.c, t, st.pcs[t].bytes);
    assert st.consumed == st.consumed[t := st.consumed[t] + 0] && st.granted == st.granted[t := st.granted[t] + 0];
  }

  // ----- giving a reservation back

  ghost function ReleasedState(st: State, i: nat, t: nat, pc: Pc): State
    requires i < |st.reservations| && t < |st.pcs| && st.reservations[i].shard < |st.c.shards| == |st.c.mirrors|
    requires st.reservations[i].bytes <= st.c.shards[st.reservations[i].shard].pending
  {
    var s := st.reservations[i].shard;
    st.(c := WithPending(st.c, s, st.c.shards[s].pending - st.reservations[i].bytes), pcs := st.pcs[t := pc],
        reservations := st.reservations[i := Reservation(0, s, false)], covers := Close(st.covers, i))
  }

  lemma ReleaseRoom(cfg: Config, st: State, i: nat)
    requires cfg.Valid() && Inv(cfg, st) && i < |st.reservations|
    ensures var token := st.reservations[i];
            token.bytes <= st.c.shards[token.shard].pending && (!token.admitted ==> token.bytes == 0) &&
            (token.shard > 0 ==> st.c.mirrors[token.shard].pending == st.c.shards[token.shard].pending)
  {
    var token := st.reservations[i];
    assert TokenOk(cfg, token);
    assert SlotOk(cfg, st, token.shard);
    OnBounds(ReservationParts(st.reservations), i, token.shard);
  }

  lemma ReleaseMoves(cfg: Config, st: State, i: nat, t: nat, pc: Pc)
    requires cfg.Valid() && Shaped(cfg, st) && i < |st.reservations| && t < cfg.Threads()
    requires var token := st.reservations[i];
             token.bytes <= st.c.shards[token.shard].pending && (!token.admitted ==> token.bytes == 0) &&
             (token.shard > 0 ==> st.c.mirrors[token.shard].pending == st.c.shards[token.shard].pending)
    ensures AfterRelease(cfg, st, i, t, pc) == ReleasedState(st, i, t, pc)
  {
    ReleaseIsExact(st.c, st.reservations[i]);
  }

  ghost function ReleasedView(cfg: Config, v: View, s: nat, bytes: u64, covered: nat, pc: Pc): View
    requires bytes <= v.shard.pending && covered <= v.covered
  {
    var pending: u64 := v.shard.pending - bytes;
    Moved(cfg, v, Idle, pc).(
      shard := v.shard.(pending := pending), mirror := if s == 0 then v.mirror else v.mirror.(pending := pending),
      reserved := v.reserved - bytes, covered := v.covered - covered)
  }

  lemma ReleasedViews(cfg: Config, st: State, i: nat, t: nat, pc: Pc, k: nat)
    requires cfg.Valid() && Shaped(cfg, st) && CoversOk(st.covers, st.reservations, st.charges)
    requires i < |st.reservations| && t < cfg.Threads() && st.pcs[t].Idle? && k <= cfg.workers
    requires cfg.SlotOf(t) == st.reservations[i].shard
    requires st.reservations[i].bytes <= st.c.shards[st.reservations[i].shard].pending
    ensures var next, s, under := ReleasedState(st, i, t, pc), st.reservations[i].shard, Amount(st.covers, Under(i));
            Shaped(cfg, next) && under <= Covered(st, s) &&
            ViewOf(cfg, next, k)
              == if k == s then ReleasedView(cfg, ViewOf(cfg, st, k), k, st.reservations[i].bytes, under, pc)
                 else ViewOf(cfg, st, k)
  {
    var s := st.reservations[i].shard;
    PcChanged(cfg, st.pcs, t, pc, k);
    ClosedOnSlot(st.covers, st.reservations, st.charges, i, k);
    ClosedOnSlot(st.covers, st.reservations, st.charges, i, s);
    ReservationReplaced(st.reservations, i, Reservation(0, s, false), k);
  }

  lemma ReservationReplaced(rs: seq<Reservation>, i: nat, t: Reservation, k: nat)
    requires i < |rs| && t.shard == rs[i].shard
    ensures On(ReservationParts(rs[i := t]), k)
         == On(ReservationParts(rs), k) + (if k == t.shard then t.bytes - rs[i].bytes else 0)
  {
    OnUpdate(ReservationParts(rs), i, Part(t.shard, t.bytes), k);
    assert ReservationParts(rs[i := t]) == ReservationParts(rs)[i := Part(t.shard, t.bytes)];
  }

  /** A thread's next place after giving back a reservation of `bytes`, of which
      `covered` stay retained: done, or about to retain what is left at most. */
  ghost predicate AfterReleasing(cfg: Config, serving: bool, s: nat, bytes: nat, covered: nat, pc: Pc) {
    pc == Idle || (pc.Retaining? && pc.owner != Consumed && MayRetain(cfg, serving, s) && covered + pc.bytes <= bytes)
  }

  lemma ReleasedFits(cfg: Config, serving: bool, shared: u64, s: nat, v: View, bytes: u64, covered: nat, pc: Pc)
    requires cfg.Valid() && ViewOk(cfg, serving, shared, s, v)
    requires covered <= bytes <= v.shard.pending && covered <= v.covered && v.covered - covered <= v.reserved - bytes
    requires AfterReleasing(cfg, serving, s, bytes, covered, pc)
    ensures ViewOk(cfg, serving, shared, s, ReleasedView(cfg, v, s, bytes, covered, pc))
  {
  }

  /** Also the first half of a commit, which goes on to retain `pc.bytes`. */
  lemma ReleaseKeeps(cfg: Config, st: State, i: nat, t: nat, pc: Pc)
    requires cfg.Valid() && Inv(cfg, st) && i < |st.reservations| && IdleOn(cfg, st, t, st.reservations[i].shard)
    requires AfterReleasing(cfg, st.serving, st.reservations[i].shard, st.reservations[i].bytes,
                            Amount(st.covers, Under(i)), pc)
    ensures Inv(cfg, AfterRelease(cfg, st, i, t, pc))
  {
    var s, bytes, under := st.reservations[i].shard, st.reservations[i].bytes, Amount(st.covers, Under(i));
    ReleaseRoom(cfg, st, i);
    ReleaseMoves(cfg, st, i, t, pc);
    ReleasedOnly(cfg, st, i, t, pc);
    ReservationClosed(st.covers, st.reservations, st.charges, i, Reservation(0, s, false));
    TokenReplaced(cfg, st.reservations, i, Reservation(0, s, false));
    ReleasedOk(cfg, st, i, t, pc);
    ReleasedThread(cfg, st, i, t, pc);
    SlotStepKeeps(cfg, st, ReleasedState(st, i, t, pc), t, ReleasedView(cfg, ViewOf(cfg, st, s), s, bytes, under, pc));
  }

  lemma TokenReplaced(cfg: Config, rs: seq<Reservation>, i: nat, t: Reservation)
    requires TokensOk(cfg, rs) && i < |rs| && TokenOk(cfg, t)
    ensures TokensOk(cfg, rs[i := t])
  {
    var rs' := rs[i := t];
    forall k | 0 <= k < |rs'|
      ensures TokenOk(cfg, rs'[k])
    {
      assert TokenOk(cfg, rs[k]);
    }
  }

  lemma TokenAdded(cfg: Config, rs: seq<Reservation>, t: Reservation)
    requires TokensOk(cfg, rs) && TokenOk(cfg, t)
    ensures TokensOk(cfg, rs + [t])
  {
    var rs' := rs + [t];
    forall k | 0 <= k < |rs'|
      ensures TokenOk(cfg, rs'[k])
    {
      if k < |rs| { assert TokenOk(cfg, rs[k]); }
    }
  }

  lemma ReleasedThread(cfg: Config, st: State, i: nat, t: nat, pc: Pc)
    requires cfg.Valid() && Inv(cfg, st) && i < |st.reservations| && IdleOn(cfg, st, t, st.reservations[i].shard)
    requires AfterReleasing(cfg, st.serving, st.reservations[i].shard, st.reservations[i].bytes,
                            Amount(st.covers, Under(i)), pc)
    requires st.reservations[i].bytes <= st.c.shards[st.reservations[i].shard].pending
    ensures var next, s := ReleasedState(st, i, t, pc), st.reservations[i].shard;
            next.c.shards[0].retained == st.c.shards[0].retained && next.pcs[t] == pc &&
            ZeroMayChange(cfg, st.serving, s, st.c.shards[0], next.c.shards[0]) &&
            ThreadOk(cfg, st.serving, next.c.shards[0], s, pc)
  {
    assert TokenOk(cfg, st.reservations[i]);
  }

  lemma ReleasedOnly(cfg: Config, st: State, i: nat, t: nat, pc: Pc)
    requires cfg.Valid() && Shaped(cfg, st) && CoversOk(st.covers, st.reservations, st.charges)
    requires i < |st.reservations| && IdleOn(cfg, st, t, st.reservations[i].shard)
    requires st.reservations[i].bytes <= st.c.shards[st.reservations[i].shard].pending
    ensures var s, under := st.reservations[i].shard, Amount(st.covers, Under(i));
            under <= Covered(st, s) &&
            Only(cfg, st, ReleasedState(st, i, t, pc), s,
                 ReleasedView(cfg, ViewOf(cfg, st, s), s, st.reservations[i].bytes, under, pc))
  {
    ClosedOnSlot(st.covers, st.reservations, st.charges, i, st.reservations[i].shard);
    forall k | 0 <= k <= cfg.workers
      ensures var next, s, under := ReleasedState(st, i, t, pc), st.reservations[i].shard, Amount(st.covers, Under(i));
              Shaped(cfg, next) && under <= Covered(st, s) &&
              ViewOf(cfg, next, k)
                == if k == s then ReleasedView(cfg, ViewOf(cfg, st, k), k, st.reservations[i].bytes, under, pc)
                   else ViewOf(cfg, st, k)
    {
      ReleasedViews(cfg, st, i, t, pc, k);
    }
  }

  lemma ReleasedOk(cfg: Config, st: State, i: nat, t: nat, pc: Pc)
    requires cfg.Valid() && Inv(cfg, st) && i < |st.reservations| && IdleOn(cfg, st, t, st.reservations[i].shard)
    requires AfterReleasing(cfg, st.serving, st.reservations[i].shard, st.reservations[i].bytes,
                            Amount(st.covers, Under(i)), pc)
    ensures var s, bytes, under := st.reservations[i].shard, st.reservations[i].bytes, Amount(st.covers, Under(i));
            bytes <= st.c.shards[s].pending && under <= Covered(st, s) &&
            ViewOk(cfg, st.serving, st.c.shards[0].retained, s,
                   ReleasedView(cfg, ViewOf(cfg, st, s), s, bytes, under, pc))
  {
    var s, bytes, under := st.reservations[i].shard, st.reservations[i].bytes, Amount(st.covers, Under(i));
    ReleaseRoom(cfg, st, i);
    Settled(cfg, st, t);
    ReservationClosed(st.covers, st.reservations, st.charges, i, Reservation(0, s, false));
    CoverIsReserved(Close(st.covers, i), st.reservations[i := Reservation(0, s, false)], st.charges, s);
    ClosedOnSlot(st.covers, st.reservations, st.charges, i, s);
    ReservationReplaced(st.reservations, i, Reservation(0, s, false), s);
    ReleasedFits(cfg, st.serving, st.c.shards[0].retained, s, ViewOf(cfg, st, s), bytes, under, pc);
  }

  lemma MoveReservationKeeps(cfg: Config, st: State, i: nat, k: nat)
    requires cfg.Valid() && Inv(cfg, st) && i < |st.reservations| && k < |st.reservations| && i != k
    requires !st.reservations[k].admitted
    ensures Inv(cfg, AfterMoveReservation(st, i, k))
  {
    var next := AfterMoveReservation(st, i, k);
    assert TokenOk(cfg, st.reservations[i]) && TokenOk(cfg, st.reservations[k]);
    ReservationMoved(st.covers, st.reservations, st.charges, i, k);
    MovedReservationViews(cfg, st, i, k);
    SilentStepKeeps(cfg, st, next);
  }

  lemma MovedReservationViews(cfg: Config, st: State, i: nat, k: nat)
    requires cfg.Valid() && Shaped(cfg, st) && i < |st.reservations| && k < |st.reservations| && i != k
    requires st.reservations[k].bytes == 0
    ensures Only(cfg, st, AfterMoveReservation(st, i, k), 0, ViewOf(cfg, st, 0))
  {
    var next := AfterMoveReservation(st, i, k);
    var parts := ReservationParts(st.reservations);
    assert ReservationParts(next.reservations) == parts[k := parts[i]][i := Part(0, 0)];
    forall s | 0 <= s <= cfg.workers
      ensures Reserved(next, s) == Reserved(st, s) && Covered(next, s) == Covered(st, s)
    {
      Swapped(parts, i, k, s);
      AmountAgrees(next.covers, OnSlot(s), st.covers, OnSlot(s));
    }
  }

  /** Moving an amount into an empty place changes no slot's sum. */
  lemma Swapped(parts: seq<Part>, i: nat, k: nat, s: nat)
    requires i < |parts| && k < |parts| && i != k && parts[k].amount == 0
    ensures On(parts[k := parts[i]][i := Part(0, 0)], s) == On(parts, s)
  {
    OnUpdate(parts, k, parts[i], s);
    OnUpdate(parts[k := parts[i]], i, Part(0, 0), s);
  }

  // ----- retaining

  /** Slot 0 may retain more only while it may, and then within its capacity. */
  lemma RetainAllowed(cfg: Config, serving: bool, s: nat, zero: Shard, zero': Shard)
    requires cfg.Valid() && MayRetain(cfg, serving, s)
    requires if s == 0 then zero'.retained <= Capacity(cfg, 0) else zero' == zero
    ensures SharedMayChange(cfg, serving, zero.retained, zero'.retained) && ZeroMayChange(cfg, serving, s, zero, zero')
  {
  }

  lemma FinishRetainKeeps(cfg: Config, st: State, t: nat)
    requires cfg.Valid() && Roomy(cfg) && Inv(cfg, st) && t < cfg.Threads() && st.pcs[t].Retaining?
    ensures Inv(cfg, AfterRetain(cfg, st, t))
  {
    var bytes, s := st.pcs[t].bytes, cfg.SlotOf(t);
    assert ThreadOk(cfg, st.serving, st.c.shards[0], s, st.pcs[t]);
    assert SlotOk(cfg, st, s);
    CreditRoom(cfg, st, t);
    if st.pcs[t].owner == Consumed {
      ConsumeMoves(cfg, st, t);
      CreditMoves(cfg, st, t, Idle, 0, bytes, 0);
    } else {
      RetainKeeps(cfg, st, t, bytes);
    }
  }

  lemma ConsumeMoves(cfg: Config, st: State, t: nat)
    requires cfg.Valid() && Shaped(cfg, st) && 0 < t <= cfg.workers && st.pcs[t].Retaining?
    requires st.pcs[t].owner == Consumed
    requires st.c.mirrors[t].fullsync == st.c.shards[t].fullsync && CreditInRange(st, t, 0, st.pcs[t].bytes)
    ensures AfterRetain(cfg, st, t) == CreditState(st, t, Idle, 0, st.pcs[t].bytes, 0)
  {
    AccountExact(st.c, t, st.pcs[t].bytes);
    assert st.c.mirrors[t := st.c.mirrors[t]] == st.c.mirrors && st.granted == st.granted[t := st.granted[t] + 0];
  }

  ghost function RetainedState(st: State, t: nat, s: nat, bytes: u64, owned: bool): State
    requires t < |st.pcs| && s < |st.c.shards| && st.c.shards[s].retained + bytes <= U64_MAX
  {
    st.(c := st.c.(shards := st.c.shards[s := st.c.shards[s].(retained := st.c.shards[s].retained + bytes)]),
        pcs := st.pcs[t := Idle], charges := st.charges + [Charge(s, bytes)], owned := st.owned + [owned])
  }

  lemma RetainMoves(cfg: Config, st: State, t: nat)
    requires cfg.Valid() && Shaped(cfg, st) && t < cfg.Threads() && st.pcs[t].Retaining? && st.pcs[t].owner != Consumed
    requires st.c.shards[cfg.SlotOf(t)].retained + st.pcs[t].bytes <= U64_MAX
    ensures AfterRetain(cfg, st, t)
         == RetainedState(st, t, cfg.SlotOf(t), st.pcs[t].bytes, st.pcs[t].owner == Owned)
  {
    AccountExact(st.c, cfg.SlotOf(t), st.pcs[t].bytes);
  }

  ghost function RetainedView(cfg: Config, v: View, was: Pc, bytes: u64): View
    requires v.shard.retained + bytes <= U64_MAX
  {
    Moved(cfg, v, was, Idle).(shard := v.shard.(retained := v.shard.retained + bytes), charged := v.charged + bytes)
  }

  lemma RetainedViews(cfg: Config, st: State, t: nat, bytes: u64, owned: bool, k: nat)
    requires cfg.Valid() && Shaped(cfg, st) && t < cfg.Threads() && k <= cfg.workers
    requires st.c.shards[cfg.SlotOf(t)].retained + bytes <= U64_MAX
    ensures var s := cfg.SlotOf(t);
            var next := RetainedState(st, t, s, bytes, owned);
            Shaped(cfg, next) &&
            ViewOf(cfg, next, k) == if k == s then RetainedView(cfg, ViewOf(cfg, st, s), st.pcs[t], bytes)
                                    else ViewOf(cfg, st, k)
  {
    PcChanged(cfg, st.pcs, t, Idle, k);
    ChargeAppended(st.charges, Charge(cfg.SlotOf(t), bytes), k);
  }

  lemma ChargeAppended(cs: seq<Charge>, t: Charge, k: nat)
    ensures On(ChargeParts(cs + [t]), k) == On(ChargeParts(cs), k) + (if k == t.owner then t.bytes else 0)
  {
    OnAppend(ChargeParts(cs), Part(t.owner, t.bytes), k);
    assert ChargeParts(cs + [t]) == ChargeParts(cs) + [Part(t.owner, t.bytes)];
  }

  /** Turning a thread's credit into retained bytes keeps its slot fine. */
  lemma RetainedFits(cfg: Config, serving: bool, shared: u64, shared': u64, s: nat, v: View, owner: Owner, bytes: u64)
    requires cfg.Valid() && ViewOk(cfg, serving, shared, s, v) && owner != Consumed && MayRetain(cfg, serving, s)
    requires bytes <= v.credit && bytes <= v.pendingCredit && v.shard.retained + bytes <= U64_MAX
    requires s > 0 ==> shared' == shared
    ensures ViewOk(cfg, serving, shared', s, RetainedView(cfg, v, Retaining(owner, bytes), bytes))
  {
  }

  lemma RetainKeeps(cfg: Config, st: State, t: nat, bytes: u64)
    requires cfg.Valid() && Roomy(cfg) && Inv(cfg, st) && t < cfg.Threads()
    requires st.pcs[t].Retaining? && st.pcs[t].owner != Consumed && st.pcs[t].bytes == bytes
    ensures Inv(cfg, AfterRetain(cfg, st, t))
  {
    var s, owner := cfg.SlotOf(t), st.pcs[t].owner;
    RetainedOk(cfg, st, t, bytes);
    RetainMoves(cfg, st, t);
    RetainedOnly(cfg, st, t, bytes, owner == Owned);
    ChargeAdded(st.covers, st.reservations, st.charges, Charge(s, bytes));
    SlotStepKeeps(cfg, st, RetainedState(st, t, s, bytes, owner == Owned), t,
                  RetainedView(cfg, ViewOf(cfg, st, s), st.pcs[t], bytes));
  }

  lemma RetainedOnly(cfg: Config, st: State, t: nat, bytes: u64, owned: bool)
    requires cfg.Valid() && Shaped(cfg, st) && t < cfg.Threads()
    requires st.c.shards[cfg.SlotOf(t)].retained + bytes <= U64_MAX
    ensures var s := cfg.SlotOf(t);
            Only(cfg, st, RetainedState(st, t, s, bytes, owned), s,
                 RetainedView(cfg, ViewOf(cfg, st, s), st.pcs[t], bytes))
  {
    forall k | 0 <= k <= cfg.workers
      ensures var s := cfg.SlotOf(t);
              var next := RetainedState(st, t, s, bytes, owned);
              Shaped(cfg, next) &&
              ViewOf(cfg, next, k) == if k == s then RetainedView(cfg, ViewOf(cfg, st, s), st.pcs[t], bytes)
                                      else ViewOf(cfg, st, k)
    {
      RetainedViews(cfg, st, t, bytes, owned, k);
    }
  }

  lemma RetainedOk(cfg: Config, st: State, t: nat, bytes: u64)
    requires cfg.Valid() && Roomy(cfg) && Inv(cfg, st) && t < cfg.Threads()
    requires st.pcs[t].Retaining? && st.pcs[t].owner != Consumed && st.pcs[t].bytes == bytes
    ensures st.c.shards[cfg.SlotOf(t)].retained + bytes <= U64_MAX
    ensures var s := cfg.SlotOf(t);
            var zero, zero' := st.c.shards[0], RetainedState(st, t, s, bytes, st.pcs[t].owner == Owned).c.shards[0];
            SharedMayChange(cfg, st.serving, zero.retained, zero'.retained) &&
            ZeroMayChange(cfg, st.serving, s, zero, zero') &&
            ViewOk(cfg, st.serving, zero'.retained, s, RetainedView(cfg, ViewOf(cfg, st, s), st.pcs[t], bytes))
  {
    var s := cfg.SlotOf(t);
    assert ThreadOk(cfg, st.serving, st.c.shards[0], s, st.pcs[t]);
    Settled(cfg, st, t);
    CreditRoom(cfg, st, t);
    PcBounds(cfg, st.pcs, t);
    var zero' := RetainedState(st, t, s, bytes, st.pcs[t].owner == Owned).c.shards[0];
    RetainAllowed(cfg, st.serving, s, st.c.shards[0], zero');
    RetainedFits(cfg, st.serving, st.c.shards[0].retained, zero'.retained, s, ViewOf(cfg, st, s), st.pcs[t].owner,
                 bytes);
  }

  // ----- retaining under an open reservation

  ghost function CoveredView(v: View, extra: nat): View
    requires v.shard.retained + extra <= U64_MAX
  {
    v.(shard := v.shard.(retained := v.shard.retained + extra), charged := v.charged + extra,
       covered := v.covered + extra)
  }

  lemma CoveredFits(cfg: Config, serving: bool, shared: u64, shared': u64, s: nat, v: View, extra: nat)
    requires cfg.Valid() && ViewOk(cfg, serving, shared, s, v) && MayRetain(cfg, serving, s)
    requires v.shard.retained + extra <= U64_MAX && v.covered + extra <= v.reserved && (s > 0 ==> shared' == shared)
    ensures ViewOk(cfg, serving, shared', s, CoveredView(v, extra))
  {
  }

  /** The covered bytes fit the reservation, hence the slot, hence 64 bits. */
  lemma CoveredRoom(cfg: Config, st: State, covers: seq<Cover>, cs: seq<Charge>, i: nat, t: nat, extra: nat)
    requires cfg.Valid() && Roomy(cfg) && Inv(cfg, st) && i < |st.reservations| && CoversOk(covers, st.reservations, cs)
    requires IdleOn(cfg, st, t, st.reservations[i].shard)
    requires Amount(covers, OnSlot(st.reservations[i].shard)) == Covered(st, st.reservations[i].shard) + extra
    ensures var s := st.reservations[i].shard;
            Covered(st, s) + extra <= Reserved(st, s) && st.c.shards[s].retained + extra <= Capacity(cfg, s) <= U64_MAX
  {
    var s := st.reservations[i].shard;
    Settled(cfg, st, t);
    CoverIsReserved(covers, st.reservations, cs, s);
    CapacityFits(cfg, s);
  }

  /** `extra` bytes more on slot `s`, with what answers for them. */
  ghost function RaisedState(st: State, s: nat, extra: nat, cs: seq<Charge>, owned: seq<bool>,
      covers: seq<Cover>): State
    requires s < |st.c.shards| && st.c.shards[s].retained + extra <= U64_MAX
  {
    st.(c := st.c.(shards := st.c.shards[s := st.c.shards[s].(retained := st.c.shards[s].retained + extra)]),
        charges := cs, owned := owned, covers := covers)
  }

  ghost predicate Raises(cfg: Config, st: State, s: nat, extra: nat, cs: seq<Charge>, owned: seq<bool>,
      covers: seq<Cover>)
  {
    |owned| == |cs| && (forall j :: 0 <= j < |cs| ==> cs[j].owner <= cfg.workers) &&
    forall k :: 0 <= k <= cfg.workers ==>
      On(ChargeParts(cs), k) == Charged(st, k) + (if k == s then extra else 0) &&
      Amount(covers, OnSlot(k)) == Covered(st, k) + (if k == s then extra else 0)
  }

  lemma RaisedViews(cfg: Config, st: State, s: nat, extra: nat, cs: seq<Charge>, owned: seq<bool>, covers: seq<Cover>)
    requires cfg.Valid() && Shaped(cfg, st) && s <= cfg.workers && st.c.shards[s].retained + extra <= U64_MAX
    requires Raises(cfg, st, s, extra, cs, owned, covers)
    ensures Only(cfg, st, RaisedState(st, s, extra, cs, owned, covers), s, CoveredView(ViewOf(cfg, st, s), extra))
  {
  }

  lemma CoveredRetainKeeps(cfg: Config, st: State, i: nat, t: nat, extra: nat, cs: seq<Charge>, owned: seq<bool>,
      covers: seq<Cover>)
    requires cfg.Valid() && Roomy(cfg) && Inv(cfg, st) && OpenFor(cfg, st, i, t, extra)
    requires CoversOk(covers, st.reservations, cs)
    requires Raises(cfg, st, st.reservations[i].shard, extra, cs, owned, covers)
    ensures var s := st.reservations[i].shard;
            st.c.shards[s].retained + extra <= U64_MAX && Inv(cfg, RaisedState(st, s, extra, cs, owned, covers))
  {
    var s := st.reservations[i].shard;
    RaisedOk(cfg, st, i, t, extra, cs, owned, covers);
    RaisedViews(cfg, st, s, extra, cs, owned, covers);
    SlotStepKeeps(cfg, st, RaisedState(st, s, extra, cs, owned, covers), t, CoveredView(ViewOf(cfg, st, s), extra));
  }

  lemma RaisedOk(cfg: Config, st: State, i: nat, t: nat, extra: nat, cs: seq<Charge>, owned: seq<bool>,
      covers: seq<Cover>)
    requires cfg.Valid() && Roomy(cfg) && Inv(cfg, st) && OpenFor(cfg, st, i, t, extra)
    requires CoversOk(covers, st.reservations, cs)
    requires Raises(cfg, st, st.reservations[i].shard, extra, cs, owned, covers)
    ensures st.c.shards[st.reservations[i].shard].retained + extra <= U64_MAX
    ensures var s := st.reservations[i].shard;
            var zero, zero' := st.c.shards[0], RaisedState(st, s, extra, cs, owned, covers).c.shards[0];
            SharedMayChange(cfg, st.serving, zero.retained, zero'.retained) &&
            ZeroMayChange(cfg, st.serving, s, zero, zero') &&
            ViewOk(cfg, st.serving, zero'.retained, s, CoveredView(ViewOf(cfg, st, s), extra))
  {
    var s := st.reservations[i].shard;
    Settled(cfg, st, t);
    CoveredRoom(cfg, st, covers, cs, i, t, extra);
    var zero' := RaisedState(st, s, extra, cs, owned, covers).c.shards[0];
    RetainAllowed(cfg, st.serving, s, st.c.shards[0], zero');
    CoveredFits(cfg, st.serving, st.c.shards[0].retained, zero'.retained, s, ViewOf(cfg, st, s), extra);
  }

  lemma AccountCoveredKeeps(cfg: Config, st: State, i: nat, t: nat, bytes: u64, owned: bool)
    requires cfg.Valid() && Roomy(cfg) && Inv(cfg, st) && OpenFor(cfg, st, i, t, bytes)
    ensures Inv(cfg, AfterAccount(cfg, st, i, bytes, owned))
  {
    var s := st.reservations[i].shard;
    var cs, cover := st.charges + [Charge(s, bytes)], Cover(|st.charges|, i, s, bytes);
    AccountedCovers(st.covers, st.reservations, st.charges, i, bytes);
    forall k | 0 <= k <= cfg.workers
      ensures On(ChargeParts(cs), k) == Charged(st, k) + (if k == s then bytes else 0)
      ensures Amount(st.covers + [cover], OnSlot(k)) == Covered(st, k) + (if k == s then bytes else 0)
    {
      ChargeAppended(st.charges, Charge(s, bytes), k);
      AmountAppend(st.covers, cover, OnSlot(k));
    }
    CoveredRetainKeeps(cfg, st, i, t, bytes, cs, st.owned + [owned], st.covers + [cover]);
    AccountMoves(cfg, st, i, bytes, owned);
  }

  lemma AccountMoves(cfg: Config, st: State, i: nat, bytes: u64, owned: bool)
    requires cfg.Valid() && Shaped(cfg, st) && i < |st.reservations|
    requires st.c.shards[st.reservations[i].shard].retained + bytes <= U64_MAX
    ensures var s := st.reservations[i].shard;
            AfterAccount(cfg, st, i, bytes, owned) ==
            RaisedState(st, s, bytes, st.charges + [Charge(s, bytes)], st.owned + [owned],
                        st.covers + [Cover(|st.charges|, i, s, bytes)])
  {
    AccountExact(st.c, st.reservations[i].shard, bytes);
  }

  lemma AccountedCovers(covers: seq<Cover>, rs: seq<Reservation>, cs: seq<Charge>, i: nat, bytes: u64)
    requires CoversOk(covers, rs, cs) && i < |rs| && rs[i].admitted && Amount(covers, Under(i)) + bytes <= rs[i].bytes
    ensures CoversOk(covers + [Cover(|cs|, i, rs[i].shard, bytes)], rs, cs + [Charge(rs[i].shard, bytes)])
  {
    ChargeAdded(covers, rs, cs, Charge(rs[i].shard, bytes));
    CoverAdded(covers, rs, cs + [Charge(rs[i].shard, bytes)], |cs|, i, bytes);
  }

  lemma GrowCoveredKeeps(cfg: Config, st: State, j: nat, i: nat, t: nat, bytes: u64)
    requires cfg.Valid() && Roomy(cfg) && Inv(cfg, st) && j < |st.charges| && st.charges[j].bytes < bytes
    requires OpenFor(cfg, st, i, t, bytes - st.charges[j].bytes) && st.charges[j].owner == st.reservations[i].shard
    ensures Inv(cfg, AfterGrow(cfg, st, j, i, bytes))
  {
    var s, extra := st.reservations[i].shard, bytes - st.charges[j].bytes;
    var cs, cover := st.charges[j := Charge(s, bytes)], Cover(j, i, s, extra);
    ChargeRaised(st.covers, st.reservations, st.charges, j, Charge(s, bytes));
    CoverAdded(st.covers, st.reservations, cs, j, i, extra);
    forall k | 0 <= k <= cfg.workers
      ensures On(ChargeParts(cs), k) == Charged(st, k) + (if k == s then extra else 0)
      ensures Amount(st.covers + [cover], OnSlot(k)) == Covered(st, k) + (if k == s then extra else 0)
    {
      ChargeReplaced(st.charges, j, Charge(s, bytes), k);
      AmountAppend(st.covers, cover, OnSlot(k));
    }
    CoveredRetainKeeps(cfg, st, i, t, extra, cs, st.owned, st.covers + [cover]);
    GrowMoves(cfg, st, j, i, bytes, extra);
  }

  lemma GrowMoves(cfg: Config, st: State, j: nat, i: nat, bytes: u64, extra: nat)
    requires cfg.Valid() && Shaped(cfg, st) && i < |st.reservations| && j < |st.charges|
    requires extra > 0 && st.charges[j].bytes + extra == bytes
    requires st.c.shards[st.charges[j].owner].retained + extra <= U64_MAX
    ensures var s := st.charges[j].owner;
            AfterGrow(cfg, st, j, i, bytes) ==
            RaisedState(st, s, extra, st.charges[j := Charge(s, bytes)], st.owned, st.covers + [Cover(j, i, s, extra)])
  {
    AccountExact(st.c, st.charges[j].owner, extra);
  }

  lemma ChargeReplaced(cs: seq<Charge>, j: nat, t: Charge, k: nat)
    requires j < |cs|
    ensures On(ChargeParts(cs[j := t]), k)
         == On(ChargeParts(cs), k) - (if k == cs[j].owner then cs[j].bytes else 0)
            + (if k == t.owner then t.bytes else 0)
    ensures k == cs[j].owner ==> cs[j].bytes <= On(ChargeParts(cs), k)
  {
    OnBounds(ChargeParts(cs), j, k);
    OnUpdate(ChargeParts(cs), j, Part(t.owner, t.bytes), k);
    assert ChargeParts(cs[j := t]) == ChargeParts(cs)[j := Part(t.owner, t.bytes)];
  }

  // ----- giving retained bytes back

  ghost function LoweredView(v: View, less: nat, uncovered: nat): View
    requires less <= v.shard.retained && uncovered <= v.covered
  {
    v.(shard := v.shard.(retained := v.shard.retained - less), charged := v.charged - less,
       covered := v.covered - uncovered)
  }

  lemma LoweredFits(cfg: Config, serving: bool, shared: u64, shared': u64, s: nat, v: View, less: nat, uncovered: nat)
    requires cfg.Valid() && ViewOk(cfg, serving, shared, s, v)
    requires uncovered <= less <= v.shard.retained && uncovered <= v.covered && less <= v.charged
    requires shared' <= shared && (s > 0 ==> shared' == shared)
    ensures ViewOk(cfg, serving, shared', s, LoweredView(v, less, uncovered))
  {
  }

  ghost function LoweredState(st: State, j: nat, token: Charge, less: nat): State
    requires j < |st.charges| && st.charges[j].owner < |st.c.shards|
    requires less <= st.c.shards[st.charges[j].owner].retained
  {
    var s := st.charges[j].owner;
    st.(c := st.c.(shards := st.c.shards[s := st.c.shards[s].(retained := st.c.shards[s].retained - less)]),
        charges := st.charges[j := token], covers := Lower(st.covers, OfCharge(j), less))
  }

  lemma ShrinkKeeps(cfg: Config, st: State, j: nat, bytes: u64)
    requires cfg.Valid() && Inv(cfg, st) && j < |st.charges| && bytes <= st.charges[j].bytes
    ensures Inv(cfg, AfterShrink(cfg, st, j, bytes))
  {
    LowerKeeps(cfg, st, j, Charge(st.charges[j].owner, bytes));
    ShrinkMoves(cfg, st, j, bytes);
  }

  lemma ShrinkMoves(cfg: Config, st: State, j: nat, bytes: u64)
    requires cfg.Valid() && Shaped(cfg, st) && j < |st.charges| && bytes <= st.charges[j].bytes
    requires st.charges[j].bytes <= st.c.shards[st.charges[j].owner].retained
    ensures AfterShrink(cfg, st, j, bytes)
         == LoweredState(st, j, Charge(st.charges[j].owner, bytes), st.charges[j].bytes - bytes)
  {
    var s := st.charges[j].owner;
    ReleaseExact(st.c, s, st.charges[j].bytes - bytes);
    assert st.c.shards[s := st.c.shards[s]] == st.c.shards;
  }

  lemma ResetKeeps(cfg: Config, st: State, j: nat)
    requires cfg.Valid() && Inv(cfg, st) && j < |st.charges|
    ensures Inv(cfg, AfterReset(cfg, st, j))
  {
    var token := if st.charges[j].bytes == 0 then st.charges[j] else EMPTY_CHARGE;
    LowerKeeps(cfg, st, j, token);
    ResetMoves(cfg, st, j, token);
  }

  lemma ResetMoves(cfg: Config, st: State, j: nat, token: Charge)
    requires cfg.Valid() && Shaped(cfg, st) && j < |st.charges|
    requires token == if st.charges[j].bytes == 0 then st.charges[j] else EMPTY_CHARGE
    requires st.charges[j].bytes <= st.c.shards[st.charges[j].owner].retained
    ensures AfterReset(cfg, st, j) == LoweredState(st, j, token, st.charges[j].bytes)
  {
    var s := st.charges[j].owner;
    if st.charges[j].bytes == 0 {
      assert st.c.shards[s := st.c.shards[s]] == st.c.shards;
    } else {
      ResetIsExact(st.c, st.charges[j]);
    }
  }

  /** A charge's bytes are inside its owner's counter, so giving back any part of
      them cannot underflow, on whatever thread it happens. */
  lemma LowerKeeps(cfg: Config, st: State, j: nat, token: Charge)
    requires cfg.Valid() && Inv(cfg, st) && j < |st.charges|
    requires token.bytes <= st.charges[j].bytes && (token.owner == st.charges[j].owner || token == EMPTY_CHARGE)
    ensures st.charges[j].bytes <= st.c.shards[st.charges[j].owner].retained
    ensures Inv(cfg, LoweredState(st, j, token, st.charges[j].bytes - token.bytes))
  {
    var s, less := st.charges[j].owner, st.charges[j].bytes - token.bytes;
    var uncovered := Min(less, Amount(st.covers, OfCharge(j)));
    LowerRoom(cfg, st, j, less, uncovered);
    LoweredViews(cfg, st, j, token, less, uncovered);
    ChargeLowered(st.covers, st.reservations, st.charges, j, token);
    LoweredSlot(cfg, st, LoweredState(st, j, token, less), s, less, uncovered);
    QuietStepKeeps(cfg, st, LoweredState(st, j, token, less), s, LoweredView(ViewOf(cfg, st, s), less, uncovered));
  }

  lemma LowerRoom(cfg: Config, st: State, j: nat, less: nat, uncovered: nat)
    requires cfg.Valid() && Inv(cfg, st) && j < |st.charges| && less <= st.charges[j].bytes
    requires uncovered == Min(less, Amount(st.covers, OfCharge(j)))
    ensures var s := st.charges[j].owner;
            st.charges[j].bytes <= st.c.shards[s].retained && uncovered <= Covered(st, s) && less <= Charged(st, s)
  {
    var s := st.charges[j].owner;
    assert SlotOk(cfg, st, s);
    OnBounds(ChargeParts(st.charges), j, s);
    LoweredOnSlot(st.covers, st.reservations, st.charges, j, less, s);
  }

  lemma LoweredSlot(cfg: Config, st: State, next: State, s: nat, less: nat, uncovered: nat)
    requires cfg.Valid() && Inv(cfg, st) && s <= cfg.workers && next.pcs == st.pcs
    requires uncovered <= less <= st.c.shards[s].retained && uncovered <= Covered(st, s) && less <= Charged(st, s)
    requires Only(cfg, st, next, s, LoweredView(ViewOf(cfg, st, s), less, uncovered))
    ensures SlotOk(cfg, next, s) && next.c.shards[0].retained <= st.c.shards[0].retained
  {
    var shared, shared' := st.c.shards[0].retained, next.c.shards[0].retained;
    assert shared' == ViewOf(cfg, next, 0).shard.retained;
    assert SlotOk(cfg, st, s);
    var v := ViewOf(cfg, st, s);
    if SlotSettled(cfg, st, s) {
      LoweredFits(cfg, st.serving, shared, shared', s, v, less, uncovered);
    } else {
      var t: nat :| Spared(cfg, st, t) && FineWithout(cfg, st, t);
      LoweredFits(cfg, st.serving, shared, shared', s, v.(credit := v.credit - Credit(cfg, st.pcs[t])), less,
                  uncovered);
      assert Spared(cfg, next, t) && FineWithout(cfg, next, t);
    }
  }

  lemma LoweredViews(cfg: Config, st: State, j: nat, token: Charge, less: nat, uncovered: nat)
    requires cfg.Valid() && Shaped(cfg, st) && CoversOk(st.covers, st.reservations, st.charges) && j < |st.charges|
    requires less == st.charges[j].bytes - token.bytes && uncovered == Min(less, Amount(st.covers, OfCharge(j)))
    requires token.owner == st.charges[j].owner || token == EMPTY_CHARGE
    requires less <= st.c.shards[st.charges[j].owner].retained && uncovered <= Covered(st, st.charges[j].owner)
    ensures var s := st.charges[j].owner;
            Only(cfg, st, LoweredState(st, j, token, less), s, LoweredView(ViewOf(cfg, st, s), less, uncovered))
  {
    var s, cs, covers := st.charges[j].owner, st.charges[j := token], Lower(st.covers, OfCharge(j), less);
    forall k | 0 <= k <= cfg.workers
      ensures On(ChargeParts(cs), k) == Charged(st, k) - (if k == s then less else 0)
      ensures Amount(covers, OnSlot(k)) == Covered(st, k) - (if k == s then uncovered else 0)
    {
      LoweredSums(cfg, st, j, token, less, uncovered, k);
    }
    LessViews(cfg, st, s, less, uncovered, cs, covers);
  }

  /** `less` bytes fewer on slot `s`, `uncovered` of them no longer covered. */
  lemma LessViews(cfg: Config, st: State, s: nat, less: nat, uncovered: nat, cs: seq<Charge>, covers: seq<Cover>)
    requires cfg.Valid() && Shaped(cfg, st) && s <= cfg.workers && less <= st.c.shards[s].retained
    requires uncovered <= Covered(st, s)
    requires |cs| == |st.charges| && forall j :: 0 <= j < |cs| ==> cs[j].owner <= cfg.workers
    requires forall k :: 0 <= k <= cfg.workers ==>
               On(ChargeParts(cs), k) == Charged(st, k) - (if k == s then less else 0) &&
               Amount(covers, OnSlot(k)) == Covered(st, k) - (if k == s then uncovered else 0)
    ensures var c := st.c.(shards := st.c.shards[s := st.c.shards[s].(retained := st.c.shards[s].retained - less)]);
            Only(cfg, st, st.(c := c, charges := cs, covers := covers), s,
                 LoweredView(ViewOf(cfg, st, s), less, uncovered))
  {
  }

  lemma LoweredSums(cfg: Config, st: State, j: nat, token: Charge, less: nat, uncovered: nat, k: nat)
    requires CoversOk(st.covers, st.reservations, st.charges) && j < |st.charges|
    requires less == st.charges[j].bytes - token.bytes && uncovered == Min(less, Amount(st.covers, OfCharge(j)))
    requires token.owner == st.charges[j].owner || token == EMPTY_CHARGE
    ensures On(ChargeParts(st.charges[j := token]), k)
         == Charged(st, k) - (if k == st.charges[j].owner then less else 0)
    ensures Amount(Lower(st.covers, OfCharge(j), less), OnSlot(k))
         == Covered(st, k) - (if k == st.charges[j].owner then uncovered else 0)
  {
    LoweredOnSlot(st.covers, st.reservations, st.charges, j, less, k);
    ChargeReplaced(st.charges, j, token, k);
  }

  lemma MoveChargeKeeps(cfg: Config, st: State, j: nat, k: nat)
    requires cfg.Valid() && Inv(cfg, st) && j < |st.charges| && k < |st.charges| && j != k && st.charges[k].bytes == 0
    ensures Inv(cfg, AfterMoveCharge(st, j, k))
  {
    var next := AfterMoveCharge(st, j, k);
    ChargeMoved(st.covers, st.reservations, st.charges, j, k);
    var parts := ChargeParts(st.charges);
    assert ChargeParts(next.charges) == parts[k := parts[j]][j := Part(0, 0)];
    forall s | 0 <= s <= cfg.workers
      ensures ViewOf(cfg, next, s) == ViewOf(cfg, st, s)
    {
      Swapped(parts, j, k, s);
      AmountAgrees(next.covers, OnSlot(s), st.covers, OnSlot(s));
    }
    SilentStepKeeps(cfg, st, next);
  }

  // ----- client buffers and the start of service

  /** Client bytes and connections are nobody else's concern. */
  lemma ClientStepKeeps(cfg: Config, st: State, next: State)
    requires cfg.Valid() && Inv(cfg, st) && Shaped(cfg, next) && next == st.(c := next.c, holds := next.holds)
    requires ClientsOnly(st.c, next.c)
    ensures Inv(cfg, next)
  {
    forall k | 0 <= k <= cfg.workers
      ensures SlotOk(cfg, next, k)
    {
      assert SlotOk(cfg, st, k);
      var v := ViewOf(cfg, next, k);
      assert v == ViewOf(cfg, st, k).(shard := v.shard, mirror := v.mirror);
      if !SlotSettled(cfg, st, k) {
        var t: nat :| Spared(cfg, st, t) && FineWithout(cfg, st, t);
        assert Spared(cfg, next, t) && FineWithout(cfg, next, t);
      }
    }
    NoThreadChanged(cfg, st, next);
  }

  lemma OpenClientKeeps(cfg: Config, st: State, s: nat)
    requires cfg.Valid() && Inv(cfg, st) && s <= cfg.workers
    ensures Inv(cfg, st.(holds := st.holds + [ClientHold(0, s)]))
  {
    ClientStepKeeps(cfg, st, st.(holds := st.holds + [ClientHold(0, s)]));
  }

  lemma ClientAcquireKeeps(cfg: Config, st: State, h: nat, bytes: u64)
    requires cfg.Valid() && Inv(cfg, st) && h < |st.holds|
    ensures Inv(cfg, AfterClientAcquire(cfg, st, h, bytes))
  {
    AcquireTouchesClients(st.c, st.holds[h], bytes, cfg.maximum, cfg.clientLimit, cfg.workers);
    ClientStepKeeps(cfg, st, AfterClientAcquire(cfg, st, h, bytes));
  }

  lemma ClientReleaseKeeps(cfg: Config, st: State, h: nat, bytes: u64)
    requires cfg.Valid() && Inv(cfg, st) && h < |st.holds| && bytes <= st.holds[h].bytes
    ensures Inv(cfg, AfterClientRelease(cfg, st, h, bytes))
  {
    ClientStepKeeps(cfg, st, AfterClientRelease(cfg, st, h, bytes));
  }

  lemma StartServingKeeps(cfg: Config, st: State)
    requires cfg.Valid() && Inv(cfg, st) && !st.serving
    requires cfg.unboundRetains || forall t :: 0 <= t < cfg.Threads() && cfg.SlotOf(t) == 0 ==> !st.pcs[t].Retaining?
    ensures Inv(cfg, st.(serving := true))
  {
    var next := st.(serving := true);
    forall k | 0 <= k <= cfg.workers
      ensures SlotOk(cfg, next, k)
    {
      assert SlotOk(cfg, st, k);
      assert ViewOf(cfg, next, k) == ViewOf(cfg, st, k);
      if !SlotSettled(cfg, st, k) {
        var t: nat :| Spared(cfg, st, t) && FineWithout(cfg, st, t);
        assert Spared(cfg, next, t) && FineWithout(cfg, next, t);
      }
    }
    forall t | 0 <= t < cfg.Threads()
      ensures ThreadOk(cfg, true, next.c.shards[0], cfg.SlotOf(t), next.pcs[t])
    {
      assert ThreadOk(cfg, false, st.c.shards[0], cfg.SlotOf(t), st.pcs[t]);
    }
  }
}
