/** The steps in which a thread reads and decides keep the invariant. Such a step
    changes no counter, only what the thread may do next. */
module MemoryAdmission {
  import opened Arithmetic
  import opened MachineInts
  import opened MemoryLimits
  import opened MemoryMachine
  import opened MemorySafety
  import opened Sums

  /** The view of a slot after one of its threads moved on. */
  ghost function Moved(cfg: Config, v: View, was: Pc, now: Pc): View {
    v.(credit := v.credit - Credit(cfg, was) + Credit(cfg, now),
       pendingCredit := v.pendingCredit - PendingCredit(cfg, was) + PendingCredit(cfg, now),
       transit := v.transit - Transit(was) + Transit(now))
  }

  lemma MovedView(cfg: Config, st: State, t: nat, pc: Pc, k: nat)
    requires Shaped(cfg, st) && t < cfg.Threads() && k <= cfg.workers
    ensures ViewOf(cfg, WithPc(st, t, pc), k)
         == if k == cfg.SlotOf(t) then Moved(cfg, ViewOf(cfg, st, k), st.pcs[t], pc) else ViewOf(cfg, st, k)
  {
    PcChanged(cfg, st.pcs, t, pc, k);
  }

  lemma MovingKeeps(cfg: Config, st: State, t: nat, pc: Pc)
    requires cfg.Valid() && Inv(cfg, st) && t < cfg.Threads()
    requires ThreadOk(cfg, st.serving, st.c.shards[0], cfg.SlotOf(t), pc)
    requires SlotOk(cfg, WithPc(st, t, pc), cfg.SlotOf(t))
    ensures Inv(cfg, WithPc(st, t, pc))
  {
    var next, s := WithPc(st, t, pc), cfg.SlotOf(t);
    forall k | 0 <= k <= cfg.workers
      ensures k != s ==> ViewOf(cfg, next, k) == ViewOf(cfg, st, k)
    {
      MovedView(cfg, st, t, pc, k);
    }
    OneThreadChanged(cfg, st, next, t);
    OneSlotChanged(cfg, st, next, s);
  }

  /** Moving on without gaining anything. */
  lemma MovingFreelyKeeps(cfg: Config, st: State, t: nat, pc: Pc)
    requires cfg.Valid() && Inv(cfg, st) && t < cfg.Threads() && !Early(cfg, st.pcs[t])
    requires ThreadOk(cfg, st.serving, st.c.shards[0], cfg.SlotOf(t), pc)
    requires Credit(cfg, pc) <= Credit(cfg, st.pcs[t]) && PendingCredit(cfg, pc) <= PendingCredit(cfg, st.pcs[t])
    requires Transit(pc) == Transit(st.pcs[t])
    ensures Inv(cfg, WithPc(st, t, pc))
  {
    Settled(cfg, st, t);
    PcBounds(cfg, st.pcs, t);
    MovedView(cfg, st, t, pc, cfg.SlotOf(t));
    MovingKeeps(cfg, st, t, pc);
  }

  // ----- the threads of one slot

  /** A worker's slot has that worker's credit. */
  lemma OwnCredit(cfg: Config, pcs: seq<Pc>, s: nat)
    requires cfg.Valid() && |pcs| == cfg.Threads() && 0 < s <= cfg.workers
    ensures On(CreditParts(cfg, pcs), s) == Credit(cfg, pcs[s])
    ensures On(PendingCreditParts(cfg, pcs), s) == PendingCredit(cfg, pcs[s])
  {
    Alone(CreditParts(cfg, pcs), s, s);
    Alone(PendingCreditParts(cfg, pcs), s, s);
  }

  lemma Alone(parts: seq<Part>, t: nat, s: nat)
    requires t < |parts| && parts[t].slot == s
    requires forall u :: 0 <= u < |parts| && u != t ==> parts[u].slot != s
    ensures On(parts, s) == parts[t].amount
  {
    OnUpdate(parts, t, Part(s, 0), s);
    SumZero(Amounts(parts[t := Part(s, 0)], s));
  }

  /** How many of the first `n` threads are unbound. */
  ghost function UnboundAmong(cfg: Config, n: nat): nat {
    if n == 0 then 0 else if n <= cfg.workers + 1 then 1 else n - cfg.workers
  }

  ghost function FullParts(cfg: Config, each: nat, n: nat): seq<Part> {
    seq(n, t requires 0 <= t < n => Part(cfg.SlotOf(t), each))
  }

  lemma {:induction false} FullPartsSum(cfg: Config, each: nat, n: nat)
    ensures On(FullParts(cfg, each, n), 0) == UnboundAmong(cfg, n) * each
    decreases n
  {
    if n == 0 {
      assert FullParts(cfg, each, 0) == [];
    } else {
      FullPartsSum(cfg, each, n - 1);
      assert FullParts(cfg, each, n) == FullParts(cfg, each, n - 1) + [Part(cfg.SlotOf(n - 1), each)];
      OnAppend(FullParts(cfg, each, n - 1), Part(cfg.SlotOf(n - 1), each), 0);
      OneMore(UnboundAmong(cfg, n - 1), each);
    }
  }

  /** An amount for each thread, and at most the limit for each unbound one. */
  ghost predicate Limited(cfg: Config, parts: seq<Part>) {
    |parts| == cfg.Threads() &&
    forall u :: 0 <= u < |parts| ==>
      parts[u].slot == cfg.SlotOf(u) && (parts[u].slot == 0 ==> parts[u].amount <= cfg.limit)
  }

  /** All but thread `t` have at most the limit once each. */
  lemma OneApart(cfg: Config, parts: seq<Part>, t: nat)
    requires cfg.Valid() && Limited(cfg, parts) && t < cfg.Threads() && cfg.SlotOf(t) == 0
    ensures On(parts, 0) <= parts[t].amount + Overlapping(cfg)
  {
    var full := FullParts(cfg, cfg.limit, cfg.Threads())[t := parts[t]];
    FullPartsSum(cfg, cfg.limit, cfg.Threads());
    AddedIsProduct(0, cfg.unbound - 1, cfg.limit);
    OneMore(cfg.unbound - 1, cfg.limit);
    OnUpdate(FullParts(cfg, cfg.limit, cfg.Threads()), t, parts[t], 0);
    OnBelow(parts, full, 0);
  }

  /** All but the threads `t` and `v` have at most the limit once each. */
  lemma TwoApart(cfg: Config, parts: seq<Part>, t: nat, v: nat)
    requires cfg.Valid() && Limited(cfg, parts) && t < cfg.Threads() && v < cfg.Threads() && t != v
    requires cfg.SlotOf(t) == 0 == cfg.SlotOf(v)
    ensures On(parts, 0) + cfg.limit <= parts[t].amount + parts[v].amount + Overlapping(cfg)
  {
    var more := parts[v := Part(0, cfg.limit)];
    OnUpdate(parts, v, Part(0, cfg.limit), 0);
    OneApart(cfg, more, t);
  }

  // ----- workers

  lemma ReadSharedKeeps(cfg: Config, st: State, s: nat, kind: Kind, bytes: u64)
    requires cfg.Valid() && Inv(cfg, st) && 0 < s <= cfg.workers && st.pcs[s].Idle? && st.serving
    ensures Inv(cfg, WithPc(st, s, SawShared(kind, bytes, st.c.shards[0].retained)))
  {
    MovingFreelyKeeps(cfg, st, s, SawShared(kind, bytes, st.c.shards[0].retained));
  }

  /** The decision rests on a possibly stale, hence too large, reading of slot 0
      and on own bytes that only others can have lowered since. */
  lemma DecideKeeps(cfg: Config, st: State, s: nat)
    requires cfg.Valid() && Inv(cfg, st) && 0 < s <= cfg.workers && st.pcs[s].SawShared?
    ensures Inv(cfg, AfterDecide(cfg, st, s))
  {
    assert ThreadOk(cfg, st.serving, st.c.shards[0], cfg.SlotOf(s), st.pcs[s]);
    assert SlotOk(cfg, st, s);
    OwnCredit(cfg, st.pcs, s);
    if cfg.Disciplined() {
      ShareMonotone(st.c.shards[0].retained, st.pcs[s].shared, s - 1, cfg.workers);
    }
    MovedView(cfg, st, s, AfterDecide(cfg, st, s).pcs[s], s);
    MovingKeeps(cfg, st, s, AfterDecide(cfg, st, s).pcs[s]);
  }

  // ----- unbound threads

  lemma BeginSumKeeps(cfg: Config, st: State, t: nat, bytes: u64)
    requires cfg.Valid() && Inv(cfg, st) && t < cfg.Threads() && cfg.SlotOf(t) == 0 && st.pcs[t].Idle? && bytes > 0
    ensures Inv(cfg, WithPc(st, t, Summing(bytes, 0, 0)))
  {
    MovingFreelyKeeps(cfg, st, t, Summing(bytes, 0, 0));
  }

  lemma ReadNextKeeps(cfg: Config, st: State, t: nat)
    requires cfg.Valid() && Inv(cfg, st) && t < cfg.Threads()
    requires st.pcs[t].Summing? && st.pcs[t].next < Readings(cfg.workers)
    ensures Inv(cfg, AfterReadNext(cfg, st, t))
  {
    var was, now := st.pcs[t], AfterReadNext(cfg, st, t).pcs[t];
    assert ThreadOk(cfg, st.serving, st.c.shards[0], cfg.SlotOf(t), was);
    if Early(cfg, was) {
      if Early(cfg, now) {
        StayingEarly(cfg, st, t, now);
      } else if Credit(cfg, now) == 0 {
        GivingUp(cfg, st, t, now);
      } else {
        PendingReadingFits(cfg, st, t, now);
      }
      MovingKeeps(cfg, st, t, now);
    } else if Early(cfg, now) {
      FirstReadingFits(cfg, st, t, now);
      MovingKeeps(cfg, st, t, now);
    } else {
      MovingFreelyKeeps(cfg, st, t, now);
    }
  }

  /** What an unbound thread may have: its bytes, never more than the limit, and all of
      it pending credit unless the thread is early. */
  lemma CreditBelowLimit(cfg: Config, st: State, u: nat)
    requires cfg.Valid() && Inv(cfg, st) && u < cfg.Threads() && cfg.SlotOf(u) == 0
    ensures PendingCredit(cfg, st.pcs[u]) <= Credit(cfg, st.pcs[u]) <= cfg.limit
    ensures !Early(cfg, st.pcs[u]) ==> PendingCredit(cfg, st.pcs[u]) == Credit(cfg, st.pcs[u])
  {
    assert ThreadOk(cfg, st.serving, st.c.shards[0], cfg.SlotOf(u), st.pcs[u]);
  }

  /** Credit that is not pending credit. */
  ghost function EarlyParts(cfg: Config, pcs: seq<Pc>): seq<Part> {
    seq(|pcs|, u requires 0 <= u < |pcs| => Part(cfg.SlotOf(u), if Early(cfg, pcs[u]) then pcs[u].bytes else 0))
  }

  lemma EarlySplits(cfg: Config, st: State)
    requires cfg.Valid() && Inv(cfg, st)
    ensures On(CreditParts(cfg, st.pcs), 0) == On(PendingCreditParts(cfg, st.pcs), 0) + On(EarlyParts(cfg, st.pcs), 0)
    ensures Limited(cfg, CreditParts(cfg, st.pcs)) && Limited(cfg, PendingCreditParts(cfg, st.pcs))
    ensures Limited(cfg, EarlyParts(cfg, st.pcs))
  {
    forall u | 0 <= u < |st.pcs| && cfg.SlotOf(u) == 0
      ensures PendingCredit(cfg, st.pcs[u]) <= Credit(cfg, st.pcs[u]) <= cfg.limit
      ensures !Early(cfg, st.pcs[u]) ==> PendingCredit(cfg, st.pcs[u]) == Credit(cfg, st.pcs[u])
    {
      CreditBelowLimit(cfg, st, u);
    }
    SumAdd(Amounts(PendingCreditParts(cfg, st.pcs), 0), Amounts(EarlyParts(cfg, st.pcs), 0),
           Amounts(CreditParts(cfg, st.pcs), 0));
  }

  /** Slot 0's retained bytes leave room for these. Either they are spared, or another
      operation is not early, and the rest have at most the limit each beyond what is
      pending or about to be. */
  lemma FirstReadingFits(cfg: Config, st: State, t: nat, now: Pc)
    requires cfg.Valid() && Inv(cfg, st) && t < cfg.Threads() && cfg.SlotOf(t) == 0
    requires st.pcs[t].Summing? && st.pcs[t].next == 0 && Early(cfg, now)
    requires now == Summing(st.pcs[t].bytes, 1, st.c.shards[0].retained)
    ensures SlotOk(cfg, WithPc(st, t, now), 0)
  {
    var next := WithPc(st, t, now);
    Settled(cfg, st, t);
    MovedView(cfg, st, t, now, 0);
    if AllEarly(cfg, next.pcs) {
      assert Spared(cfg, next, t) && FineWithout(cfg, next, t);
    } else {
      var v :| 0 <= v < |next.pcs| && cfg.SlotOf(v) == 0 && !Early(cfg, next.pcs[v]);
      FirstRoom(cfg, st, t, v);
      ZeroFits(cfg, st, next);
    }
  }

  lemma FirstRoom(cfg: Config, st: State, t: nat, v: nat)
    requires cfg.Valid() && Inv(cfg, st) && t < cfg.Threads() && cfg.SlotOf(t) == 0 && !Early(cfg, st.pcs[t])
    requires v < cfg.Threads() && cfg.SlotOf(v) == 0 && !Early(cfg, st.pcs[v]) && t != v
    ensures var zero := st.c.shards[0];
            zero.pending - Covered(st, 0) + On(CreditParts(cfg, st.pcs), 0) <= 2 * Overlapping(cfg)
  {
    assert SlotOk(cfg, st, 0);
    EarlySplits(cfg, st);
    TwoApart(cfg, EarlyParts(cfg, st.pcs), t, v);
  }

  /** Moving one thread keeps slot 0 fine where its bytes still fit. */
  lemma ZeroFits(cfg: Config, st: State, next: State)
    requires cfg.Valid() && Inv(cfg, st) && Shaped(cfg, next) && next.serving == st.serving
    requires var v, w := ViewOf(cfg, st, 0), ViewOf(cfg, next, 0);
             w == v.(credit := w.credit, pendingCredit := w.pendingCredit) && 0 <= w.credit && 0 <= w.pendingCredit &&
             w.shard.retained + w.shard.pending - w.covered + w.credit <= Capacity(cfg, 0) &&
             w.shard.pending + w.pendingCredit <= PendingCapacity(cfg, 0)
    ensures SlotSettled(cfg, next, 0)
  {
    assert SlotOk(cfg, st, 0);
    assert next.c.shards[0] == ViewOf(cfg, next, 0).shard;
  }

  lemma StayingEarly(cfg: Config, st: State, t: nat, now: Pc)
    requires cfg.Valid() && Inv(cfg, st) && t < cfg.Threads() && cfg.SlotOf(t) == 0
    requires Early(cfg, st.pcs[t]) && Early(cfg, now) && now.bytes == st.pcs[t].bytes && st.pcs[t].total <= now.total
    ensures SlotOk(cfg, WithPc(st, t, now), 0)
  {
    var next := WithPc(st, t, now);
    MovedView(cfg, st, t, now, 0);
    assert ViewOf(cfg, next, 0) == ViewOf(cfg, st, 0);
    assert SlotOk(cfg, st, 0);
    if !SlotSettled(cfg, st, 0) {
      var v: nat :| Spared(cfg, st, v) && FineWithout(cfg, st, v);
      StillSpared(cfg, st, t, now, v);
      assert Credit(cfg, next.pcs[v]) == Credit(cfg, st.pcs[v]);
      assert FineWithout(cfg, next, v);
    }
  }

  lemma StillSpared(cfg: Config, st: State, t: nat, now: Pc, v: nat)
    requires cfg.Valid() && Shaped(cfg, st) && t < cfg.Threads() && Spared(cfg, st, v)
    requires Early(cfg, st.pcs[t]) && Early(cfg, now) && st.pcs[t].total <= now.total
    ensures Spared(cfg, WithPc(st, t, now), v)
  {
    var next := WithPc(st, t, now);
    forall u | 0 <= u < |next.pcs| && cfg.SlotOf(u) == 0
      ensures Early(cfg, next.pcs[u])
    {
      assert Early(cfg, st.pcs[u]);
    }
  }

  /** While all are early, nothing is pending credit, and the spared operation's bytes
      fit the limit with what is retained. */
  lemma SparedBounds(cfg: Config, st: State, v: nat)
    requires cfg.Valid() && Inv(cfg, st) && Spared(cfg, st, v)
    ensures On(PendingCreditParts(cfg, st.pcs), 0) == 0
    ensures st.c.shards[0].retained + Credit(cfg, st.pcs[v]) <= cfg.limit
    ensures st.c.shards[0].pending <= Overlapping(cfg) + cfg.limit && st.c.shards[0].fullsync == 0
  {
    forall u | 0 <= u < |st.pcs| && cfg.SlotOf(u) == 0
      ensures PendingCredit(cfg, st.pcs[u]) == 0
    {
      assert Early(cfg, st.pcs[u]);
    }
    SumZero(Amounts(PendingCreditParts(cfg, st.pcs), 0));
    assert SlotOk(cfg, st, 0);
  }

  /** An operation that will not be admitted gives its bytes up; if another one was
      spared, that one counts from now on. */
  lemma GivingUp(cfg: Config, st: State, t: nat, now: Pc)
    requires cfg.Valid() && Inv(cfg, st) && t < cfg.Threads() && cfg.SlotOf(t) == 0
    requires Early(cfg, st.pcs[t]) && now.Summing? && Credit(cfg, now) == 0 == PendingCredit(cfg, now)
    ensures SlotOk(cfg, WithPc(st, t, now), 0)
  {
    MovedView(cfg, st, t, now, 0);
    PcBounds(cfg, st.pcs, t);
    GivenUpRoom(cfg, st, t);
    ZeroFits(cfg, st, WithPc(st, t, now));
  }

  lemma GivenUpRoom(cfg: Config, st: State, t: nat)
    requires cfg.Valid() && Inv(cfg, st) && t < cfg.Threads() && cfg.SlotOf(t) == 0
    ensures var zero := st.c.shards[0];
            zero.retained + zero.pending - Covered(st, 0) + On(CreditParts(cfg, st.pcs), 0) - Credit(cfg, st.pcs[t])
              <= Capacity(cfg, 0) &&
            zero.pending + On(PendingCreditParts(cfg, st.pcs), 0) <= PendingCapacity(cfg, 0)
  {
    assert SlotOk(cfg, st, 0);
    if !SlotSettled(cfg, st, 0) {
      var v: nat :| Spared(cfg, st, v) && FineWithout(cfg, st, v);
      if v != t {
        SparedBounds(cfg, st, v);
        EarlySplits(cfg, st);
        TwoApart(cfg, CreditParts(cfg, st.pcs), t, v);
      }
    }
  }

  /** Slot 0's pending bytes leave room for these; the others have at most the limit
      each. */
  lemma PendingReadingFits(cfg: Config, st: State, t: nat, now: Pc)
    requires cfg.Valid() && Inv(cfg, st) && t < cfg.Threads() && cfg.SlotOf(t) == 0
    requires Early(cfg, st.pcs[t]) && now.Summing? && now.bytes == st.pcs[t].bytes && now.next == 2 * cfg.workers + 3
    requires now.total == st.pcs[t].total + st.c.shards[0].pending && now.total + now.bytes <= cfg.limit
    ensures SlotOk(cfg, WithPc(st, t, now), 0)
  {
    MovedView(cfg, st, t, now, 0);
    EarlySplits(cfg, st);
    OneApart(cfg, PendingCreditParts(cfg, st.pcs), t);
    assert SlotOk(cfg, st, 0);
    if !SlotSettled(cfg, st, 0) { NothingSpared(cfg, st, t); }
  }

  /** Where an early operation finds room in the pending bytes too, all of them fit. */
  lemma NothingSpared(cfg: Config, st: State, t: nat)
    requires cfg.Valid() && Inv(cfg, st) && t < cfg.Threads() && cfg.SlotOf(t) == 0 && Early(cfg, st.pcs[t])
    requires st.pcs[t].total + st.c.shards[0].pending + st.pcs[t].bytes <= cfg.limit
    ensures SlotSettled(cfg, st, 0)
  {
    assert SlotOk(cfg, st, 0);
    if !SlotSettled(cfg, st, 0) {
      var v: nat :| Spared(cfg, st, v) && FineWithout(cfg, st, v);
      EarlySplits(cfg, st);
      SparedBounds(cfg, st, v);
      if v == t {
        OneApart(cfg, CreditParts(cfg, st.pcs), t);
      } else {
        TwoApart(cfg, CreditParts(cfg, st.pcs), t, v);
      }
    }
  }

  lemma DecideUnboundKeeps(cfg: Config, st: State, t: nat)
    requires cfg.Valid() && Inv(cfg, st) && t < cfg.Threads()
    requires st.pcs[t].Summing? && st.pcs[t].next == Readings(cfg.workers)
    ensures Inv(cfg, AfterDecideUnbound(cfg, st, t))
  {
    assert ThreadOk(cfg, st.serving, st.c.shards[0], cfg.SlotOf(t), st.pcs[t]);
    MovingFreelyKeeps(cfg, st, t, AfterDecideUnbound(cfg, st, t).pcs[t]);
  }
}
