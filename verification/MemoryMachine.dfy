/** Memory admission as an interleaving of atomic steps. Each thread runs one
    operation at a time; every step is one access to a shared counter, so steps of
    other threads may fall between a thread's reads and the access that publishes
    its decision. */
module MemoryMachine {
  import opened MachineInts
  import opened MemoryLimits
  import opened MemoryCounters
  import opened MemoryCovers

  /** `unbound` is how many operations of threads without a worker may be in flight at
      once; a thread that has none in flight carries no state, so there may be any
      number of those. `unboundRetains` lets such threads retain memory while workers
      serve; reserving and releasing is always allowed. `limit` is what admission
      compares with, derived from `maximum`; only the theorems about `maximum` itself
      need to know how. */
  datatype Config = Config(
    workers: nat, maximum: u64, limit: u64, clientLimit: ClientBufferLimit, unbound: nat, unboundRetains: bool)
  {
    predicate Valid() {
      1 <= workers <= MAX_MEMORY_WORKERS && 0 < maximum && 0 < limit < U64_MAX &&
      (clientLimit.percentage ==> clientLimit.value <= 100) && 1 <= unbound
    }

    predicate Derived() { limit == SteadyMemoryLimit(maximum) }

    function ClientTotal(): u64
      requires Valid()
    {
      EffectiveClientBufferLimit(maximum, clientLimit)
    }

    /** Threads 1 to `workers` are the workers; thread 0 and those above have none. */
    function Threads(): nat { workers + unbound }

    function SlotOf(t: nat): nat { if t <= workers then t else 0 }

    /** One unbound operation at a time, and none that retains while workers serve. */
    predicate Disciplined() { unbound == 1 && !unboundRetains }
  }

  datatype Kind = Retention | FullSyncCredit

  /** Who answers for bytes once they are retained: a charge object, an explicit
      account that is released by hand, or a full-sync session. */
  datatype Owner = Owned | Explicit | Consumed

  datatype Pc =
    | Idle
    | SawShared(kind: Kind, bytes: u64, shared: u64)   // worker: slot 0 read, own bytes not yet
    | Summing(bytes: u64, next: nat, total: nat)       // unbound: that many counters read
    | Admitted(kind: Kind, bytes: u64)                 // decided, not yet published
    | Retaining(owner: Owner, bytes: u64)              // headroom returned, not yet retained
    | Restoring(bytes: u64)                            // retained returned, credit not yet

  datatype State = State(
    c: Counters,
    pcs: seq<Pc>,                    // one per thread
    reservations: seq<Reservation>,
    charges: seq<Charge>,            // retained amounts: charge objects and explicit accounts
    owned: seq<bool>,                // whether a charge object answers for the amount
    covers: seq<Cover>,              // which of these bytes lie under an open reservation
    holds: seq<ClientHold>,
    consumed: seq<nat>,              // per slot: full-sync credit turned into retained bytes
    granted: seq<int>,               // per slot: full-sync credit reserved and not yet released
    serving: bool)

  ghost predicate Shaped(cfg: Config, st: State) {
    st.c.Shaped(cfg.workers) &&
    |st.pcs| == cfg.Threads() && |st.consumed| == |st.granted| == cfg.workers + 1 && |st.owned| == |st.charges| &&
    (forall i :: 0 <= i < |st.reservations| ==> st.reservations[i].shard <= cfg.workers) &&
    (forall j :: 0 <= j < |st.charges| ==> st.charges[j].owner <= cfg.workers) &&
    (forall h :: 0 <= h < |st.holds| ==> st.holds[h].shard <= cfg.workers)
  }

  ghost function Init(cfg: Config): State {
    State(EmptyCounters(cfg.workers), seq(cfg.Threads(), _ => Idle), [], [], [], [], [],
          seq(cfg.workers + 1, _ => 0), seq(cfg.workers + 1, _ => 0), false)
  }

  /** Workers act once they serve; unbound threads retain before that, and afterwards
      only if the configuration says so. */
  ghost predicate MayRetain(cfg: Config, serving: bool, s: nat) {
    if s == 0 then !serving || cfg.unboundRetains else serving
  }

  ghost predicate IdleOn(cfg: Config, st: State, t: nat, s: nat)
    requires Shaped(cfg, st)
  {
    t < cfg.Threads() && st.pcs[t].Idle? && cfg.SlotOf(t) == s
  }

  ghost predicate OpenFor(cfg: Config, st: State, i: nat, t: nat, bytes: nat)
    requires Shaped(cfg, st)
  {
    i < |st.reservations| && st.reservations[i].admitted && IdleOn(cfg, st, t, st.reservations[i].shard) &&
    MayRetain(cfg, st.serving, st.reservations[i].shard) &&
    Amount(st.covers, Under(i)) + bytes <= st.reservations[i].bytes
  }

  datatype Action =
    | ReadShared(s: nat, kind: Kind, bytes: u64)
    | Decide(s: nat)
    | BeginSum(t: nat, bytes: u64)
    | ReadNext(t: nat)
    | DecideUnbound(t: nat)
    | Publish(t: nat)
    | Release(i: nat, t: nat)
    | BeginCommit(i: nat, t: nat, bytes: u64, owner: Owner)
    | FinishRetain(t: nat)
    | AccountCovered(i: nat, t: nat, bytes: u64, owned: bool)
    | GrowCovered(j: nat, i: nat, t: nat, bytes: u64)
    | Shrink(j: nat, bytes: u64)
    | Reset(j: nat)
    | MoveCharge(j: nat, k: nat)
    | MoveReservation(i: nat, k: nat)
    | BeginConsume(s: nat, bytes: u64)
    | BeginRestore(s: nat, bytes: u64)
    | FinishRestore(t: nat)
    | ReleaseCredit(s: nat, bytes: u64)
    | OpenClient(s: nat)
    | ClientAcquire(h: nat, bytes: u64)
    | ClientRelease(h: nat, bytes: u64)
    | StartServing

  ghost predicate Admits(a: Action) {
    a.ReadShared? || a.Decide? || a.BeginSum? || a.ReadNext? || a.DecideUnbound? || a.Publish?
  }

  ghost predicate Accounts(a: Action) {
    a.Release? || a.BeginCommit? || a.FinishRetain? || a.AccountCovered? || a.GrowCovered? || a.Shrink? || a.Reset? ||
    a.MoveCharge? || a.MoveReservation?
  }

  ghost predicate OnClients(a: Action) {
    a.OpenClient? || a.ClientAcquire? || a.ClientRelease?
  }

  ghost predicate Enabled(cfg: Config, st: State, a: Action)
    requires cfg.Valid() && Shaped(cfg, st)
  {
    match a
    case ReadShared(s, kind, bytes) => 0 < s <= cfg.workers && st.pcs[s].Idle? && st.serving && bytes > 0
    case Decide(s) => 0 < s <= cfg.workers && st.pcs[s].SawShared?
    case BeginSum(t, bytes) => IdleOn(cfg, st, t, 0) && bytes > 0
    case ReadNext(t) => t < cfg.Threads() && st.pcs[t].Summing? && st.pcs[t].next < Readings(cfg.workers)
    case DecideUnbound(t) => t < cfg.Threads() && st.pcs[t].Summing? && st.pcs[t].next == Readings(cfg.workers)
    case Publish(t) => t < cfg.Threads() && st.pcs[t].Admitted?
    case Release(i, t) => i < |st.reservations| && IdleOn(cfg, st, t, st.reservations[i].shard)
    case BeginCommit(i, t, bytes, owner) => OpenFor(cfg, st, i, t, bytes) && owner != Consumed
    case FinishRetain(t) => t < cfg.Threads() && st.pcs[t].Retaining?
    case AccountCovered(i, t, bytes, owned) => OpenFor(cfg, st, i, t, bytes)
    case GrowCovered(j, i, t, bytes) =>
      j < |st.charges| && st.owned[j] && st.charges[j].bytes < bytes &&
      OpenFor(cfg, st, i, t, bytes - st.charges[j].bytes) && st.charges[j].owner == st.reservations[i].shard
    case Shrink(j, bytes) => j < |st.charges| && bytes <= st.charges[j].bytes
    case Reset(j) => j < |st.charges|
    case MoveCharge(j, k) =>
      j < |st.charges| && k < |st.charges| && j != k && st.owned[j] && st.owned[k] && st.charges[k].bytes == 0
    case MoveReservation(i, k) =>
      i < |st.reservations| && k < |st.reservations| && i != k && !st.reservations[k].admitted
    case BeginConsume(s, bytes) =>
      0 < s <= cfg.workers && st.pcs[s].Idle? && 0 < bytes <= st.c.mirrors[s].fullsync
    case BeginRestore(s, bytes) => 0 < s <= cfg.workers && st.pcs[s].Idle? && 0 < bytes <= st.consumed[s]
    case FinishRestore(t) => t < cfg.Threads() && st.pcs[t].Restoring?
    case ReleaseCredit(s, bytes) =>
      0 < s <= cfg.workers && st.pcs[s].Idle? && 0 < bytes <= st.c.mirrors[s].fullsync
    case OpenClient(s) => s <= cfg.workers
    case ClientAcquire(h, bytes) => h < |st.holds| && st.pcs[st.holds[h].shard].Idle?
    case ClientRelease(h, bytes) => h < |st.holds| && bytes <= st.holds[h].bytes && st.pcs[st.holds[h].shard].Idle?
    case StartServing =>
      !st.serving &&
      (cfg.unboundRetains || forall t :: 0 <= t < cfg.Threads() && cfg.SlotOf(t) == 0 ==> !st.pcs[t].Retaining?)
  }

  // ----- effects, one function per kind of step

  ghost function WithPc(st: State, t: nat, pc: Pc): State
    requires t < |st.pcs|
  {
    st.(pcs := st.pcs[t := pc])
  }

  ghost function AfterDecide(cfg: Config, st: State, s: nat): State
    requires cfg.Valid() && Shaped(cfg, st) && 0 < s <= cfg.workers && st.pcs[s].SawShared?
  {
    var SawShared(kind, bytes, shared) := st.pcs[s];
    var exceeds := ShareWouldExceed(
                     DistributedShare(cfg.limit, s - 1, cfg.workers), DistributedShare(shared, s - 1, cfg.workers),
                     st.c.shards[s].retained, st.c.mirrors[s].fullsync, st.c.mirrors[s].pending, bytes);
    WithPc(st, s, if exceeds then Idle else Admitted(kind, bytes))
  }

  /** An unbound thread adds up every shard's retained bytes, then every shard's
      full-sync bytes, then every shard's pending bytes. */
  ghost function Readings(workers: nat): nat { 3 * (workers + 1) }

  ghost function Reading(c: Counters, workers: nat, n: nat): u64
    requires c.Shaped(workers) && n < Readings(workers)
  {
    if n <= workers then c.shards[n].retained
    else if n <= 2 * workers + 1 then c.shards[n - workers - 1].fullsync
    else c.shards[n - 2 * workers - 2].pending
  }

  ghost function AfterReadNext(cfg: Config, st: State, t: nat): State
    requires Shaped(cfg, st) && t < cfg.Threads() && st.pcs[t].Summing? && st.pcs[t].next < Readings(cfg.workers)
  {
    var Summing(bytes, next, total) := st.pcs[t];
    WithPc(st, t, Summing(bytes, next + 1, total + Reading(st.c, cfg.workers, next)))
  }

  ghost function AfterDecideUnbound(cfg: Config, st: State, t: nat): State
    requires Shaped(cfg, st) && t < cfg.Threads() && st.pcs[t].Summing?
  {
    var Summing(bytes, _, total) := st.pcs[t];
    WithPc(st, t, if total + bytes > cfg.limit then Idle else Admitted(Retention, bytes))
  }

  ghost function AfterPublish(cfg: Config, st: State, t: nat): State
    requires Shaped(cfg, st) && t < cfg.Threads() && st.pcs[t].Admitted?
  {
    var s := cfg.SlotOf(t);
    var Admitted(kind, bytes) := st.pcs[t];
    if kind == Retention then
      WithPc(st, t, Idle).(c := AddPending(st.c, s, bytes),
                           reservations := st.reservations + [Reservation(bytes, s, true)])
    else
      WithPc(st, t, Idle).(c := AddFullSync(st.c, s, bytes), granted := st.granted[s := st.granted[s] + bytes])
  }

  /** Releases reservation `i`; its thread continues at `pc`. */
  ghost function AfterRelease(cfg: Config, st: State, i: nat, t: nat, pc: Pc): State
    requires Shaped(cfg, st) && i < |st.reservations| && t < cfg.Threads()
  {
    var (c, token) := ReleaseReservation(st.c, st.reservations[i]);
    WithPc(st, t, pc).(c := c, reservations := st.reservations[i := token], covers := Close(st.covers, i))
  }

  ghost function AfterRetain(cfg: Config, st: State, t: nat): State
    requires Shaped(cfg, st) && t < cfg.Threads() && st.pcs[t].Retaining?
  {
    var s := cfg.SlotOf(t);
    var Retaining(owner, bytes) := st.pcs[t];
    var st1 := WithPc(st, t, Idle).(c := AccountRetained(st.c, s, bytes));
    if owner == Consumed then st1.(consumed := st.consumed[s := st.consumed[s] + bytes])
    else st1.(charges := st.charges + [Charge(s, bytes)], owned := st.owned + [owner == Owned])
  }

  ghost function AfterAccount(cfg: Config, st: State, i: nat, bytes: u64, owned: bool): State
    requires Shaped(cfg, st) && i < |st.reservations|
  {
    var s := st.reservations[i].shard;
    st.(c := AccountRetained(st.c, s, bytes), charges := st.charges + [Charge(s, bytes)], owned := st.owned + [owned],
        covers := st.covers + [Cover(|st.charges|, i, s, bytes)])
  }

  ghost function AfterGrow(cfg: Config, st: State, j: nat, i: nat, bytes: u64): State
    requires Shaped(cfg, st) && j < |st.charges| && i < |st.reservations| && st.charges[j].bytes <= bytes
  {
    var (c, token) := ResizeCharge(st.c, st.charges[j], bytes);
    st.(c := c, charges := st.charges[j := token],
        covers := st.covers + [Cover(j, i, st.charges[j].owner, bytes - st.charges[j].bytes)])
  }

  /** Lowers amount `j`. Bytes under a reservation are the first to go. */
  ghost function AfterShrink(cfg: Config, st: State, j: nat, bytes: u64): State
    requires Shaped(cfg, st) && j < |st.charges| && bytes <= st.charges[j].bytes
  {
    var (c, token) := ResizeCharge(st.c, st.charges[j], bytes);
    st.(c := c, charges := st.charges[j := token],
        covers := Lower(st.covers, OfCharge(j), st.charges[j].bytes - bytes))
  }

  ghost function AfterReset(cfg: Config, st: State, j: nat): State
    requires Shaped(cfg, st) && j < |st.charges|
  {
    var (c, token) := ResetCharge(st.c, st.charges[j]);
    st.(c := c, charges := st.charges[j := token], covers := Lower(st.covers, OfCharge(j), st.charges[j].bytes))
  }

  ghost function AfterMoveReservation(st: State, i: nat, k: nat): State
    requires i < |st.reservations| && k < |st.reservations|
  {
    st.(reservations := st.reservations[k := st.reservations[i]][i := INERT_RESERVATION],
        covers := MoveReservationKey(st.covers, i, k))
  }

  ghost function AfterMoveCharge(st: State, j: nat, k: nat): State
    requires j < |st.charges| && k < |st.charges|
  {
    st.(charges := st.charges[k := st.charges[j]][j := EMPTY_CHARGE], covers := MoveChargeKey(st.covers, j, k))
  }

  /** Takes full-sync credit away from worker `s`, to retain it or to give it back. */
  ghost function AfterDropCredit(cfg: Config, st: State, s: nat, bytes: u64, consume: bool): State
    requires Shaped(cfg, st) && s <= cfg.workers && s < cfg.Threads()
  {
    var st1 := WithPc(st, s, if consume then Retaining(Consumed, bytes) else Idle).(c := DropFullSync(st.c, s, bytes));
    if consume then st1 else st1.(granted := st.granted[s := st.granted[s] - bytes])
  }

  ghost function AfterBeginRestore(cfg: Config, st: State, s: nat, bytes: u64): State
    requires Shaped(cfg, st) && s <= cfg.workers && bytes <= st.consumed[s] && s < cfg.Threads()
  {
    WithPc(st, s, Restoring(bytes)).(c := ReleaseRetained(st.c, s, bytes),
                                     consumed := st.consumed[s := st.consumed[s] - bytes])
  }

  ghost function AfterRestore(cfg: Config, st: State, t: nat): State
    requires Shaped(cfg, st) && t < cfg.Threads() && st.pcs[t].Restoring?
  {
    WithPc(st, t, Idle).(c := AddFullSync(st.c, cfg.SlotOf(t), st.pcs[t].bytes))
  }

  ghost function AfterClientAcquire(cfg: Config, st: State, h: nat, bytes: u64): State
    requires cfg.Valid() && Shaped(cfg, st) && h < |st.holds|
  {
    var (c, token, _) := AcquireClient(st.c, st.holds[h], bytes, cfg.maximum, cfg.clientLimit, cfg.workers);
    st.(c := c, holds := st.holds[h := token])
  }

  ghost function AfterClientRelease(cfg: Config, st: State, h: nat, bytes: u64): State
    requires Shaped(cfg, st) && h < |st.holds| && bytes <= st.holds[h].bytes
  {
    var (c, token) := ReleaseClient(st.c, st.holds[h], bytes);
    st.(c := c, holds := st.holds[h := token])
  }

  ghost function Apply(cfg: Config, st: State, a: Action): State
    requires cfg.Valid() && Shaped(cfg, st) && Enabled(cfg, st, a)
  {
    match a
    case ReadShared(s, kind, bytes) => WithPc(st, s, SawShared(kind, bytes, st.c.shards[0].retained))
    case Decide(s) => AfterDecide(cfg, st, s)
    case BeginSum(t, bytes) => WithPc(st, t, Summing(bytes, 0, 0))
    case ReadNext(t) => AfterReadNext(cfg, st, t)
    case DecideUnbound(t) => AfterDecideUnbound(cfg, st, t)
    case Publish(t) => AfterPublish(cfg, st, t)
    case Release(i, t) => AfterRelease(cfg, st, i, t, Idle)
    case BeginCommit(i, t, bytes, owner) => AfterRelease(cfg, st, i, t, Retaining(owner, bytes))
    case FinishRetain(t) => AfterRetain(cfg, st, t)
    case AccountCovered(i, t, bytes, owned) => AfterAccount(cfg, st, i, bytes, owned)
    case GrowCovered(j, i, t, bytes) => AfterGrow(cfg, st, j, i, bytes)
    case Shrink(j, bytes) => AfterShrink(cfg, st, j, bytes)
    case Reset(j) => AfterReset(cfg, st, j)
    case MoveCharge(j, k) => AfterMoveCharge(st, j, k)
    case MoveReservation(i, k) => AfterMoveReservation(st, i, k)
    case BeginConsume(s, bytes) => AfterDropCredit(cfg, st, s, bytes, true)
    case BeginRestore(s, bytes) => AfterBeginRestore(cfg, st, s, bytes)
    case FinishRestore(t) => AfterRestore(cfg, st, t)
    case ReleaseCredit(s, bytes) => AfterDropCredit(cfg, st, s, bytes, false)
    case OpenClient(s) => st.(holds := st.holds + [ClientHold(0, s)])
    case ClientAcquire(h, bytes) => AfterClientAcquire(cfg, st, h, bytes)
    case ClientRelease(h, bytes) => AfterClientRelease(cfg, st, h, bytes)
    case StartServing => st.(serving := true)
  }

  /** The states of a run: an initial state and one state after each action. */
  ghost predicate IsRun(cfg: Config, states: seq<State>, actions: seq<Action>)
    requires cfg.Valid()
  {
    Continues(cfg, states, actions) && states[0] == Init(cfg)
  }

  /** Steps that follow one another, from whatever state. */
  ghost predicate Continues(cfg: Config, states: seq<State>, actions: seq<Action>)
    requires cfg.Valid()
  {
    |states| == |actions| + 1 &&
    forall k :: 0 <= k < |actions| ==> StepsTo(cfg, states[k], actions[k], states[k + 1])
  }

  ghost predicate StepsTo(cfg: Config, st: State, a: Action, next: State)
    requires cfg.Valid()
  {
    Shaped(cfg, st) && Enabled(cfg, st, a) && next == Apply(cfg, st, a)
  }
}
