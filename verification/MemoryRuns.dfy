/** The theorems about whole runs of the memory machine. */
module MemoryRuns {
  import opened MemoryLimits
  import opened MemoryMachine
  import opened MemorySafety
  import opened MemoryAdmission
  import opened MemorySteps
  import opened MemoryClients
  import opened Sums

  lemma StepKeeps(cfg: Config, st: State, a: Action)
    requires cfg.Valid() && Roomy(cfg) && Inv(cfg, st) && Enabled(cfg, st, a)
    ensures Inv(cfg, Apply(cfg, st, a))
  {
    if Admits(a) {
      AdmissionStepKeeps(cfg, st, a);
    } else if Accounts(a) {
      AccountStepKeeps(cfg, st, a);
    } else {
      OtherStepKeeps(cfg, st, a);
    }
  }

  lemma AdmissionStepKeeps(cfg: Config, st: State, a: Action)
    requires cfg.Valid() && Roomy(cfg) && Inv(cfg, st) && Enabled(cfg, st, a) && Admits(a)
    ensures Inv(cfg, Apply(cfg, st, a))
  {
    match a
    case ReadShared(s, kind, bytes) => ReadSharedKeeps(cfg, st, s, kind, bytes);
    case Decide(s) => DecideKeeps(cfg, st, s);
    case BeginSum(t, bytes) => BeginSumKeeps(cfg, st, t, bytes);
    case ReadNext(t) => ReadNextKeeps(cfg, st, t);
    case DecideUnbound(t) => DecideUnboundKeeps(cfg, st, t);
    case Publish(t) => PublishKeeps(cfg, st, t);
  }

  lemma AccountStepKeeps(cfg: Config, st: State, a: Action)
    requires cfg.Valid() && Roomy(cfg) && Inv(cfg, st) && Enabled(cfg, st, a) && Accounts(a)
    ensures Inv(cfg, Apply(cfg, st, a))
  {
    match a
    case Release(i, t) => ReleaseKeeps(cfg, st, i, t, Idle);
    case BeginCommit(i, t, bytes, owner) => ReleaseKeeps(cfg, st, i, t, Retaining(owner, bytes));
    case FinishRetain(t) => FinishRetainKeeps(cfg, st, t);
    case AccountCovered(i, t, bytes, owned) => AccountCoveredKeeps(cfg, st, i, t, bytes, owned);
    case GrowCovered(j, i, t, bytes) => GrowCoveredKeeps(cfg, st, j, i, t, bytes);
    case Shrink(j, bytes) => ShrinkKeeps(cfg, st, j, bytes);
    case Reset(j) => ResetKeeps(cfg, st, j);
    case MoveCharge(j, k) => MoveChargeKeeps(cfg, st, j, k);
    case MoveReservation(i, k) => MoveReservationKeeps(cfg, st, i, k);
  }

  lemma OtherStepKeeps(cfg: Config, st: State, a: Action)
    requires cfg.Valid() && Roomy(cfg) && Inv(cfg, st) && Enabled(cfg, st, a) && !Admits(a) && !Accounts(a)
    ensures Inv(cfg, Apply(cfg, st, a))
  {
    match a
    case BeginConsume(s, bytes) => DropCreditKeeps(cfg, st, s, bytes, true);
    case BeginRestore(s, bytes) => BeginRestoreKeeps(cfg, st, s, bytes);
    case FinishRestore(t) => FinishRestoreKeeps(cfg, st, t);
    case ReleaseCredit(s, bytes) => DropCreditKeeps(cfg, st, s, bytes, false);
    case OpenClient(s) => OpenClientKeeps(cfg, st, s);
    case ClientAcquire(h, bytes) => ClientAcquireKeeps(cfg, st, h, bytes);
    case ClientRelease(h, bytes) => ClientReleaseKeeps(cfg, st, h, bytes);
    case StartServing => StartServingKeeps(cfg, st);
  }

  lemma {:induction false} ContinuedRunKeepsInv(cfg: Config, states: seq<State>, actions: seq<Action>, k: nat)
    requires cfg.Valid() && Roomy(cfg) && Continues(cfg, states, actions) && Inv(cfg, states[0]) && k <= |actions|
    ensures Inv(cfg, states[k])
  {
    if k > 0 {
      ContinuedRunKeepsInv(cfg, states, actions, k - 1);
      assert StepsTo(cfg, states[k - 1], actions[k - 1], states[k - 1 + 1]);
      StepToKeeps(cfg, states[k - 1], actions[k - 1], states[k]);
    }
  }

  lemma StepToKeeps(cfg: Config, st: State, a: Action, next: State)
    requires cfg.Valid() && Roomy(cfg) && Inv(cfg, st) && StepsTo(cfg, st, a, next)
    ensures Inv(cfg, next)
  {
    StepKeeps(cfg, st, a);
  }

  lemma RunKeepsInv(cfg: Config, states: seq<State>, actions: seq<Action>, k: nat)
    requires cfg.Valid() && Roomy(cfg) && IsRun(cfg, states, actions) && k <= |actions|
    ensures Inv(cfg, states[k])
  {
    InitInv(cfg);
    ContinuedRunKeepsInv(cfg, states, actions, k);
  }

  // ----- the process-wide bound

  /** Bytes a worker has retained, reserved or set aside; a byte that a charge holds
      under a reservation that still holds it too counts once. */
  ghost function Use(cfg: Config, st: State): (r: seq<int>)
    requires Shaped(cfg, st)
    ensures |r| == cfg.workers
    ensures forall w :: 0 <= w < cfg.workers ==>
              var shard := st.c.shards[w + 1];
              r[w] == shard.retained + shard.pending + shard.fullsync - Covered(st, w + 1)
  {
    seq(cfg.workers, w requires 0 <= w < cfg.workers =>
      st.c.shards[w + 1].retained + st.c.shards[w + 1].pending + st.c.shards[w + 1].fullsync - Covered(st, w + 1))
  }

  ghost function ProcessTotal(cfg: Config, st: State): int
    requires Shaped(cfg, st)
  {
    st.c.shards[0].retained + Sum(Use(cfg, st))
  }

  lemma WithinLimit(cfg: Config, st: State)
    requires cfg.Valid() && Inv(cfg, st) && cfg.Disciplined()
    ensures ProcessTotal(cfg, st) <= cfg.limit
  {
    var shared := st.c.shards[0].retained;
    var parts, caps := Shares(shared, cfg.workers), Shares(cfg.limit, cfg.workers);
    var both := seq(cfg.workers, w requires 0 <= w < cfg.workers => parts[w] + Use(cfg, st)[w]);
    SumAdd(parts, Use(cfg, st), both);
    forall w | 0 <= w < cfg.workers
      ensures both[w] <= caps[w]
    {
      assert SlotOk(cfg, st, w + 1);
      OnNonNegative(CreditParts(cfg, st.pcs), w + 1);
    }
    SumMonotone(both, caps);
    SharesSumToTotal(shared, cfg.workers);
    SharesSumToTotal(cfg.limit, cfg.workers);
  }

  /** From any state that satisfies the invariant, however it came about. */
  lemma ContinuedRunStaysWithinLimit(cfg: Config, states: seq<State>, actions: seq<Action>, k: nat)
    requires cfg.Valid() && Continues(cfg, states, actions) && Inv(cfg, states[0]) && k <= |actions|
    requires cfg.Disciplined()
    ensures Shaped(cfg, states[k]) && ProcessTotal(cfg, states[k]) <= cfg.limit
  {
    ContinuedRunKeepsInv(cfg, states, actions, k);
    WithinLimit(cfg, states[k]);
  }

  /** In every state of every run, workers that each check only their own share,
      against possibly stale readings, together stay within the steady limit. */
  lemma EveryRunStaysWithinLimit(cfg: Config, states: seq<State>, actions: seq<Action>, k: nat)
    requires cfg.Valid() && IsRun(cfg, states, actions) && k <= |actions| && cfg.Disciplined()
    ensures Shaped(cfg, states[k]) && ProcessTotal(cfg, states[k]) <= cfg.limit
  {
    RunKeepsInv(cfg, states, actions, k);
    WithinLimit(cfg, states[k]);
  }

  /** What is really kept, retained bytes and full-sync credit, is within the
      limit in every state, covered or not. */
  lemma EveryRunRetainsWithinLimit(cfg: Config, states: seq<State>, actions: seq<Action>, k: nat)
    requires cfg.Valid() && IsRun(cfg, states, actions) && k <= |actions| && cfg.Disciplined()
    ensures Shaped(cfg, states[k])
    ensures states[k].c.shards[0].retained + Sum(Kept(cfg, states[k])) <= cfg.limit
  {
    var st := states[k];
    EveryRunStaysWithinLimit(cfg, states, actions, k);
    RunKeepsInv(cfg, states, actions, k);
    forall w | 0 <= w < cfg.workers
      ensures Kept(cfg, st)[w] <= Use(cfg, st)[w]
    {
      assert SlotOk(cfg, st, w + 1);
    }
    SumMonotone(Kept(cfg, st), Use(cfg, st));
  }

  ghost function Kept(cfg: Config, st: State): (r: seq<int>)
    requires Shaped(cfg, st)
    ensures |r| == cfg.workers
    ensures forall w :: 0 <= w < cfg.workers ==> r[w] == st.c.shards[w + 1].retained + st.c.shards[w + 1].fullsync
  {
    seq(cfg.workers, w requires 0 <= w < cfg.workers => st.c.shards[w + 1].retained + st.c.shards[w + 1].fullsync)
  }

  /** Whatever unbound threads do, each worker stays within its share, and slot 0 within
      the multiple of the limit that their overlapping operations allow. */
  lemma EveryRunBoundsSlots(cfg: Config, states: seq<State>, actions: seq<Action>, k: nat, s: nat)
    requires cfg.Valid() && Roomy(cfg) && IsRun(cfg, states, actions) && k <= |actions| && s <= cfg.workers
    ensures Shaped(cfg, states[k])
    ensures var shard := states[k].c.shards[s];
            shard.retained + shard.pending + shard.fullsync - Covered(states[k], s) <= Capacity(cfg, s)
  {
    RunKeepsInv(cfg, states, actions, k);
    assert SlotOk(cfg, states[k], s);
  }

  // ----- the counters tell the truth, and the process never aborts

  /** Retained bytes that a charge object answers for, or that one does not. */
  ghost function AnsweredFor(st: State, byCharge: bool): (r: seq<Part>)
    requires |st.owned| == |st.charges|
  {
    seq(|st.charges|, j requires 0 <= j < |st.charges| =>
        Part(st.charges[j].owner, if st.owned[j] == byCharge then st.charges[j].bytes else 0))
  }

  lemma ChargedSplits(st: State, s: nat)
    requires |st.owned| == |st.charges|
    ensures Charged(st, s) == On(AnsweredFor(st, true), s) + On(AnsweredFor(st, false), s)
  {
    SumAdd(Amounts(AnsweredFor(st, true), s), Amounts(AnsweredFor(st, false), s), Amounts(ChargeParts(st.charges), s));
  }

  /** Pending bytes are those of live reservations; retained bytes those of charge
      objects, explicit accounts and consumed full-sync credit; full-sync bytes what a
      session was granted and has neither consumed nor on its way; client bytes those
      of the connections. */
  ghost predicate CountersMatchTokens(cfg: Config, st: State) {
    Shaped(cfg, st) &&
    forall s :: 0 <= s <= cfg.workers ==>
      st.c.shards[s].pending == Reserved(st, s) &&
      st.c.shards[s].retained == On(AnsweredFor(st, true), s) + On(AnsweredFor(st, false), s) + st.consumed[s] &&
      st.c.shards[s].fullsync == st.granted[s] - st.consumed[s] - On(TransitParts(cfg, st.pcs), s) &&
      (cfg.clientLimit.value != 0 ==> st.c.shards[s].client == Held(st, s))
  }

  lemma EveryRunConservesBytes(cfg: Config, states: seq<State>, actions: seq<Action>, k: nat)
    requires cfg.Valid() && Roomy(cfg) && IsRun(cfg, states, actions) && k <= |actions|
    ensures CountersMatchTokens(cfg, states[k]) && !states[k].c.aborted
  {
    var st := states[k];
    RunKeepsInv(cfg, states, actions, k);
    RunKeepsClients(cfg, states, actions, k);
    forall s | 0 <= s <= cfg.workers
      ensures st.c.shards[s].pending == Reserved(st, s)
      ensures st.c.shards[s].retained == On(AnsweredFor(st, true), s) + On(AnsweredFor(st, false), s) + st.consumed[s]
      ensures st.c.shards[s].fullsync == st.granted[s] - st.consumed[s] - On(TransitParts(cfg, st.pcs), s)
      ensures cfg.clientLimit.value != 0 ==> st.c.shards[s].client == Held(st, s)
    {
      assert SlotOk(cfg, st, s) && ClientOk(cfg, st, s);
      ChargedSplits(st, s);
    }
  }

  ghost predicate Quiescent(st: State, s: nat) {
    s < |st.granted| && st.granted[s] == 0 &&
    (forall i :: 0 <= i < |st.reservations| ==> !st.reservations[i].admitted) &&
    (forall j :: 0 <= j < |st.charges| ==> st.charges[j].bytes == 0) &&
    (forall h :: 0 <= h < |st.holds| ==> st.holds[h].bytes == 0)
  }

  /** Once every token is gone, so is every byte: nothing leaks and nothing was
      released twice. */
  lemma QuiescentRunHoldsNothing(cfg: Config, states: seq<State>, actions: seq<Action>, s: nat)
    requires cfg.Valid() && Roomy(cfg) && IsRun(cfg, states, actions) && s <= cfg.workers
    requires Quiescent(states[|actions|], s)
    ensures Shaped(cfg, states[|actions|])
    ensures var shard := states[|actions|].c.shards[s];
            shard.pending == shard.retained == shard.fullsync == 0 && (cfg.clientLimit.value != 0 ==> shard.client == 0)
  {
    var last := states[|actions|];
    RunKeepsInv(cfg, states, actions, |actions|);
    RunKeepsClients(cfg, states, actions, |actions|);
    assert SlotOk(cfg, last, s) && ClientOk(cfg, last, s);
    forall i | 0 <= i < |last.reservations|
      ensures last.reservations[i].bytes == 0
    {
      assert TokenOk(cfg, last.reservations[i]);
    }
    SumZero(Amounts(ReservationParts(last.reservations), s));
    SumZero(Amounts(ChargeParts(last.charges), s));
    SumZero(Amounts(HoldParts(last.holds), s));
  }

  // ----- with the client buffers

  /** With a client quota of at most 10% of a maximum whose tenth covers the fixed
      minimum, everything that is admitted fits the configured maximum. */
  lemma EveryRunFitsMaximum(cfg: Config, states: seq<State>, actions: seq<Action>, k: nat)
    requires cfg.Valid() && IsRun(cfg, states, actions) && k <= |actions| && cfg.Disciplined()
    requires cfg.Derived() && cfg.clientLimit.percentage && 0 < cfg.clientLimit.value <= 10
    requires MINIMUM_CLIENT_BUFFER_BYTES <= cfg.maximum / 10
    ensures Shaped(cfg, states[k])
    ensures ProcessTotal(cfg, states[k]) + Sum(ClientUse(cfg, states[k])) <= cfg.maximum
  {
    EveryRunStaysWithinLimit(cfg, states, actions, k);
    EveryRunBoundsClients(cfg, states, actions, k);
    TenPercentFits(cfg.maximum, cfg.clientLimit.value);
    BudgetsFitTogether(cfg.maximum, cfg.clientLimit);
  }
}
