/** Client buffers: each worker's counter is what its connections hold, and stays within
    the worker's share of the quota, whatever else the machine does. */
module MemoryClients {
  import opened MachineInts
  import opened MemoryLimits
  import opened MemoryCounters
  import opened MemoryMachine
  import opened MemorySafety
  import opened Sums

  ghost function HoldParts(hs: seq<ClientHold>): seq<Part> {
    seq(|hs|, h requires 0 <= h < |hs| => Part(hs[h].shard, hs[h].bytes))
  }

  ghost function Held(st: State, s: nat): int { On(HoldParts(st.holds), s) }

  ghost function ClientShare(cfg: Config, s: nat): nat
    requires cfg.Valid() && s > 0
  {
    DistributedShare(cfg.ClientTotal(), s - 1, cfg.workers)
  }

  /** Threads without a worker get no client bytes. Without a quota nothing is promised. */
  ghost predicate ClientOk(cfg: Config, st: State, s: nat)
    requires cfg.Valid() && Shaped(cfg, st) && s <= cfg.workers
  {
    cfg.clientLimit.value != 0 ==>
      st.c.shards[s].client == Held(st, s) &&
      if s == 0 then Held(st, 0) == 0
      else st.c.mirrors[s].client == st.c.shards[s].client <= ClientShare(cfg, s)
  }

  ghost predicate ClientsOk(cfg: Config, st: State)
    requires cfg.Valid()
  {
    Shaped(cfg, st) && forall s {:trigger ClientOk(cfg, st, s)} :: 0 <= s <= cfg.workers ==> ClientOk(cfg, st, s)
  }

  // ----- every step keeps that

  lemma OtherStepsKeepClients(cfg: Config, st: State, a: Action)
    requires cfg.Valid() && ClientsOk(cfg, st) && Enabled(cfg, st, a) && !OnClients(a)
    ensures ClientsOk(cfg, Apply(cfg, st, a))
  {
    var next := Apply(cfg, st, a);
    OtherStepsAside(cfg, st, a);
    forall s | 0 <= s <= cfg.workers
      ensures ClientOk(cfg, next, s)
    {
      assert ClientOk(cfg, st, s);
    }
  }

  ghost predicate Aside(cfg: Config, st: State, next: State) {
    Shaped(cfg, next) && next.holds == st.holds && SameClients(st.c, next.c)
  }

  lemma OtherStepsAside(cfg: Config, st: State, a: Action)
    requires cfg.Valid() && Shaped(cfg, st) && Enabled(cfg, st, a) && !OnClients(a)
    ensures Aside(cfg, st, Apply(cfg, st, a))
  {
    if Admits(a) {
      AdmissionAside(cfg, st, a);
    } else if Accounts(a) {
      AccountingAside(cfg, st, a);
    } else {
      CreditAside(cfg, st, a);
    }
  }

  lemma AdmissionAside(cfg: Config, st: State, a: Action)
    requires cfg.Valid() && Shaped(cfg, st) && Enabled(cfg, st, a) && Admits(a)
    ensures Aside(cfg, st, Apply(cfg, st, a))
  {
  }

  lemma AccountingAside(cfg: Config, st: State, a: Action)
    requires cfg.Valid() && Shaped(cfg, st) && Enabled(cfg, st, a) && Accounts(a)
    ensures Aside(cfg, st, Apply(cfg, st, a))
  {
    match a
    case Release(i, t) => ReleaseAside(cfg, st, i, t, Idle);
    case BeginCommit(i, t, bytes, owner) => ReleaseAside(cfg, st, i, t, Retaining(owner, bytes));
    case FinishRetain(t) => RetainAside(cfg, st, t);
    case AccountCovered(i, t, bytes, owned) => AccountAside(cfg, st, i, bytes, owned);
    case GrowCovered(j, i, t, bytes) => GrowAside(cfg, st, j, i, bytes);
    case Shrink(j, bytes) => ShrinkAside(cfg, st, j, bytes);
    case Reset(j) => ResetAside(cfg, st, j);
    case MoveCharge(j, k) =>
    case MoveReservation(i, k) =>
  }

  lemma ReleaseAside(cfg: Config, st: State, i: nat, t: nat, pc: Pc)
    requires Shaped(cfg, st) && i < |st.reservations| && t < cfg.Threads()
    ensures Aside(cfg, st, AfterRelease(cfg, st, i, t, pc))
  {
  }

  lemma RetainAside(cfg: Config, st: State, t: nat)
    requires Shaped(cfg, st) && t < cfg.Threads() && st.pcs[t].Retaining?
    ensures Aside(cfg, st, AfterRetain(cfg, st, t))
  {
  }

  lemma AccountAside(cfg: Config, st: State, i: nat, bytes: u64, owned: bool)
    requires Shaped(cfg, st) && i < |st.reservations|
    ensures Aside(cfg, st, AfterAccount(cfg, st, i, bytes, owned))
  {
  }

  lemma GrowAside(cfg: Config, st: State, j: nat, i: nat, bytes: u64)
    requires Shaped(cfg, st) && j < |st.charges| && i < |st.reservations| && st.charges[j].bytes <= bytes
    ensures Aside(cfg, st, AfterGrow(cfg, st, j, i, bytes))
  {
  }

  lemma ShrinkAside(cfg: Config, st: State, j: nat, bytes: u64)
    requires Shaped(cfg, st) && j < |st.charges| && bytes <= st.charges[j].bytes
    ensures Aside(cfg, st, AfterShrink(cfg, st, j, bytes))
  {
  }

  lemma ResetAside(cfg: Config, st: State, j: nat)
    requires Shaped(cfg, st) && j < |st.charges|
    ensures Aside(cfg, st, AfterReset(cfg, st, j))
  {
  }

  lemma CreditAside(cfg: Config, st: State, a: Action)
    requires cfg.Valid() && Shaped(cfg, st) && Enabled(cfg, st, a) && !Admits(a) && !Accounts(a) && !OnClients(a)
    ensures Aside(cfg, st, Apply(cfg, st, a))
  {
  }

  lemma OpenClientKeepsClients(cfg: Config, st: State, s: nat)
    requires cfg.Valid() && ClientsOk(cfg, st) && s <= cfg.workers
    ensures ClientsOk(cfg, st.(holds := st.holds + [ClientHold(0, s)]))
  {
    var next := st.(holds := st.holds + [ClientHold(0, s)]);
    assert HoldParts(next.holds) == HoldParts(st.holds) + [Part(s, 0)];
    forall k | 0 <= k <= cfg.workers
      ensures ClientOk(cfg, next, k)
    {
      assert ClientOk(cfg, st, k);
      OnAppend(HoldParts(st.holds), Part(s, 0), k);
    }
  }

  /** One connection's bytes and its slot's counter change by the same amount. */
  lemma HoldChanged(cfg: Config, st: State, h: nat, token: ClientHold, client: u64)
    requires cfg.Valid() && ClientsOk(cfg, st) && h < |st.holds| && token.shard == st.holds[h].shard > 0
    requires cfg.clientLimit.value != 0 ==>
               client - st.c.shards[token.shard].client == token.bytes - st.holds[h].bytes &&
               client <= ClientShare(cfg, token.shard)
    ensures ClientsOk(cfg, st.(c := StoreClient(st.c, token.shard, client), holds := st.holds[h := token]))
  {
    var s, next := token.shard, st.(c := StoreClient(st.c, token.shard, client), holds := st.holds[h := token]);
    assert HoldParts(next.holds) == HoldParts(st.holds)[h := Part(s, token.bytes)];
    forall k | 0 <= k <= cfg.workers
      ensures ClientOk(cfg, next, k)
    {
      assert ClientOk(cfg, st, k);
      OnUpdate(HoldParts(st.holds), h, Part(s, token.bytes), k);
    }
  }

  lemma AcquireKeepsClients(cfg: Config, st: State, h: nat, bytes: u64)
    requires cfg.Valid() && ClientsOk(cfg, st) && h < |st.holds|
    ensures ClientsOk(cfg, AfterClientAcquire(cfg, st, h, bytes))
  {
    var s := st.holds[h].shard;
    var (c, token, ok) := AcquireClient(st.c, st.holds[h], bytes, cfg.maximum, cfg.clientLimit, cfg.workers);
    assert ClientOk(cfg, st, s);
    AcquireDecides(st.c, st.holds[h], bytes, cfg.maximum, cfg.clientLimit, cfg.workers);
    if !ok || bytes == 0 {
      assert st.holds[h := token] == st.holds;
    } else {
      HoldChanged(cfg, st, h, token, c.shards[s].client);
    }
  }

  lemma ReleaseKeepsClients(cfg: Config, st: State, h: nat, bytes: u64)
    requires cfg.Valid() && ClientsOk(cfg, st) && h < |st.holds| && bytes <= st.holds[h].bytes
    ensures ClientsOk(cfg, AfterClientRelease(cfg, st, h, bytes))
  {
    var s := st.holds[h].shard;
    var (c, token) := ReleaseClient(st.c, st.holds[h], bytes);
    assert ClientOk(cfg, st, s);
    OnBounds(HoldParts(st.holds), h, s);
    if bytes == 0 {
      assert st.holds[h := token] == st.holds;
    } else if s > 0 {
      HoldChanged(cfg, st, h, token, c.shards[s].client);
    }
  }

  lemma StepKeepsClients(cfg: Config, st: State, a: Action)
    requires cfg.Valid() && ClientsOk(cfg, st) && Enabled(cfg, st, a)
    ensures ClientsOk(cfg, Apply(cfg, st, a))
  {
    if !OnClients(a) {
      OtherStepsKeepClients(cfg, st, a);
    } else {
      match a
      case OpenClient(s) => OpenClientKeepsClients(cfg, st, s);
      case ClientAcquire(h, bytes) => AcquireKeepsClients(cfg, st, h, bytes);
      case ClientRelease(h, bytes) => ReleaseKeepsClients(cfg, st, h, bytes);
    }
  }

  lemma {:induction false} RunKeepsClients(cfg: Config, states: seq<State>, actions: seq<Action>, k: nat)
    requires cfg.Valid() && IsRun(cfg, states, actions) && k <= |actions|
    ensures ClientsOk(cfg, states[k])
  {
    if k == 0 {
      InitKeepsClients(cfg);
    } else {
      RunKeepsClients(cfg, states, actions, k - 1);
      assert StepsTo(cfg, states[k - 1], actions[k - 1], states[k - 1 + 1]);
      StepKeepsClients(cfg, states[k - 1], actions[k - 1]);
    }
  }

  lemma InitKeepsClients(cfg: Config)
    requires cfg.Valid()
    ensures ClientsOk(cfg, Init(cfg))
  {
    assert HoldParts(Init(cfg).holds) == [];
  }

  // ----- the quota

  ghost function ClientUse(cfg: Config, st: State): (r: seq<int>)
    requires Shaped(cfg, st)
    ensures |r| == cfg.workers && forall w :: 0 <= w < cfg.workers ==> r[w] == st.c.shards[w + 1].client
  {
    seq(cfg.workers, w requires 0 <= w < cfg.workers => st.c.shards[w + 1].client)
  }

  lemma ClientsWithinShares(cfg: Config, st: State)
    requires cfg.Valid() && ClientsOk(cfg, st) && cfg.clientLimit.value != 0
    ensures Sum(ClientUse(cfg, st)) <= cfg.ClientTotal()
  {
    var shares := Shares(cfg.ClientTotal(), cfg.workers);
    forall w | 0 <= w < cfg.workers
      ensures ClientUse(cfg, st)[w] <= shares[w]
    {
      assert ClientOk(cfg, st, w + 1);
    }
    SumMonotone(ClientUse(cfg, st), shares);
    SharesSumToTotal(cfg.ClientTotal(), cfg.workers);
  }

  /** Each worker's client bytes are its connections' bytes, within its share, so
      all of them are within the client quota. */
  lemma EveryRunBoundsClients(cfg: Config, states: seq<State>, actions: seq<Action>, k: nat)
    requires cfg.Valid() && IsRun(cfg, states, actions) && k <= |actions| && cfg.clientLimit.value != 0
    ensures Shaped(cfg, states[k]) && Sum(ClientUse(cfg, states[k])) <= cfg.ClientTotal()
    ensures forall s :: 0 < s <= cfg.workers ==>
              Held(states[k], s) == states[k].c.shards[s].client <= ClientShare(cfg, s)
  {
    RunKeepsClients(cfg, states, actions, k);
    ClientsWithinShares(cfg, states[k]);
    forall s | 0 < s <= cfg.workers
      ensures Held(states[k], s) == states[k].c.shards[s].client <= ClientShare(cfg, s)
    {
      assert ClientOk(cfg, states[k], s);
    }
  }
}
