/** What every step of the memory machine keeps: each counter equals the tokens
    that answer for it, and each slot stays within its own capacity. */
module MemorySafety {
  import opened Arithmetic
  import opened MachineInts
  import opened MemoryLimits
  import opened MemoryCounters
  import opened MemoryCovers
  import opened MemoryMachine
  import opened Sums

  // ----- sums over tokens, by slot

  /** An amount some token answers for on some slot. */
  datatype Part = Part(slot: nat, amount: nat)

  ghost function Amounts(parts: seq<Part>, s: nat): (r: seq<int>)
    ensures |r| == |parts|
    ensures forall i :: 0 <= i < |parts| ==> r[i] == (if parts[i].slot == s then parts[i].amount else 0)
  {
    seq(|parts|, i requires 0 <= i < |parts| => if parts[i].slot == s then parts[i].amount else 0)
  }

  ghost function On(parts: seq<Part>, s: nat): int {
    Sum(Amounts(parts, s))
  }

  ghost function AmountOn(p: Part, s: nat): nat {
    if p.slot == s then p.amount else 0
  }

  lemma OnUpdate(parts: seq<Part>, i: nat, p: Part, s: nat)
    requires i < |parts|
    ensures On(parts[i := p], s) == On(parts, s) - AmountOn(parts[i], s) + AmountOn(p, s)
  {
    SumUpdate(Amounts(parts, s), i, AmountOn(p, s));
    assert Amounts(parts[i := p], s) == Amounts(parts, s)[i := AmountOn(p, s)];
  }

  lemma OnAppend(parts: seq<Part>, p: Part, s: nat)
    ensures On(parts + [p], s) == On(parts, s) + AmountOn(p, s)
  {
    SumAppend(Amounts(parts, s), AmountOn(p, s));
    assert Amounts(parts + [p], s) == Amounts(parts, s) + [AmountOn(p, s)];
  }

  lemma OnBounds(parts: seq<Part>, i: nat, s: nat)
    requires i < |parts|
    ensures AmountOn(parts[i], s) <= On(parts, s)
  {
    SumBoundsEntry(Amounts(parts, s), i);
  }

  lemma OnOrdered(less: seq<Part>, more: seq<Part>, s: nat)
    requires |less| == |more|
    requires forall i :: 0 <= i < |less| ==> less[i].slot == more[i].slot && less[i].amount <= more[i].amount
    ensures 0 <= On(less, s) <= On(more, s)
  {
    SumMonotone(seq(|less|, _ => 0), Amounts(less, s));
    SumZero(seq(|less|, _ => 0));
    SumMonotone(Amounts(less, s), Amounts(more, s));
  }

  lemma OnBelow(less: seq<Part>, more: seq<Part>, s: nat)
    requires |less| == |more| && forall i :: 0 <= i < |less| ==> AmountOn(less[i], s) <= AmountOn(more[i], s)
    ensures On(less, s) <= On(more, s)
  {
    SumMonotone(Amounts(less, s), Amounts(more, s));
  }

  ghost function ReservationParts(rs: seq<Reservation>): seq<Part> {
    seq(|rs|, i requires 0 <= i < |rs| => Part(rs[i].shard, rs[i].bytes))
  }

  ghost function ChargeParts(cs: seq<Charge>): seq<Part> {
    seq(|cs|, j requires 0 <= j < |cs| => Part(cs[j].owner, cs[j].bytes))
  }

  ghost function Reserved(st: State, s: nat): int { On(ReservationParts(st.reservations), s) }

  ghost function Covered(st: State, s: nat): nat { Amount(st.covers, OnSlot(s)) }

  ghost function Charged(st: State, s: nat): int { On(ChargeParts(st.charges), s) }

  // ----- what threads in the middle of an operation may still add

  /** Bytes a thread has the right to add next. An unbound thread that has read slot 0's
      retained bytes and may still be admitted counts already. */
  ghost function Credit(cfg: Config, pc: Pc): nat {
    match pc
    case Summing(bytes, next, total) => if next > 0 && total + bytes <= cfg.limit then bytes else 0
    case Admitted(_, bytes) => bytes
    case Retaining(_, bytes) => bytes
    case Restoring(bytes) => bytes
    case _ => 0
  }

  /** The part of that which goes to the pending bytes or comes from them. */
  ghost function PendingCredit(cfg: Config, pc: Pc): nat {
    match pc
    case Summing(bytes, next, total) =>
      if next > 2 * cfg.workers + 2 && total + bytes <= cfg.limit then bytes else 0
    case Admitted(kind, bytes) => if kind == Retention then bytes else 0
    case Retaining(owner, bytes) => if owner == Consumed then 0 else bytes
    case _ => 0
  }

  /** An unbound thread that has read slot 0's retained bytes, not yet its pending ones,
      and may still be admitted. */
  ghost predicate Early(cfg: Config, pc: Pc) {
    pc.Summing? && 0 < pc.next <= 2 * cfg.workers + 2 && pc.total + pc.bytes <= cfg.limit
  }

  ghost predicate AllEarly(cfg: Config, pcs: seq<Pc>) {
    forall u {:trigger Early(cfg, pcs[u])} :: 0 <= u < |pcs| && cfg.SlotOf(u) == 0 ==> Early(cfg, pcs[u])
  }

  /** While every unbound operation is early, none can publish or retain. One that has
      seen all that is retained then takes no room beyond what the others leave. */
  ghost predicate Spared(cfg: Config, st: State, t: nat)
    requires Shaped(cfg, st)
  {
    t < cfg.Threads() && cfg.SlotOf(t) == 0 && AllEarly(cfg, st.pcs) && Early(cfg, st.pcs[t]) &&
    st.c.shards[0].retained <= st.pcs[t].total
  }

  /** Full-sync credit on its way into or out of the retained bytes. */
  ghost function Transit(pc: Pc): nat {
    match pc
    case Retaining(owner, bytes) => if owner == Consumed then bytes else 0
    case Restoring(bytes) => bytes
    case _ => 0
  }

  ghost function CreditParts(cfg: Config, pcs: seq<Pc>): seq<Part> {
    seq(|pcs|, t requires 0 <= t < |pcs| => Part(cfg.SlotOf(t), Credit(cfg, pcs[t])))
  }

  ghost function PendingCreditParts(cfg: Config, pcs: seq<Pc>): seq<Part> {
    seq(|pcs|, t requires 0 <= t < |pcs| => Part(cfg.SlotOf(t), PendingCredit(cfg, pcs[t])))
  }

  ghost function TransitParts(cfg: Config, pcs: seq<Pc>): seq<Part> {
    seq(|pcs|, t requires 0 <= t < |pcs| => Part(cfg.SlotOf(t), Transit(pcs[t])))
  }

  // ----- the invariant

  /** Everything about one slot that the invariant speaks of. */
  datatype View = View(
    shard: Shard, mirror: Mirror, credit: int, pendingCredit: int, transit: int,
    reserved: int, covered: nat, charged: int, consumed: nat, granted: int)

  ghost function ViewOf(cfg: Config, st: State, s: nat): View
    requires Shaped(cfg, st) && s <= cfg.workers
  {
    View(st.c.shards[s], st.c.mirrors[s],
         On(CreditParts(cfg, st.pcs), s), On(PendingCreditParts(cfg, st.pcs), s), On(TransitParts(cfg, st.pcs), s),
         Reserved(st, s), Covered(st, s), Charged(st, s), st.consumed[s], st.granted[s])
  }

  /** How far slot `s` can get: a worker's share, or for slot 0 the limit once, and
      twice more for each unbound operation that may overlap. */
  ghost function Capacity(cfg: Config, s: nat): nat
    requires cfg.Valid()
  {
    if s > 0 then DistributedShare(cfg.limit, s - 1, cfg.workers) else 2 * Overlapping(cfg) + cfg.limit
  }

  ghost function PendingCapacity(cfg: Config, s: nat): nat
    requires cfg.Valid()
  {
    if s > 0 then Capacity(cfg, s) else Overlapping(cfg) + cfg.limit
  }

  /** The limit once for each unbound operation but one. */
  ghost function Overlapping(cfg: Config): nat
    requires cfg.Valid()
  {
    Added(0, cfg.unbound - 1, cfg.limit)
  }

  /** Slot 0's counters cannot wrap even if unbound operations overlap. */
  ghost predicate Roomy(cfg: Config)
    requires cfg.Valid()
  {
    Capacity(cfg, 0) <= U64_MAX
  }

  lemma CapacityIsMultiple(cfg: Config)
    requires cfg.Valid()
    ensures Capacity(cfg, 0) == (2 * cfg.unbound - 1) * cfg.limit
  {
    AddedIsProduct(0, cfg.unbound - 1, cfg.limit);
    Distribute(2 * (cfg.unbound - 1), 1, cfg.limit);
    Distribute(cfg.unbound - 1, cfg.unbound - 1, cfg.limit);
  }

  /** A worker's share of slot 0's retained bytes, where those cannot grow. */
  ghost function SharedPart(cfg: Config, shared: u64, s: nat): nat
    requires cfg.Valid()
  {
    if s == 0 || !cfg.Disciplined() then 0 else DistributedShare(shared, s - 1, cfg.workers)
  }

  ghost predicate Conserved(s: nat, v: View) {
    v.shard.pending == v.reserved && v.covered <= v.reserved &&
    v.shard.retained == v.charged + v.consumed && 0 <= v.charged &&
    v.shard.fullsync + v.consumed + v.transit == v.granted && 0 <= v.transit &&
    (if s > 0 then v.mirror.pending == v.shard.pending && v.mirror.fullsync == v.shard.fullsync
     else v.shard.fullsync == 0)
  }

  ghost predicate WithinCapacity(cfg: Config, shared: u64, s: nat, v: View)
    requires cfg.Valid()
  {
    0 <= v.credit && 0 <= v.pendingCredit &&
    SharedPart(cfg, shared, s) + v.shard.retained + v.shard.pending + v.shard.fullsync - v.covered + v.credit
      <= Capacity(cfg, s) &&
    v.shard.pending + v.pendingCredit <= PendingCapacity(cfg, s)
  }

  /** Workers hold nothing until serving starts. */
  ghost predicate QuietBeforeServing(serving: bool, s: nat, v: View) {
    !serving && s > 0 ==> v.shard.retained == 0 && v.shard.pending == 0 && v.shard.fullsync == 0 && v.credit == 0
  }

  ghost predicate ViewOk(cfg: Config, serving: bool, shared: u64, s: nat, v: View)
    requires cfg.Valid()
  {
    Conserved(s, v) && WithinCapacity(cfg, shared, s, v) && QuietBeforeServing(serving, s, v)
  }

  ghost predicate SlotSettled(cfg: Config, st: State, s: nat)
    requires cfg.Valid() && Shaped(cfg, st) && s <= cfg.workers
  {
    ViewOk(cfg, st.serving, st.c.shards[0].retained, s, ViewOf(cfg, st, s))
  }

  /** Slot 0 is fine without thread `t`'s bytes. */
  ghost predicate FineWithout(cfg: Config, st: State, t: nat)
    requires cfg.Valid() && Shaped(cfg, st) && t < cfg.Threads()
  {
    var v := ViewOf(cfg, st, 0);
    ViewOk(cfg, st.serving, st.c.shards[0].retained, 0, v.(credit := v.credit - Credit(cfg, st.pcs[t])))
  }

  ghost predicate SlotOk(cfg: Config, st: State, s: nat)
    requires cfg.Valid() && Shaped(cfg, st) && s <= cfg.workers
  {
    SlotSettled(cfg, st, s) ||
    (s == 0 && exists t: nat {:trigger Spared(cfg, st, t)} :: Spared(cfg, st, t) && FineWithout(cfg, st, t))
  }

  /** What a thread on slot `s` knows, `zero` being slot 0's counters. What it read may
      be out of date, but only on the safe side. */
  ghost predicate ThreadOk(cfg: Config, serving: bool, zero: Shard, s: nat, pc: Pc) {
    match pc
    case Idle => true
    case SawShared(_, _, shared) => s > 0 && serving && (cfg.Disciplined() ==> zero.retained <= shared)
    case Summing(bytes, next, total) =>
      s == 0 && bytes > 0 && next <= Readings(cfg.workers) && (next == 0 ==> total == 0)
    case Admitted(kind, bytes) => if s == 0 then kind == Retention && bytes <= cfg.limit else serving
    case Retaining(owner, bytes) =>
      MayRetain(cfg, serving, s) && (s == 0 ==> owner != Consumed && bytes <= cfg.limit)
    case Restoring(_) => s > 0 && serving
  }

  ghost predicate ThreadsOk(cfg: Config, st: State)
    requires Shaped(cfg, st)
  {
    forall t {:trigger ThreadOk(cfg, st.serving, st.c.shards[0], cfg.SlotOf(t), st.pcs[t])} ::
      0 <= t < cfg.Threads() ==> ThreadOk(cfg, st.serving, st.c.shards[0], cfg.SlotOf(t), st.pcs[t])
  }

  ghost predicate TokenOk(cfg: Config, t: Reservation) {
    (!t.admitted ==> t.bytes == 0) && (t.shard == 0 ==> t.bytes <= cfg.limit)
  }

  ghost predicate TokensOk(cfg: Config, rs: seq<Reservation>) {
    forall i {:trigger TokenOk(cfg, rs[i])} :: 0 <= i < |rs| ==> TokenOk(cfg, rs[i])
  }

  /** A cover lies within one charge and one open reservation of the same slot. */
  ghost predicate CoverOk(c: Cover, rs: seq<Reservation>, cs: seq<Charge>) {
    c.bytes > 0 ==>
      c.charge < |cs| && c.reservation < |rs| && rs[c.reservation].admitted &&
      cs[c.charge].owner == c.slot == rs[c.reservation].shard
  }

  /** No charge and no reservation is covered by more bytes than it has. */
  ghost predicate CoversOk(covers: seq<Cover>, rs: seq<Reservation>, cs: seq<Charge>) {
    (forall n {:trigger CoverOk(covers[n], rs, cs)} :: 0 <= n < |covers| ==> CoverOk(covers[n], rs, cs)) &&
    (forall j {:trigger Amount(covers, OfCharge(j))} :: 0 <= j < |cs| ==> Amount(covers, OfCharge(j)) <= cs[j].bytes) &&
    (forall i {:trigger Amount(covers, Under(i))} :: 0 <= i < |rs| ==> Amount(covers, Under(i)) <= rs[i].bytes)
  }

  ghost predicate Inv(cfg: Config, st: State)
    requires cfg.Valid()
  {
    Shaped(cfg, st) && !st.c.aborted && TokensOk(cfg, st.reservations) &&
    CoversOk(st.covers, st.reservations, st.charges) &&
    ThreadsOk(cfg, st) && forall s :: 0 <= s <= cfg.workers ==> SlotOk(cfg, st, s)
  }

  /** A thread that is not early leaves nothing to spare. */
  lemma Settled(cfg: Config, st: State, t: nat)
    requires cfg.Valid() && Inv(cfg, st) && t < cfg.Threads() && !Early(cfg, st.pcs[t])
    ensures SlotSettled(cfg, st, cfg.SlotOf(t))
  {
    assert SlotOk(cfg, st, cfg.SlotOf(t));
  }

  lemma CapacityFits(cfg: Config, s: nat)
    requires cfg.Valid() && Roomy(cfg)
    ensures PendingCapacity(cfg, s) <= Capacity(cfg, s) <= U64_MAX
  {
    if s > 0 {
      QuotientBelow(cfg.limit, cfg.workers);
    }
  }

  // ----- covered bytes are reserved bytes

  lemma CoverIsReserved(covers: seq<Cover>, rs: seq<Reservation>, cs: seq<Charge>, s: nat)
    requires CoversOk(covers, rs, cs)
    ensures Amount(covers, OnSlot(s)) <= On(ReservationParts(rs), s)
  {
    CoverIsReservedUpTo(covers, rs, cs, s, |rs|);
    assert rs[..|rs|] == rs;
    forall n | 0 <= n < |covers|
      ensures CoveredBy(covers[n], OnSlot(s)) == CoveredBy(covers[n], OnSlotBefore(s, |rs|))
    {
      assert CoverOk(covers[n], rs, cs);
    }
    AmountAgrees(covers, OnSlot(s), covers, OnSlotBefore(s, |rs|));
  }

  lemma {:induction false} CoverIsReservedUpTo(covers: seq<Cover>, rs: seq<Reservation>, cs: seq<Charge>, s: nat,
      n: nat)
    requires CoversOk(covers, rs, cs) && n <= |rs|
    ensures Amount(covers, OnSlotBefore(s, n)) <= On(ReservationParts(rs[..n]), s)
    decreases n
  {
    if n == 0 {
      AmountZero(covers, OnSlotBefore(s, 0));
      assert ReservationParts(rs[..0]) == [];
    } else {
      var t := rs[n - 1];
      CoverIsReservedUpTo(covers, rs, cs, s, n - 1);
      AmountSplit(covers, OnSlotBefore(s, n), OnSlotBefore(s, n - 1), OnSlotUnder(s, n - 1));
      OnAppend(ReservationParts(rs[..n - 1]), Part(t.shard, t.bytes), s);
      assert ReservationParts(rs[..n]) == ReservationParts(rs[..n - 1]) + [Part(t.shard, t.bytes)];
      CoverOfOne(covers, rs, cs, s, n - 1);
    }
  }

  lemma CoverOfOne(covers: seq<Cover>, rs: seq<Reservation>, cs: seq<Charge>, s: nat, i: nat)
    requires CoversOk(covers, rs, cs) && i < |rs|
    ensures Amount(covers, OnSlotUnder(s, i)) <= if rs[i].shard == s then rs[i].bytes else 0
  {
    forall n | 0 <= n < |covers|
      ensures CoveredBy(covers[n], OnSlotUnder(s, i)) <= CoveredBy(covers[n], Under(i))
      ensures rs[i].shard != s ==> CoveredBy(covers[n], OnSlotUnder(s, i)) == 0
    {
      assert CoverOk(covers[n], rs, cs);
    }
    AmountOrdered(covers, OnSlotUnder(s, i), covers, Under(i));
    if rs[i].shard != s { AmountZero(covers, OnSlotUnder(s, i)); }
  }

  lemma OnNonNegative(parts: seq<Part>, s: nat)
    ensures 0 <= On(parts, s)
  {
    OnOrdered(parts, parts, s);
  }

  lemma InitInv(cfg: Config)
    requires cfg.Valid()
    ensures Inv(cfg, Init(cfg))
  {
    var st := Init(cfg);
    forall s | 0 <= s <= cfg.workers
      ensures SlotOk(cfg, st, s)
    {
      InitView(cfg, s);
      if s > 0 { ShareMonotone(0, cfg.limit, s - 1, cfg.workers); }
    }
  }

  lemma InitView(cfg: Config, s: nat)
    requires cfg.Valid() && s <= cfg.workers
    ensures ViewOf(cfg, Init(cfg), s) == View(Shard(0, 0, 0, 0), Mirror(0, 0, 0), 0, 0, 0, 0, 0, 0, 0, 0)
  {
    var st := Init(cfg);
    assert ReservationParts(st.reservations) == [] && ChargeParts(st.charges) == [];
    SumZero(Amounts(CreditParts(cfg, st.pcs), s));
    SumZero(Amounts(PendingCreditParts(cfg, st.pcs), s));
    SumZero(Amounts(TransitParts(cfg, st.pcs), s));
  }

  // ----- from one slot and one thread to all of them

  /** Slot 0's retained bytes did not grow, or grew while growing is allowed. */
  ghost predicate SharedMayChange(cfg: Config, serving: bool, shared: u64, shared': u64) {
    shared' <= shared || !cfg.Disciplined() || (!serving && shared' <= cfg.limit)
  }

  lemma SharedChangeKeeps(cfg: Config, serving: bool, shared: u64, shared': u64, s: nat, v: View)
    requires cfg.Valid() && ViewOk(cfg, serving, shared, s, v)
    requires SharedMayChange(cfg, serving, shared, shared')
    ensures ViewOk(cfg, serving, shared', s, v)
  {
    if s > 0 && cfg.Disciplined() {
      if shared' <= shared {
        ShareMonotone(shared', shared, s - 1, cfg.workers);
      } else {
        ShareMonotone(shared', cfg.limit, s - 1, cfg.workers);
      }
    }
  }

  /** A step that touched slot `s` only, and left that slot fine. */
  lemma OneSlotChanged(cfg: Config, st: State, next: State, s: nat)
    requires cfg.Valid() && Inv(cfg, st) && Shaped(cfg, next) && s <= cfg.workers
    requires !next.c.aborted && TokensOk(cfg, next.reservations) && next.serving == st.serving
    requires CoversOk(next.covers, next.reservations, next.charges) && ThreadsOk(cfg, next)
    requires forall k :: 0 <= k <= cfg.workers && k != s ==> ViewOf(cfg, next, k) == ViewOf(cfg, st, k)
    requires SharedMayChange(cfg, st.serving, st.c.shards[0].retained, next.c.shards[0].retained)
    requires SlotOk(cfg, next, s) && (s == 0 || UnboundUnmoved(cfg, st, next))
    ensures Inv(cfg, next)
  {
    forall k | 0 <= k <= cfg.workers
      ensures SlotOk(cfg, next, k)
    {
      if k != s {
        assert SlotOk(cfg, st, k);
        if SlotSettled(cfg, st, k) {
          SharedChangeKeeps(cfg, st.serving, st.c.shards[0].retained, next.c.shards[0].retained, k, ViewOf(cfg, st, k));
        } else {
          StillFineWithout(cfg, st, next);
        }
      }
    }
  }

  ghost predicate UnboundUnmoved(cfg: Config, st: State, next: State) {
    |next.pcs| == |st.pcs| && forall u :: 0 <= u < |st.pcs| && cfg.SlotOf(u) == 0 ==> next.pcs[u] == st.pcs[u]
  }

  lemma StillFineWithout(cfg: Config, st: State, next: State)
    requires cfg.Valid() && Shaped(cfg, st) && Shaped(cfg, next) && UnboundUnmoved(cfg, st, next)
    requires ViewOf(cfg, next, 0) == ViewOf(cfg, st, 0) && next.serving == st.serving
    requires SlotOk(cfg, st, 0) && !SlotSettled(cfg, st, 0)
    ensures SlotOk(cfg, next, 0)
  {
    var t: nat :| Spared(cfg, st, t) && FineWithout(cfg, st, t);
    assert next.c.shards[0] == ViewOf(cfg, next, 0).shard == ViewOf(cfg, st, 0).shard == st.c.shards[0];
    forall u | 0 <= u < |next.pcs| && cfg.SlotOf(u) == 0
      ensures Early(cfg, next.pcs[u])
    {
      assert Early(cfg, st.pcs[u]);
    }
    assert Spared(cfg, next, t) && FineWithout(cfg, next, t);
  }

  /** What a thread knows survives a step on slot `s`: only unbound threads add to slot
      0's retained bytes. */
  ghost predicate ZeroMayChange(cfg: Config, serving: bool, s: nat, zero: Shard, zero': Shard) {
    zero'.retained <= zero.retained || (s == 0 && MayRetain(cfg, serving, 0))
  }

  lemma OtherThreadKeeps(cfg: Config, serving: bool, zero: Shard, zero': Shard, t: nat, u: nat, pc: Pc)
    requires cfg.Valid() && t < cfg.Threads() && u < cfg.Threads() && t != u
    requires ThreadOk(cfg, serving, zero, cfg.SlotOf(u), pc)
    requires ZeroMayChange(cfg, serving, cfg.SlotOf(t), zero, zero')
    ensures ThreadOk(cfg, serving, zero', cfg.SlotOf(u), pc)
  {
  }

  lemma OneThreadChanged(cfg: Config, st: State, next: State, t: nat)
    requires cfg.Valid() && Inv(cfg, st) && Shaped(cfg, next) && t < cfg.Threads() && next.serving == st.serving
    requires next.pcs == st.pcs[t := next.pcs[t]]
    requires ZeroMayChange(cfg, st.serving, cfg.SlotOf(t), st.c.shards[0], next.c.shards[0])
    requires ThreadOk(cfg, next.serving, next.c.shards[0], cfg.SlotOf(t), next.pcs[t])
    ensures ThreadsOk(cfg, next)
  {
    forall u | 0 <= u < cfg.Threads()
      ensures ThreadOk(cfg, next.serving, next.c.shards[0], cfg.SlotOf(u), next.pcs[u])
    {
      if u != t {
        assert ThreadOk(cfg, st.serving, st.c.shards[0], cfg.SlotOf(u), st.pcs[u]);
        OtherThreadKeeps(cfg, st.serving, st.c.shards[0], next.c.shards[0], t, u, st.pcs[u]);
      }
    }
  }

  /** A step of no thread, or of one whose place does not change. */
  lemma NoThreadChanged(cfg: Config, st: State, next: State)
    requires cfg.Valid() && Inv(cfg, st) && Shaped(cfg, next) && next.serving == st.serving && next.pcs == st.pcs
    requires next.c.shards[0].retained <= st.c.shards[0].retained
    ensures ThreadsOk(cfg, next)
  {
    forall u | 0 <= u < cfg.Threads()
      ensures ThreadOk(cfg, next.serving, next.c.shards[0], cfg.SlotOf(u), next.pcs[u])
    {
      assert ThreadOk(cfg, st.serving, st.c.shards[0], cfg.SlotOf(u), st.pcs[u]);
    }
  }

  /** Thread `t` moving on changes its own slot's credit and no other. */
  lemma PcChanged(cfg: Config, pcs: seq<Pc>, t: nat, pc: Pc, s: nat)
    requires t < |pcs|
    ensures On(CreditParts(cfg, pcs[t := pc]), s)
         == On(CreditParts(cfg, pcs), s) + (if cfg.SlotOf(t) == s then Credit(cfg, pc) - Credit(cfg, pcs[t]) else 0)
    ensures On(PendingCreditParts(cfg, pcs[t := pc]), s)
         == On(PendingCreditParts(cfg, pcs), s)
            + (if cfg.SlotOf(t) == s then PendingCredit(cfg, pc) - PendingCredit(cfg, pcs[t]) else 0)
    ensures On(TransitParts(cfg, pcs[t := pc]), s)
         == On(TransitParts(cfg, pcs), s) + (if cfg.SlotOf(t) == s then Transit(pc) - Transit(pcs[t]) else 0)
  {
    var slot := cfg.SlotOf(t);
    var a, b, c := CreditParts(cfg, pcs), PendingCreditParts(cfg, pcs), TransitParts(cfg, pcs);
    OnUpdate(a, t, Part(slot, Credit(cfg, pc)), s);
    assert CreditParts(cfg, pcs[t := pc]) == a[t := Part(slot, Credit(cfg, pc))];
    OnUpdate(b, t, Part(slot, PendingCredit(cfg, pc)), s);
    assert PendingCreditParts(cfg, pcs[t := pc]) == b[t := Part(slot, PendingCredit(cfg, pc))];
    OnUpdate(c, t, Part(slot, Transit(pc)), s);
    assert TransitParts(cfg, pcs[t := pc]) == c[t := Part(slot, Transit(pc))];
  }

  /** Thread `t`'s own part is within its slot's sums. */
  lemma PcBounds(cfg: Config, pcs: seq<Pc>, t: nat)
    requires t < |pcs|
    ensures Credit(cfg, pcs[t]) <= On(CreditParts(cfg, pcs), cfg.SlotOf(t))
    ensures PendingCredit(cfg, pcs[t]) <= On(PendingCreditParts(cfg, pcs), cfg.SlotOf(t))
    ensures Transit(pcs[t]) <= On(TransitParts(cfg, pcs), cfg.SlotOf(t))
  {
    OnBounds(CreditParts(cfg, pcs), t, cfg.SlotOf(t));
    OnBounds(PendingCreditParts(cfg, pcs), t, cfg.SlotOf(t));
    OnBounds(TransitParts(cfg, pcs), t, cfg.SlotOf(t));
  }
}
