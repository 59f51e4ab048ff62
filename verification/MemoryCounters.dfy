/** The accounting shards, the per-thread mirrors of them, and the effect of
    each operation on both, as functions of the previous values. Slot 0 collects
    threads without a worker; worker N uses slot N + 1. */
module MemoryCounters {
  import opened MachineInts
  import opened MemoryLimits
  import opened Sums

  datatype Shard = Shard(retained: u64, pending: u64, fullsync: u64, client: u64)

  /** What a bound thread keeps locally; it publishes every change by a store. */
  datatype Mirror = Mirror(pending: u64, fullsync: u64, client: u64)

  /** `aborted` records that the process called abort(). */
  datatype Counters = Counters(shards: seq<Shard>, mirrors: seq<Mirror>, aborted: bool) {
    predicate Shaped(workers: nat) {
      |shards| == |mirrors| == workers + 1
    }
  }

  function EmptyCounters(workers: nat): (c: Counters)
    ensures c.Shaped(workers) && !c.aborted
  {
    Counters(seq(workers + 1, _ => Shard(0, 0, 0, 0)), seq(workers + 1, _ => Mirror(0, 0, 0)), false)
  }

  // ----- retained bytes: read-modify-write on the owner's shard, from any thread

  function AccountRetained(c: Counters, owner: nat, bytes: u64): Counters
    requires owner < |c.shards|
  {
    if bytes == 0 then c else
    var previous := c.shards[owner].retained;
    c.(shards := c.shards[owner := c.shards[owner].(retained := WrappingAdd(previous, bytes))],
       aborted := c.aborted || bytes > Minus(U64_MAX, previous))
  }

  function ReleaseRetained(c: Counters, owner: nat, bytes: u64): Counters
    requires owner < |c.shards|
  {
    if bytes == 0 then c else
    var previous := c.shards[owner].retained;
    c.(shards := c.shards[owner := c.shards[owner].(retained := WrappingSub(previous, bytes))],
       aborted := c.aborted || previous < bytes)
  }

  // ----- pending bytes: shared slot 0 by read-modify-write, a worker's by mirror and store

  function StorePending(c: Counters, slot: nat, value: u64): Counters
    requires slot < |c.shards| && slot < |c.mirrors|
  {
    c.(shards := c.shards[slot := c.shards[slot].(pending := value)],
       mirrors := c.mirrors[slot := c.mirrors[slot].(pending := value)])
  }

  function AddPending(c: Counters, slot: nat, bytes: u64): Counters
    requires slot < |c.shards| && slot < |c.mirrors|
  {
    if slot == 0 then
      c.(shards := c.shards[0 := c.shards[0].(pending := WrappingAdd(c.shards[0].pending, bytes))])
    else StorePending(c, slot, WrappingAdd(c.mirrors[slot].pending, bytes))
  }

  function DropPending(c: Counters, slot: nat, bytes: u64): Counters
    requires slot < |c.shards| && slot < |c.mirrors|
  {
    if slot == 0 then
      c.(shards := c.shards[0 := c.shards[0].(pending := WrappingSub(c.shards[0].pending, bytes))])
    else StorePending(c, slot, WrappingSub(c.mirrors[slot].pending, bytes))
  }

  // ----- full-sync bytes: always through the calling thread's mirror

  function StoreFullSync(c: Counters, slot: nat, value: u64): Counters
    requires slot < |c.shards| && slot < |c.mirrors|
  {
    c.(shards := c.shards[slot := c.shards[slot].(fullsync := value)],
       mirrors := c.mirrors[slot := c.mirrors[slot].(fullsync := value)])
  }

  function AddFullSync(c: Counters, slot: nat, bytes: u64): Counters
    requires slot < |c.shards| && slot < |c.mirrors|
  {
    StoreFullSync(c, slot, WrappingAdd(c.mirrors[slot].fullsync, bytes))
  }

  function DropFullSync(c: Counters, slot: nat, bytes: u64): Counters
    requires slot < |c.shards| && slot < |c.mirrors|
  {
    StoreFullSync(c, slot, WrappingSub(c.mirrors[slot].fullsync, bytes))
  }

  // ----- client bytes

  function StoreClient(c: Counters, slot: nat, value: u64): Counters
    requires slot < |c.shards| && slot < |c.mirrors|
  {
    c.(shards := c.shards[slot := c.shards[slot].(client := value)],
       mirrors := c.mirrors[slot := c.mirrors[slot].(client := value)])
  }

  function AddClient(c: Counters, slot: nat, bytes: u64): Counters
    requires slot < |c.shards| && slot < |c.mirrors|
  {
    if slot == 0 then
      c.(shards := c.shards[0 := c.shards[0].(client := WrappingAdd(c.shards[0].client, bytes))])
    else StoreClient(c, slot, WrappingAdd(c.mirrors[slot].client, bytes))
  }

  function DropClient(c: Counters, slot: nat, bytes: u64): Counters
    requires slot < |c.shards| && slot < |c.mirrors|
  {
    if slot == 0 then
      c.(shards := c.shards[0 := c.shards[0].(client := WrappingSub(c.shards[0].client, bytes))])
    else StoreClient(c, slot, WrappingSub(c.mirrors[slot].client, bytes))
  }

  // ----- the admission decision

  ghost function Total(values: seq<u64>): nat {
    PrefixBelowSum(values, |values|);
    assert values[..|values|] == values;
    Sum(values)
  }

  function Retained(shards: seq<Shard>): (r: seq<u64>) {
    seq(|shards|, i requires 0 <= i < |shards| => shards[i].retained)
  }

  function Pending(shards: seq<Shard>): (r: seq<u64>) {
    seq(|shards|, i requires 0 <= i < |shards| => shards[i].pending)
  }

  function FullSync(shards: seq<Shard>): (r: seq<u64>) {
    seq(|shards|, i requires 0 <= i < |shards| => shards[i].fullsync)
  }

  /** What a thread on `slot` decides about `additional` bytes: an unbound thread
      looks at the whole process, a worker only at its own shares. */
  ghost predicate WorkerWouldExceed(c: Counters, slot: nat, workers: nat, maximum: u64, additional: u64)
    requires slot < |c.shards| == |c.mirrors| && workers < |c.shards|
  {
    maximum != 0 &&
    if slot == 0 || workers == 0 then
      var counted := c.shards[..workers + 1];
      var used := Total(Retained(counted));
      used >= maximum || used + Total(FullSync(counted)) + Total(Pending(counted)) + additional > maximum
    else
      var capacity := DistributedShare(maximum, slot - 1, workers);
      var shared := DistributedShare(c.shards[0].retained, slot - 1, workers);
      shared >= capacity ||
      shared + c.shards[slot].retained + c.mirrors[slot].fullsync + c.mirrors[slot].pending + additional > capacity
  }

  // ----- ownership tokens

  datatype Reservation = Reservation(bytes: u64, shard: nat, admitted: bool)
  datatype Charge = Charge(owner: nat, bytes: u64)
  datatype ClientHold = ClientHold(bytes: u64, shard: nat)

  const INERT_RESERVATION := Reservation(0, 0, false)
  const EMPTY_CHARGE := Charge(0, 0)

  function ReleaseReservation(c: Counters, t: Reservation): (r: (Counters, Reservation))
    requires t.shard < |c.shards| && t.shard < |c.mirrors|
    ensures !r.1.admitted && (t.admitted ==> r.1.bytes == 0)
    ensures |r.0.shards| == |c.shards| && |r.0.mirrors| == |c.mirrors|
  {
    if !t.admitted then (c, t)
    else if t.bytes == 0 then (c, t.(admitted := false))
    else (DropPending(c, t.shard, t.bytes), Reservation(0, t.shard, false))
  }

  function CommitReservation(c: Counters, t: Reservation, retained: u64): (r: (Counters, Reservation))
    requires t.shard < |c.shards| && t.shard < |c.mirrors|
  {
    var (released, token) := ReleaseReservation(c, t);
    (AccountRetained(released, t.shard, retained), token)
  }

  function ResetCharge(c: Counters, t: Charge): (r: (Counters, Charge))
    requires t.owner < |c.shards|
    ensures r.1.bytes == 0
    ensures |r.0.shards| == |c.shards| && |r.0.mirrors| == |c.mirrors|
  {
    if t.bytes == 0 then (c, t) else (ReleaseRetained(c, t.owner, t.bytes), EMPTY_CHARGE)
  }

  function ResizeCharge(c: Counters, t: Charge, retained: u64): (r: (Counters, Charge))
    requires t.owner < |c.shards|
  {
    (if retained > t.bytes then AccountRetained(c, t.owner, retained - t.bytes)
     else if retained < t.bytes then ReleaseRetained(c, t.owner, t.bytes - retained)
     else c,
     t.(bytes := retained))
  }

  /** `maximum` is the configured limit, zero before it is configured. */
  function AcquireClient(
      c: Counters, t: ClientHold, bytes: u64, maximum: u64, limit: ClientBufferLimit, workers: nat):
      (r: (Counters, ClientHold, bool))
    requires t.shard < |c.shards| && t.shard < |c.mirrors| && limit.Valid()
    ensures !r.2 ==> r.0 == c && r.1 == t
    ensures r.2 ==> r.1.shard == t.shard && r.1.bytes == t.bytes + bytes
  {
    if bytes == 0 then (c, t, true)
    else if bytes > Minus(U64_MAX, t.bytes) then (c, t, false)
    else
      var grown := (AddClient(c, t.shard, bytes), t.(bytes := t.bytes + bytes), true);
      if maximum == 0 then grown
      else if t.shard == 0 || workers == 0 then (c, t, false)
      else
        var total := EffectiveClientBufferLimit(maximum, limit);
        if total == 0 then grown
        else
          var capacity := DistributedShare(total, t.shard - 1, workers);
          var used := c.mirrors[t.shard].client;
          if used > capacity || bytes > Minus(capacity, used) then (c, t, false) else grown
  }

  function ReleaseClient(c: Counters, t: ClientHold, bytes: u64): (r: (Counters, ClientHold))
    requires t.shard < |c.shards| && t.shard < |c.mirrors| && bytes <= t.bytes
  {
    (if bytes == 0 then c else DropClient(c, t.shard, bytes), t.(bytes := t.bytes - bytes))
  }

  // ----- the operations where nothing wraps

  lemma AccountExact(c: Counters, owner: nat, bytes: u64)
    requires owner < |c.shards| && c.shards[owner].retained + bytes <= U64_MAX
    ensures AccountRetained(c, owner, bytes)
         == c.(shards := c.shards[owner := c.shards[owner].(retained := c.shards[owner].retained + bytes)])
  {
    assert c.shards[owner := c.shards[owner]] == c.shards;
  }

  lemma ReleaseExact(c: Counters, owner: nat, bytes: u64)
    requires owner < |c.shards| && bytes <= c.shards[owner].retained
    ensures ReleaseRetained(c, owner, bytes)
         == c.(shards := c.shards[owner := c.shards[owner].(retained := c.shards[owner].retained - bytes)])
  {
    assert c.shards[owner := c.shards[owner]] == c.shards;
  }

  /** A slot's pending bytes set anew, a worker's mirror following. */
  function WithPending(c: Counters, slot: nat, pending: u64): Counters
    requires slot < |c.shards| == |c.mirrors|
  {
    c.(shards := c.shards[slot := c.shards[slot].(pending := pending)],
       mirrors := if slot == 0 then c.mirrors else c.mirrors[slot := c.mirrors[slot].(pending := pending)])
  }

  lemma AddPendingExact(c: Counters, slot: nat, bytes: u64)
    requires slot < |c.shards| == |c.mirrors| && c.shards[slot].pending + bytes <= U64_MAX
    requires slot > 0 ==> c.mirrors[slot].pending == c.shards[slot].pending
    ensures AddPending(c, slot, bytes) == WithPending(c, slot, c.shards[slot].pending + bytes)
  {
  }

  /** Releasing takes exactly the token's bytes out of its own shard's pending bytes. */
  lemma ReleaseIsExact(c: Counters, t: Reservation)
    requires t.shard < |c.shards| == |c.mirrors| && (!t.admitted ==> t.bytes == 0)
    requires t.bytes <= c.shards[t.shard].pending
    requires t.shard > 0 ==> c.mirrors[t.shard].pending == c.shards[t.shard].pending
    ensures ReleaseReservation(c, t)
         == (WithPending(c, t.shard, c.shards[t.shard].pending - t.bytes), Reservation(0, t.shard, false))
  {
    if t.bytes == 0 {
      assert c.shards[t.shard := c.shards[t.shard]] == c.shards &&
             c.mirrors[t.shard := c.mirrors[t.shard]] == c.mirrors;
    }
  }

  /** Resetting takes exactly the charge's bytes out of its owner's retained bytes. */
  lemma ResetIsExact(c: Counters, t: Charge)
    requires t.owner < |c.shards| && 0 < t.bytes <= c.shards[t.owner].retained
    ensures ResetCharge(c, t)
         == (c.(shards := c.shards[t.owner := c.shards[t.owner].(retained := c.shards[t.owner].retained - t.bytes)]),
             EMPTY_CHARGE)
  {
    ReleaseExact(c, t.owner, t.bytes);
  }

  /** Client bytes are granted exactly when they fit the connection's own counter and,
      on a worker with a quota, the worker's share; and then both grow by them. */
  lemma AcquireDecides(c: Counters, t: ClientHold, bytes: u64, maximum: u64, limit: ClientBufferLimit, workers: nat)
    requires t.shard < |c.shards| == |c.mirrors| && limit.Valid()
    ensures var (c', t', ok) := AcquireClient(c, t, bytes, maximum, limit, workers);
            ok <==> bytes == 0 ||
                    (t.bytes + bytes <= U64_MAX &&
                     (maximum == 0 ||
                      (t.shard != 0 && workers != 0 &&
                       (limit.value == 0 ||
                        c.mirrors[t.shard].client + bytes
                          <= DistributedShare(EffectiveClientBufferLimit(maximum, limit), t.shard - 1, workers)))))
    ensures var (c', t', ok) := AcquireClient(c, t, bytes, maximum, limit, workers);
            if ok then
              t' == t.(bytes := t.bytes + bytes) && c' == (if bytes == 0 then c else AddClient(c, t.shard, bytes))
            else t' == t && c' == c
  {
  }

  /** A slot's client bytes set anew, a worker's mirror following. */
  function WithClient(c: Counters, slot: nat, client: u64): Counters
    requires slot < |c.shards| == |c.mirrors|
  {
    c.(shards := c.shards[slot := c.shards[slot].(client := client)],
       mirrors := if slot == 0 then c.mirrors else c.mirrors[slot := c.mirrors[slot].(client := client)])
  }

  ghost predicate ClientMirrored(c: Counters, slot: nat)
    requires slot < |c.shards| == |c.mirrors|
  {
    slot > 0 ==> c.mirrors[slot].client == c.shards[slot].client
  }

  /** A grant adds exactly the bytes to the hold and to its own slot's client bytes. */
  lemma AcquireIsExact(c: Counters, t: ClientHold, bytes: u64, maximum: u64, limit: ClientBufferLimit, workers: nat)
    requires t.shard < |c.shards| == |c.mirrors| && limit.Valid() && ClientMirrored(c, t.shard)
    requires c.shards[t.shard].client + bytes <= U64_MAX && AcquireClient(c, t, bytes, maximum, limit, workers).2
    ensures AcquireClient(c, t, bytes, maximum, limit, workers)
         == (WithClient(c, t.shard, c.shards[t.shard].client + bytes), t.(bytes := t.bytes + bytes), true)
  {
    assert c.shards[t.shard := c.shards[t.shard]] == c.shards && c.mirrors[t.shard := c.mirrors[t.shard]] == c.mirrors;
  }

  /** A release takes exactly the bytes out of both, on a worker and on slot 0. */
  lemma ClientReleaseIsExact(c: Counters, t: ClientHold, bytes: u64)
    requires t.shard < |c.shards| == |c.mirrors| && ClientMirrored(c, t.shard)
    requires bytes <= t.bytes && bytes <= c.shards[t.shard].client
    ensures ReleaseClient(c, t, bytes)
         == (WithClient(c, t.shard, c.shards[t.shard].client - bytes), t.(bytes := t.bytes - bytes))
  {
    assert c.shards[t.shard := c.shards[t.shard]] == c.shards && c.mirrors[t.shard := c.mirrors[t.shard]] == c.mirrors;
  }

  /** From `c` to `c'` only client bytes changed, or anything but those did. */
  predicate ClientsOnly(c: Counters, c': Counters) {
    |c'.shards| == |c.shards| && |c'.mirrors| == |c.mirrors| && c'.aborted == c.aborted &&
    (forall s :: 0 <= s < |c.shards| ==> c'.shards[s] == c.shards[s].(client := c'.shards[s].client)) &&
    (forall s :: 0 <= s < |c.mirrors| ==> c'.mirrors[s] == c.mirrors[s].(client := c'.mirrors[s].client))
  }

  predicate SameClients(c: Counters, c': Counters) {
    |c'.shards| == |c.shards| && |c'.mirrors| == |c.mirrors| &&
    (forall s :: 0 <= s < |c.shards| ==> c'.shards[s].client == c.shards[s].client) &&
    (forall s :: 0 <= s < |c.mirrors| ==> c'.mirrors[s].client == c.mirrors[s].client)
  }

  lemma AcquireTouchesClients(c: Counters, t: ClientHold, bytes: u64, maximum: u64, limit: ClientBufferLimit,
      workers: nat)
    requires t.shard < |c.shards| == |c.mirrors| && limit.Valid()
    ensures ClientsOnly(c, AcquireClient(c, t, bytes, maximum, limit, workers).0)
  {
  }

  /** A slot's full-sync and retained bytes set anew, the mirror following. */
  function WithCredit(c: Counters, slot: nat, fullsync: u64, retained: u64): Counters
    requires slot < |c.shards| == |c.mirrors|
  {
    c.(shards := c.shards[slot := c.shards[slot].(fullsync := fullsync, retained := retained)],
       mirrors := c.mirrors[slot := c.mirrors[slot].(fullsync := fullsync)])
  }

  lemma AddFullSyncExact(c: Counters, slot: nat, bytes: u64)
    requires slot < |c.shards| == |c.mirrors| && c.mirrors[slot].fullsync == c.shards[slot].fullsync
    requires c.shards[slot].fullsync + bytes <= U64_MAX
    ensures AddFullSync(c, slot, bytes) == WithCredit(c, slot, c.shards[slot].fullsync + bytes, c.shards[slot].retained)
  {
  }

  lemma DropFullSyncExact(c: Counters, slot: nat, bytes: u64)
    requires slot < |c.shards| == |c.mirrors| && bytes <= c.mirrors[slot].fullsync == c.shards[slot].fullsync
    ensures DropFullSync(c, slot, bytes)
         == WithCredit(c, slot, c.shards[slot].fullsync - bytes, c.shards[slot].retained)
  {
  }

  lemma ReleaseCreditExact(c: Counters, slot: nat, bytes: u64)
    requires slot < |c.shards| == |c.mirrors| && c.mirrors[slot].fullsync == c.shards[slot].fullsync
    requires bytes <= c.shards[slot].retained
    ensures ReleaseRetained(c, slot, bytes)
         == WithCredit(c, slot, c.shards[slot].fullsync, c.shards[slot].retained - bytes)
  {
    ReleaseExact(c, slot, bytes);
    assert c.mirrors[slot := c.mirrors[slot]] == c.mirrors;
  }

  // ----- what one operation undoes

  lemma ReleaseUndoesReserve(c: Counters, slot: nat, bytes: u64)
    requires slot < |c.shards| == |c.mirrors|
    requires slot > 0 ==> c.mirrors[slot].pending == c.shards[slot].pending
    requires c.shards[slot].pending + bytes <= U64_MAX
    ensures ReleaseReservation(AddPending(c, slot, bytes), Reservation(bytes, slot, true)).0 == c
  {
    var reserved := AddPending(c, slot, bytes);
    if bytes != 0 {
      var back := DropPending(reserved, slot, bytes);
      assert back.shards[slot] == c.shards[slot];
      assert back.shards == c.shards && back.mirrors == c.mirrors;
    } else {
      assert reserved.shards[slot] == c.shards[slot];
      assert reserved.shards == c.shards && reserved.mirrors == c.mirrors;
    }
  }

  lemma ReleaseUndoesAccount(c: Counters, owner: nat, bytes: u64)
    requires owner < |c.shards|
    requires c.shards[owner].retained + bytes <= U64_MAX
    ensures ReleaseRetained(AccountRetained(c, owner, bytes), owner, bytes) == c
  {
    var accounted := AccountRetained(c, owner, bytes);
    if bytes != 0 {
      var back := ReleaseRetained(accounted, owner, bytes);
      assert back.shards[owner] == c.shards[owner];
      assert back.shards == c.shards;
    }
  }

  /** Giving client bytes back undoes their being granted. */
  lemma ReleaseUndoesAcquire(
      c: Counters, t: ClientHold, bytes: u64, maximum: u64, limit: ClientBufferLimit, workers: nat)
    requires t.shard < |c.shards| == |c.mirrors| && limit.Valid() && ClientMirrored(c, t.shard)
    requires c.shards[t.shard].client + bytes <= U64_MAX && AcquireClient(c, t, bytes, maximum, limit, workers).2
    ensures var (granted, hold, _) := AcquireClient(c, t, bytes, maximum, limit, workers);
            ReleaseClient(granted, hold, bytes) == (c, t)
  {
    var granted := WithClient(c, t.shard, c.shards[t.shard].client + bytes);
    AcquireIsExact(c, t, bytes, maximum, limit, workers);
    ClientReleaseIsExact(granted, t.(bytes := t.bytes + bytes), bytes);
    var back := WithClient(granted, t.shard, c.shards[t.shard].client);
    assert back.shards == c.shards && back.mirrors == c.mirrors;
  }

  /** The process aborts exactly when retained bytes would wrap, up or down; short of
      that they change by exactly the bytes. */
  lemma AbortsExactlyOnWrap(c: Counters, owner: nat, bytes: u64)
    requires owner < |c.shards|
    ensures var up, down := AccountRetained(c, owner, bytes), ReleaseRetained(c, owner, bytes);
            var previous := c.shards[owner].retained;
            (up.aborted <==> c.aborted || previous + bytes > U64_MAX) &&
            (down.aborted <==> c.aborted || bytes > previous) &&
            (!up.aborted ==> up.shards[owner].retained == previous + bytes) &&
            (!down.aborted ==> down.shards[owner].retained == previous - bytes)
  {
  }

  /** Restoring full-sync credit is the inverse of consuming it. */
  lemma RestoreUndoesConsume(c: Counters, slot: nat, bytes: u64)
    requires slot < |c.shards| == |c.mirrors|
    requires c.mirrors[slot].fullsync == c.shards[slot].fullsync >= bytes
    requires c.shards[slot].retained + bytes <= U64_MAX
    ensures AddFullSync(ReleaseRetained(AccountRetained(DropFullSync(c, slot, bytes), slot, bytes), slot, bytes),
                        slot, bytes) == c
  {
    var consumed := DropFullSync(c, slot, bytes);
    ReleaseUndoesAccount(consumed, slot, bytes);
    var back := AddFullSync(consumed, slot, bytes);
    assert back.shards[slot] == c.shards[slot] && back.mirrors[slot] == c.mirrors[slot];
    assert back.shards == c.shards && back.mirrors == c.mirrors;
  }

  /** Shrinking by two resizes is one resize; growing back restores the count. */
  lemma ResizesCompose(c: Counters, t: Charge, first: u64, second: u64)
    requires t.owner < |c.shards|
    requires t.bytes <= c.shards[t.owner].retained
    requires c.shards[t.owner].retained - t.bytes + first <= U64_MAX
    requires c.shards[t.owner].retained - t.bytes + second <= U64_MAX
    ensures var (middle, token) := ResizeCharge(c, t, first);
            ResizeCharge(middle, token, second) == ResizeCharge(c, t, second)
  {
    var (middle, token) := ResizeCharge(c, t, first);
    var (left, _) := ResizeCharge(middle, token, second);
    var (right, _) := ResizeCharge(c, t, second);
    assert left.shards[t.owner] == right.shards[t.owner];
    assert left.shards == right.shards;
  }
}
