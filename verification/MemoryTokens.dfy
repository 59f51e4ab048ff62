/** The accounting globals and the three move-only owners, as the objects whose
    fields the source updates. Each method is proved to have the effect of the
    corresponding function of `MemoryCounters` on the previous values. */
module MemoryTokens {
  import opened MachineInts
  import opened MemoryLimits
  import opened MemoryCounters

  datatype InitStatus = InitOk | BadWorkerCount | BadPercentage | UnknownCapacity | ZeroMaximum

  /** The process-wide counters seen from one thread; `current` is its slot. */
  class MemoryAccounting {
    var maximum: u64
    var clientLimit: ClientBufferLimit
    var workers: nat
    var shards: seq<Shard>
    var mirrors: seq<Mirror>
    var aborted: bool
    var current: nat

    ghost predicate Valid()
      reads this
    {
      |shards| == |mirrors| == MAX_MEMORY_WORKERS + 1 &&
      current <= MAX_MEMORY_WORKERS && workers <= MAX_MEMORY_WORKERS &&
      clientLimit.Valid()
    }

    ghost function Counters(): Counters
      reads this
    {
      MemoryCounters.Counters.Counters(shards, mirrors, aborted)
    }

    constructor ()
      ensures Valid() && maximum == 0 && workers == 0 && current == 0
      ensures Counters() == EmptyCounters(MAX_MEMORY_WORKERS)
    {
      maximum, clientLimit, workers, current := 0, ClientBufferLimit(5, true), 0, 0;
      shards := seq(MAX_MEMORY_WORKERS + 1, _ => Shard(0, 0, 0, 0));
      mirrors := seq(MAX_MEMORY_WORKERS + 1, _ => Mirror(0, 0, 0));
      aborted := false;
    }

    /** `capacity` is the host or cgroup capacity, zero when it is unknown. */
    method InitMemoryLimit(configured: u64, workerCount: nat, limit: ClientBufferLimit, capacity: u64)
      returns (status: InitStatus)
      requires Valid()
      modifies this
      ensures Valid() && Counters() == old(Counters()) && current == old(current)
      ensures status.InitOk? <==>
              1 <= workerCount <= 1024 && limit.Valid() && (configured > 0 || capacity > 0)
      ensures status.InitOk? ==>
              workers == workerCount && clientLimit == limit && 0 < maximum &&
              maximum == (if configured > 0 then configured else capacity - capacity / 5)
      ensures !status.InitOk? ==> maximum == old(maximum) && clientLimit == old(clientLimit)
      ensures status.BadWorkerCount? <==> workerCount == 0 || workerCount > 1024
      ensures status.BadPercentage? <==> 1 <= workerCount <= 1024 && limit.percentage && limit.value > 100
      ensures workers == if status.BadWorkerCount? || status.BadPercentage? then old(workers) else workerCount
    {
      if workerCount == 0 || workerCount > MAX_MEMORY_WORKERS { return BadWorkerCount; }
      if limit.percentage && limit.value > 100 { return BadPercentage; }
      workers := workerCount;
      var effective := configured;
      if effective == 0 {
        if capacity == 0 { return UnknownCapacity; }
        effective := Minus(capacity, capacity / 5);
      }
      if effective == 0 { return ZeroMaximum; }
      maximum := effective;
      clientLimit := limit;
      return InitOk;
    }

    /** An out-of-range worker id binds the thread to the shared slot 0. */
    method Bind(workerId: nat)
      requires Valid()
      modifies this`current, this`mirrors
      ensures Valid() && current == if workerId < workers then workerId + 1 else 0
      ensures current != old(current) ==>
              mirrors == old(mirrors)[current := Mirror(shards[current].pending, shards[current].fullsync,
                                                        shards[current].client)]
      ensures current == old(current) ==> mirrors == old(mirrors)
    {
      var next := if workerId < workers then workerId + 1 else 0;
      if next == current { return; }
      current := next;
      var shard := shards[next];
      mirrors := mirrors[next := Mirror(shard.pending, shard.fullsync, shard.client)];
    }

    method WouldExceed(limit: u64, additional: u64) returns (r: bool)
      requires Valid() && limit < U64_MAX
      ensures r == WorkerWouldExceed(Counters(), current, workers, limit, additional)
    {
      if limit == 0 { return false; }
      if current == 0 || workers == 0 {
        var counted := shards[..workers + 1];
        var used := RetainedUsed(Retained(counted));
        var reserved := SaturatingSum(FullSync(counted));
        var pending := SaturatingSum(Pending(counted));
        SaturationHidesNothing(limit, Total(Retained(counted)), Total(FullSync(counted)), Total(Pending(counted)),
                               additional);
        return ProcessWouldExceed(limit, used, reserved, pending, additional);
      }
      var workerId := current - 1;
      var capacity := DistributedShare(limit, workerId, workers);
      var shared := DistributedShare(shards[0].retained, workerId, workers);
      var owned := shards[current].retained;
      r := ShareWouldExceed(capacity, shared, owned, mirrors[current].fullsync, mirrors[current].pending, additional);
    }

    method WouldExceedMemoryLimit(additional: u64) returns (r: bool)
      requires Valid()
      ensures r == WorkerWouldExceed(Counters(), current, workers, SteadyMemoryLimit(maximum), additional)
    {
      r := WouldExceed(SteadyMemoryLimit(maximum), additional);
    }

    method AccountRetainedMemory(owner: nat, bytes: u64)
      requires Valid() && owner < |shards|
      modifies this`shards, this`aborted
      ensures Valid() && Counters() == AccountRetained(old(Counters()), owner, bytes)
    {
      if bytes == 0 { return; }
      var previous := shards[owner].retained;
      shards := shards[owner := shards[owner].(retained := WrappingAdd(previous, bytes))];
      if bytes > Minus(U64_MAX, previous) {
        aborted := true;
      }
    }

    method ReleaseRetainedMemory(owner: nat, bytes: u64)
      requires Valid() && owner < |shards|
      modifies this`shards, this`aborted
      ensures Valid() && Counters() == ReleaseRetained(old(Counters()), owner, bytes)
    {
      if bytes == 0 { return; }
      var previous := shards[owner].retained;
      shards := shards[owner := shards[owner].(retained := WrappingSub(previous, bytes))];
      if previous < bytes {
        aborted := true;
      }
    }

    /** Null when the admission is rejected. A zero limit admits zero bytes. */
    method TryReserveMemory(bytes: u64) returns (r: MemoryReservation?)
      requires Valid()
      modifies this`shards, this`mirrors
      ensures Valid()
      ensures r == null <==>
              bytes != 0 && WorkerWouldExceed(old(Counters()), current, workers, SteadyMemoryLimit(maximum), bytes)
      ensures r == null ==> Counters() == old(Counters())
      ensures r != null ==> fresh(r)
      ensures r != null && (bytes == 0 || maximum == 0) ==>
              r.Value() == Reservation(0, current, true) && Counters() == old(Counters())
      ensures r != null && bytes != 0 && maximum != 0 ==>
              r.Value() == Reservation(bytes, current, true) &&
              Counters() == AddPending(old(Counters()), current, bytes)
    {
      var limit := SteadyMemoryLimit(maximum);
      if bytes == 0 || limit == 0 {
        r := new MemoryReservation(0, current, true);
        return;
      }
      var exceeds := WouldExceed(limit, bytes);
      if exceeds { return null; }
      if current == 0 {
        shards := shards[0 := shards[0].(pending := WrappingAdd(shards[0].pending, bytes))];
        r := new MemoryReservation(bytes, 0, true);
        return;
      }
      mirrors := mirrors[current := mirrors[current].(pending := WrappingAdd(mirrors[current].pending, bytes))];
      shards := shards[current := shards[current].(pending := mirrors[current].pending)];
      r := new MemoryReservation(bytes, current, true);
    }

    method TryReserveFullSyncMemory(bytes: u64) returns (ok: bool)
      requires Valid()
      modifies this`shards, this`mirrors
      ensures Valid()
      ensures ok <==>
              bytes == 0 || !WorkerWouldExceed(old(Counters()), current, workers, SteadyMemoryLimit(maximum), bytes)
      ensures Counters() == if ok && bytes != 0 then AddFullSync(old(Counters()), current, bytes) else old(Counters())
    {
      if bytes == 0 { return true; }
      var exceeds := WouldExceed(SteadyMemoryLimit(maximum), bytes);
      if exceeds { return false; }
      mirrors := mirrors[current := mirrors[current].(fullsync := WrappingAdd(mirrors[current].fullsync, bytes))];
      shards := shards[current := shards[current].(fullsync := mirrors[current].fullsync)];
      ok := true;
    }

    method ConsumeFullSyncMemory(bytes: u64)
      requires Valid() && bytes <= mirrors[current].fullsync
      modifies this`shards, this`mirrors, this`aborted
      ensures Valid()
      ensures Counters() == if bytes == 0 then old(Counters())
                            else AccountRetained(DropFullSync(old(Counters()), current, bytes), current, bytes)
    {
      if bytes == 0 { return; }
      mirrors := mirrors[current := mirrors[current].(fullsync := mirrors[current].fullsync - bytes)];
      shards := shards[current := shards[current].(fullsync := mirrors[current].fullsync)];
      AccountRetainedMemory(current, bytes);
    }

    method RestoreFullSyncMemory(bytes: u64)
      requires Valid() && bytes <= U64_MAX - mirrors[current].fullsync
      modifies this`shards, this`mirrors, this`aborted
      ensures Valid()
      ensures Counters() == if bytes == 0 then old(Counters())
                            else AddFullSync(ReleaseRetained(old(Counters()), current, bytes), current, bytes)
    {
      if bytes == 0 { return; }
      ReleaseRetainedMemory(current, bytes);
      mirrors := mirrors[current := mirrors[current].(fullsync := mirrors[current].fullsync + bytes)];
      shards := shards[current := shards[current].(fullsync := mirrors[current].fullsync)];
    }

    method ReleaseFullSyncMemory(bytes: u64)
      requires Valid() && bytes <= mirrors[current].fullsync
      modifies this`shards, this`mirrors
      ensures Valid()
      ensures Counters() == if bytes == 0 then old(Counters()) else DropFullSync(old(Counters()), current, bytes)
    {
      if bytes == 0 { return; }
      mirrors := mirrors[current := mirrors[current].(fullsync := mirrors[current].fullsync - bytes)];
      shards := shards[current := shards[current].(fullsync := mirrors[current].fullsync)];
    }
  }

  /** A claim on pending bytes of one shard, to be committed or given back. */
  class MemoryReservation {
    var bytes: u64
    var shard: nat
    var admitted: bool

    ghost function Value(): Reservation
      reads this
    {
      Reservation(bytes, shard, admitted)
    }

    constructor (bytes: u64, shard: nat, admitted: bool)
      ensures Value() == Reservation(bytes, shard, admitted)
    {
      this.bytes, this.shard, this.admitted := bytes, shard, admitted;
    }

    constructor Move(other: MemoryReservation)
      modifies other
      ensures Value() == old(other.Value()) && other.Value() == INERT_RESERVATION
    {
      bytes, shard, admitted := other.bytes, other.shard, other.admitted;
      new;
      other.bytes, other.shard, other.admitted := 0, 0, false;
    }

    method MoveAssign(m: MemoryAccounting, other: MemoryReservation)
      requires m.Valid() && shard < |m.shards|
      requires admitted && bytes != 0 && this != other ==> shard == m.current
      modifies this, other, m`shards, m`mirrors
      ensures m.Valid()
      ensures this == other ==> Value() == old(Value()) && m.Counters() == old(m.Counters())
      ensures this != other ==>
              Value() == old(other.Value()) && other.Value() == INERT_RESERVATION &&
              m.Counters() == ReleaseReservation(old(m.Counters()), old(Value())).0
    {
      if this != other {
        Release(m);
        bytes, shard, admitted := other.bytes, other.shard, other.admitted;
        other.bytes, other.shard, other.admitted := 0, 0, false;
      }
    }

    /** Also what the destructor does. */
    method Release(m: MemoryAccounting)
      requires m.Valid() && shard < |m.shards|
      requires admitted && bytes != 0 ==> shard == m.current
      modifies this, m`shards, m`mirrors
      ensures m.Valid()
      ensures (m.Counters(), Value()) == ReleaseReservation(old(m.Counters()), old(Value()))
    {
      if !admitted { return; }
      admitted := false;
      if bytes == 0 { return; }
      if shard == 0 {
        m.shards := m.shards[0 := m.shards[0].(pending := WrappingSub(m.shards[0].pending, bytes))];
        bytes := 0;
        return;
      }
      m.mirrors := m.mirrors[shard := m.mirrors[shard].(pending := WrappingSub(m.mirrors[shard].pending, bytes))];
      m.shards := m.shards[shard := m.shards[shard].(pending := m.mirrors[shard].pending)];
      bytes := 0;
    }

    method Commit(m: MemoryAccounting, retained: u64)
      requires m.Valid() && shard < |m.shards| && admitted
      requires bytes != 0 ==> shard == m.current
      modifies this, m`shards, m`mirrors, m`aborted
      ensures m.Valid() && !admitted
      ensures (m.Counters(), Value()) == CommitReservation(old(m.Counters()), old(Value()), retained)
    {
      var owner := shard;
      Release(m);
      m.AccountRetainedMemory(owner, retained);
    }
  }

  /** Who gives retained bytes back to the shard they were accounted to. */
  class RetainedMemoryCharge {
    var owner: nat
    var bytes: u64

    ghost function Value(): Charge
      reads this
    {
      Charge(owner, bytes)
    }

    constructor ()
      ensures Value() == EMPTY_CHARGE
    {
      owner, bytes := 0, 0;
    }

    constructor Move(other: RetainedMemoryCharge)
      modifies other
      ensures Value() == old(other.Value()) && other.Value() == EMPTY_CHARGE
    {
      owner, bytes := other.owner, other.bytes;
      new;
      other.owner, other.bytes := 0, 0;
    }

    method MoveAssign(m: MemoryAccounting, other: RetainedMemoryCharge)
      requires m.Valid() && owner < |m.shards|
      modifies this, other, m`shards, m`aborted
      ensures m.Valid()
      ensures this == other ==> Value() == old(Value()) && m.Counters() == old(m.Counters())
      ensures this != other ==>
              Value() == old(other.Value()) && other.Value() == EMPTY_CHARGE &&
              m.Counters() == ResetCharge(old(m.Counters()), old(Value())).0
    {
      if this != other {
        Reset(m);
        owner, bytes := other.owner, other.bytes;
        other.owner, other.bytes := 0, 0;
      }
    }

    method Adopt(m: MemoryAccounting, reservation: MemoryReservation, retained: u64)
      requires m.Valid() && owner < |m.shards| && reservation.shard < |m.shards| && reservation.admitted
      requires reservation.bytes != 0 ==> reservation.shard == m.current
      modifies this, reservation, m`shards, m`mirrors, m`aborted
      ensures m.Valid() && !reservation.admitted
      ensures Value() == Charge(old(reservation.shard), retained)
      ensures (m.Counters(), reservation.Value()) ==
              CommitReservation(ResetCharge(old(m.Counters()), old(Value())).0, old(reservation.Value()), retained)
    {
      Reset(m);
      owner := reservation.shard;
      bytes := retained;
      reservation.Commit(m, retained);
    }

    method Account(m: MemoryAccounting, ownerShard: nat, retained: u64)
      requires m.Valid() && owner < |m.shards| && ownerShard < |m.shards|
      modifies this, m`shards, m`aborted
      ensures m.Valid() && Value() == Charge(ownerShard, retained)
      ensures m.Counters() == AccountRetained(ResetCharge(old(m.Counters()), old(Value())).0, ownerShard, retained)
    {
      Reset(m);
      owner := ownerShard;
      bytes := retained;
      m.AccountRetainedMemory(owner, bytes);
    }

    method Resize(m: MemoryAccounting, retained: u64)
      requires m.Valid() && owner < |m.shards|
      modifies this, m`shards, m`aborted
      ensures m.Valid()
      ensures (m.Counters(), Value()) == ResizeCharge(old(m.Counters()), old(Value()), retained)
    {
      if retained > bytes {
        m.AccountRetainedMemory(owner, retained - bytes);
      } else if retained < bytes {
        m.ReleaseRetainedMemory(owner, bytes - retained);
      }
      bytes := retained;
    }

    /** Also what the destructor does, on whatever worker it runs. */
    method Reset(m: MemoryAccounting)
      requires m.Valid() && owner < |m.shards|
      modifies this, m`shards, m`aborted
      ensures m.Valid()
      ensures (m.Counters(), Value()) == ResetCharge(old(m.Counters()), old(Value()))
    {
      if bytes == 0 { return; }
      m.ReleaseRetainedMemory(owner, bytes);
      bytes := 0;
      owner := 0;
    }
  }

  /** Request bytes of one client connection, pinned to its worker. */
  class ClientBufferReservation {
    var bytes: u64
    var shard: nat

    ghost function Value(): ClientHold
      reads this
    {
      ClientHold(bytes, shard)
    }

    constructor (m: MemoryAccounting)
      ensures Value() == ClientHold(0, m.current)
    {
      bytes, shard := 0, m.current;
    }

    method TryAcquire(m: MemoryAccounting, amount: u64) returns (ok: bool)
      requires m.Valid() && shard == m.current
      modifies this, m`shards, m`mirrors
      ensures m.Valid()
      ensures (m.Counters(), Value(), ok) ==
              AcquireClient(old(m.Counters()), old(Value()), amount, m.maximum, m.clientLimit, m.workers)
    {
      if amount == 0 { return true; }
      if amount > Minus(U64_MAX, bytes) { return false; }
      if m.maximum == 0 {
        bytes := bytes + amount;
        if shard == 0 {
          m.shards := m.shards[0 := m.shards[0].(client := WrappingAdd(m.shards[0].client, amount))];
        } else {
          m.mirrors := m.mirrors[shard := m.mirrors[shard].(client := WrappingAdd(m.mirrors[shard].client, amount))];
          m.shards := m.shards[shard := m.shards[shard].(client := m.mirrors[shard].client)];
        }
        return true;
      }
      if shard == 0 || m.workers == 0 { return false; }
      var total := EffectiveClientBufferLimit(m.maximum, m.clientLimit);
      if total != 0 {
        var capacity := DistributedShare(total, shard - 1, m.workers);
        if m.mirrors[shard].client > capacity || amount > Minus(capacity, m.mirrors[shard].client) {
          return false;
        }
      }
      bytes := bytes + amount;
      m.mirrors := m.mirrors[shard := m.mirrors[shard].(client := WrappingAdd(m.mirrors[shard].client, amount))];
      m.shards := m.shards[shard := m.shards[shard].(client := m.mirrors[shard].client)];
      ok := true;
    }

    method Release(m: MemoryAccounting, amount: u64)
      requires m.Valid() && shard == m.current && amount <= bytes
      modifies this, m`shards, m`mirrors
      ensures m.Valid()
      ensures (m.Counters(), Value()) == ReleaseClient(old(m.Counters()), old(Value()), amount)
    {
      bytes := bytes - amount;
      if amount == 0 { return; }
      if shard == 0 {
        m.shards := m.shards[0 := m.shards[0].(client := WrappingSub(m.shards[0].client, amount))];
        return;
      }
      m.mirrors := m.mirrors[shard := m.mirrors[shard].(client := WrappingSub(m.mirrors[shard].client, amount))];
      m.shards := m.shards[shard := m.shards[shard].(client := m.mirrors[shard].client)];
    }
  }
}
