/** No headroom is wasted: a refusal means that the memory is in use. Together with the
    bounds over every run, this fixes what each thread decides. */
module MemoryHeadroom {
  import opened MachineInts
  import opened MemoryLimits
  import opened MemoryCounters
  import opened MemoryMachine
  import opened MemorySafety
  import opened Sums

  ghost function InUse(shard: Shard): nat { shard.retained + shard.fullsync + shard.pending }

  ghost function UseOf(shards: seq<Shard>): (r: seq<int>)
    ensures |r| == |shards| && forall i :: 0 <= i < |r| ==> r[i] == InUse(shards[i])
  {
    seq(|shards|, i requires 0 <= i < |shards| => InUse(shards[i]))
  }

  ghost predicate Mirrored(c: Counters, workers: nat)
    requires workers < |c.shards| == |c.mirrors|
  {
    forall s :: 0 < s <= workers ==>
      c.mirrors[s].pending == c.shards[s].pending && c.mirrors[s].fullsync == c.shards[s].fullsync
  }

  /** Without a limit nothing is refused. */
  lemma NoLimitRefusesNothing(c: Counters, slot: nat, workers: nat, bytes: u64)
    requires slot < |c.shards| == |c.mirrors| && workers < |c.shards|
    ensures !WorkerWouldExceed(c, slot, workers, 0, bytes)
  {
  }

  // ----- workers

  /** Asked for that many more bytes, a worker gets above its share. */
  ghost predicate Above(c: Counters, s: nat, workers: nat, limit: u64, bytes: nat)
    requires 0 < s <= workers < |c.shards|
  {
    DistributedShare(limit, s - 1, workers)
      < DistributedShare(c.shards[0].retained, s - 1, workers) + InUse(c.shards[s]) + bytes
  }

  lemma {:induction false} AllAboveMeansFull(c: Counters, workers: nat, limit: u64, asked: seq<u64>)
    requires 0 < workers < |c.shards| && |asked| == workers
    requires forall w :: 0 <= w < workers ==> Above(c, w + 1, workers, limit, asked[w])
    ensures limit + workers <= c.shards[0].retained + Sum(UseOf(c.shards[1..workers + 1])) + Sum(asked)
  {
    var shared, caps := Shares(c.shards[0].retained, workers), Shares(limit, workers);
    var own := UseOf(c.shards[1..workers + 1]);
    var ones: seq<int> := seq(workers, _ => 1);
    var most: seq<int> := seq(workers, w requires 0 <= w < workers => caps[w] + 1);
    var use: seq<int> := seq(workers, w requires 0 <= w < workers => shared[w] + own[w]);
    var all: seq<int> := seq(workers, w requires 0 <= w < workers => use[w] + asked[w]);
    SumAdd(shared, own, use);
    SumAdd(use, asked, all);
    SumAdd(caps, ones, most);
    forall w | 0 <= w < workers
      ensures most[w] <= all[w]
    {
      assert Above(c, w + 1, workers, limit, asked[w]);
    }
    SumMonotone(most, all);
    SumOnes(workers);
    SharesSumToTotal(c.shards[0].retained, workers);
    SharesSumToTotal(limit, workers);
  }

  lemma {:induction false} SumOnes(n: nat)
    ensures Sum(seq(n, _ => 1)) == n
  {
    if n > 0 {
      SumOnes(n - 1);
      assert seq(n, _ => 1)[..n - 1] == seq(n - 1, _ => 1);
    }
  }

  /** Where every worker is refused what it asks for, slot 0's retained bytes, all that
      the workers have retained, set aside or reserved, and all that they ask for exceed
      the limit, by a byte for each worker. So if all are refused a single byte, the
      limit is used up. */
  lemma RefusedWorkersMeanFull(c: Counters, workers: nat, limit: u64, asked: seq<u64>)
    requires 0 < workers < |c.shards| == |c.mirrors| && Mirrored(c, workers) && |asked| == workers
    requires forall w :: 0 <= w < workers ==> asked[w] > 0 && WorkerWouldExceed(c, w + 1, workers, limit, asked[w])
    ensures limit + workers <= c.shards[0].retained + Sum(UseOf(c.shards[1..workers + 1])) + Sum(asked)
  {
    forall w | 0 <= w < workers
      ensures Above(c, w + 1, workers, limit, asked[w])
    {
      assert asked[w] > 0;
    }
    AllAboveMeansFull(c, workers, limit, asked);
  }

  /** Whether worker `s`, reading slot 0 as it is, would now be refused these bytes. */
  ghost predicate Refused(cfg: Config, st: State, s: nat, kind: Kind, bytes: u64)
    requires cfg.Valid() && Shaped(cfg, st) && 0 < s <= cfg.workers
  {
    var saw := WithPc(st, s, SawShared(kind, bytes, st.c.shards[0].retained));
    Shaped(cfg, saw) && AfterDecide(cfg, saw, s).pcs[s] == Idle
  }

  lemma RefusedIsAbove(cfg: Config, st: State, s: nat, kind: Kind, bytes: u64)
    requires cfg.Valid() && Shaped(cfg, st) && Mirrored(st.c, cfg.workers) && 0 < s <= cfg.workers
    requires bytes > 0 && Refused(cfg, st, s, kind, bytes)
    ensures Above(st.c, s, cfg.workers, cfg.limit, bytes)
  {
  }

  lemma InvMirrors(cfg: Config, st: State)
    requires cfg.Valid() && Inv(cfg, st)
    ensures Mirrored(st.c, cfg.workers)
  {
    forall s | 0 < s <= cfg.workers
      ensures st.c.mirrors[s].pending == st.c.shards[s].pending && st.c.mirrors[s].fullsync == st.c.shards[s].fullsync
    {
      assert SlotOk(cfg, st, s);
    }
  }

  /** The same of the machine's decisions, in every state whose mirrors agree with the
      shards, so in every state that satisfies the invariant (`InvMirrors`). */
  lemma RefusedDecisionsMeanFull(cfg: Config, st: State, kind: Kind, asked: seq<u64>)
    requires cfg.Valid() && Shaped(cfg, st) && Mirrored(st.c, cfg.workers) && |asked| == cfg.workers
    requires forall w :: 0 <= w < cfg.workers ==> asked[w] > 0 && Refused(cfg, st, w + 1, kind, asked[w])
    ensures cfg.limit + cfg.workers <= st.c.shards[0].retained + Sum(UseOf(st.c.shards[1..])) + Sum(asked)
  {
    forall w | 0 <= w < cfg.workers
      ensures Above(st.c, w + 1, cfg.workers, cfg.limit, asked[w])
    {
      RefusedIsAbove(cfg, st, w + 1, kind, asked[w]);
    }
    AllAboveMeansFull(st.c, cfg.workers, cfg.limit, asked);
    assert st.c.shards[1..cfg.workers + 1] == st.c.shards[1..];
  }

  // ----- threads without a worker

  lemma SumsOfUse(shards: seq<Shard>)
    ensures Sum(Retained(shards)) + Sum(FullSync(shards)) + Sum(Pending(shards)) == Sum(UseOf(shards))
    ensures 0 <= Sum(Retained(shards)) <= Sum(UseOf(shards))
  {
    var a, b, d := Retained(shards), FullSync(shards), Pending(shards);
    var ab := seq(|shards|, i requires 0 <= i < |shards| => a[i] as int + b[i] as int);
    SumAdd(a, b, ab);
    SumAdd(ab, d, UseOf(shards));
    SumMonotone(a, UseOf(shards));
    SumZero(seq(|shards|, _ => 0));
    SumMonotone(seq(|shards|, _ => 0), a);
  }

  /** An unbound thread is refused exactly when the bytes, with all that is in use on any
      slot, would exceed the limit; so is every thread while no worker is known. */
  lemma UnboundRefusedExactlyWhenFull(c: Counters, slot: nat, workers: nat, limit: u64, bytes: u64)
    requires slot < |c.shards| == |c.mirrors| && workers < |c.shards| && (slot == 0 || workers == 0)
    requires limit > 0 && bytes > 0
    ensures WorkerWouldExceed(c, slot, workers, limit, bytes) <==>
            Sum(UseOf(c.shards[..workers + 1])) + bytes > limit
  {
    SumsOfUse(c.shards[..workers + 1]);
  }
}
