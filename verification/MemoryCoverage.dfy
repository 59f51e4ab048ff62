/** How each change of charges and reservations changes what is covered. */
module MemoryCoverage {
  import opened MemoryCounters
  import opened MemoryCovers
  import opened MemorySafety

  lemma NothingUnder(covers: seq<Cover>, rs: seq<Reservation>, cs: seq<Charge>, i: nat)
    requires CoversOk(covers, rs, cs) && (i >= |rs| || rs[i].bytes == 0)
    ensures Amount(covers, Under(i)) == 0
  {
    if i >= |rs| {
      forall n | 0 <= n < |covers|
        ensures CoveredBy(covers[n], Under(i)) == 0
      {
        assert CoverOk(covers[n], rs, cs);
      }
      AmountZero(covers, Under(i));
    }
  }

  lemma NothingOf(covers: seq<Cover>, rs: seq<Reservation>, cs: seq<Charge>, j: nat)
    requires CoversOk(covers, rs, cs) && (j >= |cs| || cs[j].bytes == 0)
    ensures Amount(covers, OfCharge(j)) == 0
  {
    if j >= |cs| {
      forall n | 0 <= n < |covers|
        ensures CoveredBy(covers[n], OfCharge(j)) == 0
      {
        assert CoverOk(covers[n], rs, cs);
      }
      AmountZero(covers, OfCharge(j));
    }
  }

  lemma ReservationAdded(covers: seq<Cover>, rs: seq<Reservation>, cs: seq<Charge>, t: Reservation)
    requires CoversOk(covers, rs, cs)
    ensures CoversOk(covers, rs + [t], cs)
  {
    NothingUnder(covers, rs, cs, |rs|);
    forall n | 0 <= n < |covers|
      ensures CoverOk(covers[n], rs + [t], cs)
    {
      assert CoverOk(covers[n], rs, cs);
    }
  }

  lemma ChargeAdded(covers: seq<Cover>, rs: seq<Reservation>, cs: seq<Charge>, t: Charge)
    requires CoversOk(covers, rs, cs)
    ensures CoversOk(covers, rs, cs + [t]) && Amount(covers, OfCharge(|cs|)) == 0
  {
    NothingOf(covers, rs, cs, |cs|);
    forall n | 0 <= n < |covers|
      ensures CoverOk(covers[n], rs, cs + [t])
    {
      assert CoverOk(covers[n], rs, cs);
    }
  }

  lemma ChargeRaised(covers: seq<Cover>, rs: seq<Reservation>, cs: seq<Charge>, j: nat, t: Charge)
    requires CoversOk(covers, rs, cs) && j < |cs| && t.owner == cs[j].owner && cs[j].bytes <= t.bytes
    ensures CoversOk(covers, rs, cs[j := t])
  {
    forall n | 0 <= n < |covers|
      ensures CoverOk(covers[n], rs, cs[j := t])
    {
      assert CoverOk(covers[n], rs, cs);
    }
  }

  /** Bytes of charge `j` retained under reservation `i`. */
  lemma CoverAdded(covers: seq<Cover>, rs: seq<Reservation>, cs: seq<Charge>, j: nat, i: nat, extra: nat)
    requires CoversOk(covers, rs, cs) && j < |cs| && i < |rs| && rs[i].admitted && cs[j].owner == rs[i].shard
    requires Amount(covers, Under(i)) + extra <= rs[i].bytes && Amount(covers, OfCharge(j)) + extra <= cs[j].bytes
    ensures CoversOk(covers + [Cover(j, i, cs[j].owner, extra)], rs, cs)
  {
    var c := Cover(j, i, cs[j].owner, extra);
    forall n | 0 <= n < |covers + [c]|
      ensures CoverOk((covers + [c])[n], rs, cs)
    {
      if n < |covers| { assert CoverOk(covers[n], rs, cs); }
    }
    forall k | 0 <= k < |cs|
      ensures Amount(covers + [c], OfCharge(k)) <= cs[k].bytes
    {
      AmountAppend(covers, c, OfCharge(k));
    }
    forall k | 0 <= k < |rs|
      ensures Amount(covers + [c], Under(k)) <= rs[k].bytes
    {
      AmountAppend(covers, c, Under(k));
    }
  }

  /** Closing a reservation uncovers what lay under it. */
  lemma ReservationClosed(covers: seq<Cover>, rs: seq<Reservation>, cs: seq<Charge>, i: nat, t: Reservation)
    requires CoversOk(covers, rs, cs) && i < |rs| && t.bytes == 0
    ensures CoversOk(Close(covers, i), rs[i := t], cs)
  {
    var all := Amount(covers, Under(i));
    forall n | 0 <= n < |covers|
      ensures CoverOk(Close(covers, i)[n], rs[i := t], cs)
    {
      assert CoverOk(covers[n], rs, cs);
      LowerShape(covers, Under(i), all, n);
      if covers[n].reservation == i { ClosedIsEmpty(covers, i, n); }
    }
    LowerInside(covers, Under(i), all, Under(i));
    forall k | 0 <= k < |cs|
      ensures Amount(Close(covers, i), OfCharge(k)) <= cs[k].bytes
    {
      LowerBelow(covers, Under(i), all, OfCharge(k));
    }
    forall k | 0 <= k < |rs|
      ensures Amount(Close(covers, i), Under(k)) <= rs[i := t][k].bytes
    {
      LowerBelow(covers, Under(i), all, Under(k));
    }
  }

  lemma ClosedOnSlot(covers: seq<Cover>, rs: seq<Reservation>, cs: seq<Charge>, i: nat, s: nat)
    requires CoversOk(covers, rs, cs) && i < |rs|
    ensures Amount(Close(covers, i), OnSlot(s))
         == Amount(covers, OnSlot(s)) - if s == rs[i].shard then Amount(covers, Under(i)) else 0
  {
    var all := Amount(covers, Under(i));
    forall n | 0 <= n < |covers| && covers[n].bytes > 0 && Has(covers[n], Under(i))
      ensures covers[n].slot == rs[i].shard
    {
      assert CoverOk(covers[n], rs, cs);
    }
    if s == rs[i].shard {
      LowerInside(covers, Under(i), all, OnSlot(s));
    } else {
      LowerOutside(covers, Under(i), all, OnSlot(s));
    }
  }

  /** Lowering a charge takes its covered bytes first. */
  lemma ChargeLowered(covers: seq<Cover>, rs: seq<Reservation>, cs: seq<Charge>, j: nat, t: Charge)
    requires CoversOk(covers, rs, cs) && j < |cs| && t.bytes <= cs[j].bytes
    requires t.owner == cs[j].owner || t.bytes == 0
    ensures CoversOk(Lower(covers, OfCharge(j), cs[j].bytes - t.bytes), rs, cs[j := t])
  {
    var d := cs[j].bytes - t.bytes;
    var lower := Lower(covers, OfCharge(j), d);
    LowerInside(covers, OfCharge(j), d, OfCharge(j));
    forall n | 0 <= n < |covers|
      ensures CoverOk(lower[n], rs, cs[j := t])
    {
      CoverLowered(covers, rs, cs, j, t, n);
    }
    forall k | 0 <= k < |cs|
      ensures Amount(lower, OfCharge(k)) <= cs[j := t][k].bytes
    {
      LowerBelow(covers, OfCharge(j), d, OfCharge(k));
    }
    forall k | 0 <= k < |rs|
      ensures Amount(lower, Under(k)) <= rs[k].bytes
    {
      LowerBelow(covers, OfCharge(j), d, Under(k));
    }
  }

  lemma CoverLowered(covers: seq<Cover>, rs: seq<Reservation>, cs: seq<Charge>, j: nat, t: Charge, n: nat)
    requires CoversOk(covers, rs, cs) && j < |cs| && t.bytes <= cs[j].bytes && n < |covers|
    requires t.owner == cs[j].owner || t.bytes == 0
    ensures CoverOk(Lower(covers, OfCharge(j), cs[j].bytes - t.bytes)[n], rs, cs[j := t])
  {
    var d := cs[j].bytes - t.bytes;
    assert CoverOk(covers[n], rs, cs);
    LowerShape(covers, OfCharge(j), d, n);
    if covers[n].charge == j {
      LowerInside(covers, OfCharge(j), d, OfCharge(j));
      CoverBelowAmount(Lower(covers, OfCharge(j), d), n, OfCharge(j));
    }
  }

  lemma LoweredOnSlot(covers: seq<Cover>, rs: seq<Reservation>, cs: seq<Charge>, j: nat, d: nat, s: nat)
    requires CoversOk(covers, rs, cs) && j < |cs|
    ensures Amount(Lower(covers, OfCharge(j), d), OnSlot(s))
         == Amount(covers, OnSlot(s)) - if s == cs[j].owner then Min(d, Amount(covers, OfCharge(j))) else 0
  {
    forall n | 0 <= n < |covers| && covers[n].bytes > 0 && Has(covers[n], OfCharge(j))
      ensures covers[n].slot == cs[j].owner
    {
      assert CoverOk(covers[n], rs, cs);
    }
    if s == cs[j].owner {
      LowerInside(covers, OfCharge(j), d, OnSlot(s));
    } else {
      LowerOutside(covers, OfCharge(j), d, OnSlot(s));
    }
  }

  /** Moving a charge object takes its covers along. */
  lemma ChargeMoved(covers: seq<Cover>, rs: seq<Reservation>, cs: seq<Charge>, j: nat, k: nat)
    requires CoversOk(covers, rs, cs) && j < |cs| && k < |cs| && j != k && cs[k].bytes == 0
    ensures CoversOk(MoveChargeKey(covers, j, k), rs, cs[k := cs[j]][j := EMPTY_CHARGE])
  {
    var moved, cs' := MoveChargeKey(covers, j, k), cs[k := cs[j]][j := EMPTY_CHARGE];
    NothingOf(covers, rs, cs, k);
    forall n | 0 <= n < |covers|
      ensures CoverOk(moved[n], rs, cs') && CoveredBy(covers[n], OfCharge(k)) == 0
    {
      assert CoverOk(covers[n], rs, cs);
      CoverBelowAmount(covers, n, OfCharge(k));
    }
    forall l | 0 <= l < |cs|
      ensures Amount(moved, OfCharge(l)) <= cs'[l].bytes
    {
      if l == k {
        AmountAgrees(moved, OfCharge(k), covers, OfCharge(j));
      } else if l == j {
        AmountZero(moved, OfCharge(j));
      } else {
        AmountAgrees(moved, OfCharge(l), covers, OfCharge(l));
      }
    }
    forall i | 0 <= i < |rs|
      ensures Amount(moved, Under(i)) <= rs[i].bytes
    {
      AmountAgrees(moved, Under(i), covers, Under(i));
    }
  }

  lemma ReservationMoved(covers: seq<Cover>, rs: seq<Reservation>, cs: seq<Charge>, i: nat, k: nat)
    requires CoversOk(covers, rs, cs) && i < |rs| && k < |rs| && i != k && rs[k].bytes == 0
    ensures CoversOk(MoveReservationKey(covers, i, k), rs[k := rs[i]][i := INERT_RESERVATION], cs)
  {
    var moved, rs' := MoveReservationKey(covers, i, k), rs[k := rs[i]][i := INERT_RESERVATION];
    NothingUnder(covers, rs, cs, k);
    forall n | 0 <= n < |covers|
      ensures CoverOk(moved[n], rs', cs) && CoveredBy(covers[n], Under(k)) == 0
    {
      assert CoverOk(covers[n], rs, cs);
      CoverBelowAmount(covers, n, Under(k));
    }
    forall l | 0 <= l < |rs|
      ensures Amount(moved, Under(l)) <= rs'[l].bytes
    {
      if l == k {
        AmountAgrees(moved, Under(k), covers, Under(i));
      } else if l == i {
        AmountZero(moved, Under(i));
      } else {
        AmountAgrees(moved, Under(l), covers, Under(l));
      }
    }
    forall j | 0 <= j < |cs|
      ensures Amount(moved, OfCharge(j)) <= cs[j].bytes
    {
      AmountAgrees(moved, OfCharge(j), covers, OfCharge(j));
    }
  }
}
