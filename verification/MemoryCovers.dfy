/** Which retained bytes lie under which open reservation. A cover says that so many
    bytes of a charge were accounted under a reservation, and still are. */
module MemoryCovers {

  datatype Cover = Cover(charge: nat, reservation: nat, slot: nat, bytes: nat)

  datatype Key =
    | OnSlot(slot: nat)
    | OfCharge(charge: nat)
    | Under(reservation: nat)
    | OnSlotUnder(slot: nat, reservation: nat)
    | OnSlotBefore(slot: nat, reservation: nat)

  ghost predicate Has(c: Cover, key: Key) {
    match key
    case OnSlot(s) => c.slot == s
    case OfCharge(j) => c.charge == j
    case Under(i) => c.reservation == i
    case OnSlotUnder(s, i) => c.slot == s && c.reservation == i
    case OnSlotBefore(s, i) => c.slot == s && c.reservation < i
  }

  ghost function CoveredBy(c: Cover, key: Key): nat {
    if Has(c, key) then c.bytes else 0
  }

  ghost function Amount(cs: seq<Cover>, key: Key): nat {
    if cs == [] then 0 else Amount(cs[..|cs| - 1], key) + CoveredBy(cs[|cs| - 1], key)
  }

  lemma AmountAppend(cs: seq<Cover>, c: Cover, key: Key)
    ensures Amount(cs + [c], key) == Amount(cs, key) + CoveredBy(c, key)
  {
    assert (cs + [c])[..|cs|] == cs;
  }

  lemma {:induction false} AmountAgrees(a: seq<Cover>, k: Key, b: seq<Cover>, l: Key)
    requires |a| == |b| && forall n :: 0 <= n < |a| ==> CoveredBy(a[n], k) == CoveredBy(b[n], l)
    ensures Amount(a, k) == Amount(b, l)
  {
    if a != [] { AmountAgrees(a[..|a| - 1], k, b[..|b| - 1], l); }
  }

  lemma {:induction false} AmountOrdered(a: seq<Cover>, k: Key, b: seq<Cover>, l: Key)
    requires |a| == |b| && forall n :: 0 <= n < |a| ==> CoveredBy(a[n], k) <= CoveredBy(b[n], l)
    ensures Amount(a, k) <= Amount(b, l)
  {
    if a != [] { AmountOrdered(a[..|a| - 1], k, b[..|b| - 1], l); }
  }

  lemma {:induction false} AmountSplit(cs: seq<Cover>, whole: Key, left: Key, right: Key)
    requires forall n :: 0 <= n < |cs| ==> CoveredBy(cs[n], whole) == CoveredBy(cs[n], left) + CoveredBy(cs[n], right)
    ensures Amount(cs, whole) == Amount(cs, left) + Amount(cs, right)
  {
    if cs != [] { AmountSplit(cs[..|cs| - 1], whole, left, right); }
  }

  lemma {:induction false} AmountZero(cs: seq<Cover>, key: Key)
    requires forall n :: 0 <= n < |cs| ==> CoveredBy(cs[n], key) == 0
    ensures Amount(cs, key) == 0
  {
    if cs != [] { AmountZero(cs[..|cs| - 1], key); }
  }

  lemma {:induction false} CoverBelowAmount(cs: seq<Cover>, n: nat, key: Key)
    requires n < |cs|
    ensures CoveredBy(cs[n], key) <= Amount(cs, key)
  {
    if n < |cs| - 1 { CoverBelowAmount(cs[..|cs| - 1], n, key); }
  }

  function Min(a: nat, b: nat): nat {
    if a < b then a else b
  }

  /** Takes `d` bytes out of the covers with this key, or all there are. */
  ghost function Lower(cs: seq<Cover>, key: Key, d: nat): (r: seq<Cover>)
    ensures |r| == |cs|
  {
    if cs == [] then []
    else
      var last := cs[|cs| - 1];
      var taken := Min(d, CoveredBy(last, key));
      Lower(cs[..|cs| - 1], key, d - taken) + [last.(bytes := last.bytes - taken)]
  }

  ghost predicate Lowered(c: Cover, was: Cover, key: Key) {
    c == was.(bytes := c.bytes) && c.bytes <= was.bytes && (!Has(was, key) ==> c == was)
  }

  lemma {:induction false} LowerShape(cs: seq<Cover>, key: Key, d: nat, n: nat)
    requires n < |cs|
    ensures Lowered(Lower(cs, key, d)[n], cs[n], key)
    decreases |cs|
  {
    if n < |cs| - 1 { LowerShape(cs[..|cs| - 1], key, d - Min(d, CoveredBy(cs[|cs| - 1], key)), n); }
  }

  lemma LowerBelow(cs: seq<Cover>, key: Key, d: nat, other: Key)
    ensures Amount(Lower(cs, key, d), other) <= Amount(cs, other)
  {
    forall n | 0 <= n < |cs|
      ensures CoveredBy(Lower(cs, key, d)[n], other) <= CoveredBy(cs[n], other)
    {
      LowerShape(cs, key, d, n);
    }
    AmountOrdered(Lower(cs, key, d), other, cs, other);
  }

  /** Where every lowered cover also has the other key, that amount falls as much. */
  lemma {:induction false} LowerInside(cs: seq<Cover>, key: Key, d: nat, other: Key)
    requires forall n :: 0 <= n < |cs| && cs[n].bytes > 0 && Has(cs[n], key) ==> Has(cs[n], other)
    ensures Amount(Lower(cs, key, d), other) == Amount(cs, other) - Min(d, Amount(cs, key))
    decreases |cs|
  {
    if cs != [] {
      var front, last := cs[..|cs| - 1], cs[|cs| - 1];
      var taken := Min(d, CoveredBy(last, key));
      LowerInside(front, key, d - taken, other);
      AmountAppend(Lower(front, key, d - taken), last.(bytes := last.bytes - taken), other);
    }
  }

  /** Where none has it, it does not change. */
  lemma LowerOutside(cs: seq<Cover>, key: Key, d: nat, other: Key)
    requires forall n :: 0 <= n < |cs| && cs[n].bytes > 0 && Has(cs[n], key) ==> !Has(cs[n], other)
    ensures Amount(Lower(cs, key, d), other) == Amount(cs, other)
  {
    forall n | 0 <= n < |cs|
      ensures CoveredBy(Lower(cs, key, d)[n], other) == CoveredBy(cs[n], other)
    {
      LowerShape(cs, key, d, n);
    }
    AmountAgrees(Lower(cs, key, d), other, cs, other);
  }

  lemma {:induction false} LowerNothing(cs: seq<Cover>, key: Key)
    ensures Lower(cs, key, 0) == cs
  {
    if cs != [] { LowerNothing(cs[..|cs| - 1], key); }
  }

  /** Where a single cover has the key. */
  lemma {:induction false} LowerOnly(cs: seq<Cover>, j: nat, key: Key)
    requires j < |cs| && forall n :: 0 <= n < |cs| ==> (Has(cs[n], key) <==> n == j)
    ensures Lower(cs, key, cs[j].bytes) == cs[j := cs[j].(bytes := 0)]
  {
    var last := |cs| - 1;
    if j == last {
      LowerNothing(cs[..last], key);
      assert cs[j := cs[j].(bytes := 0)] == cs[..last] + [cs[j].(bytes := 0)];
    } else {
      LowerOnly(cs[..last], j, key);
      assert !Has(cs[last], key);
      assert cs[j := cs[j].(bytes := 0)] == cs[..last][j := cs[j].(bytes := 0)] + [cs[last]];
    }
  }

  /** No byte stays under a reservation that is closed. */
  ghost function Close(cs: seq<Cover>, i: nat): (r: seq<Cover>)
    ensures |r| == |cs|
  {
    Lower(cs, Under(i), Amount(cs, Under(i)))
  }

  lemma ClosedIsEmpty(cs: seq<Cover>, i: nat, n: nat)
    requires n < |cs| && cs[n].reservation == i
    ensures Close(cs, i)[n].bytes == 0
  {
    LowerShape(cs, Under(i), Amount(cs, Under(i)), n);
    LowerInside(cs, Under(i), Amount(cs, Under(i)), Under(i));
    CoverBelowAmount(Close(cs, i), n, Under(i));
  }

  ghost function MoveChargeKey(cs: seq<Cover>, j: nat, k: nat): (r: seq<Cover>)
    ensures |r| == |cs|
  {
    seq(|cs|, n requires 0 <= n < |cs| => if cs[n].charge == j then cs[n].(charge := k) else cs[n])
  }

  ghost function MoveReservationKey(cs: seq<Cover>, i: nat, k: nat): (r: seq<Cover>)
    ensures |r| == |cs|
  {
    seq(|cs|, n requires 0 <= n < |cs| => if cs[n].reservation == i then cs[n].(reservation := k) else cs[n])
  }
}
