/** The bytes whose digest identifies a population manifest. */
module PopulationManifest {
  import opened Arithmetic
  import opened MachineInts

  type byte = x: int | 0 <= x < 256
  type u32 = x: int | 0 <= x < 0x1_0000_0000

  /** LAVIK_POPULATION_V1 */
  const DIGEST_DOMAIN: seq<byte> :=
    [76, 65, 86, 73, 75, 95, 80, 79, 80, 85, 76, 65, 84, 73, 79, 78, 95, 86, 49]

  const SCHEMA_VERSION: nat := 1

  datatype Entry = Entry(partitionId: u32, logicalEpoch: u64)

  function Pow256(n: nat): (p: nat)
    ensures p > 0
  {
    if n == 0 then 1 else Pow256(n - 1) * 256
  }

  /** The low `n` bytes of a value, most significant first. */
  function BigEndian(value: nat, n: nat): (b: seq<byte>)
    ensures |b| == n
  {
    if n == 0 then [] else BigEndian(value / 256, n - 1) + [value % 256]
  }

  function FromBigEndian(b: seq<byte>): nat {
    if b == [] then 0 else FromBigEndian(b[..|b| - 1]) * 256 + b[|b| - 1]
  }

  /** Reading the bytes back gives the value, as far as it fits. */
  lemma {:induction false} BigEndianReadsBack(value: nat, n: nat)
    requires value < Pow256(n)
    ensures FromBigEndian(BigEndian(value, n)) == value
  {
    if n > 0 {
      BigEndianReadsBack(value / 256, n - 1);
      var high := BigEndian(value / 256, n - 1);
      assert BigEndian(value, n)[..n - 1] == high;
    }
  }

  /** A value shifted right by whole bytes. */
  function Shifted(value: nat, bytes: nat): nat {
    if bytes == 0 then value else Shifted(value, bytes - 1) / 256
  }

  method AppendBigEndian(encoded: seq<byte>, value: u64, bytes: nat) returns (r: seq<byte>)
    ensures r == encoded + BigEndian(value, bytes)
  {
    r := encoded;
    var remaining := bytes;
    while remaining != 0
      invariant 0 <= remaining <= bytes
      invariant r == encoded + BigEndian(Shifted(value, remaining), bytes - remaining)
    {
      r := r + [Shifted(value, remaining - 1) % 256];
      remaining := remaining - 1;
    }
  }

  // ----- the encoding

  function EntryBytes(e: Entry): (b: seq<byte>)
    ensures |b| == 10
  {
    BigEndian(e.partitionId % 0x1_0000, 2) + BigEndian(e.logicalEpoch, 8)
  }

  function EntriesBytes(entries: seq<Entry>): (b: seq<byte>)
    ensures |b| == 10 * |entries|
  {
    if entries == [] then []
    else EntriesBytes(entries[..|entries| - 1]) + EntryBytes(entries[|entries| - 1])
  }

  function Prologue(count: nat): (b: seq<byte>)
    ensures |b| == 25
  {
    Counted(DIGEST_DOMAIN + BigEndian(SCHEMA_VERSION, 2), count)
  }

  function Counted(front: seq<byte>, count: nat): (b: seq<byte>)
    ensures |b| == |front| + 4
  {
    front + BigEndian(count % 0x1_0000_0000, 4)
  }

  function Encode(entries: seq<Entry>): (b: seq<byte>)
    ensures |b| == 25 + 10 * |entries|
  {
    Prologue(|entries|) + EntriesBytes(entries)
  }

  method EncodePopulationManifestDigestInput(entries: seq<Entry>) returns (encoded: seq<byte>)
    ensures encoded == Encode(entries)
  {
    encoded := DIGEST_DOMAIN;
    encoded := AppendBigEndian(encoded, SCHEMA_VERSION, 2);
    encoded := AppendBigEndian(encoded, |entries| % 0x1_0000_0000, 4);
    encoded := AppendEntries(encoded, entries);
  }

  /** The entry loop. */
  method AppendEntries(front: seq<byte>, entries: seq<Entry>) returns (encoded: seq<byte>)
    ensures encoded == front + EntriesBytes(entries)
  {
    encoded := front;
    for i := 0 to |entries|
      invariant encoded == front + EntriesBytes(entries[..i])
    {
      assert entries[..i + 1][..i] == entries[..i];
      encoded := AppendEntry(encoded, entries[i]);
    }
    assert entries[..|entries|] == entries;
  }

  method AppendEntry(front: seq<byte>, e: Entry) returns (encoded: seq<byte>)
    ensures encoded == front + EntryBytes(e)
  {
    encoded := AppendBigEndian(front, e.partitionId % 0x1_0000, 2);
    encoded := AppendBigEndian(encoded, e.logicalEpoch, 8);
  }

  // ----- where each byte stands

  /** Byte `i` of `n` is the value's digit to the base 256 at that place. */
  lemma {:induction false} BigEndianAt(value: nat, n: nat, i: nat)
    requires i < n
    ensures BigEndian(value, n)[i] == value / Pow256(n - 1 - i) % 256
    decreases n
  {
    if i < n - 1 {
      BigEndianAt(value / 256, n - 1, i);
      QuotientTwice(value, Pow256(n - 2 - i));
    }
  }

  lemma QuotientTwice(value: nat, p: nat)
    requires p > 0
    ensures value / 256 / p == value / (p * 256)
  {
    var q, r := value / 256, value % 256;
    var k, m := q / p, q % p;
    assert q == k * p + m && value == q * 256 + r;
    Regrouped(k, p, m, r);
    Commute(k, p * 256);
    QuotientIs(value, p * 256, k, m * 256 + r);
  }

  lemma Regrouped(k: nat, p: nat, m: nat, r: nat)
    ensures (k * p + m) * 256 + r == k * (p * 256) + (m * 256 + r)
  {
  }

  /** The bytes start with the text LAVIK_POPULATION_V1 and the number 1. */
  lemma EncodingStarts(entries: seq<Entry>, i: nat)
    requires i < 21
    ensures var text := "LAVIK_POPULATION_V1";
            |text| == 19 && Encode(entries)[i] == if i < 19 then text[i] as int else i - 19
  {
    var front := DIGEST_DOMAIN + BigEndian(SCHEMA_VERSION, 2);
    assert Encode(entries)[i] == Prologue(|entries|)[i] == front[i];
    if i >= 19 {
      BigEndianAt(SCHEMA_VERSION, 2, i - 19);
      assert Pow256(0) == 1 && Pow256(1) == 256;
    }
  }

  /** Then the number of entries in four bytes, and for each entry its partition id in two
      and its epoch in eight, most significant first. */
  lemma EncodingHolds(entries: seq<Entry>, i: nat, j: nat)
    ensures j < 4 ==> Encode(entries)[21 + j] == |entries| % 0x1_0000_0000 / Pow256(3 - j) % 256
    ensures i < |entries| && j < 2 ==>
              Encode(entries)[25 + 10 * i + j] == entries[i].partitionId % 0x1_0000 / Pow256(1 - j) % 256
    ensures i < |entries| && j < 8 ==>
              Encode(entries)[27 + 10 * i + j] == entries[i].logicalEpoch / Pow256(7 - j) % 256
  {
    if j < 4 { CountAt(entries, j); }
    if i < |entries| && j < 10 { EntryAt(entries, i, j); }
    if i < |entries| && j < 2 { BigEndianAt(entries[i].partitionId % 0x1_0000, 2, j); }
    if i < |entries| && j < 8 {
      EntryAt(entries, i, j + 2);
      BigEndianAt(entries[i].logicalEpoch, 8, j);
    }
  }

  lemma CountAt(entries: seq<Entry>, j: nat)
    requires j < 4
    ensures Encode(entries)[21 + j] == |entries| % 0x1_0000_0000 / Pow256(3 - j) % 256
  {
    var front := DIGEST_DOMAIN + BigEndian(SCHEMA_VERSION, 2);
    assert Encode(entries)[21 + j] == Counted(front, |entries|)[21 + j];
    BigEndianAt(|entries| % 0x1_0000_0000, 4, j);
  }

  lemma EntryAt(entries: seq<Entry>, i: nat, j: nat)
    requires i < |entries| && j < 10
    ensures Encode(entries)[25 + 10 * i + j] == EntryBytes(entries[i])[j]
  {
    EntriesAt(entries, i, j);
  }

  lemma {:induction false} EntriesAt(entries: seq<Entry>, i: nat, j: nat)
    requires i < |entries| && j < 10
    ensures EntriesBytes(entries)[10 * i + j] == EntryBytes(entries[i])[j]
    decreases |entries|
  {
    if i < |entries| - 1 { EntriesAt(entries[..|entries| - 1], i, j); }
  }

  // ----- what equal bytes mean

  /** Partition ids count modulo 2^16: the encoding keeps two bytes of each. */
  ghost predicate SameEntries(a: seq<Entry>, b: seq<Entry>) {
    && |a| == |b|
    && forall i :: 0 <= i < |a| ==> SameEntry(a[i], b[i])
  }

  ghost predicate SameEntry(a: Entry, b: Entry) {
    a.partitionId % 0x1_0000 == b.partitionId % 0x1_0000 && a.logicalEpoch == b.logicalEpoch
  }

  lemma BigEndianSame(a: nat, b: nat, n: nat)
    requires a < Pow256(n) && b < Pow256(n)
    ensures BigEndian(a, n) == BigEndian(b, n) <==> a == b
  {
    BigEndianReadsBack(a, n);
    BigEndianReadsBack(b, n);
  }

  lemma Widths()
    ensures Pow256(2) == 0x1_0000 && Pow256(4) == 0x1_0000_0000 && Pow256(8) == U64_MODULUS
  {
    assert Pow256(1) == 256 && Pow256(2) == 0x1_0000 && Pow256(3) == 0x100_0000;
    assert Pow256(5) == 0x100_0000_0000 && Pow256(6) == 0x1_0000_0000_0000;
    assert Pow256(7) == 0x100_0000_0000_0000;
  }

  lemma EntryBytesSame(a: Entry, b: Entry)
    ensures EntryBytes(a) == EntryBytes(b) <==> SameEntry(a, b)
  {
    Widths();
    BigEndianSame(a.partitionId % 0x1_0000, b.partitionId % 0x1_0000, 2);
    BigEndianSame(a.logicalEpoch, b.logicalEpoch, 8);
    assert forall e: Entry :: EntryBytes(e)[..2] == BigEndian(e.partitionId % 0x1_0000, 2);
    assert forall e: Entry :: EntryBytes(e)[2..] == BigEndian(e.logicalEpoch, 8);
  }

  lemma {:induction false} EntriesBytesSame(a: seq<Entry>, b: seq<Entry>)
    requires |a| == |b|
    ensures EntriesBytes(a) == EntriesBytes(b) <==> SameEntries(a, b)
  {
    if a != [] {
      var n := |a| - 1;
      EntriesBytesSame(a[..n], b[..n]);
      EntryBytesSame(a[n], b[n]);
      SplitAt(EntriesBytes(a[..n]), EntryBytes(a[n]));
      SplitAt(EntriesBytes(b[..n]), EntryBytes(b[n]));
      assert SameEntries(a, b) <==> SameEntries(a[..n], b[..n]) && SameEntry(a[n], b[n]);
    }
  }

  lemma SplitAt(front: seq<byte>, back: seq<byte>)
    ensures (front + back)[..|front|] == front && (front + back)[|front|..] == back
  {
  }

  lemma CountedSame(front: seq<byte>, m: nat, n: nat)
    requires m < 0x1_0000_0000 && n < 0x1_0000_0000 && Counted(front, m) == Counted(front, n)
    ensures m == n
  {
    Widths();
    SplitAt(front, BigEndian(m, 4));
    SplitAt(front, BigEndian(n, 4));
    BigEndianSame(m, n, 4);
  }

  /** Within 32-bit counts, one encoding is a prefix of another exactly when the
      entry lists agree: the encoding is prefix-free and loses nothing but the high
      half of a partition id. */
  lemma EncodingPrefixMeansSameEntries(a: seq<Entry>, b: seq<Entry>)
    requires |a| < 0x1_0000_0000 && |b| < 0x1_0000_0000
    ensures Encode(a) <= Encode(b) <==> SameEntries(a, b)
  {
    SplitAt(Prologue(|a|), EntriesBytes(a));
    SplitAt(Prologue(|b|), EntriesBytes(b));
    if Encode(a) <= Encode(b) {
      assert Encode(a)[..25] == Encode(b)[..25];
      CountedSame(DIGEST_DOMAIN + BigEndian(SCHEMA_VERSION, 2), |a|, |b|);
      assert Encode(a) == Encode(b);
      EntriesBytesSame(a, b);
    }
    if SameEntries(a, b) { EntriesBytesSame(a, b); }
  }

  const PARTITIONS: nat := 16384

  /** On the partition domain the encoding is injective. */
  lemma EncodingIsInjective(a: seq<Entry>, b: seq<Entry>)
    requires |a| < 0x1_0000_0000 && |b| < 0x1_0000_0000
    requires forall i :: 0 <= i < |a| ==> a[i].partitionId < PARTITIONS
    requires forall i :: 0 <= i < |b| ==> b[i].partitionId < PARTITIONS
    ensures Encode(a) <= Encode(b) <==> a == b
  {
    EncodingPrefixMeansSameEntries(a, b);
    if SameEntries(a, b) {
      assert forall i :: 0 <= i < |a| ==> SameEntry(a[i], b[i]);
    }
  }

  /** Outside it, two different manifests can share their bytes. */
  lemma WideIdsCollide(id: u32, epoch: u64)
    requires id < 0x1_0000
    ensures Encode([Entry(id, epoch)]) == Encode([Entry(id + 0x1_0000, epoch)])
  {
    var a, b := [Entry(id, epoch)], [Entry(id + 0x1_0000, epoch)];
    assert SameEntries(a, b);
    EntriesBytesSame(a, b);
  }
}
