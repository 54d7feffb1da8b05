/** Geometry of an image and the 64-bit entries of its tables. */
module Qcow2Layout {
  import opened HostFile

  const COPIED: nat := 0x8000_0000_0000_0000
  const COMPRESSED: nat := 0x4000_0000_0000_0000
  /** Standard descriptors keep the host offset in bits 9 to 55. */
  const SECTOR: nat := 512
  const OFFSET_SECTORS: nat := 0x8000_0000_0000
  const OFFSET_LIMIT: nat := 0x100_0000_0000_0000

  /** What the header fixes for the life of an image, with the table sizes derived from it.
      `inflate` stands for the decompression of a compressed cluster, keyed by its descriptor. */
  datatype Header = Header(
    size: nat,
    clusterSize: nat,
    /** Entries per L2 table, and per cluster of the L1 and refcount tables. */
    l2Entries: nat,
    /** Entries per refcount block: 16-bit refcounts. */
    blockEntries: nat,
    l1Size: nat,
    l1Cluster: nat,
    l1Clusters: nat,
    refTableCluster: nat,
    refTableClusters: nat,
    refTableSize: nat,
    inflate: nat -> seq<Byte>)
  {
    /** Whole host clusters below the virtual disk size: WriteFile drops writes beyond. */
    function HostLimit(): nat
      requires clusterSize > 0
    {
      Quot(size, clusterSize)
    }

    ghost predicate Valid() {
      && clusterSize > 0 && clusterSize % SECTOR == 0
      && l2Entries * 8 == clusterSize && blockEntries * 2 == clusterSize
      && size <= OFFSET_LIMIT
    }

    /** The refcount table fills whole clusters; the L1 table starts its last cluster. */
    ghost predicate TablesSized() {
      && refTableSize == refTableClusters * l2Entries
      && l1Size <= l1Clusters * l2Entries < l1Size + l2Entries
    }

    /** Every position of the virtual disk has an L1 entry. */
    ghost predicate L1CoversDisk() {
      size <= Times(Times(l1Size, l2Entries), clusterSize)
    }
  }

  /** Byte offset of a host cluster, and the cluster of an offset. */
  function OffsetOf(h: Header, c: nat): nat {
    Times(c, h.clusterSize)
  }

  function ClusterOf(h: Header, offset: nat): nat
    requires h.clusterSize > 0
  {
    Quot(offset, h.clusterSize)
  }

  predicate IsCopied(e: nat) {
    e / COPIED % 2 == 1
  }

  predicate IsCompressed(e: nat) {
    e / COMPRESSED % 2 == 1
  }

  /** `e & QCOW2_DESCRIPTOR_MASK`. */
  function Descriptor(e: nat): nat {
    e % COMPRESSED
  }

  /** `d & QCOW2_STANDARD_OFFSET_MASK`. */
  function StandardOffset(d: nat): nat {
    d / SECTOR % OFFSET_SECTORS * SECTOR
  }

  /** `x | QCOW2_OFLAG_COPIED` and `x & ~QCOW2_OFLAG_COPIED`. */
  function SetCopied(x: nat): nat {
    if IsCopied(x) then x else x + COPIED
  }

  function ClearCopied(x: nat): nat {
    if IsCopied(x) then x - COPIED else x
  }

  /** The L2 entry of an allocated data cluster, the L1 entry of an L2 table. */
  function CopiedEntry(h: Header, c: nat): nat {
    SetCopied(OffsetOf(h, c))
  }

  /** Host cluster of a data entry, of an L1 entry and of a refcount table entry; 0 when there is none. */
  function DataCluster(h: Header, e: nat): nat
    requires h.clusterSize > 0
  {
    if e == 0 then 0 else ClusterOf(h, StandardOffset(Descriptor(e)))
  }

  function L2Cluster(h: Header, e: nat): nat
    requires h.clusterSize > 0
  {
    if IsCopied(e) then ClusterOf(h, ClearCopied(e)) else 0
  }

  function BlockCluster(h: Header, e: nat): nat
    requires h.clusterSize > 0
  {
    ClusterOf(h, e)
  }

  lemma {:induction false} MulMod(c: nat, b: nat, m: nat)
    requires m > 0 && b % m == 0
    ensures c * b % m == 0
  {
    var k := b / m;
    DivModParts(b, m);
    assert c * b == (c * k) * m + 0;
    DivModUnique(c * b, m, c * k, 0);
  }

  lemma OffsetIsAligned(h: Header, c: nat)
    requires h.Valid()
    ensures ClusterOf(h, OffsetOf(h, c)) == c && OffsetOf(h, c) % SECTOR == 0
  {
    TimesIsMul(c, h.clusterSize);
    QuotRemUnique(OffsetOf(h, c), h.clusterSize, c, 0);
    MulMod(c, h.clusterSize, SECTOR);
  }

  lemma {:induction false} TimesMono(a: nat, b: nat, n: nat)
    requires a <= b
    ensures Times(a, n) <= Times(b, n)
  {
    if a < b {
      TimesMono(a, b - 1, n);
    }
  }

  /** A host cluster below the limit lies below the disk size, entirely. */
  lemma OffsetBelowLimit(h: Header, c: nat)
    requires h.Valid()
    ensures c < h.HostLimit() ==> OffsetOf(h, c) + h.clusterSize <= h.size
    ensures c > 0 ==> OffsetOf(h, c) >= h.clusterSize
  {
    QuotRem(h.size, h.clusterSize);
    TimesIsMul(h.HostLimit(), h.clusterSize);
    if c < h.HostLimit() {
      TimesMono(c + 1, h.HostLimit(), h.clusterSize);
    }
    if c > 0 {
      TimesMono(1, c, h.clusterSize);
    }
  }

  lemma OffsetFacts(h: Header, c: nat)
    requires h.Valid()
    ensures ClusterOf(h, OffsetOf(h, c)) == c && OffsetOf(h, c) % SECTOR == 0
    ensures c < h.HostLimit() ==> OffsetOf(h, c) + h.clusterSize <= h.size
    ensures c > 0 ==> OffsetOf(h, c) >= h.clusterSize
  {
    OffsetIsAligned(h, c);
    OffsetBelowLimit(h, c);
  }

  lemma FlagFacts(x: nat)
    requires x < OFFSET_LIMIT
    ensures !IsCopied(x) && IsCopied(x + COPIED) && !IsCompressed(x + COPIED)
    ensures Descriptor(x + COPIED) == x
  {
    assert x / COPIED == 0;
    assert (x + COPIED) / COPIED == 1;
    assert (x + COPIED) / COMPRESSED == 2;
  }

  lemma SmallMod(s: nat, m: nat)
    requires s < m
    ensures s % m == s
  {
  }

  lemma MaskFacts(x: nat, s: nat)
    requires x == s * SECTOR && s < OFFSET_SECTORS
    ensures StandardOffset(x) == x
  {
    SmallMod(s, OFFSET_SECTORS);
    assert x / SECTOR == s;
  }

  lemma SectorsAreEven(x: nat, s: nat)
    requires x == s * SECTOR
    ensures x % 2 == 0
  {
    DivModUnique(x, 2, s * 256, 0);
  }

  /** Entries written by the image decode to the cluster they were written for. */
  lemma EntryRoundTrip(h: Header, c: nat)
    requires h.Valid() && 0 < c < h.HostLimit()
    ensures var e := CopiedEntry(h, c);
      && 0 < e < EntryBound(Bits64) && IsCopied(e) && !IsCompressed(e) && Descriptor(e) % 2 == 0
      && ClearCopied(e) == OffsetOf(h, c) > 0
      && DataCluster(h, e) == c && L2Cluster(h, e) == c
    ensures BlockCluster(h, OffsetOf(h, c)) == c && 0 < OffsetOf(h, c) < EntryBound(Bits64)
  {
    OffsetFacts(h, c);
    FlagFacts(OffsetOf(h, c));
    MaskFacts(OffsetOf(h, c), OffsetOf(h, c) / SECTOR);
    SectorsAreEven(OffsetOf(h, c), OffsetOf(h, c) / SECTOR);
  }

  /** The two flags and the descriptor are the bits of an entry, bits 63 and 62 and the rest. */
  lemma EntryIsItsParts(e: nat)
    requires e < 0x1_0000_0000_0000_0000
    ensures e == (if IsCopied(e) then 0x8000_0000_0000_0000 else 0) + (if IsCompressed(e) then 0x4000_0000_0000_0000 else 0) + Descriptor(e)
    ensures Descriptor(e) < 0x4000_0000_0000_0000
  {
    DivModParts(e, COMPRESSED);
    DivModParts(e, COPIED);
    assert e / COMPRESSED < 4;
    assert e / COPIED == e / COMPRESSED / 2;
  }

  /** The offset of a descriptor is its bits 9 to 55: without the bits above and the lowest nine. */
  lemma OffsetIsMiddle(d: nat)
    ensures d == d / 0x100_0000_0000_0000 * 0x100_0000_0000_0000 + StandardOffset(d) + d % 0x200
    ensures StandardOffset(d) < 0x100_0000_0000_0000 && StandardOffset(d) % 0x200 == 0
  {
    var a, b := d / SECTOR, d % SECTOR;
    DivModParts(d, SECTOR);
    var x, y := a / OFFSET_SECTORS, a % OFFSET_SECTORS;
    DivModParts(a, OFFSET_SECTORS);
    assert d == x * OFFSET_LIMIT + (y * SECTOR + b);
    DivModUnique(d, OFFSET_LIMIT, x, y * SECTOR + b);
  }
}
