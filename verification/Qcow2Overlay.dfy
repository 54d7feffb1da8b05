/** Creating image files: the metadata that CreateImageWithBackingFile and CreateEmptyImage lay out. */
module Qcow2Overlay {
  import opened Common
  import opened HostFile
  import opened Qcow2Layout
  import opened Qcow2Meta
  import opened Qcow2State
  import opened Qcow2Steps
  import opened Qcow2Disk
  import opened Qcow2Search
  import opened Qcow2Guest
  import opened Qcow2Transfer
  import opened Qcow2Runs

  const FIRST_FREE: nat := 4

  /** The four refcounts written one by one. */
  function OneCounts(n: nat): seq<nat> {
    seq(n, _ => 1)
  }

  /** `base` with the refcount table in cluster 1 and its only block in cluster 2. */
  function FreshFile(h: Header, base: File): File {
    StoreTable(StoreTable(base, 1, Bits64, [OffsetOf(h, 2)]), 2, Bits16, OneCounts(FIRST_FREE))
  }

  /** Nothing was written to the clusters of the tables before. */
  ghost predicate BlankTables(base: File) {
    forall c: nat, i: nat :: 1 <= c < FIRST_FREE ==> base(c, i) == 0
  }

  lemma CountByte(n: nat, o: nat)
    requires o / 2 < n
    ensures TableByte(Bits16, OneCounts(n), o) == if o % 2 == 0 then 0 else 1
  {
    assert Digit(1, 2, 0) == Digit(0, 1, 0) == 0;
    assert Digit(1, 2, 1) == 1;
    assert OneCounts(n)[o / 2] == 1;
  }

  /** The table grown by one entry is the table with two more bytes written. */
  lemma CountWritten(f: File, i: nat, c: nat, o: nat)
    ensures WriteAt(StoreTable(f, 2, Bits16, OneCounts(i)), 2, 2 * i, [0, 1])(c, o) == StoreTable(f, 2, Bits16, OneCounts(i + 1))(c, o)
  {
    if o / 2 < i {
      CountByte(i, o);
      CountByte(i + 1, o);
    } else if o / 2 == i {
      CountByte(i + 1, o);
      assert o == 2 * i + o % 2;
      assert [0, 1][o % 2] == o % 2;
    } else {
      assert o >= 2 * i + 2;
      assert EntryOfByte(Bits16, o) == o / 2;
      assert StoreTable(f, 2, Bits16, OneCounts(i + 1))(c, o) == f(c, o);
      assert StoreTable(f, 2, Bits16, OneCounts(i))(c, o) == f(c, o);
    }
  }

  /** The metadata part of CreateImageWithBackingFile and CreateEmptyImage, after the header cluster. */
  method LayOut(h: Header, base: File) returns (f: File)
    ensures forall c: nat, o: nat :: f(c, o) == FreshFile(h, base)(c, o)
  {
    f := StoreTable(base, 1, Bits64, [OffsetOf(h, 2)]);
    ghost var g := f;
    var i := 0;
    while i < FIRST_FREE
      invariant i <= FIRST_FREE
      invariant forall c: nat, o: nat :: f(c, o) == StoreTable(g, 2, Bits16, OneCounts(i))(c, o)
    {
      forall c: nat, o: nat
        ensures WriteAt(f, 2, 2 * i, [0, 1])(c, o) == StoreTable(g, 2, Bits16, OneCounts(i + 1))(c, o)
      {
        CountWritten(g, i, c, o);
      }
      f := WriteAt(f, 2, 2 * i, [0, 1]);
      i := i + 1;
    }
  }

  /** The layout the file gets is the one the header describes. A new image copies the header of its
      backing file, so this depends on the backing file. */
  ghost predicate StandardLayout(h: Header) {
    && h.refTableCluster == 1 && h.refTableClusters == 1
    && h.l1Cluster == 3 && h.l1Clusters == 1
  }

  lemma RefTableWord(h: Header, base: File, i: nat)
    requires h.Valid() && BlankTables(base) && 1 <= i
    ensures Word(FreshFile(h, base), 1, i * 8, 8) == 0
  {
    var f := FreshFile(h, base);
    forall j | i * 8 <= j < i * 8 + 8
      ensures f(1, j) == 0
    {
      BytePosition(Bits64, i, j);
    }
    WordOfZeros(f, 1, i * 8, 8);
  }

  lemma RefTableFirst(h: Header, base: File)
    requires h.Valid() && h.HostLimit() >= 2
    ensures Word(FreshFile(h, base), 1, 0, 8) == OffsetOf(h, 2)
  {
    OffsetFacts(h, 1);
    assert OffsetOf(h, 2) == OffsetOf(h, 1) + h.clusterSize;
    StoredEntryRoundTrip(base, 1, Bits64, [OffsetOf(h, 2)], 0);
    WordSame(FreshFile(h, base), StoreTable(base, 1, Bits64, [OffsetOf(h, 2)]), 1, 0, 8);
  }

  lemma RefTableOfFresh(h: Header, base: File)
    requires h.Valid() && BlankTables(base) && h.refTableCluster == 1 && h.refTableClusters == 1 && h.TablesSized() && h.HostLimit() >= 2
    ensures var t := Opened(h, FreshFile(h, base)).refTable;
      |t| == h.l2Entries > 0 && t[0] == OffsetOf(h, 2) && forall i :: 1 <= i < |t| ==> t[i] == 0
  {
    var t := Opened(h, FreshFile(h, base)).refTable;
    assert h.refTableSize == h.l2Entries;
    RefTableFirst(h, base);
    forall i: nat | 1 <= i < |t|
      ensures t[i] == 0
    {
      QuotRemUnique(i, h.l2Entries, 0, i);
      RefTableWord(h, base, i);
    }
  }

  lemma L1OfFresh(h: Header, base: File)
    requires h.Valid() && BlankTables(base) && h.l1Cluster == 3 && h.l1Clusters == 1 && h.TablesSized()
    ensures var t := Opened(h, FreshFile(h, base)).l1;
      forall i :: 0 <= i < |t| ==> t[i] == 0
  {
    var f := FreshFile(h, base);
    var t := Opened(h, f).l1;
    forall i | 0 <= i < |t|
      ensures t[i] == 0
    {
      QuotRemUnique(i, h.l2Entries, 0, i);
      WordOfZeros(f, 3, i * 8, 8);
    }
  }

  lemma BlockOfFresh(h: Header, base: File)
    requires h.Valid() && BlankTables(base)
    ensures var t := TableAt(FreshFile(h, base), 2, Bits16, h.blockEntries);
      |t| > FIRST_FREE && forall i :: 0 <= i < |t| ==> t[i] == if i < FIRST_FREE then 1 else 0
  {
    var g := StoreTable(base, 1, Bits64, [OffsetOf(h, 2)]);
    var f := FreshFile(h, base);
    var t := TableAt(f, 2, Bits16, h.blockEntries);
    forall i | 0 <= i < |t|
      ensures t[i] == if i < FIRST_FREE then 1 else 0
    {
      if i < FIRST_FREE {
        StoredEntryRoundTrip(g, 2, Bits16, OneCounts(FIRST_FREE), i);
      } else {
        forall j | i * 2 <= j < i * 2 + 2
          ensures f(2, j) == 0
        {
          BytePosition(Bits16, i, j);
        }
        WordOfZeros(f, 2, i * 2, 2);
      }
    }
  }

  /** What the fresh file opens as. */
  ghost predicate FreshMeta(h: Header, m: Meta) {
    && h.Valid()
    && |m.l1| == h.l1Size && (forall i :: 0 <= i < |m.l1| ==> m.l1[i] == 0)
    && |m.refTable| == h.refTableSize > 0 && m.refTable[0] == 2 && (forall i :: 1 <= i < |m.refTable| ==> m.refTable[i] == 0)
    && m.l2 == map[] && m.blocks.Keys == {2} && |m.blocks[2]| == h.blockEntries > FIRST_FREE
    && (forall i :: 0 <= i < h.blockEntries ==> m.blocks[2][i] == if i < FIRST_FREE then 1 else 0)
  }

  lemma FreshAbs(h: Header, base: File)
    requires h.Valid() && BlankTables(base) && StandardLayout(h) && h.TablesSized() && h.HostLimit() > 2
    ensures FreshMeta(h, Abs(h, Opened(h, FreshFile(h, base))))
    ensures Plain(h, Opened(h, FreshFile(h, base)))
  {
    var s := Opened(h, FreshFile(h, base));
    RefTableOfFresh(h, base);
    L1OfFresh(h, base);
    BlockOfFresh(h, base);
    OffsetFacts(h, 2);
    OffsetFacts(h, 0);
    assert !IsCopied(0);
    assert L2Clusters(h, s) == {};
    var r := DecodeRefTable(h, s.refTable);
    assert r[0] == 2 && forall i :: 1 <= i < |r| ==> r[i] == 0;
    OneUsed(r, 2);
  }

  lemma OneUsed(t: seq<nat>, c: nat)
    requires |t| > 0 && t[0] == c != 0 && forall i :: 1 <= i < |t| ==> t[i] == 0
    ensures Used(t) == {c}
  {
    assert t[0] in Used(t);
  }

  lemma FreshIsConsistent(h: Header, m: Meta)
    requires FreshMeta(h, m) && StandardLayout(h) && h.HostLimit() >= FIRST_FREE
    ensures Consistent(h, m, {}) && InBounds(h, m)
    ensures forall c: nat :: Owned(h, m, c) <==> c < FIRST_FREE
    ensures forall g: nat :: DataOf(h, m, g) == 0
  {
    assert Used(m.l1) == {};
    assert m.refTable[0] in Used(m.refTable);
    assert Shape(h, m);
    forall o
      ensures Place(h, m, o) == match o
        case HeaderCluster => 0
        case RefTableCluster(i) => if i == 0 then 1 else -1
        case L1Cluster(i) => if i == 0 then 3 else -1
        case Block(i) => if i == 0 then 2 else -1
        case _ => -1
    {
      match o case Data(i, j) => assert Entry(h, m, i, j) == 0; case _ =>
    }
    assert Place(h, m, HeaderCluster) == 0 && Place(h, m, RefTableCluster(0)) == 1;
    assert Place(h, m, Block(0)) == 2 && Place(h, m, L1Cluster(0)) == 3;
    forall c: nat
      ensures Refcount(h, m, c) == if c < FIRST_FREE then 1 else 0
    {
      if c < h.blockEntries {
        QuotRemUnique(c, h.blockEntries, 0, c);
      } else {
        assert Quot(c, h.blockEntries) > 0;
      }
    }
  }

  /** Host clusters that are counted and that WriteFile reaches. */
  ghost function Reachable(h: Header): nat
    requires h.Valid()
  {
    if Capacity(h) < h.HostLimit() then Capacity(h) else h.HostLimit()
  }

  lemma FreshRoom(h: Header, m: Meta)
    requires FreshMeta(h, m) && StandardLayout(h) && h.HostLimit() >= FIRST_FREE
    ensures Shape(h, m) && |Room(h, m)| + FIRST_FREE == Reachable(h)
  {
    FreshIsConsistent(h, m);
    WithinCapacity(h, FIRST_FREE);
    QuotRemUnique(FIRST_FREE, h.blockEntries, 0, FIRST_FREE);
    var all := Range(Reachable(h));
    var used := Range(FIRST_FREE);
    assert Room(h, m) == all - used;
    assert used <= all;
    assert |all - used| + |used| == |all| by { assert all == (all - used) + used; }
  }

  /** A fresh file with the standard layout opens as a writable image that has no cluster of its own:
      every byte reads as the chain below, and free clusters are zero if the file was blank. */
  lemma FreshOverlay(h: Header, base: File, below: seq<Layer>)
    requires h.Valid() && h.TablesSized() && StandardLayout(h) && h.HostLimit() >= FIRST_FREE
    requires BlankTables(base) && ChainValid(below)
    ensures var s := Opened(h, FreshFile(h, base));
      && Holds(Idle(h, s))
      && (forall g: nat, o: nat :: GuestByte(h, s, below, g, o) == ChainByte(below, g, o))
      && (forall g: nat :: View(h, s).data(g) == 0)
      && (forall c: nat :: View(h, s).inUse(c) <==> c < FIRST_FREE)
      && View(h, s).room + FIRST_FREE == Reachable(h)
      && (View(h, s).clear <==> forall c: nat, o: nat :: c >= FIRST_FREE ==> base(c, o) == 0)
  {
    var s := Opened(h, FreshFile(h, base));
    var m := Abs(h, s);
    FreshAbs(h, base);
    FreshIsConsistent(h, m);
    SpanFits(s.file, h.l1Cluster, h.l2Entries, h.l1Size);
    SpanFits(s.file, h.refTableCluster, h.l2Entries, h.refTableSize);
    assert Sane(h, s, {});
    CloseGood(h, s, {});
    CloseClaim(Idle(h, s));
    ViewIs(h, s);
    FreshRoom(h, m);
    assert forall c: nat, o: nat :: c >= FIRST_FREE ==> s.file(c, o) == base(c, o);
    forall g: nat, o: nat
      ensures GuestByte(h, s, below, g, o) == ChainByte(below, g, o)
    {
      GuestBytePlain(h, s, {}, below, g, o);
    }
  }

  // ---------------------------------------------------------------- other placements

  /** Refcounts of a fresh file, wherever its L1 table is. */
  lemma FreshCounts(h: Header, base: File, c: nat)
    requires h.Valid() && h.TablesSized() && BlankTables(base) && h.HostLimit() >= 2
    requires h.refTableCluster == 1 && h.refTableClusters == 1
    requires Shape(h, Abs(h, Opened(h, FreshFile(h, base))))
    ensures Refcount(h, Abs(h, Opened(h, FreshFile(h, base))), c) == if c < FIRST_FREE then 1 else 0
  {
    var s := Opened(h, FreshFile(h, base));
    RefTableOfFresh(h, base);
    BlockOfFresh(h, base);
    OffsetFacts(h, 2);
    OffsetFacts(h, 0);
    assert forall i :: 1 <= i < |s.refTable| ==> Abs(h, s).refTable[i] == 0;
    if c < h.blockEntries {
      QuotRemUnique(c, h.blockEntries, 0, c);
      assert Abs(h, s).refTable[0] == 2;
      assert 2 in BlockClusters(h, s);
    } else {
      assert Quot(c, h.blockEntries) > 0;
    }
  }

  /** Nothing was written to the file but its header cluster. */
  ghost predicate BlankButHeader(base: File) {
    forall c: nat, i: nat :: c >= 1 ==> base(c, i) == 0
  }

  lemma WordIsOdd(f: File, c: nat, o: nat, w: nat)
    requires w > 0 && f(c, o + w - 1) == 1
    ensures Word(f, c, o, w) % 2 == 1
  {
  }

  /** The first entry of the refcount table, read from cluster `p` of a fresh file. */
  lemma FirstEntryBeyond(h: Header, base: File, p: nat)
    requires BlankButHeader(base) && p >= 3
    ensures Word(FreshFile(h, base), p, 0, 8) == 0
  {
    WordOfZeros(FreshFile(h, base), p, 0, 8);
  }

  lemma FirstEntryAtTwo(h: Header, base: File)
    ensures Word(FreshFile(h, base), 2, 0, 8) % 2 == 1
  {
    CountByte(FIRST_FREE, 7);
    assert FreshFile(h, base)(2, 7) == 1;
    WordIsOdd(FreshFile(h, base), 2, 0, 8);
  }

  /** A writable image counts its header, so its refcount table has a first entry, which is the offset of
      a cluster. */
  lemma FirstEntryCounts(h: Header, s: Img)
    requires Sane(h, s, {})
    ensures h.refTableClusters > 0 && h.refTableSize > 0 && |s.refTable| == h.refTableSize
    ensures s.refTable[0] != 0 && s.refTable[0] % SECTOR == 0
  {
    HeaderIsCounted(h, Abs(h, s));
    OffsetFacts(h, BlockCluster(h, s.refTable[0]));
    OffsetFacts(h, 0);
    TableHasClusters(h);
  }

  lemma HeaderIsCounted(h: Header, m: Meta)
    requires Consistent(h, m, {})
    ensures |m.refTable| > 0 && m.refTable[0] != 0
  {
    assert Place(h, m, HeaderCluster) == 0;
    assert Owned(h, m, 0);
    assert Refcount(h, m, 0) == 1;
    assert Quot(0, h.blockEntries) == 0;
  }

  lemma TableHasClusters(h: Header)
    requires h.TablesSized() && h.refTableSize > 0
    ensures h.refTableClusters > 0
  {
  }

  /** Read from anywhere but cluster 1, the first entry is missing or no offset of a cluster. */
  lemma RefTableIsAtOne(h: Header, base: File)
    requires h.Valid() && BlankButHeader(base) && Sane(h, Opened(h, FreshFile(h, base)), {})
    ensures h.refTableCluster == 1 && h.refTableClusters > 0
  {
    var s := Opened(h, FreshFile(h, base));
    var m := Abs(h, s);
    FirstEntryCounts(h, s);
    QuotRemUnique(0, h.l2Entries, 0, 0);
    if h.refTableCluster >= 3 {
      FirstEntryBeyond(h, base, h.refTableCluster);
    }
    FirstEntryAtTwo(h, base);
    assert s.refTable[0] == Word(s.file, h.refTableCluster, 0, 8);
    assert Place(h, m, HeaderCluster) == 0 && Place(h, m, RefTableCluster(0)) == h.refTableCluster;
    SectorIsEven(s.refTable[0]);
  }

  lemma SectorIsEven(x: nat)
    requires x % SECTOR == 0
    ensures x % 2 == 0
  {
    SectorsAreEven(x, x / SECTOR);
  }

  /** The block is at cluster 2, so the refcount table has one cluster only. */
  lemma RefTableIsShort(h: Header, base: File)
    requires h.Valid() && BlankButHeader(base) && Sane(h, Opened(h, FreshFile(h, base)), {})
    requires h.refTableCluster == 1 && h.refTableClusters > 0
    ensures h.refTableClusters == 1 && h.HostLimit() >= 2
  {
    var s := Opened(h, FreshFile(h, base));
    var m := Abs(h, s);
    FirstEntryCounts(h, s);
    assert Place(h, m, RefTableCluster(0)) == 1;
    QuotRemUnique(0, h.l2Entries, 0, 0);
    RefTableFirst(h, base);
    OffsetFacts(h, 2);
    assert DecodeRefTable(h, s.refTable)[0] == 2;
    assert Place(h, m, Block(0)) == 2;
    assert h.refTableClusters > 1 ==> Place(h, m, RefTableCluster(1)) == 2;
  }

  /** Exactly clusters 0 to 3 are counted, of which the L1 table must be the last. */
  lemma L1IsPlaced(h: Header, m: Meta)
    requires Consistent(h, m, {}) && InBounds(h, m) && h.TablesSized() && h.refTableCluster == 1 && h.refTableClusters == 1
    requires |m.refTable| > 0 && m.refTable[0] == 2 && forall i :: 1 <= i < |m.refTable| ==> m.refTable[i] == 0
    requires forall c: nat :: Refcount(h, m, c) == if c < FIRST_FREE then 1 else 0
    ensures h.l1Cluster == 3 && h.l1Clusters == 1 && h.HostLimit() >= FIRST_FREE
  {
    assert Place(h, m, HeaderCluster) == 0 && Place(h, m, RefTableCluster(0)) == 1 && Place(h, m, Block(0)) == 2;
    assert Refcount(h, m, 3) == 1;
    if h.l1Clusters == 0 {
      NoL1NoEntries(h);
      NothingAtThree(h, m);
    }
    var last := h.l1Cluster + h.l1Clusters - 1;
    assert Place(h, m, L1Cluster(0)) == h.l1Cluster;
    assert Place(h, m, L1Cluster(h.l1Clusters - 1)) == last;
    assert Owned(h, m, last);
    assert Refcount(h, m, last) == 1;
  }

  lemma NoL1NoEntries(h: Header)
    requires h.TablesSized() && h.l1Clusters == 0
    ensures h.l1Size == 0
  {
  }

  lemma L1IsAtThree(h: Header, base: File)
    requires h.Valid() && BlankButHeader(base) && Sane(h, Opened(h, FreshFile(h, base)), {})
    requires h.refTableCluster == 1 && h.refTableClusters == 1 && h.HostLimit() >= 2
    ensures h.l1Cluster == 3 && h.l1Clusters == 1 && h.HostLimit() >= FIRST_FREE
  {
    var s := Opened(h, FreshFile(h, base));
    RefTableOfFresh(h, base);
    OffsetFacts(h, 2);
    OffsetFacts(h, 0);
    forall c: nat
      ensures Refcount(h, Abs(h, s), c) == if c < FIRST_FREE then 1 else 0
    {
      FreshCounts(h, base, c);
    }
    L1IsPlaced(h, Abs(h, s));
  }

  lemma NothingAtThree(h: Header, m: Meta)
    requires Shape(h, m) && h.l1Clusters == 0 && h.refTableCluster == 1 && h.refTableClusters == 1 && |m.l1| == 0
    requires |m.refTable| > 0 && m.refTable[0] == 2 && forall i :: 1 <= i < |m.refTable| ==> m.refTable[i] == 0
    ensures !Owned(h, m, 3)
  {
    forall o
      ensures Place(h, m, o) != 3
    {
      match o case Data(i, j) => assert Entry(h, m, i, j) == 0; case _ =>
    }
  }

  /** A new image copies the header of its backing file but always lays out the same four clusters: it is a
      writable image in order exactly if that header describes this layout. */
  lemma FreshIsGoodIff(h: Header, base: File)
    requires h.Valid() && BlankButHeader(base)
    ensures Good(h, Opened(h, FreshFile(h, base)), {}) <==>
      h.TablesSized() && StandardLayout(h) && h.HostLimit() >= FIRST_FREE
  {
    var s := Opened(h, FreshFile(h, base));
    if h.TablesSized() && StandardLayout(h) && h.HostLimit() >= FIRST_FREE {
      FreshOverlay(h, base, []);
      OpenClaim(Idle(h, s));
    }
    if Good(h, s, {}) {
      OpenGood(h, s, {});
      RefTableIsAtOne(h, base);
      RefTableIsShort(h, base);
      L1IsAtThree(h, base);
    }
  }

  lemma WholeTables(size: nat, q: nat, r: nat, a: nat, b: nat, cs: nat, e: nat)
    requires size == q * cs + r && r < cs && q == a * e + b && b < e
    ensures size <= a * e * cs <==> r == 0 && b == 0
  {
    if b > 0 {
      MulMono(q, a * e + 1, cs);
      assert (a * e + 1) * cs == a * e * cs + cs;
    }
  }

  /** CreateEmptyImage rounds the size of the L1 table down, so it covers the disk only if the disk
      fills whole L2 tables. */
  lemma EmptyImageCoversDisk(h: Header)
    requires h.Valid() && h.l1Size == Quot(Quot(h.size, h.clusterSize), h.l2Entries)
    ensures h.L1CoversDisk() <==> Rem(h.size, h.clusterSize) == 0 && Rem(Quot(h.size, h.clusterSize), h.l2Entries) == 0
  {
    var cs, e := h.clusterSize, h.l2Entries;
    var q := Quot(h.size, cs);
    QuotRem(h.size, cs);
    QuotRem(q, e);
    TimesIsMul(h.l1Size, e);
    TimesIsMul(Times(h.l1Size, e), cs);
    WholeTables(h.size, q, Rem(h.size, cs), h.l1Size, Rem(q, e), cs, e);
  }
}
