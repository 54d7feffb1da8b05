/** Flushing an image, and opening the file again. */
module Qcow2Flush {
  import opened Common
  import opened HostFile
  import opened Qcow2Layout
  import opened Qcow2Meta
  import opened Qcow2State
  import opened Qcow2Steps
  import opened Qcow2Disk
  import opened Qcow2Search
  import opened Qcow2Guest

  /** Same tables, same scan position, and the file differs at most in clusters of tables. */
  ghost predicate SameDisk(h: Header, s: Img, t: Img)
    requires h.Valid()
  {
    && Abs(h, t) == Abs(h, s) && t.l1 == s.l1 && t.refTable == s.refTable && t.free == s.free
    && (forall c: nat, i: nat :: !IsTable(Abs(h, s), c) && !InRoots(h, c) ==> t.file(c, i) == s.file(c, i))
  }

  lemma SameDiskTransitive(h: Header, s: Img, t: Img, u: Img)
    requires h.Valid() && SameDisk(h, s, t) && SameDisk(h, t, u)
    ensures SameDisk(h, s, u)
  {
  }

  lemma SameDiskSameGuest(h: Header, s: Img, t: Img, below: seq<Layer>, g: nat, o: nat)
    requires Good(h, s, {}) && Good(h, t, {}) && SameDisk(h, s, t) && ChainValid(below)
    ensures GuestByte(h, t, below, g, o) == GuestByte(h, s, below, g, o)
  {
    GuestBytePlain(h, s, {}, below, g, o);
    GuestBytePlain(h, t, {}, below, g, o);
    if DataOf(h, Abs(h, s), g) != 0 {
      GoodIsDisjoint(h, s, {});
      DataIsNoTable(h, Abs(h, s), Quot(g, h.l2Entries), Rem(g, h.l2Entries));
      DataIsNoRoot(h, Abs(h, s), Quot(g, h.l2Entries), Rem(g, h.l2Entries));
    }
  }

  // ---------------------------------------------------------------- writing back tables

  ghost function CleanL2(h: Header, s: Img, k: nat): Img
    requires k in s.l2Cache
  {
    s.(file := WriteBack(h, s.file, k, s.l2Cache[k], Bits64), l2Cache := s.l2Cache[k := Table(false, s.l2Cache[k].entries)])
  }

  ghost function CleanBlock(h: Header, s: Img, k: nat): Img
    requires k in s.blockCache
  {
    s.(file := WriteBack(h, s.file, k, s.blockCache[k], Bits16),
       blockCache := s.blockCache[k := Table(false, s.blockCache[k].entries)])
  }

  /** A table written back and kept is a table evicted and read again. */
  lemma CleanIsReload(h: Header, s: Img, k: nat)
    requires h.Valid() && k < h.HostLimit()
    ensures k in s.l2Cache && Coherent(s.file, s.l2Cache, Bits64, h.l2Entries) ==>
      CleanL2(h, s, k) == LoadL2(h, EvictL2(h, s, k), k)
    ensures k in s.blockCache && Coherent(s.file, s.blockCache, Bits16, h.blockEntries) ==>
      CleanBlock(h, s, k) == LoadBlock(h, EvictBlock(h, s, k), k)
  {
    if k in s.l2Cache && Coherent(s.file, s.l2Cache, Bits64, h.l2Entries) {
      WriteBackFacts(h, s.file, s.l2Cache, k, Bits64, h.l2Entries);
      assert (s.l2Cache - {k})[k := Table(false, s.l2Cache[k].entries)] == s.l2Cache[k := Table(false, s.l2Cache[k].entries)];
    }
    if k in s.blockCache && Coherent(s.file, s.blockCache, Bits16, h.blockEntries) {
      WriteBackFacts(h, s.file, s.blockCache, k, Bits16, h.blockEntries);
      assert (s.blockCache - {k})[k := Table(false, s.blockCache[k].entries)] == s.blockCache[k := Table(false, s.blockCache[k].entries)];
    }
  }

  lemma CachedInBounds(h: Header, s: Img, k: nat)
    requires Sane(h, s, {}) && (k in s.l2Cache || k in s.blockCache)
    ensures k < h.HostLimit()
  {
    TablesAreOwned(h, Abs(h, s), {});
    assert k in Abs(h, s).l2 || k in Abs(h, s).blocks;
  }

  lemma CleanL2Keeps(h: Header, s: Img, k: nat)
    requires Sane(h, s, {}) && k in s.l2Cache
    ensures Sane(h, CleanL2(h, s, k), {}) && SameLogical(h, s, CleanL2(h, s, k))
  {
    CachedInBounds(h, s, k);
    CleanIsReload(h, s, k);
    EvictL2Keeps(h, s, {}, k);
    LoadL2Keeps(h, EvictL2(h, s, k), {}, k);
    SameLogicalTransitive(h, s, EvictL2(h, s, k), CleanL2(h, s, k));
  }

  lemma CleanBlockKeeps(h: Header, s: Img, k: nat)
    requires Sane(h, s, {}) && k in s.blockCache
    ensures Sane(h, CleanBlock(h, s, k), {}) && SameLogical(h, s, CleanBlock(h, s, k))
  {
    CachedInBounds(h, s, k);
    CleanIsReload(h, s, k);
    EvictBlockKeeps(h, s, {}, k);
    LoadBlockKeeps(h, EvictBlock(h, s, k), {}, k);
    SameLogicalTransitive(h, s, EvictBlock(h, s, k), CleanBlock(h, s, k));
  }

  // ---------------------------------------------------------------- writing the root tables

  /** WriteFile of a root table from cluster `c` on. */
  function StoreRoot(h: Header, f: File, c: nat, t: seq<nat>): File {
    if OffsetOf(h, c) < h.size then StoreSpan(f, c, h.l2Entries, t) else f
  }

  ghost function CleanL1(h: Header, s: Img): Img {
    s.(file := StoreRoot(h, s.file, h.l1Cluster, s.l1), l1Dirty := false)
  }

  ghost function CleanRefTable(h: Header, s: Img): Img {
    s.(file := StoreRoot(h, s.file, h.refTableCluster, s.refTable), refTableDirty := false)
  }

  lemma StoreRootFacts(h: Header, f: File, c: nat, t: seq<nat>, k: nat)
    requires h.Valid() && EntriesFit(Bits64, t) && |t| <= k * h.l2Entries && (k > 0 ==> c < h.HostLimit())
    ensures SpanAt(StoreRoot(h, f, c, t), c, h.l2Entries, |t|) == t
    ensures forall d: nat, i: nat :: !(c <= d < c + k) ==> StoreRoot(h, f, c, t)(d, i) == f(d, i)
  {
    OffsetFacts(h, c);
    SpanRoundTrip(f, c, h.l2Entries, t);
    forall d: nat, i: nat | !(c <= d < c + k)
      ensures StoreRoot(h, f, c, t)(d, i) == f(d, i)
    {
      if InSpan(c, h.l2Entries, t, d, i) {
        SpanFrame(c, h.l2Entries, t, k, d, i);
      }
    }
  }

  /** Rewriting clusters that hold no table leaves every table as it was. */
  lemma TablesSame(h: Header, s: Img, t: Img)
    requires Sane(h, s, {}) && t == s.(file := t.file, l1Dirty := t.l1Dirty, refTableDirty := t.refTableDirty)
    requires forall c: nat, i: nat :: !InRoots(h, c) ==> t.file(c, i) == s.file(c, i)
    ensures Abs(h, t) == Abs(h, s) && CachesCoherent(h, t) && Plain(h, t) && SameDisk(h, s, t)
  {
    RootsAreNotTables(h, Abs(h, s));
    forall k | k in L2Clusters(h, s)
      ensures LookL2(h, t, k) == LookL2(h, s, k) && TableAt(t.file, k, Bits64, h.l2Entries) == TableAt(s.file, k, Bits64, h.l2Entries)
    {
      assert k in Abs(h, s).l2;
      TableSame(t.file, s.file, k, Bits64, h.l2Entries);
    }
    forall k | k in BlockClusters(h, s)
      ensures LookBlock(h, t, k) == LookBlock(h, s, k) && TableAt(t.file, k, Bits16, h.blockEntries) == TableAt(s.file, k, Bits16, h.blockEntries)
    {
      assert k in Abs(h, s).blocks;
      TableSame(t.file, s.file, k, Bits16, h.blockEntries);
    }
    AbsSame(h, s, t);
  }

  lemma RootsInBounds(h: Header, m: Meta)
    requires Shape(h, m) && Disjoint(h, m) && InBounds(h, m)
    ensures h.l1Clusters > 0 ==> h.l1Cluster < h.HostLimit()
    ensures h.refTableClusters > 0 ==> h.refTableCluster < h.HostLimit()
    ensures forall c: nat :: !(InL1(h, c) && InRefTable(h, c))
  {
    assert h.l1Clusters > 0 ==> Place(h, m, L1Cluster(0)) == h.l1Cluster;
    assert h.refTableClusters > 0 ==> Place(h, m, RefTableCluster(0)) == h.refTableCluster;
    forall c: nat
      ensures !(InL1(h, c) && InRefTable(h, c))
    {
      if InL1(h, c) {
        assert Place(h, m, L1Cluster(c - h.l1Cluster)) == c;
      }
      if InRefTable(h, c) {
        assert Place(h, m, RefTableCluster(c - h.refTableCluster)) == c;
      }
    }
  }

  lemma StillSane(h: Header, s: Img, t: Img)
    requires Sane(h, s, {}) && Abs(h, t) == Abs(h, s)
    requires CachesCoherent(h, t) && RootsCoherent(h, t) && Plain(h, t)
    ensures Sane(h, t, {})
  {
  }

  lemma CleanL1Roots(h: Header, s: Img)
    requires h.Valid() && h.TablesSized() && RootsCoherent(h, s) && |s.l1| == h.l1Size && |s.refTable| == h.refTableSize
    requires h.l1Clusters > 0 ==> h.l1Cluster < h.HostLimit()
    requires forall c: nat :: !(InL1(h, c) && InRefTable(h, c))
    ensures RootsCoherent(h, CleanL1(h, s))
    ensures forall c: nat, i: nat :: !InRoots(h, c) ==> CleanL1(h, s).file(c, i) == s.file(c, i)
  {
    var t := CleanL1(h, s);
    StoreRootFacts(h, s.file, h.l1Cluster, s.l1, h.l1Clusters);
    assert forall c: nat, i: nat :: InRefTable(h, c) ==> !InL1(h, c) && t.file(c, i) == s.file(c, i);
    SpanSame(t.file, s.file, h.refTableCluster, h.l2Entries, h.refTableSize, h.refTableClusters);
  }

  lemma CleanRefTableRoots(h: Header, s: Img)
    requires h.Valid() && h.TablesSized() && RootsCoherent(h, s) && |s.l1| == h.l1Size && |s.refTable| == h.refTableSize
    requires h.refTableClusters > 0 ==> h.refTableCluster < h.HostLimit()
    requires forall c: nat :: !(InL1(h, c) && InRefTable(h, c))
    ensures RootsCoherent(h, CleanRefTable(h, s))
    ensures forall c: nat, i: nat :: !InRoots(h, c) ==> CleanRefTable(h, s).file(c, i) == s.file(c, i)
  {
    var t := CleanRefTable(h, s);
    StoreRootFacts(h, s.file, h.refTableCluster, s.refTable, h.refTableClusters);
    assert forall c: nat, i: nat :: InL1(h, c) ==> !InRefTable(h, c) && t.file(c, i) == s.file(c, i);
    SpanSame(t.file, s.file, h.l1Cluster, h.l2Entries, h.l1Size, h.l1Clusters);
  }

  lemma CleanL1Keeps(h: Header, s: Img)
    requires Sane(h, s, {})
    ensures Sane(h, CleanL1(h, s), {}) && SameDisk(h, s, CleanL1(h, s))
  {
    RootsInBounds(h, Abs(h, s));
    CleanL1Roots(h, s);
    TablesSame(h, s, CleanL1(h, s));
    StillSane(h, s, CleanL1(h, s));
  }

  lemma CleanRefTableKeeps(h: Header, s: Img)
    requires Sane(h, s, {})
    ensures Sane(h, CleanRefTable(h, s), {}) && SameDisk(h, s, CleanRefTable(h, s))
  {
    RootsInBounds(h, Abs(h, s));
    CleanRefTableRoots(h, s);
    TablesSame(h, s, CleanRefTable(h, s));
    StillSane(h, s, CleanRefTable(h, s));
  }

  // ---------------------------------------------------------------- flushing

  /** `t` during a flush that began in `s`. */
  ghost predicate FlushesTo(h: Header, s: Img, t: Img) {
    Good(h, s, {}) && Good(h, t, {}) && SameDisk(h, s, t)
  }

  ghost predicate Flushing(h: Header, s: Img, t: Img, veil: Veil := VEIL) {
    match veil
    case Bare => FlushesTo(h, s, t) == true
    case Fold(inner) => Flushing(h, s, t, inner)
  }

  lemma {:induction false} OpenFlush(h: Header, s: Img, t: Img, veil: Veil := VEIL)
    ensures Flushing(h, s, t, veil) <==> FlushesTo(h, s, t)
  {
    if veil.Fold? {
      OpenFlush(h, s, t, veil.inner);
    }
  }

  lemma FlushStarts(h: Header, s: Img)
    requires Holds(Idle(h, s))
    ensures Flushing(h, s, s)
  {
    OpenClaim(Idle(h, s));
    OpenFlush(h, s, s);
  }

  lemma FlushesL2(h: Header, s: Img, t: Img, k: nat)
    requires Flushing(h, s, t) && k in t.l2Cache
    ensures Flushing(h, s, CleanL2(h, t, k))
  {
    OpenFlush(h, s, t);
    OpenGood(h, t, {});
    CleanL2Keeps(h, t, k);
    CloseGood(h, CleanL2(h, t, k), {});
    OpenFlush(h, s, CleanL2(h, t, k));
  }

  lemma FlushesBlock(h: Header, s: Img, t: Img, k: nat)
    requires Flushing(h, s, t) && k in t.blockCache
    ensures Flushing(h, s, CleanBlock(h, t, k))
  {
    OpenFlush(h, s, t);
    OpenGood(h, t, {});
    CleanBlockKeeps(h, t, k);
    CloseGood(h, CleanBlock(h, t, k), {});
    OpenFlush(h, s, CleanBlock(h, t, k));
  }

  /** Clearing a cache writes back like flushing it. */
  lemma FlushEvictsL2(h: Header, s: Img, t: Img, k: nat)
    requires Flushing(h, s, t) && k in t.l2Cache
    ensures Flushing(h, s, EvictL2(h, t, k))
  {
    OpenFlush(h, s, t);
    OpenGood(h, t, {});
    EvictL2Keeps(h, t, {}, k);
    CloseGood(h, EvictL2(h, t, k), {});
    OpenFlush(h, s, EvictL2(h, t, k));
  }

  lemma FlushEvictsBlock(h: Header, s: Img, t: Img, k: nat)
    requires Flushing(h, s, t) && k in t.blockCache
    ensures Flushing(h, s, EvictBlock(h, t, k))
  {
    OpenFlush(h, s, t);
    OpenGood(h, t, {});
    EvictBlockKeeps(h, t, {}, k);
    CloseGood(h, EvictBlock(h, t, k), {});
    OpenFlush(h, s, EvictBlock(h, t, k));
  }

  lemma FlushesL1(h: Header, s: Img, t: Img)
    requires Flushing(h, s, t)
    ensures Flushing(h, s, CleanL1(h, t))
  {
    OpenFlush(h, s, t);
    OpenGood(h, t, {});
    CleanL1Keeps(h, t);
    CloseGood(h, CleanL1(h, t), {});
    SameDiskTransitive(h, s, t, CleanL1(h, t));
    OpenFlush(h, s, CleanL1(h, t));
  }

  lemma FlushesRefTable(h: Header, s: Img, t: Img)
    requires Flushing(h, s, t)
    ensures Flushing(h, s, CleanRefTable(h, t))
  {
    OpenFlush(h, s, t);
    OpenGood(h, t, {});
    CleanRefTableKeeps(h, t);
    CloseGood(h, CleanRefTable(h, t), {});
    SameDiskTransitive(h, s, t, CleanRefTable(h, t));
    OpenFlush(h, s, CleanRefTable(h, t));
  }

  /** The tables of a cache outside `todo` are clean. */
  predicate CleanBut(cache: Cache, todo: set<nat>) {
    forall k :: k in cache && k !in todo ==> !cache[k].dirty
  }

  /** Nothing is dirty. */
  ghost predicate AllClean(s: Img) {
    CleanBut(s.l2Cache, {}) && CleanBut(s.blockCache, {}) && !s.l1Dirty && !s.refTableDirty
  }

  // ---------------------------------------------------------------- reopening

  /** Opening the file of a clean image rebuilds its tables, with nothing cached. */
  lemma ReopenRebuilds(h: Header, t: Img)
    requires Sane(h, t, {}) && AllClean(t)
    ensures var u := Opened(h, t.file);
      Sane(h, u, {}) && u.l1 == t.l1 && u.refTable == t.refTable && Abs(h, u) == Abs(h, t)
  {
    var u := Opened(h, t.file);
    forall k | k in L2Clusters(h, t)
      ensures LookL2(h, u, k) == LookL2(h, t, k)
    {
    }
    forall k | k in BlockClusters(h, t)
      ensures LookBlock(h, u, k) == LookBlock(h, t, k)
    {
    }
    AbsSame(h, t, u);
    SpanFits(t.file, h.l1Cluster, h.l2Entries, h.l1Size);
    SpanFits(t.file, h.refTableCluster, h.l2Entries, h.refTableSize);
  }

  /** After a flush, the file alone carries the image: reopened, it is a writable image in order, with
      the same metadata, the same free clusters and the same guest bytes over the same chain. */
  lemma ReopenAfterFlush(h: Header, s: Img, t: Img, below: seq<Layer>)
    requires Holds(Idle(h, s)) && Flushing(h, s, t) && AllClean(t) && ChainValid(below)
    ensures h.Valid() && Holds(Idle(h, Opened(h, t.file)))
    ensures Abs(h, Opened(h, t.file)) == Abs(h, s) && Shape(h, Abs(h, s))
    ensures forall g: nat, o: nat :: GuestByte(h, Opened(h, t.file), below, g, o) == GuestByte(h, s, below, g, o)
    ensures FreeIsZero(h, s) ==> FreeIsZero(h, Opened(h, t.file))
  {
    OpenFlush(h, s, t);
    OpenGood(h, t, {});
    ReopenRebuilds(h, t);
    var u := Opened(h, t.file);
    CloseGood(h, u, {});
    CloseClaim(Idle(h, u));
    forall g: nat, o: nat
      ensures GuestByte(h, u, below, g, o) == GuestByte(h, s, below, g, o)
    {
      SameDiskSameGuest(h, s, t, below, g, o);
      GuestBytePlain(h, u, {}, below, g, o);
      GuestBytePlain(h, t, {}, below, g, o);
    }
    if FreeIsZero(h, s) {
      FlushKeepsZero(h, s, t);
    }
  }

  lemma FlushKeepsZero(h: Header, s: Img, t: Img)
    requires h.Valid() && Shape(h, Abs(h, s)) && SameDisk(h, s, t) && FreeIsZero(h, s)
    ensures FreeIsZero(h, t)
  {
    var m := Abs(h, s);
    forall c: nat, o: nat | !Owned(h, m, c)
      ensures t.file(c, o) == 0
    {
      UnownedIsNoTable(h, m, c);
      if InRoots(h, c) {
        var p := RootOwner(h, m, c);
      }
    }
  }

  lemma FlushIsIdle(h: Header, s: Img, t: Img)
    requires Holds(Idle(h, s)) && Flushing(h, s, t)
    ensures Holds(Idle(h, t))
  {
    OpenClaim(Idle(h, s));
    OpenFlush(h, s, t);
    CloseClaim(Idle(h, t));
  }
}
