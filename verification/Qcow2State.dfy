/** A snapshot of an open image: host file, in-memory tables and the two table caches. It is related
    to the cacheless metadata by `Abs`, which reads every table through its cache.
 */
module Qcow2State {
  import opened Common
  import opened HostFile
  import opened Qcow2Layout
  import opened Qcow2Meta

  /** An L2 table or a refcount block in memory. */
  datatype Table = Table(dirty: bool, entries: seq<nat>)

  type Cache = map<nat, Table>

  datatype Img = Img(
    file: File,
    l1: seq<nat>,
    l1Dirty: bool,
    refTable: seq<nat>,
    refTableDirty: bool,
    free: nat,
    l2Cache: Cache,
    blockCache: Cache)

  /** A file just opened: root tables read from it, nothing cached, scan from the start. */
  ghost function Opened(h: Header, f: File): Img
    requires h.Valid()
  {
    Img(f, SpanAt(f, h.l1Cluster, h.l2Entries, h.l1Size), false,
        SpanAt(f, h.refTableCluster, h.l2Entries, h.refTableSize), false, 0, map[], map[])
  }

  /** The table at cluster `k` as the image sees it. */
  ghost function Look(f: File, cache: Cache, k: nat, w: Width, n: nat): seq<nat> {
    if k in cache then cache[k].entries else TableAt(f, k, w, n)
  }

  ghost function LookL2(h: Header, s: Img, k: nat): seq<nat> {
    Look(s.file, s.l2Cache, k, Bits64, h.l2Entries)
  }

  ghost function LookBlock(h: Header, s: Img, k: nat): seq<nat> {
    Look(s.file, s.blockCache, k, Bits16, h.blockEntries)
  }

  ghost function DecodeL1(h: Header, t: seq<nat>): seq<nat>
    requires h.Valid()
  {
    seq(|t|, i requires 0 <= i < |t| => L2Cluster(h, t[i]))
  }

  ghost function DecodeRefTable(h: Header, t: seq<nat>): seq<nat>
    requires h.Valid()
  {
    seq(|t|, i requires 0 <= i < |t| => BlockCluster(h, t[i]))
  }

  ghost function DecodeL2(h: Header, t: seq<nat>): seq<nat>
    requires h.Valid()
  {
    seq(|t|, j requires 0 <= j < |t| => DataCluster(h, t[j]))
  }

  ghost function L2Clusters(h: Header, s: Img): set<nat>
    requires h.Valid()
  {
    Used(DecodeL1(h, s.l1))
  }

  ghost function BlockClusters(h: Header, s: Img): set<nat>
    requires h.Valid()
  {
    Used(DecodeRefTable(h, s.refTable))
  }

  /** The metadata seen through the caches. */
  ghost function Abs(h: Header, s: Img): Meta
    requires h.Valid()
  {
    Meta(DecodeL1(h, s.l1), DecodeRefTable(h, s.refTable),
         map k | k in L2Clusters(h, s) :: DecodeL2(h, LookL2(h, s, k)),
         map k | k in BlockClusters(h, s) :: LookBlock(h, s, k))
  }

  /** A clean cached table equals what the file holds. */
  ghost predicate Coherent(f: File, cache: Cache, w: Width, n: nat) {
    forall k :: k in cache ==>
      && |cache[k].entries| == n && EntriesFit(w, cache[k].entries)
      && (!cache[k].dirty ==> cache[k].entries == TableAt(f, k, w, n))
  }

  ghost predicate PlainL1(h: Header, e: nat)
    requires h.Valid()
  {
    e == 0 || (L2Cluster(h, e) > 0 && e == CopiedEntry(h, L2Cluster(h, e)))
  }

  ghost predicate PlainData(h: Header, e: nat)
    requires h.Valid()
  {
    e == 0 || (DataCluster(h, e) > 0 && e == CopiedEntry(h, DataCluster(h, e)))
  }

  ghost predicate AllPlainData(h: Header, t: seq<nat>)
    requires h.Valid()
  {
    forall j :: 0 <= j < |t| ==> PlainData(h, t[j])
  }

  /** Entries are unallocated or plain: no zero flag, no compression, no shared cluster. */
  ghost predicate Plain(h: Header, s: Img)
    requires h.Valid()
  {
    && (forall i :: 0 <= i < |s.l1| ==> PlainL1(h, s.l1[i]))
    && (forall i :: 0 <= i < |s.refTable| ==> s.refTable[i] == OffsetOf(h, BlockCluster(h, s.refTable[i])))
    && (forall k :: k in L2Clusters(h, s) ==> AllPlainData(h, LookL2(h, s, k)))
  }

  /** The caches hold only tables in use, and clean tables equal the file. */
  ghost predicate CachesCoherent(h: Header, s: Img)
    requires h.Valid()
  {
    && Coherent(s.file, s.l2Cache, Bits64, h.l2Entries) && s.l2Cache.Keys <= L2Clusters(h, s)
    && Coherent(s.file, s.blockCache, Bits16, h.blockEntries) && s.blockCache.Keys <= BlockClusters(h, s)
  }

  /** The L1 and refcount tables fit their entries and, unless dirty, equal the file. */
  ghost predicate RootsCoherent(h: Header, s: Img)
    requires h.Valid()
  {
    && EntriesFit(Bits64, s.l1) && EntriesFit(Bits64, s.refTable)
    && (!s.l1Dirty ==> s.l1 == SpanAt(s.file, h.l1Cluster, h.l2Entries, h.l1Size))
    && (!s.refTableDirty ==> s.refTable == SpanAt(s.file, h.refTableCluster, h.l2Entries, h.refTableSize))
  }

  /** The invariant of a writable image. */
  ghost predicate Sane(h: Header, s: Img, pending: set<nat>) {
    && h.Valid() && h.TablesSized()
    && CachesCoherent(h, s) && RootsCoherent(h, s) && Plain(h, s)
    && Consistent(h, Abs(h, s), pending)
    && InBounds(h, Abs(h, s)) && (forall c :: c in pending ==> c < h.HostLimit())
  }

  /** `Sane`, folded, so that proofs that only pass the invariant on never unfold it; OpenGood and
      CloseGood look inside. */
  ghost predicate Veiled(h: Header, s: Img, pending: set<nat>, veil: Veil) {
    match veil
    case Bare => Sane(h, s, pending) == true
    case Fold(inner) => Veiled(h, s, pending, inner)
  }

  ghost predicate Good(h: Header, s: Img, pending: set<nat>) {
    h.Valid() && Shape(h, Abs(h, s)) && Veiled(h, s, pending, VEIL)
  }

  lemma {:induction false} OpenVeiled(h: Header, s: Img, pending: set<nat>, veil: Veil)
    ensures Veiled(h, s, pending, veil) <==> Sane(h, s, pending)
  {
    if veil.Fold? {
      OpenVeiled(h, s, pending, veil.inner);
    }
  }

  lemma OpenGood(h: Header, s: Img, pending: set<nat>)
    requires Good(h, s, pending)
    ensures Sane(h, s, pending)
  {
    OpenVeiled(h, s, pending, VEIL);
  }

  lemma CloseGood(h: Header, s: Img, pending: set<nat>)
    requires Sane(h, s, pending)
    ensures Good(h, s, pending)
  {
    OpenVeiled(h, s, pending, VEIL);
  }

  /** Nothing below the scan position is free. */
  ghost predicate Scanned(h: Header, s: Img)
    requires h.Valid() && Shape(h, Abs(h, s))
  {
    ScannedBelow(h, Abs(h, s), s.free)
  }

  ghost predicate IsTable(m: Meta, c: nat) {
    c in m.l2 || c in m.blocks
  }

  /** Same metadata, same scan position, and the file differs at most in table clusters. */
  ghost predicate SameLogical(h: Header, s: Img, t: Img)
    requires h.Valid()
  {
    && Abs(h, t) == Abs(h, s)
    && t.l1 == s.l1 && t.refTable == s.refTable && t.free == s.free
    && t.l1Dirty == s.l1Dirty && t.refTableDirty == s.refTableDirty
    && (forall c: nat, i: nat :: !IsTable(Abs(h, s), c) ==> t.file(c, i) == s.file(c, i))
  }

  lemma SameLogicalTransitive(h: Header, s: Img, t: Img, u: Img)
    requires h.Valid() && SameLogical(h, s, t) && SameLogical(h, t, u)
    ensures SameLogical(h, s, u)
  {
  }

  lemma AbsSame(h: Header, s: Img, t: Img)
    requires h.Valid() && t.l1 == s.l1 && t.refTable == s.refTable
    requires forall k :: k in L2Clusters(h, s) ==> LookL2(h, t, k) == LookL2(h, s, k)
    requires forall k :: k in BlockClusters(h, s) ==> LookBlock(h, t, k) == LookBlock(h, s, k)
    ensures Abs(h, t) == Abs(h, s)
    ensures Plain(h, s) ==> Plain(h, t)
  {
    assert Abs(h, t).l2 == Abs(h, s).l2;
    assert Abs(h, t).blocks == Abs(h, s).blocks;
  }

  lemma L2Owner(h: Header, m: Meta, k: nat) returns (i: nat)
    requires Shape(h, m) && k in m.l2
    ensures k > 0 && Place(h, m, L2Table(i)) == k
  {
    i :| 0 <= i < |m.l1| && m.l1[i] != 0 && m.l1[i] == k;
  }

  lemma BlockOwner(h: Header, m: Meta, k: nat) returns (i: nat)
    requires Shape(h, m) && k in m.blocks
    ensures k > 0 && Place(h, m, Block(i)) == k
  {
    i :| 0 <= i < |m.refTable| && m.refTable[i] != 0 && m.refTable[i] == k;
  }

  /** Table clusters are in bounds, and no cluster holds tables of both kinds. */
  lemma TablesAreOwned(h: Header, m: Meta, pending: set<nat>)
    requires Consistent(h, m, pending) && InBounds(h, m)
    ensures forall k :: k in m.l2 ==> 0 < k < h.HostLimit() && k !in m.blocks && k !in pending
    ensures forall k :: k in m.blocks ==> 0 < k < h.HostLimit() && k !in pending
  {
    forall k | k in m.blocks
      ensures 0 < k < h.HostLimit() && k !in pending
    {
      var i := BlockOwner(h, m, k);
    }
    forall k | k in m.l2
      ensures 0 < k < h.HostLimit() && k !in m.blocks && k !in pending
    {
      var i := L2Owner(h, m, k);
      if k in m.blocks {
        var j := BlockOwner(h, m, k);
      }
    }
  }

  ghost predicate InL1(h: Header, c: nat) {
    h.l1Cluster <= c < h.l1Cluster + h.l1Clusters
  }

  ghost predicate InRefTable(h: Header, c: nat) {
    h.refTableCluster <= c < h.refTableCluster + h.refTableClusters
  }

  ghost predicate InRoots(h: Header, c: nat) {
    InL1(h, c) || InRefTable(h, c)
  }

  lemma RootOwner(h: Header, m: Meta, c: nat) returns (o: Owner)
    requires Shape(h, m) && InRoots(h, c)
    ensures Place(h, m, o) == c && (o.L1Cluster? || o.RefTableCluster?)
  {
    if InL1(h, c) {
      o := L1Cluster(c - h.l1Cluster);
    } else {
      o := RefTableCluster(c - h.refTableCluster);
    }
  }

  lemma RootsAreNotTables(h: Header, m: Meta)
    requires Shape(h, m) && Disjoint(h, m)
    ensures forall c: nat :: InRoots(h, c) ==> !IsTable(m, c)
  {
    forall c: nat | InRoots(h, c)
      ensures !IsTable(m, c)
    {
      var o := RootOwner(h, m, c);
      if c in m.l2 {
        var i := L2Owner(h, m, c);
      }
      if c in m.blocks {
        var i := BlockOwner(h, m, c);
      }
    }
  }

  /** Caching, evicting and writing back tables: whatever changes, as long as every table still
      looks the same and only the cluster of one table is rewritten, the metadata is the same. */
  lemma TableTrafficIsInvisible(h: Header, s: Img, t: Img, pending: set<nat>, v: nat)
    requires Sane(h, s, pending) && IsTable(Abs(h, s), v)
    requires t == s.(file := t.file, l2Cache := t.l2Cache, blockCache := t.blockCache)
    requires forall c: nat, i: nat :: c != v ==> t.file(c, i) == s.file(c, i)
    requires forall k :: k in L2Clusters(h, s) ==> LookL2(h, t, k) == LookL2(h, s, k)
    requires forall k :: k in BlockClusters(h, s) ==> LookBlock(h, t, k) == LookBlock(h, s, k)
    requires CachesCoherent(h, t)
    ensures Sane(h, t, pending) && SameLogical(h, s, t)
  {
    AbsSame(h, s, t);
    RootsAreNotTables(h, Abs(h, s));
    assert forall c: nat, i: nat :: InRoots(h, c) ==> t.file(c, i) == s.file(c, i);
    SpanSame(t.file, s.file, h.l1Cluster, h.l2Entries, h.l1Size, h.l1Clusters);
    SpanSame(t.file, s.file, h.refTableCluster, h.l2Entries, h.refTableSize, h.refTableClusters);
  }

  // ---------------------------------------------------------------- write-back

  /** A table written to its cluster, unless it is clean or WriteFile drops the write. */
  ghost function WriteBack(h: Header, f: File, k: nat, t: Table, w: Width): File {
    if t.dirty && OffsetOf(h, k) < h.size then StoreTable(f, k, w, t.entries) else f
  }

  lemma WriteBackFacts(h: Header, f: File, cache: Cache, k: nat, w: Width, n: nat)
    requires h.Valid() && k in cache && Coherent(f, cache, w, n) && k < h.HostLimit()
    ensures var g := WriteBack(h, f, k, cache[k], w);
      && (forall c: nat, i: nat :: c != k ==> g(c, i) == f(c, i))
      && TableAt(g, k, w, n) == cache[k].entries
  {
    OffsetFacts(h, k);
    TableRoundTrip(f, k, w, cache[k].entries);
  }

  lemma CoherentElsewhere(f: File, g: File, cache: Cache, w: Width, n: nat, v: nat)
    requires Coherent(f, cache, w, n) && v !in cache
    requires forall c: nat, i: nat :: c != v ==> g(c, i) == f(c, i)
    ensures Coherent(g, cache, w, n)
  {
    forall k | k in cache
      ensures TableAt(g, k, w, n) == TableAt(f, k, w, n)
    {
      TableSame(g, f, k, w, n);
    }
  }

  lemma LookElsewhere(f: File, g: File, cache: Cache, k: nat, w: Width, n: nat, v: nat)
    requires k != v && forall c: nat, i: nat :: c != v ==> g(c, i) == f(c, i)
    ensures Look(g, cache, k, w, n) == Look(f, cache, k, w, n)
  {
    TableSame(g, f, k, w, n);
  }

  ghost function EvictL2(h: Header, s: Img, v: nat): Img
    requires v in s.l2Cache
  {
    s.(file := WriteBack(h, s.file, v, s.l2Cache[v], Bits64), l2Cache := s.l2Cache - {v})
  }

  ghost function EvictBlock(h: Header, s: Img, v: nat): Img
    requires v in s.blockCache
  {
    s.(file := WriteBack(h, s.file, v, s.blockCache[v], Bits16), blockCache := s.blockCache - {v})
  }

  /** Evicting a table never changes what the image sees. */
  lemma EvictL2Keeps(h: Header, s: Img, pending: set<nat>, v: nat)
    requires Sane(h, s, pending) && v in s.l2Cache
    ensures Sane(h, EvictL2(h, s, v), pending) && SameLogical(h, s, EvictL2(h, s, v))
  {
    var t := EvictL2(h, s, v);
    TablesAreOwned(h, Abs(h, s), pending);
    WriteBackFacts(h, s.file, s.l2Cache, v, Bits64, h.l2Entries);
    forall k | k in L2Clusters(h, s)
      ensures LookL2(h, t, k) == LookL2(h, s, k)
    {
      if k != v {
        LookElsewhere(s.file, t.file, s.l2Cache, k, Bits64, h.l2Entries, v);
      }
    }
    forall k | k in BlockClusters(h, s)
      ensures LookBlock(h, t, k) == LookBlock(h, s, k)
    {
      assert k in Abs(h, s).blocks && v in Abs(h, s).l2;
      LookElsewhere(s.file, t.file, s.blockCache, k, Bits16, h.blockEntries, v);
    }
    CoherentElsewhere(s.file, t.file, t.l2Cache, Bits64, h.l2Entries, v);
    assert v in Abs(h, s).l2;
    CoherentElsewhere(s.file, t.file, t.blockCache, Bits16, h.blockEntries, v);
    TableTrafficIsInvisible(h, s, t, pending, v);
  }

  lemma EvictBlockKeeps(h: Header, s: Img, pending: set<nat>, v: nat)
    requires Sane(h, s, pending) && v in s.blockCache
    ensures Sane(h, EvictBlock(h, s, v), pending) && SameLogical(h, s, EvictBlock(h, s, v))
  {
    var t := EvictBlock(h, s, v);
    assert v in Abs(h, s).blocks;
    TablesAreOwned(h, Abs(h, s), pending);
    WriteBackFacts(h, s.file, s.blockCache, v, Bits16, h.blockEntries);
    forall k | k in BlockClusters(h, s)
      ensures LookBlock(h, t, k) == LookBlock(h, s, k)
    {
      if k != v {
        LookElsewhere(s.file, t.file, s.blockCache, k, Bits16, h.blockEntries, v);
      }
    }
    forall k | k in L2Clusters(h, s)
      ensures LookL2(h, t, k) == LookL2(h, s, k)
    {
      assert k in Abs(h, s).l2;
      LookElsewhere(s.file, t.file, s.l2Cache, k, Bits64, h.l2Entries, v);
    }
    CoherentElsewhere(s.file, t.file, t.blockCache, Bits16, h.blockEntries, v);
    assert v !in Abs(h, s).l2;
    CoherentElsewhere(s.file, t.file, t.l2Cache, Bits64, h.l2Entries, v);
    TableTrafficIsInvisible(h, s, t, pending, v);
  }

  ghost function LoadL2(h: Header, s: Img, k: nat): Img {
    s.(l2Cache := s.l2Cache[k := Table(false, TableAt(s.file, k, Bits64, h.l2Entries))])
  }

  ghost function LoadBlock(h: Header, s: Img, k: nat): Img {
    s.(blockCache := s.blockCache[k := Table(false, TableAt(s.file, k, Bits16, h.blockEntries))])
  }

  /** Reading a table into its cache never changes what the image sees. */
  lemma LoadL2Keeps(h: Header, s: Img, pending: set<nat>, k: nat)
    requires Sane(h, s, pending) && k in L2Clusters(h, s) && k !in s.l2Cache
    ensures Sane(h, LoadL2(h, s, k), pending) && SameLogical(h, s, LoadL2(h, s, k))
  {
    TableFits(s.file, k, Bits64, h.l2Entries);
    assert k in Abs(h, s).l2;
    TableTrafficIsInvisible(h, s, LoadL2(h, s, k), pending, k);
  }

  lemma LoadBlockKeeps(h: Header, s: Img, pending: set<nat>, k: nat)
    requires Sane(h, s, pending) && k in BlockClusters(h, s) && k !in s.blockCache
    ensures Sane(h, LoadBlock(h, s, k), pending) && SameLogical(h, s, LoadBlock(h, s, k))
  {
    TableFits(s.file, k, Bits16, h.blockEntries);
    assert k in Abs(h, s).blocks;
    TableTrafficIsInvisible(h, s, LoadBlock(h, s, k), pending, k);
  }
}
