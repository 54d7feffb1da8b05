/** The in-memory updates the image makes to its tables, each shown to be one update of the
    cacheless metadata.
 */
module Qcow2Steps {
  import opened HostFile
  import opened Qcow2Layout
  import opened Qcow2Meta
  import opened Qcow2State

  // ---------------------------------------------------------------- a new refcount block

  ghost function NewBlock(h: Header, s: Img, c: nat): Img
    requires h.Valid() && Quot(c, h.blockEntries) < |s.refTable|
  {
    s.(refTable := s.refTable[Quot(c, h.blockEntries) := OffsetOf(h, c)], refTableDirty := true,
       blockCache := s.blockCache[c := Table(true, Zeros(h.blockEntries)[Rem(c, h.blockEntries) := 1])])
  }

  lemma DecodeRefTableUpdate(h: Header, t: seq<nat>, i: nat, c: nat)
    requires h.Valid() && i < |t|
    ensures DecodeRefTable(h, t[i := OffsetOf(h, c)]) == DecodeRefTable(h, t)[i := c]
  {
    OffsetFacts(h, c);
  }

  /** A step that leaves the L2 side alone leaves the L2 side of the metadata alone. */
  lemma L2SideSame(h: Header, s: Img, t: Img)
    requires h.Valid() && t.file == s.file && t.l1 == s.l1 && t.l2Cache == s.l2Cache
    ensures Abs(h, t).l1 == Abs(h, s).l1 && Abs(h, t).l2 == Abs(h, s).l2
    ensures forall k :: LookL2(h, t, k) == LookL2(h, s, k)
  {
    assert forall k :: LookL2(h, t, k) == LookL2(h, s, k);
  }

  lemma BlockSideSame(h: Header, s: Img, t: Img)
    requires h.Valid() && t.file == s.file && t.refTable == s.refTable && t.blockCache == s.blockCache
    ensures Abs(h, t).refTable == Abs(h, s).refTable && Abs(h, t).blocks == Abs(h, s).blocks
  {
    assert forall k :: LookBlock(h, t, k) == LookBlock(h, s, k);
  }

  lemma UnownedIsNoTable(h: Header, m: Meta, c: nat)
    requires Shape(h, m) && !Owned(h, m, c)
    ensures c !in m.blocks && c !in m.l2 && c != 0
  {
    assert Place(h, m, HeaderCluster) == 0;
    if c in m.blocks {
      var j := BlockOwner(h, m, c);
    }
    if c in m.l2 {
      var j := L2Owner(h, m, c);
    }
  }

  lemma NewBlockClusters(h: Header, s: Img, c: nat)
    requires h.Valid() && c != 0 && Quot(c, h.blockEntries) < |s.refTable|
    requires DecodeRefTable(h, s.refTable)[Quot(c, h.blockEntries)] == 0
    ensures Abs(h, NewBlock(h, s, c)).refTable == Abs(h, s).refTable[Quot(c, h.blockEntries) := c]
    ensures BlockClusters(h, NewBlock(h, s, c)) == BlockClusters(h, s) + {c}
  {
    DecodeRefTableUpdate(h, s.refTable, Quot(c, h.blockEntries), c);
    UsedUpdate(DecodeRefTable(h, s.refTable), Quot(c, h.blockEntries), c);
  }

  lemma NewBlockAbs(h: Header, s: Img, c: nat)
    requires h.Valid() && Shape(h, Abs(h, s)) && c != 0 && c !in BlockClusters(h, s)
    requires Quot(c, h.blockEntries) < |s.refTable| && !HasBlock(h, Abs(h, s), c)
    ensures Abs(h, NewBlock(h, s, c)) == AddBlock(h, Abs(h, s), c)
  {
    var t := NewBlock(h, s, c);
    NewBlockClusters(h, s, c);
    L2SideSame(h, s, t);
    var b := AddBlock(h, Abs(h, s), c).blocks;
    assert forall k :: k != c ==> LookBlock(h, t, k) == LookBlock(h, s, k);
    assert b.Keys == BlockClusters(h, t);
    forall k | k in b
      ensures LookBlock(h, t, k) == b[k]
    {
      if k != c {
        assert k in BlockClusters(h, s);
      }
    }
    assert Abs(h, t).blocks == b;
  }

  /** A dirty table of the right size may always enter a cache. */
  lemma CoherentInsert(f: File, cache: Cache, w: Width, n: nat, k: nat, e: seq<nat>)
    requires Coherent(f, cache, w, n) && |e| == n && EntriesFit(w, e)
    ensures Coherent(f, cache[k := Table(true, e)], w, n)
  {
  }

  lemma NewBlockCoherent(h: Header, s: Img, c: nat)
    requires h.Valid() && CachesCoherent(h, s) && 0 < c < h.HostLimit()
    requires Quot(c, h.blockEntries) < |s.refTable| && DecodeRefTable(h, s.refTable)[Quot(c, h.blockEntries)] == 0
    ensures CachesCoherent(h, NewBlock(h, s, c))
  {
    NewBlockClusters(h, s, c);
    var t := NewBlock(h, s, c);
    assert L2Clusters(h, t) == L2Clusters(h, s);
    CoherentInsert(s.file, s.blockCache, Bits16, h.blockEntries, c, Zeros(h.blockEntries)[Rem(c, h.blockEntries) := 1]);
  }

  lemma NewBlockPlain(h: Header, s: Img, c: nat)
    requires h.Valid() && RootsCoherent(h, s) && Plain(h, s) && 0 < c < h.HostLimit()
    requires Quot(c, h.blockEntries) < |s.refTable|
    ensures var t := NewBlock(h, s, c);
      RootsCoherent(h, t) && Plain(h, t)
  {
    L2SideSame(h, s, NewBlock(h, s, c));
    OffsetFacts(h, c);
  }

  lemma NewBlockKeeps(h: Header, s: Img, pending: set<nat>, c: nat)
    requires Sane(h, s, pending) && c < h.HostLimit()
    requires Quot(c, h.blockEntries) < |s.refTable| && !HasBlock(h, Abs(h, s), c)
    ensures Sane(h, NewBlock(h, s, c), pending)
    ensures Abs(h, NewBlock(h, s, c)) == AddBlock(h, Abs(h, s), c)
  {
    var m, t := Abs(h, s), NewBlock(h, s, c);
    assert Refcount(h, m, c) == 0;
    UnownedIsNoTable(h, m, c);
    NewBlockAbs(h, s, c);
    NewBlockCoherent(h, s, c);
    NewBlockPlain(h, s, c);
    AddBlockKeepsConsistent(h, m, pending, c);
    assert InBounds(h, Abs(h, t));
  }

  // ---------------------------------------------------------------- one refcount

  ghost function BlockOf(h: Header, s: Img, c: nat): nat
    requires h.Valid() && Quot(c, h.blockEntries) < |s.refTable|
  {
    BlockCluster(h, s.refTable[Quot(c, h.blockEntries)])
  }

  ghost function WithCount(h: Header, s: Img, c: nat, v: nat): Img
    requires h.Valid() && Quot(c, h.blockEntries) < |s.refTable| && BlockOf(h, s, c) in s.blockCache
    requires |s.blockCache[BlockOf(h, s, c)].entries| == h.blockEntries
  {
    var b := BlockOf(h, s, c);
    var e: seq<nat> := s.blockCache[b].entries[Rem(c, h.blockEntries) := v];
    s.(blockCache := s.blockCache[b := Table(true, e)])
  }

  /** The block is in the cache, so its entry may be written through the pointer. */
  ghost predicate BlockCached(h: Header, s: Img, c: nat)
    requires h.Valid()
  {
    Quot(c, h.blockEntries) < |s.refTable| && BlockOf(h, s, c) in s.blockCache
  }

  lemma BlockCachedFacts(h: Header, s: Img, pending: set<nat>, c: nat)
    requires Sane(h, s, pending) && BlockCached(h, s, c)
    ensures HasBlock(h, Abs(h, s), c) && |s.blockCache[BlockOf(h, s, c)].entries| == h.blockEntries
    ensures Refcount(h, Abs(h, s), c) == s.blockCache[BlockOf(h, s, c)].entries[Rem(c, h.blockEntries)]
  {
    TablesAreOwned(h, Abs(h, s), pending);
    assert BlockOf(h, s, c) in Abs(h, s).blocks;
  }

  lemma WithCountAbs(h: Header, s: Img, c: nat, v: nat)
    requires h.Valid() && Shape(h, Abs(h, s)) && BlockCached(h, s, c) && HasBlock(h, Abs(h, s), c)
    requires |s.blockCache[BlockOf(h, s, c)].entries| == h.blockEntries
    ensures Abs(h, WithCount(h, s, c, v)) == SetRefcount(h, Abs(h, s), c, v)
  {
    var t := WithCount(h, s, c, v);
    L2SideSame(h, s, t);
    var b := SetRefcount(h, Abs(h, s), c, v).blocks;
    assert BlockOf(h, s, c) in BlockClusters(h, s);
    assert Abs(h, t).blocks.Keys == b.Keys;
    assert forall k :: k in b ==> Abs(h, t).blocks[k] == b[k];
    assert Abs(h, t).blocks == b;
  }

  lemma WithCountCoherent(h: Header, s: Img, c: nat, v: nat)
    requires h.Valid() && CachesCoherent(h, s) && RootsCoherent(h, s) && Plain(h, s)
    requires BlockCached(h, s, c) && v < 0x1_0000
    ensures |s.blockCache[BlockOf(h, s, c)].entries| == h.blockEntries
    ensures var t := WithCount(h, s, c, v);
      CachesCoherent(h, t) && RootsCoherent(h, t) && Plain(h, t)
  {
    L2SideSame(h, s, WithCount(h, s, c, v));
  }

  /** Taking the cluster an allocation found. */
  lemma TakeKeeps(h: Header, s: Img, c: nat)
    requires Sane(h, s, {}) && BlockCached(h, s, c) && c < h.HostLimit()
    requires Refcount(h, Abs(h, s), c) == 0
    ensures |s.blockCache[BlockOf(h, s, c)].entries| == h.blockEntries
    ensures Sane(h, WithCount(h, s, c, 1), {c}) && HasBlock(h, Abs(h, s), c)
    ensures Abs(h, WithCount(h, s, c, 1)) == SetRefcount(h, Abs(h, s), c, 1)
  {
    BlockCachedFacts(h, s, {}, c);
    WithCountAbs(h, s, c, 1);
    WithCountCoherent(h, s, c, 1);
    TakeKeepsConsistent(h, Abs(h, s), {}, c);
    RefcountOfSet(h, Abs(h, s), c, 1);
    assert {} + {c} == {c};
  }

  // ---------------------------------------------------------------- a new L2 table

  ghost function NewL2(h: Header, s: Img, i: nat, c: nat): Img
    requires i < |s.l1|
  {
    s.(l1 := s.l1[i := CopiedEntry(h, c)], l1Dirty := true,
       l2Cache := s.l2Cache[c := Table(true, Zeros(h.l2Entries))])
  }

  lemma DecodeL1Update(h: Header, t: seq<nat>, i: nat, c: nat)
    requires h.Valid() && i < |t| && 0 < c < h.HostLimit()
    ensures DecodeL1(h, t[i := CopiedEntry(h, c)]) == DecodeL1(h, t)[i := c]
  {
    EntryRoundTrip(h, c);
  }

  lemma NewL2Clusters(h: Header, s: Img, i: nat, c: nat)
    requires h.Valid() && 0 < c < h.HostLimit() && i < |s.l1| && DecodeL1(h, s.l1)[i] == 0
    ensures Abs(h, NewL2(h, s, i, c)).l1 == Abs(h, s).l1[i := c]
    ensures L2Clusters(h, NewL2(h, s, i, c)) == L2Clusters(h, s) + {c}
    ensures forall k :: k != c ==> LookL2(h, NewL2(h, s, i, c), k) == LookL2(h, s, k)
    ensures LookL2(h, NewL2(h, s, i, c), c) == Zeros(h.l2Entries)
  {
    DecodeL1Update(h, s.l1, i, c);
    UsedUpdate(DecodeL1(h, s.l1), i, c);
  }

  lemma NewL2Abs(h: Header, s: Img, i: nat, c: nat)
    requires h.Valid() && 0 < c < h.HostLimit() && c !in L2Clusters(h, s)
    requires i < |s.l1| && DecodeL1(h, s.l1)[i] == 0
    ensures Abs(h, NewL2(h, s, i, c)) == LinkL2(h, Abs(h, s), i, c)
  {
    var t := NewL2(h, s, i, c);
    NewL2Clusters(h, s, i, c);
    BlockSideSame(h, s, t);
    var b := LinkL2(h, Abs(h, s), i, c).l2;
    assert DecodeL2(h, Zeros(h.l2Entries)) == Zeros(h.l2Entries);
    assert Abs(h, t).l2.Keys == b.Keys;
    assert forall k :: k in b ==> Abs(h, t).l2[k] == b[k];
    assert Abs(h, t).l2 == b;
  }

  lemma NewL2Coherent(h: Header, s: Img, i: nat, c: nat)
    requires h.Valid() && CachesCoherent(h, s)
    requires 0 < c < h.HostLimit() && i < |s.l1| && DecodeL1(h, s.l1)[i] == 0
    ensures CachesCoherent(h, NewL2(h, s, i, c))
  {
    NewL2Clusters(h, s, i, c);
    var t := NewL2(h, s, i, c);
    assert BlockClusters(h, t) == BlockClusters(h, s);
    CoherentInsert(s.file, s.l2Cache, Bits64, h.l2Entries, c, Zeros(h.l2Entries));
  }

  lemma NewL2Plain(h: Header, s: Img, i: nat, c: nat)
    requires h.Valid() && RootsCoherent(h, s) && Plain(h, s)
    requires 0 < c < h.HostLimit() && i < |s.l1| && DecodeL1(h, s.l1)[i] == 0
    ensures var t := NewL2(h, s, i, c);
      RootsCoherent(h, t) && Plain(h, t)
  {
    var t := NewL2(h, s, i, c);
    NewL2Clusters(h, s, i, c);
    EntryRoundTrip(h, c);
    ZerosArePlain(h);
    forall k | k in L2Clusters(h, t)
      ensures AllPlainData(h, LookL2(h, t, k))
    {
    }
  }

  lemma ZerosArePlain(h: Header)
    requires h.Valid()
    ensures AllPlainData(h, Zeros(h.l2Entries))
  {
    assert forall j :: 0 <= j < h.l2Entries ==> Zeros(h.l2Entries)[j] == 0;
  }

  lemma NewL2Keeps(h: Header, s: Img, pending: set<nat>, i: nat, c: nat)
    requires Sane(h, s, pending) && c in pending && i < |s.l1| && DecodeL1(h, s.l1)[i] == 0
    ensures Sane(h, NewL2(h, s, i, c), pending - {c})
    ensures Abs(h, NewL2(h, s, i, c)) == LinkL2(h, Abs(h, s), i, c)
  {
    var m, t := Abs(h, s), NewL2(h, s, i, c);
    UnownedIsNoTable(h, m, c);
    NewL2Abs(h, s, i, c);
    NewL2Coherent(h, s, i, c);
    NewL2Plain(h, s, i, c);
    LinkL2KeepsConsistent(h, m, pending, i, c);
    RefcountSame(h, m, Abs(h, t));
    assert InBounds(h, Abs(h, t));
  }

  // ---------------------------------------------------------------- one L2 entry

  ghost predicate L2Cached(h: Header, s: Img, i: nat)
    requires h.Valid()
  {
    i < |s.l1| && IsCopied(s.l1[i]) && L2Cluster(h, s.l1[i]) in s.l2Cache
  }

  ghost function WithEntry(h: Header, s: Img, i: nat, j: nat, e: nat): Img
    requires h.Valid() && L2Cached(h, s, i) && j < |s.l2Cache[L2Cluster(h, s.l1[i])].entries|
  {
    var k := L2Cluster(h, s.l1[i]);
    var t: seq<nat> := s.l2Cache[k].entries[j := e];
    s.(l2Cache := s.l2Cache[k := Table(true, t)])
  }

  /** Entry `j` under L1 entry `i` as stored, seen through the cache. */
  ghost function RawEntry(h: Header, s: Img, i: nat, j: nat): nat
    requires h.Valid()
  {
    if i < |s.l1| && IsCopied(s.l1[i]) && j < |LookL2(h, s, L2Cluster(h, s.l1[i]))|
    then LookL2(h, s, L2Cluster(h, s.l1[i]))[j]
    else 0
  }

  lemma L2CachedFacts(h: Header, s: Img, pending: set<nat>, i: nat)
    requires Sane(h, s, pending) && L2Cached(h, s, i)
    ensures var k := L2Cluster(h, s.l1[i]);
      && k in L2Clusters(h, s) && k > 0 && Abs(h, s).l1[i] == k
      && |s.l2Cache[k].entries| == h.l2Entries
      && s.l2Cache[k].entries == LookL2(h, s, k)
  {
    TablesAreOwned(h, Abs(h, s), pending);
    assert L2Cluster(h, s.l1[i]) in Abs(h, s).l2;
  }

  /** The stored entry is the encoded form of the metadata's entry. */
  lemma RawEntryIsEntry(h: Header, s: Img, pending: set<nat>, i: nat, j: nat)
    requires Sane(h, s, pending) && i < |s.l1| && j < h.l2Entries
    ensures var c := Entry(h, Abs(h, s), i, j);
      && c == DataCluster(h, RawEntry(h, s, i, j))
      && RawEntry(h, s, i, j) == (if c == 0 then 0 else CopiedEntry(h, c))
      && c < h.HostLimit()
  {
    var m := Abs(h, s);
    assert PlainL1(h, s.l1[i]);
    assert Place(h, m, Data(i, j)) < h.HostLimit();
    assert Place(h, m, HeaderCluster) < h.HostLimit();
    if IsCopied(s.l1[i]) {
      var k := L2Cluster(h, s.l1[i]);
      assert m.l1[i] == k && k in L2Clusters(h, s);
      assert k in m.l2 && |LookL2(h, s, k)| == h.l2Entries;
      assert AllPlainData(h, LookL2(h, s, k));
      assert PlainData(h, LookL2(h, s, k)[j]);
    } else {
      assert s.l1[i] == 0;
    }
  }

  ghost function Encoded(h: Header, c: nat): nat {
    if c == 0 then 0 else CopiedEntry(h, c)
  }

  lemma WithEntryLook(h: Header, s: Img, i: nat, j: nat, c: nat)
    requires h.Valid() && L2Cached(h, s, i) && c < h.HostLimit()
    requires |s.l2Cache[L2Cluster(h, s.l1[i])].entries| == h.l2Entries && j < h.l2Entries
    ensures var k, t := L2Cluster(h, s.l1[i]), WithEntry(h, s, i, j, Encoded(h, c));
      && DecodeL2(h, LookL2(h, t, k)) == DecodeL2(h, LookL2(h, s, k))[j := c]
      && (AllPlainData(h, LookL2(h, s, k)) ==> AllPlainData(h, LookL2(h, t, k)))
      && (forall d :: d != k ==> LookL2(h, t, d) == LookL2(h, s, d))
  {
    if c > 0 {
      EntryRoundTrip(h, c);
    }
  }

  lemma WithEntryAbs(h: Header, s: Img, i: nat, j: nat, c: nat)
    requires h.Valid() && Shape(h, Abs(h, s)) && L2Cached(h, s, i) && c < h.HostLimit()
    requires |s.l2Cache[L2Cluster(h, s.l1[i])].entries| == h.l2Entries && j < h.l2Entries
    requires Abs(h, s).l1[i] != 0
    ensures Abs(h, WithEntry(h, s, i, j, Encoded(h, c))) == SetEntry(h, Abs(h, s), i, j, c)
  {
    var t := WithEntry(h, s, i, j, Encoded(h, c));
    WithEntryLook(h, s, i, j, c);
    BlockSideSame(h, s, t);
    var b := SetEntry(h, Abs(h, s), i, j, c).l2;
    assert L2Cluster(h, s.l1[i]) in L2Clusters(h, s);
    assert Abs(h, t).l2.Keys == b.Keys;
    assert forall k :: k in b ==> Abs(h, t).l2[k] == b[k];
    assert Abs(h, t).l2 == b;
  }

  lemma WithEntryCoherent(h: Header, s: Img, i: nat, j: nat, c: nat)
    requires h.Valid() && CachesCoherent(h, s) && RootsCoherent(h, s) && Plain(h, s)
    requires L2Cached(h, s, i) && c < h.HostLimit() && j < h.l2Entries
    ensures |s.l2Cache[L2Cluster(h, s.l1[i])].entries| == h.l2Entries
    ensures var t := WithEntry(h, s, i, j, Encoded(h, c));
      CachesCoherent(h, t) && RootsCoherent(h, t) && Plain(h, t)
  {
    if c > 0 {
      EntryRoundTrip(h, c);
    }
    WithEntryLook(h, s, i, j, c);
  }

  /** Linking the pending cluster `c` as a data cluster. */
  lemma LinkDataKeeps(h: Header, s: Img, i: nat, j: nat, c: nat)
    requires Sane(h, s, {c}) && L2Cached(h, s, i) && j < h.l2Entries
    requires Entry(h, Abs(h, s), i, j) == 0
    ensures 0 < c < h.HostLimit() && |s.l2Cache[L2Cluster(h, s.l1[i])].entries| == h.l2Entries
    ensures Abs(h, s).l1[i] != 0
    ensures var t := WithEntry(h, s, i, j, CopiedEntry(h, c));
      && Sane(h, t, {}) && Abs(h, t) == SetEntry(h, Abs(h, s), i, j, c)
  {
    var m := Abs(h, s);
    UnownedIsNoTable(h, m, c);
    L2CachedFacts(h, s, {c}, i);
    WithEntryAbs(h, s, i, j, c);
    WithEntryCoherent(h, s, i, j, c);
    LinkDataKeepsConsistent(h, m, {c}, i, j, c);
    var t := WithEntry(h, s, i, j, CopiedEntry(h, c));
    RefcountSame(h, m, Abs(h, t));
    assert {c} - {c} == {};
    assert InBounds(h, Abs(h, t));
  }
}
