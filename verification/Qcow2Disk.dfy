/** What the guest reads: the bytes of an image over its chain of backing layers. */
module Qcow2Disk {
  import opened Common
  import opened HostFile
  import opened Qcow2Layout
  import opened Qcow2Meta
  import opened Qcow2State
  import opened Qcow2Steps

  /** A backing layer, read-only: its file and the L1 table loaded from it. */
  datatype Layer = Layer(h: Header, l1: seq<nat>, file: File)

  /** The L2 entry of guest cluster `g`, straight from the file. */
  ghost function StoredEntry(y: Layer, g: nat): nat
    requires y.h.Valid()
  {
    var i, j := Quot(g, y.h.l2Entries), Rem(g, y.h.l2Entries);
    if i < |y.l1| && IsCopied(y.l1[i])
    then TableAt(y.file, L2Cluster(y.h, y.l1[i]), Bits64, y.h.l2Entries)[j]
    else 0
  }

  /** Byte `o` of the cluster that a nonzero entry describes. */
  ghost function EntryByte(h: Header, f: File, e: nat, o: nat): Byte
    requires h.Valid()
  {
    if IsCompressed(e) then
      if o < |h.inflate(Descriptor(e))| then h.inflate(Descriptor(e))[o] else 0
    else if Descriptor(e) % 2 == 1 then 0
    else HostByte(h, f, StandardOffset(Descriptor(e)), o)
  }

  /** Byte `o` of the cluster at offset `at` of the host file, which need not be a multiple of the cluster
      size in a file that others wrote. */
  ghost function HostByte(h: Header, f: File, at: nat, o: nat): Byte
    requires h.Valid()
  {
    if Rem(at, h.clusterSize) == 0 then f(ClusterOf(h, at), o) else FileByte(f, h.clusterSize, at + o)
  }

  /** Inside the cluster it is the byte at `at + o`. */
  lemma HostByteIs(h: Header, f: File, at: nat, o: nat)
    requires h.Valid() && o < h.clusterSize
    ensures HostByte(h, f, at, o) == FileByte(f, h.clusterSize, at + o)
  {
    QuotRem(at, h.clusterSize);
    if Rem(at, h.clusterSize) == 0 {
      QuotRemUnique(at + o, h.clusterSize, Quot(at, h.clusterSize), o);
    }
  }

  ghost predicate ChainValid(chain: seq<Layer>) {
    forall k :: 0 <= k < |chain| ==> chain[k].h.Valid()
  }

  /** The nearest layer that has the cluster decides; zero when none has it. */
  ghost function ChainByte(chain: seq<Layer>, g: nat, o: nat): Byte
    requires ChainValid(chain)
  {
    if chain == [] then 0
    else
      var e := StoredEntry(chain[0], g);
      if e == 0 then ChainByte(chain[1..], g, o) else EntryByte(chain[0].h, chain[0].file, e, o)
  }

  /** The layer that decides is the first that has the cluster; none has it exactly if all entries are zero. */
  lemma {:induction false} NearestLayerDecides(chain: seq<Layer>, g: nat, o: nat, k: nat)
    requires ChainValid(chain) && k <= |chain|
    requires forall i :: 0 <= i < k ==> StoredEntry(chain[i], g) == 0
    requires k < |chain| ==> StoredEntry(chain[k], g) != 0
    ensures ChainByte(chain, g, o) ==
      if k < |chain| then EntryByte(chain[k].h, chain[k].file, StoredEntry(chain[k], g), o) else 0
  {
    if k > 0 {
      NearestLayerDecides(chain[1..], g, o, k - 1);
    }
  }

  /** A partial first write of guest cluster `g` gets the rest of the cluster from the layers below: the
      layer right below has the cluster, or is not the bottom of the chain. */
  ghost predicate ChainSupplies(below: seq<Layer>, g: nat)
    requires ChainValid(below)
  {
    |below| >= 2 || (|below| == 1 && StoredEntry(below[0], g) != 0)
  }

  /** The entry of guest cluster `g`, seen through the cache. */
  ghost function GuestEntry(h: Header, s: Img, g: nat): nat
    requires h.Valid()
  {
    RawEntry(h, s, Quot(g, h.l2Entries), Rem(g, h.l2Entries))
  }

  /** Byte `o` of guest cluster `g`. */
  ghost function GuestByte(h: Header, s: Img, below: seq<Layer>, g: nat, o: nat, veil: Veil := VEIL): Byte
    requires h.Valid() && ChainValid(below)
  {
    match veil
    case Bare =>
      var e := GuestEntry(h, s, g);
      if e == 0 then ChainByte(below, g, o) else EntryByte(h, s.file, e, o)
    case Fold(inner) => GuestByte(h, s, below, g, o, inner)
  }

  lemma {:induction false} OpenGuestByte(h: Header, s: Img, below: seq<Layer>, g: nat, o: nat, veil: Veil := VEIL)
    requires h.Valid() && ChainValid(below)
    ensures GuestByte(h, s, below, g, o, veil) ==
      if GuestEntry(h, s, g) == 0 then ChainByte(below, g, o) else EntryByte(h, s.file, GuestEntry(h, s, g), o)
  {
    if veil.Fold? {
      OpenGuestByte(h, s, below, g, o, veil.inner);
    }
  }

  /** Data cluster of guest cluster `g` in the metadata, or 0. */
  ghost function DataOf(h: Header, m: Meta, g: nat): nat
    requires Shape(h, m)
  {
    Entry(h, m, Quot(g, h.l2Entries), Rem(g, h.l2Entries))
  }

  /** In a writable image the guest reads its data clusters and otherwise the chain. */
  lemma GuestBytePlain(h: Header, s: Img, pending: set<nat>, below: seq<Layer>, g: nat, o: nat)
    requires Good(h, s, pending) && ChainValid(below)
    ensures var c := DataOf(h, Abs(h, s), g);
      && GuestEntry(h, s, g) == Encoded(h, c) && c < h.HostLimit()
      && GuestByte(h, s, below, g, o) == if c == 0 then ChainByte(below, g, o) else s.file(c, o)
  {
    OpenGood(h, s, pending);
    OpenGuestByte(h, s, below, g, o);
    var c := DataOf(h, Abs(h, s), g);
    if Quot(g, h.l2Entries) < h.l1Size {
      RawEntryIsEntry(h, s, pending, Quot(g, h.l2Entries), Rem(g, h.l2Entries));
    } else {
      assert Place(h, Abs(h, s), HeaderCluster) < h.HostLimit();
    }
    if c != 0 {
      EntryRoundTrip(h, c);
      OffsetStarts(h, c);
    }
  }

  lemma OffsetStarts(h: Header, c: nat)
    requires h.Valid() && 0 < c < h.HostLimit()
    ensures StandardOffset(Descriptor(CopiedEntry(h, c))) == OffsetOf(h, c) && Rem(OffsetOf(h, c), h.clusterSize) == 0
  {
    OffsetFacts(h, c);
    FlagFacts(OffsetOf(h, c));
    MaskFacts(OffsetOf(h, c), OffsetOf(h, c) / SECTOR);
    TimesIsMul(c, h.clusterSize);
    QuotRemUnique(OffsetOf(h, c), h.clusterSize, c, 0);
  }

  /** A read-only layer as opened: clean caches that agree with the file. */
  ghost predicate ReadOnlyLayer(h: Header, s: Img) {
    && h.Valid() && |s.l1| == h.l1Size
    && Coherent(s.file, s.l2Cache, Bits64, h.l2Entries)
    && (forall k :: k in s.l2Cache ==> !s.l2Cache[k].dirty)
    && (forall i :: 0 <= i < |s.l1| && IsCopied(s.l1[i]) ==> ClearCopied(s.l1[i]) != 0)
    && (forall d: nat :: |h.inflate(d)| == h.clusterSize)
  }

  lemma ReadOnlyEntry(h: Header, s: Img, g: nat)
    requires ReadOnlyLayer(h, s)
    ensures GuestEntry(h, s, g) == StoredEntry(Layer(h, s.l1, s.file), g)
  {
  }

  // ---------------------------------------------------------------- entries as numbers

  /** The L2 entry of guest cluster `g` in the bytes of the file: bit 63 of the L1 entry says that there is
      a table, its other bits where, and the entry is eight bytes of it, the highest first. */
  ghost predicate IsStoredAs(y: Layer, g: nat, e: nat)
    requires y.h.Valid()
  {
    var i, j := Quot(g, y.h.l2Entries), Rem(g, y.h.l2Entries);
    if i < |y.l1| && y.l1[i] >= 0x8000_0000_0000_0000 && y.l1[i] / 0x8000_0000_0000_0000 % 2 == 1
    then e == BigEndian(y.file, Quot(y.l1[i] - 0x8000_0000_0000_0000, y.h.clusterSize), 8 * j)
    else e == 0
  }

  lemma StoredEntryIs(y: Layer, g: nat)
    requires y.h.Valid()
    ensures IsStoredAs(y, g, StoredEntry(y, g))
  {
    var h, i, j := y.h, Quot(g, y.h.l2Entries), Rem(g, y.h.l2Entries);
    if i < |y.l1| && IsCopied(y.l1[i]) {
      EightBytes(y.file, L2Cluster(h, y.l1[i]), 8 * j);
    }
  }

  /** `data` is what a nonzero entry `e` says of the bytes from `o` on: bit 62 stands for a compressed
      cluster, otherwise bit 0 for zeros, otherwise bits 9 to 55 hold the offset in the host file. */
  ghost predicate Decodes(h: Header, f: File, e: nat, o: nat, data: seq<Byte>)
    requires h.Valid()
  {
    if e / 0x4000_0000_0000_0000 % 2 == 1 then
      var whole := h.inflate(e % 0x4000_0000_0000_0000);
      o + |data| <= |whole| && data == whole[o..o + |data|]
    else if e % 2 == 1 then
      forall k :: 0 <= k < |data| ==> data[k] == 0
    else
      forall k :: 0 <= k < |data| ==>
        data[k] == FileByte(f, h.clusterSize, e / 0x200 % 0x8000_0000_0000 * 0x200 + o + k)
  }

  /** A pread inside a cluster yields the bytes of the cluster. */
  lemma ReadAtShows(h: Header, f: File, at: nat, o: nat, data: seq<Byte>)
    requires h.Valid() && o + |data| <= h.clusterSize && data == ReadAt(f, h.clusterSize, at + o, |data|)
    ensures forall k: nat :: k < |data| ==> data[k] == HostByte(h, f, at, o + k)
  {
    forall k: nat | k < |data|
      ensures data[k] == HostByte(h, f, at, o + k)
    {
      HostByteIs(h, f, at, o + k);
      assert at + o + k == at + (o + k);
    }
  }

  lemma SameFlags(e: nat)
    ensures Descriptor(e) % 2 == e % 2
    ensures StandardOffset(Descriptor(e)) == e / 0x200 % 0x8000_0000_0000 * 0x200
  {
    var q, d := e / COMPRESSED, e % COMPRESSED;
    DivModParts(e, COMPRESSED);
    var a, b := d / SECTOR, d % SECTOR;
    DivModParts(d, SECTOR);
    DivModUnique(e, SECTOR, q * 0x20_0000_0000_0000 + a, b);
    var x, y := a / OFFSET_SECTORS, a % OFFSET_SECTORS;
    DivModParts(a, OFFSET_SECTORS);
    DivModUnique(q * 0x20_0000_0000_0000 + a, OFFSET_SECTORS, q * 0x40 + x, y);
  }

  lemma EntryDecodes(h: Header, f: File, e: nat, o: nat, data: seq<Byte>)
    requires h.Valid() && o + |data| <= h.clusterSize
    requires IsCompressed(e) ==> |h.inflate(Descriptor(e))| == h.clusterSize
    requires forall k: nat :: k < |data| ==> data[k] == EntryByte(h, f, e, o + k)
    ensures Decodes(h, f, e, o, data)
  {
    SameFlags(e);
    if !IsCompressed(e) && e % 2 == 0 {
      var at := StandardOffset(Descriptor(e));
      forall k | 0 <= k < |data|
        ensures data[k] == FileByte(f, h.clusterSize, at + o + k)
      {
        HostByteIs(h, f, at, o + k);
        assert at + (o + k) == at + o + k;
      }
    }
  }

  /** `data` is what guest cluster `g` holds from `o` on, as the nearest layer with a nonzero entry
      decides: the image itself, whose entry is `e`, then the layers below in order. */
  ghost predicate DecodedFrom(h: Header, f: File, e: nat, below: seq<Layer>, g: nat, o: nat, data: seq<Byte>)
    requires h.Valid() && ChainValid(below)
  {
    && (e != 0 ==> Decodes(h, f, e, o, data))
    && (forall k :: e == 0 && 0 <= k < |below| && FirstWith(below, g, k) ==>
          Decodes(below[k].h, below[k].file, StoredEntry(below[k], g), o, data))
    && (e == 0 && (forall k :: 0 <= k < |below| ==> StoredEntry(below[k], g) == 0) ==>
          forall k :: 0 <= k < |data| ==> data[k] == 0)
  }

  /** Folded. */
  ghost predicate Decoded(h: Header, f: File, e: nat, below: seq<Layer>, g: nat, o: nat, data: seq<Byte>, veil: Veil := VEIL)
    requires h.Valid() && ChainValid(below)
  {
    match veil
    case Bare => DecodedFrom(h, f, e, below, g, o, data) == true
    case Fold(inner) => Decoded(h, f, e, below, g, o, data, inner)
  }

  lemma {:induction false} OpenDecoded(h: Header, f: File, e: nat, below: seq<Layer>, g: nat, o: nat, data: seq<Byte>, veil: Veil := VEIL)
    requires h.Valid() && ChainValid(below)
    ensures Decoded(h, f, e, below, g, o, data, veil) <==> DecodedFrom(h, f, e, below, g, o, data)
  {
    if veil.Fold? {
      OpenDecoded(h, f, e, below, g, o, data, veil.inner);
    }
  }

  /** Layer `k` is the first with a nonzero entry for guest cluster `g`. */
  ghost predicate FirstWith(chain: seq<Layer>, g: nat, k: nat)
    requires ChainValid(chain)
  {
    && k < |chain| && StoredEntry(chain[k], g) != 0
    && forall i :: 0 <= i < k ==> StoredEntry(chain[i], g) == 0
  }

  /** Decompression yields whole clusters of `size` bytes in every layer. */
  ghost predicate ChainInflates(chain: seq<Layer>, size: nat) {
    forall k :: 0 <= k < |chain| ==> chain[k].h.clusterSize == size && Inflates(chain[k].h)
  }

  ghost predicate Inflates(h: Header) {
    forall d: nat :: |h.inflate(d)| == h.clusterSize
  }

  lemma ChainDecodes(chain: seq<Layer>, g: nat, k: nat, o: nat, data: seq<Byte>, size: nat)
    requires ChainValid(chain) && ChainInflates(chain, size) && FirstWith(chain, g, k) && o + |data| <= size
    requires forall i: nat :: i < |data| ==> data[i] == ChainByte(chain, g, o + i)
    ensures Decodes(chain[k].h, chain[k].file, StoredEntry(chain[k], g), o, data)
  {
    forall i: nat | i < |data|
      ensures data[i] == EntryByte(chain[k].h, chain[k].file, StoredEntry(chain[k], g), o + i)
    {
      NearestLayerDecides(chain, g, o + i, k);
    }
    EntryDecodes(chain[k].h, chain[k].file, StoredEntry(chain[k], g), o, data);
  }

  /** What the guest reads is what the bits of the entries say. */
  lemma GuestDecodes(h: Header, s: Img, below: seq<Layer>, g: nat, o: nat, data: seq<Byte>)
    requires h.Valid() && ChainValid(below) && ChainInflates(below, h.clusterSize) && o + |data| <= h.clusterSize
    requires IsCompressed(GuestEntry(h, s, g)) ==> Inflates(h)
    requires forall k: nat :: k < |data| ==> data[k] == GuestByte(h, s, below, g, o + k)
    ensures DecodedFrom(h, s.file, GuestEntry(h, s, g), below, g, o, data)
  {
    var e := GuestEntry(h, s, g);
    forall k: nat | k < |data|
      ensures data[k] == if e == 0 then ChainByte(below, g, o + k) else EntryByte(h, s.file, e, o + k)
    {
      OpenGuestByte(h, s, below, g, o + k);
    }
    if e != 0 {
      EntryDecodes(h, s.file, e, o, data);
    } else {
      forall k | 0 <= k < |below| && FirstWith(below, g, k)
        ensures Decodes(below[k].h, below[k].file, StoredEntry(below[k], g), o, data)
      {
        ChainDecodes(below, g, k, o, data, h.clusterSize);
      }
      if forall k :: 0 <= k < |below| ==> StoredEntry(below[k], g) == 0 {
        forall k | 0 <= k < |data|
          ensures data[k] == 0
        {
          NearestLayerDecides(below, g, o + k, |below|);
        }
      }
    }
  }

  // ---------------------------------------------------------------- reading an L2 table

  /** `k` loaded while `v` is evicted; the file is read before the victim is written back. */
  ghost function SwapL2(h: Header, s: Img, k: nat, v: nat): Img
    requires v in s.l2Cache
  {
    EvictL2(h, s, v).(l2Cache := (s.l2Cache - {v})[k := Table(false, TableAt(s.file, k, Bits64, h.l2Entries))])
  }

  /** The image after ReadL2Table(k): loaded unless cached, possibly in place of a victim. */
  ghost predicate ReadStep(h: Header, s: Img, t: Img, k: nat) {
    if k in s.l2Cache then t == s
    else t == LoadL2(h, s, k) || exists v :: v in s.l2Cache && t == SwapL2(h, s, k, v)
  }

  lemma SwapL2Keeps(h: Header, s: Img, pending: set<nat>, k: nat, v: nat)
    requires Sane(h, s, pending) && k in L2Clusters(h, s) && k !in s.l2Cache && v in s.l2Cache
    ensures Sane(h, SwapL2(h, s, k, v), pending) && SameLogical(h, s, SwapL2(h, s, k, v))
  {
    var u := EvictL2(h, s, v);
    EvictL2Keeps(h, s, pending, v);
    TableSame(u.file, s.file, k, Bits64, h.l2Entries);
    assert SwapL2(h, s, k, v) == LoadL2(h, u, k);
    LoadL2Keeps(h, u, pending, k);
    SameLogicalTransitive(h, s, u, LoadL2(h, u, k));
  }

  lemma ReadStepKeeps(h: Header, s: Img, t: Img, pending: set<nat>, k: nat)
    requires Good(h, s, pending) && k in L2Clusters(h, s) && ReadStep(h, s, t, k)
    ensures Good(h, t, pending) && SameLogical(h, s, t) && k in t.l2Cache
  {
    OpenGood(h, s, pending);
    if k in s.l2Cache {
    } else if t == LoadL2(h, s, k) {
      LoadL2Keeps(h, s, pending, k);
    } else {
      var v :| v in s.l2Cache && t == SwapL2(h, s, k, v);
      SwapL2Keeps(h, s, pending, k, v);
    }
    CloseGood(h, t, pending);
  }

  lemma ReadStepReadOnly(h: Header, s: Img, t: Img, k: nat)
    requires ReadOnlyLayer(h, s) && ReadStep(h, s, t, k)
    ensures ReadOnlyLayer(h, t) && t.file == s.file && t.l1 == s.l1 && k in t.l2Cache
  {
    TableFits(s.file, k, Bits64, h.l2Entries);
  }

  // ---------------------------------------------------------------- reading a refcount block

  ghost function SwapBlock(h: Header, s: Img, k: nat, v: nat): Img
    requires v in s.blockCache
  {
    EvictBlock(h, s, v).(blockCache := (s.blockCache - {v})[k := Table(false, TableAt(s.file, k, Bits16, h.blockEntries))])
  }

  ghost predicate BlockStep(h: Header, s: Img, t: Img, k: nat) {
    if k in s.blockCache then t == s
    else t == LoadBlock(h, s, k) || exists v :: v in s.blockCache && t == SwapBlock(h, s, k, v)
  }

  lemma SwapBlockKeeps(h: Header, s: Img, pending: set<nat>, k: nat, v: nat)
    requires Sane(h, s, pending) && k in BlockClusters(h, s) && k !in s.blockCache && v in s.blockCache
    ensures Sane(h, SwapBlock(h, s, k, v), pending) && SameLogical(h, s, SwapBlock(h, s, k, v))
  {
    var u := EvictBlock(h, s, v);
    EvictBlockKeeps(h, s, pending, v);
    TableSame(u.file, s.file, k, Bits16, h.blockEntries);
    assert SwapBlock(h, s, k, v) == LoadBlock(h, u, k);
    LoadBlockKeeps(h, u, pending, k);
    SameLogicalTransitive(h, s, u, LoadBlock(h, u, k));
  }

  lemma BlockStepKeeps(h: Header, s: Img, t: Img, pending: set<nat>, k: nat)
    requires Good(h, s, pending) && k in BlockClusters(h, s) && BlockStep(h, s, t, k)
    ensures Good(h, t, pending) && SameLogical(h, s, t) && k in t.blockCache && t.l2Cache == s.l2Cache
  {
    OpenGood(h, s, pending);
    if k in s.blockCache {
    } else if t == LoadBlock(h, s, k) {
      LoadBlockKeeps(h, s, pending, k);
    } else {
      var v :| v in s.blockCache && t == SwapBlock(h, s, k, v);
      SwapBlockKeeps(h, s, pending, k, v);
    }
    CloseGood(h, t, pending);
  }

  /** The image after a missing refcount block was made at `c`, possibly in place of a victim. */
  ghost predicate MakeStep(h: Header, s: Img, t: Img, c: nat)
    requires h.Valid() && Quot(c, h.blockEntries) < |s.refTable|
  {
    t == NewBlock(h, s, c) || exists v :: v in s.blockCache && v != c && t == NewBlock(h, EvictBlock(h, s, v), c)
  }

  lemma MakeStepAbs(h: Header, s: Img, t: Img, c: nat)
    requires Good(h, s, {}) && Quot(c, h.blockEntries) < |s.refTable| && !HasBlock(h, Abs(h, s), c)
    requires MakeStep(h, s, t, c)
    ensures Abs(h, t) == AddBlock(h, Abs(h, s), c)
    ensures c < h.HostLimit() ==> Good(h, t, {})
    ensures forall d: nat, i: nat :: !IsTable(Abs(h, s), d) ==> t.file(d, i) == s.file(d, i)
    ensures t.l1 == s.l1 && t.l1Dirty == s.l1Dirty && t.l2Cache == s.l2Cache
  {
    OpenGood(h, s, {});
    var m := Abs(h, s);
    assert Refcount(h, m, c) == 0;
    UnownedIsNoTable(h, m, c);
    if t == NewBlock(h, s, c) {
      NewBlockAbs(h, s, c);
      if c < h.HostLimit() {
        NewBlockKeeps(h, s, {}, c);
        CloseGood(h, t, {});
      }
    } else {
      var v :| v in s.blockCache && v != c && t == NewBlock(h, EvictBlock(h, s, v), c);
      EvictBlockKeeps(h, s, {}, v);
      NewBlockAbs(h, EvictBlock(h, s, v), c);
      if c < h.HostLimit() {
        NewBlockKeeps(h, EvictBlock(h, s, v), {}, c);
        CloseGood(h, t, {});
      }
    }
  }

  /** Traffic in the caches changes no guest byte. */
  lemma SameLogicalSameGuest(h: Header, s: Img, t: Img, pending: set<nat>, below: seq<Layer>, g: nat, o: nat)
    requires Good(h, s, pending) && Good(h, t, pending) && SameLogical(h, s, t)
    requires ChainValid(below)
    ensures GuestByte(h, t, below, g, o) == GuestByte(h, s, below, g, o)
  {
    GuestBytePlain(h, s, pending, below, g, o);
    GuestBytePlain(h, t, pending, below, g, o);
    var m := Abs(h, s);
    var c := DataOf(h, m, g);
    if c != 0 {
      OpenGood(h, s, pending);
      DataIsNoTable(h, m, Quot(g, h.l2Entries), Rem(g, h.l2Entries));
    }
  }

  lemma DataIsNoTable(h: Header, m: Meta, i: nat, j: nat)
    requires Shape(h, m) && Disjoint(h, m) && Entry(h, m, i, j) != 0
    ensures !IsTable(m, Entry(h, m, i, j)) && Owned(h, m, Entry(h, m, i, j))
  {
    var c := Entry(h, m, i, j);
    assert Place(h, m, Data(i, j)) == c;
    if c in m.blocks {
      var k := BlockOwner(h, m, c);
    }
    if c in m.l2 {
      var k := L2Owner(h, m, c);
    }
  }
}
