/** The image engine: a class with the fields of an open image, whose methods follow the
    operations step by step and are specified on snapshots of the image.
 */
module Qcow2Image {
  import opened Common
  import opened HostFile
  import opened LruCache
  import opened Qcow2Layout
  import opened Qcow2Meta
  import opened Qcow2State
  import opened Qcow2Steps
  import opened Qcow2Disk
  import opened Qcow2Search
  import opened Qcow2Guest
  import opened Qcow2Discard
  import opened Qcow2Flush
  import opened Qcow2Transfer
  import opened Qcow2Supply

  class Qcow2Image {
    const h: Header
    const readonly: bool
    const backing: Qcow2Image?
    const l2Cache: SimpleLRUCache<Table>
    const rfbCache: SimpleLRUCache<Table>

    var file: File
    var l1Table: seq<nat>
    var l1TableDirty: bool
    var refcountTable: seq<nat>
    var refcountTableDirty: bool
    var freeClusterIndex: nat

    /** This image, its caches and its whole backing chain. */
    ghost const Repr: set<object>

    ghost function S(): Img
      reads this, l2Cache, rfbCache
    {
      Img(file, l1Table, l1TableDirty, refcountTable, refcountTableDirty, freeClusterIndex,
          l2Cache.pairs, rfbCache.pairs)
    }

    ghost predicate CachesValid()
      reads l2Cache, rfbCache
    {
      && l2Cache != rfbCache && l2Cache.Valid() && rfbCache.Valid()
      && l2Cache.maxSize >= 1 && rfbCache.maxSize >= 1
    }

    /** Opens a host file: the header is given, the root tables are read from the file. */
    constructor (h: Header, file: File, backing: Qcow2Image?, readonly: bool, cacheItems: nat)
      requires h.Valid() && cacheItems >= 1
      ensures this.h == h && this.backing == backing && this.readonly == readonly
      ensures CachesValid() && S() == Opened(h, file)
      ensures Repr == {this, l2Cache, rfbCache} + (if backing == null then {} else backing.Repr)
      ensures fresh(l2Cache) && fresh(rfbCache)
    {
      this.h, this.backing, this.readonly := h, backing, readonly;
      this.file := file;
      l1Table, l1TableDirty := SpanAt(file, h.l1Cluster, h.l2Entries, h.l1Size), false;
      refcountTable, refcountTableDirty := SpanAt(file, h.refTableCluster, h.l2Entries, h.refTableSize), false;
      freeClusterIndex := 0;
      var l2 := new SimpleLRUCache<Table>(cacheItems);
      var rfb := new SimpleLRUCache<Table>(cacheItems);
      l2Cache, rfbCache := l2, rfb;
      Repr := {this, l2, rfb} + (if backing == null then {} else backing.Repr);
    }

    /** The objects of the backing chain. */
    ghost function BelowRepr(): set<object> {
      if backing == null then {} else backing.Repr
    }

    /** The structure of the chain, fixed at opening: layers own their objects, backing layers are
        read-only and share disk size and cluster size with the image above. */
    ghost predicate Chained()
      decreases Repr
    {
      && h.Valid() && h.L1CoversDisk()
      && Repr == {this, l2Cache, rfbCache} + BelowRepr()
      && {this, l2Cache, rfbCache} !! BelowRepr()
      && (backing != null ==>
            && {backing, backing.l2Cache, backing.rfbCache} <= backing.Repr < Repr && backing.readonly
            && backing.h.size == h.size && backing.h.clusterSize == h.clusterSize
            && backing.Chained())
    }

    /** The contents of the layers below. */
    ghost function Below(): seq<Layer>
      requires Chained()
      reads BelowRepr()
      decreases Repr
    {
      if backing == null then [] else [Layer(backing.h, backing.l1Table, backing.file)] + backing.Below()
    }

    ghost predicate BelowServes()
      requires Chained()
      reads BelowRepr()
      decreases Repr
    {
      backing != null ==>
        backing.CachesValid() && Holds(ReadOnly(backing.h, backing.S())) && backing.BelowServes()
    }

    /** An open image between two operations. */
    ghost predicate Serves()
      reads Repr
    {
      && Chained() && CachesValid() && BelowServes()
      && Holds(ServesReads(h, S(), readonly))
    }

    lemma ChainIsValid()
      requires Chained()
      ensures ChainValid(Below())
      decreases Repr
    {
      if backing != null {
        backing.ChainIsValid();
      }
    }

    lemma ChainInflatesWhole()
      requires Chained() && BelowServes()
      ensures ChainInflates(Below(), h.clusterSize)
      decreases Repr
    {
      if backing != null {
        LayerInflates(backing.h, backing.S());
        backing.ChainInflatesWhole();
      }
    }

    /** The bytes shown are those that the bits of the entries describe. */
    lemma ShownIsDecoded(pos: nat, length: nat, data: seq<Byte>)
      requires Serves() && ChainValid(Below()) && Shows(h, S(), Below(), pos, length, data)
      ensures Decoded(h, file, GuestEntry(h, S(), Quot(pos, h.clusterSize)), Below(), Quot(pos, h.clusterSize), Rem(pos, h.clusterSize), data)
    {
      ChainInflatesWhole();
      ShowsDecoded(h, S(), readonly, Below(), pos, length, data);
    }

    // -------------------------------------------------------------- table traffic

    /** WriteFile of a whole table: dropped at or beyond the virtual disk size. */
    method WriteTable(k: nat, t: Table, w: Width)
      requires t.dirty
      modifies this`file
      ensures file == if OffsetOf(h, k) < h.size then StoreTable(old(file), k, w, t.entries) else old(file)
      ensures file == WriteBack(h, old(file), k, t, w)
    {
      if OffsetOf(h, k) < h.size {
        file := StoreTable(file, k, w, t.entries);
      }
    }

    /** rfb_cache_.Put with its callback. */
    method PutBlock(k: nat, t: Table) returns (ghost victim: Option<nat>)
      requires CachesValid() && k !in rfbCache.pairs
      modifies this`file, rfbCache
      ensures CachesValid()
      ensures victim == None ==> S() == old(S()).(blockCache := old(S()).blockCache[k := t])
      ensures victim.Some? ==>
        && victim.value in old(S()).blockCache && victim.value != k
        && S() == EvictBlock(h, old(S()), victim.value).(blockCache := (old(S()).blockCache - {victim.value})[k := t])
    {
      var added, gone := rfbCache.Put(k, t);
      victim := None;
      if gone.Some? {
        victim := Some(gone.value.0);
        assert rfbCache.pairs == (old(rfbCache.pairs) - {gone.value.0})[k := t];
        if gone.value.1.dirty {
          WriteTable(gone.value.0, gone.value.1, Bits16);
        }
      }
    }

    /** l2_cache_.Put with its callback. */
    method PutL2(k: nat, t: Table) returns (ghost victim: Option<nat>)
      requires CachesValid() && k !in l2Cache.pairs
      modifies this`file, l2Cache
      ensures CachesValid()
      ensures victim == None ==> S() == old(S()).(l2Cache := old(S()).l2Cache[k := t])
      ensures victim.Some? ==>
        && victim.value in old(S()).l2Cache && victim.value != k
        && S() == EvictL2(h, old(S()), victim.value).(l2Cache := (old(S()).l2Cache - {victim.value})[k := t])
    {
      var added, gone := l2Cache.Put(k, t);
      victim := None;
      if gone.Some? {
        victim := Some(gone.value.0);
        assert l2Cache.pairs == (old(l2Cache.pairs) - {gone.value.0})[k := t];
        if gone.value.1.dirty {
          WriteTable(gone.value.0, gone.value.1, Bits64);
        }
      }
    }

    /** The refcount block at `k`, loaded if need be. */
    method ReadBlock(k: nat)
      requires CachesValid()
      modifies this`file, rfbCache
      ensures CachesValid() && BlockStep(h, old(S()), S(), k)
    {
      var hit := rfbCache.Get(k);
      if hit == None {
        ghost var victim := PutBlock(k, Table(false, TableAt(file, k, Bits16, h.blockEntries)));
        if victim.Some? {
          assert S() == SwapBlock(h, old(S()), k, victim.value);
        }
      }
    }

    /** A refcount block that the table lacks: cluster `c` becomes the block and counts itself. */
    method MakeBlock(c: nat, index: nat, slot: nat)
      requires CachesValid() && h.Valid() && c !in rfbCache.pairs
      requires index == Quot(c, h.blockEntries) < |refcountTable| && slot == Rem(c, h.blockEntries)
      modifies this`file, this`refcountTable, this`refcountTableDirty, rfbCache
      ensures CachesValid() && MakeStep(h, old(S()), S(), c)
    {
      ghost var victim := PutBlock(c, Table(false, Zeros(h.blockEntries)));
      rfbCache.Update(c, Table(true, Zeros(h.blockEntries)[slot := 1]));
      refcountTable := refcountTable[index := OffsetOf(h, c)];
      refcountTableDirty := true;
      ghost var s := if victim == None then old(S()) else EvictBlock(h, old(S()), victim.value);
      Overwrite(s.blockCache, c, Table(false, Zeros(h.blockEntries)), Table(true, Zeros(h.blockEntries)[slot := 1]));
      assert S() == NewBlock(h, s, c);
    }

    /** The block that counts cluster `c`, in the cache, and the slot of `c` in it. */
    method GetRefcountBlock(c: nat, allocate: bool) returns (rfb: Option<nat>, slot: nat)
      requires CachesValid() && Holds(InOrder(h, S()))
      modifies this`file, this`refcountTable, this`refcountTableDirty, rfbCache
      ensures CachesValid() && h.Valid() && slot == Rem(c, h.blockEntries)
      ensures Holds(Located(h, old(S()), S(), c, allocate, rfb))
    {
      ghost var s := S();
      LocateFacts(h, s, c);
      var index := Quot(c, h.blockEntries);
      slot := Rem(c, h.blockEntries);
      if index >= |refcountTable| {
        LocateNothing(h, s, c, allocate);
        return None, slot;
      }
      var block := BlockCluster(h, refcountTable[index]);
      if block == 0 {
        if !allocate {
          LocateNothing(h, s, c, allocate);
          return None, slot;
        }
        MakeBlock(c, index, slot);
        LocateMade(h, s, S(), c);
        return Some(c), slot;
      }
      ReadBlock(block);
      LocateFound(h, s, S(), c, allocate, block);
      return Some(block), slot;
    }

    /** GetRefcountBlock during a scan that stands at `c`. */
    method Probe(c: nat, ghost s0: Img) returns (rfb: Option<nat>, slot: nat, ghost made: bool)
      requires CachesValid() && Holds(Standing(h, s0, S(), c))
      modifies this`file, this`refcountTable, this`refcountTableDirty, rfbCache
      ensures CachesValid() && h.Valid() && slot == Rem(c, h.blockEntries)
      ensures Holds(Searching(h, s0, S(), c, rfb, made))
    {
      ghost var s := S();
      StandingIsInOrder(h, s0, s, c);
      rfb, slot := GetRefcountBlock(c, true);
      made := SearchLocated(h, s0, s, S(), c, rfb);
    }

    /** One turn of the loop below: from `c`, which is in use, to the next cluster. */
    method Advance(c: nat, b: nat, at: nat, ghost s0: Img, ghost was: bool)
      returns (rfb: Option<nat>, slot: nat, ghost made: bool)
      requires CachesValid() && h.Valid() && at == Rem(c, h.blockEntries)
      requires Holds(Searching(h, s0, S(), c, Some(b), was))
      requires b in rfbCache.pairs && |rfbCache.pairs[b].entries| == h.blockEntries && rfbCache.pairs[b].entries[at] != 0
      modifies this`file, this`refcountTable, this`refcountTableDirty, this`freeClusterIndex, rfbCache
      ensures CachesValid() && slot == Rem(c + 1, h.blockEntries)
      ensures Holds(Searching(h, s0, S(), c + 1, rfb, made))
    {
      ghost var t := S().(free := c + 2);
      SearchAdvances(h, s0, S(), c, b, was);
      freeClusterIndex := c + 2;
      assert S() == t;
      rfb, slot, made := Some(b), at + 1, was;
      if slot >= h.blockEntries {
        rfb, slot, made := Probe(c + 1, s0);
      }
    }

    /** First fit: the next free cluster, or 0 when the refcount table has none left. */
    method AllocateCluster() returns (r: nat)
      requires CachesValid() && Holds(Idle(h, S()))
      modifies this`file, this`refcountTable, this`refcountTableDirty, this`freeClusterIndex, rfbCache
      ensures CachesValid() && Holds(Allocation(h, old(S()), S(), r))
    {
      ghost var s0 := S();
      SearchStarts(h, s0);
      var c := freeClusterIndex;
      freeClusterIndex := c + 1;
      assert S() == s0.(free := c + 1);
      var rfb, slot;
      ghost var made;
      rfb, slot, made := Probe(c, s0);
      while true
        invariant CachesValid() && slot == Rem(c, h.blockEntries)
        invariant Holds(Searching(h, s0, S(), c, rfb, made))
        decreases Capacity(h) - c
      {
        SearchFacts(h, s0, S(), c, rfb, made);
        if rfb == None {
          return 0;
        }
        if rfbCache.pairs[rfb.value].entries[slot] == 0 {
          break;
        }
        rfb, slot, made := Advance(c, rfb.value, slot, s0, made);
        c := c + 1;
      }
      Take(c, rfb.value, slot, s0, made);
      return c;
    }

    /** The free cluster found at `slot` of block `b` gets its refcount. */
    method Take(c: nat, b: nat, slot: nat, ghost s0: Img, ghost made: bool)
      requires CachesValid() && h.Valid() && slot == Rem(c, h.blockEntries)
      requires Holds(Searching(h, s0, S(), c, Some(b), made))
      requires b in rfbCache.pairs && |rfbCache.pairs[b].entries| == h.blockEntries && rfbCache.pairs[b].entries[slot] == 0
      modifies rfbCache
      ensures CachesValid() && Holds(Allocation(h, s0, S(), c))
    {
      SearchSucceeds(h, s0, S(), c, b, made);
      ghost var t := WithCount(h, S(), c, 1);
      var e := rfbCache.pairs[b].entries;
      rfbCache.Update(b, Table(true, e[slot := e[slot] + 1]));
      assert S() == t;
    }

    // -------------------------------------------------------------- reading

    method ReadL2Table(k: nat)
      requires CachesValid()
      modifies this`file, l2Cache
      ensures CachesValid() && ReadStep(h, old(S()), S(), k)
    {
      var hit := l2Cache.Get(k);
      if hit == None {
        ghost var victim := PutL2(k, Table(false, TableAt(file, k, Bits64, h.l2Entries)));
        if victim.Some? {
          assert S() == SwapL2(h, old(S()), k, victim.value);
        }
      }
    }

    /** GetL2Table without allocation: the entry of guest cluster `g`, 0 when there is no table. */
    method FindEntry(g: nat) returns (e: nat)
      requires CachesValid() && Holds(ServesReads(h, S(), readonly))
      requires h.Valid() && Quot(g, h.l2Entries) < h.l1Size
      modifies this`file, l2Cache
      ensures CachesValid() && Holds(ServesReads(h, S(), readonly)) && Undisturbed(h, old(S()), S(), readonly)
      ensures e == GuestEntry(h, S(), g)
      ensures e != 0 ==> L2Cached(h, S(), Quot(g, h.l2Entries))
    {
      ghost var s := S();
      ReadableFacts(h, s, readonly);
      var i, j := Quot(g, h.l2Entries), Rem(g, h.l2Entries);
      if !IsCopied(l1Table[i]) {
        return 0;
      }
      var k := L2Cluster(h, l1Table[i]);
      ReadL2Table(k);
      ReadStepServes(h, s, S(), readonly, i);
      e := l2Cache.pairs[k].entries[j];
    }

    /** Reads the chunk of a transfer that lies in the cluster of `pos`. None stands for the -2 that a
        bottom layer returns when asked not to make up zeros. */
    method ReadCluster(pos: nat, length: nat, noZero: bool) returns (r: Option<seq<Byte>>)
      requires Serves() && pos < h.size
      modifies Repr
      ensures Serves() && Below() == old(Below()) && ChainValid(Below())
      ensures Undisturbed(h, old(S()), S(), readonly)
      ensures r.Some? ==> Shows(h, S(), Below(), pos, length, r.value)
      ensures r.Some? ==>
        Decoded(h, file, GuestEntry(h, S(), Quot(pos, h.clusterSize)), Below(), Quot(pos, h.clusterSize), Rem(pos, h.clusterSize), r.value)
      ensures r == None <==> noZero && backing == null && GuestEntry(h, S(), Quot(pos, h.clusterSize)) == 0
      decreases Repr, 1
    {
      ChainIsValid();
      PositionInL1(h, pos);
      var g, o, n := Quot(pos, h.clusterSize), Rem(pos, h.clusterSize), ChunkLength(h, pos, length);
      var e := FindEntry(g);
      var data;
      if e != 0 {
        data := ReadEntry(e, o, n);
        ShowsEntry(h, S(), Below(), pos, length, data);
      } else if backing != null {
        data := ReadBelow(pos, length);
      } else if noZero {
        return None;
      } else {
        data := seq(n, _ => 0);
        ShowsEntry(h, S(), Below(), pos, length, data);
      }
      ShownIsDecoded(pos, length, data);
      return Some(data);
    }

    /** A cluster the image does not have, read from the layer below. */
    method ReadBelow(pos: nat, length: nat) returns (data: seq<Byte>)
      requires Serves() && pos < h.size && backing != null
      requires GuestEntry(h, S(), Quot(pos, h.clusterSize)) == 0
      modifies BelowRepr()
      ensures Chained() && BelowServes() && Below() == old(Below()) && ChainValid(Below())
      ensures Shows(h, S(), Below(), pos, length, data)
      decreases Repr, 0
    {
      var r := backing.ReadCluster(pos, ChunkLength(h, pos, length), false);
      data := r.value;
      ChainIsValid();
      ShowsBelow(h, S(), Layer(backing.h, backing.l1Table, backing.file), backing.Below(), backing.S(), pos, length, data);
    }

    /** The bytes that a nonzero entry describes. */
    function ReadEntry(e: nat, o: nat, n: nat): (data: seq<Byte>)
      requires h.Valid() && o + n <= h.clusterSize
      reads this`file
      ensures |data| == n && forall k: nat :: k < n ==> data[k] == EntryByte(h, file, e, o + k)
    {
      if IsCompressed(e) then
        seq(n, k requires 0 <= k < n =>
          if o + k < |h.inflate(Descriptor(e))| then h.inflate(Descriptor(e))[o + k] else 0)
      else if Descriptor(e) % 2 == 1 then seq(n, _ => 0)
      else
        var bytes := ReadAt(file, h.clusterSize, StandardOffset(Descriptor(e)) + o, n);
        ReadAtShows(h, file, StandardOffset(Descriptor(e)), o, bytes);
        bytes
    }

    // -------------------------------------------------------------- writing

    /** WriteFile of data inside one cluster. */
    method WriteData(c: nat, o: nat, data: seq<Byte>) returns (ok: bool)
      modifies this`file
      ensures ok == (OffsetOf(h, c) + o < h.size)
      ensures S() == if ok then WithData(old(S()), c, o, data) else old(S())
    {
      ok := OffsetOf(h, c) + o < h.size;
      if ok {
        file := WriteAt(file, c, o, data);
      }
    }

    /** The new L2 table at `r` enters the cache and the L1 table. */
    method AddL2Table(i: nat, r: nat)
      requires CachesValid() && i < |l1Table| && r !in l2Cache.pairs
      modifies this`file, this`l1Table, this`l1TableDirty, l2Cache
      ensures CachesValid() && AddL2Step(h, old(S()), S(), i, r)
    {
      ghost var victim := PutL2(r, Table(false, Zeros(h.l2Entries)));
      l2Cache.Update(r, Table(true, Zeros(h.l2Entries)));
      l1Table := l1Table[i := CopiedEntry(h, r)];
      l1TableDirty := true;
      ghost var s := if victim == None then old(S()) else EvictL2(h, old(S()), victim.value);
      Overwrite(s.l2Cache, r, Table(false, Zeros(h.l2Entries)), Table(true, Zeros(h.l2Entries)));
      assert S() == NewL2(h, s, i, r);
    }

    /** GetL2Table for a write: afterwards the table under L1 entry `i` is in the cache. */
    method GetL2TableForWrite(i: nat) returns (r: IoResult)
      requires CachesValid() && Holds(Idle(h, S())) && h.Valid() && i < h.l1Size
      modifies this, l2Cache, rfbCache
      ensures CachesValid()
      ensures r == Bytes(0) ==> Done(TableReady(h, old(S()), S(), i, 2))
      ensures View(h, old(S())).room >= 2 ==> r == Bytes(0)
      ensures r == TableFate(h, old(S()), i)
    {
      ghost var s := S();
      ReadableFacts(h, s, false);
      TableSeen(h, s, i);
      if IsCopied(l1Table[i]) {
        ReadL2Table(L2Cluster(h, l1Table[i]));
        TableFound(h, s, S(), i);
        return Bytes(0);
      }
      var c := AllocateCluster();
      ghost var t := S();
      AllocationWithRoom(h, s, t, c);
      if c == 0 {
        return Panic;
      }
      if c >= h.HostLimit() {
        return Lost;
      }
      AllocatedIsUncached(h, s, t, c);
      AddL2Table(i, c);
      TableAdded(h, s, t, S(), i, c);
      return Bytes(0);
    }

    /** The cluster of `pos` as the layer below has it: None when no layer has it. */
    method ReadWholeBelow(pos: nat) returns (r: Option<seq<Byte>>)
      requires Chained() && BelowServes() && pos < h.size && backing != null
      modifies BelowRepr()
      ensures BelowServes() && Below() == old(Below()) && ChainValid(Below())
      ensures r == None <==> !ChainSupplies(Below(), Quot(pos, h.clusterSize))
      ensures r == None ==> ChainIsZero(h, Below(), Quot(pos, h.clusterSize))
      ensures r.Some? ==> ChainIs(h, Below(), Quot(pos, h.clusterSize), r.value)
    {
      AlignDown(h, pos);
      r := backing.ReadCluster(pos - Rem(pos, h.clusterSize), h.clusterSize, true);
      ChainIsValid();
      ghost var y := Layer(backing.h, backing.l1Table, backing.file);
      WholeOrNothing(h, y, backing.S(), backing.Below(), pos - Rem(pos, h.clusterSize), Quot(pos, h.clusterSize), r);
    }

    /** The old contents of a cluster that is written only in part: Some(whole cluster with `data`
        spliced in) when a backing layer has it, None when the rest is known to be zero. */
    method CopyUp(pos: nat, data: seq<Byte>) returns (whole: Option<seq<Byte>>)
      requires Chained() && BelowServes() && pos < h.size
      requires Rem(pos, h.clusterSize) + |data| <= h.clusterSize
      modifies BelowRepr()
      ensures BelowServes() && Below() == old(Below()) && ChainValid(Below())
      ensures whole == None ==> ChainIsZero(h, Below(), Quot(pos, h.clusterSize))
      ensures whole.Some? ==> Spliced(h, Below(), Quot(pos, h.clusterSize), Rem(pos, h.clusterSize), data, whole.value)
      ensures whole == None <==> !ChainSupplies(Below(), Quot(pos, h.clusterSize))
    {
      whole := None;
      if backing != null {
        whole := ReadWholeBelow(pos);
      }
      if whole.Some? {
        var o := Rem(pos, h.clusterSize);
        SplicedCopy(h, Below(), Quot(pos, h.clusterSize), o, data, whole.value);
        whole := Some(whole.value[..o] + data + whole.value[o + |data|..]);
      }
    }

    /** The whole cluster to write: the data alone when it is a whole cluster. */
    method WholeCluster(pos: nat, data: seq<Byte>) returns (whole: Option<seq<Byte>>)
      requires Chained() && BelowServes() && pos < h.size
      requires Rem(pos, h.clusterSize) + |data| <= h.clusterSize
      modifies BelowRepr()
      ensures BelowServes() && Below() == old(Below()) && ChainValid(Below())
      ensures whole == None ==>
        ChainIsZero(h, Below(), Quot(pos, h.clusterSize)) && |data| < h.clusterSize && !ChainSupplies(Below(), Quot(pos, h.clusterSize))
      ensures whole.Some? ==>
        && Spliced(h, Below(), Quot(pos, h.clusterSize), Rem(pos, h.clusterSize), data, whole.value)
        && (|data| == h.clusterSize || ChainSupplies(Below(), Quot(pos, h.clusterSize)))
    {
      ChainIsValid();
      if Rem(pos, h.clusterSize) == 0 && |data| == h.clusterSize {
        whole := Some(data);
      } else {
        whole := CopyUp(pos, data);
      }
    }

    /** Fills the fresh host cluster `c` of the guest cluster at `pos`. */
    method FillCluster(pos: nat, data: seq<Byte>, c: nat, ghost s0: Img, ghost s: Img) returns (ghost stale: Option<nat>)
      requires Chained() && BelowServes() && pos < h.size && 0 < c < h.HostLimit()
      requires Rem(pos, h.clusterSize) + |data| <= h.clusterSize
      requires Done(Fresh(h, s0, s, S(), Quot(pos, h.clusterSize), c, 4))
      modifies this`file, BelowRepr()
      ensures Chained() && BelowServes() && Below() == old(Below())
      ensures Done(Wrote(h, s0, S(), Below(), Quot(pos, h.clusterSize), Rem(pos, h.clusterSize), data, stale, 4))
    {
      ghost var t := S();
      var g, o := Quot(pos, h.clusterSize), Rem(pos, h.clusterSize);
      OffsetFacts(h, c);
      var whole := WholeCluster(pos, data);
      if whole.Some? {
        var ok := WriteData(c, 0, whole.value);
        WroteWhole(h, s0, s, t, Below(), g, c, o, data, whole.value);
        stale := None;
      } else {
        var ok := WriteData(c, o, data);
        WrotePart(h, s0, s, t, Below(), g, c, o, data);
        stale := Some(c);
      }
    }

    /** The guest cluster has a host cluster: its bytes are overwritten. */
    method WriteInPlace(pos: nat, data: seq<Byte>, c: nat, ghost s0: Img)
      requires Chained() && BelowServes() && 0 < c < h.HostLimit()
      requires Rem(pos, h.clusterSize) + |data| <= h.clusterSize
      requires Done(TableReady(h, s0, S(), Quot(Quot(pos, h.clusterSize), h.l2Entries), 2))
      requires View(h, S()).data(Quot(pos, h.clusterSize)) == c
      modifies this`file
      ensures Done(Wrote(h, s0, S(), Below(), Quot(pos, h.clusterSize), Rem(pos, h.clusterSize), data, None, 4))
    {
      ghost var s := S();
      var g, o := Quot(pos, h.clusterSize), Rem(pos, h.clusterSize);
      ChainIsValid();
      OffsetFacts(h, c);
      WroteInPlace(h, s0, s, Below(), g, c, o, data);
      var ok := WriteData(c, o, data);
    }

    /** The guest cluster has no host cluster: one is allocated and entered in the L2 table at `k`. */
    method LinkFresh(g: nat, ghost s0: Img) returns (r: IoResult, c: nat, ghost t: Img)
      requires CachesValid() && h.Valid()
      requires Done(TableReady(h, s0, S(), Quot(g, h.l2Entries), 2)) && Holds(Idle(h, S()))
      requires View(h, S()).data(g) == 0
      modifies this, l2Cache, rfbCache
      ensures CachesValid()
      ensures r == Bytes(0) ==> 0 < c < h.HostLimit() && Done(Fresh(h, s0, t, S(), g, c, 4))
      ensures r == Failed ==> Done(TableReady(h, s0, S(), Quot(g, h.l2Entries), 2))
      ensures View(h, old(S())).room >= 2 ==> r == Bytes(0)
      ensures r == DataFate(h, View(h, old(S())).take, 0)
    {
      ghost var s := S();
      var i, j := Quot(g, h.l2Entries), Rem(g, h.l2Entries);
      c := AllocateCluster();
      t := S();
      AllocationWithRoom(h, s, t, c);
      if c == 0 {
        TableStillReady(h, s0, s, t, i);
        return Failed, c, t;
      }
      if c >= h.HostLimit() {
        return Lost, c, t;
      }
      FreshLinked(h, s0, s, t, g, c);
      SetEntryInCache(i, j, CopiedEntry(h, c));
      return Bytes(0), c, t;
    }

    /** Entry `j` of the cached L2 table under L1 entry `i`, written through the table's pointer. */
    method SetEntryInCache(i: nat, j: nat, e: nat)
      requires CachesValid() && h.Valid() && L2Cached(h, S(), i) && j < |S().l2Cache[L2Cluster(h, S().l1[i])].entries|
      modifies l2Cache
      ensures CachesValid() && S() == WithEntry(h, old(S()), i, j, e)
    {
      var k := L2Cluster(h, l1Table[i]);
      l2Cache.Update(k, Table(true, l2Cache.pairs[k].entries[j := e]));
    }

    /** Writes the chunk of a transfer that lies in the cluster of `pos`. */
    method WriteCluster(pos: nat, buffer: seq<Byte>) returns (r: IoResult, ghost stale: Option<nat>)
      requires Serves() && !readonly && pos < h.size && |buffer| > 0
      modifies Repr
      ensures Chained() && CachesValid() && BelowServes() && Below() == old(Below())
      ensures r == Fate(h, old(S()), Quot(pos, h.clusterSize), ChunkLength(h, pos, |buffer|))
      ensures r.Bytes? ==> Done(Wrote(h, old(S()), S(), Below(), Quot(pos, h.clusterSize), Rem(pos, h.clusterSize), buffer[..r.n], stale, 4))
      ensures r.Failed? ==> Done(TableReady(h, old(S()), S(), Quot(Quot(pos, h.clusterSize), h.l2Entries), 2))
      ensures r.Bytes? ==> ChainValid(Below())
      ensures r.Bytes? ==>
        ExactAsForetold(h, old(S()), S(), Below(), Quot(pos, h.clusterSize), Rem(pos, h.clusterSize), buffer[..r.n], stale)
      ensures View(h, old(S())).room >= 4 ==> r.Bytes?
    {
      ghost var s0 := S();
      stale := None;
      PositionInL1(h, pos);
      var g, n := Quot(pos, h.clusterSize), ChunkLength(h, pos, |buffer|);
      var e;
      r, e := EntryToWrite(g);
      if r == Bytes(0) {
        r, stale := WriteEntry(pos, buffer[..n], e, s0);
      }
      if r.Bytes? {
        WriteIsExactIff(h, s0, S(), Below(), g, Rem(pos, h.clusterSize), buffer[..n], stale, 4);
      }
    }

    /** The first half of WriteCluster: the L2 entry of guest cluster `g`. */
    method EntryToWrite(g: nat) returns (r: IoResult, e: nat)
      requires CachesValid() && Holds(Idle(h, S())) && h.Valid() && Quot(g, h.l2Entries) < h.l1Size
      modifies this, l2Cache, rfbCache
      ensures CachesValid()
      ensures r == Bytes(0) ==> Done(TableReady(h, old(S()), S(), Quot(g, h.l2Entries), 2)) && Holds(Idle(h, S()))
      ensures r == Bytes(0) ==> EntryIs(h, S(), g, e) && View(h, S()).room + 2 >= View(h, old(S())).room
      ensures r == Bytes(0) ==> View(h, S()).data(g) == View(h, old(S())).data(g)
      ensures r == Bytes(0) ==> View(h, S()).take == NextFor(h, old(S()), g)
      ensures View(h, old(S())).room >= 2 ==> r == Bytes(0)
      ensures r == TableFate(h, old(S()), Quot(g, h.l2Entries)) && (View(h, old(S())).data(g) != 0 ==> r == Bytes(0))
    {
      ghost var s0 := S();
      var i, j := Quot(g, h.l2Entries), Rem(g, h.l2Entries);
      if View(h, s0).data(g) != 0 {
        DataHasTable(h, s0, g);
      }
      r := GetL2TableForWrite(i);
      e := 0;
      if r == Bytes(0) {
        EntryForWrite(h, s0, S(), g);
        e := l2Cache.pairs[L2Cluster(h, l1Table[i])].entries[j];
      }
    }

    /** The second half: `data` goes to the cluster of entry `e`, or to a fresh one. */
    method WriteEntry(pos: nat, data: seq<Byte>, e: nat, ghost s0: Img) returns (r: IoResult, ghost stale: Option<nat>)
      requires Chained() && CachesValid() && BelowServes() && pos < h.size
      requires Rem(pos, h.clusterSize) + |data| <= h.clusterSize
      requires Done(TableReady(h, s0, S(), Quot(Quot(pos, h.clusterSize), h.l2Entries), 2)) && Holds(Idle(h, S()))
      requires EntryIs(h, S(), Quot(pos, h.clusterSize), e)
      modifies Repr
      ensures Chained() && CachesValid() && BelowServes() && Below() == old(Below())
      ensures r.Bytes? ==> Done(Wrote(h, s0, S(), Below(), Quot(pos, h.clusterSize), Rem(pos, h.clusterSize), data, stale, 4))
      ensures r.Failed? ==> Done(TableReady(h, s0, S(), Quot(Quot(pos, h.clusterSize), h.l2Entries), 2))
      ensures View(h, old(S())).room >= 2 ==> r.Bytes?
      ensures r == if View(h, old(S())).data(Quot(pos, h.clusterSize)) != 0 then Bytes(|data|) else DataFate(h, View(h, old(S())).take, |data|)
    {
      stale := None;
      r := Bytes(|data|);
      if IsCopied(e) {
        WriteInPlace(pos, data, DataCluster(h, e), s0);
      } else {
        var c;
        ghost var t;
        r, c, t := LinkFresh(Quot(pos, h.clusterSize), s0);
        if r == Bytes(0) {
          stale := FillCluster(pos, data, c, s0, t);
          r := Bytes(|data|);
        }
      }
    }

    // -------------------------------------------------------------- discarding

    /** Takes one from the refcount of `c`; false where the original panics. */
    method FreeCluster(c: nat) returns (ok: bool, ghost u: Img)
      requires CachesValid() && Holds(InOrder(h, S()))
      modifies this`file, this`refcountTable, this`refcountTableDirty, this`freeClusterIndex, rfbCache
      ensures CachesValid() && h.Valid() && Shape(h, Abs(h, old(S()))) && (ok <==> HasBlock(h, Abs(h, old(S())), c))
      ensures ok ==> Happened(Freed(h, old(S()), u, S(), c))
    {
      ghost var s := S();
      var rfb, slot := GetRefcountBlock(c, false);
      u := S();
      FreeFacts(h, s, u, c, rfb);
      ok := rfb.Some?;
      if ok {
        var e := rfbCache.pairs[rfb.value].entries;
        var left := Less16(e[slot]);
        rfbCache.Update(rfb.value, Table(true, e[slot := left]));
        if left == 0 && c < freeClusterIndex {
          freeClusterIndex := c;
        }
        assert S() == WithFreed(h, u, c);
      }
    }

    /** Discards the cluster of `pos` when the chunk covers it; a chunk covers at most one. */
    method DiscardCluster(pos: nat, length: nat) returns (n: nat)
      requires Serves() && !readonly && pos < h.size && length > 0
      modifies this, l2Cache, rfbCache
      ensures Chained() && CachesValid() && BelowServes() && Below() == old(Below())
      ensures n == ChunkLength(h, pos, length)
      ensures Happened(Dropped(h, old(S()), S(), Below(), Quot(pos, h.clusterSize), Rem(pos, h.clusterSize) == 0 && n == h.clusterSize))
    {
      ghost var s := S();
      ChainIsValid();
      PositionInL1(h, pos);
      n := ChunkLength(h, pos, length);
      var g, o := Quot(pos, h.clusterSize), Rem(pos, h.clusterSize);
      var e := FindEntry(g);
      if e == 0 || o > 0 || n < h.clusterSize {
        DroppedNothing(h, s, S(), Below(), g, o == 0 && n == h.clusterSize);
      } else {
        DropEntry(g, e, s);
      }
    }

    /** The cluster of entry `e` is freed and the entry cleared. */
    method DropEntry(g: nat, e: nat, ghost s: Img)
      requires Chained() && CachesValid() && Holds(Idle(h, S())) && Holds(Calm(h, s, S()))
      requires Quot(g, h.l2Entries) < h.l1Size && e == GuestEntry(h, S(), g) != 0 && L2Cached(h, S(), Quot(g, h.l2Entries))
      modifies this, l2Cache, rfbCache
      ensures CachesValid() && ChainValid(Below()) && Happened(Dropped(h, s, S(), Below(), g, true))
    {
      ghost var r := S();
      ChainIsValid();
      DataHasBlock(h, r, g, e);
      IdleIsInOrder(h, r);
      CachedTableSize(h, r, Quot(g, h.l2Entries));
      var ok;
      ghost var u;
      ok, u := FreeCluster(DataCluster(h, e));
      ghost var v := S();
      FreedFrame(h, r, u, v, DataCluster(h, e));
      SetEntryInCache(Quot(g, h.l2Entries), Rem(g, h.l2Entries), 0);
      DroppedCluster(h, s, r, u, v, S(), Below(), g, DataCluster(h, e));
    }

    // -------------------------------------------------------------- whole transfers

    /** BlockIo of a read. */
    method BlockRead(pos: nat, length: nat) returns (data: seq<Byte>)
      requires Serves()
      modifies Repr
      ensures Serves() && Below() == old(Below()) && ChainValid(Below()) && Undisturbed(h, old(S()), S(), readonly)
      ensures |data| == Moved(h, pos, length) && ReadsAs(h, old(S()), Below(), pos, data)
    {
      ghost var s := S();
      ChainIsValid();
      ReadableFacts(h, s, readonly);
      data := [];
      ghost var k := 0;
      ProgressStart(h, pos, length);
      while |data| < length && pos + |data| < h.size
        invariant Serves() && Below() == old(Below()) && Undisturbed(h, s, S(), readonly)
        invariant |data| <= length && Progress(h, pos, length, |data|, k)
        invariant ReadsAs(h, s, Below(), pos, data)
      {
        ProgressStep(h, pos, length, |data|, k);
        data := ReadChunk(pos, length, data, s);
        k := k + 1;
      }
      ProgressEnd(h, pos, length, |data|, k);
    }

    /** One turn of the loop of a read. */
    method ReadChunk(pos: nat, length: nat, data: seq<Byte>, ghost s: Img) returns (more: seq<Byte>)
      requires Serves() && |data| < length && pos + |data| < h.size
      requires Holds(ServesReads(h, s, readonly)) && Undisturbed(h, s, S(), readonly) && ChainValid(Below()) && ReadsAs(h, s, Below(), pos, data)
      modifies Repr
      ensures Serves() && Below() == old(Below()) && ChainValid(Below()) && Undisturbed(h, s, S(), readonly)
      ensures |more| == |data| + ChunkLength(h, pos + |data|, length - |data|) && ReadsAs(h, s, Below(), pos, more)
    {
      ghost var t := S();
      var r := ReadCluster(pos + |data|, length - |data|, false);
      UndisturbedTransitive(h, s, t, S(), readonly);
      ChunkRead(h, s, S(), readonly, Below(), pos + |data|, length - |data|, r.value);
      ReadOn(h, s, Below(), pos, data, r.value);
      more := data + r.value;
    }

    /** BlockIo of a write; `n` bytes were written whatever the result. */
    method BlockWrite(pos: nat, buffer: seq<Byte>) returns (r: IoResult, ghost n: nat, ghost cost: nat)
      requires Serves() && !readonly
      modifies Repr
      ensures Chained() && CachesValid() && BelowServes() && Below() == old(Below()) && n <= |buffer|
      ensures r.Bytes? ==> r.n == n == Moved(h, pos, |buffer|) && cost == 4 * Chunks(h, pos, |buffer|)
      ensures r.Bytes? || r.Failed? ==> Serves() && Performed(Writes(h, old(S()), S(), Below(), pos, buffer[..n], cost))
      ensures View(h, old(S())).room >= 4 * Chunks(h, pos, |buffer|) ==> r.Bytes?
      ensures r.Bytes? <==> Affords(h, old(S()), Clusters(h, pos, Moved(h, pos, |buffer|)))
      ensures if r.Bytes? then Supplied(h, old(S()), S(), Clusters(h, pos, n)) else StopsAt(h, old(S()), pos, |buffer|, n)
      ensures AllHad(h, old(S()), pos, Moved(h, pos, |buffer|)) ==> r.Bytes?
    {
      ghost var s := S();
      ChainIsValid();
      WriteStarts(h, s, Below(), pos);
      SupplyStarts(h, s, pos);
      CoveredRangeIsFree(h, s, pos, Moved(h, pos, |buffer|));
      var offset := 0;
      ghost var k := 0;
      ProgressStart(h, pos, |buffer|);
      while offset < |buffer| && pos + offset < h.size
        invariant Serves() && Below() == old(Below()) && offset <= |buffer|
        invariant Progress(h, pos, |buffer|, offset, k)
        invariant Performed(Writes(h, s, S(), Below(), pos, buffer[..offset], 4 * k))
        invariant Supplied(h, s, S(), Clusters(h, pos, offset))
      {
        var more := WriteTurn(pos, buffer, offset, k, s);
        if !more.Bytes? {
          return more, offset, 4 * k + 2;
        }
        offset := offset + more.n;
        k := k + 1;
      }
      ProgressEnd(h, pos, |buffer|, offset, k);
      SuppliedWasAfforded(h, s, S(), Clusters(h, pos, offset));
      return Bytes(offset), offset, 4 * k;
    }

    /** One turn of the loop of a write. */
    method WriteTurn(pos: nat, buffer: seq<Byte>, offset: nat, ghost k: nat, ghost s: Img) returns (r: IoResult)
      requires Serves() && !readonly && offset < |buffer| && pos + offset < h.size && Progress(h, pos, |buffer|, offset, k)
      requires Performed(Writes(h, s, S(), Below(), pos, buffer[..offset], 4 * k)) && Supplied(h, s, S(), Clusters(h, pos, offset))
      modifies Repr
      ensures Chained() && CachesValid() && BelowServes() && Below() == old(Below())
      ensures r.Bytes? ==> 0 < r.n <= |buffer| - offset && Progress(h, pos, |buffer|, offset + r.n, k + 1)
      ensures r.Bytes? ==> Serves() && Performed(Writes(h, s, S(), Below(), pos, buffer[..offset + r.n], 4 * (k + 1)))
      ensures r.Failed? ==> Serves() && Performed(Writes(h, s, S(), Below(), pos, buffer[..offset], 4 * k + 2))
      ensures View(h, s).room >= 4 * Chunks(h, pos, |buffer|) ==> r.Bytes?
      ensures r.Bytes? ==> Supplied(h, s, S(), Clusters(h, pos, offset + r.n))
      ensures !r.Bytes? ==> StopsAt(h, s, pos, |buffer|, offset) && !Affords(h, s, Clusters(h, pos, Moved(h, pos, |buffer|)))
    {
      ghost var t, n := S(), ChunkLength(h, pos + offset, |buffer| - offset);
      WriteFacts(h, s, S(), Below(), pos, buffer[..offset], 4 * k);
      ProgressStep(h, pos, |buffer|, offset, k);
      ProgressIsMoved(h, pos, |buffer|, offset + n, k + 1);
      r := WriteChunk(pos, buffer, offset, k, s);
      if !r.Bytes? {
        SupplyEnds(h, s, t, pos, |buffer|, offset);
      }
    }

    /** The transfer of one chunk in that turn. */
    method WriteChunk(pos: nat, buffer: seq<Byte>, offset: nat, ghost k: nat, ghost s: Img) returns (r: IoResult)
      requires Serves() && !readonly && offset < |buffer| && pos + offset < h.size
      requires Performed(Writes(h, s, S(), Below(), pos, buffer[..offset], 4 * k)) && Supplied(h, s, S(), Clusters(h, pos, offset))
      modifies Repr
      ensures Chained() && CachesValid() && BelowServes() && Below() == old(Below())
      ensures r.Bytes? ==> 0 < r.n == ChunkLength(h, pos + offset, |buffer| - offset)
      ensures r.Bytes? ==> Serves() && Performed(Writes(h, s, S(), Below(), pos, buffer[..offset + r.n], 4 * (k + 1)))
      ensures r.Failed? ==> Serves() && Performed(Writes(h, s, S(), Below(), pos, buffer[..offset], 4 * k + 2))
      ensures View(h, old(S())).room >= 4 ==> r.Bytes?
      ensures r.Bytes? ==> Supplied(h, s, S(), Clusters(h, pos, offset + r.n))
      ensures r == Fate(h, old(S()), Quot(pos + offset, h.clusterSize), ChunkLength(h, pos + offset, |buffer| - offset))
    {
      ghost var t := S();
      ChainIsValid();
      NextChunk(h, pos + offset, |buffer| - offset);
      ghost var stale;
      r, stale := WriteCluster(pos + offset, buffer[offset..]);
      if r.Bytes? {
        ChunkGoesOn(h, s, t, S(), Below(), pos, buffer, offset, r.n, stale, k);
      } else if r.Failed? {
        ChunkStops(h, s, t, S(), Below(), pos, buffer[..offset], 4 * k, Quot(Quot(pos + offset, h.clusterSize), h.l2Entries));
      }
    }

    /** BlockIo of a discard. */
    method BlockDiscard(pos: nat, length: nat) returns (n: nat)
      requires Serves() && !readonly
      modifies this, l2Cache, rfbCache
      ensures Serves() && Below() == old(Below()) && n == Moved(h, pos, length)
      ensures Performed(Discards(h, old(S()), S(), Below(), pos, n))
    {
      ghost var s := S();
      ChainIsValid();
      DiscardStarts(h, s, Below(), pos);
      n := 0;
      ghost var k := 0;
      ProgressStart(h, pos, length);
      while n < length && pos + n < h.size
        invariant Serves() && Below() == old(Below()) && n <= length
        invariant Progress(h, pos, length, n, k)
        invariant Performed(Discards(h, s, S(), Below(), pos, n))
      {
        ProgressStep(h, pos, length, n, k);
        n := DiscardChunk(pos, length, n, s);
        k := k + 1;
      }
      ProgressEnd(h, pos, length, n, k);
    }

    /** One turn of the loop of a discard. */
    method DiscardChunk(pos: nat, length: nat, n: nat, ghost s: Img) returns (more: nat)
      requires Serves() && !readonly && n < length && pos + n < h.size && (n == 0 || Rem(pos + n, h.clusterSize) == 0)
      requires Performed(Discards(h, s, S(), Below(), pos, n))
      modifies this, l2Cache, rfbCache
      ensures Serves() && Below() == old(Below()) && more == n + ChunkLength(h, pos + n, length - n)
      ensures Performed(Discards(h, s, S(), Below(), pos, more))
    {
      ghost var t := S();
      var m := DiscardCluster(pos + n, length - n);
      DiscardGoesOn(h, s, t, S(), Below(), pos, n, m);
      more := n + m;
      DiscardFacts(h, s, S(), Below(), pos, more);
    }

    /** HandleIoRequest of a read into buffers of the given lengths. */
    method HandleRead(pos: nat, lengths: seq<nat>) returns (r: nat, buffers: seq<seq<Byte>>)
      requires Serves()
      modifies Repr
      ensures Serves() && Below() == old(Below()) && ChainValid(Below()) && Undisturbed(h, old(S()), S(), readonly)
      ensures ReadsAs(h, old(S()), Below(), pos, Concat(buffers)) && (r == 0 || r == |Concat(buffers)|)
      ensures InsideLengths(h, pos, lengths) ==> Filled(buffers, lengths) && r == Sum(lengths) && |buffers| == |lengths|
    {
      ghost var s := S();
      ChainIsValid();
      ReadableFacts(h, s, readonly);
      r, buffers := 0, [];
      var i := 0;
      while i < |lengths|
        invariant i <= |lengths| && Serves() && Below() == old(Below()) && Undisturbed(h, s, S(), readonly)
        invariant r == |Concat(buffers)| && ReadsAs(h, s, Below(), pos, Concat(buffers))
        invariant InsideLengths(h, pos, lengths) ==> |buffers| == i && Filled(buffers, lengths) && r == Sum(lengths[..i])
      {
        var data := ReadBuffer(pos, lengths[i], buffers, s);
        BufferFilled(h, pos, lengths, i, buffers, data);
        buffers := buffers + [data];
        if |data| == 0 {
          return 0, buffers;
        }
        r := r + |data|;
        i := i + 1;
      }
      assert lengths[..i] == lengths;
    }

    /** One turn of that loop. */
    method ReadBuffer(pos: nat, length: nat, buffers: seq<seq<Byte>>, ghost s: Img) returns (data: seq<Byte>)
      requires Serves() && ChainValid(Below()) && Holds(ServesReads(h, s, readonly)) && Undisturbed(h, s, S(), readonly)
      requires ReadsAs(h, s, Below(), pos, Concat(buffers))
      modifies Repr
      ensures Serves() && Below() == old(Below()) && ChainValid(Below()) && Undisturbed(h, s, S(), readonly)
      ensures |data| == Moved(h, pos + |Concat(buffers)|, length)
      ensures Concat(buffers + [data]) == Concat(buffers) + data && ReadsAs(h, s, Below(), pos, Concat(buffers + [data]))
    {
      ghost var t := S();
      data := BlockRead(pos + |Concat(buffers)|, length);
      BufferRead(h, s, t, S(), readonly, Below(), pos, buffers, data);
    }

    /** HandleIoRequest of a write: the buffers of `vector` one after the other. `done` is what was
        written; the result is its length, unless a buffer moved nothing and ended the request. */
    method HandleWrite(pos: nat, vector: seq<seq<Byte>>) returns (r: IoResult, ghost done: seq<Byte>, ghost cost: nat)
      requires Serves() && !readonly
      modifies Repr
      ensures Chained() && CachesValid() && BelowServes() && Below() == old(Below()) && done <= Concat(vector)
      ensures r.Bytes? || r.Failed? ==> Serves() && Performed(Writes(h, old(S()), S(), Below(), pos, done, cost))
      ensures r.Bytes? && r.n > 0 ==> r.n == |done|
      ensures Inside(h, pos, vector) && r.Bytes? ==> r.n == |done| && done == Concat(vector)
      ensures Inside(h, pos, vector) && View(h, old(S())).room >= 4 * VectorChunks(h, pos, vector) ==> r.Bytes?
      ensures Affords(h, old(S()), Clusters(h, pos, |Concat(vector)|)) ==> r.Bytes?
      ensures Inside(h, pos, vector) && r.Bytes? ==> Affords(h, old(S()), Clusters(h, pos, |Concat(vector)|))
      ensures AllHad(h, old(S()), pos, |Concat(vector)|) ==> r.Bytes?
    {
      ghost var s := S();
      ChainIsValid();
      WriteStarts(h, s, Below(), pos);
      SentNothing(h, pos, vector);
      SupplyStarts(h, s, pos);
      CoveredRangeIsFree(h, s, pos, |Concat(vector)|);
      r, done := Bytes(0), [];
      var i := 0;
      ghost var k := 0;
      while i < |vector|
        invariant i <= |vector| && Serves() && Below() == old(Below()) && r == Bytes(|done|)
        invariant Performed(Writes(h, s, S(), Below(), pos, done, 4 * k)) && Sent(h, pos, vector, i, done, k)
        invariant Supplied(h, s, S(), Clusters(h, pos, |done|))
      {
        var n;
        n, done, cost, k := WriteBuffer(pos, vector, i, r.n, done, k, s);
        if !n.Bytes? || n.n == 0 {
          return n, done, cost;
        }
        r := Bytes(r.n + n.n);
        i := i + 1;
      }
      SentAll(h, pos, vector, done, k);
      SuppliedWasAfforded(h, s, S(), Clusters(h, pos, |done|));
      cost := 4 * k;
    }

    /** One turn of that loop. */
    method WriteBuffer(pos: nat, vector: seq<seq<Byte>>, i: nat, total: nat, ghost done: seq<Byte>, ghost k: nat, ghost s: Img)
      returns (r: IoResult, ghost all: seq<Byte>, ghost cost: nat, ghost k': nat)
      requires Serves() && !readonly && i < |vector| && Performed(Writes(h, s, S(), Below(), pos, done, 4 * k))
      requires total == |done| && Sent(h, pos, vector, i, done, k) && Supplied(h, s, S(), Clusters(h, pos, |done|))
      modifies Repr
      ensures Chained() && CachesValid() && BelowServes() && Below() == old(Below()) && all <= Concat(vector)
      ensures r.Bytes? || r.Failed? ==> Serves() && Performed(Writes(h, s, S(), Below(), pos, all, cost))
      ensures r.Bytes? ==> Sent(h, pos, vector, i + 1, all, k') && |all| == |done| + r.n && cost == 4 * k'
      ensures Inside(h, pos, vector) && r.Bytes? ==> r.n > 0
      ensures Inside(h, pos, vector) && View(h, s).room >= 4 * VectorChunks(h, pos, vector) ==> r.Bytes?
      ensures if r.Bytes? then Supplied(h, s, S(), Clusters(h, pos, |all|)) else !Affords(h, s, Clusters(h, pos, |Concat(vector)|))
    {
      ghost var t := S();
      WriteFacts(h, s, t, Below(), pos, done, 4 * k);
      ghost var m, c;
      SentSoFar(h, pos, vector, i, done, k);
      r, m, c := BlockWrite(pos + total, vector[i]);
      all, cost, k' := done + vector[i][..m], 4 * k + c, k + Chunks(h, pos + |done|, |vector[i]|);
      if r.Bytes? {
        BufferWritten(h, s, t, S(), pos, vector, i, done, m, k);
      } else {
        BufferTooMany(h, s, t, pos, vector, i, done, k);
        SentPart(h, pos, vector, i, done, m, k);
      }
      if r.Bytes? || r.Failed? {
        BufferJoins(h, s, t, S(), Below(), pos, done, vector[i][..m], 4 * k, c);
      }
    }

    // -------------------------------------------------------------- flushing

    method FlushL2Tables(ghost s: Img)
      requires CachesValid() && Flushing(h, s, S())
      modifies this`file, l2Cache
      ensures CachesValid() && Flushing(h, s, S()) && CleanBut(l2Cache.pairs, {})
    {
      var todo := l2Cache.pairs.Keys;
      while todo != {}
        invariant CachesValid() && Flushing(h, s, S()) && todo <= l2Cache.pairs.Keys && CleanBut(l2Cache.pairs, todo)
        decreases |todo|
      {
        var k :| k in todo;
        if l2Cache.pairs[k].dirty {
          ghost var t := S();
          FlushesL2(h, s, t, k);
          WriteTable(k, l2Cache.pairs[k], Bits64);
          l2Cache.Update(k, Table(false, l2Cache.pairs[k].entries));
          assert S() == CleanL2(h, t, k);
        }
        todo := todo - {k};
      }
    }

    method FlushRefcountBlocks(ghost s: Img)
      requires CachesValid() && Flushing(h, s, S())
      modifies this`file, rfbCache
      ensures CachesValid() && Flushing(h, s, S()) && CleanBut(rfbCache.pairs, {})
    {
      var todo := rfbCache.pairs.Keys;
      while todo != {}
        invariant CachesValid() && Flushing(h, s, S()) && todo <= rfbCache.pairs.Keys && CleanBut(rfbCache.pairs, todo)
        decreases |todo|
      {
        var k :| k in todo;
        if rfbCache.pairs[k].dirty {
          ghost var t := S();
          FlushesBlock(h, s, t, k);
          WriteTable(k, rfbCache.pairs[k], Bits16);
          rfbCache.Update(k, Table(false, rfbCache.pairs[k].entries));
          assert S() == CleanBlock(h, t, k);
        }
        todo := todo - {k};
      }
    }

    /** Writes every dirty table back; afterwards the file alone carries the image. */
    method FlushAll()
      requires Serves()
      modifies this, l2Cache, rfbCache
      ensures Serves() && Below() == old(Below())
      ensures readonly ==> S() == old(S())
      ensures !readonly ==> Flushing(h, old(S()), S()) && AllClean(S())
    {
      if readonly {
        return;
      }
      ghost var s := S();
      FlushStarts(h, s);
      FlushL2Tables(s);
      FlushRefcountBlocks(s);
      FlushRoots(s);
      FlushIsIdle(h, s, S());
    }

    /** l2_cache_.Clear with its callback. */
    method ClearL2Tables(ghost s: Img)
      requires CachesValid() && Flushing(h, s, S())
      modifies this`file, l2Cache
      ensures CachesValid() && Flushing(h, s, S()) && l2Cache.pairs == map[]
    {
      var front := l2Cache.Front();
      while front.Some?
        invariant CachesValid() && Flushing(h, s, S())
        invariant if front == None then l2Cache.pairs == map[] else front.value in l2Cache.pairs
        decreases |l2Cache.lru|, front.Some?
      {
        ghost var t := S();
        FlushEvictsL2(h, s, t, front.value);
        var gone := l2Cache.Remove(front.value);
        if gone.value.1.dirty {
          WriteTable(front.value, gone.value.1, Bits64);
        }
        assert S() == EvictL2(h, t, front.value);
        front := l2Cache.Front();
      }
    }

    /** rfb_cache_.Clear with its callback. */
    method ClearRefcountBlocks(ghost s: Img)
      requires CachesValid() && Flushing(h, s, S())
      modifies this`file, rfbCache
      ensures CachesValid() && Flushing(h, s, S()) && rfbCache.pairs == map[]
    {
      var front := rfbCache.Front();
      while front.Some?
        invariant CachesValid() && Flushing(h, s, S())
        invariant if front == None then rfbCache.pairs == map[] else front.value in rfbCache.pairs
        decreases |rfbCache.lru|, front.Some?
      {
        ghost var t := S();
        FlushEvictsBlock(h, s, t, front.value);
        var gone := rfbCache.Remove(front.value);
        if gone.value.1.dirty {
          WriteTable(front.value, gone.value.1, Bits16);
        }
        assert S() == EvictBlock(h, t, front.value);
        front := rfbCache.Front();
      }
    }

    /** Closing a writable image: both caches emptied through their callbacks, then the root tables. */
    method ReleaseImage()
      requires Serves() && !readonly
      modifies this, l2Cache, rfbCache
      ensures Serves() && Below() == old(Below()) && S().l2Cache == S().blockCache == map[]
      ensures Flushing(h, old(S()), S()) && AllClean(S())
    {
      ghost var s := S();
      FlushStarts(h, s);
      ClearL2Tables(s);
      ClearRefcountBlocks(s);
      FlushRoots(s);
      FlushIsIdle(h, s, S());
    }

    /** The L1 table and the refcount table. */
    method FlushRoots(ghost s: Img)
      requires CachesValid() && Flushing(h, s, S())
      modifies this`file, this`l1TableDirty, this`refcountTableDirty
      ensures Flushing(h, s, S()) && !l1TableDirty && !refcountTableDirty
    {
      if l1TableDirty {
        FlushesL1(h, s, S());
        file, l1TableDirty := StoreRoot(h, file, h.l1Cluster, l1Table), false;
      }
      if refcountTableDirty {
        FlushesRefTable(h, s, S());
        file, refcountTableDirty := StoreRoot(h, file, h.refTableCluster, refcountTable), false;
      }
    }
  }

  lemma Overwrite(m: Cache, k: nat, a: Table, b: Table)
    ensures m[k := a][k := b] == m[k := b]
  {
  }
}
