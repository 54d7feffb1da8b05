/** Freeing a cluster and discarding a guest cluster, on snapshots of an image. */
module Qcow2Discard {
  import opened Common
  import opened HostFile
  import opened Qcow2Layout
  import opened Qcow2Meta
  import opened Qcow2State
  import opened Qcow2Steps
  import opened Qcow2Disk
  import opened Qcow2Search
  import opened Qcow2Guest

  /** One less, in 16 bits. */
  function Less16(x: nat): (r: nat)
    ensures x < 0x1_0000 ==> r == (x + 0xFFFF) % 0x1_0000
  {
    if x == 0 then 0xFFFF else x - 1
  }

  /** `s`, with the block of `c` cached, after FreeCluster took one from the refcount of `c`. */
  ghost function WithFreed(h: Header, s: Img, c: nat): Img
    requires h.Valid() && BlockCached(h, s, c) && |s.blockCache[BlockOf(h, s, c)].entries| == h.blockEntries
  {
    var left := Less16(s.blockCache[BlockOf(h, s, c)].entries[Rem(c, h.blockEntries)]);
    WithCount(h, s, c, left).(free := if left == 0 && c < s.free then c else s.free)
  }

  /** `t` after FreeCluster of `c` in `s`; `u` is the image in between, with the block loaded. */
  ghost predicate FreedFrom(h: Header, s: Img, u: Img, t: Img, c: nat) {
    && Good(h, s, {}) && Found(h, s, u) && BlockCached(h, u, c)
    && |u.blockCache[BlockOf(h, u, c)].entries| == h.blockEntries
    && t == WithFreed(h, u, c)
  }

  /** `t` after a discard that reached guest cluster `g` of `s`; `whole` when it covers the cluster. */
  ghost predicate Discarded(h: Header, s: Img, t: Img, below: seq<Layer>, g: nat, whole: bool) {
    && h.Valid() && ChainValid(below) && Holds(InOrder(h, s)) && Holds(Idle(h, t))
    && (forall g': nat :: View(h, t).data(g') == if whole && g' == g then 0 else View(h, s).data(g'))
    && (forall g': nat, o: nat :: g' != g || !whole ==> GuestByte(h, t, below, g', o) == GuestByte(h, s, below, g', o))
    && (whole ==> forall o: nat :: GuestByte(h, t, below, g, o) == ChainByte(below, g, o))
    && (forall c: nat :: View(h, t).count(c) ==
          if whole && c != 0 && c == View(h, s).data(g) then 0 else View(h, s).count(c))
    && (forall c: nat :: View(h, t).inUse(c) <==>
          View(h, s).inUse(c) && !(whole && c != 0 && c == View(h, s).data(g)))
    && (forall c: nat :: View(h, t).table(c) <==> View(h, s).table(c))
    && (forall c: nat, o: nat :: !View(h, s).table(c) ==> t.file(c, o) == s.file(c, o))
  }

  datatype Act =
    | Freed(h: Header, s: Img, u: Img, t: Img, c: nat)
    | Dropped(h: Header, s: Img, t: Img, below: seq<Layer>, g: nat, whole: bool)

  ghost predicate ActMeaning(x: Act) {
    match x
    case Freed(h, s, u, t, c) => FreedFrom(h, s, u, t, c)
    case Dropped(h, s, t, below, g, whole) => Discarded(h, s, t, below, g, whole)
  }

  /** Folded like the claims. */
  ghost predicate Happened(x: Act, veil: Veil := VEIL) {
    match veil
    case Bare => ActMeaning(x) == true
    case Fold(inner) => Happened(x, inner)
  }

  lemma {:induction false} OpenAct(x: Act, veil: Veil := VEIL)
    ensures Happened(x, veil) <==> ActMeaning(x)
  {
    if veil.Fold? {
      OpenAct(x, veil.inner);
    }
  }

  /** What FreeCluster finds. */
  lemma FreeFacts(h: Header, s: Img, u: Img, c: nat, rfb: Option<nat>)
    requires Holds(InOrder(h, s)) && Holds(Located(h, s, u, c, false, rfb))
    ensures h.Valid() && Shape(h, Abs(h, s)) && (rfb.Some? <==> HasBlock(h, Abs(h, s), c))
    ensures rfb.Some? ==> BlockCached(h, u, c) && BlockOf(h, u, c) == rfb.value
    ensures rfb.Some? ==> |u.blockCache[rfb.value].entries| == h.blockEntries
    ensures rfb.Some? ==> Happened(Freed(h, s, u, WithFreed(h, u, c), c))
  {
    OpenClaim(InOrder(h, s));
    OpenClaim(Located(h, s, u, c, false, rfb));
    if rfb.Some? {
      AtBlockFacts(h, u, c, rfb.value);
      OpenAct(Freed(h, s, u, WithFreed(h, u, c), c));
    }
  }

  lemma IdleIsInOrder(h: Header, s: Img)
    requires Holds(Idle(h, s))
    ensures Holds(InOrder(h, s))
  {
    OpenClaim(Idle(h, s));
    CloseClaim(InOrder(h, s));
  }

  /** The cluster of a nonzero entry has a refcount block. */
  lemma DataHasBlock(h: Header, s: Img, g: nat, e: nat)
    requires Holds(Idle(h, s)) && h.Valid() && e == GuestEntry(h, s, g) != 0 && Quot(g, h.l2Entries) < h.l1Size
    ensures !IsCompressed(e) && Descriptor(e) % 2 == 0 && StandardOffset(Descriptor(e)) != 0
    ensures Shape(h, Abs(h, s)) && DataOf(h, Abs(h, s), g) == DataCluster(h, e) != 0
    ensures HasBlock(h, Abs(h, s), DataCluster(h, e))
  {
    OpenClaim(Idle(h, s));
    OpenGood(h, s, {});
    var m := Abs(h, s);
    RawEntryIsEntry(h, s, {}, Quot(g, h.l2Entries), Rem(g, h.l2Entries));
    var c := DataOf(h, m, g);
    EntryRoundTrip(h, c);
    DataIsNoTable(h, m, Quot(g, h.l2Entries), Rem(g, h.l2Entries));
    assert Refcount(h, m, c) == 1;
  }

  /** Nothing to discard: the cluster is covered in part, or the image does not have it. */
  lemma DroppedNothing(h: Header, s: Img, t: Img, below: seq<Layer>, g: nat, whole: bool)
    requires Holds(Calm(h, s, t)) && Holds(Idle(h, t)) && ChainValid(below)
    requires h.Valid() && whole ==> GuestEntry(h, t, g) == 0
    ensures Happened(Dropped(h, s, t, below, g, whole))
  {
    OpenClaim(Calm(h, s, t));
    OpenClaim(Idle(h, t));
    Settled(h, s, t);
    ViewIs(h, s);
    ViewIs(h, t);
    forall g': nat, o: nat
      ensures GuestByte(h, t, below, g', o) == GuestByte(h, s, below, g', o)
    {
      SameLogicalSameGuest(h, s, t, {}, below, g', o);
    }
    if whole {
      NoEntryNoData(h, t, g);
      forall o: nat
        ensures GuestByte(h, t, below, g, o) == ChainByte(below, g, o)
      {
        OpenGuestByte(h, t, below, g, o);
      }
    }
    OpenAct(Dropped(h, s, t, below, g, whole));
  }

  lemma NoEntryNoData(h: Header, s: Img, g: nat)
    requires Good(h, s, {}) && GuestEntry(h, s, g) == 0
    ensures DataOf(h, Abs(h, s), g) == 0
  {
    GuestBytePlain(h, s, {}, [], g, 0);
    if DataOf(h, Abs(h, s), g) != 0 {
      EntryRoundTrip(h, DataOf(h, Abs(h, s), g));
    }
  }

  /** Refcount taken back and entry cleared, in the tables as cached. */
  lemma DropAbs(h: Header, u: Img, g: nat, c: nat)
    requires Sane(h, u, {}) && BlockCached(h, u, c) && L2Cached(h, u, Quot(g, h.l2Entries))
    requires DataOf(h, Abs(h, u), g) == c != 0
    requires |u.blockCache[BlockOf(h, u, c)].entries| == h.blockEntries
    ensures HasBlock(h, Abs(h, u), c) && Shape(h, SetRefcount(h, Abs(h, u), c, 0))
    ensures var i, j := Quot(g, h.l2Entries), Rem(g, h.l2Entries);
      var v := WithFreed(h, u, c);
      && L2Cached(h, v, i) && |v.l2Cache[L2Cluster(h, v.l1[i])].entries| == h.l2Entries && Abs(h, u).l1[i] != 0
      && var t := WithEntry(h, v, i, j, 0);
      && Abs(h, t) == SetEntry(h, SetRefcount(h, Abs(h, u), c, 0), i, j, 0)
      && CachesCoherent(h, t) && RootsCoherent(h, t) && Plain(h, t)
      && v.free == if c < u.free then c else u.free
  {
    var i, j := Quot(g, h.l2Entries), Rem(g, h.l2Entries);
    var m := Abs(h, u);
    BlockCachedFacts(h, u, {}, c);
    L2CachedFacts(h, u, {}, i);
    DropDataKeepsConsistent(h, m, {}, i, j);
    WithCountAbs(h, u, c, 0);
    WithCountCoherent(h, u, c, 0);
    var v := WithFreed(h, u, c);
    AbsSame(h, WithCount(h, u, c, 0), v);
    WithEntryAbs(h, v, i, j, 0);
    WithEntryCoherent(h, v, i, j, 0);
  }

  /** Guest cluster `g` lost its data cluster `c`; nothing else changed. */
  ghost predicate DroppedMeta(h: Header, m: Meta, n: Meta, g: nat, c: nat)
    requires Shape(h, m) && Shape(h, n)
  {
    && (forall d: nat :: Refcount(h, n, d) == if d == c then 0 else Refcount(h, m, d))
    && (forall d: nat :: Owned(h, n, d) <==> Owned(h, m, d) && d != c)
    && (forall g': nat :: DataOf(h, n, g') == if g' == g then 0 else DataOf(h, m, g'))
    && (forall d: nat :: IsTable(n, d) <==> IsTable(m, d))
  }

  lemma DropMeta(h: Header, m: Meta, g: nat, c: nat)
    requires Consistent(h, m, {}) && DataOf(h, m, g) == c != 0
    ensures HasBlock(h, m, c) && Shape(h, SetRefcount(h, m, c, 0))
    ensures Quot(g, h.l2Entries) < |m.l1| && m.l1[Quot(g, h.l2Entries)] != 0
    ensures var n := SetEntry(h, SetRefcount(h, m, c, 0), Quot(g, h.l2Entries), Rem(g, h.l2Entries), 0);
      && Consistent(h, n, {}) && DroppedMeta(h, m, n, g, c) && (InBounds(h, m) ==> InBounds(h, n))
  {
    var i, j := Quot(g, h.l2Entries), Rem(g, h.l2Entries);
    DropDataKeepsConsistent(h, m, {}, i, j);
    var k := SetRefcount(h, m, c, 0);
    var n := SetEntry(h, k, i, j, 0);
    RemoveOwner(h, m, n, Data(i, j), c);
    SamePlaces(h, m, k);
    SetEntryShows(h, k, g, 0);
    assert forall g': nat :: DataOf(h, k, g') == DataOf(h, m, g');
    assert m.refTable[Quot(c, h.blockEntries)] in Used(m.refTable);
    assert k.blocks.Keys == m.blocks.Keys;
  }

  /** The image in the middle of a discard is `v`: refcount taken back, entry not yet cleared. */
  ghost predicate Clears(h: Header, v: Img, t: Img, g: nat)
    requires h.Valid()
  {
    && L2Cached(h, v, Quot(g, h.l2Entries))
    && |v.l2Cache[L2Cluster(h, v.l1[Quot(g, h.l2Entries)])].entries| == h.l2Entries
    && t == WithEntry(h, v, Quot(g, h.l2Entries), Rem(g, h.l2Entries), 0)
  }

  /** The whole discard keeps the invariant and has exactly its effect on the metadata. */
  lemma DropKeeps(h: Header, u: Img, t: Img, g: nat, c: nat)
    requires Good(h, u, {}) && BlockCached(h, u, c) && L2Cached(h, u, Quot(g, h.l2Entries))
    requires DataOf(h, Abs(h, u), g) == c != 0
    requires |u.blockCache[BlockOf(h, u, c)].entries| == h.blockEntries && Clears(h, WithFreed(h, u, c), t, g)
    ensures Good(h, t, {}) && t.file == u.file && DroppedMeta(h, Abs(h, u), Abs(h, t), g, c)
    ensures t.free == if c < u.free then c else u.free
  {
    OpenGood(h, u, {});
    DropAbs(h, u, g, c);
    DropMeta(h, Abs(h, u), g, c);
    CloseGood(h, t, {});
  }

  lemma DropScanned(h: Header, m: Meta, n: Meta, g: nat, c: nat, free: nat)
    requires Shape(h, m) && Shape(h, n) && DroppedMeta(h, m, n, g, c) && ScannedBelow(h, m, free)
    ensures ScannedBelow(h, n, if c < free then c else free)
  {
  }

  lemma DropShows(h: Header, s: Img, u: Img, t: Img, below: seq<Layer>, g: nat, c: nat, g': nat, o: nat)
    requires Good(h, s, {}) && Good(h, u, {}) && SameLogical(h, s, u) && Good(h, t, {}) && ChainValid(below)
    requires t.file == u.file && DroppedMeta(h, Abs(h, u), Abs(h, t), g, c)
    ensures GuestByte(h, t, below, g', o) == if g' == g then ChainByte(below, g, o) else GuestByte(h, s, below, g', o)
  {
    GuestBytePlain(h, t, {}, below, g', o);
    GuestBytePlain(h, u, {}, below, g', o);
    SameLogicalSameGuest(h, s, u, {}, below, g', o);
  }

  lemma DropIsDiscard(h: Header, s: Img, u: Img, t: Img, below: seq<Layer>, g: nat, c: nat)
    requires Good(h, s, {}) && Good(h, u, {}) && SameLogical(h, s, u) && Good(h, t, {}) && ChainValid(below)
    requires t.file == u.file && DroppedMeta(h, Abs(h, u), Abs(h, t), g, c) && Scanned(h, t)
    requires DataOf(h, Abs(h, u), g) == c != 0
    ensures Discarded(h, s, t, below, g, true)
  {
    Settled(h, s, t);
    ViewIs(h, s);
    ViewIs(h, t);
    forall g': nat, o: nat
      ensures GuestByte(h, t, below, g', o) == if g' == g then ChainByte(below, g, o) else GuestByte(h, s, below, g', o)
    {
      DropShows(h, s, u, t, below, g, c, g', o);
    }
  }

  lemma DroppedCluster(h: Header, s: Img, r: Img, u: Img, v: Img, t: Img, below: seq<Layer>, g: nat, c: nat)
    requires Holds(Calm(h, s, r)) && Holds(Idle(h, r)) && ChainValid(below) && Happened(Freed(h, r, u, v, c))
    requires h.Valid() && L2Cached(h, r, Quot(g, h.l2Entries)) && Shape(h, Abs(h, r)) && DataOf(h, Abs(h, r), g) == c != 0
    requires Clears(h, v, t, g)
    ensures Happened(Dropped(h, s, t, below, g, true))
  {
    OpenClaim(Calm(h, s, r));
    OpenClaim(Idle(h, r));
    OpenAct(Freed(h, r, u, v, c));
    SameLogicalTransitive(h, s, r, u);
    DropKeeps(h, u, t, g, c);
    DropScanned(h, Abs(h, u), Abs(h, t), g, c, u.free);
    DropIsDiscard(h, s, u, t, below, g, c);
    OpenAct(Dropped(h, s, t, below, g, true));
  }

  /** Freeing leaves the L2 side alone. */
  lemma FreedFrame(h: Header, r: Img, u: Img, v: Img, c: nat)
    requires Happened(Freed(h, r, u, v, c))
    ensures v.l1 == r.l1 && v.l2Cache == r.l2Cache
  {
    OpenAct(Freed(h, r, u, v, c));
  }

  lemma CachedTableSize(h: Header, s: Img, i: nat)
    requires Holds(Idle(h, s)) && h.Valid() && L2Cached(h, s, i)
    ensures |s.l2Cache[L2Cluster(h, s.l1[i])].entries| == h.l2Entries
  {
    OpenClaim(Idle(h, s));
    OpenGood(h, s, {});
  }
}
