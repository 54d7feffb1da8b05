/** How the steps of an operation change what the guest reads. */
module Qcow2Guest {
  import opened Common
  import opened HostFile
  import opened Qcow2Layout
  import opened Qcow2Meta
  import opened Qcow2State
  import opened Qcow2Steps
  import opened Qcow2Disk
  import opened Qcow2Search

  /** Every host cluster not in use reads as zero. */
  ghost predicate FreeIsZero(h: Header, s: Img)
    requires h.Valid() && Shape(h, Abs(h, s))
  {
    forall c: nat, o: nat :: !Owned(h, Abs(h, s), c) ==> s.file(c, o) == 0
  }

  /** What can be said of an image from outside: data cluster of a guest cluster, number of free
      clusters within reach of WriteFile, whether free clusters are zero, refcounts, ownership, and
      which clusters hold L2 tables and refcount blocks; the cluster the next allocation takes, and the
      one that data under an L1 entry gets when first written; which L1 entries have a table, and whether
      so many allocations in a row would find clusters within reach of WriteFile. */
  datatype Sight = Sight(data: nat -> nat, room: nat, clear: bool, count: nat -> nat, inUse: nat -> bool, table: nat -> bool,
                         take: nat, under: nat -> nat, tabled: nat -> bool, supply: nat -> bool)

  ghost function Sees(h: Header, s: Img): Sight {
    if h.Valid() && Shape(h, Abs(h, s)) then
      Sight(g => DataOf(h, Abs(h, s), g), |Room(h, Abs(h, s))|, FreeIsZero(h, s),
            c => Refcount(h, Abs(h, s), c), (c: nat) => Owned(h, Abs(h, s), c), (c: nat) => IsTable(Abs(h, s), c),
            NextTake(h, Abs(h, s)), i => NextUnder(h, Abs(h, s), i),
            (i: nat) => HasL2(Abs(h, s), i), (k: nat) => Supply(h, Abs(h, s), k))
    else Sight(_ => 0, 0, false, _ => 0, _ => false, _ => false, 0, _ => 0, _ => false, _ => false)
  }

  ghost function View(h: Header, s: Img, veil: Veil := VEIL): Sight {
    match veil
    case Bare => Sees(h, s)
    case Fold(inner) => View(h, s, inner)
  }

  lemma {:induction false} OpenView(h: Header, s: Img, veil: Veil := VEIL)
    ensures View(h, s, veil) == Sees(h, s)
  {
    if veil.Fold? {
      OpenView(h, s, veil.inner);
    }
  }

  /** The host cluster that guest cluster `g` gets when it is first written. */
  ghost function NextFor(h: Header, s: Img, g: nat): nat
    requires h.Valid()
  {
    View(h, s).under(Quot(g, h.l2Entries))
  }

  lemma ViewTakes(h: Header, s: Img)
    requires h.Valid() && Shape(h, Abs(h, s))
    ensures View(h, s).take == NextTake(h, Abs(h, s))
    ensures forall i: nat :: View(h, s).under(i) == NextUnder(h, Abs(h, s), i)
  {
    OpenView(h, s);
  }

  lemma ViewSupply(h: Header, s: Img)
    requires h.Valid() && Shape(h, Abs(h, s))
    ensures forall i: nat :: View(h, s).tabled(i) <==> HasL2(Abs(h, s), i)
    ensures forall k: nat :: View(h, s).supply(k) <==> Supply(h, Abs(h, s), k)
  {
    OpenView(h, s);
  }

  lemma ViewIs(h: Header, s: Img)
    requires h.Valid() && Shape(h, Abs(h, s))
    ensures forall g: nat :: View(h, s).data(g) == DataOf(h, Abs(h, s), g)
    ensures View(h, s).room == |Room(h, Abs(h, s))|
    ensures View(h, s).clear <==> FreeIsZero(h, s)
    ensures forall c: nat :: View(h, s).count(c) == Refcount(h, Abs(h, s), c)
    ensures forall c: nat :: View(h, s).inUse(c) <==> Owned(h, Abs(h, s), c)
    ensures forall c: nat :: View(h, s).table(c) <==> IsTable(Abs(h, s), c)
  {
    OpenView(h, s);
  }

  /** From `s` to `t` nothing happened but table traffic and the addition of tables. */
  ghost predicate Quiet(h: Header, s: Img, t: Img)
    requires h.Valid() && Shape(h, Abs(h, s)) && Shape(h, Abs(h, t))
  {
    && (forall i: nat, j: nat :: Entry(h, Abs(h, t), i, j) == Entry(h, Abs(h, s), i, j))
    && (forall c: nat :: IsTable(Abs(h, s), c) ==> IsTable(Abs(h, t), c))
    && (forall c: nat :: Owned(h, Abs(h, s), c) ==> Owned(h, Abs(h, t), c))
    && (forall c: nat, o: nat :: !IsTable(Abs(h, t), c) ==> t.file(c, o) == s.file(c, o))
  }

  lemma QuietTransitive(h: Header, s: Img, t: Img, u: Img)
    requires h.Valid() && Shape(h, Abs(h, s)) && Shape(h, Abs(h, t)) && Shape(h, Abs(h, u))
    requires Quiet(h, s, t) && Quiet(h, t, u)
    ensures Quiet(h, s, u)
  {
  }

  lemma SameLogicalIsQuiet(h: Header, s: Img, t: Img)
    requires h.Valid() && Shape(h, Abs(h, s)) && SameLogical(h, s, t)
    ensures Shape(h, Abs(h, t)) && Quiet(h, s, t)
  {
  }

  /** Quiet steps change no guest byte and keep free clusters zero. */
  lemma QuietKeepsGuest(h: Header, s: Img, p: set<nat>, t: Img, q: set<nat>, below: seq<Layer>, g: nat, o: nat)
    requires Good(h, s, p) && Good(h, t, q) && Quiet(h, s, t) && ChainValid(below)
    ensures GuestByte(h, t, below, g, o) == GuestByte(h, s, below, g, o)
  {
    GuestBytePlain(h, s, p, below, g, o);
    GuestBytePlain(h, t, q, below, g, o);
    if DataOf(h, Abs(h, t), g) != 0 {
      GoodIsDisjoint(h, t, q);
      DataIsNoTable(h, Abs(h, t), Quot(g, h.l2Entries), Rem(g, h.l2Entries));
    }
  }

  lemma TableIsOwned(h: Header, m: Meta, c: nat)
    requires Shape(h, m) && IsTable(m, c)
    ensures Owned(h, m, c)
  {
    if c in m.l2 {
      var i := L2Owner(h, m, c);
    } else {
      var i := BlockOwner(h, m, c);
    }
  }

  lemma QuietKeepsZero(h: Header, s: Img, t: Img)
    requires h.Valid() && Shape(h, Abs(h, s)) && Shape(h, Abs(h, t)) && Quiet(h, s, t) && FreeIsZero(h, s)
    ensures FreeIsZero(h, t)
  {
    forall c: nat, o: nat | !Owned(h, Abs(h, t), c)
      ensures t.file(c, o) == 0
    {
      if IsTable(Abs(h, t), c) {
        TableIsOwned(h, Abs(h, t), c);
      }
    }
  }

  /** An allocation is quiet, and with two reachable free clusters it succeeds. */
  lemma AllocationIsQuiet(h: Header, s: Img, t: Img, r: nat)
    requires Holds(Idle(h, s)) && Holds(Allocation(h, s, t, r))
    ensures Good(h, s, {}) && t.l1 == s.l1 && t.l2Cache == s.l2Cache
    ensures r == 0 ==> Good(h, t, {}) && Quiet(h, s, t) && |Room(h, Abs(h, t))| == |Room(h, Abs(h, s))| && Scanned(h, t)
    ensures 0 < r < h.HostLimit() ==>
      && Good(h, t, {r}) && Quiet(h, s, t) && Scanned(h, t) && !Owned(h, Abs(h, s), r)
      && |Room(h, Abs(h, t))| >= |Room(h, Abs(h, s))| - 2
    ensures |Room(h, Abs(h, s))| >= 2 ==> 0 < r < h.HostLimit()
  {
    OpenClaim(Idle(h, s));
    OpenClaim(Allocation(h, s, t, r));
    var m, n := Abs(h, s), Abs(h, t);
    if r > 0 {
      OpenGood(h, s, {});
      TookKeepsConsistent(h, m, {}, n, r);
      TookIsQuiet(h, m, n, r);
      TookRoom(h, m, {}, n, r);
      if |Room(h, m)| >= 2 {
        TookWithRoom(h, m, n, r);
      }
    } else {
      SamePlaces(h, m, n);
      assert Room(h, m) == {};
    }
  }

  /** The cluster allocated is the one that was next. */
  lemma AllocationIsNext(h: Header, s: Img, t: Img, r: nat)
    requires Holds(Idle(h, s)) && Holds(Allocation(h, s, t, r))
    ensures h.Valid() && Shape(h, Abs(h, s))
    ensures r == NextTake(h, Abs(h, s)) == View(h, s).take
    ensures Abs(h, t) == if r == 0 then Abs(h, s) else Taken(h, Abs(h, s))
  {
    OpenClaim(Idle(h, s));
    OpenClaim(Allocation(h, s, t, r));
    ViewTakes(h, s);
    if r > 0 {
      TookIsNext(h, Abs(h, s), Abs(h, t), r);
    } else {
      NothingFree(h, Abs(h, s), 0);
    }
  }

  // ---------------------------------------------------------------- allocations that will succeed

  /** From `s` to `t`, `a` allocations were made: what `t` can still supply, `s` could on top of them. */
  ghost predicate Spent(h: Header, s: Img, t: Img, a: nat) {
    forall k: nat :: View(h, t).supply(k) <==> View(h, s).supply(a + k)
  }

  /** `t` has the L2 tables of `s` and the one under L1 entry `i`. */
  ghost predicate AddsTable(h: Header, s: Img, t: Img, i: nat) {
    forall i': nat :: View(h, t).tabled(i') <==> View(h, s).tabled(i') || i' == i
  }

  /** Allocations that GetL2Table makes for a write under L1 entry `i`. */
  ghost function TableNeed(h: Header, s: Img, i: nat): nat {
    if View(h, s).tabled(i) then 0 else 1
  }

  /** Allocations that a write into guest cluster `g` makes. */
  ghost function Need(h: Header, s: Img, g: nat): nat
    requires h.Valid()
  {
    if View(h, s).data(g) != 0 then 0 else TableNeed(h, s, Quot(g, h.l2Entries)) + 1
  }

  lemma SpentOn(h: Header, s: Img, t: Img, u: Img, a: nat, b: nat)
    requires Spent(h, s, t, a) && Spent(h, t, u, b)
    ensures Spent(h, s, u, a + b)
  {
    forall k: nat
      ensures View(h, u).supply(k) <==> View(h, s).supply(a + b + k)
    {
      assert View(h, u).supply(k) <==> View(h, t).supply(b + k);
      assert a + (b + k) == a + b + k;
    }
  }

  /** Nothing is spent while the refcount blocks stay as they are. */
  lemma SpentNothing(h: Header, s: Img, t: Img)
    requires h.Valid() && Shape(h, Abs(h, s)) && Shape(h, Abs(h, t)) && SameBlocks(Abs(h, s), Abs(h, t))
    ensures Spent(h, s, t, 0)
  {
    ViewSupply(h, s);
    ViewSupply(h, t);
    forall k: nat
      ensures View(h, t).supply(k) <==> View(h, s).supply(0 + k)
    {
      SupplySame(h, Abs(h, s), Abs(h, t), k);
    }
  }

  /** An allocation within reach spends one. */
  lemma SpentOne(h: Header, s: Img, t: Img)
    requires h.Valid() && Shape(h, Abs(h, s)) && Abs(h, t) == Taken(h, Abs(h, s)) && InReach(h, NextTake(h, Abs(h, s)))
    ensures Spent(h, s, t, 1)
  {
    ViewSupply(h, s);
    ViewSupply(h, t);
  }

  /** A guest cluster with data lies under an L1 entry with a table. */
  lemma DataHasTable(h: Header, s: Img, g: nat)
    requires h.Valid() && View(h, s).data(g) != 0
    ensures View(h, s).tabled(Quot(g, h.l2Entries))
  {
    OpenView(h, s);
  }

  /** What an operation on one cluster, or on a whole transfer, came to. `Failed` is the -1 returned when
      the refcount table is exhausted, `Panic` the assertion in GetL2Table for the same cause. `Lost`
      is where the model stops: the cluster allocated is not one of the whole clusters below the
      virtual disk size, beyond which WriteFile drops writes. */
  datatype IoResult = Bytes(n: nat) | Failed | Panic | Lost

  /** What the search for the L2 table under L1 entry `i` comes to. */
  ghost function TableFate(h: Header, s: Img, i: nat): IoResult
    requires h.Valid()
  {
    if View(h, s).tabled(i) then Bytes(0)
    else if View(h, s).take == 0 then Panic
    else if View(h, s).take >= h.HostLimit() then Lost
    else Bytes(0)
  }

  /** What it comes to that the next allocation yields `c`. */
  ghost function DataFate(h: Header, c: nat, n: nat): IoResult
    requires h.Valid()
  {
    if c == 0 then Failed else if c >= h.HostLimit() then Lost else Bytes(n)
  }

  /** What a write of `n` bytes into guest cluster `g` comes to, a function of the image before it: a
      cluster the image has is always overwritten, and otherwise the L2 table, if there is none, and
      then the data must find clusters. */
  ghost function Fate(h: Header, s: Img, g: nat, n: nat): IoResult
    requires h.Valid()
  {
    if View(h, s).data(g) != 0 then Bytes(n)
    else if TableFate(h, s, Quot(g, h.l2Entries)) != Bytes(0) then TableFate(h, s, Quot(g, h.l2Entries))
    else DataFate(h, NextFor(h, s, g), n)
  }

  /** In other words, the supply covers the need. */
  lemma FateIsSupply(h: Header, s: Img, g: nat, n: nat)
    requires h.Valid() && Shape(h, Abs(h, s))
    ensures Fate(h, s, g, n).Bytes? <==> View(h, s).supply(Need(h, s, g))
  {
    ViewSupply(h, s);
    ViewTakes(h, s);
    SupplyForData(h, Abs(h, s), Quot(g, h.l2Entries));
  }

  lemma TookIsQuiet(h: Header, m: Meta, n: Meta, r: nat)
    requires Consistent(h, m, {}) && Allocated(h, m, {}, n, r) && Took(h, m, n, r)
    ensures Shape(h, n)
    ensures forall i: nat, j: nat :: Entry(h, n, i, j) == Entry(h, m, i, j)
    ensures forall c: nat :: IsTable(m, c) ==> IsTable(n, c)
    ensures forall c: nat :: Owned(h, m, c) ==> Owned(h, n, c)
  {
    forall c: nat | Owned(h, m, c)
      ensures Owned(h, n, c)
    {
      var o :| Place(h, m, o) == c;
      assert Place(h, n, o) == c;
    }
  }

  // ---------------------------------------------------------------- GetL2Table for a write

  /** The image with L2 table `i` in the cache, the guest seeing no difference. */
  ghost predicate L2Ready(h: Header, s: Img, t: Img, i: nat, cost: nat) {
    && Good(h, s, {}) && Good(h, t, {}) && Scanned(h, t) && Quiet(h, s, t) && L2Cached(h, t, i)
    && |Room(h, Abs(h, t))| + cost >= |Room(h, Abs(h, s))|
    && View(h, t).take == View(h, s).under(i)
    && Spent(h, s, t, TableNeed(h, s, i)) && AddsTable(h, s, t, i)
  }

  /** `t` after a new table at `r` entered the cache, possibly in place of a victim. */
  ghost predicate AddL2Step(h: Header, s: Img, t: Img, i: nat, r: nat)
    requires i < |s.l1|
  {
    t == NewL2(h, s, i, r) || exists v :: v in s.l2Cache && v != r && t == NewL2(h, EvictL2(h, s, v), i, r)
  }

  lemma NewL2IsQuiet(h: Header, s: Img, i: nat, r: nat)
    requires Sane(h, s, {r}) && Scanned(h, s) && i < |s.l1| && DecodeL1(h, s.l1)[i] == 0
    ensures var t := NewL2(h, s, i, r);
      && Good(h, t, {}) && Scanned(h, t) && Quiet(h, s, t) && L2Cached(h, t, i)
      && Room(h, Abs(h, t)) == Room(h, Abs(h, s))
  {
    var m, t := Abs(h, s), NewL2(h, s, i, r);
    NewL2Keeps(h, s, {r}, i, r);
    assert {r} - {r} == {};
    LinkL2KeepsConsistent(h, m, {r}, i, r);
    RefcountSame(h, m, Abs(h, t));
    UnownedIsNoTable(h, m, r);
    EntryRoundTrip(h, r);
    LinkL2Owns(h, m, i, r);
    CloseGood(h, t, {});
  }

  lemma LinkL2Owns(h: Header, m: Meta, i: nat, r: nat)
    requires Consistent(h, m, {r}) && i < |m.l1| && m.l1[i] == 0
    ensures Shape(h, LinkL2(h, m, i, r)) && forall c: nat :: Owned(h, m, c) ==> Owned(h, LinkL2(h, m, i, r), c)
  {
    LinkL2KeepsConsistent(h, m, {r}, i, r);
    forall c: nat | Owned(h, m, c)
      ensures Owned(h, LinkL2(h, m, i, r), c)
    {
      var o :| Place(h, m, o) == c;
      assert Place(h, LinkL2(h, m, i, r), o) == c;
    }
  }

  lemma AddL2IsQuiet(h: Header, s: Img, t: Img, i: nat, r: nat)
    requires Good(h, s, {r}) && Scanned(h, s) && i < |s.l1| && DecodeL1(h, s.l1)[i] == 0
    requires AddL2Step(h, s, t, i, r)
    ensures Good(h, t, {}) && Scanned(h, t) && Quiet(h, s, t) && L2Cached(h, t, i)
    ensures Room(h, Abs(h, t)) == Room(h, Abs(h, s))
  {
    OpenGood(h, s, {r});
    if t == NewL2(h, s, i, r) {
      NewL2IsQuiet(h, s, i, r);
    } else {
      var v :| v in s.l2Cache && v != r && t == NewL2(h, EvictL2(h, s, v), i, r);
      var u := EvictL2(h, s, v);
      EvictL2Keeps(h, s, {r}, v);
      SameLogicalIsQuiet(h, s, u);
      NewL2IsQuiet(h, u, i, r);
      QuietTransitive(h, s, u, t);
    }
  }

  // ---------------------------------------------------------------- writing data

  ghost function WithData(s: Img, c: nat, o: nat, data: seq<Byte>): Img {
    s.(file := WriteAt(s.file, c, o, data))
  }

  /** Rewriting a cluster that holds neither a table nor a root table leaves all metadata alone. */
  lemma DataWriteSane(h: Header, s: Img, pending: set<nat>, c: nat, o: nat, data: seq<Byte>)
    requires Sane(h, s, pending) && !IsTable(Abs(h, s), c) && !InRoots(h, c)
    ensures Sane(h, WithData(s, c, o, data), pending) && Abs(h, WithData(s, c, o, data)) == Abs(h, s)
  {
    var t := WithData(s, c, o, data);
    forall k | k in L2Clusters(h, s)
      ensures LookL2(h, t, k) == LookL2(h, s, k)
    {
      assert k in Abs(h, s).l2;
      LookElsewhere(s.file, t.file, s.l2Cache, k, Bits64, h.l2Entries, c);
    }
    forall k | k in BlockClusters(h, s)
      ensures LookBlock(h, t, k) == LookBlock(h, s, k)
    {
      assert k in Abs(h, s).blocks;
      LookElsewhere(s.file, t.file, s.blockCache, k, Bits16, h.blockEntries, c);
    }
    AbsSame(h, s, t);
    assert c !in Abs(h, s).l2 && c !in Abs(h, s).blocks;
    CoherentElsewhere(s.file, t.file, s.l2Cache, Bits64, h.l2Entries, c);
    CoherentElsewhere(s.file, t.file, s.blockCache, Bits16, h.blockEntries, c);
    SpanSame(t.file, s.file, h.l1Cluster, h.l2Entries, h.l1Size, h.l1Clusters);
    SpanSame(t.file, s.file, h.refTableCluster, h.l2Entries, h.refTableSize, h.refTableClusters);
  }

  lemma DataIsNoRoot(h: Header, m: Meta, i: nat, j: nat)
    requires Shape(h, m) && Disjoint(h, m) && Entry(h, m, i, j) != 0
    ensures !InRoots(h, Entry(h, m, i, j))
  {
    var c := Entry(h, m, i, j);
    assert Place(h, m, Data(i, j)) == c;
    if InRoots(h, c) {
      var o := RootOwner(h, m, c);
    }
  }

  lemma GoodIsDisjoint(h: Header, s: Img, pending: set<nat>)
    requires Good(h, s, pending)
    ensures Disjoint(h, Abs(h, s))
  {
    OpenGood(h, s, pending);
  }

  /** Two guest clusters never share a data cluster. */
  lemma DataIsPrivate(h: Header, m: Meta, g: nat, g': nat)
    requires Shape(h, m) && Disjoint(h, m) && DataOf(h, m, g) == DataOf(h, m, g') != 0
    ensures g == g'
  {
    assert Place(h, m, Data(Quot(g, h.l2Entries), Rem(g, h.l2Entries))) == DataOf(h, m, g);
    assert Place(h, m, Data(Quot(g', h.l2Entries), Rem(g', h.l2Entries))) == DataOf(h, m, g);
    SameIndex(h.l2Entries, g, g');
  }

  /** Writing into the data cluster of guest cluster `g`. */
  lemma DataWriteKeeps(h: Header, s: Img, g: nat, c: nat, o: nat, data: seq<Byte>)
    requires Good(h, s, {}) && DataOf(h, Abs(h, s), g) == c != 0
    ensures Good(h, WithData(s, c, o, data), {}) && Abs(h, WithData(s, c, o, data)) == Abs(h, s)
    ensures FreeIsZero(h, s) ==> FreeIsZero(h, WithData(s, c, o, data))
  {
    OpenGood(h, s, {});
    var m := Abs(h, s);
    DataIsNoTable(h, m, Quot(g, h.l2Entries), Rem(g, h.l2Entries));
    DataIsNoRoot(h, m, Quot(g, h.l2Entries), Rem(g, h.l2Entries));
    DataWriteSane(h, s, {}, c, o, data);
    CloseGood(h, WithData(s, c, o, data), {});
    SamePlaces(h, m, Abs(h, WithData(s, c, o, data)));
  }

  lemma DataWriteShows(h: Header, s: Img, below: seq<Layer>, g: nat, c: nat, o: nat, data: seq<Byte>, g': nat, o': nat)
    requires Good(h, s, {}) && ChainValid(below) && DataOf(h, Abs(h, s), g) == c != 0
    ensures GuestByte(h, WithData(s, c, o, data), below, g', o') ==
      if g' == g && o <= o' < o + |data| then data[o' - o] else GuestByte(h, s, below, g', o')
  {
    var t := WithData(s, c, o, data);
    DataWriteKeeps(h, s, g, c, o, data);
    GuestBytePlain(h, s, {}, below, g', o');
    GuestBytePlain(h, t, {}, below, g', o');
    if DataOf(h, Abs(h, s), g') == c {
      GoodIsDisjoint(h, s, {});
      DataIsPrivate(h, Abs(h, s), g, g');
    }
  }

  /** Guest cluster `g`, which had none, gets data cluster `r`; nothing else changes. */
  ghost predicate LinkedMeta(h: Header, m: Meta, n: Meta, g: nat, r: nat)
    requires Shape(h, m) && Shape(h, n)
  {
    && (forall g': nat :: DataOf(h, n, g') == if g' == g then r else DataOf(h, m, g'))
    && (forall c: nat :: Owned(h, n, c) <==> Owned(h, m, c) || c == r)
    && (forall c: nat :: IsTable(n, c) <==> IsTable(m, c))
    && (forall c: nat :: Refcount(h, n, c) == Refcount(h, m, c))
  }

  lemma SetEntryShows(h: Header, m: Meta, g: nat, r: nat)
    requires Shape(h, m) && Disjoint(h, m)
    requires Quot(g, h.l2Entries) < |m.l1| && m.l1[Quot(g, h.l2Entries)] != 0
    ensures var n := SetEntry(h, m, Quot(g, h.l2Entries), Rem(g, h.l2Entries), r);
      && Shape(h, n)
      && (forall g': nat :: DataOf(h, n, g') == if g' == g then r else DataOf(h, m, g'))
      && (forall c: nat :: IsTable(n, c) <==> IsTable(m, c))
      && (forall c: nat :: Refcount(h, n, c) == Refcount(h, m, c))
  {
    var i, j := Quot(g, h.l2Entries), Rem(g, h.l2Entries);
    var n := SetEntry(h, m, i, j, r);
    EntryOfSet(h, m, i, j, r);
    RefcountSame(h, m, n);
    forall g': nat
      ensures DataOf(h, n, g') == if g' == g then r else DataOf(h, m, g')
    {
      if Quot(g', h.l2Entries) == i && Rem(g', h.l2Entries) == j {
        SameIndex(h.l2Entries, g, g');
      }
    }
    assert m.l1[i] in Used(m.l1);
    assert n.l2.Keys == m.l2.Keys;
  }

  lemma LinkMeta(h: Header, m: Meta, g: nat, r: nat)
    requires Consistent(h, m, {r}) && DataOf(h, m, g) == 0
    requires Quot(g, h.l2Entries) < |m.l1| && m.l1[Quot(g, h.l2Entries)] != 0
    ensures var n := SetEntry(h, m, Quot(g, h.l2Entries), Rem(g, h.l2Entries), r);
      Shape(h, n) && LinkedMeta(h, m, n, g, r)
  {
    var i, j := Quot(g, h.l2Entries), Rem(g, h.l2Entries);
    SetEntryShows(h, m, g, r);
    SetEntryMoves(h, m, i, j, r);
    UnownedIsNoTable(h, m, r);
    AddOwner(h, m, SetEntry(h, m, i, j, r), Data(i, j), r);
  }

  /** Linking the pending cluster `r` to guest cluster `g`. */
  ghost predicate Linked(h: Header, s: Img, t: Img, g: nat, r: nat) {
    && Good(h, t, {}) && Shape(h, Abs(h, s)) && r > 0 && t.file == s.file && t.free == s.free
    && LinkedMeta(h, Abs(h, s), Abs(h, t), g, r)
    && SameBlocks(Abs(h, s), Abs(h, t)) && Abs(h, t).l1 == Abs(h, s).l1
  }

  lemma LinkIsLinked(h: Header, s: Img, g: nat, r: nat)
    requires Good(h, s, {r}) && L2Cached(h, s, Quot(g, h.l2Entries)) && DataOf(h, Abs(h, s), g) == 0
    ensures |s.l2Cache[L2Cluster(h, s.l1[Quot(g, h.l2Entries)])].entries| == h.l2Entries
    ensures Linked(h, s, WithEntry(h, s, Quot(g, h.l2Entries), Rem(g, h.l2Entries), CopiedEntry(h, r)), g, r)
  {
    var i, j := Quot(g, h.l2Entries), Rem(g, h.l2Entries);
    OpenGood(h, s, {r});
    LinkDataKeeps(h, s, i, j, r);
    LinkMeta(h, Abs(h, s), g, r);
    CloseGood(h, WithEntry(h, s, i, j, CopiedEntry(h, r)), {});
  }

  // ---------------------------------------------------------------- what a write of one cluster did

  /** `t` after `data` was written at offset `o` of guest cluster `g` in `s`. When `stale` is given, the
      cluster was taken from the free ones without being filled, so its other bytes are the host's. */
  ghost predicate Written(h: Header, s: Img, t: Img, below: seq<Layer>, g: nat, o: nat, data: seq<Byte>,
                          stale: Option<nat>, cost: nat)
  {
    && h.Valid() && ChainValid(below) && WrittenSight(h, s, t, g, cost)
    && (forall g': nat, o': nat :: g' != g ==> GuestByte(h, t, below, g', o') == GuestByte(h, s, below, g', o'))
    && (forall o': nat :: o <= o' < o + |data| ==> GuestByte(h, t, below, g, o') == data[o' - o])
    && (forall o': nat :: !(o <= o' < o + |data|) && o' < h.clusterSize ==>
          GuestByte(h, t, below, g, o') ==
            (if stale == None then GuestByte(h, s, below, g, o') else s.file(stale.value, o')))
    && (stale.Some? <==> View(h, s).data(g) == 0 && |data| < h.clusterSize && !ChainSupplies(below, g))
    && (stale.Some? ==> !View(h, s).inUse(stale.value) && stale.value == NextFor(h, s, g))
    && (stale.Some? ==> forall o': nat :: o' < h.clusterSize ==> GuestByte(h, s, below, g, o') == 0)
  }

  /** The part of `Written` that is about the image, not the bytes. */
  ghost predicate WrittenSight(h: Header, s: Img, t: Img, g: nat, cost: nat) {
    && Holds(InOrder(h, s)) && Holds(Idle(h, t)) && View(h, t).room + cost >= View(h, s).room
    && (View(h, s).clear ==> View(h, t).clear)
    && (forall g': nat :: View(h, t).data(g') != 0 <==> View(h, s).data(g') != 0 || g' == g)
    && h.Valid() && Spent(h, s, t, Need(h, s, g)) && AddsTable(h, s, t, Quot(g, h.l2Entries))
  }

  lemma WrittenView(h: Header, s: Img, t: Img, g: nat, cost: nat)
    requires Good(h, s, {}) && Good(h, t, {}) && Scanned(h, t)
    requires |Room(h, Abs(h, t))| + cost >= |Room(h, Abs(h, s))| && (FreeIsZero(h, s) ==> FreeIsZero(h, t))
    requires forall g': nat :: DataOf(h, Abs(h, t), g') != 0 <==> DataOf(h, Abs(h, s), g') != 0 || g' == g
    requires Spent(h, s, t, Need(h, s, g)) && AddsTable(h, s, t, Quot(g, h.l2Entries))
    ensures WrittenSight(h, s, t, g, cost)
  {
    Settled(h, s, t);
    ViewIs(h, s);
    ViewIs(h, t);
  }

  lemma Settled(h: Header, s: Img, t: Img)
    requires Good(h, s, {}) && Good(h, t, {}) && Scanned(h, t)
    ensures Holds(InOrder(h, s)) && Holds(Idle(h, t))
  {
    CloseClaim(InOrder(h, s));
    CloseClaim(Idle(h, t));
  }

  /** The fresh cluster, before anything is written to it, shows the bytes the host left there. */
  lemma LinkedShows(h: Header, s0: Img, s: Img, t: Img, below: seq<Layer>, g: nat, r: nat, g': nat, o': nat)
    requires Good(h, s0, {}) && Good(h, s, {r}) && Quiet(h, s0, s) && Linked(h, s, t, g, r) && ChainValid(below)
    ensures GuestByte(h, t, below, g', o') == if g' == g then s0.file(r, o') else GuestByte(h, s0, below, g', o')
  {
    GuestBytePlain(h, t, {}, below, g', o');
    if g' == g {
      PendingIsNoTable(h, s, r);
    } else {
      GuestBytePlain(h, s, {r}, below, g', o');
      QuietKeepsGuest(h, s0, {}, s, {r}, below, g', o');
    }
  }

  lemma PendingIsNoTable(h: Header, s: Img, r: nat)
    requires Good(h, s, {r})
    ensures !IsTable(Abs(h, s), r) && !Owned(h, Abs(h, s), r)
  {
    OpenGood(h, s, {r});
    UnownedIsNoTable(h, Abs(h, s), r);
  }

  lemma LinkedKeepsZero(h: Header, s0: Img, s: Img, t: Img, g: nat, r: nat)
    requires Good(h, s0, {}) && Good(h, s, {r}) && Quiet(h, s0, s) && Linked(h, s, t, g, r) && FreeIsZero(h, s0)
    ensures FreeIsZero(h, t)
  {
    QuietKeepsZero(h, s0, s);
  }

  lemma LinkedKeepsRoom(h: Header, s: Img, t: Img, g: nat, r: nat)
    requires h.Valid() && Linked(h, s, t, g, r)
    ensures Room(h, Abs(h, t)) == Room(h, Abs(h, s))
    ensures Scanned(h, s) ==> Scanned(h, t)
  {
  }

  /** A write to a cluster the image did not have: `bytes` at `p` of the fresh cluster `r`. */
  lemma FreshShows(h: Header, s0: Img, s: Img, t: Img, below: seq<Layer>, g: nat, r: nat, p: nat, bytes: seq<Byte>, g': nat, o': nat)
    requires Good(h, s0, {}) && Good(h, s, {r}) && Quiet(h, s0, s) && Linked(h, s, t, g, r) && ChainValid(below)
    ensures GuestByte(h, WithData(t, r, p, bytes), below, g', o') ==
      if g' != g then GuestByte(h, s0, below, g', o')
      else if p <= o' < p + |bytes| then bytes[o' - p]
      else s0.file(r, o')
  {
    DataWriteShows(h, t, below, g, r, p, bytes, g', o');
    LinkedShows(h, s0, s, t, below, g, r, g', o');
  }

  /** What a fresh cluster needs to keep its promises, whatever is written into it. */
  ghost predicate FreshReady(h: Header, s0: Img, s: Img, t: Img, g: nat, r: nat, cost: nat) {
    && Good(h, s0, {}) && Good(h, s, {r}) && Quiet(h, s0, s) && Linked(h, s, t, g, r) && Scanned(h, s)
    && !Owned(h, Abs(h, s0), r) && DataOf(h, Abs(h, s0), g) == 0 && r == NextFor(h, s0, g)
    && |Room(h, Abs(h, s))| + cost >= |Room(h, Abs(h, s0))|
    && Spent(h, s0, t, Need(h, s0, g)) && AddsTable(h, s0, t, Quot(g, h.l2Entries))
  }

  /** Writes of data leave supply and tables alone. */
  lemma SupplyStays(h: Header, s: Img, t: Img, u: Img, a: nat, i: nat)
    requires h.Valid() && Shape(h, Abs(h, t)) && Shape(h, Abs(h, u)) && SameBlocks(Abs(h, t), Abs(h, u)) && Abs(h, u).l1 == Abs(h, t).l1
    requires Spent(h, s, t, a) && AddsTable(h, s, t, i)
    ensures Spent(h, s, u, a) && AddsTable(h, s, u, i)
  {
    SpentNothing(h, t, u);
    SpentOn(h, s, t, u, a, 0);
    TablesStay(h, s, t, u, i);
  }

  lemma FreshKeeps(h: Header, s0: Img, s: Img, t: Img, g: nat, r: nat, p: nat, bytes: seq<Byte>, cost: nat)
    requires FreshReady(h, s0, s, t, g, r, cost)
    ensures var u := WithData(t, r, p, bytes);
      && Good(h, u, {}) && Scanned(h, u) && (FreeIsZero(h, s0) ==> FreeIsZero(h, u))
      && |Room(h, Abs(h, u))| + cost >= |Room(h, Abs(h, s0))|
      && (forall g': nat :: DataOf(h, Abs(h, u), g') == if g' == g then r else DataOf(h, Abs(h, s0), g'))
      && Spent(h, s0, u, Need(h, s0, g)) && AddsTable(h, s0, u, Quot(g, h.l2Entries))
  {
    DataWriteKeeps(h, t, g, r, p, bytes);
    SupplyStays(h, s0, t, WithData(t, r, p, bytes), Need(h, s0, g), Quot(g, h.l2Entries));
    LinkedKeepsRoom(h, s, t, g, r);
    if FreeIsZero(h, s0) {
      LinkedKeepsZero(h, s0, s, t, g, r);
    }
  }

  /** Free clusters of a clear image are zero. */
  lemma ClearIsZero(h: Header, s: Img, c: nat, o: nat)
    requires View(h, s).clear && !View(h, s).inUse(c)
    ensures s.file(c, o) == 0
  {
    OpenView(h, s);
  }

  /** A write that changes its own bytes and no others. */
  ghost predicate Exactly(h: Header, s: Img, t: Img, below: seq<Layer>, g: nat, o: nat, data: seq<Byte>)
    requires h.Valid() && ChainValid(below)
  {
    forall g': nat, o': nat :: g' != g || o' < h.clusterSize ==>
      GuestByte(h, t, below, g', o') ==
        if g' == g && o <= o' < o + |data| then data[o' - o] else GuestByte(h, s, below, g', o')
  }

  /** A write of `n` bytes into guest cluster `g` leaves the rest of a fresh host cluster as it is. */
  ghost predicate LeavesRest(h: Header, s: Img, below: seq<Layer>, g: nat, n: nat)
    requires ChainValid(below)
  {
    View(h, s).data(g) == 0 && n < h.clusterSize && !ChainSupplies(below, g)
  }

  /** What a caller can tell beforehand: the image has the cluster, or all of it is written, or the chain
      supplies the rest, or the host cluster it will get is zero outside the bytes written. */
  ghost predicate WillBeExact(h: Header, s: Img, below: seq<Layer>, g: nat, o: nat, data: seq<Byte>)
    requires h.Valid() && ChainValid(below)
  {
    || View(h, s).data(g) != 0 || |data| == h.clusterSize || ChainSupplies(below, g)
    || forall o': nat :: o' < h.clusterSize && !(o <= o' < o + |data|) ==> s.file(NextFor(h, s, g), o') == 0
  }

  /** The write changed exactly its bytes if and only if the image before it said so, and it left bytes of
      a host cluster as they were exactly in the case described, in the cluster foreseen. */
  ghost predicate ExactAsForetold(h: Header, s: Img, t: Img, below: seq<Layer>, g: nat, o: nat, data: seq<Byte>, stale: Option<nat>)
    requires h.Valid() && ChainValid(below)
  {
    && (Exactly(h, s, t, below, g, o, data) <==> WillBeExact(h, s, below, g, o, data))
    && (stale.Some? <==> LeavesRest(h, s, below, g, |data|))
    && (stale.Some? ==> stale.value == NextFor(h, s, g))
  }

  /** A write changes exactly its bytes if and only if the image before it says so. */
  lemma WriteIsExactIff(h: Header, s: Img, t: Img, below: seq<Layer>, g: nat, o: nat, data: seq<Byte>, stale: Option<nat>, cost: nat)
    requires Done(Wrote(h, s, t, below, g, o, data, stale, cost)) && o + |data| <= h.clusterSize
    ensures h.Valid() && ChainValid(below)
    ensures ExactAsForetold(h, s, t, below, g, o, data, stale)
  {
    OpenDeed(Wrote(h, s, t, below, g, o, data, stale, cost));
    if stale.Some? && Exactly(h, s, t, below, g, o, data) {
      forall o': nat | o' < h.clusterSize && !(o <= o' < o + |data|)
        ensures s.file(stale.value, o') == 0
      {
        assert GuestByte(h, t, below, g, o') == GuestByte(h, s, below, g, o');
      }
    }
  }

  /** With free clusters zero, every write does. */
  lemma WrittenExactly(h: Header, s: Img, t: Img, below: seq<Layer>, g: nat, o: nat, data: seq<Byte>, stale: Option<nat>, cost: nat)
    requires Done(Wrote(h, s, t, below, g, o, data, stale, cost)) && o + |data| <= h.clusterSize && View(h, s).clear
    ensures h.Valid() && ChainValid(below) && Exactly(h, s, t, below, g, o, data)
  {
    WriteIsExactIff(h, s, t, below, g, o, data, stale, cost);
    OpenDeed(Wrote(h, s, t, below, g, o, data, stale, cost));
    if stale.Some? {
      forall o': nat
        ensures s.file(stale.value, o') == 0
      {
        ClearIsZero(h, s, stale.value, o');
      }
    }
  }

  // ---------------------------------------------------------------- reading

  /** An image that can serve reads. */
  ghost function ServesReads(h: Header, s: Img, readonly: bool): Claim {
    if readonly then ReadOnly(h, s) else Idle(h, s)
  }

  /** `t` shows the guest exactly what `s` does. */
  ghost predicate Undisturbed(h: Header, s: Img, t: Img, readonly: bool) {
    if readonly then t.file == s.file && t.l1 == s.l1 else Holds(Calm(h, s, t))
  }

  lemma UndisturbedShows(h: Header, s: Img, t: Img, readonly: bool, below: seq<Layer>, g: nat, o: nat)
    requires Holds(ServesReads(h, s, readonly)) && Holds(ServesReads(h, t, readonly))
    requires Undisturbed(h, s, t, readonly) && ChainValid(below)
    ensures h.Valid() && GuestByte(h, t, below, g, o) == GuestByte(h, s, below, g, o)
  {
    OpenClaim(ServesReads(h, s, readonly));
    if readonly {
      OpenClaim(ServesReads(h, t, readonly));
      ReadOnlyEntry(h, s, g);
      ReadOnlyEntry(h, t, g);
      OpenGuestByte(h, s, below, g, o);
      OpenGuestByte(h, t, below, g, o);
    } else {
      OpenClaim(Calm(h, s, t));
      SameLogicalSameGuest(h, s, t, {}, below, g, o);
    }
  }

  /** What GetL2Table may rely on when it looks up L1 entry `i`. */
  lemma ReadableFacts(h: Header, s: Img, readonly: bool)
    requires Holds(ServesReads(h, s, readonly))
    ensures h.Valid() && |s.l1| == h.l1Size
    ensures forall i :: 0 <= i < |s.l1| && IsCopied(s.l1[i]) ==> ClearCopied(s.l1[i]) != 0
    ensures forall i :: 0 <= i < |s.l1| && IsCopied(s.l1[i]) && !readonly ==> L2Cluster(h, s.l1[i]) in L2Clusters(h, s)
    ensures Undisturbed(h, s, s, readonly)
  {
    OpenClaim(ServesReads(h, s, readonly));
    if !readonly {
      WritableL1(h, s);
      CloseClaim(Calm(h, s, s));
    }
  }

  lemma WritableL1(h: Header, s: Img)
    requires Good(h, s, {})
    ensures forall i :: 0 <= i < |s.l1| && IsCopied(s.l1[i]) ==>
      ClearCopied(s.l1[i]) != 0 && L2Cluster(h, s.l1[i]) in L2Clusters(h, s)
  {
    OpenGood(h, s, {});
    assert InBounds(h, Abs(h, s));
    forall i | 0 <= i < |s.l1| && IsCopied(s.l1[i])
      ensures ClearCopied(s.l1[i]) != 0 && L2Cluster(h, s.l1[i]) in L2Clusters(h, s)
    {
      assert PlainL1(h, s.l1[i]);
      var k := L2Cluster(h, s.l1[i]);
      assert DecodeL1(h, s.l1)[i] == k;
      assert Place(h, Abs(h, s), L2Table(i)) == k;
      EntryRoundTrip(h, k);
    }
  }

  /** Reading an L2 table disturbs nothing and yields the entry the guest's cluster has. */
  lemma ReadStepServes(h: Header, s: Img, t: Img, readonly: bool, i: nat)
    requires Holds(ServesReads(h, s, readonly)) && i < |s.l1| && IsCopied(s.l1[i]) && h.Valid()
    requires readonly || L2Cluster(h, s.l1[i]) in L2Clusters(h, s)
    requires ReadStep(h, s, t, L2Cluster(h, s.l1[i]))
    ensures Holds(ServesReads(h, t, readonly)) && Undisturbed(h, s, t, readonly) && t.l1 == s.l1
    ensures L2Cluster(h, s.l1[i]) in t.l2Cache
    ensures |t.l2Cache[L2Cluster(h, s.l1[i])].entries| == h.l2Entries
    ensures forall j: nat :: j < h.l2Entries ==> t.l2Cache[L2Cluster(h, s.l1[i])].entries[j] == RawEntry(h, t, i, j)
  {
    var k := L2Cluster(h, s.l1[i]);
    OpenClaim(ServesReads(h, s, readonly));
    if readonly {
      ReadStepReadOnly(h, s, t, k);
      CloseClaim(ReadOnly(h, t));
    } else {
      ReadStepKeeps(h, s, t, {}, k);
      CloseClaim(Calm(h, s, t));
      CloseClaim(Idle(h, t));
      OpenGood(h, t, {});
    }
  }

  lemma PositionInL1(h: Header, pos: nat)
    requires h.Valid() && h.L1CoversDisk() && pos < h.size
    ensures Quot(Quot(pos, h.clusterSize), h.l2Entries) < h.l1Size
  {
    QuotBelow(pos, h.clusterSize, Times(h.l1Size, h.l2Entries));
    QuotBelow(Quot(pos, h.clusterSize), h.l2Entries, h.l1Size);
  }

  /** The part of a transfer that stays in the cluster of `pos`. */
  function ChunkLength(h: Header, pos: nat, length: nat): nat
    requires h.Valid()
  {
    var room := h.clusterSize - Rem(pos, h.clusterSize);
    if length > room then room else length
  }

  /** `data` is what the guest sees from `pos` to the end of the chunk. */
  ghost predicate Shows(h: Header, s: Img, below: seq<Layer>, pos: nat, length: nat, data: seq<Byte>)
    requires h.Valid() && ChainValid(below)
  {
    && |data| == ChunkLength(h, pos, length)
    && forall k: nat :: k < |data| ==>
        data[k] == GuestByte(h, s, below, Quot(pos, h.clusterSize), Rem(pos, h.clusterSize) + k)
  }

  /** A cluster the image lacks reads as the layers below. */
  lemma ShowsBelow(h: Header, s: Img, y: Layer, rest: seq<Layer>, u: Img, pos: nat, length: nat, data: seq<Byte>)
    requires h.Valid() && ChainValid([y] + rest) && GuestEntry(h, s, Quot(pos, h.clusterSize)) == 0
    requires ChainValid(rest) && y.h.Valid() && y.h.clusterSize == h.clusterSize
    requires Holds(ReadOnly(y.h, u)) && u.file == y.file && u.l1 == y.l1
    requires Shows(y.h, u, rest, pos, length, data)
    ensures Shows(h, s, [y] + rest, pos, length, data)
  {
    OpenClaim(ReadOnly(y.h, u));
    var g := Quot(pos, h.clusterSize);
    ReadOnlyEntry(y.h, u, g);
    assert ([y] + rest)[1..] == rest;
    forall o: nat
      ensures GuestByte(h, s, [y] + rest, g, o) == GuestByte(y.h, u, rest, g, o)
    {
      OpenGuestByte(h, s, [y] + rest, g, o);
      OpenGuestByte(y.h, u, rest, g, o);
    }
  }

  /** What a layer shows, in terms of the bits of the entries. */
  lemma ShowsDecoded(h: Header, s: Img, readonly: bool, below: seq<Layer>, pos: nat, length: nat, data: seq<Byte>)
    requires Holds(ServesReads(h, s, readonly)) && ChainValid(below) && h.Valid() && ChainInflates(below, h.clusterSize)
    requires Shows(h, s, below, pos, length, data)
    ensures Decoded(h, s.file, GuestEntry(h, s, Quot(pos, h.clusterSize)), below, Quot(pos, h.clusterSize), Rem(pos, h.clusterSize), data)
  {
    var g := Quot(pos, h.clusterSize);
    OpenClaim(ServesReads(h, s, readonly));
    if !readonly {
      GuestBytePlain(h, s, {}, below, g, 0);
      EncodedFacts(h, DataOf(h, Abs(h, s), g));
    }
    GuestDecodes(h, s, below, g, Rem(pos, h.clusterSize), data);
    OpenDecoded(h, s.file, GuestEntry(h, s, g), below, g, Rem(pos, h.clusterSize), data);
  }

  lemma LayerInflates(h: Header, s: Img)
    requires Holds(ReadOnly(h, s))
    ensures Inflates(h)
  {
    OpenClaim(ReadOnly(h, s));
  }

  // ---------------------------------------------------------------- deeds

  /** What the write path promises from step to step, kept folded like the claims. */
  datatype Deed =
    | TableReady(h: Header, s: Img, t: Img, i: nat, cost: nat)
    | Fresh(h: Header, s0: Img, s: Img, t: Img, g: nat, r: nat, cost: nat)
    | Wrote(h: Header, s: Img, t: Img, below: seq<Layer>, g: nat, o: nat, data: seq<Byte>, stale: Option<nat>, cost: nat)

  ghost predicate DeedMeaning(x: Deed) {
    match x
    case TableReady(h, s, t, i, cost) => L2Ready(h, s, t, i, cost)
    case Fresh(h, s0, s, t, g, r, cost) => h.Valid() && FreshReady(h, s0, s, t, g, r, cost)
    case Wrote(h, s, t, below, g, o, data, stale, cost) => Written(h, s, t, below, g, o, data, stale, cost)
  }

  ghost predicate Done(x: Deed, veil: Veil := VEIL) {
    match veil
    case Bare => DeedMeaning(x) == true
    case Fold(inner) => Done(x, inner)
  }

  lemma {:induction false} OpenDeed(x: Deed, veil: Veil := VEIL)
    ensures Done(x, veil) <==> DeedMeaning(x)
  {
    if veil.Fold? {
      OpenDeed(x, veil.inner);
    }
  }

  /** Under an L1 entry with a table the next cluster is the one for the data. */
  lemma FoundTakes(h: Header, s: Img, t: Img, i: nat)
    requires h.Valid() && Shape(h, Abs(h, s)) && Abs(h, t) == Abs(h, s)
    requires i < |s.l1| && IsCopied(s.l1[i]) && L2Cluster(h, s.l1[i]) in L2Clusters(h, s)
    ensures View(h, t).take == View(h, s).under(i) && View(h, s).tabled(i)
    ensures Spent(h, s, t, TableNeed(h, s, i)) && AddsTable(h, s, t, i)
  {
    ViewTakes(h, s);
    ViewTakes(h, t);
    assert Abs(h, s).l1[i] == L2Cluster(h, s.l1[i]);
    ViewSupply(h, s);
    ViewSupply(h, t);
    SpentNothing(h, s, t);
  }

  /** Otherwise the table takes the next cluster and the data the one after. */
  lemma AddedTakes(h: Header, s: Img, t: Img, u: Img, i: nat, r: nat)
    requires Holds(Idle(h, s)) && Holds(Allocation(h, s, t, r)) && h.Valid() && 0 < r < h.HostLimit()
    requires i < |s.l1| == |t.l1| && !IsCopied(s.l1[i]) && AddL2Step(h, t, u, i, r) && Good(h, t, {r}) && Good(h, u, {})
    ensures View(h, u).take == View(h, s).under(i)
    ensures Spent(h, s, u, TableNeed(h, s, i))
  {
    AllocationIsNext(h, s, t, r);
    ViewTakes(h, s);
    ViewTakes(h, u);
    AddL2Refcounts(h, t, u, i, r);
    NextTakeSame(h, Abs(h, t), Abs(h, u));
    assert Abs(h, s).l1[i] == 0;
    ViewSupply(h, s);
    SpentOne(h, s, t);
    SpentNothing(h, t, u);
    SpentOn(h, s, t, u, 1, 0);
  }

  /** The L1 table of the image after a table was added under `i`. */
  lemma AddedTable(h: Header, s: Img, t: Img, u: Img, i: nat, r: nat)
    requires Good(h, s, {}) && Good(h, u, {}) && t.l1 == s.l1 && i < |t.l1| && 0 < r < h.HostLimit() && AddL2Step(h, t, u, i, r)
    ensures AddsTable(h, s, u, i)
  {
    ViewSupply(h, s);
    ViewSupply(h, u);
    EntryRoundTrip(h, r);
    assert u.l1 == s.l1[i := CopiedEntry(h, r)];
  }

  lemma TablesStay(h: Header, s: Img, t: Img, u: Img, i: nat)
    requires h.Valid() && Shape(h, Abs(h, t)) && Shape(h, Abs(h, u)) && Abs(h, u).l1 == Abs(h, t).l1 && AddsTable(h, s, t, i)
    ensures AddsTable(h, s, u, i)
  {
    ViewSupply(h, t);
    ViewSupply(h, u);
  }

  /** An allocation leaves the L1 table alone, so the data cluster is the only news. */
  lemma LinkedSupply(h: Header, s0: Img, s: Img, t: Img, u: Img, g: nat, r: nat)
    requires Holds(Idle(h, s)) && Holds(Allocation(h, s, t, r)) && h.Valid() && 0 < r < h.HostLimit()
    requires Good(h, t, {r}) && Linked(h, t, u, g, r)
    requires L2Ready(h, s0, s, Quot(g, h.l2Entries), 2) && View(h, s0).data(g) == 0
    ensures Spent(h, s0, u, Need(h, s0, g)) && AddsTable(h, s0, u, Quot(g, h.l2Entries))
  {
    var i := Quot(g, h.l2Entries);
    AllocationIsNext(h, s, t, r);
    SpentOne(h, s, t);
    SpentOn(h, s0, s, t, TableNeed(h, s0, i), 1);
    TablesStay(h, s0, s, t, i);
    SupplyStays(h, s0, t, u, Need(h, s0, g), i);
  }

  lemma AddL2Refcounts(h: Header, s: Img, t: Img, i: nat, r: nat)
    requires Good(h, s, {r}) && i < |s.l1| && AddL2Step(h, s, t, i, r)
    ensures Abs(h, t).refTable == Abs(h, s).refTable && Abs(h, t).blocks == Abs(h, s).blocks
  {
    if t == NewL2(h, s, i, r) {
      BlockSideSame(h, s, t);
    } else {
      var v :| v in s.l2Cache && v != r && t == NewL2(h, EvictL2(h, s, v), i, r);
      OpenGood(h, s, {r});
      EvictL2Keeps(h, s, {r}, v);
      BlockSideSame(h, EvictL2(h, s, v), t);
    }
  }

  /** The L2 table exists and was read. */
  lemma TableFound(h: Header, s: Img, t: Img, i: nat)
    requires Holds(Idle(h, s)) && h.Valid() && i < |s.l1| && IsCopied(s.l1[i])
    requires L2Cluster(h, s.l1[i]) in L2Clusters(h, s) && ReadStep(h, s, t, L2Cluster(h, s.l1[i]))
    ensures Done(TableReady(h, s, t, i, 2))
  {
    OpenClaim(Idle(h, s));
    ReadStepKeeps(h, s, t, {}, L2Cluster(h, s.l1[i]));
    SameLogicalIsQuiet(h, s, t);
    FoundTakes(h, s, t, i);
    OpenDeed(TableReady(h, s, t, i, 2));
  }

  /** The L2 table did not exist and was added at the allocated cluster `r`. */
  lemma TableAdded(h: Header, s: Img, t: Img, u: Img, i: nat, r: nat)
    requires Holds(Idle(h, s)) && Holds(Allocation(h, s, t, r)) && h.Valid() && 0 < r < h.HostLimit()
    requires i < |s.l1| == |t.l1| && !IsCopied(s.l1[i]) && AddL2Step(h, t, u, i, r)
    ensures Done(TableReady(h, s, u, i, 2))
  {
    AllocationIsQuiet(h, s, t, r);
    AddL2IsQuiet(h, t, u, i, r);
    QuietTransitive(h, s, t, u);
    AddedTakes(h, s, t, u, i, r);
    AddedTable(h, s, t, u, i, r);
    OpenDeed(TableReady(h, s, u, i, 2));
  }

  /** A pending cluster is in no cache. */
  lemma AllocatedIsUncached(h: Header, s: Img, t: Img, r: nat)
    requires Holds(Idle(h, s)) && Holds(Allocation(h, s, t, r)) && h.Valid() && 0 < r < h.HostLimit()
    ensures r !in t.l2Cache && t.l1 == s.l1
  {
    AllocationIsQuiet(h, s, t, r);
    OpenGood(h, t, {r});
    UnownedIsNoTable(h, Abs(h, t), r);
  }

  lemma AllocationWithRoom(h: Header, s: Img, t: Img, r: nat)
    requires Holds(Idle(h, s)) && Holds(Allocation(h, s, t, r))
    ensures h.Valid() && t.l1 == s.l1 && (View(h, s).room >= 2 ==> 0 < r < h.HostLimit())
    ensures r == View(h, s).take
  {
    AllocationIsQuiet(h, s, t, r);
    AllocationIsNext(h, s, t, r);
    ViewIs(h, s);
  }

  /** What GetL2Table sees of L1 entry `i`. */
  lemma TableSeen(h: Header, s: Img, i: nat)
    requires Holds(Idle(h, s)) && h.Valid() && i < |s.l1|
    ensures View(h, s).tabled(i) <==> IsCopied(s.l1[i])
  {
    OpenClaim(Idle(h, s));
    WritableL1(h, s);
    ViewSupply(h, s);
    assert Abs(h, s).l1[i] == DecodeL1(h, s.l1)[i];
  }

  /** `e` is the L2 entry of guest cluster `g`, as WriteCluster examines it. */
  ghost predicate EntryIs(h: Header, s: Img, g: nat, e: nat)
    requires h.Valid()
  {
    && !IsCompressed(e)
    && (IsCopied(e) ==> DataCluster(h, e) == View(h, s).data(g) && 0 < DataCluster(h, e) < h.HostLimit())
    && (!IsCopied(e) ==> e == 0 && View(h, s).data(g) == 0)
  }

  /** The table of guest cluster `g` is cached and holds its entry. */
  ghost predicate EntrySeen(h: Header, s: Img, g: nat)
    requires h.Valid()
  {
    var i, j := Quot(g, h.l2Entries), Rem(g, h.l2Entries);
    && L2Cached(h, s, i) && |s.l2Cache[L2Cluster(h, s.l1[i])].entries| == h.l2Entries
    && EntryIs(h, s, g, s.l2Cache[L2Cluster(h, s.l1[i])].entries[j])
  }

  lemma EncodedFacts(h: Header, c: nat)
    requires h.Valid() && c < h.HostLimit()
    ensures var e := Encoded(h, c);
      && !IsCompressed(e) && DataCluster(h, e) == c
      && (IsCopied(e) <==> c != 0) && (c == 0 ==> e == 0)
  {
    if c != 0 {
      EntryRoundTrip(h, c);
    }
  }

  lemma CachedEntryIsSeen(h: Header, s: Img, g: nat)
    requires Sane(h, s, {}) && L2Cached(h, s, Quot(g, h.l2Entries))
    ensures EntrySeen(h, s, g)
  {
    var i, j := Quot(g, h.l2Entries), Rem(g, h.l2Entries);
    L2CachedFacts(h, s, {}, i);
    RawEntryIsEntry(h, s, {}, i, j);
    ViewIs(h, s);
    EncodedFacts(h, DataOf(h, Abs(h, s), g));
    assert s.l2Cache[L2Cluster(h, s.l1[i])].entries[j] == RawEntry(h, s, i, j);
  }

  /** What WriteCluster finds in the table. */
  lemma EntryForWrite(h: Header, s0: Img, s: Img, g: nat)
    requires h.Valid() && Done(TableReady(h, s0, s, Quot(g, h.l2Entries), 2))
    ensures Holds(Idle(h, s)) && View(h, s).room + 2 >= View(h, s0).room
    ensures EntrySeen(h, s, g) && View(h, s).data(g) == View(h, s0).data(g) && View(h, s).take == NextFor(h, s0, g)
  {
    OpenDeed(TableReady(h, s0, s, Quot(g, h.l2Entries), 2));
    CloseClaim(Idle(h, s));
    ViewIs(h, s0);
    ViewIs(h, s);
    OpenGood(h, s, {});
    CachedEntryIsSeen(h, s, g);
  }

  /** A write to a cluster the image already has. */
  lemma InPlaceSight(h: Header, s0: Img, s: Img, g: nat, c: nat, o: nat, data: seq<Byte>)
    requires h.Valid() && Done(TableReady(h, s0, s, Quot(g, h.l2Entries), 2)) && View(h, s).data(g) == c != 0
    ensures WrittenSight(h, s0, WithData(s, c, o, data), g, 4) && View(h, s0).data(g) != 0
  {
    OpenDeed(TableReady(h, s0, s, Quot(g, h.l2Entries), 2));
    ViewIs(h, s);
    ViewIs(h, s0);
    DataWriteKeeps(h, s, g, c, o, data);
    if FreeIsZero(h, s0) {
      QuietKeepsZero(h, s0, s);
    }
    DataHasTable(h, s0, g);
    SupplyStays(h, s0, s, WithData(s, c, o, data), 0, Quot(g, h.l2Entries));
    WrittenView(h, s0, WithData(s, c, o, data), g, 4);
  }

  lemma InPlaceShows(h: Header, s0: Img, s: Img, below: seq<Layer>, g: nat, c: nat, o: nat, data: seq<Byte>, g': nat, o': nat)
    requires h.Valid() && Done(TableReady(h, s0, s, Quot(g, h.l2Entries), 2)) && View(h, s).data(g) == c != 0 && ChainValid(below)
    ensures GuestByte(h, WithData(s, c, o, data), below, g', o') ==
      if g' == g && o <= o' < o + |data| then data[o' - o] else GuestByte(h, s0, below, g', o')
  {
    OpenDeed(TableReady(h, s0, s, Quot(g, h.l2Entries), 2));
    ViewIs(h, s);
    DataWriteShows(h, s, below, g, c, o, data, g', o');
    QuietKeepsGuest(h, s0, {}, s, {}, below, g', o');
  }

  lemma WroteInPlace(h: Header, s0: Img, s: Img, below: seq<Layer>, g: nat, c: nat, o: nat, data: seq<Byte>)
    requires h.Valid() && Done(TableReady(h, s0, s, Quot(g, h.l2Entries), 2)) && ChainValid(below)
    requires View(h, s).data(g) == c != 0
    ensures Done(Wrote(h, s0, WithData(s, c, o, data), below, g, o, data, None, 4))
  {
    InPlaceSight(h, s0, s, g, c, o, data);
    forall g': nat, o': nat
      ensures GuestByte(h, WithData(s, c, o, data), below, g', o') ==
        if g' == g && o <= o' < o + |data| then data[o' - o] else GuestByte(h, s0, below, g', o')
    {
      InPlaceShows(h, s0, s, below, g, c, o, data, g', o');
    }
    OpenDeed(Wrote(h, s0, WithData(s, c, o, data), below, g, o, data, None, 4));
  }

  /** A write of `bytes` at `p` of the fresh cluster `r`. */
  lemma FreshSight(h: Header, s0: Img, s: Img, t: Img, g: nat, r: nat, p: nat, bytes: seq<Byte>)
    requires Done(Fresh(h, s0, s, t, g, r, 4))
    ensures h.Valid() && WrittenSight(h, s0, WithData(t, r, p, bytes), g, 4)
    ensures View(h, s0).data(g) == 0 && !View(h, s0).inUse(r) && r == NextFor(h, s0, g)
  {
    OpenDeed(Fresh(h, s0, s, t, g, r, 4));
    FreshKeeps(h, s0, s, t, g, r, p, bytes, 4);
    WrittenView(h, s0, WithData(t, r, p, bytes), g, 4);
    ViewIs(h, s0);
  }

  lemma FreshByte(h: Header, s0: Img, s: Img, t: Img, below: seq<Layer>, g: nat, r: nat, p: nat, bytes: seq<Byte>, g': nat, o': nat)
    requires h.Valid() && Done(Fresh(h, s0, s, t, g, r, 4)) && ChainValid(below)
    ensures GuestByte(h, WithData(t, r, p, bytes), below, g', o') ==
      if g' != g then GuestByte(h, s0, below, g', o')
      else if p <= o' < p + |bytes| then bytes[o' - p]
      else s0.file(r, o')
    ensures GuestByte(h, s0, below, g, o') == ChainByte(below, g, o')
  {
    OpenDeed(Fresh(h, s0, s, t, g, r, 4));
    FreshShows(h, s0, s, t, below, g, r, p, bytes, g', o');
    GuestBytePlain(h, s0, {}, below, g, o');
  }

  /** The whole cluster is written, from the guest or by copying up. */
  lemma WroteWhole(h: Header, s0: Img, s: Img, t: Img, below: seq<Layer>, g: nat, r: nat, o: nat, data: seq<Byte>, whole: seq<Byte>)
    requires Done(Fresh(h, s0, s, t, g, r, 4)) && ChainValid(below)
    requires Spliced(h, below, g, o, data, whole) && o + |data| <= h.clusterSize
    requires |data| == h.clusterSize || ChainSupplies(below, g)
    ensures Done(Wrote(h, s0, WithData(t, r, 0, whole), below, g, o, data, None, 4))
  {
    FreshSight(h, s0, s, t, g, r, 0, whole);
    forall g': nat, o': nat | g' != g || o' < h.clusterSize
      ensures GuestByte(h, WithData(t, r, 0, whole), below, g', o') ==
        if g' == g && o <= o' < o + |data| then data[o' - o] else GuestByte(h, s0, below, g', o')
    {
      FreshByte(h, s0, s, t, below, g, r, 0, whole, g', o');
    }
    OpenDeed(Wrote(h, s0, WithData(t, r, 0, whole), below, g, o, data, None, 4));
  }

  /** Only the guest's bytes are written, because no backing layer has the cluster. */
  lemma WrotePart(h: Header, s0: Img, s: Img, t: Img, below: seq<Layer>, g: nat, r: nat, o: nat, data: seq<Byte>)
    requires Done(Fresh(h, s0, s, t, g, r, 4)) && ChainValid(below) && ChainIsZero(h, below, g)
    requires |data| < h.clusterSize && !ChainSupplies(below, g)
    ensures Done(Wrote(h, s0, WithData(t, r, o, data), below, g, o, data, Some(r), 4))
  {
    FreshSight(h, s0, s, t, g, r, o, data);
    forall g': nat, o': nat
      ensures GuestByte(h, WithData(t, r, o, data), below, g', o') ==
        if g' != g then GuestByte(h, s0, below, g', o')
        else if o <= o' < o + |data| then data[o' - o]
        else s0.file(r, o')
      ensures GuestByte(h, s0, below, g, o') == ChainByte(below, g, o')
    {
      FreshByte(h, s0, s, t, below, g, r, o, data, g', o');
    }
    OpenDeed(Wrote(h, s0, WithData(t, r, o, data), below, g, o, data, Some(r), 4));
  }

  /** The data cluster could not be allocated: nothing changed for the guest. */
  lemma TableStillReady(h: Header, s0: Img, s: Img, t: Img, i: nat)
    requires Done(TableReady(h, s0, s, i, 2)) && Holds(Idle(h, s)) && Holds(Allocation(h, s, t, 0))
    ensures Done(TableReady(h, s0, t, i, 2))
  {
    OpenDeed(TableReady(h, s0, s, i, 2));
    AllocationIsQuiet(h, s, t, 0);
    QuietTransitive(h, s0, s, t);
    AllocationIsNext(h, s, t, 0);
    ViewTakes(h, s);
    ViewTakes(h, t);
    SupplyStays(h, s0, s, t, TableNeed(h, s0, i), i);
    OpenDeed(TableReady(h, s0, t, i, 2));
  }

  /** The fresh data cluster is linked. */
  lemma FreshLinked(h: Header, s0: Img, s: Img, t: Img, g: nat, r: nat)
    requires h.Valid() && Done(TableReady(h, s0, s, Quot(g, h.l2Entries), 2)) && Holds(Idle(h, s))
    requires Holds(Allocation(h, s, t, r)) && 0 < r < h.HostLimit()
    requires View(h, s).data(g) == 0
    ensures t.l1 == s.l1 && t.l2Cache == s.l2Cache && L2Cached(h, t, Quot(g, h.l2Entries))
    ensures |t.l2Cache[L2Cluster(h, t.l1[Quot(g, h.l2Entries)])].entries| == h.l2Entries
    ensures Done(Fresh(h, s0, t, WithEntry(h, t, Quot(g, h.l2Entries), Rem(g, h.l2Entries), CopiedEntry(h, r)), g, r, 4))
  {
    ReadyToLink(h, s0, s, t, g, r);
    LinkIsLinked(h, t, g, r);
    LinkedIsFresh(h, s0, s, t, WithEntry(h, t, Quot(g, h.l2Entries), Rem(g, h.l2Entries), CopiedEntry(h, r)), g, r);
  }

  lemma ReadyToLink(h: Header, s0: Img, s: Img, t: Img, g: nat, r: nat)
    requires h.Valid() && Done(TableReady(h, s0, s, Quot(g, h.l2Entries), 2)) && Holds(Idle(h, s))
    requires Holds(Allocation(h, s, t, r)) && 0 < r < h.HostLimit() && View(h, s).data(g) == 0
    ensures Good(h, t, {r}) && t.l1 == s.l1 && t.l2Cache == s.l2Cache && L2Cached(h, t, Quot(g, h.l2Entries))
    ensures DataOf(h, Abs(h, t), g) == 0
  {
    OpenDeed(TableReady(h, s0, s, Quot(g, h.l2Entries), 2));
    ViewIs(h, s);
    AllocationIsQuiet(h, s, t, r);
  }

  lemma LinkedIsFresh(h: Header, s0: Img, s: Img, t: Img, u: Img, g: nat, r: nat)
    requires h.Valid() && Done(TableReady(h, s0, s, Quot(g, h.l2Entries), 2)) && Holds(Idle(h, s))
    requires Holds(Allocation(h, s, t, r)) && 0 < r < h.HostLimit()
    requires Linked(h, t, u, g, r) && View(h, s).data(g) == 0
    ensures Done(Fresh(h, s0, t, u, g, r, 4))
  {
    OpenDeed(TableReady(h, s0, s, Quot(g, h.l2Entries), 2));
    AllocationIsQuiet(h, s, t, r);
    QuietTransitive(h, s0, s, t);
    AllocationIsNext(h, s, t, r);
    ViewIs(h, s);
    ViewIs(h, s0);
    LinkedSupply(h, s0, s, t, u, g, r);
    assert FreshReady(h, s0, t, u, g, r, 4);
    OpenDeed(Fresh(h, s0, t, u, g, r, 4));
  }

  /** What the layer below shows is what the chain from it on holds. */
  lemma ChainFromTop(y: Layer, u: Img, rest: seq<Layer>, g: nat, o: nat)
    requires ChainValid([y] + rest) && ChainValid(rest) && y.h.Valid()
    requires Holds(ReadOnly(y.h, u)) && u.file == y.file && u.l1 == y.l1
    ensures ChainByte([y] + rest, g, o) == GuestByte(y.h, u, rest, g, o)
  {
    OpenClaim(ReadOnly(y.h, u));
    ReadOnlyEntry(y.h, u, g);
    OpenGuestByte(y.h, u, rest, g, o);
    assert ([y] + rest)[1..] == rest;
  }

  lemma AlignDown(h: Header, pos: nat)
    requires h.Valid()
    ensures pos >= Rem(pos, h.clusterSize)
    ensures var p := pos - Rem(pos, h.clusterSize);
      Quot(p, h.clusterSize) == Quot(pos, h.clusterSize) && Rem(p, h.clusterSize) == 0
  {
    QuotRem(pos, h.clusterSize);
    assert Quot(pos, h.clusterSize) * h.clusterSize >= 0;
    QuotRemUnique(pos - Rem(pos, h.clusterSize), h.clusterSize, Quot(pos, h.clusterSize), 0);
  }

  /** `whole` is the cluster as the chain holds it with `data` spliced in at `o`. */
  ghost predicate Spliced(h: Header, below: seq<Layer>, g: nat, o: nat, data: seq<Byte>, whole: seq<Byte>)
    requires ChainValid(below)
  {
    && |whole| == h.clusterSize
    && forall k: nat :: k < h.clusterSize ==>
        whole[k] == if o <= k < o + |data| then data[k - o] else ChainByte(below, g, k)
  }

  ghost predicate ChainIsZero(h: Header, below: seq<Layer>, g: nat)
    requires ChainValid(below)
  {
    forall k: nat :: k < h.clusterSize ==> ChainByte(below, g, k) == 0
  }

  /** `bytes` is the whole cluster as the chain holds it. */
  ghost predicate ChainIs(h: Header, below: seq<Layer>, g: nat, bytes: seq<Byte>)
    requires ChainValid(below)
  {
    |bytes| == h.clusterSize && forall k: nat :: k < h.clusterSize ==> bytes[k] == ChainByte(below, g, k)
  }

  lemma SplicedCopy(h: Header, below: seq<Layer>, g: nat, o: nat, data: seq<Byte>, bytes: seq<Byte>)
    requires ChainValid(below) && ChainIs(h, below, g, bytes) && o + |data| <= h.clusterSize
    ensures Spliced(h, below, g, o, data, bytes[..o] + data + bytes[o + |data|..])
  {
  }

  lemma WholeBelow(h: Header, y: Layer, u: Img, rest: seq<Layer>, p: nat, g: nat, bytes: seq<Byte>)
    requires ChainValid([y] + rest) && ChainValid(rest) && y.h.Valid() && h.Valid() && y.h.clusterSize == h.clusterSize
    requires Holds(ReadOnly(y.h, u)) && u.file == y.file && u.l1 == y.l1
    requires Quot(p, h.clusterSize) == g && Rem(p, h.clusterSize) == 0
    requires Shows(y.h, u, rest, p, h.clusterSize, bytes)
    ensures ChainIs(h, [y] + rest, g, bytes)
  {
    forall k: nat
      ensures ChainByte([y] + rest, g, k) == GuestByte(y.h, u, rest, g, k)
    {
      ChainFromTop(y, u, rest, g, k);
    }
  }

  lemma NothingBelow(h: Header, y: Layer, u: Img, g: nat)
    requires ChainValid([y]) && y.h.Valid() && Holds(ReadOnly(y.h, u)) && u.file == y.file && u.l1 == y.l1
    requires GuestEntry(y.h, u, g) == 0
    ensures ChainIsZero(h, [y], g)
  {
    forall k: nat
      ensures ChainByte([y], g, k) == 0
    {
      assert [y] + [] == [y];
      ChainFromTop(y, u, [], g, k);
      OpenGuestByte(y.h, u, [], g, k);
    }
  }

  /** What a read of the whole cluster from the layer below, without made-up zeros, tells of the chain. */
  lemma WholeOrNothing(h: Header, y: Layer, u: Img, rest: seq<Layer>, p: nat, g: nat, r: Option<seq<Byte>>)
    requires ChainValid([y] + rest) && ChainValid(rest) && y.h.Valid() && h.Valid() && y.h.clusterSize == h.clusterSize
    requires Holds(ReadOnly(y.h, u)) && u.file == y.file && u.l1 == y.l1
    requires Quot(p, h.clusterSize) == g && Rem(p, h.clusterSize) == 0
    requires r.Some? ==> Shows(y.h, u, rest, p, h.clusterSize, r.value)
    requires r == None <==> rest == [] && GuestEntry(y.h, u, g) == 0
    ensures r == None <==> !ChainSupplies([y] + rest, g)
    ensures r == None ==> ChainIsZero(h, [y] + rest, g)
    ensures r.Some? ==> ChainIs(h, [y] + rest, g, r.value)
  {
    OpenClaim(ReadOnly(y.h, u));
    ReadOnlyEntry(y.h, u, g);
    if r == None {
      assert [y] + rest == [y];
      NothingBelow(h, y, u, g);
    } else {
      WholeBelow(h, y, u, rest, p, g, r.value);
    }
  }

  /** The bytes of the entry are what the guest sees. */
  lemma ShowsEntry(h: Header, s: Img, below: seq<Layer>, pos: nat, length: nat, data: seq<Byte>)
    requires h.Valid() && ChainValid(below) && |data| == ChunkLength(h, pos, length)
    requires forall k: nat :: k < |data| ==>
      data[k] == if GuestEntry(h, s, Quot(pos, h.clusterSize)) == 0
                 then ChainByte(below, Quot(pos, h.clusterSize), Rem(pos, h.clusterSize) + k)
                 else EntryByte(h, s.file, GuestEntry(h, s, Quot(pos, h.clusterSize)), Rem(pos, h.clusterSize) + k)
    ensures Shows(h, s, below, pos, length, data)
  {
    forall k: nat | k < |data|
      ensures data[k] == GuestByte(h, s, below, Quot(pos, h.clusterSize), Rem(pos, h.clusterSize) + k)
    {
      OpenGuestByte(h, s, below, Quot(pos, h.clusterSize), Rem(pos, h.clusterSize) + k);
    }
  }
}
