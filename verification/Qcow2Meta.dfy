/** The metadata of an image without caches and without encodings: which host cluster every table
    and every guest cluster has, and the refcounts. This is the reference that the cached image is
    proved to implement. Cluster number 0 in a table means "none".
 */
module Qcow2Meta {
  import opened HostFile
  import opened Qcow2Layout

  datatype Meta = Meta(
    l1: seq<nat>,
    refTable: seq<nat>,
    l2: map<nat, seq<nat>>,
    blocks: map<nat, seq<nat>>)

  /** Everything that can occupy a host cluster. */
  datatype Owner =
    | HeaderCluster
    | RefTableCluster(i: nat)
    | L1Cluster(i: nat)
    | Block(i: nat)
    | L2Table(i: nat)
    | Data(i: nat, j: nat)

  /** The entries of a table of cluster numbers that are in use. */
  ghost function Used(t: seq<nat>): set<nat> {
    set i | 0 <= i < |t| && t[i] != 0 :: t[i]
  }

  ghost predicate Shape(h: Header, m: Meta) {
    && h.Valid()
    && |m.l1| == h.l1Size && |m.refTable| == h.refTableSize
    && m.l2.Keys == Used(m.l1) && m.blocks.Keys == Used(m.refTable)
    && (forall k :: k in m.l2 ==> |m.l2[k]| == h.l2Entries)
    && (forall k :: k in m.blocks ==> |m.blocks[k]| == h.blockEntries)
  }

  /** The host cluster an owner occupies, or -1. */
  ghost function Place(h: Header, m: Meta, o: Owner): int
    requires Shape(h, m)
  {
    match o
    case HeaderCluster => 0
    case RefTableCluster(i) => if i < h.refTableClusters then h.refTableCluster + i else -1
    case L1Cluster(i) => if i < h.l1Clusters then h.l1Cluster + i else -1
    case Block(i) => if i < |m.refTable| && m.refTable[i] != 0 then m.refTable[i] else -1
    case L2Table(i) => if i < |m.l1| && m.l1[i] != 0 then m.l1[i] else -1
    case Data(i, j) => if Entry(h, m, i, j) != 0 then Entry(h, m, i, j) else -1
  }

  /** Data cluster of entry `j` of the L2 table under L1 entry `i`, or 0. */
  ghost function Entry(h: Header, m: Meta, i: nat, j: nat): nat
    requires Shape(h, m)
  {
    if i < |m.l1| && m.l1[i] != 0 && j < h.l2Entries then
      assert m.l1[i] in Used(m.l1);
      m.l2[m.l1[i]][j]
    else 0
  }

  ghost predicate HasBlock(h: Header, m: Meta, c: nat)
    requires h.Valid()
  {
    Quot(c, h.blockEntries) < |m.refTable| && m.refTable[Quot(c, h.blockEntries)] != 0
  }

  ghost function Refcount(h: Header, m: Meta, c: nat): nat
    requires Shape(h, m)
  {
    if HasBlock(h, m, c) then
      var b := m.refTable[Quot(c, h.blockEntries)];
      assert b in Used(m.refTable);
      m.blocks[b][Rem(c, h.blockEntries)]
    else 0
  }

  ghost predicate Owned(h: Header, m: Meta, c: nat)
    requires Shape(h, m)
  {
    exists o :: Place(h, m, o) == c
  }

  /** Header, refcount table, refcount blocks, L1, L2 tables and data never share a host cluster. */
  ghost predicate Disjoint(h: Header, m: Meta)
    requires Shape(h, m)
  {
    forall o, p :: Place(h, m, o) == Place(h, m, p) >= 0 ==> o == p
  }

  /** Refcounts are 1 exactly on owned clusters and on clusters just allocated (`pending`). */
  ghost predicate ExactRefcounts(h: Header, m: Meta, pending: set<nat>)
    requires Shape(h, m)
  {
    forall c: nat :: Refcount(h, m, c) == if c in pending || Owned(h, m, c) then 1 else 0
  }

  ghost predicate Consistent(h: Header, m: Meta, pending: set<nat>) {
    && Shape(h, m)
    && Disjoint(h, m)
    && ExactRefcounts(h, m, pending)
    && (forall c :: c in pending ==> !Owned(h, m, c))
  }

  /** Every cluster in use lies where WriteFile accepts writes. */
  ghost predicate InBounds(h: Header, m: Meta)
    requires Shape(h, m)
  {
    forall o :: Place(h, m, o) < h.HostLimit()
  }

  /** Clusters covered by the refcount table. */
  ghost function Capacity(h: Header): nat {
    Times(h.refTableSize, h.blockEntries)
  }

  /** Everything below the scan position is in use. */
  ghost predicate ScannedBelow(h: Header, m: Meta, free: nat)
    requires Shape(h, m)
  {
    forall c: nat :: c < free && c < Capacity(h) ==> Refcount(h, m, c) != 0
  }

  // ---------------------------------------------------------------- updates

  ghost function SetRefcount(h: Header, m: Meta, c: nat, v: nat): Meta
    requires Shape(h, m) && HasBlock(h, m, c)
  {
    var b := m.refTable[Quot(c, h.blockEntries)];
    assert b in Used(m.refTable);
    var t: seq<nat> := m.blocks[b][Rem(c, h.blockEntries) := v];
    m.(blocks := m.blocks[b := t])
  }

  function Zeros(n: nat): seq<nat> {
    seq(n, _ => 0)
  }

  /** Cluster `c` becomes the refcount block of its own range. */
  ghost function AddBlock(h: Header, m: Meta, c: nat): Meta
    requires Shape(h, m) && Quot(c, h.blockEntries) < |m.refTable|
  {
    m.(refTable := m.refTable[Quot(c, h.blockEntries) := c],
       blocks := m.blocks[c := Zeros(h.blockEntries)[Rem(c, h.blockEntries) := 1]])
  }

  ghost function LinkL2(h: Header, m: Meta, i: nat, c: nat): Meta
    requires i < |m.l1|
  {
    m.(l1 := m.l1[i := c], l2 := m.l2[c := Zeros(h.l2Entries)])
  }

  ghost function SetEntry(h: Header, m: Meta, i: nat, j: nat, c: nat): Meta
    requires Shape(h, m) && i < |m.l1| && m.l1[i] != 0 && j < h.l2Entries
  {
    assert m.l1[i] in Used(m.l1);
    var t: seq<nat> := m.l2[m.l1[i]][j := c];
    m.(l2 := m.l2[m.l1[i] := t])
  }

  // ---------------------------------------------------------------- ownership changes

  /** `n` places `o` at `c` and everything else as `m` does. */
  ghost predicate Moves(h: Header, m: Meta, n: Meta, o: Owner, c: int)
    requires Shape(h, m) && Shape(h, n)
  {
    forall p :: Place(h, n, p) == if p == o then c else Place(h, m, p)
  }

  lemma AddOwner(h: Header, m: Meta, n: Meta, o: Owner, c: nat)
    requires Shape(h, m) && Shape(h, n) && Disjoint(h, m)
    requires Moves(h, m, n, o, c) && Place(h, m, o) < 0 && !Owned(h, m, c)
    ensures Disjoint(h, n)
    ensures forall d: nat :: Owned(h, n, d) <==> Owned(h, m, d) || d == c
  {
    forall d: nat
      ensures Owned(h, n, d) <==> Owned(h, m, d) || d == c
    {
      if Owned(h, m, d) {
        var p :| Place(h, m, p) == d;
        assert Place(h, n, p) == d;
      }
      if d == c {
        assert Place(h, n, o) == d;
      }
      if Owned(h, n, d) {
        var p :| Place(h, n, p) == d;
        assert p == o || Place(h, m, p) == d;
      }
    }
  }

  lemma RemoveOwner(h: Header, m: Meta, n: Meta, o: Owner, c: nat)
    requires Shape(h, m) && Shape(h, n) && Disjoint(h, m)
    requires Moves(h, m, n, o, -1) && Place(h, m, o) == c
    ensures Disjoint(h, n)
    ensures forall d: nat :: Owned(h, n, d) <==> Owned(h, m, d) && d != c
  {
    forall d: nat
      ensures Owned(h, n, d) <==> Owned(h, m, d) && d != c
    {
      if Owned(h, m, d) && d != c {
        var p :| Place(h, m, p) == d;
        assert Place(h, n, p) == d;
      }
      if Owned(h, n, d) {
        var p :| Place(h, n, p) == d;
        assert Place(h, m, p) == d;
      }
    }
  }

  lemma SamePlaces(h: Header, m: Meta, n: Meta)
    requires Shape(h, m) && Shape(h, n)
    requires m.l1 == n.l1 && m.refTable == n.refTable && m.l2 == n.l2
    ensures forall o :: Place(h, m, o) == Place(h, n, o)
    ensures forall c: nat :: Owned(h, m, c) <==> Owned(h, n, c)
  {
    assert forall i: nat, j: nat :: Entry(h, m, i, j) == Entry(h, n, i, j);
    forall o
      ensures Place(h, m, o) == Place(h, n, o)
    {
      match o case Data(i, j) => case _ =>
    }
    forall c: nat
      ensures Owned(h, m, c) <==> Owned(h, n, c)
    {
      if Owned(h, m, c) {
        var o :| Place(h, m, o) == c;
        assert Place(h, n, o) == c;
      }
      if Owned(h, n, c) {
        var o :| Place(h, n, o) == c;
        assert Place(h, m, o) == c;
      }
    }
  }

  // ---------------------------------------------------------------- refcounts

  lemma SameIndex(b: nat, c: nat, d: nat)
    requires b > 0 && Quot(c, b) == Quot(d, b) && Rem(c, b) == Rem(d, b)
    ensures c == d
  {
    QuotRem(c, b);
    QuotRem(d, b);
  }

  lemma RefcountOfSet(h: Header, m: Meta, c: nat, v: nat)
    requires Shape(h, m) && Disjoint(h, m) && HasBlock(h, m, c)
    ensures Shape(h, SetRefcount(h, m, c, v))
    ensures forall d: nat ::
      Refcount(h, SetRefcount(h, m, c, v), d) == if d == c then v else Refcount(h, m, d)
  {
    var n := SetRefcount(h, m, c, v);
    var e := h.blockEntries;
    assert Place(h, m, Block(Quot(c, e))) == m.refTable[Quot(c, e)];
    assert m.refTable[Quot(c, e)] in Used(m.refTable);
    assert n.blocks.Keys == m.blocks.Keys;
    forall d: nat
      ensures Refcount(h, n, d) == if d == c then v else Refcount(h, m, d)
    {
      if HasBlock(h, m, d) {
        assert Place(h, m, Block(Quot(d, e))) == m.refTable[Quot(d, e)];
        if Quot(d, e) == Quot(c, e) && Rem(d, e) == Rem(c, e) {
          SameIndex(e, c, d);
        }
      }
    }
  }

  /** Taking a free cluster of an existing block. */
  lemma TakeKeepsConsistent(h: Header, m: Meta, pending: set<nat>, c: nat)
    requires Consistent(h, m, pending) && HasBlock(h, m, c) && Refcount(h, m, c) == 0
    ensures Consistent(h, SetRefcount(h, m, c, 1), pending + {c})
    ensures forall o :: Place(h, SetRefcount(h, m, c, 1), o) == Place(h, m, o)
  {
    RefcountOfSet(h, m, c, 1);
    SamePlaces(h, m, SetRefcount(h, m, c, 1));
  }

  lemma UsedUpdate(t: seq<nat>, i: nat, c: nat)
    requires i < |t| && t[i] == 0 && c != 0
    ensures Used(t[i := c]) == Used(t) + {c}
  {
    var u := t[i := c];
    assert u[i] == c;
    forall k | k in Used(t)
      ensures k in Used(u)
    {
      var j :| 0 <= j < |t| && t[j] != 0 && t[j] == k;
      assert u[j] == k;
    }
  }

  lemma AddBlockShape(h: Header, m: Meta, c: nat)
    requires Shape(h, m) && c != 0 && Quot(c, h.blockEntries) < |m.refTable| && !HasBlock(h, m, c)
    ensures Shape(h, AddBlock(h, m, c))
  {
    UsedUpdate(m.refTable, Quot(c, h.blockEntries), c);
  }

  lemma RefcountOfAddBlock(h: Header, m: Meta, c: nat, d: nat)
    requires Shape(h, m) && Quot(c, h.blockEntries) < |m.refTable|
    requires Shape(h, AddBlock(h, m, c)) && !HasBlock(h, m, c) && !Owned(h, m, c) && c != 0
    ensures Refcount(h, AddBlock(h, m, c), d) == if d == c then 1 else Refcount(h, m, d)
  {
    var n := AddBlock(h, m, c);
    var e := h.blockEntries;
    var q: nat, r: nat := Quot(d, e), Rem(d, e);
    QuotRem(d, e);
    if q == Quot(c, e) {
      assert n.refTable[q] == c;
      if r == Rem(c, e) {
        SameIndex(e, c, d);
      } else {
        assert n.blocks[c][r] == 0;
      }
    } else if HasBlock(h, m, d) {
      assert n.refTable[q] == m.refTable[q];
      assert Place(h, m, Block(q)) == m.refTable[q];
    }
  }

  /** A range without a block is free, so any cluster of it may become its block. */
  lemma AddBlockKeepsConsistent(h: Header, m: Meta, pending: set<nat>, c: nat)
    requires Consistent(h, m, pending)
    requires Quot(c, h.blockEntries) < |m.refTable| && !HasBlock(h, m, c)
    ensures Consistent(h, AddBlock(h, m, c), pending) && HasBlock(h, AddBlock(h, m, c), c)
    ensures Moves(h, m, AddBlock(h, m, c), Block(Quot(c, h.blockEntries)), c)
    ensures forall d: nat ::
      Refcount(h, AddBlock(h, m, c), d) == if d == c then 1 else Refcount(h, m, d)
  {
    var n := AddBlock(h, m, c);
    assert Refcount(h, m, c) == 0;
    assert Place(h, m, HeaderCluster) == 0;
    assert Owned(h, m, 0);
    AddBlockShape(h, m, c);
    forall d: nat
      ensures Refcount(h, n, d) == if d == c then 1 else Refcount(h, m, d)
    {
      RefcountOfAddBlock(h, m, c, d);
    }
    var o := Block(Quot(c, h.blockEntries));
    forall p
      ensures Place(h, n, p) == if p == o then c else Place(h, m, p)
    {
      match p case Data(i, j) => assert Entry(h, n, i, j) == Entry(h, m, i, j); case _ =>
    }
    AddOwner(h, m, n, o, c);
  }

  lemma RefcountSame(h: Header, m: Meta, n: Meta)
    requires Shape(h, m) && Shape(h, n) && m.refTable == n.refTable && m.blocks == n.blocks
    ensures forall d: nat :: Refcount(h, m, d) == Refcount(h, n, d)
  {
  }

  lemma LinkL2KeepsConsistent(h: Header, m: Meta, pending: set<nat>, i: nat, c: nat)
    requires Consistent(h, m, pending) && c in pending && i < |m.l1| && m.l1[i] == 0
    ensures Consistent(h, LinkL2(h, m, i, c), pending - {c})
    ensures Moves(h, m, LinkL2(h, m, i, c), L2Table(i), c)
    ensures forall i': nat, j: nat :: Entry(h, LinkL2(h, m, i, c), i', j) == Entry(h, m, i', j)
  {
    var n := LinkL2(h, m, i, c);
    assert Place(h, m, HeaderCluster) == 0;
    assert Owned(h, m, 0);
    UsedUpdate(m.l1, i, c);
    RefcountSame(h, m, n);
    forall i': nat, j: nat
      ensures Entry(h, n, i', j) == Entry(h, m, i', j)
    {
      if i' < |m.l1| && m.l1[i'] != 0 {
        assert Place(h, m, L2Table(i')) == m.l1[i'];
      }
    }
    forall p
      ensures Place(h, n, p) == if p == L2Table(i) then c else Place(h, m, p)
    {
      match p case Data(i', j) => assert Entry(h, n, i', j) == Entry(h, m, i', j); case _ =>
    }
    AddOwner(h, m, n, L2Table(i), c);
  }

  lemma EntryOfSet(h: Header, m: Meta, i: nat, j: nat, c: nat)
    requires Shape(h, m) && Disjoint(h, m) && i < |m.l1| && m.l1[i] != 0 && j < h.l2Entries
    ensures Shape(h, SetEntry(h, m, i, j, c))
    ensures forall i': nat, j': nat ::
      Entry(h, SetEntry(h, m, i, j, c), i', j') == if i' == i && j' == j then c else Entry(h, m, i', j')
  {
    var n := SetEntry(h, m, i, j, c);
    assert Place(h, m, L2Table(i)) == m.l1[i];
    assert m.l1[i] in Used(m.l1);
    assert n.l2.Keys == m.l2.Keys;
    forall i': nat, j': nat
      ensures Entry(h, n, i', j') == if i' == i && j' == j then c else Entry(h, m, i', j')
    {
      if i' < |m.l1| && m.l1[i'] != 0 {
        assert Place(h, m, L2Table(i')) == m.l1[i'];
      }
    }
  }

  lemma SetEntryMoves(h: Header, m: Meta, i: nat, j: nat, c: nat)
    requires Shape(h, m) && Disjoint(h, m) && i < |m.l1| && m.l1[i] != 0 && j < h.l2Entries
    ensures Shape(h, SetEntry(h, m, i, j, c))
    ensures Moves(h, m, SetEntry(h, m, i, j, c), Data(i, j), if c == 0 then -1 else c)
  {
    var n := SetEntry(h, m, i, j, c);
    EntryOfSet(h, m, i, j, c);
    forall p
      ensures Place(h, n, p) == if p == Data(i, j) then (if c == 0 then -1 else c) else Place(h, m, p)
    {
      match p case Data(i', j') => case _ =>
    }
  }

  /** Giving a guest cluster its freshly allocated host cluster. */
  lemma LinkDataKeepsConsistent(h: Header, m: Meta, pending: set<nat>, i: nat, j: nat, c: nat)
    requires Consistent(h, m, pending) && c in pending
    requires i < |m.l1| && m.l1[i] != 0 && j < h.l2Entries && Entry(h, m, i, j) == 0
    ensures Consistent(h, SetEntry(h, m, i, j, c), pending - {c})
    ensures Moves(h, m, SetEntry(h, m, i, j, c), Data(i, j), c)
  {
    var n := SetEntry(h, m, i, j, c);
    assert Place(h, m, HeaderCluster) == 0;
    assert Owned(h, m, 0);
    SetEntryMoves(h, m, i, j, c);
    RefcountSame(h, m, n);
    AddOwner(h, m, n, Data(i, j), c);
  }

  /** Discarding a data cluster: its refcount drops to 0 and its entry is cleared. */
  lemma DropDataKeepsConsistent(h: Header, m: Meta, pending: set<nat>, i: nat, j: nat)
    requires Consistent(h, m, pending)
    requires i < |m.l1| && m.l1[i] != 0 && j < h.l2Entries && Entry(h, m, i, j) != 0
    ensures var c := Entry(h, m, i, j);
      && HasBlock(h, m, c) && Refcount(h, m, c) == 1
      && Shape(h, SetRefcount(h, m, c, 0))
      && var n := SetEntry(h, SetRefcount(h, m, c, 0), i, j, 0);
      && Consistent(h, n, pending)
      && Moves(h, m, n, Data(i, j), -1)
      && Refcount(h, n, c) == 0
      && (forall d: nat :: d != c ==> Refcount(h, n, d) == Refcount(h, m, d))
  {
    var c := Entry(h, m, i, j);
    assert Place(h, m, Data(i, j)) == c;
    assert Owned(h, m, c);
    assert Refcount(h, m, c) == 1;
    RefcountOfSet(h, m, c, 0);
    var k := SetRefcount(h, m, c, 0);
    SamePlaces(h, m, k);
    assert Disjoint(h, k);
    SetEntryMoves(h, k, i, j, 0);
    var n := SetEntry(h, k, i, j, 0);
    RefcountSame(h, k, n);
    assert Moves(h, m, n, Data(i, j), -1);
    RemoveOwner(h, m, n, Data(i, j), c);
  }

  // ---------------------------------------------------------------- allocation

  lemma {:induction false} QuotBelow(c: nat, e: nat, k: nat)
    requires e > 0
    ensures Quot(c, e) < k <==> c < Times(k, e)
  {
    if c >= e && k > 0 {
      QuotBelow(c - e, e, k - 1);
    }
  }

  lemma WithinCapacity(h: Header, c: nat)
    requires h.Valid()
    ensures Quot(c, h.blockEntries) < h.refTableSize <==> c < Capacity(h)
  {
    QuotBelow(c, h.blockEntries, h.refTableSize);
  }

  /** The cluster after the first of a range is in the same range. */
  lemma NextInRange(h: Header, c: nat)
    requires h.Valid() && Rem(c, h.blockEntries) == 0
    ensures Quot(c + 1, h.blockEntries) == Quot(c, h.blockEntries)
  {
    QuotRem(c, h.blockEntries);
    QuotRemUnique(c + 1, h.blockEntries, Quot(c, h.blockEntries), 1);
  }

  /** A scan can only meet a missing block at the start of the block's range. */
  lemma MissingBlockAtRangeStart(h: Header, m: Meta, c: nat)
    requires Shape(h, m) && ScannedBelow(h, m, c) && !HasBlock(h, m, c) && c < Capacity(h)
    ensures Rem(c, h.blockEntries) == 0
  {
    var e := h.blockEntries;
    QuotRem(c, e);
    var start := Quot(c, e) * e;
    QuotRemUnique(start, e, Quot(c, e), 0);
    assert Refcount(h, m, start) == 0;
  }

  /** First fit: `r` is the lowest free cluster, or the one right above it when the lowest free
      cluster had to become a refcount block. */
  ghost predicate Took(h: Header, m: Meta, n: Meta, r: nat)
    requires Shape(h, m)
  {
    if HasBlock(h, m, r) then
      n == SetRefcount(h, m, r, 1) && forall d: nat :: d < r ==> Refcount(h, m, d) != 0
    else
      && r > 0 && Quot(r - 1, h.blockEntries) == Quot(r, h.blockEntries) < |m.refTable|
      && Shape(h, AddBlock(h, m, r - 1)) && HasBlock(h, AddBlock(h, m, r - 1), r)
      && n == SetRefcount(h, AddBlock(h, m, r - 1), r, 1)
      && forall d: nat :: d < r - 1 ==> Refcount(h, m, d) != 0
  }

  /** What an allocation leaves behind: a pending cluster that was free, everything else as it was
      apart from one refcount block, and nothing free below it. */
  ghost predicate Allocated(h: Header, m: Meta, pending: set<nat>, n: Meta, r: nat)
    requires Shape(h, m)
  {
    && Consistent(h, n, pending + {r}) && ScannedBelow(h, n, r + 1)
    && n.l1 == m.l1 && n.l2 == m.l2 && !Owned(h, m, r)
    && (forall o :: Place(h, n, o) == Place(h, m, o) || (Place(h, m, o) == -1 && Place(h, n, o) == r - 1))
    && (forall d: nat :: Refcount(h, n, d) == Refcount(h, m, d) || d == r || (d == r - 1 && Refcount(h, m, d) == 0))
  }

  lemma TookFromBlock(h: Header, m: Meta, pending: set<nat>, n: Meta, r: nat)
    requires Consistent(h, m, pending) && Refcount(h, m, r) == 0 && Took(h, m, n, r) && HasBlock(h, m, r)
    ensures Allocated(h, m, pending, n, r)
  {
    RefcountOfSet(h, m, r, 1);
    TakeKeepsConsistent(h, m, pending, r);
  }

  lemma TookFromNewBlock(h: Header, m: Meta, pending: set<nat>, n: Meta, r: nat)
    requires Consistent(h, m, pending) && Refcount(h, m, r) == 0 && Took(h, m, n, r) && !HasBlock(h, m, r)
    ensures Allocated(h, m, pending, n, r)
  {
    var k := AddBlock(h, m, r - 1);
    AddBlockKeepsConsistent(h, m, pending, r - 1);
    assert Refcount(h, k, r) == 0;
    RefcountOfSet(h, k, r, 1);
    TakeKeepsConsistent(h, k, pending, r);
    forall o
      ensures Place(h, n, o) == Place(h, m, o) || (Place(h, m, o) == -1 && Place(h, n, o) == r - 1)
    {
      assert Place(h, n, o) == Place(h, k, o);
    }
  }

  lemma TookKeepsConsistent(h: Header, m: Meta, pending: set<nat>, n: Meta, r: nat)
    requires Consistent(h, m, pending) && Refcount(h, m, r) == 0 && Took(h, m, n, r)
    ensures Allocated(h, m, pending, n, r)
  {
    if HasBlock(h, m, r) {
      TookFromBlock(h, m, pending, n, r);
    } else {
      TookFromNewBlock(h, m, pending, n, r);
    }
  }

  /** Free clusters that WriteFile can reach. */
  ghost function Room(h: Header, m: Meta): set<nat>
    requires Shape(h, m)
  {
    set c: nat | c < h.HostLimit() && c < Capacity(h) && Refcount(h, m, c) == 0
  }

  lemma TwoMembers(s: set<nat>) returns (a: nat, b: nat)
    requires |s| >= 2
    ensures a in s && b in s && a < b
  {
    a :| a in s;
    assert |s - {a}| >= 1;
    b :| b in s - {a};
    if b < a {
      a, b := b, a;
    }
  }

  /** An allocation uses up at most two reachable free clusters. */
  lemma TookRoom(h: Header, m: Meta, pending: set<nat>, n: Meta, r: nat)
    requires Shape(h, m) && Allocated(h, m, pending, n, r)
    ensures |Room(h, n)| >= |Room(h, m)| - 2
  {
    CardinalityBound(Room(h, m), Room(h, n), r);
  }

  /** With two reachable free clusters an allocation stays inside the reachable part. */
  lemma TookWithRoom(h: Header, m: Meta, n: Meta, r: nat)
    requires Shape(h, m) && |Room(h, m)| >= 2 && Took(h, m, n, r)
    ensures r < h.HostLimit()
  {
    var a, b := TwoMembers(Room(h, m));
  }

  lemma CardinalityBound(s: set<nat>, t: set<nat>, r: nat)
    requires forall c :: c in s ==> c in t || c == r || c == r - 1
    ensures |t| >= |s| - 2
  {
    var u := s - {r} - {r - 1};
    assert u <= t;
    assert |s| <= |s - {r}| + 1;
    assert |s - {r}| <= |u| + 1;
    SubsetCardinality(u, t);
  }

  lemma {:induction false} SubsetCardinality(s: set<nat>, t: set<nat>)
    requires s <= t
    ensures |s| <= |t|
  {
    if s != {} {
      var x :| x in s;
      SubsetCardinality(s - {x}, t - {x});
    }
  }

  // ---------------------------------------------------------------- which cluster comes next

  /** The lowest free cluster from `c` on, or the capacity. */
  ghost function LowestFree(h: Header, m: Meta, c: nat): nat
    requires Shape(h, m)
    decreases Capacity(h) - c
  {
    if c >= Capacity(h) then Capacity(h)
    else if Refcount(h, m, c) == 0 then c
    else LowestFree(h, m, c + 1)
  }

  lemma {:induction false} LowestFreeIs(h: Header, m: Meta, c: nat, r: nat)
    requires Shape(h, m) && c <= r < Capacity(h) && Refcount(h, m, r) == 0
    requires forall d: nat :: c <= d < r ==> Refcount(h, m, d) != 0
    ensures LowestFree(h, m, c) == r
    decreases r - c
  {
    if c < r {
      LowestFreeIs(h, m, c + 1, r);
    }
  }

  /** The cluster that the next allocation takes, a function of the metadata: the lowest free one, or the
      one above it when the lowest must become a refcount block; 0 when nothing is free. */
  ghost function NextTake(h: Header, m: Meta): nat
    requires Shape(h, m)
  {
    var c := LowestFree(h, m, 0);
    if c >= Capacity(h) then 0 else if HasBlock(h, m, c) then c else c + 1
  }

  /** The metadata after that allocation. */
  ghost function Taken(h: Header, m: Meta): (n: Meta)
    requires Shape(h, m)
    ensures Shape(h, n)
  {
    var r := NextTake(h, m);
    if HasBlock(h, m, r) then
      SetRefcountShape(h, m, r, 1);
      SetRefcount(h, m, r, 1)
    else if r > 1 && Quot(r - 1, h.blockEntries) == Quot(r, h.blockEntries) < |m.refTable| then
      AddBlockShape(h, m, r - 1);
      SetRefcountShape(h, AddBlock(h, m, r - 1), r, 1);
      SetRefcount(h, AddBlock(h, m, r - 1), r, 1)
    else m
  }

  lemma SetRefcountShape(h: Header, m: Meta, c: nat, v: nat)
    requires Shape(h, m) && HasBlock(h, m, c)
    ensures Shape(h, SetRefcount(h, m, c, v))
  {
    assert m.refTable[Quot(c, h.blockEntries)] in Used(m.refTable);
    assert SetRefcount(h, m, c, v).blocks.Keys == m.blocks.Keys;
  }

  /** The cluster that the data of a guest cluster under L1 entry `i` gets when it is first written: the
      next one, or the one after that when the L2 table comes first. */
  ghost function NextUnder(h: Header, m: Meta, i: nat): nat
    requires Shape(h, m)
  {
    if HasL2(m, i) then NextTake(h, m) else NextTake(h, Taken(h, m))
  }

  /** L1 entry `i` has an L2 table. */
  ghost predicate HasL2(m: Meta, i: nat) {
    i < |m.l1| && m.l1[i] != 0
  }

  lemma TookIsNext(h: Header, m: Meta, n: Meta, r: nat)
    requires Shape(h, m) && Refcount(h, m, r) == 0 && 0 < r < Capacity(h) && Took(h, m, n, r)
    ensures NextTake(h, m) == r && Taken(h, m) == n
  {
    if HasBlock(h, m, r) {
      LowestFreeIs(h, m, 0, r);
    } else {
      assert !HasBlock(h, m, r - 1);
      LowestFreeIs(h, m, 0, r - 1);
    }
  }

  lemma {:induction false} LowestFreeSame(h: Header, m: Meta, n: Meta, c: nat)
    requires Shape(h, m) && Shape(h, n) && m.refTable == n.refTable && m.blocks == n.blocks
    ensures LowestFree(h, m, c) == LowestFree(h, n, c)
    decreases Capacity(h) - c
  {
    RefcountSame(h, m, n);
    if c < Capacity(h) {
      LowestFreeSame(h, m, n, c + 1);
    }
  }

  /** The next cluster depends on the refcounts only. */
  lemma NextTakeSame(h: Header, m: Meta, n: Meta)
    requires Shape(h, m) && Shape(h, n) && m.refTable == n.refTable && m.blocks == n.blocks
    ensures NextTake(h, m) == NextTake(h, n)
  {
    LowestFreeSame(h, m, n, 0);
  }

  lemma {:induction false} NothingFree(h: Header, m: Meta, c: nat)
    requires Shape(h, m) && forall d: nat :: c <= d < Capacity(h) ==> Refcount(h, m, d) != 0
    ensures LowestFree(h, m, c) == Capacity(h)
    decreases Capacity(h) - c
  {
    if c < Capacity(h) {
      NothingFree(h, m, c + 1);
    }
  }

  // ---------------------------------------------------------------- how many allocations succeed

  /** A cluster that WriteFile reaches. */
  ghost predicate InReach(h: Header, c: nat)
    requires h.Valid()
  {
    0 < c < h.HostLimit()
  }

  /** The next `k` allocations all find clusters within reach of WriteFile. */
  ghost predicate Supply(h: Header, m: Meta, k: nat)
    requires Shape(h, m)
    decreases k
  {
    k == 0 || (InReach(h, NextTake(h, m)) && Supply(h, Taken(h, m), k - 1))
  }

  /** Where `b` allocations succeed, fewer do. */
  lemma {:induction false} SupplyShorter(h: Header, m: Meta, a: nat, b: nat)
    requires Shape(h, m) && a <= b && Supply(h, m, b)
    ensures Supply(h, m, a)
    decreases a
  {
    if a > 0 {
      SupplyShorter(h, Taken(h, m), a - 1, b - 1);
    }
  }

  /** The two metadata have the same refcount blocks. */
  ghost predicate SameBlocks(m: Meta, n: Meta) {
    m.refTable == n.refTable && m.blocks == n.blocks
  }

  lemma CountedSame(h: Header, m: Meta, n: Meta, c: nat)
    requires Shape(h, m) && Shape(h, n) && SameBlocks(m, n) && HasBlock(h, m, c)
    ensures SameBlocks(SetRefcount(h, m, c, 1), SetRefcount(h, n, c, 1))
  {
  }

  lemma TakenSame(h: Header, m: Meta, n: Meta)
    requires Shape(h, m) && Shape(h, n) && SameBlocks(m, n)
    ensures SameBlocks(Taken(h, m), Taken(h, n)) && NextTake(h, m) == NextTake(h, n)
  {
    NextTakeSame(h, m, n);
    var r := NextTake(h, m);
    if HasBlock(h, m, r) {
      CountedSame(h, m, n, r);
    } else if r > 1 && Quot(r - 1, h.blockEntries) == Quot(r, h.blockEntries) < |m.refTable| {
      AddBlockShape(h, m, r - 1);
      AddBlockShape(h, n, r - 1);
      CountedSame(h, AddBlock(h, m, r - 1), AddBlock(h, n, r - 1), r);
    }
  }

  /** The supply depends on the refcounts only. */
  lemma {:induction false} SupplySame(h: Header, m: Meta, n: Meta, k: nat)
    requires Shape(h, m) && Shape(h, n) && SameBlocks(m, n)
    ensures Supply(h, m, k) <==> Supply(h, n, k)
    decreases k
  {
    if k > 0 {
      TakenSame(h, m, n);
      SupplySame(h, Taken(h, m), Taken(h, n), k - 1);
    }
  }

  /** One allocation for the data under L1 entry `i`, or two when its L2 table comes first. */
  lemma SupplyForData(h: Header, m: Meta, i: nat)
    requires Shape(h, m)
    ensures HasL2(m, i) ==> (Supply(h, m, 1) <==> InReach(h, NextUnder(h, m, i)))
    ensures !HasL2(m, i) ==> (Supply(h, m, 2) <==> InReach(h, NextTake(h, m)) && InReach(h, NextUnder(h, m, i)))
  {
    assert Supply(h, m, 1) <==> InReach(h, NextTake(h, m)) && Supply(h, Taken(h, m), 0);
    assert Supply(h, m, 2) <==> InReach(h, NextTake(h, m)) && Supply(h, Taken(h, m), 1);
  }
}
