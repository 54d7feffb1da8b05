/** Whether the writes of a transfer find clusters, from the image before the transfer alone. */
module Qcow2Supply {
  import opened Common
  import opened HostFile
  import opened Qcow2Layout
  import opened Qcow2Meta
  import opened Qcow2State
  import opened Qcow2Disk
  import opened Qcow2Search
  import opened Qcow2Guest
  import opened Qcow2Flush
  import opened Qcow2Transfer

  /** The guest clusters of the `n` bytes at `pos`. */
  ghost function Clusters(h: Header, pos: nat, n: nat): set<nat>
    requires h.Valid()
  {
    set p: nat | pos <= p < pos + n :: Quot(p, h.clusterSize)
  }

  /** The guest clusters of `w` that have no host cluster. */
  ghost function Lacking(h: Header, s: Img, w: set<nat>): set<nat> {
    set g | g in w && View(h, s).data(g) == 0
  }

  /** The L1 entries of the guest clusters of `w`. */
  ghost function Tops(h: Header, w: set<nat>): set<nat>
    requires h.Valid()
  {
    set g | g in w :: Quot(g, h.l2Entries)
  }

  /** Those that have no L2 table. */
  ghost function Untabled(h: Header, s: Img, w: set<nat>): set<nat>
    requires h.Valid()
  {
    set i | i in Tops(h, w) && !View(h, s).tabled(i)
  }

  /** The host clusters that writes to all of `w` allocate: one for each guest cluster without one, and
      one for each L2 table that is missing. */
  ghost function Allocs(h: Header, s: Img, w: set<nat>): nat
    requires h.Valid()
  {
    |Lacking(h, s, w)| + |Untabled(h, s, w)|
  }

  /** All of these allocations, made one after the other, find clusters within reach of WriteFile. */
  ghost predicate Affords(h: Header, s: Img, w: set<nat>, veil: Veil := VEIL)
    requires h.Valid()
  {
    match veil
    case Bare => View(h, s).supply(Allocs(h, s, w))
    case Fold(inner) => Affords(h, s, w, inner)
  }

  lemma {:induction false} OpenAffords(h: Header, s: Img, w: set<nat>, veil: Veil := VEIL)
    requires h.Valid()
    ensures Affords(h, s, w, veil) <==> View(h, s).supply(Allocs(h, s, w))
  {
    if veil.Fold? {
      OpenAffords(h, s, w, veil.inner);
    }
  }

  /** `t` after writes to all of `w` in `s`. */
  ghost predicate SuppliedTo(h: Header, s: Img, t: Img, w: set<nat>)
    requires h.Valid()
  {
    && Spent(h, s, t, Allocs(h, s, w))
    && (forall g: nat :: View(h, t).data(g) != 0 <==> View(h, s).data(g) != 0 || g in w)
    && (forall i: nat :: View(h, t).tabled(i) <==> View(h, s).tabled(i) || i in Tops(h, w))
  }

  /** Folded like the claims. */
  ghost predicate Supplied(h: Header, s: Img, t: Img, w: set<nat>, veil: Veil := VEIL)
    requires h.Valid()
  {
    match veil
    case Bare => SuppliedTo(h, s, t, w) == true
    case Fold(inner) => Supplied(h, s, t, w, inner)
  }

  lemma {:induction false} OpenSupplied(h: Header, s: Img, t: Img, w: set<nat>, veil: Veil := VEIL)
    requires h.Valid()
    ensures Supplied(h, s, t, w, veil) <==> SuppliedTo(h, s, t, w)
  {
    if veil.Fold? {
      OpenSupplied(h, s, t, w, veil.inner);
    }
  }

  // ---------------------------------------------------------------- sets of clusters

  lemma ClustersOfTwo(h: Header, pos: nat, a: nat, b: nat)
    requires h.Valid()
    ensures Clusters(h, pos, a + b) == Clusters(h, pos, a) + Clusters(h, pos + a, b)
  {
    var all, front, back := Clusters(h, pos, a + b), Clusters(h, pos, a), Clusters(h, pos + a, b);
    forall g | g in all
      ensures g in front + back
    {
      var p: nat :| pos <= p < pos + (a + b) && Quot(p, h.clusterSize) == g;
      assert p < pos + a || pos + a <= p < pos + a + b;
    }
    forall g | g in front + back
      ensures g in all
    {
      if g in front {
        var p: nat :| pos <= p < pos + a && Quot(p, h.clusterSize) == g;
      } else {
        var p: nat :| pos + a <= p < pos + a + b && Quot(p, h.clusterSize) == g;
      }
    }
  }

  lemma ClustersOfChunk(h: Header, pos: nat, n: nat)
    requires h.Valid() && n > 0 && Rem(pos, h.clusterSize) + n <= h.clusterSize
    ensures Clusters(h, pos, n) == {Quot(pos, h.clusterSize)}
  {
    forall p: nat | pos <= p < pos + n
      ensures Quot(p, h.clusterSize) == Quot(pos, h.clusterSize)
    {
      InsideChunk(h.clusterSize, pos, n, p);
    }
    assert pos <= pos < pos + n;
  }

  lemma ClustersGrow(h: Header, pos: nat, a: nat, b: nat)
    requires h.Valid() && a <= b
    ensures Clusters(h, pos, a) <= Clusters(h, pos, b)
  {
  }

  // ---------------------------------------------------------------- counting allocations

  lemma AllocsGrow(h: Header, s: Img, w: set<nat>, x: set<nat>)
    requires h.Valid() && w <= x
    ensures Allocs(h, s, w) <= Allocs(h, s, x)
  {
    SubsetCardinality(Lacking(h, s, w), Lacking(h, s, x));
    SubsetCardinality(Untabled(h, s, w), Untabled(h, s, x));
  }

  lemma DisjointSizes(a: set<nat>, b: set<nat>, c: set<nat>)
    requires forall x :: x in c <==> x in a || x in b
    requires forall x :: x in a ==> x !in b
    ensures |c| == |a| + |b|
  {
    assert c == a + b;
  }

  lemma LackingJoin(h: Header, s: Img, t: Img, w: set<nat>, x: set<nat>)
    requires forall g: nat :: View(h, t).data(g) != 0 <==> View(h, s).data(g) != 0 || g in w
    ensures |Lacking(h, s, w + x)| == |Lacking(h, s, w)| + |Lacking(h, t, x)|
  {
    DisjointSizes(Lacking(h, s, w), Lacking(h, t, x), Lacking(h, s, w + x));
  }

  lemma UntabledJoin(h: Header, s: Img, t: Img, w: set<nat>, x: set<nat>)
    requires h.Valid() && forall i: nat :: View(h, t).tabled(i) <==> View(h, s).tabled(i) || i in Tops(h, w)
    ensures |Untabled(h, s, w + x)| == |Untabled(h, s, w)| + |Untabled(h, t, x)|
  {
    TopsJoin(h, w, x);
    DisjointSizes(Untabled(h, s, w), Untabled(h, t, x), Untabled(h, s, w + x));
  }

  /** Writes to `w` and then to `x` allocate as much as writes to both. */
  lemma AllocsJoin(h: Header, s: Img, t: Img, w: set<nat>, x: set<nat>)
    requires h.Valid() && SuppliedTo(h, s, t, w)
    ensures Allocs(h, s, w + x) == Allocs(h, s, w) + Allocs(h, t, x)
  {
    LackingJoin(h, s, t, w, x);
    UntabledJoin(h, s, t, w, x);
  }

  lemma TopsJoin(h: Header, w: set<nat>, x: set<nat>)
    requires h.Valid()
    ensures Tops(h, w + x) == Tops(h, w) + Tops(h, x)
  {
  }

  lemma SpentJoin(h: Header, s: Img, t: Img, u: Img, w: set<nat>, x: set<nat>)
    requires h.Valid() && SuppliedTo(h, s, t, w) && Spent(h, t, u, Allocs(h, t, x))
    ensures Spent(h, s, u, Allocs(h, s, w + x))
  {
    AllocsJoin(h, s, t, w, x);
    SpentOn(h, s, t, u, Allocs(h, s, w), Allocs(h, t, x));
  }

  lemma SuppliedJoin(h: Header, s: Img, t: Img, u: Img, w: set<nat>, x: set<nat>)
    requires h.Valid() && Supplied(h, s, t, w) && Supplied(h, t, u, x)
    ensures Supplied(h, s, u, w + x)
  {
    OpenSupplied(h, s, t, w);
    OpenSupplied(h, t, u, x);
    SpentJoin(h, s, t, u, w, x);
    TopsJoin(h, w, x);
    OpenSupplied(h, s, u, w + x);
  }

  lemma SupplyCovers(h: Header, s: Img, a: nat, b: nat)
    requires View(h, s).supply(b) && a <= b
    ensures View(h, s).supply(a)
  {
    OpenView(h, s);
    SupplyShorter(h, Abs(h, s), a, b);
  }

  /** What was written was affordable. */
  lemma SuppliedWasAfforded(h: Header, s: Img, t: Img, w: set<nat>)
    requires h.Valid() && Supplied(h, s, t, w) && Holds(Idle(h, t))
    ensures Affords(h, s, w)
  {
    OpenSupplied(h, s, t, w);
    OpenClaim(Idle(h, t));
    ViewSupply(h, t);
    assert View(h, t).supply(0);
    OpenAffords(h, s, w);
  }

  /** If after writes to `w` those to `x` are too many, then writes to both were. */
  lemma TooMany(h: Header, s: Img, t: Img, w: set<nat>, x: set<nat>, all: set<nat>)
    requires h.Valid() && Supplied(h, s, t, w) && !Affords(h, t, x) && w + x <= all
    ensures !Affords(h, s, all)
  {
    OpenSupplied(h, s, t, w);
    AllocsJoin(h, s, t, w, x);
    AllocsGrow(h, s, w + x, all);
    OpenAffords(h, s, all);
    OpenAffords(h, t, x);
    assert !View(h, s).supply(Allocs(h, s, w + x));
    if Affords(h, s, all) {
      SupplyCovers(h, s, Allocs(h, s, w + x), Allocs(h, s, all));
    }
  }

  /** One cluster: as many as WriteCluster needs. */
  lemma AllocsOfOne(h: Header, s: Img, g: nat)
    requires h.Valid()
    ensures Allocs(h, s, {g}) == Need(h, s, g)
  {
    var i := Quot(g, h.l2Entries);
    assert Tops(h, {g}) == {i};
    assert Lacking(h, s, {g}) == if View(h, s).data(g) == 0 then {g} else {};
    assert Untabled(h, s, {g}) == if View(h, s).tabled(i) then {} else {i};
    if View(h, s).data(g) != 0 {
      DataHasTable(h, s, g);
    }
  }

  /** Overwriting allocates nothing. */
  lemma OverwritesAreFree(h: Header, s: Img, w: set<nat>)
    requires Holds(Idle(h, s)) && forall g :: g in w ==> View(h, s).data(g) != 0
    ensures h.Valid() && Affords(h, s, w)
  {
    OpenClaim(Idle(h, s));
    assert Lacking(h, s, w) == {};
    forall i | i in Tops(h, w)
      ensures View(h, s).tabled(i)
    {
      var g :| g in w && Quot(g, h.l2Entries) == i;
      DataHasTable(h, s, g);
    }
    assert Untabled(h, s, w) == {};
    ViewSupply(h, s);
    OpenAffords(h, s, w);
  }

  /** A range that has host clusters everywhere can always be written. */
  lemma CoveredRangeIsFree(h: Header, s: Img, pos: nat, n: nat)
    requires Holds(Idle(h, s))
    ensures h.Valid() && (AllHad(h, s, pos, n) ==> Affords(h, s, Clusters(h, pos, n)))
  {
    IdleIsValid(h, s);
    if AllHad(h, s, pos, n) {
      forall g | g in Clusters(h, pos, n)
        ensures View(h, s).data(g) != 0
      {
        var p: nat :| pos <= p < pos + n && Quot(p, h.clusterSize) == g;
        OpenHas(h, s, p);
      }
      OverwritesAreFree(h, s, Clusters(h, pos, n));
    }
  }

  /** Every position of the range has a host cluster. */
  ghost predicate AllHad(h: Header, s: Img, pos: nat, n: nat) {
    forall p: nat :: pos <= p < pos + n ==> Has(h, s, p)
  }

  // ---------------------------------------------------------------- steps of an image

  /** Nothing changed for writes to come. */
  lemma SuppliedNothing(h: Header, s: Img, t: Img)
    requires h.Valid() && Shape(h, Abs(h, s)) && Abs(h, t) == Abs(h, s)
    ensures Supplied(h, s, t, {})
  {
    assert Lacking(h, s, {}) == {} && Untabled(h, s, {}) == {};
    SpentNothing(h, s, t);
    ViewIs(h, s);
    ViewIs(h, t);
    ViewSupply(h, s);
    ViewSupply(h, t);
    OpenSupplied(h, s, t, {});
  }

  lemma SupplyStarts(h: Header, s: Img, pos: nat)
    requires Holds(Idle(h, s))
    ensures h.Valid() && Supplied(h, s, s, Clusters(h, pos, 0))
  {
    OpenClaim(Idle(h, s));
    SuppliedNothing(h, s, s);
    assert Clusters(h, pos, 0) == {};
  }

  lemma CalmSupply(h: Header, s: Img, t: Img)
    requires Holds(Calm(h, s, t))
    ensures h.Valid() && Supplied(h, s, t, {})
  {
    OpenClaim(Calm(h, s, t));
    SuppliedNothing(h, s, t);
  }

  lemma FlushSupply(h: Header, s: Img, t: Img)
    requires Flushing(h, s, t)
    ensures h.Valid() && Supplied(h, s, t, {})
  {
    OpenFlush(h, s, t);
    SuppliedNothing(h, s, t);
  }

  lemma WroteSupply(h: Header, s: Img, t: Img, below: seq<Layer>, g: nat, o: nat, data: seq<Byte>, stale: Option<nat>, cost: nat)
    requires Done(Wrote(h, s, t, below, g, o, data, stale, cost))
    ensures h.Valid() && Supplied(h, s, t, {g})
  {
    OpenDeed(Wrote(h, s, t, below, g, o, data, stale, cost));
    AllocsOfOne(h, s, g);
    assert Tops(h, {g}) == {Quot(g, h.l2Entries)};
    OpenSupplied(h, s, t, {g});
  }

  /** A write of one cluster succeeds exactly if its allocations are covered. */
  lemma FateIffAfforded(h: Header, s: Img, g: nat, n: nat)
    requires Holds(Idle(h, s))
    ensures h.Valid() && (Fate(h, s, g, n).Bytes? <==> Affords(h, s, {g}))
  {
    OpenClaim(Idle(h, s));
    FateIsSupply(h, s, g, n);
    OpenAffords(h, s, {g});
    AllocsOfOne(h, s, g);
  }

  /** The next chunk of a transfer was written. */
  lemma SupplyGoesOn(h: Header, s: Img, t: Img, u: Img, below: seq<Layer>, pos: nat, a: nat, data: seq<Byte>, stale: Option<nat>)
    requires h.Valid() && Supplied(h, s, t, Clusters(h, pos, a)) && data != [] && Rem(pos + a, h.clusterSize) + |data| <= h.clusterSize
    requires Done(Wrote(h, t, u, below, Quot(pos + a, h.clusterSize), Rem(pos + a, h.clusterSize), data, stale, 4))
    ensures Supplied(h, s, u, Clusters(h, pos, a + |data|))
  {
    var g := Quot(pos + a, h.clusterSize);
    WroteSupply(h, t, u, below, g, Rem(pos + a, h.clusterSize), data, stale, 4);
    SuppliedJoin(h, s, t, u, Clusters(h, pos, a), {g});
    ClustersOfTwo(h, pos, a, |data|);
    ClustersOfChunk(h, pos + a, |data|);
  }

  /** The next chunk found no cluster. */
  lemma SupplyEnds(h: Header, s: Img, t: Img, pos: nat, length: nat, a: nat)
    requires h.Valid() && Supplied(h, s, t, Clusters(h, pos, a)) && Holds(Idle(h, t)) && a < length
    requires a + ChunkLength(h, pos + a, length - a) <= Moved(h, pos, length)
    requires !Fate(h, t, Quot(pos + a, h.clusterSize), ChunkLength(h, pos + a, length - a)).Bytes?
    ensures StopsAt(h, s, pos, length, a) && !Affords(h, s, Clusters(h, pos, Moved(h, pos, length)))
  {
    var g, n := Quot(pos + a, h.clusterSize), ChunkLength(h, pos + a, length - a);
    FateIffAfforded(h, t, g, n);
    ClustersOfTwo(h, pos, a, n);
    ClustersOfChunk(h, pos + a, n);
    TooMany(h, s, t, Clusters(h, pos, a), {g}, Clusters(h, pos, a + n));
    ClustersGrow(h, pos, a + n, Moved(h, pos, length));
    TooMany(h, s, t, Clusters(h, pos, a), {g}, Clusters(h, pos, Moved(h, pos, length)));
    SuppliedWasAfforded(h, s, t, Clusters(h, pos, a));
  }

  /** A turn of the loop of a write that moved `n` bytes. */
  lemma ChunkGoesOn(h: Header, s: Img, t: Img, u: Img, below: seq<Layer>, pos: nat, buffer: seq<Byte>, offset: nat, n: nat,
                    stale: Option<nat>, k: nat)
    requires h.Valid() && 0 < n <= |buffer| - offset && Rem(pos + offset, h.clusterSize) + n <= h.clusterSize
    requires Performed(Writes(h, s, t, below, pos, buffer[..offset], 4 * k)) && Supplied(h, s, t, Clusters(h, pos, offset))
    requires Done(Wrote(h, t, u, below, Quot(pos + offset, h.clusterSize), Rem(pos + offset, h.clusterSize), buffer[offset..][..n], stale, 4))
    ensures Performed(Writes(h, s, u, below, pos, buffer[..offset + n], 4 * (k + 1))) && Holds(Idle(h, u))
    ensures Supplied(h, s, u, Clusters(h, pos, offset + n))
  {
    var next := buffer[offset..][..n];
    assert buffer[..offset] + next == buffer[..offset + n];
    WriteGoesOn(h, s, t, u, below, pos, buffer[..offset], next, stale, 4 * k);
    WriteFacts(h, s, u, below, pos, buffer[..offset + n], 4 * (k + 1));
    SupplyGoesOn(h, s, t, u, below, pos, offset, next, stale);
  }

  /** One that could not allocate its data cluster. */
  lemma ChunkStops(h: Header, s: Img, t: Img, u: Img, below: seq<Layer>, pos: nat, a: seq<Byte>, x: nat, i: nat)
    requires h.Valid() && ChainValid(below) && Performed(Writes(h, s, t, below, pos, a, x)) && Done(TableReady(h, t, u, i, 2))
    ensures Performed(Writes(h, s, u, below, pos, a, x + 2)) && Holds(Idle(h, u))
  {
    WriteStops(h, s, t, u, below, pos, a, x, i);
    WriteFacts(h, s, u, below, pos, a, x + 2);
  }

  /** A write of `length` bytes that got no further than `n`: what came before was affordable, the next
      chunk on top of it is not. */
  ghost predicate StopsAt(h: Header, s: Img, pos: nat, length: nat, n: nat)
    requires h.Valid()
  {
    && n < Moved(h, pos, length) && Affords(h, s, Clusters(h, pos, n))
    && !Affords(h, s, Clusters(h, pos, n + ChunkLength(h, pos + n, length - n)))
  }

  // ---------------------------------------------------------------- requests of several buffers

  lemma BufferJoins(h: Header, s: Img, t: Img, u: Img, below: seq<Layer>, pos: nat, a: seq<Byte>, b: seq<Byte>, x: nat, y: nat)
    requires Performed(Writes(h, s, t, below, pos, a, x)) && Performed(Writes(h, t, u, below, pos + |a|, b, y))
    ensures Performed(Writes(h, s, u, below, pos, a + b, x + y)) && Holds(Idle(h, u))
  {
    WritesJoin(h, s, t, u, below, pos, a, b, x, y);
    WriteFacts(h, s, u, below, pos, a + b, x + y);
  }

  /** The next buffer was written. */
  lemma BufferWritten(h: Header, s: Img, t: Img, u: Img, pos: nat, v: seq<seq<Byte>>, i: nat, done: seq<Byte>, m: nat, k: nat)
    requires h.Valid() && i < |v| && Sent(h, pos, v, i, done, k) && m == Moved(h, pos + |done|, |v[i]|)
    requires Supplied(h, s, t, Clusters(h, pos, |done|)) && Supplied(h, t, u, Clusters(h, pos + |done|, m))
    ensures Supplied(h, s, u, Clusters(h, pos, |done + v[i][..m]|))
    ensures Sent(h, pos, v, i + 1, done + v[i][..m], k + Chunks(h, pos + |done|, |v[i]|))
    ensures done + v[i][..m] <= Concat(v) && (Inside(h, pos, v) ==> m == |v[i]| > 0)
  {
    SentNext(h, pos, v, i, done, m, k);
    SuppliedJoin(h, s, t, u, Clusters(h, pos, |done|), Clusters(h, pos + |done|, m));
    ClustersOfTwo(h, pos, |done|, m);
  }

  /** The next buffer was not. */
  lemma BufferTooMany(h: Header, s: Img, t: Img, pos: nat, v: seq<seq<Byte>>, i: nat, done: seq<Byte>, k: nat)
    requires h.Valid() && i < |v| && Sent(h, pos, v, i, done, k) && Supplied(h, s, t, Clusters(h, pos, |done|))
    requires !Affords(h, t, Clusters(h, pos + |done|, Moved(h, pos + |done|, |v[i]|)))
    ensures !Affords(h, s, Clusters(h, pos, |Concat(v)|))
  {
    var m := Moved(h, pos + |done|, |v[i]|);
    SentPart(h, pos, v, i, done, m, k);
    ClustersOfTwo(h, pos, |done|, m);
    ClustersGrow(h, pos, |done| + m, |Concat(v)|);
    TooMany(h, s, t, Clusters(h, pos, |done|), Clusters(h, pos + |done|, m), Clusters(h, pos, |Concat(v)|));
  }
}
