/** Whole runs of requests: the image refines a flat array of bytes. */
module Qcow2Runs {
  import opened Common
  import opened HostFile
  import opened Qcow2Layout
  import opened Qcow2Meta
  import opened Qcow2State
  import opened Qcow2Steps
  import opened Qcow2Disk
  import opened Qcow2Search
  import opened Qcow2Guest
  import opened Qcow2Discard
  import opened Qcow2Flush
  import opened Qcow2Transfer

  /** What a request did, as its caller saw it. `Reopen` closes the image after a flush and opens the
      file again. */
  datatype Event =
    | Read(pos: nat, data: seq<Byte>)
    | Write(pos: nat, data: seq<Byte>, cost: nat)
    | Discard(pos: nat, length: nat)
    | Flush
    | Reopen

  /** The image goes from `s` to `t` by a request: what the methods of the image promise. */
  ghost predicate Step(h: Header, s: Img, t: Img, below: seq<Layer>, e: Event)
    requires h.Valid() && ChainValid(below)
  {
    match e
    case Read(pos, data) => Holds(Calm(h, s, t)) && ReadsAs(h, s, below, pos, data)
    case Write(pos, data, cost) => Performed(Writes(h, s, t, below, pos, data, cost))
    case Discard(pos, length) => Performed(Discards(h, s, t, below, pos, length))
    case Flush => Flushing(h, s, t) && AllClean(t)
    case Reopen => AllClean(s) && t == Opened(h, s.file)
  }

  ghost predicate Run(h: Header, below: seq<Layer>, states: seq<Img>, events: seq<Event>)
    requires h.Valid() && ChainValid(below)
  {
    && |states| == |events| + 1 && Holds(Idle(h, states[0]))
    && forall i :: 0 <= i < |events| ==> Step(h, states[i], states[i + 1], below, events[i])
  }

  ghost predicate NoDiscard(events: seq<Event>) {
    forall i :: 0 <= i < |events| ==> !events[i].Discard?
  }

  lemma StepIsIdle(h: Header, s: Img, t: Img, below: seq<Layer>, e: Event)
    requires h.Valid() && ChainValid(below) && Holds(Idle(h, s)) && Step(h, s, t, below, e)
    ensures Holds(Idle(h, t))
  {
    match e
    case Read(_, _) =>
      OpenClaim(Calm(h, s, t));
      OpenClaim(Idle(h, s));
      CloseClaim(Idle(h, t));
    case Write(pos, data, cost) => WriteFacts(h, s, t, below, pos, data, cost);
    case Discard(pos, length) => DiscardFacts(h, s, t, below, pos, length);
    case Flush => FlushIsIdle(h, s, t);
    case Reopen =>
      FlushStarts(h, s);
      ReopenAfterFlush(h, s, s, below);
  }

  lemma {:induction false} RunIsIdle(h: Header, below: seq<Layer>, states: seq<Img>, events: seq<Event>, n: nat)
    requires h.Valid() && ChainValid(below) && Run(h, below, states, events) && n <= |events|
    ensures Holds(Idle(h, states[n]))
  {
    if n > 0 {
      RunIsIdle(h, below, states, events, n - 1);
      StepIsIdle(h, states[n - 1], states[n], below, events[n - 1]);
    }
  }

  /** After every request of every run, discards included: header, refcount table, refcount blocks, L1
      table, L2 tables and data are on different host clusters, all within reach of WriteFile, and
      the refcount of a cluster is 1 if it is in use and 0 if not. */
  lemma RunKeepsOwnership(h: Header, below: seq<Layer>, states: seq<Img>, events: seq<Event>, n: nat)
    requires h.Valid() && ChainValid(below) && Run(h, below, states, events) && n <= |events|
    ensures var m := Abs(h, states[n]);
      && Shape(h, m) && Disjoint(h, m) && InBounds(h, m)
      && forall c: nat :: Refcount(h, m, c) == if Owned(h, m, c) then 1 else 0
  {
    RunIsIdle(h, below, states, events, n);
    OwnershipIsExact(h, states[n]);
  }

  /** The specification: an array of bytes. */
  type Flat = nat -> Byte

  function After(d: Flat, events: seq<Event>): Flat {
    if events == [] then d
    else
      var before := After(d, events[..|events| - 1]);
      match events[|events| - 1]
      case Write(pos, data, _) => (p: nat) => if pos <= p < pos + |data| then data[p - pos] else before(p)
      case _ => before
  }

  /** The image shows the array `d`, is ready for the next request and keeps free clusters zero. */
  ghost predicate ShowsArray(h: Header, s: Img, below: seq<Layer>, d: Flat) {
    Holds(Idle(h, s)) && View(h, s).clear && forall p: nat :: FlatByte(h, s, below, p) == d(p)
  }

  lemma CalmShows(h: Header, s: Img, t: Img, below: seq<Layer>, d: Flat)
    requires h.Valid() && ChainValid(below) && ShowsArray(h, s, below, d) && Holds(Calm(h, s, t))
    ensures ShowsArray(h, t, below, d)
  {
    OpenClaim(Calm(h, s, t));
    OpenClaim(Idle(h, s));
    CloseClaim(Idle(h, t));
    ViewIs(h, s);
    ViewIs(h, t);
    SameLogicalIsQuiet(h, s, t);
    QuietKeepsZero(h, s, t);
    forall p: nat
      ensures FlatByte(h, t, below, p) == d(p)
    {
      OpenFlatByte(h, s, below, p);
      OpenFlatByte(h, t, below, p);
      QuietKeepsGuest(h, s, {}, t, {}, below, Quot(p, h.clusterSize), Rem(p, h.clusterSize));
      assert FlatByte(h, s, below, p) == d(p);
    }
  }

  lemma WriteShows(h: Header, s: Img, t: Img, below: seq<Layer>, d: Flat, pos: nat, data: seq<Byte>, cost: nat)
    requires ShowsArray(h, s, below, d) && Performed(Writes(h, s, t, below, pos, data, cost))
    ensures ShowsArray(h, t, below, (p: nat) => if pos <= p < pos + |data| then data[p - pos] else d(p))
  {
    OpenTransfer(Writes(h, s, t, below, pos, data, cost));
    forall p: nat
      ensures FlatByte(h, t, below, p) == if pos <= p < pos + |data| then data[p - pos] else d(p)
    {
      assert Lands(h, s, t, below, pos, data, p);
      assert FlatByte(h, s, below, p) == d(p);
    }
  }

  lemma FlushShows(h: Header, s: Img, t: Img, below: seq<Layer>, d: Flat)
    requires h.Valid() && ChainValid(below) && ShowsArray(h, s, below, d) && Flushing(h, s, t)
    ensures ShowsArray(h, t, below, d)
  {
    FlushIsIdle(h, s, t);
    OpenFlush(h, s, t);
    ViewIs(h, s);
    ViewIs(h, t);
    FlushKeepsZero(h, s, t);
    forall p: nat
      ensures FlatByte(h, t, below, p) == d(p)
    {
      OpenFlatByte(h, s, below, p);
      OpenFlatByte(h, t, below, p);
      SameDiskSameGuest(h, s, t, below, Quot(p, h.clusterSize), Rem(p, h.clusterSize));
      assert FlatByte(h, s, below, p) == d(p);
    }
  }

  lemma ReopenShows(h: Header, s: Img, below: seq<Layer>, d: Flat)
    requires h.Valid() && ChainValid(below) && ShowsArray(h, s, below, d) && AllClean(s)
    ensures ShowsArray(h, Opened(h, s.file), below, d)
  {
    FlushStarts(h, s);
    ReopenAfterFlush(h, s, s, below);
    var u := Opened(h, s.file);
    ViewIs(h, s);
    ViewIs(h, u);
    forall p: nat
      ensures FlatByte(h, u, below, p) == d(p)
    {
      OpenFlatByte(h, s, below, p);
      OpenFlatByte(h, u, below, p);
      assert FlatByte(h, s, below, p) == d(p);
    }
  }

  lemma StepShows(h: Header, s: Img, t: Img, below: seq<Layer>, e: Event, d: Flat)
    requires h.Valid() && ChainValid(below) && ShowsArray(h, s, below, d) && Step(h, s, t, below, e)
    requires !e.Discard?
    ensures ShowsArray(h, t, below, After(d, [e]))
  {
    assert [e][..0] == [];
    match e
    case Read(_, _) => CalmShows(h, s, t, below, d);
    case Write(pos, data, cost) => WriteShows(h, s, t, below, d, pos, data, cost);
    case Flush => FlushShows(h, s, t, below, d);
    case Reopen => ReopenShows(h, s, below, d);
  }

  lemma AfterNext(d: Flat, events: seq<Event>, n: nat)
    requires n < |events|
    ensures After(d, events[..n + 1]) == After(After(d, events[..n]), [events[n]])
  {
    assert events[..n + 1][..n] == events[..n];
    assert [events[n]][..0] == [];
  }

  lemma {:induction false} RunShows(h: Header, below: seq<Layer>, states: seq<Img>, events: seq<Event>, d: Flat, n: nat)
    requires h.Valid() && ChainValid(below) && Run(h, below, states, events) && n <= |events|
    requires ShowsArray(h, states[0], below, d) && NoDiscard(events)
    ensures ShowsArray(h, states[n], below, After(d, events[..n]))
  {
    if n > 0 {
      RunShows(h, below, states, events, d, n - 1);
      StepShows(h, states[n - 1], states[n], below, events[n - 1], After(d, events[..n - 1]));
      AfterNext(d, events, n - 1);
    }
  }

  /** Every run of reads, writes, flushes and reopenings from an image whose free clusters are zero
      behaves like the flat array: each read returned the bytes the writes before it left, and the
      disk at the end is the initial disk with the writes applied in order. */
  lemma RunRefinesFlatArray(h: Header, below: seq<Layer>, states: seq<Img>, events: seq<Event>, d: Flat)
    requires h.Valid() && ChainValid(below) && Run(h, below, states, events) && NoDiscard(events) && View(h, states[0]).clear
    requires forall p: nat :: FlatByte(h, states[0], below, p) == d(p)
    ensures forall p: nat :: FlatByte(h, states[|events|], below, p) == After(d, events)(p)
    ensures forall n: nat, k: nat :: n < |events| && events[n].Read? && k < |events[n].data| ==>
      events[n].data[k] == After(d, events[..n])(events[n].pos + k)
    ensures Holds(Idle(h, states[|events|])) && View(h, states[|events|]).clear
  {
    RunShows(h, below, states, events, d, |events|);
    assert events[..|events|] == events;
    forall n: nat, k: nat | n < |events| && events[n].Read? && k < |events[n].data|
      ensures events[n].data[k] == After(d, events[..n])(events[n].pos + k)
    {
      RunShows(h, below, states, events, d, n);
      assert Step(h, states[n], states[n + 1], below, events[n]);
    }
  }

  // ---------------------------------------------------------------- where the refinement ends

  /** Neither a free cluster nor a data cluster holds a table. */
  lemma FreeOrDataIsNoTable(h: Header, s: Img, c: nat, g: nat)
    requires Holds(InOrder(h, s)) && (!View(h, s).inUse(c) || (View(h, s).data(g) == c != 0))
    ensures !View(h, s).table(c)
  {
    OpenClaim(InOrder(h, s));
    ViewIs(h, s);
    if !View(h, s).inUse(c) {
      UnownedIsNoTable(h, Abs(h, s), c);
    } else {
      GoodIsDisjoint(h, s, {});
      DataIsNoTable(h, Abs(h, s), Quot(g, h.l2Entries), Rem(g, h.l2Entries));
    }
  }

  /** A clear image, in terms of its sight. */
  lemma ClearIff(h: Header, s: Img)
    requires Holds(InOrder(h, s))
    ensures View(h, s).clear <==> forall c: nat, o: nat :: !View(h, s).inUse(c) ==> s.file(c, o) == 0
  {
    OpenClaim(InOrder(h, s));
    ViewIs(h, s);
  }

  lemma FreedKeepsBytes(h: Header, s: Img, t: Img, below: seq<Layer>, pos: nat, length: nat, c: nat, o: nat)
    requires DiscardedTo(h, s, t, below, pos, length) && (!View(h, s).inUse(c) || HeldIn(h, s, pos, length, c))
    ensures t.file(c, o) == s.file(c, o)
  {
    if !View(h, s).inUse(c) {
      FreeOrDataIsNoTable(h, s, c, 0);
    } else {
      var g: nat :| CoversCluster(h, pos, length, g) && View(h, s).data(g) == c != 0;
      FreeOrDataIsNoTable(h, s, c, g);
    }
  }

  /** After a discard free clusters are zero exactly if they were before and every host cluster that the
      discard freed held zeros only. */
  lemma DiscardKeepsClearIff(h: Header, s: Img, t: Img, below: seq<Layer>, pos: nat, length: nat)
    requires Performed(Discards(h, s, t, below, pos, length))
    ensures View(h, t).clear <==>
      View(h, s).clear && forall c: nat, o: nat :: HeldIn(h, s, pos, length, c) ==> s.file(c, o) == 0
  {
    OpenTransfer(Discards(h, s, t, below, pos, length));
    IdleIsInOrder(h, t);
    ClearIff(h, s);
    ClearIff(h, t);
    forall c: nat, o: nat | !View(h, s).inUse(c) || HeldIn(h, s, pos, length, c)
      ensures t.file(c, o) == s.file(c, o)
    {
      FreedKeepsBytes(h, s, t, below, pos, length, c, o);
    }
    forall c: nat, o: nat | View(h, t).clear && (!View(h, s).inUse(c) || HeldIn(h, s, pos, length, c))
      ensures s.file(c, o) == 0
    {
      assert !View(h, t).inUse(c);
      assert t.file(c, o) == 0;
    }
  }

  lemma {:induction false} ImageSize(f: nat -> nat, s: set<nat>) returns (r: set<nat>)
    requires forall x, y :: x in s && y in s && f(x) == f(y) ==> x == y
    ensures |r| == |s| && forall y :: y in r <==> exists x :: x in s && f(x) == y
    decreases s
  {
    if s == {} {
      r := {};
    } else {
      var x :| x in s;
      var q := ImageSize(f, s - {x});
      assert f(x) !in q;
      r := q + {f(x)};
    }
  }

  /** `n` pigeons do not fit the `n - 1` holes above 0. */
  lemma SomeIsZero(f: nat -> nat, n: nat)
    requires n > 0 && forall x: nat :: x < n ==> f(x) < n
    requires forall x: nat, y: nat :: x < n && y < n && f(x) == f(y) != 0 ==> x == y
    ensures exists g: nat :: g < n && f(g) == 0
  {
    if forall g: nat :: g < n ==> f(g) != 0 {
      var all := Range(n);
      var image := ImageSize(f, all);
      forall c | c in image
        ensures c in all - {0}
      {
        var g :| g in all && f(g) == c;
      }
      SubsetCardinality(image, all - {0});
    }
  }

  /** Data and metadata share the host clusters below the virtual size, so some whole guest cluster
      always lacks a host cluster: no disk can be written completely. */
  lemma FullDiskImpossible(h: Header, s: Img)
    requires Good(h, s, {})
    ensures exists g: nat :: g < h.HostLimit() && DataOf(h, Abs(h, s), g) == 0
  {
    var m, n := Abs(h, s), h.HostLimit();
    var f := (g: nat) => DataOf(h, m, g);
    forall g: nat
      ensures f(g) < n
    {
      GuestBytePlain(h, s, {}, [], g, 0);
    }
    forall x: nat, y: nat | x < n && y < n && f(x) == f(y) != 0
      ensures x == y
    {
      GoodIsDisjoint(h, s, {});
      DataIsPrivate(h, m, x, y);
    }
    assert n > 0 by { assert f(0) < n; }
    SomeIsZero(f, n);
    var g: nat :| g < n && f(g) == 0;
    assert DataOf(h, m, g) == 0;
  }
}
