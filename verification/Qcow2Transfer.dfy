/** Transfers of many clusters, on the disk as a flat array of bytes. */
module Qcow2Transfer {
  import opened Common
  import opened HostFile
  import opened Qcow2Layout
  import opened Qcow2Meta
  import opened Qcow2State
  import opened Qcow2Steps
  import opened Qcow2Disk
  import opened Qcow2Search
  import opened Qcow2Guest
  import opened Qcow2Discard

  /** The byte at position `p` of the virtual disk. */
  ghost function FlatByte(h: Header, s: Img, below: seq<Layer>, p: nat, veil: Veil := VEIL): Byte {
    match veil
    case Bare =>
      if h.Valid() && ChainValid(below) then GuestByte(h, s, below, Quot(p, h.clusterSize), Rem(p, h.clusterSize)) else 0
    case Fold(inner) => FlatByte(h, s, below, p, inner)
  }

  lemma {:induction false} OpenFlatByte(h: Header, s: Img, below: seq<Layer>, p: nat, veil: Veil := VEIL)
    requires h.Valid() && ChainValid(below)
    ensures FlatByte(h, s, below, p, veil) == GuestByte(h, s, below, Quot(p, h.clusterSize), Rem(p, h.clusterSize))
  {
    if veil.Fold? {
      OpenFlatByte(h, s, below, p, veil.inner);
    }
  }

  /** The image has a data cluster for position `p`. */
  ghost predicate Has(h: Header, s: Img, p: nat, veil: Veil := VEIL) {
    match veil
    case Bare => (h.Valid() && View(h, s).data(Quot(p, h.clusterSize)) != 0) == true
    case Fold(inner) => Has(h, s, p, inner)
  }

  lemma {:induction false} OpenHas(h: Header, s: Img, p: nat, veil: Veil := VEIL)
    requires h.Valid()
    ensures Has(h, s, p, veil) <==> View(h, s).data(Quot(p, h.clusterSize)) != 0
  {
    if veil.Fold? {
      OpenHas(h, s, p, veil.inner);
    }
  }

  // ---------------------------------------------------------------- chunks

  /** Bytes that the loop of BlockIo moves: it goes on while the position is inside the disk. */
  ghost function Moved(h: Header, pos: nat, length: nat): (n: nat)
    requires h.Valid()
    ensures n <= length
    decreases length
  {
    if length == 0 || pos >= h.size then 0
    else
      var n := ChunkLength(h, pos, length);
      n + Moved(h, pos + n, length - n)
  }

  /** Turns of that loop. */
  ghost function Chunks(h: Header, pos: nat, length: nat): nat
    requires h.Valid()
    decreases length
  {
    if length == 0 || pos >= h.size then 0
    else
      var n := ChunkLength(h, pos, length);
      1 + Chunks(h, pos + n, length - n)
  }

  /** A transfer inside the disk is moved completely. */
  lemma {:induction false} MovedInside(h: Header, pos: nat, length: nat)
    requires h.Valid() && pos + length <= h.size
    ensures Moved(h, pos, length) == length
    decreases length
  {
    if length > 0 {
      var n := ChunkLength(h, pos, length);
      MovedInside(h, pos + n, length - n);
    }
  }

  /** Positions inside a chunk are in its cluster, at the corresponding offsets; no other position is. */
  lemma InsideChunk(cs: nat, pos: nat, n: nat, p: nat)
    requires cs > 0 && Rem(pos, cs) + n <= cs
    ensures if pos <= p < pos + n then Quot(p, cs) == Quot(pos, cs) && Rem(p, cs) == Rem(pos, cs) + (p - pos)
            else !(Quot(p, cs) == Quot(pos, cs) && Rem(pos, cs) <= Rem(p, cs) < Rem(pos, cs) + n)
  {
    QuotRem(pos, cs);
    if pos <= p < pos + n {
      QuotRemUnique(p, cs, Quot(pos, cs), Rem(pos, cs) + (p - pos));
    } else {
      QuotRem(p, cs);
    }
  }

  // ---------------------------------------------------------------- writing

  /** Positions `q` and `p` are in the same guest cluster. */
  ghost predicate SameCluster(h: Header, q: nat, p: nat, veil: Veil := VEIL) {
    match veil
    case Bare => (h.Valid() && Quot(q, h.clusterSize) == Quot(p, h.clusterSize)) == true
    case Fold(inner) => SameCluster(h, q, p, inner)
  }

  lemma {:induction false} OpenSameCluster(h: Header, q: nat, p: nat, veil: Veil := VEIL)
    requires h.Valid()
    ensures SameCluster(h, q, p, veil) <==> Quot(q, h.clusterSize) == Quot(p, h.clusterSize)
  {
    if veil.Fold? {
      OpenSameCluster(h, q, p, veil.inner);
    }
  }

  /** The guest cluster of position `p` meets the range of `n` bytes at `pos`. */
  ghost predicate Touches(h: Header, pos: nat, n: nat, p: nat) {
    exists q: nat :: pos <= q < pos + n && SameCluster(h, q, p)
  }

  /** Position `p`, in a cluster that a write of `n` bytes at `pos` reached and the image did not have,
      read as zero and may now show a byte of a host cluster that was free and not zero. */
  ghost predicate Leaks(h: Header, s: Img, below: seq<Layer>, pos: nat, n: nat, p: nat) {
    !View(h, s).clear && !Has(h, s, p) && Touches(h, pos, n, p) && FlatByte(h, s, below, p) == 0
  }

  /** Position `p` after a write of `data` at `pos`. */
  ghost predicate Lands(h: Header, s: Img, t: Img, below: seq<Layer>, pos: nat, data: seq<Byte>, p: nat) {
    && (Has(h, t, p) <==> Has(h, s, p) || Touches(h, pos, |data|, p))
    && (if pos <= p < pos + |data| then FlatByte(h, t, below, p) == data[p - pos]
        else FlatByte(h, t, below, p) == FlatByte(h, s, below, p) || Leaks(h, s, below, pos, |data|, p))
  }

  /** `t` after `data` was written at `pos`: the range holds the data, and outside of it nothing changed,
      unless free clusters were not zero; even then only bytes that read as zero changed, in clusters
      that the range reaches and the image did not have. */
  ghost predicate WrittenTo(h: Header, s: Img, t: Img, below: seq<Layer>, pos: nat, data: seq<Byte>, cost: nat) {
    && h.Valid() && ChainValid(below) && Holds(InOrder(h, s)) && Holds(Idle(h, t))
    && View(h, t).room + cost >= View(h, s).room
    && (View(h, s).clear ==> View(h, t).clear)
    && (forall p: nat :: Lands(h, s, t, below, pos, data, p))
  }

  /** What a write of `data` at offset `o` of guest cluster `g` shows at (g', o'). */
  ghost predicate ShowsWrite(h: Header, s: Img, t: Img, below: seq<Layer>, g: nat, o: nat, data: seq<Byte>, g': nat, o': nat)
    requires h.Valid() && ChainValid(below)
  {
    && (View(h, t).data(g') != 0 <==> View(h, s).data(g') != 0 || g' == g)
    && if g' == g && o <= o' < o + |data| then GuestByte(h, t, below, g', o') == data[o' - o]
       else || GuestByte(h, t, below, g', o') == GuestByte(h, s, below, g', o')
            || (!View(h, s).clear && View(h, s).data(g') == 0 && GuestByte(h, s, below, g', o') == 0 && g' == g)
  }

  lemma WrittenAt(h: Header, s: Img, t: Img, below: seq<Layer>, g: nat, o: nat, data: seq<Byte>, stale: Option<nat>, cost: nat,
                  g': nat, o': nat)
    requires Written(h, s, t, below, g, o, data, stale, cost) && o' < h.clusterSize
    ensures ShowsWrite(h, s, t, below, g, o, data, g', o')
  {
    if g' == g && stale.Some? && View(h, s).clear {
      ClearIsZero(h, s, stale.value, o');
    }
  }

  /** A chunk reaches exactly the positions of its own cluster. */
  lemma ChunkTouches(h: Header, pos: nat, n: nat, p: nat)
    requires h.Valid() && 0 < n && Rem(pos, h.clusterSize) + n <= h.clusterSize
    ensures Touches(h, pos, n, p) <==> Quot(p, h.clusterSize) == Quot(pos, h.clusterSize)
  {
    if Touches(h, pos, n, p) {
      var q: nat :| pos <= q < pos + n && SameCluster(h, q, p);
      OpenSameCluster(h, q, p);
      InsideChunk(h.clusterSize, pos, n, q);
    }
    OpenSameCluster(h, pos, p);
  }

  lemma ChunkShows(h: Header, s: Img, t: Img, below: seq<Layer>, pos: nat, data: seq<Byte>, p: nat)
    requires h.Valid() && ChainValid(below) && Rem(pos, h.clusterSize) + |data| <= h.clusterSize && data != []
    requires ShowsWrite(h, s, t, below, Quot(pos, h.clusterSize), Rem(pos, h.clusterSize), data, Quot(p, h.clusterSize), Rem(p, h.clusterSize))
    ensures Lands(h, s, t, below, pos, data, p)
  {
    InsideChunk(h.clusterSize, pos, |data|, p);
    ChunkTouches(h, pos, |data|, p);
    OpenFlatByte(h, s, below, p);
    OpenFlatByte(h, t, below, p);
    OpenHas(h, s, p);
    OpenHas(h, t, p);
  }

  lemma ChunkWritten(h: Header, s: Img, t: Img, below: seq<Layer>, pos: nat, data: seq<Byte>, stale: Option<nat>, cost: nat)
    requires h.Valid() && Rem(pos, h.clusterSize) + |data| <= h.clusterSize && data != []
    requires Written(h, s, t, below, Quot(pos, h.clusterSize), Rem(pos, h.clusterSize), data, stale, cost)
    ensures WrittenTo(h, s, t, below, pos, data, cost)
  {
    var cs := h.clusterSize;
    forall p: nat
      ensures Lands(h, s, t, below, pos, data, p)
    {
      WrittenAt(h, s, t, below, Quot(pos, cs), Rem(pos, cs), data, stale, cost, Quot(p, cs), Rem(p, cs));
      ChunkShows(h, s, t, below, pos, data, p);
    }
  }

  lemma NothingWritten(h: Header, s: Img, t: Img, below: seq<Layer>, i: nat, pos: nat, cost: nat)
    requires h.Valid() && L2Ready(h, s, t, i, cost) && ChainValid(below)
    ensures WrittenTo(h, s, t, below, pos, [], cost)
  {
    Settled(h, s, t);
    ViewIs(h, s);
    ViewIs(h, t);
    forall p: nat
      ensures Lands(h, s, t, below, pos, [], p)
    {
      OpenFlatByte(h, s, below, p);
      OpenFlatByte(h, t, below, p);
      OpenHas(h, s, p);
      OpenHas(h, t, p);
      QuietKeepsGuest(h, s, {}, t, {}, below, Quot(p, h.clusterSize), Rem(p, h.clusterSize));
    }
    if FreeIsZero(h, s) {
      QuietKeepsZero(h, s, t);
    }
  }

  lemma TouchesTwo(h: Header, pos: nat, a: nat, b: nat, p: nat)
    ensures Touches(h, pos, a + b, p) <==> Touches(h, pos, a, p) || Touches(h, pos + a, b, p)
  {
    if Touches(h, pos, a + b, p) {
      var q: nat :| pos <= q < pos + (a + b) && SameCluster(h, q, p);
      assert q < pos + a || pos + a <= q;
    }
  }

  lemma LandsTwice(h: Header, s: Img, t: Img, u: Img, below: seq<Layer>, pos: nat, a: seq<Byte>, b: seq<Byte>, p: nat)
    requires Lands(h, s, t, below, pos, a, p) && Lands(h, t, u, below, pos + |a|, b, p) && h.Valid()
    requires View(h, s).clear ==> View(h, t).clear
    ensures Lands(h, s, u, below, pos, a + b, p)
  {
    TouchesTwo(h, pos, |a|, |b|, p);
    if pos <= p < pos + |a| {
      OpenSameCluster(h, p, p);
    }
  }

  lemma WrittenOn(h: Header, s: Img, t: Img, u: Img, below: seq<Layer>, pos: nat, a: seq<Byte>, b: seq<Byte>, x: nat, y: nat)
    requires WrittenTo(h, s, t, below, pos, a, x) && WrittenTo(h, t, u, below, pos + |a|, b, y)
    ensures WrittenTo(h, s, u, below, pos, a + b, x + y)
  {
    forall p: nat
      ensures Lands(h, s, u, below, pos, a + b, p)
    {
      assert Lands(h, s, t, below, pos, a, p) && Lands(h, t, u, below, pos + |a|, b, p);
      LandsTwice(h, s, t, u, below, pos, a, b, p);
    }
  }

  // ---------------------------------------------------------------- discarding

  /** Guest cluster `g` lies completely inside the range. */
  ghost predicate CoversCluster(h: Header, pos: nat, length: nat, g: nat) {
    pos <= OffsetOf(h, g) && OffsetOf(h, g) + h.clusterSize <= pos + length
  }

  /** Host cluster `c` held a guest cluster that lies inside the range. */
  ghost predicate HeldIn(h: Header, s: Img, pos: nat, length: nat, c: nat) {
    exists g: nat :: CoversCluster(h, pos, length, g) && View(h, s).data(g) == c != 0
  }

  /** `t` after a discard of the range: exactly the clusters inside it read as the layers below. Host
      clusters without a table, those just freed among them, keep their bytes. */
  ghost predicate DiscardedTo(h: Header, s: Img, t: Img, below: seq<Layer>, pos: nat, length: nat) {
    && h.Valid() && ChainValid(below) && Holds(InOrder(h, s)) && Holds(Idle(h, t))
    && (forall g: nat :: View(h, t).data(g) == if CoversCluster(h, pos, length, g) then 0 else View(h, s).data(g))
    && (forall g: nat, o: nat :: GuestByte(h, t, below, g, o) ==
          if CoversCluster(h, pos, length, g) then ChainByte(below, g, o) else GuestByte(h, s, below, g, o))
    && (forall c: nat :: View(h, t).count(c) == if HeldIn(h, s, pos, length, c) then 0 else View(h, s).count(c))
    && (forall c: nat :: View(h, t).inUse(c) <==> View(h, s).inUse(c) && !HeldIn(h, s, pos, length, c))
    && (forall c: nat :: View(h, t).table(c) <==> View(h, s).table(c))
    && (forall c: nat, o: nat :: !View(h, s).table(c) ==> t.file(c, o) == s.file(c, o))
  }

  /** A chunk covers its own cluster or none. */
  lemma ChunkCovers(h: Header, pos: nat, n: nat, g: nat)
    requires h.Valid() && Rem(pos, h.clusterSize) + n <= h.clusterSize
    ensures CoversCluster(h, pos, n, g) <==> g == Quot(pos, h.clusterSize) && Rem(pos, h.clusterSize) == 0 && n == h.clusterSize
  {
    var cs := h.clusterSize;
    QuotRem(pos, cs);
    TimesIsMul(Quot(pos, cs), cs);
    if CoversCluster(h, pos, n, g) {
      TimesIsMul(g, cs);
      QuotRemUnique(pos, cs, g, 0);
    }
  }

  lemma ChunkDiscarded(h: Header, s: Img, t: Img, below: seq<Layer>, pos: nat, n: nat)
    requires h.Valid() && Rem(pos, h.clusterSize) + n <= h.clusterSize
    requires Discarded(h, s, t, below, Quot(pos, h.clusterSize), Rem(pos, h.clusterSize) == 0 && n == h.clusterSize)
    ensures DiscardedTo(h, s, t, below, pos, n)
  {
    forall g: nat
      ensures CoversCluster(h, pos, n, g) <==> g == Quot(pos, h.clusterSize) && Rem(pos, h.clusterSize) == 0 && n == h.clusterSize
    {
      ChunkCovers(h, pos, n, g);
    }
    assert forall c: nat ::
      HeldIn(h, s, pos, n, c) <==> c != 0 && c == View(h, s).data(Quot(pos, h.clusterSize)) && CoversCluster(h, pos, n, Quot(pos, h.clusterSize));
  }

  /** Clusters are covered by one of two ranges that meet at a cluster boundary. */
  lemma CoversTwo(h: Header, pos: nat, a: nat, b: nat, g: nat)
    requires h.Valid() && (Rem(pos + a, h.clusterSize) == 0 || a == 0)
    ensures CoversCluster(h, pos, a + b, g) <==> CoversCluster(h, pos, a, g) || CoversCluster(h, pos + a, b, g)
    ensures !(CoversCluster(h, pos, a, g) && CoversCluster(h, pos + a, b, g))
  {
    var cs := h.clusterSize;
    if CoversCluster(h, pos, a + b, g) && a > 0 && OffsetOf(h, g) < pos + a {
      var q := Quot(pos + a, cs);
      QuotRem(pos + a, cs);
      TimesIsMul(q, cs);
      if g + 1 <= q {
        TimesMono(g + 1, q, cs);
      } else {
        TimesMono(q, g, cs);
      }
    }
  }

  lemma DiscardedOn(h: Header, s: Img, t: Img, u: Img, below: seq<Layer>, pos: nat, a: nat, b: nat)
    requires DiscardedTo(h, s, t, below, pos, a) && DiscardedTo(h, t, u, below, pos + a, b)
    requires Rem(pos + a, h.clusterSize) == 0 || a == 0
    ensures DiscardedTo(h, s, u, below, pos, a + b)
  {
    forall g: nat
      ensures CoversCluster(h, pos, a + b, g) <==> CoversCluster(h, pos, a, g) || CoversCluster(h, pos + a, b, g)
      ensures !(CoversCluster(h, pos, a, g) && CoversCluster(h, pos + a, b, g))
    {
      CoversTwo(h, pos, a, b, g);
    }
    forall c: nat
      ensures HeldIn(h, s, pos, a + b, c) <==> HeldIn(h, s, pos, a, c) || HeldIn(h, t, pos + a, b, c)
    {
      HeldInTwo(h, s, t, below, pos, a, b, c);
    }
  }

  lemma HeldInTwo(h: Header, s: Img, t: Img, below: seq<Layer>, pos: nat, a: nat, b: nat, c: nat)
    requires DiscardedTo(h, s, t, below, pos, a) && (Rem(pos + a, h.clusterSize) == 0 || a == 0)
    ensures HeldIn(h, s, pos, a + b, c) <==> HeldIn(h, s, pos, a, c) || HeldIn(h, t, pos + a, b, c)
  {
    if HeldIn(h, s, pos, a + b, c) {
      var g: nat :| CoversCluster(h, pos, a + b, g) && View(h, s).data(g) == c != 0;
      CoversTwo(h, pos, a, b, g);
    }
    if HeldIn(h, s, pos, a, c) {
      var g: nat :| CoversCluster(h, pos, a, g) && View(h, s).data(g) == c != 0;
      CoversTwo(h, pos, a, b, g);
    }
    if HeldIn(h, t, pos + a, b, c) {
      var g: nat :| CoversCluster(h, pos + a, b, g) && View(h, t).data(g) == c != 0;
      CoversTwo(h, pos, a, b, g);
      assert View(h, s).data(g) == c;
    }
  }

  // ---------------------------------------------------------------- reading

  /** `data` is what the disk holds from `pos` on. */
  ghost predicate ReadsAs(h: Header, s: Img, below: seq<Layer>, pos: nat, data: seq<Byte>)
    requires h.Valid() && ChainValid(below)
  {
    forall k: nat :: k < |data| ==> data[k] == FlatByte(h, s, below, pos + k)
  }

  lemma ChunkRead(h: Header, s: Img, t: Img, readonly: bool, below: seq<Layer>, pos: nat, length: nat, data: seq<Byte>)
    requires Holds(ServesReads(h, s, readonly)) && Holds(ServesReads(h, t, readonly)) && Undisturbed(h, s, t, readonly)
    requires h.Valid() && ChainValid(below) && Shows(h, t, below, pos, length, data)
    ensures ReadsAs(h, s, below, pos, data)
  {
    forall k: nat | k < |data|
      ensures data[k] == FlatByte(h, s, below, pos + k)
    {
      OpenFlatByte(h, s, below, pos + k);
      InsideChunk(h.clusterSize, pos, |data|, pos + k);
      UndisturbedShows(h, s, t, readonly, below, Quot(pos, h.clusterSize), Rem(pos, h.clusterSize) + k);
    }
  }

  lemma ReadOn(h: Header, s: Img, below: seq<Layer>, pos: nat, a: seq<Byte>, b: seq<Byte>)
    requires h.Valid() && ChainValid(below) && ReadsAs(h, s, below, pos, a) && ReadsAs(h, s, below, pos + |a|, b)
    ensures ReadsAs(h, s, below, pos, a + b)
  {
    forall k: nat | k < |a + b|
      ensures (a + b)[k] == FlatByte(h, s, below, pos + k)
    {
      if k >= |a| {
        assert pos + k == pos + |a| + (k - |a|);
      }
    }
  }

  lemma UndisturbedTransitive(h: Header, s: Img, t: Img, u: Img, readonly: bool)
    requires Undisturbed(h, s, t, readonly) && Undisturbed(h, t, u, readonly)
    ensures Undisturbed(h, s, u, readonly)
  {
    if !readonly {
      OpenClaim(Calm(h, s, t));
      OpenClaim(Calm(h, t, u));
      SameLogicalTransitive(h, s, t, u);
      CloseClaim(Calm(h, s, u));
    }
  }

  /** A chunk that is not the last ends at a cluster boundary. */
  lemma NextChunk(h: Header, pos: nat, length: nat)
    requires h.Valid() && length > 0
    ensures var n := ChunkLength(h, pos, length);
      n > 0 && (n < length ==> Rem(pos + n, h.clusterSize) == 0)
  {
    var n := ChunkLength(h, pos, length);
    QuotRem(pos, h.clusterSize);
    if n < length {
      assert (Quot(pos, h.clusterSize) + 1) * h.clusterSize == Quot(pos, h.clusterSize) * h.clusterSize + h.clusterSize;
      QuotRemUnique(pos + n, h.clusterSize, Quot(pos, h.clusterSize) + 1, 0);
    }
  }

  /** The loop moved `done` bytes in `turns` turns. */
  ghost predicate ProgressTo(h: Header, pos: nat, length: nat, done: nat, turns: nat) {
    && h.Valid() && done <= length && (done == 0 || done == length || Rem(pos + done, h.clusterSize) == 0)
    && Moved(h, pos, length) == done + Moved(h, pos + done, length - done)
    && Chunks(h, pos, length) == turns + Chunks(h, pos + done, length - done)
  }

  ghost predicate Progress(h: Header, pos: nat, length: nat, done: nat, turns: nat, veil: Veil := VEIL) {
    match veil
    case Bare => ProgressTo(h, pos, length, done, turns) == true
    case Fold(inner) => Progress(h, pos, length, done, turns, inner)
  }

  lemma {:induction false} OpenProgress(h: Header, pos: nat, length: nat, done: nat, turns: nat, veil: Veil := VEIL)
    ensures Progress(h, pos, length, done, turns, veil) <==> ProgressTo(h, pos, length, done, turns)
  {
    if veil.Fold? {
      OpenProgress(h, pos, length, done, turns, veil.inner);
    }
  }

  lemma ProgressStart(h: Header, pos: nat, length: nat)
    requires h.Valid()
    ensures Progress(h, pos, length, 0, 0)
  {
    OpenProgress(h, pos, length, 0, 0);
  }

  lemma ProgressStep(h: Header, pos: nat, length: nat, done: nat, turns: nat)
    requires h.Valid() && done < length && pos + done < h.size && Progress(h, pos, length, done, turns)
    ensures var n := ChunkLength(h, pos + done, length - done);
      && 0 < n <= length - done && (done == 0 || Rem(pos + done, h.clusterSize) == 0)
      && Progress(h, pos, length, done + n, turns + 1) && turns < Chunks(h, pos, length)
  {
    var n := ChunkLength(h, pos + done, length - done);
    NextChunk(h, pos + done, length - done);
    OpenProgress(h, pos, length, done, turns);
    OpenProgress(h, pos, length, done + n, turns + 1);
  }

  lemma ProgressIsMoved(h: Header, pos: nat, length: nat, done: nat, turns: nat)
    requires Progress(h, pos, length, done, turns)
    ensures h.Valid() && done <= Moved(h, pos, length)
  {
    OpenProgress(h, pos, length, done, turns);
  }

  lemma ProgressEnd(h: Header, pos: nat, length: nat, done: nat, turns: nat)
    requires done <= length && (done == length || pos + done >= h.size) && Progress(h, pos, length, done, turns)
    ensures h.Valid() && Moved(h, pos, length) == done && Chunks(h, pos, length) == turns
  {
    OpenProgress(h, pos, length, done, turns);
  }

  // ---------------------------------------------------------------- what a transfer did, folded

  datatype Transfer =
    | Writes(h: Header, s: Img, t: Img, below: seq<Layer>, pos: nat, data: seq<Byte>, cost: nat)
    | Discards(h: Header, s: Img, t: Img, below: seq<Layer>, pos: nat, length: nat)

  ghost predicate TransferMeaning(x: Transfer) {
    match x
    case Writes(h, s, t, below, pos, data, cost) => WrittenTo(h, s, t, below, pos, data, cost)
    case Discards(h, s, t, below, pos, length) => DiscardedTo(h, s, t, below, pos, length)
  }

  ghost predicate Performed(x: Transfer, veil: Veil := VEIL) {
    match veil
    case Bare => TransferMeaning(x) == true
    case Fold(inner) => Performed(x, inner)
  }

  lemma {:induction false} OpenTransfer(x: Transfer, veil: Veil := VEIL)
    ensures Performed(x, veil) <==> TransferMeaning(x)
  {
    if veil.Fold? {
      OpenTransfer(x, veil.inner);
    }
  }

  lemma IdleIsValid(h: Header, s: Img)
    requires Holds(Idle(h, s))
    ensures h.Valid()
  {
    OpenClaim(Idle(h, s));
  }

  lemma WriteStarts(h: Header, s: Img, below: seq<Layer>, pos: nat)
    requires Holds(Idle(h, s)) && ChainValid(below)
    ensures Performed(Writes(h, s, s, below, pos, [], 0))
  {
    IdleIsInOrder(h, s);
    IdleIsValid(h, s);
    OpenTransfer(Writes(h, s, s, below, pos, [], 0));
  }

  lemma WriteFacts(h: Header, s: Img, t: Img, below: seq<Layer>, pos: nat, data: seq<Byte>, cost: nat)
    requires Performed(Writes(h, s, t, below, pos, data, cost))
    ensures Holds(Idle(h, t)) && View(h, t).room + cost >= View(h, s).room
  {
    OpenTransfer(Writes(h, s, t, below, pos, data, cost));
  }

  lemma ChunkPerformed(h: Header, t: Img, u: Img, below: seq<Layer>, pos: nat, b: seq<Byte>, stale: Option<nat>)
    requires h.Valid() && Rem(pos, h.clusterSize) + |b| <= h.clusterSize && |b| > 0
    requires Done(Wrote(h, t, u, below, Quot(pos, h.clusterSize), Rem(pos, h.clusterSize), b, stale, 4))
    ensures Performed(Writes(h, t, u, below, pos, b, 4))
  {
    OpenDeed(Wrote(h, t, u, below, Quot(pos, h.clusterSize), Rem(pos, h.clusterSize), b, stale, 4));
    ChunkWritten(h, t, u, below, pos, b, stale, 4);
    OpenTransfer(Writes(h, t, u, below, pos, b, 4));
  }

  lemma WriteGoesOn(h: Header, s: Img, t: Img, u: Img, below: seq<Layer>, pos: nat, a: seq<Byte>, b: seq<Byte>, stale: Option<nat>, x: nat)
    requires h.Valid() && Performed(Writes(h, s, t, below, pos, a, x))
    requires Rem(pos + |a|, h.clusterSize) + |b| <= h.clusterSize && |b| > 0
    requires Done(Wrote(h, t, u, below, Quot(pos + |a|, h.clusterSize), Rem(pos + |a|, h.clusterSize), b, stale, 4))
    ensures Performed(Writes(h, s, u, below, pos, a + b, x + 4))
  {
    ChunkPerformed(h, t, u, below, pos + |a|, b, stale);
    WritesJoin(h, s, t, u, below, pos, a, b, x, 4);
  }

  lemma StopPerformed(h: Header, t: Img, u: Img, below: seq<Layer>, pos: nat, i: nat)
    requires h.Valid() && Done(TableReady(h, t, u, i, 2)) && ChainValid(below)
    ensures Performed(Writes(h, t, u, below, pos, [], 2))
  {
    OpenDeed(TableReady(h, t, u, i, 2));
    NothingWritten(h, t, u, below, i, pos, 2);
    OpenTransfer(Writes(h, t, u, below, pos, [], 2));
  }

  lemma WriteStops(h: Header, s: Img, t: Img, u: Img, below: seq<Layer>, pos: nat, a: seq<Byte>, x: nat, i: nat)
    requires h.Valid() && ChainValid(below) && Performed(Writes(h, s, t, below, pos, a, x)) && Done(TableReady(h, t, u, i, 2))
    ensures Performed(Writes(h, s, u, below, pos, a, x + 2))
  {
    StopPerformed(h, t, u, below, pos + |a|, i);
    WritesJoin(h, s, t, u, below, pos, a, [], x, 2);
    assert a + [] == a;
  }

  /** Two transfers in a row, the second where the first ended. */
  lemma WritesJoin(h: Header, s: Img, t: Img, u: Img, below: seq<Layer>, pos: nat, a: seq<Byte>, b: seq<Byte>, x: nat, y: nat)
    requires Performed(Writes(h, s, t, below, pos, a, x)) && Performed(Writes(h, t, u, below, pos + |a|, b, y))
    ensures Performed(Writes(h, s, u, below, pos, a + b, x + y))
  {
    OpenTransfer(Writes(h, s, t, below, pos, a, x));
    OpenTransfer(Writes(h, t, u, below, pos + |a|, b, y));
    WrittenOn(h, s, t, u, below, pos, a, b, x, y);
    OpenTransfer(Writes(h, s, u, below, pos, a + b, x + y));
  }

  lemma DiscardStarts(h: Header, s: Img, below: seq<Layer>, pos: nat)
    requires Holds(Idle(h, s)) && ChainValid(below)
    ensures Performed(Discards(h, s, s, below, pos, 0))
  {
    IdleIsInOrder(h, s);
    IdleIsValid(h, s);
    assert forall g: nat :: !CoversCluster(h, pos, 0, g);
    assert forall c: nat :: !HeldIn(h, s, pos, 0, c);
    OpenTransfer(Discards(h, s, s, below, pos, 0));
  }

  lemma DropPerformed(h: Header, t: Img, u: Img, below: seq<Layer>, pos: nat, n: nat)
    requires h.Valid() && Rem(pos, h.clusterSize) + n <= h.clusterSize
    requires Happened(Dropped(h, t, u, below, Quot(pos, h.clusterSize), Rem(pos, h.clusterSize) == 0 && n == h.clusterSize))
    ensures Performed(Discards(h, t, u, below, pos, n))
  {
    OpenAct(Dropped(h, t, u, below, Quot(pos, h.clusterSize), Rem(pos, h.clusterSize) == 0 && n == h.clusterSize));
    ChunkDiscarded(h, t, u, below, pos, n);
    OpenTransfer(Discards(h, t, u, below, pos, n));
  }

  lemma DiscardsJoin(h: Header, s: Img, t: Img, u: Img, below: seq<Layer>, pos: nat, a: nat, b: nat)
    requires h.Valid() && Performed(Discards(h, s, t, below, pos, a)) && Performed(Discards(h, t, u, below, pos + a, b))
    requires a > 0 ==> Rem(pos + a, h.clusterSize) == 0
    ensures Performed(Discards(h, s, u, below, pos, a + b))
  {
    OpenTransfer(Discards(h, s, t, below, pos, a));
    OpenTransfer(Discards(h, t, u, below, pos + a, b));
    DiscardedOn(h, s, t, u, below, pos, a, b);
    OpenTransfer(Discards(h, s, u, below, pos, a + b));
  }

  lemma DiscardGoesOn(h: Header, s: Img, t: Img, u: Img, below: seq<Layer>, pos: nat, a: nat, b: nat)
    requires h.Valid() && Performed(Discards(h, s, t, below, pos, a)) && Rem(pos + a, h.clusterSize) + b <= h.clusterSize
    requires a > 0 ==> Rem(pos + a, h.clusterSize) == 0
    requires Happened(Dropped(h, t, u, below, Quot(pos + a, h.clusterSize), Rem(pos + a, h.clusterSize) == 0 && b == h.clusterSize))
    ensures Performed(Discards(h, s, u, below, pos, a + b))
  {
    DropPerformed(h, t, u, below, pos + a, b);
    DiscardsJoin(h, s, t, u, below, pos, a, b);
  }

  lemma DiscardFacts(h: Header, s: Img, t: Img, below: seq<Layer>, pos: nat, length: nat)
    requires Performed(Discards(h, s, t, below, pos, length))
    ensures Holds(Idle(h, t))
  {
    OpenTransfer(Discards(h, s, t, below, pos, length));
  }

  // ---------------------------------------------------------------- requests of several buffers

  function Concat(v: seq<seq<Byte>>): seq<Byte> {
    if v == [] then [] else Concat(v[..|v| - 1]) + v[|v| - 1]
  }

  ghost function VectorChunks(h: Header, pos: nat, v: seq<seq<Byte>>): nat
    requires h.Valid()
  {
    if v == [] then 0
    else
      var w := v[..|v| - 1];
      VectorChunks(h, pos, w) + Chunks(h, pos + |Concat(w)|, |v[|v| - 1]|)
  }

  /** The request ends inside the disk and has no empty buffer. */
  ghost predicate Inside(h: Header, pos: nat, v: seq<seq<Byte>>) {
    pos + |Concat(v)| <= h.size && forall i :: 0 <= i < |v| ==> |v[i]| > 0
  }

  /** The first `i` buffers moved `done`, in `k` chunks: completely, or up to the end of the disk. */
  ghost predicate SentTo(h: Header, pos: nat, v: seq<seq<Byte>>, i: nat, done: seq<Byte>, k: nat)
    requires h.Valid() && i <= |v|
  {
    && done <= Concat(v) && (done == Concat(v[..i]) || pos + |done| >= h.size)
    && (Inside(h, pos, v) ==> done == Concat(v[..i]) && k == VectorChunks(h, pos, v[..i]))
  }

  ghost predicate Sent(h: Header, pos: nat, v: seq<seq<Byte>>, i: nat, done: seq<Byte>, k: nat, veil: Veil := VEIL)
    requires h.Valid() && i <= |v|
  {
    match veil
    case Bare => SentTo(h, pos, v, i, done, k) == true
    case Fold(inner) => Sent(h, pos, v, i, done, k, inner)
  }

  lemma {:induction false} OpenSent(h: Header, pos: nat, v: seq<seq<Byte>>, i: nat, done: seq<Byte>, k: nat, veil: Veil := VEIL)
    requires h.Valid() && i <= |v|
    ensures Sent(h, pos, v, i, done, k, veil) <==> SentTo(h, pos, v, i, done, k)
  {
    if veil.Fold? {
      OpenSent(h, pos, v, i, done, k, veil.inner);
    }
  }

  lemma ConcatNext(v: seq<seq<Byte>>, i: nat)
    requires i < |v|
    ensures Concat(v[..i + 1]) == Concat(v[..i]) + v[i]
  {
    assert v[..i + 1][..i] == v[..i];
  }

  lemma {:induction false} ConcatPrefix(v: seq<seq<Byte>>, i: nat)
    requires i <= |v|
    ensures Concat(v[..i]) <= Concat(v)
    decreases |v| - i
  {
    if i < |v| {
      ConcatNext(v, i);
      ConcatPrefix(v, i + 1);
    } else {
      assert v[..i] == v;
    }
  }

  lemma ChunksNext(h: Header, pos: nat, v: seq<seq<Byte>>, i: nat)
    requires h.Valid() && i < |v|
    ensures VectorChunks(h, pos, v[..i + 1]) == VectorChunks(h, pos, v[..i]) + Chunks(h, pos + |Concat(v[..i])|, |v[i]|)
  {
    assert v[..i + 1][..i] == v[..i];
  }

  lemma {:induction false} ChunksPrefix(h: Header, pos: nat, v: seq<seq<Byte>>, i: nat)
    requires h.Valid() && i <= |v|
    ensures VectorChunks(h, pos, v[..i]) <= VectorChunks(h, pos, v)
    decreases |v| - i
  {
    if i < |v| {
      ChunksNext(h, pos, v, i);
      ChunksPrefix(h, pos, v, i + 1);
    } else {
      assert v[..i] == v;
    }
  }

  /** The loop stops early only at the end of the disk. */
  lemma {:induction false} MovedShort(h: Header, pos: nat, length: nat)
    requires h.Valid() && Moved(h, pos, length) < length
    ensures pos + Moved(h, pos, length) >= h.size
    decreases length
  {
    if pos < h.size {
      var n := ChunkLength(h, pos, length);
      MovedShort(h, pos + n, length - n);
    }
  }

  lemma SentNothing(h: Header, pos: nat, v: seq<seq<Byte>>)
    requires h.Valid()
    ensures Sent(h, pos, v, 0, [], 0)
  {
    OpenSent(h, pos, v, 0, [], 0);
  }

  lemma SentAll(h: Header, pos: nat, v: seq<seq<Byte>>, done: seq<Byte>, k: nat)
    requires h.Valid() && Sent(h, pos, v, |v|, done, k)
    ensures done <= Concat(v) && (Inside(h, pos, v) ==> done == Concat(v))
  {
    OpenSent(h, pos, v, |v|, done, k);
    assert v[..|v|] == v;
  }

  lemma SentSoFar(h: Header, pos: nat, v: seq<seq<Byte>>, i: nat, done: seq<Byte>, k: nat)
    requires h.Valid() && i < |v| && Sent(h, pos, v, i, done, k)
    ensures Inside(h, pos, v) ==> k + Chunks(h, pos + |done|, |v[i]|) <= VectorChunks(h, pos, v)
    ensures pos + |done| >= h.size ==> Chunks(h, pos + |done|, |v[i]|) == 0
  {
    OpenSent(h, pos, v, i, done, k);
    if Inside(h, pos, v) {
      ChunksNext(h, pos, v, i);
      ChunksPrefix(h, pos, v, i + 1);
    }
  }

  lemma SentPart(h: Header, pos: nat, v: seq<seq<Byte>>, i: nat, done: seq<Byte>, m: nat, k: nat)
    requires h.Valid() && i < |v| && Sent(h, pos, v, i, done, k) && m <= |v[i]| && (pos + |done| >= h.size ==> m == 0)
    ensures done + v[i][..m] <= Concat(v)
  {
    OpenSent(h, pos, v, i, done, k);
    if m == 0 {
      assert done + v[i][..m] == done;
    } else {
      ConcatNext(v, i);
      ConcatPrefix(v, i + 1);
      var whole := Concat(v[..i + 1]);
      assert done + v[i][..m] == whole[..|done| + m];
    }
  }

  lemma SentNext(h: Header, pos: nat, v: seq<seq<Byte>>, i: nat, done: seq<Byte>, m: nat, k: nat)
    requires h.Valid() && i < |v| && Sent(h, pos, v, i, done, k) && m == Moved(h, pos + |done|, |v[i]|)
    ensures Sent(h, pos, v, i + 1, done + v[i][..m], k + Chunks(h, pos + |done|, |v[i]|))
    ensures done + v[i][..m] <= Concat(v) && (Inside(h, pos, v) ==> m == |v[i]| > 0)
  {
    SentPart(h, pos, v, i, done, m, k);
    OpenSent(h, pos, v, i, done, k);
    OpenSent(h, pos, v, i + 1, done + v[i][..m], k + Chunks(h, pos + |done|, |v[i]|));
    ConcatNext(v, i);
    if m < |v[i]| {
      MovedShort(h, pos + |done|, |v[i]|);
    } else {
      assert v[i][..m] == v[i];
    }
    if Inside(h, pos, v) {
      InsideNext(h, pos, v, i);
      ChunksNext(h, pos, v, i);
    }
  }

  lemma InsideNext(h: Header, pos: nat, v: seq<seq<Byte>>, i: nat)
    requires h.Valid() && i < |v| && Inside(h, pos, v)
    ensures Moved(h, pos + |Concat(v[..i])|, |v[i]|) == |v[i]|
  {
    ConcatNext(v, i);
    ConcatPrefix(v, i + 1);
    MovedInside(h, pos + |Concat(v[..i])|, |v[i]|);
  }

  function Sum(v: seq<nat>): nat {
    if v == [] then 0 else Sum(v[..|v| - 1]) + v[|v| - 1]
  }

  lemma {:induction false} SumPrefix(v: seq<nat>, i: nat)
    requires i <= |v|
    ensures Sum(v[..i]) <= Sum(v)
    ensures i < |v| ==> Sum(v[..i]) + v[i] == Sum(v[..i + 1]) <= Sum(v)
    decreases |v| - i
  {
    if i < |v| {
      assert v[..i + 1][..i] == v[..i];
      SumPrefix(v, i + 1);
    } else {
      assert v[..i] == v;
    }
  }

  /** The request ends inside the disk and has no empty buffer. */
  ghost predicate InsideLengths(h: Header, pos: nat, lengths: seq<nat>) {
    pos + Sum(lengths) <= h.size && forall i :: 0 <= i < |lengths| ==> lengths[i] > 0
  }

  ghost predicate Filled(buffers: seq<seq<Byte>>, lengths: seq<nat>) {
    |buffers| <= |lengths| && forall i :: 0 <= i < |buffers| ==> |buffers[i]| == lengths[i]
  }

  lemma BufferRead(h: Header, s: Img, t: Img, u: Img, readonly: bool, below: seq<Layer>, pos: nat, buffers: seq<seq<Byte>>, data: seq<Byte>)
    requires h.Valid() && ChainValid(below) && Holds(ServesReads(h, s, readonly)) && Holds(ServesReads(h, t, readonly))
    requires Undisturbed(h, s, t, readonly) && Undisturbed(h, t, u, readonly)
    requires ReadsAs(h, s, below, pos, Concat(buffers)) && ReadsAs(h, t, below, pos + |Concat(buffers)|, data)
    ensures Undisturbed(h, s, u, readonly)
    ensures Concat(buffers + [data]) == Concat(buffers) + data && ReadsAs(h, s, below, pos, Concat(buffers + [data]))
  {
    UndisturbedTransitive(h, s, t, u, readonly);
    assert (buffers + [data])[..|buffers|] == buffers;
    var p := pos + |Concat(buffers)|;
    forall k: nat | k < |data|
      ensures data[k] == FlatByte(h, s, below, p + k)
    {
      OpenFlatByte(h, s, below, p + k);
      OpenFlatByte(h, t, below, p + k);
      UndisturbedShows(h, s, t, readonly, below, Quot(p + k, h.clusterSize), Rem(p + k, h.clusterSize));
    }
    ReadOn(h, s, below, pos, Concat(buffers), data);
  }

  lemma BufferFilled(h: Header, pos: nat, lengths: seq<nat>, i: nat, buffers: seq<seq<Byte>>, data: seq<Byte>)
    requires h.Valid() && i < |lengths|
    requires InsideLengths(h, pos, lengths) ==>
      |buffers| == i && Filled(buffers, lengths) && |data| == Moved(h, pos + Sum(lengths[..i]), lengths[i])
    ensures InsideLengths(h, pos, lengths) ==>
      Filled(buffers + [data], lengths) && |data| == lengths[i] > 0 && Sum(lengths[..i + 1]) == Sum(lengths[..i]) + |data|
  {
    if InsideLengths(h, pos, lengths) {
      SumPrefix(lengths, i);
      MovedInside(h, pos + Sum(lengths[..i]), lengths[i]);
    }
  }
}
