/** The search of AllocateCluster on snapshots of an image: the claims that the steps of the search
    hand on to each other, and the lemmas that justify each step.
 */
module Qcow2Search {
  import opened Common
  import opened HostFile
  import opened Qcow2Layout
  import opened Qcow2Meta
  import opened Qcow2State
  import opened Qcow2Steps
  import opened Qcow2Disk

  // ---------------------------------------------------------------- claims about images

  /** What the methods of the image promise each other about its snapshots. */
  datatype Claim =
    /** The tables are in order. */
    | InOrder(h: Header, s: Img)
    /** An image between two operations. */
    | Idle(h: Header, s: Img)
    /** A read-only layer. */
    | ReadOnly(h: Header, s: Img)
    /** Nothing but table traffic between `s` and `t`. */
    | Calm(h: Header, s: Img, t: Img)
    /** `t` after GetRefcountBlock in `s`. */
    | Located(h: Header, s: Img, t: Img, c: nat, allocate: bool, rfb: Option<nat>)
    /** `s` during a search that began in `s0` and is about to look at `c`. */
    | Standing(h: Header, s0: Img, s: Img, c: nat)
    /** `s` during a search at `c`, whose block is `rfb` (None past the last block). */
    | Searching(h: Header, s0: Img, s: Img, c: nat, rfb: Option<nat>, made: bool)
    /** `t` after AllocateCluster returned `r` in `s`. */
    | Allocation(h: Header, s: Img, t: Img, r: nat)

  ghost predicate Meaning(x: Claim) {
    match x
    case InOrder(h, s) => Good(h, s, {})
    case Idle(h, s) => Good(h, s, {}) && Scanned(h, s)
    case ReadOnly(h, s) => ReadOnlyLayer(h, s)
    case Calm(h, s, t) => Good(h, s, {}) && Good(h, t, {}) && SameLogical(h, s, t)
    case Located(h, s, t, c, allocate, rfb) => Good(h, s, {}) && LocatedAt(h, s, t, c, allocate, rfb)
    case Standing(h, s0, s, c) => StandsAt(h, s0, s, c)
    case Searching(h, s0, s, c, rfb, made) => h.Valid() && SearchesAt(h, s0, s, c, rfb, made)
    case Allocation(h, s, t, r) => Good(h, s, {}) && AllocateOutcome(h, s, t, r)
  }

  /** `Meaning(x)`, folded: methods pass claims on as they are, and only the lemmas that call OpenClaim or
      CloseClaim look inside. */
  ghost predicate Holds(x: Claim, veil: Veil := VEIL) {
    match veil
    case Bare => Meaning(x) == true
    case Fold(inner) => Holds(x, inner)
  }

  lemma {:induction false} OpenClaim(x: Claim, veil: Veil := VEIL)
    requires Holds(x, veil)
    ensures Meaning(x)
  {
    if veil.Fold? {
      OpenClaim(x, veil.inner);
    }
  }

  lemma {:induction false} CloseClaim(x: Claim, veil: Veil := VEIL)
    requires Meaning(x)
    ensures Holds(x, veil)
  {
    if veil.Fold? {
      CloseClaim(x, veil.inner);
    }
  }

  /** The block of `c` is `b`, and it is in the cache. */
  ghost predicate AtBlock(h: Header, s: Img, c: nat, b: nat)
    requires h.Valid()
  {
    BlockCached(h, s, c) && BlockOf(h, s, c) == b != 0
  }

  /** What a search leaves alone. */
  ghost predicate SearchFrame(h: Header, s0: Img, s: Img)
    requires h.Valid()
  {
    && s.l1 == s0.l1 && s.l1Dirty == s0.l1Dirty && s.l2Cache == s0.l2Cache
    && (forall d: nat, i: nat :: !IsTable(Abs(h, s0), d) ==> s.file(d, i) == s0.file(d, i))
  }

  /** The search that began in `s0` reached `c` and met only clusters in use. */
  ghost predicate StandsAt(h: Header, s0: Img, s: Img, c: nat) {
    && Good(h, s0, {}) && Good(h, s, {}) && Abs(h, s) == Abs(h, s0) && SearchFrame(h, s0, s)
    && ScannedBelow(h, Abs(h, s0), c) && s.free == c + 1
  }

  /** The search made the missing block of `c` at `b`, which is `c` or the cluster before. */
  ghost predicate MadeAt(h: Header, s0: Img, s: Img, c: nat, b: nat) {
    && Good(h, s0, {}) && SearchFrame(h, s0, s)
    && Quot(b, h.blockEntries) < h.refTableSize && !HasBlock(h, Abs(h, s0), b) && Rem(b, h.blockEntries) == 0
    && Abs(h, s) == AddBlock(h, Abs(h, s0), b) && (b < h.HostLimit() ==> Good(h, s, {}))
    && ScannedBelow(h, Abs(h, s0), b) && b <= c <= b + 1 && s.free == c + 1
  }

  /** The loop of AllocateCluster: at `c`, whose block is `rfb` (None past the last block). */
  ghost predicate SearchesAt(h: Header, s0: Img, s: Img, c: nat, rfb: Option<nat>, made: bool)
    requires h.Valid()
  {
    && (rfb == None ==> !made && Quot(c, h.blockEntries) >= h.refTableSize)
    && (rfb.Some? ==> AtBlock(h, s, c, rfb.value))
    && (if made then MadeAt(h, s0, s, c, rfb.value) else StandsAt(h, s0, s, c))
  }

  /** What AllocateCluster did: the cacheless first fit. */
  ghost predicate AllocateOutcome(h: Header, s: Img, t: Img, r: nat)
    requires Good(h, s, {})
  {
    && SearchFrame(h, s, t)
    && (if r == 0 then
          && Good(h, t, {}) && Abs(h, t) == Abs(h, s)
          && (forall d: nat :: d < Capacity(h) ==> Refcount(h, Abs(h, s), d) != 0)
        else
          && r < Capacity(h) && Refcount(h, Abs(h, s), r) == 0 && t.free == r + 1
          && Took(h, Abs(h, s), Abs(h, t), r)
          && (r < h.HostLimit() ==> Good(h, t, {r})))
  }

  ghost predicate LocatedAt(h: Header, s: Img, t: Img, c: nat, allocate: bool, rfb: Option<nat>)
    requires Good(h, s, {})
  {
    && (rfb == None <==> Quot(c, h.blockEntries) >= h.refTableSize || (!allocate && !HasBlock(h, Abs(h, s), c)))
    && (rfb == None ==> t == s)
    && (rfb.Some? ==> AtBlock(h, t, c, rfb.value))
    && (rfb.Some? && HasBlock(h, Abs(h, s), c) ==> Found(h, s, t))
    && (rfb.Some? && !HasBlock(h, Abs(h, s), c) ==> rfb.value == c && MakeStep(h, s, t, c))
  }

  lemma LocateFacts(h: Header, s: Img, c: nat)
    requires Holds(InOrder(h, s))
    ensures h.Valid() && |s.refTable| == h.refTableSize
    ensures Quot(c, h.blockEntries) < h.refTableSize && BlockOf(h, s, c) == 0 ==> c !in s.blockCache
  {
    OpenClaim(InOrder(h, s));
    if Quot(c, h.blockEntries) < h.refTableSize && BlockOf(h, s, c) == 0 {
      BlockPresence(h, s, c);
      MissingBlockIsUncached(h, s, c);
    }
  }

  lemma LocateNothing(h: Header, s: Img, c: nat, allocate: bool)
    requires Holds(InOrder(h, s)) && h.Valid() && |s.refTable| == h.refTableSize
    requires Quot(c, h.blockEntries) >= h.refTableSize || (!allocate && BlockOf(h, s, c) == 0)
    ensures Holds(Located(h, s, s, c, allocate, None))
  {
    OpenClaim(InOrder(h, s));
    if Quot(c, h.blockEntries) < h.refTableSize {
      BlockPresence(h, s, c);
    }
    CloseClaim(Located(h, s, s, c, allocate, None));
  }

  lemma LocateMade(h: Header, s: Img, t: Img, c: nat)
    requires Holds(InOrder(h, s)) && h.Valid() && Quot(c, h.blockEntries) < |s.refTable| == h.refTableSize
    requires BlockOf(h, s, c) == 0 && MakeStep(h, s, t, c)
    ensures Holds(Located(h, s, t, c, true, Some(c)))
  {
    OpenClaim(InOrder(h, s));
    BlockPresence(h, s, c);
    MissingBlockIsUncached(h, s, c);
    MakeStepCached(h, s, t, c);
    CloseClaim(Located(h, s, t, c, true, Some(c)));
  }

  lemma LocateFound(h: Header, s: Img, t: Img, c: nat, allocate: bool, b: nat)
    requires Holds(InOrder(h, s)) && h.Valid() && Quot(c, h.blockEntries) < |s.refTable| == h.refTableSize
    requires BlockOf(h, s, c) == b != 0 && BlockStep(h, s, t, b)
    ensures Holds(Located(h, s, t, c, allocate, Some(b)))
  {
    OpenClaim(InOrder(h, s));
    BlockPresence(h, s, c);
    BlockStepKeeps(h, s, t, {}, b);
    assert Found(h, s, t);
    CloseClaim(Located(h, s, t, c, allocate, Some(b)));
  }

  lemma StandingIsInOrder(h: Header, s0: Img, s: Img, c: nat)
    requires Holds(Standing(h, s0, s, c))
    ensures Holds(InOrder(h, s))
  {
    OpenClaim(Standing(h, s0, s, c));
    CloseClaim(InOrder(h, s));
  }

  lemma SearchLocated(h: Header, s0: Img, s: Img, t: Img, c: nat, rfb: Option<nat>) returns (made: bool)
    requires Holds(Standing(h, s0, s, c)) && Holds(Located(h, s, t, c, true, rfb))
    ensures Holds(Searching(h, s0, t, c, rfb, made))
  {
    OpenClaim(Standing(h, s0, s, c));
    OpenClaim(Located(h, s, t, c, true, rfb));
    made := rfb.Some? && !HasBlock(h, Abs(h, s), c);
    if made {
      SearchMakes(h, s0, s, t, c);
    } else if rfb.Some? {
      SearchFinds(h, s0, s, t, c, rfb.value);
    }
    CloseClaim(Searching(h, s0, t, c, rfb, made));
  }

  lemma SearchStarts(h: Header, s0: Img)
    requires Holds(Idle(h, s0))
    ensures Holds(Standing(h, s0, s0.(free := s0.free + 1), s0.free))
  {
    OpenClaim(Idle(h, s0));
    FreeIsNoTable(h, s0, s0.free + 1);
    CloseClaim(Standing(h, s0, s0.(free := s0.free + 1), s0.free));
  }

  /** The scan position is no part of the invariant of the tables. */
  lemma FreeIsNoTable(h: Header, s: Img, f: nat)
    requires h.Valid()
    ensures Abs(h, s.(free := f)) == Abs(h, s)
    ensures Good(h, s, {}) ==> Good(h, s.(free := f), {})
  {
    AbsSame(h, s, s.(free := f));
    if Good(h, s, {}) {
      OpenGood(h, s, {});
      CloseGood(h, s.(free := f), {});
    }
  }

  lemma SearchFinds(h: Header, s0: Img, s: Img, t: Img, c: nat, b: nat)
    requires StandsAt(h, s0, s, c) && Found(h, s, t) && AtBlock(h, t, c, b)
    ensures SearchesAt(h, s0, t, c, Some(b), false)
  {
    assert StandsAt(h, s0, t, c);
  }

  lemma SearchMakes(h: Header, s0: Img, s: Img, t: Img, c: nat)
    requires StandsAt(h, s0, s, c) && Quot(c, h.blockEntries) < h.refTableSize && !HasBlock(h, Abs(h, s), c)
    requires MakeStep(h, s, t, c)
    ensures SearchesAt(h, s0, t, c, Some(c), true)
  {
    WithinCapacity(h, c);
    MakeStepAbs(h, s, t, c);
    MakeStepCached(h, s, t, c);
    MissingBlockIsUncached(h, s, c);
    MissingBlockAtRangeStart(h, Abs(h, s), c);
    assert MadeAt(h, s0, t, c, c);
  }

  lemma AtBlockFacts(h: Header, s: Img, c: nat, b: nat)
    requires h.Valid() && Shape(h, Abs(h, s)) && AtBlock(h, s, c, b)
    ensures HasBlock(h, Abs(h, s), c) && |s.blockCache[b].entries| == h.blockEntries
    ensures Refcount(h, Abs(h, s), c) == s.blockCache[b].entries[Rem(c, h.blockEntries)]
  {
    BlockPresence(h, s, c);
    assert b in Abs(h, s).blocks;
  }

  /** A block just made counts itself and nothing else, and the cluster after it is free. */
  lemma MadeFacts(h: Header, s0: Img, s: Img, c: nat, b: nat)
    requires MadeAt(h, s0, s, c, b)
    ensures Consistent(h, Abs(h, s), {}) && 0 < b < Capacity(h)
    ensures Refcount(h, Abs(h, s), c) == if c == b then 1 else 0
    ensures Quot(b + 1, h.blockEntries) == Quot(b, h.blockEntries)
  {
    MissingBlockIsUncached(h, s0, b);
    OpenGood(h, s0, {});
    MadeCounts(h, Abs(h, s0), b);
  }

  lemma MadeCounts(h: Header, m: Meta, b: nat)
    requires Consistent(h, m, {}) && Quot(b, h.blockEntries) < h.refTableSize && !HasBlock(h, m, b) && Rem(b, h.blockEntries) == 0
    ensures Consistent(h, AddBlock(h, m, b), {}) && b < Capacity(h) && Quot(b + 1, h.blockEntries) == Quot(b, h.blockEntries)
    ensures Refcount(h, AddBlock(h, m, b), b) == 1 && Refcount(h, AddBlock(h, m, b), b + 1) == 0
  {
    AddBlockKeepsConsistent(h, m, {}, b);
    WithinCapacity(h, b);
    NextInRange(h, b);
    assert !HasBlock(h, m, b + 1);
  }

  lemma SearchFacts(h: Header, s0: Img, s: Img, c: nat, rfb: Option<nat>, made: bool)
    requires Holds(Searching(h, s0, s, c, rfb, made))
    ensures h.Valid()
    ensures rfb == None ==> Holds(Allocation(h, s0, s, 0))
    ensures rfb.Some? ==>
      rfb.value in s.blockCache && |s.blockCache[rfb.value].entries| == h.blockEntries && c < Capacity(h)
  {
    OpenClaim(Searching(h, s0, s, c, rfb, made));
    WithinCapacity(h, c);
    if rfb == None {
      CloseClaim(Allocation(h, s0, s, 0));
    } else {
      SearchedFacts(h, s0, s, c, rfb.value, made);
    }
  }

  lemma NextSlot(h: Header, c: nat)
    requires h.Valid()
    ensures Rem(c, h.blockEntries) + 1 < h.blockEntries ==>
      Rem(c + 1, h.blockEntries) == Rem(c, h.blockEntries) + 1 && Quot(c + 1, h.blockEntries) == Quot(c, h.blockEntries)
  {
    QuotRem(c, h.blockEntries);
    if Rem(c, h.blockEntries) + 1 < h.blockEntries {
      QuotRemUnique(c + 1, h.blockEntries, Quot(c, h.blockEntries), Rem(c, h.blockEntries) + 1);
    }
  }

  lemma ScannedNext(h: Header, m: Meta, c: nat)
    requires Shape(h, m) && ScannedBelow(h, m, c) && Refcount(h, m, c) != 0
    ensures ScannedBelow(h, m, c + 1)
  {
  }

  lemma StandPast(h: Header, s0: Img, s: Img, c: nat, b: nat)
    requires StandsAt(h, s0, s, c) && AtBlock(h, s, c, b) && Refcount(h, Abs(h, s0), c) != 0
    ensures StandsAt(h, s0, s.(free := c + 2), c + 1)
    ensures Quot(c + 1, h.blockEntries) == Quot(c, h.blockEntries) ==> AtBlock(h, s.(free := c + 2), c + 1, b)
  {
    FreeIsNoTable(h, s, c + 2);
    ScannedNext(h, Abs(h, s0), c);
    var t := s.(free := c + 2);
    assert Good(h, t, {}) && SearchFrame(h, s0, t);
  }

  lemma MakePast(h: Header, s0: Img, s: Img, c: nat, b: nat)
    requires MadeAt(h, s0, s, c, b) && AtBlock(h, s, c, b)
    requires Shape(h, Abs(h, s)) && Refcount(h, Abs(h, s), c) != 0
    ensures MadeAt(h, s0, s.(free := c + 2), c + 1, b) && AtBlock(h, s.(free := c + 2), c + 1, b)
    ensures Rem(c, h.blockEntries) == 0
  {
    FreeIsNoTable(h, s, c + 2);
    MadeFacts(h, s0, s, c, b);
  }

  lemma SearchedFacts(h: Header, s0: Img, s: Img, c: nat, b: nat, made: bool)
    requires h.Valid() && SearchesAt(h, s0, s, c, Some(b), made)
    ensures Shape(h, Abs(h, s)) && HasBlock(h, Abs(h, s), c)
    ensures b in s.blockCache && |s.blockCache[b].entries| == h.blockEntries
    ensures Refcount(h, Abs(h, s), c) == s.blockCache[b].entries[Rem(c, h.blockEntries)]
  {
    if made {
      MadeFacts(h, s0, s, c, b);
    }
    AtBlockFacts(h, s, c, b);
  }

  /** One step past a cluster in use: to the next slot, or to the next block. */
  lemma SearchAdvances(h: Header, s0: Img, s: Img, c: nat, b: nat, made: bool)
    requires h.Valid() && Holds(Searching(h, s0, s, c, Some(b), made))
    requires b in s.blockCache && |s.blockCache[b].entries| == h.blockEntries
    requires s.blockCache[b].entries[Rem(c, h.blockEntries)] != 0
    ensures var t := s.(free := c + 2);
      if Rem(c, h.blockEntries) + 1 < h.blockEntries
      then Holds(Searching(h, s0, t, c + 1, Some(b), made)) && Rem(c + 1, h.blockEntries) == Rem(c, h.blockEntries) + 1
      else Holds(Standing(h, s0, t, c + 1))
  {
    NextSlot(h, c);
    if made {
      MadeSearchAdvances(h, s0, s, c, b);
    } else {
      StandSearchAdvances(h, s0, s, c, b);
    }
  }

  lemma MadeSearchAdvances(h: Header, s0: Img, s: Img, c: nat, b: nat)
    requires h.Valid() && Holds(Searching(h, s0, s, c, Some(b), true))
    requires b in s.blockCache && |s.blockCache[b].entries| == h.blockEntries
    requires s.blockCache[b].entries[Rem(c, h.blockEntries)] != 0
    ensures Holds(Searching(h, s0, s.(free := c + 2), c + 1, Some(b), true)) && Rem(c, h.blockEntries) == 0
  {
    OpenClaim(Searching(h, s0, s, c, Some(b), true));
    SearchedFacts(h, s0, s, c, b, true);
    MakePast(h, s0, s, c, b);
    CloseClaim(Searching(h, s0, s.(free := c + 2), c + 1, Some(b), true));
  }

  lemma StandSearchAdvances(h: Header, s0: Img, s: Img, c: nat, b: nat)
    requires h.Valid() && Holds(Searching(h, s0, s, c, Some(b), false))
    requires b in s.blockCache && |s.blockCache[b].entries| == h.blockEntries
    requires s.blockCache[b].entries[Rem(c, h.blockEntries)] != 0
    ensures Holds(Standing(h, s0, s.(free := c + 2), c + 1))
    ensures Quot(c + 1, h.blockEntries) == Quot(c, h.blockEntries) ==>
      Holds(Searching(h, s0, s.(free := c + 2), c + 1, Some(b), false))
  {
    OpenClaim(Searching(h, s0, s, c, Some(b), false));
    SearchedFacts(h, s0, s, c, b, false);
    StandPast(h, s0, s, c, b);
    CloseClaim(Standing(h, s0, s.(free := c + 2), c + 1));
    if Quot(c + 1, h.blockEntries) == Quot(c, h.blockEntries) {
      CloseClaim(Searching(h, s0, s.(free := c + 2), c + 1, Some(b), false));
    }
  }

  /** The cluster the search ends at is the first fit. */
  lemma SearchTook(h: Header, s0: Img, s: Img, c: nat, b: nat, made: bool)
    requires h.Valid() && SearchesAt(h, s0, s, c, Some(b), made)
    requires Shape(h, Abs(h, s)) && HasBlock(h, Abs(h, s), c) && Refcount(h, Abs(h, s), c) == 0
    ensures Good(h, s0, {}) && SearchFrame(h, s0, s) && s.free == c + 1 && 0 < c < Capacity(h)
    ensures Took(h, Abs(h, s0), SetRefcount(h, Abs(h, s), c, 1), c) && Refcount(h, Abs(h, s0), c) == 0
    ensures c < h.HostLimit() ==> Good(h, s, {})
  {
    WithinCapacity(h, c);
    if made {
      MadeTook(h, s0, s, c, b);
    } else {
      OpenGood(h, s, {});
      assert Place(h, Abs(h, s), HeaderCluster) == 0;
      assert Owned(h, Abs(h, s), 0);
    }
  }

  lemma SearchSucceeds(h: Header, s0: Img, s: Img, c: nat, b: nat, made: bool)
    requires h.Valid() && Holds(Searching(h, s0, s, c, Some(b), made))
    requires b in s.blockCache && |s.blockCache[b].entries| == h.blockEntries
    requires s.blockCache[b].entries[Rem(c, h.blockEntries)] == 0
    ensures Quot(c, h.blockEntries) < |s.refTable| && BlockOf(h, s, c) == b
    ensures Holds(Allocation(h, s0, WithCount(h, s, c, 1), c))
  {
    OpenClaim(Searching(h, s0, s, c, Some(b), made));
    SearchedFacts(h, s0, s, c, b, made);
    SearchTook(h, s0, s, c, b, made);
    WithCountAbs(h, s, c, 1);
    if c < h.HostLimit() {
      OpenGood(h, s, {});
      TakeKeeps(h, s, c);
      CloseGood(h, WithCount(h, s, c, 1), {c});
    }
    CloseClaim(Allocation(h, s0, WithCount(h, s, c, 1), c));
  }

  lemma MadeTook(h: Header, s0: Img, s: Img, c: nat, b: nat)
    requires MadeAt(h, s0, s, c, b) && Shape(h, Abs(h, s)) && HasBlock(h, Abs(h, s), c) && Refcount(h, Abs(h, s), c) == 0
    ensures Took(h, Abs(h, s0), SetRefcount(h, Abs(h, s), c, 1), c) && Refcount(h, Abs(h, s0), c) == 0
  {
    MadeFacts(h, s0, s, c, b);
    assert c == b + 1;
    assert !HasBlock(h, Abs(h, s0), c);
  }

  /** Only the block cache and the clusters of tables differ; the metadata is the same. */
  ghost predicate Found(h: Header, s: Img, t: Img) {
    Good(h, t, {}) && SameLogical(h, s, t) && t.l2Cache == s.l2Cache
  }

  lemma BlockPresence(h: Header, s: Img, c: nat)
    requires h.Valid() && Quot(c, h.blockEntries) < |s.refTable|
    ensures HasBlock(h, Abs(h, s), c) <==> BlockOf(h, s, c) != 0
    ensures BlockOf(h, s, c) != 0 ==> BlockOf(h, s, c) in BlockClusters(h, s)
  {
    assert DecodeRefTable(h, s.refTable)[Quot(c, h.blockEntries)] == BlockOf(h, s, c);
  }

  lemma MissingBlockIsUncached(h: Header, s: Img, c: nat)
    requires Good(h, s, {}) && Quot(c, h.blockEntries) < |s.refTable| && !HasBlock(h, Abs(h, s), c)
    ensures c !in s.blockCache && c != 0
  {
    OpenGood(h, s, {});
    assert Refcount(h, Abs(h, s), c) == 0;
    UnownedIsNoTable(h, Abs(h, s), c);
  }

  lemma MakeStepCached(h: Header, s: Img, t: Img, c: nat)
    requires h.Valid() && Quot(c, h.blockEntries) < |s.refTable| && MakeStep(h, s, t, c)
    ensures BlockCached(h, t, c) && BlockOf(h, t, c) == c
    ensures t.blockCache[c].entries == Zeros(h.blockEntries)[Rem(c, h.blockEntries) := 1]
  {
    OffsetFacts(h, c);
  }

  /** Allocation is first fit and total: it fails exactly if every cluster that the refcount table covers
      is in use, and otherwise takes a cluster nobody owned, leaving no free cluster below it. */
  lemma AllocationIsFirstFit(h: Header, s: Img, t: Img, r: nat)
    requires Holds(Idle(h, s)) && Holds(Allocation(h, s, t, r))
    ensures h.Valid() && Shape(h, Abs(h, s))
    ensures r == 0 <==> forall c: nat :: c < Capacity(h) ==> Refcount(h, Abs(h, s), c) != 0
    ensures r > 0 ==> r < Capacity(h) && !Owned(h, Abs(h, s), r)
    ensures r > 0 ==> Shape(h, Abs(h, t)) && Refcount(h, Abs(h, t), r) == 1 && ScannedBelow(h, Abs(h, t), r + 1)
  {
    OpenClaim(Idle(h, s));
    OpenClaim(Allocation(h, s, t, r));
    OpenGood(h, s, {});
    if r > 0 {
      TookKeepsConsistent(h, Abs(h, s), {}, Abs(h, t), r);
    }
  }

  /** An image between two operations: every cluster in use has one owner, and refcounts say so. */
  lemma OwnershipIsExact(h: Header, s: Img)
    requires Holds(Idle(h, s))
    ensures h.Valid() && Shape(h, Abs(h, s)) && Disjoint(h, Abs(h, s)) && InBounds(h, Abs(h, s))
    ensures forall c: nat :: Refcount(h, Abs(h, s), c) == if Owned(h, Abs(h, s), c) then 1 else 0
    ensures ScannedBelow(h, Abs(h, s), s.free)
  {
    OpenClaim(Idle(h, s));
    OpenGood(h, s, {});
  }
}
