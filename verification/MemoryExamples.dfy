/** A manager driven through three calls, after which an unmapped region still translates. */
module MemoryExamples {
  import opened Common
  import opened FlatView
  import opened MemorySlots
  import opened MemoryManager

  // ---------------------------------------------------------------- how many ids a commit needs

  lemma {:induction false} BuildSize(rs: seq<Region>, ps: seq<nat>, n: nat)
    requires n <= |ps|
    ensures |Build(rs, ps, n)| <= n
  {
    if n > 0 {
      BuildSize(rs, ps, n - 1);
    }
  }

  lemma {:induction false} SortedSize(s: set<nat>)
    ensures |Sorted(s)| == |s|
  {
    if s != {} {
      SortedSize(s - {Highest(s)});
    }
  }

  lemma {:induction false} PointsSize(rs: seq<Region>, n: nat)
    requires n <= |rs|
    ensures |PointsOf(rs, n)| <= 2 * n
  {
    if n > 0 {
      var before, r := PointsOf(rs, n - 1), rs[n - 1];
      PointsSize(rs, n - 1);
      OneMore(before, r.gpa);
      OneMore(before + {r.gpa}, r.gpa + r.size);
      assert PointsOf(rs, n) == before + {r.gpa} + {r.gpa + r.size};
    }
  }

  /** A view has at most two entries per region, so a commit needs no more ids than that. */
  lemma NeedsAtMost(slots: map<nat, Slot>, rs: seq<Region>)
    ensures |View(rs)| <= 2 * |rs| && Needs(slots, View(rs)) <= 2 * |rs|
  {
    BuildSize(rs, Points(rs), |Points(rs)|);
    SortedSize(PointsOf(rs, |rs|));
    PointsSize(rs, |rs|);
    ViewIsOrdered(rs);
    NeedsFew(slots, View(rs));
  }

  lemma {:induction false} KeySetSize(v: seq<Entry>, n: nat) returns (s: set<nat>)
    requires n <= |v|
    ensures |s| <= n && forall k :: k in s <==> exists i :: 0 <= i < n && v[i].key == k
  {
    if n == 0 {
      s := {};
    } else {
      var t := KeySetSize(v, n - 1);
      OneMore(t, v[n - 1].key);
      s := t + {v[n - 1].key};
    }
  }

  lemma SubsetSize(s: set<nat>, t: set<nat>)
    requires s <= t
    ensures |s| <= |t|
  {
    assert t == s + (t - s);
  }

  /** A commit leaves at most the slots of the view and the old ones. */
  lemma CommittedSize(slots: map<nat, Slot>, v: seq<Entry>, after: map<nat, Slot>)
    requires Committed(slots, v, after)
    ensures |after.Keys| <= |v| + |slots.Keys|
  {
    var s := KeySetSize(v, |v|);
    assert after.Keys <= s + slots.Keys;
    SubsetSize(after.Keys, s + slots.Keys);
  }

  // ---------------------------------------------------------------- the views of the example

  /** The regions of the example. */
  ghost predicate IsLower(r: Region) {
    r == Region(0, 0, 10, 5000, Ram)
  }

  ghost predicate IsUpper(r: Region) {
    r == Region(1, 100, 10, 6000, Ram)
  }

  lemma PointsAre(rs: seq<Region>, ps: seq<nat>)
    requires Ascending(ps) && forall p: nat :: p in ps <==> IsPoint(rs, p)
    ensures Points(rs) == ps
  {
    PointsFacts(rs);
    AscendingUnique(Points(rs), ps);
  }

  lemma ViewOfOne(rs: seq<Region>)
    requires |rs| == 1 && IsLower(rs[0])
    ensures View(rs) == [Entry(0, rs[0])]
  {
    var ps := [0, 10];
    assert IsEnd(rs[0], 0) && IsEnd(rs[0], 10);
    PointsAre(rs, ps);
    assert PickIndex(rs, 1, 0, None) == 0;
    assert Build(rs, ps, 1) == [Entry(0, rs[0])];
    assert PickIndex(rs, 1, 10, Some(rs[0])) == -1;
    assert Build(rs, ps, 2) == [Entry(0, rs[0])];
  }

  lemma ViewOfTwo(rs: seq<Region>)
    requires |rs| == 2 && IsLower(rs[0]) && IsUpper(rs[1])
    ensures View(rs) == [Entry(0, rs[0]), Entry(100, rs[1])]
  {
    var ps := [0, 10, 100, 110];
    assert IsEnd(rs[0], 0) && IsEnd(rs[0], 10) && IsEnd(rs[1], 100) && IsEnd(rs[1], 110);
    PointsAre(rs, ps);
    assert PickIndex(rs, 2, 0, None) == 0;
    assert Build(rs, ps, 1) == [Entry(0, rs[0])];
    assert PickIndex(rs, 2, 10, Some(rs[0])) == -1;
    assert Build(rs, ps, 2) == [Entry(0, rs[0])];
    assert PickIndex(rs, 2, 100, Some(rs[0])) == 1;
    assert Build(rs, ps, 3) == [Entry(0, rs[0]), Entry(100, rs[1])];
    assert PickIndex(rs, 2, 110, Some(rs[1])) == -1;
  }

  /** `n` slots, all committable, exactly those of the view. */
  ghost predicate Settled(slots: map<nat, Slot>, rs: seq<Region>, n: nat) {
    Exact(slots, View(rs)) && AllCommittable(slots) && |slots.Keys| <= n
  }

  lemma AllRam(slots: map<nat, Slot>, v: seq<Entry>)
    requires Exact(slots, v) && forall i :: 0 <= i < |v| ==> v[i].region.kind == Ram
    ensures AllCommittable(slots)
  {
    forall k | k in slots
      ensures Committable(slots[k])
    {
      assert IsKey(v, k);
      var i: nat :| i < |v| && v[i].key == k;
      assert Served(slots, v, i);
    }
  }

  lemma FirstIsSettled(was: map<nat, Slot>, rs: seq<Region>, after: map<nat, Slot>)
    requires was == map[] && |rs| == 1 && IsLower(rs[0]) && Committed(was, View(rs), after)
    ensures Settled(after, rs, 1)
  {
    var v := View(rs);
    ViewOfOne(rs);
    ViewIsOrdered(rs);
    assert Exact(was, []);
    CommitExactIff(was, [], v, after);
    AllRam(after, v);
    CommittedSize(was, v, after);
  }

  lemma SecondIsSettled(was: map<nat, Slot>, one: seq<Region>, rs: seq<Region>, after: map<nat, Slot>)
    requires |rs| == 2 && IsLower(rs[0]) && IsUpper(rs[1]) && |one| == 1 && one[0] == rs[0] && Settled(was, one, 1)
    requires Committed(was, View(rs), after)
    ensures Settled(after, rs, 3)
  {
    var v := View(rs);
    ViewOfOne(one);
    ViewOfTwo(rs);
    ViewIsOrdered(rs);
    forall k | k in was
      ensures !Beyond(v, k)
    {
      assert IsKey(View(one), k);
      assert v[1].key == 100;
    }
    CommitExactIff(was, View(one), v, after);
    AllRam(after, v);
    CommittedSize(was, v, after);
  }

  /** Some slot leads guest address `a` to `host`. */
  ghost predicate Finds(slots: map<nat, Slot>, a: nat, host: int) {
    exists k :: InForce(slots, a, k) && slots[k].begin <= a < slots[k].end && slots[k].hva + (a - slots[k].begin) == host
  }

  lemma ThirdTranslates(was: map<nat, Slot>, rs: seq<Region>, one: seq<Region>, after: map<nat, Slot>)
    requires |rs| == 2 && IsLower(rs[0]) && IsUpper(rs[1]) && |one| == 1 && one[0] == rs[0] && Settled(was, rs, 3)
    requires Committed(was, View(one), after)
    ensures Finds(after, 105, 6005)
  {
    ViewOfOne(one);
    ViewOfTwo(rs);
    UnmappedRegionStillTranslates(was, after);
  }

  // ---------------------------------------------------------------- the calls

  method MapLower() returns (m: MemoryManager)
    ensures fresh(m) && m.Valid() && m.maxSlots == 8 && m.nextRegion == 1 && m.retired == {}
    ensures |m.regions| == 1 && IsLower(m.regions[0]) && Settled(m.slots, m.regions, 1)
  {
    m := new MemoryManager(8);
    ghost var was, rs := m.slots, m.regions + [Region(0, 0, 10, 5000, Ram)];
    assert |rs| == 1;
    NeedsAtMost(was, rs);
    BookedCount(8, m.freeSlots, m.slots, m.retired, m.kvm);
    var a := m.Map(0, 10, 5000, Ram);
    FirstIsSettled(was, m.regions, m.slots);
  }

  method MapUpper(m: MemoryManager) returns (b: Region)
    requires m.Valid() && m.maxSlots == 8 && m.nextRegion == 1 && m.retired == {}
    requires |m.regions| == 1 && IsLower(m.regions[0]) && Settled(m.slots, m.regions, 1)
    modifies m
    ensures m.Valid() && m.retired == {} && Settled(m.slots, m.regions, 3)
    ensures |m.regions| == 2 && IsLower(m.regions[0]) && IsUpper(m.regions[1]) && b == m.regions[1]
  {
    ghost var was, one, rs := m.slots, m.regions, m.regions + [Region(1, 100, 10, 6000, Ram)];
    assert |rs| == 2;
    NeedsAtMost(was, rs);
    BookedCount(8, m.freeSlots, m.slots, m.retired, m.kvm);
    var r := m.Map(100, 10, 6000, Ram);
    b := r.value;
    SecondIsSettled(was, one, m.regions, m.slots);
  }

  method UnmapUpper(m: MemoryManager, b: Region)
    requires m.Valid() && m.maxSlots == 8 && m.retired == {} && Settled(m.slots, m.regions, 3)
    requires |m.regions| == 2 && IsLower(m.regions[0]) && IsUpper(m.regions[1]) && b == m.regions[1]
    modifies m
    ensures m.Valid() && |m.regions| == 1 && Finds(m.slots, 105, 6005)
  {
    ghost var was, rs := m.slots, m.regions;
    EraseAt(rs, 1);
    ghost var one := Erase(rs, b);
    assert one == [rs[0]];
    NeedsAtMost(was, one);
    BookedCount(8, m.freeSlots, m.slots, m.retired, m.kvm);
    var ok := m.Unmap(b);
    ThirdTranslates(was, rs, one, m.slots);
  }

  /** With eight slot ids: two regions are mapped, the upper one is unmapped, and an address in it is still
      translated to its memory. */
  method UnmapLeavesTranslation() returns (r: Option<int>)
    ensures r == Some(6005)
  {
    var m := MapLower();
    var b := MapUpper(m);
    UnmapUpper(m, b);
    r := m.GuestToHostAddress(105);
  }
}
