/** The memory manager: regions, the KVM slots in force and the pool of slot ids. */
module MemoryManager {
  import opened Common
  import opened FlatView
  import opened MemorySlots

  class MemoryManager {
    var regions: seq<Region>
    var slots: map<nat, Slot>
    var freeSlots: set<nat>
    var nextRegion: nat
    /** Ids of removed slots that KVM never had: nothing returns them. */
    ghost var retired: set<nat>
    /** What KVM was told. */
    ghost var kvm: set<Slot>
    ghost const maxSlots: nat

    ghost predicate Valid()
      reads this
    {
      && Keyed(slots) && Booked(maxSlots, freeSlots, slots, retired, kvm, {})
      && (forall i :: 0 <= i < |regions| ==> regions[i].size > 0 && regions[i].id < nextRegion)
      && (forall i, j :: 0 <= i < j < |regions| ==> regions[i].id != regions[j].id)
    }

    constructor (max: nat)
      ensures Valid() && maxSlots == max && regions == [] && slots == map[] && retired == {} && nextRegion == 0
      ensures forall id: nat :: id in freeSlots <==> id < max
    {
      regions, slots, nextRegion, freeSlots := [], map[], 0, {};
      retired, kvm, maxSlots := {}, {}, max;
      new;
      var i := 0;
      while i < max
        invariant i <= max && regions == [] && slots == map[] && retired == {} && kvm == {} && nextRegion == 0
        invariant forall id: nat :: id in freeSlots <==> id < i
      {
        freeSlots := freeSlots + {i};
        i := i + 1;
      }
      NothingBooked(max, freeSlots);
    }

    /** The lowest free id; None where the original asserts. */
    method AllocateSlotId() returns (r: Option<nat>)
      modifies this`freeSlots
      ensures r == None <==> old(freeSlots) == {}
      ensures r.Some? ==> r.value in old(freeSlots) && freeSlots == old(freeSlots) - {r.value}
      ensures r.Some? ==> forall id :: id in old(freeSlots) ==> r.value <= id
      ensures r == None ==> freeSlots == old(freeSlots)
    {
      if freeSlots == {} {
        return None;
      }
      var id := Lowest(freeSlots);
      freeSlots := freeSlots - {id};
      return Some(id);
    }

    // -------------------------------------------------------------- the new view

    method CollectPoints() returns (points: set<nat>)
      ensures points == PointsOf(regions, |regions|)
    {
      points := {};
      var i := 0;
      while i < |regions|
        invariant i <= |regions| && points == PointsOf(regions, i)
      {
        points := points + {regions[i].gpa};
        points := points + {regions[i].gpa + regions[i].size};
        i := i + 1;
      }
    }

    /** The inner loop, from the latest region down. */
    method PickRegion(point: nat, last: Option<Region>) returns (k: int)
      ensures k == PickIndex(regions, |regions|, point, last)
    {
      k := |regions| - 1;
      while k >= 0
        invariant -1 <= k < |regions|
        invariant PickIndex(regions, |regions|, point, last) == PickIndex(regions, k + 1, point, last)
      {
        if Covers(regions[k], point) && last != Some(regions[k]) {
          return;
        }
        k := k - 1;
      }
    }

    method FlattenRegions() returns (v: seq<Entry>)
      ensures v == View(regions)
    {
      var collected := CollectPoints();
      var points := Sorted(collected);
      v := [];
      var n := 0;
      while n < |points|
        invariant n <= |points| && v == Build(regions, points, n)
      {
        var k := PickRegion(points[n], LastRegion(v));
        if k >= 0 {
          v := v + [Entry(points[n], regions[k])];
        }
        n := n + 1;
      }
    }

    // -------------------------------------------------------------- the comparison

    /** The two-iterator loop: which slots go, which come; false when the ids run out. */
    method Compare(v: seq<Entry>, keys: seq<nat>) returns (ok: bool, add: map<nat, Slot>, remove: set<nat>)
      requires Ordered(v) && Ascending(keys) && forall q :: q in keys <==> q in slots
      modifies this`freeSlots
      ensures ok <==> Needs(slots, v) <= |old(freeSlots)|
      ensures ok ==> Sifted(slots, v, add, remove) && Keyed(add) && Drawn(old(freeSlots), freeSlots, add)
    {
      AddedIsUnserved(slots, keys, v);
      var i, j := 0, 0;
      add, remove := map[], {};
      ComparisonStarts(slots, keys, v);
      NothingDrawn(freeSlots);
      while i < |v|
        invariant i <= |v| && j <= |keys|
        invariant Comparison(slots, keys, v, i, j, add, remove) && Drawn(old(freeSlots), freeSlots, add)
        decreases |v| - i + |keys| - j
      {
        if j == |keys| || v[i].key < keys[j] {
          EntryIsNew(slots, keys, v, i, j, add, remove, old(freeSlots));
          var more := NewEntry(v, i, add, old(freeSlots), slots, keys, j, remove);
          if more == None {
            return false, add, remove;
          }
          add, i := more.value, i + 1;
        } else if Pair(slots, keys, v, j, i) {
          SlotStays(slots, keys, v, i, j, add, remove);
          i, j := i + 1, j + 1;
        } else {
          SlotGoes(slots, keys, v, i, j, add, remove);
          remove := remove + {keys[j]};
          j := j + 1;
        }
      }
      AllAdded(slots, keys, v, j, add, remove, old(freeSlots), freeSlots);
      return true, add, remove;
    }

    /** A new slot for entry `i`, with an id from the pool. */
    method NewEntry(v: seq<Entry>, i: nat, add: map<nat, Slot>, ghost before: set<nat>,
                    ghost slots: map<nat, Slot>, ghost keys: seq<nat>, ghost j: nat, ghost remove: set<nat>)
      returns (more: Option<map<nat, Slot>>)
      requires i < |v| && Above(add, v[i].key) && Drawn(before, freeSlots, add)
      requires forall id :: Comparison(slots, keys, v, i + 1, j, add[v[i].key := NewSlot(id, v, i)], remove)
      modifies this`freeSlots
      ensures more == None <==> |add.Keys| >= |before|
      ensures more.Some? ==> Comparison(slots, keys, v, i + 1, j, more.value, remove) && Drawn(before, freeSlots, more.value)
    {
      ghost var free := freeSlots;
      DrawnCount(before, free, add);
      var id := AllocateSlotId();
      if id == None {
        return None;
      }
      DrawsOne(before, free, freeSlots, add, id.value, v, i);
      return Some(add[v[i].key := NewSlot(id.value, v, i)]);
    }

    // -------------------------------------------------------------- the commit

    method RemoveSlots(remove: set<nat>, ghost pending: set<nat>)
      requires remove <= slots.Keys && Booked(maxSlots, freeSlots, slots, retired, kvm, pending)
      modifies this`slots, this`freeSlots, this`retired, this`kvm
      ensures slots == old(slots) - remove && Booked(maxSlots, freeSlots, slots, retired, kvm, pending)
      ensures retired == old(retired) + Retires(old(slots), remove)
    {
      var todo := remove;
      ghost var base, lost := slots, retired;
      LeavingStarts(base, lost, remove);
      while todo != {}
        invariant Leaving(base, lost, remove, todo, slots, retired)
        invariant Booked(maxSlots, freeSlots, slots, retired, kvm, pending)
        decreases |todo|
      {
        var k :| k in todo;
        LeavesOne(base, lost, remove, todo, slots, retired, k);
        RemoveOne(k, pending);
        todo := todo - {k};
      }
      LeavingEnds(base, lost, remove, slots, retired);
    }

    method RemoveOne(k: nat, ghost pending: set<nat>)
      requires k in slots && Booked(maxSlots, freeSlots, slots, retired, kvm, pending)
      modifies this`slots, this`freeSlots, this`retired, this`kvm
      ensures slots == old(slots) - {k} && Booked(maxSlots, freeSlots, slots, retired, kvm, pending)
      ensures freeSlots == old(freeSlots) + (if old(slots)[k].region.kind in {Ram, Rom} then {old(slots)[k].id} else {})
      ensures retired == old(retired) + (if old(slots)[k].region.kind in {Ram, Rom} then {} else {old(slots)[k].id})
    {
      RemoveIsBooked(maxSlots, freeSlots, slots, retired, kvm, pending, k);
      var s := slots[k];
      slots := slots - {k};
      if Committable(s) {
        kvm := kvm - {s};
        freeSlots := freeSlots + {s.id};
      } else {
        retired := retired + {s.id};
      }
    }

    method AddSlots(add: map<nat, Slot>)
      requires add.Keys !! slots.Keys && DistinctIds(add) && Booked(maxSlots, freeSlots, slots, retired, kvm, IdsOf(add))
      modifies this`slots, this`kvm
      ensures slots == old(slots) + add && Booked(maxSlots, freeSlots, slots, retired, kvm, {})
    {
      var todo := add.Keys;
      RestrictAll(slots, add);
      while todo != {}
        invariant todo <= add.Keys && todo !! slots.Keys && slots == old(slots) + Restrict(add, add.Keys - todo)
        invariant Booked(maxSlots, freeSlots, slots, retired, kvm, IdsOf(Restrict(add, todo)))
        decreases |todo|
      {
        var k :| k in todo;
        RestrictStep(old(slots), add, todo, k);
        AddOne(k, add[k], Restrict(add, todo));
        todo := todo - {k};
      }
    }

    method AddOne(k: nat, s: Slot, ghost rest: map<nat, Slot>)
      requires k !in slots && k in rest && rest[k] == s && DistinctIds(rest)
      requires Booked(maxSlots, freeSlots, slots, retired, kvm, IdsOf(rest))
      modifies this`slots, this`kvm
      ensures slots == old(slots)[k := s] && Booked(maxSlots, freeSlots, slots, retired, kvm, IdsOf(rest - {k}))
    {
      AddIsBooked(maxSlots, freeSlots, slots, retired, kvm, rest, k, s);
      slots := slots[k := s];
      if Committable(s) {
        kvm := kvm + {s};
      }
    }

    /** CommitMemoryRegionChanges; false when the slot ids run out, which ends the process. */
    method Commit() returns (ok: bool, ghost add: map<nat, Slot>, ghost remove: set<nat>)
      requires Valid()
      modifies this`slots, this`freeSlots, this`retired, this`kvm
      ensures ok <==> Needs(old(slots), View(regions)) <= |old(freeSlots)|
      ensures ok ==> Valid() && Committed(old(slots), View(regions), slots)
      ensures ok ==> retired == old(retired) + Retires(old(slots), remove)
      ensures ok ==> Sifted(old(slots), View(regions), add, remove) && slots == (old(slots) - remove) + add && LowestFirst(old(freeSlots), add)
      ensures ok ==> forall s :: s in kvm <==> exists k :: k in slots && slots[k] == s && (s.region.kind == Ram || s.region.kind == Rom)
    {
      var v := FlattenRegions();
      var keys := Sorted(slots.Keys);
      ViewIsOrdered(regions);
      SortedFacts(slots.Keys);
      ok, add, remove := CommitView(v, keys);
      if ok {
        KvmIsRamAndRom(maxSlots, freeSlots, slots, retired, kvm);
      }
    }

    /** The comparison with view `v` and the commit of what it found. */
    method CommitView(v: seq<Entry>, keys: seq<nat>) returns (ok: bool, ghost add: map<nat, Slot>, ghost remove: set<nat>)
      requires Keyed(slots) && Booked(maxSlots, freeSlots, slots, retired, kvm, {})
      requires Ordered(v) && Ascending(keys) && (forall q :: q in keys <==> q in slots)
      modifies this`slots, this`freeSlots, this`retired, this`kvm
      ensures ok <==> Needs(old(slots), v) <= |old(freeSlots)|
      ensures ok ==> Keyed(slots) && Booked(maxSlots, freeSlots, slots, retired, kvm, {}) && Committed(old(slots), v, slots)
      ensures ok ==> retired == old(retired) + Retires(old(slots), remove)
      ensures ok ==> Sifted(old(slots), v, add, remove) && slots == (old(slots) - remove) + add && LowestFirst(old(freeSlots), add)
    {
      ghost var was, free := slots, freeSlots;
      var coming, going;
      ok, coming, going := Compare(v, keys);
      add, remove := coming, going;
      if ok {
        CommitIsExactly(was, v, add, remove);
        DrawnIsBooked(maxSlots, free, freeSlots, slots, retired, kvm, add);
        Replace(coming, going);
      }
    }

    /** Old slots out, new slots in. */
    method Replace(add: map<nat, Slot>, remove: set<nat>)
      requires remove <= slots.Keys && add.Keys !! (slots - remove).Keys
      requires DistinctIds(add) && Booked(maxSlots, freeSlots, slots, retired, kvm, IdsOf(add))
      modifies this`slots, this`freeSlots, this`retired, this`kvm
      ensures slots == (old(slots) - remove) + add && Booked(maxSlots, freeSlots, slots, retired, kvm, {})
      ensures retired == old(retired) + Retires(old(slots), remove)
    {
      RemoveSlots(remove, IdsOf(add));
      AddSlots(add);
    }

    /** Maps a region over what is there; None where the original asserts. */
    method Map(gpa: nat, size: nat, host: nat, kind: Kind) returns (r: Option<Region>)
      requires Valid()
      modifies this
      ensures r == None && size == 0 ==> Valid() && regions == old(regions) && slots == old(slots)
      ensures r.Some? ==> Valid() && size > 0 && r.value == Region(r.value.id, gpa, size, host, kind)
      ensures r.Some? ==> r.value !in old(regions) && regions == old(regions) + [r.value]
      ensures r.Some? ==> Committed(old(slots), View(regions), slots)
      ensures r.Some? <==>
        size > 0 && Needs(old(slots), View(old(regions) + [Region(old(nextRegion), gpa, size, host, kind)])) <= |old(freeSlots)|
      ensures r.Some? ==> r.value.id == old(nextRegion) && nextRegion == old(nextRegion) + 1
      ensures r.Some? && AllCommittable(old(slots)) ==> retired == old(retired)
    {
      if size == 0 {
        return None;
      }
      var region := Region(nextRegion, gpa, size, host, kind);
      nextRegion := nextRegion + 1;
      regions := regions + [region];
      ghost var add, remove;
      var ok;
      NothingRetires(slots);
      ok, add, remove := Commit();
      return if ok then Some(region) else None;
    }

    /** Unmaps a region; false where the original asserts. */
    method Unmap(region: Region) returns (ok: bool)
      requires Valid()
      modifies this
      ensures region !in old(regions) ==> !ok && Valid() && regions == old(regions) && slots == old(slots)
      ensures ok <==> region in old(regions) && Needs(old(slots), View(Erase(old(regions), region))) <= |old(freeSlots)|
      ensures ok ==> Valid() && regions == Erase(old(regions), region) && nextRegion == old(nextRegion)
      ensures ok ==> Committed(old(slots), View(regions), slots)
      ensures ok && AllCommittable(old(slots)) ==> retired == old(retired)
    {
      var i := 0;
      while i < |regions| && regions[i] != region
        invariant i <= |regions| && forall k :: 0 <= k < i ==> regions[k] != region
      {
        i := i + 1;
      }
      if i == |regions| {
        return false;
      }
      EraseAt(regions, i);
      regions := regions[..i] + regions[i + 1..];
      NothingRetires(slots);
      ghost var add, remove;
      ok, add, remove := Commit();
    }

    // -------------------------------------------------------------- translation

    /** The keys of the slots as the map iterates over them. */
    method AscendingKeys() returns (keys: seq<nat>)
      ensures Ascending(keys) && forall q :: q in keys <==> q in slots
    {
      keys := Sorted(slots.Keys);
      SortedFacts(slots.Keys);
    }

    /** upper_bound, one step back, and the range check; None where the original panics. */
    method GuestToHostAddress(gpa: nat) returns (r: Option<int>)
      requires Keyed(slots)
      ensures r.Some? <==> exists k :: InForce(slots, gpa, k) && slots[k].begin <= gpa < slots[k].end
      ensures forall k :: InForce(slots, gpa, k) && slots[k].begin <= gpa < slots[k].end ==>
        r == Some(slots[k].hva + (gpa - slots[k].begin))
    {
      var keys := AscendingKeys();
      var i := 0;
      while i < |keys| && keys[i] <= gpa
        invariant i <= |keys| && forall y :: 0 <= y < i ==> keys[y] <= gpa
      {
        i := i + 1;
      }
      FoundInForce(slots, keys, gpa, i);
      if i > 0 {
        i := i - 1;
      }
      if i == |keys| {
        return None;
      }
      var s := slots[keys[i]];
      if s.begin <= gpa < s.end {
        return Some(s.hva + gpa - s.begin);
      }
      return None;
    }

    /** The first RAM slot, in ascending order, that holds the host address. */
    method HostToGuestAddress(host: int) returns (r: Option<nat>, ghost k: nat)
      requires Keyed(slots)
      ensures r.Some? ==> HoldsHost(slots, k, host) && r.value == slots[k].begin + (host - slots[k].hva)
      ensures r == None ==> forall j :: !HoldsHost(slots, j, host)
      ensures r.Some? ==> forall j :: HoldsHost(slots, j, host) ==> k <= j
      ensures r.Some? && NoOverlap(slots) ==>
        && InForce(slots, r.value, k) && slots[k].begin <= r.value < slots[k].end
        && slots[k].hva + (r.value - slots[k].begin) == host
    {
      var keys := AscendingKeys();
      var i := 0;
      while i < |keys|
        invariant i <= |keys| && forall y :: 0 <= y < i ==> !HoldsHost(slots, keys[y], host)
      {
        var s := slots[keys[i]];
        if s.region.kind == Ram && s.hva <= host < s.hva + (s.end - s.begin) {
          if NoOverlap(slots) {
            HostRoundTrip(slots, keys[i], host);
          }
          LowestHolds(slots, keys, i, host);
          return Some(s.begin + (host - s.hva)), keys[i];
        }
        i := i + 1;
      }
      forall j | j in slots
        ensures !HoldsHost(slots, j, host)
      {
        assert j in keys;
      }
      return None, 0;
    }
  }

  /** std::find and erase. */
  function Erase(rs: seq<Region>, r: Region): seq<Region> {
    if rs == [] then [] else if rs[0] == r then rs[1..] else [rs[0]] + Erase(rs[1..], r)
  }

  lemma {:induction false} EraseAt(rs: seq<Region>, i: nat)
    requires i < |rs| && forall k :: 0 <= k < i ==> rs[k] != rs[i]
    ensures Erase(rs, rs[i]) == rs[..i] + rs[i + 1..]
  {
    if i > 0 {
      var t := rs[1..];
      assert forall k :: 0 <= k < i - 1 ==> t[k] != t[i - 1];
      EraseAt(t, i - 1);
      assert [rs[0]] + (t[..i - 1] + t[i..]) == rs[..i] + rs[i + 1..];
    }
  }

  ghost predicate AllCommittable(slots: map<nat, Slot>) {
    forall k :: k in slots ==> Committable(slots[k])
  }

  lemma NothingRetires(slots: map<nat, Slot>)
    ensures AllCommittable(slots) ==> forall remove :: Retires(slots, remove) == {}
  {
  }

  lemma RetiresOne(slots: map<nat, Slot>, remove: set<nat>, k: nat)
    requires k in slots
    ensures Retires(slots, remove + {k}) == Retires(slots, remove) + (if Committable(slots[k]) then {} else {slots[k].id})
  {
    forall id
      ensures id in Retires(slots, remove + {k}) <==> id in Retires(slots, remove) || (!Committable(slots[k]) && id == slots[k].id)
    {
      if id in Retires(slots, remove + {k}) {
        var j :| j in slots && j in remove + {k} && !Committable(slots[j]) && slots[j].id == id;
      }
    }
  }

  ghost function Restrict(m: map<nat, Slot>, s: set<nat>): map<nat, Slot> {
    map k | k in m && k in s :: m[k]
  }

  lemma RestrictAll(base: map<nat, Slot>, m: map<nat, Slot>)
    ensures Restrict(m, m.Keys) == m && Restrict(m, {}) == map[] && IdsOf(Restrict(m, {})) == {}
    ensures base + Restrict(m, m.Keys - m.Keys) == base && base + Restrict(m, m.Keys - {}) == base + m
  {
    assert m.Keys - m.Keys == {} && m.Keys - {} == m.Keys;
  }

  /** The slots of `remove` but those of `todo` are gone from `base`. */
  ghost predicate LeftBut(base: map<nat, Slot>, lost: set<nat>, remove: set<nat>, todo: set<nat>, slots: map<nat, Slot>, retired: set<nat>) {
    && todo <= remove <= base.Keys && slots == base - (remove - todo)
    && retired == lost + Retires(base, remove - todo)
  }

  ghost predicate Leaving(base: map<nat, Slot>, lost: set<nat>, remove: set<nat>, todo: set<nat>, slots: map<nat, Slot>, retired: set<nat>, veil: Veil := VEIL) {
    match veil
    case Bare => LeftBut(base, lost, remove, todo, slots, retired) == true
    case Fold(inner) => Leaving(base, lost, remove, todo, slots, retired, inner)
  }

  lemma {:induction false} OpenLeaving(base: map<nat, Slot>, lost: set<nat>, remove: set<nat>, todo: set<nat>, slots: map<nat, Slot>, retired: set<nat>, veil: Veil := VEIL)
    ensures Leaving(base, lost, remove, todo, slots, retired, veil) <==> LeftBut(base, lost, remove, todo, slots, retired)
  {
    if veil.Fold? {
      OpenLeaving(base, lost, remove, todo, slots, retired, veil.inner);
    }
  }

  lemma LeavingStarts(base: map<nat, Slot>, lost: set<nat>, remove: set<nat>)
    requires remove <= base.Keys
    ensures Leaving(base, lost, remove, remove, base, lost)
  {
    assert remove - remove == {} && base - {} == base && Retires(base, {}) == {};
    OpenLeaving(base, lost, remove, remove, base, lost);
  }

  lemma LeavesOne(base: map<nat, Slot>, lost: set<nat>, remove: set<nat>, todo: set<nat>, slots: map<nat, Slot>, retired: set<nat>, k: nat)
    requires Leaving(base, lost, remove, todo, slots, retired) && k in todo
    ensures k in slots
    ensures Leaving(base, lost, remove, todo - {k}, slots - {k}, retired + (if Committable(slots[k]) then {} else {slots[k].id}))
  {
    OpenLeaving(base, lost, remove, todo, slots, retired);
    assert remove - (todo - {k}) == (remove - todo) + {k};
    RetiresOne(base, remove - todo, k);
    OpenLeaving(base, lost, remove, todo - {k}, slots - {k}, retired + (if Committable(slots[k]) then {} else {slots[k].id}));
  }

  lemma LeavingEnds(base: map<nat, Slot>, lost: set<nat>, remove: set<nat>, slots: map<nat, Slot>, retired: set<nat>)
    requires Leaving(base, lost, remove, {}, slots, retired)
    ensures slots == base - remove && retired == lost + Retires(base, remove)
  {
    OpenLeaving(base, lost, remove, {}, slots, retired);
    assert remove - {} == remove;
  }

  lemma RestrictStep(base: map<nat, Slot>, m: map<nat, Slot>, todo: set<nat>, k: nat)
    requires DistinctIds(m) && k in todo && todo <= m.Keys
    ensures DistinctIds(Restrict(m, todo)) && Restrict(m, todo) - {k} == Restrict(m, todo - {k})
    ensures (base + Restrict(m, m.Keys - todo))[k := m[k]] == base + Restrict(m, m.Keys - (todo - {k}))
    ensures k in Restrict(m, todo) && Restrict(m, todo)[k] == m[k]
  {
  }

  function Lowest(s: set<nat>): (k: nat)
    requires s != {}
    ensures k in s && forall j :: j in s ==> k <= j
  {
    var x :| x in s;
    LowestExists(s, x);
    var k :| k in s && forall j :: j in s ==> k <= j;
    k
  }

  lemma {:induction false} LowestExists(s: set<nat>, x: nat)
    requires x in s
    ensures exists k :: k in s && forall j :: j in s ==> k <= j
    decreases x
  {
    if y :| y in s && y < x {
      LowestExists(s, y);
    }
  }

  /** The loop of the comparison, with what it collected. */
  ghost predicate ComparisonAt(slots: map<nat, Slot>, keys: seq<nat>, v: seq<Entry>, i: nat, j: nat, add: map<nat, Slot>, remove: set<nat>) {
    && Comparing(slots, keys, v, i, j)
    && remove == Removed(slots, keys, v, j) && add.Keys == Added(slots, keys, v, i) && Keyed(add)
    && (forall x: nat :: x < |v| && v[x].key in add ==> Served(add, v, x))
  }

  ghost predicate Comparison(slots: map<nat, Slot>, keys: seq<nat>, v: seq<Entry>, i: nat, j: nat, add: map<nat, Slot>, remove: set<nat>, veil: Veil := VEIL) {
    match veil
    case Bare => ComparisonAt(slots, keys, v, i, j, add, remove) == true
    case Fold(inner) => Comparison(slots, keys, v, i, j, add, remove, inner)
  }

  lemma {:induction false} OpenComparison(slots: map<nat, Slot>, keys: seq<nat>, v: seq<Entry>, i: nat, j: nat, add: map<nat, Slot>, remove: set<nat>, veil: Veil := VEIL)
    ensures Comparison(slots, keys, v, i, j, add, remove, veil) <==> ComparisonAt(slots, keys, v, i, j, add, remove)
  {
    if veil.Fold? {
      OpenComparison(slots, keys, v, i, j, add, remove, veil.inner);
    }
  }

  lemma ComparisonStarts(slots: map<nat, Slot>, keys: seq<nat>, v: seq<Entry>)
    requires AllIn(slots, keys)
    ensures Comparison(slots, keys, v, 0, 0, map[], {})
  {
    OpenComparison(slots, keys, v, 0, 0, map[], {});
  }

  lemma EntryComes(slots: map<nat, Slot>, keys: seq<nat>, v: seq<Entry>, i: nat, j: nat, add: map<nat, Slot>, remove: set<nat>, id: nat)
    requires Ascending(keys) && AllIn(slots, keys) && Ordered(v) && Comparison(slots, keys, v, i, j, add, remove) && i < |v|
    requires j < |keys| ==> v[i].key < keys[j]
    ensures Above(add, v[i].key) && Comparison(slots, keys, v, i + 1, j, add[v[i].key := NewSlot(id, v, i)], remove)
  {
    forall k | Comparison(slots, keys, v, i, j, add, remove) && k in add
      ensures k < v[i].key
    {
      OpenComparison(slots, keys, v, i, j, add, remove);
      AddedMembers(slots, keys, v, i, k);
    }
    OpenComparison(slots, keys, v, i, j, add, remove);
    OpenComparison(slots, keys, v, i + 1, j, add[v[i].key := NewSlot(id, v, i)], remove);
    ComparesNew(slots, keys, v, i, j);
    AddedMembers(slots, keys, v, i, v[i].key);
    var more := add[v[i].key := NewSlot(id, v, i)];
    forall x: nat | x < |v| && v[x].key in more
      ensures Served(more, v, x)
    {
      if x != i {
        assert Served(add, v, x);
      }
    }
  }

  /** Entry `i` needs a new slot; with an empty pool there will be too few ids. */
  lemma EntryIsNew(slots: map<nat, Slot>, keys: seq<nat>, v: seq<Entry>, i: nat, j: nat, add: map<nat, Slot>, remove: set<nat>, before: set<nat>)
    requires Ascending(keys) && AllIn(slots, keys) && Ordered(v) && Comparison(slots, keys, v, i, j, add, remove) && i < |v|
    requires j < |keys| ==> v[i].key < keys[j]
    ensures Above(add, v[i].key)
    ensures forall id :: Comparison(slots, keys, v, i + 1, j, add[v[i].key := NewSlot(id, v, i)], remove)
    ensures |add.Keys| >= |before| ==> |Added(slots, keys, v, |v|)| > |before|
  {
    forall id: nat
      ensures Comparison(slots, keys, v, i + 1, j, add[v[i].key := NewSlot(id, v, i)], remove)
    {
      EntryComes(slots, keys, v, i, j, add, remove, id);
    }
    EntryComes(slots, keys, v, i, j, add, remove, 0);
    var more := add[v[i].key := NewSlot(0, v, i)];
    OpenComparison(slots, keys, v, i + 1, j, more, remove);
    assert more.Keys == add.Keys + {v[i].key};
    OneMore(add.Keys, v[i].key);
    AddedGrows(slots, keys, v, i + 1, |v|);
  }

  lemma AllAdded(slots: map<nat, Slot>, keys: seq<nat>, v: seq<Entry>, j: nat, add: map<nat, Slot>, remove: set<nat>, before: set<nat>, free: set<nat>)
    requires Ascending(keys) && Ordered(v) && (forall q :: q in keys <==> q in slots)
    requires Comparison(slots, keys, v, |v|, j, add, remove) && Drawn(before, free, add)
    ensures Needs(slots, v) <= |before| && Sifted(slots, v, add, remove) && Keyed(add)
  {
    OpenComparison(slots, keys, v, |v|, j, add, remove);
    DrawnCount(before, free, add);
    ComparedIsSifted(slots, keys, v, j, add, remove);
  }

  lemma SlotStays(slots: map<nat, Slot>, keys: seq<nat>, v: seq<Entry>, i: nat, j: nat, add: map<nat, Slot>, remove: set<nat>)
    requires Ascending(keys) && AllIn(slots, keys) && Ordered(v) && Comparison(slots, keys, v, i, j, add, remove) && i < |v| && j < |keys|
    requires Pair(slots, keys, v, j, i)
    ensures Comparison(slots, keys, v, i + 1, j + 1, add, remove)
  {
    OpenComparison(slots, keys, v, i, j, add, remove);
    OpenComparison(slots, keys, v, i + 1, j + 1, add, remove);
    ComparesBoth(slots, keys, v, i, j);
  }

  lemma SlotGoes(slots: map<nat, Slot>, keys: seq<nat>, v: seq<Entry>, i: nat, j: nat, add: map<nat, Slot>, remove: set<nat>)
    requires Ascending(keys) && AllIn(slots, keys) && Ordered(v) && Comparison(slots, keys, v, i, j, add, remove) && i < |v| && j < |keys|
    requires keys[j] <= v[i].key && !Pair(slots, keys, v, j, i)
    ensures Comparison(slots, keys, v, i, j + 1, add, remove + {keys[j]})
  {
    OpenComparison(slots, keys, v, i, j, add, remove);
    OpenComparison(slots, keys, v, i, j + 1, add, remove + {keys[j]});
    ComparesOld(slots, keys, v, i, j);
  }

  /** The slots KVM should know. */
  ghost function InKvm(slots: map<nat, Slot>): set<Slot> {
    set k | k in slots && Committable(slots[k]) :: slots[k]
  }

  /** The books of the manager agree: ids in one place each, and KVM knows the committable slots. */
  ghost predicate InBooks(max: nat, free: set<nat>, slots: map<nat, Slot>, retired: set<nat>, kvm: set<Slot>, pending: set<nat>) {
    DistinctIds(slots) && Shared(max, free, IdsOf(slots), retired, pending) && kvm == InKvm(slots)
  }

  ghost predicate Booked(max: nat, free: set<nat>, slots: map<nat, Slot>, retired: set<nat>, kvm: set<Slot>, pending: set<nat>, veil: Veil := VEIL) {
    match veil
    case Bare => InBooks(max, free, slots, retired, kvm, pending) == true
    case Fold(inner) => Booked(max, free, slots, retired, kvm, pending, inner)
  }

  lemma {:induction false} OpenBooked(max: nat, free: set<nat>, slots: map<nat, Slot>, retired: set<nat>, kvm: set<Slot>, pending: set<nat>, veil: Veil := VEIL)
    ensures Booked(max, free, slots, retired, kvm, pending, veil) <==> InBooks(max, free, slots, retired, kvm, pending)
  {
    if veil.Fold? {
      OpenBooked(max, free, slots, retired, kvm, pending, veil.inner);
    }
  }

  lemma NothingBooked(max: nat, free: set<nat>)
    requires forall id: nat :: id in free <==> id < max
    ensures Booked(max, free, map[], {}, {}, {})
  {
    assert IdsOf(map[]) == {} && InKvm(map[]) == {};
    OpenBooked(max, free, map[], {}, {}, {});
  }

  lemma RemoveIsBooked(max: nat, free: set<nat>, slots: map<nat, Slot>, retired: set<nat>, kvm: set<Slot>, pending: set<nat>, k: nat)
    requires Booked(max, free, slots, retired, kvm, pending) && k in slots
    ensures var s := slots[k];
      if Committable(s) then Booked(max, free + {s.id}, slots - {k}, retired, kvm - {s}, pending)
      else Booked(max, free, slots - {k}, retired + {s.id}, kvm, pending)
  {
    var s := slots[k];
    OpenBooked(max, free, slots, retired, kvm, pending);
    IdsOfRemoved(slots, k);
    KvmRemoved(slots, k);
    if Committable(s) {
      OpenBooked(max, free + {s.id}, slots - {k}, retired, kvm - {s}, pending);
    } else {
      assert kvm - {s} == kvm;
      OpenBooked(max, free, slots - {k}, retired + {s.id}, kvm, pending);
    }
  }

  lemma AddIsBooked(max: nat, free: set<nat>, slots: map<nat, Slot>, retired: set<nat>, kvm: set<Slot>, rest: map<nat, Slot>, k: nat, s: Slot)
    requires Booked(max, free, slots, retired, kvm, IdsOf(rest)) && k !in slots && k in rest && rest[k] == s && DistinctIds(rest)
    ensures Booked(max, free, slots[k := s], retired, kvm + (if Committable(s) then {s} else {}), IdsOf(rest - {k}))
    ensures kvm + {} == kvm
  {
    OpenBooked(max, free, slots, retired, kvm, IdsOf(rest));
    IdsOfRemoved(rest, k);
    IdsOfAdded(slots, k, s);
    KvmAdded(slots, k, s);
    OpenBooked(max, free, slots[k := s], retired, kvm + (if Committable(s) then {s} else {}), IdsOf(rest - {k}));
  }

  /** KVM holds exactly the slots of RAM and ROM. */
  lemma KvmIsRamAndRom(max: nat, free: set<nat>, slots: map<nat, Slot>, retired: set<nat>, kvm: set<Slot>)
    requires Booked(max, free, slots, retired, kvm, {})
    ensures forall s :: s in kvm <==> exists k :: k in slots && slots[k] == s && (s.region.kind == Ram || s.region.kind == Rom)
  {
    OpenBooked(max, free, slots, retired, kvm, {});
  }

  /** Every id is free, with a slot, or retired. */
  lemma BookedCount(max: nat, free: set<nat>, slots: map<nat, Slot>, retired: set<nat>, kvm: set<Slot>)
    requires Booked(max, free, slots, retired, kvm, {})
    ensures |free| + |slots.Keys| + |retired| == max
  {
    OpenBooked(max, free, slots, retired, kvm, {});
    IdsCount(slots);
    var all := Range(max);
    assert all == (free + IdsOf(slots)) + retired;
  }

  lemma {:induction false} IdsCount(slots: map<nat, Slot>)
    requires DistinctIds(slots)
    ensures |IdsOf(slots)| == |slots.Keys|
    decreases |slots.Keys|
  {
    if slots.Keys != {} {
      var k :| k in slots;
      IdsOfRemoved(slots, k);
      assert (slots - {k}).Keys == slots.Keys - {k};
      IdsCount(slots - {k});
    } else {
      assert IdsOf(slots) == {};
    }
  }

  lemma KvmRemoved(slots: map<nat, Slot>, k: nat)
    requires DistinctIds(slots) && k in slots
    ensures InKvm(slots - {k}) == InKvm(slots) - {slots[k]}
  {
    forall s
      ensures s in InKvm(slots - {k}) <==> s in InKvm(slots) && s != slots[k]
    {
      if s in InKvm(slots) && s != slots[k] {
        var j :| j in slots && Committable(slots[j]) && slots[j] == s;
        assert j in slots - {k} && (slots - {k})[j] == s;
      }
    }
  }

  lemma KvmAdded(slots: map<nat, Slot>, k: nat, s: Slot)
    requires k !in slots
    ensures InKvm(slots[k := s]) == InKvm(slots) + (if Committable(s) then {s} else {})
  {
    var after := slots[k := s];
    forall t
      ensures t in InKvm(after) <==> t in InKvm(slots) || (t == s && Committable(s))
    {
      if t in InKvm(slots) {
        var j :| j in slots && Committable(slots[j]) && slots[j] == t;
        assert j in after && after[j] == t;
      }
      if t == s && Committable(s) {
        assert k in after && after[k] == t;
      }
    }
  }

  /** The ids of `add` were drawn from the pool, each once. */
  ghost predicate DrawnFrom(before: set<nat>, free: set<nat>, add: map<nat, Slot>) {
    && DistinctIds(add) && IdsOf(add) <= before && free == before - IdsOf(add)
    && |free| + |add.Keys| == |before| && LowestFirst(before, add)
  }

  ghost predicate Drawn(before: set<nat>, free: set<nat>, add: map<nat, Slot>, veil: Veil := VEIL) {
    match veil
    case Bare => DrawnFrom(before, free, add) == true
    case Fold(inner) => Drawn(before, free, add, inner)
  }

  lemma {:induction false} OpenDrawn(before: set<nat>, free: set<nat>, add: map<nat, Slot>, veil: Veil := VEIL)
    ensures Drawn(before, free, add, veil) <==> DrawnFrom(before, free, add)
  {
    if veil.Fold? {
      OpenDrawn(before, free, add, veil.inner);
    }
  }

  lemma DrawnCount(before: set<nat>, free: set<nat>, add: map<nat, Slot>)
    requires Drawn(before, free, add)
    ensures |free| + |add.Keys| == |before|
  {
    OpenDrawn(before, free, add);
  }

  lemma DrawnIsBooked(max: nat, before: set<nat>, free: set<nat>, slots: map<nat, Slot>, retired: set<nat>, kvm: set<Slot>, add: map<nat, Slot>)
    requires Booked(max, before, slots, retired, kvm, {}) && Drawn(before, free, add)
    ensures Booked(max, free, slots, retired, kvm, IdsOf(add)) && DistinctIds(add) && LowestFirst(before, add)
  {
    OpenDrawn(before, free, add);
    OpenBooked(max, before, slots, retired, kvm, {});
    OpenBooked(max, free, slots, retired, kvm, IdsOf(add));
  }

  lemma NothingDrawn(free: set<nat>)
    ensures Drawn(free, free, map[])
  {
    assert IdsOf(map[]) == {};
    OpenDrawn(free, free, map[]);
  }

  lemma DrawsOne(before: set<nat>, free: set<nat>, left: set<nat>, add: map<nat, Slot>, id: nat, v: seq<Entry>, i: nat)
    requires Drawn(before, free, add) && id in free && left == free - {id} && i < |v| && Above(add, v[i].key)
    requires forall f :: f in free ==> id <= f
    ensures Drawn(before, left, add[v[i].key := NewSlot(id, v, i)])
  {
    var more := add[v[i].key := NewSlot(id, v, i)];
    OpenDrawn(before, free, add);
    OpenDrawn(before, left, more);
    LowestNext(before, free, add, v[i].key, NewSlot(id, v, i));
    IdsOfAdded(add, v[i].key, NewSlot(id, v, i));
    OneIdLess(before, free, IdsOf(add), id);
    OneKeyMore(add, v[i].key, NewSlot(id, v, i));
  }

  lemma LowestNext(before: set<nat>, free: set<nat>, add: map<nat, Slot>, k: nat, s: Slot)
    requires DistinctIds(add) && LowestFirst(before, add) && free == before - IdsOf(add) && s.id in free && (forall f :: f in free ==> s.id <= f) && Above(add, k)
    ensures LowestFirst(before, add[k := s])
  {
    var more := add[k := s];
    IdsOfAdded(add, k, s);
    forall j, f | j in more && f in before && f !in IdsOf(more)
      ensures more[j].id < f
    {
      assert f in free && s.id < f;
      if j in add {
        assert add[j].id < s.id;
      }
    }
  }

  /** `k` lies above every key of `add`. */
  ghost predicate Above(add: map<nat, Slot>, k: nat) {
    forall j :: j in add ==> j < k
  }

  lemma OneIdLess(before: set<nat>, free: set<nat>, ids: set<nat>, id: nat)
    requires ids <= before && free == before - ids && id in free
    ensures id !in ids && ids + {id} <= before && free - {id} == before - (ids + {id}) && |free - {id}| == |free| - 1
  {
  }

  lemma OneKeyMore(m: map<nat, Slot>, k: nat, s: Slot)
    requires k !in m
    ensures m[k := s].Keys == m.Keys + {k} && |m[k := s].Keys| == |m.Keys| + 1
  {
    OneMore(m.Keys, k);
  }

  lemma ViewIsOrdered(rs: seq<Region>)
    ensures Ordered(View(rs))
  {
    PointsFacts(rs);
    BuildFacts(rs, Points(rs), |Points(rs)|);
  }

  ghost predicate HoldsHost(slots: map<nat, Slot>, k: nat, host: int) {
    && k in slots && slots[k].region.kind == Ram
    && slots[k].hva <= host < slots[k].hva + (slots[k].end - slots[k].begin)
  }

  lemma LowestHolds(slots: map<nat, Slot>, keys: seq<nat>, i: nat, host: int)
    requires Ascending(keys) && (forall q :: q in keys <==> q in slots) && i < |keys|
    requires forall y :: 0 <= y < i ==> !HoldsHost(slots, keys[y], host)
    ensures forall j :: HoldsHost(slots, j, host) ==> keys[i] <= j
  {
    forall j | HoldsHost(slots, j, host)
      ensures keys[i] <= j
    {
      assert j in keys;
      var y :| 0 <= y < |keys| && keys[y] == j;
    }
  }

  lemma FoundInForce(slots: map<nat, Slot>, keys: seq<nat>, a: nat, i: nat)
    requires Ascending(keys) && (forall q :: q in keys <==> q in slots) && i <= |keys|
    requires (forall y :: 0 <= y < i ==> keys[y] <= a) && (i < |keys| ==> keys[i] > a)
    ensures forall k :: InForce(slots, a, k) <==> i > 0 && k == keys[i - 1]
    ensures (forall k :: k in slots ==> k > a) <==> i == 0
  {
    forall k: nat
      ensures k in slots && k <= a <==> exists y :: 0 <= y < i && keys[y] == k
    {
      if k in slots && k <= a {
        var y :| 0 <= y < |keys| && keys[y] == k;
      }
    }
    if i > 0 {
      assert keys[i - 1] in slots;
    }
  }

  // ---------------------------------------------------------------- runs

  datatype Snapshot = Snapshot(regions: seq<Region>, slots: map<nat, Slot>)

  /** One Map or Unmap. */
  ghost predicate Step(s: Snapshot, t: Snapshot) {
    && ((exists r :: t.regions == s.regions + [r]) ||
        exists i :: 0 <= i < |s.regions| && t.regions == s.regions[..i] + s.regions[i + 1..])
    && Committed(s.slots, View(t.regions), t.slots)
  }

  /** The new view reaches at least as high as the highest slot in force. */
  ghost predicate HighestStays(s: Snapshot, t: Snapshot) {
    forall k :: k in s.slots ==> !Beyond(View(t.regions), k)
  }

  ghost predicate Run(states: seq<Snapshot>) {
    && |states| > 0 && states[0] == Snapshot([], map[])
    && forall i :: 0 <= i < |states| - 1 ==> Step(states[i], states[i + 1])
  }

  ghost predicate Disciplined(states: seq<Snapshot>) {
    && (forall i :: 0 <= i < |states| ==> Nested(states[i].regions))
    && (forall i :: 0 <= i < |states| - 1 ==> HighestStays(states[i], states[i + 1]))
  }

  lemma {:induction false} RunIsExact(states: seq<Snapshot>, n: nat)
    requires Run(states) && Disciplined(states) && n < |states|
    ensures Exact(states[n].slots, View(states[n].regions))
  {
    if n == 0 {
      assert PointsOf([], 0) == {};
    } else {
      RunIsExact(states, n - 1);
      var s, t := states[n - 1], states[n];
      assert Step(s, t) && HighestStays(s, t);
      ViewIsOrdered(s.regions);
      ViewIsOrdered(t.regions);
      CommitExactIff(s.slots, View(s.regions), View(t.regions), t.slots);
    }
  }

  /** In every state of every disciplined run, every address that some region covers is translated to
      the host memory of the latest region mapped there, and slots do not overlap. */
  lemma RunTranslates(states: seq<Snapshot>, n: nat, a: nat)
    requires Run(states) && Disciplined(states) && n < |states| && Covered(states[n].regions, a)
    ensures Top(states[n].regions, a).Some? && NoOverlap(states[n].slots)
    ensures var s, r := states[n].slots, Top(states[n].regions, a).value;
      exists k :: InForce(s, a, k) && s[k].begin <= a < s[k].end && s[k].hva + (a - s[k].begin) == r.host + (a - r.gpa)
  {
    var s := states[n];
    RunIsExact(states, n);
    ViewIsOrdered(s.regions);
    NestedViewIsCorrect(s.regions);
    ExactTranslates(s.regions, View(s.regions), s.slots, a);
    ExactIsFlat(s.slots, View(s.regions));
  }

  /** In every state of every disciplined run, an address, covered or not, is translated if and only if the
      slot of the entry in force there reaches it; at or beyond the end of every slot nothing is. */
  lemma RunTranslatesIff(states: seq<Snapshot>, n: nat, a: nat)
    requires Run(states) && Disciplined(states) && n < |states|
    ensures var s, v := states[n].slots, View(states[n].regions);
      (exists k :: InForce(s, a, k) && s[k].begin <= a < s[k].end) <==>
        LookupIndex(v, |v|, a) >= 0 && a < EndOf(v, LookupIndex(v, |v|, a))
    ensures var s := states[n].slots;
      (forall k :: k in s ==> s[k].end <= a) ==> !exists k :: InForce(s, a, k) && s[k].begin <= a < s[k].end
  {
    var s, v := states[n].slots, View(states[n].regions);
    RunIsExact(states, n);
    ViewIsOrdered(states[n].regions);
    ExactIsFlat(s, v);
    var i := LookupIndex(v, |v|, a);
    if i >= 0 {
      EntryInForce(v, s, a);
      assert Served(s, v, i);
    } else {
      forall k | k in s
        ensures k > a
      {
        assert IsKey(v, k);
      }
    }
  }

  // ---------------------------------------------------------------- limits

  /** Unmapping the last region leaves the slots of the regions before in place. */
  lemma EmptyViewLeavesSlots(slots: map<nat, Slot>, after: map<nat, Slot>)
    requires Committed(slots, [], after)
    ensures after == slots
  {
    assert forall k: nat :: Beyond([], k) && !IsKey([], k);
  }

  /** Two regions, the upper one unmapped: its slot stays in force and still translates. */
  lemma UnmappedRegionStillTranslates(slots: map<nat, Slot>, after: map<nat, Slot>)
    requires var a, b := Region(0, 0, 10, 5000, Ram), Region(1, 100, 10, 6000, Ram);
      Exact(slots, [Entry(0, a), Entry(100, b)]) && Committed(slots, [Entry(0, a)], after)
    ensures InForce(after, 105, 100) && after[100].begin <= 105 < after[100].end && after[100].hva + (105 - after[100].begin) == 6005
  {
    var a, b := Region(0, 0, 10, 5000, Ram), Region(1, 100, 10, 6000, Ram);
    assert Served(slots, [Entry(0, a), Entry(100, b)], 1);
    assert Beyond([Entry(0, a)], 100);
    forall k | k in after && k <= 105
      ensures k <= 100
    {
      assert IsKey([Entry(0, a)], k) || IsKey([Entry(0, a), Entry(100, b)], k);
    }
  }

  /** A slot reaches past the end of its region exactly if it begins inside the region and the next
      entry does not cut it off. */
  lemma OvershootIff(v: seq<Entry>, i: nat)
    requires Ordered(v) && i < |v|
    ensures var r := v[i].region;
      EndOf(v, i) > r.gpa + r.size <==> v[i].key > r.gpa && (i + 1 < |v| ==> v[i + 1].key > r.gpa + r.size)
  {
  }
}
