/** KVM memory slots and the comparison of the slots in force with a new flat view. */
module MemorySlots {
  import opened Common
  import opened FlatView

  /** `hva` is the host address of `begin`. */
  datatype Slot = Slot(id: nat, region: Region, begin: nat, end: nat, hva: int)

  predicate Committable(s: Slot) {
    s.region.kind == Ram || s.region.kind == Rom
  }

  /** A slot reaches as far as its region is long, unless the next entry begins before that. */
  function EndOf(v: seq<Entry>, i: nat): nat
    requires i < |v|
  {
    var end := v[i].key + v[i].region.size;
    if i + 1 < |v| && v[i + 1].key < end then v[i + 1].key else end
  }

  function NewSlot(id: nat, v: seq<Entry>, i: nat): Slot
    requires i < |v|
  {
    Slot(id, v[i].region, v[i].key, EndOf(v, i), v[i].region.host + v[i].key - v[i].region.gpa)
  }

  ghost predicate Fits(s: Slot, v: seq<Entry>, i: nat)
    requires i < |v|
  {
    s == NewSlot(s.id, v, i)
  }

  ghost predicate IsKey(v: seq<Entry>, k: nat) {
    exists i :: 0 <= i < |v| && v[i].key == k
  }

  ghost predicate Served(slots: map<nat, Slot>, v: seq<Entry>, i: nat) {
    i < |v| && v[i].key in slots && Fits(slots[v[i].key], v, i)
  }

  /** The slots are those of the view, no more and no less. */
  ghost predicate Exact(slots: map<nat, Slot>, v: seq<Entry>) {
    && (forall k :: k in slots ==> IsKey(v, k))
    && (forall i: nat :: i < |v| ==> Served(slots, v, i))
  }

  ghost predicate Keyed(slots: map<nat, Slot>) {
    forall k :: k in slots ==> slots[k].begin == k
  }

  /** `n` is the key right after `k`, among the slots and in the view. */
  ghost predicate NextSlot(slots: map<nat, Slot>, k: nat, n: nat) {
    n in slots && k < n && forall j :: j in slots ==> j <= k || n <= j
  }

  ghost predicate NextEntry(v: seq<Entry>, k: nat, n: nat) {
    IsKey(v, n) && k < n && forall x :: 0 <= x < |v| ==> v[x].key <= k || n <= v[x].key
  }

  /** The slot at key `k` serves the view as it is: the view has the key, with the same region, and it is
      the last key of both or the same key follows it in both. */
  ghost predicate Stays(slots: map<nat, Slot>, v: seq<Entry>, k: nat) {
    && k in slots && (exists x :: 0 <= x < |v| && v[x] == Entry(k, slots[k].region))
    && (|| ((forall j :: j in slots ==> j <= k) && (forall x :: 0 <= x < |v| ==> v[x].key <= k))
        || exists n :: NextSlot(slots, k, n) && NextEntry(v, k, n))
  }

  /** Above every key of the view. */
  ghost predicate Beyond(v: seq<Entry>, k: nat) {
    forall x :: 0 <= x < |v| ==> v[x].key < k
  }

  /** The keys of the view that no slot serves as it is. */
  ghost function Unserved(slots: map<nat, Slot>, v: seq<Entry>): set<nat> {
    set x | 0 <= x < |v| && !Stays(slots, v, v[x].key) :: v[x].key
  }

  /** How many new slots, and so how many ids, a commit of view `v` needs. */
  ghost function Needs(slots: map<nat, Slot>, v: seq<Entry>): nat {
    |Unserved(slots, v)|
  }

  /** What the comparison is to find: exactly the keys of the view that are not served come, with the slots
      of the view, and exactly the slots that do not serve it go, but for those beyond it. */
  ghost predicate Sifted(slots: map<nat, Slot>, v: seq<Entry>, add: map<nat, Slot>, remove: set<nat>) {
    && (forall k :: k in add <==> IsKey(v, k) && !Stays(slots, v, k))
    && (forall k :: k in remove <==> k in slots && !Beyond(v, k) && !Stays(slots, v, k))
    && (forall x: nat :: x < |v| && v[x].key in add ==> Served(add, v, x))
  }

  // ---------------------------------------------------------------- slots in ascending order

  /** An ascending sequence is determined by its elements. */
  lemma {:induction false} AscendingUnique(a: seq<nat>, b: seq<nat>)
    requires Ascending(a) && Ascending(b) && forall k :: k in a <==> k in b
    ensures a == b
  {
    assert a != [] ==> a[|a| - 1] in a;
    assert b != [] ==> b[|b| - 1] in b;
    if a != [] {
      var m, n := |a| - 1, |b| - 1;
      assert a[m] == b[n];
      forall k
        ensures k in a[..m] <==> k in b[..n]
      {
        Dropped(a, k);
        Dropped(b, k);
      }
      AscendingUnique(a[..m], b[..n]);
      assert a == a[..m] + [a[m]] && b == b[..n] + [b[n]];
    }
  }

  lemma Dropped(a: seq<nat>, k: nat)
    requires Ascending(a) && a != []
    ensures k in a[..|a| - 1] <==> k in a && k != a[|a| - 1]
  {
    if k in a && k != a[|a| - 1] {
      var i :| 0 <= i < |a| && a[i] == k;
      assert a[..|a| - 1][i] == k;
    }
  }

  // ---------------------------------------------------------------- the comparison

  ghost predicate AllIn(slots: map<nat, Slot>, keys: seq<nat>) {
    forall i :: 0 <= i < |keys| ==> keys[i] in slots
  }

  /** The slot with key number `y` serves new entry `x` as it is: same key, same region and same
      successor. */
  predicate Pair(slots: map<nat, Slot>, keys: seq<nat>, v: seq<Entry>, y: nat, x: nat)
    requires y < |keys| && x < |v| && AllIn(slots, keys)
  {
    && keys[y] == v[x].key && slots[keys[y]].region == v[x].region
    && (y + 1 == |keys| <==> x + 1 == |v|)
    && (y + 1 < |keys| && x + 1 < |v| ==> keys[y + 1] == v[x + 1].key)
  }

  ghost predicate KeptNew(slots: map<nat, Slot>, keys: seq<nat>, v: seq<Entry>, x: nat)
    requires x < |v| && AllIn(slots, keys)
  {
    exists y :: 0 <= y < |keys| && Pair(slots, keys, v, y, x)
  }

  ghost predicate KeptOld(slots: map<nat, Slot>, keys: seq<nat>, v: seq<Entry>, y: nat)
    requires y < |keys| && AllIn(slots, keys)
  {
    exists x :: 0 <= x < |v| && Pair(slots, keys, v, y, x)
  }

  /** Of the first `j` old keys, those that are not kept. */
  ghost function Removed(slots: map<nat, Slot>, keys: seq<nat>, v: seq<Entry>, j: nat): set<nat>
    requires j <= |keys| && AllIn(slots, keys)
  {
    if j == 0 then {}
    else Removed(slots, keys, v, j - 1) + (if KeptOld(slots, keys, v, j - 1) then {} else {keys[j - 1]})
  }

  /** Of the first `i` entries, the keys of those that no old slot serves. */
  ghost function Added(slots: map<nat, Slot>, keys: seq<nat>, v: seq<Entry>, i: nat): set<nat>
    requires i <= |v| && AllIn(slots, keys)
  {
    if i == 0 then {}
    else Added(slots, keys, v, i - 1) + (if KeptNew(slots, keys, v, i - 1) then {} else {v[i - 1].key})
  }

  lemma {:induction false} RemovedMembers(slots: map<nat, Slot>, keys: seq<nat>, v: seq<Entry>, j: nat, k: nat)
    requires j <= |keys| && AllIn(slots, keys)
    ensures k in Removed(slots, keys, v, j) <==> exists y :: 0 <= y < j && keys[y] == k && !KeptOld(slots, keys, v, y)
  {
    if j > 0 {
      RemovedMembers(slots, keys, v, j - 1, k);
    }
  }

  lemma {:induction false} AddedMembers(slots: map<nat, Slot>, keys: seq<nat>, v: seq<Entry>, i: nat, k: nat)
    requires i <= |v| && AllIn(slots, keys)
    ensures k in Added(slots, keys, v, i) <==> exists x :: 0 <= x < i && v[x].key == k && !KeptNew(slots, keys, v, x)
  {
    if i > 0 {
      AddedMembers(slots, keys, v, i - 1, k);
    }
  }

  lemma {:induction false} AddedGrows(slots: map<nat, Slot>, keys: seq<nat>, v: seq<Entry>, i: nat, j: nat)
    requires i <= j <= |v| && AllIn(slots, keys)
    ensures Added(slots, keys, v, i) <= Added(slots, keys, v, j)
    ensures |Added(slots, keys, v, i)| <= |Added(slots, keys, v, j)| <= |Added(slots, keys, v, i)| + (j - i)
    decreases j
  {
    if i < j {
      AddedGrows(slots, keys, v, i, j - 1);
      OneMore(Added(slots, keys, v, j - 1), v[j - 1].key);
    }
  }

  lemma OneMore(s: set<nat>, k: nat)
    ensures s + {} == s && |s| <= |s + {k}| <= |s| + 1 && (k !in s ==> |s + {k}| == |s| + 1)
  {
    if k in s {
      assert s + {k} == s;
    }
  }

  lemma KeyAfter(slots: map<nat, Slot>, keys: seq<nat>, y: nat, n: nat)
    requires Ascending(keys) && (forall q :: q in keys <==> q in slots) && y < |keys|
    ensures NextSlot(slots, keys[y], n) <==> y + 1 < |keys| && keys[y + 1] == n
    ensures (forall j :: j in slots ==> j <= keys[y]) <==> y + 1 == |keys|
  {
    if y + 1 < |keys| {
      assert keys[y + 1] in slots;
      forall j | j in slots
        ensures j <= keys[y] || keys[y + 1] <= j
      {
        var z :| 0 <= z < |keys| && keys[z] == j;
      }
    } else {
      forall j | j in slots
        ensures j <= keys[y]
      {
        var z :| 0 <= z < |keys| && keys[z] == j;
      }
    }
  }

  lemma EntryAfter(v: seq<Entry>, x: nat, n: nat)
    requires Ordered(v) && x < |v|
    ensures NextEntry(v, v[x].key, n) <==> x + 1 < |v| && v[x + 1].key == n
    ensures (forall z :: 0 <= z < |v| ==> v[z].key <= v[x].key) <==> x + 1 == |v|
  {
    if NextEntry(v, v[x].key, n) {
      var z :| 0 <= z < |v| && v[z].key == n;
      assert x < z;
      assert v[x + 1].key <= v[z].key;
    }
  }

  /** The pairs of the comparison are the slots that stay. */
  lemma PairStays(slots: map<nat, Slot>, keys: seq<nat>, v: seq<Entry>, y: nat, x: nat)
    requires Ascending(keys) && Ordered(v) && (forall q :: q in keys <==> q in slots) && AllIn(slots, keys) && y < |keys| && x < |v|
    requires keys[y] == v[x].key
    ensures Pair(slots, keys, v, y, x) <==> Stays(slots, v, keys[y])
  {
    var k := keys[y];
    assert forall z :: 0 <= z < |v| && v[z].key == k ==> z == x;
    assert (exists z :: 0 <= z < |v| && v[z] == Entry(k, slots[k].region)) <==> v[x].region == slots[k].region;
    KeyAfter(slots, keys, y, 0);
    EntryAfter(v, x, 0);
    if y + 1 < |keys| {
      KeyAfter(slots, keys, y, keys[y + 1]);
      EntryAfter(v, x, keys[y + 1]);
    }
    if n :| NextSlot(slots, k, n) && NextEntry(v, k, n) {
      KeyAfter(slots, keys, y, n);
      EntryAfter(v, x, n);
    }
  }

  lemma KeptNewStays(slots: map<nat, Slot>, keys: seq<nat>, v: seq<Entry>, x: nat)
    requires Ascending(keys) && Ordered(v) && (forall q :: q in keys <==> q in slots) && AllIn(slots, keys) && x < |v|
    ensures KeptNew(slots, keys, v, x) <==> Stays(slots, v, v[x].key)
  {
    if KeptNew(slots, keys, v, x) {
      var y :| 0 <= y < |keys| && Pair(slots, keys, v, y, x);
      PairStays(slots, keys, v, y, x);
    }
    if Stays(slots, v, v[x].key) {
      var y :| 0 <= y < |keys| && keys[y] == v[x].key;
      PairStays(slots, keys, v, y, x);
    }
  }

  lemma KeptOldStays(slots: map<nat, Slot>, keys: seq<nat>, v: seq<Entry>, y: nat)
    requires Ascending(keys) && Ordered(v) && (forall q :: q in keys <==> q in slots) && AllIn(slots, keys) && y < |keys|
    ensures KeptOld(slots, keys, v, y) <==> Stays(slots, v, keys[y])
  {
    if KeptOld(slots, keys, v, y) {
      var x :| 0 <= x < |v| && Pair(slots, keys, v, y, x);
      PairStays(slots, keys, v, y, x);
    }
    if Stays(slots, v, keys[y]) {
      var x :| 0 <= x < |v| && v[x] == Entry(keys[y], slots[keys[y]].region);
      PairStays(slots, keys, v, y, x);
    }
  }

  lemma AddedIsUnserved(slots: map<nat, Slot>, keys: seq<nat>, v: seq<Entry>)
    requires Ascending(keys) && Ordered(v) && (forall q :: q in keys <==> q in slots) && AllIn(slots, keys)
    ensures Added(slots, keys, v, |v|) == Unserved(slots, v)
  {
    forall k: nat
      ensures k in Added(slots, keys, v, |v|) <==> k in Unserved(slots, v)
    {
      AddedMembers(slots, keys, v, |v|, k);
      forall x | 0 <= x < |v|
        ensures KeptNew(slots, keys, v, x) <==> Stays(slots, v, v[x].key)
      {
        KeptNewStays(slots, keys, v, x);
      }
    }
  }

  lemma NeedsFew(slots: map<nat, Slot>, v: seq<Entry>)
    requires Ordered(v)
    ensures Needs(slots, v) <= |v|
  {
    var keys := Sorted(slots.Keys);
    SortedFacts(slots.Keys);
    AddedIsUnserved(slots, keys, v);
    AddedGrows(slots, keys, v, 0, |v|);
  }

  /** The loop of the comparison, at new entry `i` and old key `j`. */
  ghost predicate Comparing(slots: map<nat, Slot>, keys: seq<nat>, v: seq<Entry>, i: nat, j: nat) {
    && AllIn(slots, keys) && i <= |v| && j <= |keys|
    && (j < |keys| ==> forall x :: 0 <= x < i ==> v[x].key < keys[j])
    && (forall y :: 0 <= y < j && i < |v| ==> keys[y] <= v[i].key && !Pair(slots, keys, v, y, i))
    && (forall y :: 0 <= y < j ==> !Beyond(v, keys[y]))
  }

  /** New entry `i` begins before every old key left: no old slot serves it. */
  lemma ComparesNew(slots: map<nat, Slot>, keys: seq<nat>, v: seq<Entry>, i: nat, j: nat)
    requires Ascending(keys) && Ordered(v) && Comparing(slots, keys, v, i, j) && i < |v|
    requires j < |keys| ==> v[i].key < keys[j]
    ensures !KeptNew(slots, keys, v, i) && Comparing(slots, keys, v, i + 1, j)
  {
    forall y | 0 <= y < |keys|
      ensures !Pair(slots, keys, v, y, i) && (i + 1 < |v| && y < j ==> keys[y] < v[i + 1].key)
    {
    }
  }

  /** Old key `j` does not serve entry `i` and lies at or below it: it serves none. */
  lemma ComparesOld(slots: map<nat, Slot>, keys: seq<nat>, v: seq<Entry>, i: nat, j: nat)
    requires Ascending(keys) && Ordered(v) && Comparing(slots, keys, v, i, j) && i < |v| && j < |keys|
    requires keys[j] <= v[i].key && !Pair(slots, keys, v, j, i)
    ensures !KeptOld(slots, keys, v, j) && Comparing(slots, keys, v, i, j + 1)
  {
    forall x | 0 <= x < |v|
      ensures !Pair(slots, keys, v, j, x)
    {
    }
  }

  /** Old key `j` serves entry `i`. */
  lemma ComparesBoth(slots: map<nat, Slot>, keys: seq<nat>, v: seq<Entry>, i: nat, j: nat)
    requires Ascending(keys) && Ordered(v) && Comparing(slots, keys, v, i, j) && i < |v| && j < |keys|
    requires Pair(slots, keys, v, j, i)
    ensures KeptOld(slots, keys, v, j) && KeptNew(slots, keys, v, i) && Comparing(slots, keys, v, i + 1, j + 1)
  {
    forall x | 0 <= x < i + 1
      ensures j + 1 < |keys| ==> v[x].key < keys[j + 1]
    {
    }
  }

  // ---------------------------------------------------------------- the commit

  /** The slots after a commit of view `v`: the entries of the view, served by an old slot where one
      fits, and the old slots beyond the view. */
  ghost predicate Committed(slots: map<nat, Slot>, v: seq<Entry>, after: map<nat, Slot>) {
    && (forall k :: k in after <==> IsKey(v, k) || (k in slots && Beyond(v, k)))
    && (forall k :: k in slots && Beyond(v, k) ==> k in after && after[k] == slots[k])
    && (forall x: nat :: x < |v| ==> Commits(slots, v, after, x))
  }

  ghost predicate Commits(slots: map<nat, Slot>, v: seq<Entry>, after: map<nat, Slot>, x: nat)
    requires x < |v|
  {
    && v[x].key in after
    && if Stays(slots, v, v[x].key) then after[v[x].key] == slots[v[x].key] else Served(after, v, x)
  }

  /** What the loop hands on, once every entry was seen. */
  ghost predicate Compared(slots: map<nat, Slot>, keys: seq<nat>, v: seq<Entry>, j: nat, add: map<nat, Slot>, remove: set<nat>) {
    && Comparing(slots, keys, v, |v|, j) && remove == Removed(slots, keys, v, j) && add.Keys == Added(slots, keys, v, |v|)
    && (forall x: nat :: x < |v| && v[x].key in add ==> Served(add, v, x))
  }

  lemma RemovedIs(slots: map<nat, Slot>, keys: seq<nat>, v: seq<Entry>, j: nat, k: nat)
    requires Ascending(keys) && Ordered(v) && (forall q :: q in keys <==> q in slots) && Comparing(slots, keys, v, |v|, j)
    ensures k in Removed(slots, keys, v, j) <==> k in slots && !Beyond(v, k) && !Stays(slots, v, k)
  {
    RemovedMembers(slots, keys, v, j, k);
    if k in slots {
      var y :| 0 <= y < |keys| && keys[y] == k;
      assert forall z :: 0 <= z < |keys| && keys[z] == k ==> z == y;
      KeptOldStays(slots, keys, v, y);
      if y >= j {
        assert forall x :: 0 <= x < |v| ==> v[x].key < keys[j] <= k;
        assert Beyond(v, k);
      }
    }
  }

  /** The loop finds what it is to find. */
  lemma ComparedIsSifted(slots: map<nat, Slot>, keys: seq<nat>, v: seq<Entry>, j: nat, add: map<nat, Slot>, remove: set<nat>)
    requires Ascending(keys) && Ordered(v) && (forall q :: q in keys <==> q in slots) && Compared(slots, keys, v, j, add, remove)
    ensures Sifted(slots, v, add, remove) && |add.Keys| == Needs(slots, v)
  {
    AddedIsUnserved(slots, keys, v);
    forall k: nat
      ensures k in remove <==> k in slots && !Beyond(v, k) && !Stays(slots, v, k)
    {
      RemovedIs(slots, keys, v, j, k);
    }
  }

  lemma CommitIsExactly(slots: map<nat, Slot>, v: seq<Entry>, add: map<nat, Slot>, remove: set<nat>)
    requires Ordered(v) && Sifted(slots, v, add, remove)
    ensures Committed(slots, v, (slots - remove) + add)
    ensures remove <= slots.Keys && add.Keys !! (slots - remove).Keys
  {
    var after := (slots - remove) + add;
    forall x: nat | x < |v|
      ensures Commits(slots, v, after, x)
    {
      assert IsKey(v, v[x].key);
    }
    forall k: nat
      ensures k in after <==> IsKey(v, k) || (k in slots && Beyond(v, k))
      ensures k in slots && Beyond(v, k) ==> k in after && after[k] == slots[k]
      ensures k in add && k in slots ==> k in remove
    {
      if Stays(slots, v, k) {
        var x :| 0 <= x < |v| && v[x] == Entry(k, slots[k].region);
        assert v[x].key == k;
      }
      if IsKey(v, k) {
        var x :| 0 <= x < |v| && v[x].key == k;
        assert !Beyond(v, k);
      }
    }
  }

  /** A slot that serves the view as it is stays: it is neither removed nor added again, and after the
      commit it is the same slot, id included. */
  lemma KeptIsUntouched(slots: map<nat, Slot>, v: seq<Entry>, add: map<nat, Slot>, remove: set<nat>, x: nat)
    requires Ordered(v) && Sifted(slots, v, add, remove)
    requires x < |v| && v[x].key in slots && v[x].region == slots[v[x].key].region
    requires (forall n :: NextSlot(slots, v[x].key, n) <==> NextEntry(v, v[x].key, n))
    ensures var k := v[x].key; k !in remove && k !in add && k in (slots - remove) + add && ((slots - remove) + add)[k] == slots[k]
  {
    var k := v[x].key;
    assert v[x] == Entry(k, slots[k].region);
    if x + 1 < |v| {
      EntryAfter(v, x, v[x + 1].key);
    } else {
      EntryAfter(v, x, 0);
      NoneAfter(slots, v, x);
    }
  }

  /** If no key of a slot follows the last key of the view, it is the last of the slots, too. */
  lemma NoneAfter(slots: map<nat, Slot>, v: seq<Entry>, x: nat)
    requires Ordered(v) && x + 1 == |v| && v[x].key in slots
    requires forall n :: NextSlot(slots, v[x].key, n) <==> NextEntry(v, v[x].key, n)
    ensures forall j :: j in slots ==> j <= v[x].key
  {
    var k, keys := v[x].key, Sorted(slots.Keys);
    SortedFacts(slots.Keys);
    assert k in keys;
    var y :| 0 <= y < |keys| && keys[y] == k;
    KeyAfter(slots, keys, y, 0);
    if y + 1 < |keys| {
      KeyAfter(slots, keys, y, keys[y + 1]);
      EntryAfter(v, x, keys[y + 1]);
    }
  }

  // ---------------------------------------------------------------- exactness

  /** In exact slots the next key is that of the next entry. */
  lemma ExactNext(slots: map<nat, Slot>, was: seq<Entry>, y: nat, n: nat)
    requires Exact(slots, was) && Ordered(was) && y < |was|
    ensures NextSlot(slots, was[y].key, n) ==> y + 1 < |was| && was[y + 1].key == n
    ensures (forall j :: j in slots ==> j <= was[y].key) ==> y + 1 == |was|
  {
    if y + 1 < |was| {
      assert Served(slots, was, y + 1);
    }
    if NextSlot(slots, was[y].key, n) {
      assert IsKey(was, n);
      var z :| 0 <= z < |was| && was[z].key == n;
      assert y < z;
      assert was[y + 1].key <= was[z].key;
    }
  }

  /** A slot that is kept already ends where the new view wants it to. */
  lemma KeptFits(slots: map<nat, Slot>, was: seq<Entry>, v: seq<Entry>, x: nat)
    requires Exact(slots, was) && Ordered(was) && Ordered(v) && x < |v| && Stays(slots, v, v[x].key)
    ensures Fits(slots[v[x].key], v, x)
  {
    var k := v[x].key;
    assert IsKey(was, k);
    var y: nat :| y < |was| && was[y].key == k;
    assert Served(slots, was, y);
    var z :| 0 <= z < |v| && v[z] == Entry(k, slots[k].region);
    assert z == x;
    if n :| NextSlot(slots, k, n) && NextEntry(v, k, n) {
      ExactNext(slots, was, y, n);
      EntryAfter(v, x, n);
    } else {
      ExactNext(slots, was, y, 0);
      EntryAfter(v, x, 0);
    }
  }

  lemma CommitServes(slots: map<nat, Slot>, was: seq<Entry>, v: seq<Entry>, after: map<nat, Slot>, x: nat)
    requires Exact(slots, was) && Ordered(was) && Ordered(v) && Committed(slots, v, after) && x < |v|
    ensures Served(after, v, x)
  {
    assert Commits(slots, v, after, x);
    if Stays(slots, v, v[x].key) {
      KeptFits(slots, was, v, x);
    }
  }

  /** A commit over exact slots is exact if and only if no old slot lies beyond the new view. */
  lemma CommitExactIff(slots: map<nat, Slot>, was: seq<Entry>, v: seq<Entry>, after: map<nat, Slot>)
    requires Exact(slots, was) && Ordered(was) && Ordered(v) && Committed(slots, v, after)
    ensures Exact(after, v) <==> forall k :: k in slots ==> !Beyond(v, k)
  {
    forall x: nat | x < |v|
      ensures Served(after, v, x)
    {
      CommitServes(slots, was, v, after, x);
    }
    forall k | k in slots && Beyond(v, k)
      ensures k in after && !IsKey(v, k)
    {
    }
  }

  // ---------------------------------------------------------------- translation

  /** No two slots overlap. */
  ghost predicate NoOverlap(slots: map<nat, Slot>) {
    forall j, k :: j in slots && k in slots && j < k ==> slots[j].end <= k
  }

  lemma ExactIsFlat(slots: map<nat, Slot>, v: seq<Entry>)
    requires Exact(slots, v) && Ordered(v)
    ensures Keyed(slots) && NoOverlap(slots)
  {
    forall j, k | j in slots && k in slots && j < k
      ensures slots[j].end <= k
    {
      assert IsKey(v, j) && IsKey(v, k);
      var x :| 0 <= x < |v| && v[x].key == j;
      var y :| 0 <= y < |v| && v[y].key == k;
      assert Served(slots, v, x);
      assert x < y;
      assert v[x + 1].key <= v[y].key;
    }
    forall k | k in slots
      ensures slots[k].begin == k
    {
      assert IsKey(v, k);
      var x :| 0 <= x < |v| && v[x].key == k;
      assert Served(slots, v, x);
    }
  }

  lemma EntriesStayApart(v: seq<Entry>, after: map<nat, Slot>, x: nat, k: nat)
    requires Ordered(v) && x + 1 < |v| && Served(after, v, x) && v[x + 1].key <= k
    ensures after[v[x].key].end <= k
  {
  }

  /** After a commit over exact slots no two slots overlap if and only if the last new slot ends before the
      first old slot that stays beyond the view. */
  lemma CommitFlatIff(slots: map<nat, Slot>, was: seq<Entry>, v: seq<Entry>, after: map<nat, Slot>)
    requires Exact(slots, was) && Ordered(was) && Ordered(v) && Committed(slots, v, after)
    ensures NoOverlap(after) <==> (v != [] ==> forall k :: k in slots && Beyond(v, k) ==> EndOf(v, |v| - 1) <= k)
  {
    forall x: nat | x < |v|
      ensures Served(after, v, x)
    {
      CommitServes(slots, was, v, after, x);
    }
    ExactIsFlat(slots, was);
    if v != [] {
      var last := v[|v| - 1].key;
      assert Served(after, v, |v| - 1);
      if forall k :: k in slots && Beyond(v, k) ==> EndOf(v, |v| - 1) <= k {
        forall j, k | j in after && k in after && j < k
          ensures after[j].end <= k
        {
          NextApart(slots, v, after, j, k);
        }
      }
      if NoOverlap(after) {
        forall k | k in slots && Beyond(v, k)
          ensures EndOf(v, |v| - 1) <= k
        {
          assert last in after && k in after && last < k;
        }
      }
    } else {
      assert forall k :: k in after ==> !IsKey(v, k);
    }
  }

  lemma NextApart(slots: map<nat, Slot>, v: seq<Entry>, after: map<nat, Slot>, j: nat, k: nat)
    requires Ordered(v) && v != [] && Committed(slots, v, after) && NoOverlap(slots)
    requires forall x: nat :: x < |v| ==> Served(after, v, x)
    requires forall q :: q in slots && Beyond(v, q) ==> EndOf(v, |v| - 1) <= q
    requires j in after && k in after && j < k
    ensures after[j].end <= k
  {
    if IsKey(v, j) {
      var x: nat :| x < |v| && v[x].key == j;
      assert Served(after, v, x);
      if x + 1 < |v| {
        if IsKey(v, k) {
          var y: nat :| y < |v| && v[y].key == k;
          assert x < y;
        }
        EntriesStayApart(v, after, x, k);
      }
    } else {
      assert Beyond(v, j);
      assert !IsKey(v, k);
    }
  }

  /** The slot GuestToHostAddress looks at: the highest that begins at or below `a`. */
  ghost predicate InForce(slots: map<nat, Slot>, a: nat, k: nat) {
    k in slots && k <= a && forall j :: j in slots && j <= a ==> j <= k
  }

  /** The key in force at a covered address is that of the entry in force. */
  lemma EntryInForce(v: seq<Entry>, slots: map<nat, Slot>, a: nat)
    requires Ordered(v) && Exact(slots, v) && LookupIndex(v, |v|, a) >= 0
    ensures InForce(slots, a, v[LookupIndex(v, |v|, a)].key)
  {
    var i := LookupIndex(v, |v|, a);
    assert Served(slots, v, i);
    forall j | j in slots && j <= a
      ensures j <= v[i].key
    {
      assert IsKey(v, j);
      var x :| 0 <= x < |v| && v[x].key == j;
    }
  }

  /** On exact slots of a correct view, every covered address is led to the latest region that covers it. */
  lemma ExactTranslates(rs: seq<Region>, v: seq<Entry>, slots: map<nat, Slot>, a: nat)
    requires Ordered(v) && Exact(slots, v) && Correct(rs, v) && Covered(rs, a)
    ensures Top(rs, a).Some?
    ensures exists k ::
      && InForce(slots, a, k) && slots[k].begin <= a < slots[k].end
      && slots[k].hva + (a - slots[k].begin) == Top(rs, a).value.host + (a - Top(rs, a).value.gpa)
  {
    CoveredByTop(rs, a);
    assert RegionAt(v, a) == Top(rs, a);
    var i := LookupIndex(v, |v|, a);
    EntryInForce(v, slots, a);
    assert Served(slots, v, i);
  }

  /** A host address of a slot, led to the guest and back, is the same address. */
  lemma HostRoundTrip(slots: map<nat, Slot>, k: nat, host: int)
    requires Keyed(slots) && NoOverlap(slots) && k in slots
    requires slots[k].hva <= host < slots[k].hva + (slots[k].end - slots[k].begin)
    ensures var a := slots[k].begin + (host - slots[k].hva);
      a >= 0 && InForce(slots, a, k) && slots[k].begin <= a < slots[k].end && slots[k].hva + (a - slots[k].begin) == host
  {
    var a: nat := slots[k].begin + (host - slots[k].hva);
    assert forall j :: j in slots && k < j ==> slots[k].end <= j;
  }

  // ---------------------------------------------------------------- slot ids

  ghost function IdsOf(slots: map<nat, Slot>): set<nat> {
    set k | k in slots :: slots[k].id
  }

  ghost predicate DistinctIds(slots: map<nat, Slot>) {
    forall j, k :: j in slots && k in slots && slots[j].id == slots[k].id ==> j == k
  }

  /** New slots get the lowest of the free ids `before`, in the order of their keys. */
  ghost predicate LowestFirst(before: set<nat>, add: map<nat, Slot>) {
    && (forall k :: k in add ==> add[k].id in before)
    && (forall j, k :: j in add && k in add && j < k ==> add[j].id < add[k].id)
    && (forall k, f :: k in add && f in before && f !in IdsOf(add) ==> add[k].id < f)
  }

  /** Every id is in exactly one place: free, with a live slot, retired with a slot that was removed
      without having been given to KVM, or with a slot about to be added. */
  ghost predicate Shared(max: nat, free: set<nat>, live: set<nat>, retired: set<nat>, pending: set<nat>) {
    && (forall id: nat :: id < max <==> id in free || id in live || id in retired || id in pending)
    && free !! live && free !! retired && live !! retired
    && pending !! free && pending !! live && pending !! retired
  }

  /** The ids that are lost with the slots of `remove`. */
  ghost function Retires(slots: map<nat, Slot>, remove: set<nat>): set<nat> {
    set k | k in slots && k in remove && !Committable(slots[k]) :: slots[k].id
  }

  lemma IdsOfRemoved(slots: map<nat, Slot>, k: nat)
    requires DistinctIds(slots) && k in slots
    ensures DistinctIds(slots - {k}) && IdsOf(slots - {k}) == IdsOf(slots) - {slots[k].id} && slots[k].id in IdsOf(slots)
  {
    forall id
      ensures id in IdsOf(slots - {k}) <==> id in IdsOf(slots) && id != slots[k].id
    {
      if id in IdsOf(slots) && id != slots[k].id {
        var j :| j in slots && slots[j].id == id;
        assert j in slots - {k} && (slots - {k})[j].id == id;
      }
    }
  }

  lemma IdsOfAdded(slots: map<nat, Slot>, k: nat, s: Slot)
    requires DistinctIds(slots) && k !in slots && s.id !in IdsOf(slots)
    ensures DistinctIds(slots[k := s]) && IdsOf(slots[k := s]) == IdsOf(slots) + {s.id}
  {
    var after := slots[k := s];
    forall id
      ensures id in IdsOf(after) <==> id in IdsOf(slots) || id == s.id
    {
      if id in IdsOf(slots) {
        var j :| j in slots && slots[j].id == id;
        assert j in after && after[j].id == id;
      }
      if id == s.id {
        assert k in after && after[k].id == id;
      }
    }
    assert forall j :: j in slots ==> slots[j].id in IdsOf(slots);
  }
}