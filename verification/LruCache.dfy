/** The bounded cache that the image keeps its tables in. The remove callback is modelled by its
    calls: every operation returns the entries it handed to the callback, in order.
 */
module LruCache {

  import opened Common

  ghost function Members(s: seq<nat>): set<nat> {
    set k | k in s
  }

  /** `s` without key `k`: erasing from a duplicate-free list. */
  function Without(s: seq<nat>, k: nat): seq<nat> {
    if s == [] then []
    else if s[0] == k then s[1..]
    else [s[0]] + Without(s[1..], k)
  }

  lemma MembersCons(x: nat, s: seq<nat>)
    ensures Members([x] + s) == {x} + Members(s)
  {
  }

  /** Stamps strictly fall along the list; in particular no key occurs twice. */
  ghost predicate Falling(s: seq<nat>, stamp: map<nat, nat>) {
    s == [] ||
    (&& s[0] in stamp
     && (forall k :: k in s[1..] ==> k in stamp && stamp[k] < stamp[s[0]])
     && Falling(s[1..], stamp))
  }

  lemma {:induction false} WithoutFalling(s: seq<nat>, k: nat, stamp: map<nat, nat>)
    requires Falling(s, stamp)
    ensures Falling(Without(s, k), stamp) && Members(Without(s, k)) == Members(s) - {k}
    ensures |Without(s, k)| == |s| - if k in s then 1 else 0
  {
    if s != [] {
      assert s == [s[0]] + s[1..];
      MembersCons(s[0], s[1..]);
      if s[0] != k {
        WithoutFalling(s[1..], k, stamp);
        var r := Without(s[1..], k);
        MembersCons(s[0], r);
        assert ([s[0]] + r)[1..] == r;
        forall x | x in r
          ensures x in s[1..]
        {
          assert x in Members(r);
        }
      }
    }
  }

  lemma {:induction false} RestampFalling(s: seq<nat>, stamp: map<nat, nat>, k: nat, t: nat)
    requires Falling(s, stamp) && k !in s
    ensures Falling(s, stamp[k := t])
  {
    if s != [] {
      RestampFalling(s[1..], stamp, k, t);
    }
  }

  lemma {:induction false} DropLastFalling(s: seq<nat>, stamp: map<nat, nat>)
    requires s != [] && Falling(s, stamp)
    ensures var n := |s| - 1;
      && s[n] in stamp
      && Falling(s[..n], stamp) && Members(s[..n]) == Members(s) - {s[n]}
      && (forall k :: k in s && k != s[n] ==> k in stamp && stamp[s[n]] < stamp[k])
  {
    var n := |s| - 1;
    assert s == [s[0]] + s[1..];
    MembersCons(s[0], s[1..]);
    if n > 0 {
      DropLastFalling(s[1..], stamp);
      assert s[1..][..n - 1] == s[..n][1..];
      assert s[1..][n - 1] == s[n];
      assert s[..n] == [s[0]] + s[..n][1..];
      MembersCons(s[0], s[..n][1..]);
      assert s[n] in s[1..];
      forall x | x in s[..n][1..]
        ensures x in s[1..]
      {
        assert x in Members(s[..n][1..]);
      }
    } else {
      assert s[..n] == [];
    }
  }

  /** The list holds exactly the cached keys, once each, most recently touched first. */
  ghost predicate Ordered(lru: seq<nat>, keys: set<nat>, stamp: map<nat, nat>, clock: nat) {
    && Falling(lru, stamp)
    && Members(lru) == keys
    && (forall k :: k in keys ==> k in stamp && stamp[k] < clock)
  }

  lemma InList(lru: seq<nat>, keys: set<nat>, k: nat)
    requires Members(lru) == keys
    ensures k in lru <==> k in keys
  {
    assert k in lru <==> k in Members(lru);
  }

  lemma RemoveKeepsOrder(lru: seq<nat>, keys: set<nat>, stamp: map<nat, nat>, clock: nat, k: nat)
    requires Ordered(lru, keys, stamp, clock)
    ensures Ordered(Without(lru, k), keys - {k}, stamp, clock)
    ensures |Without(lru, k)| == |lru| - if k in keys then 1 else 0
  {
    WithoutFalling(lru, k, stamp);
    InList(lru, keys, k);
  }

  lemma TouchKeepsOrder(lru: seq<nat>, keys: set<nat>, stamp: map<nat, nat>, clock: nat, k: nat)
    requires Ordered(lru, keys, stamp, clock)
    ensures Ordered([k] + Without(lru, k), keys + {k}, stamp[k := clock], clock + 1)
    ensures |Without(lru, k)| == |lru| - if k in keys then 1 else 0
  {
    RemoveKeepsOrder(lru, keys, stamp, clock, k);
    var r := Without(lru, k);
    MembersCons(k, r);
    assert k !in Members(r);
    RestampFalling(r, stamp, k, clock);
    assert ([k] + r)[1..] == r;
    forall x | x in r
      ensures x in keys
    {
      assert x in Members(r);
    }
  }

  lemma EvictKeepsOrder(lru: seq<nat>, keys: set<nat>, stamp: map<nat, nat>, clock: nat)
    requires Ordered(lru, keys, stamp, clock) && lru != []
    ensures var last := lru[|lru| - 1];
      && last in keys
      && Ordered(lru[..|lru| - 1], keys - {last}, stamp, clock)
      && forall k :: k in keys && k != last ==> stamp[last] < stamp[k]
  {
    DropLastFalling(lru, stamp);
    InList(lru, keys, lru[|lru| - 1]);
    forall k | k in keys
      ensures k in lru
    {
      InList(lru, keys, k);
    }
  }

  /** The state of a cache, apart from the values. */
  datatype Book = Book(lru: seq<nat>, stamp: map<nat, nat>, clock: nat)

  ghost predicate Tidy(b: Book, keys: set<nat>, max: nat) {
    Ordered(b.lru, keys, b.stamp, b.clock) && |b.lru| <= max
  }

  /** `Tidy`, folded, so that clients pass it on without unfolding it. */
  ghost predicate Sound(b: Book, keys: set<nat>, max: nat, veil: Veil := VEIL) {
    match veil
    case Bare => Tidy(b, keys, max) == true
    case Fold(inner) => Sound(b, keys, max, inner)
  }

  lemma {:induction false} OpenSound(b: Book, keys: set<nat>, max: nat, veil: Veil := VEIL)
    ensures Sound(b, keys, max, veil) <==> Tidy(b, keys, max)
  {
    if veil.Fold? {
      OpenSound(b, keys, max, veil.inner);
    }
  }

  ghost function Touched(b: Book, k: nat): Book {
    b.(lru := [k] + Without(b.lru, k), stamp := b.stamp[k := b.clock], clock := b.clock + 1)
  }

  ghost function Departed(b: Book, k: nat): Book {
    b.(lru := Without(b.lru, k))
  }

  lemma TouchSound(b: Book, keys: set<nat>, max: nat, k: nat)
    requires Sound(b, keys, max) && k in keys
    ensures Sound(Touched(b, k), keys, max)
  {
    OpenSound(b, keys, max);
    TouchKeepsOrder(b.lru, keys, b.stamp, b.clock, k);
    assert keys + {k} == keys;
    OpenSound(Touched(b, k), keys, max);
  }

  lemma DepartSound(b: Book, keys: set<nat>, max: nat, k: nat)
    requires Sound(b, keys, max) && k in keys
    ensures Sound(Departed(b, k), keys - {k}, max) && |Without(b.lru, k)| == |b.lru| - 1
  {
    OpenSound(b, keys, max);
    RemoveKeepsOrder(b.lru, keys, b.stamp, b.clock, k);
    OpenSound(Departed(b, k), keys - {k}, max);
  }

  lemma InsertSound(b: Book, keys: set<nat>, max: nat, k: nat)
    requires Sound(b, keys, max) && k !in keys
    ensures Without(b.lru, k) == b.lru && |b.lru| <= max
    ensures Sound(Touched(b, k), keys + {k}, max + 1)
  {
    OpenSound(b, keys, max);
    OpenSound(Touched(b, k), keys + {k}, max + 1);
    InList(b.lru, keys, k);
    WithoutAbsent(b.lru, k);
    TouchKeepsOrder(b.lru, keys, b.stamp, b.clock, k);
  }

  /** No other cached key was touched longer ago than `v`. */
  ghost predicate LeastRecent(b: Book, keys: set<nat>, v: nat) {
    && v in keys && v in b.stamp
    && forall k :: k in keys && k != v ==> k in b.stamp && b.stamp[v] < b.stamp[k]
  }

  lemma BackIsLeastRecent(b: Book, keys: set<nat>, max: nat)
    requires Sound(b, keys, max) && b.lru != []
    ensures LeastRecent(b, keys, b.lru[|b.lru| - 1])
  {
    OpenSound(b, keys, max);
    EvictKeepsOrder(b.lru, keys, b.stamp, b.clock);
  }

  /** Evicting from a list that is one too long. */
  lemma EvictSound(b: Book, keys: set<nat>, max: nat)
    requires Sound(b, keys, max + 1) && |b.lru| == max + 1
    ensures var last := b.lru[max];
      && last in keys
      && Sound(b.(lru := b.lru[..max]), keys - {last}, max)
  {
    OpenSound(b, keys, max + 1);
    EvictKeepsOrder(b.lru, keys, b.stamp, b.clock);
    OpenSound(b.(lru := b.lru[..max]), keys - {b.lru[max]}, max);
  }

  lemma Shrink(b: Book, keys: set<nat>, max: nat)
    requires Sound(b, keys, max + 1) && |b.lru| <= max
    ensures Sound(b, keys, max)
  {
    OpenSound(b, keys, max + 1);
    OpenSound(b, keys, max);
  }

  lemma SoundIsList(b: Book, keys: set<nat>, max: nat)
    requires Sound(b, keys, max)
    ensures Members(b.lru) == keys && |b.lru| <= max
  {
    OpenSound(b, keys, max);
  }

  class SimpleLRUCache<V> {
    const maxSize: nat
    var lru: seq<nat>
    var pairs: map<nat, V>

    /** When each key was last touched, and the time of the next touch. */
    ghost var stamp: map<nat, nat>
    ghost var clock: nat

    ghost function State(): Book
      reads this
    {
      Book(lru, stamp, clock)
    }

    ghost predicate Valid()
      reads this
    {
      Sound(State(), pairs.Keys, maxSize)
    }

    constructor (maxSize: nat)
      ensures Valid() && this.maxSize == maxSize && pairs == map[]
    {
      this.maxSize := maxSize;
      lru, pairs := [], map[];
      stamp, clock := map[], 0;
      new;
      OpenSound(State(), pairs.Keys, maxSize);
    }

    /** The key that Clear takes next. */
    method Front() returns (r: Option<nat>)
      requires Valid()
      ensures r == None ==> pairs == map[]
      ensures r.Some? ==> lru != [] && r.value == lru[0] && r.value in pairs
    {
      SoundIsList(State(), pairs.Keys, maxSize);
      if lru == [] {
        assert pairs.Keys == {};
        return None;
      }
      InList(lru, pairs.Keys, lru[0]);
      return Some(lru[0]);
    }

    method Get(key: nat) returns (r: Option<V>)
      requires Valid()
      modifies this
      ensures Valid() && pairs == old(pairs)
      ensures r == if key in pairs then Some(pairs[key]) else None
      ensures State() == if key in pairs then Touched(old(State()), key) else old(State())
    {
      if key !in pairs {
        return None;
      }
      r := Some(pairs[key]);
      TouchSound(State(), pairs.Keys, maxSize, key);
      lru := [key] + Without(lru, key);
      stamp := stamp[key := clock];
      clock := clock + 1;
    }

    /** Inserts a new entry; when that overfills the cache, the least recently touched key leaves. */
    method Put(key: nat, value: V) returns (added: bool, victim: Option<(nat, V)>)
      requires Valid()
      modifies this
      ensures Valid()
      ensures added == (key !in old(pairs))
      ensures !added ==> pairs == old(pairs) && victim == None && State() == old(State())
      ensures added && victim == None ==> pairs == old(pairs)[key := value] && |old(lru)| < maxSize
      ensures added && victim == None ==> State() == Touched(old(State()), key)
      ensures added && victim.Some? ==>
        && |old(lru)| == maxSize
        && victim.value.0 == ([key] + old(lru))[maxSize]
        && victim.value.0 in old(pairs)[key := value]
        && victim.value.1 == old(pairs)[key := value][victim.value.0]
        && pairs == old(pairs)[key := value] - {victim.value.0}
        && State() == Touched(old(State()), key).(lru := ([key] + old(lru))[..maxSize])
        && (maxSize > 0 ==> victim.value.0 != key && LeastRecent(old(State()), old(pairs).Keys, victim.value.0))
    {
      if key in pairs {
        return false, None;
      }
      added, victim := true, None;
      InsertSound(State(), pairs.Keys, maxSize, key);
      if lru != [] {
        BackIsLeastRecent(State(), pairs.Keys, maxSize);
      }
      ghost var keys := pairs.Keys;
      lru := [key] + lru;
      pairs := pairs[key := value];
      stamp := stamp[key := clock];
      clock := clock + 1;
      assert pairs.Keys == keys + {key};
      if |lru| > maxSize {
        var last, x := RemoveBack();
        victim := Some((last, x));
      } else {
        Shrink(State(), pairs.Keys, maxSize);
      }
    }

    /** Removal of the least recently touched key from a list that is one too long. */
    method RemoveBack() returns (last: nat, value: V)
      requires Sound(State(), pairs.Keys, maxSize + 1) && |lru| == maxSize + 1
      modifies this`lru, this`pairs
      ensures Valid()
      ensures last == old(lru)[maxSize] && last in old(pairs) && value == old(pairs)[last]
      ensures pairs == old(pairs) - {last} && lru == old(lru)[..maxSize]
    {
      EvictSound(State(), pairs.Keys, maxSize);
      last := lru[|lru| - 1];
      value := pairs[last];
      ghost var keys := pairs.Keys;
      lru := lru[..|lru| - 1];
      pairs := pairs - {last};
      assert pairs.Keys == keys - {last};
    }

    method Remove(key: nat) returns (gone: Option<(nat, V)>)
      requires Valid()
      modifies this
      ensures Valid()
      ensures pairs == old(pairs) - {key} && |lru| == |old(lru)| - (if key in old(pairs) then 1 else 0)
      ensures gone == if key in old(pairs) then Some((key, old(pairs)[key])) else None
      ensures State() == if key in old(pairs) then Departed(old(State()), key) else old(State())
    {
      if key !in pairs {
        assert pairs == pairs - {key};
        return None;
      }
      gone := Some((key, pairs[key]));
      DepartSound(State(), pairs.Keys, maxSize, key);
      ghost var keys := pairs.Keys;
      lru := Without(lru, key);
      pairs := pairs - {key};
      assert pairs.Keys == keys - {key};
    }

    /** Empties the cache through Remove; the callback sees every entry exactly once. */
    method Clear() returns (gone: seq<(nat, V)>)
      requires Valid()
      modifies this
      ensures Valid() && pairs == map[] && |gone| == |old(lru)|
      ensures forall k :: k in old(pairs) ==> (k, old(pairs)[k]) in gone
      ensures forall e :: e in gone ==> e.0 in old(pairs) && e.1 == old(pairs)[e.0]
      ensures forall i, j :: 0 <= i < j < |gone| ==> gone[i].0 != gone[j].0
    {
      gone := [];
      while lru != []
        invariant Valid()
        invariant |gone| + |lru| == |old(lru)|
        invariant forall k :: k in pairs ==> k in old(pairs) && pairs[k] == old(pairs)[k]
        invariant forall k :: k in old(pairs) ==> k in pairs || (k, old(pairs)[k]) in gone
        invariant forall e :: e in gone ==> e.0 in old(pairs) && e.1 == old(pairs)[e.0] && e.0 !in pairs
        invariant forall i, j :: 0 <= i < j < |gone| ==> gone[i].0 != gone[j].0
        decreases |lru|
      {
        var key := lru[0];
        SoundIsList(State(), pairs.Keys, maxSize);
        InList(lru, pairs.Keys, key);
        var one := Remove(key);
        assert forall i :: 0 <= i < |gone| ==> gone[i] in gone && gone[i].0 != key;
        gone := gone + [one.value];
      }
      SoundIsList(State(), pairs.Keys, maxSize);
      assert Members(lru) == {};
    }

    /** A write through a pointer to a cached value: legal only while the value is in the cache. */
    method Update(key: nat, value: V)
      requires Valid() && key in pairs
      modifies this`pairs
      ensures Valid() && pairs == old(pairs)[key := value]
    {
      ghost var keys := pairs.Keys;
      pairs := pairs[key := value];
      assert pairs.Keys == keys;
    }
  }

  lemma {:induction false} WithoutAbsent(s: seq<nat>, k: nat)
    requires k !in Members(s)
    ensures Without(s, k) == s
  {
    if s != [] {
      assert s[0] in Members(s);
      assert s == [s[0]] + s[1..];
      MembersCons(s[0], s[1..]);
      WithoutAbsent(s[1..], k);
    }
  }
}
