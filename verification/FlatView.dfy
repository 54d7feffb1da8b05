/** The flat view of guest memory: overlapping regions, of which the one mapped last shows. */
module FlatView {
  import opened Common

  datatype Kind = Reserved | Ram | Device | Rom

  /** A mapped region. `id` is its identity: two mappings with equal fields are different regions. */
  datatype Region = Region(id: nat, gpa: nat, size: nat, host: nat, kind: Kind)

  predicate Covers(r: Region, a: nat) {
    r.gpa <= a < r.gpa + r.size
  }

  ghost predicate Covered(rs: seq<Region>, a: nat) {
    exists i :: 0 <= i < |rs| && Covers(rs[i], a)
  }

  /** Among the first `n` regions, the index of the latest that covers `a`, or -1. */
  function TopIndex(rs: seq<Region>, n: nat, a: nat): (k: int)
    requires n <= |rs|
    ensures -1 <= k < n && (k >= 0 ==> Covers(rs[k], a)) && forall i :: k < i < n ==> !Covers(rs[i], a)
  {
    if n == 0 then -1
    else if Covers(rs[n - 1], a) then n - 1
    else TopIndex(rs, n - 1, a)
  }

  /** The region that address `a` should reach: the latest mapping that covers it. */
  function Top(rs: seq<Region>, a: nat): Option<Region> {
    var k := TopIndex(rs, |rs|, a);
    if k < 0 then None else Some(rs[k])
  }

  /** What the code picks at a point: the latest covering region other than the last one picked. */
  function PickIndex(rs: seq<Region>, n: nat, a: nat, last: Option<Region>): (k: int)
    requires n <= |rs|
    ensures -1 <= k < n && (k >= 0 ==> Covers(rs[k], a) && last != Some(rs[k]))
    ensures forall i :: k < i < n && Covers(rs[i], a) ==> last == Some(rs[i])
  {
    if n == 0 then -1
    else if Covers(rs[n - 1], a) && last != Some(rs[n - 1]) then n - 1
    else PickIndex(rs, n - 1, a, last)
  }

  lemma PickIsTop(rs: seq<Region>, a: nat, last: Option<Region>)
    requires Top(rs, a) != last
    ensures PickIndex(rs, |rs|, a, last) == TopIndex(rs, |rs|, a)
  {
  }

  // ---------------------------------------------------------------- points

  predicate Ascending(s: seq<nat>) {
    forall i, j :: 0 <= i < j < |s| ==> s[i] < s[j]
  }

  lemma {:induction false} HighestExists(s: set<nat>)
    requires s != {}
    ensures exists k :: k in s && forall j :: j in s ==> j <= k
  {
    var x :| x in s;
    if s == {x} {
      assert x in s && forall j :: j in s ==> j <= x;
    } else {
      assert s - {x} != {};
      HighestExists(s - {x});
      var k :| k in s - {x} && forall j :: j in s - {x} ==> j <= k;
      var m := if x > k then x else k;
      forall j | j in s
        ensures j <= m
      {
        assert j == x || j in s - {x};
      }
      assert m in s;
    }
  }

  function Highest(s: set<nat>): (k: nat)
    requires s != {}
    ensures k in s && forall j :: j in s ==> j <= k
  {
    HighestExists(s);
    var k :| k in s && forall j :: j in s ==> j <= k;
    k
  }

  /** The elements as std::set, or the keys as std::map, iterates over them. */
  function Sorted(s: set<nat>): seq<nat> {
    if s == {} then [] else Sorted(s - {Highest(s)}) + [Highest(s)]
  }

  lemma {:induction false} SortedFacts(s: set<nat>)
    ensures Ascending(Sorted(s)) && forall k :: k in Sorted(s) <==> k in s
  {
    if s != {} {
      var r := Sorted(s - {Highest(s)});
      SortedFacts(s - {Highest(s)});
      forall i | 0 <= i < |r|
        ensures r[i] < Highest(s)
      {
        assert r[i] in r;
      }
    }
  }

  ghost predicate IsEnd(r: Region, p: nat) {
    r.gpa == p || r.gpa + r.size == p
  }

  ghost predicate IsPoint(rs: seq<Region>, p: nat) {
    exists i :: 0 <= i < |rs| && IsEnd(rs[i], p)
  }

  /** Where the first `n` regions begin and end. */
  function PointsOf(rs: seq<Region>, n: nat): set<nat>
    requires n <= |rs|
  {
    if n == 0 then {} else PointsOf(rs, n - 1) + {rs[n - 1].gpa, rs[n - 1].gpa + rs[n - 1].size}
  }

  lemma {:induction false} PointsMembers(rs: seq<Region>, n: nat, p: nat)
    requires n <= |rs|
    ensures p in PointsOf(rs, n) <==> exists i :: 0 <= i < n && IsEnd(rs[i], p)
  {
    if n > 0 {
      PointsMembers(rs, n - 1, p);
    }
  }

  function Points(rs: seq<Region>): seq<nat> {
    Sorted(PointsOf(rs, |rs|))
  }

  lemma PointsFacts(rs: seq<Region>)
    ensures Ascending(Points(rs)) && forall p: nat :: p in Points(rs) <==> IsPoint(rs, p)
  {
    SortedFacts(PointsOf(rs, |rs|));
    forall p: nat
      ensures p in Points(rs) <==> IsPoint(rs, p)
    {
      PointsMembers(rs, |rs|, p);
    }
  }

  // ---------------------------------------------------------------- the view

  datatype Entry = Entry(key: nat, region: Region)

  function LastRegion(v: seq<Entry>): Option<Region> {
    if v == [] then None else Some(v[|v| - 1].region)
  }

  /** Entries ascend, and the region of each covers its key. */
  ghost predicate Ordered(v: seq<Entry>) {
    && (forall i, j :: 0 <= i < j < |v| ==> v[i].key < v[j].key)
    && (forall i :: 0 <= i < |v| ==> Covers(v[i].region, v[i].key))
  }

  /** The outer loop after the first `n` points. */
  function Build(rs: seq<Region>, ps: seq<nat>, n: nat): seq<Entry>
    requires n <= |ps|
  {
    if n == 0 then []
    else
      var v := Build(rs, ps, n - 1);
      var k := PickIndex(rs, |rs|, ps[n - 1], LastRegion(v));
      if k < 0 then v else v + [Entry(ps[n - 1], rs[k])]
  }

  lemma {:induction false} BuildFacts(rs: seq<Region>, ps: seq<nat>, n: nat)
    requires n <= |ps| && Ascending(ps)
    ensures Ordered(Build(rs, ps, n)) && forall i :: 0 <= i < |Build(rs, ps, n)| ==> Build(rs, ps, n)[i].region in rs
    ensures forall i :: 0 <= i < |Build(rs, ps, n)| && n < |ps| ==> Build(rs, ps, n)[i].key < ps[n]
  {
    if n > 0 {
      BuildFacts(rs, ps, n - 1);
    }
  }

  function View(rs: seq<Region>): seq<Entry> {
    Build(rs, Points(rs), |Points(rs)|)
  }

  /** Among the first `n` entries, the one in force at address `a`: the last that begins at or below it. */
  function LookupIndex(v: seq<Entry>, n: nat, a: nat): (k: int)
    requires n <= |v|
    ensures -1 <= k < n && (k >= 0 ==> v[k].key <= a) && forall i :: k < i < n ==> v[i].key > a
  {
    if n == 0 then -1
    else if v[n - 1].key <= a then n - 1
    else LookupIndex(v, n - 1, a)
  }

  function RegionAt(v: seq<Entry>, a: nat): Option<Region> {
    var k := LookupIndex(v, |v|, a);
    if k < 0 then None else Some(v[k].region)
  }

  /** Between two neighbouring points coverage does not change. */
  lemma TopBetween(rs: seq<Region>, p: nat, a: nat)
    requires p <= a && forall q: nat :: p < q <= a ==> !IsPoint(rs, q)
    ensures Top(rs, p) == Top(rs, a)
  {
    forall i | 0 <= i < |rs|
      ensures Covers(rs[i], p) <==> Covers(rs[i], a)
    {
      assert IsEnd(rs[i], rs[i].gpa) && IsEnd(rs[i], rs[i].gpa + rs[i].size);
      assert IsPoint(rs, rs[i].gpa) && IsPoint(rs, rs[i].gpa + rs[i].size);
    }
  }

  /** The view reaches the right region at every address that some region covers. */
  ghost predicate Correct(rs: seq<Region>, v: seq<Entry>) {
    forall a: nat :: Covered(rs, a) ==> RegionAt(v, a) == Top(rs, a)
  }

  /** An end point inside the top region, hidden by it on both sides, where a lower region shows through. */
  ghost predicate Shadowed(rs: seq<Region>, p: nat) {
    && IsPoint(rs, p) && p > 0 && Top(rs, p).Some? && Top(rs, p - 1) == Top(rs, p)
    && exists i :: 0 <= i < |rs| && Covers(rs[i], p) && Top(rs, p) != Some(rs[i])
  }

  /** Correct as far as the points before number `n` reach. */
  ghost predicate CorrectBefore(rs: seq<Region>, ps: seq<nat>, n: nat)
    requires n <= |ps|
  {
    forall a: nat :: Covered(rs, a) && (n < |ps| ==> a < ps[n]) ==> RegionAt(Build(rs, ps, n), a) == Top(rs, a)
  }

  /** A later entry does not show below its key. */
  lemma LookupBelow(v: seq<Entry>, e: Entry, a: nat)
    requires a < e.key && Ordered(v)
    ensures RegionAt(v + [e], a) == RegionAt(v, a)
  {
    var w := v + [e];
    var j, k := LookupIndex(v, |v|, a), LookupIndex(w, |w|, a);
    assert k < |v|;
    assert j >= 0 ==> w[j] == v[j];
    assert k >= 0 ==> w[k] == v[k];
  }

  /** At its `n`-th point the view picks the right region, unless the point is shadowed. */
  lemma PointIsRight(rs: seq<Region>, ps: seq<nat>, n: nat)
    requires n < |ps| && Ascending(ps) && CorrectBefore(rs, ps, n)
    requires IsPoint(rs, ps[n]) && !Shadowed(rs, ps[n]) && Covered(rs, ps[n])
    ensures LastRegion(Build(rs, ps, n + 1)) == Top(rs, ps[n])
  {
    var p, v := ps[n], Build(rs, ps, n);
    BuildFacts(rs, ps, n);
    if Top(rs, p) == LastRegion(v) {
      var e := v[|v| - 1];
      assert Covers(e.region, e.key) && Covers(e.region, p - 1);
      assert Covered(rs, p - 1);
      assert RegionAt(v, p - 1) == Some(e.region);
      assert Top(rs, p - 1) == Top(rs, p);
      assert PickIndex(rs, |rs|, p, LastRegion(v)) < 0;
    } else {
      PickIsTop(rs, p, LastRegion(v));
    }
  }

  /** What an address from the `n`-th point on shows. */
  lemma CorrectAt(rs: seq<Region>, ps: seq<nat>, n: nat, a: nat)
    requires n < |ps| && Ascending(ps) && (forall q :: q in ps <==> IsPoint(rs, q))
    requires CorrectBefore(rs, ps, n) && !Shadowed(rs, ps[n])
    requires Covered(rs, a) && ps[n] <= a && (n + 1 < |ps| ==> a < ps[n + 1])
    ensures RegionAt(Build(rs, ps, n + 1), a) == Top(rs, a)
  {
    var p := ps[n];
    assert forall k :: 0 <= k < |ps| ==> ps[k] <= p || ps[k] > a;
    assert forall q: nat :: p < q <= a ==> q !in ps;
    TopBetween(rs, p, a);
    CoveredByTop(rs, p);
    CoveredByTop(rs, a);
    PointIsRight(rs, ps, n);
    BuildFacts(rs, ps, n);
    var w := Build(rs, ps, n + 1);
    assert LookupIndex(w, |w|, a) == |w| - 1;
  }

  lemma CorrectNext(rs: seq<Region>, ps: seq<nat>, n: nat)
    requires n < |ps| && Ascending(ps) && (forall q :: q in ps <==> IsPoint(rs, q))
    requires CorrectBefore(rs, ps, n) && !Shadowed(rs, ps[n])
    ensures CorrectBefore(rs, ps, n + 1)
  {
    var w := Build(rs, ps, n + 1);
    forall a: nat | Covered(rs, a) && (n + 1 < |ps| ==> a < ps[n + 1])
      ensures RegionAt(w, a) == Top(rs, a)
    {
      if a >= ps[n] {
        CorrectAt(rs, ps, n, a);
      } else {
        RegionNext(rs, ps, n, a);
      }
    }
  }

  /** Nothing is covered below the first point. */
  lemma FirstPoint(rs: seq<Region>, ps: seq<nat>)
    requires Ascending(ps) && (forall q :: q in ps <==> IsPoint(rs, q))
    ensures CorrectBefore(rs, ps, 0)
  {
    forall a: nat | Covered(rs, a)
      ensures |ps| > 0 && a >= ps[0]
    {
      var i :| 0 <= i < |rs| && Covers(rs[i], a);
      assert IsEnd(rs[i], rs[i].gpa);
      assert IsPoint(rs, rs[i].gpa);
      var k :| 0 <= k < |ps| && ps[k] == rs[i].gpa;
    }
  }

  lemma {:induction false} CorrectUpTo(rs: seq<Region>, ps: seq<nat>, n: nat)
    requires n <= |ps| && Ascending(ps) && (forall q :: q in ps <==> IsPoint(rs, q)) && forall p: nat :: !Shadowed(rs, p)
    ensures CorrectBefore(rs, ps, n)
  {
    if n > 0 {
      CorrectUpTo(rs, ps, n - 1);
      CorrectNext(rs, ps, n - 1);
    } else {
      FirstPoint(rs, ps);
    }
  }

  /** One more point changes nothing below it. */
  lemma RegionNext(rs: seq<Region>, ps: seq<nat>, n: nat, a: nat)
    requires n < |ps| && Ascending(ps) && a < ps[n]
    ensures RegionAt(Build(rs, ps, n + 1), a) == RegionAt(Build(rs, ps, n), a)
  {
    var v := Build(rs, ps, n);
    BuildFacts(rs, ps, n);
    var k := PickIndex(rs, |rs|, ps[n], LastRegion(v));
    if k >= 0 {
      LookupBelow(v, Entry(ps[n], rs[k]), a);
    }
  }

  lemma {:induction false} RegionLater(rs: seq<Region>, ps: seq<nat>, n: nat, m: nat, a: nat)
    requires n <= m <= |ps| && Ascending(ps) && (n < |ps| ==> a < ps[n])
    ensures RegionAt(Build(rs, ps, m), a) == RegionAt(Build(rs, ps, n), a)
    decreases m - n
  {
    if n < m {
      assert n + 1 < |ps| ==> ps[n] < ps[n + 1];
      RegionLater(rs, ps, n + 1, m, a);
      RegionNext(rs, ps, n, a);
    }
  }

  /** A shadowed point is seen wrong. */
  lemma ShadowedIsWrong(rs: seq<Region>, ps: seq<nat>, n: nat)
    requires n < |ps| && Ascending(ps) && Shadowed(rs, ps[n])
    requires RegionAt(Build(rs, ps, |ps|), ps[n] - 1) == Top(rs, ps[n] - 1)
    ensures RegionAt(Build(rs, ps, |ps|), ps[n]) != Top(rs, ps[n])
  {
    var p, v := ps[n], Build(rs, ps, n);
    BuildFacts(rs, ps, n);
    RegionLater(rs, ps, n, |ps|, p - 1);
    RegionLater(rs, ps, n + 1, |ps|, p);
    assert LastRegion(v) == Top(rs, p);
    assert PickIndex(rs, |rs|, p, LastRegion(v)) >= 0;
  }

  lemma CorrectIsUnshadowed(rs: seq<Region>, p: nat)
    requires Correct(rs, View(rs))
    ensures !Shadowed(rs, p)
  {
    if Shadowed(rs, p) {
      var ps := Points(rs);
      PointsFacts(rs);
      assert p in ps;
      var n :| 0 <= n < |ps| && ps[n] == p;
      CoveredByTop(rs, p - 1);
      CoveredByTop(rs, p);
      ShadowedIsWrong(rs, ps, n);
    }
  }

  /** The view is right on every covered address exactly if no end point is shadowed. */
  lemma ViewCorrectIff(rs: seq<Region>)
    ensures Correct(rs, View(rs)) <==> forall p: nat :: !Shadowed(rs, p)
  {
    if forall p: nat :: !Shadowed(rs, p) {
      PointsFacts(rs);
      CorrectUpTo(rs, Points(rs), |Points(rs)|);
    }
    if Correct(rs, View(rs)) {
      forall p: nat
        ensures !Shadowed(rs, p)
      {
        CorrectIsUnshadowed(rs, p);
      }
    }
  }

  lemma CoveredByTop(rs: seq<Region>, a: nat)
    ensures Top(rs, a).Some? <==> Covered(rs, a)
  {
  }

  // ---------------------------------------------------------------- nesting

  ghost predicate InsideOrApart(later: Region, earlier: Region) {
    || (earlier.gpa <= later.gpa && later.gpa + later.size <= earlier.gpa + earlier.size)
    || later.gpa + later.size <= earlier.gpa
    || earlier.gpa + earlier.size <= later.gpa
  }

  /** No region is empty, and every region lies inside, or apart from, every region mapped before it. */
  ghost predicate Nested(rs: seq<Region>) {
    && (forall i :: 0 <= i < |rs| ==> rs[i].size > 0)
    && forall i, j :: 0 <= i < j < |rs| ==> InsideOrApart(rs[j], rs[i]) && rs[i] != rs[j]
  }

  /** Nested regions have no shadowed point: two neighbouring addresses with the same top region have
      no end point between them. */
  lemma NestedIsUnshadowed(rs: seq<Region>, p: nat)
    requires Nested(rs)
    ensures !Shadowed(rs, p)
  {
    if IsPoint(rs, p) && p > 0 && Top(rs, p).Some? {
      var i :| 0 <= i < |rs| && IsEnd(rs[i], p);
      var k, l := TopIndex(rs, |rs|, p), TopIndex(rs, |rs|, p - 1);
      assert l >= 0 ==> k != l;
      assert Top(rs, p - 1) != Top(rs, p);
    }
  }

  lemma NestedViewIsCorrect(rs: seq<Region>)
    requires Nested(rs)
    ensures Correct(rs, View(rs))
  {
    forall p: nat
      ensures !Shadowed(rs, p)
    {
      NestedIsUnshadowed(rs, p);
    }
    ViewCorrectIff(rs);
  }

  /** Three regions whose view is wrong: from 20 on, the second shows where the third, mapped later,
      covers it. */
  lemma ContinueShowsWrongRegion()
    ensures var a, q, r := Region(1, 0, 100, 0, Ram), Region(2, 20, 40, 1000, Ram), Region(3, 10, 80, 2000, Ram);
      !Correct([a, q, r], View([a, q, r])) && Top([a, q, r], 20) == Some(r)
  {
    var a, q, r := Region(1, 0, 100, 0, Ram), Region(2, 20, 40, 1000, Ram), Region(3, 10, 80, 2000, Ram);
    var rs := [a, q, r];
    assert Covers(rs[1], 20) && IsEnd(rs[1], 20);
    assert IsPoint(rs, 20);
    assert Top(rs, 20) == Some(rs[2]) == Top(rs, 19);
    assert Shadowed(rs, 20);
    ViewCorrectIff(rs);
  }
}
