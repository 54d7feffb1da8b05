/** An image that serves a list of requests: what the runs describe, carried out on the class. */
module Qcow2Server {
  import opened Common
  import opened HostFile
  import opened Qcow2Layout
  import opened Qcow2Meta
  import opened Qcow2State
  import opened Qcow2Disk
  import opened Qcow2Search
  import opened Qcow2Guest
  import opened Qcow2Flush
  import opened Qcow2Transfer
  import opened Qcow2Supply
  import opened Qcow2Image
  import opened Qcow2Runs

  datatype Request = Fetch(pos: nat, length: nat) | Store(pos: nat, bytes: seq<Byte>) | Sync

  /** Event `e` is request `q`, answered by `answer`. */
  ghost predicate Matches(h: Header, q: Request, answer: seq<Byte>, e: Event)
    requires h.Valid()
  {
    match q
    case Fetch(pos, length) => e == Read(pos, answer) && |answer| == Moved(h, pos, length)
    case Store(pos, bytes) => e == Write(pos, bytes[..Moved(h, pos, |bytes|)], 4 * Chunks(h, pos, |bytes|))
    case Sync => e == Flush
  }

  /** Free clusters that a request may use up. */
  ghost function Cost(h: Header, q: Request): nat
    requires h.Valid()
  {
    if q.Store? then 4 * Chunks(h, q.pos, |q.bytes|) else 0
  }

  ghost function Costs(h: Header, qs: seq<Request>): nat
    requires h.Valid()
  {
    if qs == [] then 0 else Costs(h, qs[..|qs| - 1]) + Cost(h, qs[|qs| - 1])
  }

  lemma {:induction false} CostsPrefix(h: Header, qs: seq<Request>, i: nat)
    requires h.Valid() && i < |qs|
    ensures Costs(h, qs[..i + 1]) == Costs(h, qs[..i]) + Cost(h, qs[i]) <= Costs(h, qs)
    decreases |qs| - i
  {
    assert qs[..i + 1][..i] == qs[..i];
    if i + 1 < |qs| {
      CostsPrefix(h, qs, i + 1);
    } else {
      assert qs[..i + 1] == qs;
    }
  }

  /** The flat array after the stores among the requests. */
  ghost function Array(h: Header, d: Flat, qs: seq<Request>): Flat
    requires h.Valid()
  {
    if qs == [] then d
    else
      var before, q := Array(h, d, qs[..|qs| - 1]), qs[|qs| - 1];
      if q.Store? then
        var n := Moved(h, q.pos, |q.bytes|);
        (p: nat) => if q.pos <= p < q.pos + n then q.bytes[p - q.pos] else before(p)
      else before
  }

  lemma {:induction false} ArrayIsAfter(h: Header, d: Flat, qs: seq<Request>, answers: seq<seq<Byte>>, events: seq<Event>, p: nat)
    requires h.Valid() && |qs| == |answers| == |events| && forall i :: 0 <= i < |qs| ==> Matches(h, qs[i], answers[i], events[i])
    ensures Array(h, d, qs)(p) == After(d, events)(p)
  {
    if qs != [] {
      var n := |qs| - 1;
      ArrayIsAfter(h, d, qs[..n], answers[..n], events[..n], p);
      assert Matches(h, qs[n], answers[n], events[n]);
    }
  }

  // ---------------------------------------------------------------- room

  lemma CalmRoom(h: Header, s: Img, t: Img)
    requires Holds(Calm(h, s, t))
    ensures View(h, t).room == View(h, s).room
  {
    OpenClaim(Calm(h, s, t));
    ViewIs(h, s);
    ViewIs(h, t);
  }

  lemma FlushRoom(h: Header, s: Img, t: Img)
    requires Flushing(h, s, t)
    ensures View(h, t).room == View(h, s).room
  {
    OpenFlush(h, s, t);
    ViewIs(h, s);
    ViewIs(h, t);
  }

  // ---------------------------------------------------------------- supply

  /** The guest clusters that a request writes. */
  ghost function Target(h: Header, q: Request): set<nat>
    requires h.Valid()
  {
    if q.Store? then Clusters(h, q.pos, Moved(h, q.pos, |q.bytes|)) else {}
  }

  ghost function Targets(h: Header, qs: seq<Request>): set<nat>
    requires h.Valid()
  {
    if qs == [] then {} else Targets(h, qs[..|qs| - 1]) + Target(h, qs[|qs| - 1])
  }

  lemma {:induction false} TargetsPrefix(h: Header, qs: seq<Request>, i: nat)
    requires h.Valid() && i < |qs|
    ensures Targets(h, qs[..i + 1]) == Targets(h, qs[..i]) + Target(h, qs[i]) <= Targets(h, qs)
    decreases |qs| - i
  {
    assert qs[..i + 1][..i] == qs[..i];
    if i + 1 < |qs| {
      TargetsPrefix(h, qs, i + 1);
    } else {
      assert qs[..i + 1] == qs;
    }
  }

  /** The next request was served, or its allocations were too many. */
  lemma NextTarget(h: Header, s: Img, t: Img, u: Img, qs: seq<Request>, i: nat, ok: bool)
    requires h.Valid() && i < |qs| && Supplied(h, s, t, Targets(h, qs[..i]))
    requires if ok then Supplied(h, t, u, Target(h, qs[i])) else !Affords(h, t, Target(h, qs[i]))
    ensures if ok then Supplied(h, s, u, Targets(h, qs[..i + 1])) else !Affords(h, s, Targets(h, qs))
  {
    TargetsPrefix(h, qs, i);
    if ok {
      SuppliedJoin(h, s, t, u, Targets(h, qs[..i]), Target(h, qs[i]));
    } else {
      TooMany(h, s, t, Targets(h, qs[..i]), Target(h, qs[i]), Targets(h, qs));
    }
  }

  /** Requests that store into host clusters that are there can always be served. */
  lemma {:induction false} StoresAreFree(h: Header, s: Img, qs: seq<Request>)
    requires Holds(Idle(h, s)) && h.Valid()
    requires forall i :: 0 <= i < |qs| && qs[i].Store? ==> AllHad(h, s, qs[i].pos, Moved(h, qs[i].pos, |qs[i].bytes|))
    ensures forall g :: g in Targets(h, qs) ==> View(h, s).data(g) != 0
    ensures Affords(h, s, Targets(h, qs))
  {
    if qs != [] {
      StoresAreFree(h, s, qs[..|qs| - 1]);
      var q := qs[|qs| - 1];
      forall g | g in Target(h, q)
        ensures View(h, s).data(g) != 0
      {
        var p: nat :| q.pos <= p < q.pos + Moved(h, q.pos, |q.bytes|) && Quot(p, h.clusterSize) == g;
        OpenHas(h, s, p);
      }
    }
    OverwritesAreFree(h, s, Targets(h, qs));
  }

  // ---------------------------------------------------------------- serving

  /** One request; false when a write found no cluster. */
  method ServeOne(image: Qcow2Image, q: Request) returns (ok: bool, answer: seq<Byte>, ghost e: Event)
    requires image.Serves() && !image.readonly
    modifies image.Repr
    ensures image.Chained() && image.Below() == old(image.Below()) && ChainValid(image.Below())
    ensures ok ==> image.Serves() && Matches(image.h, q, answer, e)
    ensures ok ==> Step(image.h, old(image.S()), image.S(), image.Below(), e)
    ensures ok ==> View(image.h, image.S()).room + Cost(image.h, q) >= View(image.h, old(image.S())).room
    ensures View(image.h, old(image.S())).room >= Cost(image.h, q) ==> ok
    ensures if ok then Supplied(image.h, old(image.S()), image.S(), Target(image.h, q)) else !Affords(image.h, old(image.S()), Target(image.h, q))
  {
    ghost var s := image.S();
    image.ChainIsValid();
    answer := [];
    match q {
      case Fetch(pos, length) =>
        answer := image.BlockRead(pos, length);
        ok, e := true, Read(pos, answer);
        CalmRoom(image.h, s, image.S());
        CalmSupply(image.h, s, image.S());
      case Store(pos, bytes) =>
        ok, e := StoreBytes(image, pos, bytes);
      case Sync =>
        image.FlushAll();
        ok, e := true, Flush;
        FlushRoom(image.h, s, image.S());
        FlushSupply(image.h, s, image.S());
    }
  }

  method StoreBytes(image: Qcow2Image, pos: nat, bytes: seq<Byte>) returns (ok: bool, ghost e: Event)
    requires image.Serves() && !image.readonly && ChainValid(image.Below())
    modifies image.Repr
    ensures image.Chained() && image.Below() == old(image.Below())
    ensures ok ==> image.Serves() && Matches(image.h, Store(pos, bytes), [], e)
    ensures ok ==> Step(image.h, old(image.S()), image.S(), image.Below(), e)
    ensures ok ==> View(image.h, image.S()).room + 4 * Chunks(image.h, pos, |bytes|) >= View(image.h, old(image.S())).room
    ensures View(image.h, old(image.S())).room >= 4 * Chunks(image.h, pos, |bytes|) ==> ok
    ensures if ok then Supplied(image.h, old(image.S()), image.S(), Clusters(image.h, pos, Moved(image.h, pos, |bytes|)))
            else !Affords(image.h, old(image.S()), Clusters(image.h, pos, Moved(image.h, pos, |bytes|)))
  {
    ghost var s := image.S();
    ghost var n, cost;
    var r;
    r, n, cost := image.BlockWrite(pos, bytes);
    ok := r.Bytes?;
    e := Write(pos, bytes[..n], cost);
    if ok {
      WriteFacts(image.h, s, image.S(), image.Below(), pos, bytes[..n], cost);
    }
  }

  /** What was served so far: a run of the image whose events are the requests. */
  ghost predicate Served(h: Header, below: seq<Layer>, qs: seq<Request>, i: nat, answers: seq<seq<Byte>>, states: seq<Img>, events: seq<Event>) {
    && h.Valid() && ChainValid(below) && i <= |qs| && |answers| == |events| == i && Run(h, below, states, events)
    && forall k :: 0 <= k < i ==> Matches(h, qs[k], answers[k], events[k])
  }

  lemma ServedOne(h: Header, below: seq<Layer>, qs: seq<Request>, i: nat, answers: seq<seq<Byte>>, states: seq<Img>, events: seq<Event>,
                  answer: seq<Byte>, t: Img, e: Event)
    requires Served(h, below, qs, i, answers, states, events) && i < |qs|
    requires Step(h, states[i], t, below, e) && Matches(h, qs[i], answer, e)
    ensures Served(h, below, qs, i + 1, answers + [answer], states + [t], events + [e])
  {
    var ss, es, xs := states + [t], events + [e], answers + [answer];
    forall k | 0 <= k < |es|
      ensures Step(h, ss[k], ss[k + 1], below, es[k])
    {
      if k < i {
        assert Step(h, states[k], states[k + 1], below, events[k]);
      }
    }
    forall k | 0 <= k < i + 1
      ensures Matches(h, qs[k], xs[k], es[k])
    {
      if k < i {
        assert Matches(h, qs[k], answers[k], events[k]);
      }
    }
  }

  lemma ServedNone(h: Header, below: seq<Layer>, qs: seq<Request>, s: Img)
    requires h.Valid() && ChainValid(below) && Holds(Idle(h, s))
    ensures Served(h, below, qs, 0, [], [s], [])
  {
  }

  /** The answers, and the disk at the end, are those of the flat array. */
  ghost predicate AsArray(h: Header, s: Img, t: Img, below: seq<Layer>, qs: seq<Request>, answers: seq<seq<Byte>>)
    requires h.Valid()
  {
    var d := (p: nat) => FlatByte(h, s, below, p);
    && |answers| == |qs|
    && (forall p: nat :: FlatByte(h, t, below, p) == Array(h, d, qs)(p))
    && (forall i: nat, k: nat :: i < |qs| && qs[i].Fetch? && k < |answers[i]| ==>
          answers[i][k] == Array(h, d, qs[..i])(qs[i].pos + k))
    && (forall i: nat :: i < |qs| && qs[i].Fetch? ==> |answers[i]| == Moved(h, qs[i].pos, qs[i].length))
  }

  lemma ServedIsArray(h: Header, below: seq<Layer>, qs: seq<Request>, answers: seq<seq<Byte>>, states: seq<Img>, events: seq<Event>)
    requires Served(h, below, qs, |qs|, answers, states, events) && View(h, states[0]).clear
    ensures AsArray(h, states[0], states[|qs|], below, qs, answers)
  {
    var d := (p: nat) => FlatByte(h, states[0], below, p);
    forall k | 0 <= k < |events|
      ensures !events[k].Discard?
    {
      assert Matches(h, qs[k], answers[k], events[k]);
    }
    RunRefinesFlatArray(h, below, states, events, d);
    forall p: nat
      ensures FlatByte(h, states[|qs|], below, p) == Array(h, d, qs)(p)
    {
      ArrayIsAfter(h, d, qs, answers, events, p);
    }
    forall i: nat, k: nat | i < |qs| && qs[i].Fetch? && k < |answers[i]|
      ensures answers[i][k] == Array(h, d, qs[..i])(qs[i].pos + k)
    {
      assert Matches(h, qs[i], answers[i], events[i]);
      assert events[i].Read?;
      ArrayIsAfter(h, d, qs[..i], answers[..i], events[..i], qs[i].pos + k);
    }
    forall i: nat | i < |qs| && qs[i].Fetch?
      ensures |answers[i]| == Moved(h, qs[i].pos, qs[i].length)
    {
      assert Matches(h, qs[i], answers[i], events[i]);
    }
  }

  /** Serves the requests in order. It succeeds exactly if the allocations for all that is stored, one for
      each guest cluster without a host cluster and one for each missing L2 table, find clusters; from
      an image whose free clusters are zero, the answers and the disk at the end are those of a flat
      array. */
  method Serve(image: Qcow2Image, qs: seq<Request>) returns (ok: bool, answers: seq<seq<Byte>>)
    requires image.Serves() && !image.readonly
    modifies image.Repr
    ensures image.Chained() && image.Below() == old(image.Below())
    ensures ok ==> image.Serves()
    ensures ok && View(image.h, old(image.S())).clear ==> AsArray(image.h, old(image.S()), image.S(), image.Below(), qs, answers)
    ensures View(image.h, old(image.S())).room >= Costs(image.h, qs) ==> ok
    ensures ok <==> Affords(image.h, old(image.S()), Targets(image.h, qs))
  {
    ghost var s, below := image.S(), image.Below();
    image.ChainIsValid();
    ghost var states, events := [s], [];
    ok, answers := true, [];
    ServedNone(image.h, below, qs, s);
    SupplyStarts(image.h, s, 0);
    assert Clusters(image.h, 0, 0) == {};
    var i := 0;
    while i < |qs|
      invariant i <= |qs| && ok && image.Serves() && image.Below() == below
      invariant Served(image.h, below, qs, i, answers, states, events) && states[0] == s && states[i] == image.S()
      invariant View(image.h, image.S()).room + Costs(image.h, qs[..i]) >= View(image.h, s).room
      invariant Supplied(image.h, s, image.S(), Targets(image.h, qs[..i]))
    {
      ghost var t := image.S();
      CostsPrefix(image.h, qs, i);
      var answer;
      ghost var e;
      ok, answer, e := ServeOne(image, qs[i]);
      NextTarget(image.h, s, t, image.S(), qs, i, ok);
      if !ok {
        return;
      }
      ServedOne(image.h, below, qs, i, answers, states, events, answer, image.S(), e);
      answers, states, events := answers + [answer], states + [image.S()], events + [e];
      i := i + 1;
    }
    assert qs[..i] == qs;
    SuppliedWasAfforded(image.h, s, image.S(), Targets(image.h, qs));
    if View(image.h, s).clear {
      ServedIsArray(image.h, below, qs, answers, states, events);
    }
  }
}
