/** Two machines that migrate: a source that sends messages and waits for signals, a target that reads
    messages by tag and sends signals, one FIFO channel each way, and every interleaving of their
    steps. The two sides are deterministic and only meet at the channels, so one run that ends decides
    how every run ends.
 */
module Handshake {
  import opened Common
  import opened MigrationStream
  import Confluence

  datatype Signal =
    | BackingImageComplete | RamComplete | ImageComplete | DirtyMemoryFromKvmComplete
    | DirtyMemoryFromListenerComplete | DeviceComplete | DirtyMemoryFromDmaComplete | VcpuComplete | Complete

  datatype SourceOp = Send(m: Message) | Await(s: Signal)

  /** `Loop` reads descriptors, and a body after each one that does not close the loop. */
  datatype TargetOp = Recv(tag: string) | Loop(descriptor: string, body: string) | Tell(s: Signal)

  /** `failed`: the source received another signal than it waited for. */
  datatype State = State(
    script: seq<SourceOp>,
    failed: bool,
    prog: seq<TargetOp>,
    wire: seq<Message>,
    cache: Cache,
    signals: seq<Signal>,
    log: seq<Message>)

  /** Which descriptors close a loop: the parsed field that says so. */
  type Closing = Message -> bool

  // ---------------------------------------------------------------- steps

  function SourceNext(s: State): Option<State> {
    if s.failed || s.script == [] then None
    else match s.script[0]
      case Send(m) => Some(s.(script := s.script[1..], wire := s.wire + [m]))
      case Await(x) =>
        if s.signals == [] then None
        else if s.signals[0] == x then Some(s.(script := s.script[1..], signals := s.signals[1..]))
        else Some(s.(failed := true))
  }

  /** The tag the target is about to read. */
  function Wanted(op: TargetOp): string
    requires !op.Tell?
  {
    if op.Recv? then op.tag else op.descriptor
  }

  /** What is left to do after the message was read. */
  function Rest(closes: Closing, prog: seq<TargetOp>, m: Message): seq<TargetOp>
    requires prog != []
  {
    if prog[0].Loop? && !closes(m) then [Recv(prog[0].body)] + prog else prog[1..]
  }

  function Pop(c: Cache, t: string): Cache
    requires t in c && c[t] != []
  {
    if |c[t]| == 1 then c - {t} else c[t := c[t][1..]]
  }

  function TargetNext(closes: Closing, s: State): Option<State> {
    if s.prog == [] then None
    else if s.prog[0].Tell? then Some(s.(prog := s.prog[1..], signals := s.signals + [s.prog[0].s]))
    else
      var t := Wanted(s.prog[0]);
      if t in s.cache then
        if s.cache[t] == [] then None
        else Some(s.(prog := Rest(closes, s.prog, s.cache[t][0]), cache := Pop(s.cache, t), log := s.log + [s.cache[t][0]]))
      else if s.wire == [] then None
      else if s.wire[0].tag == t then
        Some(s.(prog := Rest(closes, s.prog, s.wire[0]), wire := s.wire[1..], log := s.log + [s.wire[0]]))
      else Some(s.(wire := s.wire[1..], cache := Push(s.cache, s.wire[0])))
  }

  /** The target as a process. */
  function Target(closes: Closing): Confluence.Process<State> {
    (s: State) => TargetNext(closes, s)
  }

  ghost predicate Stuck(closes: Closing, s: State) {
    Confluence.Terminal(SourceNext, Target(closes), s)
  }

  /** A step of one side neither disables nor changes a step of the other. */
  lemma Diamond(closes: Closing, s: State)
    requires SourceNext(s).Some? && TargetNext(closes, s).Some?
    ensures TargetNext(closes, SourceNext(s).value).Some?
    ensures TargetNext(closes, SourceNext(s).value) == SourceNext(TargetNext(closes, s).value)
  {
    var a, b := SourceNext(s).value, TargetNext(closes, s).value;
    match s.script[0]
    case Send(m) =>
      assert s.wire != [] ==> a.wire[0] == s.wire[0] && a.wire[1..] == s.wire[1..] + [m];
    case Await(x) =>
      assert b.signals[0] == s.signals[0];
      if s.prog[0].Tell? {
        assert b.signals[1..] == s.signals[1..] + [s.prog[0].s];
      }
  }

  lemma SidesCommute(closes: Closing)
    ensures Confluence.Commute(SourceNext, Target(closes))
  {
    forall s | SourceNext(s).Some? && Target(closes)(s).Some?
      ensures Target(closes)(SourceNext(s).value).Some?
      ensures Target(closes)(SourceNext(s).value) == SourceNext(Target(closes)(s).value)
    {
      Diamond(closes, s);
    }
  }

  /** Some run leads from `s` to `t`. */
  ghost predicate Leads(closes: Closing, s: State, t: State) {
    Confluence.Leads(SourceNext, Target(closes), s, t)
  }

  lemma LeadsOn(closes: Closing, s: State, t: State, u: State)
    requires Leads(closes, s, t) && Leads(closes, t, u)
    ensures Leads(closes, s, u)
  {
    Confluence.LeadsOn(SourceNext, Target(closes), s, t, u);
  }

  lemma LeadsByOne(closes: Closing, s: State, t: State)
    requires SourceNext(s) == Some(t) || TargetNext(closes, s) == Some(t)
    ensures Leads(closes, s, t)
  {
    Confluence.LeadsByOne(SourceNext, Target(closes), s, t);
  }

  lemma LeadsNowhere(closes: Closing, s: State)
    ensures Leads(closes, s, s)
  {
    Confluence.LeadsNowhere(SourceNext, Target(closes), s);
  }

  // ---------------------------------------------------------------- what a program eats

  /** `pend` without its first message of tag `t`. */
  function Without(pend: seq<Message>, t: string): (r: seq<Message>)
    requires Only(pend, t) != []
    ensures |r| == |pend| - 1
  {
    if pend[0].tag == t then pend[1..] else [pend[0]] + Without(pend[1..], t)
  }

  lemma {:induction false} OnlyWithout(pend: seq<Message>, t: string, u: string)
    requires Only(pend, t) != []
    ensures Only(Without(pend, t), u) == if u == t then Only(pend, t)[1..] else Only(pend, u)
  {
    if pend[0].tag != t {
      OnlyWithout(pend[1..], t, u);
      assert ([pend[0]] + Without(pend[1..], t))[1..] == Without(pend[1..], t);
    }
  }

  /** What reading by tag leaves of the pending messages; None when a message is missing. */
  function Eat(closes: Closing, ops: seq<TargetOp>, pend: seq<Message>): Option<seq<Message>>
    requires Silent(ops)
    decreases |pend|
  {
    if ops == [] then Some(pend)
    else
      var t := Wanted(ops[0]);
      if Only(pend, t) == [] then None
      else Eat(closes, Rest(closes, ops, Only(pend, t)[0]), Without(pend, t))
  }

  ghost predicate Silent(ops: seq<TargetOp>) {
    forall i :: 0 <= i < |ops| ==> !ops[i].Tell?
  }

  /** The cache and the wire together hold `pend`, tag by tag. */
  ghost predicate Stored(s: State, pend: seq<Message>) {
    Tidy(s.cache) && forall t :: Pending(s.cache, s.wire, t) == Only(pend, t)
  }

  /** Only the target moved. */
  ghost predicate TargetMoved(s: State, t: State) {
    t == s.(prog := t.prog, wire := t.wire, cache := t.cache, log := t.log)
  }

  /** The target, wanting tag `t` at the head of its program, with the message somewhere in store. */
  lemma {:induction false} TargetReads(closes: Closing, s: State, pend: seq<Message>) returns (r: State)
    requires s.prog != [] && !s.prog[0].Tell? && Stored(s, pend) && Only(pend, Wanted(s.prog[0])) != []
    ensures Leads(closes, s, r) && TargetMoved(s, r) && Stored(r, Without(pend, Wanted(s.prog[0])))
    ensures r.prog == Rest(closes, s.prog, Only(pend, Wanted(s.prog[0]))[0])
    decreases |s.wire|
  {
    var t := Wanted(s.prog[0]);
    assert Pending(s.cache, s.wire, t) == Only(pend, t);
    r := TargetNext(closes, s).value;
    LeadsByOne(closes, s, r);
    if t in s.cache || s.wire[0].tag == t {
      ReadIsStored(s, r, pend, t, closes);
    } else {
      forall u
        ensures Pending(r.cache, r.wire, u) == Only(pend, u)
      {
        PushKeepsPending(s.cache, s.wire, u);
        assert Pending(s.cache, s.wire, u) == Only(pend, u);
      }
      PushIsTidy(s.cache, s.wire[0]);
      var q := TargetReads(closes, r, pend);
      LeadsOn(closes, s, r, q);
      r := q;
    }
  }

  /** The message comes from the cache, or from the front of the wire: what is pending by tag `u`. */
  lemma PoppedPending(c: Cache, wire: seq<Message>, t: string, u: string)
    requires t in c && c[t] != []
    ensures Pending(Pop(c, t), wire, u) == if u == t then Pending(c, wire, t)[1..] else Pending(c, wire, u)
    ensures Tidy(c) ==> Tidy(Pop(c, t))
  {
  }

  lemma TakenPending(c: Cache, wire: seq<Message>, t: string, u: string)
    requires t !in c && wire != [] && wire[0].tag == t
    ensures Pending(c, wire[1..], u) == if u == t then Pending(c, wire, t)[1..] else Pending(c, wire, u)
  {
  }

  lemma ReadIsStored(s: State, r: State, pend: seq<Message>, t: string, closes: Closing)
    requires s.prog != [] && !s.prog[0].Tell? && Wanted(s.prog[0]) == t && Stored(s, pend) && Only(pend, t) != []
    requires TargetNext(closes, s) == Some(r) && (t in s.cache || (s.wire != [] && s.wire[0].tag == t))
    ensures Stored(r, Without(pend, t)) && r.prog == Rest(closes, s.prog, Only(pend, t)[0])
  {
    assert Pending(s.cache, s.wire, t) == Only(pend, t);
    forall u
      ensures Pending(r.cache, r.wire, u) == Only(Without(pend, t), u)
    {
      assert Pending(s.cache, s.wire, u) == Only(pend, u);
      OnlyWithout(pend, t, u);
      if t in s.cache {
        PoppedPending(s.cache, s.wire, t, u);
      } else {
        TakenPending(s.cache, s.wire, t, u);
      }
    }
    if t in s.cache {
      PoppedPending(s.cache, s.wire, t, t);
    }
  }

  lemma RestOfJoined(closes: Closing, ops: seq<TargetOp>, more: seq<TargetOp>, m: Message)
    requires ops != [] && Silent(ops)
    ensures Rest(closes, ops + more, m) == Rest(closes, ops, m) + more && Silent(Rest(closes, ops, m))
  {
  }

  /** A program whose messages are all in store runs to its end. */
  lemma {:induction false} TargetEats(closes: Closing, s: State, ops: seq<TargetOp>, more: seq<TargetOp>, pend: seq<Message>) returns (r: State)
    requires s.prog == ops + more && Silent(ops) && Stored(s, pend) && Eat(closes, ops, pend).Some?
    ensures Leads(closes, s, r) && TargetMoved(s, r) && r.prog == more && Stored(r, Eat(closes, ops, pend).value)
    decreases |pend|
  {
    if ops == [] {
      LeadsNowhere(closes, s);
      r := s;
    } else {
      var t := Wanted(ops[0]);
      var q := TargetReads(closes, s, pend);
      RestOfJoined(closes, ops, more, Only(pend, t)[0]);
      r := TargetEats(closes, q, Rest(closes, ops, Only(pend, t)[0]), more, Without(pend, t));
      LeadsOn(closes, s, q, r);
    }
  }

  /** The target, wanting a message that is nowhere, caches what there is and waits. */
  lemma {:induction false} TargetWaits(closes: Closing, s: State, pend: seq<Message>) returns (r: State)
    requires s.prog != [] && !s.prog[0].Tell? && Stored(s, pend) && Only(pend, Wanted(s.prog[0])) == []
    ensures Leads(closes, s, r) && TargetMoved(s, r) && r.prog == s.prog && TargetNext(closes, r) == None
    decreases |s.wire|
  {
    var t := Wanted(s.prog[0]);
    assert Pending(s.cache, s.wire, t) == Only(pend, t);
    if s.wire == [] {
      LeadsNowhere(closes, s);
      r := s;
    } else {
      r := TargetNext(closes, s).value;
      LeadsByOne(closes, s, r);
      forall u
        ensures Pending(r.cache, r.wire, u) == Only(pend, u)
      {
        PushKeepsPending(s.cache, s.wire, u);
        assert Pending(s.cache, s.wire, u) == Only(pend, u);
      }
      PushIsTidy(s.cache, s.wire[0]);
      var q := TargetWaits(closes, r, pend);
      LeadsOn(closes, s, r, q);
      r := q;
    }
  }

  /** A program that lacks a message ends up waiting for it. */
  lemma {:induction false} TargetStarves(closes: Closing, s: State, ops: seq<TargetOp>, more: seq<TargetOp>, pend: seq<Message>) returns (r: State)
    requires s.prog == ops + more && Silent(ops) && Stored(s, pend) && Eat(closes, ops, pend) == None
    ensures Leads(closes, s, r) && TargetMoved(s, r) && r.prog != [] && TargetNext(closes, r) == None
    decreases |pend|
  {
    var t := Wanted(ops[0]);
    if Only(pend, t) == [] {
      r := TargetWaits(closes, s, pend);
    } else {
      var q := TargetReads(closes, s, pend);
      RestOfJoined(closes, ops, more, Only(pend, t)[0]);
      r := TargetStarves(closes, q, Rest(closes, ops, Only(pend, t)[0]), more, Without(pend, t));
      LeadsOn(closes, s, q, r);
    }
  }

  // ---------------------------------------------------------------- phases

  function Sends(ms: seq<Message>): seq<SourceOp> {
    seq(|ms|, i requires 0 <= i < |ms| => Send(ms[i]))
  }

  lemma {:induction false} SourceSends(closes: Closing, s: State, ms: seq<Message>, more: seq<SourceOp>)
    requires s.script == Sends(ms) + more && !s.failed
    ensures Leads(closes, s, s.(script := more, wire := s.wire + ms))
    decreases |ms|
  {
    if ms == [] {
      assert s.script == more && s.wire + ms == s.wire;
      LeadsNowhere(closes, s);
    } else {
      var t := SourceNext(s).value;
      LeadsByOne(closes, s, t);
      assert s.script[1..] == Sends(ms[1..]) + more;
      SourceSends(closes, t, ms[1..], more);
      assert s.wire + [ms[0]] + ms[1..] == s.wire + ms;
      LeadsOn(closes, s, t, s.(script := more, wire := s.wire + ms));
    }
  }

  /** Nothing is under way, and the cache is empty. */
  ghost predicate Quiet(s: State) {
    !s.failed && s.wire == [] && s.cache == map[] && s.signals == []
  }

  lemma {:induction false} StoredNothing(s: State)
    requires Stored(s, [])
    ensures s.wire == [] && s.cache == map[]
  {
    assert s.wire != [] ==> Pending(s.cache, s.wire, s.wire[0].tag) == [];
    if s.wire != [] {
      FirstIsPending(s.wire);
    }
    forall t
      ensures t !in s.cache
    {
      assert Pending(s.cache, s.wire, t) == [];
    }
    assert s.cache.Keys == {};
  }

  /** The source sends `ms`; the target, at `ops`, has them in store. */
  lemma Delivered(closes: Closing, s: State, ms: seq<Message>, script: seq<SourceOp>) returns (r: State)
    requires Quiet(s) && s.script == Sends(ms) + script
    ensures Leads(closes, s, r) && r == s.(script := script, wire := ms) && Stored(r, ms)
  {
    SourceSends(closes, s, ms, script);
    r := s.(script := script, wire := s.wire + ms);
    assert s.wire + ms == ms;
    assert Tidy(r.cache);
    forall t
      ensures Pending(r.cache, r.wire, t) == Only(ms, t)
    {
    }
  }

  /** The target signals what the source waits for. */
  lemma Signalled(closes: Closing, s: State, x: Signal, script: seq<SourceOp>, prog: seq<TargetOp>) returns (r: State)
    requires s.signals == [] && !s.failed && s.script == [Await(x)] + script && s.prog == [Tell(x)] + prog
    ensures Leads(closes, s, r) && r == s.(script := script, prog := prog)
  {
    var t := TargetNext(closes, s).value;
    LeadsByOne(closes, s, t);
    r := SourceNext(t).value;
    LeadsByOne(closes, t, r);
    LeadsOn(closes, s, t, r);
    assert [x][1..] == [];
  }

  /** One phase: messages, a program that eats them all, and the signal that it did. */
  lemma Phase(closes: Closing, s: State, ms: seq<Message>, ops: seq<TargetOp>, x: Signal, script: seq<SourceOp>, prog: seq<TargetOp>) returns (r: State)
    requires Quiet(s) && s.script == Sends(ms) + ([Await(x)] + script) && s.prog == ops + ([Tell(x)] + prog)
    requires Silent(ops) && Eat(closes, ops, ms) == Some([])
    ensures Leads(closes, s, r) && Quiet(r) && r.script == script && r.prog == prog
  {
    var a := Delivered(closes, s, ms, [Await(x)] + script);
    var b := TargetEats(closes, a, ops, [Tell(x)] + prog, ms);
    LeadsOn(closes, s, a, b);
    StoredNothing(b);
    r := Signalled(closes, b, x, script, prog);
    LeadsOn(closes, s, b, r);
  }

  /** A phase whose program lacks a message: both sides wait for ever. */
  lemma PhaseHangs(closes: Closing, s: State, ms: seq<Message>, ops: seq<TargetOp>, x: Signal, script: seq<SourceOp>, prog: seq<TargetOp>) returns (r: State)
    requires Quiet(s) && s.script == Sends(ms) + ([Await(x)] + script) && s.prog == ops + prog
    requires Silent(ops) && Eat(closes, ops, ms) == None
    ensures Leads(closes, s, r) && Stuck(closes, r) && r.script == [Await(x)] + script && r.prog != []
  {
    var a := Delivered(closes, s, ms, [Await(x)] + script);
    r := TargetStarves(closes, a, ops, prog, ms);
    LeadsOn(closes, s, a, r);
  }

  // ---------------------------------------------------------------- conservation

  function SentBy(script: seq<SourceOp>): seq<Message> {
    if script == [] then []
    else (if script[0].Send? then [script[0].m] else []) + SentBy(script[1..])
  }

  lemma {:induction false} SentByJoin(a: seq<SourceOp>, b: seq<SourceOp>)
    ensures SentBy(a + b) == SentBy(a) + SentBy(b)
  {
    if a == [] {
      assert a + b == b;
    } else {
      SentByJoin(a[1..], b);
      SentByFirst(a + b, a[0], a[1..] + b);
      SentByFirst(a, a[0], a[1..]);
      Regroup(if a[0].Send? then [a[0].m] else [], SentBy(a[1..]), SentBy(b));
    }
  }

  lemma SentByFirst(script: seq<SourceOp>, op: SourceOp, rest: seq<SourceOp>)
    requires script == [op] + rest
    ensures SentBy(script) == (if op.Send? then [op.m] else []) + SentBy(rest)
    ensures op.Await? ==> SentBy(script) == SentBy(rest)
  {
    assert script[1..] == rest;
  }

  lemma {:induction false} SentBySends(ms: seq<Message>)
    ensures SentBy(Sends(ms)) == ms
  {
    if ms != [] {
      assert Sends(ms)[1..] == Sends(ms[1..]);
      SentBySends(ms[1..]);
    }
  }

  /** A phase of a script: messages, a signal to wait for, and the rest. */
  lemma PhaseSends(ms: seq<Message>, g: Signal, more: seq<SourceOp>, t: string)
    ensures Only(SentBy(Sends(ms) + ([Await(g)] + more)), t) == Only(ms, t) + Only(SentBy(more), t)
  {
    SentByJoin(Sends(ms), [Await(g)] + more);
    SentBySends(ms);
    SentByFirst([Await(g)] + more, Await(g), more);
    OnlyJoin(ms, SentBy(more), t);
  }

  /** The signals that a script waits for, and that a program sends, in order. */
  function Awaits(script: seq<SourceOp>): seq<Signal> {
    if script == [] then [] else (if script[0].Await? then [script[0].s] else []) + Awaits(script[1..])
  }

  function Tells(prog: seq<TargetOp>): seq<Signal> {
    if prog == [] then [] else (if prog[0].Tell? then [prog[0].s] else []) + Tells(prog[1..])
  }

  lemma {:induction false} AwaitsOfSends(ms: seq<Message>, g: Signal, more: seq<SourceOp>)
    ensures Awaits(Sends(ms) + ([Await(g)] + more)) == [g] + Awaits(more)
  {
    if ms == [] {
      assert Sends(ms) + ([Await(g)] + more) == [Await(g)] + more;
      assert ([Await(g)] + more)[1..] == more;
    } else {
      assert (Sends(ms) + ([Await(g)] + more))[1..] == Sends(ms[1..]) + ([Await(g)] + more);
      AwaitsOfSends(ms[1..], g, more);
    }
  }

  lemma {:induction false} TellsOfPhase(ops: seq<TargetOp>, g: Signal, more: seq<TargetOp>)
    requires Silent(ops)
    ensures Tells(ops + ([Tell(g)] + more)) == [g] + Tells(more)
  {
    if ops == [] {
      assert ops + ([Tell(g)] + more) == [Tell(g)] + more;
      assert ([Tell(g)] + more)[1..] == more;
    } else {
      assert (ops + ([Tell(g)] + more))[1..] == ops[1..] + ([Tell(g)] + more);
      TellsOfPhase(ops[1..], g, more);
    }
  }

  /** Messages of tag `t` read, in store and not yet sent, in this order. */
  ghost function Account(s: State, t: string): seq<Message> {
    Only(s.log, t) + (Pending(s.cache, s.wire, t) + Only(SentBy(s.script), t))
  }

  lemma Shift(a: seq<Message>, b: seq<Message>, c: seq<Message>, d: seq<Message>)
    ensures (a + (b + c)) + d == (a + b) + (c + d)
  {
  }

  lemma SourceConserves(s: State, t: string)
    requires SourceNext(s).Some?
    ensures Account(SourceNext(s).value, t) == Account(s, t)
  {
    var rest := SentBy(s.script[1..]);
    if s.script[0].Send? {
      var m := s.script[0].m;
      OnlyJoin(s.wire, [m], t);
      OnlyJoin([m], rest, t);
      Shift(Cached(s.cache, t), Only(s.wire, t), Only([m], t), Only(rest, t));
    } else {
      assert SentBy(s.script) == rest;
    }
  }

  lemma TargetConserves(closes: Closing, s: State, t: string)
    requires TargetNext(closes, s).Some? && Tidy(s.cache)
    ensures Account(TargetNext(closes, s).value, t) == Account(s, t) && Tidy(TargetNext(closes, s).value.cache)
  {
    var r := TargetNext(closes, s).value;
    if !s.prog[0].Tell? {
      var w := Wanted(s.prog[0]);
      if w !in s.cache && s.wire[0].tag != w {
        PushKeepsPending(s.cache, s.wire, t);
        PushIsTidy(s.cache, s.wire[0]);
      } else {
        var m := if w in s.cache then s.cache[w][0] else s.wire[0];
        if w in s.cache {
          PoppedPending(s.cache, s.wire, w, t);
        } else {
          TakenPending(s.cache, s.wire, w, t);
        }
        ReadMoves(s, r, m, w, t);
      }
    }
  }

  lemma ReadMoves(s: State, r: State, m: Message, w: string, t: string)
    requires r.script == s.script && r.log == s.log + [m] && m.tag == w
    requires Pending(s.cache, s.wire, w) != [] && Pending(s.cache, s.wire, w)[0] == m
    requires Pending(r.cache, r.wire, t) == if t == w then Pending(s.cache, s.wire, w)[1..] else Pending(s.cache, s.wire, t)
    ensures Account(r, t) == Account(s, t)
  {
    OnlyJoin(s.log, [m], t);
    HeadIs(Pending(s.cache, s.wire, t), Pending(r.cache, r.wire, t), m, t);
    MoveHead(Only(s.log, t), Only([m], t), Pending(r.cache, r.wire, t), Pending(s.cache, s.wire, t), Only(SentBy(s.script), t));
  }

  lemma HeadIs(p: seq<Message>, q: seq<Message>, m: Message, t: string)
    requires if m.tag == t then p != [] && p[0] == m && q == p[1..] else q == p
    ensures Only([m], t) + q == p
  {
    assert [m][1..] == [];
  }

  lemma MoveHead(l: seq<Message>, x: seq<Message>, q: seq<Message>, p: seq<Message>, z: seq<Message>)
    requires x + q == p
    ensures (l + x) + (q + z) == l + (p + z)
  {
  }

  /** In every run every message is read, in store or still to be sent, tag by tag in the order of sending. */
  lemma {:induction false} RunConserves(closes: Closing, states: seq<State>, n: nat, t: string)
    requires Confluence.Run(SourceNext, Target(closes), states) && n < |states| && Tidy(states[0].cache)
    ensures Account(states[n], t) == Account(states[0], t) && Tidy(states[n].cache)
  {
    if n > 0 {
      RunConserves(closes, states, n - 1, t);
      var s := states[n - 1];
      assert Confluence.Step(SourceNext, Target(closes), s, states[n]);
      if SourceNext(s) == Some(states[n]) {
        SourceConserves(s, t);
      } else {
        TargetConserves(closes, s, t);
      }
    }
  }
}
