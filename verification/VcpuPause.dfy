/** Pausing vCPUs: guards of many threads, the threads of the vCPUs and the machine's Pause and Resume,
    interleaved one mutex-protected section at a time.
 */
module VcpuPause {
  import opened Common

  /** Where the thread of a vCPU is: outside of the run section, let through by PreRun, inside KVM_RUN,
      out of it and before PostRun, or gone. */
  datatype Place = Outside | Entering | Guest | Leaving | Exited

  datatype Cpu = Cpu(place: Place, paused: bool, waitCount: int)

  /** Where a guard is: counting itself in, waiting for the vCPUs, held, counting itself out, gone. */
  datatype Phase = Counting(i: nat) | Waiting(i: nat) | Held | Releasing(i: nat) | Over

  datatype Guard = Guard(targets: seq<nat>, phase: Phase)

  /** `pauser` is the guard of the Machine::Pause that holds the machine's mutex. */
  datatype State = State(cpus: seq<Cpu>, guards: seq<Guard>, valid: bool, paused: bool, pauser: Option<nat>)

  // ---------------------------------------------------------------- steps of a vCPU thread

  /** PreRun: waits while the machine is paused or somebody waits; lets the thread go if it is valid. */
  ghost predicate PreRun(s: State, t: State, v: nat) {
    && v < |s.cpus| && s.cpus[v].place == Outside
    && !(s.valid && (s.paused || s.cpus[v].waitCount > 0))
    && t == s.(cpus := s.cpus[v :=
         if s.valid then s.cpus[v].(place := Entering, paused := false) else s.cpus[v].(place := Exited, paused := true)])
  }

  ghost predicate EnterGuest(s: State, t: State, v: nat) {
    v < |s.cpus| && s.cpus[v].place == Entering && t == s.(cpus := s.cpus[v := s.cpus[v].(place := Guest)])
  }

  ghost predicate LeaveGuest(s: State, t: State, v: nat) {
    v < |s.cpus| && s.cpus[v].place == Guest && t == s.(cpus := s.cpus[v := s.cpus[v].(place := Leaving)])
  }

  ghost predicate PostRun(s: State, t: State, v: nat) {
    && v < |s.cpus| && s.cpus[v].place == Leaving
    && t == s.(cpus := s.cpus[v := s.cpus[v].(place := Outside, paused := true)])
  }

  /** The thread ends after an exit that it does not handle. */
  ghost predicate Exit(s: State, t: State, v: nat) {
    && v < |s.cpus| && s.cpus[v].place == Outside
    && t == s.(cpus := s.cpus[v := s.cpus[v].(place := Exited, paused := true)])
  }

  // ---------------------------------------------------------------- steps of a guard

  ghost predicate InRange(s: State, targets: seq<nat>) {
    forall i :: 0 <= i < |targets| ==> targets[i] < |s.cpus|
  }

  ghost predicate NewGuard(s: State, t: State, targets: seq<nat>) {
    InRange(s, targets) && t == s.(guards := s.guards + [Guard(targets, Counting(0))])
  }

  /** One turn of the first loop of PauseAll, or its end. */
  ghost predicate CountIn(s: State, t: State, g: nat) {
    && g < |s.guards| && s.guards[g].phase.Counting?
    && var (targets, i) := (s.guards[g].targets, s.guards[g].phase.i);
    if i < |targets| then
      && targets[i] < |s.cpus|
      && t == s.(guards := s.guards[g := Guard(targets, Counting(i + 1))],
                 cpus := s.cpus[targets[i] := s.cpus[targets[i]].(waitCount := s.cpus[targets[i]].waitCount + 1)])
    else t == s.(guards := s.guards[g := Guard(targets, Waiting(0))])
  }

  /** One turn of the second loop, or its end: only a paused vCPU is passed. */
  ghost predicate WaitFor(s: State, t: State, g: nat) {
    && g < |s.guards| && s.guards[g].phase.Waiting?
    && var (targets, i) := (s.guards[g].targets, s.guards[g].phase.i);
    if i < |targets| then
      && targets[i] < |s.cpus| && s.cpus[targets[i]].paused
      && t == s.(guards := s.guards[g := Guard(targets, Waiting(i + 1))])
    else t == s.(guards := s.guards[g := Guard(targets, Held)])
  }

  /** ResumeAll begins. The guard of Machine::Pause is released once the machine is paused. */
  ghost predicate Release(s: State, t: State, g: nat) {
    && g < |s.guards| && s.guards[g].phase == Held && (s.pauser == Some(g) ==> s.paused)
    && t == s.(guards := s.guards[g := s.guards[g].(phase := Releasing(0))])
  }

  ghost predicate CountOut(s: State, t: State, g: nat) {
    && g < |s.guards| && s.guards[g].phase.Releasing?
    && var (targets, i) := (s.guards[g].targets, s.guards[g].phase.i);
    if i < |targets| then
      && targets[i] < |s.cpus|
      && t == s.(guards := s.guards[g := Guard(targets, Releasing(i + 1))],
                 cpus := s.cpus[targets[i] := s.cpus[targets[i]].(waitCount := s.cpus[targets[i]].waitCount - 1)])
    else t == s.(guards := s.guards[g := Guard(targets, Over)])
  }

  // ---------------------------------------------------------------- steps of the machine

  function AllCpus(n: nat): seq<nat> {
    seq(n, i => i)
  }

  /** Pause takes the mutex and makes its guard. */
  ghost predicate PauseBegins(s: State, t: State) {
    && s.pauser == None && s.valid && !s.paused
    && t == s.(guards := s.guards + [Guard(AllCpus(|s.cpus|), Counting(0))], pauser := Some(|s.guards|))
  }

  ghost predicate PauseCommits(s: State, t: State) {
    && s.pauser.Some? && s.pauser.value < |s.guards| && s.guards[s.pauser.value].phase == Held && !s.paused
    && t == s.(paused := true)
  }

  /** Pause returns: its guard is gone, then its mutex. */
  ghost predicate PauseReturns(s: State, t: State) {
    && s.pauser.Some? && s.pauser.value < |s.guards| && s.guards[s.pauser.value].phase == Over
    && t == s.(pauser := None)
  }

  ghost predicate Resume(s: State, t: State) {
    s.pauser == None && s.paused && t == s.(paused := false)
  }

  ghost predicate Quit(s: State, t: State) {
    t == s.(valid := false)
  }

  ghost predicate CpuStep(s: State, t: State, v: nat) {
    PreRun(s, t, v) || EnterGuest(s, t, v) || LeaveGuest(s, t, v) || PostRun(s, t, v) || Exit(s, t, v)
  }

  ghost predicate GuardStep(s: State, t: State, g: nat) {
    CountIn(s, t, g) || WaitFor(s, t, g) || Release(s, t, g) || CountOut(s, t, g)
  }

  ghost predicate MachineStep(s: State, t: State) {
    PauseBegins(s, t) || PauseCommits(s, t) || PauseReturns(s, t) || Resume(s, t) || Quit(s, t)
  }

  /** Any thread makes its next step. */
  ghost predicate Step(s: State, t: State) {
    || (exists v: nat :: CpuStep(s, t, v))
    || (exists g: nat :: GuardStep(s, t, g))
    || (exists targets :: NewGuard(s, t, targets))
    || MachineStep(s, t)
  }

  // ---------------------------------------------------------------- what guards hold

  /** How often `v` occurs among targets[lo..hi]. */
  ghost function Occurs(targets: seq<nat>, lo: nat, hi: nat, v: nat): (n: nat)
    requires lo <= hi <= |targets|
    ensures (exists j :: lo <= j < hi && targets[j] == v) ==> n > 0
    decreases hi - lo
  {
    if lo == hi then 0 else (if targets[hi - 1] == v then 1 else 0) + Occurs(targets, lo, hi - 1, v)
  }

  lemma {:induction false} OccursFirst(targets: seq<nat>, lo: nat, hi: nat, v: nat)
    requires lo < hi <= |targets|
    ensures Occurs(targets, lo, hi, v) == (if targets[lo] == v then 1 else 0) + Occurs(targets, lo + 1, hi, v)
    decreases hi
  {
    if lo + 1 < hi {
      OccursFirst(targets, lo, hi - 1, v);
    }
  }

  ghost predicate PhaseOk(g: Guard) {
    match g.phase
    case Counting(i) => i <= |g.targets|
    case Waiting(i) => i <= |g.targets|
    case Releasing(i) => i <= |g.targets|
    case _ => true
  }

  /** What a guard contributes to the count of vCPU `v`. */
  ghost function Share(g: Guard, v: nat): nat
    requires PhaseOk(g)
  {
    match g.phase
    case Counting(i) => Occurs(g.targets, 0, i, v)
    case Waiting(_) => Occurs(g.targets, 0, |g.targets|, v)
    case Held => Occurs(g.targets, 0, |g.targets|, v)
    case Releasing(i) => Occurs(g.targets, i, |g.targets|, v)
    case Over => 0
  }

  ghost predicate AllOk(guards: seq<Guard>) {
    forall g :: 0 <= g < |guards| ==> PhaseOk(guards[g])
  }

  ghost function Shares(guards: seq<Guard>, v: nat, n: nat): nat
    requires AllOk(guards) && n <= |guards|
  {
    if n == 0 then 0 else Shares(guards, v, n - 1) + Share(guards[n - 1], v)
  }

  lemma {:induction false} SharesAtLeast(guards: seq<Guard>, v: nat, n: nat, g: nat)
    requires AllOk(guards) && g < n <= |guards|
    ensures Shares(guards, v, n) >= Share(guards[g], v)
  {
    if g < n - 1 {
      SharesAtLeast(guards, v, n - 1, g);
    }
  }

  lemma {:induction false} SharesUpdate(guards: seq<Guard>, g: nat, new_: Guard, v: nat, n: nat)
    requires AllOk(guards) && g < |guards| && PhaseOk(new_) && n <= |guards|
    ensures AllOk(guards[g := new_])
    ensures Shares(guards[g := new_], v, n) ==
      Shares(guards, v, n) + if g < n then Share(new_, v) - Share(guards[g], v) else 0
  {
    if n > 0 {
      SharesUpdate(guards, g, new_, v, n - 1);
    }
  }

  lemma {:induction false} SharesAppend(guards: seq<Guard>, new_: Guard, v: nat, n: nat)
    requires AllOk(guards) && PhaseOk(new_) && n <= |guards|
    ensures AllOk(guards + [new_]) && Shares(guards + [new_], v, n) == Shares(guards, v, n)
  {
    if n > 0 {
      SharesAppend(guards, new_, v, n - 1);
    }
  }

  // ---------------------------------------------------------------- the invariant

  /** The targets that a guard has seen paused and still counts: from, up to. */
  ghost predicate Secures(g: Guard, j: nat) {
    && j < |g.targets|
    && match g.phase
       case Waiting(i) => j < i
       case Held => true
       case Releasing(i) => i <= j
       case _ => false
  }

  ghost predicate CpuOk(c: Cpu) {
    c.paused <==> c.place == Outside || c.place == Exited
  }

  ghost predicate Counted(s: State)
    requires AllOk(s.guards)
  {
    forall v: nat :: v < |s.cpus| ==> s.cpus[v].waitCount == Shares(s.guards, v, |s.guards|)
  }

  /** What a guard holds is paused. */
  ghost predicate HeldPaused(s: State)
    requires AllOk(s.guards)
  {
    forall g: nat, j: nat :: g < |s.guards| && Secures(s.guards[g], j) && s.guards[g].targets[j] < |s.cpus| ==>
      s.cpus[s.guards[g].targets[j]].paused
  }

  ghost predicate Inv(s: State) {
    && (forall v :: 0 <= v < |s.cpus| ==> CpuOk(s.cpus[v]))
    && AllOk(s.guards) && (forall g :: 0 <= g < |s.guards| ==> InRange(s, s.guards[g].targets))
    && Counted(s) && HeldPaused(s)
    && (s.paused ==> forall v :: 0 <= v < |s.cpus| ==> s.cpus[v].paused)
    && (s.pauser.Some? ==> s.pauser.value < |s.guards| && s.guards[s.pauser.value].targets == AllCpus(|s.cpus|))
  }

  /** While a guard holds a vCPU, the vCPU's count is not zero. */
  lemma HeldIsCounted(s: State, g: nat, j: nat)
    requires Inv(s) && g < |s.guards| && Secures(s.guards[g], j)
    ensures s.guards[g].targets[j] < |s.cpus| && s.cpus[s.guards[g].targets[j]].waitCount > 0
  {
    var v := s.guards[g].targets[j];
    assert InRange(s, s.guards[g].targets);
    SharesAtLeast(s.guards, v, |s.guards|, g);
  }

  // ---------------------------------------------------------------- every step keeps it

  lemma CpuStepKeeps(s: State, t: State, v: nat)
    requires Inv(s) && CpuStep(s, t, v)
    ensures Inv(t)
  {
    assert t.guards == s.guards && |t.cpus| == |s.cpus|;
    assert forall u: nat :: u < |s.cpus| ==> t.cpus[u].waitCount == s.cpus[u].waitCount;
    forall g: nat, j: nat | g < |t.guards| && Secures(t.guards[g], j) && t.guards[g].targets[j] < |t.cpus|
      ensures t.cpus[t.guards[g].targets[j]].paused
    {
      HeldIsCounted(s, g, j);
      assert s.cpus[s.guards[g].targets[j]].paused;
    }
    forall g | 0 <= g < |t.guards|
      ensures InRange(t, t.guards[g].targets)
    {
      assert InRange(s, s.guards[g].targets);
    }
  }

  /** A guard moves on and counts itself in or out of one vCPU. */
  lemma CountKeeps(s: State, t: State, g: nat, next: Guard, u: nat, delta: int)
    requires Inv(s) && g < |s.guards| && u < |s.cpus| && next.targets == s.guards[g].targets && PhaseOk(next)
    requires t == s.(guards := s.guards[g := next], cpus := s.cpus[u := s.cpus[u].(waitCount := s.cpus[u].waitCount + delta)])
    requires forall v: nat :: Share(next, v) == Share(s.guards[g], v) + if v == u then delta else 0
    requires forall j: nat :: Secures(next, j) ==> Secures(s.guards[g], j)
    ensures Inv(t)
  {
    forall v: nat | v < |t.cpus|
      ensures AllOk(t.guards) && t.cpus[v].waitCount == Shares(t.guards, v, |t.guards|)
    {
      SharesUpdate(s.guards, g, next, v, |s.guards|);
    }
    SharesUpdate(s.guards, g, next, u, |s.guards|);
    OthersHold(s, t, g, next);
  }

  lemma OthersHold(s: State, t: State, g: nat, next: Guard)
    requires Inv(s) && g < |s.guards| && next.targets == s.guards[g].targets && PhaseOk(next)
    requires t.guards == s.guards[g := next] && |t.cpus| == |s.cpus| && AllOk(t.guards)
    requires forall v: nat :: v < |s.cpus| ==> t.cpus[v].paused == s.cpus[v].paused
    requires forall j: nat :: Secures(next, j) && !Secures(s.guards[g], j) ==> next.targets[j] < |s.cpus| && s.cpus[next.targets[j]].paused
    ensures HeldPaused(t) && forall h :: 0 <= h < |t.guards| ==> InRange(t, t.guards[h].targets)
  {
    forall h: nat, j: nat | h < |t.guards| && Secures(t.guards[h], j) && t.guards[h].targets[j] < |t.cpus|
      ensures t.cpus[t.guards[h].targets[j]].paused
    {
      if h != g || Secures(s.guards[g], j) {
        assert Secures(s.guards[h], j);
      }
    }
    forall h | 0 <= h < |t.guards|
      ensures InRange(t, t.guards[h].targets)
    {
      assert InRange(s, s.guards[h].targets);
    }
  }

  /** A guard moves on without counting. */
  lemma MoveKeeps(s: State, t: State, g: nat, next: Guard)
    requires Inv(s) && g < |s.guards| && next.targets == s.guards[g].targets && PhaseOk(next)
    requires t == s.(guards := s.guards[g := next])
    requires forall v: nat :: Share(next, v) == Share(s.guards[g], v)
    requires forall j: nat :: Secures(next, j) && !Secures(s.guards[g], j) ==> next.targets[j] < |s.cpus| && s.cpus[next.targets[j]].paused
    ensures Inv(t)
  {
    forall v: nat | v < |t.cpus|
      ensures AllOk(t.guards) && t.cpus[v].waitCount == Shares(t.guards, v, |t.guards|)
    {
      SharesUpdate(s.guards, g, next, v, |s.guards|);
    }
    SharesUpdate(s.guards, g, next, 0, |s.guards|);
    OthersHold(s, t, g, next);
  }

  lemma CountInKeeps(s: State, t: State, g: nat)
    requires Inv(s) && CountIn(s, t, g)
    ensures Inv(t)
  {
    var (targets, i) := (s.guards[g].targets, s.guards[g].phase.i);
    assert PhaseOk(s.guards[g]);
    if i < |targets| {
      CountKeeps(s, t, g, Guard(targets, Counting(i + 1)), targets[i], 1);
    } else {
      MoveKeeps(s, t, g, Guard(targets, Waiting(0)));
    }
  }

  lemma WaitForKeeps(s: State, t: State, g: nat)
    requires Inv(s) && WaitFor(s, t, g)
    ensures Inv(t)
  {
    var (targets, i) := (s.guards[g].targets, s.guards[g].phase.i);
    assert PhaseOk(s.guards[g]);
    if i < |targets| {
      MoveKeeps(s, t, g, Guard(targets, Waiting(i + 1)));
    } else {
      MoveKeeps(s, t, g, Guard(targets, Held));
    }
  }

  lemma CountOutKeeps(s: State, t: State, g: nat)
    requires Inv(s) && CountOut(s, t, g)
    ensures Inv(t)
  {
    var (targets, i) := (s.guards[g].targets, s.guards[g].phase.i);
    assert PhaseOk(s.guards[g]);
    if i < |targets| {
      forall v: nat
        ensures Occurs(targets, i, |targets|, v) == (if targets[i] == v then 1 else 0) + Occurs(targets, i + 1, |targets|, v)
      {
        OccursFirst(targets, i, |targets|, v);
      }
      CountKeeps(s, t, g, Guard(targets, Releasing(i + 1)), targets[i], -1);
    } else {
      MoveKeeps(s, t, g, Guard(targets, Over));
    }
  }

  lemma GuardStepKeeps(s: State, t: State, g: nat)
    requires Inv(s) && GuardStep(s, t, g)
    ensures Inv(t)
  {
    if CountIn(s, t, g) {
      CountInKeeps(s, t, g);
    } else if WaitFor(s, t, g) {
      WaitForKeeps(s, t, g);
    } else if CountOut(s, t, g) {
      CountOutKeeps(s, t, g);
    } else {
      MoveKeeps(s, t, g, s.guards[g].(phase := Releasing(0)));
    }
  }

  lemma NewGuardKeeps(s: State, t: State, targets: seq<nat>)
    requires Inv(s) && InRange(s, targets)
    requires t == s.(guards := s.guards + [Guard(targets, Counting(0))], pauser := t.pauser)
    requires t.pauser == s.pauser || (t.pauser == Some(|s.guards|) && targets == AllCpus(|s.cpus|))
    ensures Inv(t)
  {
    var new_ := Guard(targets, Counting(0));
    SharesAppend(s.guards, new_, 0, |s.guards|);
    forall v: nat | v < |t.cpus|
      ensures t.cpus[v].waitCount == Shares(t.guards, v, |t.guards|)
    {
      SharesAppend(s.guards, new_, v, |s.guards|);
    }
    forall g: nat, j: nat | g < |t.guards| && Secures(t.guards[g], j) && t.guards[g].targets[j] < |t.cpus|
      ensures t.cpus[t.guards[g].targets[j]].paused
    {
      assert Secures(s.guards[g], j);
    }
    forall g | 0 <= g < |t.guards|
      ensures InRange(t, t.guards[g].targets)
    {
      assert g < |s.guards| ==> InRange(s, s.guards[g].targets);
    }
  }

  /** Pause may say so: its guard holds every vCPU. */
  lemma CommitKeeps(s: State, t: State)
    requires Inv(s) && PauseCommits(s, t)
    ensures Inv(t)
  {
    var g := s.pauser.value;
    forall v | 0 <= v < |s.cpus|
      ensures s.cpus[v].paused
    {
      assert Secures(s.guards[g], v) && s.guards[g].targets[v] == v;
    }
    SameCpusAndGuards(s, t);
  }

  lemma SameCpusAndGuards(s: State, t: State)
    requires Inv(s) && t.cpus == s.cpus && t.guards == s.guards
    requires t.paused ==> forall v :: 0 <= v < |s.cpus| ==> s.cpus[v].paused
    requires t.pauser == s.pauser || t.pauser == None
    ensures Inv(t)
  {
    forall g | 0 <= g < |t.guards|
      ensures InRange(t, t.guards[g].targets)
    {
      assert InRange(s, s.guards[g].targets);
    }
    forall g: nat, j: nat | g < |t.guards| && Secures(t.guards[g], j) && t.guards[g].targets[j] < |t.cpus|
      ensures t.cpus[t.guards[g].targets[j]].paused
    {
      assert Secures(s.guards[g], j);
    }
  }

  lemma MachineStepKeeps(s: State, t: State)
    requires Inv(s) && MachineStep(s, t)
    ensures Inv(t)
  {
    if PauseBegins(s, t) {
      NewGuardKeeps(s, t, AllCpus(|s.cpus|));
    } else if PauseCommits(s, t) {
      CommitKeeps(s, t);
    } else {
      SameCpusAndGuards(s, t);
    }
  }

  lemma StepKeeps(s: State, t: State)
    requires Inv(s) && Step(s, t)
    ensures Inv(t)
  {
    if v: nat :| CpuStep(s, t, v) {
      CpuStepKeeps(s, t, v);
    } else if g: nat :| GuardStep(s, t, g) {
      GuardStepKeeps(s, t, g);
    } else if targets :| NewGuard(s, t, targets) {
      NewGuardKeeps(s, t, targets);
    } else {
      MachineStepKeeps(s, t);
    }
  }

  // ---------------------------------------------------------------- runs

  /** The threads are started while the machine is paused; it may also be running already. */
  ghost predicate Starts(s: State) {
    && s.guards == [] && s.pauser == None
    && forall v :: 0 <= v < |s.cpus| ==> s.cpus[v] == Cpu(Outside, true, 0)
  }

  ghost predicate Run(states: seq<State>) {
    |states| > 0 && Starts(states[0]) && forall i :: 0 <= i < |states| - 1 ==> Step(states[i], states[i + 1])
  }

  lemma {:induction false} RunKeeps(states: seq<State>, n: nat)
    requires Run(states) && n < |states|
    ensures Inv(states[n])
  {
    if n > 0 {
      RunKeeps(states, n - 1);
      StepKeeps(states[n - 1], states[n]);
    }
  }

  /** In every run, from the moment PauseAll has returned until ResumeAll reaches it, no vCPU of a guard
      is inside KVM_RUN, whatever other guards, vCPUs and the machine do. */
  lemma GuardedIsOutOfGuest(states: seq<State>, n: nat, g: nat, j: nat)
    requires Run(states) && n < |states| && g < |states[n].guards| && Secures(states[n].guards[g], j)
    ensures var v := states[n].guards[g].targets[j];
      v < |states[n].cpus| && states[n].cpus[v].place != Guest && states[n].cpus[v].waitCount > 0
  {
    RunKeeps(states, n);
    HeldIsCounted(states[n], g, j);
    assert CpuOk(states[n].cpus[states[n].guards[g].targets[j]]);
  }

  /** Once Machine::Pause has set the machine to paused, and until Resume, no vCPU is inside KVM_RUN or on
      its way there, although the guard of Pause is long gone. */
  lemma PausedMachineIsOutOfGuest(states: seq<State>, n: nat, v: nat)
    requires Run(states) && n < |states| && states[n].paused && v < |states[n].cpus|
    ensures states[n].cpus[v].place == Outside || states[n].cpus[v].place == Exited
  {
    RunKeeps(states, n);
    assert CpuOk(states[n].cpus[v]);
  }

  /** A Pause that goes on to release its guard has set the machine to paused. */
  ghost predicate PauseDone(s: State) {
    s.pauser.Some? && s.pauser.value < |s.guards| &&
    (s.guards[s.pauser.value].phase.Releasing? || s.guards[s.pauser.value].phase == Over)
  }

  lemma GuardStepPauses(s: State, t: State, g: nat)
    requires GuardStep(s, t, g) && PauseDone(t)
    ensures PauseDone(s) || s.paused
    ensures t.paused == s.paused && t.pauser == s.pauser
  {
    var p := s.pauser.value;
    if p != g {
      assert t.guards[p] == s.guards[p];
    }
  }

  lemma MachineStepPauses(s: State, t: State)
    requires MachineStep(s, t) && PauseDone(t)
    ensures PauseDone(s) && (s.paused ==> t.paused)
  {
  }

  lemma NewGuardPauses(s: State, t: State, targets: seq<nat>)
    requires Inv(s) && NewGuard(s, t, targets) && PauseDone(t)
    ensures PauseDone(s) && t.paused == s.paused
  {
    assert t.guards[s.pauser.value] == s.guards[s.pauser.value];
  }

  lemma StepPauses(s: State, t: State)
    requires Inv(s) && Step(s, t) && (PauseDone(s) ==> s.paused)
    ensures PauseDone(t) ==> t.paused
  {
    if PauseDone(t) {
      if v: nat :| CpuStep(s, t, v) {
        assert t.guards == s.guards && t.pauser == s.pauser && t.paused == s.paused;
      } else if g: nat :| GuardStep(s, t, g) {
        GuardStepPauses(s, t, g);
      } else if targets :| NewGuard(s, t, targets) {
        NewGuardPauses(s, t, targets);
      } else {
        MachineStepPauses(s, t);
      }
    }
  }

  lemma {:induction false} RunPauses(states: seq<State>, n: nat)
    requires Run(states) && n < |states|
    ensures PauseDone(states[n]) ==> states[n].paused
  {
    if n > 0 {
      RunPauses(states, n - 1);
      RunKeeps(states, n - 1);
      StepPauses(states[n - 1], states[n]);
    }
  }

  /** When Pause returns, the machine is paused. */
  lemma PauseReturnsPaused(states: seq<State>, n: nat)
    requires Run(states) && n + 1 < |states| && PauseReturns(states[n], states[n + 1])
    ensures states[n + 1].paused
  {
    RunPauses(states, n);
  }

  /** No guard is under way. */
  ghost predicate AllOver(s: State) {
    forall g :: 0 <= g < |s.guards| ==> s.guards[g].phase == Over
  }

  /** The counts are exact in every run: with no guard under way every count is zero again. */
  lemma CountsAreExact(states: seq<State>, n: nat, v: nat)
    requires Run(states) && n < |states| && v < |states[n].cpus|
    requires AllOver(states[n])
    ensures states[n].cpus[v].waitCount == 0
  {
    RunKeeps(states, n);
    NothingShared(states[n].guards, v, |states[n].guards|);
  }

  lemma {:induction false} NothingShared(guards: seq<Guard>, v: nat, n: nat)
    requires AllOk(guards) && n <= |guards| && forall g :: 0 <= g < |guards| ==> guards[g].phase == Over
    ensures Shares(guards, v, n) == 0
  {
    if n > 0 {
      NothingShared(guards, v, n - 1);
    }
  }

  // ---------------------------------------------------------------- progress

  /** A vCPU outside of a running machine, for which nobody waits, is let in. */
  lemma FreeCpuEnters(s: State, v: nat)
    requires v < |s.cpus| && s.cpus[v].place == Outside && s.valid && !s.paused && s.cpus[v].waitCount == 0
    ensures exists t :: Step(s, t) && t.cpus == s.cpus[v := s.cpus[v].(place := Entering, paused := false)]
  {
    var t := s.(cpus := s.cpus[v := s.cpus[v].(place := Entering, paused := false)]);
    assert PreRun(s, t, v);
    assert CpuStep(s, t, v);
  }

  /** After Resume, once every guard is over, every vCPU outside is let in again. */
  lemma ResumeLetsIn(states: seq<State>, n: nat, v: nat)
    requires Run(states) && n + 1 < |states| && Resume(states[n], states[n + 1]) && states[n + 1].valid
    requires AllOver(states[n + 1])
    requires v < |states[n + 1].cpus| && states[n + 1].cpus[v].place == Outside
    ensures !states[n + 1].paused
    ensures exists t :: Step(states[n + 1], t) && t.cpus == states[n + 1].cpus[v := Cpu(Entering, false, 0)]
  {
    CountsAreExact(states, n + 1, v);
    FreeCpuEnters(states[n + 1], v);
  }

  /** Steps that a vCPU is away from being paused. */
  function Away(p: Place): nat {
    match p
    case Entering => 3
    case Guest => 2
    case Leaving => 1
    case _ => 0
  }

  /** Steps that a guard and the vCPUs it waits for are away from its being held, at most. */
  ghost function ToGo(s: State, g: nat): nat
    requires Inv(s) && g < |s.guards|
  {
    var (targets, phase) := (s.guards[g].targets, s.guards[g].phase);
    assert PhaseOk(s.guards[g]) && InRange(s, targets);
    match phase
    case Counting(i) => 4 * |targets| + 5 + (|targets| - i)
    case Waiting(i) => 4 * (|targets| - i) + 1 + if i < |targets| then Away(s.cpus[targets[i]].place) else 0
    case _ => 0
  }

  /** The next step on the way: of the guard, or of the vCPU it waits for. */
  lemma GuardMovesOn(s: State, g: nat) returns (t: State)
    requires Inv(s) && g < |s.guards| && (s.guards[g].phase.Counting? || s.guards[g].phase.Waiting?)
    ensures Step(s, t) && g < |t.guards| && t.pauser == s.pauser && t.paused == s.paused && t.guards[g].targets == s.guards[g].targets
    ensures t.guards[g].phase.Counting? || t.guards[g].phase.Waiting? || t.guards[g].phase == Held
    ensures Inv(t) && ToGo(t, g) < ToGo(s, g)
  {
    var (targets, phase) := (s.guards[g].targets, s.guards[g].phase);
    assert PhaseOk(s.guards[g]) && InRange(s, targets);
    if phase.Counting? {
      t := CountsOn(s, g);
    } else if phase.i < |targets| && !s.cpus[targets[phase.i]].paused {
      t := CpuMovesOut(s, targets[phase.i]);
      StepKeeps(s, t);
    } else {
      t := s.(guards := s.guards[g := Guard(targets, if phase.i < |targets| then Waiting(phase.i + 1) else Held)]);
      assert WaitFor(s, t, g);
      assert GuardStep(s, t, g);
      StepKeeps(s, t);
    }
  }

  lemma CountsOn(s: State, g: nat) returns (t: State)
    requires Inv(s) && g < |s.guards| && s.guards[g].phase.Counting?
    ensures Step(s, t) && Inv(t) && g < |t.guards| && t.pauser == s.pauser && t.paused == s.paused
    ensures t.guards[g].targets == s.guards[g].targets && (t.guards[g].phase.Counting? || t.guards[g].phase.Waiting?)
    ensures ToGo(t, g) < ToGo(s, g)
  {
    var (targets, i) := (s.guards[g].targets, s.guards[g].phase.i);
    assert PhaseOk(s.guards[g]) && InRange(s, targets);
    if i < |targets| {
      t := s.(guards := s.guards[g := Guard(targets, Counting(i + 1))],
              cpus := s.cpus[targets[i] := s.cpus[targets[i]].(waitCount := s.cpus[targets[i]].waitCount + 1)]);
    } else {
      t := s.(guards := s.guards[g := Guard(targets, Waiting(0))]);
    }
    assert CountIn(s, t, g);
    assert GuardStep(s, t, g);
    StepKeeps(s, t);
  }

  /** A vCPU on its way into the guest, in it or out of it moves on. */
  lemma CpuMovesOut(s: State, v: nat) returns (t: State)
    requires Inv(s) && v < |s.cpus| && !s.cpus[v].paused
    ensures Step(s, t) && t.guards == s.guards && t.pauser == s.pauser && t.paused == s.paused && |t.cpus| == |s.cpus|
    ensures Away(t.cpus[v].place) < Away(s.cpus[v].place)
  {
    assert CpuOk(s.cpus[v]);
    var c := s.cpus[v];
    if c.place == Entering {
      t := s.(cpus := s.cpus[v := c.(place := Guest)]);
      assert EnterGuest(s, t, v);
    } else if c.place == Guest {
      t := s.(cpus := s.cpus[v := c.(place := Leaving)]);
      assert LeaveGuest(s, t, v);
    } else {
      t := s.(cpus := s.cpus[v := c.(place := Outside, paused := true)]);
      assert PostRun(s, t, v);
    }
    assert CpuStep(s, t, v);
  }

  lemma RunOn(states: seq<State>, t: State)
    requires Run(states) && Step(states[|states| - 1], t)
    ensures Run(states + [t])
  {
  }

  /** No run is a dead end for a guard: from every state that a run reaches, steps of the guard and of the
      vCPUs it waits for lead to its being held. */
  lemma {:induction false} EveryGuardCanHold(states: seq<State>, g: nat) returns (more: seq<State>)
    requires Run(states) && g < |states[|states| - 1].guards|
    requires var p := states[|states| - 1].guards[g].phase; p.Counting? || p.Waiting? || p == Held
    ensures Run(more) && states <= more && g < |more[|more| - 1].guards| && more[|more| - 1].guards[g].phase == Held
    ensures more[|more| - 1].pauser == states[|states| - 1].pauser && more[|more| - 1].paused == states[|states| - 1].paused
    decreases (RunKeeps(states, |states| - 1); ToGo(states[|states| - 1], g))
  {
    more := states;
    if states[|states| - 1].guards[g].phase != Held {
      RunKeeps(states, |states| - 1);
      var t := GuardMovesOn(states[|states| - 1], g);
      RunOn(states, t);
      more := EveryGuardCanHold(states + [t], g);
    }
  }

  lemma {:induction false} CountsItselfOut(states: seq<State>, g: nat) returns (more: seq<State>)
    requires Run(states) && g < |states[|states| - 1].guards| && states[|states| - 1].guards[g].phase.Releasing?
    requires states[|states| - 1].guards[g].phase.i <= |states[|states| - 1].guards[g].targets|
    ensures Run(more) && states <= more && g < |more[|more| - 1].guards| && more[|more| - 1].guards[g].phase == Over
    ensures more[|more| - 1].pauser == states[|states| - 1].pauser && more[|more| - 1].paused == states[|states| - 1].paused
    decreases |states[|states| - 1].guards[g].targets| - states[|states| - 1].guards[g].phase.i
  {
    var s := states[|states| - 1];
    RunKeeps(states, |states| - 1);
    var (targets, i) := (s.guards[g].targets, s.guards[g].phase.i);
    assert InRange(s, targets);
    var t;
    if i < |targets| {
      t := s.(guards := s.guards[g := Guard(targets, Releasing(i + 1))],
              cpus := s.cpus[targets[i] := s.cpus[targets[i]].(waitCount := s.cpus[targets[i]].waitCount - 1)]);
    } else {
      t := s.(guards := s.guards[g := Guard(targets, Over)]);
    }
    assert CountOut(s, t, g);
    assert GuardStep(s, t, g);
    RunOn(states, t);
    more := states + [t];
    if i < |targets| {
      more := CountsItselfOut(more, g);
    }
  }

  /** No run is a dead end for Pause: it can always return, and then the machine is paused. */
  lemma EveryPauseCanReturn(states: seq<State>) returns (more: seq<State>)
    requires Run(states) && states[|states| - 1].pauser.Some?
    ensures Run(more) && states <= more && more[|more| - 1].pauser == None && more[|more| - 1].paused
  {
    var g := states[|states| - 1].pauser.value;
    RunKeeps(states, |states| - 1);
    RunPauses(states, |states| - 1);
    more := states;
    if !PauseDone(states[|states| - 1]) {
      more := EveryGuardCanHold(more, g);
      more := PauseSets(more, g);
    }
    if more[|more| - 1].guards[g].phase.Releasing? {
      RunKeeps(more, |more| - 1);
      assert PhaseOk(more[|more| - 1].guards[g]);
      more := CountsItselfOut(more, g);
    }
    var s := more[|more| - 1];
    var t := s.(pauser := None);
    assert PauseReturns(s, t);
    RunOn(more, t);
    more := more + [t];
  }

  /** The guard of Pause holds every vCPU: the machine is set to paused and the guard let go. */
  lemma PauseSets(states: seq<State>, g: nat) returns (more: seq<State>)
    requires Run(states) && states[|states| - 1].pauser == Some(g) && g < |states[|states| - 1].guards|
    requires states[|states| - 1].guards[g].phase == Held
    ensures Run(more) && states <= more && more[|more| - 1].paused && more[|more| - 1].pauser == Some(g)
    ensures g < |more[|more| - 1].guards| && more[|more| - 1].guards[g].phase == Releasing(0)
  {
    more := states;
    var s := states[|states| - 1];
    if !s.paused {
      var u := s.(paused := true);
      assert PauseCommits(s, u);
      RunOn(more, u);
      more, s := more + [u], u;
    }
    var t := s.(guards := s.guards[g := s.guards[g].(phase := Releasing(0))]);
    assert Release(s, t, g);
    assert GuardStep(s, t, g);
    RunOn(more, t);
    more := more + [t];
  }
}
