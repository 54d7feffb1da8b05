/** Two deterministic processes whose steps commute: all their interleavings end the same way. */
module Confluence {
  import opened Common

  type Process<!S> = S -> Option<S>

  ghost predicate Step<S>(a: Process<S>, b: Process<S>, s: S, t: S) {
    a(s) == Some(t) || b(s) == Some(t)
  }

  ghost predicate Terminal<S>(a: Process<S>, b: Process<S>, s: S) {
    a(s) == None && b(s) == None
  }

  /** A step of one process neither disables nor changes a step of the other. */
  ghost predicate Commute<S(!new)>(a: Process<S>, b: Process<S>) {
    forall s :: a(s).Some? && b(s).Some? ==> b(a(s).value).Some? && b(a(s).value) == a(b(s).value)
  }

  /** Some run of `n` steps leads from `s` to `f`. */
  ghost predicate Reaches<S>(a: Process<S>, b: Process<S>, s: S, n: nat, f: S)
    decreases n
  {
    if n == 0 then s == f
    else (a(s).Some? && Reaches(a, b, a(s).value, n - 1, f)) || (b(s).Some? && Reaches(a, b, b(s).value, n - 1, f))
  }

  /** From where one run ends after `n` steps, every first step leads to a run of `n - 1`. */
  lemma {:induction false} EveryStepLeadsOn<S(!new)>(a: Process<S>, b: Process<S>, s: S, n: nat, f: S, t: S)
    requires Commute(a, b) && Reaches(a, b, s, n, f) && Terminal(a, b, f) && Step(a, b, s, t)
    ensures n > 0 && Reaches(a, b, t, n - 1, f)
    decreases n
  {
    assert n > 0;
    if a(s).Some? && b(s).Some? {
      var u := a(b(s).value).value;
      if Reaches(a, b, a(s).value, n - 1, f) {
        EveryStepLeadsOn(a, b, a(s).value, n - 1, f, u);
      } else {
        EveryStepLeadsOn(a, b, b(s).value, n - 1, f, u);
      }
    }
  }

  ghost predicate Run<S>(a: Process<S>, b: Process<S>, states: seq<S>) {
    |states| > 0 && forall i :: 0 <= i < |states| - 1 ==> Step(a, b, states[i], states[i + 1])
  }

  lemma {:induction false} RunLeadsOn<S(!new)>(a: Process<S>, b: Process<S>, states: seq<S>, n: nat, f: S, k: nat)
    requires Commute(a, b) && Run(a, b, states) && Reaches(a, b, states[0], n, f) && Terminal(a, b, f) && k < |states|
    ensures k <= n && Reaches(a, b, states[k], n - k, f)
  {
    if k > 0 {
      RunLeadsOn(a, b, states, n, f, k - 1);
      assert Step(a, b, states[k - 1], states[k]);
      EveryStepLeadsOn(a, b, states[k - 1], n - (k - 1), f, states[k]);
    }
  }

  /** One run that ends in `f` decides: every run is at most as long and can be continued to `f`, and a
      run that cannot be continued has ended in `f`. */
  lemma EveryRunEndsTheSame<S(!new)>(a: Process<S>, b: Process<S>, states: seq<S>, n: nat, f: S)
    requires Commute(a, b) && Run(a, b, states) && Reaches(a, b, states[0], n, f) && Terminal(a, b, f)
    ensures |states| - 1 <= n && Reaches(a, b, states[|states| - 1], n - (|states| - 1), f)
    ensures Terminal(a, b, states[|states| - 1]) ==> states[|states| - 1] == f
  {
    RunLeadsOn(a, b, states, n, f, |states| - 1);
  }

  ghost predicate Leads<S>(a: Process<S>, b: Process<S>, s: S, t: S) {
    exists n: nat :: Reaches(a, b, s, n, t)
  }

  lemma {:induction false} ReachesOn<S>(a: Process<S>, b: Process<S>, s: S, m: nat, t: S, n: nat, u: S)
    requires Reaches(a, b, s, m, t) && Reaches(a, b, t, n, u)
    ensures Reaches(a, b, s, m + n, u)
    decreases m
  {
    if m > 0 {
      if a(s).Some? && Reaches(a, b, a(s).value, m - 1, t) {
        ReachesOn(a, b, a(s).value, m - 1, t, n, u);
      } else {
        ReachesOn(a, b, b(s).value, m - 1, t, n, u);
      }
    }
  }

  lemma LeadsOn<S>(a: Process<S>, b: Process<S>, s: S, t: S, u: S)
    requires Leads(a, b, s, t) && Leads(a, b, t, u)
    ensures Leads(a, b, s, u)
  {
    var m: nat :| Reaches(a, b, s, m, t);
    var n: nat :| Reaches(a, b, t, n, u);
    ReachesOn(a, b, s, m, t, n, u);
  }

  lemma LeadsByOne<S>(a: Process<S>, b: Process<S>, s: S, t: S)
    requires Step(a, b, s, t)
    ensures Leads(a, b, s, t)
  {
    assert Reaches(a, b, t, 0, t);
    assert Reaches(a, b, s, 1, t);
  }

  lemma LeadsNowhere<S>(a: Process<S>, b: Process<S>, s: S)
    ensures Leads(a, b, s, s)
  {
    assert Reaches(a, b, s, 0, s);
  }
}
