/** Definitions shared by all components. */
module Common {

  datatype Option<+T> = None | Some(value: T)

  /** How deep large invariants are folded away. A predicate that is `Invariant(x)` when bare and itself
      under one fold less otherwise, used at the unknown depth `VEIL`, can be handed from method to
      method as it is; a lemma by induction on the depth opens it. `== true` keeps the verifier from taking
      the folded conjuncts apart. */
  datatype Veil = Bare | Fold(inner: Veil)

  type Folded = v: Veil | v.Fold? && v.inner.Fold? && v.inner.inner.Fold? && v.inner.inner.inner.Fold?
    witness Fold(Fold(Fold(Fold(Bare))))

  ghost const VEIL: Folded

  /** The numbers below `n`. */
  lemma Range(n: nat) returns (r: set<nat>)
    ensures |r| == n && forall x: nat :: x in r <==> x < n
  {
    r := {};
    var i := 0;
    while i < n
      invariant i <= n && |r| == i && forall x: nat :: x in r <==> x < i
    {
      r := r + {i};
      i := i + 1;
    }
  }
}
