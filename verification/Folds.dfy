/** Reading a sequence from left to right with a state, part by part. */
module Folds {
  import opened Common

  function Fold<S, E>(step: (S, E) -> S, s: S, es: seq<E>): S {
    if es == [] then s else step(Fold(step, s, es[..|es| - 1]), es[|es| - 1])
  }

  lemma {:induction false} FoldConcat<S, E>(step: (S, E) -> S, s: S, a: seq<E>, b: seq<E>)
    ensures Fold(step, s, a + b) == Fold(step, Fold(step, s, a), b)
  {
    if b == [] {
      assert a + b == a;
    } else {
      FoldConcat(step, s, a, b[..|b| - 1]);
      assert (a + b)[..|a + b| - 1] == a + b[..|b| - 1];
    }
  }

  lemma FoldOne<S, E>(step: (S, E) -> S, s: S, e: E)
    ensures Fold(step, s, [e]) == step(s, e)
  {
    assert [e][..0] == [];
  }

  /** Elements that leave the state alone. */
  lemma {:induction false} FoldKeeps<S, E>(step: (S, E) -> S, s: S, es: seq<E>)
    requires forall e :: e in es ==> step(s, e) == s
    ensures Fold(step, s, es) == s
  {
    if es != [] {
      FoldKeeps(step, s, es[..|es| - 1]);
      assert es[|es| - 1] in es;
    }
  }

  /** Each of the first n parts leads from one state to the next. */
  ghost predicate Leads<S, E>(step: (S, E) -> S, parts: seq<seq<E>>, states: seq<S>, n: nat) {
    && n <= |parts| && n < |states|
    && forall k :: 0 <= k < n ==> Fold(step, states[k], parts[k]) == states[k + 1]
  }

  lemma {:induction false} FoldParts<S, E>(step: (S, E) -> S, parts: seq<seq<E>>, states: seq<S>, n: nat)
    requires Leads(step, parts, states, n)
    ensures Fold(step, states[0], Concat(parts, n)) == states[n]
  {
    if n > 0 {
      FoldParts(step, parts, states, n - 1);
      FoldConcat(step, states[0], Concat(parts, n - 1), parts[n - 1]);
    }
  }
}
