/** Runs of a step function over a sequence of events. */
module Runs {

  function Fold<S, E>(step: (S, E) -> S, s: S, es: seq<E>): S {
    if es == [] then s else step(Fold(step, s, es[..|es| - 1]), es[|es| - 1])
  }

  /** Every step of the run satisfies p. */
  predicate Always<S, E>(step: (S, E) -> S, p: (S, E) -> bool, s: S, es: seq<E>) {
    es == [] || (Always(step, p, s, es[..|es| - 1]) && p(Fold(step, s, es[..|es| - 1]), es[|es| - 1]))
  }

  lemma FoldSnoc<S, E>(step: (S, E) -> S, s: S, es: seq<E>, e: E)
    ensures Fold(step, s, es + [e]) == step(Fold(step, s, es), e)
  {
    assert (es + [e])[..|es|] == es;
  }

  lemma AlwaysSnoc<S, E>(step: (S, E) -> S, p: (S, E) -> bool, s: S, es: seq<E>, e: E)
    ensures Always(step, p, s, es + [e]) <==> Always(step, p, s, es) && p(Fold(step, s, es), e)
  {
    assert (es + [e])[..|es|] == es;
  }

  lemma {:induction false} FoldConcat<S, E>(step: (S, E) -> S, s: S, es: seq<E>, more: seq<E>)
    ensures Fold(step, s, es + more) == Fold(step, Fold(step, s, es), more)
  {
    if more == [] {
      assert es + more == es;
    } else {
      var front := more[..|more| - 1];
      FoldConcat(step, s, es, front);
      assert es + more == (es + front) + [more[|more| - 1]];
      FoldSnoc(step, s, es + front, more[|more| - 1]);
    }
  }

  lemma {:induction false} AlwaysConcat<S, E>(step: (S, E) -> S, p: (S, E) -> bool, s: S, es: seq<E>, more: seq<E>)
    ensures Always(step, p, s, es + more) <==> Always(step, p, s, es) && Always(step, p, Fold(step, s, es), more)
  {
    if more == [] {
      assert es + more == es;
    } else {
      var (front, last) := (more[..|more| - 1], more[|more| - 1]);
      AlwaysConcat(step, p, s, es, front);
      FoldConcat(step, s, es, front);
      assert es + more == (es + front) + [last];
      AlwaysSnoc(step, p, s, es + front, last);
    }
  }

  lemma FoldOne<S, E>(step: (S, E) -> S, s: S, e: E)
    ensures Fold(step, s, [e]) == step(s, e)
  {
    assert [e] == [] + [e];
    FoldSnoc(step, s, [], e);
  }

  lemma FoldFour<S, E>(step: (S, E) -> S, s: S, a: E, b: E, c: E, d: E)
    ensures Fold(step, s, [a, b, c, d]) == step(step(step(step(s, a), b), c), d)
  {
    FoldOne(step, s, a);
    assert [a, b] == [a] + [b] && [a, b, c] == [a, b] + [c] && [a, b, c, d] == [a, b, c] + [d];
    FoldSnoc(step, s, [a], b);
    FoldSnoc(step, s, [a, b], c);
    FoldSnoc(step, s, [a, b, c], d);
  }
}
