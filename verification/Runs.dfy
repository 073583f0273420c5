/** Runs of a machine: a step function applied to one action after another. What
    every step keeps, every run keeps; how each step moves on, each run moves on. */
module Runs {
  function Run<X, A>(step: (X, A) -> X, x: X, actions: seq<A>): X
    decreases |actions|
  {
    if actions == [] then x else Run(step, step(x, actions[0]), actions[1..])
  }

  ghost predicate Kept<X(!new), A(!new)>(step: (X, A) -> X, inv: X -> bool, allowed: A -> bool)
  {
    forall x, a {:trigger inv(x), step(x, a)} :: inv(x) && allowed(a) ==> inv(step(x, a))
  }

  ghost predicate Allowed<A>(actions: seq<A>, allowed: A -> bool)
  {
    forall i :: 0 <= i < |actions| ==> allowed(actions[i])
  }

  lemma {:induction false} RunKeeps<X(!new), A(!new)>(step: (X, A) -> X, x: X, actions: seq<A>,
                                                            inv: X -> bool, allowed: A -> bool)
    requires inv(x) && Kept(step, inv, allowed) && Allowed(actions, allowed)
    ensures inv(Run(step, x, actions))
    decreases |actions|
  {
    if actions == [] {
    } else {
      RunKeeps(step, step(x, actions[0]), actions[1..], inv, allowed);
    }
  }

  ghost predicate Preorder<X(!new)>(rel: (X, X) -> bool)
  {
    && (forall x :: rel(x, x))
    && (forall x, y, z {:trigger rel(x, y), rel(y, z)} :: rel(x, y) && rel(y, z) ==> rel(x, z))
  }

  ghost predicate Moves<X(!new), A(!new)>(step: (X, A) -> X, inv: X -> bool, rel: (X, X) -> bool)
  {
    forall x, a {:trigger inv(x), step(x, a)} :: inv(x) ==> rel(x, step(x, a))
  }

  lemma {:induction false} RunMoves<X(!new), A(!new)>(step: (X, A) -> X, x: X, actions: seq<A>,
                                                            inv: X -> bool, rel: (X, X) -> bool)
    requires inv(x) && Kept(step, inv, _ => true) && Preorder(rel) && Moves(step, inv, rel)
    ensures rel(x, Run(step, x, actions))
    decreases |actions|
  {
    if actions == [] {
    } else {
      RunMoves(step, step(x, actions[0]), actions[1..], inv, rel);
    }
  }

  lemma {:induction false} RunOfTwoParts<X, A>(step: (X, A) -> X, x: X, a: seq<A>, b: seq<A>)
    ensures Run(step, x, a + b) == Run(step, Run(step, x, a), b)
    decreases |a|
  {
    if a == [] {
      assert a + b == b;
    } else {
      assert (a + b)[1..] == a[1..] + b;
      RunOfTwoParts(step, step(x, a[0]), a[1..], b);
    }
  }

  lemma RunOne<X, A>(step: (X, A) -> X, x: X, a: A, rest: seq<A>)
    ensures Run(step, x, [a] + rest) == Run(step, step(x, a), rest)
  {
    assert ([a] + rest)[1..] == rest;
  }

  lemma RunOfOne<X, A>(step: (X, A) -> X, x: X, a: A)
    ensures Run(step, x, [a]) == step(x, a)
  {
    var none: seq<A> := [];
    RunOne(step, x, a, none);
    assert [a] + none == [a];
  }

  lemma RunOfTwo<X, A>(step: (X, A) -> X, x: X, a: A, b: A)
    ensures Run(step, x, [a, b]) == step(step(x, a), b)
  {
    RunOne(step, x, a, [b]);
    RunOfOne(step, step(x, a), b);
    assert [a] + [b] == [a, b];
  }

  lemma RunOfThree<X, A>(step: (X, A) -> X, x: X, a: A, b: A, c: A)
    ensures Run(step, x, [a, b, c]) == step(step(step(x, a), b), c)
  {
    RunOne(step, x, a, [b, c]);
    RunOfTwo(step, step(x, a), b, c);
    assert [a] + [b, c] == [a, b, c];
  }
}
