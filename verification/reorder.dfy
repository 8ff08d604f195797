/** Running a sequence of updates one after the other, for any kind of state
    and update: when every two updates commute, the order they are run in
    does not matter. */
module Reorder {

  /** The updates `ops` applied one after the other with `step`, from `s`. */
  function Fold<S, O>(step: (S, O) -> S, s: S, ops: seq<O>): S {
    if ops == [] then s else Fold(step, step(s, ops[0]), ops[1..])
  }

  /** Four updates run in order. */
  lemma FoldFour<S, O>(step: (S, O) -> S, s: S, a: O, b: O, c: O, d: O)
    ensures Fold(step, s, [a, b, c, d]) == step(step(step(step(s, a), b), c), d)
  {
    assert [a, b, c, d][1..] == [b, c, d];
    assert [b, c, d][1..] == [c, d];
    assert [c, d][1..] == [d];
    assert [d][1..] == [];
    var s1 := step(s, a);
    var s2 := step(s1, b);
    var s3 := step(s2, c);
    assert Fold(step, s3, [d]) == step(s3, d);
    assert Fold(step, s2, [c, d]) == Fold(step, s3, [d]);
    assert Fold(step, s1, [b, c, d]) == Fold(step, s2, [c, d]);
  }

  /** Every two updates commute in every state. */
  ghost predicate Commutes<S(!new), O(!new)>(step: (S, O) -> S) {
    forall s: S, a: O, b: O :: step(step(s, a), b) == step(step(s, b), a)
  }

  /** `ops` without its element at position `i`. */
  function Without<O>(ops: seq<O>, i: nat): (r: seq<O>)
    requires i < |ops|
    ensures |r| == |ops| - 1
    ensures multiset(ops) == multiset(r) + multiset{ops[i]}
  {
    assert ops == ops[..i] + [ops[i]] + ops[i + 1..];
    ops[..i] + ops[i + 1..]
  }

  /** Running `xs ++ ys` is running `xs`, then `ys`. */
  lemma {:induction false} FoldAppend<S, O>(step: (S, O) -> S, s: S, xs: seq<O>, ys: seq<O>)
    ensures Fold(step, s, xs + ys) == Fold(step, Fold(step, s, xs), ys)
  {
    if xs == [] {
      assert xs + ys == ys;
    } else {
      assert (xs + ys)[0] == xs[0] && (xs + ys)[1..] == xs[1..] + ys;
      FoldAppend(step, step(s, xs[0]), xs[1..], ys);
      assert Fold(step, s, xs + ys) == Fold(step, step(s, xs[0]), xs[1..] + ys);
    }
  }

  /** With commuting updates, the update at position `i` can be run first. */
  lemma {:induction false} MoveToFront<S(!new), O(!new)>(step: (S, O) -> S, s: S, ops: seq<O>, i: nat)
    requires Commutes(step) && i < |ops|
    ensures Fold(step, s, ops) == Fold(step, step(s, ops[i]), Without(ops, i))
  {
    if i > 0 {
      var first, rest, x := ops[0], ops[1..], ops[i];
      assert rest[i - 1] == x;
      MoveToFront(step, step(s, first), rest, i - 1);
      var others := Without(rest, i - 1);
      assert Without(ops, i) == [first] + others;
      assert ([first] + others)[0] == first && ([first] + others)[1..] == others;
      assert step(step(s, first), x) == step(step(s, x), first);
      assert Fold(step, step(s, x), [first] + others) == Fold(step, step(step(s, x), first), others);
    } else {
      assert Without(ops, 0) == ops[1..];
    }
  }

  /** With commuting updates, two orders of the same updates end in the same
      state. */
  lemma {:induction false} FoldPermutation<S(!new), O(!new)>(step: (S, O) -> S, s: S, xs: seq<O>, ys: seq<O>)
    requires Commutes(step) && multiset(xs) == multiset(ys)
    ensures Fold(step, s, xs) == Fold(step, s, ys)
    decreases |xs|
  {
    if xs != [] {
      var x := xs[0];
      assert x in multiset(ys);
      var i :| 0 <= i < |ys| && ys[i] == x;
      MoveToFront(step, s, ys, i);
      var rest := Without(ys, i);
      assert xs == [x] + xs[1..];
      assert multiset(xs[1..]) == multiset(xs) - multiset{x};
      assert multiset(rest) == multiset(ys) - multiset{x};
      FoldPermutation(step, step(s, x), xs[1..], rest);
    }
  }

  /** `f` applied `k` times, from `s`. */
  function Iterate<S>(f: S -> S, s: S, k: nat): S {
    if k == 0 then s else Iterate(f, f(s), k - 1)
  }

  /** When `f` takes `s` to `z` and keeps `z`, any positive number of
      applications of `f` from `s` ends at `z`. */
  lemma {:induction false} IterateSettles<S>(f: S -> S, s: S, z: S, k: nat)
    requires f(s) == z && f(z) == z && k > 0
    ensures Iterate(f, s, k) == z
  {
    if k > 1 {
      IterateSettles(f, z, z, k - 1);
    }
  }

  /** Two updates run in order. */
  lemma FoldTwo<S, O>(step: (S, O) -> S, s: S, a: O, b: O)
    ensures Fold(step, s, [a, b]) == step(step(s, a), b)
  {
    assert [a, b][1..] == [b];
    assert [b][1..] == [];
    var s1 := step(s, a);
    assert Fold(step, s1, [b]) == step(s1, b);
  }

  /** `xs`, `k` times over. */
  function Repeat<O>(xs: seq<O>, k: nat): (r: seq<O>)
    ensures forall x :: x in r ==> x in xs
  {
    if k == 0 then [] else xs + Repeat(xs, k - 1)
  }

  /** When `f` runs the updates `xs` in every state, running `xs` `k` times
      over is applying `f` `k` times. */
  lemma {:induction false} FoldRepeat<S, O>(step: (S, O) -> S, f: S -> S, s: S, xs: seq<O>, k: nat)
    requires forall s' :: f(s') == Fold(step, s', xs)
    ensures Fold(step, s, Repeat(xs, k)) == Iterate(f, s, k)
  {
    if k > 0 {
      FoldAppend(step, s, xs, Repeat(xs, k - 1));
      FoldRepeat(step, f, f(s), xs, k - 1);
    }
  }
}
