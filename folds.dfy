/**
 * The two folds the scripts' summaries are built from: concatenating what each element of a
 * list contributes, and counting the elements that satisfy a test. Both are written over an
 * abstract step, so what is proved here holds whatever the step does.
 */
module Folds {
  /** `[y for x in xs for y in f(x)]` */
  function FlatMap<T, U>(xs: seq<T>, f: T -> seq<U>): seq<U>
    decreases |xs|
  {
    if xs == [] then [] else FlatMap(xs[..|xs| - 1], f) + f(xs[|xs| - 1])
  }

  /** `sum(1 for x in xs if p(x))` */
  function CountIf<T>(xs: seq<T>, p: T -> bool): nat
    decreases |xs|
  {
    if xs == [] then 0 else CountIf(xs[..|xs| - 1], p) + (if p(xs[|xs| - 1]) then 1 else 0)
  }

  /** Appending one element appends what it contributes. */
  lemma FlatMapSnoc<T, U>(xs: seq<T>, x: T, f: T -> seq<U>)
    ensures FlatMap(xs + [x], f) == FlatMap(xs, f) + f(x)
  {
    assert (xs + [x])[..|xs|] == xs;
  }

  lemma CountIfSnoc<T>(xs: seq<T>, x: T, p: T -> bool)
    ensures CountIf(xs + [x], p) == CountIf(xs, p) + (if p(x) then 1 else 0)
  {
    assert (xs + [x])[..|xs|] == xs;
  }

  lemma {:induction false} FlatMapConcat<T, U>(xs: seq<T>, ys: seq<T>, f: T -> seq<U>)
    ensures FlatMap(xs + ys, f) == FlatMap(xs, f) + FlatMap(ys, f)
    decreases |ys|
  {
    if ys == [] {
      assert xs + ys == xs;
    } else {
      var init := ys[..|ys| - 1];
      FlatMapConcat(xs, init, f);
      assert xs + ys == (xs + init) + [ys[|ys| - 1]];
      FlatMapSnoc(xs + init, ys[|ys| - 1], f);
    }
  }

  lemma {:induction false} CountIfConcat<T>(xs: seq<T>, ys: seq<T>, p: T -> bool)
    ensures CountIf(xs + ys, p) == CountIf(xs, p) + CountIf(ys, p)
    decreases |ys|
  {
    if ys == [] {
      assert xs + ys == xs;
    } else {
      var init := ys[..|ys| - 1];
      CountIfConcat(xs, init, p);
      assert xs + ys == (xs + init) + [ys[|ys| - 1]];
      CountIfSnoc(xs + init, ys[|ys| - 1], p);
    }
  }

  /** At most every element is counted, and every one is exactly when all pass the test. */
  lemma {:induction false} CountIfAll<T>(xs: seq<T>, p: T -> bool)
    ensures CountIf(xs, p) <= |xs|
    ensures CountIf(xs, p) == |xs| <==> forall i :: 0 <= i < |xs| ==> p(xs[i])
    decreases |xs|
  {
    if xs != [] {
      var init := xs[..|xs| - 1];
      CountIfAll(init, p);
      assert forall i :: 0 <= i < |init| ==> init[i] == xs[i];
    }
  }

  /** Nothing is counted when no element passes the test. */
  lemma {:induction false} CountIfNone<T>(xs: seq<T>, p: T -> bool)
    requires forall i :: 0 <= i < |xs| ==> !p(xs[i])
    ensures CountIf(xs, p) == 0
    decreases |xs|
  {
    if xs != [] {
      CountIfNone(xs[..|xs| - 1], p);
    }
  }

  /** Every element contributes at most one value, so the results are no more than the elements that contribute. */
  lemma {:induction false} FlatMapLength<T, U>(xs: seq<T>, f: T -> seq<U>, p: T -> bool)
    requires forall x :: |f(x)| == (if p(x) then 0 else 1)
    ensures |FlatMap(xs, f)| + CountIf(xs, p) == |xs|
    decreases |xs|
  {
    if xs != [] {
      FlatMapLength(xs[..|xs| - 1], f, p);
    }
  }

  /** Every value in the result was contributed by some element. */
  lemma {:induction false} FlatMapFrom<T, U>(xs: seq<T>, f: T -> seq<U>, i: nat)
    requires i < |FlatMap(xs, f)|
    ensures exists k, j :: 0 <= k < |xs| && 0 <= j < |f(xs[k])| && FlatMap(xs, f)[i] == f(xs[k])[j]
    decreases |xs|
  {
    var init := xs[..|xs| - 1];
    if i < |FlatMap(init, f)| {
      FlatMapFrom(init, f, i);
      var k, j :| 0 <= k < |init| && 0 <= j < |f(init[k])| && FlatMap(init, f)[i] == f(init[k])[j];
      assert xs[k] == init[k];
    } else {
      var j := i - |FlatMap(init, f)|;
      assert FlatMap(xs, f)[i] == f(xs[|xs| - 1])[j];
    }
  }

  /** What one element adds when elements passing `skip` are passed over and the others are run. */
  function Guarded<T, U>(skip: T -> bool, run: T -> U): T -> seq<U>
  {
    (x: T) => if skip(x) then [] else [run(x)]
  }

  /**
   * The loop that passes over the elements `skip` selects, runs the others in order, and
   * counts the elements passed over and the results that `ok` accepts.
   */
  method Tally<T, U>(xs: seq<T>, skip: T -> bool, run: T -> U, ok: U -> bool)
    returns (results: seq<U>, skipped: nat, passed: nat)
    ensures results == FlatMap(xs, Guarded(skip, run))
    ensures skipped == CountIf(xs, skip) && passed == CountIf(results, ok)
  {
    results, skipped, passed := [], 0, 0;
    var b := 0;
    while b < |xs|
      invariant 0 <= b <= |xs|
      invariant results == FlatMap(xs[..b], Guarded(skip, run)) && skipped == CountIf(xs[..b], skip)
      invariant passed == CountIf(results, ok)
    {
      assert xs[..b + 1] == xs[..b] + [xs[b]];
      FlatMapSnoc(xs[..b], xs[b], Guarded(skip, run));
      CountIfSnoc(xs[..b], xs[b], skip);
      if skip(xs[b]) {
        skipped := skipped + 1;
      } else {
        var result := run(xs[b]);
        CountIfSnoc(results, result, ok);
        results := results + [result];
        passed := passed + (if ok(result) then 1 else 0);
      }
      b := b + 1;
    }
    assert xs[..b] == xs;
  }

  /** A left fold: each item updates the state left by the items before it. */
  function Fold<S, C>(s: S, cs: seq<C>, step: (S, C) -> S): S
    decreases |cs|
  {
    if cs == [] then s else step(Fold(s, cs[..|cs| - 1], step), cs[|cs| - 1])
  }

  /** One more item is one more step. */
  lemma FoldSnoc<S, C>(s: S, cs: seq<C>, c: C, step: (S, C) -> S)
    ensures Fold(s, cs + [c], step) == step(Fold(s, cs, step), c)
  {
    assert (cs + [c])[..|cs|] == cs;
  }

  /** Folding two items is two steps. */
  lemma FoldTwo<S, C>(s: S, a: C, b: C, step: (S, C) -> S)
    ensures Fold(s, [a, b], step) == step(step(s, a), b)
  {
    assert [a, b][..1] == [a] && [a][..0] == [];
    assert Fold(s, [a], step) == step(s, a);
  }

  /** Folding two runs of items is folding the second from the state the first leaves. */
  lemma {:induction false} FoldConcat<S, C>(s: S, a: seq<C>, b: seq<C>, step: (S, C) -> S)
    ensures Fold(s, a + b, step) == Fold(Fold(s, a, step), b, step)
    decreases |b|
  {
    if b == [] {
      assert a + b == a;
    } else {
      var init := b[..|b| - 1];
      FoldConcat(s, a, init, step);
      assert a + b == (a + init) + [b[|b| - 1]];
      FoldSnoc(s, a + init, b[|b| - 1], step);
      assert b == init + [b[|b| - 1]];
      FoldSnoc(Fold(s, a, step), init, b[|b| - 1], step);
    }
  }

  /** Passes run one after another, each on the previous one's output. */
  function Chain<S, C>(s: S, cs: seq<C>, step: (S, C) -> S): S
    decreases |cs|
  {
    if cs == [] then s else Chain(step(s, cs[0]), cs[1..], step)
  }

  /** What the passes of `Chain` report, in order, each on the state it ran on. */
  function ChainFlat<S, C, E>(s: S, cs: seq<C>, step: (S, C) -> S, out: (S, C) -> seq<E>): seq<E>
    decreases |cs|
  {
    if cs == [] then [] else out(s, cs[0]) + ChainFlat(step(s, cs[0]), cs[1..], step, out)
  }

  /** What the passes of `Chain` count, summed. */
  function ChainSum<S, C>(s: S, cs: seq<C>, step: (S, C) -> S, count: (S, C) -> nat): nat
    decreases |cs|
  {
    if cs == [] then 0 else count(s, cs[0]) + ChainSum(step(s, cs[0]), cs[1..], step, count)
  }

  /**
   * One more pass of a loop that threads a state through `cs`, extends a list of reports and
   * adds to a counter: when what remains from pass `i` yields the expected totals, so does
   * what remains after it.
   */
  lemma ChainAdvance<S, C, E>(cs: seq<C>, step: (S, C) -> S, out: (S, C) -> seq<E>, count: (S, C) -> nat,
                              i: nat, s: S, reported: seq<E>, total: nat, final: S, allReported: seq<E>, sum: nat)
    requires i < |cs|
    requires Chain(s, cs[i..], step) == final
    requires reported + ChainFlat(s, cs[i..], step, out) == allReported
    requires total + ChainSum(s, cs[i..], step, count) == sum
    ensures Chain(step(s, cs[i]), cs[i + 1..], step) == final
    ensures reported + out(s, cs[i]) + ChainFlat(step(s, cs[i]), cs[i + 1..], step, out) == allReported
    ensures total + count(s, cs[i]) + ChainSum(step(s, cs[i]), cs[i + 1..], step, count) == sum
  {
    assert cs[i..][0] == cs[i] && cs[i..][1..] == cs[i + 1..];
  }

  /** Two passes: the second runs on the first one's output, and their reports and counts add up in order. */
  lemma ChainTwo<S, C, E>(s: S, cs: seq<C>, step: (S, C) -> S, out: (S, C) -> seq<E>, count: (S, C) -> nat)
    requires |cs| == 2
    ensures Chain(s, cs, step) == step(step(s, cs[0]), cs[1])
    ensures ChainFlat(s, cs, step, out) == out(s, cs[0]) + out(step(s, cs[0]), cs[1])
    ensures ChainSum(s, cs, step, count) == count(s, cs[0]) + count(step(s, cs[0]), cs[1])
  {
    var mid := step(s, cs[0]);
    assert cs[1..][0] == cs[1] && cs[1..][1..] == [];
    assert Chain(mid, cs[1..], step) == Chain(step(mid, cs[1]), [], step);
    assert ChainFlat(mid, cs[1..], step, out) == out(mid, cs[1]) + ChainFlat(step(mid, cs[1]), [], step, out);
    assert ChainSum(mid, cs[1..], step, count) == count(mid, cs[1]) + ChainSum(step(mid, cs[1]), [], step, count);
  }

  /** `[f(x) for x in xs]` */
  function Map<T, U>(xs: seq<T>, f: T -> U): seq<U>
    decreases |xs|
  {
    if xs == [] then [] else Map(xs[..|xs| - 1], f) + [f(xs[|xs| - 1])]
  }

  /** `sum(f(x) for x in xs)` */
  function Sum<T>(xs: seq<T>, f: T -> nat): nat
    decreases |xs|
  {
    if xs == [] then 0 else Sum(xs[..|xs| - 1], f) + f(xs[|xs| - 1])
  }

  lemma MapSnoc<T, U>(xs: seq<T>, x: T, f: T -> U)
    ensures Map(xs + [x], f) == Map(xs, f) + [f(x)]
  {
    assert (xs + [x])[..|xs|] == xs;
  }

  lemma SumSnoc<T>(xs: seq<T>, x: T, f: T -> nat)
    ensures Sum(xs + [x], f) == Sum(xs, f) + f(x)
  {
    assert (xs + [x])[..|xs|] == xs;
  }

  /** `Map` keeps the length, and its `i`-th value is `f` of the `i`-th element. */
  lemma {:induction false} MapIndex<T, U>(xs: seq<T>, f: T -> U)
    ensures |Map(xs, f)| == |xs|
    ensures forall i :: 0 <= i < |xs| ==> Map(xs, f)[i] == f(xs[i])
    decreases |xs|
  {
    if xs != [] {
      var init := xs[..|xs| - 1];
      MapIndex(init, f);
      assert forall i :: 0 <= i < |init| ==> init[i] == xs[i];
    }
  }

  /**
   * One step of a loop that maps `xs`, sums `count` over it and keeps a flag for "every element
   * so far passed `ok`": taking in element `i` keeps all three in step with the prefix.
   */
  lemma MapTallyStep<T, W>(xs: seq<T>, i: nat, ok: T -> bool, count: T -> nat, f: T -> W,
                           total: nat, allOk: bool, ws: seq<W>)
    requires i < |xs|
    requires total == Sum(xs[..i], count)
    requires allOk <==> CountIf(xs[..i], ok) == i
    requires ws == Map(xs[..i], f)
    ensures total + count(xs[i]) == Sum(xs[..i + 1], count)
    ensures allOk && ok(xs[i]) <==> CountIf(xs[..i + 1], ok) == i + 1
    ensures ws + [f(xs[i])] == Map(xs[..i + 1], f)
  {
    assert xs[..i + 1] == xs[..i] + [xs[i]];
    SumSnoc(xs[..i], xs[i], count);
    MapSnoc(xs[..i], xs[i], f);
    CountIfSnoc(xs[..i], xs[i], ok);
    CountIfAll(xs[..i], ok);
  }
}
