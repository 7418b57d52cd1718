/** Running minimum and maximum: the value of an accumulator that starts at
    some initial value and is replaced by every element of a sequence that
    lies beyond it, element by element from the front. */
module Extents {

  /** The accumulator after `if (x < acc) acc = x` for every x of xs. */
  function MinOf(init: int, xs: seq<int>): int
    decreases |xs|
  {
    if |xs| == 0 then init
    else
      var acc := MinOf(init, xs[..|xs| - 1]);
      if xs[|xs| - 1] < acc then xs[|xs| - 1] else acc
  }

  /** The accumulator after `if (x > acc) acc = x` for every x of xs. */
  function MaxOf(init: int, xs: seq<int>): int
    decreases |xs|
  {
    if |xs| == 0 then init
    else
      var acc := MaxOf(init, xs[..|xs| - 1]);
      if xs[|xs| - 1] > acc then xs[|xs| - 1] else acc
  }

  /** One more element: the accumulator moves to it when it lies beyond. */
  lemma MinOfStep(init: int, xs: seq<int>, i: int)
    requires 0 <= i < |xs|
    ensures MinOf(init, xs[..i + 1]) == if xs[i] < MinOf(init, xs[..i]) then xs[i] else MinOf(init, xs[..i])
  {
    assert xs[..i + 1][..i] == xs[..i];
  }

  /** One more element: the accumulator moves to it when it lies beyond. */
  lemma MaxOfStep(init: int, xs: seq<int>, i: int)
    requires 0 <= i < |xs|
    ensures MaxOf(init, xs[..i + 1]) == if xs[i] > MaxOf(init, xs[..i]) then xs[i] else MaxOf(init, xs[..i])
  {
    assert xs[..i + 1][..i] == xs[..i];
  }

  /** The running minimum lies below its start and below every element. */
  lemma {:induction false} MinOfIsLowerBound(init: int, xs: seq<int>)
    ensures MinOf(init, xs) <= init
    ensures forall m :: 0 <= m < |xs| ==> MinOf(init, xs) <= xs[m]
  {
    if |xs| > 0 {
      MinOfIsLowerBound(init, xs[..|xs| - 1]);
    }
  }

  /** The running minimum is its start or one of the elements. */
  lemma {:induction false} MinOfIsAttained(init: int, xs: seq<int>)
    ensures MinOf(init, xs) == init || MinOf(init, xs) in xs
  {
    if |xs| > 0 {
      var front := xs[..|xs| - 1];
      MinOfIsAttained(init, front);
      assert forall x :: x in front ==> x in xs;
    }
  }

  /** The running maximum lies above its start and above every element. */
  lemma {:induction false} MaxOfIsUpperBound(init: int, xs: seq<int>)
    ensures MaxOf(init, xs) >= init
    ensures forall m :: 0 <= m < |xs| ==> MaxOf(init, xs) >= xs[m]
  {
    if |xs| > 0 {
      MaxOfIsUpperBound(init, xs[..|xs| - 1]);
    }
  }

  /** The running maximum is its start or one of the elements. */
  lemma {:induction false} MaxOfIsAttained(init: int, xs: seq<int>)
    ensures MaxOf(init, xs) == init || MaxOf(init, xs) in xs
  {
    if |xs| > 0 {
      var front := xs[..|xs| - 1];
      MaxOfIsAttained(init, front);
      assert forall x :: x in front ==> x in xs;
    }
  }

  /** Accumulating over xs and then over ys is accumulating over xs + ys. */
  lemma {:induction false} MinOfAppend(init: int, xs: seq<int>, ys: seq<int>)
    ensures MinOf(init, xs + ys) == MinOf(MinOf(init, xs), ys)
  {
    if |ys| == 0 {
      assert xs + ys == xs;
    } else {
      assert (xs + ys)[..|xs + ys| - 1] == xs + ys[..|ys| - 1];
      MinOfAppend(init, xs, ys[..|ys| - 1]);
    }
  }

  /** Accumulating over xs and then over ys is accumulating over xs + ys. */
  lemma {:induction false} MaxOfAppend(init: int, xs: seq<int>, ys: seq<int>)
    ensures MaxOf(init, xs + ys) == MaxOf(MaxOf(init, xs), ys)
  {
    if |ys| == 0 {
      assert xs + ys == xs;
    } else {
      assert (xs + ys)[..|xs + ys| - 1] == xs + ys[..|ys| - 1];
      MaxOfAppend(init, xs, ys[..|ys| - 1]);
    }
  }
}
