/** Sums over sequences: how much each element contributes, and what an update, an append or a removal changes. */
module Sums {

  /** The contributions `g(x, p)` of all elements, for one thing `p` being counted. */
  function Count<T, P>(xs: seq<T>, g: (T, P) -> nat, p: P): nat {
    if xs == [] then 0 else g(xs[0], p) + Count(xs[1..], g, p)
  }

  lemma {:induction false} CountConcat<T, P>(xs: seq<T>, ys: seq<T>, g: (T, P) -> nat, p: P)
    ensures Count(xs + ys, g, p) == Count(xs, g, p) + Count(ys, g, p)
  {
    if xs == [] {
      assert xs + ys == ys;
    } else {
      assert (xs + ys)[1..] == xs[1..] + ys;
      CountConcat(xs[1..], ys, g, p);
    }
  }

  lemma CountOne<T, P>(x: T, g: (T, P) -> nat, p: P)
    ensures Count([x], g, p) == g(x, p)
  {
    assert Count([x], g, p) == g(x, p) + Count([x][1..], g, p);
  }

  lemma CountAppend<T, P>(xs: seq<T>, x: T, g: (T, P) -> nat, p: P)
    ensures Count(xs + [x], g, p) == Count(xs, g, p) + g(x, p)
  {
    CountConcat(xs, [x], g, p);
    CountOne(x, g, p);
  }

  lemma CountSplit<T, P>(xs: seq<T>, i: nat, g: (T, P) -> nat, p: P)
    requires i < |xs|
    ensures Count(xs, g, p) == Count(xs[..i], g, p) + g(xs[i], p) + Count(xs[i + 1..], g, p)
  {
    assert xs == xs[..i] + ([xs[i]] + xs[i + 1..]);
    CountConcat(xs[..i], [xs[i]] + xs[i + 1..], g, p);
    CountConcat([xs[i]], xs[i + 1..], g, p);
    CountOne(xs[i], g, p);
  }

  lemma CountUpdate<T, P>(xs: seq<T>, i: nat, x: T, g: (T, P) -> nat, p: P)
    requires i < |xs|
    ensures g(xs[i], p) <= Count(xs, g, p)
    ensures Count(xs[i := x], g, p) == Count(xs, g, p) - g(xs[i], p) + g(x, p)
  {
    CountSplit(xs, i, g, p);
    CountSplit(xs[i := x], i, g, p);
    assert xs[i := x][..i] == xs[..i] && xs[i := x][i + 1..] == xs[i + 1..];
  }

  lemma CountRemove<T, P>(xs: seq<T>, i: nat, g: (T, P) -> nat, p: P)
    requires i < |xs|
    ensures g(xs[i], p) <= Count(xs, g, p)
    ensures Count(xs[..i] + xs[i + 1..], g, p) == Count(xs, g, p) - g(xs[i], p)
  {
    CountSplit(xs, i, g, p);
    CountConcat(xs[..i], xs[i + 1..], g, p);
  }

  /** Two different positions contribute separately. */
  lemma CountPair<T, P>(xs: seq<T>, i: nat, j: nat, g: (T, P) -> nat, p: P)
    requires i < |xs| && j < |xs| && i != j
    ensures g(xs[i], p) + g(xs[j], p) <= Count(xs, g, p)
  {
    CountSplit(xs, i, g, p);
    if j < i {
      CountSplit(xs[..i], j, g, p);
    } else {
      CountSplit(xs[i + 1..], j - i - 1, g, p);
    }
  }

  /** A positive sum has a contributing position. */
  lemma {:induction false} CountSource<T, P>(xs: seq<T>, g: (T, P) -> nat, p: P) returns (i: nat)
    requires Count(xs, g, p) > 0
    ensures i < |xs| && g(xs[i], p) > 0
  {
    if g(xs[0], p) > 0 {
      i := 0;
    } else {
      var k := CountSource(xs[1..], g, p);
      i := k + 1;
    }
  }

  lemma CountNothing<T, P>(xs: seq<T>, g: (T, P) -> nat, p: P)
    requires forall i :: 0 <= i < |xs| ==> g(xs[i], p) == 0
    ensures Count(xs, g, p) == 0
  {
    if Count(xs, g, p) > 0 {
      var i := CountSource(xs, g, p);
      assert false;
    }
  }
}
