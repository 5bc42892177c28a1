/** Selecting the best candidate by a left-to-right scan that replaces the
    current best only on a strictly greater score, so the earliest of several
    equal maxima wins. */
module ArgMax {

  /** `i` is the position of the first maximum of `xs`. */
  predicate IsFirstMax(xs: seq<real>, i: int)
  {
    && 0 <= i < |xs|
    && (forall j :: 0 <= j < |xs| ==> xs[j] <= xs[i])
    && (forall j :: 0 <= j < i ==> xs[j] < xs[i])
  }

  /** A sequence has at most one first maximum. */
  lemma FirstMaxUnique(xs: seq<real>, i: int, j: int)
    requires IsFirstMax(xs, i) && IsFirstMax(xs, j)
    ensures i == j
  {
    assert xs[i] <= xs[j] && xs[j] <= xs[i];
  }

  /** `xs.reduce((maxIdx, x, i) => x > xs[maxIdx] ? i : maxIdx, 0)`, continued
      from position `i` with running best `best`. */
  function ReduceMax(xs: seq<real>, best: nat, i: nat): (r: nat)
    requires best < |xs| && best <= i <= |xs|
    requires forall j :: 0 <= j < i ==> xs[j] <= xs[best]
    requires forall j :: 0 <= j < best ==> xs[j] < xs[best]
    ensures IsFirstMax(xs, r)
    decreases |xs| - i
  {
    if i == |xs| then best
    else if xs[i] > xs[best] then ReduceMax(xs, i, i + 1)
    else ReduceMax(xs, best, i + 1)
  }

  /** The reduce with initial index 0 over a non-empty sequence. */
  function FirstArgMax(xs: seq<real>): (r: nat)
    requires |xs| > 0
    ensures IsFirstMax(xs, r)
  {
    ReduceMax(xs, 0, 0)
  }
}
