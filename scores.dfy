/** Log-probability scores as the decoder's numpy arithmetic treats them:
    a score is either -oo (the logarithm of probability 0) or a finite real.
    Adding -oo to anything gives -oo, -oo is below every finite score, and
    `np.max` / `np.argmax` take the largest entry and the lowest index of a
    largest entry. No score the decoder forms is +oo or NaN, so those two
    values are not part of the type. */
module Scores {

  datatype Score = NegInf | Fin(v: real)

  /** Floating-point addition restricted to -oo and finite values. */
  function Plus(a: Score, b: Score): (r: Score)
    ensures r.Fin? <==> a.Fin? && b.Fin?
    ensures r.Fin? ==> r.v == a.v + b.v
  {
    if a.NegInf? || b.NegInf? then NegInf else Fin(a.v + b.v)
  }

  /** `a <= b` in the extended order. */
  predicate Leq(a: Score, b: Score)
  {
    a.NegInf? || (b.Fin? && a.v <= b.v)
  }

  /** `a < b` in the extended order. */
  predicate Lt(a: Score, b: Score)
  {
    b.Fin? && (a.NegInf? || a.v < b.v)
  }

  /** The order is total and `Lt` is its strict part. */
  lemma {:induction false} OrderTotal(a: Score, b: Score)
    ensures Leq(a, b) || Leq(b, a)
    ensures Lt(a, b) <==> !Leq(b, a)
    ensures Leq(a, b) && Leq(b, a) ==> a == b
  {
  }

  /** Adding the same score to both sides keeps `<=`; adding a finite one
      also keeps `<`. */
  lemma {:induction false} PlusMonotone(a: Score, b: Score, c: Score)
    ensures Leq(a, b) ==> Leq(Plus(a, c), Plus(b, c))
    ensures Lt(a, b) && c.Fin? ==> Lt(Plus(a, c), Plus(b, c))
    ensures Leq(a, b) ==> Leq(Plus(c, a), Plus(c, b))
  {
  }

  /** The model of `np.log` on probabilities: log 0 = -oo and strictly
      increasing on [0, oo). Nothing else about the logarithm is used. */
  ghost predicate IsLog(log: real -> Score)
  {
    && log(0.0) == NegInf
    && forall x: real, y: real :: 0.0 <= x < y ==> Lt(log(x), log(y))
  }

  /** Under IsLog, a positive probability has a finite logarithm. */
  lemma {:induction false} LogOfPositive(log: real -> Score, x: real)
    requires IsLog(log) && x > 0.0
    ensures log(x).Fin?
  {
    assert Lt(log(0.0), log(x));
  }

  // ---------------------------------------------------------------------
  // np.max and np.argmax over a non-empty vector

  // Both are computed by index over a prefix. Their quantified facts are
  // lemmas rather than postconditions: as postconditions they would be
  // instantiated at every entry of every nested lattice column the
  // decoder's proofs mention.

  /** The largest entry: one of the entries (that it bounds all of them is
      MaxOfIsMax). */
  function MaxOf(xs: seq<Score>): (r: Score)
    requires |xs| >= 1
    ensures r in xs
  {
    MaxUpToIsMax(xs, |xs|);
    MaxUpTo(xs, |xs|)
  }

  /** The largest of xs[0], ..., xs[k - 1]. */
  function MaxUpTo(xs: seq<Score>, k: nat): Score
    requires 1 <= k <= |xs|
  {
    if k == 1 then xs[0]
    else
      var r0 := MaxUpTo(xs, k - 1);
      if Lt(r0, xs[k - 1]) then xs[k - 1] else r0
  }

  /** MaxUpTo is one of its k entries and bounds all of them. */
  lemma {:induction false} MaxUpToIsMax(xs: seq<Score>, k: nat)
    requires 1 <= k <= |xs|
    ensures exists j :: 0 <= j < k && xs[j] == MaxUpTo(xs, k)
    ensures forall i :: 0 <= i < k ==> Leq(xs[i], MaxUpTo(xs, k))
    decreases k
  {
    if k == 1 {
      assert xs[0] == MaxUpTo(xs, 1);
    } else {
      MaxUpToIsMax(xs, k - 1);
      var j :| 0 <= j < k - 1 && xs[j] == MaxUpTo(xs, k - 1);
      if Lt(MaxUpTo(xs, k - 1), xs[k - 1]) {
        assert xs[k - 1] == MaxUpTo(xs, k);
      } else {
        assert xs[j] == MaxUpTo(xs, k);
        OrderTotal(MaxUpTo(xs, k - 1), xs[k - 1]);
      }
    }
  }

  /** MaxOf is an entry and bounds every entry. */
  lemma {:induction false} MaxOfIsMax(xs: seq<Score>)
    requires |xs| >= 1
    ensures MaxOf(xs) in xs
    ensures forall i :: 0 <= i < |xs| ==> Leq(xs[i], MaxOf(xs))
  {
    MaxUpToIsMax(xs, |xs|);
    var j :| 0 <= j < |xs| && xs[j] == MaxUpTo(xs, |xs|);
    assert xs[j] == MaxOf(xs);
  }

  /** The lowest index of a largest entry (see FirstArgMaxIsArgMax). */
  function FirstArgMax(xs: seq<Score>): (r: nat)
    requires |xs| >= 1
    ensures r < |xs|
  {
    ArgMaxUpTo(xs, |xs|)
  }

  /** The lowest index of a largest entry among xs[0], ..., xs[k - 1]. */
  function ArgMaxUpTo(xs: seq<Score>, k: nat): (r: nat)
    requires 1 <= k <= |xs|
    ensures r < k
  {
    if k == 1 then 0
    else
      var r0 := ArgMaxUpTo(xs, k - 1);
      if Lt(xs[r0], xs[k - 1]) then k - 1 else r0
  }

  /** ArgMaxUpTo holds a largest of its k entries, and every entry before
      it is strictly smaller. */
  lemma {:induction false} ArgMaxUpToIsArgMax(xs: seq<Score>, k: nat)
    requires 1 <= k <= |xs|
    ensures forall i :: 0 <= i < k ==> Leq(xs[i], xs[ArgMaxUpTo(xs, k)])
    ensures forall i :: 0 <= i < ArgMaxUpTo(xs, k) ==> Lt(xs[i], xs[ArgMaxUpTo(xs, k)])
    decreases k
  {
    if k > 1 {
      ArgMaxUpToIsArgMax(xs, k - 1);
    }
  }

  /** FirstArgMax holds a largest entry, and every entry before it is
      strictly smaller. */
  lemma {:induction false} FirstArgMaxIsArgMax(xs: seq<Score>)
    requires |xs| >= 1
    ensures forall i :: 0 <= i < |xs| ==> Leq(xs[i], xs[FirstArgMax(xs)])
    ensures forall i :: 0 <= i < FirstArgMax(xs) ==> Lt(xs[i], xs[FirstArgMax(xs)])
  {
    ArgMaxUpToIsArgMax(xs, |xs|);
  }

  /** np.max and np.argmax agree: the first argmax holds the maximum. */
  lemma {:induction false} MaxAtFirstArgMax(xs: seq<Score>)
    requires |xs| >= 1
    ensures xs[FirstArgMax(xs)] == MaxOf(xs)
  {
    var r, mx := FirstArgMax(xs), MaxOf(xs);
    MaxOfIsMax(xs);
    FirstArgMaxIsArgMax(xs);
    var j :| 0 <= j < |xs| && xs[j] == mx;
    OrderTotal(xs[r], mx);
  }

  /** The two properties of FirstArgMax's contract determine it. */
  lemma {:induction false} FirstArgMaxUnique(xs: seq<Score>, r: nat)
    requires r < |xs|
    requires forall i :: 0 <= i < |xs| ==> Leq(xs[i], xs[r])
    requires forall i :: 0 <= i < r ==> Lt(xs[i], xs[r])
    ensures FirstArgMax(xs) == r
  {
    var a := FirstArgMax(xs);
    FirstArgMaxIsArgMax(xs);
    if a < r {
      OrderTotal(xs[a], xs[r]);
    } else if r < a {
      OrderTotal(xs[r], xs[a]);
    }
  }

  /** The lowest-index tie-break: on a vector of equal entries the argmax is 0. */
  lemma {:induction false} FirstArgMaxOfTie(xs: seq<Score>)
    requires |xs| >= 1
    requires forall i :: 0 <= i < |xs| ==> xs[i] == xs[0]
    ensures FirstArgMax(xs) == 0
  {
    FirstArgMaxUnique(xs, 0);
  }

  /** Adding one finite score to every entry does not move the first argmax. */
  lemma {:induction false} FirstArgMaxShifted(xs: seq<Score>, ys: seq<Score>, c: Score)
    requires |xs| >= 1 && |ys| == |xs| && c.Fin?
    requires forall i :: 0 <= i < |xs| ==> ys[i] == Plus(c, xs[i])
    ensures FirstArgMax(ys) == FirstArgMax(xs)
  {
    var b := FirstArgMax(xs);
    FirstArgMaxIsArgMax(xs);
    forall i | 0 <= i < |xs|
      ensures Leq(ys[i], ys[b]) && (i < b ==> Lt(ys[i], ys[b]))
    {
    }
    FirstArgMaxUnique(ys, b);
  }
}
