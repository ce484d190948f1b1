/** Trikarma Purification: first-order Viterbi decoding of a withered
    observation record into the most likely sequence of elemental states.

    Scores are natural-log probabilities, as in the source: `Score` from
    module Scores, with -oo for probability 0. The logarithm itself
    (`np.log`) is the model's `log` field. Everything about the lattice, the
    backtrack and optimality holds for any such function. The facts about
    the default constants assume only `Scores.IsLog`: log 0 = -oo, and log
    strictly increasing on [0, oo). */
module Nahida {
  import Constants
  import opened Scores

  /** The decoder's parameters: transition matrix `base` (N x N), emission
      matrix `emission` (N x M), the N state labels, and the logarithm the
      scores are taken with. */
  datatype Model<L> = Model(base: seq<seq<real>>, emission: seq<seq<real>>, states: seq<L>, log: real -> Score)
  {
    /** The shapes the source's numpy expressions need: at least one state,
        a square transition matrix and one emission row of common width per
        state. */
    predicate Valid()
    {
      && |states| >= 1
      && |base| == |states|
      && (forall p :: 0 <= p < |base| ==> |base[p]| == |states|)
      && |emission| == |states|
      && (forall s :: 0 <= s < |emission| ==> |emission[s]| == |emission[0]|)
    }

    /** The number of observation symbols M. */
    function Symbols(): nat
      requires Valid()
    {
      |emission[0]|
    }
  }

  /** The parameter set the decoder uses by default, scored with `log`. */
  function DefaultModel(log: real -> Score): (m: Model<char>)
    ensures m.Valid() && m.log == log
    ensures m.states == Constants.Elements() && m.Symbols() == 8
    ensures m.base == Constants.BaseMatrix() && m.emission == Constants.EmissionMatrix()
  {
    Model(Constants.BaseMatrix(), Constants.EmissionMatrix(), Constants.Elements(), log)
  }

  /** A decodable observation sequence: non-empty, every index a column of
      the emission matrix. */
  predicate ValidObs<L>(m: Model<L>, obs: seq<nat>)
    requires m.Valid()
  {
    |obs| >= 1 && forall t :: 0 <= t < |obs| ==> obs[t] < m.Symbols()
  }

  // ---------------------------------------------------------------------
  // The log-probability tables

  /** The three log quantities the decoder adds: `np.log(1/n_states)`, and
      the elementwise logs of the transition and emission matrices. */
  datatype Tables = Tables(prior: Score, base: seq<seq<Score>>, emission: seq<seq<Score>>)

  /** The logs of a model's parameters. */
  function LogTables<L>(m: Model<L>): (lt: Tables)
    requires m.Valid()
    ensures |lt.base| == |m.states| && |lt.emission| == |m.states|
    ensures lt.prior == m.log(1.0 / (|m.states| as real))
    ensures forall p :: 0 <= p < |m.states| ==> |lt.base[p]| == |m.states|
    ensures forall p, s :: 0 <= p < |m.states| && 0 <= s < |m.states| ==> lt.base[p][s] == m.log(m.base[p][s])
    ensures forall s :: 0 <= s < |m.states| ==> |lt.emission[s]| == m.Symbols()
    ensures forall s, o :: 0 <= s < |m.states| && 0 <= o < m.Symbols() ==> lt.emission[s][o] == m.log(m.emission[s][o])
  {
    var n, k := |m.states|, m.Symbols();
    Tables(
      m.log(1.0 / (n as real)),
      seq(n, p requires 0 <= p < n => seq(n, s requires 0 <= s < n => m.log(m.base[p][s]))),
      seq(n, s requires 0 <= s < n => seq(k, o requires 0 <= o < k => m.log(m.emission[s][o]))))
  }

  /** Tables of N >= 1 states with a square transition table and emission
      rows of one width, and a non-empty observation sequence of symbols of
      that width. */
  predicate Decodable(lt: Tables, obs: seq<nat>)
  {
    && |lt.base| >= 1
    && (forall p :: 0 <= p < |lt.base| ==> |lt.base[p]| == |lt.base|)
    && |lt.emission| == |lt.base|
    && (forall s :: 0 <= s < |lt.emission| ==> |lt.emission[s]| == |lt.emission[0]|)
    && |obs| >= 1
    && (forall t :: 0 <= t < |obs| ==> obs[t] < |lt.emission[0]|)
  }

  /** A valid model and observation sequence give decodable tables. */
  lemma {:induction false} LogTablesDecodable<L>(m: Model<L>, obs: seq<nat>)
    requires m.Valid() && ValidObs(m, obs)
    ensures Decodable(LogTables(m), obs)
  {
  }

  /** A sequence of state indices. */
  predicate IsStatePath(lt: Tables, q: seq<nat>)
  {
    forall i :: 0 <= i < |q| ==> q[i] < |lt.base|
  }

  // ---------------------------------------------------------------------
  // The decoding lattice as functions of the inputs

  /** One step of a path's score: `score + log T[p, s] + log E[s, o]`,
      added left to right as numpy adds the three terms. */
  function Extend(score: Score, trans: Score, emit: Score): (r: Score)
    ensures r.Fin? <==> score.Fin? && trans.Fin? && emit.Fin?
    ensures r.Fin? ==> r.v == score.v + trans.v + emit.v
  {
    Plus(Plus(score, trans), emit)
  }

  /** Extend is monotone in the score it extends. */
  lemma {:induction false} ExtendMonotone(a: Score, b: Score, trans: Score, emit: Score)
    requires Leq(a, b)
    ensures Leq(Extend(a, trans, emit), Extend(b, trans, emit))
  {
    PlusMonotone(a, b, trans);
    PlusMonotone(Plus(a, trans), Plus(b, trans), emit);
  }

  /** Entry p of the vector `log_probs` at time t >= 1 for state s:
      lattice entry (p, t - 1), then p -> s, then s emits obs[t]. */
  function Cand(lt: Tables, obs: seq<nat>, t: nat, s: nat, p: nat): (r: Score)
    requires Decodable(lt, obs) && 1 <= t < |obs| && s < |lt.base| && p < |lt.base|
    ensures r.Fin? ==> lt.prior.Fin? && lt.base[p][s].Fin? && lt.emission[s][obs[t]].Fin?
    decreases t, 0
  {
    Extend(V(lt, obs, t - 1, p), lt.base[p][s], lt.emission[s][obs[t]])
  }

  /** Lattice entry `viterbi[s, t]`: at t = 0 the log prior plus the first
      log emission; after that `np.max(log_probs)`, which is the candidate at
      the first argmax (CandidatesBelowV shows it is the largest, VIsBestScore
      that it is the best score of a path ending in s). A finite entry needs
      a finite prior and a state s that can emit obs[t]. */
  function V(lt: Tables, obs: seq<nat>, t: nat, s: nat): (r: Score)
    requires Decodable(lt, obs) && t < |obs| && s < |lt.base|
    ensures r.Fin? ==> lt.prior.Fin? && lt.emission[s][obs[t]].Fin?
    decreases t, |lt.base| + 1
  {
    if t == 0 then Plus(lt.prior, lt.emission[s][obs[0]])
    else Cand(lt, obs, t, s, Arg(lt, obs, t, s, |lt.base|))
  }

  /** The lowest p < k whose candidate is largest among the first k. */
  function Arg(lt: Tables, obs: seq<nat>, t: nat, s: nat, k: nat): (r: nat)
    requires Decodable(lt, obs) && 1 <= t < |obs| && s < |lt.base| && 1 <= k <= |lt.base|
    ensures r < k
    decreases t, k
  {
    if k == 1 then 0
    else
      var r0 := Arg(lt, obs, t, s, k - 1);
      if Lt(Cand(lt, obs, t, s, r0), Cand(lt, obs, t, s, k - 1)) then k - 1 else r0
  }

  /** Entry `backpointer[s, t]`, for t >= 1: `np.argmax(log_probs)`. */
  function Back(lt: Tables, obs: seq<nat>, t: nat, s: nat): (p: nat)
    requires Decodable(lt, obs) && 1 <= t < |obs| && s < |lt.base|
    ensures p < |lt.base|
  {
    Arg(lt, obs, t, s, |lt.base|)
  }

  /** Arg(k) holds a largest of the first k candidates and every candidate
      before it is strictly smaller. */
  lemma {:induction false} ArgIsFirstArgMax(lt: Tables, obs: seq<nat>, t: nat, s: nat, k: nat)
    requires Decodable(lt, obs) && 1 <= t < |obs| && s < |lt.base| && 1 <= k <= |lt.base|
    ensures forall p :: 0 <= p < k ==> Leq(Cand(lt, obs, t, s, p), Cand(lt, obs, t, s, Arg(lt, obs, t, s, k)))
    ensures forall p :: 0 <= p < Arg(lt, obs, t, s, k) ==> Lt(Cand(lt, obs, t, s, p), Cand(lt, obs, t, s, Arg(lt, obs, t, s, k)))
    decreases k
  {
    if k > 1 {
      ArgIsFirstArgMax(lt, obs, t, s, k - 1);
      var r0 := Arg(lt, obs, t, s, k - 1);
      OrderTotal(Cand(lt, obs, t, s, r0), Cand(lt, obs, t, s, k - 1));
    }
  }

  /** `np.max(log_probs)` at the first argmax: V bounds every candidate, is
      attained at the backpointer, and every candidate before the
      backpointer is strictly smaller. */
  lemma {:induction false} CandidatesBelowV(lt: Tables, obs: seq<nat>, t: nat, s: nat)
    requires Decodable(lt, obs) && 1 <= t < |obs| && s < |lt.base|
    ensures V(lt, obs, t, s) == Cand(lt, obs, t, s, Back(lt, obs, t, s))
    ensures forall p :: 0 <= p < |lt.base| ==> Leq(Cand(lt, obs, t, s, p), V(lt, obs, t, s))
    ensures forall p :: 0 <= p < Back(lt, obs, t, s) ==> Lt(Cand(lt, obs, t, s, p), V(lt, obs, t, s))
  {
    ArgIsFirstArgMax(lt, obs, t, s, |lt.base|);
  }

  /** The final lattice column `viterbi[:, -1]`. */
  function LastColumn(lt: Tables, obs: seq<nat>): (c: seq<Score>)
    requires Decodable(lt, obs)
    ensures |c| == |lt.base|
  {
    seq(|lt.base|, s requires 0 <= s < |lt.base| => V(lt, obs, |obs| - 1, s))
  }

  /** The states reached by walking the backpointers from state s at time t
      down to time 0, in time order. */
  function Backtrack(lt: Tables, obs: seq<nat>, t: nat, s: nat): (q: seq<nat>)
    requires Decodable(lt, obs) && t < |obs| && s < |lt.base|
    ensures |q| == t + 1 && q[t] == s && IsStatePath(lt, q)
    decreases t
  {
    if t == 0 then [s] else Backtrack(lt, obs, t - 1, Back(lt, obs, t, s)) + [s]
  }

  /** The index path the decoder reconstructs: termination by the first
      argmax of the last column, then the backtrack. */
  function DecodePath(lt: Tables, obs: seq<nat>): (path: seq<nat>)
    requires Decodable(lt, obs)
    ensures |path| == |obs| && IsStatePath(lt, path)
    ensures path[|obs| - 1] == FirstArgMax(LastColumn(lt, obs))
  {
    Backtrack(lt, obs, |obs| - 1, FirstArgMax(LastColumn(lt, obs)))
  }

  /** `[states[s] for s in path]`. */
  function Labels<L>(states: seq<L>, path: seq<nat>): (labels: seq<L>)
    requires forall i :: 0 <= i < |path| ==> path[i] < |states|
    ensures |labels| == |path|
    ensures forall i :: 0 <= i < |path| ==> labels[i] == states[path[i]] && labels[i] in states
  {
    seq(|path|, i requires 0 <= i < |path| => states[path[i]])
  }

  /** The log-score of the state sequence q together with the first |q|
      observations: log prior, then per step the log transition and the log
      emission, added in the order the source adds them. */
  function PathScore(lt: Tables, obs: seq<nat>, q: seq<nat>): (r: Score)
    requires Decodable(lt, obs) && 1 <= |q| <= |obs| && IsStatePath(lt, q)
    ensures r.Fin? ==> lt.prior.Fin? && lt.emission[q[|q| - 1]][obs[|q| - 1]].Fin?
    decreases |q|
  {
    var k := |q| - 1;
    if k == 0 then Plus(lt.prior, lt.emission[q[0]][obs[0]])
    else Extend(PathScore(lt, obs, q[..k]), lt.base[q[k - 1]][q[k]], lt.emission[q[k]][obs[k]])
  }

  // ---------------------------------------------------------------------
  // What the lattice and the reconstructed path mean

  /** Consistency of the backtrack: each state of the walk is the
      backpointer of its successor. */
  lemma {:induction false} BacktrackFollowsBackpointers(lt: Tables, obs: seq<nat>, t: nat, s: nat)
    requires Decodable(lt, obs) && t < |obs| && s < |lt.base|
    ensures forall i :: 0 <= i < t ==>
      Backtrack(lt, obs, t, s)[i] == Back(lt, obs, i + 1, Backtrack(lt, obs, t, s)[i + 1])
    decreases t
  {
    if t > 0 {
      var b := Back(lt, obs, t, s);
      var q', q := Backtrack(lt, obs, t - 1, b), Backtrack(lt, obs, t, s);
      BacktrackFollowsBackpointers(lt, obs, t - 1, b);
      assert q == q' + [s];
      forall i | 0 <= i < t
        ensures q[i] == Back(lt, obs, i + 1, q[i + 1])
      {
        if i < t - 1 {
          assert q[i] == q'[i] && q[i + 1] == q'[i + 1];
        } else {
          assert q[i] == q'[t - 1] == b;
        }
      }
    }
  }

  /** The decoded path ends in the lowest-index best final state and every
      earlier entry is the backpointer of the next one. */
  lemma {:induction false} DecodePathFollowsBackpointers(lt: Tables, obs: seq<nat>)
    requires Decodable(lt, obs)
    ensures DecodePath(lt, obs)[|obs| - 1] == FirstArgMax(LastColumn(lt, obs))
    ensures forall i :: 0 <= i < |obs| - 1 ==>
      DecodePath(lt, obs)[i] == Back(lt, obs, i + 1, DecodePath(lt, obs)[i + 1])
  {
    BacktrackFollowsBackpointers(lt, obs, |obs| - 1, FirstArgMax(LastColumn(lt, obs)));
  }

  /** Extending a state sequence by s adds the log transition into s and
      the log emission of the next observation from s. */
  lemma {:induction false} PathScoreStep(lt: Tables, obs: seq<nat>, q: seq<nat>, s: nat)
    requires Decodable(lt, obs) && 1 <= |q| < |obs| && IsStatePath(lt, q) && s < |lt.base|
    ensures PathScore(lt, obs, q + [s]) ==
      Extend(PathScore(lt, obs, q), lt.base[q[|q| - 1]][s], lt.emission[s][obs[|q|]])
  {
    assert (q + [s])[..|q|] == q;
  }

  /** Every lattice entry is attained: the backtrack from (s, t) is a state
      sequence whose score is exactly V(t, s). */
  lemma {:induction false} BacktrackAttainsV(lt: Tables, obs: seq<nat>, t: nat, s: nat)
    requires Decodable(lt, obs) && t < |obs| && s < |lt.base|
    ensures PathScore(lt, obs, Backtrack(lt, obs, t, s)) == V(lt, obs, t, s)
    decreases t
  {
    if t > 0 {
      var b := Back(lt, obs, t, s);
      var q' := Backtrack(lt, obs, t - 1, b);
      BacktrackAttainsV(lt, obs, t - 1, b);
      PathScoreStep(lt, obs, q', s);
    }
  }

  /** Every lattice entry bounds the score of every state sequence of
      length t + 1 ending in that entry's state. */
  lemma {:induction false} VBoundsPaths(lt: Tables, obs: seq<nat>, q: seq<nat>)
    requires Decodable(lt, obs) && 1 <= |q| <= |obs| && IsStatePath(lt, q)
    ensures Leq(PathScore(lt, obs, q), V(lt, obs, |q| - 1, q[|q| - 1]))
    decreases |q|
  {
    var k := |q| - 1;
    if k > 0 {
      var p, s, q' := q[k - 1], q[k], q[..k];
      assert q' + [s] == q && q'[k - 1] == p;
      VBoundsPaths(lt, obs, q');
      PathScoreStep(lt, obs, q', s);
      ExtendMonotone(PathScore(lt, obs, q'), V(lt, obs, k - 1, p), lt.base[p][s], lt.emission[s][obs[k]]);
      assert Leq(PathScore(lt, obs, q), Cand(lt, obs, k, s, p));
      CandidatesBelowV(lt, obs, k, s);
      assert Leq(Cand(lt, obs, k, s, p), V(lt, obs, k, s));
    }
  }

  /** V(t, s) is the best score over all state sequences of length t + 1
      ending in s: attained, and an upper bound. */
  lemma {:induction false} VIsBestScore(lt: Tables, obs: seq<nat>, t: nat, s: nat)
    requires Decodable(lt, obs) && t < |obs| && s < |lt.base|
    ensures exists q :: |q| == t + 1 && IsStatePath(lt, q) && q[t] == s && PathScore(lt, obs, q) == V(lt, obs, t, s)
    ensures forall q :: |q| == t + 1 && IsStatePath(lt, q) && q[t] == s ==> Leq(PathScore(lt, obs, q), V(lt, obs, t, s))
  {
    BacktrackAttainsV(lt, obs, t, s);
    forall q | |q| == t + 1 && IsStatePath(lt, q) && q[t] == s
      ensures Leq(PathScore(lt, obs, q), V(lt, obs, t, s))
    {
      VBoundsPaths(lt, obs, q);
    }
  }

  /** Optimality: the decoded path's score is the maximum of the final
      column, and no state sequence of the same length scores higher. */
  lemma {:induction false} DecodePathIsMostLikely(lt: Tables, obs: seq<nat>)
    requires Decodable(lt, obs)
    ensures PathScore(lt, obs, DecodePath(lt, obs)) == MaxOf(LastColumn(lt, obs))
    ensures forall q :: |q| == |obs| && IsStatePath(lt, q) ==> Leq(PathScore(lt, obs, q), PathScore(lt, obs, DecodePath(lt, obs)))
  {
    var last := LastColumn(lt, obs);
    var f := FirstArgMax(last);
    MaxAtFirstArgMax(last);
    MaxOfIsMax(last);
    BacktrackAttainsV(lt, obs, |obs| - 1, f);
    forall q | |q| == |obs| && IsStatePath(lt, q)
      ensures Leq(PathScore(lt, obs, q), PathScore(lt, obs, DecodePath(lt, obs)))
    {
      VBoundsPaths(lt, obs, q);
      assert Leq(last[q[|q| - 1]], last[f]);
    }
  }

  /** A finite score needs every factor finite: the prior, each emission
      along q and each transition between consecutive states of q. */
  lemma {:induction false} FiniteScoreHasFiniteFactors(lt: Tables, obs: seq<nat>, q: seq<nat>)
    requires Decodable(lt, obs) && 1 <= |q| <= |obs| && IsStatePath(lt, q)
    requires PathScore(lt, obs, q).Fin?
    ensures lt.prior.Fin?
    ensures forall i :: 0 <= i < |q| ==> lt.emission[q[i]][obs[i]].Fin?
    ensures forall i :: 0 <= i < |q| - 1 ==> lt.base[q[i]][q[i + 1]].Fin?
    decreases |q|
  {
    var k := |q| - 1;
    if k > 0 {
      var q' := q[..k];
      assert q' + [q[k]] == q;
      PathScoreStep(lt, obs, q', q[k]);
      FiniteScoreHasFiniteFactors(lt, obs, q');
      assert forall i :: 0 <= i < k ==> q[i] == q'[i];
    }
  }

  /** When a state cannot emit the symbol observed at time t (log-score
      -oo), its lattice entry is -oo, and at t >= 1 every candidate is -oo
      so its backpointer falls back to state 0. */
  lemma {:induction false} ZeroEmissionIsImpossible(lt: Tables, obs: seq<nat>, t: nat, s: nat)
    requires Decodable(lt, obs) && t < |obs| && s < |lt.base|
    requires lt.emission[s][obs[t]] == NegInf
    ensures V(lt, obs, t, s) == NegInf
    ensures t >= 1 ==> Back(lt, obs, t, s) == 0
  {
    if t >= 1 {
      CandidatesBelowV(lt, obs, t, s);
      assert !Lt(Cand(lt, obs, t, s, 0), V(lt, obs, t, s));
    }
  }

  /** When every candidate of `log_probs` is -oo, for whatever reason, the
      lattice entry is -oo and the backpointer is state 0. */
  lemma {:induction false} AllCandidatesImpossible(lt: Tables, obs: seq<nat>, t: nat, s: nat)
    requires Decodable(lt, obs) && 1 <= t < |obs| && s < |lt.base|
    requires forall p :: 0 <= p < |lt.base| ==> Cand(lt, obs, t, s, p) == NegInf
    ensures V(lt, obs, t, s) == NegInf
    ensures Back(lt, obs, t, s) == 0
  {
    CandidatesBelowV(lt, obs, t, s);
    assert !Lt(Cand(lt, obs, t, s, 0), V(lt, obs, t, s));
  }

  /** With a single observation the recursion is empty, and (for a finite
      log prior) the decoded state is the lowest-index state whose log
      emission of the observation is largest. */
  lemma {:induction false} SingleObservation(lt: Tables, obs: seq<nat>)
    requires Decodable(lt, obs) && |obs| == 1 && lt.prior.Fin?
    ensures DecodePath(lt, obs) ==
      [FirstArgMax(seq(|lt.base|, s requires 0 <= s < |lt.base| => lt.emission[s][obs[0]]))]
  {
    var e := seq(|lt.base|, s requires 0 <= s < |lt.base| => lt.emission[s][obs[0]]);
    FirstArgMaxShifted(e, LastColumn(lt, obs), lt.prior);
  }

  /** The tie-break law: when all transitions are equal and every
      observation is equally likely from every state, every lattice column
      is constant and the decoder returns the all-zero path. */
  lemma {:induction false} UniformDecodesToFirstState<L>(m: Model<L>, obs: seq<nat>)
    requires m.Valid() && ValidObs(m, obs)
    requires forall p, s :: 0 <= p < |m.states| && 0 <= s < |m.states| ==> m.base[p][s] == m.base[0][0]
    requires forall s, o :: 0 <= s < |m.states| && 0 <= o < m.Symbols() ==> m.emission[s][o] == m.emission[0][o]
    ensures forall i :: 0 <= i < |obs| ==> DecodePath(LogTables(m), obs)[i] == 0
  {
    var lt := LogTables(m);
    LogTablesDecodable(m, obs);
    var t := |obs| - 1;
    VConstant(lt, obs, t);
    FirstArgMaxOfTie(LastColumn(lt, obs));
    BacktrackUniform(lt, obs, t);
  }

  /** Tables whose transitions are all equal and whose emissions do not
      depend on the state. */
  ghost predicate UniformTables(lt: Tables)
  {
    && |lt.base| >= 1 && |lt.base[0]| >= 1 && |lt.emission| >= 1
    && (forall p, s :: 0 <= p < |lt.base| && 0 <= s < |lt.base[p]| ==> lt.base[p][s] == lt.base[0][0])
    && (forall s, o :: 0 <= s < |lt.emission| && 0 <= o < |lt.emission[s]| && o < |lt.emission[0]| ==>
          lt.emission[s][o] == lt.emission[0][o])
  }

  /** Under uniform tables every lattice column is constant and every
      backpointer is 0. */
  lemma {:induction false} VConstant(lt: Tables, obs: seq<nat>, t: nat)
    requires Decodable(lt, obs) && t < |obs| && UniformTables(lt)
    ensures forall s :: 0 <= s < |lt.base| ==> V(lt, obs, t, s) == V(lt, obs, t, 0)
    ensures t >= 1 ==> forall s :: 0 <= s < |lt.base| ==> Back(lt, obs, t, s) == 0
    decreases t
  {
    if t >= 1 {
      VConstant(lt, obs, t - 1);
      var v := Extend(V(lt, obs, t - 1, 0), lt.base[0][0], lt.emission[0][obs[t]]);
      forall s | 0 <= s < |lt.base|
        ensures V(lt, obs, t, s) == v && Back(lt, obs, t, s) == 0
      {
        assert forall p :: 0 <= p < |lt.base| ==> Cand(lt, obs, t, s, p) == v;
        CandidatesBelowV(lt, obs, t, s);
        assert !Lt(Cand(lt, obs, t, s, 0), V(lt, obs, t, s));
      }
    }
  }

  /** Under uniform tables the backtrack from state 0 stays in state 0. */
  lemma {:induction false} BacktrackUniform(lt: Tables, obs: seq<nat>, t: nat)
    requires Decodable(lt, obs) && t < |obs| && UniformTables(lt)
    ensures forall i :: 0 <= i <= t ==> Backtrack(lt, obs, t, 0)[i] == 0
    decreases t
  {
    if t >= 1 {
      VConstant(lt, obs, t);
      BacktrackUniform(lt, obs, t - 1);
      assert Backtrack(lt, obs, t, 0) == Backtrack(lt, obs, t - 1, 0) + [0];
    }
  }

  // ---------------------------------------------------------------------
  // The default parameter set

  /** Under IsLog, the default log tables keep the emission facts: the log
      prior is finite, each element's own symbol has the strictly largest
      log emission in its column, and all elements share the log emission
      of W. */
  lemma {:induction false} DefaultLogEmissions(log: real -> Score)
    requires IsLog(log)
    ensures LogTables(DefaultModel(log)).prior.Fin?
    ensures forall s, o :: 0 <= s < 7 && 0 <= o < 7 && s != o ==>
      Lt(LogTables(DefaultModel(log)).emission[s][o], LogTables(DefaultModel(log)).emission[o][o])
    ensures forall s :: 0 <= s < 7 ==> LogTables(DefaultModel(log)).emission[s][7] == LogTables(DefaultModel(log)).emission[0][7]
  {
    var m := DefaultModel(log);
    var lt := LogTables(m);
    LogOfPositive(log, 1.0 / 7.0);
    Constants.EmissionRowMaxima();
    Constants.EmissionColumnMaxima();
    Constants.EmissionMatrixStochastic();
    forall s, o | 0 <= s < 7 && 0 <= o < 7 && s != o
      ensures Lt(lt.emission[s][o], lt.emission[o][o])
    {
      assert 0.0 <= m.emission[s][o] < m.emission[o][o];
    }
  }

  /** A single observation o decodes to state o when o's log emission
      from state o beats every other state's, and to state 0 when every
      state's log emission of o is the same. */
  lemma {:induction false} SingleSymbolCases(lt: Tables, o: nat)
    requires Decodable(lt, [o]) && o < |lt.emission[0]| && lt.prior.Fin?
    ensures o < |lt.base| && (forall s :: 0 <= s < |lt.base| && s != o ==> Lt(lt.emission[s][o], lt.emission[o][o])) ==>
      DecodePath(lt, [o]) == [o]
    ensures (forall s :: 0 <= s < |lt.base| ==> lt.emission[s][o] == lt.emission[0][o]) ==>
      DecodePath(lt, [o]) == [0]
  {
    SingleObservation(lt, [o]);
    var e := seq(|lt.base|, s requires 0 <= s < |lt.base| => lt.emission[s][o]);
    if o < |lt.base| && (forall s :: 0 <= s < |lt.base| && s != o ==> Lt(lt.emission[s][o], lt.emission[o][o])) {
      forall i | 0 <= i < |lt.base|
        ensures Leq(e[i], e[o]) && (i < o ==> Lt(e[i], e[o]))
      {
        if i != o {
          OrderTotal(e[i], e[o]);
        }
      }
      FirstArgMaxUnique(e, o);
    }
    if forall s :: 0 <= s < |lt.base| ==> lt.emission[s][o] == lt.emission[0][o] {
      FirstArgMaxOfTie(e);
    }
  }

  /** With the default parameters, a single uncorrupted symbol decodes to
      its own element (each element's own symbol is emitted most likely by
      that element), and a single W decodes to Pyro (all elements emit W
      equally, and the tie goes to the lowest index). */
  lemma {:induction false} DefaultSingleSymbol(log: real -> Score, o: nat)
    requires IsLog(log) && o < 8
    ensures DecodePath(LogTables(DefaultModel(log)), [o]) == [if o < 7 then o else 0]
  {
    LogTablesDecodable(DefaultModel(log), [o]);
    DefaultLogEmissions(log);
    SingleSymbolCases(LogTables(DefaultModel(log)), o);
  }

  /** The all-Pyro state sequence of length n. */
  function AllPyro(n: nat): (q: seq<nat>)
    ensures |q| == n && forall i :: 0 <= i < n ==> q[i] == 0
  {
    seq(n, i => 0)
  }

  /** Pyro follows itself and emits every symbol with positive probability. */
  lemma {:induction false} DefaultPyroPositive()
    ensures Constants.BaseMatrix()[0][0] > 0.0
    ensures forall o :: 0 <= o < 8 ==> Constants.EmissionMatrix()[0][o] > 0.0
  {
    Constants.EmissionMatrixZeros();
    Constants.EmissionMatrixStochastic();
    Constants.BaseMatrixZeros();
    Constants.BaseMatrixStochastic();
  }

  /** A state that starts, follows itself and emits every observed symbol
      with finite log-score gives the constant sequence a finite score. */
  lemma {:induction false} AllPyroFinite(lt: Tables, obs: seq<nat>, n: nat)
    requires Decodable(lt, obs) && 1 <= n <= |obs|
    requires lt.prior.Fin? && lt.base[0][0].Fin?
    requires forall t :: 0 <= t < |obs| ==> lt.emission[0][obs[t]].Fin?
    ensures PathScore(lt, obs, AllPyro(n)).Fin?
    decreases n
  {
    if n > 1 {
      AllPyroFinite(lt, obs, n - 1);
      assert AllPyro(n - 1) + [0] == AllPyro(n);
      PathScoreStep(lt, obs, AllPyro(n - 1), 0);
    }
  }

  /** So with the default parameters the all-Pyro sequence has a finite
      score under every observation sequence. */
  lemma {:induction false} DefaultAllPyroIsPossible(log: real -> Score, obs: seq<nat>)
    requires IsLog(log) && ValidObs(DefaultModel(log), obs)
    ensures Decodable(LogTables(DefaultModel(log)), obs)
    ensures PathScore(LogTables(DefaultModel(log)), obs, AllPyro(|obs|)).Fin?
  {
    var m := DefaultModel(log);
    var lt := LogTables(m);
    LogTablesDecodable(m, obs);
    DefaultPyroPositive();
    LogOfPositive(log, 1.0 / 7.0);
    LogOfPositive(log, m.base[0][0]);
    forall t | 0 <= t < |obs|
      ensures lt.emission[0][obs[t]].Fin?
    {
      LogOfPositive(log, m.emission[0][obs[t]]);
    }
    AllPyroFinite(lt, obs, |obs|);
  }

  /** With the default parameters, whatever the observations, the decoded
      path has a finite score and so never uses one of the three zero
      entries: no Hydro followed by Geo, no Dendro where G is observed and
      no Geo where D is observed. */
  lemma {:induction false} DefaultDecodeAvoidsZeros(log: real -> Score, obs: seq<nat>)
    requires IsLog(log) && ValidObs(DefaultModel(log), obs)
    ensures PathScore(LogTables(DefaultModel(log)), obs, DecodePath(LogTables(DefaultModel(log)), obs)).Fin?
    ensures forall i :: 0 <= i < |obs| - 1 ==>
      !(DecodePath(LogTables(DefaultModel(log)), obs)[i] == 1 && DecodePath(LogTables(DefaultModel(log)), obs)[i + 1] == 6)
    ensures forall i :: 0 <= i < |obs| ==>
      !(DecodePath(LogTables(DefaultModel(log)), obs)[i] == 5 && obs[i] == 6) &&
      !(DecodePath(LogTables(DefaultModel(log)), obs)[i] == 6 && obs[i] == 5)
  {
    var m := DefaultModel(log);
    var lt := LogTables(m);
    var path := DecodePath(lt, obs);
    DefaultAllPyroIsPossible(log, obs);
    DecodePathIsMostLikely(lt, obs);
    assert Leq(PathScore(lt, obs, AllPyro(|obs|)), PathScore(lt, obs, path));
    FiniteScoreHasFiniteFactors(lt, obs, path);
    Constants.BaseMatrixZeros();
    Constants.EmissionMatrixZeros();
  }

  // ---------------------------------------------------------------------
  // The decoder itself

  /** The prefix argmax over a vector of the step's candidates is Arg. */
  lemma {:induction false} ArgMaxUpToIsArg(lt: Tables, obs: seq<nat>, t: nat, s: nat, xs: seq<Score>, k: nat)
    requires Decodable(lt, obs) && 1 <= t < |obs| && s < |lt.base| && |xs| == |lt.base|
    requires forall p :: 0 <= p < |xs| ==> xs[p] == Cand(lt, obs, t, s, p)
    requires 1 <= k <= |xs|
    ensures ArgMaxUpTo(xs, k) == Arg(lt, obs, t, s, k)
    decreases k
  {
    if k > 1 {
      ArgMaxUpToIsArg(lt, obs, t, s, xs, k - 1);
    }
  }

  /** The recursion step on numpy vectors: over the vector `log_probs` of
      the step's candidates, np.max is the lattice entry and np.argmax the
      backpointer. */
  lemma {:induction false} NumpyStep(lt: Tables, obs: seq<nat>, t: nat, s: nat, logProbs: seq<Score>)
    requires Decodable(lt, obs) && 1 <= t < |obs| && s < |lt.base| && |logProbs| == |lt.base|
    requires forall p :: 0 <= p < |logProbs| ==> logProbs[p] == Cand(lt, obs, t, s, p)
    ensures MaxOf(logProbs) == V(lt, obs, t, s)
    ensures FirstArgMax(logProbs) == Back(lt, obs, t, s)
  {
    ArgMaxUpToIsArg(lt, obs, t, s, logProbs, |logProbs|);
    MaxAtFirstArgMax(logProbs);
  }

  /** The initialisation and recursion steps of trikarma_purification:
      the `viterbi` and `backpointer` tables, rows indexed by state and
      columns by time, hold the lattice and its backpointers. */
  method FillLattice(obsSequence: seq<nat>, lt: Tables) returns (viterbi: array2<Score>, backpointer: array2<nat>)
    requires Decodable(lt, obsSequence)
    ensures fresh(viterbi) && fresh(backpointer)
    ensures viterbi.Length0 == |lt.base| && viterbi.Length1 == |obsSequence|
    ensures backpointer.Length0 == |lt.base| && backpointer.Length1 == |obsSequence|
    ensures forall t, s :: 0 <= t < |obsSequence| && 0 <= s < |lt.base| ==>
      viterbi[s, t] == V(lt, obsSequence, t, s)
    ensures forall t, s :: 1 <= t < |obsSequence| && 0 <= s < |lt.base| ==>
      backpointer[s, t] == Back(lt, obsSequence, t, s)
  {
    var nStates, nObs := |lt.base|, |obsSequence|;
    viterbi := new Score[nStates, nObs];
    backpointer := new nat[nStates, nObs];

    // Time step 0: log prior plus the first log emission.
    for s := 0 to nStates
      modifies viterbi
      invariant forall s' :: 0 <= s' < s ==> viterbi[s', 0] == V(lt, obsSequence, 0, s')
    {
      viterbi[s, 0] := Plus(lt.prior, lt.emission[s][obsSequence[0]]);
    }

    // Time steps 1 .. T - 1.
    for t := 1 to nObs
      invariant forall t', s' :: 0 <= t' < t && 0 <= s' < nStates ==> viterbi[s', t'] == V(lt, obsSequence, t', s')
      invariant forall t', s' :: 1 <= t' < t && 0 <= s' < nStates ==> backpointer[s', t'] == Back(lt, obsSequence, t', s')
    {
      FillColumn(obsSequence, lt, viterbi, backpointer, t);
    }
  }

  /** One recursion step of trikarma_purification: column t of `viterbi`
      and `backpointer` from the columns of `viterbi` before it, leaving every other
      column as it was. */
  method FillColumn(obsSequence: seq<nat>, lt: Tables, viterbi: array2<Score>, backpointer: array2<nat>, t: nat)
    requires Decodable(lt, obsSequence) && 1 <= t < |obsSequence|
    requires viterbi.Length0 == |lt.base| && viterbi.Length1 == |obsSequence|
    requires backpointer.Length0 == |lt.base| && backpointer.Length1 == |obsSequence|
    requires forall t', s :: 0 <= t' < t && 0 <= s < |lt.base| ==> viterbi[s, t'] == V(lt, obsSequence, t', s)
    modifies viterbi, backpointer
    ensures forall t', s' :: 0 <= t' < |obsSequence| && t' != t && 0 <= s' < |lt.base| ==>
      viterbi[s', t'] == old(viterbi[s', t']) && backpointer[s', t'] == old(backpointer[s', t'])
    ensures forall s :: 0 <= s < |lt.base| ==>
      viterbi[s, t] == V(lt, obsSequence, t, s) && backpointer[s, t] == Back(lt, obsSequence, t, s)
  {
    var nStates := |lt.base|;
    for s := 0 to nStates
      invariant forall t', s' :: 0 <= t' < |obsSequence| && t' != t && 0 <= s' < nStates ==>
        viterbi[s', t'] == old(viterbi[s', t']) && backpointer[s', t'] == old(backpointer[s', t'])
      invariant forall s' :: 0 <= s' < s ==>
        viterbi[s', t] == V(lt, obsSequence, t, s') && backpointer[s', t] == Back(lt, obsSequence, t, s')
    {
      var logProbs := seq(nStates, p requires 0 <= p < nStates reads viterbi =>
        Extend(viterbi[p, t - 1], lt.base[p][s], lt.emission[s][obsSequence[t]]));
      NumpyStep(lt, obsSequence, t, s, logProbs);
      viterbi[s, t] := MaxOf(logProbs);
      backpointer[s, t] := FirstArgMax(logProbs);
    }
  }

  /** The termination and backtrack steps of trikarma_purification: from
      tables holding the lattice and its backpointers, `best_path` is the
      decoded path. */
  method ReadPath(obsSequence: seq<nat>, ghost lt: Tables, viterbi: array2<Score>, backpointer: array2<nat>)
    returns (path: seq<nat>)
    requires Decodable(lt, obsSequence)
    requires viterbi.Length0 == |lt.base| && viterbi.Length1 == |obsSequence|
    requires backpointer.Length0 == |lt.base| && backpointer.Length1 == |obsSequence|
    requires forall t, s :: 0 <= t < |obsSequence| && 0 <= s < |lt.base| ==> viterbi[s, t] == V(lt, obsSequence, t, s)
    requires forall t, s :: 1 <= t < |obsSequence| && 0 <= s < |lt.base| ==>
      backpointer[s, t] == Back(lt, obsSequence, t, s)
    ensures path == DecodePath(lt, obsSequence)
  {
    var nStates, nObs := viterbi.Length0, |obsSequence|;
    ghost var decoded := DecodePath(lt, obsSequence);
    DecodePathFollowsBackpointers(lt, obsSequence);
    var bestPath := new nat[nObs];
    var last := seq(nStates, s requires 0 <= s < nStates reads viterbi => viterbi[s, nObs - 1]);
    assert last == LastColumn(lt, obsSequence);
    bestPath[nObs - 1] := FirstArgMax(last);
    for t := nObs - 1 downto 0
      modifies bestPath
      invariant forall i :: t <= i < nObs ==> bestPath[i] == decoded[i]
    {
      bestPath[t] := backpointer[bestPath[t + 1], t + 1];
    }
    path := bestPath[..];
  }

  /** trikarma_purification: takes the logs of the parameters, fills the
      lattice, picks the best final state, walks the backpointers back and
      returns the labels of the path together with the index path itself
      (the pair the callers unpack). (The source applies np.log to a
      column of the transition matrix and to one emission entry inside the
      loop; np.log being pure, taking
      every log once up front gives the same values.) */
  method TrikarmaPurification<L>(obsSequence: seq<nat>, m: Model<L>) returns (labels: seq<L>, path: seq<nat>)
    requires m.Valid() && ValidObs(m, obsSequence)
    ensures path == DecodePath(LogTables(m), obsSequence)
    ensures labels == Labels(m.states, path)
  {
    var lt := LogTables(m);
    LogTablesDecodable(m, obsSequence);
    var viterbi, backpointer := FillLattice(obsSequence, lt);
    path := ReadPath(obsSequence, lt, viterbi, backpointer);
    labels := Labels(m.states, path);
  }
}
