/** The fixed parameter set of the Irminsul decoder: seven elemental states,
    their transition matrix, the emission matrix over eight observation
    symbols (the seven elements and the withered symbol W), and the table
    from observation codes to column indices. */
module Constants {

  /** Sum of a row of probabilities. */
  function Sum(row: seq<real>): real
  {
    SumFrom(row, 0)
  }

  /** `row[i] + row[i + 1] + ... + row[|row| - 1]`. */
  function SumFrom(row: seq<real>, i: nat): real
    requires i <= |row|
    decreases |row| - i
  {
    if i == |row| then 0.0 else row[i] + SumFrom(row, i + 1)
  }

  /** A `rows`-by-`cols` matrix whose entries are non-negative and whose
      every row sums to exactly one. */
  ghost predicate Stochastic(m: seq<seq<real>>, rows: nat, cols: nat)
  {
    && |m| == rows
    && (forall i :: 0 <= i < rows ==> |m[i]| == cols)
    && (forall i, j :: 0 <= i < rows && 0 <= j < cols ==> m[i][j] >= 0.0)
    && (forall i :: 0 <= i < rows ==> Sum(m[i]) == 1.0)
  }

  /** The state labels in state order: Pyro, Hydro, Electro, Cryo, Anemo,
      Dendro, Geo. Each label of the source is a one-character string. */
  function Elements(): (e: seq<char>)
    ensures |e| == 7
    ensures forall i, j :: 0 <= i < j < |e| ==> e[i] != e[j]
    ensures 'W' !in e
  {
    ['P', 'H', 'E', 'C', 'A', 'D', 'G']
  }

  /** The withered (corrupted) observation symbol. */
  const Withered: char := 'W'

  /** The observation alphabet: the seven elements followed by W. */
  function Symbols(): (a: seq<char>)
    ensures |a| == 8 && a[..7] == Elements() && a[7] == Withered
    ensures forall i, j :: 0 <= i < j < |a| ==> a[i] != a[j]
  {
    Elements() + [Withered]
  }

  /** Transition probabilities, row = current element, column = next element. */
  function BaseMatrix(): (t: seq<seq<real>>)
    ensures |t| == 7 && forall i :: 0 <= i < 7 ==> |t[i]| == 7
  {
    var t := [
      [0.10, 0.25, 0.15, 0.05, 0.15, 0.25, 0.05],
      [0.25, 0.10, 0.15, 0.10, 0.15, 0.25, 0.00],
      [0.15, 0.20, 0.10, 0.05, 0.15, 0.30, 0.05],
      [0.10, 0.25, 0.05, 0.15, 0.15, 0.03, 0.27],
      [0.22, 0.22, 0.22, 0.22, 0.04, 0.04, 0.04],
      [0.25, 0.25, 0.30, 0.03, 0.02, 0.10, 0.05],
      [0.20, 0.20, 0.20, 0.20, 0.02, 0.02, 0.16]
    ];
    t
  }

  /** Emission probabilities, row = true element, column = observed symbol
      in the order of `Symbols()` (the last column is W). */
  function EmissionMatrix(): (e: seq<seq<real>>)
    ensures |e| == 7 && forall i :: 0 <= i < 7 ==> |e[i]| == 8
  {
    var e := [
      [0.60, 0.02, 0.02, 0.01, 0.02, 0.01, 0.02, 0.30],
      [0.02, 0.60, 0.02, 0.02, 0.01, 0.02, 0.01, 0.30],
      [0.02, 0.02, 0.60, 0.02, 0.02, 0.01, 0.01, 0.30],
      [0.01, 0.02, 0.02, 0.60, 0.02, 0.01, 0.02, 0.30],
      [0.02, 0.02, 0.02, 0.02, 0.60, 0.01, 0.01, 0.30],
      [0.01, 0.01, 0.01, 0.01, 0.01, 0.65, 0.00, 0.30],
      [0.02, 0.01, 0.01, 0.02, 0.01, 0.00, 0.63, 0.30]
    ];
    e
  }

  /** The code-to-column table: element i maps to i and W maps to 7. */
  function ObsMap(): (m: map<char, nat>)
    ensures m.Keys == set c | c in Symbols()
    ensures forall i :: 0 <= i < 8 ==> Symbols()[i] in m && m[Symbols()[i]] == i
    ensures forall c :: c in m ==> m[c] < 8
    ensures forall c, d :: c in m && d in m && c != d ==> m[c] != m[d]
  {
    map['P' := 0, 'H' := 1, 'E' := 2, 'C' := 3, 'A' := 4, 'D' := 5, 'G' := 6, 'W' := 7]
  }

  /** Every row of the transition matrix is a probability distribution. */
  lemma {:induction false} BaseMatrixStochastic()
    ensures Stochastic(BaseMatrix(), 7, 7)
  {
  }

  /** Every row of the emission matrix is a probability distribution. */
  lemma {:induction false} EmissionMatrixStochastic()
    ensures Stochastic(EmissionMatrix(), 7, 8)
  {
  }

  /** Every element emits W with probability 0.30, and emits its own symbol
      more likely than any other symbol. */
  lemma {:induction false} EmissionRowMaxima()
    ensures forall s :: 0 <= s < 7 ==> EmissionMatrix()[s][7] == 0.30
    ensures forall s, o :: 0 <= s < 7 && 0 <= o < 8 && o != s ==> EmissionMatrix()[s][o] < EmissionMatrix()[s][s]
  {
  }

  /** The one impossible transition: Hydro is never followed by Geo. */
  lemma {:induction false} BaseMatrixZeros()
    ensures forall p, s :: 0 <= p < 7 && 0 <= s < 7 ==> (BaseMatrix()[p][s] == 0.0 <==> p == 1 && s == 6)
  {
    var t := BaseMatrix();
    forall p | 0 <= p < 7
      ensures forall s :: 0 <= s < 7 ==> (t[p][s] == 0.0 <==> p == 1 && s == 6)
    {
    }
  }

  /** The two impossible emissions: Dendro never shows as G and Geo never
      shows as D. */
  lemma {:induction false} EmissionMatrixZeros()
    ensures forall s, o :: 0 <= s < 7 && 0 <= o < 8 ==>
      (EmissionMatrix()[s][o] == 0.0 <==> (s == 5 && o == 6) || (s == 6 && o == 5))
  {
    var e := EmissionMatrix();
    forall s | 0 <= s < 7
      ensures forall o :: 0 <= o < 8 ==> (e[s][o] == 0.0 <==> (s == 5 && o == 6) || (s == 6 && o == 5))
    {
    }
  }

  /** Each element's own symbol is emitted by that element more likely than
      by any other element. */
  lemma {:induction false} EmissionColumnMaxima()
    ensures forall s, o :: 0 <= s < 7 && 0 <= o < 7 && o != s ==> EmissionMatrix()[o][s] < EmissionMatrix()[s][s]
  {
    var e := EmissionMatrix();
    forall s | 0 <= s < 7
      ensures forall o :: 0 <= o < 7 && o != s ==> e[o][s] < e[s][s]
    {
    }
  }
}
