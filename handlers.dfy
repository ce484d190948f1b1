/** reconstruct_irminsul: the request handler behind the Irminsul page. It
    sanitises the two text inputs, decodes the withered record with the
    default parameter set, aligns the optional pure record to the result and
    scores the reconstruction against it. The same function appears twice in
    the repository (handlers.py and app.py); this module models both.

    The plotting call is modelled by the arguments it receives (`Trellis`),
    and the accuracy line by the numbers it prints (`Report`). */
module Handlers {
  import Constants
  import opened Scores
  import Nahida

  datatype Option<T> = None | Some(value: T)

  // ---------------------------------------------------------------------
  // Sanitising the inputs

  /** `str.upper` on one character, for ASCII letters. No other character
      upper-cases into the alphabets used here, so the rest are kept as they
      are. */
  function Upper(c: char): (u: char)
    ensures ('a' <= c <= 'z') ==> 'A' <= u <= 'Z' && u as int == c as int - 32
    ensures !('a' <= c <= 'z') ==> u == c
  {
    if 'a' <= c <= 'z' then (c as int - 32) as char else c
  }

  /** The join of `c.upper()` for each character c of the input whose
      upper-case form is in the alphabet, in input order. */
  function Clean(input: string, alphabet: seq<char>): (r: string)
    ensures |r| <= |input|
    ensures forall i :: 0 <= i < |r| ==> r[i] in alphabet
    decreases |input|
  {
    if |input| == 0 then []
    else
      var c := Upper(input[0]);
      (if c in alphabet then [c] else []) + Clean(input[1..], alphabet)
  }

  /** The longest string either sanitised input keeps. */
  const Limit: nat := 16

  /** `clean[:16]`: the cleaned input cut to at most 16 characters. */
  function Sanitise(input: string, alphabet: seq<char>): (r: string)
    ensures |r| <= Limit
    ensures forall i :: 0 <= i < |r| ==> r[i] in alphabet
  {
    var clean := Clean(input, alphabet);
    if |clean| <= Limit then clean else clean[..Limit]
  }

  /** `pure_str`: the reference record, filtered to the seven elements. */
  function PureStr(input: string): (r: string)
    ensures |r| <= Limit && Constants.Withered !in r
    ensures forall i :: 0 <= i < |r| ==> r[i] in Constants.Elements()
    ensures r <= Clean(input, Constants.Elements())
  {
    Sanitise(input, Constants.Elements())
  }

  /** `withered_str`: the observed record, filtered to the elements and W. */
  function WitheredStr(input: string): (r: string)
    ensures |r| <= Limit
    ensures forall i :: 0 <= i < |r| ==> r[i] in Constants.Symbols()
    ensures r <= Clean(input, Constants.Symbols())
  {
    Sanitise(input, Constants.Symbols())
  }

  /** Cleaning distributes over concatenation, so it keeps the input's
      order. */
  lemma {:induction false} CleanAppend(x: string, y: string, alphabet: seq<char>)
    ensures Clean(x + y, alphabet) == Clean(x, alphabet) + Clean(y, alphabet)
    decreases |x|
  {
    if |x| == 0 {
      assert x + y == y;
    } else {
      assert (x + y)[0] == x[0] && (x + y)[1..] == x[1..] + y;
      CleanAppend(x[1..], y, alphabet);
    }
  }

  /** A character survives cleaning exactly when some input character
      upper-cases to it and it is in the alphabet. */
  lemma {:induction false} CleanKeeps(input: string, alphabet: seq<char>, c: char)
    ensures c in Clean(input, alphabet) <==>
      c in alphabet && exists i :: 0 <= i < |input| && Upper(input[i]) == c
    decreases |input|
  {
    if |input| > 0 {
      CleanKeeps(input[1..], alphabet, c);
      if c in alphabet && Upper(input[0]) != c && exists i :: 0 <= i < |input| && Upper(input[i]) == c {
        var i :| 0 <= i < |input| && Upper(input[i]) == c;
        assert input[1..][i - 1] == input[i];
      }
      if c in alphabet && exists i :: 0 <= i < |input[1..]| && Upper(input[1..][i]) == c {
        var i :| 0 <= i < |input[1..]| && Upper(input[1..][i]) == c;
        assert input[i + 1] == c || Upper(input[i + 1]) == c;
      }
    }
  }

  /** A string of upper-case alphabet characters is left as it is. */
  lemma {:induction false} CleanFixed(s: string, alphabet: seq<char>)
    requires forall i :: 0 <= i < |s| ==> s[i] in alphabet && Upper(s[i]) == s[i]
    ensures Clean(s, alphabet) == s
    decreases |s|
  {
    if |s| > 0 {
      CleanFixed(s[1..], alphabet);
      assert s == [s[0]] + s[1..];
    }
  }

  /** Sanitising keeps a prefix of the cleaned input: all of it when it is
      short enough, its first 16 characters otherwise. */
  lemma {:induction false} SanitiseIsPrefix(input: string, alphabet: seq<char>)
    ensures Sanitise(input, alphabet) <= Clean(input, alphabet)
    ensures |Sanitise(input, alphabet)| == if |Clean(input, alphabet)| <= Limit then |Clean(input, alphabet)| else Limit
  {
  }

  /** Sanitising an already sanitised string changes nothing. */
  lemma {:induction false} SanitiseIdempotent(input: string, alphabet: seq<char>)
    requires forall c :: c in alphabet ==> Upper(c) == c
    ensures Sanitise(Sanitise(input, alphabet), alphabet) == Sanitise(input, alphabet)
  {
    CleanFixed(Sanitise(input, alphabet), alphabet);
  }

  /** The two alphabets are upper case. */
  lemma {:induction false} AlphabetsUpper()
    ensures forall c :: c in Constants.Symbols() ==> Upper(c) == c
    ensures forall c :: c in Constants.Elements() ==> Upper(c) == c && c in Constants.Symbols()
  {
    assert Constants.Symbols() == ['P', 'H', 'E', 'C', 'A', 'D', 'G', 'W'];
  }

  /** `pure_str` holds elements only (never W), at most 16 of them in input
      order, and sanitising it again changes nothing. */
  lemma {:induction false} PureStrSanitised(input: string)
    ensures |PureStr(input)| <= Limit && Constants.Withered !in PureStr(input)
    ensures forall i :: 0 <= i < |PureStr(input)| ==> PureStr(input)[i] in Constants.Elements()
    ensures PureStr(input) <= Clean(input, Constants.Elements())
    ensures PureStr(PureStr(input)) == PureStr(input)
  {
    SanitiseIsPrefix(input, Constants.Elements());
    AlphabetsUpper();
    SanitiseIdempotent(input, Constants.Elements());
  }

  /** `withered_str` holds elements and W only, at most 16 of them in input
      order, and sanitising it again changes nothing. */
  lemma {:induction false} WitheredStrSanitised(input: string)
    ensures |WitheredStr(input)| <= Limit
    ensures forall i :: 0 <= i < |WitheredStr(input)| ==> WitheredStr(input)[i] in Constants.Symbols()
    ensures WitheredStr(input) <= Clean(input, Constants.Symbols())
    ensures WitheredStr(WitheredStr(input)) == WitheredStr(input)
  {
    SanitiseIsPrefix(input, Constants.Symbols());
    AlphabetsUpper();
    SanitiseIdempotent(input, Constants.Symbols());
  }

  // ---------------------------------------------------------------------
  // Observation indices

  /** `[OBS_MAP[c] for c in s]`, or None where a character is not a key
      (the `KeyError`). */
  function ObsIndices(s: string): (r: Option<seq<nat>>)
    ensures r.Some? ==> |r.value| == |s|
    decreases |s|
  {
    if |s| == 0 then Some([])
    else if s[0] !in Constants.ObsMap() then None
    else
      match ObsIndices(s[1..])
      case None => None
      case Some(rest) => Some([Constants.ObsMap()[s[0]]] + rest)
  }

  /** The lookup fails exactly when some character is not a key; otherwise
      every index is a column of the emission matrix and names its own
      symbol. */
  lemma {:induction false} ObsIndicesSpec(s: string)
    ensures ObsIndices(s).None? <==> exists i :: 0 <= i < |s| && s[i] !in Constants.ObsMap()
    ensures ObsIndices(s).Some? ==>
      forall i :: 0 <= i < |s| ==> ObsIndices(s).value[i] < 8 && Constants.Symbols()[ObsIndices(s).value[i]] == s[i]
    decreases |s|
  {
    if |s| > 0 {
      ObsIndicesSpec(s[1..]);
      var m := Constants.ObsMap();
      if s[0] in m && ObsIndices(s[1..]).Some? {
        var r := ObsIndices(s).value;
        forall i | 0 <= i < |s|
          ensures r[i] < 8 && Constants.Symbols()[r[i]] == s[i]
        {
          if i == 0 {
            var k :| 0 <= k < 8 && Constants.Symbols()[k] == s[0];
          } else {
            assert r[i] == ObsIndices(s[1..]).value[i - 1] && s[i] == s[1..][i - 1];
          }
        }
      }
      if exists i :: 0 <= i < |s| && s[i] !in m {
        var i :| 0 <= i < |s| && s[i] !in m;
        if i > 0 {
          assert s[1..][i - 1] !in m;
        }
      }
      if ObsIndices(s).None? && s[0] in m {
        var i :| 0 <= i < |s[1..]| && s[1..][i] !in m;
        assert s[i + 1] !in m;
      }
    }
  }

  /** On a sanitised withered string the `KeyError` branch is unreachable. */
  lemma {:induction false} SanitisedHasIndices(input: string)
    ensures ObsIndices(WitheredStr(input)).Some?
    ensures forall i :: 0 <= i < |WitheredStr(input)| ==> ObsIndices(WitheredStr(input)).value[i] < 8
  {
    var w := WitheredStr(input);
    ObsIndicesSpec(w);
    forall i | 0 <= i < |w|
      ensures w[i] in Constants.ObsMap()
    {
      var k :| 0 <= k < 8 && Constants.Symbols()[k] == w[i];
    }
  }

  // ---------------------------------------------------------------------
  // Scoring against the pure record

  /** `pure_str` aligned to a reconstruction of length n: absent when there
      is no pure record, cut to n when longer, absent when shorter. So it is
      present exactly when the pure record is non-empty and at least as long
      as the reconstruction, and it is then the reconstruction-length
      prefix. */
  function AlignReference(pure: string, n: nat): (r: Option<string>)
    ensures r.Some? <==> 1 <= |pure| && n <= |pure|
    ensures r.Some? ==> r.value == pure[..n]
  {
    if |pure| == 0 then None
    else
      var p := if |pure| > n then pure[..n] else pure;
      if |p| == n then Some(p) else None
  }

  /** `sum(1 for i in range(k) if a[i] != b[i])`. */
  function Mismatches(a: string, b: string, k: nat): (m: nat)
    requires |a| == |b| && k <= |a|
    ensures m <= k
  {
    if k == 0 then 0 else Mismatches(a, b, k - 1) + (if a[k - 1] != b[k - 1] then 1 else 0)
  }

  /** The positions below k where the two strings differ. */
  ghost function DiffPositions(a: string, b: string, k: nat): set<nat>
    requires |a| == |b| && k <= |a|
  {
    set i: nat | i < k && a[i] != b[i]
  }

  /** The mismatch count is the number of differing positions, and it is 0
      exactly when the prefixes agree. */
  lemma {:induction false} MismatchesCount(a: string, b: string, k: nat)
    requires |a| == |b| && k <= |a|
    ensures Mismatches(a, b, k) == |DiffPositions(a, b, k)|
    ensures Mismatches(a, b, k) == 0 <==> a[..k] == b[..k]
    decreases k
  {
    if k > 0 {
      MismatchesCount(a, b, k - 1);
      var before := DiffPositions(a, b, k - 1);
      if a[k - 1] != b[k - 1] {
        assert DiffPositions(a, b, k) == before + {k - 1};
        assert a[..k] != b[..k] by {
          assert a[..k][k - 1] != b[..k][k - 1];
        }
      } else {
        assert DiffPositions(a, b, k) == before;
        assert a[..k] == a[..k - 1] + [a[k - 1]] && b[..k] == b[..k - 1] + [b[k - 1]];
        if a[..k - 1] != b[..k - 1] {
          assert a[..k] != b[..k] by {
            var i :| 0 <= i < k - 1 && a[..k - 1][i] != b[..k - 1][i];
            assert a[..k][i] != b[..k][i];
          }
        }
      }
    } else {
      assert DiffPositions(a, b, 0) == {};
    }
  }

  /** `(total - mismatches) / total * 100 if total > 0 else 0`, exactly. It
      lies in [0, 100]; for a non-empty comparison it is 100 exactly when
      nothing mismatches, and 0 exactly when everything does. */
  function Accuracy(total: nat, mismatches: nat): (a: real)
    requires mismatches <= total
    ensures 0.0 <= a <= 100.0
    ensures total > 0 ==> (a == 100.0 <==> mismatches == 0)
    ensures total > 0 ==> (a == 0.0 <==> mismatches == total)
  {
    if total > 0 then ((total - mismatches) as real) / (total as real) * 100.0 else 0.0
  }

  /** The numbers of the accuracy line: total, correct, mismatches and the
      percentage. */
  datatype Report = Report(total: nat, correct: nat, mismatches: nat, accuracy: real)

  /** The comparison of a reconstruction with its aligned pure record: the
      mismatches are the positions where the two differ, and the accuracy is
      the share of the rest. */
  function Compare(reconstructed: string, pure: string): (r: Report)
    requires |pure| == |reconstructed|
    ensures r.total == |reconstructed| && r.correct + r.mismatches == r.total
    ensures r.mismatches == |DiffPositions(reconstructed, pure, |reconstructed|)|
    ensures r.mismatches == 0 <==> reconstructed == pure
    ensures r.accuracy == Accuracy(r.total, r.mismatches)
  {
    var total := |reconstructed|;
    var mismatches := Mismatches(reconstructed, pure, total);
    MismatchesCount(reconstructed, pure, total);
    assert reconstructed[..total] == reconstructed && pure[..total] == pure;
    Report(total, total - mismatches, mismatches, Accuracy(total, mismatches))
  }

  // ---------------------------------------------------------------------
  // The handler

  /** The arguments of `plot_viterbi_trellis`: the withered record, the
      state labels, the index path and the pure record to draw, if any. */
  datatype Trellis = Trellis(withered: string, states: seq<char>, path: seq<nat>, pure: Option<string>)

  /** What the handler returns: an error message with no figure, or the
      reconstructed string with its accuracy report (when a pure record was
      aligned) and the figure. */
  datatype Reply =
    | Refused(message: string)
    | Restored(reconstructed: string, report: Option<Report>, trellis: Trellis)

  const EmptyMessage: string := "Please enter valid Elemental symbols (P, H, E, C, A, D, G) or 'W' for Withering."
  const InvalidMessage: string := "Invalid character in withered input. Please use only P, H, E, C, A, D, G, or W."

  /** The decoder on the default parameters, scored with `log`. */
  function Decode(log: real -> Score, indices: seq<nat>): (path: seq<nat>)
    requires 1 <= |indices| && forall i :: 0 <= i < |indices| ==> indices[i] < 8
    ensures |path| == |indices| && forall i :: 0 <= i < |path| ==> path[i] < 7
  {
    var m := Nahida.DefaultModel(log);
    Nahida.LogTablesDecodable(m, indices);
    Nahida.DecodePath(Nahida.LogTables(m), indices)
  }

  /** reconstruct_irminsul, with trikarma_purification returning the label
      path and the index path, as the call site expects.

      It refuses exactly the inputs whose withered record sanitises to
      nothing, always with the empty-input message: the invalid-character
      message is never produced. Otherwise the reconstruction has one element
      label per sanitised withered symbol and is the labelling of the decoded
      path of that record's indices, and the figure receives that path. The
      report is present exactly when the pure record is non-empty and at
      least as long, and then scores the reconstruction against its
      prefix. */
  function ReconstructIrminsul(pureInput: string, witheredInput: string, log: real -> Score): (reply: Reply)
    ensures reply.Refused? <==> |WitheredStr(witheredInput)| == 0
    ensures reply.Refused? ==> reply.message == EmptyMessage
    ensures reply.Restored? ==>
      var w := WitheredStr(witheredInput);
      var pure := PureStr(pureInput);
      && ObsIndices(w).Some?
      && var indices := ObsIndices(w).value;
      && (forall i :: 0 <= i < |indices| ==> indices[i] < 8)
      && |indices| == |w|
      && |reply.reconstructed| == |w| <= Limit
      && reply.trellis.path == Decode(log, indices)
      && reply.reconstructed == Nahida.Labels(Constants.Elements(), reply.trellis.path)
      && reply.trellis.withered == w
      && reply.trellis.states == Constants.Elements()
      && reply.trellis.pure == (if |w| <= |pure| then Some(pure[..|w|]) else None)
      && (reply.report.Some? <==> |w| <= |pure|)
      && (reply.report.Some? ==>
            reply.trellis.pure == Some(pure[..|w|]) &&
            reply.report.value == Compare(reply.reconstructed, pure[..|w|]))
  {
    SanitisedHasIndices(witheredInput);
    var pure := PureStr(pureInput);
    var withered := WitheredStr(witheredInput);
    if |withered| == 0 then Refused(EmptyMessage)
    else
      match ObsIndices(withered)
      case None => Refused(InvalidMessage)
      case Some(indices) =>
        var path := Decode(log, indices);
        var reconstructed := Nahida.Labels(Constants.Elements(), path);
        var aligned := AlignReference(pure, |reconstructed|);
        var report := if aligned.Some? then Some(Compare(reconstructed, aligned.value)) else None;
        Restored(reconstructed, report, Trellis(withered, Constants.Elements(), path, aligned))
  }

  /** The reconstruction is a most likely element sequence for the
      withered record: no state sequence of the same length scores higher
      under the default parameters. */
  lemma {:induction false} ReconstructionIsMostLikely(pureInput: string, witheredInput: string, log: real -> Score)
    requires |WitheredStr(witheredInput)| > 0
    ensures ObsIndices(WitheredStr(witheredInput)).Some?
    ensures
      var indices := ObsIndices(WitheredStr(witheredInput)).value;
      var lt := Nahida.LogTables(Nahida.DefaultModel(log));
      && Nahida.Decodable(lt, indices)
      && ReconstructIrminsul(pureInput, witheredInput, log).Restored?
      && forall q :: |q| == |indices| && Nahida.IsStatePath(lt, q) ==>
           Leq(Nahida.PathScore(lt, indices, q),
               Nahida.PathScore(lt, indices, ReconstructIrminsul(pureInput, witheredInput, log).trellis.path))
  {
    SanitisedHasIndices(witheredInput);
    var indices := ObsIndices(WitheredStr(witheredInput)).value;
    Nahida.LogTablesDecodable(Nahida.DefaultModel(log), indices);
    Nahida.DecodePathIsMostLikely(Nahida.LogTables(Nahida.DefaultModel(log)), indices);
  }

  // ---------------------------------------------------------------------
  // The call as written

  /** The outcome of running the handler as written: a reply, or the
      `TypeError` raised by calling trikarma_purification with a keyword it
      does not take. */
  datatype Outcome = Returns(reply: Reply) | RaisesTypeError

  /** reconstruct_irminsul as written: the decode call passes
      `return_indices=True`, which trikarma_purification does not accept,
      so every input that reaches the call raises. */
  function ReconstructAsWritten(pureInput: string, witheredInput: string): (r: Outcome)
    ensures r.RaisesTypeError? <==> |WitheredStr(witheredInput)| > 0
    ensures r.Returns? ==> r.reply == Refused(EmptyMessage)
  {
    SanitisedHasIndices(witheredInput);
    var withered := WitheredStr(witheredInput);
    if |withered| == 0 then Returns(Refused(EmptyMessage))
    else
      match ObsIndices(withered)
      case None => Returns(Refused(InvalidMessage))
      case Some(_) => RaisesTypeError
  }

  /** Where the handler as written does not raise, it returns what the
      corrected handler returns. */
  lemma {:induction false} AsWrittenAgreesWhenRefused(pureInput: string, witheredInput: string, log: real -> Score)
    ensures ReconstructAsWritten(pureInput, witheredInput).Returns? ==>
      ReconstructAsWritten(pureInput, witheredInput).reply == ReconstructIrminsul(pureInput, witheredInput, log)
  {
    SanitisedHasIndices(witheredInput);
  }
}
