# Irminsul: the withered-record decoder, modelled in Dafny

The repository restores a "withered" record, a string of elemental symbols
(P, H, E, C, A, D, G) in which some entries were replaced by the corrupted
symbol W. It does this in two layers:

- `trikarma_purification` (Irminsul/nahida.py) is a first-order Viterbi
  decoder in log space. It uses a uniform prior of 1/N over the first state
  and fills a `viterbi` score table and a `backpointer` table column by
  column. Each cell is the `np.max` and the first-index `np.argmax` of the
  candidate vector `log_probs`. The decoder then picks the lowest-index best
  final state and walks the backpointers back into `best_path`. Its
  parameters are the constants of Irminsul/constants.py:
  - seven element labels;
  - a 7x7 transition matrix;
  - a 7x8 emission matrix whose last column is W;
  - the code-to-index table `OBS_MAP`.
- `reconstruct_irminsul` (handlers.py, repeated unchanged in app.py) is the
  request handler. It:
  - upper-cases and filters both text inputs, and keeps at most 16
    characters of each;
  - maps the withered record to observation indices and decodes it;
  - cuts the optional pure record to the length of the reconstruction;
  - counts the mismatches and computes the accuracy.

Files:
- `scores.dfy` (module `Scores`) holds the log-probability arithmetic:
  - `Score = NegInf | Fin(real)`, with -oo absorbing under addition;
  - the order on scores;
  - `np.max` / first-index `np.argmax` over a vector, as `MaxOf` and
    `FirstArgMax`;
  - `IsLog`, the only property of the logarithm that is ever assumed: log 0
    is -oo and log is strictly increasing on [0, oo).
- `constants.dfy` (module `Constants`) holds the parameter set, with its
  shape, stochasticity, zero entries and maxima.
- `nahida.dfy` (module `Nahida`) holds the decoder:
  - the numpy logarithm is the model's `log` field, a function from reals to
    scores;
  - `LogTables` takes every logarithm the decoder adds;
  - `V`, `Cand` and `Arg` define the lattice entry, the candidate and the
    first argmax as functions of the inputs;
  - `PathScore` is the joint log-score of any state sequence;
  - `FillLattice`, `FillColumn`, `ReadPath` and `TrikarmaPurification` are
    the imperative decoder over two-dimensional arrays, proved to produce
    exactly `DecodePath`;
  - the lemmas prove the backtrack consistent and the decoded path optimal,
    and give the tie-break laws and the facts about the default parameters.
- `handlers.dfy` (module `Handlers`) holds the handler as pure functions
  over strings, with lemmas for each of its guarantees. One model serves
  both copies of `reconstruct_irminsul`: handlers.py:8-55 and app.py:6-53
  are line-for-line the same code.

The callers (handlers.py:29, app.py:27, Irminsul/kusanali.py:31) and the
docstring (Irminsul/nahida.py:20-21) disagree with the code. The model
follows the code:
- The decoder has no `return_indices` parameter (Irminsul/nahida.py:8-13)
  and returns only `[states[s] for s in best_path]`.
- The docstring says that it returns indices, but it returns labels.
- `Nahida.TrikarmaPurification` returns both the label path and the index
  path, because that pair is what every caller unpacks (see "Findings"). Its
  postconditions state that the labels are the labelling of the index path.

## Model

| member | source | states |
|---|---|---|
| `Constants.Elements` | Irminsul/constants.py:3-11 | seven pairwise-distinct labels P, H, E, C, A, D, G in state order, none of them W |
| `Constants.Symbols` | handlers.py:15 | the withered alphabet is the seven elements followed by W, all distinct |
| `Constants.BaseMatrix` | Irminsul/constants.py:13-21 | the transition matrix is 7 x 7 |
| `Constants.EmissionMatrix` | Irminsul/constants.py:23-32 | the emission matrix is 7 x 8 |
| `Constants.ObsMap` | Irminsul/constants.py:34 | OBS_MAP has exactly the eight symbols as keys, maps symbol i to i, is injective, and its range is [0, 8), the emission columns |
| `Constants.BaseMatrixStochastic` | Irminsul/constants.py:13-21 | every transition entry is non-negative and every row sums to exactly 1 |
| `Constants.EmissionMatrixStochastic` | Irminsul/constants.py:23-32 | every emission entry is non-negative and every row sums to exactly 1 |
| `Constants.EmissionRowMaxima` | Irminsul/constants.py:24-31 | the W column is 0.30 for every state, and each element's own symbol is the strict maximum of its emission row |
| `Constants.EmissionColumnMaxima` | Irminsul/constants.py:25-31 | each element emits its own symbol more likely than any other element does |
| `Constants.BaseMatrixZeros` | Irminsul/constants.py:15 | the only zero transition is Hydro to Geo |
| `Constants.EmissionMatrixZeros` | Irminsul/constants.py:30-31 | the only zero emissions are Dendro showing G and Geo showing D |
| `Scores.Plus` | Irminsul/nahida.py:35-43 | float addition on the scores the decoder forms: the sum is finite exactly when both terms are, and is then the real sum (-oo absorbs) |
| `Scores.OrderTotal` | Irminsul/nahida.py:44-45 | the score order is total and antisymmetric, and `Lt` is its strict part |
| `Scores.PlusMonotone` | Irminsul/nahida.py:43 | adding a score keeps `<=`, and adding a finite score keeps `<` |
| `Scores.LogOfPositive` | Irminsul/nahida.py:35 | under IsLog a positive probability has a finite log |
| `Scores.MaxUpToIsMax` | Irminsul/nahida.py:44 | the running maximum of a prefix is one of its entries and bounds all of them |
| `Scores.MaxOf` | Irminsul/nahida.py:44 | np.max returns one of the entries of the vector; that it bounds them all is `Scores.MaxOfIsMax` |
| `Scores.MaxOfIsMax` | Irminsul/nahida.py:44 | np.max is an entry of the vector and bounds every entry |
| `Scores.FirstArgMax` | Irminsul/nahida.py:45 | np.argmax is an index of the vector |
| `Scores.ArgMaxUpTo` | Irminsul/nahida.py:45 | the prefix argmax is an index inside the prefix |
| `Scores.ArgMaxUpToIsArgMax` | Irminsul/nahida.py:45 | the prefix argmax holds a largest entry, and every earlier entry is strictly smaller |
| `Scores.FirstArgMaxIsArgMax` | Irminsul/nahida.py:45 | np.argmax holds a largest entry, and every entry before it is strictly smaller (lowest index wins ties) |
| `Scores.MaxAtFirstArgMax` | Irminsul/nahida.py:44-45 | np.max and np.argmax agree: the vector at the argmax is the maximum |
| `Scores.FirstArgMaxUnique` | Irminsul/nahida.py:45 | any index that is a maximum with only strictly smaller entries before it is the argmax |
| `Scores.FirstArgMaxOfTie` | Irminsul/nahida.py:45 | on a vector of equal entries (for example all -oo) the argmax is 0 |
| `Scores.FirstArgMaxShifted` | Irminsul/nahida.py:35 | adding one finite score to every entry leaves the argmax where it was |
| `Nahida.DefaultModel` | Irminsul/nahida.py:8-13 | the default arguments are the constants: 7 states, 8 symbols, a well-shaped model |
| `Nahida.LogTables` | Irminsul/nahida.py:35 | the log tables are log(1/N) and the elementwise logs of the two matrices, with the matrices' shapes |
| `Nahida.LogTablesDecodable` | Irminsul/nahida.py:25-43 | a well-shaped model and a non-empty observation sequence of valid symbols give tables every step of the decoder can index |
| `Nahida.Extend` | Irminsul/nahida.py:43 | one `log_probs` term, score + log T[p, s] + log E[s, o], is finite exactly when all three are, and is then their real sum |
| `Nahida.Cand` | Irminsul/nahida.py:43 | entry p of `log_probs` is finite only when the prior, log T[p, s] and log E[s, obs[t]] are finite |
| `Nahida.V` | Irminsul/nahida.py:35-44 | a finite `viterbi[s, t]` needs a finite log prior and a state s that can emit obs[t]; that it is the largest candidate and the best path score is `Nahida.CandidatesBelowV` and `Nahida.VIsBestScore` |
| `Nahida.ExtendMonotone` | Irminsul/nahida.py:43 | one `log_probs` term is monotone in the earlier score it extends |
| `Nahida.Arg` | Irminsul/nahida.py:45 | the candidate argmax is a state index |
| `Nahida.Back` | Irminsul/nahida.py:45 | every backpointer is a state index in [0, N) |
| `Nahida.ArgIsFirstArgMax` | Irminsul/nahida.py:43-45 | the backpointer's candidate is at least every candidate, and strictly above every candidate of a lower index |
| `Nahida.CandidatesBelowV` | Irminsul/nahida.py:43-45 | viterbi[s, t] is the largest candidate, attained at backpointer[s, t], and every lower-index candidate is strictly below it |
| `Nahida.LastColumn` | Irminsul/nahida.py:49 | the final lattice column has one entry per state |
| `Nahida.Backtrack` | Irminsul/nahida.py:52-53 | walking the backpointers from (s, t) gives t + 1 state indices ending in s |
| `Nahida.DecodePath` | Irminsul/nahida.py:48-53 | the decoded path has one state index per observation and ends in the lowest-index argmax of the last column |
| `Nahida.Labels` | Irminsul/nahida.py:55 | the result has one entry per path entry, each the label of that state, so each is drawn from `states` |
| `Nahida.BacktrackFollowsBackpointers` | Irminsul/nahida.py:52-53 | each state of the walk is the backpointer of its successor |
| `Nahida.DecodePathFollowsBackpointers` | Irminsul/nahida.py:48-53 | path[T-1] is the argmax of the last column and path[t] = backpointer[path[t+1], t+1] for every t < T-1 |
| `Nahida.PathScore` | Irminsul/nahida.py:23-43 | the joint log-score of a state sequence is finite only when the prior and the last emission are; all factors finite is `Nahida.FiniteScoreHasFiniteFactors`, optimality of the decoded path against it is `Nahida.DecodePathIsMostLikely` |
| `Nahida.PathScoreStep` | Irminsul/nahida.py:43 | extending a state sequence by s adds the log transition into s and the log emission from s |
| `Nahida.BacktrackAttainsV` | Irminsul/nahida.py:38-53 | every lattice entry is attained: the backtrack from (s, t) scores exactly viterbi[s, t] |
| `Nahida.VBoundsPaths` | Irminsul/nahida.py:38-45 | every state sequence of length t + 1 ending in s scores at most viterbi[s, t] |
| `Nahida.VIsBestScore` | Irminsul/nahida.py:33-45 | viterbi[s, t] is the best score over all state sequences of length t + 1 ending in s: some sequence attains it and none exceeds it |
| `Nahida.DecodePathIsMostLikely` | Irminsul/nahida.py:23 | optimality: the decoded path scores the maximum of the final column, and no state sequence of the same length scores higher |
| `Nahida.FiniteScoreHasFiniteFactors` | Irminsul/nahida.py:33-43 | a finite path score needs a finite log prior, finite log emissions along the path and finite log transitions between its states |
| `Nahida.ZeroEmissionIsImpossible` | Irminsul/nahida.py:43-45 | a state that cannot emit the current symbol gets score -oo without any error, and its backpointer is then 0 |
| `Nahida.AllCandidatesImpossible` | Irminsul/nahida.py:43-45 | when every candidate of `log_probs` is -oo the lattice entry is -oo and np.argmax falls back to backpointer 0 |
| `Nahida.SingleObservation` | Irminsul/nahida.py:35-49 | with T = 1 the recursion is empty and the result is the lowest-index argmax of the log emissions of obs[0] |
| `Nahida.UniformDecodesToFirstState` | Irminsul/nahida.py:45-53 | tie-break law: with uniform transitions and state-independent emissions every decoded state is 0 |
| `Nahida.VConstant` | Irminsul/nahida.py:43-45 | under uniform tables every lattice column is constant and every backpointer is 0 |
| `Nahida.BacktrackUniform` | Irminsul/nahida.py:52-53 | under uniform tables the backtrack from state 0 stays in state 0 |
| `Nahida.DefaultLogEmissions` | Irminsul/constants.py:24-31 | under IsLog the default log prior is finite, each element's own symbol has the strictly largest log emission in its column, and all elements share the log emission of W |
| `Nahida.SingleSymbolCases` | Irminsul/nahida.py:35-49 | a single symbol whose own state emits it strictly best decodes to that state, and a symbol every state emits equally decodes to state 0 |
| `Nahida.DefaultSingleSymbol` | Irminsul/nahida.py:8-55 | with the default parameters a single element symbol decodes to its own element and a single W decodes to Pyro |
| `Nahida.DefaultPyroPositive` | Irminsul/constants.py:14-25 | Pyro follows itself and emits every symbol with positive probability |
| `Nahida.AllPyroFinite` | Irminsul/nahida.py:35-43 | a state that starts, repeats itself and emits every observed symbol with finite log-score gives the constant sequence a finite score |
| `Nahida.DefaultAllPyroIsPossible` | Irminsul/nahida.py:33-43 | with the default parameters the all-Pyro sequence has a finite score for every observation sequence |
| `Nahida.DefaultDecodeAvoidsZeros` | Irminsul/nahida.py:33-53 | with the default parameters the decoded path scores finitely and never uses a zero entry: no Hydro then Geo, no Dendro at G, no Geo at D |
| `Nahida.ArgMaxUpToIsArg` | Irminsul/nahida.py:45 | np.argmax over a prefix of the `log_probs` vector is the candidate argmax |
| `Nahida.NumpyStep` | Irminsul/nahida.py:43-45 | over the vector `log_probs`, np.max is the lattice entry and np.argmax is the backpointer |
| `Nahida.FillLattice` | Irminsul/nahida.py:25-45 | new N x T tables whose every viterbi cell is the lattice entry and whose every backpointer cell for t >= 1 is the lowest-index argmax |
| `Nahida.FillColumn` | Irminsul/nahida.py:39-45 | column t of both tables becomes the lattice entries and backpointers, and every other column stays as it was |
| `Nahida.ReadPath` | Irminsul/nahida.py:47-53 | termination by argmax of the last column, then the backtrack loop, writes exactly the decoded path into best_path |
| `Nahida.TrikarmaPurification` | Irminsul/nahida.py:8-55 | the returned index path is the decoded path, and the returned labels are its labelling |
| `Handlers.Upper` | handlers.py:11 | upper-casing maps an ASCII lower-case letter 32 code points down to its capital and leaves every other character as it is |
| `Handlers.Clean` | handlers.py:11 | the filtered string is no longer than the input, and every character is in the alphabet |
| `Handlers.Sanitise` | handlers.py:11-12 | a sanitised string has at most 16 characters, all from the alphabet |
| `Handlers.PureStr` | handlers.py:10-12 | pure_str has at most 16 characters, all elements and never W, and is a prefix of the filtered input |
| `Handlers.WitheredStr` | handlers.py:15-17 | withered_str has at most 16 characters from P, H, E, C, A, D, G, W, and is a prefix of the filtered input |
| `Handlers.CleanAppend` | handlers.py:16 | filtering distributes over concatenation, so it keeps input order |
| `Handlers.CleanKeeps` | handlers.py:16 | a character survives filtering exactly when it is in the alphabet and some input character upper-cases to it |
| `Handlers.CleanFixed` | handlers.py:16 | a string of upper-case alphabet characters filters to itself |
| `Handlers.SanitiseIsPrefix` | handlers.py:16-17 | the sanitised string is the prefix of the filtered string of length min(16, length) |
| `Handlers.SanitiseIdempotent` | handlers.py:16-17 | sanitising an already sanitised string changes nothing |
| `Handlers.AlphabetsUpper` | handlers.py:10-15 | both alphabets consist of upper-case characters, and the elements are among the withered symbols |
| `Handlers.PureStrSanitised` | handlers.py:10-12 | pure_str holds at most 16 elements (never W) in input order, and sanitising it again changes nothing |
| `Handlers.WitheredStrSanitised` | handlers.py:15-17 | withered_str holds at most 16 characters from P, H, E, C, A, D, G, W in input order, and sanitising it again changes nothing |
| `Handlers.ObsIndices` | handlers.py:24 | a successful lookup gives one index per character |
| `Handlers.ObsIndicesSpec` | handlers.py:22-26 | the lookup fails exactly when some character is not a key of OBS_MAP; otherwise every index is in [0, 8) and names its own symbol |
| `Handlers.SanitisedHasIndices` | handlers.py:16-26 | on a sanitised withered string the KeyError branch is unreachable and every index is in [0, 8) |
| `Handlers.AlignReference` | handlers.py:35-44 | a reference is aligned exactly when pure_str is non-empty and at least as long as the reconstruction, and then it is the reconstruction-length prefix |
| `Handlers.Mismatches` | handlers.py:45 | the mismatch count over k positions is at most k |
| `Handlers.MismatchesCount` | handlers.py:45-46 | the mismatch count is the number of differing positions, and it is 0 exactly when the strings agree |
| `Handlers.Accuracy` | handlers.py:47 | accuracy lies in [0, 100]; for a non-empty comparison it is 100 exactly when nothing mismatches and 0 exactly when everything does |
| `Handlers.Compare` | handlers.py:44-48 | the report's total is the reconstruction length, its mismatches are the number of differing positions (0 exactly when the two strings are equal), correct + mismatches = total, and its accuracy is `Accuracy` of those counts |
| `Handlers.Decode` | handlers.py:29 | the default decoder gives one element index (below 7) per observation |
| `Handlers.ReconstructIrminsul` | handlers.py:8-55 | the handler refuses exactly when withered_str is empty, always with the empty-input message (the invalid-character message never occurs); otherwise it returns the labels of the decoded path of withered_str's indices (one per symbol, at most 16); the figure gets withered_str, the element labels and that path; a report and the figure's pure record are present exactly when pure_str is at least as long, both being its prefix, and the figure's pure record is None otherwise |
| `Handlers.ReconstructionIsMostLikely` | handlers.py:29-30 | the reconstruction is a most likely element sequence for the withered record under the default parameters |
| `Handlers.ReconstructAsWritten` | handlers.py:19-29 | as written, the handler raises TypeError exactly when withered_str is non-empty, and otherwise refuses with the empty-input message |
| `Handlers.AsWrittenAgreesWhenRefused` | handlers.py:19-26 | on every input where the handler as written does not raise, it returns what the corrected handler returns |

## Left out

- Floating point. Scores are exact: a finite score is a real, and a zero
  probability scores -oo.
  - Rounding is not modelled, nor is `np.errstate` suppressing the
    divide-by-zero warning.
  - +oo and NaN never arise from probabilities in [0, 1], so the `Score`
    type has no value for them. `Model.Valid` asks only for shapes, so the
    generic decoder lemmas also hold for negative entries. They describe
    the source only for non-negative parameters: on a negative entry
    `np.log` gives NaN, which `np.max` and `np.argmax` pass on.
  - The logarithm is a parameter (`Model.log`). Every decoder and
    optimality lemma holds for any such function. The facts about the
    default constants assume only `Scores.IsLog`.
- Nahida.TrikarmaPurification: the source applies `np.log` to a column of
  the transition matrix and to one emission entry inside the loops
  (Irminsul/nahida.py:35, 43). The model takes all logarithms once
  with `LogTables` before filling the tables. `np.log` is pure, so the
  values are the same.
- Nahida.TrikarmaPurification: requires at least one observation and every
  observation below the emission width. On an empty sequence the source
  fails at `obs_sequence[0]`. An out-of-range index raises in numpy.
  Python's negative indices are excluded by `nat`.
- `best_path[-1]` and `viterbi[:, -1]` are modelled as index T - 1.
- Handlers.Upper: models `str.upper` on ASCII letters only. A non-ASCII
  character is kept as it is. No character outside ASCII upper-cases to one
  of P, H, E, C, A, D, G or W, so the filter result is the same. Multi-code-point
  upper-case forms never equal a one-letter label either.
- The handler's display text is left out:
  - the `"".join` of the reconstructed labels is `Reply.reconstructed`;
  - the accuracy line's `.1f` formatting and its concatenation are left
    out, and the model keeps its numbers (`Report`).
- `plot_viterbi_trellis` (Irminsul/trellis.py, plotting only) is modelled
  by the arguments it receives (`Trellis`). The figure does not appear in a
  refused reply.
- The `pass` branch for a short pure record (handlers.py:40-42) does
  nothing. The model keeps no reference in that case.
- The `else 0` branch of the accuracy is modelled. The handler never takes
  it, because the reconstruction has at least one symbol.
- Irminsul/kusanali.py is a demo script that prints and saves a figure;
  it is not part of this model. Its call has the same defect as the
  handler's (see Findings).
- ui.py and the Gradio `Blocks` half of app.py (app.py:55-111) are UI
  wiring and are left out.
- `simulate_triple_comparison` and the Eleazar package are left out. They
  are a floating-point ODE solved by `scipy.integrate.odeint`, plus
  plotting.
- The Delusion package is left out. It is floating-point economics solved
  by `scipy.optimize.linprog`, plus plotting.
- The `__init__.py` files only re-export and are left out.

## Findings

| source | as written | input that shows it | evidently intended | confidence | as-written member | corrected member |
|---|---|---|---|---|---|---|
| handlers.py:29 | the handler calls the decoder with the keyword `return_indices`, which Irminsul/nahida.py:8-13 does not declare, and unpacks two results from a function that returns one list | withered input "P": withered_str is "P", its indices are [0], and the call raises TypeError | the decoder returns the label path and the index path, and the handler joins the labels and passes the indices to the figure | high, not executed | `Handlers.ReconstructAsWritten`, with `Handlers.AsWrittenAgreesWhenRefused` | `Handlers.ReconstructIrminsul`, with `Nahida.TrikarmaPurification` |
| app.py:27 | the same call in the verbatim copy of the handler | the same input "P" | the same | high, not executed | `Handlers.ReconstructAsWritten`, with `Handlers.AsWrittenAgreesWhenRefused` | `Handlers.ReconstructIrminsul`, with `Nahida.TrikarmaPurification` |
