# Verified model of infotheory's online mixing, prefix coding, trace indexing and agent codecs

The repository predicts bytes by mixing experts online. This project models that kernel and the
code around it, and proves what the kernel is relied on for.

- **Stretch-domain mixer** (`StretchMixer`, `StretchMixerLaws`, `StretchMixerCore`, `LogisticLaws`). Six
  weight rows are selected by hashed contexts, scored in the logit domain, and trained bit by bit. A flat
  journal undoes speculative training. The mixer is specified as a state machine on values; the class
  updates its tables, caches and journal in place, and every method is tied to that specification.
  `LogisticLaws` says what the mixer answers and learns in terms of weights, log odds and probabilities.
- **Speculative byte scores** (`BitTree`, `BytePdf`, `WalkViews`, `PdfNormalization`, `BytePdfSession`,
  `ByteScoreLaws`). A byte's score comes from a walk that trains the mixer along the byte's bits and is
  then rolled back. The 256 scores form a probability distribution, equal what really coding the byte
  would give, and are the mixer's answers to the experts' conditional probabilities at each prefix.
- **Two-stage softmax mixer** (`NeuralMix`, `NeuralMixLaws`, `NeuralMixCore`, `SoftmaxLaws`,
  `NeuralMixAnswers`, `NeuralMixLearning`). Lazily cached softmax mixtures, evaluation, and gradient
  updates with a skip threshold; what a fresh mixer answers, and that one update makes its symbol more
  probable, strictly so exactly when there is something to learn.
- **Byte-prefix views** (`BytePrefix`, `PrefixMass`, `PrefixViews`, `BytePrefixMass`). A heap of
  subtree masses, a CDF interval and a prefix code are shown to denote the same bit prefix, for any
  depth; bytes are depth 8.
- **Fixed-share forward and Viterbi recursions** (`FixedShare`, `FixedShareLaws`, `FixedShareRun`,
  `FixedShareBounds`). The log-domain loop is shown to track two dynamic programs, and these to sum and
  maximise over every switching schedule; the forward code's cost over any single expert is bounded.
- **Diagnostic tables and trace indexes** (`Tsv`, `Flatten`, `FlattenLaws`, `TraceLines`, `Tiles`,
  `TraceIndex`, `TraceSchema`, `Bins`, `NodeSeries`, `ExactSeries`, `SeriesLaws`, `NodeChart`). Writing
  and reading tab-separated rows and trace columns, flattening nested mixtures, one-pass loading of a
  trace, and the charts built from it.
- **Agent bit codec** (`AixiCodec`) and **snippet windows** (`Snippets`).

`RealMath`, `LogMath` and `ContextHash` hold what several of these share; `HashLaws` shows that the context
hash loses nothing before its final reduction.

## How the model reads

- `f64` is `real`, and all values are finite. `exp`, `ln`, `stretch` and `squash` are parameters; each
  result requires only the facts it uses. `ExpFacts` says that `exp` is positive, monotone and 1 at 0,
  `ExpLaws` adds that it turns sums into products, and `LogLaws` that `ln` is its exact inverse.
  `LogisticCurvesAreMonotone` shows that the curves the code computes meet what the stretch mixer needs,
  and `SquashIsSigmoid` that their two branches are one sigmoid.
- A result about an operation's answer is stated on the mixer's own tables and on probabilities, with
  definitions of its own (`Weight`, `LogOdds`, `Handed`, `Logit1`), and not through the functions that
  specify the operation.
- A weight row starts at `Offset(index, n)`, which is `index * n`. Bit operations are written as
  arithmetic: a shift is a division or a multiplication, a mask a remainder, the `|=` that sets a bit
  of the symbol register an addition of a bit that is still clear (`SetBitReassembles`).
- 64-bit wrap-around, sign extension and the difference between checked and unchecked addition are
  explicit in `AixiCodec`; the hash works modulo 2^32; win counts saturate at the largest 32-bit value.
- `debug_assert!` conditions and panicking indexings are `requires` clauses; returned errors are values.
- Trace files are sequences of characters, one per byte. A row's fields are parsed by a function that
  may fail and that depends on the header; the first failure ends the load, as in the source.
- The source's borrowed scratch buffers are arrays (`bitProbs`, `ranges`) or sequences held in fields.

Three groups of results state where two parts of the program differ, with the exact condition:

- `row_to_bin` counts a row in the bin whose range shows it, or in the bin before. It is the same bin
  exactly when `(row - start) * bins % len + bins <= len`, and for all rows exactly when `bins`
  divides `len` (`CountedWhereShown`, `PartitionsAgree`, `ExactLabels`). With the code's own bin count
  the row-by-row chart therefore shows every trace as the averages of its labelled rows exactly when
  the viewport has at most 240 rows or a multiple of 240 (`ExactTrueExactly`).
- A tile series averages whole tiles but labels its first and last point with the viewport's ends. It
  shows every trace truly exactly when the viewport is tile-aligned (`TilesTrueExactly`); the one
  exception is the win fraction of an only node, which is 1 in every row. `ChartTrueExactly` puts both
  together for the chart that is actually built, and `ZoomingMisleads` reaches a wrong one by zooming.
- A validated reward can be lost at width 0, where the decoder returns 0 and not the offset reward,
  and at 64 bits, where the addition of the offset can overflow (`ValidatedRewardRoundTrip`,
  `ValidatedButLost`, `WrappingRoundTrip`). Planner specifications refuse width 0
  (`crates/infotheory/src/spec/document/pipeline.rs:425`), so only direct users of the codec can meet the first case; the
  64-bit case is open to any configuration.

## Model

| member | source | states |
|---|---|---|
| `ContextHash.HashFields` | crates/infotheory/src/neural_mix.rs:898-906 | the hash of any fields stays below the table size |
| `HashLaws.RoundInverts` | crates/infotheory/src/neural_mix.rs:898-906 | a round of the hash is undone by rotating back, the inverse factor and the same byte |
| `HashLaws.OneFieldMatters` | crates/infotheory/src/neural_mix.rs:898-906 | changing any one field changes the 32-bit hash before it is reduced to a row |
| `StretchMixer.ContextIndices` | crates/infotheory/src/neural_mix.rs:551-619 | every selected row index lies inside its table; row 0 is the global one, row 1 the previous byte's own, and without history the first four are 0 |
| `StretchMixer.NoHistorySelectsNothing` | crates/infotheory/src/neural_mix.rs:555-576 | without history the selected rows, the last two included, depend on nothing in the history |
| `StretchMixer.RowsDependOn` | crates/infotheory/src/neural_mix.rs:577-618 | with history each hashed row depends on its own few fields only: last two bytes; text state; repetition, run length up to 63 and match; bit, prefix and nearest text |
| `StretchMixerLaws.UpdateTrainsSelectedRows` | crates/infotheory/src/neural_mix.rs:437-455 | an update moves exactly the six selected rows by one clipped step along the stretches and uses up the prediction; all other rows, and everything without a fresh prediction, stay |
| `StretchMixerLaws.InitialIsValid` | crates/infotheory/src/neural_mix.rs:324-387 | construction and reset give a clipped, coherent mixer that the priors determine completely |
| `StretchMixerLaws.ContextKeepsValid` | crates/infotheory/src/neural_mix.rs:389-395 | changing the context keeps the cached indices equal to those of the stored context |
| `StretchMixerLaws.PredictionsTrainOnce` | crates/infotheory/src/neural_mix.rs:389-455 | a prediction trains at most once, and not at all once the context has changed |
| `StretchMixerLaws.UpdateKeepsValid` | crates/infotheory/src/neural_mix.rs:437-455 | every update keeps all weights inside the clip and the indices coherent |
| `StretchMixerLaws.LogisticCurvesAreMonotone` | crates/infotheory/src/neural_mix.rs:956-976 | the two-branch logistic function never decreases, given only that `exp` is positive, monotone and 1 at 0 |
| `StretchMixerLaws.LearningNeverHurts` | crates/infotheory/src/neural_mix.rs:397-455 | observing a bit and re-predicting with the same context and experts never lowers that bit's probability, despite clipping in six rows |
| `LogisticLaws.SquashIsSigmoid` | crates/infotheory/src/neural_mix.rs:963-976 | both branches of the logistic function give 1 / (1 + exp(-x)), x held inside 64 |
| `LogisticLaws.SigmoidInverts` | crates/infotheory/src/neural_mix.rs:956-976 | the sigmoid of a probability's log odds is that probability |
| `LogisticLaws.PredictionAddsLogOdds` | crates/infotheory/src/neural_mix.rs:397-430 | the prediction is the floored sigmoid of the experts' floored and clipped log odds, each times its expert's total weight over the six rows; weights and context stay |
| `LogisticLaws.UnanimousExpertsAreEchoed` | crates/infotheory/src/neural_mix.rs:397-430 | when all experts report one probability and the selected weights total 1, that probability is predicted, inside the floor and the clip |
| `LogisticLaws.SingleExpertIsBelieved` | crates/infotheory/src/neural_mix.rs:397-430 | a single expert whose six selected weights total 1 is predicted exactly, clamped to the floor, wherever the clip does not bite |
| `LogisticLaws.RaisingAnExpert` | crates/infotheory/src/neural_mix.rs:397-430 | raising one expert's probability never lowers the prediction if its selected weights total at least 0, and never raises it if at most 0 |
| `LogisticLaws.SilentMixerPredictsHalf` | crates/infotheory/src/neural_mix.rs:397-430 | selected weights that are or total 0 for every expert predict 1/2, as does a mixer without experts |
| `LogisticLaws.FreshWeights` | crates/infotheory/src/neural_mix.rs:324-395 | in a fresh mixer, in every context, an expert's selected weights total its prior, floored at 0 and clipped |
| `LogisticLaws.SelectedWeightsMove` | crates/infotheory/src/neural_mix.rs:437-455 | each selected weight ends at the clip of its old value plus a sixth of the rate times (bit - prediction) times its expert's log odds |
| `LogisticLaws.UpdateMovesScore` | crates/infotheory/src/neural_mix.rs:437-455 | if no selected weight reaches the clip, the six-row score moves by exactly rate times (bit - prediction) times the sum of squared log odds |
| `LogisticLaws.TrainingMovesScore` | crates/infotheory/src/neural_mix.rs:437-455 | with a positive rate, one nonzero log odds and one unclipped weight on it suffice for the score to move strictly toward the bit |
| `LogisticLaws.TrainingMovesPrediction` | crates/infotheory/src/neural_mix.rs:397-455 | re-predicting then gives the bit strictly more probability, unless the floor or the clip of the score already holds the prediction |
| `StretchMixerLaws.JournalledTraining` | crates/infotheory/src/neural_mix.rs:503-531 | after any number of contexts, replaying the journal latest first over the trained tables gives what replaying the earlier journal over the earlier tables gives |
| `StretchMixerLaws.CallIsUndoable` | crates/infotheory/src/neural_mix.rs:457-531 | each call inside an undo scope keeps the journal able to restore the tables at the scope's start |
| `StretchMixerLaws.RunIsUndoable` | crates/infotheory/src/neural_mix.rs:457-531 | the same for any sequence of calls |
| `StretchMixerLaws.UndoIsExact` | crates/infotheory/src/neural_mix.rs:457-489 | restoring after any sequence of context changes, predictions and journalled observations gives back tables, context, indices, stretches, probability and validity flag |
| `StretchMixerCore.LogisticMixCore.constructor` | crates/infotheory/src/neural_mix.rs:324-360 | a new mixer is valid and holds the clipped, non-negative priors in the global row, zeros elsewhere |
| `StretchMixerCore.LogisticMixCore.ResetToPriors` | crates/infotheory/src/neural_mix.rs:362-387 | reset gives exactly the state a new mixer has |
| `StretchMixerCore.LogisticMixCore.SetContext` | crates/infotheory/src/neural_mix.rs:389-395 | the in-place change is the specified one and keeps validity |
| `StretchMixerCore.LogisticMixCore.PredictBit` | crates/infotheory/src/neural_mix.rs:397-430 | the loops over experts and rows compute the specified prediction and caches, those of `PredictionAddsLogOdds` |
| `StretchMixerCore.LogisticMixCore.UpdateLast` | crates/infotheory/src/neural_mix.rs:437-455 | the in-place weight loops perform the specified gradient step, that of `SelectedWeightsMove` |
| `StretchMixerCore.LogisticMixCore.ObserveBit` | crates/infotheory/src/neural_mix.rs:533-542 | predicts, then trains, and returns the probability before training |
| `StretchMixerCore.LogisticMixCore.BeginUndo` | crates/infotheory/src/neural_mix.rs:457-469 | opens an empty journal that saves every transient field |
| `StretchMixerCore.LogisticMixCore.UpdateLastRecordingUndo` | crates/infotheory/src/neural_mix.rs:503-531 | saving and training row by row leaves the mixer as plain training does, and the journal holds the overwritten rows |
| `StretchMixerCore.LogisticMixCore.ObserveBitRecordingUndo` | crates/infotheory/src/neural_mix.rs:491-501 | same mixer and probability as `ObserveBit`, plus the journal |
| `StretchMixerCore.LogisticMixCore.RestoreUndo` | crates/infotheory/src/neural_mix.rs:471-489 | copying saved rows back in reverse order performs the specified restoration and closes the journal |
| `BitTree.MassIsProduct` | crates/infotheory/src/neural_mix.rs:159-195 | a leaf's mass is the product of the conditionals along its bits |
| `BitTree.MassesSumToOne` | crates/infotheory/src/neural_mix.rs:125-149 | the leaves of any tree of conditionals carry mass exactly 1 |
| `BytePdf.WalkFollowsTree` | crates/infotheory/src/neural_mix.rs:159-195 | every walk meets the conditionals of one tree: a conditional depends on the bits read before it only, although the mixer trains on the way |
| `BytePdf.WalkIsUndoable` | crates/infotheory/src/neural_mix.rs:100-123 | a walk in either mode stays undoable to where its journal began |
| `BytePdf.JournalSize` | crates/infotheory/src/neural_mix.rs:491-531 | a bit journals six entries and six rows in adaptive mode and nothing in frozen mode |
| `BytePdf.ScoreIsPdfEntry` | crates/infotheory/src/neural_mix.rs:159-195 | the product accumulated on a walk is that symbol's leaf mass, whatever the journal already held |
| `BytePdf.PdfIsDistribution` | crates/infotheory/src/neural_mix.rs:100-195 | before any normalisation the scores are positive and sum to exactly 1, in both modes, for every mixer state, history, match state and expert CDF set |
| `BytePdf.FrozenTree` | crates/infotheory/src/neural_mix.rs:139-149 | frozen conditionals depend on the fitted parameters only, so earlier walks cannot disturb later ones |
| `BytePdf.FrozenWalkKeepsParameters` | crates/infotheory/src/neural_mix.rs:112-149 | a frozen walk changes no table and no journal |
| `WalkViews.CursorDenotes` | crates/infotheory/src/neural_mix.rs:159-195 | after any bits of a walk the cursor counts them, its code is their number behind a leading 1, and its interval holds the symbols that start with them |
| `WalkViews.ProbOneIsHanded` | crates/infotheory/src/neural_mix.rs:165-168 | what an expert hands the mixer there is the directly summed mass that continues with 1 over the mass of the bits raised to the floor, clamped |
| `WalkViews.HandedIsConditional` | crates/infotheory/src/byte_prefix.rs:47-68 | for a nondecreasing CDF that is the expert's clamped conditional probability at exactly those bits, scaled down first only where they carry less than the floor |
| `WalkViews.BitIsAnswered` | crates/infotheory/src/neural_mix.rs:164-187 | every bit is predicted in the context of exactly the bits read, from these probabilities of all experts |
| `BytePdfSession.LogisticBytePdfSession.ScoreBit` | crates/infotheory/src/neural_mix.rs:164-193 | one round of the loop leaves in its buffer what every expert hands over after the bits read, selects their context, and returns the mixer's answer |
| `ByteScoreLaws.ScoresFollowExperts` | crates/infotheory/src/neural_mix.rs:100-195 | in both modes and for any number of experts a score is the product of the mixer's answers to the experts along the symbol's bits, learning each bit in adaptive mode |
| `ByteScoreLaws.TrustedExpertScores` | crates/infotheory/src/neural_mix.rs:112-123 | with one expert whose selected weights total 1, the frozen score of every symbol is the product of that expert's clamped conditionals along the symbol's bits |
| `ByteScoreLaws.TrustedExpertIsReproduced` | crates/infotheory/src/neural_mix.rs:112-123 | where no clamp bites, that is the expert's own normalised mass of the symbol |
| `ByteScoreLaws.FreshIsTrusted` | crates/infotheory/src/neural_mix.rs:324-360 | a fresh mixer with one expert of prior 1 is such a mixer |
| `PdfNormalization.MassNormalizedKeepsRatios` | crates/infotheory/src/byte_prefix.rs:230-253 | every entry, negative ones counted as 0, is divided by the total; a massless slice becomes uniform |
| `PdfNormalization.MassNormalizedIsDistribution` | crates/infotheory/src/byte_prefix.rs:230-253 | normalisation yields a distribution from any slice, negative and massless ones included |
| `PdfNormalization.MassNormalizedIsIdentity` | crates/infotheory/src/byte_prefix.rs:230-253 | normalisation leaves a distribution unchanged |
| `PdfNormalization.NormalizePdfMassOnly` | crates/infotheory/src/byte_prefix.rs:230-253 | the in-place loops compute that normalisation |
| `BytePdfSession.SpeculationIsExact` | crates/infotheory/src/neural_mix.rs:100-123 | a speculative walk's product is the byte's score and restoring gives back the mixer |
| `BytePdfSession.ByteJournalSize` | crates/infotheory/src/neural_mix.rs:314-322 | an adaptive byte writes exactly 48 entries and 48 n values, the room `new_undo` reserves |
| `BytePdfSession.FrozenScore` | crates/infotheory/src/neural_mix.rs:139-149 | a frozen walk after other frozen walks still gives the original score |
| `BytePdfSession.LogisticBytePdfSession.ScorePath` | crates/infotheory/src/neural_mix.rs:159-195 | the loop over eight bits performs the specified walk, reading every expert at the bits walked so far (`ScoreBit`), and returns its product |
| `BytePdfSession.LogisticBytePdfSession.ScoreAdaptive` | crates/infotheory/src/neural_mix.rs:100-110 | returns the byte's adaptive score and leaves the mixer as it was |
| `BytePdfSession.LogisticBytePdfSession.ScoreFrozen` | crates/infotheory/src/neural_mix.rs:112-123 | returns the byte's frozen score and leaves the mixer as it was |
| `BytePdfSession.LogisticBytePdfSession.MaterializeAdaptive` | crates/infotheory/src/neural_mix.rs:125-137 | fills the slice with the scores themselves: the final normalisation changes nothing, the mixer is unchanged |
| `BytePdfSession.LogisticBytePdfSession.MaterializeFrozen` | crates/infotheory/src/neural_mix.rs:139-149 | the same for frozen scores under one undo scope around all 256 walks |
| `BytePdfSession.LogisticBytePdfSession.CodeByte` | crates/infotheory/src/neural_mix.rs:533-542 | really coding a byte with eight observations has the probability its speculative score announced |
| `NeuralMixLaws.SoftmaxIsDistribution` | crates/infotheory/src/neural_mix.rs:908-939 | softmax is a probability vector for any logits |
| `SoftmaxLaws.SoftmaxShare` | crates/infotheory/src/neural_mix.rs:908-939 | the shift by the maximum cancels: a share times the sum of all exponentials is the exponential of its own logit |
| `SoftmaxLaws.SoftmaxOdds` | crates/infotheory/src/neural_mix.rs:908-939 | two shares are to each other as the exponentials of their logits |
| `SoftmaxLaws.HigherLogitHigherShare` | crates/infotheory/src/neural_mix.rs:908-939 | a higher logit gets the higher share |
| `SoftmaxLaws.TiltRaisesMean` | crates/infotheory/src/neural_mix.rs:782-796 | multiplying weights by factors at least 1 above the mean and at most 1 below it never lowers the renormalised mean, and raises it once one such factor is not 1 |
| `NeuralMixAnswers.ExpertsEnterAs` | crates/infotheory/src/neural_mix.rs:718-724 | a finite log probability enters as its exponential inside the floors, any other as the floor |
| `NeuralMixAnswers.Stage1Odds` | crates/infotheory/src/neural_mix.rs:872-894 | after an evaluation two experts' shares in a context are to each other as the exponentials of their selected logits |
| `NeuralMixAnswers.Stage2Odds` | crates/infotheory/src/neural_mix.rs:872-894 | two contexts' weights are to each other as the exponentials of their stage-2 logits |
| `NeuralMixAnswers.WeightsAreShares` | crates/infotheory/src/neural_mix.rs:887-893 | an expert's weight is the sum of its shares in the four contexts, weighted by these |
| `NeuralMixAnswers.FreshEvaluation` | crates/infotheory/src/neural_mix.rs:627-741 | in a mixer fresh from its priors, in every context, an expert weighs a quarter of its floored prior's share plus three quarters of 1/n, and the result is the experts' probabilities under these weights |
| `NeuralMixLaws.MixturesAreDistributions` | crates/infotheory/src/neural_mix.rs:872-894 | every cached stage-1 and stage-2 mixture and the expert weights are probability vectors |
| `NeuralMixLaws.ClampsNeverBite` | crates/infotheory/src/neural_mix.rs:717-741 | with floored expert probabilities no clamp on a stage-1 or final probability changes anything |
| `NeuralMixLaws.EvaluateKeepsCoherent` | crates/infotheory/src/neural_mix.rs:717-741 | after evaluation, caches equal a fresh recomputation and results match the stored expert probabilities |
| `NeuralMixLaws.UpdateKeepsCoherent` | crates/infotheory/src/neural_mix.rs:755-799 | an update, skipped or not, never leaves a stale cache marked valid |
| `NeuralMixLaws.WeightsExplainResult` | crates/infotheory/src/neural_mix.rs:872-894 | the expert weights are a distribution that mixes the experts exactly as the two stages do |
| `NeuralMixLaws.EvaluationIsConvex` | crates/infotheory/src/neural_mix.rs:717-741 | the result is the sum of weights times expert probabilities and lies between any bounds of these |
| `NeuralMixLaws.GradientSumsToZero` | crates/infotheory/src/neural_mix.rs:755-799 | around its own mean, a row's gradient sums to zero |
| `NeuralMixLaws.UpdateConserves` | crates/infotheory/src/neural_mix.rs:755-799 | one update changes no row's total logit |
| `NeuralMixLaws.RunIsSafe` | crates/infotheory/src/neural_mix.rs:668-808 | after any calls in any order, resets included, caches are coherent and every row's total logit is what the latest priors gave it |
| `NeuralMixLaws.InitialSums` | crates/infotheory/src/neural_mix.rs:627-697 | a fresh or reset mixer is coherent and only its global row has a nonzero total, the sum of the log priors |
| `NeuralMixLaws.LogitsAreConserved` | crates/infotheory/src/neural_mix.rs:627-799 | over any run from a fresh mixer, resets included, every row's total logit is that of the latest priors |
| `NeuralMixLearning.UpdateEvaluates` | crates/infotheory/src/neural_mix.rs:755-759 | an update that finds no evaluation makes one first |
| `NeuralMixLearning.UpdateMovesLogits` | crates/infotheory/src/neural_mix.rs:782-796 | an update that is not skipped adds, to each selected stage-1 logit, the rate times context weight times share times (expert - context probability) over the final one; all others stay |
| `NeuralMixLearning.UpdateMovesStage2` | crates/infotheory/src/neural_mix.rs:774-780 | the same for the selected stage-2 row |
| `NeuralMixLearning.LearningNeverHurts` | crates/infotheory/src/neural_mix.rs:717-799 | with non-negative rates, evaluating the same symbol in the same context after its update never gives it a lower probability |
| `NeuralMixLearning.LearningHelpsExactly` | crates/infotheory/src/neural_mix.rs:717-799 | it gives a strictly higher one if and only if the step is not skipped and one stage has a positive rate and two different probabilities to tell apart |
| `NeuralMixCore.NeuralMixCore.constructor` | crates/infotheory/src/neural_mix.rs:627-666 | a new mixer has zero logits but for the log priors in the global row |
| `NeuralMixCore.NeuralMixCore.ResetToPriors` | crates/infotheory/src/neural_mix.rs:668-697 | reset gives a fresh mixer with the same rates and threshold |
| `NeuralMixCore.NeuralMixCore.SetContextState` | crates/infotheory/src/neural_mix.rs:704-709 | the new context selects new rows and invalidates both flags |
| `NeuralMixCore.NeuralMixCore.ComputeContextMixtures` | crates/infotheory/src/neural_mix.rs:872-894 | the softmax loops compute the specified mixtures and expert weights, those of `Stage1Odds`, `Stage2Odds` and `WeightsAreShares` |
| `NeuralMixCore.NeuralMixCore.EnsureContextMixtures` | crates/infotheory/src/neural_mix.rs:802-809 | recomputes exactly when the flag is down |
| `NeuralMixCore.NeuralMixCore.EvaluateSymbol` | crates/infotheory/src/neural_mix.rs:717-741 | the in-place evaluation is the specified one and keeps the caches coherent |
| `NeuralMixCore.NeuralMixCore.EvaluateExpertWeights` | crates/infotheory/src/neural_mix.rs:744-748 | brings the mixtures and expert weights up to date and marks the last symbol result as no longer evaluated |
| `NeuralMixCore.NeuralMixCore.UpdateWeightsSymbol` | crates/infotheory/src/neural_mix.rs:755-799 | the in-place gradient loops perform the specified update, that of `UpdateMovesLogits` and `UpdateMovesStage2`, stage 1 with the old stage-2 mixture |
| `PrefixViews.ProbOneScalesPrediction` | crates/infotheory/src/byte_prefix.rs:47-68 | for any interval of a nondecreasing CDF, massless ones included, the walk's probability is the prediction times the interval's mass over that mass raised to the floor, clamped |
| `BytePrefix.BitAt` | crates/infotheory/src/neural_mix.rs:176-176 | masking with `1 << (7 - i)` reads the i-th most significant bit |
| `PrefixMass.NodeMass` | crates/infotheory/src/prediction.rs:279-296 | every heap node holds the mass summed directly over the symbols that match its prefix, in both bit orders |
| `PrefixMass.PredictionIsConditional` | crates/infotheory/src/prediction.rs:298-315 | the heap's prediction is the ratio of directly summed masses, one half on a massless prefix |
| `PrefixMass.ChainRule` | crates/infotheory/src/prediction.rs:298-335 | the conditionals along the remaining bits multiply to the symbol's share of the prefix |
| `PrefixMass.SymbolChainRule` | crates/infotheory/src/prediction.rs:250-352 | the conditionals along any symbol multiply to exactly its normalised mass, massless symbols included |
| `PrefixViews.RangeDenotes` | crates/infotheory/src/byte_prefix.rs:71-81 | after bits of value v the interval covers v 2^r up to (v + 1) 2^r, where r bits remain |
| `PrefixViews.CodeIsNode` | crates/infotheory/src/byte_prefix.rs:111-113 | the prefix code and the heap node of a prefix are the same number, 2^k + v |
| `PrefixViews.IntervalMass` | crates/infotheory/src/byte_prefix.rs:47-68 | a prefix's mass is the CDF's increase over its interval |
| `PrefixViews.ConditionalScale` | crates/infotheory/src/prediction.rs:258-277 | scaling all masses changes no conditional |
| `PrefixViews.ProbOneIsClampedPrediction` | crates/infotheory/src/byte_prefix.rs:47-68 | for a nondecreasing CDF whose interval carries the floor, the interval's probability is the clamp of the heap's prediction |
| `BytePrefixMass.SetBitReassembles` | crates/infotheory/src/prediction.rs:317-335 | setting observed bits one by one reassembles the symbol, in both orders |
| `BytePrefixMass.LeavesDistinct` | crates/infotheory/src/prediction.rs:358-363 | different symbols sit in different leaves |
| `BytePrefixMass.BytePrefixMass.FromRawWeights` | crates/infotheory/src/prediction.rs:258-296 | normalises, places the leaves and sums the inner nodes bottom up |
| `BytePrefixMass.BytePrefixMass.FromPdf` | crates/infotheory/src/prediction.rs:212-227 | missing entries carry no mass |
| `BytePrefixMass.BytePrefixMass.FromCdf` | crates/infotheory/src/prediction.rs:250-256 | the masses are the increments of the CDF |
| `BytePrefixMass.BytePrefixMass.Prediction` | crates/infotheory/src/prediction.rs:298-315 | returns the conditional of the bits seen and its complement; one half once complete |
| `BytePrefixMass.BytePrefixMass.Observe` | crates/infotheory/src/prediction.rs:317-337 | node, register and count follow the bits seen; a complete byte takes no more |
| `BytePrefixMass.BytePrefixMass.Symbol` | crates/infotheory/src/prediction.rs:352-356 | after eight bits, the byte whose bits were observed |
| `FixedShare.SchedulesOnce` | examples/universal_mixture_experiment.rs:580-597 | the enumeration of switching schedules holds every schedule of its length exactly once and nothing else |
| `FixedShareLaws.ExtendAllMass` | examples/universal_mixture_experiment.rs:580-597 | one step of each recursion does to the masses what extending every schedule does |
| `FixedShareLaws.RecursionsCompute` | examples/universal_mixture_experiment.rs:580-597 | expert by expert, the recursions hold the summed and the largest schedule weight |
| `FixedShareLaws.RecursionsCoverAllSchedules` | examples/universal_mixture_experiment.rs:580-597 | the forward total is the sum, and the Viterbi maximum the largest, over all schedules |
| `FixedShareLaws.ForwardDominates` | examples/universal_mixture_experiment.rs:580-597 | every schedule's prior, switching factors and likelihoods are at most the Viterbi mass, and that at most the forward mass |
| `FixedShareBounds.WeightIsWrittenOut` | examples/universal_mixture_experiment.rs:580-597 | a schedule weighs the first prior, (1 - alpha) per stay, alpha and the new expert's prior per switch, and the likelihoods of the experts in charge |
| `FixedShareBounds.ForwardTracksExpert` | examples/universal_mixture_experiment.rs:580-597 | the forward mass is at least any single expert's prior times (1 - alpha)^t times its likelihood of the data |
| `FixedShareBounds.RegretBound` | examples/universal_mixture_experiment.rs:580-588 | the forward code is longer than a single expert's by at most the code of its prior and, per symbol, that of staying |
| `FixedShareBounds.PriorIsStationary` | examples/universal_mixture_experiment.rs:580-583 | while no symbol tells the experts apart, the tracked expert keeps the prior distribution, because switching redraws from it |
| `FixedShareRun.LogSumExp` | examples/universal_mixture_experiment.rs:62-78 | the shifted loop returns the log of the sum of exponentials |
| `FixedShareRun.LogSumExp2` | examples/universal_mixture_experiment.rs:80-87 | the same for two terms |
| `FixedShareRun.NormalisePriors` | examples/universal_mixture_experiment.rs:477-482 | log priors are shifted by the log of their total and then sum to 1 |
| `FixedShareRun.ForwardStep` | examples/universal_mixture_experiment.rs:580-588 | one loop over experts in the log domain is one step of the forward recursion |
| `FixedShareRun.ForwardStepTracks` | examples/universal_mixture_experiment.rs:580-588 | moving the normaliser from the weights to the running total keeps weights and total equal to the forward masses |
| `FixedShareRun.ViterbiStep` | examples/universal_mixture_experiment.rs:591-597 | one loop over costs takes the cheaper of staying and switching |
| `FixedShareRun.ViterbiStepTracks` | examples/universal_mixture_experiment.rs:591-597 | costs stay the negative logs of the Viterbi masses |
| `FixedShareRun.CodeLengths` | examples/universal_mixture_experiment.rs:477-597 | the accumulated forward bits and the final best cost are the negative logs of the sum and of the maximum over all schedules |
| `FixedShareRun.ForwardCodeIsShortest` | examples/universal_mixture_experiment.rs:986-986 | the forward code is never longer than the Viterbi code, nor that than the code of any fixed schedule |
| `Tsv.SanitizeTsvText` | crates/infotheory/src/diagnostics.rs:101-109 | tabs and line breaks become spaces, everything else stays, so no field can break a row |
| `Tsv.SanitizePathSegment` | crates/infotheory/src/diagnostics.rs:111-126 | never empty, no separators, no tabs or line breaks |
| `Tsv.SplitOfRow` | crates/benchman/src/log_loss.rs:1609-1633 | splitting a written row gives back its fields, if none holds a tab or line break |
| `Tsv.SanitizedRowsRoundTrip` | crates/infotheory/src/diagnostics.rs:433-456 | sanitized text of any content survives writing and splitting |
| `Tsv.JoinOfSplit` | crates/benchman/src/log_loss.rs:1609-1633 | joining the fields of any line gives the line up to its first line break |
| `Tsv.RereadIsStable` | crates/benchman/src/log_loss.rs:1609-1633 | every field read from any line is free of tabs and line breaks, so writing the fields and reading them again changes nothing |
| `Tsv.SplitTsvLine` | crates/benchman/src/log_loss.rs:1609-1633 | the two-index loop returns those fields |
| `Flatten.FlatSchema.constructor` | crates/infotheory/src/diagnostics.rs:143-164 | produces the specified table, `non_root_ids` 1 to n - 1 and the starts of the root's experts |
| `Flatten.FlatSchema.FlattenExperts` | crates/infotheory/src/diagnostics.rs:177-234 | the pushing loop appends exactly the experts' rows and ids |
| `FlattenLaws.TableIsPreorder` | crates/infotheory/src/diagnostics.rs:143-234 | id equals position, the parent is an earlier mixture, depth and path extend the parent's, and the parent is on the path to the row just before |
| `FlattenLaws.SubtreesAreIntervals` | crates/infotheory/src/diagnostics.rs:177-234 | a node and all its descendants occupy one run of consecutive ids |
| `FlattenLaws.RootChildrenAreTheExperts` | crates/infotheory/src/diagnostics.rs:143-234 | `root_child_ids` lists exactly the rows under the root, in order, each describing its expert |
| `FlattenLaws.NestingIsRecoverable` | crates/infotheory/src/diagnostics.rs:143-234 | a reader that uses only parent ids recovers the whole nesting with names and labels |
| `TraceLines.LinesAreTheFile` | crates/benchman/src/log_loss.rs:1403-1418 | the lines read, put together, are the file |
| `TraceLines.OffsetResumes` | crates/benchman/src/log_loss.rs:1413-1414 | reading from a recorded offset gives the lines that reading from the top gives from there on |
| `TraceLines.ScanOfSound` | crates/benchman/src/log_loss.rs:2457-2496 | when the callback passes every row of the file, scanning a range gives exactly that range of its values |
| `TraceLines.ScanTraceRange` | crates/benchman/src/log_loss.rs:2457-2496 | a seek and scan hands the callback exactly the requested rows, as read from the top, and stops with its first failure or with the error that the bounds call for |
| `TraceSchema.WriteHeader` | crates/infotheory/src/diagnostics.rs:326-350 | the pushing loop writes the fixed columns and four columns per node |
| `TraceSchema.HeaderMap` | crates/benchman/src/log_loss.rs:1563-1571 | the map filled in order finds the last column of every name |
| `TraceSchema.HeaderDistinct` | crates/infotheory/src/diagnostics.rs:326-349 | no two columns of a written header share a name, whatever the node ids |
| `TraceSchema.WrittenHeaderReads` | crates/benchman/src/log_loss.rs:1563-1600 | from a written header line the reader builds a schema in which every fixed column and each node's own three are the written ones |
| `TraceSchema.WrittenRowReads` | crates/benchman/src/log_loss.rs:1415-1500 | in every written row of clean texts, the fields at these columns are the texts written for them |
| `TraceSchema.FlattenedTraceReads` | crates/infotheory/src/diagnostics.rs:326-350 | the header written for any flattened mixture is read that way |
| `Tiles.TileAggregate.Push` | crates/benchman/src/log_loss.rs:152-194 | every sum, maximum, count and per-node column moves by the row's values |
| `Tiles.TileTotals` | crates/benchman/src/log_loss.rs:129-194 | every figure of a tile is the plain sum over its rows; win counts while they fit in 32 bits |
| `Tiles.AdvantageCounts` | crates/benchman/src/log_loss.rs:152-194 | a tile counts exactly the rows whose oracle loss exceeds the mixture's by more than 0.000001 |
| `Tiles.TilePeaks` | crates/benchman/src/log_loss.rs:129-194 | a tile's maxima are attained and bound all its rows; only an empty tile has none |
| `TraceIndex.CoarseRowsForLen` | crates/benchman/src/log_loss.rs:1558-1561 | the least tile size from 1024 on at which at most 960 tiles hold all rows |
| `TraceIndex.FillMore` | crates/benchman/src/log_loss.rs:1534-1552 | one more row keeps the finished tiles and the open one equal to the blocks read so far |
| `TraceIndex.LoadTrace` | crates/benchman/src/log_loss.rs:1363-1556 | one pass yields the offsets of all lines, all parsed rows and the tiles of consecutive blocks, or the first error |
| `Bins.RangesTileViewport` | crates/benchman/src/log_loss.rs:2244-2251 | with at least as many rows as bins, ranges are non-empty, contiguous and cover the viewport |
| `Bins.EachRowIsShownOnce` | crates/benchman/src/log_loss.rs:2244-2251 | every row falls in exactly one range, given in closed form |
| `Bins.CountingIsMonotone` | crates/benchman/src/log_loss.rs:2253-2260 | later rows never get earlier bins |
| `Bins.EveryBinCounts` | crates/benchman/src/log_loss.rs:2253-2260 | every bin gets a row |
| `Bins.CountedWhereShown` | crates/benchman/src/log_loss.rs:2244-2260 | a row is counted in the bin showing it or the one before, decided by a remainder |
| `Bins.PartitionsAgree` | crates/benchman/src/log_loss.rs:2244-2260 | the two partitions are equal if and only if the bins divide the viewport evenly |
| `NodeSeries.RangeTotals` | crates/benchman/src/log_loss.rs:2042-2087 | summing consecutive tiles is summing the rows between their edges |
| `NodeSeries.TilesConserve` | crates/benchman/src/log_loss.rs:1403-1553 | the tiles together account for every row exactly once, for every measure |
| `NodeSeries.TileIndices` | crates/benchman/src/log_loss.rs:2012-2023 | the filter selects exactly the overlapping tiles, and these are consecutive |
| `NodeSeries.BuildTileSeries` | crates/benchman/src/log_loss.rs:2007-2101 | each point's value is the plain row average over its whole tiles, its label their rows inside the viewport |
| `NodeSeries.LabelIs` | crates/benchman/src/log_loss.rs:2031-2048 | a point averages all rows of its tiles, and is labelled with them except where the viewport cuts off its first or last tile |
| `NodeSeries.TileSeriesIsExact` | crates/benchman/src/log_loss.rs:2007-2101 | labels always tile the viewport; they equal the averaged rows if and only if the viewport is tile-aligned, and then the series plots row averages |
| `SeriesLaws.UnalignedPlotsWrong` | crates/benchman/src/log_loss.rs:2007-2101 | on every unaligned viewport, any trace with one odd row just outside it, in a tile it cuts, is plotted with a value that is not its label's average |
| `SeriesLaws.TilesTrueExactly` | crates/benchman/src/log_loss.rs:2007-2101 | every trace of n rows is plotted from tiles as its row averages if and only if the viewport is tile-aligned (or an only node's win fraction is shown) |
| `ExactSeries.CountedRows` | crates/benchman/src/log_loss.rs:2253-2260 | a bin counts exactly the rows from its first to the next bin's first |
| `ExactSeries.AverageByBin` | crates/benchman/src/log_loss.rs:2103-2205 | the accumulating loop averages each bin's rows, and drops no bin |
| `ExactSeries.BuildExactSeries` | crates/benchman/src/log_loss.rs:2103-2205 | scans the viewport's rows from the file, parses them, and plots one average per bin; a failing row or a short file fails the series |
| `ExactSeries.LoadedSeries` | crates/benchman/src/log_loss.rs:2103-2205 | for a trace that was loaded, the scan delivers exactly the loaded rows of the viewport |
| `ExactSeries.ExactLabels` | crates/benchman/src/log_loss.rs:2103-2260 | every bin is labelled with the rows it averages if and only if the bins divide the viewport evenly |
| `SeriesLaws.UnevenPlotsWrong` | crates/benchman/src/log_loss.rs:2103-2260 | with uneven bins, any trace with one odd row just after the first bin's label is plotted wrongly |
| `SeriesLaws.ExactTrueExactly` | crates/benchman/src/log_loss.rs:2103-2260 | for the code's own bin count, every trace is plotted row by row as its averages if and only if the viewport has at most 240 rows or a multiple of 240 |
| `NodeChart.BuildNodeMetricSeries` | crates/benchman/src/log_loss.rs:1992-2005 | for a loaded trace, small viewports are charted row by row and large ones from tiles |
| `NodeChart.ChartTrueExactly` | crates/benchman/src/log_loss.rs:1992-2260 | the chart shown is true of every trace of n rows if and only if its bins are even, or, above 131072 rows, the viewport lies on boundaries of the tiles the loader makes |
| `NodeChart.OneRowInMisleads` | crates/benchman/src/log_loss.rs:1992-2005 | for every trace length above 131073, a viewport that starts one row in is charted from tiles and shows some trace wrongly |
| `NodeChart.PointOfWholeTrace` | crates/benchman/src/log_loss.rs:2007-2101 | point 100 of the chart of a million rows is labelled with rows 416800 to 420968 |
| `NodeChart.ZoomingOut` | crates/benchman/src/log_loss.rs:775-801 | the viewports met when zooming out from there five times |
| `NodeChart.ZoomingMisleads` | crates/benchman/src/log_loss.rs:760-801 | the last of them is large enough for tiles and off their boundaries, so that some trace of a million rows is shown wrongly |
| `AixiCodec.EncodedDigit` | crates/infotheory/src/aixi/common.rs:557-563 | the i-th symbol appended is the value's binary digit worth 2^i |
| `AixiCodec.DecodeOfEncode` | crates/infotheory/src/aixi/common.rs:557-592 | onto any prefix and at any width, decoding gives the value modulo 2^bits |
| `AixiCodec.EncodeOfDecode` | crates/infotheory/src/aixi/common.rs:557-592 | at up to 64 bits encoding a decoded value gives the symbols back |
| `AixiCodec.RewardRoundTrip` | crates/infotheory/src/aixi/common.rs:566-606 | a signed reward survives sign extension if and only if it fits the width |
| `AixiCodec.OffsetRoundTrip` | crates/infotheory/src/aixi/common.rs:574-615 | an offset reward survives if and only if its shifted value fits |
| `AixiCodec.ValidatedRewardRoundTrip` | crates/infotheory/src/aixi/common.rs:306-338 | every validated reward round-trips at 1 to 63 bits, and otherwise exactly under a check of its own |
| `AixiCodec.ValidatorIsExact` | crates/infotheory/src/aixi/common.rs:306-338 | at 1 to 63 bits the validator accepts a range if and only if all its rewards round-trip |
| `AixiCodec.ValidatedButLost` | crates/infotheory/src/aixi/common.rs:306-338 | accepted configurations that lose a reward, at width 0 and at 64 |
| `AixiCodec.WrappingRoundTrip` | crates/infotheory/src/aixi/common.rs:574-615 | without overflow checks only width 0 loses validated rewards |
| `AixiCodec.CardinalityWidthIsLeast` | crates/infotheory/src/aixi/common.rs:179-183 | the chosen width is the least positive one at which all actions round-trip |
| `AixiCodec.SymbolList.Encode` | crates/infotheory/src/aixi/common.rs:557-563 | the loop appends the specified symbols |
| `AixiCodec.SymbolList.EncodeReward` | crates/infotheory/src/aixi/common.rs:566-572 | the loop appends the symbols of the two's complement value |
| `AixiCodec.SymbolList.EncodeRewardOffset` | crates/infotheory/src/aixi/common.rs:575-578 | appends the shifted value, or reports overflow and leaves the list alone |
| `AixiCodec.Decode` | crates/infotheory/src/aixi/common.rs:581-592 | the shifting loop computes the specified value |
| `Snippets.LineStartsAre` | crates/infotheory/src/search.rs:780-789 | line starts increase and are exactly 0 and the positions after newlines |
| `Snippets.LineIsALine` | crates/infotheory/src/search.rs:780-789 | lines are non-empty and hold no newline but at their end |
| `Snippets.LinesAreTheFile` | crates/infotheory/src/search.rs:780-789 | the lines, put together, are the file |
| `Snippets.WindowIsItsLines` | crates/infotheory/src/search.rs:796-813 | a window's bytes are exactly its stated lines |
| `Snippets.WindowsCoverFile` | crates/infotheory/src/search.rs:795-819 | before the length filter every byte is in some window |
| `Snippets.RunsKeptExactly` | crates/infotheory/src/search.rs:777-819 | all runs of a given length lie wholly in one window if and only if they have at most 31 lines or the file at most 50 |
| `Snippets.FullWindowDropped` | crates/infotheory/src/search.rs:803-813 | the filter drops a window of 50 lines only when every line is a single byte |
| `Snippets.CutWindow` | crates/infotheory/src/search.rs:796-814 | one round of the loop cuts at most 50 lines and keeps them if they exceed 50 bytes |
| `Snippets.FileToCandidates` | crates/infotheory/src/search.rs:771-823 | the loops terminate and return the snippets of those windows |

## Left out

- Terminal UI, argument parsing, CSV and plot scripts, benches and the Python shim: input, output and presentation.
- Predictors, arithmetic coders, planners and the tuner: experts enter as CDFs, log probabilities or likelihoods.
- Floating-point rounding, NaN and infinity fallbacks, narrowing to `f32` and SIMD lane loops: the model computes in exact reals.
- File and directory access: a file is its content; the extension filter and the whole-file branch of the snippet search are not modelled.
- Collisions after the hash is reduced to a table's size: rows may be shared, and nothing relies on their being distinct.
- `fill_prefix_cdf_*` and `normalize_pdf`, `from_log_probs` and the float-floored `BinaryPrediction` constructors: they add floors and logarithms to what `MassNormalized` and `Clamp` already cover.
- Compile errors while flattening: every nested backend is taken to compile.
- `prediction_calls` and the match-state merge of `LogisticMatchState`: a counter and a two-branch helper; match states are arbitrary inputs here.
- LoadTrace: turning the fields at the looked-up columns into numbers, and the oracle id into a node position, enter as one function that may fail, because number syntax carries no claim here; which columns are looked up is modelled in `TraceSchema`.
- ScanTraceRange: the callback is a function from a row to a value or a failure, because what it does to its accumulators is modelled where they are (`AverageByBin`).
- `best_gap_bits` of a trace row with fewer than two nodes, which the source makes infinite: rows carry finite values.
- The merging of series whose nodes share a short label: a series is built for one node and metric.
- UTF-8 decoding of trace lines: a character is a byte.
- Bayes, fading and MDL mixtures, statistics and reports of the mixture experiment: only its forward and Viterbi recursions are modelled.
- `TileTotals`: requires that a tile's rows do not exceed the largest 32-bit count for win counts, because these saturate there.
