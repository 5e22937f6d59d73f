# postag core, modelled in Dafny

postag is a part-of-speech tagger built on a hidden Markov model (HMM). Its
states are tags. Its observations are word embeddings, and each state emits
them through a Gaussian. This project models four parts of it:

- **The trainer** (`Train`). It makes one counting pass over the labelled
  samples:
  - it counts each sample's first tag as an initial state;
  - it registers each new tag as a state, in first-seen order, after the
    terminal state `<end>`;
  - it counts each tag's occurrences and feeds the token's embedding to that
    tag's Gaussian builder;
  - it counts each adjacent tag pair as a transition, plus one final
    transition per sample into `<end>`.

  Then it normalises the counts into log-probabilities. An initial count is
  divided by the number of samples. A transition count is divided by the
  occurrence count of its source tag. The builder's observation count (its
  divisor) and the eigenvalue floor applied when a builder's covariance is
  decomposed are modelled too.
- **The corpus reader** (`ReadSamples`). The file is given as its whole
  content, and the model reproduces the buffered `ReadString('\n')` loop. A
  bare newline closes the current sentence. Any other line needs at least
  three whitespace-separated fields and adds its token (or its sub-tokens)
  with its tag. A line with fewer fields fails the whole read.
- **The Gaussian emitter's `LogProbs`.** It returns one log-density per
  requested state, and minus infinity for a state it has no distribution for.
- **`Model.Tag`.** It embeds the tokens, asks the decoder for the most likely
  state sequence, and returns the states as tags.

Some parts are parameters rather than code:
- the embedding lookup (`embed`);
- the natural logarithm (`log`);
- a distribution's log-density (`logProb`);
- the Viterbi decoder (`mostLikely`).

Their numerics are not part of this model.

Modules:
- `Common`: shared types.
- `Tally`: count maps where a missing key reads as zero, and their totals.
- `Counting`: the counting pass as a fold over the samples, with reference
  definitions and the properties proved about it.
- `Training`: the imperative trainer, the builders, normalisation and the
  eigenvalue floor.
- `Corpus`: the reader, Go's `strings.Fields`, the line splitter, and the
  reader's specification as a function of the file's lines.
- `Tagger`: `LogProbs` and `Tag`.

Some behaviour of the code as written is worth knowing:
- A bare-newline line that closes no token lines gives a sample with no
  tokens and no tags. Two cases are proved: the file holding only `"\n"`
  (`Corpus.EmptySentence`), and `"\n\n"` appended to a file that ends in a
  newline and reads successfully, whose second blank line gives the empty
  sample (`Corpus.BlankAfterBlank`). The trainer then
  reads the first tag of that sample and panics. The model follows the code
  here: `Training.Train` requires every sample to have at least one tag, and
  at least as many tokens as tags, because it reads both by index. The
  reader's output always meets the second condition
  (`Corpus.SamplesAligned`).
- A word for which the tokenizer returns no sub-tokens adds nothing to its
  sentence. The sample is left with no tags, and the trainer panics on it,
  only when every word of the sentence tokenizes to nothing.
- A training tag spelled `<end>` is registered a second time, so the state
  list then holds a duplicate (`Counting.StatesDistinct`).
- The eigenvalue floor keeps a negative eigenvalue whose magnitude is at least
  the floor (`Training.ClampSign`). The logarithm of the determinant, taken
  later, is then undefined.

## Model

| member | source | states |
|---|---|---|
| Training.Train | train.go:23-74 | the HMM's states are `<end>` followed by the distinct tags in first-seen order; its terminal state is `<end>`; each initial entry is `log(count / number of samples)` for the tags that start a sample; each transition entry is `log(count / occurrences of its source)`, and every source has a positive count; there is one freshly created builder per tag seen, distinct from every other, with as many observations as the tag's occurrences; the emitter holds one distribution per builder, fitted from that builder |
| Training.VisitSample | train.go:37-61 | one iteration of the sample loop does exactly what the counting fold does for one sample, and keeps one distinct builder per visited tag, with a divisor equal to the tag's count |
| Training.Observe | train.go:44-47 | a builder is created the first time a tag is seen; after that, the tag's builder gets one more observation |
| Training.NormalizeInit | train.go:64-66 | every initial count `c` is replaced by `log(c / n)`, and the set of keys is unchanged |
| Training.NormalizeTransitions | train.go:67-69 | every transition count is replaced by `log(count / occurrences of its source)`, and the set of keys is unchanged |
| Training.GaussianBuilder.Update | train.go:123-125 | the divisor goes up by exactly one per observation |
| Training.GaussianBuilder.constructor | train.go:116-121 | a new builder has the given dimension and no observations |
| Training.Clamp | train.go:175-179 | the result's magnitude is at least 1e-4; a value whose magnitude is at least 1e-4 is kept; any other value becomes 1e-4 |
| Training.BuildEmitter | train.go:76-102 | the emitter has exactly one entry per builder key, and that entry is fitted from that key's builder |
| Training.ClampSign | train.go:175-179 | a clamped eigenvalue is positive exactly when the original is above -1e-4; clamping twice is the same as clamping once |
| Training.ClampEigenvalues | train.go:171-184 | a newly allocated eigenvalue diagonal has one entry per eigenvalue; each entry is that eigenvalue clamped, so no entry's magnitude is below the floor |
| Counting.StatesDistinct | train.go:39-41 | the states are `<end>` followed by the distinct training tags in first-seen order; a tag is a state exactly when it occurs or is `<end>`; the list has no duplicates exactly when no sample uses the tag `<end>` |
| Counting.CountAllDescribes | train.go:39-42 | each tag's visit count is its number of occurrences in the corpus, and the registered states follow the first-seen order |
| Counting.InitCounts | train.go:37 | a tag's initial count is the number of samples it starts; only those tags are keys; the counts sum to the number of samples |
| Counting.SampleTransitions | train.go:49-61 | a sample with n tags adds exactly n transition counts |
| Counting.TransitionTotal | train.go:49-61 | the corpus has exactly as many transition counts as tag occurrences |
| Counting.TransitionsBalanced | train.go:42-61 | for every tag, the counts of transitions out of it add up to its occurrence count |
| Counting.TransitionKeys | train.go:49-61 | every transition leaves a tag that occurs and enters a tag that occurs, or `<end>`; its source has a positive visit count, so normalisation never divides by zero; `<end>` is never a source unless a sample uses it as a tag |
| Counting.InitDistribution | train.go:64-66 | with at least one sample, the normalised initial probabilities sum to one |
| Counting.TransitionDistribution | train.go:67-69 | for every visited tag, the normalised probabilities of its outgoing transitions sum to one |
| Tally.Incr | train.go:37 | incrementing a missing key creates it with count one; only that key changes |
| Tally.TotalIncr | train.go:42 | one increment adds exactly one to a map's total |
| Tally.OutTotalIncr | train.go:54 | counting a transition adds one to the outgoing total of its source, and leaves every other source's total unchanged |
| Tally.RatiosTotal | train.go:64-69 | dividing every count by d divides the total by d |
| Corpus.ReadSamples | data.go:25-64 | the loop's result equals the specification `Parse`: the first rejected line as an error, or else one sample per closed sentence |
| Corpus.AddTokens | data.go:57-60 | each sub-token is appended with the line's tag, in order |
| Corpus.ReadString | data.go:37-41 | a read returns everything up to and including the next newline, which is its only newline; with no newline left, it reports the end of the file |
| Corpus.LinesRoundTrip | data.go:36-41 | the complete lines followed by the text after the last newline rebuild the file |
| Corpus.LinesWellFormed | data.go:36-41 | each complete line holds exactly one newline, at its end, and the text after the last newline holds none |
| Corpus.LinesAppend | data.go:36-41 | for a file ending in a newline followed by more text, the lines read are the first file's lines and then the more text's lines |
| Corpus.Fields | data.go:49 | every field is non-empty and holds no white space |
| Corpus.FieldsJoin | data.go:49 | the fields, joined together, are the line with its white space removed |
| Corpus.FieldsEmpty | data.go:49 | a line has no fields exactly when it is all white space |
| Corpus.FieldsWord | data.go:49 | a non-empty run without white space is exactly one field |
| Corpus.FieldsSplit | data.go:49 | a white space character always separates fields: the fields of `a + [c] + b` are those of `a` followed by those of `b` |
| Corpus.FirstInvalid | data.go:49-52 | a reported line is a rejected line of the file; nothing is reported exactly when no line is rejected |
| Corpus.FirstInvalidIsFirst | data.go:49-52 | the reported line is the first rejected one: every line before it is accepted |
| Corpus.Contribution | data.go:53-60 | a token line contributes the first field, or the tokenizer's sub-tokens of it, each tagged with the second field, with as many tags as tokens |
| Corpus.SampleCount | data.go:44-47 | a successful read gives exactly one sample per bare-newline line |
| Corpus.SamplesAligned | data.go:57-60 | every sample read has as many tags as tokens |
| Corpus.UnterminatedLineIgnored | data.go:37-41 | the text after the last newline is never looked at, whatever it holds |
| Corpus.TrailingLinesDropped | data.go:63 | token lines after the last bare-newline line leave the result unchanged: the open sentence is dropped |
| Corpus.BlankLookingLineRejected | data.go:44-52 | a line of white space only, other than a bare newline, is rejected |
| Corpus.SpaceLineFails | data.go:49-52 | a file holding a space and a newline fails with that line as the error |
| Corpus.EmptySentence | data.go:44-47 | a file holding a single bare newline gives one sample with no tokens and no tags |
| Corpus.BlankAfterBlank | data.go:44-47 | two bare-newline lines after a well-read file that ends in a newline add two samples: the open sentence, then one with no tokens and no tags |
| Corpus.ExtraFieldsIgnored | data.go:53-60 | two token lines with the same first two fields contribute the same tokens and tags |
| Tagger.Emissions | model.go:115-125 | one value per requested state: the state's log-density when the emitter has a distribution for it, minus infinity exactly when it has none |
| Tagger.LogProbs | model.go:115-125 | the loop returns exactly the emissions of the requested states, in order |
| Tagger.EmissionsAppend | model.go:115-125 | asking for two lists of states gives the two answers one after the other |
| Tagger.TrainedEmissions | model.go:115-125 | for the emitter built from the trainer's builders, every training tag emits with a finite log-density; when no sample uses `<end>`, the only state with minus infinity is `<end>` |
| Tagger.Observations | model.go:46-49 | one observation per token: that token's embedding |
| Tagger.Tag | model.go:45-56 | the tags are the decoder's answer for the phrase's embeddings, state for state |

## Left out

- I/O is not modelled: opening the file, read errors other than end of file,
  the error context wrapping, and saving or loading a model. The reader works
  on the file's content.
- The Gaussian numerics are not modelled: the first and second moments, the
  covariance, the eigen-decomposition, the matrix inverse and square root, and
  the log-determinant.
- Training.BuildEmitter: fits each builder through an uninterpreted `fit`
  function, one builder after another. It models which state gets which
  builder's distribution, but not the goroutines, the lock or the fitted
  numbers.
- Floating point is not modelled. The Go counts are `float64`; here they are
  exact naturals, which agree with the Go values below 2^53. Normalisation is
  stated over exact reals with an uninterpreted `log`.
- Training.NormalizeInit: builds a fresh map with the same keys instead of
  overwriting the Go map in place during the range loop. The resulting map is
  the same.
- Training.NormalizeTransitions: builds a fresh map in the same way.
- Training.GaussianBuilder.Update: keeps only the divisor. The vector's
  creator and the moment sums are left out.
- Tagger.Tag: the decoder `hmm.MostLikely` is a parameter, so the model
  states nothing about optimality.
- Tagger.Tag: the `state.(string)` assertion is the identity here. In the code
  the states are `serializer.String` values, so that assertion would panic.
- Corpus.Fields: works on characters, not UTF-8 bytes. The white space set is
  that of Go's `unicode.IsSpace`.
- The sub-word tokenizer is a parameter function.
- The embedding lookup is a parameter function.
- `Gaussian.Sample`, `Gaussian.LogProb` and `GaussianEmitter.Sample` are not
  part of this model. `LogProbs` takes the log-density as a parameter.
