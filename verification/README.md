# HMM model selection and sign-word recognition, in Dafny

This project models the decision logic of an isolated sign-language word
recognizer built on hidden Markov models. It covers two pieces.

- **Model selection** (`my_model_selectors.py`). Given the training sequences
  of every vocabulary word, a selector picks, for one word, the number of HMM
  states. It tries every state count in `[min_n_components, max_n_components)`
  and keeps a running best (score, model) pair. A failed fit or score skips
  that candidate; in cross-validation a failed fit skips only that fold, and a
  failed held-out score ends the candidate's remaining folds, while the offers
  its earlier folds made stand. Four strategies exist: a constant size, the
  least BIC, the DIC (as written, the last candidate scored rather than the
  greatest; see Findings), and the greatest running mean of held-out
  log-likelihoods, taken after each fold (the full-data log-likelihood with two
  sequences or fewer).
- **Recognition** (`my_recognizer.py`). Every test item is scored against every
  word model. A failed score counts as `-inf`. The first word of greatest
  log-likelihood is guessed, and the per-item records and guesses are returned
  as two lists in test-item order.

The HMM library is an opaque collaborator, `Hmm.Library`. It has a `fit` function
(state count, random seed, data) and a `score` function (model, data), both
returning `Option`; `None` stands for a raised exception.

Modules:

- `Wrappers`: `Option`.
- `Scores`: the scores compared, as Python floats without NaN (`ExtReal`), and
  the running "keep the first strictly better" scan (`FirstMax`, `FirstMin`),
  with lemmas tying a running pair (best score, best item) to that scan.
- `Hmm`: the library, word dictionaries (insertion-ordered), `Combine` (which
  stands for `combine_sequences`: it selects the sequences at given indices,
  without concatenating them) and `np.mean` (`Mean`).
- `Criteria`: pure specifications. For each strategy, the (model, criterion)
  pairs each candidate state count offers to the running best, in order, and
  lemmas about them.
- `ModelSelectors`: the selector class. Its fields are the Python object's,
  with `lib` added for the library, `words` standing for both `words` and
  `hwords`, and `lengths` and `verbose` left out (see Left out). `X` is a
  mutable field because cross-validation reassigns it. The `select`
  loops are methods proved to return the model the offers single out.
- `Recognizer`: `recognize` as a loop appending to two lists, proved against the
  per-item record function and the arg-max.

## Model

| member | source | states |
|---|---|---|
| ModelSelectors.ModelSelector.constructor | my_model_selectors.py:16-29 | the fields hold the arguments, with the defaults 3, 2, 10 and 14; `sequences` and `X` are the word's own training data |
| ModelSelectors.ModelSelector.BaseModel | my_model_selectors.py:34-47 | a fit on `X` with the given state count and the selector's random seed; a fitting failure is returned as `None`, never raised |
| ModelSelectors.ModelSelector.SelectConstant | my_model_selectors.py:55-61 | exactly one fit, with `n_constant` states, and its result unchanged |
| ModelSelectors.ModelSelector.SelectBIC | my_model_selectors.py:71-101 | the result is the model the first-minimum scan picks from the BIC offers of the state counts `min .. max-1`, tried in ascending order, or `None` when nothing was offered |
| Criteria.BicOffersExactly | my_model_selectors.py:83-100 | every state count in `[min, max)` whose fit and score both succeed is offered, and every offer comes from a state count in that range |
| Criteria.BicSelectsLeast | my_model_selectors.py:80-101 | `None` exactly when every candidate fails; otherwise the chosen model comes from some candidate and has a BIC no greater than every successful candidate's |
| Scores.FirstMinIsFirst | my_model_selectors.py:96-98 | the scan with `best_score > score` stops at a least score, and every earlier entry is strictly greater, so the earliest candidate wins a tie |
| Scores.TracksMinStep | my_model_selectors.py:96-98 | replacing the running pair only on a strictly smaller finite score keeps it equal to the first minimum of the offers so far |
| Scores.TracksMinChosen | my_model_selectors.py:80-81 | a running pair that agrees with the scan, starting from `float("inf")` and `None`, holds the model the scan chooses |
| ModelSelectors.ModelSelector.ScoreCompetitors | my_model_selectors.py:128-131 | the sum of the model's log-likelihoods on every other word's data in dictionary order, or `None` once one of them fails to score |
| Criteria.CompetitorSumNext | my_model_selectors.py:129-131 | visiting one more dictionary word adds its score only if it is a different word and the sum has not already failed |
| Criteria.OthersCount | my_model_selectors.py:121-129 | in a dictionary holding the word, exactly `M - 1` words compete with it |
| ModelSelectors.ModelSelector.EvaluateDic | my_model_selectors.py:125-133 | one DIC candidate: the own log-likelihood minus the competitors' sum divided by `M - 1`; no offer when the fit, a score or the division fails |
| ModelSelectors.ModelSelector.SelectDIC | my_model_selectors.py:114-142 | as written: the model of the last candidate that was fitted and scored, or `None` |
| Criteria.DicOffersExactly | my_model_selectors.py:123-141 | every state count in `[min, max)` whose DIC can be computed is offered, and every offer comes from one of them |
| Criteria.DicSingleWordOffersNothing | my_model_selectors.py:121-141 | with a one-word vocabulary the division by `M - 1 = 0` fails for every candidate, so nothing is offered and the selector returns `None` |
| Criteria.DicAsWrittenMissesMaximum | my_model_selectors.py:134-137 | under a concrete library, the offers' last model (state count 3, DIC 1) differs from their greatest (state count 2, DIC 5) |
| ModelSelectors.ModelSelector.SelectDICCorrected | my_model_selectors.py:114-142 | corrected: the model the first-maximum scan picks from the DIC offers, or `None` |
| Criteria.DicCorrectedSelectsGreatest | my_model_selectors.py:114-142 | corrected: `None` exactly when every candidate fails; otherwise a candidate's model whose DIC is no smaller than any successful candidate's |
| Criteria.CvFolds | my_model_selectors.py:164-181 | the fold loop reaches at most `n` folds, has exactly one offer per recorded score, and reaches all `n` unless a score failed |
| Criteria.CvFoldsAbortStays | my_model_selectors.py:161-193 | once a held-out score has failed, later folds add no score and no offer for that candidate |
| Criteria.CvFoldMean | my_model_selectors.py:171-178 | the `i`-th fold offer is made with the mean of the candidate's held-out scores up to and including the `i`-th |
| Criteria.CvFoldHeldOut | my_model_selectors.py:165-173 | the `i`-th fold offer's model was fitted with the candidate's state count on the training part of a fold the loop entered, and the `i`-th score is its log-likelihood on that fold's test part |
| Criteria.CvFoldOffered | my_model_selectors.py:164-181 | conversely, a fold the loop enters (no earlier held-out score failed) whose fit and held-out score both succeed offers its model with the mean of the scores up to and including its own |
| Criteria.CvOffersExactly | my_model_selectors.py:159-193 | every offer of every state count in `[min, max)` is among the offers, and every offer comes from one of them |
| Criteria.CvWithoutSplit | my_model_selectors.py:163-189 | with two sequences or fewer: every state count whose full-data fit and score succeed is offered with that log-likelihood, every offer is such a model and score, there is at most one per state count, and `X` is never reassigned |
| Criteria.CvWithSplit | my_model_selectors.py:163-181 | with more than two sequences: at most three offers per state count, and the offers are exactly the candidates' fold offers |
| Criteria.CvSelectsGreatest | my_model_selectors.py:153-195 | `None` exactly when no candidate offered anything; otherwise an offer of some candidate whose value is no smaller than any offer of any candidate |
| ModelSelectors.ModelSelector.FoldPass | my_model_selectors.py:165-181 | one fold: `X` becomes the training part, and the scores, the abort flag and the running best pair advance as one step of the fold loop |
| ModelSelectors.ModelSelector.CrossValidate | my_model_selectors.py:164-181 | a candidate's fold loop: the running best pair agrees with the first maximum of all offers so far, and `X` is the training part of the last fold reached |
| ModelSelectors.ModelSelector.SelectCV | my_model_selectors.py:149-195 | the model the first-maximum scan picks from the cross-validation offers of the state counts `min .. max-1`, or `None`; the final `X` is the training part of the last fold reached, or the unchanged data |
| Scores.FirstMaxIsFirst | my_model_selectors.py:178-181 | the scan with `best_score < score` stops at a greatest score, and every earlier entry is strictly smaller, so the earliest wins a tie |
| Scores.TracksMaxStep | my_model_selectors.py:187-189 | replacing the running pair only on a strictly greater finite score keeps it equal to the first maximum of the offers so far |
| Scores.TracksMaxChosen | my_model_selectors.py:153-154 | a running pair that agrees with the scan, starting from `float("-inf")` and `None`, holds the model the scan chooses |
| Recognizer.LogLikelihood | my_recognizer.py:25-29 | a failed score gives `-inf`, never an abort; a successful score is returned as is, and, since a score that does not raise is taken to be finite, it is never `-inf` or `+inf` |
| Recognizer.ScoreRecord | my_recognizer.py:36 | one entry per word model, in the models' order, each holding that model's log-likelihood of the item |
| Recognizer.GuessIsFirstBest | my_recognizer.py:37 | the guess is the first word of greatest log-likelihood; a word whose score failed is guessed only if every word's score failed, and then it is the first word |
| Recognizer.TwoWordExample | my_recognizer.py:34-40 | with scores -50 for the first word and -75 for the second, the record keeps both values and the first word is guessed |
| Recognizer.Recognize | my_recognizer.py:5-42 | fails exactly when there are no models and at least one test item; otherwise both lists have one entry per test item, in order, each record is the item's record over all models, and each guess is that record's first arg-max |

## Left out

- HMM fitting and scoring (hmmlearn's `GaussianHMM`) are the opaque `fit` and
  `score` functions. Training is assumed deterministic for a given state count,
  seed and data.
- Floating point: scores are reals plus the two infinities. NaN is not modelled,
  and neither are rounding or overflow in `-2 * logL + p * logN`, in the DIC
  difference or in `np.mean`.
- A score that does not raise is assumed finite: the library's `score` returns
  a real, while hmmlearn can return `-inf` or NaN without raising. Under that
  assumption a word whose score succeeds never ties with a failed word in the
  recognizer, DIC as written replaces its best on every candidate (with a
  `-inf` criterion it would not, since `-inf < -inf` is false), and no BIC or
  cross-validation value is infinite.
- The observation dimension `X.shape[1]` and `np.log(len(X))` are the parameters
  `features` and `logN` of `SelectBIC`, not computed from the data.
- A word's `(X, lengths)` pair is identified with its list of sequences. The two
  dictionaries `all_word_sequences` and `all_word_Xlengths` are one
  insertion-ordered association list. Python dictionaries have distinct keys;
  the model does not require it.
- `combine_sequences` (asl_utils) is stood for by `Combine`, which selects the
  sequences at the given indices, in order, without concatenating their frames.
- scikit-learn's `KFold` is not computed. `SelectCV` takes the three train/test
  index splits as a parameter. Only their number (three) and their indices
  being in range are required, and only when a split is needed.
- The constructor requires the word to be in the dictionary. The source raises
  `KeyError` there instead.
- `self.lengths` is not a separate field; it is part of `X`.
- `verbose` printing and `warnings.filterwarnings` have no effect on results
  and are left out. So is `SinglesData` loading: the test set is a sequence of
  items, each in the same representation as a word's training data.
- The subclass hierarchy (`SelectorConstant`, `SelectorBIC`, `SelectorDIC`,
  `SelectorCV` over `ModelSelector`) is one class with one method per
  strategy; the unimplemented base `select` is not modelled.
- `recognize` only reads `models`: in the model they are an immutable value,
  so no model is added, removed or refitted.
- Cross-validation: a held-out scoring failure raises inside the fold loop, and
  the `try` encloses the whole loop, so the candidate's remaining folds are
  abandoned; offers made by earlier folds of that candidate stand.
- DIC with a one-word vocabulary: the `ZeroDivisionError` is swallowed like any
  other failure, so the selector returns `None`.

## Findings

| source | as written | input that shows it | evidently intended | confidence | as-written member | corrected member |
|---|---|---|---|---|---|---|
| my_model_selectors.py:134-137 | the branch assigns `dic_score` to `best_model` and then overwrites it with the model, so `best_score` stays `-inf`; every finite DIC passes the test, and the last candidate fitted and scored is returned | two words "A" (data `[0]`) and "B" (data `[1]`), state counts 2 and 3, a library where the model with 2 states scores 5.0 on `[0]`, the one with 3 states 1.0, and both 0.0 on `[1]`: DIC values 5 and 1, the selector returns the 3-state model | `best_score = dic_score`: return the model of greatest DIC, the earliest on a tie | not executed | Criteria.DicAsWrittenMissesMaximum | ModelSelectors.ModelSelector.SelectDICCorrected |
