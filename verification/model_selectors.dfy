/** The model-selection strategies for one word: the base class's fields and
    `base_model`, and the constant, BIC, DIC and cross-validation `select`
    methods, as methods of one class. */
module ModelSelectors {
  import opened Wrappers
  import opened Scores
  import opened Hmm
  import opened Criteria

  class ModelSelector<M, S> {
    const lib: Library<M, S>
    /** Every word's training sequences, in dictionary order. */
    const words: Dict<seq<S>>
    const thisWord: string
    const sequences: seq<S>
    /** The data `base_model` fits on; only cross-validation reassigns it. */
    var X: seq<S>
    const nConstant: int
    const minComponents: int
    const maxComponents: int
    const randomState: int

    constructor (lib: Library<M, S>, words: Dict<seq<S>>, thisWord: string,
                 nConstant: int := 3, minComponents: int := 2, maxComponents: int := 10,
                 randomState: int := 14)
      requires thisWord in Keys(words)
      ensures this.lib == lib && this.words == words && this.thisWord == thisWord
      ensures this.nConstant == nConstant && this.randomState == randomState
      ensures this.minComponents == minComponents && this.maxComponents == maxComponents
      ensures sequences == Lookup(words, thisWord) && X == sequences
    {
      this.lib := lib;
      this.words := words;
      this.thisWord := thisWord;
      this.sequences := Lookup(words, thisWord);
      this.nConstant := nConstant;
      this.minComponents := minComponents;
      this.maxComponents := maxComponents;
      this.randomState := randomState;
      X := Lookup(words, thisWord);
    }

    /** Fit a model with `numStates` states on `X`; a failed fit is reported as
        `None`, never raised. */
    method BaseModel(numStates: int) returns (model: Option<M>)
      ensures model == lib.fit(numStates, randomState, X)
    {
      model := lib.fit(numStates, randomState, X);
    }

    /** One fit, with the configured constant number of states. */
    method SelectConstant() returns (model: Option<M>)
      ensures model == lib.fit(nConstant, randomState, X)
    {
      model := BaseModel(nConstant);
    }

    /** The model of least BIC, the earliest on a tie, among the state counts that
        could be fitted and scored; `features` is the observation dimension and
        `logN` the log of the number of observations. */
    method SelectBIC(features: nat, logN: real) returns (best: Option<M>)
      ensures var offers := BicOffers(lib, randomState, X, features, logN, minComponents, maxComponents);
              best == Chosen(offers, FirstMin(offers))
    {
      var bestScore := PosInf;
      best := None;
      ghost var offers: seq<Scored<M>> := [];
      var hi := if minComponents < maxComponents then maxComponents else minComponents;
      for numStates := minComponents to hi
        invariant offers == BicOffers(lib, randomState, X, features, logN, minComponents, numStates)
        invariant TracksMin(offers, bestScore, best)
      {
        var model := BaseModel(numStates);
        if model.Some? {
          var logL := lib.score(model.value, X);
          if logL.Some? {
            var bic := BicScore(logL.value, numStates, features, logN);
            TracksMinStep(offers, bestScore, best, Scored(model.value, Fin(bic)));
            offers := offers + [Scored(model.value, Fin(bic))];
            if Less(Fin(bic), bestScore) {
              bestScore := Fin(bic);
              best := model;
            }
          }
        }
      }
      TracksMinChosen(offers, bestScore, best);
    }

    /** The sum of `model`'s log-likelihoods on every other word's data, `None` if
        one of them cannot be scored. */
    method ScoreCompetitors(model: M) returns (total: Option<real>)
      ensures total == CompetitorSum(lib, model, Others(words, thisWord))
    {
      total := Some(0.0);
      for j := 0 to |words|
        invariant total == CompetitorSum(lib, model, Others(words[..j], thisWord))
      {
        CompetitorSumNext(lib, model, words, thisWord, j);
        // once a score has failed the source has left the loop: no further word is scored
        if total.Some? && words[j].0 != thisWord {
          var s := lib.score(model, words[j].1);
          total := if s.Some? then Some(total.value + s.value) else None;
        }
      }
      assert words[..|words|] == words;
    }

    /** One DIC candidate: fit `numStates` states on `X`, score `X`, and subtract the
        mean score of the other words' data. */
    method EvaluateDic(numStates: int) returns (candidate: Option<Scored<M>>)
      ensures candidate == DicCandidate(lib, randomState, X, words, thisWord, numStates)
    {
      candidate := None;
      var vocabularySize := |words|;
      var model := BaseModel(numStates);
      if model.Some? {
        var own := lib.score(model.value, X);
        if own.Some? {
          var total := ScoreCompetitors(model.value);
          // `scores / (M - 1)` raises ZeroDivisionError for a one-word vocabulary
          if total.Some? && vocabularySize - 1 != 0 {
            var dic := own.value - total.value / (vocabularySize - 1) as real;
            candidate := Some(Scored(model.value, Fin(dic)));
          }
        }
      }
    }

    /** DIC selection as the source has it: `best_score` keeps its initial
        `float("-inf")`, so every candidate that is fitted and scored replaces the
        best, and the last one is returned. */
    method SelectDIC() returns (best: Option<M>)
      ensures best == LastItem(DicOffers(lib, randomState, X, words, thisWord, minComponents, maxComponents))
    {
      best := None;
      var bestScore := NegInf;
      ghost var offers: seq<Scored<M>> := [];
      var hi := if minComponents < maxComponents then maxComponents else minComponents;
      for numStates := minComponents to hi
        invariant offers == DicOffers(lib, randomState, X, words, thisWord, minComponents, numStates)
        invariant bestScore == NegInf && best == LastItem(offers)
      {
        var candidate := EvaluateDic(numStates);
        if candidate.Some? {
          offers := offers + [candidate.value];
          if Less(bestScore, candidate.value.score) {
            // the source stores the score in the best-model slot and overwrites it at once
            best := Some(candidate.value.item);
          }
        }
      }
    }

    /** DIC selection as intended: the model of greatest DIC, the earliest on a tie. */
    method SelectDICCorrected() returns (best: Option<M>)
      ensures var offers := DicOffers(lib, randomState, X, words, thisWord, minComponents, maxComponents);
              best == Chosen(offers, FirstMax(offers))
    {
      best := None;
      var bestScore := NegInf;
      ghost var offers: seq<Scored<M>> := [];
      var hi := if minComponents < maxComponents then maxComponents else minComponents;
      for numStates := minComponents to hi
        invariant offers == DicOffers(lib, randomState, X, words, thisWord, minComponents, numStates)
        invariant TracksMax(offers, bestScore, best)
      {
        var candidate := EvaluateDic(numStates);
        if candidate.Some? {
          TracksMaxStep(offers, bestScore, best, candidate.value);
          offers := offers + [candidate.value];
          if Less(bestScore, candidate.value.score) {
            bestScore := candidate.value.score;
            best := Some(candidate.value.item);
          }
        }
      }
      TracksMaxChosen(offers, bestScore, best);
    }

    /** One pass of the fold loop, on fold `j`: train on its training part (assigned
        to `X`) and score its test part; a failed fit skips the fold, a failed score
        ends the loop, and a score offers the mean of the scores so far to the
        running best. */
    method FoldPass(numStates: int, folds: seq<Fold>, j: nat, scores: seq<real>, bestScore: ExtReal, best: Option<M>,
                    ghost run: FoldRun<M>, ghost earlier: seq<Scored<M>>)
      returns (scores': seq<real>, aborted: bool, bestScore': ExtReal, best': Option<M>)
      requires j < |folds| && FoldsInRange(folds, |sequences|)
      requires !run.aborted && scores == run.scores
      requires TracksMax(earlier + run.offers, bestScore, best)
      modifies this
      ensures var next := FoldStep(lib, randomState, sequences, folds, numStates, run, j);
              && scores' == next.scores && aborted == next.aborted
              && TracksMax(earlier + next.offers, bestScore', best')
      ensures X == Combine(folds[j].train, sequences)
    {
      scores', aborted, bestScore', best' := scores, false, bestScore, best;
      X := Combine(folds[j].train, sequences);
      var testData := Combine(folds[j].test, sequences);
      var model := BaseModel(numStates);
      if model.Some? {
        var score := lib.score(model.value, testData);
        if score.None? {
          // the exception leaves this candidate's fold loop
          aborted := true;
        } else {
          scores' := scores + [score.value];
          var meanScore := Mean(scores');
          TracksMaxStep(earlier + run.offers, bestScore, best, Scored(model.value, Fin(meanScore)));
          assert earlier + (run.offers + [Scored(model.value, Fin(meanScore))])
              == earlier + run.offers + [Scored(model.value, Fin(meanScore))];
          if Less(bestScore, Fin(meanScore)) {
            bestScore' := Fin(meanScore);
            best' := model;
          }
        }
      }
    }

    /** The fold loop of one cross-validation candidate, over the three folds until
        a score fails. */
    method CrossValidate(numStates: int, folds: seq<Fold>, bestScore: ExtReal, best: Option<M>, ghost earlier: seq<Scored<M>>)
      returns (bestScore': ExtReal, best': Option<M>)
      requires |folds| == 3 && FoldsInRange(folds, |sequences|)
      requires TracksMax(earlier, bestScore, best)
      modifies this
      ensures var r := CvFolds(lib, randomState, sequences, folds, numStates, |folds|);
              && TracksMax(earlier + r.offers, bestScore', best')
              && X == if r.entered == 0 then old(X) else Combine(folds[r.entered - 1].train, sequences)
    {
      bestScore', best' := bestScore, best;
      var scores: seq<real> := [];
      var aborted := false;
      var j := 0;
      ghost var run := CvFolds(lib, randomState, sequences, folds, numStates, 0);
      assert earlier + run.offers == earlier;
      while j < |folds| && !aborted
        invariant 0 <= j <= |folds| && run == CvFolds(lib, randomState, sequences, folds, numStates, j)
        invariant scores == run.scores && aborted == run.aborted && run.entered == j
        invariant X == if j == 0 then old(X) else Combine(folds[j - 1].train, sequences)
        invariant TracksMax(earlier + run.offers, bestScore', best')
      {
        scores, aborted, bestScore', best' := FoldPass(numStates, folds, j, scores, bestScore', best', run, earlier);
        run := FoldStep(lib, randomState, sequences, folds, numStates, run, j);
        j := j + 1;
      }
      if aborted {
        CvFoldsAbortStays(lib, randomState, sequences, folds, numStates, j, |folds|);
      }
    }

    /** Cross-validated selection: the model behind the greatest running mean of
        held-out log-likelihoods (full-data log-likelihood with two sequences or
        fewer), the earliest on a tie. `X` is left at the training part of the
        last fold used. */
    method SelectCV(folds: seq<Fold>) returns (best: Option<M>)
      requires CvSetup(sequences, folds)
      modifies this
      ensures var offers := CvOffers(lib, randomState, sequences, old(X), folds, minComponents, maxComponents);
              best == Chosen(offers, FirstMax(offers))
      ensures X == CvFinalData(lib, randomState, sequences, old(X), folds, minComponents, maxComponents)
    {
      var bestScore := NegInf;
      best := None;
      ghost var data := X;
      ghost var offers: seq<Scored<M>> := [];
      var hi := if minComponents < maxComponents then maxComponents else minComponents;
      for numStates := minComponents to hi
        invariant offers == CvOffers(lib, randomState, sequences, data, folds, minComponents, numStates)
        invariant X == CvFinalData(lib, randomState, sequences, data, folds, minComponents, numStates)
        invariant TracksMax(offers, bestScore, best)
      {
        if |sequences| > 2 {
          bestScore, best := CrossValidate(numStates, folds, bestScore, best, offers);
          offers := offers + CvFolds(lib, randomState, sequences, folds, numStates, |folds|).offers;
        } else {
          var model := BaseModel(numStates);
          if model.Some? {
            var score := lib.score(model.value, X);
            if score.Some? {
              TracksMaxStep(offers, bestScore, best, Scored(model.value, Fin(score.value)));
              offers := offers + [Scored(model.value, Fin(score.value))];
              if Less(bestScore, Fin(score.value)) {
                bestScore := Fin(score.value);
                best := model;
              }
            }
          }
        }
      }
      TracksMaxChosen(offers, bestScore, best);
    }
  }
}
