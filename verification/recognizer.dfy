/** The recognizer: every test item is scored against every trained word model,
    and the word of greatest log-likelihood is guessed. */
module Recognizer {
  import opened Wrappers
  import opened Scores
  import opened Hmm

  /** The log-likelihood of one test item under one word model; a scoring
      exception gives `float("-inf")` instead of ending the recognition. */
  function LogLikelihood<M, S>(lib: Library<M, S>, model: M, x: seq<S>): (r: ExtReal)
    ensures r != PosInf
    ensures r == NegInf <==> lib.score(model, x).None?
    ensures r.Fin? ==> lib.score(model, x) == Some(r.value)
  {
    match lib.score(model, x)
    case None => NegInf
    case Some(v) => Fin(v)
  }

  /** The record of one test item: every word of `models`, in the models' order,
      with its log-likelihood. */
  function ScoreRecord<M, S>(lib: Library<M, S>, models: Dict<M>, x: seq<S>): (rec: seq<Scored<string>>)
    ensures |rec| == |models|
    ensures forall i | 0 <= i < |rec| ::
              rec[i].item == models[i].0 && rec[i].score == LogLikelihood(lib, models[i].1, x)
  {
    if models == [] then []
    else
      var n := |models| - 1;
      ScoreRecord(lib, models[..n], x) + [Scored(models[n].0, LogLikelihood(lib, models[n].1, x))]
  }

  /** Python's `max(record, key=record.get)`: the first word of greatest
      log-likelihood, or nothing for an empty record (where `max` raises). */
  function Guess(rec: seq<Scored<string>>): Option<string>
  {
    Chosen(rec, FirstMax(rec))
  }

  /** The two lists `recognize` returns, both in test-item order. */
  datatype Recognition = Recognition(probabilities: seq<seq<Scored<string>>>, guesses: seq<string>)

  /** The guess for an item is the first word whose log-likelihood is greatest;
      a word whose scoring failed is guessed only when every word's scoring failed,
      and then the guess is the first word. */
  lemma GuessIsFirstBest<M, S>(lib: Library<M, S>, models: Dict<M>, x: seq<S>)
    requires models != []
    ensures var i := FirstMax(ScoreRecord(lib, models, x)).value;
            && i < |models|
            && Guess(ScoreRecord(lib, models, x)) == Some(models[i].0)
            && (forall j | 0 <= j < |models| ::
                  !Less(LogLikelihood(lib, models[i].1, x), LogLikelihood(lib, models[j].1, x)))
            && (forall j | 0 <= j < i ::
                  Less(LogLikelihood(lib, models[j].1, x), LogLikelihood(lib, models[i].1, x)))
            && ((exists j | 0 <= j < |models| :: lib.score(models[j].1, x).Some?) ==> lib.score(models[i].1, x).Some?)
            && ((forall j | 0 <= j < |models| :: lib.score(models[j].1, x).None?) ==> i == 0)
  {
    var rec := ScoreRecord(lib, models, x);
    FirstMaxIsFirst(rec);
    var i := FirstMax(rec).value;
    if exists j | 0 <= j < |models| :: lib.score(models[j].1, x).Some? {
      var j :| 0 <= j < |models| && lib.score(models[j].1, x).Some?;
      assert !Less(rec[i].score, rec[j].score);
    }
    if forall j | 0 <= j < |models| :: lib.score(models[j].1, x).None? {
      assert rec[0].score == NegInf && rec[i].score == NegInf;
    }
  }

  /** Two words scoring -50 and -75 on an item: the record keeps both, and the
      first word is guessed. */
  lemma TwoWordExample()
    ensures var lib := Library((k: int, seed: int, d: seq<int>) => None,
                               (m: int, d: seq<int>) => Some(if m == 0 then -50.0 else -75.0));
            var rec := ScoreRecord(lib, [("JOHN", 0), ("MARY", 1)], [7]);
            && rec == [Scored("JOHN", Fin(-50.0)), Scored("MARY", Fin(-75.0))]
            && Guess(rec) == Some("JOHN")
  {
    var lib := Library((k: int, seed: int, d: seq<int>) => None,
                       (m: int, d: seq<int>) => Some(if m == 0 then -50.0 else -75.0));
    var models: Dict<int> := [("JOHN", 0), ("MARY", 1)];
    var rec := ScoreRecord(lib, models, [7]);
    assert rec == [Scored("JOHN", Fin(-50.0)), Scored("MARY", Fin(-75.0))];
    assert FirstMax(rec[..1]) == Some(0);
  }

  /** `recognize`: for every test item in order, its record and its guess are
      appended to the two lists. With no word models, `max` raises on the first
      item, so any non-empty test set fails. */
  method Recognize<M, S>(lib: Library<M, S>, models: Dict<M>, testSet: seq<seq<S>>) returns (result: Option<Recognition>)
    ensures result.None? <==> models == [] && testSet != []
    ensures result.Some? ==>
              && |result.value.probabilities| == |testSet|
              && |result.value.guesses| == |testSet|
              && forall i | 0 <= i < |testSet| ::
                   && result.value.probabilities[i] == ScoreRecord(lib, models, testSet[i])
                   && Guess(result.value.probabilities[i]) == Some(result.value.guesses[i])
  {
    var probabilities: seq<seq<Scored<string>>> := [];
    var guesses: seq<string> := [];
    for idx := 0 to |testSet|
      invariant |probabilities| == idx && |guesses| == idx
      invariant idx > 0 ==> models != []
      invariant forall i | 0 <= i < idx ::
                  && probabilities[i] == ScoreRecord(lib, models, testSet[i])
                  && Guess(probabilities[i]) == Some(guesses[i])
    {
      var record := ScoreRecord(lib, models, testSet[idx]);
      var best := FirstMax(record);
      if best.None? {
        // `max` of an empty record raises ValueError
        return None;
      }
      probabilities := probabilities + [record];
      guesses := guesses + [record[best.value].item];
    }
    return Some(Recognition(probabilities, guesses));
  }
}
