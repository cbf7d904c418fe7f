/** What each selection strategy makes of one candidate state count: the
    (model, criterion value) pairs it offers to its running best, in the order it
    offers them. A failed fit or score offers nothing. The selectors' methods are
    proved to return the model these offers single out. */
module Criteria {
  import opened Wrappers
  import opened Scores
  import opened Hmm

  // ----- Bayesian Information Criterion -----

  /** `-2 * logL + p * logN`, with `p = k * (2 * features + 1)` free parameters of a
      `k`-state diagonal Gaussian HMM over `features`-dimensional observations. */
  function BicScore(logL: real, k: int, features: nat, logN: real): real
  {
    -2.0 * logL + (k * (features * 2 + 1)) as real * logN
  }

  /** Fit `k` states on the word's data and score that same data. */
  function BicCandidate<M, S>(lib: Library<M, S>, seed: int, data: seq<S>, features: nat, logN: real, k: int): Option<Scored<M>>
  {
    match lib.fit(k, seed, data)
    case None => None
    case Some(m) =>
      match lib.score(m, data)
      case None => None
      case Some(logL) => Some(Scored(m, Fin(BicScore(logL, k, features, logN))))
  }

  /** The offers of the state counts `lo .. hi - 1`, tried in ascending order. */
  function BicOffers<M, S>(lib: Library<M, S>, seed: int, data: seq<S>, features: nat, logN: real, lo: int, hi: int): seq<Scored<M>>
    decreases hi - lo
  {
    if hi <= lo then []
    else BicOffers(lib, seed, data, features, logN, lo, hi - 1)
         + AsSeq(BicCandidate(lib, seed, data, features, logN, hi - 1))
  }

  /** The BIC offers are exactly the candidates that were fitted and scored. */
  lemma {:induction false} BicOffersExactly<M, S>(lib: Library<M, S>, seed: int, data: seq<S>, features: nat, logN: real, lo: int, hi: int)
    decreases hi - lo
    ensures forall k | lo <= k < hi && BicCandidate(lib, seed, data, features, logN, k).Some? ::
              BicCandidate(lib, seed, data, features, logN, k).value in BicOffers(lib, seed, data, features, logN, lo, hi)
    ensures forall o | o in BicOffers(lib, seed, data, features, logN, lo, hi) ::
              exists k | lo <= k < hi :: BicCandidate(lib, seed, data, features, logN, k) == Some(o)
  {
    if lo < hi {
      BicOffersExactly(lib, seed, data, features, logN, lo, hi - 1);
    }
  }

  /** The BIC selection: no model exactly when every candidate failed; otherwise a
      model that some candidate produced, whose criterion is no greater than that
      of any candidate that was fitted and scored. */
  lemma BicSelectsLeast<M, S>(lib: Library<M, S>, seed: int, data: seq<S>, features: nat, logN: real, lo: int, hi: int)
    ensures var offers := BicOffers(lib, seed, data, features, logN, lo, hi);
            var chosen := FirstMin(offers);
            && (chosen.None? <==> forall k | lo <= k < hi :: BicCandidate(lib, seed, data, features, logN, k).None?)
            && (chosen.Some? ==>
                  && (exists k | lo <= k < hi :: BicCandidate(lib, seed, data, features, logN, k) == Some(offers[chosen.value]))
                  && forall k | lo <= k < hi && BicCandidate(lib, seed, data, features, logN, k).Some? ::
                       !Less(BicCandidate(lib, seed, data, features, logN, k).value.score, offers[chosen.value].score))
  {
    var offers := BicOffers(lib, seed, data, features, logN, lo, hi);
    BicOffersExactly(lib, seed, data, features, logN, lo, hi);
    forall k | lo <= k < hi && BicCandidate(lib, seed, data, features, logN, k).Some?
      ensures offers != []
    {
      assert BicCandidate(lib, seed, data, features, logN, k).value in offers;
    }
    if FirstMin(offers).Some? {
      var i := FirstMin(offers).value;
      FirstMinIsFirst(offers);
      assert offers[i] in offers;
      forall k | lo <= k < hi && BicCandidate(lib, seed, data, features, logN, k).Some?
        ensures !Less(BicCandidate(lib, seed, data, features, logN, k).value.score, offers[i].score)
      {
        var c := BicCandidate(lib, seed, data, features, logN, k).value;
        assert c in offers;
        var j :| 0 <= j < |offers| && offers[j] == c;
      }
    }
  }

  // ----- Discriminative Information Criterion -----

  /** The data of every word other than `w`, in dictionary order. */
  function Others<S>(words: Dict<seq<S>>, w: string): seq<seq<S>>
  {
    if words == [] then []
    else
      var n := |words| - 1;
      Others(words[..n], w) + (if words[n].0 != w then [words[n].1] else [])
  }

  lemma {:induction false} OthersOfAbsent<S>(words: Dict<seq<S>>, w: string)
    requires w !in Keys(words)
    ensures |Others(words, w)| == |words|
  {
    if words != [] {
      var n := |words| - 1;
      assert Keys(words[..n]) == Keys(words)[..n];
      OthersOfAbsent(words[..n], w);
    }
  }

  /** In a dictionary that holds `w`, exactly `M - 1` words compete with it, where
      `M` is the number of words. */
  lemma {:induction false} OthersCount<S>(words: Dict<seq<S>>, w: string)
    requires DistinctKeys(words) && w in Keys(words)
    ensures |Others(words, w)| == |words| - 1
  {
    var n := |words| - 1;
    var p := words[..n];
    assert Keys(p) == Keys(words)[..n];
    if words[n].0 == w {
      assert w !in Keys(p);
      OthersOfAbsent(p, w);
    } else {
      var i :| 0 <= i < |words| && Keys(words)[i] == w;
      assert i < n;
      assert w in Keys(p);
      OthersCount(p, w);
    }
  }

  /** The sum of a model's log-likelihoods on the competitors' data; `None` as soon
      as one of them cannot be scored. */
  function CompetitorSum<M, S>(lib: Library<M, S>, m: M, others: seq<seq<S>>): Option<real>
  {
    if others == [] then Some(0.0)
    else
      match CompetitorSum(lib, m, others[..|others| - 1])
      case None => None
      case Some(total) =>
        match lib.score(m, others[|others| - 1])
        case None => None
        case Some(s) => Some(total + s)
  }

  /** Looking at one more word of the dictionary: a competitor's score is added
      unless the sum has already failed. */
  lemma CompetitorSumNext<M, S>(lib: Library<M, S>, m: M, words: Dict<seq<S>>, w: string, j: nat)
    requires j < |words|
    ensures var before := CompetitorSum(lib, m, Others(words[..j], w));
            CompetitorSum(lib, m, Others(words[..j + 1], w))
            == if before.None? || words[j].0 == w then before
               else match lib.score(m, words[j].1)
                    case None => None
                    case Some(s) => Some(before.value + s)
  {
    assert words[..j + 1][..j] == words[..j];
    var prev := Others(words[..j], w);
    var next := Others(words[..j + 1], w);
    assert next == prev + (if words[j].0 != w then [words[j].1] else []);
    if words[j].0 != w {
      assert next[..|next| - 1] == prev && next[|next| - 1] == words[j].1;
      assert CompetitorSum(lib, m, next)
             == match CompetitorSum(lib, m, prev)
                case None => None
                case Some(total) =>
                  match lib.score(m, words[j].1)
                  case None => None
                  case Some(s) => Some(total + s);
    } else {
      assert next == prev;
    }
  }

  /** Fit `k` states on the word's data; the criterion is its own log-likelihood
      minus the mean log-likelihood of the other words' data. With `M - 1 = 0`
      the division fails, and so does the candidate. */
  function DicCandidate<M, S>(lib: Library<M, S>, seed: int, data: seq<S>, words: Dict<seq<S>>, w: string, k: int): Option<Scored<M>>
  {
    match lib.fit(k, seed, data)
    case None => None
    case Some(m) =>
      match lib.score(m, data)
      case None => None
      case Some(own) =>
        match CompetitorSum(lib, m, Others(words, w))
        case None => None
        case Some(total) =>
          if |words| - 1 == 0 then None
          else Some(Scored(m, Fin(own - total / (|words| - 1) as real)))
  }

  /** The offers of the state counts `lo .. hi - 1`, tried in ascending order. */
  function DicOffers<M, S>(lib: Library<M, S>, seed: int, data: seq<S>, words: Dict<seq<S>>, w: string, lo: int, hi: int): seq<Scored<M>>
    decreases hi - lo
  {
    if hi <= lo then []
    else DicOffers(lib, seed, data, words, w, lo, hi - 1)
         + AsSeq(DicCandidate(lib, seed, data, words, w, hi - 1))
  }

  /** The DIC offers are exactly the candidates that were fitted and scored. */
  lemma {:induction false} DicOffersExactly<M, S>(lib: Library<M, S>, seed: int, data: seq<S>, words: Dict<seq<S>>, w: string, lo: int, hi: int)
    decreases hi - lo
    ensures forall k | lo <= k < hi && DicCandidate(lib, seed, data, words, w, k).Some? ::
              DicCandidate(lib, seed, data, words, w, k).value in DicOffers(lib, seed, data, words, w, lo, hi)
    ensures forall o | o in DicOffers(lib, seed, data, words, w, lo, hi) ::
              exists k | lo <= k < hi :: DicCandidate(lib, seed, data, words, w, k) == Some(o)
  {
    if lo < hi {
      DicOffersExactly(lib, seed, data, words, w, lo, hi - 1);
    }
  }

  /** With a one-word vocabulary every candidate divides by zero: nothing is offered. */
  lemma {:induction false} DicSingleWordOffersNothing<M, S>(lib: Library<M, S>, seed: int, data: seq<S>, words: Dict<seq<S>>, w: string, lo: int, hi: int)
    requires |words| == 1
    decreases hi - lo
    ensures DicOffers(lib, seed, data, words, w, lo, hi) == []
  {
    if lo < hi {
      DicSingleWordOffersNothing(lib, seed, data, words, w, lo, hi - 1);
    }
  }


  /** The corrected DIC selection: no model exactly when every candidate failed;
      otherwise a model some candidate produced, whose criterion is no smaller than
      that of any candidate that was fitted and scored. */
  lemma DicCorrectedSelectsGreatest<M, S>(lib: Library<M, S>, seed: int, data: seq<S>, words: Dict<seq<S>>, w: string, lo: int, hi: int)
    ensures var offers := DicOffers(lib, seed, data, words, w, lo, hi);
            var chosen := FirstMax(offers);
            && (chosen.None? <==> forall k | lo <= k < hi :: DicCandidate(lib, seed, data, words, w, k).None?)
            && (chosen.Some? ==>
                  && (exists k | lo <= k < hi :: DicCandidate(lib, seed, data, words, w, k) == Some(offers[chosen.value]))
                  && forall k | lo <= k < hi && DicCandidate(lib, seed, data, words, w, k).Some? ::
                       !Less(offers[chosen.value].score, DicCandidate(lib, seed, data, words, w, k).value.score))
  {
    var offers := DicOffers(lib, seed, data, words, w, lo, hi);
    DicOffersExactly(lib, seed, data, words, w, lo, hi);
    forall k | lo <= k < hi && DicCandidate(lib, seed, data, words, w, k).Some?
      ensures offers != []
    {
      assert DicCandidate(lib, seed, data, words, w, k).value in offers;
    }
    if FirstMax(offers).Some? {
      var i := FirstMax(offers).value;
      FirstMaxIsFirst(offers);
      assert offers[i] in offers;
      forall k | lo <= k < hi && DicCandidate(lib, seed, data, words, w, k).Some?
        ensures !Less(offers[i].score, DicCandidate(lib, seed, data, words, w, k).value.score)
      {
        var c := DicCandidate(lib, seed, data, words, w, k).value;
        assert c in offers;
        var j :| 0 <= j < |offers| && offers[j] == c;
      }
    }
  }

  /** A library under which the DIC selector as written picks a model whose
      criterion is not the greatest: state counts 2 and 3 reach criteria 5 and 1,
      and the selector keeps the later one. */
  function SkewedLibrary(): Library<int, int>
  {
    Library((k: int, seed: int, data: seq<int>) => Some(k),
            (m: int, data: seq<int>) => Some(if data == [0] then (if m == 2 then 5.0 else 1.0) else 0.0))
  }

  function SkewedWords(): Dict<seq<int>>
  {
    [("A", [0]), ("B", [1])]
  }

  lemma SkewedCandidates()
    ensures DicCandidate(SkewedLibrary(), 14, [0], SkewedWords(), "A", 2) == Some(Scored(2, Fin(5.0)))
    ensures DicCandidate(SkewedLibrary(), 14, [0], SkewedWords(), "A", 3) == Some(Scored(3, Fin(1.0)))
  {
    var words := SkewedWords();
    assert Others(words, "A") == [[1]] by {
      assert words[..1] == [("A", [0])];
      assert |words[..1][..0]| == 0;
    }
    var lib := SkewedLibrary();
    assert lib.score(2, [1]) == Some(0.0) && lib.score(3, [1]) == Some(0.0);
    assert |[[1]][..0]| == 0;
    assert CompetitorSum(lib, 2, [[1]]) == Some(0.0);
    assert CompetitorSum(lib, 3, [[1]]) == Some(0.0);
    assert lib.score(2, [0]) == Some(5.0) && lib.score(3, [0]) == Some(1.0);
  }

  lemma DicAsWrittenMissesMaximum()
    ensures var offers := DicOffers(SkewedLibrary(), 14, [0], SkewedWords(), "A", 2, 4);
            && LastItem(offers) == Some(3)
            && Chosen(offers, FirstMax(offers)) == Some(2)
  {
    SkewedCandidates();
    var offers := DicOffers(SkewedLibrary(), 14, [0], SkewedWords(), "A", 2, 4);
    assert DicOffers(SkewedLibrary(), 14, [0], SkewedWords(), "A", 2, 3) == [Scored(2, Fin(5.0))];
    assert offers == [Scored(2, Fin(5.0)), Scored(3, Fin(1.0))];
    assert offers[..1] == [Scored(2, Fin(5.0))] && |offers[..1][..0]| == 0;
  }

  // ----- Cross-validation -----

  /** One train/test split of a word's sequences, as indices into them. */
  datatype Fold = Fold(train: seq<nat>, test: seq<nat>)

  predicate FoldsInRange(folds: seq<Fold>, n: nat)
  {
    forall i | 0 <= i < |folds| :: AllBelow(folds[i].train, n) && AllBelow(folds[i].test, n)
  }

  /** The folds are the three splits of a 3-fold cross-validation, needed only when
      the word has more than two sequences. */
  predicate CvSetup<S>(sequences: seq<S>, folds: seq<Fold>)
  {
    |sequences| > 2 ==> |folds| == 3 && FoldsInRange(folds, |sequences|)
  }

  /** Where one candidate's fold loop stands: the held-out scores so far, the
      offers made, how many folds it has loaded as training data, and whether a
      scoring failure has ended it. */
  datatype FoldRun<M> = FoldRun(scores: seq<real>, offers: seq<Scored<M>>, entered: nat, aborted: bool)

  /** One pass of the fold loop, on fold `j`, after the run `r` of the folds before it. */
  function FoldStep<M, S>(lib: Library<M, S>, seed: int, sequences: seq<S>, folds: seq<Fold>, k: int, r: FoldRun<M>, j: nat): (r': FoldRun<M>)
    requires j < |folds| && FoldsInRange(folds, |sequences|)
    requires !r.aborted
  {
    var f := folds[j];
    match lib.fit(k, seed, Combine(f.train, sequences))
    case None => r.(entered := j + 1)
    case Some(m) =>
      match lib.score(m, Combine(f.test, sequences))
      case None => r.(entered := j + 1, aborted := true)
      case Some(s) => FoldRun(r.scores + [s], r.offers + [Scored(m, Fin(Mean(r.scores + [s])))], j + 1, false)
  }

  /** The run of the fold loop over the first `n` folds: each fold's training part
      fits a model that is scored on the test part; a failed fit skips the fold, a
      failed score ends the loop, and each score offers the mean of the scores so far. */
  function CvFolds<M, S>(lib: Library<M, S>, seed: int, sequences: seq<S>, folds: seq<Fold>, k: int, n: nat): (r: FoldRun<M>)
    requires n <= |folds| && FoldsInRange(folds, |sequences|)
    ensures r.entered <= n && |r.offers| == |r.scores| <= n
    ensures !r.aborted ==> r.entered == n
  {
    if n == 0 then FoldRun([], [], 0, false)
    else
      var r := CvFolds(lib, seed, sequences, folds, k, n - 1);
      if r.aborted then r else FoldStep(lib, seed, sequences, folds, k, r, n - 1)
  }

  /** Once a scoring failure has ended the fold loop, later folds change nothing. */
  lemma {:induction false} CvFoldsAbortStays<M, S>(lib: Library<M, S>, seed: int, sequences: seq<S>, folds: seq<Fold>, k: int, j: nat, n: nat)
    requires j <= n <= |folds| && FoldsInRange(folds, |sequences|)
    requires CvFolds(lib, seed, sequences, folds, k, j).aborted
    ensures CvFolds(lib, seed, sequences, folds, k, n) == CvFolds(lib, seed, sequences, folds, k, j)
  {
    if n > j {
      CvFoldsAbortStays(lib, seed, sequences, folds, k, j, n - 1);
    }
  }

  /** `m` is a model fitted with `k` states on the training part of one of the
      first `n` folds, and `s` its log-likelihood on that fold's test part. */
  ghost predicate HeldOut<M, S>(lib: Library<M, S>, seed: int, sequences: seq<S>, folds: seq<Fold>, k: int, n: nat, m: M, s: real)
    requires n <= |folds| && FoldsInRange(folds, |sequences|)
  {
    exists j | 0 <= j < n ::
      && lib.fit(k, seed, Combine(folds[j].train, sequences)) == Some(m)
      && lib.score(m, Combine(folds[j].test, sequences)) == Some(s)
  }

  /** A held-out score found among the first `n` folds is found among more of them. */
  lemma HeldOutMore<M, S>(lib: Library<M, S>, seed: int, sequences: seq<S>, folds: seq<Fold>, k: int, n: nat, n': nat, m: M, s: real)
    requires n <= n' <= |folds| && FoldsInRange(folds, |sequences|)
    requires HeldOut(lib, seed, sequences, folds, k, n, m, s)
    ensures HeldOut(lib, seed, sequences, folds, k, n', m, s)
  {
    var j :| 0 <= j < n
             && lib.fit(k, seed, Combine(folds[j].train, sequences)) == Some(m)
             && lib.score(m, Combine(folds[j].test, sequences)) == Some(s);
  }

  /** The `i`-th fold offer is made with the mean of the held-out scores up to and
      including the `i`-th. */
  lemma {:induction false} CvFoldMean<M, S>(lib: Library<M, S>, seed: int, sequences: seq<S>, folds: seq<Fold>, k: int, n: nat, i: nat)
    requires n <= |folds| && FoldsInRange(folds, |sequences|)
    requires i < |CvFolds(lib, seed, sequences, folds, k, n).offers|
    ensures var r := CvFolds(lib, seed, sequences, folds, k, n);
            r.offers[i].score == Fin(Mean(r.scores[..i + 1]))
  {
    var p := CvFolds(lib, seed, sequences, folds, k, n - 1);
    var r := CvFolds(lib, seed, sequences, folds, k, n);
    var fitted := lib.fit(k, seed, Combine(folds[n - 1].train, sequences));
    if p.aborted || fitted.None? || lib.score(fitted.value, Combine(folds[n - 1].test, sequences)).None? {
      assert r == p || r == p.(entered := n) || r == p.(entered := n, aborted := true);
      CvFoldMean(lib, seed, sequences, folds, k, n - 1, i);
    } else {
      var s := lib.score(fitted.value, Combine(folds[n - 1].test, sequences)).value;
      assert r.scores == p.scores + [s];
      assert r.offers == p.offers + [Scored(fitted.value, Fin(Mean(p.scores + [s])))];
      if i < |p.offers| {
        CvFoldMean(lib, seed, sequences, folds, k, n - 1, i);
        assert r.scores[..i + 1] == p.scores[..i + 1];
      } else {
        assert r.scores[..i + 1] == r.scores;
      }
    }
  }

  /** The `i`-th fold offer carries the model of a fold the loop entered, fitted
      with `k` states on its training part, and the `i`-th held-out score is that
      model's log-likelihood on the fold's test part. */
  lemma {:induction false} CvFoldHeldOut<M, S>(lib: Library<M, S>, seed: int, sequences: seq<S>, folds: seq<Fold>, k: int, n: nat, i: nat)
    requires n <= |folds| && FoldsInRange(folds, |sequences|)
    requires i < |CvFolds(lib, seed, sequences, folds, k, n).offers|
    ensures var r := CvFolds(lib, seed, sequences, folds, k, n);
            HeldOut(lib, seed, sequences, folds, k, r.entered, r.offers[i].item, r.scores[i])
  {
    var p := CvFolds(lib, seed, sequences, folds, k, n - 1);
    var r := CvFolds(lib, seed, sequences, folds, k, n);
    var fitted := lib.fit(k, seed, Combine(folds[n - 1].train, sequences));
    if p.aborted {
      assert r == p;
      CvFoldHeldOut(lib, seed, sequences, folds, k, n - 1, i);
    } else if fitted.None? || lib.score(fitted.value, Combine(folds[n - 1].test, sequences)).None? {
      assert r.offers == p.offers && r.scores == p.scores && r.entered == n;
      CvFoldHeldOut(lib, seed, sequences, folds, k, n - 1, i);
      HeldOutMore(lib, seed, sequences, folds, k, p.entered, n, p.offers[i].item, p.scores[i]);
    } else {
      var m := fitted.value;
      var s := lib.score(m, Combine(folds[n - 1].test, sequences)).value;
      assert r.scores == p.scores + [s] && r.entered == n;
      assert r.offers == p.offers + [Scored(m, Fin(Mean(p.scores + [s])))];
      if i < |p.offers| {
        CvFoldHeldOut(lib, seed, sequences, folds, k, n - 1, i);
        HeldOutMore(lib, seed, sequences, folds, k, p.entered, n, p.offers[i].item, p.scores[i]);
      } else {
        assert HeldOut(lib, seed, sequences, folds, k, n, m, s);
      }
    }
  }

  /** Conversely, a fold `j` the loop enters, whose fit and held-out score both
      succeed, offers its model with the mean of the scores up to its own. */
  lemma {:induction false} CvFoldOffered<M, S>(lib: Library<M, S>, seed: int, sequences: seq<S>, folds: seq<Fold>, k: int, n: nat, j: nat, m: M, s: real)
    requires j < n <= |folds| && FoldsInRange(folds, |sequences|)
    requires !CvFolds(lib, seed, sequences, folds, k, j).aborted
    requires lib.fit(k, seed, Combine(folds[j].train, sequences)) == Some(m)
    requires lib.score(m, Combine(folds[j].test, sequences)) == Some(s)
    ensures Scored(m, Fin(Mean(CvFolds(lib, seed, sequences, folds, k, j).scores + [s])))
            in CvFolds(lib, seed, sequences, folds, k, n).offers
  {
    var o := Scored(m, Fin(Mean(CvFolds(lib, seed, sequences, folds, k, j).scores + [s])));
    if n == j + 1 {
      assert CvFolds(lib, seed, sequences, folds, k, n).offers[|CvFolds(lib, seed, sequences, folds, k, n).offers| - 1] == o;
    } else {
      CvFoldOffered(lib, seed, sequences, folds, k, n - 1, j, m, s);
      var p := CvFolds(lib, seed, sequences, folds, k, n - 1);
      var r := CvFolds(lib, seed, sequences, folds, k, n);
      assert p.offers <= r.offers;
    }
  }

  /** What state count `k` offers: with more than two sequences, its fold offers;
      otherwise the model fitted on, and scored against, the full data. */
  function CvCandidate<M, S>(lib: Library<M, S>, seed: int, sequences: seq<S>, data: seq<S>, folds: seq<Fold>, k: int): seq<Scored<M>>
    requires CvSetup(sequences, folds)
  {
    if |sequences| > 2 then CvFolds(lib, seed, sequences, folds, k, |folds|).offers
    else
      match lib.fit(k, seed, data)
      case None => []
      case Some(m) =>
        match lib.score(m, data)
        case None => []
        case Some(s) => [Scored(m, Fin(s))]
  }

  /** The offers of the state counts `lo .. hi - 1`, tried in ascending order. */
  function CvOffers<M, S>(lib: Library<M, S>, seed: int, sequences: seq<S>, data: seq<S>, folds: seq<Fold>, lo: int, hi: int): seq<Scored<M>>
    requires CvSetup(sequences, folds)
    decreases hi - lo
  {
    if hi <= lo then []
    else CvOffers(lib, seed, sequences, data, folds, lo, hi - 1)
         + CvCandidate(lib, seed, sequences, data, folds, hi - 1)
  }

  /** The selector's training data once the state counts `lo .. hi - 1` have run:
      the source reassigns it to each fold's training part and never restores it,
      so it is the training part of the last fold the last candidate reached. */
  function CvFinalData<M, S>(lib: Library<M, S>, seed: int, sequences: seq<S>, data: seq<S>, folds: seq<Fold>, lo: int, hi: int): seq<S>
    requires CvSetup(sequences, folds)
    decreases hi - lo
  {
    if hi <= lo || |sequences| <= 2 then data
    else
      var r := CvFolds(lib, seed, sequences, folds, hi - 1, |folds|);
      if r.entered == 0 then CvFinalData(lib, seed, sequences, data, folds, lo, hi - 1)
      else Combine(folds[r.entered - 1].train, sequences)
  }

  /** The offers are exactly those of the candidates `lo .. hi - 1`. */
  lemma {:induction false} CvOffersExactly<M, S>(lib: Library<M, S>, seed: int, sequences: seq<S>, data: seq<S>, folds: seq<Fold>, lo: int, hi: int)
    requires CvSetup(sequences, folds)
    decreases hi - lo
    ensures forall k, o | lo <= k < hi && o in CvCandidate(lib, seed, sequences, data, folds, k) ::
              o in CvOffers(lib, seed, sequences, data, folds, lo, hi)
    ensures forall o | o in CvOffers(lib, seed, sequences, data, folds, lo, hi) ::
              exists k | lo <= k < hi :: o in CvCandidate(lib, seed, sequences, data, folds, k)
  {
    if lo < hi {
      CvOffersExactly(lib, seed, sequences, data, folds, lo, hi - 1);
    }
  }

  /** Cross-validated selection: no model exactly when no candidate offered
      anything; otherwise an offer of some candidate, whose value is no smaller
      than that of any offer of any candidate. */
  lemma CvSelectsGreatest<M, S>(lib: Library<M, S>, seed: int, sequences: seq<S>, data: seq<S>, folds: seq<Fold>, lo: int, hi: int)
    requires CvSetup(sequences, folds)
    ensures var offers := CvOffers(lib, seed, sequences, data, folds, lo, hi);
            var chosen := FirstMax(offers);
            && (chosen.None? <==> forall k | lo <= k < hi :: CvCandidate(lib, seed, sequences, data, folds, k) == [])
            && (chosen.Some? ==>
                  && (exists k | lo <= k < hi :: offers[chosen.value] in CvCandidate(lib, seed, sequences, data, folds, k))
                  && forall k, o | lo <= k < hi && o in CvCandidate(lib, seed, sequences, data, folds, k) ::
                       !Less(offers[chosen.value].score, o.score))
  {
    var offers := CvOffers(lib, seed, sequences, data, folds, lo, hi);
    CvOffersExactly(lib, seed, sequences, data, folds, lo, hi);
    forall k | lo <= k < hi && CvCandidate(lib, seed, sequences, data, folds, k) != []
      ensures offers != []
    {
      assert CvCandidate(lib, seed, sequences, data, folds, k)[0] in offers;
    }
    if FirstMax(offers).Some? {
      var i := FirstMax(offers).value;
      FirstMaxIsFirst(offers);
      assert offers[i] in offers;
      forall k, o | lo <= k < hi && o in CvCandidate(lib, seed, sequences, data, folds, k)
        ensures !Less(offers[i].score, o.score)
      {
        assert o in offers;
        var j :| 0 <= j < |offers| && offers[j] == o;
      }
    }
  }

  /** With two sequences or fewer there is no split: the offers are exactly the
      models fitted with one of the state counts on the full data and scored on
      that same data, each with that log-likelihood, at most one per state count;
      the training data is left as it was. */
  lemma {:induction false} CvWithoutSplit<M, S>(lib: Library<M, S>, seed: int, sequences: seq<S>, data: seq<S>, folds: seq<Fold>, lo: int, hi: int)
    requires |sequences| <= 2
    decreases hi - lo
    ensures |CvOffers(lib, seed, sequences, data, folds, lo, hi)| <= if lo < hi then hi - lo else 0
    ensures forall o | o in CvOffers(lib, seed, sequences, data, folds, lo, hi) ::
              && o.score.Fin?
              && lib.score(o.item, data) == Some(o.score.value)
              && exists k | lo <= k < hi :: lib.fit(k, seed, data) == Some(o.item)
    ensures forall k, m, v | lo <= k < hi && lib.fit(k, seed, data) == Some(m) && lib.score(m, data) == Some(v) ::
              Scored(m, Fin(v)) in CvOffers(lib, seed, sequences, data, folds, lo, hi)
    ensures CvFinalData(lib, seed, sequences, data, folds, lo, hi) == data
  {
    if lo < hi {
      CvWithoutSplit(lib, seed, sequences, data, folds, lo, hi - 1);
    }
  }

  /** With more than two sequences every candidate goes through the three folds:
      it offers at most three values, and the offers are exactly the fold offers
      of the candidates, whose values and models `CvFoldMean`, `CvFoldHeldOut` and
      `CvFoldOffered` describe. */
  lemma {:induction false} CvWithSplit<M, S>(lib: Library<M, S>, seed: int, sequences: seq<S>, data: seq<S>, folds: seq<Fold>, lo: int, hi: int)
    requires |sequences| > 2 && CvSetup(sequences, folds)
    decreases hi - lo
    ensures |CvOffers(lib, seed, sequences, data, folds, lo, hi)| <= if lo < hi then 3 * (hi - lo) else 0
    ensures forall k, o | lo <= k < hi && o in CvFolds(lib, seed, sequences, folds, k, 3).offers ::
              o in CvOffers(lib, seed, sequences, data, folds, lo, hi)
    ensures forall o | o in CvOffers(lib, seed, sequences, data, folds, lo, hi) ::
              exists k | lo <= k < hi :: o in CvFolds(lib, seed, sequences, folds, k, 3).offers
  {
    if lo < hi {
      CvWithSplit(lib, seed, sequences, data, folds, lo, hi - 1);
    }
    CvOffersExactly(lib, seed, sequences, data, folds, lo, hi);
    forall k, o | lo <= k < hi && o in CvFolds(lib, seed, sequences, folds, k, 3).offers
      ensures o in CvOffers(lib, seed, sequences, data, folds, lo, hi)
    {
      assert o in CvCandidate(lib, seed, sequences, data, folds, k);
    }
    forall o | o in CvOffers(lib, seed, sequences, data, folds, lo, hi)
      ensures exists k | lo <= k < hi :: o in CvFolds(lib, seed, sequences, folds, k, 3).offers
    {
      var k :| lo <= k < hi && o in CvCandidate(lib, seed, sequences, data, folds, k);
      assert o in CvFolds(lib, seed, sequences, folds, k, 3).offers;
    }
    assert forall o | o in CvOffers(lib, seed, sequences, data, folds, lo, hi) ::
             exists k | lo <= k < hi :: o in CvFolds(lib, seed, sequences, folds, k, 3).offers;
  }
}
