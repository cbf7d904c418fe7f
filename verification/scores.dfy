/** Log-likelihoods and criterion values as Python compares them, and the
    running "keep the best so far" search every selector and the recognizer
    perform. */
module Scores {
  import opened Wrappers

  /** A Python float that is never NaN: a real, or one of the two infinities
      (`float("-inf")` is both a starting best score and the value of a
      failed score). */
  datatype ExtReal = NegInf | Fin(value: real) | PosInf

  /** Python's `<` on such floats. */
  predicate Less(a: ExtReal, b: ExtReal)
  {
    match a
    case NegInf => !b.NegInf?
    case Fin(x) => b.PosInf? || (b.Fin? && x < b.value)
    case PosInf => false
  }

  /** `!Less(a, b)` means `b <= a`, so `a < c` gives `b < c`. */
  lemma NotLessThenLess(a: ExtReal, b: ExtReal, c: ExtReal)
    requires !Less(a, b) && Less(a, c)
    ensures Less(b, c)
  {
  }

  /** `!Less(b, a)` means `a <= b`, so `c < a` gives `c < b`. */
  lemma LessThenNotLess(a: ExtReal, b: ExtReal, c: ExtReal)
    requires !Less(b, a) && Less(c, a)
    ensures Less(c, b)
  {
  }

  /** An item (a fitted model, a word) together with the value it is ranked by. */
  datatype Scored<T> = Scored(item: T, score: ExtReal)

  /** `xs[i]` has a greatest score, and every earlier entry a strictly smaller one. */
  predicate IsFirstMax<T>(xs: seq<Scored<T>>, i: int)
  {
    && 0 <= i < |xs|
    && (forall j | 0 <= j < |xs| :: !Less(xs[i].score, xs[j].score))
    && (forall j | 0 <= j < i :: Less(xs[j].score, xs[i].score))
  }

  /** `xs[i]` has a least score, and every earlier entry a strictly greater one. */
  predicate IsFirstMin<T>(xs: seq<Scored<T>>, i: int)
  {
    && 0 <= i < |xs|
    && (forall j | 0 <= j < |xs| :: !Less(xs[j].score, xs[i].score))
    && (forall j | 0 <= j < i :: Less(xs[i].score, xs[j].score))
  }

  /** The position a left-to-right scan keeps when it replaces its current best
      only by a strictly greater score (Python's `max`, and `if best < s`). */
  function FirstMax<T>(xs: seq<Scored<T>>): (r: Option<nat>)
    ensures r.None? <==> xs == []
    ensures r.Some? ==> r.value < |xs|
  {
    if xs == [] then None
    else
      var n := |xs| - 1;
      match FirstMax(xs[..n])
      case None => Some(n)
      case Some(b) => if Less(xs[b].score, xs[n].score) then Some(n) else Some(b)
  }

  /** The scan's position holds a greatest score, and the first one. */
  lemma {:induction false} FirstMaxIsFirst<T>(xs: seq<Scored<T>>)
    requires xs != []
    ensures IsFirstMax(xs, FirstMax(xs).value)
  {
    var n := |xs| - 1;
    if n > 0 {
      FirstMaxIsFirst(xs[..n]);
      var b := FirstMax(xs[..n]).value;
      assert forall j | 0 <= j < n :: xs[..n][j] == xs[j];
      if Less(xs[b].score, xs[n].score) {
        forall j | 0 <= j < n ensures Less(xs[j].score, xs[n].score) {
          NotLessThenLess(xs[b].score, xs[j].score, xs[n].score);
        }
      }
    }
  }

  /** The position a left-to-right scan keeps when it replaces its current best
      only by a strictly smaller score (`if best > s`). */
  function FirstMin<T>(xs: seq<Scored<T>>): (r: Option<nat>)
    ensures r.None? <==> xs == []
    ensures r.Some? ==> r.value < |xs|
  {
    if xs == [] then None
    else
      var n := |xs| - 1;
      match FirstMin(xs[..n])
      case None => Some(n)
      case Some(b) => if Less(xs[n].score, xs[b].score) then Some(n) else Some(b)
  }

  /** The scan's position holds a least score, and the first one. */
  lemma {:induction false} FirstMinIsFirst<T>(xs: seq<Scored<T>>)
    requires xs != []
    ensures IsFirstMin(xs, FirstMin(xs).value)
  {
    var n := |xs| - 1;
    if n > 0 {
      FirstMinIsFirst(xs[..n]);
      var b := FirstMin(xs[..n]).value;
      assert forall j | 0 <= j < n :: xs[..n][j] == xs[j];
      if Less(xs[n].score, xs[b].score) {
        forall j | 0 <= j < n ensures Less(xs[n].score, xs[j].score) {
          LessThenNotLess(xs[b].score, xs[j].score, xs[n].score);
        }
      }
    }
  }

  /** The item at a chosen position, if there is one. */
  function Chosen<T>(xs: seq<Scored<T>>, r: Option<nat>): Option<T>
  {
    if r.Some? && r.value < |xs| then Some(xs[r.value].item) else None
  }

  /** The item of the last entry, if there is one. */
  function LastItem<T>(xs: seq<Scored<T>>): (r: Option<T>)
    ensures r.None? <==> xs == []
    ensures r.Some? ==> r.value == xs[|xs| - 1].item
  {
    if xs == [] then None else Some(xs[|xs| - 1].item)
  }

  /** A running pair (best score, best item) that agrees with `FirstMax`, starting
      from `float("-inf")` and `None`. */
  ghost predicate TracksMax<T>(xs: seq<Scored<T>>, bestScore: ExtReal, best: Option<T>)
  {
    match FirstMax(xs)
    case None => bestScore == NegInf && best == None
    case Some(i) => bestScore == xs[i].score && best == Some(xs[i].item)
  }

  /** A running pair that agrees with `FirstMin`, starting from `float("inf")`. */
  ghost predicate TracksMin<T>(xs: seq<Scored<T>>, bestScore: ExtReal, best: Option<T>)
  {
    match FirstMin(xs)
    case None => bestScore == PosInf && best == None
    case Some(i) => bestScore == xs[i].score && best == Some(xs[i].item)
  }

  /** Offering one more finite score and replacing the best on `best < s` keeps
      the running pair in step with `FirstMax`. */
  lemma TracksMaxStep<T>(xs: seq<Scored<T>>, bestScore: ExtReal, best: Option<T>, o: Scored<T>)
    requires TracksMax(xs, bestScore, best) && o.score.Fin?
    ensures Less(bestScore, o.score) ==> TracksMax(xs + [o], o.score, Some(o.item))
    ensures !Less(bestScore, o.score) ==> TracksMax(xs + [o], bestScore, best)
  {
    assert (xs + [o])[..|xs|] == xs;
  }

  /** Offering one more finite score and replacing the best on `best > s` keeps
      the running pair in step with `FirstMin`. */
  lemma TracksMinStep<T>(xs: seq<Scored<T>>, bestScore: ExtReal, best: Option<T>, o: Scored<T>)
    requires TracksMin(xs, bestScore, best) && o.score.Fin?
    ensures Less(o.score, bestScore) ==> TracksMin(xs + [o], o.score, Some(o.item))
    ensures !Less(o.score, bestScore) ==> TracksMin(xs + [o], bestScore, best)
  {
    assert (xs + [o])[..|xs|] == xs;
  }

  /** The running pair's item is the one `FirstMax` chooses. */
  lemma TracksMaxChosen<T>(xs: seq<Scored<T>>, bestScore: ExtReal, best: Option<T>)
    requires TracksMax(xs, bestScore, best)
    ensures best == Chosen(xs, FirstMax(xs))
  {
  }

  /** The running pair's item is the one `FirstMin` chooses. */
  lemma TracksMinChosen<T>(xs: seq<Scored<T>>, bestScore: ExtReal, best: Option<T>)
    requires TracksMin(xs, bestScore, best)
    ensures best == Chosen(xs, FirstMin(xs))
  {
  }
}
