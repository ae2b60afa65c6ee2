/** `FuzzyMatcher.find_best_match`: a thresholded arg-max over candidate strings. The similarity
    score `fuzz.ratio` belongs to a foreign library and is a parameter here. */
module FuzzyMatcher {
  import opened Wrappers

  /** A `fuzz.ratio` result: an integer percentage. */
  type Percent = x: int | 0 <= x <= 100

  /** `fuzz.ratio(search_text, candidate) / 100`. */
  function Score(ratio: (string, string) -> Percent, query: string, candidate: string): (s: real)
    ensures 0.0 <= s <= 1.0
  {
    (ratio(query, candidate) as real) / 100.0
  }

  /** A candidate can be chosen: its score reaches the threshold and is positive. */
  predicate Qualifies(ratio: (string, string) -> Percent, query: string, c: string, threshold: real) {
    Score(ratio, query, c) >= threshold && Score(ratio, query, c) > 0.0
  }

  /** The `(best_match, best_ratio)` pair after the loop has seen `cands`. */
  function BestMatch(ratio: (string, string) -> Percent, query: string, cands: seq<string>, threshold: real)
    : (r: (Option<string>, real))
  {
    if cands == [] then (None, 0.0)
    else
      var prev := BestMatch(ratio, query, cands[..|cands| - 1], threshold);
      var c := cands[|cands| - 1];
      var s := Score(ratio, query, c);
      if s > prev.1 && s >= threshold then (Some(c), s) else prev
  }

  method FindBestMatch(ratio: (string, string) -> Percent, query: string, cands: seq<string>, threshold: real)
    returns (best: Option<string>, bestRatio: real)
    ensures (best, bestRatio) == BestMatch(ratio, query, cands, threshold)
  {
    best, bestRatio := None, 0.0;
    var i := 0;
    while i < |cands|
      invariant 0 <= i <= |cands|
      invariant (best, bestRatio) == BestMatch(ratio, query, cands[..i], threshold)
    {
      var s := Score(ratio, query, cands[i]);
      if s > bestRatio && s >= threshold {
        best, bestRatio := Some(cands[i]), s;
      }
      assert cands[..i + 1][..i] == cands[..i];
      i := i + 1;
    }
    assert cands[..i] == cands;
  }

  /** The chosen candidate is one of `cands`, its score is the returned ratio, and it qualifies;
      with no choice the ratio is 0. */
  lemma {:induction false} BestMatchChosen(ratio: (string, string) -> Percent, query: string, cands: seq<string>, threshold: real)
    ensures var r := BestMatch(ratio, query, cands, threshold);
      (r.0.None? ==> r.1 == 0.0)
      && (r.0.Some? ==> r.0.value in cands && r.1 == Score(ratio, query, r.0.value)
                        && Qualifies(ratio, query, r.0.value, threshold))
  {
    if cands != [] {
      BestMatchChosen(ratio, query, cands[..|cands| - 1], threshold);
    }
  }

  /** The returned ratio is a ratio in [0, 1]. */
  lemma BestRatioInRange(ratio: (string, string) -> Percent, query: string, cands: seq<string>, threshold: real)
    ensures 0.0 <= BestMatch(ratio, query, cands, threshold).1 <= 1.0
  {
    BestMatchChosen(ratio, query, cands, threshold);
  }

  /** The returned ratio is at least the score of every qualifying candidate. */
  lemma {:induction false} BestMatchMaximal(ratio: (string, string) -> Percent, query: string, cands: seq<string>, threshold: real)
    ensures forall k :: 0 <= k < |cands| && Score(ratio, query, cands[k]) >= threshold ==>
      Score(ratio, query, cands[k]) <= BestMatch(ratio, query, cands, threshold).1
  {
    if cands != [] {
      var init := cands[..|cands| - 1];
      BestMatchMaximal(ratio, query, init, threshold);
      assert forall k :: 0 <= k < |init| ==> cands[k] == init[k];
    }
  }

  /** No match exactly when no candidate qualifies; the result is then `(None, 0)`. */
  lemma {:induction false} BestMatchNone(ratio: (string, string) -> Percent, query: string, cands: seq<string>, threshold: real)
    ensures BestMatch(ratio, query, cands, threshold).0.None?
      <==> forall k :: 0 <= k < |cands| ==> !Qualifies(ratio, query, cands[k], threshold)
    ensures BestMatch(ratio, query, cands, threshold).0.None? ==> BestMatch(ratio, query, cands, threshold) == (None, 0.0)
  {
    BestMatchChosen(ratio, query, cands, threshold);
    if cands != [] {
      var init := cands[..|cands| - 1];
      BestMatchNone(ratio, query, init, threshold);
      BestMatchChosen(ratio, query, init, threshold);
      assert forall k :: 0 <= k < |init| ==> cands[k] == init[k];
    }
  }

  /** Ties go to the earliest candidate: the choice sits at an index before which no qualifying
      candidate reaches the returned ratio. */
  lemma {:induction false} BestMatchEarliest(ratio: (string, string) -> Percent, query: string, cands: seq<string>, threshold: real)
    requires BestMatch(ratio, query, cands, threshold).0.Some?
    ensures exists i :: (0 <= i < |cands| && cands[i] == BestMatch(ratio, query, cands, threshold).0.value
                         && forall j :: 0 <= j < i ==>
                              !(Score(ratio, query, cands[j]) >= threshold
                                && Score(ratio, query, cands[j]) == BestMatch(ratio, query, cands, threshold).1))
  {
    var n := |cands|;
    var init := cands[..n - 1];
    var prev := BestMatch(ratio, query, init, threshold);
    var s := Score(ratio, query, cands[n - 1]);
    assert forall k :: 0 <= k < |init| ==> cands[k] == init[k];
    if s > prev.1 && s >= threshold {
      BestMatchMaximal(ratio, query, init, threshold);
      assert forall j :: 0 <= j < n - 1 ==>
        !(Score(ratio, query, cands[j]) >= threshold && Score(ratio, query, cands[j]) == s);
    } else {
      BestMatchEarliest(ratio, query, init, threshold);
      var i :| 0 <= i < |init| && init[i] == prev.0.value
        && forall j :: 0 <= j < i ==> !(Score(ratio, query, init[j]) >= threshold && Score(ratio, query, init[j]) == prev.1);
      assert cands[i] == prev.0.value;
    }
  }
}
