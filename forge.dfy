// The decisions of main: the minimum similarity given on the command line
// must lie in [0, 1], and the blacksmith accepts the imperfect katana when
// its score reaches that minimum.

module Forge {
  import opened Blueprint
  import opened Similarity
  import opened Reforge

  /** The outcome of one analysis in main. */
  datatype Verdict = InvalidThreshold | Accepted | Denied

  /** Judge the imperfect blueprint against the perfect one. */
  function Judge(perfect: seq<string>, imperfect: seq<string>, minSimilarity: real): (v: Verdict)
    ensures v == InvalidThreshold <==> minSimilarity < 0.0 || 1.0 < minSimilarity
    ensures v == Accepted <==> 0.0 <= minSimilarity <= 1.0 && Score(perfect, imperfect) >= minSimilarity
    ensures v == Denied <==> 0.0 <= minSimilarity <= 1.0 && Score(perfect, imperfect) < minSimilarity
  {
    if !(0.0 <= minSimilarity <= 1.0) then InvalidThreshold
    else if Score(perfect, imperfect) < minSimilarity then Denied
    else Accepted
  }

  /** A minimum similarity of 0 accepts every katana. */
  lemma ZeroThresholdAccepts(perfect: seq<string>, imperfect: seq<string>)
    ensures Judge(perfect, imperfect, 0.0) == Accepted
  {
  }

  /** A minimum similarity of 1 accepts exactly the katanas whose blade has
      every perfect line's '#' count, line for line. */
  lemma FullThresholdAcceptsExactBlade(perfect: seq<string>, imperfect: seq<string>)
    ensures Judge(perfect, imperfect, 1.0) == Accepted
        <==> |Blade(imperfect)| >= |Blade(perfect)|
             && forall k :: 0 <= k < |Blade(perfect)| ==> CountHash(Blade(perfect)[k]) == CountHash(Blade(imperfect)[k])
  {
    ScoreOneIff(perfect, imperfect);
  }

  /** Lowering a valid minimum keeps an accepted katana accepted. */
  lemma AcceptanceMonotone(perfect: seq<string>, imperfect: seq<string>, low: real, high: real)
    requires 0.0 <= low <= high
    requires Judge(perfect, imperfect, high) == Accepted
    ensures Judge(perfect, imperfect, low) == Accepted
  {
  }

  /** A reforge that types exactly the perfect blade's '#' counts produces a
      katana accepted at every valid minimum. */
  lemma ReforgeToTargetsAccepted(perfect: seq<string>, imperfect: seq<string>, entries: seq<Entry>, minSimilarity: real)
    requires ReforgeOutcome(perfect, imperfect, entries).Success?
    requires forall k :: 0 <= k < |Blade(perfect)| ==>
               AcceptedCounts(entries, MaxWidth(imperfect[3]))[k] == CountHash(Blade(perfect)[k])
    requires 0.0 <= minSimilarity <= 1.0
    ensures Judge(perfect, ReforgeOutcome(perfect, imperfect, entries).value, minSimilarity) == Accepted
  {
    ReforgedScoreOneIff(perfect, imperfect, entries);
  }
}
