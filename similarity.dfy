// The similarity score of get_similarity_score: the blade of an imperfect
// blueprint is compared line by line with the blade of the perfect one, by
// the number of '#' characters per line. Every quantity is a ratio of
// naturals, so the score is an exact `real` here.

module Similarity {
  import opened Blueprint

  function Min(a: nat, b: nat): nat { if a <= b then a else b }

  function Max(a: nat, b: nat): nat { if a <= b then b else a }

  /** Similarity of one pair of blade lines, given their '#' counts:
      1 when both are zero, and min/max otherwise. */
  function LineSimilarity(perfectCount: nat, imperfectCount: nat): (r: real)
    ensures 0.0 <= r <= 1.0
    ensures r == 1.0 <==> perfectCount == imperfectCount
    ensures r == 0.0 <==> (perfectCount == 0) != (imperfectCount == 0)
  {
    if perfectCount == 0 && imperfectCount == 0 then 1.0
    else
      var lo, hi := Min(perfectCount, imperfectCount), Max(perfectCount, imperfectCount);
      assert 0 < hi;
      assert lo < hi ==> (lo as real) / (hi as real) < 1.0;
      (lo as real) / (hi as real)
  }

  /** The similarity of two lines does not depend on which is the perfect one. */
  lemma LineSimilaritySymmetric(p: nat, i: nat)
    ensures LineSimilarity(p, i) == LineSimilarity(i, p)
  {
  }

  /** Sum of the line similarities of the first n pairs of blade lines. */
  function SimSum(perfectBlade: seq<string>, imperfectBlade: seq<string>, n: nat): (s: real)
    requires n <= |perfectBlade| && n <= |imperfectBlade|
    ensures 0.0 <= s <= n as real
  {
    if n == 0 then 0.0
    else
      SimSum(perfectBlade, imperfectBlade, n - 1)
      + LineSimilarity(CountHash(perfectBlade[n - 1]), CountHash(imperfectBlade[n - 1]))
  }

  /** The score: the sum over the pairs that `zip` forms, divided by the
      number of lines of the perfect blade; 1 when that blade is empty. */
  function Score(perfect: seq<string>, imperfect: seq<string>): (r: real)
    ensures 0.0 <= r <= 1.0
    ensures |Blade(perfect)| == 0 ==> r == 1.0
  {
    var pb, ib := Blade(perfect), Blade(imperfect);
    if |pb| == 0 then 1.0
    else
      var s := SimSum(pb, ib, Min(|pb|, |ib|));
      RatioInUnit(s, |pb| as real);
      s / (|pb| as real)
  }

  /** The loop of get_similarity_score, accumulating the line similarities
      of the zipped blade lines. */
  method SimilarityScore(perfectLines: seq<string>, imperfectLines: seq<string>)
    returns (score: real)
    ensures score == Score(perfectLines, imperfectLines)
    ensures 0.0 <= score <= 1.0
  {
    var perfectBlade := if |perfectLines| <= HandleHeight then [] else perfectLines[HandleHeight..];
    var imperfectBlade := if |imperfectLines| <= HandleHeight then [] else imperfectLines[HandleHeight..];
    assert perfectBlade == Blade(perfectLines) && imperfectBlade == Blade(imperfectLines);
    var total := |perfectBlade|;
    if total == 0 {
      return 1.0;
    }
    var simSum := 0.0;
    var pairs := if |perfectBlade| <= |imperfectBlade| then |perfectBlade| else |imperfectBlade|;
    for k := 0 to pairs
      invariant simSum == SimSum(perfectBlade, imperfectBlade, k)
    {
      var pCount := CountHash(perfectBlade[k]);
      var iCount := CountHash(imperfectBlade[k]);
      var lineSim;
      if pCount == 0 && iCount == 0 {
        lineSim := 1.0;
      } else {
        var lo := if pCount <= iCount then pCount else iCount;
        var hi := if pCount <= iCount then iCount else pCount;
        lineSim := (lo as real) / (hi as real);
      }
      simSum := simSum + lineSim;
    }
    score := simSum / (total as real);
  }

  /** Changing any of the first four lines of either blueprint never
      changes the score. */
  lemma ScoreIgnoresHandles(perfect: seq<string>, perfect': seq<string>,
                            imperfect: seq<string>, imperfect': seq<string>)
    requires |perfect| == |perfect'| && |imperfect| == |imperfect'|
    requires forall k :: HandleHeight <= k < |perfect| ==> perfect[k] == perfect'[k]
    requires forall k :: HandleHeight <= k < |imperfect| ==> imperfect[k] == imperfect'[k]
    ensures Score(perfect, imperfect) == Score(perfect', imperfect')
  {
    BladeIgnoresHandle(perfect, perfect');
    BladeIgnoresHandle(imperfect, imperfect');
  }

  /** The sum over n pairs reads only the first n lines of each blade. */
  lemma {:induction false} SimSumReadsPrefix(pb: seq<string>, ib: seq<string>, ib': seq<string>, n: nat)
    requires n <= |pb| && n <= |ib| && n <= |ib'|
    requires ib[..n] == ib'[..n]
    ensures SimSum(pb, ib, n) == SimSum(pb, ib', n)
  {
    if n > 0 {
      assert ib[n - 1] == ib[..n][n - 1] == ib'[n - 1];
      assert ib[..n - 1] == ib[..n][..n - 1];
      assert ib'[..n - 1] == ib'[..n][..n - 1];
      SimSumReadsPrefix(pb, ib, ib', n - 1);
    }
  }

  /** Lines of the imperfect blade beyond the length of the perfect blade
      are ignored by `zip`. */
  lemma ScoreIgnoresExtraLines(perfect: seq<string>, imperfect: seq<string>, extra: seq<string>)
    requires |Blade(imperfect)| >= |Blade(perfect)|
    ensures Score(perfect, imperfect + extra) == Score(perfect, imperfect)
  {
    var pb, ib, ib' := Blade(perfect), Blade(imperfect), Blade(imperfect + extra);
    if |pb| > 0 {
      var n := |pb|;
      assert |ib'| == |ib| + |extra|;
      forall k | 0 <= k < n ensures ib[..n][k] == ib'[..n][k] {
        assert ib'[k] == (imperfect + extra)[HandleHeight + k];
      }
      assert ib[..n] == ib'[..n];
      SimSumReadsPrefix(pb, ib, ib', n);
    }
  }

  /** A perfect blade line with no partner in the imperfect blade adds
      nothing to the sum: a short imperfect blade scores at most its share
      of the perfect blade's lines, so strictly less than 1. */
  lemma ShortBladeScoreBound(perfect: seq<string>, imperfect: seq<string>)
    requires |Blade(imperfect)| < |Blade(perfect)|
    ensures Score(perfect, imperfect) <= (|Blade(imperfect)| as real) / (|Blade(perfect)| as real)
    ensures Score(perfect, imperfect) < 1.0
  {
    var pb, ib := Blade(perfect), Blade(imperfect);
    var s := SimSum(pb, ib, |ib|);
    assert Score(perfect, imperfect) == s / (|pb| as real);
    assert s <= |ib| as real;
    DivideMonotone(s, |ib| as real, |pb| as real);
  }

  lemma DivideMonotone(a: real, b: real, d: real)
    requires a <= b && d > 0.0
    ensures a / d <= b / d
  {
  }

  lemma RatioInUnit(a: real, d: real)
    requires 0.0 <= a <= d && d > 0.0
    ensures 0.0 <= a / d <= 1.0
    ensures a / d == 1.0 <==> a == d
  {
    DivideMonotone(a, d, d);
    assert (a / d) * d == a;
  }

  /** The sum over n pairs reaches n exactly when every pair has the same
      '#' count. */
  lemma {:induction false} SimSumFull(pb: seq<string>, ib: seq<string>, n: nat)
    requires n <= |pb| && n <= |ib|
    ensures SimSum(pb, ib, n) == n as real
        <==> forall k :: 0 <= k < n ==> CountHash(pb[k]) == CountHash(ib[k])
  {
    if n > 0 {
      SimSumFull(pb, ib, n - 1);
      var last := LineSimilarity(CountHash(pb[n - 1]), CountHash(ib[n - 1]));
      assert SimSum(pb, ib, n) == SimSum(pb, ib, n - 1) + last;
      assert SimSum(pb, ib, n - 1) <= (n - 1) as real && last <= 1.0;
    }
  }

  /** The score is exactly 1 if and only if the imperfect blade has at least
      as many lines as the perfect blade and every paired line has the same
      '#' count. */
  lemma ScoreOneIff(perfect: seq<string>, imperfect: seq<string>)
    ensures Score(perfect, imperfect) == 1.0
        <==> |Blade(imperfect)| >= |Blade(perfect)|
             && forall k :: 0 <= k < |Blade(perfect)| ==> CountHash(Blade(perfect)[k]) == CountHash(Blade(imperfect)[k])
  {
    var pb, ib := Blade(perfect), Blade(imperfect);
    if |pb| == 0 {
    } else if |ib| < |pb| {
      ShortBladeScoreBound(perfect, imperfect);
    } else {
      var n := |pb|;
      var s := SimSum(pb, ib, n);
      assert Score(perfect, imperfect) == s / (n as real);
      RatioInUnit(s, n as real);
      SimSumFull(pb, ib, n);
    }
  }
}
