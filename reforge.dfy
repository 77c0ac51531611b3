// reforge_imperfect_katana: the user enters, for every line of the perfect
// blade, a new '#' count for the imperfect blade; the imperfect blueprint is
// then rebuilt from its own handle and one new line per accepted count.
// The console is a parameter here: the sequence of entries the user types,
// each either an integer or text that is not one.

module Reforge {
  import opened Blueprint
  import opened Similarity

  /** One line typed at the prompt: an integer, or text `int` rejects. */
  datatype Entry = Number(value: int) | NotANumber

  /** Why a reforge produces no blueprint: the imperfect blueprint has no
      fourth (separator) line, or the user stops typing before every blade
      line has a count. */
  datatype ReforgeError = MissingSeparator | InputExhausted

  datatype Result<T> = Success(value: T) | Failure(error: ReforgeError)

  /** The widest blade line the handle allows: two less than the separator.
      A positive count is accepted exactly when the new blade line it makes is
      narrower than the separator, and some count is accepted exactly when
      the separator is at least three characters long. */
  function MaxWidth(separator: string): (w: int)
    ensures forall c :: 1 <= c ==> (InRange(c, w) <==> |BladeLine(c)| < |separator|)
    ensures InRange(1, w) <==> |separator| >= 3
  {
    |separator| - 2
  }

  /** A typed count is accepted when it lies between 1 and the maximum width. */
  predicate InRange(val: int, maxWidth: int)
  {
    1 <= val <= maxWidth
  }

  /** The hint shown at the prompt of a blade line: as many '#' as the
      perfect line holds. */
  function PromptHint(perfectLine: string): (hint: string)
    ensures CountHash(hint) == CountHash(perfectLine) == |hint|
    ensures forall j :: 0 <= j < |hint| ==> hint[j] == '#'
  {
    var target := CountHash(perfectLine);
    if target > 0 then Hashes(target) else ""
  }

  /** The counts the prompt accepts, in order, out of a sequence of entries:
      the integers in range; everything else is rejected and asked again. */
  function AcceptedCounts(entries: seq<Entry>, maxWidth: int): (counts: seq<int>)
    ensures |counts| <= |entries|
    ensures forall k :: 0 <= k < |counts| ==> InRange(counts[k], maxWidth)
  {
    if entries == [] then []
    else
      var last := entries[|entries| - 1];
      AcceptedCounts(entries[..|entries| - 1], maxWidth)
      + (if last.Number? && InRange(last.value, maxWidth) then [last.value] else [])
  }

  /** A count is accepted from the entries exactly when it was typed and lies
      in range. */
  lemma {:induction false} AcceptedCountsIff(entries: seq<Entry>, maxWidth: int, val: int)
    ensures val in AcceptedCounts(entries, maxWidth)
        <==> Number(val) in entries && InRange(val, maxWidth)
  {
    if entries != [] {
      var init := entries[..|entries| - 1];
      AcceptedCountsIff(init, maxWidth, val);
      assert entries == init + [entries[|entries| - 1]];
    }
  }

  /** Reading fewer entries accepts a prefix of the counts. */
  lemma {:induction false} AcceptedCountsPrefix(entries: seq<Entry>, n: nat, maxWidth: int)
    requires n <= |entries|
    ensures AcceptedCounts(entries[..n], maxWidth) <= AcceptedCounts(entries, maxWidth)
    decreases |entries| - n
  {
    if n < |entries| {
      AcceptedCountsPrefix(entries[..|entries| - 1], n, maxWidth);
      assert entries[..|entries| - 1][..n] == entries[..n];
    } else {
      assert entries[..n] == entries;
    }
  }

  /** The prompting loops: for every line of the perfect blade, entries are
      read until one is an integer in range. Succeeds iff the entries hold
      enough accepted counts, and then returns the first of them, one per
      perfect blade line. */
  method ReadBladeCounts(perfectBlade: seq<string>, maxWidth: int, entries: seq<Entry>)
    returns (counts: seq<int>, ok: bool)
    ensures ok <==> |perfectBlade| <= |AcceptedCounts(entries, maxWidth)|
    ensures ok ==> counts == AcceptedCounts(entries, maxWidth)[..|perfectBlade|]
    ensures ok ==> |counts| == |perfectBlade| && forall k :: 0 <= k < |counts| ==> InRange(counts[k], maxWidth)
  {
    counts := [];
    var pos := 0;
    for idx := 0 to |perfectBlade|
      invariant pos <= |entries|
      invariant counts == AcceptedCounts(entries[..pos], maxWidth)
      invariant |counts| == idx
    {
      var accepted := false;
      while !accepted
        invariant pos <= |entries|
        invariant counts == AcceptedCounts(entries[..pos], maxWidth)
        invariant |counts| == if accepted then idx + 1 else idx
        decreases |entries| - pos
      {
        if pos == |entries| {
          assert entries[..pos] == entries;
          ok := false;
          return;
        }
        var entry := entries[pos];
        assert entries[..pos + 1][..pos] == entries[..pos];
        pos := pos + 1;
        if entry.Number? && InRange(entry.value, maxWidth) {
          counts := counts + [entry.value];
          accepted := true;
        }
      }
    }
    ok := true;
    AcceptedCountsPrefix(entries, pos, maxWidth);
  }

  /** The new blade line for a count: a space, then `'#' * count`. */
  function BladeLine(count: int): (line: string)
    ensures |line| == 1 + (if count <= 0 then 0 else count)
    ensures line[0] == ' ' && forall j :: 1 <= j < |line| ==> line[j] == '#'
    ensures CountHash(line) == if count <= 0 then 0 else count
  {
    var hashes := Hashes(count);
    CountHashConcat([' '], hashes);
    assert CountHash([' ']) == 0;
    [' '] + hashes
  }

  /** The handle followed by one new blade line per count. */
  function Rebuilt(handle: seq<string>, counts: seq<int>): (lines: seq<string>)
    ensures |lines| == |handle| + |counts|
    ensures lines[..|handle|] == handle
    ensures forall k :: 0 <= k < |counts| ==> lines[|handle| + k] == BladeLine(counts[k])
  {
    if counts == [] then handle
    else
      var init := counts[..|counts| - 1];
      var prev := Rebuilt(handle, init);
      var lines := prev + [BladeLine(counts[|counts| - 1])];
      assert lines[..|handle|] == prev[..|handle|];
      assert forall k :: 0 <= k < |init| ==> lines[|handle| + k] == prev[|handle| + k] && init[k] == counts[k];
      lines
  }

  /** The loop that extends the handle with one line per count. */
  method Rebuild(handle: seq<string>, counts: seq<int>) returns (newLines: seq<string>)
    ensures newLines == Rebuilt(handle, counts)
    ensures newLines[..|handle|] == handle && |newLines| == |handle| + |counts|
  {
    newLines := [];
    newLines := newLines + handle;
    for k := 0 to |counts|
      invariant newLines == Rebuilt(handle, counts[..k])
    {
      assert counts[..k + 1][..k] == counts[..k];
      newLines := newLines + [BladeLine(counts[k])];
    }
    assert counts[..|counts|] == counts;
  }

  /** What a reforge produces from the two blueprints and the typed entries. */
  function ReforgeOutcome(perfect: seq<string>, imperfect: seq<string>, entries: seq<Entry>)
    : (r: Result<seq<string>>)
    ensures r == Failure(MissingSeparator) <==> |imperfect| < HandleHeight
    ensures r.Success? <==> |imperfect| >= HandleHeight
                            && |Blade(perfect)| <= |AcceptedCounts(entries, MaxWidth(imperfect[3]))|
    ensures r.Success? ==>
              |r.value| == HandleHeight + |Blade(perfect)|
              && Handle(r.value) == Handle(imperfect)
              && forall k :: 0 <= k < |Blade(perfect)| ==>
                   Blade(r.value)[k] == BladeLine(AcceptedCounts(entries, MaxWidth(imperfect[3]))[k])
                   && CountHash(Blade(r.value)[k]) == AcceptedCounts(entries, MaxWidth(imperfect[3]))[k]
                   && InRange(CountHash(Blade(r.value)[k]), MaxWidth(imperfect[3]))
  {
    if |imperfect| < HandleHeight then Failure(MissingSeparator)
    else
      var maxWidth := MaxWidth(imperfect[3]);
      var accepted := AcceptedCounts(entries, maxWidth);
      var n := |Blade(perfect)|;
      if |accepted| < n then Failure(InputExhausted)
      else
        var counts := accepted[..n];
        var lines := Rebuilt(imperfect[..HandleHeight], counts);
        assert forall k :: 0 <= k < n ==> Blade(lines)[k] == BladeLine(counts[k]);
        Success(lines)
  }

  /** reforge_imperfect_katana without its file and console I/O. */
  method ReforgeKatana(perfect: seq<string>, imperfect: seq<string>, entries: seq<Entry>)
    returns (r: Result<seq<string>>)
    ensures r == ReforgeOutcome(perfect, imperfect, entries)
  {
    if |imperfect| < HandleHeight {
      return Failure(MissingSeparator);
    }
    var handle := imperfect[..HandleHeight];
    var separator := handle[3];
    var maxWidth := |separator| - 2;
    var perfectBlade := if |perfect| <= HandleHeight then [] else perfect[HandleHeight..];
    var counts, ok := ReadBladeCounts(perfectBlade, maxWidth, entries);
    if !ok {
      return Failure(InputExhausted);
    }
    var newLines := Rebuild(handle, counts);
    return Success(newLines);
  }

  /** A reforged blueprint scores exactly 1 if and only if every accepted
      count equals the '#' count of its perfect line. */
  lemma ReforgedScoreOneIff(perfect: seq<string>, imperfect: seq<string>, entries: seq<Entry>)
    requires ReforgeOutcome(perfect, imperfect, entries).Success?
    ensures var lines := ReforgeOutcome(perfect, imperfect, entries).value;
            var counts := AcceptedCounts(entries, MaxWidth(imperfect[3]));
            Score(perfect, lines) == 1.0
            <==> forall k :: 0 <= k < |Blade(perfect)| ==> counts[k] == CountHash(Blade(perfect)[k])
  {
    var lines := ReforgeOutcome(perfect, imperfect, entries).value;
    ScoreOneIff(perfect, lines);
  }

  /** A perfect blade line without any '#' can never be matched, because a
      count of 0 is refused: every reforged blueprint then scores below 1. */
  lemma EmptyTargetLineCapsScore(perfect: seq<string>, imperfect: seq<string>, entries: seq<Entry>, k: nat)
    requires ReforgeOutcome(perfect, imperfect, entries).Success?
    requires k < |Blade(perfect)| && CountHash(Blade(perfect)[k]) == 0
    ensures Score(perfect, ReforgeOutcome(perfect, imperfect, entries).value) < 1.0
  {
    ReforgedScoreOneIff(perfect, imperfect, entries);
  }
}
