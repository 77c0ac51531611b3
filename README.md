# Katana blueprint forging, modelled in Dafny

`japan.py` compares an imperfect katana blueprint with a master blacksmith's
perfect one. A blueprint is a list of text lines. The first four lines are the
handle, and the fourth of them is the separator between handle and blade. Every
later line is one line of the blade, and its width is the number of `'#'`
characters it holds. The program does three things:

- It computes a similarity score between the two blades.
- It accepts the katana when the score reaches a minimum similarity given on the
  command line. That minimum must lie in [0, 1].
- Otherwise it lets the user reforge the blade. The user types one `'#'` count
  per perfect blade line, and the blueprint is rewritten as its own handle
  followed by one new line per count.

The model lifts the arithmetic and string handling out of these I/O functions.

- `blueprint.dfy`, module `Blueprint`: handle and blade slicing (`lines[:4]`,
  `lines[4:]`), `'#'` counting, and `'#' * n`.
- `similarity.dfy`, module `Similarity`: `get_similarity_score`. The
  `LineSimilarity`, `SimSum` and `Score` functions are the specification. The
  method `SimilarityScore` is the source's accumulating loop, proved equal to
  `Score`.
- `reforge.dfy`, module `Reforge`: `reforge_imperfect_katana`.
  - The maximum width, the accepted-count rule (`InRange`), the prompt hint and
    the filter of accepted counts (`AcceptedCounts`) are functions.
  - The prompting loops (with the typed lines given as a parameter) and the
    rebuilding of the blueprint are methods, proved against `AcceptedCounts`
    and `Rebuilt`.
  - `ReforgeKatana` is the whole procedure, proved against `ReforgeOutcome`.
- `forge.dfy`, module `Forge`: the threshold range check and the
  accept/deny decision of `main`.

Scores are exact `real` numbers. The source computes them as Python floats.

## Model

| member | source | states |
|---|---|---|
| `Blueprint.CountHash` | JAPAN/japan.py:62-63 | the `'#'` count of a line is at most its length, and it is 0 exactly when the line has no `'#'` |
| `Blueprint.CountHashConcat` | JAPAN/japan.py:125 | counting `'#'` in a concatenation adds the counts of the two parts |
| `Blueprint.Hashes` | JAPAN/japan.py:125 | `'#' * n` has length n, or 0 when n <= 0, and consists only of `'#'`, so its count is its length |
| `Blueprint.Handle` | JAPAN/japan.py:89 | `lines[:4]` is a prefix of the blueprint with min(4, len) lines |
| `Blueprint.Blade` | JAPAN/japan.py:52-53 | `lines[4:]` has max(len - 4, 0) lines, and blade line k is blueprint line 4 + k |
| `Blueprint.HandleBladeSplit` | JAPAN/japan.py:89-93 | handle followed by blade gives back the whole blueprint |
| `Blueprint.BladeIgnoresHandle` | JAPAN/japan.py:51-53 | blueprints of the same length that agree from line 4 on have the same blade |
| `Similarity.LineSimilarity` | JAPAN/japan.py:64-67 | line similarity lies in [0, 1]; it is 1 iff the two counts are equal; it is 0 iff exactly one count is 0 |
| `Similarity.LineSimilaritySymmetric` | JAPAN/japan.py:67 | line similarity is symmetric in the two counts |
| `Similarity.SimSum` | JAPAN/japan.py:60-68 | the sum over n pairs lies in [0, n] |
| `Similarity.Score` | JAPAN/japan.py:55-70 | the score lies in [0, 1], and it is exactly 1 when the perfect blade is empty |
| `Similarity.SimilarityScore` | JAPAN/japan.py:51-70 | the accumulating loop over the zipped blade lines returns `Score`, a value in [0, 1] |
| `Similarity.ScoreIgnoresHandles` | JAPAN/japan.py:51-53 | changing any of the first four lines of either blueprint never changes the score |
| `Similarity.SimSumReadsPrefix` | JAPAN/japan.py:61 | the sum over n pairs depends only on the first n imperfect blade lines |
| `Similarity.ScoreIgnoresExtraLines` | JAPAN/japan.py:61 | lines appended after an imperfect blade at least as long as the perfect blade leave the score unchanged |
| `Similarity.ShortBladeScoreBound` | JAPAN/japan.py:61-70 | perfect lines with no imperfect partner add 0, so a shorter imperfect blade scores at most len(imperfect blade) / len(perfect blade), which is below 1 |
| `Similarity.SimSumFull` | JAPAN/japan.py:60-68 | the sum over n pairs equals n iff every pair has equal `'#'` counts |
| `Similarity.ScoreOneIff` | JAPAN/japan.py:56-70 | the score is 1 iff the imperfect blade is at least as long and every paired line has the same `'#'` count |
| `Reforge.MaxWidth` | JAPAN/japan.py:90-91 | a positive count is accepted exactly when the new blade line it makes is narrower than the separator; some count is accepted exactly when the separator has at least 3 characters |
| `Reforge.PromptHint` | JAPAN/japan.py:103-105 | the hint is all `'#'`, as many as the perfect line holds |
| `Reforge.AcceptedCounts` | JAPAN/japan.py:106-119 | every count the prompt accepts lies in [1, max width], and there are no more of them than typed lines |
| `Reforge.AcceptedCountsIff` | JAPAN/japan.py:109-118 | a value is accepted iff it was typed as an integer and satisfies `InRange`, the range test of line 115: 1 <= value <= max width |
| `Reforge.AcceptedCountsPrefix` | JAPAN/japan.py:106-119 | reading fewer typed lines accepts a prefix of the counts, in the same order |
| `Reforge.ReadBladeCounts` | JAPAN/japan.py:101-119 | the prompting loops succeed iff the typed lines hold at least one accepted count per perfect blade line; they then return the first such counts, one per line, each in range |
| `Reforge.BladeLine` | JAPAN/japan.py:125 | a new blade line is a space followed by exactly `cnt` `'#'` and nothing else (no `'#'` when `cnt` <= 0), so its `'#'` count is `cnt` |
| `Reforge.Rebuilt` | JAPAN/japan.py:122-125 | the rebuilt blueprint keeps the handle as its prefix, has len(handle) + len(counts) lines, and line len(handle) + k is the blade line for count k |
| `Reforge.Rebuild` | JAPAN/japan.py:122-125 | the appending loop produces `Rebuilt(handle, counts)` |
| `Reforge.ReforgeOutcome` | JAPAN/japan.py:88-125 | a reforge fails (IndexError) iff the imperfect blueprint has fewer than 4 lines. Otherwise it succeeds iff enough counts are accepted. On success the handle is unchanged, there are 4 + len(perfect blade) lines, and blade line k is `BladeLine` of the k-th accepted count: a space followed by that many `'#'`, a count in [1, max width] |
| `Reforge.ReforgeKatana` | JAPAN/japan.py:88-125 | the reforge procedure, without file and console I/O, returns `ReforgeOutcome` |
| `Reforge.ReforgedScoreOneIff` | JAPAN/japan.py:115-125 | a reforged blueprint scores 1 iff every accepted count equals the `'#'` count of its perfect line |
| `Reforge.EmptyTargetLineCapsScore` | JAPAN/japan.py:103-118 | when a perfect blade line has no `'#'`, every reforged blueprint scores below 1, because a count of 0 is refused |
| `Forge.Judge` | JAPAN/japan.py:173-191 | a threshold outside [0, 1] is refused; otherwise the katana is accepted iff score >= threshold, and denied iff score < threshold |
| `Forge.ZeroThresholdAccepts` | JAPAN/japan.py:187-191 | a threshold of 0 accepts every katana |
| `Forge.FullThresholdAcceptsExactBlade` | JAPAN/japan.py:187-191 | a threshold of 1 accepts exactly the blades that match every perfect line's `'#'` count, line for line |
| `Forge.AcceptanceMonotone` | JAPAN/japan.py:187 | lowering a valid threshold keeps an accepted katana accepted |
| `Forge.ReforgeToTargetsAccepted` | JAPAN/japan.py:194-203 | after a reforge whose accepted counts are the perfect line counts, the katana is accepted at every valid threshold |

## Left out

- File reading and writing, the stripping of `'\n'`, and `print_katana` are I/O (japan.py:18-27, 45-49, 83-86, 128-136). Blueprints are given as sequences of lines.
- The console is not modelled. The lines the user types are a parameter of `ReadBladeCounts`. Each is either an integer (`Entry.Number`) or text that `int()` rejects (`Entry.NotANumber`). Parsing the text itself (`strip`, `int`) is not modelled.
- `ReadBladeCounts`: when the typed lines run out before every blade line has a count, the model returns `InputExhausted`. Python's `input()` would raise `EOFError` there. The source has no explicit handling for this case.
- Printing is not modelled: the messages, the katana details, and the prompt text around the hint. Only the hint's `'#'` string (`PromptHint`) is modelled. The `yes`/`no` question that follows a reforge is not modelled either.
- Command-line handling in `main` is not modelled: the argument count, the `.bp` extension, `float()` parsing of the threshold, and the `os.path.exists` check (japan.py:148-171). Only the range check at line 174 is modelled. NaN and infinite thresholds do not exist in the model.
- The reforge `while` loop of `main` (japan.py:194-203) is not modelled as a loop. It runs until user input makes the score reach the threshold, so nothing can be said about its termination. `ReforgeToTargetsAccepted` states what one round achieves when the user types the target counts.
- `Score` is exact. Float rounding of the ratios and of the average, and the `:.2f` formatting, are not modelled (japan.py:67, 70, 184).
