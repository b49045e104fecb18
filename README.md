# Plagiarism checker core: normalizer and edit-distance score

A Dafny model of the comparison core of a plagiarism checker for Python
source files (`compare.py`). Each file is cleaned in three stages: comments
are removed, then triple-quoted docstrings, then spaces and newlines. The two
cleaned texts are then scored by `1 - d / max(len1, len2)`, where `d` is
their Levenshtein distance.

- `strings.dfy` (module `Strings`): the Python built-ins the cleaning stages
  are written with. These are `str.startswith`, `str.replace` and `str.split`
  (left-to-right, non-overlapping), `"".join` and the stride slices `[::2]`
  and `[1::2]`. `sep.join` is added only to state split's round trip. Their
  properties are proved here: split and join round-trip, no piece holds the
  separator, and replace keeps the length when the replacement is as long as
  the pattern.
- `levenshtein.dfy` (module `Levenshtein`): `Lev` is the recurrence the
  table follows. `LevenshteinDistance` is the imperative table-filling
  method over an `array2<nat>`, with its inner loop in `FillRow`. The method
  is proved to return `Lev`. The metric facts are proved about `Lev`:
  identity, symmetry, bounds and the triangle inequality. A lemma also shows
  that `Lev` agrees with the textbook recurrence.
- `docstring.dfy` (module `Docstring`): `RemoveDocstring` is
  `remove_docstring` as written. `StripDocstrings` is the corrected stage
  (see Findings).
- `spaces.dfy` (module `Spaces`): `RemoveSpaces` is built from the two
  `replace` calls. It is proved equal to a filter (`Keep`) that drops exactly
  `' '` and `'\n'`.
- `compare.dfy` (module `Compare`): `Clear` and the `Compare` method. The
  score is a `Similarity(distance, longest)` whose value is
  `(longest - distance) / longest`.

## Model

| member | source | states |
|---|---|---|
| `Levenshtein.LevenshteinDistance` | compare.py:6-25 | the table's final cell equals the recursive distance `Lev(text1, text2)`; loop invariants say each seeded or filled cell holds `Lev` of the two prefixes |
| `Levenshtein.FillRow` | compare.py:17-23 | the inner loop fills row `i` with the prefix distances (diagonal on a match, otherwise 1 + min of the three neighbours) and leaves every other row unchanged |
| `Levenshtein.LevOfPrefixes` | compare.py:18-23 | proof step for `FillRow`: `Lev` restated on the prefixes `s[..i]`, `t[..j]`, giving the cell rule (diagonal on a match, otherwise 1 + min of delete, insert and substitute) |
| `Levenshtein.LevEmpty` | compare.py:11-14 | the distance between `""` and `s` is `len(s)`, in both argument orders |
| `Levenshtein.LevSelf` | compare.py:16-23 | `Lev(a, a) == 0` |
| `Levenshtein.LevSymmetric` | compare.py:16-23 | `Lev(a, b) == Lev(b, a)` |
| `Levenshtein.LevBounds` | compare.py:16-25 | `abs(len(a) - len(b)) <= Lev(a, b) <= max(len(a), len(b))` |
| `Levenshtein.LevZeroIff` | compare.py:16-25 | the distance is 0 if and only if the strings are equal |
| `Levenshtein.LevExtendFirst` | compare.py:16-23 | appending a character to the first string raises the distance by at most one |
| `Levenshtein.LevTrimSecond` | compare.py:16-23 | dropping the last character of the second string raises the distance by at most one |
| `Levenshtein.LevNeighbours` | compare.py:16-23 | adding or removing one character at the end of either string changes the distance by at most one, in both directions |
| `Levenshtein.LevMatchStep` | compare.py:18-19 | on a match, taking the diagonal cell equals taking the least of all three moves |
| `Levenshtein.LevMismatchStep` | compare.py:20-23 | proof step for `LevRecurrence`: on a mismatch, `Lev` is the least of the three neighbours each plus one |
| `Levenshtein.LevRecurrence` | compare.py:18-23 | the table's value is at most each of delete + 1, insert + 1 and diagonal + cost, and equals one of them: the textbook Levenshtein recurrence |
| `Levenshtein.LevTriangle` | compare.py:16-25 | triangle inequality `Lev(a, c) <= Lev(a, b) + Lev(b, c)` |
| `Strings.Split` | compare.py:31 | `split` always yields at least one piece, and the first piece is a prefix of the text |
| `Strings.EvenIndexed` | compare.py:32 | `xs[::2]` has `(len + 1) / 2` elements, and its element `k` is `xs[2k]` |
| `Strings.OddIndexed` | compare.py:32 | `xs[1::2]` has `len / 2` elements, and its element `k` is `xs[2k + 1]` |
| `Strings.SplitJoin` | compare.py:31 | `sep.join(s.split(sep)) == s` |
| `Strings.SplitPiecesFree` | compare.py:31 | no piece of `s.split(sep)` contains `sep` |
| `Strings.SplitAbsent` | compare.py:31 | a text without the separator splits into itself alone |
| `Strings.SplitAppend` | compare.py:31 | a first piece with no character that can start the separator is split off at the separator after it |
| `Strings.ReplaceAbsent` | compare.py:30 | replacing a pattern that does not occur leaves the text unchanged |
| `Strings.ReplaceSameLength` | compare.py:30 | replacing by a string of the pattern's length keeps the text's length |
| `Strings.ReplaceAppendPlain` | compare.py:30 | a prefix that cannot start the pattern passes through `replace` unchanged |
| `Strings.ReplaceAppendPattern` | compare.py:30 | a leading occurrence is replaced and scanning resumes after it |
| `Strings.JoinStrideLength` | compare.py:32-33 | the joined even-indexed and odd-indexed pieces together are as long as all pieces joined |
| `Strings.JoinWithLonger` | compare.py:31-33 | joining with a separator is never shorter than joining without one |
| `Docstring.SegmentsRebuild` | compare.py:30-31 | the pieces rejoined with `"""` give the text with `'''` rewritten; that text is as long as the original; no piece holds `"""` |
| `Docstring.RemoveDocstringKeeps` | compare.py:30-33 | `remove_docstring` joins pieces 0, 2, 4, … if the ORIGINAL text starts with `"""`, and pieces 1, 3, 5, … otherwise |
| `Docstring.RemoveDocstringNoMarkers` | compare.py:30-33 | a text with neither `"""` nor `'''` becomes `""` |
| `Docstring.RemoveDocstringShorter` | compare.py:30-33 | the output is never longer than the input |
| `Docstring.MarkerRewritten` | compare.py:30 | either marker comes out of the rewrite as `"""` |
| `Docstring.NormalizeAfterOpen` | compare.py:30 | the docstring body, a closing marker of either kind and the code after it are rewritten to the body, `"""` and that code (when the body and the code after it contain no quote character) |
| `Docstring.NormalizeOneRegion` | compare.py:30 | a text with one region opened and closed by markers of either kind is rewritten to use `"""` for both (when the code, the docstring and the code after it contain no quote character) |
| `Docstring.SegmentsOneRegion` | compare.py:30-31 | such a text splits into exactly `[code, doc, rest]` (when the code, the docstring and the code after it contain no quote character) |
| `Docstring.StartsOneRegion` | compare.py:32 | such a text starts with `"""` exactly when the code before the region is empty and the region opens with `"""`, not `'''` |
| `Docstring.RemoveDocstringOneRegion` | compare.py:30-33 | as written, for `code + open + doc + close + rest` (when the code, the docstring and the code after it contain no quote character), the result is `rest` when the text opens with `"""`; in every other case it is the docstring body `doc` |
| `Docstring.StripDocstringsOneRegion` | compare.py:30-33 | corrected: for `code + open + doc + close + rest` (when the code, the docstring and the code after it contain no quote character), the result is `code + rest` whichever marker opens and closes the region and whether or not `code` is empty |
| `Docstring.StripDocstringsNoMarkers` | compare.py:30-33 | corrected: a text without markers is returned unchanged |
| `Docstring.StripDocstringsShorter` | compare.py:30-33 | corrected: the output is never longer than the input |
| `Spaces.ReplaceCharCons` | compare.py:49 | `replace(c, "")` moves past one character at a time and drops it exactly when it is `c` |
| `Spaces.KeepRemovesExactly` | compare.py:49 | the filter is no longer than its input and holds no `' '` or `'\n'`; every other character (tab included) keeps its count |
| `Spaces.RemoveSpacesIsKeep` | compare.py:49 | the two `replace` calls equal the order-preserving filter that drops exactly `' '` and `'\n'` |
| `Spaces.KeepUnchanged` | compare.py:49 | a text with no space and no newline passes through the filter unchanged |
| `Spaces.RemoveSpacesIdempotent` | compare.py:49 | applying `remove_spaces` twice equals applying it once |
| `Spaces.RemoveSpacesRemovesExactly` | compare.py:49 | the output is never longer than the input and holds no `' '` or `'\n'`; every other character keeps its count |
| `Spaces.RemoveSpacesKeepsTab` | compare.py:49 | `"a\tb c\n"` becomes `"a\tbc"`: the tab survives |
| `Compare.ClearCanonical` | compare.py:52-54 | `clear` (and its corrected form) never lengthens the text and leaves no space or newline |
| `Compare.Score` | compare.py:61-62 | needs `max(len1, len2) > 0`; the distance is `Lev`; `0 <= max - d <= max`, so `1 - d/max` lies in [0, 1]; the score is 1 exactly when the cleaned texts are equal |
| `Compare.Compare` | compare.py:57-62 | `compare` on `clear` of both texts: defined only when a cleaned text is non-empty; the score lies in [0, 1] and is 1 exactly when the cleaned texts are equal |
| `Compare.CompareCorrected` | compare.py:57-62 | the same score on the corrected `clear` |
| `Compare.CompareUndefinedWithoutDocstrings` | compare.py:57-62 | as written, two texts without any triple quote both clean to `""`, so the denominator at line 62 is 0 |
| `Compare.ClearPlainCode` | compare.py:28-33 | as written, `x = 1\n` cleans to `""` |
| `Compare.ClearKeepsDocstring` | compare.py:52-54 | as written, a text with one docstring that does not open with `"""` cleans to its docstring body alone, spaces removed (when the code, the docstring and the code after it contain no quote character) |
| `Compare.ClearKeepsDocstringSpacing` | compare.py:52-54 | as written, two texts with the same code and markers around a docstring that does not open the text with `"""` clean to the same text exactly when their docstrings agree once spaces and newlines are removed (when the code, the docstrings and the code after them contain no quote character) |
| `Compare.ClearLeadingDocstring` | compare.py:52-54 | a text opening with a `"""` docstring cleans to the code after it, spaces removed (when the docstring and the code after it contain no quote character) |
| `Compare.ClearModuleDocstring` | compare.py:52-54 | `"""module doc"""\nx = 1\n` cleans to `x=1` |
| `Compare.SpacesOfAssignment` | compare.py:49 | `"\nx = 1\n"` becomes `"x=1"` |
| `Compare.ClearNotIdempotent` | compare.py:52-54 | as written, the cleaned text `x=1` cleans again to `""`, so cleaning is not stable |
| `Compare.ClearIgnoresLeadingDocstring` | compare.py:52-54 | as written, two texts that open with a `"""` docstring and share the code after it clean to the same text, so they score 1 when that cleaned text is non-empty (when the docstrings and that code contain no quote character) |
| `Compare.ClearCorrectedNoMarkers` | compare.py:52-54 | corrected: a text without markers cleans to itself minus spaces and newlines |
| `Compare.ClearCorrectedIgnoresDocstring` | compare.py:52-54 | corrected: two texts that differ only in one docstring and its markers clean to the same text, so they score 1 when that cleaned text is non-empty (when the code, the docstring and the code after it contain no quote character) |

## Findings

| source | as written | input that shows it | evidently intended | confidence | as-written member | corrected member |
|---|---|---|---|---|---|---|
| compare.py:32 | when the text does not start with `"""`, `[1::2]` keeps the pieces inside the markers and drops the code; a text that starts with `'''` takes this branch too | `x = 1\n"""doc"""\ny = 2\n` gives `doc`; `'''doc'''\nx = 1\n` gives `doc` | keep pieces 0, 2, 4, … in every case: a leading marker already yields an empty first piece | high (not executed) | `Docstring.RemoveDocstringOneRegion` | `Docstring.StripDocstringsOneRegion` |
| compare.py:32, 62 | a text with no triple quote cleans to `""`, so comparing two such files divides by zero | `x = 1\n` against `y = 2\n` | a text without docstrings keeps its code and gets a score | high (not executed) | `Compare.CompareUndefinedWithoutDocstrings` | `Compare.ClearCorrectedNoMarkers` |

`Compare` and `Clear` model the code as written. `CompareCorrected` and
`ClearCorrected` run the same pipeline with `StripDocstrings` in place of
`RemoveDocstring`.

Behaviour of the code that the model keeps:
- Python slicing never fails, so an odd number of markers has no error
  branch. The trailing text of an unterminated region falls on one side of
  the parity.
- Line 62 divides by zero when both cleaned texts are empty, so `Compare`
  requires `max(len1, len2) > 0`.
- Cleaning is not stable as written. The cleaned text `x=1` cleans again to
  `""` (`ClearNotIdempotent`).
- As written, two files that differ only in a docstring score 1 when both
  open with a `"""` docstring (`ClearIgnoresLeadingDocstring`). A docstring
  after code, or one opened with `'''`, is all that is left of the text
  (`ClearKeepsDocstring`). So as written such files score 1 only when their
  two docstrings agree once spaces and newlines are removed
  (`ClearKeepsDocstringSpacing`). With the corrected stage they always score 1
  (`ClearCorrectedIgnoresDocstring`). In every case the cleaned text must be
  non-empty, or line 62 divides by zero.
- The one-region lemmas assume that the code, the docstring and the code
  after it contain no quote character. They do not cover files with
  ordinary string literals.

## Left out

- `remove_comments` (compare.py:36-44) depends on Python's `tokenize`
  module: token classification, INDENT/DEDENT strings and the whitespace the
  tokenizer drops. `Clear` takes the comment-free text as its input and
  places no constraint on it.
- The command-line driver (compare.py:65-83): argument parsing, file
  opening, exclusive-create output mode, manifest splitting and `:.2f`
  formatting are all I/O.
- Floating-point division at compare.py:62. The score is kept as the integer
  pair `Similarity(distance, longest)`, and its value is
  `(longest - distance) / longest`.
- The `io.TextIOWrapper` parameters. Inputs are `string` (`seq<char>`).
- Python's `replace` and `split` with an empty pattern. `Replace` and `Split`
  require a non-empty pattern, and the source only uses non-empty ones.
- The table is a Dafny `array2<nat>` rather than a list of row lists. No row
  is shared, so aliasing does not arise. `table[-1][-1]` is read as
  `table[m, n]`.
- The concrete case `kitten`/`sitting` at distance 3 is not stated.
  Unfolding the exponential recurrence on literals is beyond what the
  verifier evaluates. The general metric lemmas are proved instead.
