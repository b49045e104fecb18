/** Docstring removal, the middle stage of the normalizer. The alternate
    marker `'''` is first rewritten to `"""`, the text is split on `"""`, and
    every other piece is kept. */
module Docstring {
  import opened Strings

  /** A text that holds neither quote character, so no marker can start in it. */
  predicate QuoteFree(s: string) {
    '"' !in s && '\'' !in s
  }

  /** A triple-quote marker, in either spelling. */
  predicate IsMarker(m: string) {
    m == TripleDouble || m == TripleSingle
  }

  /** The pieces of `text` between markers, after `'''` is rewritten to `"""`. */
  function Segments(text: string): (pieces: seq<string>) {
    Split(Replace(text, TripleSingle, TripleDouble), TripleDouble)
  }

  /** The pieces `remove_docstring` keeps: those at even indices when the
      ORIGINAL text starts with `"""`, and those at odd indices otherwise
      (including when it starts with `'''`). */
  function KeptSegments(text: string): (kept: seq<string>) {
    if StartsWith(text, TripleDouble) then EvenIndexed(Segments(text)) else OddIndexed(Segments(text))
  }

  /** `remove_docstring(text)` as written. */
  function RemoveDocstring(text: string): (r: string) {
    Join(KeptSegments(text))
  }

  /** The corrected stage: the pieces outside triple-quoted regions are those
      at even indices whether or not the text starts with a marker (a leading
      marker yields an empty first piece), so they are always the ones kept. */
  function StripDocstrings(text: string): (r: string) {
    Join(EvenIndexed(Segments(text)))
  }

  /** The pieces put back together with `"""` give the marker-normalized
      text, which is as long as the original, and no piece holds a marker. */
  lemma SegmentsRebuild(text: string)
    ensures JoinWith(Segments(text), TripleDouble) == Replace(text, TripleSingle, TripleDouble)
    ensures |Replace(text, TripleSingle, TripleDouble)| == |text|
    ensures forall i :: 0 <= i < |Segments(text)| ==> !Occurs(Segments(text)[i], TripleDouble)
  {
    var normalized := Replace(text, TripleSingle, TripleDouble);
    SplitJoin(normalized, TripleDouble);
    SplitPiecesFree(normalized, TripleDouble);
    ReplaceSameLength(text, TripleSingle, TripleDouble);
  }

  /** `remove_docstring` keeps pieces 0, 2, 4, ... when the original text
      starts with `"""` and pieces 1, 3, 5, ... otherwise. */
  lemma RemoveDocstringKeeps(text: string)
    ensures var segments := Segments(text);
            var first := if StartsWith(text, TripleDouble) then 0 else 1;
            var kept := KeptSegments(text);
            |kept| == (|segments| + 1 - first) / 2 &&
            (forall k :: 0 <= k < |kept| ==> kept[k] == segments[2 * k + first]) &&
            RemoveDocstring(text) == Join(kept)
  {
  }

  /** A text with no marker of either kind is removed entirely. */
  lemma RemoveDocstringNoMarkers(text: string)
    requires !Occurs(text, TripleDouble) && !Occurs(text, TripleSingle)
    ensures RemoveDocstring(text) == ""
  {
    ReplaceAbsent(text, TripleSingle, TripleDouble);
    SplitAbsent(text, TripleDouble);
  }

  /** `remove_docstring` never lengthens its input. */
  lemma RemoveDocstringShorter(text: string)
    ensures |RemoveDocstring(text)| <= |text|
  {
    var segments := Segments(text);
    SegmentsRebuild(text);
    JoinWithLonger(segments, TripleDouble);
    JoinStrideLength(segments);
  }

  /** Rewriting `'''` to `"""` after the opening marker of a region. */
  lemma NormalizeAfterOpen(doc: string, close: string, rest: string)
    requires QuoteFree(doc) && QuoteFree(rest) && IsMarker(close)
    ensures Replace(doc + (close + rest), TripleSingle, TripleDouble) == doc + (TripleDouble + rest)
  {
    AbsentCharNoOccurrence(rest, TripleSingle);
    ReplaceAbsent(rest, TripleSingle, TripleDouble);
    MarkerRewritten(close, rest);
    ReplaceAppendPlain(doc, close + rest, TripleSingle, TripleDouble);
  }

  /** Rewriting `'''` to `"""` across a text with one triple-quoted region. */
  lemma NormalizeOneRegion(code: string, open: string, doc: string, close: string, rest: string)
    requires QuoteFree(code) && QuoteFree(doc) && QuoteFree(rest)
    requires IsMarker(open) && IsMarker(close)
    ensures Replace(code + (open + (doc + (close + rest))), TripleSingle, TripleDouble)
         == code + (TripleDouble + (doc + (TripleDouble + rest)))
  {
    NormalizeAfterOpen(doc, close, rest);
    MarkerRewritten(open, doc + (close + rest));
    ReplaceAppendPlain(code, open + (doc + (close + rest)), TripleSingle, TripleDouble);
  }

  /** Either marker is rewritten to `"""`, and scanning resumes after it. */
  lemma MarkerRewritten(m: string, y: string)
    requires IsMarker(m)
    ensures Replace(m + y, TripleSingle, TripleDouble) == TripleDouble + Replace(y, TripleSingle, TripleDouble)
  {
    if m == TripleSingle {
      ReplaceAppendPattern(y, TripleSingle, TripleDouble);
    } else {
      assert TripleSingle[0] !in TripleDouble;
      ReplaceAppendPlain(TripleDouble, y, TripleSingle, TripleDouble);
    }
  }

  /** A text with one triple-quoted region falls into exactly three pieces. */
  lemma SegmentsOneRegion(code: string, open: string, doc: string, close: string, rest: string)
    requires QuoteFree(code) && QuoteFree(doc) && QuoteFree(rest)
    requires IsMarker(open) && IsMarker(close)
    ensures Segments(code + open + doc + close + rest) == [code, doc, rest]
  {
    var t := code + open + doc + close + rest;
    assert t == code + (open + (doc + (close + rest)));
    NormalizeOneRegion(code, open, doc, close, rest);
    var tail := doc + TripleDouble + rest;
    var normalized := code + TripleDouble + tail;
    assert Replace(t, TripleSingle, TripleDouble) == normalized;
    SplitAppend(code, TripleDouble, tail);
    SplitAppend(doc, TripleDouble, rest);
    AbsentCharNoOccurrence(rest, TripleDouble);
    SplitAbsent(rest, TripleDouble);
    assert Split(normalized, TripleDouble) == [code] + ([doc] + [rest]);
  }

  /** Whether a text with one triple-quoted region starts with `"""`. */
  lemma StartsOneRegion(code: string, open: string, doc: string, close: string, rest: string)
    requires QuoteFree(code) && IsMarker(open)
    ensures StartsWith(code + open + doc + close + rest, TripleDouble) <==> code == "" && open == TripleDouble
  {
    var t := code + open + doc + close + rest;
    if code != "" {
      assert t[0] == code[0];
      assert code[0] in code;
      assert t[0] != TripleDouble[0];
    } else {
      assert t == open + (doc + close + rest);
      assert t[..3] == open;
    }
  }

  /** The kept pieces of three, joined. */
  lemma JoinThree(x: string, y: string, z: string)
    ensures Join(EvenIndexed([x, y, z])) == x + z
    ensures Join(OddIndexed([x, y, z])) == y
  {
    assert EvenIndexed([x, y, z]) == [x, z];
    assert OddIndexed([x, y, z]) == [y];
    assert [x, z][1..] == [z];
    assert [z][1..] == [];
    assert Join([z]) == z + Join([]);
    assert [y][1..] == [];
  }

  /** As written, `remove_docstring` on code, one docstring and more code
      keeps only the docstring, unless the text opens with `"""`. */
  lemma RemoveDocstringOneRegion(code: string, open: string, doc: string, close: string, rest: string)
    requires QuoteFree(code) && QuoteFree(doc) && QuoteFree(rest)
    requires IsMarker(open) && IsMarker(close)
    ensures RemoveDocstring(code + open + doc + close + rest)
         == if code == "" && open == TripleDouble then rest else doc
  {
    SegmentsOneRegion(code, open, doc, close, rest);
    StartsOneRegion(code, open, doc, close, rest);
    JoinThree(code, doc, rest);
  }

  /** The corrected stage keeps the code on both sides of the region and
      drops the docstring, whichever marker opens it and wherever it is. */
  lemma StripDocstringsOneRegion(code: string, open: string, doc: string, close: string, rest: string)
    requires QuoteFree(code) && QuoteFree(doc) && QuoteFree(rest)
    requires IsMarker(open) && IsMarker(close)
    ensures StripDocstrings(code + open + doc + close + rest) == code + rest
  {
    SegmentsOneRegion(code, open, doc, close, rest);
    JoinThree(code, doc, rest);
  }

  /** The corrected stage leaves a text with no marker unchanged. */
  lemma StripDocstringsNoMarkers(text: string)
    requires !Occurs(text, TripleDouble) && !Occurs(text, TripleSingle)
    ensures StripDocstrings(text) == text
  {
    ReplaceAbsent(text, TripleSingle, TripleDouble);
    SplitAbsent(text, TripleDouble);
  }

  /** The corrected stage never lengthens its input. */
  lemma StripDocstringsShorter(text: string)
    ensures |StripDocstrings(text)| <= |text|
  {
    var segments := Segments(text);
    SegmentsRebuild(text);
    JoinWithLonger(segments, TripleDouble);
    JoinStrideLength(segments);
  }
}
