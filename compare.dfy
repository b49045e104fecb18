/** The pair comparator: cleans both texts and scores them by their edit
    distance relative to the longer cleaned text. The comment-removal stage
    runs before everything here; its output is the text these members take. */
module Compare {
  import opened Strings
  import opened Spaces
  import opened Docstring
  import opened Levenshtein

  /** A similarity score `1 - distance / longest`, kept as the two integers
      it is computed from; its value is `Numerator() / longest`. */
  datatype Similarity = Similarity(distance: nat, longest: nat) {
    function Numerator(): (r: int) {
      longest - distance
    }
  }

  function Max(x: nat, y: nat): (m: nat) {
    if x >= y then x else y
  }

  /** `clear(text)`: docstring removal, then space removal, applied to the
      comment-free text. */
  function Clear(commentFree: string): (clean: string) {
    RemoveSpaces(RemoveDocstring(commentFree))
  }

  /** The corrected `clear`, built on the corrected docstring stage. */
  function ClearCorrected(commentFree: string): (clean: string) {
    RemoveSpaces(StripDocstrings(commentFree))
  }

  /** Both versions of `clear` only ever remove characters: the result is no
      longer than the text and holds no space and no newline. */
  lemma ClearCanonical(commentFree: string)
    ensures |Clear(commentFree)| <= |commentFree|
    ensures forall i :: 0 <= i < |Clear(commentFree)| ==> !IsRemoved(Clear(commentFree)[i])
    ensures |ClearCorrected(commentFree)| <= |commentFree|
    ensures forall i :: 0 <= i < |ClearCorrected(commentFree)| ==> !IsRemoved(ClearCorrected(commentFree)[i])
  {
    RemoveDocstringShorter(commentFree);
    RemoveSpacesRemovesExactly(RemoveDocstring(commentFree));
    StripDocstringsShorter(commentFree);
    RemoveSpacesRemovesExactly(StripDocstrings(commentFree));
  }

  /** The scoring step of `compare` on two cleaned texts: it divides by the
      longer length, so one of them must be non-empty. The score lies in
      [0, 1], is 1 exactly when the texts are equal and 0 exactly when the
      distance is the longer length. */
  method Score(clean1: string, clean2: string) returns (s: Similarity)
    requires Max(|clean1|, |clean2|) > 0
    ensures s.distance == Lev(clean1, clean2) && s.longest == Max(|clean1|, |clean2|)
    ensures 0 <= s.Numerator() <= s.longest
    ensures s.Numerator() == s.longest <==> clean1 == clean2
  {
    var distance := LevenshteinDistance(clean1, clean2);
    LevBounds(clean1, clean2);
    LevZeroIff(clean1, clean2);
    s := Similarity(distance, Max(|clean1|, |clean2|));
  }

  /** `compare(text1, text2)` on the comment-free texts. */
  method Compare(text1: string, text2: string) returns (s: Similarity)
    requires Max(|Clear(text1)|, |Clear(text2)|) > 0
    ensures s.distance == Lev(Clear(text1), Clear(text2))
    ensures s.longest == Max(|Clear(text1)|, |Clear(text2)|)
    ensures 0 <= s.Numerator() <= s.longest
    ensures s.Numerator() == s.longest <==> Clear(text1) == Clear(text2)
  {
    var clean1 := Clear(text1);
    var clean2 := Clear(text2);
    s := Score(clean1, clean2);
  }

  /** The corrected `compare`, built on the corrected `clear`. */
  method CompareCorrected(text1: string, text2: string) returns (s: Similarity)
    requires Max(|ClearCorrected(text1)|, |ClearCorrected(text2)|) > 0
    ensures s.distance == Lev(ClearCorrected(text1), ClearCorrected(text2))
    ensures s.longest == Max(|ClearCorrected(text1)|, |ClearCorrected(text2)|)
    ensures 0 <= s.Numerator() <= s.longest
    ensures s.Numerator() == s.longest <==> ClearCorrected(text1) == ClearCorrected(text2)
  {
    var clean1 := ClearCorrected(text1);
    var clean2 := ClearCorrected(text2);
    s := Score(clean1, clean2);
  }

  /** As written, `clear` empties every text without a triple-quote marker,
      so `compare` on two such texts divides by zero. */
  lemma CompareUndefinedWithoutDocstrings(text1: string, text2: string)
    requires !Occurs(text1, TripleDouble) && !Occurs(text1, TripleSingle)
    requires !Occurs(text2, TripleDouble) && !Occurs(text2, TripleSingle)
    ensures Clear(text1) == "" && Clear(text2) == ""
    ensures Max(|Clear(text1)|, |Clear(text2)|) == 0
  {
    RemoveDocstringNoMarkers(text1);
    RemoveDocstringNoMarkers(text2);
  }

  /** The corrected `clear` of a text without markers only removes spaces and
      newlines. */
  lemma ClearCorrectedNoMarkers(text: string)
    requires !Occurs(text, TripleDouble) && !Occurs(text, TripleSingle)
    ensures ClearCorrected(text) == RemoveSpaces(text)
  {
    StripDocstringsNoMarkers(text);
  }

  /** With the corrected `clear`, two texts that differ only in their
      docstring (and its markers) clean to the same text, so they score 1. */
  lemma ClearCorrectedIgnoresDocstring(code: string, rest: string,
                                     open1: string, doc1: string, close1: string,
                                     open2: string, doc2: string, close2: string)
    requires QuoteFree(code) && QuoteFree(rest) && QuoteFree(doc1) && QuoteFree(doc2)
    requires IsMarker(open1) && IsMarker(close1) && IsMarker(open2) && IsMarker(close2)
    ensures ClearCorrected(code + open1 + doc1 + close1 + rest)
         == ClearCorrected(code + open2 + doc2 + close2 + rest)
         == RemoveSpaces(code + rest)
  {
    StripDocstringsOneRegion(code, open1, doc1, close1, rest);
    StripDocstringsOneRegion(code, open2, doc2, close2, rest);
  }

  /** As written, `clear` keeps the docstring and drops the code around it
      when the text does not open with `"""`. */
  lemma ClearKeepsDocstring(code: string, open: string, doc: string, close: string, rest: string)
    requires QuoteFree(code) && QuoteFree(doc) && QuoteFree(rest)
    requires IsMarker(open) && IsMarker(close)
    requires code != "" || open == TripleSingle
    ensures Clear(code + open + doc + close + rest) == RemoveSpaces(doc)
  {
    RemoveDocstringOneRegion(code, open, doc, close, rest);
  }

  /** As written, two texts with the same code around a docstring that does
      not open the text clean to the same text exactly when their docstrings
      agree once spaces and newlines are removed. */
  lemma ClearKeepsDocstringSpacing(code: string, open: string, doc1: string, doc2: string,
                                   close: string, rest: string)
    requires QuoteFree(code) && QuoteFree(doc1) && QuoteFree(doc2) && QuoteFree(rest)
    requires IsMarker(open) && IsMarker(close)
    requires code != "" || open == TripleSingle
    ensures Clear(code + open + doc1 + close + rest) == Clear(code + open + doc2 + close + rest)
        <==> RemoveSpaces(doc1) == RemoveSpaces(doc2)
  {
    ClearKeepsDocstring(code, open, doc1, close, rest);
    ClearKeepsDocstring(code, open, doc2, close, rest);
  }

  /** A text that opens with a docstring cleans to its code. */
  lemma ClearLeadingDocstring(doc: string, close: string, rest: string)
    requires QuoteFree(doc) && QuoteFree(rest) && IsMarker(close)
    ensures Clear(TripleDouble + doc + close + rest) == RemoveSpaces(rest)
  {
    var text := TripleDouble + doc + close + rest;
    assert "" + TripleDouble + doc + close + rest == text;
    RemoveDocstringOneRegion("", TripleDouble, doc, close, rest);
    assert RemoveDocstring(text) == rest;
  }

  /** A module docstring followed by code: `"""module doc"""\nx = 1\n`
      cleans to `x=1`. */
  lemma ClearModuleDocstring()
    ensures Clear(TripleDouble + "module doc" + TripleDouble + "\nx = 1\n") == "x=1"
  {
    ClearLeadingDocstring("module doc", TripleDouble, "\nx = 1\n");
    SpacesOfAssignment();
  }

  lemma SpacesOfAssignment()
    ensures RemoveSpaces("\nx = 1\n") == "x=1"
  {
    KeepCons('\n', "");
    assert Keep("\n") == "";
    KeepCons('1', "\n");
    assert Keep("1\n") == "1";
    KeepCons(' ', "1\n");
    assert Keep(" 1\n") == "1";
    KeepCons('=', " 1\n");
    assert Keep("= 1\n") == "=1";
    KeepCons(' ', "= 1\n");
    assert Keep(" = 1\n") == "=1";
    KeepCons('x', " = 1\n");
    assert Keep("x = 1\n") == "x=1";
    KeepCons('\n', "x = 1\n");
    assert Keep("\nx = 1\n") == "x=1";
    RemoveSpacesIsKeep("\nx = 1\n");
  }

  /** As written, the code `x = 1` with no docstring cleans to nothing. */
  lemma ClearPlainCode()
    ensures RemoveDocstring("x = 1\n") == "" && Clear("x = 1\n") == ""
  {
    var code := "x = 1\n";
    assert QuoteFree(code);
    AbsentCharNoOccurrence(code, TripleDouble);
    AbsentCharNoOccurrence(code, TripleSingle);
    RemoveDocstringNoMarkers(code);
  }

  /** As written, cleaning is not stable: the cleaned text `x=1` cleans
      again to nothing. */
  lemma ClearNotIdempotent()
    ensures Clear("x=1") == ""
  {
    var code := "x=1";
    assert QuoteFree(code);
    AbsentCharNoOccurrence(code, TripleDouble);
    AbsentCharNoOccurrence(code, TripleSingle);
    RemoveDocstringNoMarkers(code);
  }

  /** As written, two texts that open with a `"""` docstring and share the
      code after it clean to the same text, whatever their docstrings. */
  lemma ClearIgnoresLeadingDocstring(doc1: string, close1: string, doc2: string, close2: string, rest: string)
    requires QuoteFree(doc1) && QuoteFree(doc2) && QuoteFree(rest)
    requires IsMarker(close1) && IsMarker(close2)
    ensures Clear(TripleDouble + doc1 + close1 + rest) == Clear(TripleDouble + doc2 + close2 + rest)
  {
    ClearLeadingDocstring(doc1, close1, rest);
    ClearLeadingDocstring(doc2, close2, rest);
  }
}
