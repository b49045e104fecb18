/** Whitespace removal, the last stage of the normalizer: only the space and
    the newline character are removed; tabs and every other character pass
    through. */
module Spaces {
  import opened Strings

  /** The two characters the stage removes. */
  predicate IsRemoved(c: char) {
    c == ' ' || c == '\n'
  }

  /** The reference definition: the characters of `s` that are neither a
      space nor a newline, in their original order. */
  function Keep(s: string): (r: string) {
    if |s| == 0 then ""
    else (if IsRemoved(s[0]) then "" else [s[0]]) + Keep(s[1..])
  }

  /** `Keep` is never longer than its input, holds no space and no newline,
      and keeps every other character with its multiplicity. */
  lemma {:induction false} KeepRemovesExactly(s: string)
    ensures |Keep(s)| <= |s|
    ensures forall i :: 0 <= i < |Keep(s)| ==> !IsRemoved(Keep(s)[i])
    ensures forall c :: !IsRemoved(c) ==> multiset(Keep(s))[c] == multiset(s)[c]
    ensures forall c :: IsRemoved(c) ==> multiset(Keep(s))[c] == 0
    decreases |s|
  {
    if |s| > 0 {
      KeepRemovesExactly(s[1..]);
      assert s == [s[0]] + s[1..];
    }
  }

  /** `remove_spaces(text)`: removes every space, then every newline. */
  function RemoveSpaces(text: string): (r: string) {
    Replace(Replace(text, " ", ""), "\n", "")
  }

  /** Replacing a one-character pattern by nothing, one character at a time. */
  lemma ReplaceCharCons(x: char, s: string, c: char)
    ensures Replace([x] + s, [c], "") == (if x == c then "" else [x]) + Replace(s, [c], "")
  {
    assert ([x] + s)[1..] == s;
    assert ([x] + s)[..1] == [x];
  }

  lemma KeepCons(x: char, s: string)
    ensures Keep([x] + s) == (if IsRemoved(x) then "" else [x]) + Keep(s)
  {
    assert ([x] + s)[1..] == s;
  }

  /** The two replacements remove exactly the spaces and newlines and keep
      the order of everything else. */
  lemma {:induction false} RemoveSpacesIsKeep(text: string)
    ensures RemoveSpaces(text) == Keep(text)
    decreases |text|
  {
    if |text| > 0 {
      var x, rest := text[0], text[1..];
      assert text == [x] + rest;
      ReplaceCharCons(x, rest, ' ');
      var inner := Replace(rest, " ", "");
      RemoveSpacesIsKeep(rest);
      assert " " == [' '] && "\n" == ['\n'];
      if x == ' ' {
        assert Replace(text, " ", "") == inner;
      } else {
        assert Replace(text, " ", "") == [x] + inner;
        ReplaceCharCons(x, inner, '\n');
      }
    }
  }

  /** A text that holds no space and no newline is left as it is. */
  lemma {:induction false} KeepUnchanged(s: string)
    requires forall i :: 0 <= i < |s| ==> !IsRemoved(s[i])
    ensures Keep(s) == s
    decreases |s|
  {
    if |s| > 0 {
      assert !IsRemoved(s[0]);
      KeepUnchanged(s[1..]);
    }
  }

  /** Applying `remove_spaces` twice is the same as applying it once. */
  lemma RemoveSpacesIdempotent(text: string)
    ensures RemoveSpaces(RemoveSpaces(text)) == RemoveSpaces(text)
  {
    RemoveSpacesIsKeep(text);
    RemoveSpacesIsKeep(Keep(text));
    KeepRemovesExactly(text);
    KeepUnchanged(Keep(text));
  }

  /** The stage's output is never longer than its input, holds no space and no
      newline, and keeps every other character (with its multiplicity). */
  lemma RemoveSpacesRemovesExactly(text: string)
    ensures |RemoveSpaces(text)| <= |text|
    ensures forall i :: 0 <= i < |RemoveSpaces(text)| ==> !IsRemoved(RemoveSpaces(text)[i])
    ensures forall c :: !IsRemoved(c) ==> multiset(RemoveSpaces(text))[c] == multiset(text)[c]
  {
    RemoveSpacesIsKeep(text);
    KeepRemovesExactly(text);
  }

  /** A tab survives while a space and a newline do not. */
  lemma RemoveSpacesKeepsTab()
    ensures RemoveSpaces("a\tb c\n") == "a\tbc"
  {
    KeepCons('\n', "");
    assert Keep("\n") == "";
    KeepCons('c', "\n");
    assert Keep("c\n") == "c";
    KeepCons(' ', "c\n");
    assert Keep(" c\n") == "c";
    KeepCons('b', " c\n");
    assert Keep("b c\n") == "bc";
    KeepCons('\t', "b c\n");
    assert Keep("\tb c\n") == "\tbc";
    KeepCons('a', "\tb c\n");
    assert Keep("a\tb c\n") == "a\tbc";
    RemoveSpacesIsKeep("a\tb c\n");
  }
}
