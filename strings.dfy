/** The Python string and list built-ins the normalizer is written with:
    `str.startswith`, `str.replace`, `str.split`, `str.join` and the stride
    slices `xs[::2]` and `xs[1::2]`. Strings are `seq<char>`; a pattern
    given to `replace` or `split` is never empty in the normalizer. */
module Strings {

  /** The double-quote triple marker `"""`. */
  const TripleDouble: string := "\"\"\""
  /** The single-quote triple marker `'''`. */
  const TripleSingle: string := "'''"

  /** `s.startswith(p)` */
  predicate StartsWith(s: string, p: string) {
    |p| <= |s| && s[..|p|] == p
  }

  /** `p in s`: `p` occurs somewhere in `s` as a contiguous run. */
  predicate Occurs(s: string, p: string)
    decreases |s|
  {
    StartsWith(s, p) || (|s| > 0 && Occurs(s[1..], p))
  }

  /** `s.replace(pat, rep)`: scans left to right and replaces each
      non-overlapping occurrence of `pat`. */
  function Replace(s: string, pat: string, rep: string): (r: string)
    requires |pat| > 0
    decreases |s|
  {
    if StartsWith(s, pat) then rep + Replace(s[|pat|..], pat, rep)
    else if |s| == 0 then ""
    else [s[0]] + Replace(s[1..], pat, rep)
  }

  /** `s.split(sep)`: the pieces between the non-overlapping occurrences of
      `sep`, found left to right; there is always at least one piece, and
      the first piece is a prefix of `s`. */
  function Split(s: string, sep: string): (r: seq<string>)
    requires |sep| > 0
    ensures |r| >= 1 && r[0] <= s
    decreases |s|
  {
    if StartsWith(s, sep) then [""] + Split(s[|sep|..], sep)
    else if |s| == 0 then [""]
    else
      var rest := Split(s[1..], sep);
      [[s[0]] + rest[0]] + rest[1..]
  }

  /** `"".join(xs)` */
  function Join(xs: seq<string>): (r: string) {
    if |xs| == 0 then "" else xs[0] + Join(xs[1..])
  }

  /** `sep.join(xs)` */
  function JoinWith(xs: seq<string>, sep: string): (r: string) {
    if |xs| == 0 then ""
    else if |xs| == 1 then xs[0]
    else xs[0] + sep + JoinWith(xs[1..], sep)
  }

  /** `xs[::2]`: the elements at indices 0, 2, 4, ... */
  function EvenIndexed<T>(xs: seq<T>): (r: seq<T>)
    ensures |r| == (|xs| + 1) / 2
    ensures forall k :: 0 <= k < |r| ==> r[k] == xs[2 * k]
  {
    if |xs| <= 1 then xs else [xs[0]] + EvenIndexed(xs[2..])
  }

  /** `xs[1::2]`: the elements at indices 1, 3, 5, ... */
  function OddIndexed<T>(xs: seq<T>): (r: seq<T>)
    ensures |r| == |xs| / 2
    ensures forall k :: 0 <= k < |r| ==> r[k] == xs[2 * k + 1]
  {
    if |xs| == 0 then [] else EvenIndexed(xs[1..])
  }

  /** A string none of whose characters is `c` holds no run starting with `c`. */
  lemma {:induction false} AbsentCharNoOccurrence(s: string, p: string)
    requires |p| > 0 && p[0] !in s
    ensures !Occurs(s, p)
    decreases |s|
  {
    if |s| > 0 {
      assert s[0] != p[0];
      AbsentCharNoOccurrence(s[1..], p);
    }
  }

  /** Replacing a pattern that does not occur changes nothing. */
  lemma {:induction false} ReplaceAbsent(s: string, pat: string, rep: string)
    requires |pat| > 0 && !Occurs(s, pat)
    ensures Replace(s, pat, rep) == s
    decreases |s|
  {
    if |s| > 0 {
      ReplaceAbsent(s[1..], pat, rep);
    }
  }

  /** Replacing a pattern by one of the same length keeps the length. */
  lemma {:induction false} ReplaceSameLength(s: string, pat: string, rep: string)
    requires |pat| > 0 && |rep| == |pat|
    ensures |Replace(s, pat, rep)| == |s|
    decreases |s|
  {
    if StartsWith(s, pat) {
      ReplaceSameLength(s[|pat|..], pat, rep);
    } else if |s| > 0 {
      ReplaceSameLength(s[1..], pat, rep);
    }
  }

  /** A leading piece that cannot start the pattern passes through `replace`
      untouched. */
  lemma {:induction false} ReplaceAppendPlain(x: string, y: string, pat: string, rep: string)
    requires |pat| > 0 && pat[0] !in x
    ensures Replace(x + y, pat, rep) == x + Replace(y, pat, rep)
    decreases |x|
  {
    if |x| > 0 {
      assert !StartsWith(x + y, pat) by {
        if |pat| <= |x + y| { assert (x + y)[..|pat|][0] == x[0]; }
      }
      assert (x + y)[1..] == x[1..] + y;
      assert Replace(x + y, pat, rep) == [x[0]] + Replace(x[1..] + y, pat, rep);
      ReplaceAppendPlain(x[1..], y, pat, rep);
      assert x == [x[0]] + x[1..];
    } else {
      assert x + y == y;
    }
  }

  /** A leading occurrence of the pattern is replaced and scanning goes on
      after it. */
  lemma ReplaceAppendPattern(y: string, pat: string, rep: string)
    requires |pat| > 0
    ensures Replace(pat + y, pat, rep) == rep + Replace(y, pat, rep)
  {
    assert (pat + y)[..|pat|] == pat;
    assert (pat + y)[|pat|..] == y;
  }

  /** A character in front of the first piece comes out in front. */
  lemma JoinWithCons(c: char, x: string, rest: seq<string>, sep: string)
    ensures JoinWith([[c] + x] + rest, sep) == [c] + JoinWith([x] + rest, sep)
  {
    if |rest| > 0 {
      assert ([[c] + x] + rest)[1..] == rest;
      assert ([x] + rest)[1..] == rest;
    }
  }

  /** `sep.join(s.split(sep)) == s`. */
  lemma {:induction false} SplitJoin(s: string, sep: string)
    requires |sep| > 0
    ensures JoinWith(Split(s, sep), sep) == s
    decreases |s|
  {
    if StartsWith(s, sep) {
      var rest := Split(s[|sep|..], sep);
      SplitJoin(s[|sep|..], sep);
      assert Split(s, sep) == [""] + rest;
      assert ([""] + rest)[1..] == rest;
      assert s == sep + s[|sep|..];
    } else if |s| > 0 {
      var rest := Split(s[1..], sep);
      SplitJoin(s[1..], sep);
      assert rest == [rest[0]] + rest[1..];
      assert Split(s, sep) == [[s[0]] + rest[0]] + rest[1..];
      JoinWithCons(s[0], rest[0], rest[1..], sep);
      assert s == [s[0]] + s[1..];
    }
  }

  /** No piece produced by `split` contains the separator. */
  lemma {:induction false} SplitPiecesFree(s: string, sep: string)
    requires |sep| > 0
    ensures forall i :: 0 <= i < |Split(s, sep)| ==> !Occurs(Split(s, sep)[i], sep)
    decreases |s|
  {
    var r := Split(s, sep);
    if StartsWith(s, sep) {
      var rest := Split(s[|sep|..], sep);
      SplitPiecesFree(s[|sep|..], sep);
      assert !Occurs("", sep);
      forall i | 0 <= i < |r| ensures !Occurs(r[i], sep) {
        if i > 0 { assert r[i] == rest[i - 1]; }
      }
    } else if |s| > 0 {
      var rest := Split(s[1..], sep);
      SplitPiecesFree(s[1..], sep);
      var head := [s[0]] + rest[0];
      assert head[1..] == rest[0];
      assert head <= s;
      assert !StartsWith(head, sep);
      forall i | 0 <= i < |r| ensures !Occurs(r[i], sep) {
        if i > 0 { assert r[i] == rest[i]; }
      }
    }
  }

  /** Splitting a string in which the separator does not occur gives the
      string itself as the only piece. */
  lemma {:induction false} SplitAbsent(s: string, sep: string)
    requires |sep| > 0 && !Occurs(s, sep)
    ensures Split(s, sep) == [s]
    decreases |s|
  {
    if |s| > 0 {
      SplitAbsent(s[1..], sep);
      assert [s[0]] + s[1..] == s;
    }
  }

  /** A first piece holding no character that can start the separator is
      split off at the separator that follows it. */
  lemma {:induction false} SplitAppend(a: string, sep: string, b: string)
    requires |sep| > 0 && sep[0] !in a
    ensures Split(a + sep + b, sep) == [a] + Split(b, sep)
    decreases |a|
  {
    var s := a + sep + b;
    if |a| == 0 {
      assert s == sep + b;
      assert s[..|sep|] == sep;
      assert s[|sep|..] == b;
    } else {
      assert s[0] == a[0] != sep[0];
      assert s[1..] == a[1..] + sep + b;
      SplitAppend(a[1..], sep, b);
      assert [a[0]] + a[1..] == a;
    }
  }

  /** The lengths of the even- and odd-indexed elements add up to the whole. */
  lemma {:induction false} JoinStrideLength(xs: seq<string>)
    ensures |Join(EvenIndexed(xs))| + |Join(OddIndexed(xs))| == |Join(xs)|
    decreases |xs|
  {
    if |xs| >= 2 {
      JoinStrideLength(xs[2..]);
      assert xs[2..] == xs[1..][1..];
      assert OddIndexed(xs) == [xs[1]] + OddIndexed(xs[2..]) by {
        if |xs| == 2 {
        } else {
          assert xs[1..][2..] == xs[2..][1..];
        }
      }
      assert ([xs[0]] + EvenIndexed(xs[2..]))[1..] == EvenIndexed(xs[2..]);
      assert ([xs[1]] + OddIndexed(xs[2..]))[1..] == OddIndexed(xs[2..]);
      assert xs[1..][1..] == xs[2..];
    } else if |xs| == 1 {
      assert xs[1..] == [];
    }
  }

  /** Joining with a separator is never shorter than joining without one. */
  lemma {:induction false} JoinWithLonger(xs: seq<string>, sep: string)
    ensures |JoinWith(xs, sep)| >= |Join(xs)|
    decreases |xs|
  {
    if |xs| > 1 {
      JoinWithLonger(xs[1..], sep);
    } else if |xs| == 1 {
      assert xs[1..] == [];
    }
  }
}
