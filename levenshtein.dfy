/** The distance engine: Levenshtein (unit-cost insert, delete, substitute)
    edit distance, first as the recurrence the dynamic-programming table
    follows, then as the table-filling method, and the metric facts about it. */
module Levenshtein {

  function Min3(x: nat, y: nat, z: nat): (m: nat) {
    if x <= y && x <= z then x else if y <= z then y else z
  }

  /** All of `s` except its last character. */
  function Init(s: string): (r: string)
    requires |s| > 0
  {
    s[..|s| - 1]
  }

  /** The value the table holds for the prefixes `a` and `b`: the lengths
      on the borders, the diagonal neighbour when the last characters match,
      and otherwise one more than the least of the three neighbours (delete,
      insert, substitute). */
  function Lev(a: string, b: string): (d: nat)
    decreases |a| + |b|
  {
    if |a| == 0 then |b|
    else if |b| == 0 then |a|
    else if a[|a| - 1] == b[|b| - 1] then Lev(Init(a), Init(b))
    else 1 + Min3(Lev(Init(a), b), Lev(a, Init(b)), Lev(Init(a), Init(b)))
  }

  /** The first `rows` rows of `table` hold the distances between the
      prefixes of `text1` and `text2`. */
  ghost predicate RowsFilled(table: array2<nat>, text1: string, text2: string, rows: nat)
    reads table
    requires table.Length0 == |text1| + 1 && table.Length1 == |text2| + 1 && rows <= |text1| + 1
  {
    forall k, l :: 0 <= k < rows && 0 <= l <= |text2| ==> table[k, l] == Lev(text1[..k], text2[..l])
  }

  /** `LevenshteinDistance(text1, text2)`: fills an `(m+1) x (n+1)` table,
      seeding column 0 and row 0 with the prefix lengths, then row by row. */
  method LevenshteinDistance(text1: string, text2: string) returns (d: nat)
    ensures d == Lev(text1, text2)
  {
    var m, n := |text1|, |text2|;
    var table := new nat[m + 1, n + 1]((_, _) => 0);

    for i := 0 to m + 1
      invariant forall k :: 0 <= k < i ==> table[k, 0] == Lev(text1[..k], "")
    {
      table[i, 0] := i;
    }
    for j := 0 to n + 1
      invariant forall k :: 0 <= k <= m ==> table[k, 0] == Lev(text1[..k], "")
      invariant forall l :: 0 <= l < j ==> table[0, l] == Lev("", text2[..l])
    {
      table[0, j] := j;
    }
    assert RowsFilled(table, text1, text2, 1);

    for i := 1 to m + 1
      invariant forall k :: 0 <= k <= m ==> table[k, 0] == Lev(text1[..k], "")
      invariant RowsFilled(table, text1, text2, i)
    {
      FillRow(table, text1, text2, i);
    }
    assert text1[..m] == text1 && text2[..n] == text2;
    d := table[m, n];
  }

  /** The inner loop: fills row `i` from the row above it and the seeded
      first column, leaving every other row as it was. */
  method FillRow(table: array2<nat>, text1: string, text2: string, i: nat)
    requires table.Length0 == |text1| + 1 && table.Length1 == |text2| + 1
    requires 1 <= i <= |text1|
    requires RowsFilled(table, text1, text2, i)
    requires table[i, 0] == Lev(text1[..i], "")
    modifies table
    ensures RowsFilled(table, text1, text2, i + 1)
    ensures forall k, l :: 0 <= k < table.Length0 && 0 <= l < table.Length1 && k != i ==>
              table[k, l] == old(table[k, l])
  {
    var n := |text2|;
    for j := 1 to n + 1
      invariant RowsFilled(table, text1, text2, i)
      invariant forall l :: 0 <= l < j ==> table[i, l] == Lev(text1[..i], text2[..l])
      invariant forall k, l :: 0 <= k < table.Length0 && 0 <= l < table.Length1 && k != i ==>
                  table[k, l] == old(table[k, l])
    {
      LevOfPrefixes(text1, text2, i, j);
      if text1[i - 1] == text2[j - 1] {
        table[i, j] := table[i - 1, j - 1];
      } else {
        table[i, j] := 1 + Min3(table[i - 1, j], table[i, j - 1], table[i - 1, j - 1]);
      }
    }
  }

  /** One step of the recurrence, stated on prefixes of two fixed strings. */
  lemma LevOfPrefixes(s: string, t: string, i: nat, j: nat)
    requires 0 < i <= |s| && 0 < j <= |t|
    ensures Lev(s[..i], t[..j]) ==
      if s[i - 1] == t[j - 1] then Lev(s[..i - 1], t[..j - 1])
      else 1 + Min3(Lev(s[..i - 1], t[..j]), Lev(s[..i], t[..j - 1]), Lev(s[..i - 1], t[..j - 1]))
  {
    assert Init(s[..i]) == s[..i - 1];
    assert Init(t[..j]) == t[..j - 1];
  }

  /** The distance between the empty string and `s` is the length of `s`,
      in either order. */
  lemma LevEmpty(s: string)
    ensures Lev("", s) == |s| && Lev(s, "") == |s|
  {
  }

  /** Every string is at distance 0 from itself. */
  lemma {:induction false} LevSelf(a: string)
    ensures Lev(a, a) == 0
    decreases |a|
  {
    if |a| > 0 {
      LevSelf(Init(a));
    }
  }

  /** The distance does not depend on the order of its arguments. */
  lemma {:induction false} LevSymmetric(a: string, b: string)
    ensures Lev(a, b) == Lev(b, a)
    decreases |a| + |b|
  {
    if |a| > 0 && |b| > 0 {
      LevSymmetric(Init(a), Init(b));
      if a[|a| - 1] != b[|b| - 1] {
        LevSymmetric(Init(a), b);
        LevSymmetric(a, Init(b));
      }
    }
  }

  /** The distance is at least the difference of the lengths and at most
      the longer length. */
  lemma {:induction false} LevBounds(a: string, b: string)
    ensures |a| - |b| <= Lev(a, b) && |b| - |a| <= Lev(a, b)
    ensures Lev(a, b) <= if |a| <= |b| then |b| else |a|
    decreases |a| + |b|
  {
    if |a| > 0 && |b| > 0 {
      LevBounds(Init(a), Init(b));
      if a[|a| - 1] != b[|b| - 1] {
        LevBounds(Init(a), b);
        LevBounds(a, Init(b));
      }
    }
  }

  /** The distance is 0 exactly when the two strings are equal. */
  lemma {:induction false} LevZeroIff(a: string, b: string)
    ensures Lev(a, b) == 0 <==> a == b
    decreases |a| + |b|
  {
    if a == b {
      LevSelf(a);
    } else if |a| > 0 && |b| > 0 && a[|a| - 1] == b[|b| - 1] {
      LevZeroIff(Init(a), Init(b));
      assert a == Init(a) + [a[|a| - 1]];
      assert b == Init(b) + [b[|b| - 1]];
    }
  }

  /** Appending one character to the first string raises the distance by at
      most one. */
  lemma {:induction false} LevExtendFirst(a: string, b: string)
    requires |a| > 0
    ensures Lev(a, b) <= Lev(Init(a), b) + 1
    decreases |a| + |b|
  {
    if |b| > 0 && a[|a| - 1] == b[|b| - 1] {
      LevTrimSecond(Init(a), b);
    }
  }

  /** Removing the last character of the second string raises the distance
      by at most one. */
  lemma {:induction false} LevTrimSecond(a: string, b: string)
    requires |b| > 0
    ensures Lev(a, Init(b)) <= Lev(a, b) + 1
    decreases |a| + |b|
  {
    if |a| > 0 {
      LevExtendFirst(a, Init(b));
      if a[|a| - 1] != b[|b| - 1] {
        LevTrimSecond(Init(a), b);
      }
    }
  }

  /** Adding or removing one character at the end of either string changes
      the distance by at most one. */
  lemma LevNeighbours(a: string, b: string)
    ensures |a| > 0 ==> Lev(a, b) <= Lev(Init(a), b) + 1 && Lev(Init(a), b) <= Lev(a, b) + 1
    ensures |b| > 0 ==> Lev(a, b) <= Lev(a, Init(b)) + 1 && Lev(a, Init(b)) <= Lev(a, b) + 1
  {
    if |a| > 0 {
      LevExtendFirst(a, b);
      LevSymmetric(a, b);
      LevSymmetric(Init(a), b);
      LevTrimSecond(b, a);
    }
    if |b| > 0 {
      LevTrimSecond(a, b);
      LevSymmetric(a, b);
      LevSymmetric(a, Init(b));
      LevExtendFirst(b, a);
    }
  }

  /** The cost of a diagonal step: 0 on a match, 1 for a substitution. */
  function Cost(x: char, y: char): (c: nat) {
    if x == y then 0 else 1
  }

  /** On a match the diagonal neighbour is the least of the three moves. */
  lemma LevMatchStep(a: string, b: string, x: nat, y: nat, z: nat)
    requires |a| > 0 && |b| > 0 && a[|a| - 1] == b[|b| - 1]
    requires x == Lev(Init(a), b) && y == Lev(a, Init(b)) && z == Lev(Init(a), Init(b))
    ensures Lev(a, b) == Min3(x + 1, y + 1, z)
  {
    LevTrimSecond(Init(a), b);
    LevNeighbours(a, Init(b));
  }

  /** On a mismatch the table takes one more than the least neighbour. */
  lemma LevMismatchStep(a: string, b: string, x: nat, y: nat, z: nat)
    requires |a| > 0 && |b| > 0 && a[|a| - 1] != b[|b| - 1]
    requires x == Lev(Init(a), b) && y == Lev(a, Init(b)) && z == Lev(Init(a), Init(b))
    ensures Lev(a, b) == Min3(x + 1, y + 1, z + 1)
  {
  }

  /** The table's recurrence agrees with the textbook one, which takes the
      least of the three moves (delete, insert, match or substitute) even
      when the last characters match. */
  lemma LevRecurrence(a: string, b: string)
    requires |a| > 0 && |b| > 0
    ensures Lev(a, b) <= Lev(Init(a), b) + 1
    ensures Lev(a, b) <= Lev(a, Init(b)) + 1
    ensures Lev(a, b) <= Lev(Init(a), Init(b)) + Cost(a[|a| - 1], b[|b| - 1])
    ensures Lev(a, b) == Lev(Init(a), b) + 1 || Lev(a, b) == Lev(a, Init(b)) + 1 ||
            Lev(a, b) == Lev(Init(a), Init(b)) + Cost(a[|a| - 1], b[|b| - 1])
  {
    var x, y, z := Lev(Init(a), b), Lev(a, Init(b)), Lev(Init(a), Init(b));
    if a[|a| - 1] != b[|b| - 1] {
      LevMismatchStep(a, b, x, y, z);
    } else {
      LevMatchStep(a, b, x, y, z);
    }
  }

  /** The triangle inequality: going through `b` is never shorter. */
  lemma {:induction false} LevTriangle(a: string, b: string, c: string)
    ensures Lev(a, c) <= Lev(a, b) + Lev(b, c)
    decreases |a| + |b| + |c|
  {
    if |a| == 0 {
      LevBounds(b, c);
    } else if |c| == 0 {
      LevBounds(a, b);
    } else if |b| == 0 {
      LevBounds(a, c);
    } else {
      LevRecurrence(a, b);
      LevRecurrence(b, c);
      LevRecurrence(a, c);
      if Lev(a, b) == Lev(Init(a), b) + 1 {
        LevTriangle(Init(a), b, c);
      } else if Lev(b, c) == Lev(b, Init(c)) + 1 {
        LevTriangle(a, b, Init(c));
      } else if Lev(a, b) == Lev(a, Init(b)) + 1 {
        if Lev(b, c) == Lev(Init(b), c) + 1 {
          LevTriangle(a, Init(b), c);
        } else {
          LevTriangle(a, Init(b), Init(c));
        }
      } else {
        if Lev(b, c) == Lev(Init(b), c) + 1 {
          LevTriangle(Init(a), Init(b), c);
        } else {
          LevTriangle(Init(a), Init(b), Init(c));
        }
      }
    }
  }
}
