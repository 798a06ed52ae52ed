/** Levenshtein distance: a recursive definition over prefixes and the
    dynamic-programming matrix that `levenshteinDistance` fills in. */
module EditDistance {
  import opened Basics

  /** The distance between `a` and `b`, by the recurrence on their last characters.
      The matrix entry in row `i`, column `j` of `levenshteinDistance(str1, str2)`
      is `Lev(str1[..j], str2[..i])`. */
  function Lev(a: string, b: string): (d: nat)
    ensures d <= Max(|a|, |b|)
    ensures |a| - |b| <= d && |b| - |a| <= d
    decreases |a| + |b|
  {
    if |a| == 0 then |b|
    else if |b| == 0 then |a|
    else if a[|a| - 1] == b[|b| - 1] then Lev(a[..|a| - 1], b[..|b| - 1])
    else 1 + Min3(Lev(a[..|a| - 1], b[..|b| - 1]), Lev(a[..|a| - 1], b), Lev(a, b[..|b| - 1]))
  }

  /** The value the matrix of `levenshteinDistance(str1, str2)` holds in row `r`, column `c`. */
  ghost function Entry(str1: string, str2: string, c: nat, r: nat): nat
    requires c <= |str1| && r <= |str2|
  {
    Lev(str1[..c], str2[..r])
  }

  /** `levenshteinDistance(str1, str2)`: fills the `(|str2|+1) x (|str1|+1)` matrix
      row by row, first column and first row holding the index values. */
  method LevenshteinDistance(str1: string, str2: string) returns (d: nat)
    ensures d == Lev(str1, str2)
  {
    var matrix := new nat[|str2| + 1, |str1| + 1];
    var i := 0;
    while i <= |str2|
      invariant 0 <= i <= |str2| + 1
      invariant forall r :: 0 <= r < i ==> matrix[r, 0] == r
    {
      matrix[i, 0] := i;
      i := i + 1;
    }
    var j := 0;
    while j <= |str1|
      invariant 0 <= j <= |str1| + 1
      invariant forall r :: 0 <= r <= |str2| ==> matrix[r, 0] == r
      invariant forall c :: 0 <= c < j ==> matrix[0, c] == c
    {
      matrix[0, j] := j;
      j := j + 1;
    }
    forall c | 0 <= c <= |str1| ensures matrix[0, c] == Entry(str1, str2, c, 0) {
      assert |str1[..c]| == c;
    }
    i := 1;
    while i <= |str2|
      invariant 1 <= i <= |str2| + 1
      invariant forall r, c :: 0 <= r < i && 0 <= c <= |str1| ==> matrix[r, c] == Entry(str1, str2, c, r)
      invariant forall r :: i <= r <= |str2| ==> matrix[r, 0] == r
    {
      FillRow(matrix, str1, str2, i);
      i := i + 1;
    }
    d := matrix[|str2|, |str1|];
    assert str1[..|str1|] == str1 && str2[..|str2|] == str2;
  }

  /** The inner loop of `levenshteinDistance`: computes row `i` from the rows above it. */
  method FillRow(matrix: array2<nat>, str1: string, str2: string, i: nat)
    requires matrix.Length0 == |str2| + 1 && matrix.Length1 == |str1| + 1
    requires 1 <= i <= |str2|
    requires forall r, c :: 0 <= r < i && 0 <= c <= |str1| ==> matrix[r, c] == Entry(str1, str2, c, r)
    requires matrix[i, 0] == i
    modifies matrix
    ensures forall c :: 0 <= c <= |str1| ==> matrix[i, c] == Entry(str1, str2, c, i)
    ensures forall r, c :: 0 <= r < matrix.Length0 && 0 <= c < matrix.Length1 && r != i ==>
              matrix[r, c] == old(matrix[r, c])
  {
    assert |str2[..i]| == i;
    var j := 1;
    while j <= |str1|
      invariant 1 <= j <= |str1| + 1
      invariant forall c :: 0 <= c < j ==> matrix[i, c] == Entry(str1, str2, c, i)
      invariant forall r, c :: 0 <= r < matrix.Length0 && 0 <= c < matrix.Length1 && r != i ==>
                  matrix[r, c] == old(matrix[r, c])
    {
      LevStep(str1, str2, j, i);
      if str2[i - 1] == str1[j - 1] {
        matrix[i, j] := matrix[i - 1, j - 1];
      } else {
        matrix[i, j] := Min3(matrix[i - 1, j - 1] + 1, matrix[i, j - 1] + 1, matrix[i - 1, j] + 1);
      }
      j := j + 1;
    }
  }

  /** One step of the recurrence, phrased on the matrix entries. */
  lemma LevStep(str1: string, str2: string, j: nat, i: nat)
    requires 0 < j <= |str1| && 0 < i <= |str2|
    ensures Entry(str1, str2, j, i) ==
      if str2[i - 1] == str1[j - 1] then Entry(str1, str2, j - 1, i - 1)
      else Min3(Entry(str1, str2, j - 1, i - 1) + 1, Entry(str1, str2, j, i - 1) + 1,
                Entry(str1, str2, j - 1, i) + 1)
  {
    assert str1[..j][..j - 1] == str1[..j - 1];
    assert str2[..i][..i - 1] == str2[..i - 1];
  }

  /** The distance from a string to itself is 0, and from or to the empty string it is
      the other string's length. */
  lemma {:induction false} LevIdentity(s: string)
    ensures Lev(s, s) == 0
    ensures Lev([], s) == |s| && Lev(s, []) == |s|
    decreases |s|
  {
    if |s| > 0 {
      LevIdentity(s[..|s| - 1]);
    }
  }

  /** The distance is 0 exactly for equal strings. */
  lemma {:induction false} LevZeroIff(a: string, b: string)
    ensures Lev(a, b) == 0 <==> a == b
    decreases |a| + |b|
  {
    if a == b {
      LevIdentity(a);
    } else if |a| > 0 && |b| > 0 && a[|a| - 1] == b[|b| - 1] {
      assert a == a[..|a| - 1] + [a[|a| - 1]] && b == b[..|b| - 1] + [b[|b| - 1]];
      LevZeroIff(a[..|a| - 1], b[..|b| - 1]);
    }
  }

  /** The distance does not depend on the order of its arguments. */
  lemma {:induction false} LevSymmetric(a: string, b: string)
    ensures Lev(a, b) == Lev(b, a)
    decreases |a| + |b|
  {
    if |a| > 0 && |b| > 0 {
      var a', b' := a[..|a| - 1], b[..|b| - 1];
      LevSymmetric(a', b');
      if a[|a| - 1] != b[|b| - 1] {
        LevSymmetric(a', b);
        LevSymmetric(a, b');
      }
    }
  }
}
