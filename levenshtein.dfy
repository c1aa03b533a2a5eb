/**
 * `MarkdownDiffService.levenshteinDistance` and `calculateSimilarity`: the edit distance
 * filled into a dynamic-programming matrix, and the similarity ratio built on it.
 */
module EditDistance {
  /** The edit distance between the first `i` characters of `a` and the first `j` of `b`. */
  function Dist(a: string, b: string, i: nat, j: nat): nat
    requires i <= |a| && j <= |b|
  {
    if i == 0 then j
    else if j == 0 then i
    else
      var cost := if a[i - 1] == b[j - 1] then 0 else 1;
      Min3(Dist(a, b, i - 1, j) + 1, Dist(a, b, i, j - 1) + 1, Dist(a, b, i - 1, j - 1) + cost)
  }

  function Min3(x: nat, y: nat, z: nat): (r: nat)
    ensures r <= x && r <= y && r <= z && (r == x || r == y || r == z)
  {
    if x <= y && x <= z then x else if y <= z then y else z
  }

  function Levenshtein(a: string, b: string): nat {
    Dist(a, b, |a|, |b|)
  }

  function Max(x: nat, y: nat): nat { if x >= y then x else y }

  /** Zero distance exactly between equal prefixes. */
  lemma {:induction false} DistZeroIff(a: string, b: string, i: nat, j: nat)
    requires i <= |a| && j <= |b|
    ensures Dist(a, b, i, j) == 0 <==> i == j && a[..i] == b[..j]
    decreases i + j
  {
    if i > 0 && j > 0 {
      DistZeroIff(a, b, i - 1, j - 1);
      assert a[..i] == a[..i - 1] + [a[i - 1]] && b[..j] == b[..j - 1] + [b[j - 1]];
      if i == j && a[..i] == b[..j] {
        assert a[i - 1] == a[..i][i - 1] == b[..j][j - 1] == b[j - 1];
        assert a[..i - 1] == a[..i][..i - 1];
        assert b[..j - 1] == b[..j][..j - 1];
      }
    }
  }

  /** The distance is at least the difference of the lengths and at most the larger length. */
  lemma {:induction false} DistBounds(a: string, b: string, i: nat, j: nat)
    requires i <= |a| && j <= |b|
    ensures Dist(a, b, i, j) <= Max(i, j)
    ensures Dist(a, b, i, j) >= i - j && Dist(a, b, i, j) >= j - i
    decreases i + j
  {
    if i > 0 && j > 0 {
      DistBounds(a, b, i - 1, j);
      DistBounds(a, b, i, j - 1);
      DistBounds(a, b, i - 1, j - 1);
    }
  }

  /** The distance does not depend on the order of its arguments. */
  lemma {:induction false} DistSymmetric(a: string, b: string, i: nat, j: nat)
    requires i <= |a| && j <= |b|
    ensures Dist(a, b, i, j) == Dist(b, a, j, i)
    decreases i + j
  {
    if i > 0 && j > 0 {
      DistSymmetric(a, b, i - 1, j);
      DistSymmetric(a, b, i, j - 1);
      DistSymmetric(a, b, i - 1, j - 1);
    }
  }

  /** Row `i` of the matrix holds the distances from the first `i` characters of `a`. */
  ghost predicate RowsFilled(matrix: array2<nat>, a: string, b: string, rows: nat)
    reads matrix
    requires matrix.Length0 == |a| + 1 && matrix.Length1 == |b| + 1 && rows <= |a| + 1
  {
    forall i', j' {:trigger matrix[i', j']} :: 0 <= i' < rows && 0 <= j' <= |b| ==> matrix[i', j'] == Dist(a, b, i', j')
  }

  /** The inner loop of `levenshteinDistance`: fills row `i` from the row above it. */
  method FillRow(matrix: array2<nat>, str1: string, str2: string, i: nat)
    requires matrix.Length0 == |str1| + 1 && matrix.Length1 == |str2| + 1 && 1 <= i <= |str1|
    requires RowsFilled(matrix, str1, str2, i) && matrix[i, 0] == i
    modifies matrix
    ensures RowsFilled(matrix, str1, str2, i + 1)
    ensures forall i', j' :: 0 <= i' < matrix.Length0 && 0 <= j' < matrix.Length1 && i' != i ==> matrix[i', j'] == old(matrix[i', j'])
  {
    for j := 1 to |str2| + 1
      invariant RowsFilled(matrix, str1, str2, i)
      invariant forall j' {:trigger matrix[i, j']} :: 0 <= j' < j ==> matrix[i, j'] == Dist(str1, str2, i, j')
      invariant forall i', j' :: 0 <= i' < matrix.Length0 && 0 <= j' < matrix.Length1 && i' != i ==> matrix[i', j'] == old(matrix[i', j'])
    {
      var cost := if str1[i - 1] == str2[j - 1] then 0 else 1;
      assert matrix[i - 1, j] == Dist(str1, str2, i - 1, j);
      assert matrix[i - 1, j - 1] == Dist(str1, str2, i - 1, j - 1);
      matrix[i, j] := Min3(matrix[i - 1, j] + 1, matrix[i, j - 1] + 1, matrix[i - 1, j - 1] + cost);
      assert matrix[i, j] == Dist(str1, str2, i, j);
    }
  }

  /** `levenshteinDistance`: the bottom-right cell of the matrix. */
  method LevenshteinDistance(str1: string, str2: string) returns (d: nat)
    ensures d == Levenshtein(str1, str2)
  {
    var len1, len2 := |str1|, |str2|;
    var matrix := new nat[len1 + 1, len2 + 1];
    for i := 0 to len1 + 1
      invariant forall i' :: 0 <= i' < i ==> matrix[i', 0] == i'
    {
      matrix[i, 0] := i;
    }
    for j := 0 to len2 + 1
      invariant forall i' :: 0 <= i' <= len1 ==> matrix[i', 0] == i'
      invariant forall j' :: 0 <= j' < j ==> matrix[0, j'] == j'
    {
      matrix[0, j] := j;
    }
    for i := 1 to len1 + 1
      invariant RowsFilled(matrix, str1, str2, i)
      invariant forall i' :: 0 <= i' <= len1 ==> matrix[i', 0] == i'
    {
      FillRow(matrix, str1, str2, i);
    }
    d := matrix[len1, len2];
  }

  lemma RatioBounds(d: nat, m: nat)
    requires 0 < d <= m
    ensures 0.0 < d as real / m as real <= 1.0
  {
    var q := d as real / m as real;
    assert q * m as real == d as real;
  }

  /** `calculateSimilarity`: 1 for equal or two empty strings, otherwise `1 - distance / maxLen`. */
  function Similarity(c1: string, c2: string): (r: real)
    ensures 0.0 <= r <= 1.0
    ensures r == 1.0 <==> c1 == c2
  {
    var maxLen := Max(|c1|, |c2|);
    if c1 == c2 then 1.0
    else if maxLen == 0 then 1.0
    else
      var d := Levenshtein(c1, c2);
      DistBounds(c1, c2, |c1|, |c2|);
      DistZeroIff(c1, c2, |c1|, |c2|);
      assert c1[..|c1|] == c1 && c2[..|c2|] == c2;
      RatioBounds(d, maxLen);
      1.0 - d as real / maxLen as real
  }

  /** Similarity is symmetric. */
  lemma SimilaritySymmetric(c1: string, c2: string)
    ensures Similarity(c1, c2) == Similarity(c2, c1)
  {
    DistSymmetric(c1, c2, |c1|, |c2|);
  }

  /** `calculateSimilarity`, computing the distance with the matrix. */
  method CalculateSimilarity(content1: string, content2: string) returns (r: real)
    ensures r == Similarity(content1, content2)
    ensures 0.0 <= r <= 1.0 && (r == 1.0 <==> content1 == content2)
  {
    if content1 == content2 {
      return 1.0;
    }
    var len1, len2 := |content1|, |content2|;
    var maxLen := if len1 >= len2 then len1 else len2;
    if maxLen == 0 {
      return 1.0;
    }
    var distance := LevenshteinDistance(content1, content2);
    r := 1.0 - distance as real / maxLen as real;
  }
}
