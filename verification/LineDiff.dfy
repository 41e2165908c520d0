/**
 The side-by-side line diff of the resource view: a longest-common-subsequence
 table filled in place, then walked back to build two aligned columns.
 The columns are proved to be an alignment of the two texts, and an optimal one.
 */
module LineDiff {
  import opened Strings

  datatype DiffLine = Equal(line: string) | Remove(line: string) | Add(line: string) | Empty

  // ----- Specification: alignments of two line lists -----

  /** One row of the two columns is an equal pair, a removal or an addition. */
  predicate RowOk(l: DiffLine, r: DiffLine) {
    || (l.Equal? && r == l)
    || (l.Remove? && r.Empty?)
    || (l.Empty? && r.Add?)
  }

  /** The lines a column shows, empty cells skipped. */
  function Shown(column: seq<DiffLine>): seq<string> {
    if column == [] then []
    else (if column[0].Empty? then [] else [column[0].line]) + Shown(column[1..])
  }

  /** The columns pair up row by row, and read alone show exactly `a` and `b`. */
  ghost predicate Alignment(left: seq<DiffLine>, right: seq<DiffLine>, a: seq<string>, b: seq<string>) {
    && |left| == |right|
    && (forall k :: 0 <= k < |left| ==> RowOk(left[k], right[k]))
    && Shown(left) == a
    && Shown(right) == b
  }

  /** The lines of the rows marked equal. */
  function EqualLines(column: seq<DiffLine>): seq<string> {
    if column == [] then []
    else (if column[0].Equal? then [column[0].line] else []) + EqualLines(column[1..])
  }

  /** Rows that add or remove a line: the cells of a column that are not equal rows. */
  function Edits(column: seq<DiffLine>): nat {
    if column == [] then 0
    else (if column[0].Equal? then 0 else 1) + Edits(column[1..])
  }

  /** `s` can be obtained from `a` by deleting elements. */
  ghost predicate Subsequence(s: seq<string>, a: seq<string>) {
    if s == [] then true
    else if a == [] then false
    else (s[0] == a[0] && Subsequence(s[1..], a[1..])) || Subsequence(s, a[1..])
  }

  // ----- The table -----

  /** What the table holds at row `i`, column `j`. */
  function Lcs(a: seq<string>, b: seq<string>, i: nat, j: nat): nat
    requires i <= |a| && j <= |b|
  {
    if i == 0 || j == 0 then 0
    else if a[i - 1] == b[j - 1] then Lcs(a, b, i - 1, j - 1) + 1
    else Max(Lcs(a, b, i - 1, j), Lcs(a, b, i, j - 1))
  }

  function Max(x: int, y: int): int {
    if x < y then y else x
  }

  ghost predicate RowFilled(dp: array2<nat>, a: seq<string>, b: seq<string>, i: nat)
    requires dp.Length0 == |a| + 1 && dp.Length1 == |b| + 1 && i <= |a|
    reads dp
  {
    forall j :: 0 <= j <= |b| ==> dp[i, j] == Lcs(a, b, i, j)
  }

  method FillRow(dp: array2<nat>, a: seq<string>, b: seq<string>, i: nat)
    requires dp.Length0 == |a| + 1 && dp.Length1 == |b| + 1 && 1 <= i <= |a|
    requires RowFilled(dp, a, b, i - 1) && dp[i, 0] == 0
    modifies dp
    ensures RowFilled(dp, a, b, i)
    ensures forall x, y :: 0 <= x <= |a| && x != i && 0 <= y <= |b| ==> dp[x, y] == old(dp[x, y])
  {
    for j := 1 to |b| + 1
      invariant forall y :: 0 <= y < j ==> dp[i, y] == Lcs(a, b, i, y)
      invariant forall x, y :: 0 <= x <= |a| && x != i && 0 <= y <= |b| ==> dp[x, y] == old(dp[x, y])
    {
      assert dp[i - 1, j] == Lcs(a, b, i - 1, j) && dp[i - 1, j - 1] == Lcs(a, b, i - 1, j - 1);
      dp[i, j] := if a[i - 1] == b[j - 1] then dp[i - 1, j - 1] + 1 else Max(dp[i - 1, j], dp[i, j - 1]);
    }
  }

  ghost predicate Filled(dp: array2<nat>, a: seq<string>, b: seq<string>)
    requires dp.Length0 == |a| + 1 && dp.Length1 == |b| + 1
    reads dp
  {
    forall i :: 0 <= i <= |a| ==> RowFilled(dp, a, b, i)
  }

  method FillTable(a: seq<string>, b: seq<string>) returns (dp: array2<nat>)
    ensures dp.Length0 == |a| + 1 && dp.Length1 == |b| + 1
    ensures Filled(dp, a, b)
  {
    dp := new nat[|a| + 1, |b| + 1]((_, _) => 0);
    for i := 1 to |a| + 1
      invariant forall x :: 0 <= x < i ==> RowFilled(dp, a, b, x)
      invariant forall x :: i <= x <= |a| ==> dp[x, 0] == 0
    {
      label Before:
      FillRow(dp, a, b, i);
      forall x | 0 <= x < i ensures RowFilled(dp, a, b, x) {
        assert old@Before(RowFilled(dp, a, b, x));
      }
    }
  }

  /** The rows so far align what lies behind the two positions, with as many equal rows as the table promises. */
  ghost predicate Walked(
    left: seq<DiffLine>, right: seq<DiffLine>, a: seq<string>, b: seq<string>, i: nat, j: nat)
    requires i <= |a| && j <= |b|
  {
    && Alignment(left, right, a[i..], b[j..])
    && |EqualLines(left)| + Lcs(a, b, i, j) == Lcs(a, b, |a|, |b|)
  }

  /** One more row in front of two aligned columns. */
  lemma {:induction false} RowInFront(l: DiffLine, r: DiffLine, left: seq<DiffLine>, right: seq<DiffLine>, a: seq<string>, b: seq<string>)
    requires Alignment(left, right, a, b) && RowOk(l, r)
    ensures Alignment([l] + left, [r] + right,
                      (if l.Empty? then [] else [l.line]) + a, (if r.Empty? then [] else [r.line]) + b)
    ensures |EqualLines([l] + left)| == |EqualLines(left)| + if l.Equal? then 1 else 0
  {
    assert ([l] + left)[1..] == left && ([r] + right)[1..] == right;
  }

  lemma WalkEqual(left: seq<DiffLine>, right: seq<DiffLine>, a: seq<string>, b: seq<string>, i: nat, j: nat)
    requires 0 < i <= |a| && 0 < j <= |b| && Walked(left, right, a, b, i, j) && a[i - 1] == b[j - 1]
    ensures Walked([Equal(a[i - 1])] + left, [Equal(b[j - 1])] + right, a, b, i - 1, j - 1)
  {
    RowInFront(Equal(a[i - 1]), Equal(b[j - 1]), left, right, a[i..], b[j..]);
    assert a[i - 1..] == [a[i - 1]] + a[i..] && b[j - 1..] == [b[j - 1]] + b[j..];
  }

  lemma WalkAdd(left: seq<DiffLine>, right: seq<DiffLine>, a: seq<string>, b: seq<string>, i: nat, j: nat)
    requires i <= |a| && 0 < j <= |b| && Walked(left, right, a, b, i, j) && Lcs(a, b, i, j - 1) == Lcs(a, b, i, j)
    ensures Walked([Empty] + left, [Add(b[j - 1])] + right, a, b, i, j - 1)
  {
    RowInFront(Empty, Add(b[j - 1]), left, right, a[i..], b[j..]);
    assert [] + a[i..] == a[i..] && b[j - 1..] == [b[j - 1]] + b[j..];
  }

  lemma WalkRemove(left: seq<DiffLine>, right: seq<DiffLine>, a: seq<string>, b: seq<string>, i: nat, j: nat)
    requires 0 < i <= |a| && j <= |b| && Walked(left, right, a, b, i, j) && Lcs(a, b, i - 1, j) == Lcs(a, b, i, j)
    ensures Walked([Remove(a[i - 1])] + left, [Empty] + right, a, b, i - 1, j)
  {
    RowInFront(Remove(a[i - 1]), Empty, left, right, a[i..], b[j..]);
    assert a[i - 1..] == [a[i - 1]] + a[i..] && [] + b[j..] == b[j..];
  }

  /** Where two lines differ, the larger neighbour of a cell has its value. */
  lemma LargerNeighbour(dp: array2<nat>, a: seq<string>, b: seq<string>, i: nat, j: nat)
    requires dp.Length0 == |a| + 1 && dp.Length1 == |b| + 1 && 0 < i <= |a| && 0 < j <= |b|
    requires Filled(dp, a, b) && a[i - 1] != b[j - 1]
    ensures Lcs(a, b, i, j) == if dp[i, j - 1] >= dp[i - 1, j] then Lcs(a, b, i, j - 1) else Lcs(a, b, i - 1, j)
  {
    assert RowFilled(dp, a, b, i) && RowFilled(dp, a, b, i - 1);
  }

  /** No added row stands directly above a removed one: a block of changes lists its removals first. */
  predicate RemovalsFirst(left: seq<DiffLine>) {
    forall k :: 0 < k < |left| && left[k].Remove? ==> !left[k - 1].Empty?
  }

  /** A removal is only walked over where stepping back in `b` would lose a common line. */
  ghost predicate Tied(left: seq<DiffLine>, a: seq<string>, b: seq<string>, i: nat, j: nat)
    requires i <= |a| && j <= |b|
  {
    RemovalsFirst(left) && (left != [] && left[0].Remove? && j > 0 ==> Lcs(a, b, i, j - 1) < Lcs(a, b, i, j))
  }

  /** One line more on one side adds at most one common line and takes none. */
  lemma {:induction false} LcsSteps(a: seq<string>, b: seq<string>, i: nat, j: nat)
    requires i <= |a| && j <= |b|
    ensures i > 0 ==> Lcs(a, b, i - 1, j) <= Lcs(a, b, i, j) <= Lcs(a, b, i - 1, j) + 1
    ensures j > 0 ==> Lcs(a, b, i, j - 1) <= Lcs(a, b, i, j) <= Lcs(a, b, i, j - 1) + 1
    decreases i + j
  {
    if i > 0 && j > 0 {
      LcsSteps(a, b, i - 1, j);
      LcsSteps(a, b, i, j - 1);
    }
  }

  lemma {:induction false} TieRemove(left: seq<DiffLine>, a: seq<string>, b: seq<string>, i: nat, j: nat)
    requires 0 < i <= |a| && j <= |b| && Tied(left, a, b, i, j)
    requires j > 0 ==> Lcs(a, b, i, j - 1) < Lcs(a, b, i - 1, j)
    ensures Tied([Remove(a[i - 1])] + left, a, b, i - 1, j)
  {
    if j > 0 { LcsSteps(a, b, i, j - 1); }
  }

  /** What the walk carries. */
  ghost predicate Carried(
    left: seq<DiffLine>, right: seq<DiffLine>, a: seq<string>, b: seq<string>, i: nat, j: nat)
    requires i <= |a| && j <= |b|
  {
    Walked(left, right, a, b, i, j) && Tied(left, a, b, i, j)
  }

  lemma StepEqual(left: seq<DiffLine>, right: seq<DiffLine>, a: seq<string>, b: seq<string>, i: nat, j: nat)
    requires 0 < i <= |a| && 0 < j <= |b| && Carried(left, right, a, b, i, j) && a[i - 1] == b[j - 1]
    ensures Carried([Equal(a[i - 1])] + left, [Equal(b[j - 1])] + right, a, b, i - 1, j - 1)
  {
    WalkEqual(left, right, a, b, i, j);
  }

  lemma WalkStarts(a: seq<string>, b: seq<string>)
    ensures Carried([], [], a, b, |a|, |b|)
  {
  }

  /** Where the table steps back in `a`, a removed row goes on top and there is no added row above one. */
  lemma StepRemove(
    dp: array2<nat>, left: seq<DiffLine>, right: seq<DiffLine>, a: seq<string>, b: seq<string>, i: nat, j: nat)
    requires dp.Length0 == |a| + 1 && dp.Length1 == |b| + 1 && 0 < i <= |a| && j <= |b|
    requires Filled(dp, a, b) && Carried(left, right, a, b, i, j)
    requires j > 0 ==> a[i - 1] != b[j - 1] && dp[i, j - 1] < dp[i - 1, j]
    ensures Carried([Remove(a[i - 1])] + left, [Empty] + right, a, b, i - 1, j)
  {
    if j > 0 { LargerNeighbour(dp, a, b, i, j); }
    assert RowFilled(dp, a, b, i) && RowFilled(dp, a, b, i - 1);
    WalkRemove(left, right, a, b, i, j);
    TieRemove(left, a, b, i, j);
  }

  /** Where the table steps back in `b`, an added row goes on top, and the row below it is no removal. */
  lemma StepAdd(
    dp: array2<nat>, left: seq<DiffLine>, right: seq<DiffLine>, a: seq<string>, b: seq<string>, i: nat, j: nat)
    requires dp.Length0 == |a| + 1 && dp.Length1 == |b| + 1 && i <= |a| && 0 < j <= |b|
    requires Filled(dp, a, b) && Carried(left, right, a, b, i, j)
    requires i > 0 ==> a[i - 1] != b[j - 1] && dp[i, j - 1] >= dp[i - 1, j]
    ensures Carried([Empty] + left, [Add(b[j - 1])] + right, a, b, i, j - 1)
  {
    if i > 0 { LargerNeighbour(dp, a, b, i, j); }
    WalkAdd(left, right, a, b, i, j);
  }

  /** The walk back over the table, from the two last lines to the first ones. */
  method Align(a: seq<string>, b: seq<string>) returns (left: seq<DiffLine>, right: seq<DiffLine>)
    ensures Alignment(left, right, a, b)
    ensures |EqualLines(left)| == Lcs(a, b, |a|, |b|)
    ensures RemovalsFirst(left)
  {
    var dp := FillTable(a, b);
    left, right := [], [];
    var i, j := |a|, |b|;
    WalkStarts(a, b);
    while i > 0 || j > 0
      invariant 0 <= i <= |a| && 0 <= j <= |b|
      invariant Carried(left, right, a, b, i, j) && Filled(dp, a, b)
      decreases i + j
    {
      if i > 0 && j > 0 && a[i - 1] == b[j - 1] {
        StepEqual(left, right, a, b, i, j);
        left, right := [Equal(a[i - 1])] + left, [Equal(b[j - 1])] + right;
        i, j := i - 1, j - 1;
        continue;
      }
      if j > 0 && (i == 0 || dp[i, j - 1] >= dp[i - 1, j]) {
        StepAdd(dp, left, right, a, b, i, j);
        left, right := [Empty] + left, [Add(b[j - 1])] + right;
        j := j - 1;
      } else {
        StepRemove(dp, left, right, a, b, i, j);
        left, right := [Remove(a[i - 1])] + left, [Empty] + right;
        i := i - 1;
      }
    }
    assert a[0..] == a && b[0..] == b;
  }

  // ----- Optimality -----

  lemma {:induction false} NothingOfNothing(s: seq<string>, a: seq<string>)
    requires |a| == 0 && Subsequence(s, a)
    ensures |s| == 0
  {
  }

  lemma {:induction false} OnlyElement(s: seq<string>, x: string)
    requires Subsequence(s, [x]) && s != []
    ensures s[0] == x && |s| == 1
  {
    var none := [x][1..];
    if Subsequence(s, none) { NothingOfNothing(s, none); } else { NothingOfNothing(s[1..], none); }
  }

  /** Dropping the last element of both sides of a subsequence step. */
  lemma {:induction false} SubsequenceSnoc(s: seq<string>, a: seq<string>, x: string)
    requires Subsequence(s, a + [x])
    ensures Subsequence(s, a) || (s != [] && s[|s| - 1] == x && Subsequence(s[..|s| - 1], a))
  {
    if s != [] {
      if a == [] {
        assert a + [x] == [x];
        OnlyElement(s, x);
      } else {
        assert (a + [x])[1..] == a[1..] + [x];
        if s[0] == a[0] && Subsequence(s[1..], a[1..] + [x]) {
          SubsequenceSnoc(s[1..], a[1..], x);
          if !Subsequence(s[1..], a[1..]) {
            assert s[1..][..|s| - 2] == s[..|s| - 1][1..];
          }
        } else {
          SubsequenceSnoc(s, a[1..], x);
        }
      }
    }
  }

  lemma {:induction false} SubsequenceInit(s: seq<string>, a: seq<string>)
    requires s != [] && Subsequence(s, a)
    ensures Subsequence(s[..|s| - 1], a)
  {
    if s[0] == a[0] && Subsequence(s[1..], a[1..]) {
      if |s| > 1 {
        SubsequenceInit(s[1..], a[1..]);
        assert s[1..][..|s| - 2] == s[..|s| - 1][1..];
      }
    } else {
      SubsequenceInit(s, a[1..]);
    }
  }

  /** The table bounds every common subsequence of the two prefixes. */
  lemma {:induction false} LcsIsUpperBound(a: seq<string>, b: seq<string>, i: nat, j: nat, s: seq<string>)
    requires i <= |a| && j <= |b|
    requires Subsequence(s, a[..i]) && Subsequence(s, b[..j])
    ensures |s| <= Lcs(a, b, i, j)
    decreases i + j
  {
    if s != [] {
      assert a[..i] == a[..i - 1] + [a[i - 1]];
      assert b[..j] == b[..j - 1] + [b[j - 1]];
      SubsequenceSnoc(s, a[..i - 1], a[i - 1]);
      SubsequenceSnoc(s, b[..j - 1], b[j - 1]);
      if a[i - 1] == b[j - 1] {
        var t := s[..|s| - 1];
        if Subsequence(s, a[..i - 1]) { SubsequenceInit(s, a[..i - 1]); }
        if Subsequence(s, b[..j - 1]) { SubsequenceInit(s, b[..j - 1]); }
        LcsIsUpperBound(a, b, i - 1, j - 1, t);
      } else if Subsequence(s, a[..i - 1]) {
        LcsIsUpperBound(a, b, i - 1, j, s);
      } else {
        LcsIsUpperBound(a, b, i, j - 1, s);
      }
    }
  }

  /** The equal rows of any alignment spell a common subsequence. */
  lemma {:induction false} EqualLinesAreCommon(
    left: seq<DiffLine>, right: seq<DiffLine>, a: seq<string>, b: seq<string>)
    requires Alignment(left, right, a, b)
    ensures Subsequence(EqualLines(left), a) && Subsequence(EqualLines(left), b)
    ensures |left| == |EqualLines(left)| + Edits(left)
    ensures Edits(left) == |a| + |b| - 2 * |EqualLines(left)|
  {
    if left != [] {
      assert RowOk(left[0], right[0]);
      forall k | 0 <= k < |left[1..]| ensures RowOk(left[1..][k], right[1..][k]) {
        assert RowOk(left[k + 1], right[k + 1]);
      }
      var a', b', rest := Shown(left[1..]), Shown(right[1..]), EqualLines(left[1..]);
      EqualLinesAreCommon(left[1..], right[1..], a', b');
      assert if left[0].Empty? then a == a' else a[1..] == a';
      assert if right[0].Empty? then b == b' else b[1..] == b';
      assert if left[0].Equal? then EqualLines(left)[1..] == rest else EqualLines(left) == rest;
    }
  }

  /** A column that uses fewest edits among all alignments of the same two lists. */
  ghost predicate Optimal(left: seq<DiffLine>, a: seq<string>, b: seq<string>) {
    && (forall s :: Subsequence(s, a) && Subsequence(s, b) ==> |s| <= |EqualLines(left)|)
    && (forall l, r :: Alignment(l, r, a, b) ==> Edits(left) <= Edits(l))
    && (forall l, r :: Alignment(l, r, a, b) ==> |left| <= |l|)
  }

  lemma {:induction false} FullTableIsOptimal(left: seq<DiffLine>, right: seq<DiffLine>, a: seq<string>, b: seq<string>)
    requires Alignment(left, right, a, b)
    requires |EqualLines(left)| == Lcs(a, b, |a|, |b|)
    ensures Optimal(left, a, b)
  {
    assert a[..|a|] == a && b[..|b|] == b;
    forall s | Subsequence(s, a) && Subsequence(s, b) ensures |s| <= |EqualLines(left)| {
      LcsIsUpperBound(a, b, |a|, |b|, s);
    }
    EqualLinesAreCommon(left, right, a, b);
    forall l, r | Alignment(l, r, a, b) ensures Edits(left) <= Edits(l) && |left| <= |l| {
      EqualLinesAreCommon(l, r, a, b);
    }
  }

  function AllEqual(a: seq<string>): seq<DiffLine> {
    if a == [] then [] else [Equal(a[0])] + AllEqual(a[1..])
  }

  /** A list aligned with itself needs no edit. */
  lemma {:induction false} SelfAlignment(a: seq<string>)
    ensures Alignment(AllEqual(a), AllEqual(a), a, a) && Edits(AllEqual(a)) == 0
  {
    if a != [] {
      SelfAlignment(a[1..]);
      var c := AllEqual(a);
      assert c[1..] == AllEqual(a[1..]);
      forall k | 0 <= k < |c| ensures RowOk(c[k], c[k]) {
        if k > 0 { assert RowOk(c[1..][k - 1], c[1..][k - 1]); }
      }
    }
  }

  lemma {:induction false} NoEditsMeansEqualColumns(
    left: seq<DiffLine>, right: seq<DiffLine>, a: seq<string>, b: seq<string>)
    requires Alignment(left, right, a, b) && Edits(left) == 0
    ensures left == right
  {
    if left != [] {
      assert RowOk(left[0], right[0]);
      forall k | 0 <= k < |left[1..]| ensures RowOk(left[1..][k], right[1..][k]) {
        assert RowOk(left[k + 1], right[k + 1]);
      }
      NoEditsMeansEqualColumns(left[1..], right[1..], Shown(left[1..]), Shown(right[1..]));
      assert left == [left[0]] + left[1..] && right == [right[0]] + right[1..];
    }
  }

  /**
   The whole operation on two texts: each column read alone gives its text back,
   equal rows form a longest common subsequence, and no alignment of the two
   texts has fewer added and removed rows or fewer rows in all. Where lines were both
   removed and added, the removed ones stand above the added ones.
   */
  method ComputeLineDiff(before: string, after: string) returns (left: seq<DiffLine>, right: seq<DiffLine>)
    ensures Alignment(left, right, Split(before, '\n'), Split(after, '\n'))
    ensures Join(Shown(left), '\n') == before && Join(Shown(right), '\n') == after
    ensures Subsequence(EqualLines(left), Split(before, '\n')) && Subsequence(EqualLines(left), Split(after, '\n'))
    ensures Optimal(left, Split(before, '\n'), Split(after, '\n'))
    ensures RemovalsFirst(left)
    ensures left == right <==> before == after
  {
    var a, b := Split(before, '\n'), Split(after, '\n');
    left, right := Align(a, b);
    FullTableIsOptimal(left, right, a, b);
    EqualLinesAreCommon(left, right, a, b);
    JoinSplit(before, '\n');
    JoinSplit(after, '\n');
    if before == after {
      SelfAlignment(a);
      NoEditsMeansEqualColumns(left, right, a, b);
    }
  }
}
