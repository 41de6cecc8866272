/** Day 1, "Historian Hysteria": every input line holds two location ids, one
    for each of two lists. `part_1` pairs the smallest left id with the
    smallest right id, the second smallest with the second smallest and so on,
    and adds up the distances; `part_2` adds up every left id times the number
    of times it occurs in the right list. */
module Day01 {

  /** One line after `line.split()` and `int(...)`: the left and the right id. */
  type Line = (int, int)

  function Abs(x: int): nat { if x < 0 then -x else x }

  /** The left column, `left_location_ids` after the parsing loop. */
  function Lefts(lines: seq<Line>): (l: seq<int>)
    ensures |l| == |lines|
  {
    seq(|lines|, i requires 0 <= i < |lines| => lines[i].0)
  }

  /** The right column, `right_location_ids` after the parsing loop. */
  function Rights(lines: seq<Line>): (r: seq<int>)
    ensures |r| == |lines|
  {
    seq(|lines|, i requires 0 <= i < |lines| => lines[i].1)
  }

  /** The same lines with the two columns exchanged. */
  function SwapColumns(lines: seq<Line>): (s: seq<Line>)
    ensures |s| == |lines|
  {
    seq(|lines|, i requires 0 <= i < |lines| => (lines[i].1, lines[i].0))
  }

  // ---------------------------------------------------------------------------
  // Sorting (`list.sort()`)

  predicate Sorted(s: seq<int>)
  {
    forall i, j :: 0 <= i < j < |s| ==> s[i] <= s[j]
  }

  /** Insert `x` into a sorted sequence, keeping it sorted. */
  function Insert(x: int, s: seq<int>): (r: seq<int>)
    requires Sorted(s)
    ensures Sorted(r)
    ensures |r| == |s| + 1
    ensures forall y :: y in r ==> y == x || y in s
    decreases |s|
  {
    if |s| == 0 then [x]
    else if x <= s[0] then [x] + s
    else
      var rest := Insert(x, s[1..]);
      var r := [s[0]] + rest;
      forall i, j | 0 <= i < j < |r| ensures r[i] <= r[j] {
        if i == 0 {
          assert r[j] in rest;
        }
      }
      r
  }

  /** `Insert` adds exactly one occurrence of `x`. */
  lemma {:induction false} InsertPermutes(x: int, s: seq<int>)
    requires Sorted(s)
    ensures multiset(Insert(x, s)) == multiset(s) + multiset{x}
    decreases |s|
  {
    if |s| > 0 && x > s[0] {
      InsertPermutes(x, s[1..]);
      assert s == [s[0]] + s[1..];
    }
  }

  /** The ascending arrangement of `s`: sorted, and a permutation of `s`. */
  function Sort(s: seq<int>): (r: seq<int>)
    ensures Sorted(r)
    ensures multiset(r) == multiset(s)
    ensures |r| == |s|
    decreases |s|
  {
    if |s| == 0 then []
    else
      assert s == [s[0]] + s[1..];
      InsertPermutes(s[0], Sort(s[1..]));
      Insert(s[0], Sort(s[1..]))
  }

  /** Dropping the first element of a sequence drops one occurrence of it. */
  lemma DropFirst(s: seq<int>)
    requires |s| > 0
    ensures multiset(s[1..]) == multiset(s) - multiset{s[0]}
  {
    assert s == [s[0]] + s[1..];
  }

  /** Two sorted sequences with the same elements start with the same element:
      their least one. */
  lemma SortedSameFirst(a: seq<int>, b: seq<int>)
    requires Sorted(a) && Sorted(b)
    requires multiset(a) == multiset(b) && |a| > 0 && |b| > 0
    ensures a[0] == b[0]
  {
    assert a[0] in multiset(b);
    var k :| 0 <= k < |b| && b[k] == a[0];
    assert b[0] in multiset(a);
    var m :| 0 <= m < |a| && a[m] == b[0];
  }

  /** Two sorted sequences with the same elements are the same sequence, so
      `Sort` gives exactly what any correct sort (such as `list.sort`) gives. */
  lemma {:induction false} SortedUnique(a: seq<int>, b: seq<int>)
    requires Sorted(a) && Sorted(b)
    requires multiset(a) == multiset(b)
    ensures a == b
    decreases |a|
  {
    assert |a| == |multiset(a)| == |multiset(b)| == |b|;
    if |a| > 0 {
      SortedSameFirst(a, b);
      DropFirst(a);
      DropFirst(b);
      SortedUnique(a[1..], b[1..]);
      assert a == [a[0]] + a[1..] && b == [b[0]] + b[1..];
    }
  }

  /** Sorting depends only on the elements, not on their order. */
  lemma SortOfPermutation(a: seq<int>, b: seq<int>)
    requires multiset(a) == multiset(b)
    ensures Sort(a) == Sort(b)
  {
    SortedUnique(Sort(a), Sort(b));
  }

  // ---------------------------------------------------------------------------
  // Part 1: total distance

  /** The sum of `abs(pair[1] - pair[0])` over `zip(a, b)`. */
  function Distance(a: seq<int>, b: seq<int>): nat
    requires |a| == |b|
    decreases |a|
  {
    if |a| == 0 then 0
    else Distance(a[..|a| - 1], b[..|b| - 1]) + Abs(b[|b| - 1] - a[|a| - 1])
  }

  /** The distance is zero exactly when the two lists agree element by element. */
  lemma {:induction false} DistanceZeroIff(a: seq<int>, b: seq<int>)
    requires |a| == |b|
    ensures Distance(a, b) == 0 <==> a == b
    decreases |a|
  {
    if |a| > 0 {
      var n := |a| - 1;
      DistanceZeroIff(a[..n], b[..n]);
      assert a == a[..n] + [a[n]];
      assert b == b[..n] + [b[n]];
    }
  }

  /** Exchanging the two lists does not change the distance. */
  lemma {:induction false} DistanceSymmetric(a: seq<int>, b: seq<int>)
    requires |a| == |b|
    ensures Distance(a, b) == Distance(b, a)
    decreases |a|
  {
    if |a| > 0 {
      DistanceSymmetric(a[..|a| - 1], b[..|b| - 1]);
    }
  }

  /** What `part_1` returns: the distance between the two sorted columns. */
  function TotalDistance(lines: seq<Line>): nat
  {
    Distance(Sort(Lefts(lines)), Sort(Rights(lines)))
  }

  /** The total distance is zero exactly when the right column is a
      rearrangement of the left one. */
  lemma TotalDistanceZeroIff(lines: seq<Line>)
    ensures TotalDistance(lines) == 0 <==> multiset(Lefts(lines)) == multiset(Rights(lines))
  {
    DistanceZeroIff(Sort(Lefts(lines)), Sort(Rights(lines)));
    if multiset(Lefts(lines)) == multiset(Rights(lines)) {
      SortOfPermutation(Lefts(lines), Rights(lines));
    }
  }

  /** Reordering either column independently does not change the total. */
  lemma ColumnsReorderInvariant(lines: seq<Line>, other: seq<Line>)
    requires multiset(Lefts(lines)) == multiset(Lefts(other))
    requires multiset(Rights(lines)) == multiset(Rights(other))
    ensures TotalDistance(lines) == TotalDistance(other)
  {
    SortOfPermutation(Lefts(lines), Lefts(other));
    SortOfPermutation(Rights(lines), Rights(other));
  }

  lemma LeftsAppend(p: seq<Line>, q: seq<Line>)
    ensures Lefts(p + q) == Lefts(p) + Lefts(q)
    ensures Rights(p + q) == Rights(p) + Rights(q)
  {
  }

  /** Reordering the lines permutes each column. */
  lemma {:induction false} LinesReorderColumns(p: seq<Line>, q: seq<Line>)
    requires multiset(p) == multiset(q)
    ensures multiset(Lefts(p)) == multiset(Lefts(q))
    ensures multiset(Rights(p)) == multiset(Rights(q))
    decreases |p|
  {
    assert |p| == |multiset(p)| == |multiset(q)| == |q|;
    if |p| > 0 {
      var n := |p| - 1;
      var e := p[n];
      assert p == p[..n] + [e];
      assert e in multiset(q);
      var k :| 0 <= k < |q| && q[k] == e;
      var rest := q[..k] + q[k + 1..];
      assert q == q[..k] + [e] + q[k + 1..];
      assert multiset(rest) == multiset(q) - multiset{e};
      assert multiset(p[..n]) == multiset(p) - multiset{e};
      LinesReorderColumns(p[..n], rest);
      LeftsAppend(p[..n], [e]);
      LeftsAppend(q[..k], q[k + 1..]);
      LeftsAppend(q[..k] + [e], q[k + 1..]);
      LeftsAppend(q[..k], [e]);
    }
  }

  /** `part_1` does not depend on the order of the input lines. */
  lemma LinesReorderInvariant(lines: seq<Line>, other: seq<Line>)
    requires multiset(lines) == multiset(other)
    ensures TotalDistance(lines) == TotalDistance(other)
  {
    LinesReorderColumns(lines, other);
    ColumnsReorderInvariant(lines, other);
  }

  /** `part_1` does not depend on which list is written first. */
  lemma SwapColumnsInvariant(lines: seq<Line>)
    ensures TotalDistance(SwapColumns(lines)) == TotalDistance(lines)
  {
    assert Lefts(SwapColumns(lines)) == Rights(lines);
    assert Rights(SwapColumns(lines)) == Lefts(lines);
    DistanceSymmetric(Sort(Lefts(lines)), Sort(Rights(lines)));
  }

  /** The column-splitting loop of both parts (lines 18-23 and 47-52). */
  method ParseColumns(lines: seq<Line>) returns (left: seq<int>, right: seq<int>)
    ensures left == Lefts(lines) && right == Rights(lines)
  {
    left, right := [], [];
    for k := 0 to |lines|
      invariant left == Lefts(lines[..k]) && right == Rights(lines[..k])
    {
      var (leftId, rightId) := lines[k];
      LeftsAppend(lines[..k], [lines[k]]);
      assert lines[..k + 1] == lines[..k] + [lines[k]];
      left := left + [leftId];
      right := right + [rightId];
    }
    assert lines[..|lines|] == lines;
  }

  /** The `zip` loop of `part_1`: accumulate `abs(pair[1] - pair[0])`. */
  method SumDistances(left: seq<int>, right: seq<int>) returns (totalDistance: int)
    requires |left| == |right|
    ensures totalDistance == Distance(left, right)
  {
    totalDistance := 0;
    for k := 0 to |left|
      invariant totalDistance == Distance(left[..k], right[..k])
    {
      assert left[..k + 1][..k] == left[..k];
      assert right[..k + 1][..k] == right[..k];
      totalDistance := totalDistance + Abs(right[k] - left[k]);
    }
    assert left[..|left|] == left;
    assert right[..|right|] == right;
  }

  /** `part_1`: split the columns, sort both, add up the pairwise distances. */
  method Part1(lines: seq<Line>) returns (totalDistance: int)
    ensures totalDistance == TotalDistance(lines)
  {
    var left, right := ParseColumns(lines);
    left := Sort(left);
    right := Sort(right);
    totalDistance := SumDistances(left, right);
  }

  // ---------------------------------------------------------------------------
  // Part 2: similarity score

  /** How often `x` occurs in `s`, counted element by element. */
  function Occurrences(s: seq<int>, x: int): nat
    decreases |s|
  {
    if |s| == 0 then 0
    else Occurrences(s[..|s| - 1], x) + (if s[|s| - 1] == x then 1 else 0)
  }

  /** `Counter(right)[x]` is the multiplicity of `x` in the right column:
      the element count agrees with the multiset, and is 0 for an absent id. */
  lemma {:induction false} OccurrencesIsMultiplicity(s: seq<int>, x: int)
    ensures Occurrences(s, x) == multiset(s)[x]
    ensures x !in s ==> Occurrences(s, x) == 0
    decreases |s|
  {
    if |s| > 0 {
      var n := |s| - 1;
      OccurrencesIsMultiplicity(s[..n], x);
      assert s == s[..n] + [s[n]];
    }
  }

  /** The sum of `id * count(right, id)` over the left list. */
  function Similarity(left: seq<int>, right: seq<int>): int
    decreases |left|
  {
    if |left| == 0 then 0
    else Similarity(left[..|left| - 1], right) + left[|left| - 1] * Occurrences(right, left[|left| - 1])
  }

  /** What `part_2` returns. */
  function SimilarityScore(lines: seq<Line>): int
  {
    Similarity(Lefts(lines), Rights(lines))
  }

  /** A left id that does not occur on the right adds nothing. */
  lemma {:induction false} AbsentIdContributesNothing(left: seq<int>, right: seq<int>, x: int)
    requires x !in right
    ensures Similarity(left + [x], right) == Similarity(left, right)
  {
    assert (left + [x])[..|left|] == left;
    OccurrencesIsMultiplicity(right, x);
  }

  /** The score depends only on which ids the right list holds, and how often,
      not on their order. */
  lemma {:induction false} SimilarityReorderRight(left: seq<int>, right: seq<int>, other: seq<int>)
    requires multiset(right) == multiset(other)
    ensures Similarity(left, right) == Similarity(left, other)
    decreases |left|
  {
    if |left| > 0 {
      SimilarityReorderRight(left[..|left| - 1], right, other);
      OccurrencesIsMultiplicity(right, left[|left| - 1]);
      OccurrencesIsMultiplicity(other, left[|left| - 1]);
    }
  }

  /** `part_2`: count the right column, then add `id * counter[id]` for every
      left id. The `Counter` is the multiset of the right column. */
  method Part2(lines: seq<Line>) returns (similarityScore: int)
    ensures similarityScore == SimilarityScore(lines)
  {
    var left, right := ParseColumns(lines);
    var rightIdCounter := multiset(right);
    similarityScore := 0;
    for k := 0 to |left|
      invariant similarityScore == Similarity(left[..k], right)
    {
      assert left[..k + 1][..k] == left[..k];
      OccurrencesIsMultiplicity(right, left[k]);
      similarityScore := similarityScore + left[k] * rightIdCounter[left[k]];
    }
    assert left[..|left|] == left;
  }
}
