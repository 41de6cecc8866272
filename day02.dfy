/** Day 2, "Red-Nosed Reports": a report is a list of levels. It is safe when
    it only goes up or only goes down and every step changes the level by 1
    to 3. `part_1` counts the safe reports; `part_2` also counts a report
    that becomes safe once one level is removed. */
module Day02 {

  type Report = seq<int>

  function Abs(x: int): nat { if x < 0 then -x else x }

  /** `report == sorted(report)`: no level is below an earlier one. */
  predicate NonDecreasing(r: Report)
  {
    forall i, j :: 0 <= i < j < |r| ==> r[i] <= r[j]
  }

  /** `report == sorted(report, reverse=True)`: no level is above an earlier one. */
  predicate NonIncreasing(r: Report)
  {
    forall i, j :: 0 <= i < j < |r| ==> r[i] >= r[j]
  }

  /** The "all up/down" check of lines 24-26 (a failing report is skipped). */
  predicate Monotone(r: Report)
  {
    NonDecreasing(r) || NonIncreasing(r)
  }

  /** The "amount change" check of lines 29-33: no step is 0 or larger than 3. */
  predicate StepsInRange(r: Report)
  {
    forall i :: 0 <= i < |r| - 1 ==> r[i + 1] - r[i] != 0 && Abs(r[i + 1] - r[i]) <= 3
  }

  /** What `part_1` counts. */
  predicate Safe(r: Report)
  {
    Monotone(r) && StepsInRange(r)
  }

  /** An independent reading of safety: strictly increasing by steps of 1..3,
      or strictly decreasing by steps of 1..3. */
  predicate GentlyIncreasing(r: Report)
  {
    forall i :: 0 <= i < |r| - 1 ==> 1 <= r[i + 1] - r[i] <= 3
  }

  predicate GentlyDecreasing(r: Report)
  {
    forall i :: 0 <= i < |r| - 1 ==> 1 <= r[i] - r[i + 1] <= 3
  }

  /** Adjacent pairs in order imply all pairs in order. */
  lemma {:induction false} AdjacentNonDecreasing(r: Report, n: nat)
    requires n <= |r|
    requires forall i :: 0 <= i < |r| - 1 ==> r[i] <= r[i + 1]
    ensures forall i, j :: 0 <= i < j < n ==> r[i] <= r[j]
    decreases n
  {
    if n > 1 {
      AdjacentNonDecreasing(r, n - 1);
      assert forall i :: 0 <= i < n - 1 ==> r[i] <= r[n - 2] <= r[n - 1];
    }
  }

  lemma {:induction false} AdjacentNonIncreasing(r: Report, n: nat)
    requires n <= |r|
    requires forall i :: 0 <= i < |r| - 1 ==> r[i] >= r[i + 1]
    ensures forall i, j :: 0 <= i < j < n ==> r[i] >= r[j]
    decreases n
  {
    if n > 1 {
      AdjacentNonIncreasing(r, n - 1);
      assert forall i :: 0 <= i < n - 1 ==> r[i] >= r[n - 2] >= r[n - 1];
    }
  }

  /** A report is safe exactly when it rises gently or falls gently: the two
      checks of `part_1` together say "strictly monotone with steps of at most 3". */
  lemma SafeIffGentle(r: Report)
    ensures Safe(r) <==> GentlyIncreasing(r) || GentlyDecreasing(r)
  {
    if GentlyIncreasing(r) {
      AdjacentNonDecreasing(r, |r|);
    }
    if GentlyDecreasing(r) {
      AdjacentNonIncreasing(r, |r|);
    }
    if Safe(r) && NonDecreasing(r) {
      assert forall i :: 0 <= i < |r| - 1 ==> r[i] <= r[i + 1];
    }
    if Safe(r) && NonIncreasing(r) {
      assert forall i :: 0 <= i < |r| - 1 ==> r[i] >= r[i + 1];
    }
  }

  /** Empty and single-level reports are safe: there is no adjacent pair. */
  lemma ShortReportsSafe(r: Report)
    requires |r| <= 1
    ensures Safe(r)
  {
  }

  /** `sub_list.pop(i)` on a copy of the report: the report without level `i`. */
  function RemoveAt(r: Report, i: nat): (s: Report)
    requires i < |r|
    ensures |s| == |r| - 1
    ensures forall k :: 0 <= k < i ==> s[k] == r[k]
    ensures forall k :: i <= k < |s| ==> s[k] == r[k + 1]
  {
    r[..i] + r[i + 1..]
  }

  /** What `part_2` counts: some single removal leaves a safe report. */
  predicate Tolerable(r: Report)
  {
    exists i :: 0 <= i < |r| && Safe(RemoveAt(r, i))
  }

  /** `range(0)` offers no removal, so `part_2` never counts an empty report. */
  lemma EmptyNotTolerable()
    ensures !Tolerable([])
  {
  }

  /** Every non-empty safe report is still counted by `part_2`: dropping the
      first level keeps it safe. */
  lemma SafeIsTolerable(r: Report)
    requires |r| >= 1 && Safe(r)
    ensures Tolerable(r)
  {
    var s := RemoveAt(r, 0);
    assert forall k :: 0 <= k < |s| ==> s[k] == r[k + 1];
    if NonDecreasing(r) {
      forall i, j | 0 <= i < j < |s| ensures s[i] <= s[j] {
        assert r[i + 1] <= r[j + 1];
      }
    } else {
      forall i, j | 0 <= i < j < |s| ensures s[i] >= s[j] {
        assert r[i + 1] >= r[j + 1];
      }
    }
    forall i | 0 <= i < |s| - 1 ensures s[i + 1] - s[i] != 0 && Abs(s[i + 1] - s[i]) <= 3 {
      assert s[i + 1] - s[i] == r[i + 2] - r[i + 1];
    }
    assert Safe(s);
  }

  /** The safety test of one report as `part_1` runs it: the monotonicity check,
      then the step loop with `is_safe` and an early `break`. */
  method IsSafe(r: Report) returns (isSafe: bool)
    ensures isSafe <==> Safe(r)
  {
    if !MonotoneCheck(r) {
      return false;
    }
    isSafe := true;
    var i := 0;
    while i < |r| - 1
      invariant 0 <= i <= |r|
      invariant forall k :: 0 <= k < i && k < |r| - 1 ==> r[k + 1] - r[k] != 0 && Abs(r[k + 1] - r[k]) <= 3
    {
      var difference := r[i + 1] - r[i];
      if Abs(difference) > 3 || difference == 0 {
        isSafe := false;
        break;
      }
      i := i + 1;
    }
  }

  /** The comparison with `sorted(...)`, decided on adjacent pairs. */
  function MonotoneCheck(r: Report): (b: bool)
    ensures b <==> Monotone(r)
  {
    var up := forall i :: 0 <= i < |r| - 1 ==> r[i] <= r[i + 1];
    var down := forall i :: 0 <= i < |r| - 1 ==> r[i] >= r[i + 1];
    if up then AdjacentNonDecreasing(r, |r|); true
    else if down then AdjacentNonIncreasing(r, |r|); true
    else
      assert !NonDecreasing(r) by {
        var i :| 0 <= i < |r| - 1 && r[i] > r[i + 1];
      }
      assert !NonIncreasing(r) by {
        var i :| 0 <= i < |r| - 1 && r[i] < r[i + 1];
      }
      false
  }

  /** Number of reports satisfying `Safe`, resp. `Tolerable`, among `rs`. */
  function CountSafe(rs: seq<Report>): (n: nat)
    ensures n <= |rs|
    decreases |rs|
  {
    if |rs| == 0 then 0 else CountSafe(rs[..|rs| - 1]) + (if Safe(rs[|rs| - 1]) then 1 else 0)
  }

  function CountTolerable(rs: seq<Report>): (n: nat)
    ensures n <= |rs|
    decreases |rs|
  {
    if |rs| == 0 then 0 else CountTolerable(rs[..|rs| - 1]) + (if Tolerable(rs[|rs| - 1]) then 1 else 0)
  }

  /** `part_1`: the number of safe reports, at most the number of lines. */
  method Part1(reports: seq<Report>) returns (safeReports: nat)
    ensures safeReports == CountSafe(reports)
    ensures safeReports <= |reports|
  {
    safeReports := 0;
    for k := 0 to |reports|
      invariant safeReports == CountSafe(reports[..k])
    {
      assert reports[..k + 1][..k] == reports[..k];
      var isSafe := IsSafe(reports[k]);
      if isSafe {
        safeReports := safeReports + 1;
      }
    }
    assert reports[..|reports|] == reports;
  }

  /** The step loop of `part_2` over one candidate: `unsafe_count` goes to 1
      exactly when `is_safe` goes to false, at the first step out of range. */
  method CheckSteps(subList: Report) returns (isSafe: bool, unsafeCount: nat)
    ensures isSafe <==> StepsInRange(subList)
    ensures unsafeCount == if isSafe then 0 else 1
  {
    isSafe := true;
    unsafeCount := 0;
    var j := 0;
    while j < |subList| - 1
      invariant 0 <= j <= |subList|
      invariant isSafe && unsafeCount == 0
      invariant forall k :: 0 <= k < j && k < |subList| - 1 ==>
                  subList[k + 1] - subList[k] != 0 && Abs(subList[k + 1] - subList[k]) <= 3
    {
      var difference := subList[j + 1] - subList[j];
      if Abs(difference) > 3 || difference == 0 {
        isSafe := false;
        unsafeCount := unsafeCount + 1;
        break;
      }
      j := j + 1;
    }
  }

  /** `part_2`'s search over one report: try every removal, skip the ones that
      are not monotone, and stop at the first safe one. */
  method IsTolerable(report: Report) returns (found: bool)
    ensures found <==> Tolerable(report)
  {
    found := false;
    for i := 0 to |report|
      invariant forall k :: 0 <= k < i ==> !Safe(RemoveAt(report, k))
    {
      var subList := RemoveAt(report, i);
      if !MonotoneCheck(subList) {
        continue;
      }
      var isSafe, unsafeCount := CheckSteps(subList);
      if isSafe && unsafeCount == 0 {
        found := true;
        return;
      }
    }
  }

  /** `part_2`: the number of reports that some single removal makes safe,
      each counted once, at most the number of lines. */
  method Part2(reports: seq<Report>) returns (safeReports: nat)
    ensures safeReports == CountTolerable(reports)
    ensures safeReports <= |reports|
  {
    safeReports := 0;
    for k := 0 to |reports|
      invariant safeReports == CountTolerable(reports[..k])
    {
      assert reports[..k + 1][..k] == reports[..k];
      var found := IsTolerable(reports[k]);
      if found {
        safeReports := safeReports + 1;
      }
    }
    assert reports[..|reports|] == reports;
  }

  /** `part_2` counts at least what `part_1` counts, leaving out only empty
      reports (which `part_1` counts and `part_2` does not). */
  lemma {:induction false} Part2CountsSafeReports(rs: seq<Report>)
    requires forall k :: 0 <= k < |rs| ==> |rs[k]| >= 1
    ensures CountSafe(rs) <= CountTolerable(rs)
    decreases |rs|
  {
    if |rs| > 0 {
      Part2CountsSafeReports(rs[..|rs| - 1]);
      if Safe(rs[|rs| - 1]) {
        SafeIsTolerable(rs[|rs| - 1]);
      }
    }
  }
}
