/** Day 5, "Print Queue": page-ordering rules `A|B` say page A must be printed
    before page B; updates are comma-separated page lists. `part_1` sums the
    middle pages of the updates whose adjacent pairs all follow a rule;
    `part_2` repairs the other updates with a bounded bubble sort and sums
    their middle pages. */
module Day05 {
  import opened Wrappers
  import opened Strings

  type Page = string

  // ---------------------------------------------------------------------------
  // Input lines
  // ---------------------------------------------------------------------------

  /** How `part_1` and `part_2` read one line. */
  datatype Line = Rule(before: Page, after: Page) | Update(pages: seq<Page>) | Other

  /** The unpacking `predecessor, successor = line.split("|")` needs exactly
      two fields, so a line with `|` must hold exactly one `|`. */
  predicate WellFormed(line: string)
  {
    '|' in line ==> |Split(line, '|')| == 2
  }

  predicate AllWellFormed(lines: seq<string>)
  {
    forall k :: 0 <= k < |lines| ==> WellFormed(lines[k])
  }

  /** A line with `|` is a rule (even if it also holds `,`); otherwise a line
      with `,` is an update; anything else is ignored. */
  function Classify(line: string): (l: Line)
    requires WellFormed(line)
    ensures l.Rule? <==> '|' in line
    ensures l.Update? <==> '|' !in line && ',' in line
    ensures l.Update? ==> |l.pages| >= 2
  {
    if '|' in line then
      var f := Split(line, '|');
      Rule(f[0], f[1])
    else if ',' in line then
      SplitAtSep(line, ',');
      Update(Split(line, ','))
    else Other
  }

  /** Classification loses nothing: a rule line is `before|after`, an update line
      is its pages joined by commas, and no field holds its separator. */
  lemma ClassifyRecoversLine(line: string)
    requires WellFormed(line)
    ensures Classify(line).Rule? ==> var l := Classify(line);
              line == l.before + "|" + l.after && '|' !in l.before && '|' !in l.after
    ensures Classify(line).Update? ==> var l := Classify(line);
              Join(l.pages, ',') == line && forall k :: 0 <= k < |l.pages| ==> ',' !in l.pages[k]
  {
    if '|' in line {
      var f := Split(line, '|');
      assert Join(f, '|') == f[0] + "|" + f[1];
    }
  }

  /** A rule is given by the first `n+1` lines iff it is given by the first `n`
      or by line `n`. */
  lemma HasRuleSnoc(lines: seq<string>, a: Page, b: Page)
    requires AllWellFormed(lines) && |lines| >= 1
    ensures AllWellFormed(lines[..|lines| - 1])
    ensures HasRule(lines, a, b) <==>
            HasRule(lines[..|lines| - 1], a, b) || Classify(lines[|lines| - 1]) == Rule(a, b)
  {
    var n := |lines| - 1;
    var init := lines[..n];
    assert HasRule(init, a, b) ==> HasRule(lines, a, b) by {
      if HasRule(init, a, b) {
        var k :| 0 <= k < n && Classify(init[k]) == Rule(a, b);
        assert lines[k] == init[k];
      }
    }
    assert Classify(lines[n]) == Rule(a, b) ==> HasRule(lines, a, b);
    assert HasRule(lines, a, b) ==> HasRule(init, a, b) || Classify(lines[n]) == Rule(a, b) by {
      if HasRule(lines, a, b) {
        var k :| 0 <= k < |lines| && Classify(lines[k]) == Rule(a, b);
        if k < n {
          assert init[k] == lines[k];
        }
      }
    }
  }

  /** The rule `a|b` is given by some line. */
  predicate HasRule(lines: seq<string>, a: Page, b: Page)
    requires AllWellFormed(lines)
  {
    exists k :: 0 <= k < |lines| && Classify(lines[k]) == Rule(a, b)
  }

  /** The updates, in line order. */
  function Updates(lines: seq<string>): (us: seq<seq<Page>>)
    requires AllWellFormed(lines)
    ensures forall k :: 0 <= k < |us| ==> |us[k]| >= 2
    decreases |lines|
  {
    if |lines| == 0 then []
    else
      var prev := Updates(lines[..|lines| - 1]);
      match Classify(lines[|lines| - 1])
      case Update(pages) => prev + [pages]
      case _ => prev
  }

  // ---------------------------------------------------------------------------
  // The page map, stored as lists (part_1) and as sets (part_2)
  // ---------------------------------------------------------------------------

  /** `page_map` after `page_map.setdefault(a, []).append(b)` for each rule line. */
  function ListRuleMap(lines: seq<string>): map<Page, seq<Page>>
    requires AllWellFormed(lines)
    decreases |lines|
  {
    if |lines| == 0 then map[]
    else
      var m := ListRuleMap(lines[..|lines| - 1]);
      match Classify(lines[|lines| - 1])
      case Rule(a, b) => m[a := (if a in m then m[a] else []) + [b]]
      case _ => m
  }

  /** `page_map` after `page_map.setdefault(a, set()).add(b)` for each rule line. */
  function SetRuleMap(lines: seq<string>): map<Page, set<Page>>
    requires AllWellFormed(lines)
    decreases |lines|
  {
    if |lines| == 0 then map[]
    else
      var m := SetRuleMap(lines[..|lines| - 1]);
      match Classify(lines[|lines| - 1])
      case Rule(a, b) => m[a := (if a in m then m[a] else {}) + {b}]
      case _ => m
  }

  lemma PrefixWellFormed(lines: seq<string>, n: nat)
    requires AllWellFormed(lines) && n <= |lines|
    ensures AllWellFormed(lines[..n])
  {
  }

  /** The list-valued map holds `b` under `a` exactly when some line is the rule `a|b`. */
  lemma {:induction false} ListRuleMapKnows(lines: seq<string>, a: Page, b: Page)
    requires AllWellFormed(lines)
    ensures (a in ListRuleMap(lines) && b in ListRuleMap(lines)[a]) <==> HasRule(lines, a, b)
    decreases |lines|
  {
    if |lines| > 0 {
      var init := lines[..|lines| - 1];
      HasRuleSnoc(lines, a, b);
      ListRuleMapKnows(init, a, b);
      var m := ListRuleMap(init);
      match Classify(lines[|lines| - 1])
      case Rule(x, y) =>
        assert ListRuleMap(lines) == m[x := (if x in m then m[x] else []) + [y]];
      case _ =>
        assert ListRuleMap(lines) == m;
    }
  }

  /** The set-valued map holds `b` under `a` exactly when some line is the rule `a|b`. */
  lemma {:induction false} SetRuleMapKnows(lines: seq<string>, a: Page, b: Page)
    requires AllWellFormed(lines)
    ensures (a in SetRuleMap(lines) && b in SetRuleMap(lines)[a]) <==> HasRule(lines, a, b)
    decreases |lines|
  {
    if |lines| > 0 {
      var init := lines[..|lines| - 1];
      HasRuleSnoc(lines, a, b);
      SetRuleMapKnows(init, a, b);
      var m := SetRuleMap(init);
      match Classify(lines[|lines| - 1])
      case Rule(x, y) =>
        assert SetRuleMap(lines) == m[x := (if x in m then m[x] else {}) + {y}];
      case _ =>
        assert SetRuleMap(lines) == m;
    }
  }

  /** List storage and set storage answer every membership question alike, and
      they have the same keys. */
  lemma ListAndSetMapsAgree(lines: seq<string>, a: Page, b: Page)
    requires AllWellFormed(lines)
    ensures (a in ListRuleMap(lines) && b in ListRuleMap(lines)[a])
        <==> (a in SetRuleMap(lines) && b in SetRuleMap(lines)[a])
  {
    ListRuleMapKnows(lines, a, b);
    SetRuleMapKnows(lines, a, b);
  }

  // ---------------------------------------------------------------------------
  // Validation
  // ---------------------------------------------------------------------------

  /** The adjacency-only check: each page and the next one are joined by a rule.
      Pages that are not neighbours are never compared. */
  predicate Ordered(lines: seq<string>, u: seq<Page>)
    requires AllWellFormed(lines)
  {
    forall k :: 0 <= k < |u| - 1 ==> HasRule(lines, u[k], u[k + 1])
  }

  /** Updates of zero or one page have no adjacent pair and are always valid. */
  lemma ShortUpdatesOrdered(lines: seq<string>, u: seq<Page>)
    requires AllWellFormed(lines) && |u| <= 1
    ensures Ordered(lines, u)
  {
  }

  /** The updates that pass the check, in input order. */
  function ValidUpdates(lines: seq<string>, us: seq<seq<Page>>): seq<seq<Page>>
    requires AllWellFormed(lines)
    decreases |us|
  {
    if |us| == 0 then []
    else
      var prev := ValidUpdates(lines, us[..|us| - 1]);
      if Ordered(lines, us[|us| - 1]) then prev + [us[|us| - 1]] else prev
  }

  /** The updates that fail the check, in input order. */
  function InvalidUpdates(lines: seq<string>, us: seq<seq<Page>>): seq<seq<Page>>
    requires AllWellFormed(lines)
    decreases |us|
  {
    if |us| == 0 then []
    else
      var prev := InvalidUpdates(lines, us[..|us| - 1]);
      if Ordered(lines, us[|us| - 1]) then prev else prev + [us[|us| - 1]]
  }

  /** `part_1` and `part_2` split the updates between them: the valid ones all
      pass the check, the invalid ones all fail it, and together they are the
      updates, none lost and none counted twice. */
  lemma Partition(lines: seq<string>, us: seq<seq<Page>>)
    requires AllWellFormed(lines)
    ensures multiset(ValidUpdates(lines, us)) + multiset(InvalidUpdates(lines, us)) == multiset(us)
    ensures forall k :: 0 <= k < |ValidUpdates(lines, us)| ==> Ordered(lines, ValidUpdates(lines, us)[k])
    ensures forall k :: 0 <= k < |InvalidUpdates(lines, us)| ==> !Ordered(lines, InvalidUpdates(lines, us)[k])
  {
    PartitionLosesNothing(lines, us);
    ValidUpdatesAreOrdered(lines, us);
    InvalidUpdatesAreNot(lines, us);
  }

  lemma {:induction false} PartitionLosesNothing(lines: seq<string>, us: seq<seq<Page>>)
    requires AllWellFormed(lines)
    ensures multiset(ValidUpdates(lines, us)) + multiset(InvalidUpdates(lines, us)) == multiset(us)
    decreases |us|
  {
    if |us| > 0 {
      var init, u := us[..|us| - 1], us[|us| - 1];
      PartitionLosesNothing(lines, init);
      assert multiset(us) == multiset(init) + multiset{u} by {
        assert us == init + [u];
      }
    }
  }

  lemma {:induction false} ValidUpdatesAreOrdered(lines: seq<string>, us: seq<seq<Page>>)
    requires AllWellFormed(lines)
    ensures forall k :: 0 <= k < |ValidUpdates(lines, us)| ==> Ordered(lines, ValidUpdates(lines, us)[k])
    decreases |us|
  {
    if |us| > 0 {
      ValidUpdatesAreOrdered(lines, us[..|us| - 1]);
    }
  }

  lemma {:induction false} InvalidUpdatesAreNot(lines: seq<string>, us: seq<seq<Page>>)
    requires AllWellFormed(lines)
    ensures forall k :: 0 <= k < |InvalidUpdates(lines, us)| ==> !Ordered(lines, InvalidUpdates(lines, us)[k])
    decreases |us|
  {
    if |us| > 0 {
      InvalidUpdatesAreNot(lines, us[..|us| - 1]);
    }
  }

  lemma ValidUpdatesSnoc(lines: seq<string>, us: seq<seq<Page>>, k: nat)
    requires AllWellFormed(lines) && k < |us|
    ensures ValidUpdates(lines, us[..k + 1])
         == ValidUpdates(lines, us[..k]) + if Ordered(lines, us[k]) then [us[k]] else []
  {
    assert us[..k + 1][..k] == us[..k];
  }

  lemma InvalidUpdatesSnoc(lines: seq<string>, us: seq<seq<Page>>, k: nat)
    requires AllWellFormed(lines) && k < |us|
    ensures InvalidUpdates(lines, us[..k + 1])
         == InvalidUpdates(lines, us[..k]) + if Ordered(lines, us[k]) then [] else [us[k]]
  {
    assert us[..k + 1][..k] == us[..k];
  }

  lemma {:induction false} ValidUpdatesAppend(lines: seq<string>, us: seq<seq<Page>>, vs: seq<seq<Page>>)
    requires AllWellFormed(lines)
    ensures ValidUpdates(lines, us + vs) == ValidUpdates(lines, us) + ValidUpdates(lines, vs)
    decreases |vs|
  {
    if |vs| == 0 {
      assert us + vs == us;
    } else {
      ValidUpdatesAppend(lines, us, vs[..|vs| - 1]);
      assert (us + vs)[..|us + vs| - 1] == us + vs[..|vs| - 1];
    }
  }

  // ---------------------------------------------------------------------------
  // Middle pages and their sum
  // ---------------------------------------------------------------------------

  /** `update[len(update)//2]`: for an even length, the upper of the two middle pages. */
  function Middle(u: seq<Page>): (r: Page)
    requires |u| >= 1
    ensures r in u
  {
    u[|u| / 2]
  }

  /** `int(update[len(update)//2])`; `None` where Python raises (an empty list,
      or a middle page that is not a number). */
  function MiddleValue(u: seq<Page>): Option<int>
  {
    if |u| == 0 then None else ParseInt(Middle(u))
  }

  /** The running `answer += int(update[len(update)//2])` over `us`; `None` as
      soon as one conversion fails. */
  function SumMiddles(us: seq<seq<Page>>): Option<int>
    decreases |us|
  {
    if |us| == 0 then Some(0)
    else
      match SumMiddles(us[..|us| - 1])
      case None => None
      case Some(total) =>
        match MiddleValue(us[|us| - 1])
        case None => None
        case Some(v) => Some(total + v)
  }

  /** Once one middle page fails to convert, the whole sum fails. */
  lemma {:induction false} SumMiddlesNoneAbsorbs(us: seq<seq<Page>>, vs: seq<seq<Page>>)
    requires SumMiddles(us) == None
    ensures SumMiddles(us + vs) == None
    decreases |vs|
  {
    if |vs| > 0 {
      var init := vs[..|vs| - 1];
      SumMiddlesNoneAbsorbs(us, init);
      assert (us + vs)[..|us + vs| - 1] == us + init;
    } else {
      assert us + vs == us;
    }
  }

  /** When every middle page converts, the sum is the sum of their values. */
  lemma {:induction false} SumMiddlesOfNumbers(us: seq<seq<Page>>, values: seq<int>)
    requires |us| == |values|
    requires forall k :: 0 <= k < |us| ==> MiddleValue(us[k]) == Some(values[k])
    ensures SumMiddles(us) == Some(Sum(values))
    decreases |us|
  {
    if |us| > 0 {
      SumMiddlesOfNumbers(us[..|us| - 1], values[..|values| - 1]);
    }
  }

  function Sum(xs: seq<int>): int
    decreases |xs|
  {
    if |xs| == 0 then 0 else Sum(xs[..|xs| - 1]) + xs[|xs| - 1]
  }

  // ---------------------------------------------------------------------------
  // sort_invalid: the bounded bubble sort
  // ---------------------------------------------------------------------------

  /** The inner loop leaves the pair `(x, y)` in place only when the rule `y|x`
      exists, i.e. `x in page_map[y]`; it swaps every other pair. */
  predicate Keeps(m: map<Page, set<Page>>, x: Page, y: Page)
  {
    y in m && x in m[y]
  }

  function SwapAt(s: seq<Page>, j: nat): (r: seq<Page>)
    requires j + 1 < |s|
    ensures |r| == |s| && r[j] == s[j + 1] && r[j + 1] == s[j]
    ensures forall k :: 0 <= k < |s| && k != j && k != j + 1 ==> r[k] == s[k]
  {
    s[j := s[j + 1]][j + 1 := s[j]]
  }

  /** The outcome of one pass of the inner loop: the pages and the `swapped` flag. */
  datatype PassResult = PassResult(pages: seq<Page>, swapped: bool)

  /** Comparisons `j, j+1, ..., stop-1` of one inner pass; one that swaps
      nothing leaves the pages as they are. */
  function Pass(s: seq<Page>, m: map<Page, set<Page>>, j: nat, stop: nat): (r: PassResult)
    requires j <= stop < |s|
    ensures |r.pages| == |s|
    decreases stop - j
  {
    if j == stop then PassResult(s, false)
    else
      var keep := Keeps(m, s[j], s[j + 1]);
      var rest := Pass(if keep then s else SwapAt(s, j), m, j + 1, stop);
      PassResult(rest.pages, rest.swapped || !keep)
  }

  /** Outer passes `i, i+1, ..., n-1`; pass `i` compares positions `0 .. n-i-2`,
      and the loop stops after the first pass that swaps nothing. */
  function Passes(s: seq<Page>, m: map<Page, set<Page>>, i: nat): (r: seq<Page>)
    requires i <= |s|
    ensures |r| == |s|
    decreases |s| - i
  {
    if i == |s| then s
    else
      var p := Pass(s, m, 0, |s| - i - 1);
      if !p.swapped then p.pages else Passes(p.pages, m, i + 1)
  }

  /** A swap of neighbours keeps the multiset of pages. */
  lemma SwapAtPermutes(s: seq<Page>, j: nat)
    requires j + 1 < |s|
    ensures multiset(SwapAt(s, j)) == multiset(s)
  {
    var t := s[j := s[j + 1]];
    assert multiset(t) == multiset(s) - multiset{s[j]} + multiset{s[j + 1]};
    assert multiset(t[j + 1 := s[j]]) == multiset(t) - multiset{s[j + 1]} + multiset{s[j]};
  }

  /** A pass only swaps neighbours, so it permutes the pages. */
  lemma {:induction false} PassPermutes(s: seq<Page>, m: map<Page, set<Page>>, j: nat, stop: nat)
    requires j <= stop < |s|
    ensures multiset(Pass(s, m, j, stop).pages) == multiset(s)
    decreases stop - j
  {
    if j < stop {
      var t := if Keeps(m, s[j], s[j + 1]) then s else SwapAt(s, j);
      assert Pass(s, m, j, stop).pages == Pass(t, m, j + 1, stop).pages by {
        PassStep(s, m, j, stop);
      }
      assert multiset(t) == multiset(s) by {
        if !Keeps(m, s[j], s[j + 1]) {
          SwapAtPermutes(s, j);
        }
      }
      assert multiset(Pass(t, m, j + 1, stop).pages) == multiset(t) by {
        PassPermutes(t, m, j + 1, stop);
      }
    }
  }

  /** The outer passes permute the pages. */
  lemma {:induction false} PassesPermute(s: seq<Page>, m: map<Page, set<Page>>, i: nat)
    requires i <= |s|
    ensures multiset(Passes(s, m, i)) == multiset(s)
    decreases |s| - i
  {
    if i < |s| {
      var p := Pass(s, m, 0, |s| - i - 1);
      PassesStep(s, m, i);
      PassPermutes(s, m, 0, |s| - i - 1);
      if p.swapped {
        PassesPermute(p.pages, m, i + 1);
      }
    }
  }

  /** What `sort_invalid(update, page_map)` leaves in `update`. */
  function Repair(s: seq<Page>, m: map<Page, set<Page>>): (r: seq<Page>)
    ensures |r| == |s|
  {
    Passes(s, m, 0)
  }

  /** The repair is a permutation of its input with the same length. */
  lemma RepairPermutes(s: seq<Page>, m: map<Page, set<Page>>)
    ensures |Repair(s, m)| == |s| && multiset(Repair(s, m)) == multiset(s)
  {
    PassesPermute(s, m, 0);
  }

  /** One comparison of a pass: keep the pair, or swap it and note the swap. */
  lemma PassStep(s: seq<Page>, m: map<Page, set<Page>>, j: nat, stop: nat)
    requires j < stop < |s|
    ensures Keeps(m, s[j], s[j + 1]) ==> Pass(s, m, j, stop) == Pass(s, m, j + 1, stop)
    ensures !Keeps(m, s[j], s[j + 1]) ==>
              Pass(s, m, j, stop) == PassResult(Pass(SwapAt(s, j), m, j + 1, stop).pages, true)
  {
  }

  /** One comparison of the inner loop (lines 24-26), in place: swap `j` and
      `j+1` unless the rule `update[j+1]|update[j]` exists, and report whether
      it swapped. The rest of the pass then gives the same pages and the same
      `swapped` flag. */
  method CompareAndSwap(update: array<Page>, pageMap: map<Page, set<Page>>, j: nat, stop: nat)
    returns (swapped: bool)
    requires j < stop < update.Length
    modifies update
    ensures swapped == !Keeps(pageMap, old(update[j]), old(update[j + 1]))
    ensures update[..] == if swapped then SwapAt(old(update[..]), j) else old(update[..])
    ensures Pass(update[..], pageMap, j + 1, stop).pages == Pass(old(update[..]), pageMap, j, stop).pages
    ensures (swapped || Pass(update[..], pageMap, j + 1, stop).swapped) == Pass(old(update[..]), pageMap, j, stop).swapped
  {
    ghost var cur := update[..];
    PassStep(cur, pageMap, j, stop);
    swapped := false;
    if update[j + 1] !in pageMap || update[j] !in pageMap[update[j + 1]] {
      assert !Keeps(pageMap, cur[j], cur[j + 1]);
      update[j], update[j + 1] := update[j + 1], update[j];
      assert update[..] == SwapAt(cur, j);
      swapped := true;
    } else {
      assert Keeps(pageMap, cur[j], cur[j + 1]);
    }
  }

  /** One pass of the inner loop of `sort_invalid` (lines 21-27), in place:
      compares positions `0 .. stop-1` and swaps every pair not backed by the
      reverse rule. */
  method BubblePass(update: array<Page>, pageMap: map<Page, set<Page>>, stop: nat) returns (swapped: bool)
    requires stop < update.Length
    modifies update
    ensures update[..] == Pass(old(update[..]), pageMap, 0, stop).pages
    ensures swapped == Pass(old(update[..]), pageMap, 0, stop).swapped
  {
    ghost var goal := Pass(update[..], pageMap, 0, stop);
    swapped := false;
    var j := 0;
    while j < stop
      invariant 0 <= j <= stop
      invariant Pass(update[..], pageMap, j, stop).pages == goal.pages
      invariant (swapped || Pass(update[..], pageMap, j, stop).swapped) == goal.swapped
    {
      var swappedHere := CompareAndSwap(update, pageMap, j, stop);
      swapped := swapped || swappedHere;
      j := j + 1;
    }
  }

  /** One outer pass: either the loop stops after it, or the remaining passes
      continue from its result. */
  lemma PassesStep(s: seq<Page>, m: map<Page, set<Page>>, i: nat)
    requires i < |s|
    ensures var p := Pass(s, m, 0, |s| - i - 1);
            Passes(s, m, i) == if p.swapped then Passes(p.pages, m, i + 1) else p.pages
  {
  }

  /** `sort_invalid`: the bubble sort, in place. Its result is a permutation of
      the input of the same length. */
  method SortInvalid(update: array<Page>, pageMap: map<Page, set<Page>>)
    modifies update
    ensures update[..] == Repair(old(update[..]), pageMap)
    ensures multiset(update[..]) == multiset(old(update[..]))
  {
    ghost var goal := Repair(update[..], pageMap);
    assert multiset(goal) == multiset(update[..]) by {
      RepairPermutes(update[..], pageMap);
    }
    var n := update.Length;
    var i := 0;
    while i < n
      invariant 0 <= i <= n
      invariant Passes(update[..], pageMap, i) == goal
    {
      PassesStep(update[..], pageMap, i);
      var swapped := BubblePass(update, pageMap, n - i - 1);
      if !swapped {
        break;
      }
      i := i + 1;
    }
  }

  /** Number of comparisons the bubble sort makes from pass `i` on. */
  function Comparisons(s: seq<Page>, m: map<Page, set<Page>>, i: nat): nat
    requires i <= |s|
    decreases |s| - i
  {
    if i == |s| then 0
    else
      var p := Pass(s, m, 0, |s| - i - 1);
      (|s| - i - 1) + (if !p.swapped then 0 else Comparisons(p.pages, m, i + 1))
  }

  /** `0 + 1 + ... + (k-1)`: the comparisons of passes making `k-1, k-2, ..., 0`. */
  function Pairs(k: nat): nat
  {
    if k == 0 then 0 else Pairs(k - 1) + (k - 1)
  }

  lemma {:induction false} PairsClosedForm(k: nat)
    ensures 2 * Pairs(k) == k * (k - 1)
  {
    if k > 0 {
      PairsClosedForm(k - 1);
      assert k * (k - 1) == (k - 1) * (k - 2) + 2 * (k - 1);
    }
  }

  /** The bubble sort always terminates within `n` passes, pass `i` making
      `n-i-1` comparisons: at most `n(n-1)/2` comparisons in all. */
  lemma {:induction false} ComparisonsBound(s: seq<Page>, m: map<Page, set<Page>>, i: nat)
    requires i <= |s|
    ensures 2 * Comparisons(s, m, i) <= (|s| - i) * (|s| - i - 1)
  {
    ComparisonsAtMostPairs(s, m, i);
    PairsClosedForm(|s| - i);
  }

  lemma {:induction false} ComparisonsAtMostPairs(s: seq<Page>, m: map<Page, set<Page>>, i: nat)
    requires i <= |s|
    ensures Comparisons(s, m, i) <= Pairs(|s| - i)
    decreases |s| - i
  {
    if i < |s| {
      var p := Pass(s, m, 0, |s| - i - 1);
      if p.swapped {
        ComparisonsAtMostPairs(p.pages, m, i + 1);
        assert Comparisons(s, m, i) == (|s| - i - 1) + Comparisons(p.pages, m, i + 1);
      }
    }
  }

  /** A pass swaps nothing exactly when each pair it compares is backed by the
      reverse rule. */
  lemma {:induction false} PassNoSwap(s: seq<Page>, m: map<Page, set<Page>>, j: nat, stop: nat)
    requires j <= stop < |s|
    ensures !Pass(s, m, j, stop).swapped <==> forall k :: j <= k < stop ==> Keeps(m, s[k], s[k + 1])
    ensures !Pass(s, m, j, stop).swapped ==> Pass(s, m, j, stop).pages == s
    decreases stop - j
  {
    if j < stop {
      if Keeps(m, s[j], s[j + 1]) {
        assert (!Pass(s, m, j + 1, stop).swapped <==> forall k :: j + 1 <= k < stop ==> Keeps(m, s[k], s[k + 1]))
            && (!Pass(s, m, j + 1, stop).swapped ==> Pass(s, m, j + 1, stop).pages == s) by {
          PassNoSwap(s, m, j + 1, stop);
        }
        assert Pass(s, m, j, stop) == Pass(s, m, j + 1, stop);
      } else {
        assert Pass(s, m, j, stop).swapped;
      }
    }
  }

  /** Every adjacent pair `(x, y)` is backed by the rule `y|x`. */
  predicate ReverseOrdered(m: map<Page, set<Page>>, s: seq<Page>)
  {
    forall k :: 0 <= k < |s| - 1 ==> Keeps(m, s[k], s[k + 1])
  }

  /** When pass `i` swaps nothing the loop breaks: the pages stay as they are,
      and each pair that pass compared is backed by the reverse rule. */
  lemma BreakLeavesReverseOrder(s: seq<Page>, m: map<Page, set<Page>>, i: nat)
    requires i < |s|
    requires !Pass(s, m, 0, |s| - i - 1).swapped
    ensures Passes(s, m, i) == s
    ensures forall k :: 0 <= k < |s| - i - 1 ==> Keeps(m, s[k], s[k + 1])
  {
    PassNoSwap(s, m, 0, |s| - i - 1);
  }

  /** The repair changes nothing exactly on reverse-ordered input; in particular
      running it again on a reverse-ordered result makes no further swap. */
  lemma RepairFixesExactlyReverseOrdered(s: seq<Page>, m: map<Page, set<Page>>)
    requires |s| >= 1
    ensures ReverseOrdered(m, s) <==> !Pass(s, m, 0, |s| - 1).swapped
    ensures ReverseOrdered(m, s) ==> Repair(s, m) == s
  {
    PassNoSwap(s, m, 0, |s| - 1);
  }

  /** The repair does not produce forward rule order: with the single rule `1|2`,
      the invalid update `2,1` is left as it is (still invalid), and the valid
      update `1,2` would be reversed. */
  lemma RepairKeepsReverseOrder()
    ensures Repair(["2", "1"], map["1" := {"2"}]) == ["2", "1"]
    ensures Repair(["1", "2"], map["1" := {"2"}]) == ["2", "1"]
  {
    var m := map["1" := {"2"}];
    assert Keeps(m, "2", "1");
    assert !Keeps(m, "1", "2");
    assert SwapAt(["1", "2"], 0) == ["2", "1"];
    assert Pass(["2", "1"], m, 1, 0 + 1) == PassResult(["2", "1"], false);
    assert Pass(["1", "2"], m, 0, 1).swapped;
    assert Pass(["2", "1"], m, 0, 0) == PassResult(["2", "1"], false);
  }

  /** Nor does it produce reverse rule order in general: a pair with no rule
      either way is swapped too, so with the single rule `1|2` the update
      `1,3` becomes `3,1`, and `3,1` is not backed by a rule `1|3`. */
  lemma RepairSwapsUnrelatedPairs()
    ensures Repair(["1", "3"], map["1" := {"2"}]) == ["3", "1"]
    ensures !ReverseOrdered(map["1" := {"2"}], ["3", "1"])
  {
    var m := map["1" := {"2"}];
    assert !Keeps(m, "1", "3") && !Keeps(m, "3", "1");
    assert SwapAt(["1", "3"], 0) == ["3", "1"];
    assert Pass(["3", "1"], m, 1, 1) == PassResult(["3", "1"], false);
    assert Pass(["1", "3"], m, 0, 1) == PassResult(["3", "1"], true);
    assert Pass(["3", "1"], m, 0, 0) == PassResult(["3", "1"], false);
  }

  // ---------------------------------------------------------------------------
  // Reverse order and the middle page
  // ---------------------------------------------------------------------------

  /** The pages in the opposite order. */
  function Reverse(s: seq<Page>): (r: seq<Page>)
  {
    seq(|s|, k requires 0 <= k < |s| => s[|s| - 1 - k])
  }

  /** For an odd length the middle page of the reversed list is the middle page
      of the list; for an even length it is the page just before it. */
  lemma MiddleOfReverse(s: seq<Page>)
    requires |s| >= 1
    ensures |s| % 2 == 1 ==> Middle(Reverse(s)) == Middle(s)
    ensures |s| % 2 == 0 ==> Middle(Reverse(s)) == s[|s| / 2 - 1]
  {
    var n, h := |s|, |s| / 2;
    assert Middle(Reverse(s)) == s[n - 1 - h];
    if n % 2 == 1 {
      assert n == 2 * h + 1;
    } else {
      assert n == 2 * h;
    }
  }

  /** With the page map built from the rules, reverse order is forward order of
      the reversed list. */
  lemma ReverseOrderedIsReversedOrder(lines: seq<string>, s: seq<Page>)
    requires AllWellFormed(lines)
    ensures ReverseOrdered(SetRuleMap(lines), s) <==> Ordered(lines, Reverse(s))
  {
    var m := SetRuleMap(lines);
    var r := Reverse(s);
    var n := |s|;
    forall k | 0 <= k < n - 1
      ensures Keeps(m, s[k], s[k + 1]) <==> HasRule(lines, r[n - 2 - k], r[n - 1 - k])
    {
      SetRuleMapKnows(lines, s[k + 1], s[k]);
    }
    if ReverseOrdered(m, s) {
      forall k | 0 <= k < n - 1 ensures HasRule(lines, r[k], r[k + 1]) {
        assert Keeps(m, s[n - 2 - k], s[n - 2 - k + 1]);
      }
    }
    if Ordered(lines, r) {
      forall k | 0 <= k < n - 1 ensures Keeps(m, s[k], s[k + 1]) {
        assert HasRule(lines, r[n - 2 - k], r[n - 2 - k + 1]);
      }
    }
  }

  // ---------------------------------------------------------------------------
  // part_1 and part_2
  // ---------------------------------------------------------------------------

  /** `part_1`'s answer. */
  function Part1Answer(lines: seq<string>): Option<int>
    requires AllWellFormed(lines)
  {
    SumMiddles(ValidUpdates(lines, Updates(lines)))
  }

  /** Each invalid update repaired on its own, in order. */
  function RepairAll(us: seq<seq<Page>>, m: map<Page, set<Page>>): (r: seq<seq<Page>>)
    ensures |r| == |us|
    decreases |us|
  {
    if |us| == 0 then [] else RepairAll(us[..|us| - 1], m) + [Repair(us[|us| - 1], m)]
  }

  /** Entry `k` of the repaired list is the repair of update `k`. */
  lemma {:induction false} RepairAllAt(us: seq<seq<Page>>, m: map<Page, set<Page>>, k: nat)
    requires k < |us|
    ensures RepairAll(us, m)[k] == Repair(us[k], m)
    decreases |us|
  {
    if k < |us| - 1 {
      RepairAllAt(us[..|us| - 1], m, k);
    }
  }

  /** `part_2`'s answer. */
  function Part2Answer(lines: seq<string>): Option<int>
    requires AllWellFormed(lines)
  {
    SumMiddles(RepairAll(InvalidUpdates(lines, Updates(lines)), SetRuleMap(lines)))
  }

  /** Lines 53-59: build the list-valued `page_map` and the list of updates. */
  method ParseWithLists(lines: seq<string>) returns (pageMap: map<Page, seq<Page>>, updates: seq<seq<Page>>)
    requires AllWellFormed(lines)
    ensures pageMap == ListRuleMap(lines)
    ensures updates == Updates(lines)
  {
    pageMap := map[];
    updates := [];
    for i := 0 to |lines|
      invariant pageMap == ListRuleMap(lines[..i])
      invariant updates == Updates(lines[..i])
    {
      PrefixWellFormed(lines, i + 1);
      assert lines[..i + 1][..i] == lines[..i];
      var line := lines[i];
      if '|' in line {
        var fields := Split(line, '|');
        var predecessor, successor := fields[0], fields[1];
        pageMap := pageMap[predecessor := (if predecessor in pageMap then pageMap[predecessor] else []) + [successor]];
      } else if ',' in line {
        updates := updates + [Split(line, ',')];
      }
    }
    assert lines[..|lines|] == lines;
  }

  /** Lines 65-69: the adjacent-pair check against the list-valued map (with
      early `break`); it decides `Ordered`. */
  method IsValidWithList(update: seq<Page>, pageMap: map<Page, seq<Page>>, ghost lines: seq<string>)
    returns (isValid: bool)
    requires AllWellFormed(lines) && pageMap == ListRuleMap(lines)
    ensures isValid <==> Ordered(lines, update)
  {
    isValid := true;
    var k := 0;
    while k + 1 < |update|
      invariant 0 <= k <= |update|
      invariant forall q :: 0 <= q < k && q + 1 < |update| ==> HasRule(lines, update[q], update[q + 1])
    {
      var first, second := update[k], update[k + 1];
      ListRuleMapKnows(lines, first, second);
      if first !in pageMap || second !in pageMap[first] {
        isValid := false;
        break;
      }
      k := k + 1;
    }
  }

  /** Lines 111-115: the same check against the set-valued map. */
  method IsValidWithSet(update: seq<Page>, pageMap: map<Page, set<Page>>, ghost lines: seq<string>)
    returns (isValid: bool)
    requires AllWellFormed(lines) && pageMap == SetRuleMap(lines)
    ensures isValid <==> Ordered(lines, update)
  {
    isValid := true;
    var k := 0;
    while k + 1 < |update|
      invariant 0 <= k <= |update|
      invariant forall q :: 0 <= q < k && q + 1 < |update| ==> HasRule(lines, update[q], update[q + 1])
    {
      var first, second := update[k], update[k + 1];
      SetRuleMapKnows(lines, first, second);
      if first !in pageMap || second !in pageMap[first] {
        isValid := false;
        break;
      }
      k := k + 1;
    }
  }

  /** If the sum over the valid updates among the first `n` fails, so does the
      sum over all of them. */
  lemma ValidUpdatesPrefixNone(lines: seq<string>, us: seq<seq<Page>>, n: nat)
    requires AllWellFormed(lines) && n <= |us|
    requires SumMiddles(ValidUpdates(lines, us[..n])) == None
    ensures SumMiddles(ValidUpdates(lines, us)) == None
  {
    ValidUpdatesAppend(lines, us[..n], us[n..]);
    assert us[..n] + us[n..] == us;
    SumMiddlesNoneAbsorbs(ValidUpdates(lines, us[..n]), ValidUpdates(lines, us[n..]));
  }

  /** `part_1`: the sum of the middle pages of the valid updates. */
  method Part1(lines: seq<string>) returns (answer: Option<int>)
    requires AllWellFormed(lines)
    ensures answer == Part1Answer(lines)
  {
    var pageMap, updates := ParseWithLists(lines);
    var total := 0;
    ghost var valid: seq<seq<Page>> := [];
    for k := 0 to |updates|
      invariant valid == ValidUpdates(lines, updates[..k])
      invariant SumMiddles(valid) == Some(total)
    {
      var update := updates[k];
      var isValid := IsValidWithList(update, pageMap, lines);
      ValidUpdatesSnoc(lines, updates, k);
      if isValid {
        var value := ParseInt(update[|update| / 2]);
        assert MiddleValue(update) == value;
        SumMiddlesSnoc(valid, update);
        valid := valid + [update];
        if value.None? {
          ValidUpdatesPrefixNone(lines, updates, k + 1);
          return None;
        }
        total := total + value.value;
      }
    }
    assert updates[..|updates|] == updates;
    answer := Some(total);
  }

  /** One more update at the end of the running sum. */
  lemma SumMiddlesSnoc(us: seq<seq<Page>>, u: seq<Page>)
    ensures SumMiddles(us + [u]) ==
              if SumMiddles(us).None? || MiddleValue(u).None? then None
              else Some(SumMiddles(us).value + MiddleValue(u).value)
  {
    assert (us + [u])[..|us|] == us;
  }

  /** Lines 98-104: build the set-valued `page_map` and the list of updates; each
      update is a fresh list of its own. */
  method ParseWithSets(lines: seq<string>) returns (pageMap: map<Page, set<Page>>, updates: seq<array<Page>>)
    requires AllWellFormed(lines)
    ensures pageMap == SetRuleMap(lines)
    ensures |updates| == |Updates(lines)|
    ensures forall k :: 0 <= k < |updates| ==> updates[k][..] == Updates(lines)[k]
    ensures forall k :: 0 <= k < |updates| ==> fresh(updates[k])
    ensures forall p, q :: 0 <= p < |updates| && 0 <= q < |updates| && p != q ==> updates[p] != updates[q]
  {
    pageMap := map[];
    updates := [];
    ghost var us: seq<seq<Page>> := [];
    for i := 0 to |lines|
      invariant pageMap == SetRuleMap(lines[..i])
      invariant us == Updates(lines[..i]) && |updates| == |us|
      invariant forall k :: 0 <= k < |updates| ==> updates[k][..] == us[k]
      invariant forall k :: 0 <= k < |updates| ==> fresh(updates[k])
      invariant forall p, q :: 0 <= p < |updates| && 0 <= q < |updates| && p != q ==> updates[p] != updates[q]
    {
      PrefixWellFormed(lines, i + 1);
      assert lines[..i + 1][..i] == lines[..i];
      var line := lines[i];
      if '|' in line {
        var fields := Split(line, '|');
        var predecessor, successor := fields[0], fields[1];
        pageMap := pageMap[predecessor := (if predecessor in pageMap then pageMap[predecessor] else {}) + {successor}];
      } else if ',' in line {
        var pages := Split(line, ',');
        var updateAsList := NewUpdate(pages);
        updates := updates + [updateAsList];
        us := us + [pages];
      }
    }
    assert lines[..|lines|] == lines;
  }

  /** `list(...)` of the split line: a new list holding the pages. */
  method NewUpdate(pages: seq<Page>) returns (updateAsList: array<Page>)
    ensures fresh(updateAsList) && updateAsList[..] == pages
  {
    updateAsList := new Page[|pages|](k requires 0 <= k < |pages| => pages[k]);
    assert updateAsList[..] == pages;
  }

  /** One step of the running sum, when the next middle page is a number. */
  lemma SumMiddlesExtend(us: seq<seq<Page>>, r: nat, total: int, v: int)
    requires r < |us| && SumMiddles(us[..r]) == Some(total) && MiddleValue(us[r]) == Some(v)
    ensures SumMiddles(us[..r + 1]) == Some(total + v)
  {
    assert us[..r + 1][..r] == us[..r];
  }

  /** A middle page that is not a number makes the whole sum fail. */
  lemma SumMiddlesStopsAt(us: seq<seq<Page>>, r: nat)
    requires r < |us| && MiddleValue(us[r]) == None
    ensures SumMiddles(us) == None
  {
    assert us[..r + 1][..r] == us[..r];
    SumMiddlesPrefixNone(us, r + 1);
  }

  /** If the sum over the first `n` fails, so does the sum over all. */
  lemma SumMiddlesPrefixNone(us: seq<seq<Page>>, n: nat)
    requires n <= |us| && SumMiddles(us[..n]) == None
    ensures SumMiddles(us) == None
  {
    SumMiddlesNoneAbsorbs(us[..n], us[n..]);
    assert us[..n] + us[n..] == us;
  }

  /** The positions, below `k`, of the updates that fail the check. */
  function InvalidIndices(lines: seq<string>, us: seq<seq<Page>>, k: nat): seq<nat>
    requires AllWellFormed(lines) && k <= |us|
  {
    if k == 0 then []
    else InvalidIndices(lines, us, k - 1) + if Ordered(lines, us[k - 1]) then [] else [k - 1]
  }

  /** The positions are increasing and below `k`. */
  lemma {:induction false} InvalidIndicesIncrease(lines: seq<string>, us: seq<seq<Page>>, k: nat)
    requires AllWellFormed(lines) && k <= |us|
    ensures forall q :: 0 <= q < |InvalidIndices(lines, us, k)| ==> InvalidIndices(lines, us, k)[q] < k
    ensures forall p, q :: 0 <= p < q < |InvalidIndices(lines, us, k)| ==>
              InvalidIndices(lines, us, k)[p] < InvalidIndices(lines, us, k)[q]
  {
    if k > 0 {
      InvalidIndicesIncrease(lines, us, k - 1);
    }
  }

  /** Position `p` is listed iff update `p` fails the check. */
  lemma {:induction false} InvalidIndicesMembers(lines: seq<string>, us: seq<seq<Page>>, k: nat)
    requires AllWellFormed(lines) && k <= |us|
    ensures forall p :: 0 <= p < k ==> (p in InvalidIndices(lines, us, k) <==> !Ordered(lines, us[p]))
  {
    if k > 0 {
      InvalidIndicesMembers(lines, us, k - 1);
      InvalidIndicesIncrease(lines, us, k - 1);
      assert k - 1 !in InvalidIndices(lines, us, k - 1);
    }
  }

  /** The listed positions pick out exactly the invalid updates, in order. */
  lemma {:induction false} InvalidIndicesPick(lines: seq<string>, us: seq<seq<Page>>, k: nat)
    requires AllWellFormed(lines) && k <= |us|
    ensures |InvalidIndices(lines, us, k)| == |InvalidUpdates(lines, us[..k])|
    ensures forall q :: 0 <= q < |InvalidIndices(lines, us, k)| ==>
              InvalidIndices(lines, us, k)[q] < |us| && us[InvalidIndices(lines, us, k)[q]] == InvalidUpdates(lines, us[..k])[q]
  {
    if k > 0 {
      InvalidIndicesPick(lines, us, k - 1);
      InvalidIndicesIncrease(lines, us, k - 1);
      InvalidUpdatesSnoc(lines, us, k - 1);
    }
  }

  /** Lines 108-119: collect the invalid updates. The collected lists are the
      very same objects as the entries of `updates`; `index` records which. */
  method CollectInvalid(updates: seq<array<Page>>, pageMap: map<Page, set<Page>>,
                        ghost lines: seq<string>, ghost before: seq<seq<Page>>)
    returns (invalidUpdates: seq<array<Page>>, ghost index: seq<nat>)
    requires AllWellFormed(lines) && pageMap == SetRuleMap(lines)
    requires |before| == |updates| && forall k :: 0 <= k < |updates| ==> updates[k][..] == before[k]
    ensures |index| == |invalidUpdates| == |InvalidUpdates(lines, before)|
    ensures forall q :: 0 <= q < |index| ==> index[q] < |updates| && invalidUpdates[q] == updates[index[q]]
    ensures forall q :: 0 <= q < |index| ==> before[index[q]] == InvalidUpdates(lines, before)[q]
    ensures forall p, q :: 0 <= p < q < |index| ==> index[p] < index[q]
    ensures forall p :: 0 <= p < |updates| ==> (p in index <==> !Ordered(lines, before[p]))
  {
    invalidUpdates := [];
    index := [];
    for k := 0 to |updates|
      invariant index == InvalidIndices(lines, before, k)
      invariant |invalidUpdates| == |index|
      invariant forall q :: 0 <= q < |index| ==> index[q] < |updates| && invalidUpdates[q] == updates[index[q]]
    {
      var isValid := IsValidWithSet(updates[k][..], pageMap, lines);
      assert before[k] == updates[k][..];
      if !isValid {
        invalidUpdates := invalidUpdates + [updates[k]];
        index := index + [k];
      }
    }
    InvalidIndicesIncrease(lines, before, |before|);
    InvalidIndicesMembers(lines, before, |before|);
    InvalidIndicesPick(lines, before, |before|);
    assert before[..|before|] == before;
  }

  /** The body of the loop at lines 121-123: sort one update in place and
      read its middle page; `None` where `int()` (or the indexing of an empty
      list) fails. */
  method RepairOne(updates: seq<array<Page>>, r: nat, pageMap: map<Page, set<Page>>) returns (value: Option<int>)
    requires r < |updates| && forall q :: 0 <= q < |updates| && q != r ==> updates[q] != updates[r]
    modifies updates[r]
    ensures updates[r][..] == Repair(old(updates[r][..]), pageMap)
    ensures forall q :: 0 <= q < |updates| && q != r ==> updates[q][..] == old(updates[q][..])
    ensures value == MiddleValue(updates[r][..])
  {
    var update := updates[r];
    SortInvalid(update, pageMap);
    if update.Length == 0 {
      return None;
    }
    value := ParseInt(update[update.Length / 2]);
  }

  /** Lines 121-123: sort each invalid update in place and sum the middle pages. */
  method RepairAndSum(invalidUpdates: seq<array<Page>>, pageMap: map<Page, set<Page>>, ghost before: seq<seq<Page>>)
    returns (answer: Option<int>)
    requires |before| == |invalidUpdates| && forall q :: 0 <= q < |before| ==> invalidUpdates[q][..] == before[q]
    requires forall p, q :: 0 <= p < q < |invalidUpdates| ==> invalidUpdates[p] != invalidUpdates[q]
    modifies invalidUpdates
    ensures answer == SumMiddles(RepairAll(before, pageMap))
    ensures answer.Some? ==> forall q :: 0 <= q < |before| ==> invalidUpdates[q][..] == RepairAll(before, pageMap)[q]
  {
    ghost var repaired := RepairAll(before, pageMap);
    var total := 0;
    for r := 0 to |invalidUpdates|
      invariant SumMiddles(repaired[..r]) == Some(total)
      invariant forall q :: 0 <= q < r ==> invalidUpdates[q][..] == repaired[q]
      invariant forall q :: r <= q < |before| ==> invalidUpdates[q][..] == before[q]
    {
      var value := RepairOne(invalidUpdates, r, pageMap);
      RepairAllAt(before, pageMap, r);
      if value.None? {
        SumMiddlesStopsAt(repaired, r);
        return None;
      }
      SumMiddlesExtend(repaired, r, total, value.value);
      total := total + value.value;
    }
    assert repaired[..|invalidUpdates|] == repaired;
    answer := Some(total);
  }

  /** Distinct lists picked at increasing positions are distinct. */
  lemma CollectedAreDistinct(updates: seq<array<Page>>, invalidUpdates: seq<array<Page>>, index: seq<nat>)
    requires forall p, q :: 0 <= p < |updates| && 0 <= q < |updates| && p != q ==> updates[p] != updates[q]
    requires |index| == |invalidUpdates|
    requires forall q :: 0 <= q < |index| ==> index[q] < |updates| && invalidUpdates[q] == updates[index[q]]
    requires forall p, q :: 0 <= p < q < |index| ==> index[p] < index[q]
    ensures forall p, q :: 0 <= p < q < |invalidUpdates| ==> invalidUpdates[p] != invalidUpdates[q]
  {
    forall p, q | 0 <= p < q < |invalidUpdates| ensures invalidUpdates[p] != invalidUpdates[q] {
      assert index[p] < index[q];
    }
  }

  /** A list at a position that was not picked is none of the picked lists. */
  lemma NotCollected(updates: seq<array<Page>>, invalidUpdates: seq<array<Page>>, index: seq<nat>, k: nat)
    requires forall p, q :: 0 <= p < |updates| && 0 <= q < |updates| && p != q ==> updates[p] != updates[q]
    requires |index| == |invalidUpdates|
    requires forall q :: 0 <= q < |index| ==> index[q] < |updates| && invalidUpdates[q] == updates[index[q]]
    requires k < |updates| && k !in index
    ensures forall q :: 0 <= q < |invalidUpdates| ==> invalidUpdates[q] != updates[k]
  {
    forall q | 0 <= q < |invalidUpdates| ensures invalidUpdates[q] != updates[k] {
      assert index[q] != k;
    }
  }

  /** Through the aliasing, the repaired collected lists are the invalid
      entries of `updates`; the entries at positions not collected kept
      their pages. */
  lemma RepairedInPlace(updates: seq<array<Page>>, invalidUpdates: seq<array<Page>>, index: seq<nat>,
                        lines: seq<string>, before: seq<seq<Page>>, pageMap: map<Page, set<Page>>)
    requires AllWellFormed(lines) && |before| == |updates|
    requires |index| == |invalidUpdates| == |InvalidUpdates(lines, before)|
    requires forall q :: 0 <= q < |index| ==> index[q] < |updates| && invalidUpdates[q] == updates[index[q]]
    requires forall q :: 0 <= q < |index| ==> before[index[q]] == InvalidUpdates(lines, before)[q]
    requires forall p :: 0 <= p < |updates| ==> (p in index <==> !Ordered(lines, before[p]))
    requires forall q :: 0 <= q < |invalidUpdates| ==>
               invalidUpdates[q][..] == RepairAll(InvalidUpdates(lines, before), pageMap)[q]
    requires forall k :: 0 <= k < |updates| && k !in index ==> updates[k][..] == before[k]
    ensures forall k :: 0 <= k < |updates| ==>
              updates[k][..] == if Ordered(lines, before[k]) then before[k] else Repair(before[k], pageMap)
  {
    forall k | 0 <= k < |updates|
      ensures updates[k][..] == if Ordered(lines, before[k]) then before[k] else Repair(before[k], pageMap)
    {
      if k in index {
        var q :| 0 <= q < |index| && index[q] == k;
        assert invalidUpdates[q] == updates[k];
        RepairAllAt(InvalidUpdates(lines, before), pageMap, q);
      }
    }
  }

  /** Lines 108-123: validate, then repair the invalid updates in place. Because
      the collected lists alias the entries of `updates`, every invalid entry of
      `updates` ends up repaired, while the valid entries stay as they were. */
  method ValidateAndRepair(updates: seq<array<Page>>, pageMap: map<Page, set<Page>>,
                           ghost lines: seq<string>, ghost before: seq<seq<Page>>)
    returns (answer: Option<int>)
    requires AllWellFormed(lines) && pageMap == SetRuleMap(lines)
    requires |before| == |updates| && forall k :: 0 <= k < |updates| ==> updates[k][..] == before[k]
    requires forall p, q :: 0 <= p < |updates| && 0 <= q < |updates| && p != q ==> updates[p] != updates[q]
    modifies updates
    ensures answer == SumMiddles(RepairAll(InvalidUpdates(lines, before), pageMap))
    ensures answer.Some? ==> forall k :: 0 <= k < |updates| ==>
              updates[k][..] == if Ordered(lines, before[k]) then before[k] else Repair(before[k], pageMap)
  {
    var invalidUpdates, index := CollectInvalid(updates, pageMap, lines, before);
    ghost var invalid := InvalidUpdates(lines, before);
    forall q | 0 <= q < |invalid| ensures invalidUpdates[q][..] == invalid[q] {
      assert invalidUpdates[q] == updates[index[q]];
    }
    CollectedAreDistinct(updates, invalidUpdates, index);
    answer := RepairAndSum(invalidUpdates, pageMap, invalid);
    if answer.Some? {
      forall k | 0 <= k < |updates| && k !in index ensures updates[k][..] == before[k] {
        NotCollected(updates, invalidUpdates, index, k);
        assert updates[k][..] == old(updates[k][..]);
      }
      RepairedInPlace(updates, invalidUpdates, index, lines, before, pageMap);
    }
  }

  /** `part_2`: the sum of the middle pages of the repaired invalid updates. */
  method Part2(lines: seq<string>) returns (answer: Option<int>)
    requires AllWellFormed(lines)
    ensures answer == Part2Answer(lines)
  {
    var pageMap, updates := ParseWithSets(lines);
    answer := ValidateAndRepair(updates, pageMap, lines, Updates(lines));
  }
}
