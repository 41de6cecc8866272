/** Day 3, "Mull It Over": the memory dump holds `mul(X,Y)` instructions
    (X and Y of one to three digits) among noise. `part_1` adds up every X*Y;
    `part_2` also obeys `do()` and `don't()`, which switch the following
    `mul`s on and off, the switch carrying over from one line to the next.
    The two `re.findall` patterns are modelled by a hand-written scanner. */
module Day03 {
  import opened Wrappers
  import opened Strings

  /** `s[p..]` begins with `w`. */
  predicate StartsWith(s: string, p: nat, w: string)
  {
    p + |w| <= |s| && s[p..p + |w|] == w
  }

  /** The length of the longest run of digits starting at `p`. */
  function DigitRun(s: string, p: nat): (n: nat)
    requires p <= |s|
    ensures p + n <= |s|
    ensures forall k :: p <= k < p + n ==> IsDigit(s[k])
    ensures p + n == |s| || !IsDigit(s[p + n])
    decreases |s| - p
  {
    if p < |s| && IsDigit(s[p]) then 1 + DigitRun(s, p + 1) else 0
  }

  /** A digit run ends exactly at the first non-digit. */
  lemma {:induction false} DigitRunExact(s: string, p: nat, n: nat)
    requires p + n < |s|
    requires forall k :: p <= k < p + n ==> IsDigit(s[k])
    requires !IsDigit(s[p + n])
    ensures DigitRun(s, p) == n
    decreases n
  {
    if n > 0 {
      DigitRunExact(s, p + 1, n - 1);
    }
  }

  // ---------------------------------------------------------------------------
  // The `mul(X,Y)` pattern

  /** `t` is the instruction `mul(x,y)` with operands of one to three digits. */
  predicate MulShape(t: string, x: string, y: string)
  {
    1 <= |x| <= 3 && 1 <= |y| <= 3 && AllDigits(x) && AllDigits(y) &&
    t == "mul(" + x + "," + y + ")"
  }

  /** Where a `mul(x,y)` that starts at `p` ends. */
  function MulEnd(p: nat, operands: (string, string)): nat
  {
    p + |operands.0| + |operands.1| + 6
  }

  /** The `mul[(]\d{1,3},\d{1,3}[)]` pattern tried at position `p`, giving the
      two operand texts on success. The greedy `\d{1,3}` can only succeed on a
      maximal digit run: a shorter one is followed by a digit, not by `,` or `)`. */
  function MulAt(s: string, p: nat): (r: Option<(string, string)>)
    requires p <= |s|
    ensures r.Some? ==> MulEnd(p, r.value) <= |s| && MulShape(s[p..MulEnd(p, r.value)], r.value.0, r.value.1)
  {
    if !StartsWith(s, p, "mul(") then None
    else
      var a := DigitRun(s, p + 4);
      var q := p + 4 + a;
      if !(1 <= a <= 3 && q < |s| && s[q] == ',') then None
      else
        var b := DigitRun(s, q + 1);
        var e := q + 1 + b;
        if !(1 <= b <= 3 && e < |s| && s[e] == ')') then None
        else
          var x, y := s[p + 4..q], s[q + 1..e];
          SliceAround(s, p, q, e);
          Some((x, y))
  }

  /** `s[p..e+1]` cut at `p + 4`, at `q` and at `e`. */
  lemma SliceAround(s: string, p: nat, q: nat, e: nat)
    requires p + 4 <= q < e < |s|
    ensures s[p..e + 1] == s[p..p + 4] + s[p + 4..q] + [s[q]] + s[q + 1..e] + [s[e]]
  {
    assert s[p..e + 1] == s[p..q] + [s[q]] + s[q + 1..e] + [s[e]];
    assert s[p..q] == s[p..p + 4] + s[p + 4..q];
  }

  /** The characters of `mul(x,y)`, position by position. */
  lemma MulShapeChars(t: string, x: string, y: string)
    requires MulShape(t, x, y)
    ensures |t| == |x| + |y| + 6
    ensures t[..4] == "mul("
    ensures forall k :: 0 <= k < |x| ==> t[4 + k] == x[k]
    ensures t[4 + |x|] == ','
    ensures forall k :: 0 <= k < |y| ==> t[5 + |x| + k] == y[k]
    ensures t[5 + |x| + |y|] == ')'
  {
  }

  /** A digit string `x` written at `start` and followed by a non-digit is
      the digit run there. */
  lemma DigitsAt(s: string, start: nat, x: string)
    requires start + |x| < |s| && AllDigits(x)
    requires forall k :: 0 <= k < |x| ==> s[start + k] == x[k]
    requires !IsDigit(s[start + |x|])
    ensures DigitRun(s, start) == |x|
    ensures s[start..start + |x|] == x
  {
    forall k | start <= k < start + |x| ensures IsDigit(s[k]) {
      assert s[k] == x[k - start];
    }
    DigitRunExact(s, start, |x|);
  }

  /** The characters of a `mul(x,y)` written at `p`, read off `s`. */
  lemma MulCharsAt(s: string, p: nat, x: string, y: string)
    requires MulEnd(p, (x, y)) <= |s|
    requires MulShape(s[p..MulEnd(p, (x, y))], x, y)
    ensures s[p..p + 4] == "mul("
    ensures forall k :: 0 <= k < |x| ==> s[p + 4 + k] == x[k]
    ensures s[p + 4 + |x|] == ','
    ensures forall k :: 0 <= k < |y| ==> s[p + 5 + |x| + k] == y[k]
    ensures s[p + 5 + |x| + |y|] == ')'
  {
    var t := s[p..MulEnd(p, (x, y))];
    MulShapeChars(t, x, y);
    assert s[p..p + 4] == t[..4];
  }

  /** The pieces `MulAt` looks at, from the characters of a `mul(x,y)` at `p`. */
  lemma MulPiecesAt(s: string, p: nat, x: string, y: string)
    requires p + |x| + |y| + 6 <= |s|
    requires AllDigits(x) && AllDigits(y)
    requires forall k :: 0 <= k < |x| ==> s[p + 4 + k] == x[k]
    requires s[p + 4 + |x|] == ','
    requires forall k :: 0 <= k < |y| ==> s[p + 5 + |x| + k] == y[k]
    requires s[p + 5 + |x| + |y|] == ')'
    ensures DigitRun(s, p + 4) == |x| && s[p + 4..p + 4 + |x|] == x
    ensures DigitRun(s, p + 5 + |x|) == |y| && s[p + 5 + |x|..p + 5 + |x| + |y|] == y
  {
    DigitsAt(s, p + 4, x);
    DigitsAt(s, p + 5 + |x|, y);
  }

  /** The pieces `MulAt` looks at, for a `mul(x,y)` written at `p`. */
  lemma MulShapeAt(s: string, p: nat, x: string, y: string)
    requires MulEnd(p, (x, y)) <= |s|
    requires MulShape(s[p..MulEnd(p, (x, y))], x, y)
    ensures StartsWith(s, p, "mul(")
    ensures DigitRun(s, p + 4) == |x| && s[p + 4 + |x|] == ','
    ensures DigitRun(s, p + 5 + |x|) == |y| && s[p + 5 + |x| + |y|] == ')'
    ensures 1 <= |x| <= 3 && 1 <= |y| <= 3
    ensures s[p + 4..p + 4 + |x|] == x && s[p + 5 + |x|..p + 5 + |x| + |y|] == y
  {
    MulCharsAt(s, p, x, y);
    MulPiecesAt(s, p, x, y);
  }

  /** The converse: every `mul(x,y)` written at `p` is found there. */
  lemma MulAtComplete(s: string, p: nat, x: string, y: string)
    requires MulEnd(p, (x, y)) <= |s|
    requires MulShape(s[p..MulEnd(p, (x, y))], x, y)
    ensures MulAt(s, p) == Some((x, y))
  {
    MulShapeAt(s, p, x, y);
  }

  /** A matched instruction, cut out of the line, on its own. */
  ghost predicate IsMulToken(t: string)
  {
    exists x, y :: MulShape(t, x, y)
  }

  /** What `MulAt` finds is a `mul` token. */
  lemma MulAtToken(s: string, p: nat)
    requires p <= |s| && MulAt(s, p).Some?
    ensures IsMulToken(s[p..MulEnd(p, MulAt(s, p).value)])
  {
    var xy := MulAt(s, p).value;
    assert MulShape(s[p..MulEnd(p, xy)], xy.0, xy.1);
  }

  /** The tokens of `re.findall` on `s[p..]`: the leftmost match, then the
      search resumes right after it. */
  function FindMuls(s: string, p: nat): (r: seq<string>)
    requires p <= |s|
    ensures forall k :: 0 <= k < |r| ==> IsMulToken(r[k])
    decreases |s| - p
  {
    if p == |s| then []
    else match MulAt(s, p)
      case Some(xy) =>
        MulAtToken(s, p);
        [s[p..MulEnd(p, xy)]] + FindMuls(s, MulEnd(p, xy))
      case None => FindMuls(s, p + 1)
  }

  /** No match can start at a position that does not hold `m`. */
  lemma {:induction false} SkipNoM(s: string, p: nat, q: nat)
    requires p <= q <= |s|
    requires forall i :: p <= i < q ==> s[i] != 'm'
    ensures FindMuls(s, p) == FindMuls(s, q)
    decreases q - p
  {
    if p < q {
      if p + 4 <= |s| {
        assert s[p..p + 4][0] == s[p];
      }
      SkipNoM(s, p + 1, q);
    }
  }

  /** Past its first character a `mul` token holds no `m`. */
  lemma MulInnerNoM(s: string, p: nat)
    requires p <= |s| && MulAt(s, p).Some?
    ensures forall i :: p < i < MulEnd(p, MulAt(s, p).value) ==> s[i] != 'm'
  {
    var a := DigitRun(s, p + 4);
    var q := p + 4 + a;
    var b := DigitRun(s, q + 1);
    var e := q + 1 + b;
    assert MulEnd(p, MulAt(s, p).value) == e + 1;
    forall i | p < i <= e ensures s[i] != 'm' {
      if i < p + 4 {
        assert s[i] == s[p..p + 4][i - p];
      } else if i < q || q < i < e {
        assert IsDigit(s[i]);
      }
    }
  }

  /** A match that starts before a written `mul(x,y)` ends before it: the
      match holds no `m` past its start, and the written one starts with `m`. */
  lemma MatchEndsBefore(s: string, p: nat, q: nat, x: string, y: string)
    requires p < q && MulEnd(q, (x, y)) <= |s| && MulShape(s[q..MulEnd(q, (x, y))], x, y)
    requires MulAt(s, p).Some?
    ensures MulEnd(p, MulAt(s, p).value) <= q
  {
    MulInnerNoM(s, p);
    assert s[q] == s[q..MulEnd(q, (x, y))][0];
  }

  /** Every `mul(x,y)` written at or after `p` is among the matches of `s[p..]`. */
  lemma {:induction false} FindMulsComplete(s: string, p: nat, q: nat, x: string, y: string)
    requires p <= q && MulEnd(q, (x, y)) <= |s| && MulShape(s[q..MulEnd(q, (x, y))], x, y)
    ensures s[q..MulEnd(q, (x, y))] in FindMuls(s, p)
    decreases q - p
  {
    if p == q {
      MulAtComplete(s, q, x, y);
      assert FindMuls(s, q)[0] == s[q..MulEnd(q, (x, y))];
    } else {
      match MulAt(s, p)
      case Some(xy) =>
        MatchEndsBefore(s, p, q, x, y);
        FindMulsComplete(s, MulEnd(p, xy), q, x, y);
        assert FindMuls(s, p) == [s[p..MulEnd(p, xy)]] + FindMuls(s, MulEnd(p, xy));
      case None =>
        FindMulsComplete(s, p + 1, q, x, y);
    }
  }

  // ---------------------------------------------------------------------------
  // Operand extraction (lines 25-28 and 64-67)

  /** The comma split, and the split of the head at `(`, of a `mul` token. */
  lemma OperandSplits(t: string, x: string, y: string)
    requires MulShape(t, x, y)
    ensures Split(t, ',') == ["mul(" + x, y + ")"]
    ensures Split("mul(" + x, '(') == ["mul", x]
  {
    assert forall k :: 0 <= k < |x| ==> IsDigit(x[k]);
    assert forall k :: 0 <= k < |y| ==> IsDigit(y[k]);
    assert ',' !in "mul(" + x;
    assert t == ("mul(" + x) + [','] + (y + ")");
    SplitAround("mul(" + x, y + ")", ',');
    assert ',' !in y + ")";
    SplitNoSep(y + ")", ',');
    assert "mul(" + x == "mul" + ['('] + x;
    SplitAround("mul", x, '(');
    assert '(' !in x;
    SplitNoSep(x, '(');
  }

  /** `mul_split[0].split("(")[1]` and `mul_split[1][:-1]`: the operand texts,
      which are exactly the two digit runs of the token. */
  function Operands(t: string): (r: (string, string))
    requires IsMulToken(t)
    ensures MulShape(t, r.0, r.1)
  {
    var mulSplit := Split(t, ',');
    assert |mulSplit| == 2 && |mulSplit[1]| >= 1 && |Split(mulSplit[0], '(')| == 2 &&
           MulShape(t, Split(mulSplit[0], '(')[1], mulSplit[1][..|mulSplit[1]| - 1]) by {
      var x, y :| MulShape(t, x, y);
      OperandSplits(t, x, y);
      assert (y + ")")[..|y|] == y;
    }
    (Split(mulSplit[0], '(')[1], mulSplit[1][..|mulSplit[1]| - 1])
  }

  /** A token determines its operands: there is only one way to read it. */
  lemma MulShapeUnique(t: string, x: string, y: string, x': string, y': string)
    requires MulShape(t, x, y) && MulShape(t, x', y')
    ensures x == x' && y == y'
  {
    assert t[0..MulEnd(0, (x, y))] == t && t[0..MulEnd(0, (x', y'))] == t;
    MulAtComplete(t, 0, x, y);
    MulAtComplete(t, 0, x', y');
  }

  /** `int(x) * int(y)` for a `mul` token. */
  function Product(t: string): nat
    requires IsMulToken(t)
  {
    var xy := Operands(t);
    DecimalValue(xy.0) * DecimalValue(xy.1)
  }

  lemma {:induction false} MulMono(a: nat, b: nat, c: nat)
    requires a <= c
    ensures a * b <= c * b
    decreases b
  {
    if b > 0 {
      MulMono(a, b - 1, c);
    }
  }

  /** Both operands are at most 999, so one instruction adds at most 999 * 999. */
  lemma ProductBound(t: string)
    requires IsMulToken(t)
    ensures DecimalValue(Operands(t).0) <= 999
    ensures DecimalValue(Operands(t).1) <= 999
    ensures Product(t) <= 999 * 999
  {
    var xy := Operands(t);
    assert Pow10(1) == 10 && Pow10(2) == 100 && Pow10(3) == 1000;
    assert Pow10(|xy.0|) <= 1000 && Pow10(|xy.1|) <= 1000;
    MulMono(DecimalValue(xy.0), DecimalValue(xy.1), 999);
    MulMono(DecimalValue(xy.1), 999, 999);
  }

  // ---------------------------------------------------------------------------
  // Part 1

  /** The sum of the products of `tokens`. */
  function MulSum(tokens: seq<string>): nat
    requires forall k :: 0 <= k < |tokens| ==> IsMulToken(tokens[k])
    decreases |tokens|
  {
    if |tokens| == 0 then 0
    else MulSum(tokens[..|tokens| - 1]) + Product(tokens[|tokens| - 1])
  }

  /** All `mul` tokens of the input, line after line. */
  function AllMuls(text: seq<string>): (r: seq<string>)
    ensures forall k :: 0 <= k < |r| ==> IsMulToken(r[k])
    decreases |text|
  {
    if |text| == 0 then []
    else AllMuls(text[..|text| - 1]) + FindMuls(text[|text| - 1], 0)
  }

  /** What `part_1` returns. */
  function Part1Answer(text: seq<string>): nat
  {
    MulSum(AllMuls(text))
  }

  /** Summing two runs of tokens one after the other. */
  lemma {:induction false} MulSumAppend(a: seq<string>, b: seq<string>)
    requires forall k :: 0 <= k < |a| ==> IsMulToken(a[k])
    requires forall k :: 0 <= k < |b| ==> IsMulToken(b[k])
    ensures MulSum(a + b) == MulSum(a) + MulSum(b)
    decreases |b|
  {
    if |b| == 0 {
      assert a + b == a;
    } else {
      var n := |b| - 1;
      assert a + b == (a + b[..n]) + [b[n]];
      MulSumAppend(a, b[..n]);
      MulSumSnoc(a + b[..n], b[n]);
    }
  }

  /** The inner loop of `part_1`: add the product of every `mul` of one line. */
  method AddProducts(finalSum: int, allMuls: seq<string>) returns (newSum: int)
    requires forall k :: 0 <= k < |allMuls| ==> IsMulToken(allMuls[k])
    ensures newSum == finalSum + MulSum(allMuls)
  {
    newSum := finalSum;
    for k := 0 to |allMuls|
      invariant newSum == finalSum + MulSum(allMuls[..k])
    {
      var mul := allMuls[k];
      var (x, y) := Operands(mul);
      MulSumSnoc(allMuls[..k], mul);
      assert allMuls[..k + 1] == allMuls[..k] + [mul];
      newSum := newSum + DecimalValue(x) * DecimalValue(y);
    }
    assert allMuls[..|allMuls|] == allMuls;
  }

  /** `part_1`: for every line, every found `mul`, add `int(x) * int(y)`. */
  method Part1(text: seq<string>) returns (finalSum: int)
    ensures finalSum == Part1Answer(text)
  {
    finalSum := 0;
    for i := 0 to |text|
      invariant finalSum == MulSum(AllMuls(text[..i]))
    {
      var allMuls := FindMuls(text[i], 0);
      assert text[..i + 1][..i] == text[..i];
      MulSumAppend(AllMuls(text[..i]), allMuls);
      finalSum := AddProducts(finalSum, allMuls);
    }
    assert text[..|text|] == text;
  }

  // ---------------------------------------------------------------------------
  // Part 2: the commands and the `enabled` switch

  /** `do()` or `don't()`. */
  predicate IsSwitch(c: string)
  {
    c == "do()" || c == "don't()"
  }

  /** What the three-way pattern of line 50 matches at `p`, as an end
      position; the alternatives are tried in the order written. */
  function CommandAt(s: string, p: nat): (r: Option<nat>)
    requires p <= |s|
    ensures r.Some? ==> p < r.value <= |s| && (IsSwitch(s[p..r.value]) || IsMulToken(s[p..r.value]))
  {
    if StartsWith(s, p, "do()") then Some(p + 4)
    else if StartsWith(s, p, "don't()") then Some(p + 7)
    else match MulAt(s, p)
      case Some(xy) => MulAtToken(s, p); Some(MulEnd(p, xy))
      case None => None
  }

  /** The tokens `re.findall` returns for the three-way pattern on `s[p..]`. */
  function FindCommands(s: string, p: nat): (r: seq<string>)
    requires p <= |s|
    ensures forall k :: 0 <= k < |r| ==> IsSwitch(r[k]) || IsMulToken(r[k])
    decreases |s| - p
  {
    if p == |s| then []
    else match CommandAt(s, p)
      case Some(e) => [s[p..e]] + FindCommands(s, e)
      case None => FindCommands(s, p + 1)
  }

  /** Each of the three forms written at `q` is what the pattern matches there:
      a `don't()` is not taken for a `do()`, and a `mul` starts with `m`. */
  lemma CommandAtComplete(s: string, q: nat, x: string, y: string)
    requires q <= |s|
    ensures StartsWith(s, q, "do()") ==> CommandAt(s, q) == Some(q + 4)
    ensures StartsWith(s, q, "don't()") ==> CommandAt(s, q) == Some(q + 7)
    ensures MulEnd(q, (x, y)) <= |s| && MulShape(s[q..MulEnd(q, (x, y))], x, y) ==>
              CommandAt(s, q) == Some(MulEnd(q, (x, y)))
  {
    if StartsWith(s, q, "don't()") {
      assert s[q + 2] == s[q..q + 7][2] == 'n';
      assert !StartsWith(s, q, "do()") by {
        if q + 4 <= |s| {
          assert s[q..q + 4][2] == s[q + 2];
        }
      }
    }
    if MulEnd(q, (x, y)) <= |s| && MulShape(s[q..MulEnd(q, (x, y))], x, y) {
      assert s[q] == s[q..MulEnd(q, (x, y))][0] == 'm';
      assert !StartsWith(s, q, "do()") && !StartsWith(s, q, "don't()") by {
        if q + 4 <= |s| {
          assert s[q..q + 4][0] == s[q];
        }
        if q + 7 <= |s| {
          assert s[q..q + 7][0] == s[q];
        }
      }
      MulAtComplete(s, q, x, y);
    }
  }

  /** A command starts with `d` or `m`, and neither letter occurs in it again. */
  lemma CommandLetters(s: string, p: nat)
    requires p <= |s| && CommandAt(s, p).Some?
    ensures s[p] == 'd' || s[p] == 'm'
    ensures forall i :: p < i < CommandAt(s, p).value ==> s[i] != 'd' && s[i] != 'm'
  {
    if StartsWith(s, p, "do()") {
      assert forall i :: p <= i < p + 4 ==> s[i] == s[p..p + 4][i - p];
    } else if StartsWith(s, p, "don't()") {
      assert forall i :: p <= i < p + 7 ==> s[i] == s[p..p + 7][i - p];
    } else {
      MulInnerNoM(s, p);
      var a := DigitRun(s, p + 4);
      var q := p + 4 + a;
      var b := DigitRun(s, q + 1);
      var e := q + 1 + b;
      forall i | p <= i <= e ensures s[i] != 'd' && (i == p ==> s[i] == 'm') {
        if i < p + 4 {
          assert s[i] == s[p..p + 4][i - p];
        } else if i < q || q < i < e {
          assert IsDigit(s[i]);
        }
      }
    }
  }

  /** Every command the pattern matches at `q >= p` is among the commands of
      `s[p..]`: an earlier match cannot reach past the `d` or `m` it starts with. */
  lemma {:induction false} FindCommandsReaches(s: string, p: nat, q: nat)
    requires p <= q <= |s| && CommandAt(s, q).Some?
    ensures s[q..CommandAt(s, q).value] in FindCommands(s, p)
    decreases q - p
  {
    if p == q {
      assert FindCommands(s, q)[0] == s[q..CommandAt(s, q).value];
    } else {
      match CommandAt(s, p)
      case Some(e) =>
        CommandLetters(s, p);
        CommandLetters(s, q);
        FindCommandsReaches(s, e, q);
        assert FindCommands(s, p) == [s[p..e]] + FindCommands(s, e);
      case None =>
        FindCommandsReaches(s, p + 1, q);
    }
  }

  /** Every `do()`, `don't()` and `mul(x,y)` written at or after `p` is among the
      commands of `s[p..]`. */
  lemma FindCommandsComplete(s: string, p: nat, q: nat, x: string, y: string)
    requires p <= q <= |s|
    ensures StartsWith(s, q, "do()") ==> "do()" in FindCommands(s, p)
    ensures StartsWith(s, q, "don't()") ==> "don't()" in FindCommands(s, p)
    ensures MulEnd(q, (x, y)) <= |s| && MulShape(s[q..MulEnd(q, (x, y))], x, y) ==>
              s[q..MulEnd(q, (x, y))] in FindCommands(s, p)
  {
    CommandAtComplete(s, q, x, y);
    if CommandAt(s, q).Some? {
      FindCommandsReaches(s, p, q);
    }
  }

  /** All commands of the input, line after line. */
  function AllCommands(text: seq<string>): (r: seq<string>)
    ensures forall k :: 0 <= k < |r| ==> IsSwitch(r[k]) || IsMulToken(r[k])
    decreases |text|
  {
    if |text| == 0 then []
    else AllCommands(text[..|text| - 1]) + FindCommands(text[|text| - 1], 0)
  }

  /** The `mul` tokens among a list of commands. */
  function MulsOf(cmds: seq<string>): seq<string>
    decreases |cmds|
  {
    if |cmds| == 0 then []
    else (if IsSwitch(cmds[0]) then [] else [cmds[0]]) + MulsOf(cmds[1..])
  }

  lemma {:induction false} MulsOfAppend(a: seq<string>, b: seq<string>)
    ensures MulsOf(a + b) == MulsOf(a) + MulsOf(b)
    decreases |a|
  {
    if |a| > 0 {
      assert (a + b)[0] == a[0] && (a + b)[1..] == a[1..] + b;
      var head := if IsSwitch(a[0]) then [] else [a[0]];
      assert MulsOf(a + b) == head + MulsOf(a[1..] + b);
      assert MulsOf(a) == head + MulsOf(a[1..]);
      assert head + (MulsOf(a[1..]) + MulsOf(b)) == (head + MulsOf(a[1..])) + MulsOf(b);
      MulsOfAppend(a[1..], b);
    } else {
      assert a + b == b;
    }
  }

  /** The three-way pattern finds the same `mul`s as the pattern of
      `part_1`: a `do()` or `don't()` holds no `m`, so no `mul` is hidden in it. */
  lemma {:induction false} FindCommandsMuls(s: string, p: nat)
    requires p <= |s|
    ensures MulsOf(FindCommands(s, p)) == FindMuls(s, p)
    decreases |s| - p
  {
    if p < |s| {
      match CommandAt(s, p)
      case Some(e) =>
        FindCommandsMuls(s, e);
        var cmds := FindCommands(s, p);
        assert cmds[0] == s[p..e] && cmds[1..] == FindCommands(s, e);
        if StartsWith(s, p, "do()") {
          assert forall i :: p <= i < p + 4 ==> s[i] == s[p..p + 4][i - p];
          SkipNoM(s, p, e);
        } else if StartsWith(s, p, "don't()") {
          assert forall i :: p <= i < p + 7 ==> s[i] == s[p..p + 7][i - p];
          SkipNoM(s, p, e);
        } else {
          assert s[p..e][0] == 'm';
        }
      case None =>
        FindCommandsMuls(s, p + 1);
    }
  }

  /** Across the whole input, the `mul`s of `part_2` are those of `part_1`. */
  lemma {:induction false} AllCommandsMuls(text: seq<string>)
    ensures MulsOf(AllCommands(text)) == AllMuls(text)
    decreases |text|
  {
    if |text| > 0 {
      var n := |text| - 1;
      AllCommandsMuls(text[..n]);
      MulsOfAppend(AllCommands(text[..n]), FindCommands(text[n], 0));
      FindCommandsMuls(text[n], 0);
    }
  }

  /** The `enabled` flag after a list of commands, starting from `True`. */
  function Enabled(cmds: seq<string>): bool
    decreases |cmds|
  {
    if |cmds| == 0 then true
    else if cmds[|cmds| - 1] == "do()" then true
    else if cmds[|cmds| - 1] == "don't()" then false
    else Enabled(cmds[..|cmds| - 1])
  }

  /** The switch is on exactly when every `don't()` so far was followed by a
      later `do()`, i.e. the most recent switch, if any, is a `do()`. */
  lemma {:induction false} EnabledIff(cmds: seq<string>)
    ensures Enabled(cmds) <==>
      forall k :: 0 <= k < |cmds| && cmds[k] == "don't()" ==>
        exists j :: k < j < |cmds| && cmds[j] == "do()"
    decreases |cmds|
  {
    if |cmds| > 0 {
      var n := |cmds| - 1;
      EnabledIff(cmds[..n]);
      assert forall k :: 0 <= k < n ==> cmds[..n][k] == cmds[k];
      if cmds[n] == "do()" {
        forall k | 0 <= k < |cmds| && cmds[k] == "don't()"
          ensures exists j :: k < j < |cmds| && cmds[j] == "do()"
        {
          assert k < n < |cmds| && cmds[n] == "do()";
        }
      } else if cmds[n] == "don't()" {
      } else {
        forall k | 0 <= k < n && cmds[k] == "don't()" && (exists j :: k < j < |cmds| && cmds[j] == "do()")
          ensures exists j :: k < j < n && cmds[..n][j] == "do()"
        {
          var j :| k < j < |cmds| && cmds[j] == "do()";
          assert j < n && cmds[..n][j] == "do()";
        }
        forall k | 0 <= k < n && cmds[k] == "don't()" && (exists j :: k < j < n && cmds[..n][j] == "do()")
          ensures exists j :: k < j < |cmds| && cmds[j] == "do()"
        {
          var j :| k < j < n && cmds[..n][j] == "do()";
          assert cmds[j] == "do()";
        }
      }
    }
  }

  /** The sum `part_2` builds over a list of commands. */
  function EnabledSum(cmds: seq<string>): nat
    requires forall k :: 0 <= k < |cmds| ==> IsSwitch(cmds[k]) || IsMulToken(cmds[k])
    decreases |cmds|
  {
    if |cmds| == 0 then 0
    else
      var last := cmds[|cmds| - 1];
      EnabledSum(cmds[..|cmds| - 1]) +
      (if !IsSwitch(last) && Enabled(cmds[..|cmds| - 1]) then Product(last) else 0)
  }

  /** What `part_2` returns. */
  function Part2Answer(text: seq<string>): nat
  {
    EnabledSum(AllCommands(text))
  }

  /** The `mul`s among commands are `mul` tokens. */
  lemma {:induction false} MulsOfTokens(cmds: seq<string>)
    requires forall k :: 0 <= k < |cmds| ==> IsSwitch(cmds[k]) || IsMulToken(cmds[k])
    ensures forall k :: 0 <= k < |MulsOf(cmds)| ==> IsMulToken(MulsOf(cmds)[k])
    decreases |cmds|
  {
    if |cmds| > 0 {
      MulsOfTokens(cmds[1..]);
    }
  }

  /** With no `don't()`, the switch stays on. */
  lemma {:induction false} NoDontEnabled(cmds: seq<string>)
    requires "don't()" !in cmds
    ensures Enabled(cmds)
    decreases |cmds|
  {
    if |cmds| > 0 {
      var n := |cmds| - 1;
      assert cmds[n] != "don't()";
      assert "don't()" !in cmds[..n];
      NoDontEnabled(cmds[..n]);
    }
  }

  lemma MulSumSnoc(tokens: seq<string>, t: string)
    requires forall k :: 0 <= k < |tokens| ==> IsMulToken(tokens[k])
    requires IsMulToken(t)
    ensures MulSum(tokens + [t]) == MulSum(tokens) + Product(t)
  {
    assert (tokens + [t])[..|tokens|] == tokens;
  }

  /** One command appended: the `mul` sum of `part_1` grows by its product
      when it is a `mul`. */
  lemma MulsOfSnocSum(init: seq<string>, last: string)
    requires forall k :: 0 <= k < |init| ==> IsSwitch(init[k]) || IsMulToken(init[k])
    requires IsSwitch(last) || IsMulToken(last)
    ensures forall k :: 0 <= k < |MulsOf(init)| ==> IsMulToken(MulsOf(init)[k])
    ensures forall k :: 0 <= k < |MulsOf(init + [last])| ==> IsMulToken(MulsOf(init + [last])[k])
    ensures MulSum(MulsOf(init + [last])) ==
              MulSum(MulsOf(init)) + (if IsSwitch(last) then 0 else Product(last))
  {
    MulsOfAppend(init, [last]);
    assert [last][1..] == [];
    MulsOfTokens(init);
    MulsOfTokens(init + [last]);
    if IsSwitch(last) {
      assert MulsOf([last]) == [];
      assert MulsOf(init) + [] == MulsOf(init);
    } else {
      assert MulsOf([last]) == [last];
      MulSumSnoc(MulsOf(init), last);
    }
  }

  /** Switching only removes products, and without any `don't()` it removes none. */
  lemma {:induction false} EnabledSumBound(cmds: seq<string>)
    requires forall k :: 0 <= k < |cmds| ==> IsSwitch(cmds[k]) || IsMulToken(cmds[k])
    ensures forall k :: 0 <= k < |MulsOf(cmds)| ==> IsMulToken(MulsOf(cmds)[k])
    ensures EnabledSum(cmds) <= MulSum(MulsOf(cmds))
    ensures "don't()" !in cmds ==> EnabledSum(cmds) == MulSum(MulsOf(cmds))
    decreases |cmds|
  {
    MulsOfTokens(cmds);
    if |cmds| > 0 {
      var n := |cmds| - 1;
      var init, last := cmds[..n], cmds[n];
      assert cmds == init + [last];
      EnabledSumBound(init);
      CommandStep(init, last);
      MulsOfSnocSum(init, last);
      if "don't()" !in cmds {
        assert "don't()" !in init;
        NoDontEnabled(init);
      }
    }
  }

  /** `part_2` never exceeds `part_1`. */
  lemma Part2AtMostPart1(text: seq<string>)
    ensures Part2Answer(text) <= Part1Answer(text)
  {
    EnabledSumBound(AllCommands(text));
    AllCommandsMuls(text);
  }

  /** A `don't()` command is a `don't()` written in the line. */
  lemma {:induction false} DontIsWritten(s: string, p: nat)
    requires p <= |s|
    requires "don't()" in FindCommands(s, p)
    ensures exists i :: p <= i <= |s| && StartsWith(s, i, "don't()")
    decreases |s| - p
  {
    match CommandAt(s, p)
    case Some(e) =>
      var cmds := FindCommands(s, p);
      assert cmds == [s[p..e]] + FindCommands(s, e);
      if s[p..e] == "don't()" {
        assert StartsWith(s, p, "don't()");
      } else {
        DontIsWritten(s, e);
      }
    case None =>
      DontIsWritten(s, p + 1);
  }

  lemma {:induction false} NoDontCommand(text: seq<string>)
    requires forall l: nat, i: nat :: l < |text| && i <= |text[l]| ==> !StartsWith(text[l], i, "don't()")
    ensures "don't()" !in AllCommands(text)
    decreases |text|
  {
    if |text| > 0 {
      var n := |text| - 1;
      NoDontCommand(text[..n]);
      if "don't()" in FindCommands(text[n], 0) {
        DontIsWritten(text[n], 0);
      }
    }
  }

  /** Without a `don't()` anywhere in the input, both parts agree. */
  lemma NoDontSameAnswer(text: seq<string>)
    requires forall l: nat, i: nat :: l < |text| && i <= |text[l]| ==> !StartsWith(text[l], i, "don't()")
    ensures Part2Answer(text) == Part1Answer(text)
  {
    NoDontCommand(text);
    EnabledSumBound(AllCommands(text));
    AllCommandsMuls(text);
  }

  /** One command appended: how the sum and the switch of `part_2` move. */
  lemma CommandStep(cmds: seq<string>, c: string)
    requires forall k :: 0 <= k < |cmds| ==> IsSwitch(cmds[k]) || IsMulToken(cmds[k])
    requires IsSwitch(c) || IsMulToken(c)
    ensures EnabledSum(cmds + [c]) ==
              EnabledSum(cmds) + (if !IsSwitch(c) && Enabled(cmds) then Product(c) else 0)
    ensures Enabled(cmds + [c]) == if c == "do()" then true else if c == "don't()" then false else Enabled(cmds)
  {
    assert (cmds + [c])[..|cmds|] == cmds;
  }

  /** The inner loop of `part_2` over the commands of one line: `do()` and
      `don't()` set the switch, a `mul` adds its product while it is set. */
  method ApplyCommands(enabled: bool, finalSum: int, ghost done: seq<string>, cmdList: seq<string>)
    returns (enabledAfter: bool, sumAfter: int)
    requires forall k :: 0 <= k < |done| ==> IsSwitch(done[k]) || IsMulToken(done[k])
    requires forall k :: 0 <= k < |cmdList| ==> IsSwitch(cmdList[k]) || IsMulToken(cmdList[k])
    requires finalSum == EnabledSum(done) && enabled == Enabled(done)
    ensures sumAfter == EnabledSum(done + cmdList)
    ensures enabledAfter == Enabled(done + cmdList)
  {
    enabledAfter, sumAfter := enabled, finalSum;
    ghost var cur := done;
    for k := 0 to |cmdList|
      invariant cur == done + cmdList[..k]
      invariant forall j :: 0 <= j < |cur| ==> IsSwitch(cur[j]) || IsMulToken(cur[j])
      invariant sumAfter == EnabledSum(cur)
      invariant enabledAfter == Enabled(cur)
    {
      var command := cmdList[k];
      CommandStep(cur, command);
      assert done + cmdList[..k + 1] == cur + [command];
      cur := cur + [command];
      if command == "do()" {
        enabledAfter := true;
      } else if command == "don't()" {
        enabledAfter := false;
      } else {
        if !enabledAfter {
          continue;
        }
        var (x, y) := Operands(command);
        sumAfter := sumAfter + DecimalValue(x) * DecimalValue(y);
      }
    }
    assert cmdList[..|cmdList|] == cmdList;
  }

  /** `part_2`: one `enabled` flag for the whole input, carried from line to line. */
  method Part2(text: seq<string>) returns (finalSum: int)
    ensures finalSum == Part2Answer(text)
  {
    var enabled := true;
    finalSum := 0;
    for i := 0 to |text|
      invariant finalSum == EnabledSum(AllCommands(text[..i]))
      invariant enabled == Enabled(AllCommands(text[..i]))
    {
      var cmdList := FindCommands(text[i], 0);
      assert text[..i + 1][..i] == text[..i];
      enabled, finalSum := ApplyCommands(enabled, finalSum, AllCommands(text[..i]), cmdList);
    }
    assert text[..|text|] == text;
  }
}
