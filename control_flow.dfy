/** Lesson 2, src/_02_functions_control_flow.rs: the helper functions, the
    `if`/`match` classifications and the loop demonstrations. The loops are
    written for any bound; the lesson's own constants are pinned by the demo
    methods at the end. Integers are `i32` in the source; a range
    precondition stands in for its overflow panic. */
module ControlFlow {
  import opened Std
  import opened Str

  // ---- Helper functions -------------------------------------------------

  /** `calculate_sum`: taking either argument back off the sum leaves the
      other, and the result is an `i32`. */
  function CalculateSum(a: int, b: int): (r: int)
    requires IsI32(a + b)
    ensures IsI32(r)
    ensures r - b == a && r - a == b
  {
    a + b
  }

  /** `multiply`: the product is an `i32`; it is 0 exactly when a factor is
      0, and positive exactly when both factors have the same sign. */
  function Multiply(a: int, b: int): (r: int)
    requires IsI32(a * b)
    ensures IsI32(r)
    ensures r == 0 <==> a == 0 || b == 0
    ensures r > 0 <==> (a > 0 && b > 0) || (a < 0 && b < 0)
  {
    MulSign(a, b);
    a * b
  }

  /** `square`: `multiply(x, x)`, never negative, the same for `x` and `-x`,
      and zero only at zero. */
  function Square(x: int): (r: int)
    requires IsI32(x * x)
    ensures r == Multiply(x, x)
    ensures r >= 0 && (r == 0 <==> x == 0)
    ensures r == (-x) * (-x)
  {
    x * x
  }

  /** Swapping the arguments of `calculate_sum` or `multiply` changes
      nothing. */
  lemma SumAndProductCommute(a: int, b: int)
    requires IsI32(a + b) && IsI32(a * b)
    ensures CalculateSum(a, b) == CalculateSum(b, a)
    ensures IsI32(b * a) && Multiply(a, b) == Multiply(b, a)
  {
  }

  /** `function_definition`: 5 + 10 is 15. */
  lemma FunctionDefinition()
    ensures CalculateSum(5, 10) == 15
  {
  }

  /** `function_return_values`: 5 squared is 25, and the larger of 10 and 20
      is 20. */
  lemma FunctionReturnValues()
    ensures Square(5) == 25
    ensures FindMax(10, 20) == 20
  {
  }

  /** `find_max`: `a` when it is strictly greater, `b` otherwise. */
  function FindMax(a: int, b: int): (r: int)
    ensures r >= a && r >= b
    ensures r == a || r == b
    ensures a <= b ==> r == b
  {
    if a > b then a else b
  }

  /** `calculate_sum_and_product`: both results at once. */
  function CalculateSumAndProduct(a: int, b: int): (r: (int, int))
    requires IsI32(a + b) && IsI32(a * b)
    ensures IsI32(r.0) && IsI32(r.1)
    ensures r.0 - b == a && r.0 - a == b
    ensures r.1 == 0 <==> a == 0 || b == 0
  {
    MulSign(a, b);
    (a + b, a * b)
  }

  /** The tuple's components are what `calculate_sum` and `multiply` return. */
  lemma SumAndProductAgree(a: int, b: int)
    requires IsI32(a + b) && IsI32(a * b)
    ensures CalculateSumAndProduct(a, b) == (CalculateSum(a, b), Multiply(a, b))
    ensures CalculateSumAndProduct(3, 7) == (10, 21)
  {
  }

  const LargeText: string := " 是一个很大的数字"
  const SmallText: string := " 是一个不大的数字"

  /** `describe_number`: the number, then one of two fixed phrases. */
  function DescribeNumber(n: int, isLarge: bool): (r: string)
    ensures |Dec(n)| < |r| && r[..|Dec(n)|] == Dec(n)
    ensures r[|Dec(n)|..] == (if isLarge then LargeText else SmallText)
  {
    if isLarge then Dec(n) + LargeText else Dec(n) + SmallText
  }

  /** A description names one number and one phrase: the number can be read
      back from the text, and "很大" appears exactly when `isLarge` holds. */
  lemma {:induction false} DescribeNumberInjective(m: int, a: bool, n: int, b: bool)
    requires DescribeNumber(m, a) == DescribeNumber(n, b)
    ensures m == n && a == b
  {
    var tm := if a then LargeText[1..] else SmallText[1..];
    var tn := if b then LargeText[1..] else SmallText[1..];
    assert DescribeNumber(m, a) == Dec(m) + [' '] + tm;
    assert DescribeNumber(n, b) == Dec(n) + [' '] + tn;
    DecHasNo(m, ' ');
    DecHasNo(n, ' ');
    SplitUnique(Dec(m), tm, Dec(n), tn, ' ');
    DecInjective(m, n);
    assert LargeText[1..] != SmallText[1..] by {
      assert LargeText[4] != SmallText[4];
    }
  }

  /** A cell holding an `i32`, standing for the `let mut value` that
      `increment` receives as `&mut i32`. */
  class I32Cell {
    var value: int

    constructor (value: int)
      ensures this.value == value
    {
      this.value := value;
    }
  }

  /** `increment`: adds `amount` through the reference and changes nothing
      else. */
  method Increment(cell: I32Cell, amount: int)
    requires IsI32(cell.value + amount)
    modifies cell
    ensures cell.value == old(cell.value) + amount
  {
    cell.value := cell.value + amount;
  }

  /** The `function_parameters` demo: 3 * 4, the description of 42, and 10
      incremented by 5. */
  method FunctionParameters() returns (product: int, description: string, value: int)
    ensures product == 12
    ensures description == "42 是一个很大的数字"
    ensures value == 15
  {
    product := Multiply(3, 4);
    description := DescribeNumber(42, true);
    var cell := new I32Cell(10);
    Increment(cell, 5);
    value := cell.value;
  }

  // ---- if / match -------------------------------------------------------

  /** The `if`/`else if` chain on the score: no upper or lower bound, so
      every integer gets one of the four grades, each on its own band. */
  function ScoreIfChain(score: int): (r: string)
    ensures r == "优秀" <==> score >= 90
    ensures r == "良好" <==> 80 <= score < 90
    ensures r == "及格" <==> 60 <= score < 80
    ensures r == "不及格" <==> score < 60
  {
    if score >= 90 then "优秀"
    else if score >= 80 then "良好"
    else if score >= 60 then "及格"
    else "不及格"
  }

  /** The `match` on the score: four closed ranges and a catch-all. */
  function ScoreMatch(score: int): (r: string)
    ensures r == "分数无效" <==> score < 0 || score > 100
  {
    if 0 <= score <= 59 then "不及格"
    else if 60 <= score <= 79 then "及格"
    else if 80 <= score <= 89 then "良好"
    else if 90 <= score <= 100 then "优秀"
    else "分数无效"
  }

  /** The two classifications agree exactly on the valid scores 0..=100: above
      100 the chain still says "优秀" and below 0 "不及格", where the match
      reports an invalid score. */
  lemma ScoreChainAgreesWithMatch(score: int)
    ensures ScoreIfChain(score) == ScoreMatch(score) <==> 0 <= score <= 100
  {
    if score < 0 || score > 100 {
      assert ScoreIfChain(score) != "分数无效" by {
        assert |"分数无效"| == 4;
      }
    }
  }

  /** The first `match` of `match_expressions`: the Chinese numeral for 1 to
      5, the catch-all text for every other number. */
  function NumberName(n: int): (r: string)
    ensures r == "其他数字" <==> !(1 <= n <= 5)
    ensures n == 1 ==> r == "一"
    ensures n == 2 ==> r == "二"
    ensures n == 3 ==> r == "三"
    ensures n == 4 ==> r == "四"
    ensures n == 5 ==> r == "五"
  {
    match n
    case 1 => "一"
    case 2 => "二"
    case 3 => "三"
    case 4 => "四"
    case 5 => "五"
    case _ => "其他数字"
  }

  /** The `match` on a colour name used as an expression: a status for the
      three known colours, the catch-all text for any other string. */
  function ColorStatus(color: string): (r: string)
    ensures r == "未知颜色" <==> color != "red" && color != "green" && color != "yellow"
    ensures color == "red" ==> r == "警告"
    ensures color == "green" ==> r == "安全"
    ensures color == "yellow" ==> r == "注意"
  {
    if color == "red" then "警告"
    else if color == "green" then "安全"
    else if color == "yellow" then "注意"
    else "未知颜色"
  }

  /** The demo values of `match_expressions` and `if_else_statements`. */
  lemma MatchDemoResults()
    ensures NumberName(3) == "三" && NumberName(6) == "其他数字"
    ensures ColorStatus("red") == "警告" && ColorStatus("blue") == "未知颜色"
    ensures ScoreMatch(85) == "良好" && ScoreIfChain(85) == "良好"
  {
  }

  // ---- Loops ------------------------------------------------------------

  /** The integers of the range `lo..hi`, in order. */
  function Range(lo: int, hi: int): (r: seq<int>)
    ensures |r| == if lo < hi then hi - lo else 0
    ensures forall i :: 0 <= i < |r| ==> r[i] == lo + i
    decreases hi - lo
  {
    if lo >= hi then [] else [lo] + Range(lo + 1, hi)
  }

  lemma RangeSnoc(lo: int, hi: int)
    requires lo <= hi
    ensures Range(lo, hi + 1) == Range(lo, hi) + [hi]
  {
    assert |Range(lo, hi + 1)| == |Range(lo, hi) + [hi]|;
  }

  /** The counting `loop`: increments `count`, records it, and breaks once it
      reaches `limit`. It always runs at least once. */
  method CountLoop(limit: int) returns (counts: seq<int>)
    ensures counts == Range(1, Max(limit, 1) + 1)
  {
    var count := 0;
    counts := [];
    while true
      invariant 0 <= count < Max(limit, 1)
      invariant counts == Range(1, count + 1)
      decreases Max(limit, 1) - count
    {
      count := count + 1;
      RangeSnoc(1, count);
      counts := counts + [count];
      if count >= limit {
        break;
      }
    }
  }

  function Max(a: int, b: int): int
  {
    if a > b then a else b
  }

  /** The `loop` used as an expression: counts attempts until the attempt
      equal to `target`, then breaks with `attempts * 10`. It ends only when
      `target` is positive, since attempts start at 1. */
  method LoopWithValue(target: int) returns (attempts: seq<int>, result: int)
    requires target >= 1 && IsI32(target * 10)
    ensures attempts == Range(1, target + 1)
    ensures result == target * 10
  {
    var attempt := 0;
    attempts := [];
    while true
      invariant 0 <= attempt < target
      invariant attempts == Range(1, attempt + 1)
      decreases target - attempt
    {
      attempt := attempt + 1;
      RangeSnoc(1, attempt);
      attempts := attempts + [attempt];
      if attempt == target {
        result := attempt * 10;
        return;
      }
    }
  }

  /** The countdown `while`: shows `start`, `start - 1`, ..., 1, and nothing
      when `start` is not positive. */
  method Countdown(start: int) returns (shown: seq<int>)
    ensures |shown| == Max(start, 0)
    ensures forall i :: 0 <= i < |shown| ==> shown[i] == start - i
  {
    var countdown := start;
    shown := [];
    while countdown > 0
      invariant countdown == start || 0 <= countdown < start
      invariant |shown| == start - countdown
      invariant forall i :: 0 <= i < |shown| ==> shown[i] == start - i
    {
      shown := shown + [countdown];
      countdown := countdown - 1;
    }
  }

  /** The `while index < numbers.len()` walk over an array: every element once,
      in index order, with its index. */
  method WalkArray(numbers: array<int>) returns (visited: seq<(int, int)>)
    ensures |visited| == numbers.Length
    ensures forall i :: 0 <= i < |visited| ==> visited[i] == (i, numbers[i])
  {
    var index := 0;
    visited := [];
    while index < numbers.Length
      invariant 0 <= index <= numbers.Length
      invariant |visited| == index
      invariant forall i :: 0 <= i < index ==> visited[i] == (i, numbers[i])
    {
      visited := visited + [(index, numbers[index])];
      index := index + 1;
    }
  }

  /** The `break` demo: walks `lo..hi`, recording each number examined, and
      stops at the first one above `threshold`. In a range of consecutive
      integers that is `max(lo, threshold + 1)`, if it lies below `hi`. */
  method SearchFirstAbove(lo: int, hi: int, threshold: int) returns (examined: seq<int>, found: Option<int>)
    ensures var first := Max(lo, threshold + 1);
      found == (if first < hi then Some(first) else None)
      && examined == Range(lo, if first < hi then first + 1 else hi)
    ensures forall i :: 0 <= i < |examined| && (found.None? || i < |examined| - 1) ==> examined[i] <= threshold
  {
    var number := lo;
    examined := [];
    found := None;
    while number < hi
      invariant lo <= number && (number <= hi || number == lo)
      invariant examined == Range(lo, number)
      invariant forall i :: 0 <= i < |examined| ==> examined[i] <= threshold
      invariant number <= Max(lo, threshold + 1)
    {
      RangeSnoc(lo, number);
      examined := examined + [number];
      if number > threshold {
        found := Some(number);
        return;
      }
      number := number + 1;
    }
  }

  predicate IsEven(x: int) {
    x % 2 == 0
  }

  /** Rust's `number % 2 != 0` truncates toward zero, so an odd negative number
      leaves -1 where Dafny's `%` leaves 1; the test for zero is the same. */
  lemma {:induction false} TruncRemTwo(x: int)
    ensures TruncRem(x, 2) == 0 <==> IsEven(x)
  {
    TruncDivSpec(x, 2);
  }

  /** The numbers of `xs` that pass the `continue` test, in order. */
  function Evens(xs: seq<int>): (r: seq<int>)
    ensures |r| <= |xs|
    ensures forall x :: x in r ==> x in xs && IsEven(x)
  {
    if xs == [] then [] else Evens(xs[..|xs| - 1]) + (if IsEven(xs[|xs| - 1]) then [xs[|xs| - 1]] else [])
  }

  /** `Evens` keeps exactly the even elements. */
  lemma {:induction false} EvensMembers(xs: seq<int>, x: int)
    ensures x in Evens(xs) <==> x in xs && IsEven(x)
    decreases |xs|
  {
    if xs != [] {
      var init := xs[..|xs| - 1];
      EvensMembers(init, x);
      assert xs == init + [xs[|xs| - 1]];
    }
  }

  /** On a strictly increasing sequence the result is strictly increasing. */
  lemma {:induction false} EvensIncreasing(xs: seq<int>)
    requires forall i, j :: 0 <= i < j < |xs| ==> xs[i] < xs[j]
    ensures forall i, j :: 0 <= i < j < |Evens(xs)| ==> Evens(xs)[i] < Evens(xs)[j]
    decreases |xs|
  {
    if xs != [] {
      var init := xs[..|xs| - 1];
      var last := xs[|xs| - 1];
      var e, ei := Evens(xs), Evens(init);
      EvensIncreasing(init);
      forall y | y in ei
        ensures y < last
      {
        EvensMembers(init, y);
        var k :| 0 <= k < |init| && init[k] == y;
        assert xs[k] == y;
      }
      forall i, j | 0 <= i < j < |e|
        ensures e[i] < e[j]
      {
        assert e[i] == ei[i];
        if j < |ei| {
          assert e[j] == ei[j];
        } else {
          assert e[j] == last;
          assert ei[i] in ei;
        }
      }
    }
  }

  /** The `continue` demo: walks `lo..hi` and keeps the even numbers. */
  method EvenNumbers(lo: int, hi: int) returns (evens: seq<int>)
    ensures evens == Evens(Range(lo, hi))
  {
    var number := lo;
    evens := [];
    while number < hi
      invariant lo <= number && (number <= hi || number == lo)
      invariant evens == Evens(Range(lo, number))
    {
      RangeSnoc(lo, number);
      EvensSnoc(Range(lo, number), number);
      TruncRemTwo(number);
      if TruncRem(number, 2) != 0 {
        number := number + 1;
        continue;
      }
      evens := evens + [number];
      number := number + 1;
    }
  }

  // ---- The lesson's own runs ---------------------------------------------

  /** `loop_statements`: the counting loop runs exactly three times and the
      value loop breaks with 50 after five attempts. */
  method LoopStatements() returns (counts: seq<int>, attempts: seq<int>, result: int)
    ensures counts == [1, 2, 3]
    ensures attempts == [1, 2, 3, 4, 5]
    ensures result == 50
  {
    counts := CountLoop(3);
    attempts, result := LoopWithValue(5);
    assert Range(1, 4) == [1, 2, 3];
    assert Range(1, 6) == [1, 2, 3, 4, 5];
  }

  /** `while_statements`: 5 down to 1, then the five array elements. */
  method WhileStatements() returns (shown: seq<int>, visited: seq<(int, int)>)
    ensures shown == [5, 4, 3, 2, 1]
    ensures visited == [(0, 10), (1, 20), (2, 30), (3, 40), (4, 50)]
  {
    shown := Countdown(5);
    var numbers := new int[5] [10, 20, 30, 40, 50];
    visited := WalkArray(numbers);
  }

  /** The evens of 1..11 are 2, 4, 6, 8 and 10. */
  lemma EvensOfOneToTen()
    ensures Evens(Range(1, 11)) == [2, 4, 6, 8, 10]
  {
    EvensOfRange(5);
  }

  /** The even numbers of 1..=2k are 2, 4, ..., 2k. */
  lemma {:induction false} EvensOfRange(k: nat)
    ensures Evens(Range(1, 2 * k + 1)) == seq(k, i => 2 * (i + 1))
  {
    if k > 0 {
      EvensOfRange(k - 1);
      EvensStep(k);
      DoublesSnoc(k);
    }
  }

  /** Going from 1..=2k-2 to 1..=2k adds one odd and one even number. */
  lemma EvensStep(k: nat)
    requires k > 0
    ensures Evens(Range(1, 2 * k + 1)) == Evens(Range(1, 2 * (k - 1) + 1)) + [2 * k]
  {
    var odd, even := 2 * k - 1, 2 * k;
    DoubleIsEven(k);
    RangeSnoc(1, odd);
    EvensSnoc(Range(1, odd), odd);
    RangeSnoc(1, even);
    EvensSnoc(Range(1, even), even);
  }

  lemma DoublesSnoc(k: nat)
    requires k > 0
    ensures seq(k, i => 2 * (i + 1)) == seq(k - 1, i => 2 * (i + 1)) + [2 * k]
  {
  }

  lemma DoubleIsEven(k: int)
    ensures !IsEven(2 * k - 1) && IsEven(2 * k)
  {
  }

  /** The filter works element by element, so it extends at the end. */
  lemma EvensSnoc(xs: seq<int>, x: int)
    ensures Evens(xs + [x]) == Evens(xs) + (if IsEven(x) then [x] else [])
  {
    assert (xs + [x])[..|xs|] == xs;
  }



  /** `break_continue_keywords`: 1 to 11 examined and 11 found; 2, 4, 6, 8 and
      10 kept. */
  method BreakContinueKeywords() returns (examined: seq<int>, found: Option<int>, evens: seq<int>)
    ensures examined == Range(1, 12) && found == Some(11)
    ensures evens == [2, 4, 6, 8, 10]
  {
    examined, found := SearchFirstAbove(1, 20, 10);
    evens := EvenNumbers(1, 11);
    EvensOfOneToTen();
  }
}
