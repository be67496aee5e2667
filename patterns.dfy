/** Lesson 5, src/_05_pattern_matching.rs: range patterns, destructuring
    patterns tried in order, `while let` over a popping `Vec`, match guards,
    `@` bindings and patterns in function parameters. */
module Patterns {
  import opened Std
  import ControlFlow
  import Structs

  // ---- Range patterns ---------------------------------------------------

  const InvalidGrade: string := "无效成绩"

  /** `grade`: four closed bands of a `u32` score and a catch-all. */
  function Grade(score: nat): (r: string)
    ensures r == InvalidGrade <==> score > 100
  {
    if score <= 59 then "不及格"
    else if score <= 79 then "及格"
    else if score <= 89 then "良好"
    else if score <= 100 then "优秀"
    else InvalidGrade
  }

  /** Every score lands in exactly one band, and each band's text is given
      for exactly the scores in that band. */
  lemma GradeBands(score: nat)
    ensures Grade(score) == "不及格" <==> score <= 59
    ensures Grade(score) == "及格" <==> 60 <= score <= 79
    ensures Grade(score) == "良好" <==> 80 <= score <= 89
    ensures Grade(score) == "优秀" <==> 90 <= score <= 100
  {
  }

  /** Lesson 2's score `match` uses the same bands; only the text for an
      invalid score differs. */
  lemma GradeAgreesWithScoreMatch(score: nat)
    ensures score <= 100 ==> Grade(score) == ControlFlow.ScoreMatch(score)
    ensures score > 100 ==> Grade(score) == InvalidGrade && ControlFlow.ScoreMatch(score) == "分数无效"
  {
  }

  /** `range_matching`: the five scores the lesson grades. */
  lemma GradeDemo()
    ensures Grade(50) == "不及格" && Grade(75) == "及格" && Grade(85) == "良好"
    ensures Grade(95) == "优秀" && Grade(101) == InvalidGrade
  {
  }

  datatype CharKind = Upper | Lower | Digit | OtherChar

  /** The character `match`: `'A'..='Z'`, then `'a'..='z'`, then
      `'0'..='9'`, then anything else. */
  function ClassifyChar(c: char): (k: CharKind)
    ensures k == Upper <==> 'A' <= c <= 'Z'
    ensures k == Lower <==> 'a' <= c <= 'z'
    ensures k == Digit <==> '0' <= c <= '9'
  {
    if 'A' <= c <= 'Z' then Upper
    else if 'a' <= c <= 'z' then Lower
    else if '0' <= c <= '9' then Digit
    else OtherChar
  }

  /** The three ranges do not overlap, so trying the digits first gives the
      same answer as the order the lesson uses. */
  lemma ClassifyCharOrderIrrelevant(c: char)
    ensures ClassifyChar(c) == (if '0' <= c <= '9' then Digit
      else if 'a' <= c <= 'z' then Lower
      else if 'A' <= c <= 'Z' then Upper
      else OtherChar)
  {
  }

  lemma ClassifyCharDemo()
    ensures ClassifyChar('R') == Upper
  {
  }

  // ---- Destructuring in order -------------------------------------------

  /** The arm `match p` takes in `pattern_destructuring`, with what it binds. */
  datatype PointArm = OnYAxis(y: int) | OnXAxis(x: int) | Plain(x: int, y: int)

  /** `x: 0` is tried first, then `y: 0`, then the binding arm; the origin
      therefore takes the first arm. */
  function MatchPoint(x: int, y: int): (r: PointArm)
    ensures r.OnYAxis? <==> x == 0
    ensures r.OnXAxis? <==> x != 0 && y == 0
    ensures r.OnYAxis? ==> r.y == y
    ensures r.OnXAxis? ==> r.x == x
    ensures r.Plain? ==> r.x == x && r.y == y
  {
    if x == 0 then OnYAxis(y)
    else if y == 0 then OnXAxis(x)
    else Plain(x, y)
  }

  /** The arm of the three-field `match p` in `wildcards`. */
  datatype Point3Arm = XZero(y: int, z: int) | YZero(x: int, z: int) | ZZero(x: int, y: int) | NoZero

  /** `x: 0`, then `y: 0`, then `z: 0`, then the wildcard. */
  function MatchPoint3(x: int, y: int, z: int): (r: Point3Arm)
    ensures r.XZero? <==> x == 0
    ensures r.YZero? <==> x != 0 && y == 0
    ensures r.ZZero? <==> x != 0 && y != 0 && z == 0
    ensures r == NoZero <==> x != 0 && y != 0 && z != 0
    ensures r.XZero? ==> r == XZero(y, z)
    ensures r.YZero? ==> r == YZero(x, z)
    ensures r.ZZero? ==> r == ZZero(x, y)
  {
    if x == 0 then XZero(y, z)
    else if y == 0 then YZero(x, z)
    else if z == 0 then ZZero(x, y)
    else NoZero
  }

  /** The lesson's points: (10, 20) is plain and (1, 2, 3) has no zero. */
  lemma MatchPointDemo()
    ensures MatchPoint(10, 20) == Plain(10, 20)
    ensures MatchPoint3(1, 2, 3) == NoZero
    ensures MatchPoint(0, 0) == OnYAxis(0)
  {
  }

  // ---- while let --------------------------------------------------------

  /** The elements of `s`, last first. */
  function Reverse<T>(s: seq<T>): (r: seq<T>)
    ensures |r| == |s|
  {
    if s == [] then [] else [s[|s| - 1]] + Reverse(s[..|s| - 1])
  }

  /** Position `i` of the reversal holds the element `i` places from the end,
      so every element appears once. */
  lemma {:induction false} ReverseIndex<T>(s: seq<T>, i: nat)
    requires i < |s|
    ensures Reverse(s)[i] == s[|s| - 1 - i]
    decreases |s|
  {
    if i > 0 {
      ReverseIndex(s[..|s| - 1], i - 1);
    }
  }

  /** Reversal keeps the multiset of elements. */
  lemma {:induction false} ReversePermutes<T>(s: seq<T>)
    ensures multiset(Reverse(s)) == multiset(s)
    decreases |s|
  {
    if s != [] {
      ReversePermutes(s[..|s| - 1]);
      assert s == s[..|s| - 1] + [s[|s| - 1]];
    }
  }

  /** `while let Some(top) = stack.pop()`: pops until `None`, collecting the
      elements in the order they come off, and leaves the vector empty. */
  method PopAll<T>(stack: Vec<T>) returns (popped: seq<T>)
    modifies stack
    ensures popped == Reverse(old(stack.elems))
    ensures stack.elems == []
  {
    popped := [];
    while true
      invariant Reverse(old(stack.elems)) == popped + Reverse(stack.elems)
      decreases |stack.elems|
    {
      var top := stack.Pop();
      if top.None? {
        break;
      }
      popped := popped + [top.value];
    }
  }

  /** What the second `while let` prints for each popped element. */
  datatype Report = Number(n: int) | SawNone

  function ReportOf(o: Option<int>): (r: Report)
    ensures r.Number? <==> o.Some?
    ensures o.Some? ==> r.n == o.value
  {
    match o
    case Some(n) => Number(n)
    case None => SawNone
  }

  /** One report per element, in order. */
  function Reports(xs: seq<Option<int>>): (r: seq<Report>)
    ensures |r| == |xs|
    ensures forall i :: 0 <= i < |xs| ==> r[i] == ReportOf(xs[i])
  {
    if xs == [] then [] else [ReportOf(xs[0])] + Reports(xs[1..])
  }

  /** `while let Some(optional) = optional_numbers.pop()` with the `if let`
      inside: one report per element, last element first. */
  method ReportOptionals(numbers: Vec<Option<int>>) returns (log: seq<Report>)
    modifies numbers
    ensures log == Reports(Reverse(old(numbers.elems)))
    ensures numbers.elems == []
  {
    log := [];
    ghost var taken: seq<Option<int>> := [];
    while true
      invariant Reverse(old(numbers.elems)) == taken + Reverse(numbers.elems)
      invariant log == Reports(taken)
      decreases |numbers.elems|
    {
      var optional := numbers.Pop();
      if optional.None? {
        break;
      }
      ReportsSnoc(taken, optional.value);
      taken := taken + [optional.value];
      log := log + [ReportOf(optional.value)];
    }
  }

  lemma ReportsSnoc(xs: seq<Option<int>>, x: Option<int>)
    ensures Reports(xs + [x]) == Reports(xs) + [ReportOf(x)]
  {
    assert |Reports(xs + [x])| == |Reports(xs) + [ReportOf(x)]|;
  }

  /** `while_let_expressions`: 5 to 1 off the stack, then 6, None, 4, None,
      2, 1 off the vector of options. */
  method WhileLetExpressions() returns (popped: seq<int>, log: seq<Report>)
    ensures popped == [5, 4, 3, 2, 1]
    ensures log == [Number(6), SawNone, Number(4), SawNone, Number(2), Number(1)]
  {
    var stack := new Vec([1, 2, 3, 4, 5]);
    popped := PopAll(stack);
    ReverseOfFive([1, 2, 3, 4, 5]);
    var optionalNumbers := new Vec([Some(1), Some(2), None, Some(4), None, Some(6)]);
    log := ReportOptionals(optionalNumbers);
    ReverseOfSix([Some(1), Some(2), None, Some(4), None, Some(6)]);
  }

  lemma ReverseOfFive<T>(s: seq<T>)
    requires |s| == 5
    ensures Reverse(s) == [s[4], s[3], s[2], s[1], s[0]]
  {
    forall i | 0 <= i < 5
      ensures Reverse(s)[i] == s[4 - i]
    {
      ReverseIndex(s, i);
    }
  }

  lemma ReverseOfSix<T>(s: seq<T>)
    requires |s| == 6
    ensures Reverse(s) == [s[5], s[4], s[3], s[2], s[1], s[0]]
  {
    forall i | 0 <= i < 6
      ensures Reverse(s)[i] == s[5 - i]
    {
      ReverseIndex(s, i);
    }
  }

  // ---- Guards, `@` bindings and parameter patterns ----------------------

  datatype GuardArm = Small(x: int) | NotSmall(x: int) | NoNumber

  /** `Some(x) if x < 5`, then `Some(x)`, then `None`. */
  function MatchGuard(num: Option<int>): (r: GuardArm)
    ensures r.Small? <==> num.Some? && num.value < 5
    ensures r.NotSmall? <==> num.Some? && num.value >= 5
    ensures r == NoNumber <==> num.None?
    ensures num.Some? ==> r.x == num.value
  {
    match num
    case Some(x) => if x < 5 then Small(x) else NotSmall(x)
    case None => NoNumber
  }

  datatype HelloArm = InRange(idVariable: int) | TenToTwelve | OtherId(id: int)

  /** `id_variable @ 3..=7`, then `10..=12`, then any `id`. */
  function MatchHello(id: int): (r: HelloArm)
    ensures r.InRange? <==> 3 <= id <= 7
    ensures r == TenToTwelve <==> 10 <= id <= 12
    ensures r.InRange? ==> r.idVariable == id
    ensures r.OtherId? ==> r.id == id
  {
    if 3 <= id <= 7 then InRange(id)
    else if 10 <= id <= 12 then TenToTwelve
    else OtherId(id)
  }

  /** `advanced_pattern_matching`: `Some(4)` is small and id 5 is bound. */
  lemma AdvancedPatternDemo()
    ensures MatchGuard(Some(4)) == Small(4)
    ensures MatchHello(5) == InRange(5)
  {
  }

  /** `area(&Rectangle { width, height })`: the `u32` product of the
      destructured sides. */
  function DestructuredArea(width: nat, height: nat): (r: nat)
    requires IsU32(width * height)
    ensures IsU32(r)
    ensures r == 0 <==> width == 0 || height == 0
  {
    MulSign(width, height);
    width * height
  }

  /** Destructuring in the parameter list computes what lesson 3's `area`
      method computes on a rectangle with the same sides. */
  lemma DestructuredAreaAgrees(rect: Structs.Rectangle)
    requires rect.Valid() && IsU32(rect.width * rect.height)
    ensures DestructuredArea(rect.width, rect.height) == rect.Area()
    ensures DestructuredArea(10, 20) == 200
  {
  }
}
