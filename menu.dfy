/** The lesson selector of src/main.rs: a fixed catalog of ten lessons and a
    loop that shows the menu, reads a line, trims it, runs the chosen lesson
    (or quits, or reports an invalid choice) and waits for one more line.
    Console text is abstracted to events; what a lesson prints is not modelled. */
module Menu {
  import opened Std
  import opened Str

  /** The ten lessons, one per `run` function the `match` calls. */
  datatype Lesson =
    | Variables | FunctionsControlFlow | Structs | Enums | PatternMatching
    | Collections | PackagesModules | ErrorHandling | Generics | Lifetimes

  /** `LESSONS`: identifier and title of every lesson, in declaration order. */
  const Catalog: seq<(string, string)> := [
    ("1", "变量和数据类型 (Variables and Data Types)"),
    ("2", "函数和流程控制 (Functions and Control Flow)"),
    ("3", "结构体 (Structs)"),
    ("4", "枚举 (Enums)"),
    ("5", "模式匹配 (Pattern Matching)"),
    ("6", "常见集合及其操作 (Collections)"),
    ("7", "包和模块 (Packages and Modules)"),
    ("8", "错误处理 (Error Handling)"),
    ("9", "泛型 (Generics)"),
    ("10", "生命周期 (Lifetimes)")
  ]

  const QuitLine: string := "q. 退出程序"

  /** The lesson whose title is at position `i` of the catalog. */
  function LessonAt(i: nat): Lesson
    requires i < 10
  {
    [Variables, FunctionsControlFlow, Structs, Enums, PatternMatching,
     Collections, PackagesModules, ErrorHandling, Generics, Lifetimes][i]
  }

  /** Where a lesson sits in the catalog. */
  function Position(l: Lesson): (i: nat)
    ensures i < 10 && LessonAt(i) == l
  {
    match l
    case Variables => 0
    case FunctionsControlFlow => 1
    case Structs => 2
    case Enums => 3
    case PatternMatching => 4
    case Collections => 5
    case PackagesModules => 6
    case ErrorHandling => 7
    case Generics => 8
    case Lifetimes => 9
  }

  /** The catalog has ten entries whose identifiers are "1" to "10" in order. */
  lemma CatalogIds()
    ensures |Catalog| == 10
    ensures forall i :: 0 <= i < 10 ==> Catalog[i].0 == Dec(i + 1)
  {
    assert Dec(10) == NatToDecimal(1) + [DigitChar(0)];
  }

  /** Hence no two entries share an identifier, and no two positions hold the
      same lesson. */
  lemma CatalogUnique()
    ensures forall i, j :: 0 <= i < 10 && 0 <= j < 10 && Catalog[i].0 == Catalog[j].0 ==> i == j
    ensures forall i, j :: 0 <= i < 10 && 0 <= j < 10 && LessonAt(i) == LessonAt(j) ==> i == j
  {
    CatalogIds();
    forall i, j | 0 <= i < 10 && 0 <= j < 10 && Catalog[i].0 == Catalog[j].0
      ensures i == j
    {
      DecInjective(i + 1, j + 1);
    }
  }

  /** The menu printed at the top of every iteration, `MenuLines(Catalog)`:
      two header lines, one line "<id>. <title>" per entry in catalog order,
      then the quit line. */
  function MenuLines(entries: seq<(string, string)>): (lines: seq<string>)
    ensures |lines| == |entries| + 3
    ensures forall i :: 0 <= i < |entries| ==> lines[i + 2] == entries[i].0 + ". " + entries[i].1
    ensures lines[|lines| - 1] == QuitLine
  {
    ["=== Rust 学习示例程序 ===", "请选择您想学习的知识点:"] + EntryLines(entries) + [QuitLine]
  }

  function EntryLines(entries: seq<(string, string)>): (lines: seq<string>)
    ensures |lines| == |entries|
    ensures forall i :: 0 <= i < |entries| ==> lines[i] == entries[i].0 + ". " + entries[i].1
  {
    if entries == [] then []
    else [entries[0].0 + ". " + entries[0].1] + EntryLines(entries[1..])
  }

  datatype Choice = RunLesson(lesson: Lesson) | Quit | Invalid

  /** The `match` on the already trimmed choice: an exact catalog identifier
      runs that lesson, "q" or "Q" quits, anything else is invalid. */
  function Dispatch(choice: string): (c: Choice)
    ensures c.RunLesson? ==> choice == Catalog[Position(c.lesson)].0
    ensures c == Quit <==> choice == "q" || choice == "Q"
  {
    if choice == "1" then RunLesson(Variables)
    else if choice == "2" then RunLesson(FunctionsControlFlow)
    else if choice == "3" then RunLesson(Structs)
    else if choice == "4" then RunLesson(Enums)
    else if choice == "5" then RunLesson(PatternMatching)
    else if choice == "6" then RunLesson(Collections)
    else if choice == "7" then RunLesson(PackagesModules)
    else if choice == "8" then RunLesson(ErrorHandling)
    else if choice == "9" then RunLesson(Generics)
    else if choice == "10" then RunLesson(Lifetimes)
    else if choice == "q" || choice == "Q" then Quit
    else Invalid
  }

  /** The line as read, trimmed, then dispatched. */
  function Classify(line: string): (c: Choice)
    ensures c.RunLesson? ==> Trim(line) == Catalog[Position(c.lesson)].0
    ensures c == Quit <==> Trim(line) == "q" || Trim(line) == "Q"
  {
    Dispatch(Trim(line))
  }

  /** The `match` agrees with the printed menu: a choice runs the lesson at
      position `i` exactly when it is the identifier listed at position `i`. */
  lemma DispatchFollowsCatalog(choice: string, i: nat)
    requires i < |Catalog|
    ensures Dispatch(choice) == RunLesson(LessonAt(i)) <==> choice == Catalog[i].0
  {
  }

  /** "q" and "Q" are the only ways out, and a choice that is neither a listed
      identifier nor a quit key is reported as invalid. */
  lemma DispatchQuitOrInvalid(choice: string)
    ensures Dispatch(choice) == Quit <==> choice == "q" || choice == "Q"
    ensures Dispatch(choice) == Invalid <==>
      (forall i :: 0 <= i < |Catalog| ==> choice != Catalog[i].0) && choice != "q" && choice != "Q"
  {
    if Dispatch(choice) != Invalid && choice != "q" && choice != "Q" {
      DispatchFollowsCatalog(choice, Position(Dispatch(choice).lesson));
    }
  }

  /** Whitespace and line terminators around a choice do not change it, so
      " 3 \n" selects the same lesson as "3". */
  lemma {:induction false} ClassifyIgnoresPadding(pre: string, s: string, post: string)
    requires AllWhitespace(pre) && AllWhitespace(post)
    ensures Classify(pre + s + post) == Classify(s)
  {
    TrimPadded(pre, s, post);
    TrimIdempotent(s);
  }

  /** What one `read_line` gives: a line (with its terminator), end of input
      (`Ok(0)`, which leaves the fresh buffer empty) or an I/O error, on which
      `expect` panics. */
  datatype Read = Line(text: string) | Eof | Failed

  function ReadText(r: Read): string
    requires !r.Failed?
  {
    if r.Line? then r.text else ""
  }

  /** What the loop prints, abstracted: the menu, a lesson's run, the
      invalid-choice message, the farewell, and the continue prompt. */
  datatype Event = MenuShown | LessonRan(lesson: Lesson) | InvalidChoice | Farewell | ContinuePrompt

  /** How a session ends: by quitting, by a panicking read, or (in the model
      only) because the given reads ran out while the loop waits for more. */
  datatype Exit = Quitted | Panicked | AwaitingInput

  datatype Session = Session(events: seq<Event>, exit: Exit)

  function Then(events: seq<Event>, s: Session): Session
  {
    Session(events + s.events, s.exit)
  }

  /** What the `match` arm for a choice prints or runs. */
  function Reaction(c: Choice): Event
  {
    match c
    case RunLesson(lesson) => LessonRan(lesson)
    case Quit => Farewell
    case Invalid => InvalidChoice
  }

  /** The whole run of `main` on a sequence of reads. Every iteration that does
      not quit ends with the continue prompt and one read whose text is
      discarded, whether the choice was valid or not. */
  function Run(input: seq<Read>): (s: Session)
    ensures s.events != [] && s.events[0] == MenuShown
    ensures s.exit == Quitted ==> s.events[|s.events| - 1] == Farewell
    decreases |input|
  {
    if input == [] then Session([MenuShown], AwaitingInput)
    else if input[0].Failed? then Session([MenuShown], Panicked)
    else
      var c := Classify(ReadText(input[0]));
      if c.Quit? then Session([MenuShown, Farewell], Quitted)
      else
        var shown := [MenuShown, Reaction(c), ContinuePrompt];
        if |input| == 1 then Session(shown, AwaitingInput)
        else if input[1].Failed? then Session(shown, Panicked)
        else Then(shown, Run(input[2..]))
  }

  /** Proof helper for `MainLoop`: prefixing output twice is prefixing it
      once with both parts. */
  lemma ThenThen(a: seq<Event>, b: seq<Event>, s: Session)
    ensures Then(a, Then(b, s)) == Then(a + b, s)
  {
    assert a + (b + s.events) == (a + b) + s.events;
  }

  /** Proof helper for `MainLoop`: one turn of the loop, as `Run` describes
      it, unfolded case by case. */
  lemma RunTurn(input: seq<Read>)
    ensures input == [] ==> Run(input) == Session([MenuShown], AwaitingInput)
    ensures input != [] && input[0].Failed? ==> Run(input) == Session([MenuShown], Panicked)
    ensures input != [] && !input[0].Failed? ==>
      var c := Classify(ReadText(input[0]));
      var shown := [MenuShown, Reaction(c), ContinuePrompt];
      && (c.Quit? ==> Run(input) == Session([MenuShown, Farewell], Quitted))
      && (!c.Quit? && |input| == 1 ==> Run(input) == Session(shown, AwaitingInput))
      && (!c.Quit? && |input| > 1 && input[1].Failed? ==> Run(input) == Session(shown, Panicked))
      && (!c.Quit? && |input| > 1 && !input[1].Failed? ==> Run(input) == Then(shown, Run(input[2..])))
  {
  }

  /** The line read after the continue prompt is discarded: replacing it by
      any other successful read changes nothing in the session. */
  lemma {:induction false} DiscardedLineIgnored(input: seq<Read>, other: Read)
    requires |input| >= 2 && !input[0].Failed? && !input[1].Failed? && !other.Failed?
    ensures Run([input[0], other] + input[2..]) == Run(input)
  {
    var swapped := [input[0], other] + input[2..];
    assert swapped[0] == input[0] && swapped[1] == other;
    assert swapped[2..] == input[2..];
  }

  /** `main`'s `loop`, reading from `input` instead of standard input. */
  method MainLoop(input: seq<Read>) returns (s: Session)
    ensures s == Run(input)
  {
    var events: seq<Event> := [];
    var rest := input;
    while true
      invariant Run(input) == Then(events, Run(rest))
      decreases |rest|
    {
      RunTurn(rest);
      ghost var start := events;
      events := events + [MenuShown];
      if rest == [] {
        return Session(events, AwaitingInput);
      }
      var read := rest[0];
      if read.Failed? {
        return Session(events, Panicked);
      }
      var choice := Classify(ReadText(read));
      if choice.Quit? {
        events := events + [Farewell];
        return Session(events, Quitted);
      }
      events := events + [Reaction(choice), ContinuePrompt];
      if |rest| == 1 {
        return Session(events, AwaitingInput);
      }
      var pause := rest[1];
      if pause.Failed? {
        return Session(events, Panicked);
      }
      ghost var shown := [MenuShown, Reaction(choice), ContinuePrompt];
      assert Run(rest) == Then(shown, Run(rest[2..]));
      ThenThen(start, shown, Run(rest[2..]));
      assert events == start + shown;
      rest := rest[2..];
    }
  }

  /** "q" or "Q" ends the loop at once: no lesson runs and no continue prompt
      follows the farewell. */
  lemma QuitEndsSession(input: seq<Read>)
    requires input != [] && input[0].Line?
    requires Trim(input[0].text) == "q" || Trim(input[0].text) == "Q"
    ensures Run(input) == Session([MenuShown, Farewell], Quitted)
  {
  }

  /** Every lesson run and every invalid choice in `ev` is immediately
      followed by the continue prompt. */
  predicate PromptFollowsChoices(ev: seq<Event>) {
    forall i :: 0 <= i < |ev| && (ev[i].LessonRan? || ev[i] == InvalidChoice) ==>
      i + 1 < |ev| && ev[i + 1] == ContinuePrompt
  }

  /** Whatever is read, every lesson run and every invalid choice is followed
      by the continue prompt. */
  lemma {:induction false} PromptAfterEveryChoice(input: seq<Read>)
    ensures PromptFollowsChoices(Run(input).events)
    decreases |input|
  {
    if |input| >= 2 && !input[0].Failed? && !input[1].Failed? && !Classify(ReadText(input[0])).Quit? {
      var c := Classify(ReadText(input[0]));
      var shown := [MenuShown, Reaction(c), ContinuePrompt];
      var later := Run(input[2..]).events;
      PromptAfterEveryChoice(input[2..]);
      var ev := Run(input).events;
      assert ev == shown + later;
      forall i | 0 <= i < |ev| && (ev[i].LessonRan? || ev[i] == InvalidChoice)
        ensures i + 1 < |ev| && ev[i + 1] == ContinuePrompt
      {
        if i >= 3 {
          assert ev[i] == later[i - 3];
          assert ev[i + 1] == later[i - 2];
        } else {
          assert ev[i] == shown[i];
          assert ev[i + 1] == shown[i + 1];
        }
      }
    }
  }

  /** The farewell is printed exactly when the session ends by quitting, and
      then it is the last thing printed. */
  lemma {:induction false} FarewellOnlyAtQuit(input: seq<Read>)
    ensures var s := Run(input);
      (s.exit == Quitted <==> Farewell in s.events)
      && forall i :: 0 <= i < |s.events| && s.events[i] == Farewell ==> i == |s.events| - 1
    decreases |input|
  {
    if |input| >= 2 && !input[0].Failed? && !input[1].Failed? && !Classify(ReadText(input[0])).Quit? {
      FarewellOnlyAtQuit(input[2..]);
      var c := Classify(ReadText(input[0]));
      var shown := [MenuShown, Reaction(c), ContinuePrompt];
      assert Farewell !in shown;
    }
  }

  /** A closed input stream is not fatal: each read at end of input yields an
      empty line, which is an invalid choice, so the loop neither quits nor runs
      a lesson and keeps waiting. */
  lemma {:induction false} EndOfInputNeverQuits(input: seq<Read>)
    requires forall i :: 0 <= i < |input| ==> input[i] == Eof
    ensures Run(input).exit == AwaitingInput
    ensures forall e :: e in Run(input).events ==> e == MenuShown || e == InvalidChoice || e == ContinuePrompt
    decreases |input|
  {
    if input != [] {
      assert Trim("") == "";
      if |input| >= 2 {
        EndOfInputNeverQuits(input[2..]);
      }
    }
  }

  /** Input "5", an empty line, "q": lesson 5 runs, the empty line is consumed
      by the continue prompt, the menu is shown again and "q" says goodbye. */
  lemma ScenarioLessonThenQuit()
    ensures Run([Line("5\n"), Line("\n"), Line("q\n")])
      == Session([MenuShown, LessonRan(PatternMatching), ContinuePrompt, MenuShown, Farewell], Quitted)
  {
    assert Trim("5\n") == "5" by {
      assert "5\n" == "" + "5" + "\n";
      TrimPadded("", "5", "\n");
    }
    assert Trim("q\n") == "q" by {
      assert "q\n" == "" + "q" + "\n";
      TrimPadded("", "q", "\n");
    }
    var rest: seq<Read> := [Line("q\n")];
    assert [Line("5\n"), Line("\n"), Line("q\n")][2..] == rest;
  }

  /** Input "99" then end of input: one invalid choice, the prompt, and the loop
      goes on. */
  lemma ScenarioInvalidThenEof()
    ensures Run([Line("99\n"), Eof]).events == [MenuShown, InvalidChoice, ContinuePrompt, MenuShown]
    ensures Run([Line("99\n"), Eof]).exit == AwaitingInput
  {
    assert Trim("99\n") == "99" by {
      assert "99\n" == "" + "99" + "\n";
      TrimPadded("", "99", "\n");
    }
    assert [Line("99\n"), Eof][2..] == [];
  }
}
