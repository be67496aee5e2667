# rustlearn in Dafny

`rustlearn` is a console program for learning Rust. Its `main` shows a menu of
ten lessons. It reads a choice from standard input, trims it, and runs that
lesson's `run` function. It quits on `q` or `Q`, and otherwise reports an
invalid choice. After every choice that does not quit, it waits for one more
line before showing the menu again. Each lesson is a set of small demonstration
functions.

This project models the menu loop and the computing functions of lessons 2, 3,
4, 5, 7, 8, 9 and 10 in Dafny. It proves what those functions promise.

The files are laid out like this:

- `std.dfy` (module `Std`) holds the parts of Rust's standard library the
  lessons use:
  - `Option` and `Result`. `Result` has the members that let Dafny's `:-`
    behave like `?`.
  - The `i32`, `u32` and `u8` ranges.
  - Truncating `/` and `%`.
  - `Vec` as a class.
  - The strict weak order that generic `>` comparisons rely on.
- `str.dfy` (module `Str`) holds the string operations:
  - `trim`;
  - `len` as a UTF-8 byte count;
  - `{}` formatting of integers;
  - `parse::<i32>`;
  - the first piece of `split`;
  - `>` on strings.
- There is one file per source file:
  - `menu.dfy` for `src/main.rs`;
  - `control_flow.dfy` for lesson 2;
  - `structs.dfy` for lesson 3;
  - `enums.dfy` for lesson 4;
  - `patterns.dfy` for lesson 5;
  - `packages.dfy` for lesson 7;
  - `errors.dfy` for lesson 8;
  - `generics.dfy` for lesson 9;
  - `lifetimes.dfy` for lesson 10.

Pure Rust functions are Dafny functions, with lemmas about them. Structs whose
methods take `&mut self` are classes:

- `Rectangle`;
- `ShoppingCart`;
- `Container`;
- `Calculator`;
- `Vec`.

Their methods state the whole new state. Loops are methods with invariants,
proved against a specification function. Each lesson's demonstration is pinned
by a lemma or method whose contract is the output the source lists in its
comments.

Integers are unbounded. Wherever Rust would panic on overflow, the operation
takes a range precondition instead. Prices, which are `f64` dollars in the
source, are whole cents.

Two behaviours of the menu loop are easy to misread:

- An invalid menu choice still prints the continue prompt and consumes one more
  line (`src/main.rs:57-63`).
- At end of input, `read_line` returns `Ok(0)` and does not fail. The choice is
  then the empty string, which is invalid, so the loop keeps going. Only a read
  error (`Read.Failed`) ends the session through `expect`.

## Model

| member | source | states |
|---|---|---|
| Std.Option.UnwrapOr | src/_04_enums.rs:269 | `unwrap_or` gives the wrapped value of `Some` and the default for `None` |
| Std.Option.Unwrap | src/_04_enums.rs:265 | `unwrap` is only defined on `Some` and returns the wrapped value |
| Std.Result.PropagateFailure | src/_04_enums.rs:316 | `?` hands an `Err` to the caller with the same error |
| Std.Result.Extract | src/_04_enums.rs:316 | `?` on an `Ok` continues with the wrapped value |
| Std.Result.MapErr | src/_08_error_handling.rs:247-250 | `map_err` keeps `Ok` and its value; on `Err` it applies the function to the error |
| Std.TruncDivSpec | src/_04_enums.rs:295 | `a / b` on `i32` satisfies `a == b*q + r`; `|r| < |b|`; `r` has the sign of `a`; `|q|*|b| <= |a|` |
| Std.TruncDivAgreesOnNaturals | src/_04_enums.rs:295 | for a non-negative dividend and a positive divisor, truncating and Euclidean division agree |
| Std.TruncDivInRange | src/_04_enums.rs:295 | the quotient of two `i32` values is an `i32` unless the divisor is 0 or the division is `i32::MIN / -1` |
| Std.IntGreaterIsStrictWeakOrder | src/_09_generics.rs:93 | `>` on integers meets the ordering that `PartialOrd`-bounded code relies on |
| Std.Vec.Push | src/_09_generics.rs:447-448 | `push` appends the item at the end |
| Std.Vec.Pop | src/_05_pattern_matching.rs:276 | `pop` removes and returns the last element, or returns `None` and changes nothing when the vector is empty |
| Str.TrimEnds | src/main.rs:39 | the trimmed text neither starts nor ends with whitespace; it is empty exactly when the input is all whitespace |
| Str.TrimIsSlice | src/main.rs:39 | the trimmed text is a slice of the input with only whitespace around it |
| Str.TrimPadded | src/main.rs:39 | whitespace added around a string does not change what `trim` returns |
| Str.TrimIdempotent | src/main.rs:39 | trimming twice is the same as trimming once |
| Str.Utf8Width | src/_08_error_handling.rs:376 | a character takes 1 to 4 bytes, and exactly 1 when it is ASCII |
| Str.Utf8Len | src/_08_error_handling.rs:376 | `len()` lies between the character count and four times the character count |
| Str.Utf8LenConcat | src/_08_error_handling.rs:376 | `len()` of a concatenation is the sum of the two lengths |
| Str.Utf8LenAscii | src/_08_error_handling.rs:376 | on ASCII text `len()` is the character count |
| Str.NatToDecimal | src/_04_enums.rs:213 | an integer prints as at least one digit, with no leading zero |
| Str.NatToDecimalValue | src/_04_enums.rs:213 | the printed digits denote the number printed |
| Str.Dec | src/_04_enums.rs:213 | `{}` of an integer starts with '-' exactly for negatives; a non-negative one is all digits |
| Str.DecRoundTrip | src/_08_error_handling.rs:185 | reading back a printed integer gives that integer |
| Str.DecInjective | src/_04_enums.rs:213 | different integers print differently |
| Str.ParseDecimal | src/_08_error_handling.rs:185 | an accepted text is an optional sign followed by digits, and a negative result needs a '-' |
| Str.ParseI32 | src/_08_error_handling.rs:185 | `parse::<i32>` fails with `Empty` exactly on "" and with `InvalidDigit` exactly on malformed text; it reports positive or negative overflow exactly outside `i32`; otherwise it returns the value read |
| Str.ParseI32OfDec | src/_08_error_handling.rs:185 | every `i32` printed with `{}` parses back to itself |
| Str.FirstPiece | src/_10_lifetimes.rs:235 | `split(sep).next()` is a prefix containing no `sep`, followed by `sep` or by the end of the text |
| Str.FirstPieceUnique | src/_10_lifetimes.rs:235 | these three properties determine the first piece |
| Str.FirstPieceOfJoin | src/_10_lifetimes.rs:155-165 | text without the separator, then the separator, then anything: the first piece is that text |
| Str.SplitUnique | src/_10_lifetimes.rs:235 | a separator absent from both left parts splits a text only one way |
| Str.LexIrreflexive | src/_10_lifetimes.rs:497 | no string is greater than itself |
| Str.LexAsymmetric | src/_10_lifetimes.rs:497 | of two strings at most one is greater |
| Str.LexTotal | src/_10_lifetimes.rs:497 | of two different strings one is greater |
| Str.LexTransitive | src/_10_lifetimes.rs:497 | string `>` is transitive |
| Str.LexIsStrictWeakOrder | src/_09_generics.rs:93 | string `>` meets the ordering `find_max` and `print_longest` rely on |
| Menu.Position | src/main.rs:8-19 | every lesson has a place in the catalog |
| Menu.CatalogIds | src/main.rs:8-19 | the catalog has ten entries with identifiers "1" to "10" in order |
| Menu.CatalogUnique | src/main.rs:8-19 | no two entries share an identifier, and no two positions hold the same lesson |
| Menu.MenuLines | src/main.rs:24-32 | the menu is two header lines, one "id. title" line per catalog entry in catalog order, then the quit line |
| Menu.EntryLines | src/main.rs:28-30 | one "id. title" line per entry, in order |
| Menu.Dispatch | src/main.rs:42-57 | a choice that runs a lesson is that lesson's identifier in the catalog; exactly "q" and "Q" quit |
| Menu.Classify | src/main.rs:39-57 | the line is dispatched after trimming: it runs a lesson only when its trimmed text is that lesson's identifier, and quits exactly when its trimmed text is "q" or "Q" |
| Menu.DispatchFollowsCatalog | src/main.rs:42-52 | a trimmed choice runs the lesson at position i exactly when it equals the identifier listed at position i |
| Menu.DispatchQuitOrInvalid | src/main.rs:53-57 | only "q" and "Q" quit; a choice that is neither an identifier nor a quit key is invalid |
| Menu.ClassifyIgnoresPadding | src/main.rs:39 | whitespace and line terminators around a choice do not change it |
| Menu.DiscardedLineIgnored | src/main.rs:61-63 | the line read after the continue prompt is discarded: any other successful read in its place gives the same session |
| Menu.Run | src/main.rs:21-64 | every session starts with the menu, and a session that ends by quitting ends with the farewell |
| Menu.MainLoop | src/main.rs:21-64 | the loop, run on a given sequence of reads, produces exactly the session `Run` describes |
| Menu.QuitEndsSession | src/main.rs:53-56 | "q" or "Q" ends the session at once with the farewell; no lesson and no continue prompt follow |
| Menu.PromptAfterEveryChoice | src/main.rs:57-63 | every lesson run and every invalid choice is followed by the continue prompt |
| Menu.FarewellOnlyAtQuit | src/main.rs:53-56 | the farewell appears exactly when the session ends by quitting, and it is the last output |
| Menu.EndOfInputNeverQuits | src/main.rs:36 | at end of input every read is an empty, invalid choice, so the loop neither quits nor runs a lesson |
| Menu.ScenarioLessonThenQuit | src/main.rs:21-64 | input "5", "", "q" runs lesson 5; the prompt consumes the empty line; the menu shows again and the program says goodbye |
| Menu.ScenarioInvalidThenEof | src/main.rs:21-64 | input "99" then end of input gives one invalid choice and the prompt, and the loop goes on |
| ControlFlow.FindMax | src/_02_functions_control_flow.rs:423-429 | the result is one of the two arguments and at least both; a tie returns `b` |
| ControlFlow.CalculateSum | src/_02_functions_control_flow.rs:381-383 | the sum is an `i32`, and taking either argument back off it leaves the other |
| ControlFlow.Multiply | src/_02_functions_control_flow.rs:389-391 | the product is an `i32`; it is 0 exactly when a factor is 0, and positive exactly when both factors have the same sign |
| ControlFlow.Square | src/_02_functions_control_flow.rs:415-417 | `square(x)` is `multiply(x, x)`, never negative, zero only at zero, and the same for `x` and `-x` |
| ControlFlow.SumAndProductCommute | src/_02_functions_control_flow.rs:381-391 | swapping the arguments of `calculate_sum` or `multiply` changes nothing |
| ControlFlow.FunctionDefinition | src/_02_functions_control_flow.rs:37-54 | `calculate_sum(5, 10)` is 15 |
| ControlFlow.FunctionReturnValues | src/_02_functions_control_flow.rs:80-91 | `square(5)` is 25 and `find_max(10, 20)` is 20 |
| ControlFlow.CalculateSumAndProduct | src/_02_functions_control_flow.rs:435-437 | both components are `i32`; taking either argument off the first leaves the other; the second is 0 exactly when a factor is 0 |
| ControlFlow.SumAndProductAgree | src/_02_functions_control_flow.rs:435-437 | the tuple holds what `calculate_sum` and `multiply` return; (3, 7) gives (10, 21) |
| ControlFlow.DescribeNumber | src/_02_functions_control_flow.rs:397-403 | the text is the number in decimal followed by the phrase chosen by `is_large` |
| ControlFlow.DescribeNumberInjective | src/_02_functions_control_flow.rs:397-403 | the number and the flag can both be read back from the description |
| ControlFlow.Increment | src/_02_functions_control_flow.rs:408-410 | `increment` adds `amount` through the reference and changes nothing else |
| ControlFlow.FunctionParameters | src/_02_functions_control_flow.rs:58-78 | 3*4 is 12, the description of 42 is "42 是一个很大的数字", and 10 incremented by 5 is 15 |
| ControlFlow.ScoreIfChain | src/_02_functions_control_flow.rs:125-134 | each grade is given exactly for the scores of its band: 90 and up, 80 to 89, 60 to 79, below 60 |
| ControlFlow.NumberName | src/_02_functions_control_flow.rs:328-336 | "其他数字" exactly outside 1..=5, and the Chinese numeral for each of 1 to 5 |
| ControlFlow.ColorStatus | src/_02_functions_control_flow.rs:339-345 | "未知颜色" exactly for a colour other than "red", "green" and "yellow", and the status of each of those three |
| ControlFlow.ScoreMatch | src/_02_functions_control_flow.rs:350-356 | the score `match` reports "分数无效" exactly outside 0..=100 |
| ControlFlow.ScoreChainAgreesWithMatch | src/_02_functions_control_flow.rs:126-134 | the `if` chain and the `match` agree exactly on the scores 0..=100 |
| ControlFlow.MatchDemoResults | src/_02_functions_control_flow.rs:328-356 | 3 is "三", 6 is "其他数字", "red" is "警告", "blue" is "未知颜色", and 85 is "良好" both ways |
| ControlFlow.Range | src/_02_functions_control_flow.rs:282 | `lo..hi` yields lo, lo+1, ..., hi-1 |
| ControlFlow.RangeSnoc | src/_02_functions_control_flow.rs:282 | extending a range by one appends its end |
| ControlFlow.CountLoop | src/_02_functions_control_flow.rs:148-156 | the counting `loop` records 1..=max(limit, 1) and stops |
| ControlFlow.LoopWithValue | src/_02_functions_control_flow.rs:159-168 | the value `loop` counts attempts 1..=target and breaks with target*10 |
| ControlFlow.Countdown | src/_02_functions_control_flow.rs:188-192 | the countdown shows start, start-1, ..., 1 |
| ControlFlow.WalkArray | src/_02_functions_control_flow.rs:196-201 | the `while` walk visits every element once, in index order, with its index |
| ControlFlow.SearchFirstAbove | src/_02_functions_control_flow.rs:282-288 | the `break` search examines numbers up to the first one above the threshold and finds exactly that one |
| ControlFlow.TruncRemTwo | src/_02_functions_control_flow.rs:293 | Rust's `number % 2 != 0` holds exactly for odd numbers, negative ones included |
| ControlFlow.Evens | src/_02_functions_control_flow.rs:292-297 | the filter keeps at most as many numbers as it is given, and everything it keeps is an even number of the input |
| ControlFlow.EvensMembers | src/_02_functions_control_flow.rs:292-297 | the `continue` filter keeps exactly the even numbers |
| ControlFlow.EvensIncreasing | src/_02_functions_control_flow.rs:292-297 | the filter keeps an increasing input increasing |
| ControlFlow.EvensSnoc | src/_02_functions_control_flow.rs:292-297 | the filter decides each number on its own, so one more number at the end adds at most that number |
| ControlFlow.EvensOfRange | src/_02_functions_control_flow.rs:292-297 | the even numbers of 1..=2k are 2, 4, ..., 2k |
| ControlFlow.EvenNumbers | src/_02_functions_control_flow.rs:292-297 | the `continue` loop returns the even numbers of the range, in order |
| ControlFlow.LoopStatements | src/_02_functions_control_flow.rs:144-180 | the counting loop runs three times; the value loop breaks with 50 after five attempts |
| ControlFlow.WhileStatements | src/_02_functions_control_flow.rs:184-215 | the countdown shows 5 down to 1; the walk shows 10, 20, 30, 40, 50 with their indices |
| ControlFlow.EvensOfOneToTen | src/_02_functions_control_flow.rs:292-297 | the evens of 1..11 are 2, 4, 6, 8, 10 |
| ControlFlow.BreakContinueKeywords | src/_02_functions_control_flow.rs:277-297 | the `break` search examines 1..=11 and finds 11; the `continue` loop keeps 2, 4, 6, 8, 10 |
| Structs.Rectangle.constructor | src/_03_structs.rs:136-139 | the struct literal sets both sides |
| Structs.Rectangle.Square | src/_03_structs.rs:209-214 | `square(size)` has both sides equal to `size` |
| Structs.Rectangle.Default | src/_03_structs.rs:217-222 | `default()` is 100 by 100 |
| Structs.Rectangle.Area | src/_03_structs.rs:145-148 | the area is a `u32`, and it is 0 exactly when a side is 0 |
| Structs.Rectangle.Resize | src/_03_structs.rs:156-159 | `resize` overwrites both sides with the new values |
| Structs.CanHoldReflexive | src/_03_structs.rs:150-152 | every rectangle can hold itself |
| Structs.CanHoldTransitive | src/_03_structs.rs:150-152 | if a holds b and b holds c, then a holds c |
| Structs.CanHoldAntisymmetric | src/_03_structs.rs:150-152 | two rectangles that hold each other have the same sides |
| Structs.CanHoldArea | src/_03_structs.rs:145-152 | a rectangle that can hold another has at least its area |
| Structs.StructMethods | src/_03_structs.rs:164-203 | 30x50 has area 1500 and holds 20x40; 10x20 has area 200, and 375 after resizing to 15x25 |
| Structs.AssociatedFunctions | src/_03_structs.rs:227-243 | the 20-square has area 400; the default has area 10000 |
| Structs.UpdateUser | src/_03_structs.rs:290-294 | `..base` takes the count and the active flag from `base`; the named fields are new |
| Structs.UpdateUserLaws | src/_03_structs.rs:290-294 | updating twice keeps the second names and the base's other fields |
| Structs.StructUpdateDemo | src/_03_structs.rs:277-311 | bob takes alice's sign-in count 1 and active flag |
| Structs.MatchRectangle | src/_03_structs.rs:329-335 | width 0 is tried first, then height 0, then the binding arm with both sides |
| Structs.DestructuringStructs | src/_03_structs.rs:315-345 | 40x60 reaches the binding arm |
| Enums.HttpStatusCode.Code | src/_04_enums.rs:46-53 | every discriminant is an HTTP status; success codes belong to exactly `Ok` and `Created`, and 5xx to exactly `InternalServerError` |
| Enums.CodesDistinct | src/_04_enums.rs:46-53 | no two variants share a discriminant |
| Enums.EnumVariantsDemo | src/_04_enums.rs:107-140 | `Ok as i32` is 200 and `NotFound as i32` is 404 |
| Enums.HttpStatusCodes | src/_04_enums.rs:46-53 | the six declared discriminants: 200, 201, 400, 401, 404 and 500 |
| Enums.ValueInCents | src/_04_enums.rs:148-158 | a coin's value is a `u8`, and it is 1 exactly for the penny |
| Enums.ValueInCentsInjective | src/_04_enums.rs:148-158 | different coins have different values |
| Enums.ValueInCentsDemo | src/_04_enums.rs:144-171 | a penny is 1 and a nickel 5 |
| Enums.DescriptionInjective | src/_04_enums.rs:210-217 | different messages have different descriptions |
| Enums.DescriptionHead | src/_04_enums.rs:210-217 | the first character of a description names the variant |
| Enums.MoveDescriptionInjective | src/_04_enums.rs:213 | a move description determines both coordinates |
| Enums.ColorDescriptionInjective | src/_04_enums.rs:215 | a colour description determines all three components |
| Enums.DescriptionDemo | src/_04_enums.rs:221-241 | the four descriptions the lesson prints |
| Enums.DottedQuadFirstPiece | src/_04_enums.rs:368 | splitting a printed IPv4 address at '.' gives the first octet first |
| Enums.DottedQuadInjective | src/_04_enums.rs:368 | a printed dotted quad determines all four octets |
| Enums.IpAddressLine | src/_04_enums.rs:366-371 | the fourth character of the line is the version digit, '4' or '6', of the variant |
| Enums.IpAddressLineInjective | src/_04_enums.rs:366-371 | different addresses print different lines |
| Enums.IpAddressDemo | src/_04_enums.rs:175-204 | 127.0.0.1 and ::1 print as the lesson shows |
| Enums.OptionDemo | src/_04_enums.rs:265-270 | `Some(5).unwrap()` is 5 and `None.unwrap_or(0)` is 0 |
| Enums.Divide | src/_04_enums.rs:291-297 | `Err("除数不能为零")` exactly when the divisor is 0; otherwise an `i32` quotient rounded toward zero, with a remainder smaller than the divisor that has the dividend's sign |
| Enums.Calculate | src/_04_enums.rs:315-318 | fails exactly when `divide` fails, with the same error; otherwise twice the quotient |
| Enums.ResultDemo | src/_04_enums.rs:299-337 | 10/2 is 5; 10/0 fails; `calculate` gives 10 and the error; -7/2 is -3 |
| Patterns.Grade | src/_05_pattern_matching.rs:132-140 | "无效成绩" exactly above 100 |
| Patterns.GradeBands | src/_05_pattern_matching.rs:133-139 | each grade text is given exactly for the scores of its band |
| Patterns.GradeAgreesWithScoreMatch | src/_05_pattern_matching.rs:132-140 | `grade` and lesson 2's score `match` agree on 0..=100 and both reject scores above 100 |
| Patterns.GradeDemo | src/_05_pattern_matching.rs:143-147 | 50, 75, 85, 95 and 101 grade as the lesson shows |
| Patterns.ClassifyChar | src/_05_pattern_matching.rs:150-156 | upper case, lower case and digit exactly for their ranges |
| Patterns.ClassifyCharOrderIrrelevant | src/_05_pattern_matching.rs:150-156 | the ranges do not overlap, so the order of the arms does not matter |
| Patterns.ClassifyCharDemo | src/_05_pattern_matching.rs:150-156 | 'R' is upper case |
| Patterns.MatchPoint | src/_05_pattern_matching.rs:105-109 | `x: 0` wins first (the origin included), then `y: 0`, then the binding arm, each binding the right fields |
| Patterns.MatchPoint3 | src/_05_pattern_matching.rs:187-192 | x, then y, then z is tested for 0; the wildcard takes exactly the points with no zero |
| Patterns.MatchPointDemo | src/_05_pattern_matching.rs:100-109 | (10, 20) is plain, (1, 2, 3) has no zero, and the origin takes the first arm |
| Patterns.Reverse | src/_05_pattern_matching.rs:276 | the pop order keeps the length |
| Patterns.ReverseIndex | src/_05_pattern_matching.rs:276 | the i-th element popped is the i-th element from the end |
| Patterns.ReversePermutes | src/_05_pattern_matching.rs:276 | popping everything yields every element once |
| Patterns.PopAll | src/_05_pattern_matching.rs:276-278 | `while let Some(top) = stack.pop()` yields the elements last first and leaves the vector empty |
| Patterns.ReportOf | src/_05_pattern_matching.rs:286-290 | `if let Some(number)` reports the number for `Some` and "None" otherwise |
| Patterns.Reports | src/_05_pattern_matching.rs:285-291 | one report per element, in order |
| Patterns.ReportOptionals | src/_05_pattern_matching.rs:285-291 | the second `while let` reports every element, last first, and empties the vector |
| Patterns.ReportsSnoc | src/_05_pattern_matching.rs:285-291 | one more element adds one report at the end |
| Patterns.WhileLetExpressions | src/_05_pattern_matching.rs:268-292 | pops 5 to 1, then reports 6, None, 4, None, 2, 1 |
| Patterns.ReverseOfFive | src/_05_pattern_matching.rs:272-278 | five elements pop in reverse order |
| Patterns.ReverseOfSix | src/_05_pattern_matching.rs:281-291 | six elements pop in reverse order |
| Patterns.MatchGuard | src/_05_pattern_matching.rs:443-447 | the guarded arm takes `Some(x)` exactly when x < 5, the next arm the other `Some`, then `None` |
| Patterns.MatchHello | src/_05_pattern_matching.rs:456-466 | `@ 3..=7` binds the id exactly in that range; `10..=12` is next; the last arm binds the rest |
| Patterns.AdvancedPatternDemo | src/_05_pattern_matching.rs:442-466 | `Some(4)` is small and id 5 is bound |
| Patterns.DestructuredArea | src/_05_pattern_matching.rs:408-414 | the area is a `u32`, and it is 0 exactly when a side is 0 |
| Patterns.DestructuredAreaAgrees | src/_05_pattern_matching.rs:408-414 | destructuring in the parameter list computes lesson 3's `area`; 10x20 gives 200 |
| Packages.Subtract | src/_07_packages_modules.rs:100-102 | `subtract(a, b) + b == a` |
| Packages.SubtractDemo | src/_07_packages_modules.rs:109-110 | `subtract(10, 4)` is 6 |
| Packages.NewDepartment | src/_07_packages_modules.rs:152-162 | `new` has no employees, and `get_name` returns the given name |
| Packages.NewDepartmentInjective | src/_07_packages_modules.rs:152-157 | departments made by `new` are equal exactly when their names are |
| Packages.Retain | src/_07_packages_modules.rs:631 | `retain` keeps only lines of other products, all taken from the cart |
| Packages.RetainKeeps | src/_07_packages_modules.rs:631 | every line of another product survives |
| Packages.RetainAppend | src/_07_packages_modules.rs:631 | removal distributes over concatenation, so order is kept |
| Packages.RetainAbsent | src/_07_packages_modules.rs:631 | removing an id no line has changes nothing |
| Packages.RetainIdempotent | src/_07_packages_modules.rs:630-632 | removing a product twice is removing it once |
| Packages.RetainCommutes | src/_07_packages_modules.rs:630-632 | removing two products gives the same cart in either order |
| Packages.Total | src/_07_packages_modules.rs:634-638 | no line costs more than the total |
| Packages.TotalAppend | src/_07_packages_modules.rs:634-638 | adding a line raises the total by its price times its quantity |
| Packages.TotalRetain | src/_07_packages_modules.rs:634-638 | the total splits into what is kept and what is removed |
| Packages.ShoppingCart.constructor | src/_07_packages_modules.rs:620-624 | a new cart is empty |
| Packages.ShoppingCart.AddItem | src/_07_packages_modules.rs:626-628 | `add_item` appends the line and raises the total by its price |
| Packages.ShoppingCart.RemoveItem | src/_07_packages_modules.rs:630-632 | `remove_item` keeps the other lines in order and lowers the total by exactly the removed lines' price |
| Packages.ShoppingCart.CalculateTotal | src/_07_packages_modules.rs:634-638 | an empty cart costs nothing, and no line costs more than the cart |
| Packages.PracticalExample | src/_07_packages_modules.rs:677-728 | the cart costs $2089.94, and $1089.96 without product 2 |
| Errors.CustomFromIo | src/_08_error_handling.rs:166-170 | `From<io::Error>` wraps the error unchanged |
| Errors.CustomFromParse | src/_08_error_handling.rs:172-176 | `From<ParseIntError>` wraps the error unchanged |
| Errors.ProcessInput | src/_08_error_handling.rs:179-192 | "" fails as empty; a parse error is converted by `?` and is never `Empty`; a negative number is rejected; otherwise the parsed value |
| Errors.ProcessInputOfDec | src/_08_error_handling.rs:179-192 | every printed non-negative `i32` is accepted as itself, and every negative one is rejected |
| Errors.ProcessInputDemo | src/_08_error_handling.rs:195-204 | "42", "-1", "not a number" and "" give the four outcomes |
| Errors.ApiFromNetwork | src/_08_error_handling.rs:228-235 | `From<NetworkError>` gives code 503 and the message behind the "网络错误: " prefix |
| Errors.FetchData | src/_08_error_handling.rs:238-243 | the simulated fetch always fails |
| Errors.MapNetworkError | src/_08_error_handling.rs:247-250 | the `map_err` closure gives code 500 and the message behind the "处理数据失败: " prefix |
| Errors.ProcessDataMapErr | src/_08_error_handling.rs:246-251 | data passes through; a network error becomes code 500 with the message behind the "处理数据失败: " prefix |
| Errors.ProcessDataMapErrDemo | src/_08_error_handling.rs:238-259 | the timeout becomes the 500 error, which differs from what `From` would give |
| Errors.DataFromParse | src/_08_error_handling.rs:283-287 | `From<ParseIntError>` for `DataError` keeps the error |
| Errors.ServiceFromData | src/_08_error_handling.rs:289-293 | `From<DataError>` for `ServiceError` keeps the inner error |
| Errors.ParseData | src/_08_error_handling.rs:296-304 | a parse error comes back as `Parse`, a negative number as `Validation`, otherwise the value |
| Errors.ParseDataAgreesWithProcessInput | src/_08_error_handling.rs:296-304 | `parse_data` and `process_input` agree except on "", which only `process_input` checks first |
| Errors.ParseDataDemo | src/_08_error_handling.rs:307-312 | "not a number" fails in the parser, and the chain keeps that error |
| Errors.UserErrorMessage | src/_08_error_handling.rs:362-371 | the username message quotes the rejected name between two fixed texts; the password message is fixed |
| Errors.UserErrorMessageInjective | src/_08_error_handling.rs:362-371 | different errors display differently |
| Errors.UserErrorMessageDemo | src/_08_error_handling.rs:392-400 | the password message, and the message for the rejected username "bo" |
| Errors.CreateUser | src/_08_error_handling.rs:374-389 | a username under 3 bytes is rejected first, then a password under 8 bytes; otherwise success |
| Errors.CreateUserAlice | src/_08_error_handling.rs:392-400 | ("alice", "password123") succeeds |
| Errors.CreateUserBo | src/_08_error_handling.rs:392-400 | ("bo", "password123") is rejected for the username "bo" |
| Errors.CreateUserCharlie | src/_08_error_handling.rs:392-400 | ("charlie", "pass") is rejected for the password length |
| Errors.CreateUserCountsBytes | src/_08_error_handling.rs:376-381 | a 2-character username and a 4-character password are accepted |
| Errors.CreateUserByChars | src/_08_error_handling.rs:362-371 | the check counts characters, as the messages promise |
| Errors.CreateUserByCharsAgreesOnAscii | src/_08_error_handling.rs:374-389 | the corrected check agrees with the original on ASCII and rejects "张三" |
| Generics.FindMax | src/_09_generics.rs:93-107 | `None` exactly for an empty slice; otherwise the index of an element no other is greater than, with every earlier element smaller (first on ties) |
| Generics.FindMaxInt | src/_09_generics.rs:93-107 | on `i32`, the first position of the largest number |
| Generics.GenericFunctions | src/_09_generics.rs:115-128 | 9 is the largest of [1, 5, 3, 9, 2]; "pear" is the greatest of the four fruit |
| Generics.Container.constructor | src/_09_generics.rs:315-319 | `Container::new` holds the given value |
| Generics.Container.Map | src/_09_generics.rs:326-333 | `map` makes a new container holding `f` of the value |
| Generics.Increment | src/_09_generics.rs:338-340 | `increment` adds one in place |
| Generics.Square | src/_09_generics.rs:342-346 | `square` is a new container holding the value squared, which always fits in `i64` |
| Generics.SquareFitsI64 | src/_09_generics.rs:344 | the square of an `i32` never overflows `i64` |
| Generics.GenericMethods | src/_09_generics.rs:350-367 | 42 is read back; 10 becomes 11, which squares to 121; 5 maps to "5"; "hello" maps to 5 |
| Generics.Calculator.constructor | src/_09_generics.rs:428-430 | `Calculator::new` holds the given value |
| Generics.Calculator.Add | src/_09_generics.rs:432-434 | `add` adds in place |
| Generics.Calculator.Subtract | src/_09_generics.rs:436-438 | `subtract` subtracts in place |
| Generics.AddThenSubtract | src/_09_generics.rs:432-438 | adding and then subtracting the same amount restores the value |
| Generics.CalculatorDemo | src/_09_generics.rs:456-461 | 100, then 150, then 125 |
| Generics.VecAdd | src/_09_generics.rs:446-449 | `Container::add` for `Vec` pushes at the end |
| Generics.VecGet | src/_09_generics.rs:451-453 | `get` is `Some` of the element exactly for an index in bounds |
| Generics.VecAddThenGet | src/_09_generics.rs:446-454 | after `add`, the old length holds the item, earlier indices are unchanged, and later ones are out of bounds |
| Generics.AdvancedGenerics | src/_09_generics.rs:662-669 | after pushing 10, 20, 30, index 1 holds 20 and index 3 is out of bounds |
| Lifetimes.Longest | src/_10_lifetimes.rs:146-152 | one of the two arguments, at least as many bytes as both; a tie goes to the second |
| Lifetimes.LongestSymmetric | src/_10_lifetimes.rs:146-152 | when the byte lengths differ, the order of the arguments does not matter |
| Lifetimes.LifetimeAnnotations | src/_10_lifetimes.rs:96-109 | "abcd" is longer than "xyz" |
| Lifetimes.FirstWord | src/_10_lifetimes.rs:155-165 | the loop returns the text before the first space, or the whole string; the elided copy at lines 380-390 has the same body |
| Lifetimes.FunctionSignatures | src/_10_lifetimes.rs:177-189 | "world" is the longer of "hello" and "world"; "hello" is the first word of "hello world"; `mix_lifetimes` gives ("hello", "world") |
| Lifetimes.FirstSentence | src/_10_lifetimes.rs:234-235 | the first piece of the novel split at '.' is "Call me Ishmael" |
| Lifetimes.Book.CombineTitles | src/_10_lifetimes.rs:294-299 | the first title, then " and ", then the second title |
| Lifetimes.Book.GetLongerTitle | src/_10_lifetimes.rs:307-316 | the title when it has strictly more bytes, the other title otherwise |
| Lifetimes.CombineTitlesSplits | src/_10_lifetimes.rs:294-299 | given the first title's length, the combined text determines both titles |
| Lifetimes.MethodLifetimes | src/_10_lifetimes.rs:327-352 | the description, the comparison (false), the longer title and the combined titles the lesson prints |
| Lifetimes.PrintLongestIsMaximal | src/_10_lifetimes.rs:493-502 | `print_longest` prints one of its arguments, and neither argument is greater |
| Lifetimes.PrintLongestStrings | src/_10_lifetimes.rs:493-502 | on strings it prints the greater one, and `x` exactly when `x > y` |
| Lifetimes.PrintLongestIntegers | src/_10_lifetimes.rs:493-502 | on integers it prints the maximum |
| Lifetimes.LifetimeBounds | src/_10_lifetimes.rs:518-528 | 100 of 42 and 100; "world" of "hello" and "world" |

## Left out

- `src/_01_variables.rs` and `src/_06_collections.rs` are not part of this model.
- Console output is modelled only for the menu loop, as abstract events. Standard input is a parameter: a sequence of reads.
- Reading files (`read_file_verbose`, `read_file_simple` and the `?` demos on `File`) is I/O. An `io::Error` is an opaque payload.
- Lesson 2's print-only demos are not modelled: the `if number > 5` and `if number % 2 == 0` expressions (`src/_02_functions_control_flow.rs:110-122`), and the `for` loops over ranges, arrays, `enumerate` and `chars`.
- Lesson 3's `Person`, the tuple and unit structs, and the visibility demo only print.
- Lesson 4's `print_direction`, `print_message_type`, `process_input(Input)`, `print_option` and `print_option_string` only print.
- Lesson 5's `if let`, `for` and `let` pattern demos only print. So do the `Color` wildcard, the nested `Rectangle` destructuring and `process_option`.
- Lesson 7:
  - the `use`, nested-module, path and workspace demos only print;
  - `create_project` and the private `add` are not modelled;
  - `Product::display`, `ShoppingCart::display` and `Customer` only print.
- Lesson 8's `panic!`, `unwrap`/`expect` and `Box<dyn Error>` demos are not modelled. Neither are the `Display` texts other than `UserError`'s.
- Floating point is left out:
  - prices are whole cents;
  - `find_max` on `f64`, `print_longest` on `f64` and the `f64` `Calculator` are not modelled;
  - so is `distance_from_origin`.
- Trait objects and generic dispatch that only print are left out: `Draw`, `Summary`, `Handler`, `Descriptor` through `dyn`, `Dog`/`Cat` names and `apply_function`. So are the lesson 9 `add`/`subtract`/`multiply` generics, `display_and_add` and `print_value`.
- `Box::leak`, `static mut`, `'static` strings, `ImportantExcerpt`, `MultiRef`, `RefPair`, `Person::get_name` and `nested_references` return what they are given and only print.
- Getters and pass-through functions are modelled as plain field reads and carry no contract of their own: `Point::get_x`, `Point::get_y`, `Pair::get`, `Container::get`, `Calculator::get`, `Department::get_name`, `mix_lifetimes`, `longer_lived`, `Book::get_title`, `Book::describe` and `Book::compare_title`. The demos that print them pin their values.
- Lifetimes and visibility are compile-time checks and leave nothing to model.
- Str.ParseI32: when a text both overflows and has a later invalid digit, the model reports `InvalidDigit`. The standard library checks for overflow digit by digit and reports the overflow first.
- Lifetimes.FirstWord walks characters, not UTF-8 bytes. The byte 0x20 encodes only ' ', so it cuts at the same place.
- Generics.Increment, Generics.Calculator.Add, Generics.Calculator.Subtract and ControlFlow.Increment do not model overflow panics. A range precondition excludes them instead.
- Packages.ShoppingCart.CalculateTotal is exact in cents. The source sums `f64` values, which may round.

## Findings

| source | as written | input that shows it | evidently intended | confidence | as-written member | corrected member |
|---|---|---|---|---|---|---|
| src/_08_error_handling.rs:376-381 | `username.len() < 3` and `password.len() < 8` count UTF-8 bytes | username "张三" (2 characters, 6 bytes) and password "密码密码" (4 characters, 12 bytes) are accepted | the messages at lines 365-368 say "at least 3 characters" and "at least 8 characters", so characters should be counted | not executed; medium | Errors.CreateUserCountsBytes | Errors.CreateUserByCharsAgreesOnAscii |
