/** Lesson 10, src/_10_lifetimes.rs: functions and methods whose signatures
    tie the lifetime of a returned reference to an argument. Lifetimes are
    checked by the Rust compiler and leave nothing to model at run time; what
    remains is which argument (or which part of it) each function returns.
    `str::len` counts UTF-8 bytes, as `Str.Utf8Len` does. */
module Lifetimes {
  import opened Std
  import opened Str

  // ---- function_signatures ----------------------------------------------

  /** `longest`: the first string when its byte length is strictly greater,
      otherwise the second, so a tie goes to the second. */
  function Longest(x: string, y: string): (r: string)
    ensures r == x || r == y
    ensures Utf8Len(r) >= Utf8Len(x) && Utf8Len(r) >= Utf8Len(y)
    ensures Utf8Len(x) <= Utf8Len(y) ==> r == y
  {
    if Utf8Len(x) > Utf8Len(y) then x else y
  }

  /** When the lengths differ, the order of the arguments does not matter. */
  lemma LongestSymmetric(x: string, y: string)
    requires Utf8Len(x) != Utf8Len(y)
    ensures Longest(x, y) == Longest(y, x)
  {
  }

  /** `lifetime_annotations`: "abcd" is longer than "xyz". */
  lemma LifetimeAnnotations()
    ensures Longest("abcd", "xyz") == "abcd"
  {
    Utf8LenAscii("abcd");
    Utf8LenAscii("xyz");
  }

  /** `first_word`, in both the annotated and the elided copy (the two bodies
      are the same): walks the string and returns everything before the
      first space, or the whole string when there is none. The source walks
      the UTF-8 bytes; the byte 0x20 encodes only ' ', so the cut falls at
      the same place as in a walk over characters. */
  method FirstWord(s: string) returns (w: string)
    ensures w == FirstPiece(s, ' ')
  {
    var i := 0;
    while i < |s|
      invariant 0 <= i <= |s|
      invariant ' ' !in s[..i]
    {
      if s[i] == ' ' {
        FirstPieceUnique(s, ' ', s[..i]);
        return s[..i];
      }
      assert s[..i + 1] == s[..i] + [s[i]];
      i := i + 1;
    }
    assert s[..i] == s;
    FirstPieceUnique(s, ' ', s);
    return s;
  }

  /** `mix_lifetimes`: both references, unchanged. */
  function MixLifetimes(x: string, y: string): (string, string)
  {
    (x, y)
  }

  /** `longer_lived`: the first reference; the second only constrains the
      lifetime. */
  function LongerLived(x: int, y: int): int
  {
    x
  }

  lemma HelloWorldLengths()
    ensures Utf8Len("hello") == 5 && Utf8Len("world") == 5
  {
    Utf8LenAscii("hello");
    Utf8LenAscii("world");
  }

  /** `function_signatures`: "world" is the longest of "hello" and "world",
      "hello" is the first word of "hello world", and `mix_lifetimes` returns
      ("hello", "world"); `longer_lived(&100, &200)` in `lifetime_subtyping`
      is 100. */
  method FunctionSignatures() returns (longest: string, word: string, mixed: (string, string), lived: int)
    ensures longest == "world" && word == "hello"
    ensures mixed == ("hello", "world") && lived == 100
  {
    HelloWorldLengths();
    longest := Longest("hello", "world");
    word := FirstWord("hello world");
    FirstPieceOfJoin("hello", ' ', "world");
    assert "hello" + [' '] + "world" == "hello world";
    mixed := MixLifetimes("hello", "world");
    lived := LongerLived(100, 200);
  }

  // ---- struct_lifetimes -------------------------------------------------

  /** `novel.split('.').next()`: the text before the first '.', which the
      `expect` never rejects since `split` yields at least one piece. */
  lemma FirstSentence()
    ensures FirstPiece("Call me Ishmael. Some years ago...", '.') == "Call me Ishmael"
  {
    var novel := "Call me Ishmael. Some years ago...";
    FirstPieceUnique(novel, '.', "Call me Ishmael");
  }

  // ---- method_lifetimes -------------------------------------------------

  /** `struct Book` holding two borrowed strings. */
  datatype Book = Book(title: string, author: string) {

    /** `Book::get_title` */
    function GetTitle(): string
    {
      title
    }

    /** `Descriptor::describe` for `Book`: the title. */
    function Describe(): string
    {
      title
    }

    /** `combine_titles`: `format!("{} and {}", ...)`. */
    function CombineTitles(other: Book): (r: string)
      ensures |r| == |title| + 5 + |other.title|
      ensures r[..|title|] == title
      ensures r[|title|..|title| + 5] == " and "
      ensures r[|title| + 5..] == other.title
    {
      title + " and " + other.title
    }

    /** `compare_title`: string equality with the title. */
    function CompareTitle(otherTitle: string): bool
    {
      title == otherTitle
    }

    /** `get_longer_title`: the title when it has strictly more bytes, the
      other title otherwise. */
    function GetLongerTitle(otherTitle: string): (r: string)
      ensures r == title || r == otherTitle
      ensures Utf8Len(r) >= Utf8Len(title) && Utf8Len(r) >= Utf8Len(otherTitle)
      ensures Utf8Len(title) <= Utf8Len(otherTitle) ==> r == otherTitle
    {
      if Utf8Len(title) > Utf8Len(otherTitle) then title else otherTitle
    }
  }

  /** Combining recovers both titles: the result splits back into them. */
  lemma CombineTitlesSplits(a: Book, b: Book, c: Book, d: Book)
    requires |a.title| == |c.title|
    requires a.CombineTitles(b) == c.CombineTitles(d)
    ensures a.title == c.title && b.title == d.title
  {
    var r := a.CombineTitles(b);
    assert a.title == r[..|a.title|] == c.title;
    assert b.title == r[|a.title| + 5..] == d.title;
  }

  lemma FirstTitleLength()
    ensures Utf8Len("The Rust Programming Language") == 29
  {
    Utf8LenAscii("The Rust Programming Language");
  }

  lemma OtherTitleLength()
    ensures Utf8Len("Programming Rust") == 16
  {
    Utf8LenAscii("Programming Rust");
  }

  lemma CombinedTitles(book1: Book, book2: Book)
    requires book1.title == "The Rust Programming Language" && book2.title == "Effective Rust"
    ensures book1.CombineTitles(book2) == "The Rust Programming Language and Effective Rust"
  {
  }

  /** `method_lifetimes`: the description, the comparison with "Programming
      Rust", the longer title and the combined titles. */
  method MethodLifetimes() returns (description: string, same: bool, longer: string, combined: string)
    ensures description == "The Rust Programming Language"
    ensures !same
    ensures longer == "The Rust Programming Language"
    ensures combined == "The Rust Programming Language and Effective Rust"
  {
    var book1 := Book("The Rust Programming Language", "Steve Klabnik and Carol Nichols");
    description := book1.Describe();
    var otherTitle := "Programming Rust";
    same := book1.CompareTitle(otherTitle);
    assert otherTitle[0] != book1.title[0];
    FirstTitleLength();
    OtherTitleLength();
    longer := book1.GetLongerTitle(otherTitle);
    var book2 := Book("Effective Rust", "Various Authors");
    combined := book1.CombineTitles(book2);
    CombinedTitles(book1, book2);
  }

  // ---- lifetime_bounds --------------------------------------------------

  /** The comparison `print_longest` makes with `x > y`, passed in for the
      element type `T: PartialOrd`. */
  function PrintLongest<T>(x: T, y: T, greater: (T, T) -> bool): (r: T)
  {
    if greater(x, y) then x else y
  }

  /** For any element type whose `>` is a strict weak order, `print_longest`
      prints one of its arguments and nothing it was given is greater. */
  lemma PrintLongestIsMaximal<T(!new)>(x: T, y: T, greater: (T, T) -> bool)
    requires StrictWeakOrder(greater)
    ensures PrintLongest(x, y, greater) == x || PrintLongest(x, y, greater) == y
    ensures !greater(x, PrintLongest(x, y, greater)) && !greater(y, PrintLongest(x, y, greater))
  {
  }

  /** On strings `print_longest` prints the greater of the two, and it prints
      `y` whenever the two are equal or `y` is greater. */
  lemma PrintLongestStrings(x: string, y: string)
    ensures PrintLongest(x, y, LexGreater) == x || PrintLongest(x, y, LexGreater) == y
    ensures !LexGreater(x, PrintLongest(x, y, LexGreater))
    ensures !LexGreater(y, PrintLongest(x, y, LexGreater))
    ensures x != y ==> (PrintLongest(x, y, LexGreater) == x <==> LexGreater(x, y))
  {
    LexIrreflexive(x);
    LexIrreflexive(y);
    if LexGreater(x, y) {
      LexAsymmetric(x, y);
    }
  }

  /** On `i32` `print_longest` prints the maximum. */
  lemma PrintLongestIntegers(x: int, y: int)
    ensures PrintLongest(x, y, IntGreater) == if x > y then x else y
    ensures PrintLongest(x, y, IntGreater) >= x && PrintLongest(x, y, IntGreater) >= y
  {
  }

  /** `lifetime_bounds`: 100 of 42 and 100, "world" of "hello" and "world". */
  lemma LifetimeBounds()
    ensures PrintLongest(42, 100, IntGreater) == 100
    ensures PrintLongest("hello", "world", LexGreater) == "world"
  {
  }
}
