/** Rust `str` operations used by the lessons, on strings modelled as sequences
    of Unicode scalar values: `trim`, `len` (a UTF-8 byte count), `Display` for
    integers, `parse::<i32>` and the first piece of `split`. */
module Str {
  import opened Std

  /** `char::is_whitespace`: the characters with Unicode's White_Space property. */
  predicate IsWhitespace(c: char) {
    var n := c as int;
    (9 <= n <= 13) || n == 32 || n == 0x85 || n == 0xA0 || n == 0x1680
    || (0x2000 <= n <= 0x200A) || n == 0x2028 || n == 0x2029 || n == 0x202F
    || n == 0x205F || n == 0x3000
  }

  predicate AllWhitespace(s: string) {
    forall i :: 0 <= i < |s| ==> IsWhitespace(s[i])
  }

  /** `str::trim`: strips whitespace from both ends, one character at a
      time, and returns what is left. */
  function Trim(s: string): string
    decreases |s|
  {
    if s != [] && IsWhitespace(s[0]) then Trim(s[1..])
    else if s != [] && IsWhitespace(s[|s| - 1]) then Trim(s[..|s| - 1])
    else s
  }

  /** What is left after `trim` neither starts nor ends with whitespace, and
      nothing is left exactly when the string was all whitespace. */
  lemma {:induction false} TrimEnds(s: string)
    ensures |Trim(s)| <= |s|
    ensures Trim(s) == [] || (!IsWhitespace(Trim(s)[0]) && !IsWhitespace(Trim(s)[|Trim(s)| - 1]))
    ensures Trim(s) == [] <==> AllWhitespace(s)
    decreases |s|
  {
    if s != [] && IsWhitespace(s[0]) {
      TrimEnds(s[1..]);
      assert AllWhitespace(s) <==> AllWhitespace(s[1..]) by {
        assert s == [s[0]] + s[1..];
        if AllWhitespace(s[1..]) {
          AllWhitespaceAppend([s[0]], s[1..]);
        }
      }
    } else if s != [] && IsWhitespace(s[|s| - 1]) {
      TrimEnds(s[..|s| - 1]);
      assert s[..|s| - 1][0] == s[0];
    }
  }

  lemma AllWhitespaceAppend(a: string, b: string)
    requires AllWhitespace(a) && AllWhitespace(b)
    ensures AllWhitespace(a + b)
  {
  }

  /** `r` occurs in `s` at offset `k` with only whitespace around it. */
  predicate PaddedAt(s: string, r: string, k: nat) {
    k + |r| <= |s| && s[k..k + |r|] == r
    && AllWhitespace(s[..k]) && AllWhitespace(s[k + |r|..])
  }

  lemma PaddedAtCons(c: char, t: string, r: string, j: nat)
    requires IsWhitespace(c) && PaddedAt(t, r, j)
    ensures PaddedAt([c] + t, r, j + 1)
  {
    var s := [c] + t;
    assert s[j + 1..j + 1 + |r|] == t[j..j + |r|];
    assert s[..j + 1] == [c] + t[..j];
    assert s[j + 1 + |r|..] == t[j + |r|..];
  }

  lemma PaddedAtSnoc(t: string, c: char, r: string, k: nat)
    requires IsWhitespace(c) && PaddedAt(t, r, k)
    ensures PaddedAt(t + [c], r, k)
  {
    var s := t + [c];
    assert s[k..k + |r|] == t[k..k + |r|];
    assert s[..k] == t[..k];
    assert s[k + |r|..] == t[k + |r|..] + [c];
  }

  /** What `trim` returns is a slice of its argument, starting at `k`, with
      only whitespace before and after it. */
  lemma {:induction false} TrimIsSlice(s: string) returns (k: nat)
    ensures PaddedAt(s, Trim(s), k)
    decreases |s|
  {
    if s != [] && IsWhitespace(s[0]) {
      var j := TrimIsSlice(s[1..]);
      assert [s[0]] + s[1..] == s;
      PaddedAtCons(s[0], s[1..], Trim(s), j);
      k := j + 1;
    } else if s != [] && IsWhitespace(s[|s| - 1]) {
      k := TrimIsSlice(s[..|s| - 1]);
      assert s[..|s| - 1] + [s[|s| - 1]] == s;
      PaddedAtSnoc(s[..|s| - 1], s[|s| - 1], Trim(s), k);
    } else {
      k := 0;
      assert s[0..0 + |s|] == s;
    }
  }

  /** Whitespace around a string never changes what `trim` returns: " 3 \n"
      trims to the same text as "3". */
  lemma {:induction false} TrimPadded(pre: string, s: string, post: string)
    requires AllWhitespace(pre) && AllWhitespace(post)
    ensures Trim(pre + s + post) == Trim(s)
    decreases |pre| + |s| + |post|
  {
    var x := pre + s + post;
    if pre != [] {
      assert x[0] == pre[0] && x[1..] == pre[1..] + s + post;
      TrimPadded(pre[1..], s, post);
    } else if x == [] {
      assert s == [];
    } else if IsWhitespace(x[0]) {
      if s != [] {
        assert x[0] == s[0];
        assert x[1..] == [] + s[1..] + post;
        TrimPadded([], s[1..], post);
      } else {
        assert x[1..] == [] + [] + post[1..];
        TrimPadded([], [], post[1..]);
      }
    } else if IsWhitespace(x[|x| - 1]) {
      if post != [] {
        assert x[..|x| - 1] == [] + s + post[..|post| - 1];
        TrimPadded([], s, post[..|post| - 1]);
      } else {
        assert x == s;
      }
    } else {
      assert x == s;
    }
  }

  /** `trim` is idempotent. */
  lemma TrimIdempotent(s: string)
    ensures Trim(Trim(s)) == Trim(s)
  {
    TrimEnds(s);
  }

  /** `str::len`: the number of bytes of the UTF-8 encoding. */
  function Utf8Width(c: char): (w: nat)
    ensures 1 <= w <= 4
    ensures w == 1 <==> (c as int) < 0x80
  {
    var n := c as int;
    if n < 0x80 then 1 else if n < 0x800 then 2 else if n < 0x10000 then 3 else 4
  }

  function Utf8Len(s: string): (n: nat)
    ensures |s| <= n <= 4 * |s|
  {
    if s == [] then 0 else Utf8Width(s[0]) + Utf8Len(s[1..])
  }

  /** The byte length of a concatenation is the sum of the byte lengths. */
  lemma {:induction false} Utf8LenConcat(a: string, b: string)
    ensures Utf8Len(a + b) == Utf8Len(a) + Utf8Len(b)
    decreases |a|
  {
    if a != [] {
      var t := a + b;
      assert t[0] == a[0];
      assert t[1..] == a[1..] + b;
      assert Utf8Len(t) == Utf8Width(a[0]) + Utf8Len(a[1..] + b);
      Utf8LenConcat(a[1..], b);
    } else {
      assert a + b == b;
    }
  }

  /** On ASCII text the byte length is the character count. */
  lemma {:induction false} Utf8LenAscii(s: string)
    requires forall i :: 0 <= i < |s| ==> (s[i] as int) < 0x80
    ensures Utf8Len(s) == |s|
    decreases |s|
  {
    if s != [] {
      Utf8LenAscii(s[1..]);
    }
  }

  predicate IsAsciiDigit(c: char) { '0' <= c <= '9' }

  predicate AllDigits(s: string) {
    forall i :: 0 <= i < |s| ==> IsAsciiDigit(s[i])
  }

  function DigitChar(d: nat): (c: char)
    requires d < 10
    ensures IsAsciiDigit(c)
  {
    ('0' as int + d) as char
  }

  function DigitValue(c: char): (d: nat)
    requires IsAsciiDigit(c)
    ensures d < 10 && DigitChar(d) == c
  {
    (c as int) - ('0' as int)
  }

  /** The decimal digits of a natural number, most significant first, without
      leading zeros. */
  function NatToDecimal(n: nat): (r: string)
    ensures |r| >= 1 && AllDigits(r)
    ensures |r| > 1 ==> r[0] != '0'
    decreases n
  {
    if n < 10 then [DigitChar(n)] else NatToDecimal(n / 10) + [DigitChar(n % 10)]
  }

  /** The number a string of decimal digits denotes. */
  function DigitsValue(ds: string): nat
    requires AllDigits(ds)
    decreases |ds|
  {
    if ds == [] then 0 else DigitsValue(ds[..|ds| - 1]) * 10 + DigitValue(ds[|ds| - 1])
  }

  lemma {:induction false} NatToDecimalValue(n: nat)
    ensures DigitsValue(NatToDecimal(n)) == n
    decreases n
  {
    var r := NatToDecimal(n);
    if n >= 10 {
      NatToDecimalValue(n / 10);
      assert r[..|r| - 1] == NatToDecimal(n / 10);
    }
  }

  /** `{}` formatting of an integer: an optional '-' and the decimal digits. */
  function Dec(n: int): (r: string)
    ensures r != [] && (r[0] == '-' <==> n < 0)
    ensures n >= 0 ==> AllDigits(r)
  {
    if n < 0 then "-" + NatToDecimal(-n) else NatToDecimal(n)
  }

  /** An optional '+' or '-' followed by one or more ASCII digits, read as an
      unbounded integer; `None` for anything else. */
  function ParseDecimal(s: string): (r: Option<int>)
    ensures r.Some? ==> s != [] && (IsAsciiDigit(s[0]) || s[0] == '+' || s[0] == '-')
    ensures r.Some? ==> AllDigits(s[1..])
    ensures r.Some? && r.value < 0 ==> s[0] == '-'
    ensures r.Some? && s[0] == '-' ==> r.value <= 0
  {
    if s == [] then None
    else
      var negative := s[0] == '-';
      var digits := if s[0] == '+' || s[0] == '-' then s[1..] else s;
      if digits == [] || !AllDigits(digits) then None
      else if negative then Some(-(DigitsValue(digits) as int))
      else Some(DigitsValue(digits))
  }

  /** Reading back what `Dec` writes gives the number that was written. */
  lemma {:induction false} DecRoundTrip(n: int)
    ensures ParseDecimal(Dec(n)) == Some(n)
  {
    if n < 0 {
      var ds := NatToDecimal(-n);
      NatToDecimalValue(-n);
      assert Dec(n) == "-" + ds;
      assert Dec(n)[0] == '-' && Dec(n)[1..] == ds;
    } else {
      var ds := NatToDecimal(n);
      NatToDecimalValue(n);
      assert ds[0] != '+' && ds[0] != '-';
    }
  }

  /** Different integers are formatted differently. */
  lemma {:induction false} DecInjective(m: int, n: int)
    requires Dec(m) == Dec(n)
    ensures m == n
  {
    DecRoundTrip(m);
    DecRoundTrip(n);
  }

  /** `ParseIntError`'s kind. */
  datatype IntErrorKind = Empty | InvalidDigit | PosOverflow | NegOverflow
  datatype ParseIntError = ParseIntError(kind: IntErrorKind)

  /** `str::parse::<i32>`: an optional sign and one or more ASCII digits whose
      value lies in the `i32` range. The empty string is its own error kind; a
      value outside the range is an overflow in the direction of its sign. */
  function ParseI32(s: string): (r: Result<int, ParseIntError>)
    ensures r.Ok? ==> IsI32(r.value) && ParseDecimal(s) == Some(r.value)
    ensures r.Err? && r.error.kind == Empty <==> s == []
    ensures r.Err? && r.error.kind == InvalidDigit <==> s != [] && ParseDecimal(s).None?
    ensures r.Err? && r.error.kind == PosOverflow <==> ParseDecimal(s).Some? && ParseDecimal(s).value > I32_MAX
    ensures r.Err? && r.error.kind == NegOverflow <==> ParseDecimal(s).Some? && ParseDecimal(s).value < I32_MIN
  {
    if s == [] then Err(ParseIntError(Empty))
    else match ParseDecimal(s)
      case None => Err(ParseIntError(InvalidDigit))
      case Some(v) =>
        if v > I32_MAX then Err(ParseIntError(PosOverflow))
        else if v < I32_MIN then Err(ParseIntError(NegOverflow))
        else Ok(v)
  }

  /** Every `i32` printed with `{}` parses back to itself. */
  lemma {:induction false} ParseI32OfDec(n: int)
    requires IsI32(n)
    ensures ParseI32(Dec(n)) == Ok(n)
  {
    DecRoundTrip(n);
  }

  /** `s.split(sep).next()`: the text before the first `sep`, or all of `s`. */
  function FirstPiece(s: string, sep: char): (r: string)
    ensures |r| <= |s| && r == s[..|r|]
    ensures sep !in r
    ensures |r| < |s| ==> s[|r|] == sep
    decreases |s|
  {
    if s == [] || s[0] == sep then [] else [s[0]] + FirstPiece(s[1..], sep)
  }

  /** The three properties of `FirstPiece` pin it down: a prefix without `sep`
      that is followed by `sep` or ends the string is the first piece. */
  lemma {:induction false} FirstPieceUnique(s: string, sep: char, p: string)
    requires |p| <= |s| && p == s[..|p|] && sep !in p
    requires |p| < |s| ==> s[|p|] == sep
    ensures FirstPiece(s, sep) == p
  {
    assert |FirstPiece(s, sep)| == |p|;
  }

  /** Text without `sep`, then `sep`, then anything: the first piece is that
      text. */
  lemma FirstPieceOfJoin(p: string, sep: char, rest: string)
    requires sep !in p
    ensures FirstPiece(p + [sep] + rest, sep) == p
  {
    var s := p + [sep] + rest;
    assert s[..|p|] == p && s[|p|] == sep;
    FirstPieceUnique(s, sep, p);
  }

  /** A separator that occurs in neither left part splits a concatenation in
      only one way. */
  lemma {:induction false} SplitUnique(p1: string, r1: string, p2: string, r2: string, sep: char)
    requires sep !in p1 && sep !in p2
    requires p1 + [sep] + r1 == p2 + [sep] + r2
    ensures p1 == p2 && r1 == r2
  {
    var s := p1 + [sep] + r1;
    assert s[..|p1|] == p1 && s[..|p2|] == p2;
    FirstPieceUnique(s, sep, p1);
    FirstPieceUnique(s, sep, p2);
    assert r1 == s[|p1| + 1..];
    assert r2 == s[|p2| + 1..];
  }

  lemma DigitsHaveNo(s: string, c: char)
    requires AllDigits(s) && !IsAsciiDigit(c)
    ensures c !in s
  {
  }

  /** A formatted integer contains no character other than '-' and digits. */
  lemma DecHasNo(n: int, c: char)
    requires c != '-' && !IsAsciiDigit(c)
    ensures c !in Dec(n)
  {
    if n < 0 {
      DigitsHaveNo(NatToDecimal(-n), c);
    }
  }

  /** A formatted integer followed by a separator that cannot occur in it
      determines both the integer and the rest of the text. */
  lemma {:induction false} DecThenUnique(m: int, r1: string, n: int, r2: string, sep: char)
    requires sep != '-' && !IsAsciiDigit(sep)
    requires Dec(m) + [sep] + r1 == Dec(n) + [sep] + r2
    ensures m == n && r1 == r2
  {
    DecHasNo(m, sep);
    DecHasNo(n, sep);
    SplitUnique(Dec(m), r1, Dec(n), r2, sep);
    DecInjective(m, n);
  }

  // ---- Ordering ---------------------------------------------------------

  /** `>` on `String` and `&str`: lexicographic on the UTF-8 bytes, which is
      the same as lexicographic on the characters since UTF-8 keeps the order
      of code points; a proper prefix is the smaller string. */
  function LexGreater(a: string, b: string): bool
    decreases |a|
  {
    if a == [] then false
    else if b == [] then true
    else if a[0] != b[0] then a[0] > b[0]
    else LexGreater(a[1..], b[1..])
  }

  /** No string is greater than itself. */
  lemma {:induction false} LexIrreflexive(a: string)
    ensures !LexGreater(a, a)
    decreases |a|
  {
    if a != [] {
      LexIrreflexive(a[1..]);
    }
  }

  /** Of two strings, at most one is greater than the other. */
  lemma {:induction false} LexAsymmetric(a: string, b: string)
    requires LexGreater(a, b)
    ensures !LexGreater(b, a)
    decreases |a|
  {
    if b != [] && a[0] == b[0] {
      LexAsymmetric(a[1..], b[1..]);
    }
  }

  /** Of two different strings, one is greater than the other. */
  lemma {:induction false} LexTotal(a: string, b: string)
    requires a != b
    ensures LexGreater(a, b) || LexGreater(b, a)
    decreases |a|
  {
    if a != [] && b != [] && a[0] == b[0] {
      assert a == [a[0]] + a[1..] && b == [b[0]] + b[1..];
      LexTotal(a[1..], b[1..]);
    }
  }

  lemma {:induction false} LexTransitive(a: string, b: string, c: string)
    requires LexGreater(a, b) && LexGreater(b, c)
    ensures LexGreater(a, c)
    decreases |a|
  {
    if c != [] && a[0] == b[0] && b[0] == c[0] {
      LexTransitive(a[1..], b[1..], c[1..]);
    }
  }

  /** String comparison is a total order, hence a strict weak order. */
  lemma LexIsStrictWeakOrder()
    ensures StrictWeakOrder(LexGreater)
  {
    forall a
      ensures !LexGreater(a, a)
    {
      LexIrreflexive(a);
    }
    forall a, b, c | LexGreater(a, b) && LexGreater(b, c)
      ensures LexGreater(a, c)
    {
      LexTransitive(a, b, c);
    }
    forall a, b, c | !LexGreater(a, b) && !LexGreater(b, c)
      ensures !LexGreater(a, c)
    {
      if a != b && b != c {
        LexTotal(a, b);
        LexTotal(b, c);
        LexTransitive(c, b, a);
        LexAsymmetric(c, a);
      }
    }
  }
}
