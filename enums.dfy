/** Lesson 4, src/_04_enums.rs: enums with explicit discriminants, enums that
    carry data, a method on an enum, `Option` and `Result` with the `?`
    operator. Everything here is a pure `match`. */
module Enums {
  import opened Std
  import opened Str

  // ---- Discriminants ----------------------------------------------------

  /** `enum HttpStatusCode` with its explicit discriminants. */
  datatype HttpStatusCode = Ok | Created | BadRequest | Unauthorized | NotFound | InternalServerError {

    /** `status as i32`: the discriminant, which is also the HTTP status. */
    function Code(): (r: int)
      ensures 200 <= r < 600
      ensures r < 300 <==> (this == HttpStatusCode.Ok || this == Created)
      ensures r >= 500 <==> this == InternalServerError
    {
      match this
      case Ok => 200
      case Created => 201
      case BadRequest => 400
      case Unauthorized => 401
      case NotFound => 404
      case InternalServerError => 500
    }
  }

  /** No two variants share a discriminant, so `as i32` can be inverted. */
  lemma {:induction false} CodesDistinct(a: HttpStatusCode, b: HttpStatusCode)
    requires a.Code() == b.Code()
    ensures a == b
  {
    match a
    case Ok =>
    case Created =>
    case BadRequest =>
    case Unauthorized =>
    case NotFound =>
    case InternalServerError =>
  }

  /** `enum_variants`: Ok prints 200 and NotFound 404. */
  lemma EnumVariantsDemo()
    ensures HttpStatusCode.Ok.Code() == 200 && NotFound.Code() == 404
  {
  }

  /** All six declared discriminants. */
  lemma HttpStatusCodes()
    ensures HttpStatusCode.Ok.Code() == 200 && Created.Code() == 201
    ensures BadRequest.Code() == 400 && Unauthorized.Code() == 401
    ensures NotFound.Code() == 404 && InternalServerError.Code() == 500
  {
  }

  // ---- value_in_cents ---------------------------------------------------

  datatype Coin = Penny | Nickel | Dime | Quarter

  /** `value_in_cents`: the coin's value as a `u8`. */
  function ValueInCents(coin: Coin): (r: int)
    ensures IsU8(r)
    ensures r == 1 <==> coin == Penny
  {
    match coin
    case Penny => 1
    case Nickel => 5
    case Dime => 10
    case Quarter => 25
  }

  /** Different coins have different values. */
  lemma {:induction false} ValueInCentsInjective(a: Coin, b: Coin)
    requires ValueInCents(a) == ValueInCents(b)
    ensures a == b
  {
    match a
    case Penny =>
    case Nickel =>
    case Dime =>
    case Quarter =>
  }

  /** `enum_pattern_matching`: a penny is 1 and a nickel 5. */
  lemma ValueInCentsDemo()
    ensures ValueInCents(Penny) == 1 && ValueInCents(Nickel) == 5
    ensures ValueInCents(Dime) == 10 && ValueInCents(Quarter) == 25
  {
  }

  // ---- Message::description ---------------------------------------------

  /** `enum Message`, whose variants carry no data, named fields, a string or
      a tuple of three `i32`. */
  datatype Message = Quit | Move(x: int, y: int) | Write(text: string) | ChangeColor(r: int, g: int, b: int)

  const QuitText: string := "退出消息"
  const MovePrefix: string := "移动到坐标 ("
  const WritePrefix: string := "写入文本: "
  const ColorPrefix: string := "更改为 RGB 颜色("

  /** `Message::description`: a fixed text for `Quit`, the fields formatted
      into the text for the others. */
  function Description(msg: Message): (d: string)
  {
    match msg
    case Quit => QuitText
    case Move(x, y) => MovePrefix + Dec(x) + ", " + Dec(y) + ")"
    case Write(text) => WritePrefix + text
    case ChangeColor(r, g, b) => ColorPrefix + Dec(r) + ", " + Dec(g) + ", " + Dec(b) + ")"
  }

  /** Each variant's description starts with its own text, and every field
      can be read back: two messages with the same description are equal. */
  lemma {:induction false} DescriptionInjective(m1: Message, m2: Message)
    requires Description(m1) == Description(m2)
    ensures m1 == m2
  {
    var c1 := DescriptionHead(m1);
    var c2 := DescriptionHead(m2);
    if m1.Move? && m2.Move? {
      MoveDescriptionInjective(m1.x, m1.y, m2.x, m2.y);
    } else if m1.Write? && m2.Write? {
      StripPrefix(WritePrefix, m1.text, m2.text);
    } else if m1.ChangeColor? && m2.ChangeColor? {
      ColorDescriptionInjective(m1.r, m1.g, m1.b, m2.r, m2.g, m2.b);
    }
  }

  /** The first character of a description names the variant. */
  lemma DescriptionHead(m: Message) returns (c: char)
    ensures Description(m) != [] && Description(m)[0] == c
    ensures c == (match m
      case Quit => '退'
      case Move(_, _) => '移'
      case Write(_) => '写'
      case ChangeColor(_, _, _) => '更')
  {
    c := Description(m)[0];
  }

  lemma {:induction false} MoveDescriptionInjective(x1: int, y1: int, x2: int, y2: int)
    requires Description(Move(x1, y1)) == Description(Move(x2, y2))
    ensures x1 == x2 && y1 == y2
  {
    var rest1, rest2 := " " + Dec(y1) + ")", " " + Dec(y2) + ")";
    MoveShape(x1, y1);
    MoveShape(x2, y2);
    StripPrefix(MovePrefix, Dec(x1) + [','] + rest1, Dec(x2) + [','] + rest2);
    DecThenUnique(x1, rest1, x2, rest2, ',');
    ClosingNumber(y1, y2);
  }

  lemma {:induction false} ColorDescriptionInjective(r1: int, g1: int, b1: int, r2: int, g2: int, b2: int)
    requires Description(ChangeColor(r1, g1, b1)) == Description(ChangeColor(r2, g2, b2))
    ensures r1 == r2 && g1 == g2 && b1 == b2
  {
    var tail1, tail2 := " " + Dec(b1) + ")", " " + Dec(b2) + ")";
    var rest1, rest2 := " " + (Dec(g1) + [','] + tail1), " " + (Dec(g2) + [','] + tail2);
    ColorShape(r1, g1, b1);
    ColorShape(r2, g2, b2);
    StripPrefix(ColorPrefix, Dec(r1) + [','] + rest1, Dec(r2) + [','] + rest2);
    DecThenUnique(r1, rest1, r2, rest2, ',');
    StripPrefix(" ", Dec(g1) + [','] + tail1, Dec(g2) + [','] + tail2);
    DecThenUnique(g1, tail1, g2, tail2, ',');
    ClosingNumber(b1, b2);
  }

  lemma MoveShape(x: int, y: int)
    ensures Description(Move(x, y)) == MovePrefix + (Dec(x) + [','] + (" " + Dec(y) + ")"))
  {
    RegroupPair(MovePrefix, Dec(x), Dec(y));
  }

  /** Moves the parentheses of `p + x + ", " + y + ")"`. */
  lemma RegroupPair(p: string, x: string, y: string)
    ensures p + x + ", " + y + ")" == p + (x + [','] + (" " + y + ")"))
  {
    var sep: string := ", ";
    assert sep == [','] + " ";
  }

  lemma ColorShape(r: int, g: int, b: int)
    ensures Description(ChangeColor(r, g, b))
      == ColorPrefix + (Dec(r) + [','] + (" " + (Dec(g) + [','] + (" " + Dec(b) + ")"))))
  {
    Regroup(ColorPrefix, Dec(r), Dec(g), Dec(b));
  }

  /** Moves the parentheses of `p + x + ", " + y + ", " + z + ")"`. */
  lemma Regroup(p: string, x: string, y: string, z: string)
    ensures p + x + ", " + y + ", " + z + ")" == p + (x + [','] + (" " + (y + [','] + (" " + z + ")"))))
  {
    var sep: string := ", ";
    assert sep == [','] + " ";
  }

  /** " n)" determines `n`. */
  lemma {:induction false} ClosingNumber(n1: int, n2: int)
    requires " " + Dec(n1) + ")" == " " + Dec(n2) + ")"
    ensures n1 == n2
  {
    assert " " + Dec(n1) + ")" == " " + (Dec(n1) + [')'] + []);
    assert " " + Dec(n2) + ")" == " " + (Dec(n2) + [')'] + []);
    StripPrefix(" ", Dec(n1) + [')'] + [], Dec(n2) + [')'] + []);
    DecThenUnique(n1, [], n2, [], ')');
  }

  lemma StripPrefix(p: string, s: string, t: string)
    requires p + s == p + t
    ensures s == t
  {
    assert s == (p + s)[|p|..];
    assert t == (p + t)[|p|..];
  }

  /** `enum_methods`: the four descriptions printed by the lesson. */
  lemma DescriptionDemo()
    ensures Description(Quit) == "退出消息"
    ensures Description(Move(10, 20)) == "移动到坐标 (10, 20)"
    ensures Description(Write("Hello, Rust!")) == "写入文本: Hello, Rust!"
    ensures Description(ChangeColor(255, 0, 0)) == "更改为 RGB 颜色(255, 0, 0)"
  {
    DecSmall();
  }

  /** The decimal forms of the numbers the demos print. */
  lemma DecSmall()
    ensures Dec(0) == "0" && Dec(1) == "1" && Dec(10) == "10"
    ensures Dec(20) == "20" && Dec(127) == "127" && Dec(255) == "255"
  {
    assert NatToDecimal(1) == "1";
    assert NatToDecimal(12) == "12";
    assert NatToDecimal(25) == "25";
  }

  // ---- IpAddr -----------------------------------------------------------

  /** `enum IpAddr`: four octets or a textual IPv6 address. The octets are
      `u8` in Rust; the printing below is the same for any integers. */
  datatype IpAddr = V4(a: int, b: int, c: int, d: int) | V6(text: string)

  /** `{}.{}.{}.{}`: the four octets in decimal, joined by '.'. */
  function DottedQuad(a: int, b: int, c: int, d: int): string
  {
    Dec(a) + "." + Dec(b) + "." + Dec(c) + "." + Dec(d)
  }

  /** The line `print_ip_address` prints for each variant. */
  function IpAddressLine(ip: IpAddr): (r: string)
    ensures |r| > 3 && r[3] == (if ip.V4? then '4' else '6')
  {
    match ip
    case V4(a, b, c, d) => "IPv4 地址: " + DottedQuad(a, b, c, d)
    case V6(s) => "IPv6 地址: " + s
  }

  /** The first piece of a dotted quad split at '.' is the first octet. */
  lemma {:induction false} DottedQuadFirstPiece(a: int, b: int, c: int, d: int)
    ensures FirstPiece(DottedQuad(a, b, c, d), '.') == Dec(a)
  {
    DottedQuadShape(a, b, c, d);
    DecHasNo(a, '.');
    FirstPieceOfJoin(Dec(a), '.', Dec(b) + ['.'] + (Dec(c) + ['.'] + Dec(d)));
  }

  /** The printed dotted quad names exactly one address. */
  lemma {:induction false} DottedQuadInjective(a1: int, b1: int, c1: int, d1: int, a2: int, b2: int, c2: int, d2: int)
    requires DottedQuad(a1, b1, c1, d1) == DottedQuad(a2, b2, c2, d2)
    ensures a1 == a2 && b1 == b2 && c1 == c2 && d1 == d2
  {
    DottedQuadShape(a1, b1, c1, d1);
    DottedQuadShape(a2, b2, c2, d2);
    var t1, t2 := Dec(c1) + ['.'] + Dec(d1), Dec(c2) + ['.'] + Dec(d2);
    DecThenUnique(a1, Dec(b1) + ['.'] + t1, a2, Dec(b2) + ['.'] + t2, '.');
    DecThenUnique(b1, t1, b2, t2, '.');
    DecThenUnique(c1, Dec(d1), c2, Dec(d2), '.');
    DecInjective(d1, d2);
  }

  lemma DottedQuadShape(a: int, b: int, c: int, d: int)
    ensures DottedQuad(a, b, c, d) == Dec(a) + ['.'] + (Dec(b) + ['.'] + (Dec(c) + ['.'] + Dec(d)))
  {
    var x, y, z, w := Dec(a), Dec(b), Dec(c), Dec(d);
    assert x + "." + y + "." + z + "." + w == x + ['.'] + (y + ['.'] + (z + ['.'] + w));
  }

  /** Different addresses print different lines: the "IPv4"/"IPv6" tag tells
      the variants apart and the rest gives back the fields. */
  lemma {:induction false} IpAddressLineInjective(p: IpAddr, q: IpAddr)
    requires IpAddressLine(p) == IpAddressLine(q)
    ensures p == q
  {
    assert IpAddressLine(p)[3] == IpAddressLine(q)[3];
    match p
    case V4(a1, b1, c1, d1) =>
      match q {
      case V4(a2, b2, c2, d2) =>
        StripPrefix("IPv4 地址: ", DottedQuad(a1, b1, c1, d1), DottedQuad(a2, b2, c2, d2));
        DottedQuadInjective(a1, b1, c1, d1, a2, b2, c2, d2);
      case V6(_) =>
      }
    case V6(s1) =>
      match q {
      case V6(s2) =>
        StripPrefix("IPv6 地址: ", s1, s2);
      case V4(_, _, _, _) =>
      }
  }

  /** `enum_with_data`: the two addresses of the lesson. */
  lemma IpAddressDemo()
    ensures IpAddressLine(V4(127, 0, 0, 1)) == "IPv4 地址: 127.0.0.1"
    ensures IpAddressLine(V6("::1")) == "IPv6 地址: ::1"
  {
    DecSmall();
  }

  // ---- Option -----------------------------------------------------------

  /** `option_enum`: `Some(5).unwrap()` is 5 and `None.unwrap_or(0)` is 0. */
  lemma OptionDemo()
    ensures Some(5).Unwrap() == 5
    ensures var absent: Option<int> := None; absent.UnwrapOr(0) == 0
  {
  }

  // ---- Result and `?` ---------------------------------------------------

  const DivideByZero: string := "除数不能为零"

  /** `divide`: an error for a zero divisor, otherwise the `i32` quotient
      rounded toward zero. `i32::MIN / -1` overflows and panics in Rust, so
      it is excluded. */
  function Divide(a: int, b: int): (r: Result<int, string>)
    requires IsI32(a) && IsI32(b) && !(a == I32_MIN && b == -1)
    ensures r.Err? <==> b == 0
    ensures r.Err? ==> r.error == DivideByZero
    ensures r.Ok? ==> (IsI32(r.value)
      && Abs(a - b * r.value) < Abs(b)
      && (a - b * r.value == 0 || (a - b * r.value < 0 <==> a < 0)))
  {
    if b == 0 then Err(DivideByZero)
    else
      TruncDivSpec(a, b);
      TruncDivInRange(a, b);
      Result.Ok(TruncDiv(a, b))
  }

  /** `calculate`: `?` hands `divide`'s error back unchanged; otherwise the
      quotient is doubled, which must not overflow `i32`. */
  function Calculate(a: int, b: int): (r: Result<int, string>)
    requires IsI32(a) && IsI32(b) && !(a == I32_MIN && b == -1)
    requires b != 0 ==> IsI32(2 * TruncDiv(a, b))
    ensures r.Err? <==> Divide(a, b).Err?
    ensures r.Err? ==> r == Divide(a, b)
    ensures r.Ok? ==> r.value == 2 * Divide(a, b).value
  {
    var intermediate :- Divide(a, b);
    Result.Ok(intermediate * 2)
  }

  /** `result_enum`: 10 / 2 is 5, 10 / 0 fails, and `calculate` doubles or
      propagates; -7 / 2 rounds toward zero. */
  lemma ResultDemo()
    ensures Divide(10, 2) == Result.Ok(5) && Divide(10, 0) == Err(DivideByZero)
    ensures Calculate(10, 2) == Result.Ok(10) && Calculate(10, 0) == Err(DivideByZero)
    ensures Divide(-7, 2) == Result.Ok(-3)
  {
  }
}
