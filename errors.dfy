/** Lesson 8, src/_08_error_handling.rs: custom error enums, `From`
    conversions that `?` applies, `map_err`, and early-return validators.
    Reading files is input/output and is not part of this model; an
    `io::Error` appears only as an opaque payload. */
module Errors {
  import opened Std
  import opened Str

  /** `std::io::Error`, carried but never inspected. */
  datatype StdIoError = StdIoError(message: string)

  // ---- custom_error_types -----------------------------------------------

  /** `enum CustomError`. */
  datatype CustomError = IoError(io: StdIoError) | ParseError(parse: ParseIntError) | InvalidInput(reason: string)

  /** `impl From<io::Error> for CustomError`: wraps the error unchanged. */
  function CustomFromIo(error: StdIoError): (r: CustomError)
    ensures r.IoError? && r.io == error
  {
    IoError(error)
  }

  /** `impl From<ParseIntError> for CustomError`: wraps the error unchanged;
      this is the conversion `?` applies in `process_input`. */
  function CustomFromParse(error: ParseIntError): (r: CustomError)
    ensures r.ParseError? && r.parse == error
  {
    ParseError(error)
  }

  const EmptyInput: string := "输入不能为空"
  const NotPositive: string := "输入必须为正数"

  /** `process_input`: the empty check comes before parsing, the parse error is
      converted by `?`, and a negative number is rejected after parsing. */
  function ProcessInput(input: string): (r: Result<int, CustomError>)
    ensures r == Err(InvalidInput(EmptyInput)) <==> input == []
    ensures r.Err? && r.error.ParseError? <==> input != [] && ParseI32(input).Err?
    ensures r.Err? && r.error.ParseError? ==> r.error.parse == ParseI32(input).error && r.error.parse.kind != Empty
    ensures r == Err(InvalidInput(NotPositive)) <==> input != [] && ParseI32(input).Ok? && ParseI32(input).value < 0
    ensures r.Ok? <==> input != [] && ParseI32(input).Ok? && ParseI32(input).value >= 0
    ensures r.Ok? ==> ParseI32(input) == Ok(r.value)
  {
    if input == [] then Err(InvalidInput(EmptyInput))
    else
      var number :- ParseI32(input).MapErr(CustomFromParse);
      if number < 0 then Err(InvalidInput(NotPositive))
      else Ok(number)
  }

  /** Every non-negative `i32`, written in decimal, is accepted as itself;
      every negative one is rejected as not positive. */
  lemma {:induction false} ProcessInputOfDec(n: int)
    requires IsI32(n)
    ensures n >= 0 ==> ProcessInput(Dec(n)) == Ok(n)
    ensures n < 0 ==> ProcessInput(Dec(n)) == Err(InvalidInput(NotPositive))
  {
    ParseI32OfDec(n);
  }

  /** The four test inputs of `custom_error_types`. */
  lemma ProcessInputDemo()
    ensures ProcessInput("42") == Ok(42)
    ensures ProcessInput("-1") == Err(InvalidInput(NotPositive))
    ensures ProcessInput("not a number") == Err(ParseError(ParseIntError(InvalidDigit)))
    ensures ProcessInput("") == Err(InvalidInput(EmptyInput))
  {
    DecOfSmall();
    ProcessInputOfDec(42);
    ProcessInputOfDec(-1);
  }

  lemma DecOfSmall()
    ensures Dec(42) == "42" && Dec(-1) == "-1"
  {
    assert NatToDecimal(4) == "4";
  }

  // ---- error_conversion -------------------------------------------------

  datatype NetworkError = NetworkError(message: string)

  /** `ApiError`: a `u32` code and a text. */
  datatype ApiError = ApiError(errorCode: nat, details: string)

  const NetworkPrefix: string := "网络错误: "
  const MapErrPrefix: string := "处理数据失败: "

  /** `impl From<NetworkError> for ApiError`: code 503 and the message behind
      a fixed prefix. */
  function ApiFromNetwork(error: NetworkError): (r: ApiError)
    ensures r.errorCode == 503
    ensures |NetworkPrefix| <= |r.details| && r.details[..|NetworkPrefix|] == NetworkPrefix
    ensures r.details[|NetworkPrefix|..] == error.message
  {
    ApiError(503, NetworkPrefix + error.message)
  }

  /** `fetch_data`: the simulated network always times out. */
  function FetchData(): (r: Result<string, NetworkError>)
    ensures r.Err?
  {
    Err(NetworkError("连接超时"))
  }

  /** The closure given to `map_err`: code 500 and the message behind a
      different prefix. */
  function MapNetworkError(e: NetworkError): (r: ApiError)
    ensures r.errorCode == 500
    ensures |MapErrPrefix| <= |r.details| && r.details[..|MapErrPrefix|] == MapErrPrefix
    ensures r.details[|MapErrPrefix|..] == e.message
  {
    ApiError(500, MapErrPrefix + e.message)
  }

  /** `process_data_map_err`, with what the network returned as a parameter:
      data passes through, a network error becomes a 500 carrying its
      message. */
  function ProcessDataMapErr(fetched: Result<string, NetworkError>): (r: Result<string, ApiError>)
    ensures fetched.Ok? ==> r == Ok(fetched.value)
    ensures fetched.Err? ==> (r.Err? && r.error.errorCode == 500
      && r.error.details == MapErrPrefix + fetched.error.message)
  {
    fetched.MapErr(MapNetworkError)
  }

  /** With the lesson's `fetch_data` the result is always the 500 error, and
      it differs from what the `From` conversion would have produced. */
  lemma ProcessDataMapErrDemo()
    ensures ProcessDataMapErr(FetchData()) == Err(ApiError(500, "处理数据失败: 连接超时"))
    ensures ApiFromNetwork(FetchData().error) == ApiError(503, "网络错误: 连接超时")
  {
    assert MapErrPrefix + "连接超时" == "处理数据失败: 连接超时";
  }

  // ---- error_chaining ---------------------------------------------------

  /** `enum DataError`. */
  datatype DataError = Parse(parse: ParseIntError) | Validation(reason: string)

  /** `enum ServiceError`. */
  datatype ServiceError = Data(data: DataError) | Io(io: StdIoError) | Unexpected(reason: string)

  /** `impl From<ParseIntError> for DataError`. */
  function DataFromParse(err: ParseIntError): (r: DataError)
    ensures r.Parse? && r.parse == err
  {
    Parse(err)
  }

  /** `impl From<DataError> for ServiceError`: the chain keeps the inner error. */
  function ServiceFromData(err: DataError): (r: ServiceError)
    ensures r.Data? && r.data == err
  {
    Data(err)
  }

  const MustBePositive: string := "数值必须为正数"

  /** `parse_data`: parse with `?` (converting to `DataError::Parse`), then
      reject a negative number. There is no separate empty check. */
  function ParseData(data: string): (r: Result<int, DataError>)
    ensures r.Err? && r.error.Parse? <==> ParseI32(data).Err?
    ensures r.Err? && r.error.Parse? ==> r.error.parse == ParseI32(data).error
    ensures r == Err(Validation(MustBePositive)) <==> ParseI32(data).Ok? && ParseI32(data).value < 0
    ensures r.Ok? ==> ParseI32(data) == Ok(r.value) && r.value >= 0
  {
    var num :- ParseI32(data).MapErr(DataFromParse);
    if num < 0 then Err(Validation(MustBePositive))
    else Ok(num)
  }

  /** `parse_data` and `process_input` accept the same inputs with the same
      values and fail on the same parse errors; they differ only on the
      empty string, which `process_input` rejects before parsing. */
  lemma ParseDataAgreesWithProcessInput(s: string)
    ensures s != [] ==> (ParseData(s).Ok? <==> ProcessInput(s).Ok?)
    ensures s != [] && ParseData(s).Ok? ==> ParseData(s).value == ProcessInput(s).value
    ensures s != [] && ParseData(s).Err? && ParseData(s).error.Parse? ==>
      ProcessInput(s) == Err(ParseError(ParseData(s).error.parse))
    ensures s == [] ==> (ParseData(s) == Err(Parse(ParseIntError(Empty)))
      && ProcessInput(s) == Err(InvalidInput(EmptyInput)))
  {
  }

  /** `error_chaining`: "not a number" fails in the parser, and lifting the
      error into a `ServiceError` keeps it inside. */
  lemma ParseDataDemo()
    ensures ParseData("not a number") == Err(Parse(ParseIntError(InvalidDigit)))
    ensures ServiceFromData(ParseData("not a number").error) == Data(Parse(ParseIntError(InvalidDigit)))
  {
  }

  // ---- best_practices ---------------------------------------------------

  /** `enum UserError`. */
  datatype UserError = InvalidUsername(name: string) | InvalidPasswordLength

  const UsernameOpen: string := "无效的用户名: '"
  const UsernameClose: string := "'. 用户名必须至少包含 3 个字符."
  const PasswordMessage: string := "无效的密码长度. 密码必须至少包含 8 个字符."

  /** `impl Display for UserError`: the rejected name quoted inside a fixed
      text, or the fixed password text. */
  function UserErrorMessage(e: UserError): (r: string)
    ensures e.InvalidUsername? ==>
      && |r| == |UsernameOpen| + |e.name| + |UsernameClose|
      && r[..|UsernameOpen|] == UsernameOpen
      && r[|UsernameOpen|..|UsernameOpen| + |e.name|] == e.name
      && r[|UsernameOpen| + |e.name|..] == UsernameClose
    ensures e == InvalidPasswordLength ==> r == PasswordMessage
  {
    match e
    case InvalidUsername(name) => UsernameOpen + name + UsernameClose
    case InvalidPasswordLength => PasswordMessage
  }

  /** The two messages are told apart by their fourth character, and the name
      can be read back, so different errors display differently. */
  lemma {:induction false} UserErrorMessageInjective(a: UserError, b: UserError)
    requires UserErrorMessage(a) == UserErrorMessage(b)
    ensures a == b
  {
    assert UserErrorMessage(a)[3] == UserErrorMessage(b)[3];
    if a.InvalidUsername? && b.InvalidUsername? {
      var m := UserErrorMessage(a);
      assert |a.name| == |b.name|;
      assert a.name == m[|UsernameOpen|..|UsernameOpen| + |a.name|] == b.name;
    }
  }

  /** The messages `best_practices` prints: the fixed password text, and the
      name "bo" quoted in the username text. */
  lemma UserErrorMessageDemo()
    ensures UserErrorMessage(InvalidPasswordLength) == "无效的密码长度. 密码必须至少包含 8 个字符."
    ensures UserErrorMessage(InvalidUsername("bo")) == "无效的用户名: 'bo'. 用户名必须至少包含 3 个字符."
  {
    var m := UserErrorMessage(InvalidUsername("bo"));
    assert m == UsernameOpen + "bo" + UsernameClose;
    assert UsernameOpen + "bo" == "无效的用户名: 'bo";
  }

  /** `create_user` as written: `len()` counts UTF-8 bytes. The username is
      checked first, so a short username hides a short password. */
  function CreateUser(username: string, password: string): (r: Result<(), UserError>)
    ensures r == Err(InvalidUsername(username)) <==> Utf8Len(username) < 3
    ensures r == Err(InvalidPasswordLength) <==> Utf8Len(username) >= 3 && Utf8Len(password) < 8
    ensures r.Ok? <==> Utf8Len(username) >= 3 && Utf8Len(password) >= 8
  {
    if Utf8Len(username) < 3 then Err(InvalidUsername(username))
    else if Utf8Len(password) < 8 then Err(InvalidPasswordLength)
    else Ok(())
  }

  /** The first test case of `best_practices`: both limits are met. */
  lemma CreateUserAlice()
    ensures CreateUser("alice", "password123") == Ok(())
  {
    Utf8LenAscii("alice");
    Utf8LenAscii("password123");
  }

  /** The second test case: the two-letter username is rejected. */
  lemma CreateUserBo()
    ensures CreateUser("bo", "password123") == Err(InvalidUsername("bo"))
  {
    Utf8LenAscii("bo");
  }

  /** The third test case: the four-letter password is too short. */
  lemma CreateUserCharlie()
    ensures CreateUser("charlie", "pass") == Err(InvalidPasswordLength)
  {
    Utf8LenAscii("charlie");
    Utf8LenAscii("pass");
  }

  /** The messages promise "at least 3 characters" and "at least 8
      characters", but the checks count bytes: a two-character Chinese
      username and a four-character Chinese password are both accepted. */
  lemma CreateUserCountsBytes()
    ensures |"张三"| == 2 && |"密码密码"| == 4
    ensures CreateUser("张三", "密码密码") == Ok(())
  {
    assert Utf8Len("张三") == 6;
    assert Utf8Len("密码密码") == 12;
  }

  /** `create_user` with the limits the messages state, counting characters:
      the same order of checks. */
  function CreateUserByChars(username: string, password: string): (r: Result<(), UserError>)
    ensures r == Err(InvalidUsername(username)) <==> |username| < 3
    ensures r == Err(InvalidPasswordLength) <==> |username| >= 3 && |password| < 8
    ensures r.Ok? <==> |username| >= 3 && |password| >= 8
  {
    if |username| < 3 then Err(InvalidUsername(username))
    else if |password| < 8 then Err(InvalidPasswordLength)
    else Ok(())
  }

  /** The corrected check agrees with the original on ASCII text, which is all
      the lesson's own test cases use, and rejects the two-character name. */
  lemma {:induction false} CreateUserByCharsAgreesOnAscii(username: string, password: string)
    requires forall i :: 0 <= i < |username| ==> (username[i] as int) < 0x80
    requires forall i :: 0 <= i < |password| ==> (password[i] as int) < 0x80
    ensures CreateUserByChars(username, password) == CreateUser(username, password)
    ensures CreateUserByChars("张三", "密码密码") == Err(InvalidUsername("张三"))
  {
    Utf8LenAscii(username);
    Utf8LenAscii(password);
  }
}
