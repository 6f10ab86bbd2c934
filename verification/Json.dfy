/**
 The JSON value type, its printer and its recursive-descent parser.

 The parser functions work on the text still to be read and return what is left
 of it; class `Parser` in JsonParser.dfy is the original cursor over an array of characters,
 and each of its methods is proved to be the function of the same name.
 */
module Json {

  import opened Wrappers

  const I64_MIN: int := -0x8000_0000_0000_0000
  const I64_MAX: int := 0x7FFF_FFFF_FFFF_FFFF

  datatype JsonValue =
    | Null
    | Bool(flag: bool)
    | Number(number: int)
    | Str(text: string)
    | Array(values: seq<JsonValue>)
    | Object(entries: seq<Entry>)

  datatype Entry = Entry(key: string, value: JsonValue)

  datatype JsonError =
    | UnexpectedCharacter(c: char)
    | UnexpectedEnd
    | InvalidLiteral(expected: string)
    | UnterminatedString
    | InvalidEscape(c: char)
    | EndInEscape
    | EndInUnicodeEscape
    | InvalidScalar
    | InvalidNumber
    | NumberOutOfRange
    | Expected(c: char)
    | TrailingContent

  /** Outcome of a parsing step: the value and the text after it, or the error. */
  datatype Parsed<+T> = Got(value: T, rest: string) | Fail(error: JsonError)

  // ---------------------------------------------------------------- the value type

  /** Code point order on strings, the order of the keys of an object. */
  predicate Less(a: string, b: string) {
    if b == [] then false
    else if a == [] then true
    else a[0] < b[0] || (a[0] == b[0] && Less(a[1..], b[1..]))
  }

  /** An object is an ordered map: its entries are kept strictly increasing by key. */
  ghost predicate Sorted(entries: seq<Entry>) {
    forall i, j :: 0 <= i < j < |entries| ==> Less(entries[i].key, entries[j].key)
  }

  /** What the type system of the original guarantees of every value. */
  ghost predicate Valid(v: JsonValue) {
    match v
    case Number(n) => I64_MIN <= n <= I64_MAX
    case Array(values) => forall i :: 0 <= i < |values| ==> Valid(values[i])
    case Object(entries) => Sorted(entries) && forall i :: 0 <= i < |entries| ==> Valid(entries[i].value)
    case _ => true
  }

  /** Ordered-map insertion: replaces the value of a present key. */
  function Insert(entries: seq<Entry>, key: string, value: JsonValue): (r: seq<Entry>) {
    if entries == [] then [Entry(key, value)]
    else if entries[0].key == key then [Entry(key, value)] + entries[1..]
    else if Less(key, entries[0].key) then [Entry(key, value)] + entries
    else [entries[0]] + Insert(entries[1..], key, value)
  }

  function Lookup(entries: seq<Entry>, key: string): (r: Option<JsonValue>) {
    if entries == [] then None
    else if entries[0].key == key then Some(entries[0].value)
    else Lookup(entries[1..], key)
  }

  // ---------------------------------------------------------------- printing

  function Digit(d: nat): char
    requires d < 10
  {
    '0' + d as char
  }

  predicate IsDigit(c: char) {
    '0' <= c <= '9'
  }

  function Digits(n: nat): (r: string)
    ensures r != [] && forall i :: 0 <= i < |r| ==> IsDigit(r[i])
  {
    if n < 10 then [Digit(n)] else Digits(n / 10) + [Digit(n % 10)]
  }

  function RenderNumber(n: int): string {
    if n < 0 then "-" + Digits(-n) else Digits(n)
  }

  /** The control characters: U+0000 to U+001F and U+007F to U+009F. */
  predicate IsControl(c: char) {
    c <= '\U{1F}' || '\U{7F}' <= c <= '\U{9F}'
  }

  function HexDigit(d: nat): char
    requires d < 16
  {
    if d < 10 then '0' + d as char else 'a' + (d - 10) as char
  }

  function UnicodeEscape(c: char): string
    requires c < '\U{10000}'
  {
    var v := c as int;
    "\\u" + [HexDigit(v / 0x1000), HexDigit(v / 0x100 % 0x10), HexDigit(v / 0x10 % 0x10), HexDigit(v % 0x10)]
  }

  function RenderChar(c: char): string {
    if c == '"' then "\\\""
    else if c == '\\' then "\\\\"
    else if c == '\n' then "\\n"
    else if c == '\r' then "\\r"
    else if c == '\t' then "\\t"
    else if c == '\U{08}' then "\\b"
    else if c == '\U{0C}' then "\\f"
    else if IsControl(c) then UnicodeEscape(c)
    else [c]
  }

  function RenderChars(s: string): string {
    if s == [] then [] else RenderChar(s[0]) + RenderChars(s[1..])
  }

  function RenderString(s: string): string {
    "\"" + RenderChars(s) + "\""
  }

  function Render(v: JsonValue): string {
    match v
    case Null => "null"
    case Bool(flag) => if flag then "true" else "false"
    case Number(n) => RenderNumber(n)
    case Str(s) => RenderString(s)
    case Array(values) => "[" + RenderValues(values) + "]"
    case Object(entries) => "{" + RenderEntries(entries) + "}"
  }

  function RenderValues(values: seq<JsonValue>): string {
    if values == [] then []
    else if |values| == 1 then Render(values[0])
    else Render(values[0]) + "," + RenderValues(values[1..])
  }

  function RenderEntry(e: Entry): string {
    RenderString(e.key) + ":" + Render(e.value)
  }

  function RenderEntries(entries: seq<Entry>): string {
    if entries == [] then []
    else if |entries| == 1 then RenderEntry(entries[0])
    else RenderEntry(entries[0]) + "," + RenderEntries(entries[1..])
  }

  // ---------------------------------------------------------------- parsing

  predicate IsSpace(c: char) {
    c == ' ' || c == '\n' || c == '\r' || c == '\t'
  }

  function SkipSpace(s: string): (r: string)
    ensures |r| <= |s|
    ensures r == [] || !IsSpace(r[0])
  {
    if s != [] && IsSpace(s[0]) then SkipSpace(s[1..]) else s
  }

  predicate StartsWith(s: string, c: char) {
    s != [] && s[0] == c
  }

  function ParseLiteral(s: string, expected: string, value: JsonValue): (r: Parsed<JsonValue>)
    requires expected != []
    ensures r.Got? ==> |r.rest| < |s|
  {
    if expected <= s then Got(value, s[|expected|..]) else Fail(InvalidLiteral(expected))
  }

  function HexValue(c: char): (r: Option<nat>)
    ensures r.Some? ==> r.value < 16
  {
    if '0' <= c <= '9' then Some((c as int - '0' as int) as nat)
    else if 'a' <= c <= 'f' then Some((c as int - 'a' as int + 10) as nat)
    else if 'A' <= c <= 'F' then Some((c as int - 'A' as int + 10) as nat)
    else None
  }

  /** Reads `count` hexadecimal digits after those already worth `value`. */
  function ParseHex(s: string, count: nat, value: nat): (r: Parsed<nat>)
    ensures r.Got? ==> |r.rest| <= |s|
  {
    if count == 0 then Got(value, s)
    else if s == [] then Fail(EndInUnicodeEscape)
    else if HexValue(s[0]).None? then Fail(InvalidScalar)
    else ParseHex(s[1..], count - 1, value * 16 + HexValue(s[0]).value)
  }

  predicate IsScalar(v: nat) {
    v < 0xD800 || 0xE000 <= v < 0x11_0000
  }

  function ParseEscape(s: string): (r: Parsed<char>)
    ensures r.Got? ==> |r.rest| < |s|
  {
    if s == [] then Fail(EndInEscape)
    else if s[0] == '"' || s[0] == '\\' || s[0] == '/' then Got(s[0], s[1..])
    else if s[0] == 'b' then Got('\U{08}', s[1..])
    else if s[0] == 'f' then Got('\U{0C}', s[1..])
    else if s[0] == 'n' then Got('\n', s[1..])
    else if s[0] == 'r' then Got('\r', s[1..])
    else if s[0] == 't' then Got('\t', s[1..])
    else if s[0] != 'u' then Fail(InvalidEscape(s[0]))
    else
      match ParseHex(s[1..], 4, 0)
      case Fail(e) => Fail(e)
      case Got(v, rest) => if IsScalar(v) then Got(v as char, rest) else Fail(InvalidScalar)
  }

  /** The characters up to the closing quote, appended to those already read. */
  function ParseChars(s: string, read: string): (r: Parsed<string>)
    ensures r.Got? ==> |r.rest| < |s|
    decreases |s|
  {
    if s == [] then Fail(UnterminatedString)
    else if s[0] == '"' then Got(read, s[1..])
    else if s[0] != '\\' then ParseChars(s[1..], read + [s[0]])
    else
      match ParseEscape(s[1..])
      case Fail(e) => Fail(e)
      case Got(c, rest) => ParseChars(rest, read + [c])
  }

  function ParseString(s: string): (r: Parsed<string>)
    ensures r.Got? ==> |r.rest| < |s|
  {
    if StartsWith(s, '"') then ParseChars(s[1..], []) else Fail(Expected('"'))
  }

  function DigitRun(s: string): (r: nat)
    ensures r <= |s|
    ensures forall i :: 0 <= i < r ==> IsDigit(s[i])
    ensures r == |s| || !IsDigit(s[r])
  {
    if s != [] && IsDigit(s[0]) then 1 + DigitRun(s[1..]) else 0
  }

  function DigitsValue(s: string): nat
    requires forall i :: 0 <= i < |s| ==> IsDigit(s[i])
  {
    if s == [] then 0
    else
      assert IsDigit(s[|s| - 1]);
      DigitsValue(s[..|s| - 1]) * 10 + (s[|s| - 1] as int - '0' as int)
  }

  /** Signed decimal text to a 64-bit integer; nothing when it does not fit. */
  function ParseI64(text: string): (r: Option<int>)
    requires forall i :: (if StartsWith(text, '-') then 1 else 0) <= i < |text| ==> IsDigit(text[i])
    ensures r.Some? ==> I64_MIN <= r.value <= I64_MAX
  {
    var value: int := if StartsWith(text, '-') then -(DigitsValue(text[1..]) as int) else DigitsValue(text);
    if I64_MIN <= value <= I64_MAX then Some(value) else None
  }

  function ParseNumber(s: string): (r: Parsed<int>)
    ensures r.Got? ==> |r.rest| < |s| && I64_MIN <= r.value <= I64_MAX
  {
    var sign := if StartsWith(s, '-') then 1 else 0;
    var n := DigitRun(s[sign..]);
    if n == 0 then Fail(InvalidNumber)
    else
      match ParseI64(s[..sign + n])
      case None => Fail(NumberOutOfRange)
      case Some(value) => Got(value, s[sign + n..])
  }

  function ParseValue(s: string): (r: Parsed<JsonValue>)
    ensures r.Got? ==> |r.rest| < |s|
    decreases |s|, 1
  {
    var t := SkipSpace(s);
    if t == [] then Fail(UnexpectedEnd)
    else if t[0] == 'n' then ParseLiteral(t, "null", Null)
    else if t[0] == 't' then ParseLiteral(t, "true", Bool(true))
    else if t[0] == 'f' then ParseLiteral(t, "false", Bool(false))
    else if t[0] == '"' then
      (match ParseString(t)
       case Fail(e) => Fail(e)
       case Got(text, rest) => Got(Str(text), rest))
    else if t[0] == '[' then
      (match ParseElements(t[1..], [])
       case Fail(e) => Fail(e)
       case Got(values, rest) => Got(Array(values), rest))
    else if t[0] == '{' then
      (match ParseMembers(t[1..], [])
       case Fail(e) => Fail(e)
       case Got(entries, rest) => Got(Object(entries), rest))
    else if t[0] == '-' || IsDigit(t[0]) then
      (match ParseNumber(t)
       case Fail(e) => Fail(e)
       case Got(n, rest) => Got(Number(n), rest))
    else Fail(UnexpectedCharacter(t[0]))
  }

  /** The array loop, after the opening bracket or a comma. */
  function ParseElements(s: string, read: seq<JsonValue>): (r: Parsed<seq<JsonValue>>)
    ensures r.Got? ==> |r.rest| < |s|
    decreases |s|, 2
  {
    var t := SkipSpace(s);
    if StartsWith(t, ']') then Got(read, t[1..])
    else
      match ParseValue(t)
      case Fail(e) => Fail(e)
      case Got(v, rest) =>
        var u := SkipSpace(rest);
        if StartsWith(u, ']') then Got(read + [v], u[1..])
        else if StartsWith(u, ',') then ParseElements(u[1..], read + [v])
        else Fail(Expected(','))
  }

  /** One key, its colon and its value. */
  function ParseMember(s: string): (r: Parsed<Entry>)
    ensures r.Got? ==> |r.rest| < |s|
    decreases |s|, 2
  {
    match ParseString(s)
    case Fail(e) => Fail(e)
    case Got(key, afterKey) =>
      var c := SkipSpace(afterKey);
      if !StartsWith(c, ':') then Fail(Expected(':'))
      else
        match ParseValue(c[1..])
        case Fail(e) => Fail(e)
        case Got(v, rest) => Got(Entry(key, v), rest)
  }

  /** The object loop, after the opening brace or a comma. */
  function ParseMembers(s: string, read: seq<Entry>): (r: Parsed<seq<Entry>>)
    ensures r.Got? ==> |r.rest| < |s|
    decreases |s|, 3
  {
    var t := SkipSpace(s);
    if StartsWith(t, '}') then Got(read, t[1..])
    else
      match ParseMember(t)
      case Fail(e) => Fail(e)
      case Got(member, rest) =>
        var u := SkipSpace(rest);
        var more := Insert(read, member.key, member.value);
        if StartsWith(u, '}') then Got(more, u[1..])
        else if StartsWith(u, ',') then ParseMembers(u[1..], more)
        else Fail(Expected(','))
  }

  function Parse(source: string): Result<JsonValue, JsonError> {
    match ParseValue(source)
    case Fail(e) => Err(e)
    case Got(v, rest) => if SkipSpace(rest) == [] then Ok(v) else Err(TrailingContent)
  }
}
