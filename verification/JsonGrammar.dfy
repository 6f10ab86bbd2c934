/**
 The texts the JSON parser accepts, described without the parser: a syntax tree for every way
 of writing a value, with its spaces, its escapes and its trailing commas. The parser accepts
 exactly the texts of these trees, and gives what they mean.
 */
module JsonGrammar {

  import opened Wrappers
  import opened Json

  // ---------------------------------------------------------------- the trees

  /** A hexadecimal digit, written small or capital. */
  datatype Hex = Hex(value: nat, capital: bool)

  /** One character of a string: as it is, by a short escape, or by its number. */
  datatype Piece = Raw(c: char) | Short(name: char) | Code(first: Hex, second: Hex, third: Hex, fourth: Hex)

  datatype Syntax =
    | NullText
    | TrueText
    | FalseText
    | NumberText(negative: bool, digits: seq<nat>)
    | StringText(pieces: seq<Piece>)
    | ArrayText(items: Items)
    | ObjectText(members: Members)

  /** What follows an opening bracket or a comma in an array. */
  datatype Items =
    | NoItem(space: string)
    | LastItem(before: string, item: Syntax, after: string)
    | MoreItems(before: string, item: Syntax, after: string, rest: Items)

  datatype Member = Member(before: string, key: seq<Piece>, beforeColon: string, afterColon: string, value: Syntax)

  datatype Members =
    | NoMember(space: string)
    | LastMember(member: Member, after: string)
    | MoreMembers(member: Member, after: string, rest: Members)

  // ---------------------------------------------------------------- which trees there are

  predicate Blank(s: string) {
    forall i :: 0 <= i < |s| ==> s[i] == ' ' || s[i] == '\n' || s[i] == '\r' || s[i] == '\t'
  }

  function CodeOf(a: Hex, b: Hex, c: Hex, d: Hex): nat {
    ((a.value * 16 + b.value) * 16 + c.value) * 16 + d.value
  }

  predicate PieceOk(p: Piece) {
    match p
    case Raw(c) => c != '"' && c != '\\'
    case Short(name) =>
      || name == '"' || name == '\\' || name == '/'
      || name == 'b' || name == 'f' || name == 'n' || name == 'r' || name == 't'
    case Code(a, b, c, d) =>
      && a.value < 16 && b.value < 16 && c.value < 16 && d.value < 16
      && (CodeOf(a, b, c, d) < 0xD800 || 0xDFFF < CodeOf(a, b, c, d))
  }

  predicate PiecesOk(pieces: seq<Piece>) {
    forall i :: 0 <= i < |pieces| ==> PieceOk(pieces[i])
  }

  function Decimal(digits: seq<nat>): nat {
    if digits == [] then 0 else Decimal(digits[..|digits| - 1]) * 10 + digits[|digits| - 1]
  }

  function Signed(negative: bool, digits: seq<nat>): int {
    if negative then -(Decimal(digits) as int) else Decimal(digits)
  }

  predicate Proper(c: Syntax) {
    match c
    case NumberText(negative, digits) =>
      && digits != [] && (forall i :: 0 <= i < |digits| ==> digits[i] < 10)
      && -0x8000_0000_0000_0000 <= Signed(negative, digits) <= 0x7FFF_FFFF_FFFF_FFFF
    case StringText(pieces) => PiecesOk(pieces)
    case ArrayText(items) => ItemsOk(items)
    case ObjectText(members) => MembersOk(members)
    case _ => true
  }

  predicate ItemsOk(items: Items) {
    match items
    case NoItem(space) => Blank(space)
    case LastItem(before, item, after) => Blank(before) && Proper(item) && Blank(after)
    case MoreItems(before, item, after, rest) => Blank(before) && Proper(item) && Blank(after) && ItemsOk(rest)
  }

  predicate MemberOk(m: Member) {
    Blank(m.before) && PiecesOk(m.key) && Blank(m.beforeColon) && Blank(m.afterColon) && Proper(m.value)
  }

  predicate MembersOk(members: Members) {
    match members
    case NoMember(space) => Blank(space)
    case LastMember(member, after) => MemberOk(member) && Blank(after)
    case MoreMembers(member, after, rest) => MemberOk(member) && Blank(after) && MembersOk(rest)
  }

  // ---------------------------------------------------------------- their texts

  const SMALL := "0123456789abcdef"
  const CAPITAL := "0123456789ABCDEF"

  function HexText(h: Hex): char {
    if h.value >= 16 then '?' else if h.capital then CAPITAL[h.value] else SMALL[h.value]
  }

  function PieceText(p: Piece): string {
    match p
    case Raw(c) => [c]
    case Short(name) => ['\\', name]
    case Code(a, b, c, d) => ['\\', 'u', HexText(a), HexText(b), HexText(c), HexText(d)]
  }

  function PiecesText(pieces: seq<Piece>): string {
    if pieces == [] then [] else PieceText(pieces[0]) + PiecesText(pieces[1..])
  }

  function QuotedText(pieces: seq<Piece>): string {
    "\"" + (PiecesText(pieces) + "\"")
  }

  function DigitText(d: nat): char {
    if d < 10 then SMALL[d] else '?'
  }

  function DigitsText(digits: seq<nat>): (r: string)
    ensures |r| == |digits| && forall i :: 0 <= i < |r| ==> r[i] == DigitText(digits[i])
  {
    seq(|digits|, i requires 0 <= i < |digits| => DigitText(digits[i]))
  }

  function Text(c: Syntax): string {
    match c
    case NullText => "null"
    case TrueText => "true"
    case FalseText => "false"
    case NumberText(negative, digits) => (if negative then "-" else "") + DigitsText(digits)
    case StringText(pieces) => QuotedText(pieces)
    case ArrayText(items) => "[" + ItemsText(items)
    case ObjectText(members) => "{" + MembersText(members)
  }

  function ItemsText(items: Items): string {
    match items
    case NoItem(space) => space + "]"
    case LastItem(before, item, after) => before + (Text(item) + (after + "]"))
    case MoreItems(before, item, after, rest) => before + (Text(item) + (after + ("," + ItemsText(rest))))
  }

  function MemberText(m: Member): string {
    m.before + (QuotedText(m.key) + (m.beforeColon + (":" + (m.afterColon + Text(m.value)))))
  }

  function MembersText(members: Members): string {
    match members
    case NoMember(space) => space + "}"
    case LastMember(member, after) => MemberText(member) + (after + "}")
    case MoreMembers(member, after, rest) => MemberText(member) + (after + ("," + MembersText(rest)))
  }

  // ---------------------------------------------------------------- what they mean

  function PieceMeaning(p: Piece): char
    requires PieceOk(p)
  {
    match p
    case Raw(c) => c
    case Short(name) =>
      if name == 'b' then '\U{08}'
      else if name == 'f' then '\U{0C}'
      else if name == 'n' then '\n'
      else if name == 'r' then '\r'
      else if name == 't' then '\t'
      else name
    case Code(a, b, c, d) => CodeOf(a, b, c, d) as char
  }

  function PiecesMeaning(pieces: seq<Piece>): string
    requires PiecesOk(pieces)
  {
    if pieces == [] then [] else [PieceMeaning(pieces[0])] + PiecesMeaning(pieces[1..])
  }

  function Meaning(c: Syntax): JsonValue
    requires Proper(c)
  {
    match c
    case NullText => Null
    case TrueText => Bool(true)
    case FalseText => Bool(false)
    case NumberText(negative, digits) => Number(Signed(negative, digits))
    case StringText(pieces) => Str(PiecesMeaning(pieces))
    case ArrayText(items) => Array(ItemsMeaning(items))
    case ObjectText(members) => Object(MembersMeaning(members, []))
  }

  function ItemsMeaning(items: Items): seq<JsonValue>
    requires ItemsOk(items)
  {
    match items
    case NoItem(_) => []
    case LastItem(_, item, _) => [Meaning(item)]
    case MoreItems(_, item, _, rest) => [Meaning(item)] + ItemsMeaning(rest)
  }

  function Put(entries: seq<Entry>, e: Entry): seq<Entry> {
    Insert(entries, e.key, e.value)
  }

  function MemberMeaning(m: Member): Entry
    requires MemberOk(m)
  {
    Entry(PiecesMeaning(m.key), Meaning(m.value))
  }

  /** The members put into a map one after the other: of a repeated key the last value counts. */
  function MembersMeaning(members: Members, read: seq<Entry>): seq<Entry>
    requires MembersOk(members)
  {
    match members
    case NoMember(_) => read
    case LastMember(m, _) => Put(read, MemberMeaning(m))
    case MoreMembers(m, _, rest) => MembersMeaning(rest, Put(read, MemberMeaning(m)))
  }

  // ---------------------------------------------------------------- spaces

  lemma {:induction false} BlankSkipped(space: string, rest: string)
    requires Blank(space) && (rest == [] || !Blank(rest[..1]))
    ensures SkipSpace(space + rest) == rest
  {
    if space == [] {
      assert space + rest == rest;
      assert rest != [] ==> rest[..1][0] == rest[0];
    } else {
      assert (space + rest)[1..] == space[1..] + rest;
      BlankSkipped(space[1..], rest);
    }
  }

  lemma {:induction false} SkippedBlank(s: string) returns (space: string)
    ensures Blank(space) && s == space + SkipSpace(s)
    ensures SkipSpace(s) != [] ==> !Blank(SkipSpace(s)[..1])
  {
    if s != [] && IsSpace(s[0]) {
      space := SkippedBlank(s[1..]);
      space := [s[0]] + space;
    } else {
      space := [];
      assert s != [] ==> s[..1][0] == s[0];
    }
  }

  // ---------------------------------------------------------------- strings

  lemma HexTextValue(h: Hex)
    requires h.value < 16
    ensures HexValue(HexText(h)) == Some(h.value)
  {
  }

  lemma HexCharRead(c: char, v: nat, rest: string, count: nat, value: nat)
    requires HexValue(c) == Some(v) && count > 0
    ensures ParseHex([c] + rest, count, value) == ParseHex(rest, count - 1, value * 16 + v)
  {
    assert ([c] + rest)[1..] == rest;
  }

  lemma FourRead(c0: char, c1: char, c2: char, c3: char, v0: nat, v1: nat, v2: nat, v3: nat, rest: string)
    requires HexValue(c0) == Some(v0) && HexValue(c1) == Some(v1)
    requires HexValue(c2) == Some(v2) && HexValue(c3) == Some(v3)
    ensures ParseHex([c0, c1, c2, c3] + rest, 4, 0) == Got(((v0 * 16 + v1) * 16 + v2) * 16 + v3, rest)
  {
    var s3 := [c3] + rest;
    var s2 := [c2] + s3;
    var s1 := [c1] + s2;
    assert [c0, c1, c2, c3] + rest == [c0] + s1;
    HexCharRead(c0, v0, s1, 4, 0);
    HexCharRead(c1, v1, s2, 3, v0);
    HexCharRead(c2, v2, s3, 2, v0 * 16 + v1);
    HexCharRead(c3, v3, rest, 1, (v0 * 16 + v1) * 16 + v2);
  }

  lemma CodeRead(a: Hex, b: Hex, c: Hex, d: Hex, rest: string)
    requires a.value < 16 && b.value < 16 && c.value < 16 && d.value < 16
    ensures ParseHex([HexText(a), HexText(b), HexText(c), HexText(d)] + rest, 4, 0) == Got(CodeOf(a, b, c, d), rest)
  {
    HexTextValue(a);
    HexTextValue(b);
    HexTextValue(c);
    HexTextValue(d);
    FourRead(HexText(a), HexText(b), HexText(c), HexText(d), a.value, b.value, c.value, d.value, rest);
  }

  lemma EscapeRead(p: Piece, rest: string)
    requires PieceOk(p) && !p.Raw?
    ensures ParseEscape(PieceText(p)[1..] + rest) == Got(PieceMeaning(p), rest)
  {
    var s := PieceText(p)[1..] + rest;
    match p
    case Short(name) => assert s[0] == name && s[1..] == rest;
    case Code(a, b, c, d) =>
      assert s[0] == 'u' && s[1..] == [HexText(a), HexText(b), HexText(c), HexText(d)] + rest;
      CodeRead(a, b, c, d, rest);
  }

  lemma PieceRead(p: Piece, rest: string, read: string)
    requires PieceOk(p)
    ensures ParseChars(PieceText(p) + rest, read) == ParseChars(rest, read + [PieceMeaning(p)])
  {
    var s := PieceText(p) + rest;
    if p.Raw? {
      assert s[0] == p.c && s[1..] == rest;
    } else {
      EscapeRead(p, rest);
      assert s[0] == '\\' && s[1..] == PieceText(p)[1..] + rest;
    }
  }

  lemma {:induction false} PiecesRead(pieces: seq<Piece>, rest: string, read: string)
    requires PiecesOk(pieces)
    ensures ParseChars(PiecesText(pieces) + "\"" + rest, read) == Got(read + PiecesMeaning(pieces), rest)
  {
    if pieces == [] {
      var s := PiecesText(pieces) + "\"" + rest;
      assert s[0] == '"' && s[1..] == rest;
      assert read + [] == read;
    } else {
      var tail := PiecesText(pieces[1..]) + "\"" + rest;
      assert PiecesText(pieces) + "\"" + rest == PieceText(pieces[0]) + tail;
      PieceRead(pieces[0], tail, read);
      PiecesRead(pieces[1..], rest, read + [PieceMeaning(pieces[0])]);
      assert read + [PieceMeaning(pieces[0])] + PiecesMeaning(pieces[1..]) == read + PiecesMeaning(pieces);
    }
  }

  lemma QuotedRead(pieces: seq<Piece>, rest: string)
    requires PiecesOk(pieces)
    ensures ParseString(QuotedText(pieces) + rest) == Got(PiecesMeaning(pieces), rest)
  {
    var s := QuotedText(pieces) + rest;
    assert s[0] == '"' && s[1..] == PiecesText(pieces) + "\"" + rest;
    PiecesRead(pieces, rest, []);
    assert [] + PiecesMeaning(pieces) == PiecesMeaning(pieces);
  }

  // ---------------------------------------------------------------- numbers

  predicate DigitAhead(rest: string) {
    rest != [] && '0' <= rest[0] <= '9'
  }

  lemma {:induction false} DigitsMean(digits: seq<nat>)
    requires forall i :: 0 <= i < |digits| ==> digits[i] < 10
    ensures forall i :: 0 <= i < |digits| ==> IsDigit(DigitsText(digits)[i])
    ensures DigitsValue(DigitsText(digits)) == Decimal(digits)
  {
    if digits != [] {
      var n := |digits| - 1;
      DigitsMean(digits[..n]);
      assert DigitsText(digits)[..n] == DigitsText(digits[..n]);
    }
  }

  lemma {:induction false} DigitRunEnds(digits: string, rest: string)
    requires forall i :: 0 <= i < |digits| ==> IsDigit(digits[i])
    requires !DigitAhead(rest)
    ensures DigitRun(digits + rest) == |digits|
  {
    if digits == [] {
      assert digits + rest == rest;
    } else {
      assert (digits + rest)[1..] == digits[1..] + rest;
      DigitRunEnds(digits[1..], rest);
    }
  }

  lemma NumberTextRead(negative: bool, digits: seq<nat>, rest: string)
    requires Proper(NumberText(negative, digits)) && !DigitAhead(rest)
    ensures ParseNumber(Text(NumberText(negative, digits)) + rest) == Got(Signed(negative, digits), rest)
  {
    var sign, text, value := if negative then "-" else "", DigitsText(digits), Decimal(digits);
    DigitsMean(digits);
    assert Text(NumberText(negative, digits)) == sign + text;
    assert Signed(negative, digits) == if sign == "-" then -(value as int) else value;
    SignedRead(sign, text, value, rest);
  }

  lemma SignedRead(sign: string, text: string, value: nat, rest: string)
    requires (sign == "" || sign == "-") && text != [] && !DigitAhead(rest)
    requires forall i :: 0 <= i < |text| ==> IsDigit(text[i])
    requires DigitsValue(text) == value
    requires I64_MIN <= (if sign == "-" then -(value as int) else value) <= I64_MAX
    ensures ParseNumber(sign + text + rest) == Got(if sign == "-" then -(value as int) else value, rest)
  {
    SignedParts(sign, text, rest);
    SignedValue(sign, text, value);
  }

  lemma SignedParts(sign: string, text: string, rest: string)
    requires (sign == "" || sign == "-") && text != [] && !DigitAhead(rest)
    requires forall i :: 0 <= i < |text| ==> IsDigit(text[i])
    ensures var s := sign + text + rest;
      && DigitRun(s[|sign|..]) == |text|
      && s[..|sign| + |text|] == sign + text && s[|sign| + |text|..] == rest
      && StartsWith(s, '-') == (sign == "-")
  {
    var s := sign + text + rest;
    assert s[|sign|..] == text + rest;
    DigitRunEnds(text, rest);
    assert sign == "" ==> s[0] == text[0];
  }

  lemma SignedValue(sign: string, text: string, value: nat)
    requires (sign == "" || sign == "-") && text != []
    requires forall i :: 0 <= i < |text| ==> IsDigit(text[i])
    requires DigitsValue(text) == value
    requires I64_MIN <= (if sign == "-" then -(value as int) else value) <= I64_MAX
    ensures StartsWith(sign + text, '-') == (sign == "-")
    ensures forall i :: |sign| <= i < |sign + text| ==> IsDigit((sign + text)[i])
    ensures ParseI64(sign + text) == Some(if sign == "-" then -(value as int) else value)
  {
    if sign == "" {
      assert sign + text == text;
    } else {
      assert (sign + text)[1..] == text;
    }
  }

  // ---------------------------------------------------------------- values

  /** A value does not start with a space, nor with a closing bracket. */
  lemma Starts(c: Syntax)
    requires Proper(c)
    ensures Text(c) != []
    ensures var f := Text(c)[0];
      match c
      case NullText => f == 'n'
      case TrueText => f == 't'
      case FalseText => f == 'f'
      case NumberText(_, _) => f == '-' || '0' <= f <= '9'
      case StringText(_) => f == '"'
      case ArrayText(_) => f == '['
      case ObjectText(_) => f == '{'
  {
  }

  lemma Ahead(c: Syntax, space: string, rest: string)
    requires Proper(c) && Blank(space)
    ensures SkipSpace(space + (Text(c) + rest)) == Text(c) + rest
    ensures Text(c) + rest != [] && (Text(c) + rest)[0] == Text(c)[0]
  {
    Starts(c);
    var s := Text(c) + rest;
    assert s[..1][0] == s[0] == Text(c)[0];
    BlankSkipped(space, s);
  }

  lemma WordRead(word: string, v: JsonValue, rest: string)
    requires (word == "null" && v == Null) || (word == "true" && v == Bool(true)) ||
             (word == "false" && v == Bool(false))
    ensures ParseLiteral(word + rest, word, v) == Got(v, rest)
  {
    assert word <= word + rest && (word + rest)[|word|..] == rest;
  }

  /** Every text of a value, after any spaces, is read as what it means, whatever follows it; only
      a number must not be followed by a digit. */
  lemma {:induction false} TextRead(c: Syntax, space: string, rest: string)
    requires Proper(c) && Blank(space)
    requires c.NumberText? ==> !DigitAhead(rest)
    ensures ParseValue(space + (Text(c) + rest)) == Got(Meaning(c), rest)
    decreases c, 1
  {
    Ahead(c, space, rest);
    Starts(c);
    var t := Text(c) + rest;
    match c
    case NullText => WordRead("null", Null, rest);
    case TrueText => WordRead("true", Bool(true), rest);
    case FalseText => WordRead("false", Bool(false), rest);
    case NumberText(negative, digits) =>
      NumberTextRead(negative, digits, rest);
      NumberThere(space + t, t, Signed(negative, digits), rest);
    case StringText(pieces) =>
      QuotedRead(pieces, rest);
      StringThere(space + t, t, PiecesMeaning(pieces), rest);
    case ArrayText(items) =>
      ItemsRead(items, rest, []);
      assert [] + ItemsMeaning(items) == ItemsMeaning(items);
      ArrayThere(space + t, t, ItemsText(items), ItemsMeaning(items), rest);
    case ObjectText(members) =>
      MembersTextRead(members, rest, []);
      ObjectThere(space + t, t, MembersText(members), MembersMeaning(members, []), rest);
  }

  lemma NumberThere(s: string, t: string, n: int, rest: string)
    requires SkipSpace(s) == t && t != [] && (t[0] == '-' || '0' <= t[0] <= '9') && ParseNumber(t) == Got(n, rest)
    ensures ParseValue(s) == Got(Number(n), rest)
  {
  }

  lemma StringThere(s: string, t: string, text: string, rest: string)
    requires SkipSpace(s) == t && t != [] && t[0] == '"' && ParseString(t) == Got(text, rest)
    ensures ParseValue(s) == Got(Str(text), rest)
  {
  }

  lemma ArrayThere(s: string, t: string, inner: string, values: seq<JsonValue>, rest: string)
    requires SkipSpace(s) == t && t == "[" + inner + rest && ParseElements(inner + rest, []) == Got(values, rest)
    ensures ParseValue(s) == Got(Array(values), rest)
  {
    assert t[0] == '[' && t[1..] == inner + rest;
  }

  lemma ObjectThere(s: string, t: string, inner: string, entries: seq<Entry>, rest: string)
    requires SkipSpace(s) == t && t == "{" + inner + rest && ParseMembers(inner + rest, []) == Got(entries, rest)
    ensures ParseValue(s) == Got(Object(entries), rest)
  {
    assert t[0] == '{' && t[1..] == inner + rest;
  }

  lemma ClosingAhead(space: string, close: char, rest: string)
    requires Blank(space) && (close == ']' || close == '}' || close == ',' || close == ':')
    ensures SkipSpace(space + ([close] + rest)) == [close] + rest
    ensures ([close] + rest)[0] == close && ([close] + rest)[1..] == rest
    ensures !DigitAhead(space + ([close] + rest))
  {
    var t := [close] + rest;
    assert t[..1][0] == close;
    BlankSkipped(space, t);
    assert space != [] ==> (space + t)[0] == space[0];
    assert space == [] ==> space + t == t;
  }

  lemma Nested(a: string, b: string, c: string, d: string, rest: string)
    ensures a + (b + (c + d)) + rest == a + (b + (c + (d + rest)))
  {
    assert a + (b + (c + d)) + rest == a + ((b + (c + d)) + rest);
    assert (b + (c + d)) + rest == b + ((c + d) + rest);
    assert (c + d) + rest == c + (d + rest);
  }

  lemma NestedPair(a: string, b: string, c: string, rest: string)
    ensures a + (b + c) + rest == a + (b + (c + rest))
  {
    assert a + (b + c) + rest == a + ((b + c) + rest);
    assert (b + c) + rest == b + (c + rest);
  }

  lemma CommaFirst(inner: string, rest: string)
    ensures "," + inner + rest == [','] + (inner + rest)
  {
  }

  lemma {:induction false} ItemsRead(items: Items, rest: string, read: seq<JsonValue>)
    requires ItemsOk(items)
    ensures ParseElements(ItemsText(items) + rest, read) == Got(read + ItemsMeaning(items), rest)
    decreases items, 0
  {
    match items
    case NoItem(space) => NoItemRead(space, rest, read);
    case LastItem(before, item, after) =>
      Nested(before, Text(item), after, "]", rest);
      ClosingAhead(after, ']', rest);
      TextRead(item, "", after + ([']'] + rest));
      ItemStep(before, item, after, ']', rest, read);
    case MoreItems(before, item, after, more) =>
      var inner := ItemsText(more) + rest;
      Nested(before, Text(item), after, "," + ItemsText(more), rest);
      CommaFirst(ItemsText(more), rest);
      ClosingAhead(after, ',', inner);
      TextRead(item, "", after + ([','] + inner));
      ItemStep(before, item, after, ',', inner, read);
      ItemsRead(more, rest, read + [Meaning(item)]);
      OneMore(read, Meaning(item), ItemsMeaning(more));
  }

  lemma OneMore(read: seq<JsonValue>, v: JsonValue, more: seq<JsonValue>)
    ensures read + [v] + more == read + ([v] + more)
  {
  }

  lemma NoItemRead(space: string, rest: string, read: seq<JsonValue>)
    requires Blank(space)
    ensures ParseElements(space + "]" + rest, read) == Got(read + [], rest)
  {
    ClosingAhead(space, ']', rest);
    assert space + "]" + rest == space + ([']'] + rest);
    assert read + [] == read;
  }

  lemma ItemStep(before: string, item: Syntax, after: string, close: char, rest: string, read: seq<JsonValue>)
    requires Blank(before) && Proper(item) && Blank(after) && (close == ']' || close == ',')
    requires ParseValue("" + (Text(item) + (after + ([close] + rest)))) == Got(Meaning(item), after + ([close] + rest))
    ensures ParseElements(before + (Text(item) + (after + ([close] + rest))), read) ==
      if close == ']' then Got(read + [Meaning(item)], rest) else ParseElements(rest, read + [Meaning(item)])
  {
    var tail := after + ([close] + rest);
    Ahead(item, before, tail);
    Starts(item);
    assert "" + (Text(item) + tail) == Text(item) + tail;
    ClosingAhead(after, close, rest);
  }

  lemma {:induction false} MembersTextRead(members: Members, rest: string, read: seq<Entry>)
    requires MembersOk(members)
    ensures ParseMembers(MembersText(members) + rest, read) == Got(MembersMeaning(members, read), rest)
    decreases members, 0
  {
    match members
    case NoMember(space) => NoMemberRead(space, rest, read);
    case LastMember(m, after) =>
      NestedPair(MemberText(m), after, "}", rest);
      ClosingAhead(after, '}', rest);
      TextRead(m.value, m.afterColon, after + (['}'] + rest));
      MemberTextRead(m, after + (['}'] + rest));
      MemberStep(m, after, '}', rest, read);
    case MoreMembers(m, after, more) =>
      var inner := MembersText(more) + rest;
      NestedPair(MemberText(m), after, "," + MembersText(more), rest);
      CommaFirst(MembersText(more), rest);
      ClosingAhead(after, ',', inner);
      TextRead(m.value, m.afterColon, after + ([','] + inner));
      MemberTextRead(m, after + ([','] + inner));
      MemberStep(m, after, ',', inner, read);
      MembersTextRead(more, rest, Put(read, MemberMeaning(m)));
  }

  lemma NoMemberRead(space: string, rest: string, read: seq<Entry>)
    requires Blank(space)
    ensures ParseMembers(space + "}" + rest, read) == Got(read, rest)
  {
    ClosingAhead(space, '}', rest);
    assert space + "}" + rest == space + (['}'] + rest);
  }

  lemma QuoteAhead(space: string, pieces: seq<Piece>, rest: string)
    requires Blank(space)
    ensures SkipSpace(space + (QuotedText(pieces) + rest)) == QuotedText(pieces) + rest
    ensures (QuotedText(pieces) + rest)[0] == '"'
  {
    var t := QuotedText(pieces) + rest;
    assert t[0] == '"' && t[..1][0] == '"';
    BlankSkipped(space, t);
  }

  /** A member without the spaces before it. */
  function MemberBody(m: Member): string {
    QuotedText(m.key) + (m.beforeColon + (":" + (m.afterColon + Text(m.value))))
  }

  lemma MemberTextRead(m: Member, tail: string)
    requires MemberOk(m)
    requires ParseValue(m.afterColon + (Text(m.value) + tail)) == Got(Meaning(m.value), tail)
    ensures SkipSpace(MemberText(m) + tail) == MemberBody(m) + tail && (MemberBody(m) + tail)[0] == '"'
    ensures ParseMember(MemberBody(m) + tail) == Got(MemberMeaning(m), tail)
  {
    var inner := m.afterColon + (Text(m.value) + tail);
    var fromColon := m.beforeColon + (":" + inner);
    assert MemberBody(m) + tail == QuotedText(m.key) + fromColon;
    assert MemberText(m) + tail == m.before + (QuotedText(m.key) + fromColon);
    QuoteAhead(m.before, m.key, fromColon);
    QuotedRead(m.key, fromColon);
    ClosingAhead(m.beforeColon, ':', inner);
  }

  lemma MemberStep(m: Member, after: string, close: char, rest: string, read: seq<Entry>)
    requires MemberOk(m) && Blank(after) && (close == '}' || close == ',')
    requires var tail := after + ([close] + rest);
      && SkipSpace(MemberText(m) + tail) == MemberBody(m) + tail && (MemberBody(m) + tail)[0] == '"'
      && ParseMember(MemberBody(m) + tail) == Got(MemberMeaning(m), tail)
    ensures var more := Put(read, MemberMeaning(m));
      ParseMembers(MemberText(m) + (after + ([close] + rest)), read) ==
      if close == '}' then Got(more, rest) else ParseMembers(rest, more)
  {
    ClosingAhead(after, close, rest);
  }

  // ---------------------------------------------------------------- every text accepted is one of these

  lemma HexWritten(c: char) returns (h: Hex)
    requires HexValue(c).Some?
    ensures h.value == HexValue(c).value && h.value < 16 && HexText(h) == c
  {
    h := Hex(HexValue(c).value, 'A' <= c <= 'F');
    if '0' <= c <= '9' {
      assert SMALL[h.value] == c;
    } else if 'a' <= c <= 'f' {
      assert SMALL[h.value] == c;
    } else {
      assert CAPITAL[h.value] == c;
    }
  }

  lemma HexSplit(s: string, count: nat, value: nat)
    requires ParseHex(s, count, value).Got? && count > 0
    ensures s != [] && HexValue(s[0]).Some?
    ensures ParseHex(s, count, value) == ParseHex(s[1..], count - 1, value * 16 + HexValue(s[0]).value)
  {
  }

  lemma CodeWritten(s: string) returns (p: Piece)
    requires ParseHex(s, 4, 0).Got?
    ensures p.Code? && p.first.value < 16 && p.second.value < 16 && p.third.value < 16 && p.fourth.value < 16
    ensures CodeOf(p.first, p.second, p.third, p.fourth) == ParseHex(s, 4, 0).value
    ensures s == PieceText(p)[2..] + ParseHex(s, 4, 0).rest
  {
    HexSplit(s, 4, 0);
    var a := HexWritten(s[0]);
    var s1 := s[1..];
    HexSplit(s1, 3, a.value);
    var b := HexWritten(s1[0]);
    var s2 := s1[1..];
    HexSplit(s2, 2, a.value * 16 + b.value);
    var c := HexWritten(s2[0]);
    var s3 := s2[1..];
    HexSplit(s3, 1, (a.value * 16 + b.value) * 16 + c.value);
    var d := HexWritten(s3[0]);
    p := Code(a, b, c, d);
    FourChars(s, s1, s2, s3);
  }

  lemma FourChars(s: string, s1: string, s2: string, s3: string)
    requires s != [] && s1 == s[1..] && s1 != [] && s2 == s1[1..] && s2 != [] && s3 == s2[1..] && s3 != []
    ensures s == [s[0], s1[0], s2[0], s3[0]] + s3[1..]
  {
    assert s2 == [s2[0]] + s3 && s1 == [s1[0]] + s2 && s == [s[0]] + s1 && s3 == [s3[0]] + s3[1..];
  }

  lemma HeadTail(s: string)
    requires s != []
    ensures s == [s[0]] + s[1..]
  {
  }

  lemma AfterFirst(s: string)
    requires |s| >= 2
    ensures s[1..] == [s[1]] + s[2..]
  {
  }

  lemma Associated(a: string, b: string, c: string)
    ensures a + (b + c) == a + b + c
  {
  }

  lemma EscapeWritten(s: string) returns (p: Piece)
    requires ParseEscape(s).Got?
    ensures PieceOk(p) && !p.Raw? && PieceMeaning(p) == ParseEscape(s).value
    ensures s == PieceText(p)[1..] + ParseEscape(s).rest
  {
    HeadTail(s);
    if s[0] == 'u' {
      p := CodeWritten(s[1..]);
      AfterFirst(PieceText(p));
      Associated([s[0]], PieceText(p)[2..], ParseEscape(s).rest);
    } else {
      p := Short(s[0]);
      assert PieceText(p)[1..] == [s[0]];
    }
  }

  lemma {:induction false} PiecesWritten(s: string, read: string) returns (pieces: seq<Piece>)
    requires ParseChars(s, read).Got?
    ensures PiecesOk(pieces) && s == PiecesText(pieces) + "\"" + ParseChars(s, read).rest
    ensures ParseChars(s, read).value == read + PiecesMeaning(pieces)
    decreases |s|
  {
    var rest := ParseChars(s, read).rest;
    if s[0] == '"' {
      pieces := [];
      assert s == PiecesText([]) + "\"" + rest;
      assert read + PiecesMeaning([]) == read;
    } else {
      var p, tail;
      if s[0] != '\\' {
        p, tail := Raw(s[0]), s[1..];
      } else {
        p := EscapeWritten(s[1..]);
        tail := ParseEscape(s[1..]).rest;
      }
      assert s == PieceText(p) + tail;
      var more := PiecesWritten(tail, read + [PieceMeaning(p)]);
      pieces := [p] + more;
      PiecesJoined(p, more, tail, rest, read);
    }
  }

  lemma PiecesJoined(p: Piece, more: seq<Piece>, tail: string, rest: string, read: string)
    requires PieceOk(p) && PiecesOk(more) && tail == PiecesText(more) + "\"" + rest
    ensures PiecesOk([p] + more)
    ensures PieceText(p) + tail == PiecesText([p] + more) + "\"" + rest
    ensures read + [PieceMeaning(p)] + PiecesMeaning(more) == read + PiecesMeaning([p] + more)
  {
    assert ([p] + more)[1..] == more;
    assert PieceText(p) + (PiecesText(more) + "\"" + rest) == PieceText(p) + PiecesText(more) + "\"" + rest;
  }

  lemma QuotedWritten(s: string) returns (pieces: seq<Piece>)
    requires ParseString(s).Got?
    ensures PiecesOk(pieces) && s == QuotedText(pieces) + ParseString(s).rest
    ensures ParseString(s).value == PiecesMeaning(pieces)
  {
    pieces := PiecesWritten(s[1..], []);
    assert [] + PiecesMeaning(pieces) == PiecesMeaning(pieces);
    Prefixed("\"", s);
    Associated("\"", PiecesText(pieces) + "\"", ParseString(s).rest);
  }

  lemma {:induction false} DigitsWritten(text: string) returns (digits: seq<nat>)
    requires forall i :: 0 <= i < |text| ==> IsDigit(text[i])
    ensures (forall i :: 0 <= i < |digits| ==> digits[i] < 10) && DigitsText(digits) == text
    ensures Decimal(digits) == DigitsValue(text)
  {
    if text == [] {
      digits := [];
    } else {
      var n := |text| - 1;
      var before := DigitsWritten(text[..n]);
      var d := (text[n] as int - '0' as int) as nat;
      assert DigitText(d) == text[n];
      digits := before + [d];
      assert digits[..n] == before;
      assert DigitsText(digits) == DigitsText(before) + [DigitText(d)];
    }
  }

  lemma NumberWritten(s: string) returns (negative: bool, digits: seq<nat>)
    requires ParseNumber(s).Got?
    ensures Proper(NumberText(negative, digits)) && Signed(negative, digits) == ParseNumber(s).value
    ensures s == Text(NumberText(negative, digits)) + ParseNumber(s).rest
    ensures !DigitAhead(ParseNumber(s).rest)
  {
    negative := StartsWith(s, '-');
    var text := NumberSplit(s);
    digits := DigitsWritten(text);
  }

  lemma NumberSplit(s: string) returns (text: string)
    requires ParseNumber(s).Got?
    ensures text != [] && forall i :: 0 <= i < |text| ==> IsDigit(text[i])
    ensures ParseNumber(s).value == if StartsWith(s, '-') then -(DigitsValue(text) as int) else DigitsValue(text)
    ensures s == (if StartsWith(s, '-') then "-" else "") + text + ParseNumber(s).rest
    ensures !DigitAhead(ParseNumber(s).rest)
  {
    var sign := if StartsWith(s, '-') then 1 else 0;
    var n := DigitRun(s[sign..]);
    text := s[sign..sign + n];
    assert text == s[sign..][..n];
    SignSplit(s, sign, n);
  }

  lemma SignSplit(s: string, sign: nat, n: nat)
    requires sign == (if StartsWith(s, '-') then 1 else 0) && sign + n <= |s|
    ensures s == (if StartsWith(s, '-') then "-" else "") + s[sign..sign + n] + s[sign + n..]
    ensures StartsWith(s, '-') ==> n > 0 ==> s[..sign + n][1..] == s[sign..sign + n]
    ensures !StartsWith(s, '-') ==> s[..sign + n] == s[sign..sign + n]
    ensures n > 0 ==> StartsWith(s[..sign + n], '-') == StartsWith(s, '-')
  {
    assert s == s[..sign + n] + s[sign + n..];
    if StartsWith(s, '-') {
      assert s[..sign + n] == "-" + s[1..sign + n];
    } else {
      assert s[..n] == s[0..n];
    }
  }

  lemma Prefixed(word: string, s: string)
    requires word <= s
    ensures s == word + s[|word|..]
  {
  }

  /** Whatever the parser reads is the text of a tree that means what it gives. */
  lemma {:induction false} ValueWritten(s: string) returns (space: string, c: Syntax)
    requires ParseValue(s).Got?
    ensures Blank(space) && Proper(c) && Meaning(c) == ParseValue(s).value
    ensures s == space + (Text(c) + ParseValue(s).rest)
    ensures c.NumberText? ==> !DigitAhead(ParseValue(s).rest)
    decreases |s|, 1
  {
    space := SkippedBlank(s);
    var t := SkipSpace(s);
    var rest := ParseValue(s).rest;
    if t[0] == 'n' {
      c := NullText;
      Prefixed("null", t);
    } else if t[0] == 't' {
      c := TrueText;
      Prefixed("true", t);
    } else if t[0] == 'f' {
      c := FalseText;
      Prefixed("false", t);
    } else if t[0] == '"' {
      var pieces := QuotedWritten(t);
      c := StringText(pieces);
    } else if t[0] == '[' {
      var items := ItemsWritten(t[1..], []);
      c := ArrayText(items);
      assert [] + ItemsMeaning(items) == ItemsMeaning(items);
      Opened("[", ItemsText(items), t, rest);
    } else if t[0] == '{' {
      var members := MembersWritten(t[1..], []);
      c := ObjectText(members);
      Opened("{", MembersText(members), t, rest);
    } else {
      var negative, digits := NumberWritten(t);
      c := NumberText(negative, digits);
    }
  }

  lemma Opened(open: string, inner: string, t: string, rest: string)
    requires |open| == 1 && t != [] && t[0] == open[0] && t[1..] == inner + rest
    ensures t == open + inner + rest
  {
    assert t == [t[0]] + t[1..] && open == [open[0]];
  }

  lemma {:induction false} ItemsWritten(s: string, read: seq<JsonValue>) returns (items: Items)
    requires ParseElements(s, read).Got?
    ensures ItemsOk(items) && s == ItemsText(items) + ParseElements(s, read).rest
    ensures ParseElements(s, read).value == read + ItemsMeaning(items)
    decreases |s|, 2
  {
    var before := SkippedBlank(s);
    var t := SkipSpace(s);
    if StartsWith(t, ']') {
      items := NoItem(before);
      Closed(s, before, t, ']');
      assert read + [] == read;
    } else {
      var space, item := ValueWritten(t);
      var after := SkippedBlank(ParseValue(t).rest);
      var u := SkipSpace(ParseValue(t).rest);
      BlankTogether(before, space);
      if StartsWith(u, ']') {
        items := LastItem(before + space, item, after);
        LastJoined(s, before, space, Text(item), after, u);
      } else {
        var more := ItemsWritten(u[1..], read + [Meaning(item)]);
        items := MoreItems(before + space, item, after, more);
        MoreJoined(s, before, space, Text(item), after, u, ItemsText(more), ParseElements(s, read).rest);
        OneMore(read, Meaning(item), ItemsMeaning(more));
      }
    }
  }

  lemma BlankTogether(a: string, b: string)
    requires Blank(a) && Blank(b)
    ensures Blank(a + b)
  {
  }

  lemma Closed(s: string, before: string, t: string, close: char)
    requires s == before + t && t != [] && t[0] == close
    ensures s == before + [close] + t[1..]
  {
    assert t == [close] + t[1..];
  }

  lemma LastJoined(s: string, before: string, space: string, text: string, after: string, u: string)
    requires s == before + (space + (text + (after + u))) && u != [] && u[0] == ']'
    ensures s == (before + space) + (text + (after + "]")) + u[1..]
  {
    Prefixed("]", u);
    ItemJoined(s, before, space, text, after, "]", u[1..]);
  }

  lemma MoreJoined(s: string, before: string, space: string, text: string, after: string, u: string,
                   inner: string, rest: string)
    requires s == before + (space + (text + (after + u))) && u != [] && u[0] == ',' && u[1..] == inner + rest
    ensures s == (before + space) + (text + (after + ("," + inner))) + rest
  {
    Prefixed(",", u);
    assert "," + (inner + rest) == "," + inner + rest;
    ItemJoined(s, before, space, text, after, "," + inner, rest);
  }

  lemma ItemJoined(s: string, before: string, space: string, text: string, after: string, close: string, rest: string)
    requires s == before + (space + (text + (after + (close + rest))))
    ensures s == (before + space) + (text + (after + close)) + rest
  {
    Nested(before + space, text, after, close, rest);
    assert before + (space + (text + (after + (close + rest)))) == (before + space) + (text + (after + (close + rest)));
  }

  lemma {:induction false} MembersWritten(s: string, read: seq<Entry>) returns (members: Members)
    requires ParseMembers(s, read).Got?
    ensures MembersOk(members) && s == MembersText(members) + ParseMembers(s, read).rest
    ensures ParseMembers(s, read).value == MembersMeaning(members, read)
    decreases |s|, 3
  {
    var before := SkippedBlank(s);
    var t := SkipSpace(s);
    var rest := ParseMembers(s, read).rest;
    if StartsWith(t, '}') {
      members := NoMember(before);
      Prefixed("}", t);
      assert before + ("}" + t[1..]) == before + "}" + t[1..];
    } else {
      var m := MemberWritten(t, before);
      var r := ParseMember(t).rest;
      var after := SkippedBlank(r);
      var u := SkipSpace(r);
      if StartsWith(u, '}') {
        members := LastMember(m, after);
        Prefixed("}", u);
        NestedPair(MemberText(m), after, "}", u[1..]);
      } else {
        var more := MembersWritten(u[1..], Put(read, MemberMeaning(m)));
        members := MoreMembers(m, after, more);
        Prefixed(",", u);
        assert "," + (MembersText(more) + rest) == "," + MembersText(more) + rest;
        NestedPair(MemberText(m), after, "," + MembersText(more), rest);
      }
    }
  }

  lemma MemberWritten(t: string, before: string) returns (m: Member)
    requires Blank(before) && ParseMember(t).Got?
    ensures MemberOk(m) && m.before == before && MemberMeaning(m) == ParseMember(t).value
    ensures before + t == MemberText(m) + ParseMember(t).rest
    ensures m.value.NumberText? ==> !DigitAhead(ParseMember(t).rest)
    decreases |t|, 2
  {
    var key := QuotedWritten(t);
    var afterKey := ParseString(t).rest;
    var beforeColon := SkippedBlank(afterKey);
    var c := SkipSpace(afterKey);
    var afterColon, value := ValueWritten(c[1..]);
    m := Member(before, key, beforeColon, afterColon, value);
    Prefixed(":", c);
    MemberJoined(before, QuotedText(key), beforeColon, afterColon, Text(value), ParseMember(t).rest);
  }

  lemma MemberJoined(a: string, b: string, c: string, d: string, e: string, rest: string)
    ensures a + (b + (c + (":" + (d + (e + rest))))) == a + (b + (c + (":" + (d + e)))) + rest
  {
    Nested(a, b, c, ":" + (d + e), rest);
    assert ":" + (d + e) + rest == ":" + (d + (e + rest));
  }

  // ---------------------------------------------------------------- the whole source

  /** The source is a text that means `v`, with spaces around it. */
  ghost predicate Writes(source: string, v: JsonValue) {
    exists before, c, after ::
      Blank(before) && Proper(c) && Blank(after) && source == before + (Text(c) + after) && Meaning(c) == v
  }

  lemma BlankEnd(space: string)
    ensures SkipSpace(space) == [] <==> Blank(space)
    ensures Blank(space) ==> !DigitAhead(space)
  {
    var skipped := SkippedBlank(space);
    if Blank(space) {
      BlankSkipped(space, []);
      assert space + [] == space;
    }
  }

  /** The parser accepts exactly the texts of values, with spaces around them, and gives what they
      mean. */
  lemma AcceptedExactly(source: string, v: JsonValue)
    ensures Parse(source) == Result.Ok(v) <==> Writes(source, v)
  {
    if Parse(source) == Result.Ok(v) {
      var before, c := ValueWritten(source);
      var after := ParseValue(source).rest;
      BlankEnd(after);
    }
    if Writes(source, v) {
      var before, c, after :|
        Blank(before) && Proper(c) && Blank(after) && source == before + (Text(c) + after) && Meaning(c) == v;
      BlankEnd(after);
      TextRead(c, before, after);
    }
  }
}
