/**
 What is wrong with a text that is no JSON, described without the parser: where its first
 mistake lies and what the mistake is. The parser reports exactly this mistake.
 */
module JsonErrors {

  import opened Wrappers
  import opened Json
  import opened JsonGrammar

  // ---------------------------------------------------------------- spaces

  /** After its spaces the text goes on as `t`. */
  ghost predicate Leads(s: string, t: string) {
    (t != [] ==> !Blank(t[..1])) && exists space :: Blank(space) && s == space + t
  }

  lemma LeadsExactly(s: string, t: string)
    ensures Leads(s, t) <==> t == SkipSpace(s)
  {
    var space := SkippedBlank(s);
    if Leads(s, t) {
      var before :| Blank(before) && s == before + t;
      BlankSkipped(before, t);
    }
  }

  predicate First(t: string, c: char) {
    t != [] && t[0] == c
  }

  // ---------------------------------------------------------------- strings

  predicate HexChar(c: char) {
    '0' <= c <= '9' || 'a' <= c <= 'f' || 'A' <= c <= 'F'
  }

  /** The first character that is no digit stands before `count` of them are there. */
  ghost predicate HexBreaks(s: string, count: nat, e: JsonError) {
    exists n: nat :: n < count && n <= |s| && (forall i :: 0 <= i < n ==> HexChar(s[i])) && BreaksAt(s, n, e)
  }

  /** Four digits are missing, wrong, or name a surrogate. */
  ghost predicate BreaksCode(s: string, e: JsonError) {
    || HexBreaks(s, 4, e)
    || (e == InvalidScalar && exists a, b, c, d, rest :: Surrogate(s, a, b, c, d, rest))
  }

  predicate BreaksAt(s: string, n: nat, e: JsonError)
    requires n <= |s|
  {
    if n == |s| then e == EndInUnicodeEscape else !HexChar(s[n]) && e == InvalidScalar
  }

  predicate Surrogate(s: string, a: Hex, b: Hex, c: Hex, d: Hex, rest: string) {
    && a.value < 16 && b.value < 16 && c.value < 16 && d.value < 16
    && s == [HexText(a), HexText(b), HexText(c), HexText(d)] + rest
    && 0xD800 <= CodeOf(a, b, c, d) <= 0xDFFF
  }

  /** Characters and escapes, then no closing quote, half an escape or a wrong one. */
  ghost predicate BreaksString(s: string, e: JsonError) {
    exists pieces, t :: PiecesOk(pieces) && s == PiecesText(pieces) + t && BreaksPiece(t, e)
  }

  ghost predicate BreaksPiece(t: string, e: JsonError) {
    || (t == [] && e == UnterminatedString)
    || (t == "\\" && e == EndInEscape)
    || (|t| >= 2 && t[0] == '\\' && t[1] == 'u' && BreaksCode(t[2..], e))
    || (|t| >= 2 && t[0] == '\\' && !PieceOk(Short(t[1])) && t[1] != 'u' && e == InvalidEscape(t[1]))
  }

  lemma HexCharExactly(c: char)
    ensures HexChar(c) <==> HexValue(c).Some?
  {
  }

  /** Reading `count` digits fails at the first character that is none. */
  lemma {:induction false} HexFails(s: string, count: nat, value: nat, e: JsonError)
    ensures ParseHex(s, count, value) == Fail(e) <==> HexBreaks(s, count, e)
    decreases count
  {
    if count > 0 {
      if s == [] {
        assert BreaksAt(s, 0, EndInUnicodeEscape);
      } else if HexValue(s[0]).None? {
        assert BreaksAt(s, 0, InvalidScalar);
      } else {
        HexFails(s[1..], count - 1, value * 16 + HexValue(s[0]).value, e);
        HexOneOn(s, count, e);
      }
    }
  }

  lemma HexOneOn(s: string, count: nat, e: JsonError)
    requires s != [] && HexChar(s[0]) && count > 0
    ensures HexBreaks(s, count, e) <==> HexBreaks(s[1..], count - 1, e)
  {
    if HexBreaks(s, count, e) {
      var n: nat :| n < count && n <= |s| && (forall i :: 0 <= i < n ==> HexChar(s[i])) && BreaksAt(s, n, e);
      assert n > 0;
      assert BreaksAt(s[1..], n - 1, e);
    }
    if HexBreaks(s[1..], count - 1, e) {
      var n: nat :|
        n < count - 1 && n <= |s[1..]| && (forall i :: 0 <= i < n ==> HexChar(s[1..][i])) && BreaksAt(s[1..], n, e);
      assert forall i :: 1 <= i < n + 1 ==> s[i] == s[1..][i - 1];
      assert BreaksAt(s, n + 1, e);
    }
  }

  /** Four digits that name a surrogate are read, but name no character. */
  lemma SurrogateExactly(s: string)
    ensures (exists a, b, c, d, rest :: Surrogate(s, a, b, c, d, rest)) <==>
      ParseHex(s, 4, 0).Got? && 0xD800 <= ParseHex(s, 4, 0).value <= 0xDFFF
  {
    if a, b, c, d, rest :| Surrogate(s, a, b, c, d, rest) {
      CodeRead(a, b, c, d, rest);
    }
    if ParseHex(s, 4, 0).Got? && 0xD800 <= ParseHex(s, 4, 0).value <= 0xDFFF {
      var p := CodeWritten(s);
      assert Surrogate(s, p.first, p.second, p.third, p.fourth, ParseHex(s, 4, 0).rest);
    }
  }

  lemma {:induction false} HexInRange(s: string, count: nat, value: nat)
    requires ParseHex(s, count, value).Got?
    ensures ParseHex(s, count, value).value < (value + 1) * Power(count)
    decreases count
  {
    if count > 0 {
      HexInRange(s[1..], count - 1, value * 16 + HexValue(s[0]).value);
      Times(value, HexValue(s[0]).value, Power(count - 1));
    }
  }

  function Power(n: nat): nat {
    if n == 0 then 1 else 16 * Power(n - 1)
  }

  lemma Times(value: nat, digit: nat, power: nat)
    requires digit < 16
    ensures (value * 16 + digit + 1) * power <= (value + 1) * (16 * power)
  {
    var less := 15 - digit;
    assert (value + 1) * (16 * power) == (value * 16 + 16) * power == (value * 16 + digit + 1) * power + less * power;
    assert less * power >= 0;
  }

  lemma EscapeFails(s: string, e: JsonError)
    ensures ParseEscape(s) == Fail(e) <==> BreaksPiece(['\\'] + s, e)
  {
    var t := ['\\'] + s;
    if s == [] {
      assert t == "\\";
    } else {
      assert t[0] == '\\' && t[1] == s[0] && t[2..] == s[1..] && |t| >= 2;
      if s[0] == 'u' {
        HexFails(s[1..], 4, 0, e);
        SurrogateExactly(s[1..]);
        if ParseHex(s[1..], 4, 0).Got? {
          HexInRange(s[1..], 4, 0);
          assert Power(4) == 16 * (16 * (16 * (16 * Power(0))));
          HexFails(s[1..], 4, 0, InvalidScalar);
        }
      }
    }
  }

  lemma {:induction false} PiecesThenFail(pieces: seq<Piece>, t: string, e: JsonError, read: string)
    requires PiecesOk(pieces) && BreaksPiece(t, e)
    ensures ParseChars(PiecesText(pieces) + t, read) == Fail(e)
  {
    if pieces == [] {
      assert PiecesText(pieces) + t == t;
      if t != [] {
        assert t == ['\\'] + t[1..];
        EscapeFails(t[1..], e);
      }
    } else {
      Associated(PieceText(pieces[0]), PiecesText(pieces[1..]), t);
      PieceRead(pieces[0], PiecesText(pieces[1..]) + t, read);
      PiecesThenFail(pieces[1..], t, e, read + [PieceMeaning(pieces[0])]);
    }
  }

  lemma {:induction false} FailedPieces(s: string, e: JsonError, read: string) returns (pieces: seq<Piece>, t: string)
    requires ParseChars(s, read) == Fail(e)
    ensures PiecesOk(pieces) && s == PiecesText(pieces) + t && BreaksPiece(t, e)
    decreases |s|
  {
    pieces, t := [], s;
    if s == [] {
    } else if s[0] == '\\' && ParseEscape(s[1..]).Fail? {
      assert s == ['\\'] + s[1..];
      EscapeFails(s[1..], e);
      assert PiecesText([]) + s == s;
    } else {
      var p, tail;
      if s[0] != '\\' {
        p, tail := Raw(s[0]), s[1..];
      } else {
        p := EscapeWritten(s[1..]);
        tail := ParseEscape(s[1..]).rest;
      }
      assert s == PieceText(p) + tail;
      var more;
      more, t := FailedPieces(tail, e, read + [PieceMeaning(p)]);
      pieces := [p] + more;
      OnePieceMore(p, more, t);
    }
  }

  lemma OnePieceMore(p: Piece, more: seq<Piece>, t: string)
    requires PieceOk(p) && PiecesOk(more)
    ensures PiecesOk([p] + more) && PiecesText([p] + more) + t == PieceText(p) + (PiecesText(more) + t)
  {
    assert ([p] + more)[1..] == more;
    Associated(PieceText(p), PiecesText(more), t);
  }

  /** After an opening quote the parser fails exactly for the first mistake in the string. */
  lemma StringFails(s: string, e: JsonError, read: string)
    ensures ParseChars(s, read) == Fail(e) <==> BreaksString(s, e)
  {
    if ParseChars(s, read) == Fail(e) {
      var pieces, t := FailedPieces(s, e, read);
    }
    if BreaksString(s, e) {
      var pieces, t :| PiecesOk(pieces) && s == PiecesText(pieces) + t && BreaksPiece(t, e);
      PiecesThenFail(pieces, t, e, read);
    }
  }

  // ---------------------------------------------------------------- numbers

  /** No digit after the sign, or digits that are worth no 64-bit number. */
  ghost predicate BreaksNumber(t: string, e: JsonError) {
    || (First(t, '-') && !DigitAhead(t[1..]) && e == InvalidNumber)
    || (e == NumberOutOfRange && exists negative, digits, rest :: TooLarge(t, negative, digits, rest))
  }

  predicate TooLarge(t: string, negative: bool, digits: seq<nat>, rest: string) {
    && digits != [] && (forall i :: 0 <= i < |digits| ==> digits[i] < 10) && !DigitAhead(rest)
    && t == (if negative then "-" else "") + DigitsText(digits) + rest
    && !(-0x8000_0000_0000_0000 <= Signed(negative, digits) <= 0x7FFF_FFFF_FFFF_FFFF)
  }

  lemma NumberFails(t: string, e: JsonError)
    requires First(t, '-') || DigitAhead(t)
    ensures ParseNumber(t) == Fail(e) <==> BreaksNumber(t, e)
  {
    if ParseNumber(t) == Fail(NumberOutOfRange) {
      var negative, digits, rest := FailedNumber(t);
    }
    if negative, digits, rest :| TooLarge(t, negative, digits, rest) {
      TooLargeFails(t, negative, digits, rest);
    }
    if First(t, '-') {
      NoDigitsFails(t[1..]);
    } else {
      NoDigitsFails(t);
    }
  }

  lemma NoDigitsFails(t: string)
    ensures DigitRun(t) == 0 <==> !DigitAhead(t)
  {
  }

  lemma FailedNumber(t: string) returns (negative: bool, digits: seq<nat>, rest: string)
    requires ParseNumber(t) == Fail(NumberOutOfRange)
    ensures TooLarge(t, negative, digits, rest)
  {
    negative := StartsWith(t, '-');
    var text;
    text, rest := FailedSplit(t);
    digits := DigitsWritten(text);
    assert |digits| == |text|;
  }

  lemma FailedSplit(t: string) returns (text: string, rest: string)
    requires ParseNumber(t) == Fail(NumberOutOfRange)
    ensures text != [] && forall i :: 0 <= i < |text| ==> IsDigit(text[i])
    ensures t == (if StartsWith(t, '-') then "-" else "") + text + rest && !DigitAhead(rest)
    ensures !(I64_MIN <= (if StartsWith(t, '-') then -(DigitsValue(text) as int) else DigitsValue(text)) <= I64_MAX)
  {
    var sign := if StartsWith(t, '-') then 1 else 0;
    var n := DigitRun(t[sign..]);
    text, rest := t[sign..sign + n], t[sign + n..];
    assert text == t[sign..][..n];
    SignSplit(t, sign, n);
  }

  lemma TooLargeFails(t: string, negative: bool, digits: seq<nat>, rest: string)
    requires TooLarge(t, negative, digits, rest)
    ensures ParseNumber(t) == Fail(NumberOutOfRange)
  {
    var sign, text, value := if negative then "-" else "", DigitsText(digits), Decimal(digits);
    DigitsMean(digits);
    assert Signed(negative, digits) == if sign == "-" then -(value as int) else value;
    SignedParts(sign, text, rest);
    SignedTooLarge(sign, text, value);
    TooLargeThere(t, sign, text, rest);
  }

  lemma TooLargeThere(t: string, sign: string, text: string, rest: string)
    requires t == sign + text + rest && |sign| == (if StartsWith(t, '-') then 1 else 0) && text != []
    requires DigitRun(t[|sign|..]) == |text| && t[..|sign| + |text|] == sign + text
    requires StartsWith(sign + text, '-') == (sign == "-")
    requires |sign| <= 1 && (sign == "" || sign == "-")
    requires forall i :: |sign| <= i < |sign + text| ==> IsDigit((sign + text)[i])
    requires ParseI64(sign + text) == None
    ensures ParseNumber(t) == Fail(NumberOutOfRange)
  {
  }

  lemma SignedTooLarge(sign: string, text: string, value: nat)
    requires (sign == "" || sign == "-") && text != []
    requires forall i :: 0 <= i < |text| ==> IsDigit(text[i])
    requires DigitsValue(text) == value
    requires !(I64_MIN <= (if sign == "-" then -(value as int) else value) <= I64_MAX)
    ensures StartsWith(sign + text, '-') == (sign == "-")
    ensures forall i :: |sign| <= i < |sign + text| ==> IsDigit((sign + text)[i])
    ensures ParseI64(sign + text) == None
  {
    if sign == "" {
      assert sign + text == text;
    } else {
      assert (sign + text)[1..] == text;
    }
  }

  // ---------------------------------------------------------------- values

  /** The text starts with a value, which nothing but spaces parts from `t`. */
  ghost predicate OneItem(s: string, item: Syntax, t: string) {
    Proper(item) && (t != [] ==> !Blank(t[..1])) && exists before, after :: ItemBefore(s, before, item, after, t)
  }

  predicate ItemBefore(s: string, before: string, item: Syntax, after: string, t: string) {
    && Blank(before) && Blank(after) && s == before + (Text(item) + (after + t))
    && (item.NumberText? ==> !DigitAhead(after + t))
  }

  ghost predicate OneKey(s: string, key: seq<Piece>, t: string) {
    PiecesOk(key) && exists r :: s == QuotedText(key) + r && Leads(r, t)
  }

  ghost predicate OneMember(s: string, m: Member, t: string) {
    MemberOk(m) && exists r :: s == MemberText(m) + r && Leads(r, t) && (m.value.NumberText? ==> !DigitAhead(r))
  }

  /** No value starts the text, and this is the first mistake. */
  ghost predicate Breaks(s: string, e: JsonError)
    decreases |s|, 3
  {
    exists t :: Leads(s, t) && BreaksHere(t, e)
  }

  ghost predicate BreaksHere(t: string, e: JsonError)
    decreases |t|, 2
  {
    if t == [] then e == UnexpectedEnd
    else
      match t[0]
      case 'n' => !("null" <= t) && e == InvalidLiteral("null")
      case 't' => !("true" <= t) && e == InvalidLiteral("true")
      case 'f' => !("false" <= t) && e == InvalidLiteral("false")
      case '"' => BreaksString(t[1..], e)
      case '[' => BreaksItems(t[1..], e)
      case '{' => BreaksMembers(t[1..], e)
      case c => if c == '-' || '0' <= c <= '9' then BreaksNumber(t, e) else e == UnexpectedCharacter(c)
  }

  /** After an opening bracket or a comma: a broken item, or one after which neither a comma nor
      the closing bracket comes. */
  ghost predicate BreaksItems(s: string, e: JsonError)
    decreases |s|, 4
  {
    || (exists t :: Leads(s, t) && !First(t, ']') && Breaks(t, e))
    || (exists item, t :: OneItem(s, item, t) && |t| < |s| &&
          if First(t, ',') then BreaksItems(t[1..], e) else !First(t, ']') && e == Expected(','))
  }

  ghost predicate BreaksMember(s: string, e: JsonError)
    decreases |s|, 4
  {
    || (!First(s, '"') && e == Expected('"'))
    || (First(s, '"') && BreaksString(s[1..], e))
    || (exists key, t :: OneKey(s, key, t) && |t| < |s| &&
          if First(t, ':') then Breaks(t[1..], e) else e == Expected(':'))
  }

  ghost predicate BreaksMembers(s: string, e: JsonError)
    decreases |s|, 5
  {
    || (exists t :: Leads(s, t) && !First(t, '}') && BreaksMember(t, e))
    || (exists m, t :: OneMember(s, m, t) && |t| < |s| &&
          if First(t, ',') then BreaksMembers(t[1..], e) else !First(t, '}') && e == Expected(','))
  }

  lemma SkippedTwice(s: string)
    ensures SkipSpace(SkipSpace(s)) == SkipSpace(s) && ParseValue(SkipSpace(s)) == ParseValue(s)
  {
  }

  /** An item is there exactly if a value can be read. */
  lemma ItemRead(s: string, item: Syntax, t: string)
    requires OneItem(s, item, t)
    ensures ParseValue(s).Got? && SkipSpace(ParseValue(s).rest) == t && !First(SkipSpace(s), ']') && |t| < |s|
  {
    var before, after :| ItemBefore(s, before, item, after, t);
    TextRead(item, before, after + t);
    BlankSkipped(after, t);
    Ahead(item, before, after + t);
    Starts(item);
  }

  lemma ItemThere(s: string) returns (item: Syntax)
    requires ParseValue(s).Got?
    ensures OneItem(s, item, SkipSpace(ParseValue(s).rest))
  {
    var before;
    before, item := ValueWritten(s);
    var rest := ParseValue(s).rest;
    var after := SkippedBlank(rest);
    assert ItemBefore(s, before, item, after, SkipSpace(rest));
  }

  lemma KeyRead(s: string, key: seq<Piece>, t: string)
    requires OneKey(s, key, t)
    ensures ParseString(s).Got? && SkipSpace(ParseString(s).rest) == t && |t| < |s|
  {
    var r :| s == QuotedText(key) + r && Leads(r, t);
    QuotedRead(key, r);
    LeadsExactly(r, t);
  }

  lemma KeyThere(s: string) returns (key: seq<Piece>)
    requires ParseString(s).Got?
    ensures OneKey(s, key, SkipSpace(ParseString(s).rest))
  {
    key := QuotedWritten(s);
    LeadsExactly(ParseString(s).rest, SkipSpace(ParseString(s).rest));
  }

  lemma MemberRead(s: string, m: Member, t: string)
    requires OneMember(s, m, t)
    ensures !First(SkipSpace(s), '}') && ParseMember(SkipSpace(s)).Got?
    ensures SkipSpace(ParseMember(SkipSpace(s)).rest) == t && |t| < |s|
  {
    var r :| s == MemberText(m) + r && Leads(r, t) && (m.value.NumberText? ==> !DigitAhead(r));
    TextRead(m.value, m.afterColon, r);
    MemberTextRead(m, r);
    LeadsExactly(r, t);
  }

  lemma MemberThere(s: string) returns (m: Member)
    requires ParseMember(SkipSpace(s)).Got?
    ensures OneMember(s, m, SkipSpace(ParseMember(SkipSpace(s)).rest))
  {
    var before := SkippedBlank(s);
    m := MemberWritten(SkipSpace(s), before);
    var r := ParseMember(SkipSpace(s)).rest;
    LeadsExactly(r, SkipSpace(r));
    assert s == MemberText(m) + r;
    assert m.value.NumberText? ==> !DigitAhead(r);
  }

  /** The parser fails exactly for the first mistake in the text. */
  lemma {:induction false} ValueFails(s: string, e: JsonError)
    ensures ParseValue(s) == Fail(e) <==> Breaks(s, e)
    decreases |s|, 3
  {
    var t := SkipSpace(s);
    HereFails(s, t, e);
    LeadsExactly(s, t);
    forall u | Leads(s, u)
      ensures u == t
    {
      LeadsExactly(s, u);
    }
  }

  lemma {:induction false} HereFails(s: string, t: string, e: JsonError)
    requires t == SkipSpace(s)
    ensures ParseValue(s) == Fail(e) <==> BreaksHere(t, e)
    decreases |s|, 2
  {
    if t != [] {
      if t[0] == '"' {
        StringFails(t[1..], e, []);
      } else if t[0] == '[' {
        ItemsFail(t[1..], [], e);
      } else if t[0] == '{' {
        MembersFail(t[1..], [], e);
      } else if t[0] == '-' || '0' <= t[0] <= '9' {
        NumberFails(t, e);
      }
    }
  }

  lemma {:induction false} ItemsFail(s: string, read: seq<JsonValue>, e: JsonError)
    ensures ParseElements(s, read) == Fail(e) <==> BreaksItems(s, e)
    decreases |s|, 4
  {
    var t := SkipSpace(s);
    SkippedTwice(s);
    ValueFails(t, e);
    LeadsExactly(s, t);
    forall u | Leads(s, u)
      ensures u == t
    {
      LeadsExactly(s, u);
    }
    forall item, u | OneItem(s, item, u)
      ensures ParseValue(t).Got? && u == SkipSpace(ParseValue(t).rest) && !First(t, ']')
    {
      ItemRead(s, item, u);
    }
    if !First(t, ']') && ParseValue(t).Got? {
      var item := ItemThere(s);
      var u := SkipSpace(ParseValue(t).rest);
      ItemRead(s, item, u);
      if First(u, ',') {
        ItemsFail(u[1..], read + [ParseValue(t).value], e);
      }
    }
  }

  lemma {:induction false} MemberFails(s: string, e: JsonError)
    ensures ParseMember(s) == Fail(e) <==> BreaksMember(s, e)
    decreases |s|, 4
  {
    if First(s, '"') {
      StringFails(s[1..], e, []);
    }
    forall key, u | OneKey(s, key, u)
      ensures ParseString(s).Got? && u == SkipSpace(ParseString(s).rest)
    {
      KeyRead(s, key, u);
    }
    if ParseString(s).Got? {
      var key := KeyThere(s);
      var u := SkipSpace(ParseString(s).rest);
      KeyRead(s, key, u);
      if First(u, ':') {
        ValueFails(u[1..], e);
      }
    }
  }

  lemma {:induction false} MembersFail(s: string, read: seq<Entry>, e: JsonError)
    ensures ParseMembers(s, read) == Fail(e) <==> BreaksMembers(s, e)
    decreases |s|, 5
  {
    var t := SkipSpace(s);
    MemberFails(t, e);
    LeadsExactly(s, t);
    forall u | Leads(s, u)
      ensures u == t
    {
      LeadsExactly(s, u);
    }
    forall m, u | OneMember(s, m, u)
      ensures ParseMember(t).Got? && u == SkipSpace(ParseMember(t).rest) && !First(t, '}')
    {
      MemberRead(s, m, u);
    }
    if !First(t, '}') && ParseMember(t).Got? {
      var m := MemberThere(s);
      var u := SkipSpace(ParseMember(t).rest);
      MemberRead(s, m, u);
      if First(u, ',') {
        MembersFail(u[1..], Put(read, ParseMember(t).value), e);
      }
    }
  }

  // ---------------------------------------------------------------- the whole source

  /** The source is no value, or one with something behind it. */
  ghost predicate Rejected(source: string, e: JsonError) {
    || Breaks(source, e)
    || (e == TrailingContent && exists item, t :: OneItem(source, item, t) && t != [])
  }

  /** The parser refuses a source exactly for the mistake it has. */
  lemma RejectedExactly(source: string, e: JsonError)
    ensures Parse(source) == Result.Err(e) <==> Rejected(source, e)
  {
    ValueFails(source, e);
    if ParseValue(source).Got? {
      var item := ItemThere(source);
    }
    if item, t :| OneItem(source, item, t) && t != [] {
      ItemRead(source, item, t);
    }
  }

  /** No source has two mistakes or both a mistake and a meaning, and each has one or the other. */
  lemma RejectedOnce(source: string)
    ensures (forall v :: !Writes(source, v)) <==> exists e :: Rejected(source, e)
    ensures forall e, f :: Rejected(source, e) && Rejected(source, f) ==> e == f
  {
    forall v
      ensures Parse(source) == Result.Ok(v) <==> Writes(source, v)
    {
      AcceptedExactly(source, v);
    }
    forall e
      ensures Parse(source) == Result.Err(e) <==> Rejected(source, e)
    {
      RejectedExactly(source, e);
    }
    match Parse(source)
    case Ok(v) => assert Writes(source, v);
    case Err(e) => assert Rejected(source, e);
  }
}
