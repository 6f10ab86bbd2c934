/** The parser as the original has it: a cursor over an array of characters, and the
    string printer that pushes into a buffer. */
module JsonParser {

  import opened Wrappers
  import J = Json

  class Parser {
    const chars: string
    var index: nat

    ghost predicate Valid()
      reads this
    {
      index <= |chars|
    }

    /** The text not read yet. */
    ghost function Rest(): string
      requires Valid()
      reads this
    {
      chars[index..]
    }

    /** The result `r` and the cursor are what the specification `p` says. */
    ghost predicate Agrees<T>(r: Result<T, J.JsonError>, p: J.Parsed<T>)
      reads this
    {
      && Valid()
      && match p
         case Got(v, rest) => r == Ok(v) && Rest() == rest
         case Fail(e) => r == Err(e)
    }

    constructor (source: string)
      ensures Valid() && chars == source && Rest() == source
    {
      chars := source;
      index := 0;
    }

    function Peek(): (c: Option<char>)
      requires Valid()
      reads this
      ensures c == if Rest() == [] then None else Some(Rest()[0])
    {
      if index < |chars| then Some(chars[index]) else None
    }

    method Next() returns (c: Option<char>)
      requires Valid()
      modifies this
      ensures Valid()
      ensures old(Rest()) == [] ==> c == None && index == old(index)
      ensures old(Rest()) != [] ==> c == Some(old(Rest())[0]) && Rest() == old(Rest())[1..]
    {
      c := Peek();
      if c.Some? {
        index := index + 1;
      }
    }

    method TryConsume(expected: char) returns (consumed: bool)
      requires Valid()
      modifies this
      ensures Valid()
      ensures consumed == J.StartsWith(old(Rest()), expected)
      ensures Rest() == if consumed then old(Rest())[1..] else old(Rest())
    {
      consumed := Peek() == Some(expected);
      if consumed {
        index := index + 1;
      }
    }

    method Expect(expected: char) returns (r: Result<(), J.JsonError>)
      requires Valid()
      modifies this
      ensures Agrees(r, if J.StartsWith(old(Rest()), expected) then J.Got((), old(Rest())[1..])
                        else J.Fail(J.Expected(expected)))
    {
      var actual := Next();
      r := if actual == Some(expected) then Ok(()) else Err(J.Expected(expected));
    }

    method SkipWhitespace()
      requires Valid()
      modifies this
      ensures Valid() && Rest() == J.SkipSpace(old(Rest()))
    {
      while index < |chars| && J.IsSpace(chars[index])
        invariant Valid()
        invariant J.SkipSpace(Rest()) == J.SkipSpace(old(Rest()))
      {
        assert Rest()[1..] == chars[index + 1..];
        index := index + 1;
      }
    }

    method ParseLiteral(expected: string, value: J.JsonValue) returns (r: Result<J.JsonValue, J.JsonError>)
      requires Valid() && expected != []
      modifies this
      ensures Agrees(r, J.ParseLiteral(old(Rest()), expected, value))
    {
      ghost var start := index;
      for k := 0 to |expected|
        invariant Valid() && index == start + k
        invariant expected[..k] == chars[start..index]
      {
        assert k < |chars[start..]| ==> chars[start..][k] == Rest()[0];
        var c := Next();
        if c != Some(expected[k]) {
          return Err(J.InvalidLiteral(expected));
        }
      }
      assert expected[..|expected|] == expected;
      assert chars[start..][..|expected|] == chars[start..index];
      return Ok(value);
    }

    method ParseUnicodeEscape() returns (r: Result<char, J.JsonError>)
      requires Valid()
      modifies this
      ensures Agrees(r,
        match J.ParseHex(old(Rest()), 4, 0)
        case Fail(e) => J.Fail(e)
        case Got(v, rest) => if J.IsScalar(v) then J.Got(v as char, rest) else J.Fail(J.InvalidScalar))
    {
      var value: nat := 0;
      for k := 0 to 4
        invariant Valid()
        invariant J.ParseHex(Rest(), 4 - k, value) == J.ParseHex(old(Rest()), 4, 0)
      {
        var c := Next();
        if c.None? {
          return Err(J.EndInUnicodeEscape);
        }
        var digit := J.HexValue(c.value);
        if digit.None? {
          return Err(J.InvalidScalar);
        }
        value := value * 16 + digit.value;
      }
      r := if J.IsScalar(value) then Ok(value as char) else Err(J.InvalidScalar);
    }

    method ParseEscape() returns (r: Result<char, J.JsonError>)
      requires Valid()
      modifies this
      ensures Agrees(r, J.ParseEscape(old(Rest())))
    {
      var c := Next();
      if c.None? {
        return Err(J.EndInEscape);
      }
      match c.value {
        case '"' => r := Ok('"');
        case '\\' => r := Ok('\\');
        case '/' => r := Ok('/');
        case 'b' => r := Ok('\U{08}');
        case 'f' => r := Ok('\U{0C}');
        case 'n' => r := Ok('\n');
        case 'r' => r := Ok('\r');
        case 't' => r := Ok('\t');
        case 'u' => r := ParseUnicodeEscape();
        case other => r := Err(J.InvalidEscape(other));
      }
    }

    method ParseString() returns (r: Result<string, J.JsonError>)
      requires Valid()
      modifies this
      ensures Agrees(r, J.ParseString(old(Rest())))
    {
      var open := Expect('"');
      if open.Err? {
        return Err(open.error);
      }
      var value := "";
      while true
        invariant Valid()
        invariant J.ParseChars(Rest(), value) == J.ParseString(old(Rest()))
        decreases |chars| - index
      {
        var ch := Next();
        if ch.None? {
          break;
        }
        if ch.value == '"' {
          return Ok(value);
        } else if ch.value == '\\' {
          var escaped := ParseEscape();
          if escaped.Err? {
            return Err(escaped.error);
          }
          value := value + [escaped.value];
        } else {
          value := value + [ch.value];
        }
      }
      return Err(J.UnterminatedString);
    }

    /** Appends the digits at the cursor to `text`. */
    method ReadDigits(text: string) returns (value: string)
      requires Valid()
      modifies this
      ensures Valid() && index == old(index) + J.DigitRun(old(Rest()))
      ensures value == text + chars[old(index)..index]
    {
      value := text;
      ghost var from := index;
      while index < |chars| && J.IsDigit(chars[index])
        invariant from <= index <= |chars|
        invariant value == text + chars[from..index]
        invariant J.DigitRun(chars[from..]) == index - from + J.DigitRun(chars[index..])
      {
        DigitStep(chars, index);
        value := value + [chars[index]];
        index := index + 1;
      }
      DigitEnd(chars, index);
    }

    method ParseNumber() returns (r: Result<int, J.JsonError>)
      requires Valid()
      modifies this
      ensures Agrees(r, J.ParseNumber(old(Rest())))
    {
      ghost var s, start := Rest(), index;
      var value := "";
      var negative := TryConsume('-');
      if negative {
        value := "-";
      }
      ghost var sign := if negative then 1 else 0;
      assert index == start + sign by {
        assert |Rest()| == |s| - sign;
      }
      assert value == chars[start..index];
      Prefix(chars, start, index);
      value := ReadDigits(value);
      Prefix(chars, start, index);
      r := FinishNumber(value, s);
    }

    method ParseValue() returns (r: Result<J.JsonValue, J.JsonError>)
      requires Valid()
      modifies this
      ensures Agrees(r, J.ParseValue(old(Rest())))
      decreases |chars| - index, 1
    {
      SkipWhitespace();
      var c := Peek();
      if c.None? {
        return Err(J.UnexpectedEnd);
      }
      match c.value {
        case 'n' => r := ParseLiteral("null", J.Null);
        case 't' => r := ParseLiteral("true", J.Bool(true));
        case 'f' => r := ParseLiteral("false", J.Bool(false));
        case '"' =>
          var text := ParseString();
          r := if text.Ok? then Ok(J.Str(text.value)) else Err(text.error);
        case '[' => r := ParseArray();
        case '{' => r := ParseObject();
        case other =>
          if other == '-' || J.IsDigit(other) {
            var number := ParseNumber();
            r := if number.Ok? then Ok(J.Number(number.value)) else Err(number.error);
          } else {
            r := Err(J.UnexpectedCharacter(other));
          }
      }
    }

    method ParseArray() returns (r: Result<J.JsonValue, J.JsonError>)
      requires Valid() && J.StartsWith(Rest(), '[')
      modifies this
      ensures Agrees(r,
        match J.ParseElements(old(Rest())[1..], [])
        case Fail(e) => J.Fail(e)
        case Got(values, rest) => J.Got(J.Array(values), rest))
      decreases |chars| - index, 0
    {
      var open := Expect('[');
      ghost var inner := Rest();
      var values: seq<J.JsonValue> := [];
      while true
        invariant Valid() && old(index) < index
        invariant J.ParseElements(Rest(), values) == J.ParseElements(inner, [])
        decreases |chars| - index
      {
        SkipWhitespace();
        var closed := TryConsume(']');
        if closed {
          break;
        }
        var value := ParseValue();
        if value.Err? {
          return Err(value.error);
        }
        values := values + [value.value];
        SkipWhitespace();
        closed := TryConsume(']');
        if closed {
          break;
        }
        var comma := Expect(',');
        if comma.Err? {
          return Err(comma.error);
        }
      }
      return Ok(J.Array(values));
    }

    method ParseObject() returns (r: Result<J.JsonValue, J.JsonError>)
      requires Valid() && J.StartsWith(Rest(), '{')
      modifies this
      ensures Agrees(r,
        match J.ParseMembers(old(Rest())[1..], [])
        case Fail(e) => J.Fail(e)
        case Got(entries, rest) => J.Got(J.Object(entries), rest))
      decreases |chars| - index, 0
    {
      var open := Expect('{');
      ghost var inner := Rest();
      var entries: seq<J.Entry> := [];
      while true
        invariant Valid() && old(index) < index
        invariant J.ParseMembers(Rest(), entries) == J.ParseMembers(inner, [])
        decreases |chars| - index
      {
        SkipWhitespace();
        var closed := TryConsume('}');
        if closed {
          break;
        }
        var key := ParseString();
        if key.Err? {
          return Err(key.error);
        }
        SkipWhitespace();
        var colon := Expect(':');
        if colon.Err? {
          return Err(colon.error);
        }
        var value := ParseValue();
        if value.Err? {
          return Err(value.error);
        }
        entries := J.Insert(entries, key.value, value.value);
        SkipWhitespace();
        closed := TryConsume('}');
        if closed {
          break;
        }
        var comma := Expect(',');
        if comma.Err? {
          return Err(comma.error);
        }
      }
      return Ok(J.Object(entries));
    }

    /** The whole document: one value and nothing but white space after it. */
    static method Parse(source: string) returns (r: Result<J.JsonValue, J.JsonError>)
      ensures r == J.Parse(source)
    {
      var parser := new Parser(source);
      var value := parser.ParseValue();
      if value.Err? {
        return value;
      }
      parser.SkipWhitespace();
      r := if parser.index >= |parser.chars| then value else Err(J.TrailingContent);
    }
  }

  /** The end of the number: the collected text, which is empty or a lone sign when
      there was no digit, goes through the standard integer conversion. */
  method FinishNumber(value: string, ghost s: string) returns (r: Result<int, J.JsonError>)
    requires var sign := if J.StartsWith(s, '-') then 1 else 0;
      value == s[..sign + J.DigitRun(s[sign..])]
    ensures r == match J.ParseNumber(s) case Fail(e) => Err(e) case Got(n, _) => Ok(n)
  {
    if value == "" || value == "-" {
      return Err(J.InvalidNumber);
    }
    ghost var sign := if J.StartsWith(s, '-') then 1 else 0;
    assert forall i {:trigger value[i]} :: sign <= i < |value| ==> value[i] == s[sign..][i - sign];
    var parsed := J.ParseI64(value);
    r := if parsed.Some? then Ok(parsed.value) else Err(J.NumberOutOfRange);
  }

  /** The string printer: pushes each character, escaped where it must be, into a buffer. */
  method RenderString(value: string) returns (rendered: string)
    ensures rendered == J.RenderString(value)
  {
    rendered := "\"";
    ghost var done := "";
    for k := 0 to |value|
      invariant done == J.RenderChars(value[..k])
      invariant rendered == "\"" + done
    {
      RenderCharsPush(value[..k], value[k]);
      assert value[..k + 1] == value[..k] + [value[k]];
      rendered := PushChar(rendered, value[k]);
      done := done + J.RenderChar(value[k]);
    }
    assert value[..|value|] == value;
    rendered := rendered + "\"";
  }

  lemma {:induction false} RenderCharsPush(s: string, c: char)
    ensures J.RenderChars(s + [c]) == J.RenderChars(s) + J.RenderChar(c)
  {
    if s == [] {
      assert s + [c] == [c] && [c][1..] == [];
    } else {
      assert (s + [c])[1..] == s[1..] + [c];
      RenderCharsPush(s[1..], c);
    }
  }

  lemma DigitStep(s: string, i: nat)
    requires i < |s| && J.IsDigit(s[i])
    ensures J.DigitRun(s[i..]) == 1 + J.DigitRun(s[i + 1..])
  {
    assert s[i..][1..] == s[i + 1..];
  }

  lemma DigitEnd(s: string, i: nat)
    requires i <= |s| && (i < |s| ==> !J.IsDigit(s[i]))
    ensures J.DigitRun(s[i..]) == 0
  {
  }

  lemma Prefix(s: string, start: nat, end: nat)
    requires start <= end <= |s|
    ensures s[start..][..end - start] == s[start..end]
    ensures s[start..][end - start..] == s[end..]
  {
  }

  method PushChar(buffer: string, ch: char) returns (rendered: string)
    ensures rendered == buffer + J.RenderChar(ch)
  {
    match ch {
      case '"' => rendered := buffer + "\\\"";
      case '\\' => rendered := buffer + "\\\\";
      case '\n' => rendered := buffer + "\\n";
      case '\r' => rendered := buffer + "\\r";
      case '\t' => rendered := buffer + "\\t";
      case '\U{08}' => rendered := buffer + "\\b";
      case '\U{0C}' => rendered := buffer + "\\f";
      case plain =>
        if J.IsControl(plain) {
          rendered := PushUnicodeEscape(buffer, plain);
        } else {
          rendered := buffer + [plain];
        }
    }
  }

  /** Four hexadecimal digits, the highest first, by shifting 12, 8, 4 and 0 bits. */
  method PushUnicodeEscape(rendered: string, control: char) returns (r: string)
    requires control < '\U{10000}'
    ensures r == rendered + J.UnicodeEscape(control)
  {
    r := rendered + "\\u";
    var value := control as int;
    var divisors := [0x1000, 0x100, 0x10, 1];
    var k := 0;
    while k < 4
      invariant 0 <= k <= 4
      invariant r == rendered + J.UnicodeEscape(control)[..2 + k]
    {
      var nibble := value / divisors[k] % 16;
      r := r + [J.HexDigit(nibble)];
      k := k + 1;
    }
  }
}
