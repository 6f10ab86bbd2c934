/** The laws of the JSON printer and parser. */
module JsonProperties {

  import opened Wrappers
  import opened Json

  // ---------------------------------------------------------------- key order

  lemma {:induction false} LessTotal(a: string, b: string)
    ensures !Less(a, a)
    ensures !(Less(a, b) && Less(b, a))
    ensures a != b ==> Less(a, b) || Less(b, a)
    decreases |a|
  {
    if a != [] {
      LessTotal(a[1..], if b == [] then [] else b[1..]);
      if b != [] && a[0] == b[0] {
        assert a != b ==> a[1..] != b[1..];
      }
    }
  }

  lemma {:induction false} LessTransitive(a: string, b: string, c: string)
    requires Less(a, b) && Less(b, c)
    ensures Less(a, c)
    decreases |a|
  {
    if a != [] && a[0] == b[0] == c[0] {
      LessTransitive(a[1..], b[1..], c[1..]);
    }
  }

  // ---------------------------------------------------------------- ordered maps

  lemma {:induction false} InsertLast(entries: seq<Entry>, key: string, value: JsonValue)
    requires forall i :: 0 <= i < |entries| ==> Less(entries[i].key, key)
    ensures Insert(entries, key, value) == entries + [Entry(key, value)]
  {
    if entries != [] {
      LessTotal(entries[0].key, key);
      InsertLast(entries[1..], key, value);
    }
  }

  /** Insertion keeps the order and adds no other entry. */
  lemma {:induction false} InsertSorted(entries: seq<Entry>, key: string, value: JsonValue)
    requires Sorted(entries)
    ensures Sorted(Insert(entries, key, value))
    ensures forall e :: e in Insert(entries, key, value) ==> e in entries || e == Entry(key, value)
  {
    if entries != [] {
      var first, tail := entries[0], entries[1..];
      LessTotal(first.key, key);
      if first.key == key {
      } else if Less(key, first.key) {
        forall j | 0 <= j < |entries|
          ensures Less(key, entries[j].key)
        {
          if j > 0 {
            LessTransitive(key, first.key, entries[j].key);
          }
        }
      } else {
        InsertSorted(tail, key, value);
        var r := Insert(tail, key, value);
        forall j | 0 <= j < |r|
          ensures Less(first.key, r[j].key)
        {
          assert r[j] in r;
        }
      }
    }
  }

  /** What was inserted is found, and nothing else changes. */
  lemma {:induction false} LookupInsert(entries: seq<Entry>, key: string, value: JsonValue, k: string)
    requires Sorted(entries)
    ensures Lookup(Insert(entries, key, value), k) == if k == key then Some(value) else Lookup(entries, k)
  {
    if entries != [] && entries[0].key != key && !Less(key, entries[0].key) {
      LookupInsert(entries[1..], key, value, k);
    }
  }

  // ---------------------------------------------------------------- strings

  lemma HexValueOf(d: nat)
    requires d < 16
    ensures HexValue(HexDigit(d)) == Some(d)
  {
  }

  lemma HexStep(d: nat, rest: string, count: nat, value: nat)
    requires d < 16 && count > 0
    ensures ParseHex([HexDigit(d)] + rest, count, value) == ParseHex(rest, count - 1, value * 16 + d)
  {
    HexValueOf(d);
    assert ([HexDigit(d)] + rest)[1..] == rest;
  }

  lemma HexRead(a: nat, b: nat, d: nat, e: nat, rest: string)
    requires a < 16 && b < 16 && d < 16 && e < 16
    ensures ParseHex([HexDigit(a), HexDigit(b), HexDigit(d), HexDigit(e)] + rest, 4, 0)
      == Got(a * 4096 + b * 256 + d * 16 + e, rest)
  {
    var s3 := [HexDigit(e)] + rest;
    var s2 := [HexDigit(d)] + s3;
    var s1 := [HexDigit(b)] + s2;
    assert [HexDigit(a), HexDigit(b), HexDigit(d), HexDigit(e)] + rest == [HexDigit(a)] + s1;
    HexStep(a, s1, 4, 0);
    HexStep(b, s2, 3, a);
    HexStep(d, s3, 2, a * 16 + b);
    HexStep(e, rest, 1, a * 256 + b * 16 + d);
  }

  lemma UnicodeEscapeRead(c: char, rest: string)
    requires IsControl(c)
    ensures ParseEscape(UnicodeEscape(c)[1..] + rest) == Got(c, rest)
  {
    var v := c as nat;
    var a, b, d, e := v / 0x1000, v / 0x100 % 0x10, v / 0x10 % 0x10, v % 0x10;
    var s := UnicodeEscape(c)[1..] + rest;
    assert s[0] == 'u' && s[1..] == [HexDigit(a), HexDigit(b), HexDigit(d), HexDigit(e)] + rest;
    HexRead(a, b, d, e, rest);
  }

  lemma EscapeStep(s: string, c: char, rest: string, read: string)
    requires s != [] && s[0] == '\\' && ParseEscape(s[1..]) == Got(c, rest)
    ensures ParseChars(s, read) == ParseChars(rest, read + [c])
  {
  }

  lemma ShortEscapeRead(c: char, rest: string)
    requires |RenderChar(c)| == 2
    ensures ParseEscape([RenderChar(c)[1]] + rest) == Got(c, rest)
  {
    assert ([RenderChar(c)[1]] + rest)[1..] == rest;
  }

  lemma RenderedCharRead(c: char, rest: string, read: string)
    ensures ParseChars(RenderChar(c) + rest, read) == ParseChars(rest, read + [c])
  {
    var s := RenderChar(c) + rest;
    if |RenderChar(c)| == 1 {
      assert s[0] == c && s[1..] == rest;
    } else if |RenderChar(c)| == 2 {
      ShortEscapeRead(c, rest);
      assert s[1..] == [RenderChar(c)[1]] + rest;
      EscapeStep(s, c, rest, read);
    } else {
      UnicodeEscapeRead(c, rest);
      assert s[1..] == UnicodeEscape(c)[1..] + rest;
      EscapeStep(s, c, rest, read);
    }
  }

  lemma CharsEnd(rest: string, read: string)
    ensures ParseChars("\"" + rest, read) == Got(read, rest)
    ensures RenderChars("") + "\"" + rest == "\"" + rest
  {
    assert ("\"" + rest)[1..] == rest;
  }

  lemma {:induction false} RenderedCharsRead(text: string, rest: string, read: string)
    ensures ParseChars(RenderChars(text) + "\"" + rest, read) == Got(read + text, rest)
  {
    if text == [] {
      CharsEnd(rest, read);
      assert read + text == read;
    } else {
      var tail := RenderChars(text[1..]) + "\"" + rest;
      assert RenderChars(text) + "\"" + rest == RenderChar(text[0]) + tail;
      RenderedCharRead(text[0], tail, read);
      RenderedCharsRead(text[1..], rest, read + [text[0]]);
      assert read + [text[0]] + text[1..] == read + text;
    }
  }

  lemma StringRead(text: string, rest: string)
    ensures ParseString(RenderString(text) + rest) == Got(text, rest)
  {
    var s := RenderString(text) + rest;
    assert s[1..] == RenderChars(text) + "\"" + rest;
    RenderedCharsRead(text, rest, []);
    assert [] + text == text;
  }

  // ---------------------------------------------------------------- numbers

  lemma {:induction false} DigitsValueOf(n: nat)
    ensures DigitsValue(Digits(n)) == n
  {
    var s := Digits(n);
    if n < 10 {
      assert s[..|s| - 1] == [];
    } else {
      DigitsValueOf(n / 10);
      assert s[..|s| - 1] == Digits(n / 10);
    }
  }

  lemma {:induction false} DigitRunOf(digits: string, rest: string)
    requires forall i :: 0 <= i < |digits| ==> IsDigit(digits[i])
    requires rest == [] || !IsDigit(rest[0])
    ensures DigitRun(digits + rest) == |digits|
  {
    if digits == [] {
      assert digits + rest == rest;
    } else {
      assert (digits + rest)[1..] == digits[1..] + rest;
      DigitRunOf(digits[1..], rest);
    }
  }

  lemma DigitsRead(n: nat, sign: string, rest: string)
    requires sign == [] || sign == "-"
    requires rest == [] || !IsDigit(rest[0])
    ensures var s := sign + Digits(n) + rest;
      && DigitRun(s[|sign|..]) == |Digits(n)|
      && s[..|sign| + |Digits(n)|] == sign + Digits(n)
      && s[|sign| + |Digits(n)|..] == rest
      && StartsWith(s, '-') == (sign == "-")
      && (sign + Digits(n))[|sign|..] == Digits(n)
  {
    var s := sign + Digits(n) + rest;
    assert s[|sign|..] == Digits(n) + rest;
    DigitRunOf(Digits(n), rest);
    if sign == [] {
      assert s[0] == Digits(n)[0];
    }
  }

  lemma NumberRead(n: int, rest: string)
    requires I64_MIN <= n <= I64_MAX
    requires rest == [] || !IsDigit(rest[0])
    ensures ParseNumber(RenderNumber(n) + rest) == Got(n, rest)
  {
    if n < 0 {
      DigitsRead(-n, "-", rest);
      DigitsValueOf(-n);
      assert ParseI64("-" + Digits(-n)) == Some(n);
    } else {
      DigitsRead(n, "", rest);
      DigitsValueOf(n);
      assert "" + Digits(n) == Digits(n);
      assert ParseI64(Digits(n)) == Some(n);
    }
  }

  // ---------------------------------------------------------------- values

  lemma FirstCharacter(v: JsonValue)
    ensures Render(v) != []
    ensures var c := Render(v)[0];
      match v
      case Null => c == 'n'
      case Bool(flag) => c == if flag then 't' else 'f'
      case Number(_) => c == '-' || IsDigit(c)
      case Str(_) => c == '"'
      case Array(_) => c == '['
      case Object(_) => c == '{'
  {
  }

  lemma ValueAhead(v: JsonValue, rest: string)
    ensures SkipSpace(Render(v) + rest) == Render(v) + rest
    ensures Render(v) + rest != [] && (Render(v) + rest)[0] == Render(v)[0]
    ensures !IsSpace(Render(v)[0]) && Render(v)[0] != ']'
  {
    FirstCharacter(v);
  }

  /** The parser consumes exactly the printed value, whatever follows it, unless a
      digit follows. */
  lemma {:induction false} ValueRead(v: JsonValue, rest: string)
    requires Valid(v)
    requires rest == [] || !IsDigit(rest[0])
    ensures ParseValue(Render(v) + rest) == Got(v, rest)
    decreases v, 0
  {
    match v
    case Null => LiteralRead("null", Null, rest);
    case Bool(flag) => LiteralRead(if flag then "true" else "false", v, rest);
    case Number(n) =>
      NumberRead(n, rest);
      NumberAhead(RenderNumber(n), n, rest);
    case Str(text) =>
      StringRead(text, rest);
      StringAhead(RenderString(text), text, rest);
    case Array(values) =>
      assert [] + values == values;
      ElementsRead(values, rest, []);
      ArrayFromElements(RenderValues(values), values, rest);
    case Object(entries) =>
      assert [] + entries == entries;
      MembersRead(entries, rest, []);
      ObjectFromMembers(RenderEntries(entries), entries, rest);
  }

  lemma NumberAhead(digits: string, n: int, rest: string)
    requires digits != [] && (digits[0] == '-' || IsDigit(digits[0]))
    requires ParseNumber(digits + rest) == Got(n, rest)
    ensures ParseValue(digits + rest) == Got(Number(n), rest)
  {
    NoSpace(digits + rest);
  }

  lemma StringAhead(quoted: string, text: string, rest: string)
    requires quoted != [] && quoted[0] == '"'
    requires ParseString(quoted + rest) == Got(text, rest)
    ensures ParseValue(quoted + rest) == Got(Str(text), rest)
  {
    NoSpace(quoted + rest);
  }

  lemma LiteralRead(literal: string, v: JsonValue, rest: string)
    requires v in {Null, Bool(true), Bool(false)}
    requires literal == match v case Null => "null" case _ => if v == Bool(true) then "true" else "false"
    ensures ParseValue(literal + rest) == Got(v, rest)
  {
    var s := literal + rest;
    assert literal <= s && s[|literal|..] == rest;
    assert s[0] == literal[0];
  }

  lemma ArrayFromElements(inner: string, values: seq<JsonValue>, rest: string)
    requires ParseElements(inner + "]" + rest, []) == Got(values, rest)
    ensures ParseValue("[" + inner + "]" + rest) == Got(Array(values), rest)
  {
    var s := "[" + inner + "]" + rest;
    assert s[0] == '[' && s[1..] == inner + "]" + rest;
    assert SkipSpace(s) == s;
  }

  lemma ObjectFromMembers(inner: string, entries: seq<Entry>, rest: string)
    requires ParseMembers(inner + "}" + rest, []) == Got(entries, rest)
    ensures ParseValue("{" + inner + "}" + rest) == Got(Object(entries), rest)
  {
    var s := "{" + inner + "}" + rest;
    assert s[0] == '{' && s[1..] == inner + "}" + rest;
    assert SkipSpace(s) == s;
  }

  lemma {:induction false} ElementsRead(values: seq<JsonValue>, rest: string, read: seq<JsonValue>)
    requires forall i :: 0 <= i < |values| ==> Valid(values[i])
    ensures ParseElements(RenderValues(values) + "]" + rest, read) == Got(read + values, rest)
    decreases values, 1
  {
    var s := RenderValues(values) + "]" + rest;
    if values == [] {
      assert s == "]" + rest;
      ElementsEnd(rest, read);
      assert read + values == read;
    } else {
      var v := values[0];
      var after := if |values| == 1 then "]" + rest else "," + (RenderValues(values[1..]) + "]" + rest);
      ValuesText(values, rest, after);
      ValueAhead(v, after);
      ValueRead(v, after);
      ElementsStep(s, v, after, read);
      if |values| == 1 {
        assert after[1..] == rest;
        assert read + [v] == read + values;
      } else {
        assert after[1..] == RenderValues(values[1..]) + "]" + rest;
        ElementsRead(values[1..], rest, read + [v]);
        assert read + [v] + values[1..] == read + values;
      }
    }
  }

  lemma ElementsEnd(rest: string, read: seq<JsonValue>)
    ensures ParseElements("]" + rest, read) == Got(read, rest)
  {
    var s := "]" + rest;
    assert s[0] == ']' && s[1..] == rest;
    NoSpace(s);
  }

  lemma ValuesText(values: seq<JsonValue>, rest: string, after: string)
    requires values != []
    requires after == if |values| == 1 then "]" + rest else "," + (RenderValues(values[1..]) + "]" + rest)
    ensures RenderValues(values) + "]" + rest == Render(values[0]) + after
  {
    var first := Render(values[0]);
    if |values| == 1 {
      assert RenderValues(values) == first;
      Pair(first, "]", rest);
    } else {
      var more := RenderValues(values[1..]);
      assert RenderValues(values) == first + "," + more;
      Spread(first, ",", more, "]", rest);
    }
  }

  lemma ElementsStep(s: string, v: JsonValue, after: string, read: seq<JsonValue>)
    requires s != [] && !IsSpace(s[0]) && s[0] != ']'
    requires ParseValue(s) == Got(v, after)
    requires after != [] && (after[0] == ',' || after[0] == ']')
    ensures ParseElements(s, read) ==
      if after[0] == ']' then Got(read + [v], after[1..]) else ParseElements(after[1..], read + [v])
  {
    NoSpace(s);
    NoSpace(after);
  }

  lemma {:induction false} MembersRead(entries: seq<Entry>, rest: string, read: seq<Entry>)
    requires Sorted(read + entries)
    requires forall i :: 0 <= i < |entries| ==> Valid(entries[i].value)
    ensures ParseMembers(RenderEntries(entries) + "}" + rest, read) == Got(read + entries, rest)
    decreases entries, 1
  {
    var s := RenderEntries(entries) + "}" + rest;
    if entries == [] {
      assert s == "}" + rest;
      MembersEnd(rest, read);
      assert read + entries == read;
    } else {
      var e := entries[0];
      var after := if |entries| == 1 then "}" + rest else "," + (RenderEntries(entries[1..]) + "}" + rest);
      EntriesText(entries, rest, after);
      assert e in entries;
      ValueRead(e.value, after);
      MemberRead(e, after);
      MembersStep(s, e, after, read);
      BeforeLast(read, entries);
      if |entries| == 1 {
        assert after[1..] == rest;
        assert read + [e] == read + entries;
      } else {
        assert after[1..] == RenderEntries(entries[1..]) + "}" + rest;
        MembersRead(entries[1..], rest, read + [e]);
      }
    }
  }

  lemma EntriesText(entries: seq<Entry>, rest: string, after: string)
    requires entries != []
    requires after == if |entries| == 1 then "}" + rest else "," + (RenderEntries(entries[1..]) + "}" + rest)
    ensures RenderEntries(entries) + "}" + rest == RenderEntry(entries[0]) + after
  {
    var first := RenderEntry(entries[0]);
    if |entries| == 1 {
      assert RenderEntries(entries) == first;
      Pair(first, "}", rest);
    } else {
      var more := RenderEntries(entries[1..]);
      assert RenderEntries(entries) == first + "," + more;
      Spread(first, ",", more, "}", rest);
    }
  }

  lemma Pair(a: string, b: string, c: string)
    ensures a + b + c == a + (b + c)
  {
  }

  lemma Spread(a: string, b: string, c: string, d: string, e: string)
    ensures a + b + c + d + e == a + (b + (c + d + e))
  {
    Pair(a + b, c, d);
    Pair(a + b, c + d, e);
    Pair(a, b, c + d + e);
  }

  lemma Reassociate(a: string, b: string, c: string, d: string)
    ensures a + b + c + d == a + (b + (c + d))
    ensures a + b + c + d == a + b + (c + d)
  {
  }

  lemma NoSpace(s: string)
    requires s != [] && !IsSpace(s[0])
    ensures SkipSpace(s) == s
  {
  }

  lemma MembersEnd(rest: string, read: seq<Entry>)
    ensures ParseMembers("}" + rest, read) == Got(read, rest)
  {
    var s := "}" + rest;
    assert s[0] == '}' && s[1..] == rest;
    NoSpace(s);
  }

  lemma MemberRead(e: Entry, after: string)
    requires ParseValue(Render(e.value) + after) == Got(e.value, after)
    ensures ParseMember(RenderEntry(e) + after) == Got(e, after)
  {
    var text := Render(e.value);
    Reassociate(RenderString(e.key), ":", text, after);
    StringRead(e.key, ":" + (text + after));
    ColonRead(text + after);
  }

  lemma ColonRead(rest: string)
    ensures var s := ":" + rest; SkipSpace(s) == s && StartsWith(s, ':') && s[1..] == rest
  {
    NoSpace(":" + rest);
  }

  lemma MembersStep(s: string, e: Entry, after: string, read: seq<Entry>)
    requires s != [] && s[0] == '"'
    requires ParseMember(s) == Got(e, after)
    requires after != [] && (after[0] == ',' || after[0] == '}')
    ensures ParseMembers(s, read) ==
      if after[0] == '}' then Got(Insert(read, e.key, e.value), after[1..])
      else ParseMembers(after[1..], Insert(read, e.key, e.value))
  {
    assert SkipSpace(s) == s;
    assert SkipSpace(after) == after;
  }

  lemma BeforeLast(read: seq<Entry>, entries: seq<Entry>)
    requires entries != [] && Sorted(read + entries)
    ensures Insert(read, entries[0].key, entries[0].value) == read + [entries[0]]
    ensures read + [entries[0]] + entries[1..] == read + entries
  {
    var all := read + entries;
    forall i | 0 <= i < |read|
      ensures Less(read[i].key, entries[0].key)
    {
      assert all[i] == read[i] && all[|read|] == entries[0];
    }
    InsertLast(read, entries[0].key, entries[0].value);
  }

  /** Parsing a printed value gives the value back. */
  lemma RoundTrip(v: JsonValue)
    requires Valid(v)
    ensures Parse(Render(v)) == Ok(v)
  {
    ValueRead(v, []);
    assert Render(v) + [] == Render(v);
  }

  /** Two values are printed alike only when they are the same value, and even the
      value and the text after it are determined by what is printed. */
  lemma RenderInjective(v: JsonValue, w: JsonValue, restV: string, restW: string)
    requires Valid(v) && Valid(w)
    requires restV == [] || !IsDigit(restV[0])
    requires restW == [] || !IsDigit(restW[0])
    requires Render(v) + restV == Render(w) + restW
    ensures v == w && restV == restW
  {
    ValueRead(v, restV);
    ValueRead(w, restW);
  }

  // ---------------------------------------------------------------- what the parser returns

  /** Everything the parser accepts is a well-formed value, on any input. */
  lemma {:induction false} ParsedValueValid(s: string)
    ensures ParseValue(s).Got? ==> Valid(ParseValue(s).value)
    decreases |s|, 1
  {
    var t := SkipSpace(s);
    if t != [] {
      ParsedElementsValid(t[1..], []);
      ParsedMembersValid(t[1..], []);
    }
  }

  lemma {:induction false} ParsedElementsValid(s: string, read: seq<JsonValue>)
    requires forall i :: 0 <= i < |read| ==> Valid(read[i])
    ensures ParseElements(s, read).Got? ==>
      forall i :: 0 <= i < |ParseElements(s, read).value| ==> Valid(ParseElements(s, read).value[i])
    decreases |s|, 2
  {
    var t := SkipSpace(s);
    if !StartsWith(t, ']') {
      ParsedValueValid(t);
      var p := ParseValue(t);
      if p.Got? {
        var u := SkipSpace(p.rest);
        if StartsWith(u, ',') {
          ParsedElementsValid(u[1..], read + [p.value]);
        }
      }
    }
  }

  lemma {:induction false} ParsedMembersValid(s: string, read: seq<Entry>)
    requires Valid(Object(read))
    ensures ParseMembers(s, read).Got? ==> Valid(Object(ParseMembers(s, read).value))
    decreases |s|, 3
  {
    var t := SkipSpace(s);
    if !StartsWith(t, '}') {
      ParsedMemberValid(t);
      var p := ParseMember(t);
      if p.Got? {
        var e := p.value;
        InsertSorted(read, e.key, e.value);
        var more := Insert(read, e.key, e.value);
        forall i | 0 <= i < |more|
          ensures Valid(more[i].value)
        {
          assert more[i] in more;
        }
        var u := SkipSpace(p.rest);
        if StartsWith(u, ',') {
          ParsedMembersValid(u[1..], more);
        }
      }
    }
  }

  lemma {:induction false} ParsedMemberValid(s: string)
    ensures ParseMember(s).Got? ==> Valid(ParseMember(s).value.value)
    decreases |s|, 2
  {
    if ParseString(s).Got? {
      var c := SkipSpace(ParseString(s).rest);
      if StartsWith(c, ':') {
        ParsedValueValid(c[1..]);
      }
    }
  }

  /** Printing what was parsed is a normal form: it parses to the same value. */
  lemma ParseNormalises(source: string)
    requires Parse(source).Ok?
    ensures Valid(Parse(source).value)
    ensures Parse(Render(Parse(source).value)) == Parse(source)
  {
    ParsedValueValid(source);
    RoundTrip(Parse(source).value);
  }

  // ---------------------------------------------------------------- what the printer writes

  /** A text without control characters: in particular without raw line breaks. */
  ghost predicate Clean(s: string) {
    forall i :: 0 <= i < |s| ==> !IsControl(s[i])
  }

  lemma {:induction false} CharsClean(s: string)
    ensures Clean(RenderChars(s))
  {
    if s != [] {
      CharsClean(s[1..]);
      assert Clean(RenderChar(s[0]));
    }
  }

  lemma {:induction false} RenderClean(v: JsonValue)
    ensures Clean(Render(v))
    decreases v, 0
  {
    match v
    case Null =>
    case Bool(_) =>
    case Number(n) =>
      var digits := Digits(if n < 0 then -n else n);
      assert forall i :: 0 <= i < |digits| ==> IsDigit(digits[i]);
    case Str(text) => CharsClean(text);
    case Array(values) => ValuesClean(values);
    case Object(entries) => EntriesClean(entries);
  }

  lemma {:induction false} ValuesClean(values: seq<JsonValue>)
    ensures Clean(RenderValues(values))
    decreases values, 1
  {
    if values != [] {
      RenderClean(values[0]);
      ValuesClean(values[1..]);
    }
  }

  lemma {:induction false} EntriesClean(entries: seq<Entry>)
    ensures Clean(RenderEntries(entries))
    decreases entries, 1
  {
    if entries != [] {
      assert entries[0] in entries;
      CharsClean(entries[0].key);
      RenderClean(entries[0].value);
      EntriesClean(entries[1..]);
    }
  }
}
