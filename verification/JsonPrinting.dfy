/**
 How JSON is printed, described without the printer: of all the texts of a value, the one without
 spaces, trailing commas, leading zeros or avoidable escapes, its keys in increasing order.
 */
module JsonPrinting {

  import opened Wrappers
  import opened Json
  import opened JsonGrammar

  // ---------------------------------------------------------------- the order of keys

  /** The shorter text comes first if it is the beginning of the other, else the text with the
      smaller character where they first differ. */
  ghost predicate Before(a: string, b: string) {
    a < b || exists i: nat :: i < |a| && i < |b| && a[..i] == b[..i] && a[i] < b[i]
  }

  lemma {:induction false} LessExactly(a: string, b: string)
    ensures Less(a, b) <==> Before(a, b)
  {
    if a != [] && b != [] {
      if a[0] == b[0] {
        LessExactly(a[1..], b[1..]);
        BeforeLater(a, b);
      } else if a[0] < b[0] {
        assert a[..0] == b[..0];
      }
    }
  }

  lemma BeforeLater(a: string, b: string)
    requires a != [] && b != [] && a[0] == b[0]
    ensures Before(a, b) <==> Before(a[1..], b[1..])
  {
    assert a == [a[0]] + a[1..] && b == [b[0]] + b[1..];
    if i: nat :| i < |a| && i < |b| && a[..i] == b[..i] && a[i] < b[i] {
      assert i > 0;
      assert a[1..][..i - 1] == a[..i][1..] == b[..i][1..] == b[1..][..i - 1];
      assert a[1..][i - 1] < b[1..][i - 1];
    }
    if i: nat :| i < |a[1..]| && i < |b[1..]| && a[1..][..i] == b[1..][..i] && a[1..][i] < b[1..][i] {
      assert a[..i + 1] == [a[0]] + a[1..][..i] == b[..i + 1];
      assert a[i + 1] < b[i + 1];
    }
  }

  // ---------------------------------------------------------------- tight texts

  predicate Control(v: nat) {
    v <= 0x1F || 0x7F <= v <= 0x9F
  }

  /** A character stands for itself unless it has a short escape or is a control character. */
  predicate TightPiece(p: Piece) {
    match p
    case Raw(c) => !Control(c as nat)
    case Short(name) => name != '/'
    case Code(a, b, c, d) =>
      && !a.capital && !b.capital && !c.capital && !d.capital
      && Control(CodeOf(a, b, c, d))
      && CodeOf(a, b, c, d) != 8 && CodeOf(a, b, c, d) != 9 && CodeOf(a, b, c, d) != 10
      && CodeOf(a, b, c, d) != 12 && CodeOf(a, b, c, d) != 13
  }

  predicate TightPieces(pieces: seq<Piece>) {
    forall i :: 0 <= i < |pieces| ==> TightPiece(pieces[i])
  }

  ghost predicate Tight(c: Syntax)
    requires Proper(c)
  {
    match c
    case NumberText(negative, digits) => (|digits| == 1 || digits[0] != 0) && !(negative && digits == [0])
    case StringText(pieces) => TightPieces(pieces)
    case ArrayText(items) => TightItems(items, true)
    case ObjectText(members) => TightMembers(members, None)
    case _ => true
  }

  /** Nothing comes after a comma but another item. */
  ghost predicate TightItems(items: Items, first: bool)
    requires ItemsOk(items)
  {
    match items
    case NoItem(space) => first && space == ""
    case LastItem(before, item, after) => before == "" && Tight(item) && after == ""
    case MoreItems(before, item, after, rest) => before == "" && Tight(item) && after == "" && TightItems(rest, false)
  }

  ghost predicate TightMember(m: Member, last: Option<string>)
    requires MemberOk(m)
  {
    && m.before == "" && m.beforeColon == "" && m.afterColon == ""
    && TightPieces(m.key) && Tight(m.value)
    && (last.Some? ==> Before(last.value, PiecesMeaning(m.key)))
  }

  ghost predicate TightMembers(members: Members, last: Option<string>)
    requires MembersOk(members)
  {
    match members
    case NoMember(space) => last.None? && space == ""
    case LastMember(m, after) => TightMember(m, last) && after == ""
    case MoreMembers(m, after, rest) =>
      TightMember(m, last) && after == "" && TightMembers(rest, Some(PiecesMeaning(m.key)))
  }

  // ---------------------------------------------------------------- tight texts are printed

  lemma HexPrinted(h: Hex)
    requires h.value < 16 && !h.capital
    ensures HexText(h) == HexDigit(h.value)
  {
  }

  lemma CodePrinted(a: Hex, b: Hex, c: Hex, d: Hex)
    requires a.value < 16 && b.value < 16 && c.value < 16 && d.value < 16 && CodeOf(a, b, c, d) < 0x100
    ensures a.value == 0 && b.value == 0
    ensures CodeOf(a, b, c, d) / 0x10 % 0x10 == c.value && CodeOf(a, b, c, d) % 0x10 == d.value
  {
  }

  lemma PiecePrinted(p: Piece)
    requires PieceOk(p) && TightPiece(p)
    ensures PieceText(p) == RenderChar(PieceMeaning(p))
  {
    if p.Code? {
      CodePrinted(p.first, p.second, p.third, p.fourth);
      HexPrinted(p.first);
      HexPrinted(p.second);
      HexPrinted(p.third);
      HexPrinted(p.fourth);
    }
  }

  lemma {:induction false} PiecesPrinted(pieces: seq<Piece>)
    requires PiecesOk(pieces) && TightPieces(pieces)
    ensures PiecesText(pieces) == RenderChars(PiecesMeaning(pieces))
  {
    if pieces != [] {
      PiecePrinted(pieces[0]);
      PiecesPrinted(pieces[1..]);
    }
  }

  lemma QuotedPrinted(pieces: seq<Piece>)
    requires PiecesOk(pieces) && TightPieces(pieces)
    ensures QuotedText(pieces) == RenderString(PiecesMeaning(pieces))
  {
    PiecesPrinted(pieces);
  }

  lemma {:induction false} DigitsPrinted(digits: seq<nat>)
    requires digits != [] && (forall i :: 0 <= i < |digits| ==> digits[i] < 10)
    requires |digits| == 1 || digits[0] != 0
    ensures DigitsText(digits) == Digits(Decimal(digits))
    ensures digits[0] != 0 ==> Decimal(digits) > 0
  {
    var n := |digits| - 1;
    if n == 0 {
      assert digits[..0] == [];
      assert Decimal(digits) == digits[0];
    } else {
      var rest := digits[..n];
      DigitsPrinted(rest);
      assert DigitsText(digits) == DigitsText(rest) + [DigitText(digits[n])];
      OneDigit(Decimal(rest), digits[n]);
    }
  }

  lemma OneDigit(n: nat, d: nat)
    requires n > 0 && d < 10
    ensures Digits(n * 10 + d) == Digits(n) + [Digit(d)] && Digit(d) == DigitText(d)
  {
  }

  lemma NumberPrinted(negative: bool, digits: seq<nat>)
    requires Proper(NumberText(negative, digits)) && Tight(NumberText(negative, digits))
    ensures Text(NumberText(negative, digits)) == RenderNumber(Signed(negative, digits))
  {
    DigitsPrinted(digits);
    if negative {
      if |digits| == 1 {
        assert digits == [digits[0]];
        assert digits[0] != 0;
      }
      assert Decimal(digits) > 0;
    } else {
      assert "" + DigitsText(digits) == DigitsText(digits);
    }
  }

  /** What stands between the brackets. */
  lemma {:induction false} ItemsPrinted(items: Items, first: bool)
    requires ItemsOk(items) && TightItems(items, first)
    ensures ItemsText(items) == RenderValues(ItemsMeaning(items)) + "]"
    ensures !first ==> ItemsMeaning(items) != []
    decreases items, 0
  {
    match items
    case NoItem(_) =>
    case LastItem(before, item, after) =>
      Printed(item);
      assert ItemsText(items) == "" + (Text(item) + ("" + "]"));
      assert [Meaning(item)] + [] == [Meaning(item)];
    case MoreItems(before, item, after, rest) =>
      Printed(item);
      ItemsPrinted(rest, false);
      var more := ItemsMeaning(rest);
      assert ItemsMeaning(items)[0] == Meaning(item) && ItemsMeaning(items)[1..] == more;
      Separated(Text(item), RenderValues(more), "]");
      assert ItemsText(items) == "" + (Text(item) + ("" + ("," + ItemsText(rest))));
  }

  lemma Separated(a: string, b: string, close: string)
    ensures "" + (a + ("" + ("," + (b + close)))) == a + "," + b + close
  {
  }

  /** A tight text is the printed text of what it means. */
  lemma {:induction false} Printed(c: Syntax)
    requires Proper(c) && Tight(c)
    ensures Text(c) == Render(Meaning(c))
    decreases c, 1
  {
    match c
    case NumberText(negative, digits) => NumberPrinted(negative, digits);
    case StringText(pieces) => QuotedPrinted(pieces);
    case ArrayText(items) => ItemsPrinted(items, true);
    case ObjectText(members) =>
      MembersPrinted(members, None);
      MembersMean(members, [], None);
      assert [] + MemberList(members) == MemberList(members);
    case _ =>
  }

  /** The members in the order in which they are written. */
  function MemberList(members: Members): seq<Entry>
    requires MembersOk(members)
  {
    match members
    case NoMember(_) => []
    case LastMember(m, _) => [MemberMeaning(m)]
    case MoreMembers(m, _, rest) => [MemberMeaning(m)] + MemberList(rest)
  }

  /** All keys are at most the last one. */
  ghost predicate UpTo(read: seq<Entry>, last: Option<string>) {
    if last.None? then read == []
    else read != [] && read[|read| - 1].key == last.value && Sorted(read)
  }

  lemma {:induction false} PutLast(read: seq<Entry>, e: Entry)
    requires forall i :: 0 <= i < |read| ==> Less(read[i].key, e.key)
    ensures Put(read, e) == read + [e]
  {
    if read != [] {
      Irreflexive(e.key);
      Asymmetric(read[0].key, e.key);
      PutLast(read[1..], e);
      assert read + [e] == [read[0]] + (read[1..] + [e]);
    }
  }

  lemma {:induction false} Irreflexive(a: string)
    ensures !Less(a, a)
  {
    if a != [] {
      Irreflexive(a[1..]);
    }
  }

  lemma {:induction false} Asymmetric(a: string, b: string)
    requires Less(a, b)
    ensures !Less(b, a)
  {
    if a != [] && a[0] == b[0] {
      Asymmetric(a[1..], b[1..]);
    }
  }

  lemma {:induction false} Transitive(a: string, b: string, c: string)
    requires Less(a, b) && Less(b, c)
    ensures Less(a, c)
  {
    if a != [] && a[0] == b[0] == c[0] {
      Transitive(a[1..], b[1..], c[1..]);
    }
  }

  lemma OneMoreKey(read: seq<Entry>, last: Option<string>, e: Entry)
    requires UpTo(read, last) && (last.Some? ==> Before(last.value, e.key))
    ensures Put(read, e) == read + [e] && UpTo(read + [e], Some(e.key))
  {
    if last.Some? {
      LessExactly(last.value, e.key);
      forall i | 0 <= i < |read|
        ensures Less(read[i].key, e.key)
      {
        if i < |read| - 1 {
          Transitive(read[i].key, last.value, e.key);
        }
      }
    }
    PutLast(read, e);
  }

  lemma MemberPrinted(m: Member, last: Option<string>)
    requires MemberOk(m) && TightMember(m, last) && Text(m.value) == Render(Meaning(m.value))
    ensures MemberText(m) == RenderEntry(MemberMeaning(m))
  {
    QuotedPrinted(m.key);
    assert MemberText(m) == QuotedText(m.key) + ":" + Text(m.value);
  }

  /** What stands between the braces. */
  lemma {:induction false} MembersPrinted(members: Members, last: Option<string>)
    requires MembersOk(members) && TightMembers(members, last)
    ensures MembersText(members) == RenderEntries(MemberList(members)) + "}"
    ensures last.Some? ==> MemberList(members) != []
    decreases members, 0
  {
    match members
    case NoMember(_) =>
    case LastMember(m, after) =>
      Printed(m.value);
      MemberPrinted(m, last);
      assert MemberText(m) + ("" + "}") == MemberText(m) + "}";
    case MoreMembers(m, after, rest) =>
      Printed(m.value);
      MemberPrinted(m, last);
      MembersPrinted(rest, Some(PiecesMeaning(m.key)));
      MoreEntries(MemberMeaning(m), MemberList(rest));
      SeparatedEntries(MemberText(m), RenderEntries(MemberList(rest)));
  }

  lemma MoreEntries(e: Entry, more: seq<Entry>)
    requires more != []
    ensures RenderEntries([e] + more) == RenderEntry(e) + "," + RenderEntries(more)
  {
    assert ([e] + more)[1..] == more;
  }

  /** Keys in increasing order are put one after the other. */
  lemma {:induction false} MembersMean(members: Members, read: seq<Entry>, last: Option<string>)
    requires MembersOk(members) && TightMembers(members, last) && UpTo(read, last)
    ensures MembersMeaning(members, read) == read + MemberList(members)
    ensures Sorted(MembersMeaning(members, read))
    decreases members
  {
    match members
    case NoMember(_) =>
      assert read + [] == read;
    case LastMember(m, after) =>
      OneMoreKey(read, last, MemberMeaning(m));
    case MoreMembers(m, after, rest) =>
      OneMoreKey(read, last, MemberMeaning(m));
      MembersMean(rest, read + [MemberMeaning(m)], Some(PiecesMeaning(m.key)));
      NextEntry(read, MemberMeaning(m), MemberList(rest));
  }

  lemma NextEntry(read: seq<Entry>, e: Entry, more: seq<Entry>)
    ensures read + [e] + more == read + ([e] + more)
  {
  }

  lemma SeparatedEntries(a: string, b: string)
    ensures a + ("" + ("," + (b + "}"))) == a + "," + b + "}"
  {
  }

  // ---------------------------------------------------------------- every value has a tight text

  function HexOf(value: nat): Hex {
    Hex(value, false)
  }

  function PieceOf(c: char): Piece {
    var v := c as nat;
    if c == '"' then Short('"')
    else if c == '\\' then Short('\\')
    else if v == 8 then Short('b')
    else if v == 9 then Short('t')
    else if v == 10 then Short('n')
    else if v == 12 then Short('f')
    else if v == 13 then Short('r')
    else if Control(v) then Code(HexOf(0), HexOf(0), HexOf(v / 0x10), HexOf(v % 0x10))
    else Raw(c)
  }

  lemma PieceOfFits(c: char)
    ensures PieceOk(PieceOf(c)) && TightPiece(PieceOf(c)) && PieceMeaning(PieceOf(c)) == c
  {
  }

  lemma {:induction false} PiecesOf(s: string) returns (pieces: seq<Piece>)
    ensures PiecesOk(pieces) && TightPieces(pieces) && PiecesMeaning(pieces) == s
  {
    if s == [] {
      pieces := [];
    } else {
      PieceOfFits(s[0]);
      var rest := PiecesOf(s[1..]);
      pieces := [PieceOf(s[0])] + rest;
      assert pieces[1..] == rest;
    }
  }

  lemma {:induction false} DigitsOf(n: nat) returns (digits: seq<nat>)
    ensures digits != [] && (forall i :: 0 <= i < |digits| ==> digits[i] < 10) && Decimal(digits) == n
    ensures |digits| == 1 || digits[0] != 0
    ensures n > 0 ==> digits[0] != 0
  {
    if n < 10 {
      digits := [n];
      assert digits[..0] == [];
    } else {
      var rest := DigitsOf(n / 10);
      digits := rest + [n % 10];
      assert digits[..|digits| - 1] == rest;
    }
  }

  /** Every value has a tight text. */
  lemma {:induction false} TextFor(v: JsonValue) returns (c: Syntax)
    requires Valid(v)
    ensures Proper(c) && Tight(c) && Meaning(c) == v
    decreases v, 1
  {
    match v
    case Null => c := NullText;
    case Bool(flag) => c := if flag then TrueText else FalseText;
    case Number(n) =>
      var digits := DigitsOf(if n < 0 then -n else n);
      c := NumberText(n < 0, digits);
    case Str(text) =>
      var pieces := PiecesOf(text);
      c := StringText(pieces);
    case Array(values) =>
      var items := ItemsFor(v, values, true);
      c := ArrayText(items);
    case Object(entries) =>
      var members := MembersFor(v, entries, [], None);
      assert [] + entries == entries;
      c := ObjectText(members);
  }

  lemma {:induction false} ItemsFor(v: JsonValue, values: seq<JsonValue>, first: bool) returns (items: Items)
    requires (forall i :: 0 <= i < |values| ==> values[i] < v && Valid(values[i])) && (first || values != [])
    ensures ItemsOk(items) && TightItems(items, first) && ItemsMeaning(items) == values
    decreases v, 0, |values|
  {
    if values == [] {
      items := NoItem("");
    } else {
      var item := TextFor(values[0]);
      if |values| == 1 {
        items := LastItem("", item, "");
      } else {
        var rest := ItemsFor(v, values[1..], false);
        items := MoreItems("", item, "", rest);
      }
    }
  }

  lemma {:induction false} MembersFor(v: JsonValue, entries: seq<Entry>, read: seq<Entry>, last: Option<string>)
    returns (members: Members)
    requires forall i :: 0 <= i < |entries| ==> entries[i].value < v && Valid(entries[i].value)
    requires UpTo(read, last) && Sorted(read + entries) && (last.None? || entries != [])
    ensures MembersOk(members) && TightMembers(members, last) && MembersMeaning(members, read) == read + entries
    decreases v, 0, |entries|
  {
    if entries == [] {
      members := NoMember("");
      assert read + [] == read;
    } else {
      var e := entries[0];
      var key := PiecesOf(e.key);
      var value := TextFor(e.value);
      var m := Member("", key, "", "", value);
      NextKey(read, entries, last);
      OneMoreKey(read, last, e);
      if |entries| == 1 {
        members := LastMember(m, "");
        assert entries == [e];
      } else {
        NextEntry(read, e, entries[1..]);
        assert [e] + entries[1..] == entries;
        var rest := MembersFor(v, entries[1..], read + [e], Some(e.key));
        members := MoreMembers(m, "", rest);
      }
    }
  }

  lemma NextKey(read: seq<Entry>, entries: seq<Entry>, last: Option<string>)
    requires UpTo(read, last) && Sorted(read + entries) && entries != []
    ensures last.Some? ==> Before(last.value, entries[0].key)
  {
    if last.Some? {
      assert (read + entries)[|read| - 1].key == last.value && (read + entries)[|read|] == entries[0];
      LessExactly(last.value, entries[0].key);
    }
  }

  /** The printed text of a value is its tight text: there is one, and only one. */
  lemma PrintedExactly(v: JsonValue, text: string)
    requires Valid(v)
    ensures text == Render(v) <==> exists c :: Proper(c) && Tight(c) && Meaning(c) == v && Text(c) == text
  {
    var c := TextFor(v);
    Printed(c);
    forall d | Proper(d) && Tight(d) && Meaning(d) == v
      ensures Text(d) == Render(v)
    {
      Printed(d);
    }
  }
}
