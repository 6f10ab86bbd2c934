/**
 Why a session file cannot be read, described without its readers: the first line that is no
 record, with its number, and the first field of it that is missing or out of range. The
 readers report exactly this.
 */
module SessionLogErrors {

  import opened Wrappers
  import opened Json
  import opened Conversation
  import opened Strings
  import opened SessionLog
  import opened SessionLogReading
  import G = JsonGrammar
  import E = JsonErrors
  import P = SessionLogProperties

  // ---------------------------------------------------------------- fields

  datatype Sort = AText | AFlag | ASmallNumber | ALargeNumber

  datatype Want = Want(key: string, sort: Sort)

  predicate SuitsSort(x: JsonValue, sort: Sort) {
    match sort
    case AText => x.Str?
    case AFlag => x.Bool?
    case ASmallNumber => x.Number? && 0 <= x.number <= 0xFFFF_FFFF
    case ALargeNumber => x.Number? && 0 <= x.number <= 0xFFFF_FFFF_FFFF_FFFF
  }

  ghost predicate Suits(v: JsonValue, w: Want) {
    exists x :: Has(v, w.key, x) && SuitsSort(x, w.sort)
  }

  /** A number that does not fit is out of range; anything else counts as missing. */
  ghost predicate Wrong(v: JsonValue, w: Want, e: SessionError) {
    && v.Object? && !Suits(v, w)
    && e == if (w.sort.ASmallNumber? || w.sort.ALargeNumber?) && exists n :: Has(v, w.key, Number(n))
            then OutOfRange(w.key) else Missing(w.key)
  }

  /** The first of the fields that is wrong. */
  ghost predicate FirstWrong(v: JsonValue, wants: seq<Want>, e: SessionError) {
    wants != [] && if Suits(v, wants[0]) then FirstWrong(v, wants[1..], e) else Wrong(v, wants[0], e)
  }

  ghost predicate AllSuit(v: JsonValue, wants: seq<Want>) {
    wants == [] || (Suits(v, wants[0]) && AllSuit(v, wants[1..]))
  }

  lemma FirstOf(v: JsonValue, w: Want, rest: seq<Want>, e: SessionError)
    ensures FirstWrong(v, [w] + rest, e) <==> if Suits(v, w) then FirstWrong(v, rest, e) else Wrong(v, w, e)
    ensures AllSuit(v, [w] + rest) <==> Suits(v, w) && AllSuit(v, rest)
  {
    assert ([w] + rest)[1..] == rest;
  }

  lemma NoneWrong(v: JsonValue, e: SessionError)
    ensures !FirstWrong(v, [], e) && AllSuit(v, [])
  {
  }

  lemma TextWrong(fields: seq<Entry>, key: string, e: SessionError)
    ensures RequiredString(fields, key) == Err(e) <==> Wrong(Object(fields), Want(key, AText), e)
    ensures RequiredString(fields, key).Ok? <==> Suits(Object(fields), Want(key, AText))
  {
    Suited(fields, Want(key, AText));
  }

  lemma SmallWrong(fields: seq<Entry>, key: string, e: SessionError)
    ensures RequiredU32(fields, key) == Err(e) <==> Wrong(Object(fields), Want(key, ASmallNumber), e)
    ensures RequiredU32(fields, key).Ok? <==> Suits(Object(fields), Want(key, ASmallNumber))
  {
    Suited(fields, Want(key, ASmallNumber));
  }

  lemma LargeWrong(fields: seq<Entry>, key: string, e: SessionError)
    ensures RequiredU64(fields, key) == Err(e) <==> Wrong(Object(fields), Want(key, ALargeNumber), e)
    ensures RequiredU64(fields, key).Ok? <==> Suits(Object(fields), Want(key, ALargeNumber))
  {
    Suited(fields, Want(key, ALargeNumber));
  }

  lemma Suited(fields: seq<Entry>, w: Want)
    ensures Suits(Object(fields), w) <==>
      Lookup(fields, w.key).Some? && SuitsSort(Lookup(fields, w.key).value, w.sort)
    ensures (exists n :: Has(Object(fields), w.key, Number(n))) <==>
      Lookup(fields, w.key).Some? && Lookup(fields, w.key).value.Number?
  {
    if Lookup(fields, w.key).Some? {
      var x := Lookup(fields, w.key).value;
      assert Has(Object(fields), w.key, x);
      if x.Number? {
        assert Has(Object(fields), w.key, Number(x.number));
      }
    }
  }

  // ---------------------------------------------------------------- messages

  const TEXT_FIELDS := [Want("text", AText)]
  const THINKING_FIELDS := [Want("thinking", AText)]
  const USE_FIELDS := [Want("id", AText), Want("name", AText), Want("input", AText)]
  const RESULT_FIELDS :=
    [Want("tool_use_id", AText), Want("tool_name", AText), Want("output", AText), Want("is_error", AFlag)]
  const USAGE_FIELDS :=
    [Want("input_tokens", ASmallNumber), Want("output_tokens", ASmallNumber),
     Want("cache_creation_input_tokens", ASmallNumber), Want("cache_read_input_tokens", ASmallNumber)]
  const COMPACTION_FIELDS :=
    [Want("count", ASmallNumber), Want("removed_message_count", ALargeNumber), Want("summary", AText)]
  const META_FIELDS :=
    [Want("version", ASmallNumber), Want("session_id", AText),
     Want("created_at_ms", ALargeNumber), Want("updated_at_ms", ALargeNumber)]

  ghost predicate WrongBlock(v: JsonValue, e: SessionError) {
    || (!v.Object? && e == NotAnObject("block"))
    || (Gives(v, "type", None) && e == Missing("type"))
    || (Has(v, "type", Str("text")) && FirstWrong(v, TEXT_FIELDS, e))
    || (Has(v, "type", Str("thinking")) && FirstWrong(v, THINKING_FIELDS, e))
    || (Has(v, "type", Str("tool_use")) && FirstWrong(v, USE_FIELDS, e))
    || (Has(v, "type", Str("tool_result")) && FirstWrong(v, RESULT_FIELDS, e))
    || (exists kind :: Has(v, "type", Str(kind)) && e == UnsupportedBlock(kind) &&
          kind != "text" && kind != "thinking" && kind != "tool_use" && kind != "tool_result")
  }

  lemma UseFails(fields: seq<Entry>, e: SessionError)
    ensures ReadToolUse(fields) == Err(e) <==> FirstWrong(Object(fields), USE_FIELDS, e)
  {
    var v := Object(fields);
    var id, name, input := Want("id", AText), Want("name", AText), Want("input", AText);
    assert USE_FIELDS == [id] + ([name] + ([input] + []));
    FirstOf(v, id, [name] + ([input] + []), e);
    FirstOf(v, name, [input] + [], e);
    FirstOf(v, input, [], e);
    NoneWrong(v, e);
    TextWrong(fields, "id", e);
    TextWrong(fields, "name", e);
    TextWrong(fields, "input", e);
  }

  lemma FlagWrong(fields: seq<Entry>, key: string, e: SessionError)
    ensures Suits(Object(fields), Want(key, AFlag)) <==> Lookup(fields, key).Some? && Lookup(fields, key).value.Bool?
    ensures Wrong(Object(fields), Want(key, AFlag), e) <==>
      !Suits(Object(fields), Want(key, AFlag)) && e == Missing(key)
  {
    Suited(fields, Want(key, AFlag));
  }

  lemma ResultFails(fields: seq<Entry>, e: SessionError)
    ensures ReadToolResult(fields) == Err(e) <==> FirstWrong(Object(fields), RESULT_FIELDS, e)
  {
    var v := Object(fields);
    var id, name, output, flag :=
      Want("tool_use_id", AText), Want("tool_name", AText), Want("output", AText), Want("is_error", AFlag);
    assert RESULT_FIELDS == [id] + ([name] + ([output] + ([flag] + [])));
    FirstOf(v, id, [name] + ([output] + ([flag] + [])), e);
    FirstOf(v, name, [output] + ([flag] + []), e);
    FirstOf(v, output, [flag] + [], e);
    FirstOf(v, flag, [], e);
    NoneWrong(v, e);
    TextWrong(fields, "tool_use_id", e);
    TextWrong(fields, "tool_name", e);
    TextWrong(fields, "output", e);
    FlagWrong(fields, "is_error", e);
  }

  lemma OneTextFails(fields: seq<Entry>, key: string, e: SessionError)
    ensures RequiredString(fields, key) == Err(e) <==> FirstWrong(Object(fields), [Want(key, AText)], e)
  {
    var v, w := Object(fields), Want(key, AText);
    assert [w] == [w] + [];
    FirstOf(v, w, [], e);
    NoneWrong(v, e);
    TextWrong(fields, key, e);
  }

  lemma TypeGiven(fields: seq<Entry>)
    ensures match OptionalString(fields, "type")
      case None => Gives(Object(fields), "type", None)
      case Some(kind) =>
        !Gives(Object(fields), "type", None) && forall k :: Has(Object(fields), "type", Str(k)) <==> k == kind
  {
    GivesExactly(fields, "type", None);
    if OptionalString(fields, "type").Some? {
      GivesExactly(fields, "type", OptionalString(fields, "type"));
    }
  }

  /** A block is refused exactly for its first wrong field. */
  lemma BlockFails(v: JsonValue, e: SessionError)
    ensures ReadBlock(v) == Err(e) <==> WrongBlock(v, e)
  {
    if v.Object? {
      var fields := v.entries;
      TypeGiven(fields);
      OneTextFails(fields, "text", e);
      OneTextFails(fields, "thinking", e);
      UseFails(fields, e);
      ResultFails(fields, e);
    }
  }

  ghost predicate WrongUsage(v: JsonValue, e: SessionError) {
    (!v.Object? && e == NotAnObject("usage")) || FirstWrong(v, USAGE_FIELDS, e)
  }

  lemma UsageFails(v: JsonValue, e: SessionError)
    ensures ReadUsage(v) == Err(e) <==> WrongUsage(v, e)
  {
    if v.Object? {
      var fields := v.entries;
      var a, b, c, d := USAGE_FIELDS[0], USAGE_FIELDS[1], USAGE_FIELDS[2], USAGE_FIELDS[3];
      assert USAGE_FIELDS == [a] + ([b] + ([c] + ([d] + [])));
      FirstOf(v, a, [b] + ([c] + ([d] + [])), e);
      FirstOf(v, b, [c] + ([d] + []), e);
      FirstOf(v, c, [d] + [], e);
      FirstOf(v, d, [], e);
      NoneWrong(v, e);
      SmallWrong(fields, a.key, e);
      SmallWrong(fields, b.key, e);
      SmallWrong(fields, c.key, e);
      SmallWrong(fields, d.key, e);
    }
  }

  /** The first value that is wrong; those before it are blocks. */
  ghost predicate FirstWrongBlock(values: seq<JsonValue>, e: SessionError) {
    values != [] &&
    (WrongBlock(values[0], e) || (IsBlock(values[0]) && FirstWrongBlock(values[1..], e)))
  }

  ghost predicate IsBlock(v: JsonValue) {
    exists b :: MeansBlock(v, b)
  }

  ghost predicate AreBlocks(values: seq<JsonValue>) {
    forall j :: 0 <= j < |values| ==> IsBlock(values[j])
  }

  lemma BlockOrError(v: JsonValue)
    ensures ReadBlock(v).Ok? <==> IsBlock(v)
  {
    if ReadBlock(v).Ok? {
      BlockExactly(v, ReadBlock(v).value);
    }
    forall b | MeansBlock(v, b)
      ensures ReadBlock(v).Ok?
    {
      BlockExactly(v, b);
    }
  }

  lemma {:induction false} BlocksFail(values: seq<JsonValue>, e: SessionError)
    ensures ReadBlocks(values) == Err(e) <==> FirstWrongBlock(values, e)
    decreases |values|
  {
    if values != [] {
      BlockFails(values[0], e);
      BlockOrError(values[0]);
      BlocksFail(values[1..], e);
    }
  }

  predicate IsRole(name: string) {
    name == "system" || name == "user" || name == "assistant" || name == "tool"
  }

  ghost predicate WrongMessage(v: JsonValue, e: SessionError) {
    || (!v.Object? && e == NotAnObject("message"))
    || (Gives(v, "role", None) && e == Missing("role"))
    || (exists name :: Has(v, "role", Str(name)) &&
          if IsRole(name) then WrongBody(v, e) else e == UnsupportedRole(name))
  }

  ghost predicate WrongBody(v: JsonValue, e: SessionError) {
    || ((forall values :: !Has(v, "blocks", Array(values))) && e == Missing("blocks"))
    || (exists values :: Has(v, "blocks", Array(values)) &&
          (FirstWrongBlock(values, e) || (AreBlocks(values) && WrongOptionalUsage(v, e))))
  }

  ghost predicate WrongOptionalUsage(v: JsonValue, e: SessionError) {
    exists u :: Has(v, "usage", u) && WrongUsage(u, e)
  }

  lemma {:induction false} AllBlocks(values: seq<JsonValue>)
    ensures ReadBlocks(values).Ok? <==> AreBlocks(values)
    decreases |values|
  {
    if values != [] {
      BlockOrError(values[0]);
      AllBlocks(values[1..]);
      FirstBlock(values);
    }
  }

  lemma FirstBlock(values: seq<JsonValue>)
    requires values != []
    ensures AreBlocks(values) <==> IsBlock(values[0]) && AreBlocks(values[1..])
  {
    var rest := values[1..];
    assert forall j :: 0 <= j < |rest| ==> rest[j] == values[j + 1];
    assert forall j :: 1 <= j < |values| ==> values[j] == rest[j - 1];
  }

  lemma RoleKnown(name: string)
    ensures ReadRole(name) == if IsRole(name) then ReadRole(name) else Err(UnsupportedRole(name))
    ensures ReadRole(name).Ok? <==> IsRole(name)
  {
  }

  /** A message is refused exactly for the first thing wrong with it. */
  lemma MessageFails(v: JsonValue, e: SessionError)
    ensures ReadMessage(v) == Err(e) <==> WrongMessage(v, e)
  {
    if v.Object? {
      var fields := v.entries;
      GivesExactly(fields, "role", None);
      match OptionalString(fields, "role")
      case None =>
      case Some(name) =>
        assert forall n :: Has(v, "role", Str(n)) <==> n == name;
        RoleKnown(name);
        if IsRole(name) {
          BodyFails(fields, ReadRole(name).value, e);
        }
    }
  }

  lemma BodyFails(fields: seq<Entry>, role: Role, e: SessionError)
    requires OptionalString(fields, "role").Some? && ReadRole(OptionalString(fields, "role").value) == Ok(role)
    ensures ReadMessageFields(fields) == Err(e) <==> WrongBody(Object(fields), e)
  {
    var v := Object(fields);
    match Lookup(fields, "blocks")
    case Some(Array(values)) =>
      assert Has(v, "blocks", Array(values));
      BlocksFail(values, e);
      AllBlocks(values);
      if Lookup(fields, "usage").Some? {
        var u := Lookup(fields, "usage").value;
        assert Has(v, "usage", u);
        UsageFails(u, e);
      }
    case _ =>
  }

  // ---------------------------------------------------------------- the other records

  ghost predicate WrongFork(v: JsonValue, e: SessionError) {
    || (!v.Object? && e == NotAnObject("fork metadata"))
    || FirstWrong(v, [Want("parent_session_id", AText)], e)
  }

  ghost predicate WrongOptionalFork(v: JsonValue, e: SessionError) {
    exists x :: Has(v, "fork", x) && WrongFork(x, e)
  }

  lemma OptionalForkFails(fields: seq<Entry>, e: SessionError)
    ensures ReadOptionalFork(fields) == Err(e) <==> WrongOptionalFork(Object(fields), e)
  {
    match Lookup(fields, "fork")
    case None =>
    case Some(x) =>
      assert Has(Object(fields), "fork", x);
      if x.Object? {
        OneTextFails(x.entries, "parent_session_id", e);
      }
  }

  lemma CompactionFails(fields: seq<Entry>, e: SessionError)
    ensures ReadCompaction(fields) == Err(e) <==> FirstWrong(Object(fields), COMPACTION_FIELDS, e)
  {
    var v := Object(fields);
    var a, b, c := COMPACTION_FIELDS[0], COMPACTION_FIELDS[1], COMPACTION_FIELDS[2];
    assert COMPACTION_FIELDS == [a] + ([b] + ([c] + []));
    FirstOf(v, a, [b] + ([c] + []), e);
    FirstOf(v, b, [c] + [], e);
    FirstOf(v, c, [], e);
    NoneWrong(v, e);
    SmallWrong(fields, a.key, e);
    LargeWrong(fields, b.key, e);
    TextWrong(fields, c.key, e);
  }

  ghost predicate WrongMeta(v: JsonValue, e: SessionError) {
    FirstWrong(v, META_FIELDS, e) || (AllSuit(v, META_FIELDS) && WrongOptionalFork(v, e))
  }

  lemma MetaFails(d: Draft, fields: seq<Entry>, e: SessionError)
    ensures ReadMeta(d, fields) == Err(e) <==> WrongMeta(Object(fields), e)
  {
    var v := Object(fields);
    var version, id, created, updated := META_FIELDS[0], META_FIELDS[1], META_FIELDS[2], META_FIELDS[3];
    assert META_FIELDS == [version] + ([id] + ([created] + ([updated] + [])));
    FirstOf(v, version, [id] + ([created] + ([updated] + [])), e);
    FirstOf(v, id, [created] + ([updated] + []), e);
    FirstOf(v, created, [updated] + [], e);
    FirstOf(v, updated, [], e);
    NoneWrong(v, e);
    SmallWrong(fields, version.key, e);
    TextWrong(fields, id.key, e);
    LargeWrong(fields, created.key, e);
    LargeWrong(fields, updated.key, e);
    OptionalForkFails(fields, e);
  }

  /** A prompt record is never refused. */
  ghost predicate WrongRecord(v: JsonValue, line: nat, e: SessionError) {
    || (Gives(v, "type", None) && e == RecordWithoutType(line))
    || (Has(v, "type", Str("session_meta")) && WrongMeta(v, e))
    || (Has(v, "type", Str("message")) && WrongMessageRecord(v, line, e))
    || (Has(v, "type", Str("compaction")) && FirstWrong(v, COMPACTION_FIELDS, e))
    || (exists kind :: Has(v, "type", Str(kind)) && e == UnsupportedRecord(line, kind) &&
          kind != "session_meta" && kind != "message" && kind != "compaction" && kind != "prompt_history")
  }

  ghost predicate WrongMessageRecord(v: JsonValue, line: nat, e: SessionError) {
    || (Lacks(v, "message") && e == RecordWithoutMessage(line))
    || (exists x :: Has(v, "message", x) && WrongMessage(x, e))
  }

  lemma MessageRecordFails(d: Draft, fields: seq<Entry>, line: nat, e: SessionError)
    requires OptionalString(fields, "type") == Some("message")
    ensures ReadFields(d, fields, line) == Err(e) <==> WrongMessageRecord(Object(fields), line, e)
  {
    match Lookup(fields, "message")
    case None =>
    case Some(x) =>
      assert Has(Object(fields), "message", x);
      MessageFails(x, e);
  }

  lemma RecordFails(d: Draft, fields: seq<Entry>, line: nat, e: SessionError)
    ensures ReadFields(d, fields, line) == Err(e) <==> WrongRecord(Object(fields), line, e)
  {
    TypeGiven(fields);
    match OptionalString(fields, "type")
    case None =>
    case Some(kind) =>
      if kind == "session_meta" {
        MetaFails(d, fields, e);
      } else if kind == "message" {
        MessageRecordFails(d, fields, line, e);
      } else if kind == "compaction" {
        CompactionFails(fields, e);
      }
  }

  // ---------------------------------------------------------------- lines

  /** The line without the white space around it is no JSON, no object, or a wrong record. */
  ghost predicate WrongLine(raw: string, line: nat, e: SessionError) {
    exists before, text, after ::
      White(before) && White(after) && raw == before + text + after && Trimmed(text) && text != [] &&
      WrongText(text, line, e)
  }

  ghost predicate WrongText(text: string, line: nat, e: SessionError) {
    || (exists error :: E.Rejected(text, error) && e == InvalidRecord(line, error))
    || (exists v :: G.Writes(text, v) && if v.Object? then WrongRecord(v, line, e) else e == RecordNotAnObject(line))
  }

  lemma TextFails(d: Draft, text: string, line: nat, e: SessionError)
    requires text != [] && Trim(text) == text
    ensures ReadLine(d, text, line) == Err(e) <==> WrongText(text, line, e)
  {
    forall v
      ensures Parse(text) == Result.Ok(v) <==> G.Writes(text, v)
    {
      G.AcceptedExactly(text, v);
    }
    forall error
      ensures Parse(text) == Result.Err(error) <==> E.Rejected(text, error)
    {
      E.RejectedExactly(text, error);
    }
    match Parse(text)
    case Err(error) => assert E.Rejected(text, error);
    case Ok(v) =>
      assert G.Writes(text, v);
      if v.Object? {
        RecordFails(d, v.entries, line, e);
      }
  }

  /** A line is refused exactly for what is wrong with it, under its number. */
  lemma LineFails(d: Draft, raw: string, line: nat, e: SessionError)
    ensures ReadLine(d, raw, line) == Err(e) <==> WrongLine(raw, line, e)
  {
    var before, after := TrimSplits(raw);
    if Trim(raw) != [] {
      TrimmedAgain(raw);
      TextFails(d, Trim(raw), line, e);
      assert ReadLine(d, raw, line) == ReadLine(d, Trim(raw), line);
    }
    forall b, text, a |
      White(b) && White(a) && raw == b + text + a && Trimmed(text) && text != []
      ensures text == Trim(raw)
    {
      TrimOf(b, text, a);
    }
  }

  lemma TrimmedAgain(raw: string)
    ensures Trim(Trim(raw)) == Trim(raw) && Trimmed(Trim(raw))
  {
    var before, after := TrimSplits(raw);
    assert Trim(raw) == [] + Trim(raw) + [];
    TrimOf([], Trim(raw), []);
  }

  /** The first line that is wrong, the lines counted from `first`; those before it can be read. */
  ghost predicate FirstWrongLine(lines: seq<string>, d: Draft, first: nat, e: SessionError)
    decreases |lines|
  {
    && lines != []
    && (|| WrongLine(lines[0], first, e)
        || exists next :: MeansLine(lines[0], d, next) && FirstWrongLine(lines[1..], next, first + 1, e))
  }

  lemma {:induction false} LinesFail(lines: seq<string>, d: Draft, first: nat, e: SessionError)
    ensures ReadLines(d, lines, first) == Err(e) <==> FirstWrongLine(lines, d, first, e)
    decreases |lines|
  {
    if lines != [] {
      LineFails(d, lines[0], first, e);
      LineOrError(d, lines[0], first);
      if ReadLine(d, lines[0], first).Ok? {
        LinesFail(lines[1..], ReadLine(d, lines[0], first).value, first + 1, e);
      }
    }
  }

  lemma LineOrError(d: Draft, raw: string, line: nat)
    ensures forall next :: ReadLine(d, raw, line) == Ok(next) <==> MeansLine(raw, d, next)
  {
    forall next
      ensures ReadLine(d, raw, line) == Ok(next) <==> MeansLine(raw, d, next)
    {
      LineExactly(raw, d, next, line);
    }
  }

  /** A file of records is refused exactly for its first wrong line, the lines counted from one. */
  lemma FileFails(contents: string, now: U64, freshId: string, e: SessionError)
    ensures FromJsonl(contents, now, freshId) == Err(e) <==>
      exists d :: Fresh(d) && FirstWrongLine(Lines(contents), d, 1, e)
  {
    LinesFail(Lines(contents), EMPTY_DRAFT, 1, e);
    assert Fresh(EMPTY_DRAFT);
    forall d | Fresh(d)
      ensures d == EMPTY_DRAFT
    {
    }
  }

  // ---------------------------------------------------------------- the legacy format

  ghost predicate IsMessage(v: JsonValue) {
    exists m :: MeansMessage(v, m)
  }

  ghost predicate FirstWrongMessage(values: seq<JsonValue>, e: SessionError) {
    values != [] &&
    (WrongMessage(values[0], e) || (IsMessage(values[0]) && FirstWrongMessage(values[1..], e)))
  }

  ghost predicate AreMessages(values: seq<JsonValue>) {
    forall j :: 0 <= j < |values| ==> IsMessage(values[j])
  }

  lemma MessageOrError(v: JsonValue)
    ensures ReadMessage(v).Ok? <==> IsMessage(v)
  {
    if ReadMessage(v).Ok? {
      MessageExactly(v, ReadMessage(v).value);
    }
    forall m | MeansMessage(v, m)
      ensures ReadMessage(v).Ok?
    {
      MessageExactly(v, m);
    }
  }

  lemma {:induction false} MessagesFail(values: seq<JsonValue>, e: SessionError)
    ensures ReadMessages(values) == Err(e) <==> FirstWrongMessage(values, e)
    ensures ReadMessages(values).Ok? <==> AreMessages(values)
    decreases |values|
  {
    if values != [] {
      MessageFails(values[0], e);
      MessageOrError(values[0]);
      MessagesFail(values[1..], e);
      FirstMessage(values);
    }
  }

  lemma FirstMessage(values: seq<JsonValue>)
    requires values != []
    ensures AreMessages(values) <==> IsMessage(values[0]) && AreMessages(values[1..])
  {
    var rest := values[1..];
    assert forall j :: 0 <= j < |rest| ==> rest[j] == values[j + 1];
    assert forall j :: 1 <= j < |values| ==> values[j] == rest[j - 1];
  }

  /** A time stamp may be missing, but must not be wrong. */
  ghost predicate WrongTime(v: JsonValue, key: string, e: SessionError) {
    !Lacks(v, key) && Wrong(v, Want(key, ALargeNumber), e)
  }

  lemma TimeFails(fields: seq<Entry>, key: string, default: U64, e: SessionError)
    ensures OptionalU64(fields, key, default) == Err(e) <==> WrongTime(Object(fields), key, e)
    ensures OptionalU64(fields, key, default).Ok? <==>
      Lacks(Object(fields), key) || Suits(Object(fields), Want(key, ALargeNumber))
  {
    LargeWrong(fields, key, e);
  }

  ghost predicate WrongOptionalCompaction(v: JsonValue, e: SessionError) {
    exists x :: Has(v, "compaction", x) &&
      if x.Object? then FirstWrong(x, COMPACTION_FIELDS, e) else e == NotAnObject("compaction")
  }

  lemma OptionalCompactionFails(fields: seq<Entry>, e: SessionError)
    ensures ReadOptionalCompaction(fields) == Err(e) <==> WrongOptionalCompaction(Object(fields), e)
  {
    match Lookup(fields, "compaction")
    case None =>
    case Some(x) =>
      assert Has(Object(fields), "compaction", x);
      if x.Object? {
        CompactionFails(x.entries, e);
      }
  }

  /** The parts of a session after its messages, in the order in which they are looked at. */
  ghost predicate WrongRest(v: JsonValue, e: SessionError) {
    || WrongTime(v, "created_at_ms", e)
    || (TimeFits(v, "created_at_ms") &&
          (|| WrongTime(v, "updated_at_ms", e)
           || (TimeFits(v, "updated_at_ms") && WrongLinks(v, e))))
  }

  ghost predicate TimeFits(v: JsonValue, key: string) {
    Lacks(v, key) || Suits(v, Want(key, ALargeNumber))
  }

  ghost predicate WrongLinks(v: JsonValue, e: SessionError) {
    || WrongOptionalCompaction(v, e)
    || ((exists c :: MeansOptionalCompaction(v, c)) && WrongOptionalFork(v, e))
  }

  lemma RestFails(fields: seq<Entry>, version: U32, messages: seq<Message>, now: U64, freshId: string, e: SessionError)
    ensures FromRest(fields, version, messages, now, freshId) == Err(e) <==> WrongRest(Object(fields), e)
  {
    TimeFails(fields, "created_at_ms", now, e);
    var created := OptionalU64(fields, "created_at_ms", now);
    if created.Ok? {
      TimeFails(fields, "updated_at_ms", created.value, e);
    }
    OptionalCompactionFails(fields, e);
    OptionalForkFails(fields, e);
    forall c
      ensures ReadOptionalCompaction(fields) == Result.Ok(c) <==> MeansOptionalCompaction(Object(fields), c)
    {
      OptionalCompactionExactly(fields, c);
    }
    if ReadOptionalCompaction(fields).Ok? {
      assert MeansOptionalCompaction(Object(fields), ReadOptionalCompaction(fields).value);
    }
  }

  /** A missing version is reported as no session at all. */
  ghost predicate WrongSession(v: JsonValue, e: SessionError) {
    var version := Want("version", ASmallNumber);
    || (!v.Object? && e == NotAnObject("session"))
    || (Wrong(v, version, OutOfRange("version")) && e == OutOfRange("version"))
    || (Wrong(v, version, Missing("version")) && e == NotAnObject("session"))
    || (Suits(v, version) && WrongContents(v, e))
  }

  ghost predicate WrongContents(v: JsonValue, e: SessionError) {
    || ((forall values :: !Has(v, "messages", Array(values))) && e == Missing("messages"))
    || (exists values :: Has(v, "messages", Array(values)) &&
          (FirstWrongMessage(values, e) || (AreMessages(values) && WrongRest(v, e))))
  }

  lemma SessionFails(v: JsonValue, now: U64, freshId: string, e: SessionError)
    ensures FromJson(v, now, freshId) == Err(e) <==> WrongSession(v, e)
  {
    if v.Object? {
      var fields := v.entries;
      SmallWrong(fields, "version", OutOfRange("version"));
      SmallWrong(fields, "version", Missing("version"));
      if RequiredU32(fields, "version").Ok? {
        ContentsFail(fields, RequiredU32(fields, "version").value, now, freshId, e);
      }
    }
  }

  lemma ContentsFail(fields: seq<Entry>, version: U32, now: U64, freshId: string, e: SessionError)
    requires RequiredU32(fields, "version") == Result.Ok(version)
    ensures FromFields(fields, now, freshId) == Err(e) <==> WrongContents(Object(fields), e)
  {
    var v := Object(fields);
    match Lookup(fields, "messages")
    case Some(Array(values)) =>
      assert Has(v, "messages", Array(values));
      MessagesFail(values, e);
      if ReadMessages(values).Ok? {
        RestFails(fields, version, ReadMessages(values).value, now, freshId, e);
      }
    case _ =>
  }

  /** A file of either format is refused exactly for the first thing wrong with it. */
  lemma LoadFails(contents: string, now: U64, freshId: string, e: SessionError)
    ensures Load(contents, now, freshId) == Err(e) <==>
      if exists v :: IsLegacy(contents, v) then exists v :: IsLegacy(contents, v) && WrongSession(v, e)
      else exists d :: Fresh(d) && FirstWrongLine(Lines(contents), d, 1, e)
  {
    FileFails(contents, now, freshId, e);
    match FormatOf(contents)
    case Legacy(v) =>
      P.LegacyExactly(contents, v);
      SessionFails(v, now, freshId, e);
      forall u | IsLegacy(contents, u)
        ensures u == v
      {
        P.LegacyExactly(contents, u);
      }
      assert IsLegacy(contents, v);
    case RecordPerLine =>
      forall v
        ensures !IsLegacy(contents, v)
      {
        P.LegacyExactly(contents, v);
      }
  }
}
