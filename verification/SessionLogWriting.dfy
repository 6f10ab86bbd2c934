/**
 What a saved session file holds, described without its writers: one line for each record, in
 order, and in each record exactly the fields it should have.
 */
module SessionLogWriting {

  import opened Wrappers
  import opened Json
  import opened Conversation
  import opened SessionLog
  import opened SessionLogReading
  import P = SessionLogProperties

  // ---------------------------------------------------------------- fields

  function KeysOf(fields: seq<Entry>): set<string> {
    set i | 0 <= i < |fields| :: fields[i].key
  }

  ghost predicate HasOnly(v: JsonValue, keys: set<string>) {
    v.Object? && KeysOf(v.entries) == keys
  }

  lemma {:induction false} InsertKeys(fields: seq<Entry>, key: string, value: JsonValue)
    ensures KeysOf(Insert(fields, key, value)) == KeysOf(fields) + {key}
  {
    var r := Insert(fields, key, value);
    KeysApart(r);
    if fields == [] {
      assert r[1..] == [];
    } else {
      KeysApart(fields);
      if fields[0].key != key && !Less(key, fields[0].key) {
        InsertKeys(fields[1..], key, value);
        assert r[1..] == Insert(fields[1..], key, value);
      } else if fields[0].key == key {
        assert r[1..] == fields[1..];
      } else {
        assert r[1..] == fields;
      }
    }
  }

  lemma KeysApart(fields: seq<Entry>)
    requires fields != []
    ensures KeysOf(fields) == {fields[0].key} + KeysOf(fields[1..])
  {
    var rest := fields[1..];
    forall key | key in KeysOf(fields)
      ensures key == fields[0].key || key in KeysOf(rest)
    {
      var i :| 0 <= i < |fields| && fields[i].key == key;
      if i > 0 {
        assert rest[i - 1].key == key;
      }
    }
    forall key | key in KeysOf(rest)
      ensures key in KeysOf(fields)
    {
      var i :| 0 <= i < |rest| && rest[i].key == key;
      assert fields[i + 1].key == key;
    }
  }

  lemma InsertSomeKeys(fields: seq<Entry>, key: string, value: Option<JsonValue>)
    ensures KeysOf(InsertSome(fields, key, value)) == KeysOf(fields) + if value.Some? then {key} else {}
  {
    if value.Some? {
      InsertKeys(fields, key, value.value);
    }
  }

  lemma KindKeys(kind: string)
    ensures KeysOf(Kind(kind)) == {"type"}
  {
    InsertKeys([], "type", Str(kind));
  }

  // ---------------------------------------------------------------- messages

  function BlockKeys(b: Block): set<string> {
    match b
    case Text(_) => {"type", "text"}
    case Thinking(_, signature) => {"type", "thinking"} + if signature.Some? then {"signature"} else {}
    case ToolUse(_, _, _) => {"type", "id", "name", "input"}
    case ToolResult(_, _, _, _) => {"type", "tool_use_id", "tool_name", "output", "is_error"}
  }

  ghost predicate WritesBlock(v: JsonValue, b: Block) {
    MeansBlock(v, b) && HasOnly(v, BlockKeys(b))
  }

  lemma BlockWritten(b: Block)
    ensures WritesBlock(BlockJson(b), b)
  {
    P.BlockReadBack(b);
    BlockExactly(BlockJson(b), b);
    match b
    case Text(text) =>
      KindKeys("text");
      InsertKeys(Kind("text"), "text", Str(text));
    case Thinking(thinking, signature) =>
      KindKeys("thinking");
      InsertKeys(Kind("thinking"), "thinking", Str(thinking));
      InsertSomeKeys(Insert(Kind("thinking"), "thinking", Str(thinking)), "signature", OptionalText(signature));
    case ToolUse(id, name, input) => UseKeys(id, name, input);
    case ToolResult(id, name, output, isError) =>
      KindKeys("tool_result");
      ResultKeys(Kind("tool_result"), id, name, output, isError);
  }

  lemma UseKeys(id: string, name: string, input: string)
    ensures KeysOf(BlockJson(ToolUse(id, name, input)).entries) == {"type", "id", "name", "input"}
  {
    var f0 := Kind("tool_use");
    var f1 := Insert(f0, "id", Str(id));
    KindKeys("tool_use");
    InsertKeys(f0, "id", Str(id));
    InsertKeys(f1, "name", Str(name));
    InsertKeys(Insert(f1, "name", Str(name)), "input", Str(input));
  }

  lemma ResultKeys(f0: seq<Entry>, id: string, name: string, output: string, isError: bool)
    ensures KeysOf(WithToolResult(f0, id, name, output, isError)) ==
      KeysOf(f0) + {"tool_use_id", "tool_name", "output", "is_error"}
  {
    var f1 := Insert(f0, "tool_use_id", Str(id));
    var f2 := Insert(f1, "tool_name", Str(name));
    InsertKeys(f0, "tool_use_id", Str(id));
    InsertKeys(f1, "tool_name", Str(name));
    InsertKeys(f2, "output", Str(output));
    InsertKeys(Insert(f2, "output", Str(output)), "is_error", Bool(isError));
  }

  ghost predicate WritesUsage(v: JsonValue, u: Usage) {
    && MeansUsage(v, u)
    && HasOnly(v, {"input_tokens", "output_tokens", "cache_creation_input_tokens", "cache_read_input_tokens"})
  }

  lemma UsageWritten(u: Usage)
    ensures WritesUsage(UsageJson(u), u)
  {
    P.UsageReadBack(u);
    UsageExactly(UsageJson(u), u);
    var f1 := Insert([], "input_tokens", Number(u.inputTokens));
    var f2 := Insert(f1, "output_tokens", Number(u.outputTokens));
    var f3 := Insert(f2, "cache_creation_input_tokens", Number(u.cacheCreationTokens));
    InsertKeys([], "input_tokens", Number(u.inputTokens));
    InsertKeys(f1, "output_tokens", Number(u.outputTokens));
    InsertKeys(f2, "cache_creation_input_tokens", Number(u.cacheCreationTokens));
    InsertKeys(f3, "cache_read_input_tokens", Number(u.cacheReadTokens));
  }

  ghost predicate WritesMessage(v: JsonValue, m: Message) {
    && HasOnly(v, {"role", "blocks"} + if m.usage.Some? then {"usage"} else {})
    && Has(v, "role", Str(NameOf(m.role)))
    && (exists values :: Has(v, "blocks", Array(values)) && WritesBlocks(values, m.blocks))
    && (m.usage.Some? ==> exists u :: Has(v, "usage", u) && WritesUsage(u, m.usage.value))
  }

  ghost predicate WritesBlocks(values: seq<JsonValue>, blocks: seq<Block>) {
    |values| == |blocks| && forall i :: 0 <= i < |values| ==> WritesBlock(values[i], blocks[i])
  }

  lemma {:induction false} BlocksWritten(blocks: seq<Block>)
    ensures WritesBlocks(BlocksJson(blocks), blocks)
  {
    if blocks != [] {
      BlockWritten(blocks[0]);
      BlocksWritten(blocks[1..]);
      var values := BlocksJson(blocks);
      assert forall i :: 1 <= i < |values| ==> values[i] == values[1..][i - 1] && blocks[i] == blocks[1..][i - 1];
    }
  }

  lemma MessageWritten(m: Message)
    ensures WritesMessage(MessageJson(m), m)
  {
    var values := BlocksJson(m.blocks);
    var usage := if m.usage.None? then None else Some(UsageJson(m.usage.value));
    if m.usage.Some? {
      P.UsageReadBack(m.usage.value);
      UsageWritten(m.usage.value);
    }
    P.BlocksReadBack(m.blocks);
    BlocksWritten(m.blocks);
    var fields := P.MessageFields(RoleName(m.role), values, usage);
    MessageKeys(RoleName(m.role), values, usage);
    FieldsOfMessage(fields, m, values, usage);
  }

  lemma MessageKeys(role: string, values: seq<JsonValue>, usage: Option<JsonValue>)
    ensures KeysOf(InsertSome(Insert(Insert([], "role", Str(role)), "blocks", Array(values)), "usage", usage)) ==
      {"role", "blocks"} + if usage.Some? then {"usage"} else {}
  {
    var f1 := Insert([], "role", Str(role));
    var f2 := Insert(f1, "blocks", Array(values));
    InsertKeys([], "role", Str(role));
    InsertKeys(f1, "blocks", Array(values));
    InsertSomeKeys(f2, "usage", usage);
  }

  lemma FieldsOfMessage(fields: seq<Entry>, m: Message, values: seq<JsonValue>, usage: Option<JsonValue>)
    requires Lookup(fields, "role") == Some(Str(RoleName(m.role)))
    requires Lookup(fields, "blocks") == Some(Array(values)) && WritesBlocks(values, m.blocks)
    requires Lookup(fields, "usage") == usage && usage.Some? == m.usage.Some?
    requires usage.Some? ==> WritesUsage(usage.value, m.usage.value)
    requires KeysOf(fields) == {"role", "blocks"} + if usage.Some? then {"usage"} else {}
    ensures WritesMessage(Object(fields), m)
  {
    var v := Object(fields);
    assert Has(v, "blocks", Array(values));
    if usage.Some? {
      assert Has(v, "usage", usage.value);
    }
  }

  // ---------------------------------------------------------------- the records

  ghost predicate WritesMessageRecord(v: JsonValue, m: Message) {
    && HasOnly(v, {"type", "message"})
    && Has(v, "type", Str("message")) && (exists x :: Has(v, "message", x) && WritesMessage(x, m))
  }

  lemma MessageRecordWritten(m: Message)
    ensures WritesMessageRecord(MessageRecord(m), m)
  {
    P.MessageReadBack(m);
    MessageWritten(m);
    P.KindInserted("message");
    P.Inserted(Kind("message"), "message", MessageJson(m));
    KindKeys("message");
    InsertKeys(Kind("message"), "message", MessageJson(m));
    assert Has(MessageRecord(m), "message", MessageJson(m));
  }

  /** The time stamp is the one of the prompt, or the largest JSON number. */
  ghost predicate WritesPrompt(v: JsonValue, e: PromptEntry) {
    && HasOnly(v, {"type", "timestamp_ms", "text"})
    && Has(v, "type", Str("prompt_history")) && Has(v, "text", Str(e.text))
    && Has(v, "timestamp_ms",
           Number(if e.timestampMs <= 0x7FFF_FFFF_FFFF_FFFF then e.timestampMs else 0x7FFF_FFFF_FFFF_FFFF))
  }

  lemma PromptWritten(e: PromptEntry)
    ensures WritesPrompt(PromptRecord(e), e)
  {
    var f0 := Kind("prompt_history");
    var f1 := Insert(f0, "timestamp_ms", Number(Clamped(e.timestampMs)));
    P.KindInserted("prompt_history");
    P.Inserted(f0, "timestamp_ms", Number(Clamped(e.timestampMs)));
    P.Inserted(f1, "text", Str(e.text));
    KindKeys("prompt_history");
    InsertKeys(f0, "timestamp_ms", Number(Clamped(e.timestampMs)));
    InsertKeys(f1, "text", Str(e.text));
  }

  ghost predicate WritesCompaction(v: JsonValue, c: SessionLog.Compaction) {
    && HasOnly(v, {"type", "count", "removed_message_count", "summary"})
    && Has(v, "type", Str("compaction")) && MeansCompaction(v, c)
  }

  lemma CompactionWritten(c: SessionLog.Compaction)
    requires c.removedMessageCount <= I64_MAX
    ensures WritesCompaction(Object(CompactionFields(c)), c)
  {
    var f0 := Kind("compaction");
    var f1 := Insert(f0, "count", Number(c.count));
    var f2 := Insert(f1, "removed_message_count", Number(c.removedMessageCount));
    P.KindInserted("compaction");
    P.Inserted(f0, "count", Number(c.count));
    P.Inserted(f1, "removed_message_count", Number(c.removedMessageCount));
    P.Inserted(f2, "summary", Str(c.summary));
    KindKeys("compaction");
    InsertKeys(f0, "count", Number(c.count));
    InsertKeys(f1, "removed_message_count", Number(c.removedMessageCount));
    InsertKeys(f2, "summary", Str(c.summary));
  }

  ghost predicate WritesFork(v: JsonValue, f: Fork) {
    && HasOnly(v, {"parent_session_id"} + if f.branchName.Some? then {"branch_name"} else {})
    && MeansFork(v, f)
  }

  lemma ForkWritten(f: Fork)
    ensures WritesFork(ForkJson(f), f)
  {
    P.ForkReadBack(f);
    ForkExactly(ForkJson(f), f);
    InsertKeys([], "parent_session_id", Str(f.parentSessionId));
    InsertSomeKeys(Insert([], "parent_session_id", Str(f.parentSessionId)), "branch_name", OptionalText(f.branchName));
  }

  function MetaKeys(s: Session): set<string> {
    {"type", "version", "session_id", "created_at_ms", "updated_at_ms"}
    + (if s.fork.Some? then {"fork"} else {})
    + (if s.workspaceRoot.Some? then {"workspace_root"} else {})
    + (if s.model.Some? then {"model"} else {})
  }

  ghost predicate WritesMeta(v: JsonValue, s: Session) {
    && HasOnly(v, MetaKeys(s))
    && Has(v, "type", Str("session_meta"))
    && Has(v, "version", Number(s.version)) && Has(v, "session_id", Str(s.sessionId))
    && Has(v, "created_at_ms", Number(s.createdAtMs)) && Has(v, "updated_at_ms", Number(s.updatedAtMs))
    && (s.fork.Some? ==> exists x :: Has(v, "fork", x) && WritesFork(x, s.fork.value))
    && (s.workspaceRoot.Some? ==>
          s.workspaceRoot.value.Utf8? && Has(v, "workspace_root", Str(s.workspaceRoot.value.name)))
    && (s.model.Some? ==> Has(v, "model", Str(s.model.value)))
  }

  lemma NumberKeys(f0: seq<Entry>, s: Session)
    ensures KeysOf(WithNumbers(f0, s)) == KeysOf(f0) + {"version", "session_id", "created_at_ms", "updated_at_ms"}
  {
    var f1 := Insert(f0, "version", Number(s.version));
    var f2 := Insert(f1, "session_id", Str(s.sessionId));
    var f3 := Insert(f2, "created_at_ms", Number(s.createdAtMs));
    InsertKeys(f0, "version", Number(s.version));
    InsertKeys(f1, "session_id", Str(s.sessionId));
    InsertKeys(f2, "created_at_ms", Number(s.createdAtMs));
    InsertKeys(f3, "updated_at_ms", Number(s.updatedAtMs));
  }

  lemma OptionKeys(f0: seq<Entry>, s: Session)
    requires s.workspaceRoot != Some(NotUtf8)
    ensures KeysOf(WithOptions(f0, s)) ==
      KeysOf(f0) + (if s.fork.Some? then {"fork"} else {})
      + (if s.workspaceRoot.Some? then {"workspace_root"} else {}) + (if s.model.Some? then {"model"} else {})
  {
    var f1 := InsertSome(f0, "fork", OptionalFork(s.fork));
    var f2 := InsertSome(f1, "workspace_root", OptionalRoot(s.workspaceRoot));
    InsertSomeKeys(f0, "fork", OptionalFork(s.fork));
    InsertSomeKeys(f1, "workspace_root", OptionalRoot(s.workspaceRoot));
    InsertSomeKeys(f2, "model", OptionalText(s.model));
  }

  lemma MetaWritten(s: Session)
    requires MetaRecord(s).Ok?
    ensures WritesMeta(MetaRecord(s).value, s)
  {
    KindKeys("session_meta");
    NumberKeys(Kind("session_meta"), s);
    P.MetaNumbersFields(s);
    OptionsWritten(SessionLog.MetaNumbers(s), s);
  }

  lemma OptionsWritten(numbers: seq<Entry>, s: Session)
    requires s.workspaceRoot != Some(NotUtf8) && P.HasNumbers(numbers, s)
    requires KeysOf(numbers) == {"type", "version", "session_id", "created_at_ms", "updated_at_ms"}
    ensures WritesMeta(Object(WithOptions(numbers, s)), s)
  {
    OptionKeys(numbers, s);
    P.OptionalForkReads(s.fork);
    var fields :=
      P.MetaOptions(numbers, OptionalFork(s.fork), OptionalRoot(s.workspaceRoot), OptionalText(s.model));
    P.NumbersKept(numbers, fields, s);
    FieldsOfMeta(fields, s);
  }

  lemma FieldsOfMeta(fields: seq<Entry>, s: Session)
    requires s.workspaceRoot != Some(NotUtf8) && KeysOf(fields) == MetaKeys(s)
    requires Lookup(fields, "type") == Some(Str("session_meta"))
    requires Lookup(fields, "version") == Some(Number(s.version))
    requires Lookup(fields, "session_id") == Some(Str(s.sessionId))
    requires Lookup(fields, "created_at_ms") == Some(Number(s.createdAtMs))
    requires Lookup(fields, "updated_at_ms") == Some(Number(s.updatedAtMs))
    requires Lookup(fields, "fork") == OptionalFork(s.fork)
    requires Lookup(fields, "workspace_root") == OptionalRoot(s.workspaceRoot)
    requires Lookup(fields, "model") == OptionalText(s.model)
    ensures WritesMeta(Object(fields), s)
  {
    if s.fork.Some? {
      ForkWritten(s.fork.value);
      assert Has(Object(fields), "fork", ForkJson(s.fork.value));
    }
  }

  // ---------------------------------------------------------------- the file

  /** The text of every record and a line feed. */
  function FileOf(records: seq<JsonValue>): string {
    if records == [] then [] else Render(records[0]) + "\n" + FileOf(records[1..])
  }

  /** The record of the session, one for its compaction if there was one, then one for each prompt
      and one for each message, in order. */
  ghost predicate WritesRecords(records: seq<JsonValue>, s: Session) {
    exists meta, compactions, prompts, messages ::
      && records == [meta] + (compactions + (prompts + messages))
      && WritesMeta(meta, s) && WritesCompactions(compactions, s.compaction)
      && WritesPrompts(prompts, s.promptHistory) && WritesMessages(messages, s.messages)
  }

  ghost predicate WritesCompactions(records: seq<JsonValue>, compaction: Option<SessionLog.Compaction>) {
    if compaction.None? then records == [] else |records| == 1 && WritesCompaction(records[0], compaction.value)
  }

  ghost predicate WritesPrompts(records: seq<JsonValue>, history: seq<PromptEntry>) {
    |records| == |history| && forall i :: 0 <= i < |history| ==> WritesPrompt(records[i], history[i])
  }

  ghost predicate WritesMessages(records: seq<JsonValue>, messages: seq<Message>) {
    |records| == |messages| && forall i :: 0 <= i < |messages| ==> WritesMessageRecord(records[i], messages[i])
  }

  lemma {:induction false} PromptsWritten(history: seq<PromptEntry>)
    ensures WritesPrompts(PromptRecords(history), history)
  {
    if history != [] {
      PromptWritten(history[0]);
      PromptsWritten(history[1..]);
      var records := PromptRecords(history);
      assert forall i :: 1 <= i < |history| ==> records[i] == records[1..][i - 1] && history[i] == history[1..][i - 1];
    }
  }

  lemma {:induction false} MessagesWritten(messages: seq<Message>)
    ensures WritesMessages(MessageRecords(messages), messages)
  {
    if messages != [] {
      MessageRecordWritten(messages[0]);
      MessagesWritten(messages[1..]);
      var records := MessageRecords(messages);
      assert forall i :: 1 <= i < |messages| ==>
        records[i] == records[1..][i - 1] && messages[i] == messages[1..][i - 1];
    }
  }

  lemma CompactionsWritten(compaction: Option<SessionLog.Compaction>)
    requires CompactionRecords(compaction).Ok?
    ensures WritesCompactions(CompactionRecords(compaction).value, compaction)
  {
    if compaction.Some? {
      CompactionWritten(compaction.value);
    }
  }

  lemma RecordsWritten(s: Session)
    requires Records(s).Ok?
    ensures WritesRecords(Records(s).value, s)
  {
    MetaWritten(s);
    CompactionsWritten(s.compaction);
    PromptsWritten(s.promptHistory);
    MessagesWritten(s.messages);
    RecordsFrom(Records(s).value, MetaRecord(s).value, CompactionRecords(s.compaction).value,
                PromptRecords(s.promptHistory), MessageRecords(s.messages), s);
  }

  lemma RecordsFrom(records: seq<JsonValue>, meta: JsonValue, compactions: seq<JsonValue>, prompts: seq<JsonValue>,
                    messages: seq<JsonValue>, s: Session)
    requires records == [meta] + (compactions + (prompts + messages))
    requires WritesMeta(meta, s) && WritesCompactions(compactions, s.compaction)
    requires WritesPrompts(prompts, s.promptHistory) && WritesMessages(messages, s.messages)
    ensures WritesRecords(records, s)
  {
  }

  lemma {:induction false} JoinedFile(records: seq<JsonValue>)
    requires records != []
    ensures Join(RenderAll(records)) + "\n" == FileOf(records)
  {
    var lines := RenderAll(records);
    if |records| == 1 {
      assert RenderAll(records[1..]) == [];
      assert FileOf(records[1..]) == [];
      assert lines[0] + "\n" + [] == lines[0] + "\n";
    } else {
      assert lines[1..] == RenderAll(records[1..]);
      JoinedFile(records[1..]);
      Ended(lines[0], Join(lines[1..]));
    }
  }

  lemma Ended(line: string, rest: string)
    ensures line + "\n" + rest + "\n" == line + "\n" + (rest + "\n")
  {
  }

  /** The file of a session is the lines of its records and nothing else. */
  lemma SnapshotWritten(s: Session)
    requires RenderSnapshot(s).Ok?
    ensures exists records :: WritesRecords(records, s) && RenderSnapshot(s).value == FileOf(records)
  {
    RecordsWritten(s);
    JoinedFile(Records(s).value);
  }
}
