/** A session written to a file is read back. */
module SessionLogProperties {

  import opened Wrappers
  import opened Json
  import opened JsonProperties
  import G = JsonGrammar
  import opened Conversation
  import opened Strings
  import opened SessionLog

  // ---------------------------------------------------------------- objects built field by field

  lemma Inserted(fields: seq<Entry>, key: string, value: JsonValue)
    requires Valid(Object(fields)) && Valid(value)
    ensures Valid(Object(Insert(fields, key, value)))
    ensures forall k :: Lookup(Insert(fields, key, value), k) == if k == key then Some(value) else Lookup(fields, k)
  {
    InsertSorted(fields, key, value);
    var r := Insert(fields, key, value);
    forall i | 0 <= i < |r|
      ensures Valid(r[i].value)
    {
      assert r[i] in r;
    }
    forall k: string
      ensures Lookup(r, k) == if k == key then Some(value) else Lookup(fields, k)
    {
      LookupInsert(fields, key, value, k);
    }
  }

  lemma InsertedSome(fields: seq<Entry>, key: string, value: Option<JsonValue>)
    requires Valid(Object(fields)) && (value.Some? ==> Valid(value.value))
    requires Lookup(fields, key).None?
    ensures Valid(Object(InsertSome(fields, key, value)))
    ensures forall k :: Lookup(InsertSome(fields, key, value), k) == if k == key then value else Lookup(fields, k)
  {
    if value.Some? {
      Inserted(fields, key, value.value);
    }
  }

  lemma KindInserted(kind: string)
    ensures Valid(Object(Kind(kind)))
    ensures forall k :: Lookup(Kind(kind), k) == if k == "type" then Some(Str(kind)) else None
  {
    Inserted([], "type", Str(kind));
  }

  // ---------------------------------------------------------------- messages

  lemma BlockReadBack(b: Block)
    ensures Valid(BlockJson(b)) && ReadBlock(BlockJson(b)) == Ok(b)
  {
    match b
    case Text(text) =>
      KindInserted("text");
      Inserted(Kind("text"), "text", Str(text));
    case Thinking(thinking, signature) =>
      KindInserted("thinking");
      Inserted(Kind("thinking"), "thinking", Str(thinking));
      InsertedSome(Insert(Kind("thinking"), "thinking", Str(thinking)), "signature", OptionalText(signature));
    case ToolUse(id, name, input) =>
      ToolUseReadBack(id, name, input);
    case ToolResult(toolUseId, toolName, output, isError) =>
      ToolResultReadBack(toolUseId, toolName, output, isError);
  }

  lemma ToolUseReadBack(id: string, name: string, input: string)
    ensures var b := ToolUse(id, name, input); Valid(BlockJson(b)) && ReadBlock(BlockJson(b)) == Ok(b)
  {
    var f0 := Kind("tool_use");
    var f1 := Insert(f0, "id", Str(id));
    var f2 := Insert(f1, "name", Str(name));
    KindInserted("tool_use");
    Inserted(f0, "id", Str(id));
    Inserted(f1, "name", Str(name));
    Inserted(f2, "input", Str(input));
  }

  lemma ToolResultReadBack(toolUseId: string, toolName: string, output: string, isError: bool)
    ensures var b := ToolResult(toolUseId, toolName, output, isError);
      Valid(BlockJson(b)) && ReadBlock(BlockJson(b)) == Ok(b)
  {
    KindInserted("tool_result");
    ToolResultBuilt(Kind("tool_result"), toolUseId, toolName, output, isError);
  }

  lemma ToolResultBuilt(f0: seq<Entry>, toolUseId: string, toolName: string, output: string, isError: bool)
    requires Valid(Object(f0)) && Lookup(f0, "type") == Some(Str("tool_result"))
    ensures var f4 := WithToolResult(f0, toolUseId, toolName, output, isError);
      Valid(Object(f4)) && ReadBlockFields(f4) == Ok(ToolResult(toolUseId, toolName, output, isError))
  {
    var f1 := Insert(f0, "tool_use_id", Str(toolUseId));
    var f2 := Insert(f1, "tool_name", Str(toolName));
    var f3 := Insert(f2, "output", Str(output));
    Inserted(f0, "tool_use_id", Str(toolUseId));
    Inserted(f1, "tool_name", Str(toolName));
    Inserted(f2, "output", Str(output));
    Inserted(f3, "is_error", Bool(isError));
    ToolResultFields(f0, f1, f2, f3, Insert(f3, "is_error", Bool(isError)), toolUseId, toolName, output, isError);
  }

  /** The object `after` is `before` with one more field. */
  ghost predicate Adds(before: seq<Entry>, after: seq<Entry>, key: string, value: JsonValue) {
    forall k :: Lookup(after, k) == if k == key then Some(value) else Lookup(before, k)
  }

  lemma ToolResultFields(f0: seq<Entry>, f1: seq<Entry>, f2: seq<Entry>, f3: seq<Entry>, f4: seq<Entry>,
                         toolUseId: string, toolName: string, output: string, isError: bool)
    requires Lookup(f0, "type") == Some(Str("tool_result"))
    requires Adds(f0, f1, "tool_use_id", Str(toolUseId))
    requires Adds(f1, f2, "tool_name", Str(toolName))
    requires Adds(f2, f3, "output", Str(output))
    requires Adds(f3, f4, "is_error", Bool(isError))
    ensures ReadBlockFields(f4) == Ok(ToolResult(toolUseId, toolName, output, isError))
  {
    assert ReadToolResult(f4) == Ok(ToolResult(toolUseId, toolName, output, isError));
  }

  lemma {:induction false} BlocksReadBack(blocks: seq<Block>)
    ensures Valid(Array(BlocksJson(blocks))) && ReadBlocks(BlocksJson(blocks)) == Ok(blocks)
  {
    if blocks != [] {
      BlockReadBack(blocks[0]);
      BlocksReadBack(blocks[1..]);
      var values := BlocksJson(blocks);
      assert values[1..] == BlocksJson(blocks[1..]);
      forall i | 0 <= i < |values|
        ensures Valid(values[i])
      {
        if i > 0 {
          assert values[i] == BlocksJson(blocks[1..])[i - 1];
        }
      }
      assert [blocks[0]] + blocks[1..] == blocks;
    }
  }

  lemma UsageReadBack(u: Usage)
    ensures Valid(UsageJson(u)) && ReadUsage(UsageJson(u)) == Ok(u)
  {
    var f1 := Insert([], "input_tokens", Number(u.inputTokens));
    var f2 := Insert(f1, "output_tokens", Number(u.outputTokens));
    var f3 := Insert(f2, "cache_creation_input_tokens", Number(u.cacheCreationTokens));
    Inserted([], "input_tokens", Number(u.inputTokens));
    Inserted(f1, "output_tokens", Number(u.outputTokens));
    Inserted(f2, "cache_creation_input_tokens", Number(u.cacheCreationTokens));
    Inserted(f3, "cache_read_input_tokens", Number(u.cacheReadTokens));
    UsageFields([], f1, f2, f3, Insert(f3, "cache_read_input_tokens", Number(u.cacheReadTokens)), u);
  }

  lemma UsageFields(f0: seq<Entry>, f1: seq<Entry>, f2: seq<Entry>, f3: seq<Entry>, f4: seq<Entry>, u: Usage)
    requires Adds(f0, f1, "input_tokens", Number(u.inputTokens))
    requires Adds(f1, f2, "output_tokens", Number(u.outputTokens))
    requires Adds(f2, f3, "cache_creation_input_tokens", Number(u.cacheCreationTokens))
    requires Adds(f3, f4, "cache_read_input_tokens", Number(u.cacheReadTokens))
    ensures ReadUsage(Object(f4)) == Ok(u)
  {
  }

  lemma MessageReadBack(m: Message)
    ensures Valid(MessageJson(m)) && ReadMessage(MessageJson(m)) == Ok(m)
  {
    var usage := if m.usage.None? then None else Some(UsageJson(m.usage.value));
    if m.usage.Some? {
      UsageReadBack(m.usage.value);
    }
    BlocksReadBack(m.blocks);
    var fields := MessageFields(RoleName(m.role), BlocksJson(m.blocks), usage);
    RoleReadBack(m.role);
    MessageFieldsRead(fields, RoleName(m.role), BlocksJson(m.blocks), usage, m);
  }

  lemma RoleReadBack(role: Role)
    ensures ReadRole(RoleName(role)) == Ok(role)
  {
  }

  lemma MessageFields(role: string, blocks: seq<JsonValue>, usage: Option<JsonValue>) returns (fields: seq<Entry>)
    requires Valid(Array(blocks)) && (usage.Some? ==> Valid(usage.value))
    ensures fields == InsertSome(Insert(Insert([], "role", Str(role)), "blocks", Array(blocks)), "usage", usage)
    ensures Valid(Object(fields))
    ensures Lookup(fields, "role") == Some(Str(role))
    ensures Lookup(fields, "blocks") == Some(Array(blocks))
    ensures Lookup(fields, "usage") == usage
  {
    var f1 := Insert([], "role", Str(role));
    var f2 := Insert(f1, "blocks", Array(blocks));
    Inserted([], "role", Str(role));
    Inserted(f1, "blocks", Array(blocks));
    InsertedSome(f2, "usage", usage);
    fields := InsertSome(f2, "usage", usage);
  }

  lemma MessageFieldsRead(fields: seq<Entry>, role: string, blocks: seq<JsonValue>, usage: Option<JsonValue>,
                          m: Message)
    requires Lookup(fields, "role") == Some(Str(role)) && ReadRole(role) == Ok(m.role)
    requires Lookup(fields, "blocks") == Some(Array(blocks)) && ReadBlocks(blocks) == Ok(m.blocks)
    requires Lookup(fields, "usage") == usage
    requires usage.Some? == m.usage.Some?
    requires usage.Some? ==> ReadUsage(usage.value) == Ok(m.usage.value)
    ensures ReadMessageFields(fields) == Ok(m)
  {
    assert OptionalString(fields, "role") == Some(role);
  }

  // ---------------------------------------------------------------- the records

  /** What a record does to the draft when its line is read. */
  ghost predicate Reads(record: JsonValue, d: Draft, next: Draft) {
    Valid(record) && record.Object? && forall line: nat :: ReadFields(d, record.entries, line) == Ok(next)
  }

  lemma MessageRecordReads(m: Message, d: Draft)
    ensures Reads(MessageRecord(m), d, d.(messages := d.messages + [m]))
  {
    KindInserted("message");
    MessageReadBack(m);
    Inserted(Kind("message"), "message", MessageJson(m));
  }

  function Stored(e: PromptEntry): PromptEntry {
    e.(timestampMs := Clamped(e.timestampMs))
  }

  lemma PromptRecordReads(e: PromptEntry, d: Draft)
    ensures Reads(PromptRecord(e), d, d.(promptHistory := d.promptHistory + [Stored(e)]))
  {
    var f0 := Kind("prompt_history");
    var f1 := Insert(f0, "timestamp_ms", Number(Clamped(e.timestampMs)));
    KindInserted("prompt_history");
    Inserted(f0, "timestamp_ms", Number(Clamped(e.timestampMs)));
    Inserted(f1, "text", Str(e.text));
  }

  lemma CompactionRecordReads(c: Compaction, d: Draft)
    requires CompactionRecord(c).Ok?
    ensures Reads(CompactionRecord(c).value, d, d.(compaction := Some(c)))
  {
    KindInserted("compaction");
    CompactionBuilt(Kind("compaction"), c);
    CompactionFieldsRead(CompactionFields(c), c, d);
  }

  ghost predicate HasCompaction(f: seq<Entry>, c: Compaction) {
    && Lookup(f, "type") == Some(Str("compaction"))
    && Lookup(f, "count") == Some(Number(c.count))
    && Lookup(f, "removed_message_count") == Some(Number(c.removedMessageCount))
    && Lookup(f, "summary") == Some(Str(c.summary))
  }

  lemma CompactionBuilt(f0: seq<Entry>, c: Compaction)
    requires Valid(Object(f0)) && Lookup(f0, "type") == Some(Str("compaction"))
    requires c.removedMessageCount <= I64_MAX
    ensures var f3 :=
      Insert(
        Insert(Insert(f0, "count", Number(c.count)), "removed_message_count", Number(c.removedMessageCount)),
        "summary", Str(c.summary));
      Valid(Object(f3)) && HasCompaction(f3, c)
  {
    var f1 := Insert(f0, "count", Number(c.count));
    var f2 := Insert(f1, "removed_message_count", Number(c.removedMessageCount));
    Inserted(f0, "count", Number(c.count));
    Inserted(f1, "removed_message_count", Number(c.removedMessageCount));
    Inserted(f2, "summary", Str(c.summary));
    CompactionAdds(f0, f1, f2, Insert(f2, "summary", Str(c.summary)), c);
  }

  lemma CompactionAdds(f0: seq<Entry>, f1: seq<Entry>, f2: seq<Entry>, f3: seq<Entry>, c: Compaction)
    requires Lookup(f0, "type") == Some(Str("compaction"))
    requires Adds(f0, f1, "count", Number(c.count))
    requires Adds(f1, f2, "removed_message_count", Number(c.removedMessageCount))
    requires Adds(f2, f3, "summary", Str(c.summary))
    ensures HasCompaction(f3, c)
  {
  }

  lemma CompactionFieldsRead(fields: seq<Entry>, c: Compaction, d: Draft)
    requires HasCompaction(fields, c)
    ensures forall line: nat :: ReadFields(d, fields, line) == Ok(d.(compaction := Some(c)))
  {
    assert OptionalString(fields, "type") == Some("compaction");
    assert ReadCompaction(fields) == Ok(c);
  }

  lemma ForkReadBack(f: Fork)
    ensures Valid(ForkJson(f)) && ReadFork(ForkJson(f)) == Ok(f)
  {
    var f1 := Insert([], "parent_session_id", Str(f.parentSessionId));
    Inserted([], "parent_session_id", Str(f.parentSessionId));
    InsertedSome(f1, "branch_name", OptionalText(f.branchName));
  }

  /** The fields every meta record has, and none of the others. */
  ghost predicate HasNumbers(f: seq<Entry>, s: Session) {
    && Valid(Object(f))
    && Lookup(f, "type") == Some(Str("session_meta"))
    && Lookup(f, "version") == Some(Number(s.version))
    && Lookup(f, "session_id") == Some(Str(s.sessionId))
    && Lookup(f, "created_at_ms") == Some(Number(s.createdAtMs))
    && Lookup(f, "updated_at_ms") == Some(Number(s.updatedAtMs))
    && Lookup(f, "fork") == Lookup(f, "workspace_root") == Lookup(f, "model") == Lookup(f, "messages") == None
  }

  lemma MetaNumbersFields(s: Session)
    requires s.createdAtMs <= I64_MAX && s.updatedAtMs <= I64_MAX
    ensures HasNumbers(MetaNumbers(s), s)
  {
    KindInserted("session_meta");
    NumbersBuilt(Kind("session_meta"), s);
  }

  lemma NumbersBuilt(f0: seq<Entry>, s: Session)
    requires s.createdAtMs <= I64_MAX && s.updatedAtMs <= I64_MAX
    requires Valid(Object(f0)) && forall k :: Lookup(f0, k) == if k == "type" then Some(Str("session_meta")) else None
    ensures HasNumbers(WithNumbers(f0, s), s)
  {
    var f1 := Insert(f0, "version", Number(s.version));
    var f2 := Insert(f1, "session_id", Str(s.sessionId));
    var f3 := Insert(f2, "created_at_ms", Number(s.createdAtMs));
    Inserted(f0, "version", Number(s.version));
    Inserted(f1, "session_id", Str(s.sessionId));
    Inserted(f2, "created_at_ms", Number(s.createdAtMs));
    Inserted(f3, "updated_at_ms", Number(s.updatedAtMs));
    NumbersFields(f0, f1, f2, f3, Insert(f3, "updated_at_ms", Number(s.updatedAtMs)), s);
  }

  lemma NumbersFields(f0: seq<Entry>, f1: seq<Entry>, f2: seq<Entry>, f3: seq<Entry>, f4: seq<Entry>, s: Session)
    requires forall k :: Lookup(f0, k) == if k == "type" then Some(Str("session_meta")) else None
    requires Adds(f0, f1, "version", Number(s.version))
    requires Adds(f1, f2, "session_id", Str(s.sessionId))
    requires Adds(f2, f3, "created_at_ms", Number(s.createdAtMs))
    requires Adds(f3, f4, "updated_at_ms", Number(s.updatedAtMs))
    requires Valid(Object(f4))
    ensures HasNumbers(f4, s)
  {
  }

  /** The meta record reads back and has no field that marks the legacy format. */
  lemma MetaRecordReads(s: Session, d: Draft)
    requires MetaRecord(s).Ok?
    ensures Reads(MetaRecord(s).value, d, AfterMeta(s, d))
    ensures Lookup(MetaRecord(s).value.entries, "messages").None?
  {
    MetaNumbersFields(s);
    MetaReads(MetaNumbers(s), s, d);
  }

  lemma MetaReads(numbers: seq<Entry>, s: Session, d: Draft)
    requires HasNumbers(numbers, s) && s.workspaceRoot != Some(NotUtf8)
    ensures var fields := WithOptions(numbers, s);
      Reads(Object(fields), d, AfterMeta(s, d)) && Lookup(fields, "messages").None?
  {
    var fork := OptionalFork(s.fork);
    OptionalForkReads(s.fork);
    var fields := MetaOptions(numbers, fork, OptionalRoot(s.workspaceRoot), OptionalText(s.model));
    NumbersKept(numbers, fields, s);
    MetaFieldsRead(fields, fork, s, d);
  }

  /** The optional fields leave the others alone. */
  lemma NumbersKept(numbers: seq<Entry>, fields: seq<Entry>, s: Session)
    requires HasNumbers(numbers, s)
    requires forall k :: Lookup(numbers, k) != Lookup(fields, k) ==>
      k == "fork" || k == "workspace_root" || k == "model"
    ensures Lookup(fields, "type") == Some(Str("session_meta"))
    ensures Lookup(fields, "version") == Some(Number(s.version))
    ensures Lookup(fields, "session_id") == Some(Str(s.sessionId))
    ensures Lookup(fields, "created_at_ms") == Some(Number(s.createdAtMs))
    ensures Lookup(fields, "updated_at_ms") == Some(Number(s.updatedAtMs))
    ensures Lookup(fields, "messages") == None
  {
  }

  lemma OptionalForkReads(fork: Option<Fork>)
    ensures OptionalFork(fork).Some? == fork.Some?
    ensures fork.Some? ==> Valid(OptionalFork(fork).value) && ReadFork(OptionalFork(fork).value) == Ok(fork.value)
  {
    if fork.Some? {
      ForkReadBack(fork.value);
    }
  }

  lemma MetaOptions(numbers: seq<Entry>, fork: Option<JsonValue>, root: Option<JsonValue>, model: Option<JsonValue>)
    returns (fields: seq<Entry>)
    requires Valid(Object(numbers))
    requires Lookup(numbers, "fork") == Lookup(numbers, "workspace_root") == Lookup(numbers, "model") == None
    requires fork.Some? ==> Valid(fork.value)
    requires root.Some? ==> Valid(root.value)
    requires model.Some? ==> Valid(model.value)
    ensures fields ==
      InsertSome(InsertSome(InsertSome(numbers, "fork", fork), "workspace_root", root), "model", model)
    ensures Valid(Object(fields))
    ensures Lookup(fields, "fork") == fork
    ensures Lookup(fields, "workspace_root") == root
    ensures Lookup(fields, "model") == model
    ensures forall k :: Lookup(numbers, k) != Lookup(fields, k) ==> k == "fork" || k == "workspace_root" || k == "model"
  {
    var f1 := InsertSome(numbers, "fork", fork);
    var f2 := InsertSome(f1, "workspace_root", root);
    InsertedSome(numbers, "fork", fork);
    InsertedSome(f1, "workspace_root", root);
    InsertedSome(f2, "model", model);
    fields := InsertSome(f2, "model", model);
    MetaLookups(numbers, f1, f2, fields, fork, root, model);
  }

  /** The object `after` is `before` with one more field, which may be absent. */
  ghost predicate Extends(before: seq<Entry>, after: seq<Entry>, key: string, value: Option<JsonValue>) {
    forall k :: Lookup(after, k) == if k == key then value else Lookup(before, k)
  }

  lemma MetaLookups(f0: seq<Entry>, f1: seq<Entry>, f2: seq<Entry>, f3: seq<Entry>,
                    fork: Option<JsonValue>, root: Option<JsonValue>, model: Option<JsonValue>)
    requires Extends(f0, f1, "fork", fork)
    requires Extends(f1, f2, "workspace_root", root)
    requires Extends(f2, f3, "model", model)
    ensures Lookup(f3, "fork") == fork
    ensures Lookup(f3, "workspace_root") == root
    ensures Lookup(f3, "model") == model
    ensures forall k :: Lookup(f0, k) != Lookup(f3, k) ==> k == "fork" || k == "workspace_root" || k == "model"
  {
  }

  function AfterMeta(s: Session, d: Draft): Draft {
    d.(version := s.version, sessionId := Some(s.sessionId), createdAtMs := Some(s.createdAtMs),
       updatedAtMs := Some(s.updatedAtMs), fork := s.fork, workspaceRoot := s.workspaceRoot, model := s.model)
  }

  lemma MetaFieldsRead(fields: seq<Entry>, fork: Option<JsonValue>, s: Session, d: Draft)
    requires s.workspaceRoot != Some(NotUtf8)
    requires Lookup(fields, "type") == Some(Str("session_meta"))
    requires Lookup(fields, "version") == Some(Number(s.version))
    requires Lookup(fields, "session_id") == Some(Str(s.sessionId))
    requires Lookup(fields, "created_at_ms") == Some(Number(s.createdAtMs))
    requires Lookup(fields, "updated_at_ms") == Some(Number(s.updatedAtMs))
    requires Lookup(fields, "fork") == fork
    requires fork.Some? == s.fork.Some?
    requires fork.Some? ==> ReadFork(fork.value) == Ok(s.fork.value)
    requires Lookup(fields, "workspace_root") == OptionalRoot(s.workspaceRoot)
    requires Lookup(fields, "model") == OptionalText(s.model)
    ensures forall line: nat :: ReadFields(d, fields, line) == Ok(AfterMeta(s, d))
  {
    assert ReadOptionalFork(fields) == Ok(s.fork);
    assert ReadRoot(fields) == s.workspaceRoot;
    assert OptionalString(fields, "model") == s.model;
    assert ReadMeta(d, fields) == Ok(AfterMeta(s, d));
    assert OptionalString(fields, "type") == Some("session_meta");
  }

  // ---------------------------------------------------------------- lines

  /** A line that survives splitting and trimming. */
  ghost predicate Plain(line: string) {
    && line != []
    && !IsWhite(line[0]) && !IsWhite(line[|line| - 1])
    && forall i :: 0 <= i < |line| ==> line[i] != '\n'
  }

  lemma RecordPlain(record: JsonValue)
    requires record.Object?
    ensures Plain(Render(record)) && Render(record)[0] == '{'
  {
    RenderClean(record);
    var text := Render(record);
    assert text[0] == '{' && text[|text| - 1] == '}';
    assert forall i :: 0 <= i < |text| ==> !IsControl(text[i]);
  }

  lemma {:induction false} LineEndAt(line: string, rest: string)
    requires forall i :: 0 <= i < |line| ==> line[i] != '\n'
    ensures LineEnd(line + "\n" + rest) == |line|
  {
    var s := line + "\n" + rest;
    if line != [] {
      assert s[1..] == line[1..] + "\n" + rest;
      LineEndAt(line[1..], rest);
    }
  }

  lemma FirstLine(line: string, rest: string)
    requires Plain(line)
    ensures Lines(line + "\n" + rest) == [line] + Lines(rest)
  {
    var s := line + "\n" + rest;
    LineEndAt(line, rest);
    assert s[..|line|] == line && s[|line| + 1..] == rest;
    assert s[|line| - 1] == line[|line| - 1];
  }

  /** Joining plain lines and splitting them again gives the same lines. */
  lemma {:induction false} LinesOfJoin(lines: seq<string>)
    requires lines != []
    requires forall i :: 0 <= i < |lines| ==> Plain(lines[i])
    ensures Lines(Join(lines) + "\n") == lines
  {
    if |lines| == 1 {
      assert Join(lines) + "\n" == lines[0] + "\n" + [];
      FirstLine(lines[0], []);
    } else {
      LinesOfJoin(lines[1..]);
      assert Join(lines) + "\n" == lines[0] + "\n" + (Join(lines[1..]) + "\n");
      FirstLine(lines[0], Join(lines[1..]) + "\n");
    }
  }

  lemma RecordLineRead(record: JsonValue, d: Draft, next: Draft, line: nat)
    requires Reads(record, d, next)
    ensures ReadLine(d, Render(record), line) == Ok(next)
  {
    RecordPlain(record);
    RoundTrip(record);
  }

  // ---------------------------------------------------------------- the whole file

  /** What reading a run of records does, line by line. */
  ghost predicate AllRead(records: seq<JsonValue>, d: Draft, next: Draft) {
    && (forall i :: 0 <= i < |records| ==> records[i].Object?)
    && forall line: nat :: ReadLines(d, RenderAll(records), line) == Ok(next)
  }

  lemma FirstRead(record: JsonValue, records: seq<JsonValue>, d: Draft, middle: Draft, next: Draft)
    requires Reads(record, d, middle)
    requires AllRead(records, middle, next)
    ensures AllRead([record] + records, d, next)
  {
    var all := [record] + records;
    assert all[1..] == records;
    forall line: nat
      ensures ReadLines(d, RenderAll(all), line) == Ok(next)
    {
      RecordLineRead(record, d, middle, line);
      assert RenderAll(all)[1..] == RenderAll(records);
    }
  }

  function WithMessages(d: Draft, more: seq<Message>): Draft {
    d.(messages := d.messages + more)
  }

  lemma MessagesTogether(d: Draft, first: Message, more: seq<Message>)
    ensures WithMessages(WithMessages(d, [first]), more) == WithMessages(d, [first] + more)
    ensures WithMessages(d, []) == d
  {
    assert d.messages + [first] + more == d.messages + ([first] + more);
  }

  lemma {:induction false} MessagesRead(messages: seq<Message>, d: Draft)
    ensures AllRead(MessageRecords(messages), d, WithMessages(d, messages))
  {
    if messages == [] {
      assert WithMessages(d, []) == d;
    } else {
      var first, more := messages[0], messages[1..];
      MessageRecordReads(first, d);
      MessagesRead(more, WithMessages(d, [first]));
      MessagesTogether(d, first, more);
      assert [first] + more == messages;
      FirstRead(MessageRecord(first), MessageRecords(more), d, WithMessages(d, [first]), WithMessages(d, messages));
    }
  }

  function StoredHistory(history: seq<PromptEntry>): (r: seq<PromptEntry>)
    ensures |r| == |history| && forall i :: 0 <= i < |r| ==> r[i] == Stored(history[i])
  {
    if history == [] then [] else [Stored(history[0])] + StoredHistory(history[1..])
  }

  lemma {:induction false} PromptsRead(history: seq<PromptEntry>, tail: seq<JsonValue>, d: Draft, next: Draft)
    requires AllRead(tail, WithPrompts(d, StoredHistory(history)), next)
    ensures AllRead(PromptRecords(history) + tail, d, next)
    decreases |history|
  {
    if history == [] {
      assert WithPrompts(d, []) == d;
      assert PromptRecords(history) + tail == tail;
    } else {
      var middle := WithPrompts(d, [Stored(history[0])]);
      PromptRecordReads(history[0], d);
      PromptsTogether(d, Stored(history[0]), StoredHistory(history[1..]));
      PromptsRead(history[1..], tail, middle, next);
      FirstRead(PromptRecord(history[0]), PromptRecords(history[1..]) + tail, d, middle, next);
      assert PromptRecords(history) + tail == [PromptRecord(history[0])] + (PromptRecords(history[1..]) + tail);
    }
  }

  function WithPrompts(d: Draft, more: seq<PromptEntry>): Draft {
    d.(promptHistory := d.promptHistory + more)
  }

  lemma PromptsTogether(d: Draft, first: PromptEntry, more: seq<PromptEntry>)
    ensures WithPrompts(WithPrompts(d, [first]), more) == WithPrompts(d, [first] + more)
  {
    assert d.promptHistory + [first] + more == d.promptHistory + ([first] + more);
  }

  /** A session as its file gives it back. */
  function AsStored(s: Session): Session {
    s.(promptHistory := StoredHistory(s.promptHistory), lastHealthCheckMs := None)
  }

  function DraftOf(s: Session): Draft {
    Draft(s.version, Some(s.sessionId), Some(s.createdAtMs), Some(s.updatedAtMs), s.messages, s.compaction,
          s.fork, s.workspaceRoot, s.model, StoredHistory(s.promptHistory))
  }

  lemma BodyRead(s: Session, d: Draft)
    requires d == DraftOf(s).(messages := [], promptHistory := [])
    ensures AllRead(Body(s), d, DraftOf(s))
  {
    var middle := WithPrompts(d, StoredHistory(s.promptHistory));
    assert [] + s.messages == s.messages;
    assert [] + StoredHistory(s.promptHistory) == StoredHistory(s.promptHistory);
    MessagesRead(s.messages, middle);
    PromptsRead(s.promptHistory, MessageRecords(s.messages), d, DraftOf(s));
  }

  lemma CompactionsRead(s: Session, d: Draft, tail: seq<JsonValue>, next: Draft)
    requires CompactionRecords(s.compaction).Ok?
    requires d.compaction == None
    requires AllRead(tail, d.(compaction := s.compaction), next)
    ensures AllRead(CompactionRecords(s.compaction).value + tail, d, next)
  {
    match s.compaction
    case None => assert [] + tail == tail;
    case Some(c) =>
      CompactionRecordReads(c, d);
      FirstRead(CompactionRecord(c).value, tail, d, d.(compaction := s.compaction), next);
  }

  lemma RecordsRead(s: Session)
    requires Records(s).Ok?
    ensures AllRead(Records(s).value, EMPTY_DRAFT, DraftOf(s)) && Records(s).value != []
  {
    MetaRecordReads(s, EMPTY_DRAFT);
    var d := AfterMeta(s, EMPTY_DRAFT);
    var compactions := CompactionRecords(s.compaction).value;
    BodyRead(s, d.(compaction := s.compaction));
    CompactionsRead(s, d, Body(s), DraftOf(s));
    FirstRead(MetaRecord(s).value, compactions + Body(s), EMPTY_DRAFT, d, DraftOf(s));
  }

  lemma {:induction false} RecordLinesPlain(records: seq<JsonValue>)
    requires forall i :: 0 <= i < |records| ==> records[i].Object?
    ensures forall i :: 0 <= i < |records| ==> Plain(RenderAll(records)[i]) && RenderAll(records)[i][0] == '{'
  {
    if records != [] {
      RecordPlain(records[0]);
      RecordLinesPlain(records[1..]);
    }
  }

  /** Saving fails exactly for what a JSON number or a text cannot hold. */
  lemma SavesExactly(s: Session)
    ensures RenderSnapshot(s).Ok? <==>
      && s.createdAtMs <= I64_MAX && s.updatedAtMs <= I64_MAX
      && s.workspaceRoot != Some(NotUtf8)
      && (s.compaction.Some? ==> s.compaction.value.removedMessageCount <= I64_MAX)
  {
  }

  /** Whatever was saved is read back, with the clamped prompt time stamps and
      without the health check; the clock and the fresh identifier are not used. */
  lemma SnapshotReadBack(s: Session, now: U64, freshId: string)
    requires RenderSnapshot(s).Ok?
    ensures FromJsonl(RenderSnapshot(s).value, now, freshId) == Ok(AsStored(s))
  {
    var records := Records(s).value;
    RecordsRead(s);
    RecordLinesPlain(records);
    LinesOfJoin(RenderAll(records));
  }

  /** The session read back is the one saved exactly when it holds no health check
      and no prompt time stamp beyond the range of a JSON number. */
  lemma ReadsBackTheSameExactly(s: Session, now: U64, freshId: string)
    requires RenderSnapshot(s).Ok?
    ensures FromJsonl(RenderSnapshot(s).value, now, freshId) == Ok(s) <==>
      && s.lastHealthCheckMs == None
      && forall i :: 0 <= i < |s.promptHistory| ==> s.promptHistory[i].timestampMs <= I64_MAX
  {
    SnapshotReadBack(s, now, freshId);
    var stored := StoredHistory(s.promptHistory);
    if forall i :: 0 <= i < |s.promptHistory| ==> s.promptHistory[i].timestampMs <= I64_MAX {
      assert stored == s.promptHistory;
    } else {
      var i :| 0 <= i < |s.promptHistory| && s.promptHistory[i].timestampMs > I64_MAX;
      assert stored[i] != s.promptHistory[i];
    }
  }

  /** A session with a health check, and a prompt later than the largest number a file holds. */
  lemma ReadsBackDifferent(now: U64, freshId: string)
    ensures var s := Session(1, "s", 0, 0, [], None, None, None, [PromptEntry(I64_MAX + 1, "hi")], Some(7), None);
      && RenderSnapshot(s).Ok?
      && FromJsonl(RenderSnapshot(s).value, now, freshId) ==
        Ok(s.(promptHistory := [PromptEntry(I64_MAX, "hi")], lastHealthCheckMs := None))
  {
    var s := Session(1, "s", 0, 0, [], None, None, None, [PromptEntry(I64_MAX + 1, "hi")], Some(7), None);
    SavesExactly(s);
    SnapshotReadBack(s, now, freshId);
    assert s.promptHistory[1..] == [];
    assert StoredHistory(s.promptHistory) == [PromptEntry(I64_MAX, "hi")];
  }

  /** A saved session is never taken for the legacy format. */
  lemma SnapshotIsNotLegacy(s: Session)
    requires RenderSnapshot(s).Ok?
    ensures FormatOf(RenderSnapshot(s).value) == RecordPerLine
  {
    MetaRecordReads(s, EMPTY_DRAFT);
    RecordsRead(s);
    FormatOfRecords(MetaRecord(s).value, Records(s).value);
  }

  lemma {:induction false} LookupFinds(fields: seq<Entry>, key: string)
    ensures Lookup(fields, key).Some? <==> exists i :: 0 <= i < |fields| && fields[i].key == key
  {
    if fields != [] {
      LookupFinds(fields[1..], key);
      if i :| 0 <= i < |fields[1..]| && fields[1..][i].key == key {
        assert fields[i + 1].key == key;
      }
      if i :| 0 <= i < |fields| && fields[i].key == key {
        assert i > 0 ==> fields[1..][i - 1].key == key;
      }
    }
  }

  /** A file is taken for the legacy format exactly when it is, as a whole, the text of an object
      that has an entry for the messages, with whatever spaces, and then for that object. */
  lemma LegacyExactly(contents: string, v: JsonValue)
    ensures FormatOf(contents) == Legacy(v) <==>
      && v.Object? && (exists i :: 0 <= i < |v.entries| && v.entries[i].key == "messages")
      && G.Writes(contents, v)
  {
    G.AcceptedExactly(contents, v);
    if v.Object? {
      LookupFinds(v.entries, "messages");
    }
  }

  /** So is the printed text of every such object. */
  lemma PrintedLegacy(fields: seq<Entry>, i: nat)
    requires Valid(Object(fields)) && i < |fields| && fields[i].key == "messages"
    ensures FormatOf(Render(Object(fields))) == Legacy(Object(fields))
  {
    RoundTrip(Object(fields));
    LookupFinds(fields, "messages");
  }

  lemma FormatOfRecords(first: JsonValue, records: seq<JsonValue>)
    requires records != [] && records[0] == first
    requires forall i :: 0 <= i < |records| ==> records[i].Object?
    requires Valid(first) && Lookup(first.entries, "messages").None?
    ensures FormatOf(Join(RenderAll(records)) + "\n") == RecordPerLine
  {
    var lines := RenderAll(records);
    RecordLinesPlain(records);
    if |lines| == 1 {
      FormatOfRecord(first, "\n", "");
    } else {
      var tail := Join(lines[1..]);
      assert lines[1..][0][0] == '{' && tail[0] == '{';
      FormatOfRecord(first, "\n" + (tail + "\n"), tail + "\n");
      assert Join(lines) + "\n" == Render(first) + ("\n" + (tail + "\n"));
    }
  }

  lemma FormatOfRecord(record: JsonValue, rest: string, tail: string)
    requires Valid(record) && record.Object? && Lookup(record.entries, "messages").None?
    requires rest == "\n" + tail && (tail == [] || tail[0] == '{')
    ensures FormatOf(Render(record) + rest) == RecordPerLine
  {
    ValueRead(record, rest);
    assert rest[1..] == tail;
    assert SkipSpace(rest) == SkipSpace(tail) == tail;
  }
}
