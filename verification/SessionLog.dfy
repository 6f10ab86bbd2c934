/**
 The session file: one JSON record a line, the session's own record first.

 The writers build ordered-map objects field by field; the readers take the
 fields out again and report the first one that is missing or out of range.
 The writers of messages and forks are the mirror of their readers.
 */
module SessionLog {

  import opened Wrappers
  import opened Json
  import opened Conversation
  import opened Strings

  const SESSION_VERSION: U32 := 1

  /** A path that may fail to be text. */
  datatype Path = Utf8(name: string) | NotUtf8

  datatype Compaction = Compaction(count: U32, removedMessageCount: U64, summary: string)

  datatype Fork = Fork(parentSessionId: string, branchName: Option<string>)

  datatype PromptEntry = PromptEntry(timestampMs: U64, text: string)

  datatype Session = Session(
    version: U32,
    sessionId: string,
    createdAtMs: U64,
    updatedAtMs: U64,
    messages: seq<Message>,
    compaction: Option<Compaction>,
    fork: Option<Fork>,
    workspaceRoot: Option<Path>,
    promptHistory: seq<PromptEntry>,
    lastHealthCheckMs: Option<U64>,
    model: Option<string>)

  datatype SessionError =
    | Missing(key: string)
    | OutOfRange(key: string)
    | NotAnObject(what: string)
    | UnsupportedRole(role: string)
    | UnsupportedBlock(kind: string)
    | InvalidRecord(line: nat, error: JsonError)
    | RecordNotAnObject(line: nat)
    | RecordWithoutType(line: nat)
    | RecordWithoutMessage(line: nat)
    | UnsupportedRecord(line: nat, kind: string)
    | PathNotUtf8

  // ---------------------------------------------------------------- writing

  /** Adds a field that may be absent. */
  function InsertSome(fields: seq<Entry>, key: string, value: Option<JsonValue>): seq<Entry> {
    match value
    case None => fields
    case Some(v) => Insert(fields, key, v)
  }

  function OptionalText(text: Option<string>): Option<JsonValue> {
    match text
    case None => None
    case Some(t) => Some(Str(t))
  }

  function Kind(kind: string): seq<Entry> {
    Insert([], "type", Str(kind))
  }

  function BlockJson(b: Block): JsonValue {
    match b
    case Text(text) => Object(Insert(Kind("text"), "text", Str(text)))
    case Thinking(thinking, signature) =>
      Object(InsertSome(Insert(Kind("thinking"), "thinking", Str(thinking)), "signature", OptionalText(signature)))
    case ToolUse(id, name, input) =>
      Object(Insert(Insert(Insert(Kind("tool_use"), "id", Str(id)), "name", Str(name)), "input", Str(input)))
    case ToolResult(toolUseId, toolName, output, isError) =>
      Object(WithToolResult(Kind("tool_result"), toolUseId, toolName, output, isError))
  }

  function WithToolResult(kind: seq<Entry>, toolUseId: string, toolName: string, output: string, isError: bool)
    : seq<Entry>
  {
    Insert(
      Insert(Insert(Insert(kind, "tool_use_id", Str(toolUseId)), "tool_name", Str(toolName)), "output", Str(output)),
      "is_error", Bool(isError))
  }

  function BlocksJson(blocks: seq<Block>): (r: seq<JsonValue>)
    ensures |r| == |blocks|
  {
    if blocks == [] then [] else [BlockJson(blocks[0])] + BlocksJson(blocks[1..])
  }

  function UsageJson(u: Usage): JsonValue {
    Object(
      Insert(
        Insert(
          Insert(Insert([], "input_tokens", Number(u.inputTokens)), "output_tokens", Number(u.outputTokens)),
          "cache_creation_input_tokens", Number(u.cacheCreationTokens)),
        "cache_read_input_tokens", Number(u.cacheReadTokens)))
  }

  function RoleName(role: Role): string {
    match role
    case System => "system"
    case User => "user"
    case Assistant => "assistant"
    case Tool => "tool"
  }

  function MessageJson(m: Message): JsonValue {
    var fields := Insert(Insert([], "role", Str(RoleName(m.role))), "blocks", Array(BlocksJson(m.blocks)));
    Object(InsertSome(fields, "usage", if m.usage.None? then None else Some(UsageJson(m.usage.value))))
  }

  function MessageRecord(m: Message): JsonValue {
    Object(Insert(Kind("message"), "message", MessageJson(m)))
  }

  function ForkJson(f: Fork): JsonValue {
    Object(
      InsertSome(
        Insert([], "parent_session_id", Str(f.parentSessionId)), "branch_name", OptionalText(f.branchName)))
  }

  /** A time stamp too large for a JSON number is replaced by the largest one. */
  function Clamped(n: U64): (r: U64)
    ensures r <= I64_MAX && r <= n
    ensures r == n <==> n <= I64_MAX
  {
    if n <= I64_MAX then n else I64_MAX
  }

  function PromptRecord(e: PromptEntry): JsonValue {
    Object(
      Insert(
        Insert(Kind("prompt_history"), "timestamp_ms", Number(Clamped(e.timestampMs))), "text", Str(e.text)))
  }

  function I64From(n: U64, key: string): (r: Result<int, SessionError>)
    ensures r.Ok? ==> r.value == n && n <= I64_MAX
  {
    if n <= I64_MAX then Ok(n) else Err(OutOfRange(key))
  }

  function CompactionFields(c: Compaction): seq<Entry> {
    Insert(
      Insert(
        Insert(Kind("compaction"), "count", Number(c.count)),
        "removed_message_count", Number(c.removedMessageCount)),
      "summary", Str(c.summary))
  }

  function CompactionRecord(c: Compaction): Result<JsonValue, SessionError> {
    match I64From(c.removedMessageCount, "removed_message_count")
    case Err(e) => Err(e)
    case Ok(_) => Ok(Object(CompactionFields(c)))
  }

  function WithNumbers(kind: seq<Entry>, s: Session): seq<Entry> {
    Insert(
      Insert(
        Insert(Insert(kind, "version", Number(s.version)), "session_id", Str(s.sessionId)),
        "created_at_ms", Number(s.createdAtMs)),
      "updated_at_ms", Number(s.updatedAtMs))
  }

  function MetaNumbers(s: Session): seq<Entry> {
    WithNumbers(Kind("session_meta"), s)
  }

  function OptionalFork(fork: Option<Fork>): Option<JsonValue> {
    if fork.None? then None else Some(ForkJson(fork.value))
  }

  function OptionalRoot(root: Option<Path>): Option<JsonValue> {
    if root.Some? && root.value.Utf8? then Some(Str(root.value.name)) else None
  }

  function WithOptions(numbers: seq<Entry>, s: Session): seq<Entry> {
    InsertSome(
      InsertSome(InsertSome(numbers, "fork", OptionalFork(s.fork)), "workspace_root", OptionalRoot(s.workspaceRoot)),
      "model", OptionalText(s.model))
  }

  function MetaRecord(s: Session): Result<JsonValue, SessionError> {
    match I64From(s.createdAtMs, "created_at_ms")
    case Err(e) => Err(e)
    case Ok(_) =>
      match I64From(s.updatedAtMs, "updated_at_ms")
      case Err(e) => Err(e)
      case Ok(_) =>
        if s.workspaceRoot == Some(NotUtf8) then Err(PathNotUtf8) else Ok(Object(WithOptions(MetaNumbers(s), s)))
  }

  function PromptRecords(history: seq<PromptEntry>): (r: seq<JsonValue>)
    ensures |r| == |history|
  {
    if history == [] then [] else [PromptRecord(history[0])] + PromptRecords(history[1..])
  }

  function MessageRecords(messages: seq<Message>): (r: seq<JsonValue>)
    ensures |r| == |messages|
  {
    if messages == [] then [] else [MessageRecord(messages[0])] + MessageRecords(messages[1..])
  }

  function RenderAll(records: seq<JsonValue>): (r: seq<string>)
    ensures |r| == |records|
  {
    if records == [] then [] else [Render(records[0])] + RenderAll(records[1..])
  }

  /** The lines separated by line feeds. */
  function Join(lines: seq<string>): string {
    if lines == [] then []
    else if |lines| == 1 then lines[0]
    else lines[0] + "\n" + Join(lines[1..])
  }

  function CompactionRecords(compaction: Option<Compaction>): Result<seq<JsonValue>, SessionError> {
    match compaction
    case None => Ok([])
    case Some(c) =>
      match CompactionRecord(c)
      case Err(e) => Err(e)
      case Ok(record) => Ok([record])
  }

  function Body(s: Session): seq<JsonValue> {
    PromptRecords(s.promptHistory) + MessageRecords(s.messages)
  }

  function Records(s: Session): Result<seq<JsonValue>, SessionError> {
    match MetaRecord(s)
    case Err(e) => Err(e)
    case Ok(meta) =>
      match CompactionRecords(s.compaction)
      case Err(e) => Err(e)
      case Ok(compactions) => Ok([meta] + (compactions + Body(s)))
  }

  function RenderSnapshot(s: Session): Result<string, SessionError> {
    match Records(s)
    case Err(e) => Err(e)
    case Ok(records) => Ok(Join(RenderAll(records)) + "\n")
  }

  // ---------------------------------------------------------------- reading fields

  function RequiredString(fields: seq<Entry>, key: string): Result<string, SessionError> {
    match Lookup(fields, key)
    case Some(Str(text)) => Ok(text)
    case _ => Err(Missing(key))
  }

  function OptionalString(fields: seq<Entry>, key: string): Option<string> {
    match Lookup(fields, key)
    case Some(Str(text)) => Some(text)
    case _ => None
  }

  function RequiredU32(fields: seq<Entry>, key: string): Result<U32, SessionError> {
    match Lookup(fields, key)
    case Some(Number(n)) => if 0 <= n < 0x1_0000_0000 then Ok(n) else Err(OutOfRange(key))
    case _ => Err(Missing(key))
  }

  /** Also the reader of machine-word sizes, which are 64 bits wide. */
  function RequiredU64(fields: seq<Entry>, key: string): Result<U64, SessionError> {
    match Lookup(fields, key)
    case Some(Number(n)) => if 0 <= n < 0x1_0000_0000_0000_0000 then Ok(n) else Err(OutOfRange(key))
    case _ => Err(Missing(key))
  }

  // ---------------------------------------------------------------- reading messages

  function ReadBlock(value: JsonValue): Result<Block, SessionError> {
    match value
    case Object(fields) => ReadBlockFields(fields)
    case _ => Err(NotAnObject("block"))
  }

  function ReadBlockFields(fields: seq<Entry>): Result<Block, SessionError> {
    match OptionalString(fields, "type")
    case None => Err(Missing("type"))
    case Some(kind) =>
      if kind == "text" then
        (match RequiredString(fields, "text")
         case Err(e) => Err(e)
         case Ok(text) => Ok(Text(text)))
      else if kind == "thinking" then
        (match RequiredString(fields, "thinking")
         case Err(e) => Err(e)
         case Ok(thinking) => Ok(Thinking(thinking, OptionalString(fields, "signature"))))
      else if kind == "tool_use" then ReadToolUse(fields)
      else if kind == "tool_result" then ReadToolResult(fields)
      else Err(UnsupportedBlock(kind))
  }

  function ReadToolUse(fields: seq<Entry>): Result<Block, SessionError> {
    match RequiredString(fields, "id")
    case Err(e) => Err(e)
    case Ok(id) =>
      match RequiredString(fields, "name")
      case Err(e) => Err(e)
      case Ok(name) =>
        match RequiredString(fields, "input")
        case Err(e) => Err(e)
        case Ok(input) => Ok(ToolUse(id, name, input))
  }

  function ReadToolResult(fields: seq<Entry>): Result<Block, SessionError> {
    match RequiredString(fields, "tool_use_id")
    case Err(e) => Err(e)
    case Ok(id) =>
      match RequiredString(fields, "tool_name")
      case Err(e) => Err(e)
      case Ok(name) =>
        match RequiredString(fields, "output")
        case Err(e) => Err(e)
        case Ok(output) =>
          match Lookup(fields, "is_error")
          case Some(Bool(flag)) => Ok(ToolResult(id, name, output, flag))
          case _ => Err(Missing("is_error"))
  }

  /** Stops at the first block that cannot be read. */
  function ReadBlocks(values: seq<JsonValue>): Result<seq<Block>, SessionError> {
    if values == [] then Ok([])
    else
      match ReadBlock(values[0])
      case Err(e) => Err(e)
      case Ok(b) =>
        match ReadBlocks(values[1..])
        case Err(e) => Err(e)
        case Ok(rest) => Ok([b] + rest)
  }

  function ReadUsage(value: JsonValue): Result<Usage, SessionError> {
    match value
    case Object(fields) =>
      (match RequiredU32(fields, "input_tokens")
       case Err(e) => Err(e)
       case Ok(input) =>
         match RequiredU32(fields, "output_tokens")
         case Err(e) => Err(e)
         case Ok(output) =>
           match RequiredU32(fields, "cache_creation_input_tokens")
           case Err(e) => Err(e)
           case Ok(creation) =>
             match RequiredU32(fields, "cache_read_input_tokens")
             case Err(e) => Err(e)
             case Ok(read) => Ok(Usage(input, output, creation, read)))
    case _ => Err(NotAnObject("usage"))
  }

  function ReadRole(name: string): Result<Role, SessionError> {
    if name == "system" then Ok(System)
    else if name == "user" then Ok(User)
    else if name == "assistant" then Ok(Assistant)
    else if name == "tool" then Ok(Tool)
    else Err(UnsupportedRole(name))
  }

  function ReadMessage(value: JsonValue): Result<Message, SessionError> {
    match value
    case Object(fields) => ReadMessageFields(fields)
    case _ => Err(NotAnObject("message"))
  }

  function ReadMessageFields(fields: seq<Entry>): Result<Message, SessionError> {
    match OptionalString(fields, "role")
    case None => Err(Missing("role"))
    case Some(name) =>
      match ReadRole(name)
      case Err(e) => Err(e)
      case Ok(role) =>
        match Lookup(fields, "blocks")
        case Some(Array(values)) =>
          (match ReadBlocks(values)
           case Err(e) => Err(e)
           case Ok(blocks) =>
             match Lookup(fields, "usage")
             case None => Ok(Message(role, blocks, None))
             case Some(u) =>
               match ReadUsage(u)
               case Err(e) => Err(e)
               case Ok(usage) => Ok(Message(role, blocks, Some(usage))))
        case _ => Err(Missing("blocks"))
  }

  // ---------------------------------------------------------------- reading the other records

  function ReadFork(value: JsonValue): Result<Fork, SessionError> {
    match value
    case Object(fields) =>
      (match RequiredString(fields, "parent_session_id")
       case Err(e) => Err(e)
       case Ok(parent) => Ok(Fork(parent, OptionalString(fields, "branch_name"))))
    case _ => Err(NotAnObject("fork metadata"))
  }

  function ReadCompaction(fields: seq<Entry>): Result<Compaction, SessionError> {
    match RequiredU32(fields, "count")
    case Err(e) => Err(e)
    case Ok(count) =>
      match RequiredU64(fields, "removed_message_count")
      case Err(e) => Err(e)
      case Ok(removed) =>
        match RequiredString(fields, "summary")
        case Err(e) => Err(e)
        case Ok(summary) => Ok(Compaction(count, removed, summary))
  }

  function ReadPrompt(fields: seq<Entry>): Option<PromptEntry> {
    match Lookup(fields, "timestamp_ms")
    case Some(Number(n)) =>
      if !(0 <= n < 0x1_0000_0000_0000_0000) then None
      else
        (match OptionalString(fields, "text")
         case None => None
         case Some(text) => Some(PromptEntry(n, text)))
    case _ => None
  }

  // ---------------------------------------------------------------- reading the file

  function LineEnd(s: string): (r: nat)
    ensures r <= |s|
    ensures forall i :: 0 <= i < r ==> s[i] != '\n'
    ensures r == |s| || s[r] == '\n'
  {
    if s == [] || s[0] == '\n' then 0 else 1 + LineEnd(s[1..])
  }

  /** Splits at line feeds, each with the carriage return before it; a last line may
      lack its line feed. */
  function Lines(s: string): seq<string>
    decreases |s|
  {
    if s == [] then []
    else
      var n := LineEnd(s);
      if n == |s| then [s]
      else if n > 0 && s[n - 1] == '\r' then [s[..n - 1]] + Lines(s[n + 1..])
      else [s[..n]] + Lines(s[n + 1..])
  }

  /** What has been read so far. */
  datatype Draft = Draft(
    version: U32,
    sessionId: Option<string>,
    createdAtMs: Option<U64>,
    updatedAtMs: Option<U64>,
    messages: seq<Message>,
    compaction: Option<Compaction>,
    fork: Option<Fork>,
    workspaceRoot: Option<Path>,
    model: Option<string>,
    promptHistory: seq<PromptEntry>)

  const EMPTY_DRAFT := Draft(SESSION_VERSION, None, None, None, [], None, None, None, None, [])

  function ReadOptionalFork(fields: seq<Entry>): Result<Option<Fork>, SessionError> {
    match Lookup(fields, "fork")
    case None => Ok(None)
    case Some(value) =>
      match ReadFork(value)
      case Err(e) => Err(e)
      case Ok(f) => Ok(Some(f))
  }

  function ReadRoot(fields: seq<Entry>): Option<Path> {
    match OptionalString(fields, "workspace_root")
    case None => None
    case Some(name) => Some(Utf8(name))
  }

  function ReadMeta(d: Draft, fields: seq<Entry>): Result<Draft, SessionError> {
    match RequiredU32(fields, "version")
    case Err(e) => Err(e)
    case Ok(version) =>
      match RequiredString(fields, "session_id")
      case Err(e) => Err(e)
      case Ok(id) =>
        match RequiredU64(fields, "created_at_ms")
        case Err(e) => Err(e)
        case Ok(created) =>
          match RequiredU64(fields, "updated_at_ms")
          case Err(e) => Err(e)
          case Ok(updated) =>
            match ReadOptionalFork(fields)
            case Err(e) => Err(e)
            case Ok(fork) =>
              Ok(d.(version := version, sessionId := Some(id), createdAtMs := Some(created),
                    updatedAtMs := Some(updated), fork := fork, workspaceRoot := ReadRoot(fields),
                    model := OptionalString(fields, "model")))
  }

  function ReadFields(d: Draft, fields: seq<Entry>, line: nat): Result<Draft, SessionError> {
    match OptionalString(fields, "type")
    case None => Err(RecordWithoutType(line))
    case Some(kind) =>
      if kind == "session_meta" then ReadMeta(d, fields)
      else if kind == "message" then
        (match Lookup(fields, "message")
         case None => Err(RecordWithoutMessage(line))
         case Some(value) =>
           match ReadMessage(value)
           case Err(e) => Err(e)
           case Ok(m) => Ok(d.(messages := d.messages + [m])))
      else if kind == "compaction" then
        (match ReadCompaction(fields)
         case Err(e) => Err(e)
         case Ok(c) => Ok(d.(compaction := Some(c))))
      else if kind == "prompt_history" then
        (match ReadPrompt(fields)
         case None => Ok(d)
         case Some(entry) => Ok(d.(promptHistory := d.promptHistory + [entry])))
      else Err(UnsupportedRecord(line, kind))
  }

  function ReadLine(d: Draft, raw: string, line: nat): Result<Draft, SessionError> {
    if Trim(raw) == [] then Ok(d)
    else
      match Parse(Trim(raw))
      case Err(error) => Err(InvalidRecord(line, error))
      case Ok(Object(fields)) => ReadFields(d, fields, line)
      case Ok(_) => Err(RecordNotAnObject(line))
  }

  function ReadLines(d: Draft, lines: seq<string>, line: nat): Result<Draft, SessionError>
    decreases |lines|
  {
    if lines == [] then Ok(d)
    else
      match ReadLine(d, lines[0], line)
      case Err(e) => Err(e)
      case Ok(next) => ReadLines(next, lines[1..], line + 1)
  }

  /** The clock and the fresh identifier fill in what no record gave. */
  function Finish(d: Draft, now: U64, freshId: string): Session {
    var created := if d.createdAtMs.Some? then d.createdAtMs.value else now;
    Session(
      d.version,
      if d.sessionId.Some? then d.sessionId.value else freshId,
      created,
      if d.updatedAtMs.Some? then d.updatedAtMs.value else created,
      d.messages, d.compaction, d.fork, d.workspaceRoot, d.promptHistory, None, d.model)
  }

  function FromJsonl(contents: string, now: U64, freshId: string): Result<Session, SessionError> {
    match ReadLines(EMPTY_DRAFT, Lines(contents), 1)
    case Err(e) => Err(e)
    case Ok(d) => Ok(Finish(d, now, freshId))
  }

  /** The two formats a session file may have. */
  datatype Format = Legacy(value: JsonValue) | RecordPerLine

  function FormatOf(contents: string): Format {
    match Parse(contents)
    case Ok(Object(fields)) =>
      if Lookup(fields, "messages").Some? then Legacy(Object(fields)) else RecordPerLine
    case _ => RecordPerLine
  }

  // ---------------------------------------------------------------- the legacy format

  function ReadMessages(values: seq<JsonValue>): Result<seq<Message>, SessionError> {
    if values == [] then Ok([])
    else
      match ReadMessage(values[0])
      case Err(e) => Err(e)
      case Ok(m) =>
        match ReadMessages(values[1..])
        case Err(e) => Err(e)
        case Ok(rest) => Ok([m] + rest)
  }

  /** The prompts that can be read; the others are passed over. */
  function ReadPrompts(values: seq<JsonValue>): seq<PromptEntry> {
    if values == [] then []
    else
      var first :=
        match values[0]
        case Object(fields) => ReadPrompt(fields)
        case _ => None;
      (if first.Some? then [first.value] else []) + ReadPrompts(values[1..])
  }

  function OptionalU64(fields: seq<Entry>, key: string, default: U64): Result<U64, SessionError> {
    if Lookup(fields, key).None? then Ok(default) else RequiredU64(fields, key)
  }

  function ReadOptionalCompaction(fields: seq<Entry>): Result<Option<Compaction>, SessionError> {
    match Lookup(fields, "compaction")
    case None => Ok(None)
    case Some(Object(inner)) =>
      (match ReadCompaction(inner)
       case Err(e) => Err(e)
       case Ok(c) => Ok(Some(c)))
    case Some(_) => Err(NotAnObject("compaction"))
  }

  function PromptsOf(fields: seq<Entry>): seq<PromptEntry> {
    match Lookup(fields, "prompt_history")
    case Some(Array(values)) => ReadPrompts(values)
    case _ => []
  }

  /** A session from one object; a missing version is reported as the original reports it. */
  function FromJson(value: JsonValue, now: U64, freshId: string): Result<Session, SessionError> {
    match value
    case Object(fields) => FromFields(fields, now, freshId)
    case _ => Err(NotAnObject("session"))
  }

  function FromFields(fields: seq<Entry>, now: U64, freshId: string): Result<Session, SessionError> {
    match RequiredU32(fields, "version")
    case Err(Missing(_)) => Err(NotAnObject("session"))
    case Err(e) => Err(e)
    case Ok(version) =>
      match Lookup(fields, "messages")
      case Some(Array(values)) =>
        (match ReadMessages(values)
         case Err(e) => Err(e)
         case Ok(messages) => FromRest(fields, version, messages, now, freshId))
      case _ => Err(Missing("messages"))
  }

  function FromRest(fields: seq<Entry>, version: U32, messages: seq<Message>, now: U64, freshId: string)
    : Result<Session, SessionError>
  {
    match OptionalU64(fields, "created_at_ms", now)
    case Err(e) => Err(e)
    case Ok(created) =>
      match OptionalU64(fields, "updated_at_ms", created)
      case Err(e) => Err(e)
      case Ok(updated) =>
        match ReadOptionalCompaction(fields)
        case Err(e) => Err(e)
        case Ok(compaction) =>
          match ReadOptionalFork(fields)
          case Err(e) => Err(e)
          case Ok(fork) =>
            var id := OptionalString(fields, "session_id");
            Ok(Session(version, if id.Some? then id.value else freshId, created, updated, messages, compaction,
                       fork, ReadRoot(fields), PromptsOf(fields), None, OptionalString(fields, "model")))
  }

  /** Reading a file of either format. */
  function Load(contents: string, now: U64, freshId: string): Result<Session, SessionError> {
    match FormatOf(contents)
    case Legacy(value) => FromJson(value, now, freshId)
    case RecordPerLine => FromJsonl(contents, now, freshId)
  }

  /** The reading loop. One draft value stands for the variables that collect the fields. */
  method ReadSession(contents: string, now: U64, freshId: string) returns (r: Result<Session, SessionError>)
    ensures r == FromJsonl(contents, now, freshId)
  {
    var d := EMPTY_DRAFT;
    var lines := Lines(contents);
    var i := 0;
    while i < |lines|
      invariant 0 <= i <= |lines|
      invariant ReadLines(d, lines[i..], i + 1) == ReadLines(EMPTY_DRAFT, lines, 1)
    {
      assert lines[i..][0] == lines[i] && lines[i..][1..] == lines[i + 1..];
      var line := Trim(lines[i]);
      i := i + 1;
      if line == [] {
        continue;
      }
      var parsed := Parse(line);
      if parsed.Err? {
        return Err(InvalidRecord(i, parsed.error));
      }
      if !parsed.value.Object? {
        return Err(RecordNotAnObject(i));
      }
      var fields := parsed.value.entries;
      var kind := OptionalString(fields, "type");
      if kind.None? {
        return Err(RecordWithoutType(i));
      }
      if kind.value == "session_meta" {
        var meta := ReadMeta(d, fields);
        if meta.Err? {
          return Err(meta.error);
        }
        d := meta.value;
      } else if kind.value == "message" {
        var value := Lookup(fields, "message");
        if value.None? {
          return Err(RecordWithoutMessage(i));
        }
        var m := ReadMessage(value.value);
        if m.Err? {
          return Err(m.error);
        }
        d := d.(messages := d.messages + [m.value]);
      } else if kind.value == "compaction" {
        var c := ReadCompaction(fields);
        if c.Err? {
          return Err(c.error);
        }
        d := d.(compaction := Some(c.value));
      } else if kind.value == "prompt_history" {
        var entry := ReadPrompt(fields);
        if entry.Some? {
          d := d.(promptHistory := d.promptHistory + [entry.value]);
        }
      } else {
        return Err(UnsupportedRecord(i, kind.value));
      }
    }
    return Ok(Finish(d, now, freshId));
  }
}
