/**
 What a session file means, described without its readers: which JSON values stand for which
 parts of a session, and which lines for which records. The readers accept exactly these,
 fields they do not know included, and give what they stand for.
 */
module SessionLogReading {

  import opened Wrappers
  import opened Json
  import opened Conversation
  import opened Strings
  import opened SessionLog
  import G = JsonGrammar
  import P = SessionLogProperties

  // ---------------------------------------------------------------- fields

  /** The object has this value under this key. */
  ghost predicate Has(v: JsonValue, key: string, x: JsonValue) {
    v.Object? && Lookup(v.entries, key) == Some(x)
  }

  ghost predicate Lacks(v: JsonValue, key: string) {
    v.Object? && Lookup(v.entries, key) == None
  }

  /** The text under the key, if there is one and it is a text. */
  ghost predicate Gives(v: JsonValue, key: string, text: Option<string>) {
    if text.Some? then Has(v, key, Str(text.value)) else v.Object? && forall t: string :: !Has(v, key, Str(t))
  }

  lemma GivesExactly(fields: seq<Entry>, key: string, text: Option<string>)
    ensures OptionalString(fields, key) == text <==> Gives(Object(fields), key, text)
  {
    match Lookup(fields, key)
    case Some(Str(t)) => assert Has(Object(fields), key, Str(t));
    case _ =>
  }

  lemma TextExactly(fields: seq<Entry>, key: string, text: string)
    ensures RequiredString(fields, key) == Ok(text) <==> Has(Object(fields), key, Str(text))
  {
  }

  lemma NumbersExactly(fields: seq<Entry>, key: string, n: int)
    ensures RequiredU32(fields, key) == Ok(n) <==> 0 <= n <= 0xFFFF_FFFF && Has(Object(fields), key, Number(n))
    ensures RequiredU64(fields, key) == Ok(n) <==>
      0 <= n <= 0xFFFF_FFFF_FFFF_FFFF && Has(Object(fields), key, Number(n))
  {
  }

  // ---------------------------------------------------------------- messages

  ghost predicate MeansBlock(v: JsonValue, b: Block) {
    match b
    case Text(text) => Has(v, "type", Str("text")) && Has(v, "text", Str(text))
    case Thinking(thinking, signature) =>
      Has(v, "type", Str("thinking")) && Has(v, "thinking", Str(thinking)) && Gives(v, "signature", signature)
    case ToolUse(id, name, input) =>
      && Has(v, "type", Str("tool_use"))
      && Has(v, "id", Str(id)) && Has(v, "name", Str(name)) && Has(v, "input", Str(input))
    case ToolResult(id, name, output, isError) =>
      && Has(v, "type", Str("tool_result"))
      && Has(v, "tool_use_id", Str(id)) && Has(v, "tool_name", Str(name)) && Has(v, "output", Str(output))
      && Has(v, "is_error", Bool(isError))
  }

  lemma BlockExactly(v: JsonValue, b: Block)
    ensures ReadBlock(v) == Ok(b) <==> MeansBlock(v, b)
  {
    if v.Object? {
      var fields := v.entries;
      match b
      case Text(text) => TextExactly(fields, "text", text);
      case Thinking(thinking, signature) =>
        TextExactly(fields, "thinking", thinking);
        GivesExactly(fields, "signature", signature);
      case ToolUse(id, name, input) =>
        TextExactly(fields, "id", id);
        TextExactly(fields, "name", name);
        TextExactly(fields, "input", input);
      case ToolResult(id, name, output, isError) =>
        TextExactly(fields, "tool_use_id", id);
        TextExactly(fields, "tool_name", name);
        TextExactly(fields, "output", output);
    }
  }

  ghost predicate MeansBlocks(values: seq<JsonValue>, blocks: seq<Block>) {
    |values| == |blocks| && forall i :: 0 <= i < |values| ==> MeansBlock(values[i], blocks[i])
  }

  lemma {:induction false} BlocksExactly(values: seq<JsonValue>, blocks: seq<Block>)
    ensures ReadBlocks(values) == Ok(blocks) <==> MeansBlocks(values, blocks)
    decreases |values|
  {
    if values != [] && blocks != [] {
      BlockExactly(values[0], blocks[0]);
      BlocksExactly(values[1..], blocks[1..]);
      assert blocks == [blocks[0]] + blocks[1..];
      assert forall i :: 1 <= i < |values| ==> values[i] == values[1..][i - 1];
      assert forall i :: 1 <= i < |blocks| ==> blocks[i] == blocks[1..][i - 1];
      assert MeansBlocks(values, blocks) <==> MeansBlock(values[0], blocks[0]) && MeansBlocks(values[1..], blocks[1..]);
    }
  }

  ghost predicate MeansUsage(v: JsonValue, u: Usage) {
    && Has(v, "input_tokens", Number(u.inputTokens))
    && Has(v, "output_tokens", Number(u.outputTokens))
    && Has(v, "cache_creation_input_tokens", Number(u.cacheCreationTokens))
    && Has(v, "cache_read_input_tokens", Number(u.cacheReadTokens))
  }

  lemma UsageExactly(v: JsonValue, u: Usage)
    ensures ReadUsage(v) == Ok(u) <==> MeansUsage(v, u)
  {
    if v.Object? {
      NumbersExactly(v.entries, "input_tokens", u.inputTokens);
      NumbersExactly(v.entries, "output_tokens", u.outputTokens);
      NumbersExactly(v.entries, "cache_creation_input_tokens", u.cacheCreationTokens);
      NumbersExactly(v.entries, "cache_read_input_tokens", u.cacheReadTokens);
    }
  }

  function NameOf(role: Role): string {
    match role
    case System => "system"
    case User => "user"
    case Assistant => "assistant"
    case Tool => "tool"
  }

  ghost predicate MeansMessage(v: JsonValue, m: Message) {
    && Has(v, "role", Str(NameOf(m.role)))
    && (exists values :: Has(v, "blocks", Array(values)) && MeansBlocks(values, m.blocks))
    && (if m.usage.None? then Lacks(v, "usage") else exists u :: Has(v, "usage", u) && MeansUsage(u, m.usage.value))
  }

  lemma RoleExactly(name: string, role: Role)
    ensures ReadRole(name) == Ok(role) <==> name == NameOf(role)
  {
  }

  lemma MessageExactly(v: JsonValue, m: Message)
    ensures ReadMessage(v) == Ok(m) <==> MeansMessage(v, m)
  {
    if v.Object? {
      var fields := v.entries;
      GivesExactly(fields, "role", Some(NameOf(m.role)));
      if OptionalString(fields, "role").Some? {
        RoleExactly(OptionalString(fields, "role").value, m.role);
      }
      match Lookup(fields, "blocks")
      case Some(Array(values)) =>
        BlocksExactly(values, m.blocks);
        if Lookup(fields, "usage").Some? && m.usage.Some? {
          UsageExactly(Lookup(fields, "usage").value, m.usage.value);
        }
        MessageParts(v, values, m);
      case _ =>
    }
  }

  /** There is one list of blocks and at most one usage. */
  lemma MessageParts(v: JsonValue, values: seq<JsonValue>, m: Message)
    requires Has(v, "blocks", Array(values))
    ensures MeansMessage(v, m) <==>
      && Has(v, "role", Str(NameOf(m.role))) && MeansBlocks(values, m.blocks)
      && (if m.usage.None? then Lacks(v, "usage")
          else Lookup(v.entries, "usage").Some? && MeansUsage(Lookup(v.entries, "usage").value, m.usage.value))
  {
  }

  // ---------------------------------------------------------------- the other records

  ghost predicate MeansFork(v: JsonValue, f: Fork) {
    Has(v, "parent_session_id", Str(f.parentSessionId)) && Gives(v, "branch_name", f.branchName)
  }

  lemma ForkExactly(v: JsonValue, f: Fork)
    ensures ReadFork(v) == Ok(f) <==> MeansFork(v, f)
  {
    if v.Object? {
      TextExactly(v.entries, "parent_session_id", f.parentSessionId);
      GivesExactly(v.entries, "branch_name", f.branchName);
    }
  }

  ghost predicate MeansCompaction(v: JsonValue, c: SessionLog.Compaction) {
    && Has(v, "count", Number(c.count))
    && Has(v, "removed_message_count", Number(c.removedMessageCount))
    && Has(v, "summary", Str(c.summary))
  }

  lemma CompactionExactly(fields: seq<Entry>, c: SessionLog.Compaction)
    ensures ReadCompaction(fields) == Ok(c) <==> MeansCompaction(Object(fields), c)
  {
    NumbersExactly(fields, "count", c.count);
    NumbersExactly(fields, "removed_message_count", c.removedMessageCount);
    TextExactly(fields, "summary", c.summary);
  }

  ghost predicate MeansPrompt(v: JsonValue, e: PromptEntry) {
    Has(v, "timestamp_ms", Number(e.timestampMs)) && Has(v, "text", Str(e.text))
  }

  lemma PromptExactly(fields: seq<Entry>, e: PromptEntry)
    ensures ReadPrompt(fields) == Some(e) <==> MeansPrompt(Object(fields), e)
  {
    GivesExactly(fields, "text", Some(e.text));
  }

  lemma NoPromptExactly(fields: seq<Entry>)
    ensures ReadPrompt(fields) == None <==> forall e :: !MeansPrompt(Object(fields), e)
  {
    if ReadPrompt(fields).Some? {
      PromptExactly(fields, ReadPrompt(fields).value);
    }
    forall e | ReadPrompt(fields).None?
      ensures !MeansPrompt(Object(fields), e)
    {
      PromptExactly(fields, e);
    }
  }

  ghost predicate MeansOptionalFork(v: JsonValue, fork: Option<Fork>) {
    if fork.None? then Lacks(v, "fork") else exists x :: Has(v, "fork", x) && MeansFork(x, fork.value)
  }

  lemma OptionalForkExactly(fields: seq<Entry>, fork: Option<Fork>)
    ensures ReadOptionalFork(fields) == Ok(fork) <==> MeansOptionalFork(Object(fields), fork)
  {
    if fork.Some? && Lookup(fields, "fork").Some? {
      ForkExactly(Lookup(fields, "fork").value, fork.value);
      assert Has(Object(fields), "fork", Lookup(fields, "fork").value);
    }
  }

  ghost predicate MeansRoot(v: JsonValue, root: Option<Path>) {
    match root
    case None => Gives(v, "workspace_root", None)
    case Some(Utf8(name)) => Gives(v, "workspace_root", Some(name))
    case Some(NotUtf8) => false
  }

  lemma RootExactly(fields: seq<Entry>, root: Option<Path>)
    ensures ReadRoot(fields) == root <==> MeansRoot(Object(fields), root)
  {
    GivesExactly(fields, "workspace_root", OptionalString(fields, "workspace_root"));
    match root
    case Some(Utf8(name)) => GivesExactly(fields, "workspace_root", Some(name));
    case _ => GivesExactly(fields, "workspace_root", None);
  }

  /** What a record adds to, or changes in, what has been read before it. */
  ghost predicate MeansRecord(v: JsonValue, d: Draft, next: Draft) {
    || (Has(v, "type", Str("session_meta")) && MeansMeta(v, d, next))
    || (Has(v, "type", Str("message")) && MeansMessageRecord(v, d, next))
    || (Has(v, "type", Str("compaction")) && next.compaction.Some? &&
          MeansCompaction(v, next.compaction.value) && next == d.(compaction := next.compaction))
    || (Has(v, "type", Str("prompt_history")) && MeansPromptRecord(v, d, next))
  }

  ghost predicate MeansMeta(v: JsonValue, d: Draft, next: Draft) {
    && Has(v, "version", Number(next.version))
    && next.sessionId.Some? && Has(v, "session_id", Str(next.sessionId.value))
    && next.createdAtMs.Some? && Has(v, "created_at_ms", Number(next.createdAtMs.value))
    && next.updatedAtMs.Some? && Has(v, "updated_at_ms", Number(next.updatedAtMs.value))
    && MeansOptionalFork(v, next.fork) && MeansRoot(v, next.workspaceRoot) && Gives(v, "model", next.model)
    && next.messages == d.messages && next.compaction == d.compaction && next.promptHistory == d.promptHistory
  }

  ghost predicate MeansMessageRecord(v: JsonValue, d: Draft, next: Draft) {
    exists x, m :: Has(v, "message", x) && MeansMessage(x, m) && next == d.(messages := d.messages + [m])
  }

  /** A prompt that cannot be read is passed over. */
  ghost predicate MeansPromptRecord(v: JsonValue, d: Draft, next: Draft) {
    || (exists e :: MeansPrompt(v, e) && next == d.(promptHistory := d.promptHistory + [e]))
    || ((forall e :: !MeansPrompt(v, e)) && next == d)
  }

  lemma MetaExactly(fields: seq<Entry>, d: Draft, next: Draft)
    ensures ReadMeta(d, fields) == Ok(next) <==> MeansMeta(Object(fields), d, next)
  {
    NumbersExactly(fields, "version", next.version);
    OptionalForkExactly(fields, next.fork);
    RootExactly(fields, next.workspaceRoot);
    GivesExactly(fields, "model", next.model);
    MetaNumbers(fields, next);
  }

  lemma MetaNumbers(fields: seq<Entry>, next: Draft)
    ensures next.sessionId.Some? ==>
      (RequiredString(fields, "session_id") == Ok(next.sessionId.value) <==>
       Has(Object(fields), "session_id", Str(next.sessionId.value)))
    ensures next.createdAtMs.Some? ==>
      (RequiredU64(fields, "created_at_ms") == Ok(next.createdAtMs.value) <==>
       Has(Object(fields), "created_at_ms", Number(next.createdAtMs.value)))
    ensures next.updatedAtMs.Some? ==>
      (RequiredU64(fields, "updated_at_ms") == Ok(next.updatedAtMs.value) <==>
       Has(Object(fields), "updated_at_ms", Number(next.updatedAtMs.value)))
  {
  }

  lemma MessageRecordExactly(fields: seq<Entry>, d: Draft, next: Draft, line: nat)
    requires OptionalString(fields, "type") == Some("message")
    ensures ReadFields(d, fields, line) == Ok(next) <==> MeansMessageRecord(Object(fields), d, next)
  {
    var v := Object(fields);
    if MeansMessageRecord(v, d, next) {
      var x, m :| Has(v, "message", x) && MeansMessage(x, m) && next == d.(messages := d.messages + [m]);
      MessageExactly(x, m);
    }
    if ReadFields(d, fields, line) == Ok(next) {
      var x := Lookup(fields, "message").value;
      var m := ReadMessage(x).value;
      MessageExactly(x, m);
      assert Has(v, "message", x) && MeansMessage(x, m);
    }
  }

  lemma PromptRecordExactly(fields: seq<Entry>, d: Draft, next: Draft, line: nat)
    requires OptionalString(fields, "type") == Some("prompt_history")
    ensures ReadFields(d, fields, line) == Ok(next) <==> MeansPromptRecord(Object(fields), d, next)
  {
    NoPromptExactly(fields);
    if ReadPrompt(fields).Some? {
      PromptExactly(fields, ReadPrompt(fields).value);
    }
    if e :| MeansPrompt(Object(fields), e) && next == d.(promptHistory := d.promptHistory + [e]) {
      PromptExactly(fields, e);
    }
  }

  lemma CompactionRecordExactly(fields: seq<Entry>, d: Draft, next: Draft, line: nat)
    requires OptionalString(fields, "type") == Some("compaction")
    ensures ReadFields(d, fields, line) == Ok(next) <==>
      && next.compaction.Some? && MeansCompaction(Object(fields), next.compaction.value)
      && next == d.(compaction := next.compaction)
  {
    if next.compaction.Some? {
      CompactionExactly(fields, next.compaction.value);
    }
  }

  lemma RecordExactly(fields: seq<Entry>, d: Draft, next: Draft, line: nat)
    ensures ReadFields(d, fields, line) == Ok(next) <==> MeansRecord(Object(fields), d, next)
  {
    GivesExactly(fields, "type", OptionalString(fields, "type"));
    match OptionalString(fields, "type")
    case None =>
    case Some(kind) =>
      assert forall k :: Has(Object(fields), "type", Str(k)) <==> k == kind;
      if kind == "session_meta" {
        MetaExactly(fields, d, next);
      } else if kind == "message" {
        MessageRecordExactly(fields, d, next, line);
      } else if kind == "compaction" {
        CompactionRecordExactly(fields, d, next, line);
      } else if kind == "prompt_history" {
        PromptRecordExactly(fields, d, next, line);
      }
  }

  // ---------------------------------------------------------------- lines

  /** A line of white space, or a record with white space around it. */
  ghost predicate MeansLine(raw: string, d: Draft, next: Draft) {
    || (White(raw) && next == d)
    || exists before, text, after, v ::
         White(before) && White(after) && raw == before + text + after && G.Writes(text, v) && MeansRecord(v, d, next)
  }

  lemma BlankIsWhite(s: string)
    requires G.Blank(s)
    ensures White(s)
  {
  }

  /** The text of an object starts and ends with its braces. */
  lemma {:induction false} MembersEnd(members: G.Members)
    ensures G.MembersText(members) != [] && G.MembersText(members)[|G.MembersText(members)| - 1] == '}'
  {
    match members
    case NoMember(space) =>
    case LastMember(member, after) => LastOf(G.MemberText(member) + after, "}", G.MembersText(members));
    case MoreMembers(member, after, rest) =>
      MembersEnd(rest);
      LastOf(G.MemberText(member) + (after + ","), G.MembersText(rest), G.MembersText(members));
  }

  lemma LastOf(a: string, b: string, all: string)
    requires b != [] && all == a + b
    ensures all != [] && all[|all| - 1] == b[|b| - 1]
  {
  }

  lemma ObjectTrimmed(c: G.Syntax)
    requires c.ObjectText?
    ensures Trimmed(G.Text(c)) && G.Text(c) != []
  {
    MembersEnd(c.members);
    LastOf("{", G.MembersText(c.members), G.Text(c));
    assert G.Text(c)[0] == '{';
  }

  /** An object with white space around its text is what is left of the text trimmed. */
  lemma ObjectInLine(raw: string, before: string, text: string, after: string, v: JsonValue)
    requires White(before) && White(after) && raw == before + text + after
    requires v.Object? && G.Writes(text, v)
    ensures Trim(raw) != [] && Parse(Trim(raw)) == Result.Ok(v)
  {
    var b, c, a :| G.Blank(b) && G.Proper(c) && G.Blank(a) && text == b + (G.Text(c) + a) && G.Meaning(c) == v;
    BlankIsWhite(b);
    BlankIsWhite(a);
    ObjectTrimmed(c);
    Widened(before, b, G.Text(c), a, after);
    TrimOf(before + b, G.Text(c), a + after);
    BareWrites(c);
    G.AcceptedExactly(G.Text(c), v);
  }

  lemma Widened(before: string, b: string, text: string, a: string, after: string)
    ensures before + (b + (text + a)) + after == (before + b) + text + (a + after)
  {
  }

  /** A text without white space around it is one too. */
  lemma BareWrites(c: G.Syntax)
    requires G.Proper(c)
    ensures G.Writes(G.Text(c), G.Meaning(c))
  {
    assert G.Text(c) == [] + (G.Text(c) + []);
    assert G.Blank([]);
  }

  lemma WhiteExactlyTrimmed(raw: string)
    ensures Trim(raw) == [] <==> White(raw)
  {
    var before, after := TrimSplits(raw);
    if White(raw) {
      assert raw == raw + [] + [];
      TrimOf(raw, [], []);
    }
  }

  lemma RecordHasObject(v: JsonValue, d: Draft, next: Draft)
    requires MeansRecord(v, d, next)
    ensures v.Object?
  {
  }

  /** A line is read exactly for what it means. */
  lemma LineExactly(raw: string, d: Draft, next: Draft, line: nat)
    ensures ReadLine(d, raw, line) == Result.Ok(next) <==> MeansLine(raw, d, next)
  {
    WhiteExactlyTrimmed(raw);
    if ReadLine(d, raw, line) == Result.Ok(next) && Trim(raw) != [] {
      var v := Parse(Trim(raw)).value;
      var before, after := TrimSplits(raw);
      G.AcceptedExactly(Trim(raw), v);
      RecordExactly(v.entries, d, next, line);
      assert raw == before + Trim(raw) + after && G.Writes(Trim(raw), v) && MeansRecord(v, d, next);
    }
    if before, text, after, v :|
      White(before) && White(after) && raw == before + text + after && G.Writes(text, v) && MeansRecord(v, d, next)
    {
      RecordHasObject(v, d, next);
      ObjectInLine(raw, before, text, after, v);
      RecordExactly(v.entries, d, next, line);
    }
  }

  /** What the lines of a file mean, one after the other. */
  ghost predicate MeansLines(lines: seq<string>, d: Draft, next: Draft)
    decreases |lines|
  {
    if lines == [] then next == d
    else exists middle :: MeansLine(lines[0], d, middle) && MeansLines(lines[1..], middle, next)
  }

  lemma {:induction false} LinesExactly(lines: seq<string>, d: Draft, next: Draft, line: nat)
    ensures ReadLines(d, lines, line) == Result.Ok(next) <==> MeansLines(lines, d, next)
    decreases |lines|
  {
    if lines != [] {
      var first := ReadLine(d, lines[0], line);
      if first.Ok? {
        LineExactly(lines[0], d, first.value, line);
        LinesExactly(lines[1..], first.value, next, line + 1);
      }
      if middle :| MeansLine(lines[0], d, middle) && MeansLines(lines[1..], middle, next) {
        LineExactly(lines[0], d, middle, line);
        LinesExactly(lines[1..], middle, next, line + 1);
      }
    }
  }

  /** A session as a draft gives it: what no record gave comes from the clock and the fresh
      identifier, the time of the last change from that of the creation; there is no health check. */
  ghost predicate Completes(s: Session, d: Draft, now: U64, freshId: string) {
    && s.version == d.version
    && (if d.sessionId.Some? then Some(s.sessionId) == d.sessionId else s.sessionId == freshId)
    && (if d.createdAtMs.Some? then Some(s.createdAtMs) == d.createdAtMs else s.createdAtMs == now)
    && (if d.updatedAtMs.Some? then Some(s.updatedAtMs) == d.updatedAtMs else s.updatedAtMs == s.createdAtMs)
    && s.messages == d.messages && s.compaction == d.compaction && s.fork == d.fork
    && s.workspaceRoot == d.workspaceRoot && s.promptHistory == d.promptHistory && s.model == d.model
    && s.lastHealthCheckMs == None
  }

  /** Nothing read yet: version 1 and no messages, prompts or anything else. */
  ghost predicate Fresh(d: Draft) {
    && d.version == 1 && d.messages == [] && d.promptHistory == []
    && d.sessionId == None && d.createdAtMs == None && d.updatedAtMs == None
    && d.compaction == None && d.fork == None && d.workspaceRoot == None && d.model == None
  }

  lemma FreshIsEmpty(d: Draft)
    ensures Fresh(d) <==> d == EMPTY_DRAFT
  {
  }

  lemma CompletesExactly(s: Session, d: Draft, now: U64, freshId: string)
    ensures Completes(s, d, now, freshId) <==> s == Finish(d, now, freshId)
  {
  }

  /** A file of records is read exactly for what its lines mean. */
  lemma FileExactly(contents: string, now: U64, freshId: string, s: Session)
    ensures FromJsonl(contents, now, freshId) == Result.Ok(s) <==>
      exists d, next :: Fresh(d) && MeansLines(Lines(contents), d, next) && Completes(s, next, now, freshId)
  {
    var lines := Lines(contents);
    FreshIsEmpty(EMPTY_DRAFT);
    var read := ReadLines(EMPTY_DRAFT, lines, 1);
    if read.Ok? {
      LinesExactly(lines, EMPTY_DRAFT, read.value, 1);
      CompletesExactly(s, read.value, now, freshId);
    }
    if d, next :| Fresh(d) && MeansLines(lines, d, next) && Completes(s, next, now, freshId) {
      FreshIsEmpty(d);
      LinesExactly(lines, EMPTY_DRAFT, next, 1);
      CompletesExactly(s, next, now, freshId);
    }
  }

  // ---------------------------------------------------------------- where lines end

  /** A line as it stands in a file, with its end: a line feed, or a carriage return and one. */
  datatype Ended = Ended(line: string, withReturn: bool)

  predicate OneLine(line: string) {
    (forall i :: 0 <= i < |line| ==> line[i] != '\n') && (line != [] ==> line[|line| - 1] != '\r')
  }

  function EndedText(e: Ended): string {
    e.line + (if e.withReturn then "\r\n" else "\n")
  }

  function FileText(lines: seq<Ended>, last: string): string {
    if lines == [] then last else EndedText(lines[0]) + FileText(lines[1..], last)
  }

  function LinesOf(lines: seq<Ended>): (r: seq<string>)
    ensures |r| == |lines| && forall i :: 0 <= i < |r| ==> r[i] == lines[i].line
  {
    if lines == [] then [] else [lines[0].line] + LinesOf(lines[1..])
  }

  lemma {:induction false} EndFound(line: string, rest: string)
    requires forall i :: 0 <= i < |line| ==> line[i] != '\n'
    requires rest == [] || rest[0] == '\n'
    ensures LineEnd(line + rest) == |line|
  {
    if line == [] {
      assert line + rest == rest;
    } else {
      assert (line + rest)[1..] == line[1..] + rest;
      EndFound(line[1..], rest);
    }
  }

  lemma FirstEnded(e: Ended, rest: string)
    requires OneLine(e.line)
    ensures Lines(EndedText(e) + rest) == [e.line] + Lines(rest)
  {
    var s := EndedText(e) + rest;
    if e.withReturn {
      var line := e.line + "\r";
      assert s == line + ("\n" + rest);
      EndFound(line, "\n" + rest);
      assert s[|line| - 1] == '\r' && s[..|line| - 1] == e.line && s[|line| + 1..] == rest;
    } else {
      assert s == e.line + ("\n" + rest);
      EndFound(e.line, "\n" + rest);
      assert s[..|e.line|] == e.line && s[|e.line| + 1..] == rest;
      assert e.line != [] ==> s[|e.line| - 1] == e.line[|e.line| - 1];
    }
  }

  /** A file is split into its lines, however they end; a last line may lack its end. */
  lemma {:induction false} FileSplit(lines: seq<Ended>, last: string)
    requires forall i :: 0 <= i < |lines| ==> OneLine(lines[i].line)
    requires forall i :: 0 <= i < |last| ==> last[i] != '\n'
    ensures Lines(FileText(lines, last)) == LinesOf(lines) + if last == [] then [] else [last]
    decreases |lines|
  {
    if lines == [] {
      LastLine(last);
    } else {
      FirstEnded(lines[0], FileText(lines[1..], last));
      FileSplit(lines[1..], last);
      Regrouped([lines[0].line], LinesOf(lines[1..]), if last == [] then [] else [last]);
    }
  }

  lemma LastLine(last: string)
    requires forall i :: 0 <= i < |last| ==> last[i] != '\n'
    ensures Lines(last) == if last == [] then [] else [last]
  {
    assert last + [] == last;
    EndFound(last, []);
  }

  lemma Regrouped(a: seq<string>, b: seq<string>, c: seq<string>)
    ensures a + (b + c) == a + b + c
  {
  }

  // ---------------------------------------------------------------- the legacy format

  ghost predicate MeansMessages(values: seq<JsonValue>, messages: seq<Message>) {
    |values| == |messages| && forall i :: 0 <= i < |values| ==> MeansMessage(values[i], messages[i])
  }

  lemma {:induction false} MessagesExactly(values: seq<JsonValue>, messages: seq<Message>)
    ensures ReadMessages(values) == Result.Ok(messages) <==> MeansMessages(values, messages)
    decreases |values|
  {
    if values != [] && messages != [] {
      MessageExactly(values[0], messages[0]);
      MessagesExactly(values[1..], messages[1..]);
      assert messages == [messages[0]] + messages[1..];
      MeansFirst(values, messages);
    }
  }

  lemma MeansFirst(values: seq<JsonValue>, messages: seq<Message>)
    requires values != [] && messages != []
    ensures MeansMessages(values, messages) <==>
      MeansMessage(values[0], messages[0]) && MeansMessages(values[1..], messages[1..])
  {
    assert forall i :: 1 <= i < |values| ==> values[i] == values[1..][i - 1];
    assert forall i :: 1 <= i < |messages| ==> messages[i] == messages[1..][i - 1];
  }

  /** The prompts among the values, in order; whatever is no prompt is passed over. */
  ghost predicate MeansPrompts(values: seq<JsonValue>, prompts: seq<PromptEntry>)
    decreases |values|
  {
    if values == [] then prompts == []
    else if forall e :: !MeansPrompt(values[0], e) then MeansPrompts(values[1..], prompts)
    else prompts != [] && MeansPrompt(values[0], prompts[0]) && MeansPrompts(values[1..], prompts[1..])
  }

  lemma {:induction false} PromptsExactly(values: seq<JsonValue>, prompts: seq<PromptEntry>)
    ensures ReadPrompts(values) == prompts <==> MeansPrompts(values, prompts)
    decreases |values|
  {
    if values != [] {
      var v := values[0];
      var first := if v.Object? then ReadPrompt(v.entries) else None;
      if v.Object? {
        NoPromptExactly(v.entries);
        if first.Some? {
          PromptExactly(v.entries, first.value);
        }
      }
      if first.None? {
        PromptsExactly(values[1..], prompts);
        assert [] + ReadPrompts(values[1..]) == ReadPrompts(values[1..]);
      } else {
        if prompts != [] {
          PromptsExactly(values[1..], prompts[1..]);
          PromptExactly(v.entries, prompts[0]);
          assert prompts == [prompts[0]] + prompts[1..];
        }
      }
    }
  }

  ghost predicate GivesPrompts(v: JsonValue, prompts: seq<PromptEntry>) {
    if exists values :: Has(v, "prompt_history", Array(values))
    then exists values :: Has(v, "prompt_history", Array(values)) && MeansPrompts(values, prompts)
    else prompts == []
  }

  lemma PromptsOfExactly(fields: seq<Entry>, prompts: seq<PromptEntry>)
    ensures PromptsOf(fields) == prompts <==> GivesPrompts(Object(fields), prompts)
  {
    match Lookup(fields, "prompt_history")
    case Some(Array(values)) =>
      assert Has(Object(fields), "prompt_history", Array(values));
      PromptsExactly(values, prompts);
    case _ =>
  }

  /** A time stamp, or what stands in for a missing one. */
  ghost predicate GivesTime(v: JsonValue, key: string, default: U64, time: U64) {
    (Lacks(v, key) && time == default) || Has(v, key, Number(time))
  }

  lemma TimeExactly(fields: seq<Entry>, key: string, default: U64, time: U64)
    ensures OptionalU64(fields, key, default) == Result.Ok(time) <==> GivesTime(Object(fields), key, default, time)
  {
    NumbersExactly(fields, key, time);
  }

  ghost predicate MeansOptionalCompaction(v: JsonValue, compaction: Option<SessionLog.Compaction>) {
    if compaction.None? then Lacks(v, "compaction")
    else exists x :: Has(v, "compaction", x) && MeansCompaction(x, compaction.value)
  }

  lemma OptionalCompactionExactly(fields: seq<Entry>, compaction: Option<SessionLog.Compaction>)
    ensures ReadOptionalCompaction(fields) == Result.Ok(compaction) <==>
      MeansOptionalCompaction(Object(fields), compaction)
  {
    match Lookup(fields, "compaction")
    case None =>
    case Some(Object(inner)) =>
      if compaction.Some? {
        CompactionExactly(inner, compaction.value);
        assert Has(Object(fields), "compaction", Object(inner));
      }
    case Some(_) =>
  }

  /** A session written as one object; only the version and the messages must be there. */
  ghost predicate MeansSession(v: JsonValue, s: Session, now: U64, freshId: string) {
    && Has(v, "version", Number(s.version))
    && (exists values :: Has(v, "messages", Array(values)) && MeansMessages(values, s.messages))
    && MeansRest(v, s, now, freshId)
  }

  ghost predicate MeansRest(v: JsonValue, s: Session, now: U64, freshId: string) {
    && (Has(v, "session_id", Str(s.sessionId)) || (Gives(v, "session_id", None) && s.sessionId == freshId))
    && GivesTime(v, "created_at_ms", now, s.createdAtMs)
    && GivesTime(v, "updated_at_ms", s.createdAtMs, s.updatedAtMs)
    && MeansOptionalCompaction(v, s.compaction) && MeansOptionalFork(v, s.fork) && MeansRoot(v, s.workspaceRoot)
    && GivesPrompts(v, s.promptHistory) && Gives(v, "model", s.model)
    && s.lastHealthCheckMs == None
  }

  lemma RestExactly(fields: seq<Entry>, s: Session, now: U64, freshId: string)
    ensures FromRest(fields, s.version, s.messages, now, freshId) == Result.Ok(s) <==>
      MeansRest(Object(fields), s, now, freshId)
  {
    TimeExactly(fields, "created_at_ms", now, s.createdAtMs);
    TimeExactly(fields, "updated_at_ms", s.createdAtMs, s.updatedAtMs);
    OptionalCompactionExactly(fields, s.compaction);
    OptionalForkExactly(fields, s.fork);
    RootExactly(fields, s.workspaceRoot);
    PromptsOfExactly(fields, s.promptHistory);
    GivesExactly(fields, "model", s.model);
    GivesExactly(fields, "session_id", None);
    GivesExactly(fields, "session_id", Some(s.sessionId));
  }

  lemma SessionExactly(v: JsonValue, s: Session, now: U64, freshId: string)
    ensures FromJson(v, now, freshId) == Result.Ok(s) <==> MeansSession(v, s, now, freshId)
  {
    if v.Object? {
      var fields := v.entries;
      NumbersExactly(fields, "version", s.version);
      RestExactly(fields, s, now, freshId);
      match Lookup(fields, "messages")
      case Some(Array(values)) =>
        assert Has(v, "messages", Array(values));
        MessagesExactly(values, s.messages);
        SessionParts(v, fields, values, s, now, freshId);
      case _ =>
    }
  }

  lemma SessionParts(v: JsonValue, fields: seq<Entry>, values: seq<JsonValue>, s: Session, now: U64, freshId: string)
    requires v == Object(fields) && Lookup(fields, "messages") == Some(Array(values))
    requires ReadMessages(values) == Result.Ok(s.messages) <==> MeansMessages(values, s.messages)
    requires FromRest(fields, s.version, s.messages, now, freshId) == Result.Ok(s) <==> MeansRest(v, s, now, freshId)
    requires RequiredU32(fields, "version") == Result.Ok(s.version) <==> Has(v, "version", Number(s.version))
    ensures FromJson(v, now, freshId) == Result.Ok(s) <==> MeansSession(v, s, now, freshId)
  {
    assert Has(v, "messages", Array(values));
  }

  /** A file of either format is read exactly for what it means: one object with messages as a whole,
      anything else line by line. */
  lemma LoadExactly(contents: string, now: U64, freshId: string, s: Session)
    ensures Load(contents, now, freshId) == Result.Ok(s) <==>
      if exists v :: IsLegacy(contents, v) then exists v :: IsLegacy(contents, v) && MeansSession(v, s, now, freshId)
      else FromJsonl(contents, now, freshId) == Result.Ok(s)
  {
    match FormatOf(contents)
    case Legacy(v) =>
      P.LegacyExactly(contents, v);
      SessionExactly(v, s, now, freshId);
      forall u | IsLegacy(contents, u)
        ensures u == v
      {
        P.LegacyExactly(contents, u);
      }
      assert IsLegacy(contents, v);
    case RecordPerLine =>
      forall v
        ensures !IsLegacy(contents, v)
      {
        P.LegacyExactly(contents, v);
      }
  }

  ghost predicate IsLegacy(contents: string, v: JsonValue) {
    v.Object? && (exists i :: 0 <= i < |v.entries| && v.entries[i].key == "messages") && G.Writes(contents, v)
  }
}
