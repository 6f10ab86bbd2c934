/**
 Compaction of a long session: a summary message in place of all but the most recent
 messages. The text of the summary is a parameter; what matters here is where the session
 is cut and how the summary message is recognised again.
 */
module Compaction {

  import opened Wrappers
  import opened Conversation
  import opened SessionLog
  import opened Strings

  const PREAMBLE :=
    "This session is being continued from a previous conversation that ran out of context."
    + " The summary below covers the earlier portion of the conversation.\n\n"

  const RECENT_NOTE := "Recent messages are preserved verbatim"

  const RESUME_WHAT :=
    "Continue the conversation from" + " where it left off without asking" + " the user any further questions."

  const RESUME_HOW :=
    " Resume directly - do not ackonwledge" + " the summary, do not recap what was"
    + " happening, and do not preface with"

  const RESUME := RESUME_WHAT + (RESUME_HOW + " continuation text.")

  /** The fixed sentences around a summary. */
  datatype Wording = Wording(preamble: string, recentNote: string, resume: string)

  const WORDING := Wording(PREAMBLE, RECENT_NOTE, RESUME)

  datatype Config = Config(preserveRecentMessages: nat, maxEstimatedTokens: nat)

  datatype Outcome = Outcome(session: Session, removedMessageCount: nat)

  // ---------------------------------------------------------------- recognising a summary

  function FirstText(blocks: seq<Block>): Option<string> {
    if blocks == [] then None
    else if blocks[0].Text? && Trim(blocks[0].text) != [] then Some(blocks[0].text)
    else FirstText(blocks[1..])
  }

  /** The place of the first occurrence of `marker`. */
  function Find(s: string, marker: string): (r: Option<nat>)
    ensures r.Some? ==> r.value <= |s|
  {
    if marker <= s then Some(0)
    else if s == [] then None
    else
      match Find(s[1..], marker)
      case None => None
      case Some(p) => Some(p + 1)
  }

  /** What comes before the first occurrence of `marker`: everything, if there is none. */
  function Before(s: string, marker: string): string {
    match Find(s, marker)
    case None => s
    case Some(p) => s[..p]
  }

  /** The summary inside the text of a summary message, if it is one. */
  function ReadSummary(w: Wording, text: string): Option<string> {
    if w.preamble <= text then
      Some(Trim(Before(Before(text[|w.preamble|..], "\n\n" + w.recentNote), "\n" + w.resume)))
    else None
  }

  function ExistingSummary(w: Wording, m: Message): Option<string> {
    if m.role != System then None
    else
      match FirstText(m.blocks)
      case None => None
      case Some(text) => ReadSummary(w, text)
  }

  function SummaryPrefix(w: Wording, messages: seq<Message>): (r: nat)
    ensures r <= |messages| && r <= 1
  {
    if messages != [] && ExistingSummary(w, messages[0]).Some? then 1 else 0
  }

  // ---------------------------------------------------------------- when to compact

  function BlockTokens(b: Block): nat {
    match b
    case Text(text) => ByteLength(text) / 4 + 1
    case ToolUse(_, name, input) => (ByteLength(name) + ByteLength(input)) / 4 + 1
    case ToolResult(_, name, output, _) => (ByteLength(name) + ByteLength(output)) / 4 + 1
    case Thinking(thinking, signature) =>
      ByteLength(thinking) / 4 + if signature.Some? then ByteLength(signature.value) / 4 + 1 else 0
  }

  function BlocksTokens(blocks: seq<Block>): nat {
    if blocks == [] then 0 else BlockTokens(blocks[0]) + BlocksTokens(blocks[1..])
  }

  function Tokens(messages: seq<Message>): nat {
    if messages == [] then 0 else BlocksTokens(messages[0].blocks) + Tokens(messages[1..])
  }

  predicate LongEnough(compactable: seq<Message>, config: Config) {
    |compactable| > config.preserveRecentMessages && Tokens(compactable) >= config.maxEstimatedTokens
  }

  predicate ShouldCompact(w: Wording, messages: seq<Message>, config: Config) {
    LongEnough(messages[SummaryPrefix(w, messages)..], config)
  }

  // ---------------------------------------------------------------- where to cut

  predicate StartsWithResult(m: Message) {
    m.blocks != [] && m.blocks[0].ToolResult?
  }

  predicate HasToolUse(m: Message) {
    exists i :: 0 <= i < |m.blocks| && m.blocks[i].ToolUse?
  }

  /** Where the configured number of messages would be kept, stopping at 0. */
  function RawKeepFrom(messages: seq<Message>, config: Config): (k: nat)
    ensures k <= |messages|
  {
    if |messages| >= config.preserveRecentMessages then |messages| - config.preserveRecentMessages else 0
  }

  /** The first message kept, going back from `k` while a tool result would be cut off; nothing
      when a message past the last is looked at. */
  function Boundary(messages: seq<Message>, prefix: nat, k: nat): (r: Option<nat>)
    ensures r.Some? ==> r.value <= k && (prefix <= k ==> prefix <= r.value)
  {
    if k == 0 || k <= prefix then Some(k)
    else if k >= |messages| then None
    else if !StartsWithResult(messages[k]) then Some(k)
    else if HasToolUse(messages[k - 1]) then Some(k - 1)
    else Boundary(messages, prefix, k - 1)
  }

  /** The boundary loop. */
  method KeepFrom(messages: seq<Message>, prefix: nat, start: nat) returns (r: Option<nat>)
    ensures r == Boundary(messages, prefix, start)
  {
    var k: nat := start;
    while true
      invariant k <= start && Boundary(messages, prefix, k) == Boundary(messages, prefix, start)
      decreases k
    {
      if k == 0 || k <= prefix {
        break;
      }
      if k >= |messages| {
        return None;
      }
      if !StartsWithResult(messages[k]) {
        break;
      }
      if HasToolUse(messages[k - 1]) {
        k := k - 1;
        break;
      }
      k := k - 1;
    }
    r := Some(k);
  }

  /** The loop looks past the last message exactly when it starts there and does not stop at
      the summary first. */
  lemma {:induction false} BoundaryFailsExactly(messages: seq<Message>, prefix: nat, k: nat)
    ensures Boundary(messages, prefix, k).None? <==> k > 0 && k > prefix && k >= |messages|
  {
    if prefix < k < |messages| && StartsWithResult(messages[k]) && !HasToolUse(messages[k - 1]) {
      BoundaryFailsExactly(messages, prefix, k - 1);
    }
  }

  // ---------------------------------------------------------------- the compacted session

  function Continuation(w: Wording, formatted: string, suppressQuestion: bool, recentPreserved: bool): string {
    w.preamble + (formatted
      + ((if recentPreserved then "\n\n" + w.recentNote else "") + (if suppressQuestion then "\n" + w.resume else "")))
  }

  method ContinuationMessage(w: Wording, formatted: string, suppressQuestion: bool, recentPreserved: bool)
    returns (base: string)
    ensures base == Continuation(w, formatted, suppressQuestion, recentPreserved)
  {
    base := w.preamble + formatted;
    if recentPreserved {
      base := base + "\n\n";
      base := base + w.recentNote;
    }
    if suppressQuestion {
      base := base + ['\n'];
      base := base + w.resume;
    }
  }

  function SummaryMessage(text: string): Message {
    Message(System, [Text(text)], None)
  }

  /** The number of compactions wraps around at 32 bits. */
  function Recorded(s: Session, summary: string, removed: U64, now: U64): Session {
    var count: U32 := if s.compaction.None? then 1 else (s.compaction.value.count + 1) % 0x1_0000_0000;
    s.(updatedAtMs := now, compaction := Some(SessionLog.Compaction(count, removed, summary)))
  }

  /** `message` and everything from `keep` on. */
  function Replaced(s: Session, prefix: nat, keep: nat, message: Message, summary: string, now: U64): Outcome
    requires prefix <= keep <= |s.messages| < 0x1_0000_0000_0000_0000
  {
    Outcome(Recorded(s.(messages := [message] + s.messages[keep..]), summary, keep - prefix, now), keep - prefix)
  }

  /** The session after compaction; nothing when the boundary loop looks past the last message.
      `summary` is the merged summary and `formatted` its display form. */
  function Compact(w: Wording, s: Session, config: Config, summary: string, formatted: string, now: U64)
    : Option<Outcome>
    requires |s.messages| < 0x1_0000_0000_0000_0000
  {
    if !ShouldCompact(w, s.messages, config) then Some(Outcome(s, 0))
    else
      var prefix := SummaryPrefix(w, s.messages);
      match Boundary(s.messages, prefix, RawKeepFrom(s.messages, config))
      case None => None
      case Some(keep) =>
        var message := SummaryMessage(Continuation(w, formatted, true, keep < |s.messages|));
        Some(Replaced(s, prefix, keep, message, summary, now))
  }

  method Replace(s: Session, prefix: nat, keepFrom: nat, continuation: string, summary: string, now: U64)
    returns (r: Outcome)
    requires prefix <= keepFrom <= |s.messages| < 0x1_0000_0000_0000_0000
    ensures r == Replaced(s, prefix, keepFrom, SummaryMessage(continuation), summary, now)
  {
    var removed := s.messages[prefix..keepFrom];
    var preserved := s.messages[keepFrom..];
    var compacted := [SummaryMessage(continuation)];
    compacted := compacted + preserved;
    var session := s.(messages := compacted);
    session := Recorded(session, summary, |removed|, now);
    r := Outcome(session, |removed|);
  }

  method CompactSession(w: Wording, s: Session, config: Config, summary: string, formatted: string, now: U64)
    returns (r: Option<Outcome>)
    requires |s.messages| < 0x1_0000_0000_0000_0000
    ensures r == Compact(w, s, config, summary, formatted, now)
  {
    if !ShouldCompact(w, s.messages, config) {
      return Some(Outcome(s, 0));
    }
    var prefix := SummaryPrefix(w, s.messages);
    var rawKeepFrom := RawKeepFrom(s.messages, config);
    var boundary := KeepFrom(s.messages, prefix, rawKeepFrom);
    if boundary.None? {
      return None;
    }
    var keepFrom := boundary.value;
    var continuation := ContinuationMessage(w, formatted, true, keepFrom < |s.messages|);
    var outcome := Replace(s, prefix, keepFrom, continuation, summary, now);
    r := Some(outcome);
  }
}
