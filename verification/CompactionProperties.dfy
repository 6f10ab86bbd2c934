/** What compaction keeps, over any run of appended messages and compactions. */
module CompactionProperties {

  import opened Wrappers
  import opened Conversation
  import opened SessionLog
  import opened Strings
  import opened Compaction

  // ---------------------------------------------------------------- tool results and their uses

  predicate Asks(m: Message, id: string) {
    exists b :: 0 <= b < |m.blocks| && m.blocks[b].ToolUse? && m.blocks[b].id == id
  }

  predicate Answers(m: Message, id: string) {
    exists b :: 0 <= b < |m.blocks| && m.blocks[b].ToolResult? && m.blocks[b].toolUseId == id
  }

  /** A result in any of its blocks. */
  predicate HasResult(m: Message) {
    exists b :: 0 <= b < |m.blocks| && m.blocks[b].ToolResult?
  }

  /** A result, but not in the block the boundary loop looks at. */
  predicate HidesResult(m: Message) {
    HasResult(m) && !StartsWithResult(m)
  }

  lemma SomeAnswer(m: Message) returns (id: string)
    requires HasResult(m)
    ensures Answers(m, id)
  {
    var b :| 0 <= b < |m.blocks| && m.blocks[b].ToolResult?;
    id := m.blocks[b].toolUseId;
  }

  ghost predicate OnlyResults(messages: seq<Message>, j: nat, i: nat)
    requires j <= i <= |messages|
  {
    forall l :: j < l < i ==> HasResult(messages[l])
  }

  /** The use with this identifier comes before place `i`, with only results between. */
  ghost predicate FollowsUse(messages: seq<Message>, i: nat, id: string)
    requires i <= |messages|
  {
    exists j: nat :: j < i && Asks(messages[j], id) && OnlyResults(messages, j, i)
  }

  /** Every result, in whatever block, follows the use it answers, with only results between. */
  ghost predicate Paired(messages: seq<Message>) {
    forall i: nat, id :: i < |messages| && Answers(messages[i], id) ==> FollowsUse(messages, i, id)
  }

  ghost predicate UsedBefore(messages: seq<Message>, i: nat, id: string)
    requires i <= |messages|
  {
    exists j: nat :: j < i && Asks(messages[j], id)
  }

  /** The use every result answers is somewhere before it. */
  ghost predicate Answered(messages: seq<Message>) {
    forall i: nat, id :: i < |messages| && Answers(messages[i], id) ==> UsedBefore(messages, i, id)
  }

  /** One pass over the messages tells which uses a result at place `i` may answer. */
  ghost predicate Waits(messages: seq<Message>, i: nat, id: string)
    requires i <= |messages|
  {
    i > 0 && (Asks(messages[i - 1], id) || (HasResult(messages[i - 1]) && Waits(messages, i - 1, id)))
  }

  lemma {:induction false} WaitsExactly(messages: seq<Message>, i: nat, id: string)
    requires i <= |messages|
    ensures Waits(messages, i, id) <==> FollowsUse(messages, i, id)
  {
    if i > 0 {
      WaitsExactly(messages, i - 1, id);
      if Asks(messages[i - 1], id) {
        assert OnlyResults(messages, i - 1, i);
      } else if HasResult(messages[i - 1]) {
        assert forall j: nat :: j < i - 1 ==> (OnlyResults(messages, j, i) <==> OnlyResults(messages, j, i - 1));
      }
    }
  }

  /** The one pass decides pairing. */
  lemma PairedByWaiting(messages: seq<Message>)
    ensures Paired(messages) <==>
      forall i: nat, id :: i < |messages| && Answers(messages[i], id) ==> Waits(messages, i, id)
  {
    forall i: nat, id | i < |messages| && Answers(messages[i], id)
      ensures Waits(messages, i, id) <==> FollowsUse(messages, i, id)
    {
      WaitsExactly(messages, i, id);
    }
  }

  // ---------------------------------------------------------------- where the cut falls

  /** Going back from `k` over a run of results, the first tool use found is in message `i`. */
  ghost predicate NearestUse(messages: seq<Message>, i: nat, k: nat)
    requires k < |messages|
  {
    && i < k
    && HasToolUse(messages[i])
    && forall l :: i < l <= k ==> StartsWithResult(messages[l]) && (l < k ==> !HasToolUse(messages[l]))
  }

  /** That message is a result itself, or belongs to the old summary: cutting there leaves the
      result behind without its use. */
  ghost predicate Separates(messages: seq<Message>, prefix: nat, k: nat)
    requires k < |messages|
  {
    exists i: nat :: NearestUse(messages, i, k) && (i < prefix || StartsWithResult(messages[i]))
  }

  /** The boundary message starts with a result exactly in that case. */
  lemma {:induction false} BoundarySeparates(messages: seq<Message>, prefix: nat, k: nat)
    requires Paired(messages) && prefix <= 1 && prefix <= k < |messages|
    ensures Boundary(messages, prefix, k).Some?
    ensures StartsWithResult(messages[Boundary(messages, prefix, k).value]) <==> Separates(messages, prefix, k)
  {
    if StartsWithResult(messages[k]) {
      if k <= prefix {
        FirstFollows(messages, k);
        assert NearestUse(messages, 0, k);
      } else if HasToolUse(messages[k - 1]) {
        assert NearestUse(messages, k - 1, k);
      } else {
        BoundarySeparates(messages, prefix, k - 1);
        assert forall i: nat :: NearestUse(messages, i, k) <==> NearestUse(messages, i, k - 1);
      }
    }
  }

  /** A result in one of the first two messages follows a use in the first. */
  lemma FirstFollows(messages: seq<Message>, k: nat)
    requires Paired(messages) && k < |messages| && k <= 1 && HasResult(messages[k])
    ensures k == 1 && HasToolUse(messages[0])
  {
    var id := SomeAnswer(messages[k]);
    assert FollowsUse(messages, k, id);
  }

  // ---------------------------------------------------------------- when a session is compacted

  /** The bytes of a character, as UTF-8 writes it. */
  function Utf8(c: char): seq<nat> {
    var v := c as nat;
    if v < 0x80 then [v]
    else if v < 0x800 then [0xC0 + v / 0x40, 0x80 + v % 0x40]
    else if v < 0x1_0000 then [0xE0 + v / 0x1000, 0x80 + v / 0x40 % 0x40, 0x80 + v % 0x40]
    else [0xF0 + v / 0x4_0000, 0x80 + v / 0x1000 % 0x40, 0x80 + v / 0x40 % 0x40, 0x80 + v % 0x40]
  }

  function Utf8Text(s: string): seq<nat> {
    if s == [] then [] else Utf8(s[0]) + Utf8Text(s[1..])
  }

  lemma {:induction false} BytesCounted(s: string)
    ensures ByteLength(s) == |Utf8Text(s)|
  {
    if s != [] {
      BytesCounted(s[1..]);
    }
  }

  /** What a block is counted as: its bytes, four to a token. */
  function Estimate(b: Block): nat {
    match b
    case Text(text) => |Utf8Text(text)| / 4 + 1
    case ToolUse(_, name, input) => (|Utf8Text(name)| + |Utf8Text(input)|) / 4 + 1
    case ToolResult(_, name, output, _) => (|Utf8Text(name)| + |Utf8Text(output)|) / 4 + 1
    case Thinking(thinking, None) => |Utf8Text(thinking)| / 4
    case Thinking(thinking, Some(signature)) => |Utf8Text(thinking)| / 4 + |Utf8Text(signature)| / 4 + 1
  }

  /** All blocks of all messages. */
  function AllBlocks(messages: seq<Message>): seq<Block> {
    if messages == [] then [] else messages[0].blocks + AllBlocks(messages[1..])
  }

  function Total(blocks: seq<Block>): nat {
    if blocks == [] then 0 else Total(blocks[..|blocks| - 1]) + Estimate(blocks[|blocks| - 1])
  }

  lemma {:induction false} TotalTogether(a: seq<Block>, b: seq<Block>)
    ensures Total(a + b) == Total(a) + Total(b)
    decreases |b|
  {
    if b == [] {
      assert a + b == a;
    } else {
      TotalTogether(a, b[..|b| - 1]);
      assert (a + b)[..|a + b| - 1] == a + b[..|b| - 1];
    }
  }

  lemma BlockCounted(b: Block)
    ensures BlockTokens(b) == Estimate(b)
  {
    match b
    case Text(text) => BytesCounted(text);
    case ToolUse(_, name, input) =>
      BytesCounted(name);
      BytesCounted(input);
    case ToolResult(_, name, output, _) =>
      BytesCounted(name);
      BytesCounted(output);
    case Thinking(thinking, signature) =>
      BytesCounted(thinking);
      if signature.Some? {
        BytesCounted(signature.value);
      }
  }

  lemma {:induction false} BlocksCounted(blocks: seq<Block>)
    ensures BlocksTokens(blocks) == Total(blocks)
  {
    if blocks != [] {
      BlocksCounted(blocks[1..]);
      BlockCounted(blocks[0]);
      TotalTogether([blocks[0]], blocks[1..]);
      assert [blocks[0]] + blocks[1..] == blocks;
      assert [blocks[0]][..0] == [];
    }
  }

  lemma {:induction false} TokensCounted(messages: seq<Message>)
    ensures Tokens(messages) == Total(AllBlocks(messages))
  {
    if messages != [] {
      TokensCounted(messages[1..]);
      BlocksCounted(messages[0].blocks);
      TotalTogether(messages[0].blocks, AllBlocks(messages[1..]));
    }
  }

  /** A text with something in it other than white space. */
  predicate Inked(b: Block) {
    b.Text? && exists i :: 0 <= i < |b.text| && !IsWhite(b.text[i])
  }

  lemma {:induction false} TrimEmpty(s: string)
    ensures Trim(s) == [] <==> forall i :: 0 <= i < |s| ==> IsWhite(s[i])
    decreases |s|
  {
    if s != [] {
      if IsWhite(s[0]) {
        TrimEmpty(s[1..]);
        if forall i :: 0 <= i < |s[1..]| ==> IsWhite(s[1..][i]) {
          assert forall i :: 1 <= i < |s| ==> s[i] == s[1..][i - 1];
        } else {
          var i :| 0 <= i < |s[1..]| && !IsWhite(s[1..][i]);
          assert !IsWhite(s[i + 1]);
        }
      } else if IsWhite(s[|s| - 1]) {
        TrimEmpty(s[..|s| - 1]);
        assert s[..|s| - 1][0] == s[0];
      }
    }
  }

  lemma {:induction false} FirstInked(blocks: seq<Block>, text: string)
    ensures FirstText(blocks) == Some(text) <==>
      exists i :: 0 <= i < |blocks| && Inked(blocks[i]) && blocks[i].text == text &&
                  forall j :: 0 <= j < i ==> !Inked(blocks[j])
  {
    if blocks != [] {
      var rest := blocks[1..];
      FirstInked(rest, text);
      if blocks[0].Text? {
        TrimEmpty(blocks[0].text);
      }
      if !Inked(blocks[0]) {
        if i :| 0 <= i < |rest| && Inked(rest[i]) && rest[i].text == text &&
                forall j :: 0 <= j < i ==> !Inked(rest[j]) {
          assert forall j :: 0 <= j < i + 1 ==> !Inked(blocks[j]);
          assert Inked(blocks[i + 1]) && blocks[i + 1].text == text;
        }
        if i :| 0 <= i < |blocks| && Inked(blocks[i]) && blocks[i].text == text &&
                forall j :: 0 <= j < i ==> !Inked(blocks[j]) {
          assert Inked(rest[i - 1]) && rest[i - 1].text == text;
          assert forall j :: 0 <= j < i - 1 ==> !Inked(rest[j]);
        }
      }
    }
  }

  /** A message is an old summary exactly when it is the system's and the first text in it that is
      not blank starts with the fixed sentences. */
  lemma RecognisedExactly(w: Wording, m: Message)
    ensures ExistingSummary(w, m).Some? <==>
      && m.role == System
      && exists i :: 0 <= i < |m.blocks| && Inked(m.blocks[i]) && w.preamble <= m.blocks[i].text
                     && forall j :: 0 <= j < i ==> !Inked(m.blocks[j])
  {
    if m.role == System {
      if FirstText(m.blocks).Some? {
        FirstInked(m.blocks, FirstText(m.blocks).value);
      }
      if i :| 0 <= i < |m.blocks| && Inked(m.blocks[i]) && forall j :: 0 <= j < i ==> !Inked(m.blocks[j]) {
        FirstInked(m.blocks, m.blocks[i].text);
      }
    }
  }

  /** A session is compacted exactly when, not counting an old summary in front, it has more
      messages than are to be preserved and the estimate of their tokens reaches the limit. */
  lemma CompactedExactly(w: Wording, messages: seq<Message>, config: Config)
    ensures var prefix := if messages != [] && ExistingSummary(w, messages[0]).Some? then 1 else 0;
      ShouldCompact(w, messages, config) <==>
        && |messages| - prefix > config.preserveRecentMessages
        && Total(AllBlocks(messages[prefix..])) >= config.maxEstimatedTokens
  {
    TokensCounted(messages[SummaryPrefix(w, messages)..]);
  }

  /** The number of compactions a session has been through, as recorded. */
  function CountOf(s: Session): U32 {
    if s.compaction.None? then 0 else s.compaction.value.count
  }

  function OneOn(count: U32): U32 {
    if count == 0xFFFF_FFFF then 0 else count + 1
  }

  lemma OneOnModulo(count: U32)
    ensures OneOn(count) == (count + 1) % 0x1_0000_0000
  {
  }

  /** Otherwise it comes back as it is, with nothing removed; and in either case nothing but the
      messages, the time of the change and the record of the compaction is changed. */
  lemma CompactConserves(w: Wording, s: Session, config: Config, summary: string, formatted: string, now: U64)
    requires |s.messages| < 0x1_0000_0000_0000_0000
    requires !(ShouldCompact(w, s.messages, config) && config.preserveRecentMessages == 0)
    ensures Compact(w, s, config, summary, formatted, now).Some?
    ensures var Outcome(after, removed) := Compact(w, s, config, summary, formatted, now).value;
      var prefix := if s.messages != [] && ExistingSummary(w, s.messages[0]).Some? then 1 else 0;
      if !ShouldCompact(w, s.messages, config) then after == s && removed == 0
      else
        && after.messages != []
        && prefix + removed + (|after.messages| - 1) == |s.messages|
        && after.messages[1..] == s.messages[prefix + removed..]
        && after == s.(messages := after.messages, updatedAtMs := now, compaction := after.compaction)
        && after.compaction == Some(SessionLog.Compaction(OneOn(CountOf(s)), removed, summary))
  {
    OneOnModulo(CountOf(s));
    CompactFailsExactly(w, s, config, summary, formatted, now);
  }

  predicate OpensWithResult(m: Message) {
    |m.blocks| > 0 && m.blocks[0].ToolResult?
  }

  predicate AsksForTool(m: Message) {
    exists i :: 0 <= i < |m.blocks| && m.blocks[i].ToolUse?
  }

  /** The cut before message `k`, wanted before message `start`: what is between them opens with
      results and asks for no tool, and nothing forces the cut further back or lets it be later. */
  ghost predicate CutAt(messages: seq<Message>, prefix: nat, start: nat, k: nat) {
    && k <= start < |messages|
    && (forall j :: k < j <= start ==> OpensWithResult(messages[j]) && j > prefix)
    && (forall j :: k < j < start ==> !AsksForTool(messages[j]))
    && (k == 0 || k <= prefix || !OpensWithResult(messages[k]) || (k < start && AsksForTool(messages[k])))
  }

  /** The boundary is at exactly one place, and this is it. */
  lemma {:induction false} CutExactly(messages: seq<Message>, prefix: nat, start: nat, k: nat)
    requires start < |messages|
    ensures Boundary(messages, prefix, start) == Some(k) <==> CutAt(messages, prefix, start, k)
    decreases start
  {
    CutBefore(messages, prefix, start, k);
    if prefix < start && OpensWithResult(messages[start]) {
      if !AsksForTool(messages[start - 1]) {
        CutExactly(messages, prefix, start - 1, k);
        CutEarlier(messages, prefix, start, k);
      }
    }
  }

  lemma CutBefore(messages: seq<Message>, prefix: nat, start: nat, k: nat)
    ensures CutAt(messages, prefix, start, k) && k < start ==>
      OpensWithResult(messages[start]) && start > prefix && (k < start - 1 ==> !AsksForTool(messages[start - 1]))
  {
  }

  lemma CutEarlier(messages: seq<Message>, prefix: nat, start: nat, k: nat)
    requires prefix < start < |messages| && OpensWithResult(messages[start]) && !AsksForTool(messages[start - 1])
    ensures CutAt(messages, prefix, start, k) <==> CutAt(messages, prefix, start - 1, k)
  {
  }

  /** So a compacted session is one new message, the summary between the fixed sentences, and the
      old messages from the cut on. */
  lemma CompactedAtCut(w: Wording, s: Session, config: Config, summary: string, formatted: string, now: U64, k: nat)
    requires |s.messages| < 0x1_0000_0000_0000_0000
    requires ShouldCompact(w, s.messages, config) && config.preserveRecentMessages > 0
    requires var prefix := if s.messages != [] && ExistingSummary(w, s.messages[0]).Some? then 1 else 0;
      CutAt(s.messages, prefix, |s.messages| - config.preserveRecentMessages, k)
    ensures Compact(w, s, config, summary, formatted, now).Some?
    ensures Compact(w, s, config, summary, formatted, now).value.session.messages ==
      [Message(System, [Text(w.preamble + (formatted + ("\n\n" + w.recentNote + ("\n" + w.resume))))], None)]
      + s.messages[k..]
  {
    CutExactly(s.messages, SummaryPrefix(w, s.messages), |s.messages| - config.preserveRecentMessages, k);
    CompactsTo(w, s, config, summary, formatted, now);
  }

  /** The messages of a compacted session: the summary, then everything from the cut on. Nothing
      is lost or counted twice, and at least the configured number of messages survives. */
  lemma CompactAccounts(w: Wording, s: Session, config: Config, summary: string, formatted: string, now: U64)
    requires |s.messages| < 0x1_0000_0000_0000_0000
    requires ShouldCompact(w, s.messages, config) && config.preserveRecentMessages > 0
    ensures var r := Compact(w, s, config, summary, formatted, now);
      var prefix := SummaryPrefix(w, s.messages);
      && r.Some?
      && r.value.session.messages[1..] == s.messages[prefix + r.value.removedMessageCount..]
      && prefix + r.value.removedMessageCount + (|r.value.session.messages| - 1) == |s.messages|
      && |r.value.session.messages| - 1 >= config.preserveRecentMessages
      && r.value.session.compaction.Some?
      && r.value.session.compaction.value.removedMessageCount == r.value.removedMessageCount
  {
    BoundaryFailsExactly(s.messages, SummaryPrefix(w, s.messages), RawKeepFrom(s.messages, config));
  }

  /** Compaction indexes past the messages exactly when it is to preserve none. */
  lemma CompactFailsExactly(w: Wording, s: Session, config: Config, summary: string, formatted: string, now: U64)
    requires |s.messages| < 0x1_0000_0000_0000_0000
    ensures Compact(w, s, config, summary, formatted, now).None? <==>
      ShouldCompact(w, s.messages, config) && config.preserveRecentMessages == 0
  {
    BoundaryFailsExactly(s.messages, SummaryPrefix(w, s.messages), RawKeepFrom(s.messages, config));
  }

  /** A session that holds these messages and nothing else. */
  function Conversing(messages: seq<Message>): Session {
    Session(1, "", 0, 0, messages, None, None, None, [], None, None)
  }

  /** A session of one message, of which none is to be preserved. */
  lemma CompactFails(w: Wording, now: U64)
    ensures Compact(w, Conversing([Message(User, [], None)]), Config(0, 0), "", "", now) == None
  {
    var messages := [Message(User, [], None)];
    assert messages[0..] == messages;
    CompactFailsExactly(w, Conversing(messages), Config(0, 0), "", "", now);
  }

  /** Putting a summary in front of the messages from the boundary on keeps every result behind
      the use it answers exactly when the use nearest before the boundary's run of results is not
      itself in a result or in the old summary, and the boundary message hides no result behind
      another block. Otherwise the use is lost altogether. */
  lemma PairedAfterExactly(messages: seq<Message>, prefix: nat, start: nat, first: Message)
    requires Paired(messages) && !HasToolUse(first) && !HasResult(first)
    requires prefix <= 1 && prefix <= start < |messages|
    ensures Boundary(messages, prefix, start).Some?
    ensures var keep := Boundary(messages, prefix, start).value;
      var after := [first] + messages[keep..];
      && (Paired(after) <==> !Separates(messages, prefix, start) && !HidesResult(messages[keep]))
      && (Answered(after) <==> Paired(after))
  {
    BoundarySeparates(messages, prefix, start);
    var keep := Boundary(messages, prefix, start).value;
    PairedFrom(messages, keep, first);
  }

  lemma PairedFrom(messages: seq<Message>, keep: nat, first: Message)
    requires Paired(messages) && keep < |messages|
    requires !HasToolUse(first) && !HasResult(first)
    ensures Paired([first] + messages[keep..]) <==> !HasResult(messages[keep])
    ensures Answered([first] + messages[keep..]) <==> !HasResult(messages[keep])
  {
    var after := [first] + messages[keep..];
    assert after[1] == messages[keep];
    if HasResult(messages[keep]) {
      var id := SomeAnswer(messages[keep]);
      assert !UsedBefore(after, 1, id);
      assert !FollowsUse(after, 1, id);
    } else {
      forall i: nat, id | i < |after| && Answers(after[i], id)
        ensures FollowsUse(after, i, id) && UsedBefore(after, i, id)
      {
        StillFollows(messages, keep, first, i, id);
      }
    }
  }

  /** A use is kept with its results unless a result is the first message kept. */
  lemma StillFollows(messages: seq<Message>, keep: nat, first: Message, i: nat, id: string)
    requires Paired(messages) && keep < |messages| && !HasResult(messages[keep])
    requires !HasResult(first) && i < |[first] + messages[keep..]| && Answers(([first] + messages[keep..])[i], id)
    ensures FollowsUse([first] + messages[keep..], i, id)
  {
    var after := [first] + messages[keep..];
    var at := keep + i - 1;
    assert i > 0 && after[i] == messages[at];
    assert FollowsUse(messages, at, id);
    var j: nat :| j < at && Asks(messages[j], id) && OnlyResults(messages, j, at);
    var j': nat := j - keep + 1;
    assert after[j'] == messages[j];
    forall l | j' < l < i
      ensures HasResult(after[l])
    {
      assert after[l] == messages[keep + l - 1];
    }
    assert OnlyResults(after, j', i);
  }

  /** The use nearest before place `i`, going back. */
  function LastUse(messages: seq<Message>, i: nat, id: string): (r: Option<nat>)
    requires i <= |messages|
    ensures r.Some? ==> r.value < i
  {
    if i == 0 then None
    else if Asks(messages[i - 1], id) then Some(i - 1)
    else LastUse(messages, i - 1, id)
  }

  lemma {:induction false} LastUseExactly(messages: seq<Message>, i: nat, id: string, from: nat)
    requires i <= |messages|
    ensures (exists j: nat :: from <= j < i && Asks(messages[j], id)) <==>
      LastUse(messages, i, id).Some? && LastUse(messages, i, id).value >= from
  {
    if i > 0 {
      if Asks(messages[i - 1], id) {
        assert from < i ==> from <= i - 1;
      } else {
        LastUseExactly(messages, i - 1, id, from);
      }
    }
  }

  /** A message kept answers a use of which the nearest is not kept. */
  ghost predicate Strands(messages: seq<Message>, keep: nat) {
    exists i: nat, id ::
      && keep <= i < |messages| && Answers(messages[i], id)
      && (LastUse(messages, i, id).None? || LastUse(messages, i, id).value < keep)
  }

  /** Wherever a session is cut, and however far its results are from their uses: every result
      kept still has its use exactly when none is stranded. */
  lemma AnsweredAfterExactly(messages: seq<Message>, keep: nat, first: Message)
    requires keep <= |messages| && !HasToolUse(first) && !HasResult(first)
    ensures Answered([first] + messages[keep..]) <==> !Strands(messages, keep)
  {
    var after := [first] + messages[keep..];
    forall i: nat, id | keep <= i < |messages|
      ensures after[i - keep + 1] == messages[i]
      ensures UsedBefore(after, i - keep + 1, id) <==>
        LastUse(messages, i, id).Some? && LastUse(messages, i, id).value >= keep
    {
      LastUseExactly(messages, i, id, keep);
      UsedAfter(messages, keep, first, i, id);
    }
    if Answered(after) {
      forall i: nat, id | keep <= i < |messages| && Answers(messages[i], id)
        ensures LastUse(messages, i, id).Some? && LastUse(messages, i, id).value >= keep
      {
        assert Answers(after[i - keep + 1], id);
      }
    }
    if !Strands(messages, keep) {
      forall i: nat, id | i < |after| && Answers(after[i], id)
        ensures UsedBefore(after, i, id)
      {
        assert i > 0 && after[i] == messages[keep + i - 1];
      }
    }
  }

  lemma UsedAfter(messages: seq<Message>, keep: nat, first: Message, i: nat, id: string)
    requires keep <= i < |messages| && !HasToolUse(first)
    ensures UsedBefore([first] + messages[keep..], i - keep + 1, id) <==>
      exists j: nat :: keep <= j < i && Asks(messages[j], id)
  {
    var after := [first] + messages[keep..];
    if UsedBefore(after, i - keep + 1, id) {
      var j: nat :| j < i - keep + 1 && Asks(after[j], id);
      assert j > 0 && after[j] == messages[keep + j - 1];
    }
    if j: nat :| keep <= j < i && Asks(messages[j], id) {
      assert after[j - keep + 1] == messages[j];
    }
  }

  // ---------------------------------------------------------------- sessions that are cut badly

  function Using(id: string): Message {
    Message(Assistant, [ToolUse(id, "read", "")], None)
  }

  function Resulting(id: string): Block {
    ToolResult(id, "read", "", false)
  }

  lemma UsingResulting(id: string, other: string)
    ensures Asks(Using(id), other) <==> other == id
    ensures Answers(Message(User, [Resulting(id)], None), other) <==> other == id
    ensures HasToolUse(Using(id)) && !HasResult(Using(id))
    ensures HasResult(Message(User, [Resulting(id)], None)) && StartsWithResult(Message(User, [Resulting(id)], None))
  {
    assert Using(id).blocks[0].ToolUse?;
    assert Message(User, [Resulting(id)], None).blocks[0].ToolResult?;
  }

  /** A message that holds a result and asks for a tool is kept without the use it answers. */
  lemma SplitsAnswerAndUse(w: Wording, formatted: string, now: U64)
    ensures var both := Message(User, [Resulting("1"), ToolUse("2", "read", "")], None);
      var result := Message(User, [Resulting("2")], None);
      var s := Conversing([Using("1"), both, result]);
      var r := Compact(w, s, Config(1, 0), "", formatted, now);
      && Paired(s.messages)
      && r.Some? && r.value.session.messages[1..] == [both, result]
      && !Answered(r.value.session.messages)
  {
    var both := Message(User, [Resulting("1"), ToolUse("2", "read", "")], None);
    var result := Message(User, [Resulting("2")], None);
    var messages := [Using("1"), both, result];
    assert both.blocks[0].ToolResult? && both.blocks[1].ToolUse?;
    assert Paired(messages) by {
      forall i: nat, id | i < |messages| && Answers(messages[i], id)
        ensures FollowsUse(messages, i, id)
      {
        UsingResulting("1", id);
        UsingResulting("2", id);
        assert Asks(messages[i - 1], id) && OnlyResults(messages, i - 1, i);
      }
    }
    UsingResulting("1", "");
    UsingResulting("2", "");
    assert Boundary(messages, 0, 2) == Some(1);
    CutOnly(w, messages, formatted, now, 1);
    PairedFrom(messages, 1, SummaryMessage(Continuation(w, formatted, true, true)));
  }

  /** A result behind a text is kept without its use, though no message both asks and answers. */
  lemma SplitsHiddenResult(w: Wording, formatted: string, now: U64)
    ensures var hidden := Message(User, [Text("done"), Resulting("1")], None);
      var s := Conversing([Using("1"), hidden]);
      var r := Compact(w, s, Config(1, 0), "", formatted, now);
      && Paired(s.messages) && !Separates(s.messages, 0, 1)
      && r.Some? && r.value.session.messages[1..] == [hidden]
      && !Answered(r.value.session.messages)
  {
    var hidden := Message(User, [Text("done"), Resulting("1")], None);
    var messages := [Using("1"), hidden];
    assert hidden.blocks[1].ToolResult?;
    assert Paired(messages) by {
      forall i: nat, id | i < |messages| && Answers(messages[i], id)
        ensures FollowsUse(messages, i, id)
      {
        UsingResulting("1", id);
        assert Asks(messages[i - 1], id) && OnlyResults(messages, i - 1, i);
      }
    }
    assert Boundary(messages, 0, 1) == Some(1);
    CutOnly(w, messages, formatted, now, 1);
    PairedFrom(messages, 1, SummaryMessage(Continuation(w, formatted, true, true)));
  }

  /** Of two uses in a row, only the second is kept with the result of the first. */
  lemma SplitsFarUse(w: Wording, formatted: string, now: U64)
    ensures var result := Message(User, [Resulting("1")], None);
      var s := Conversing([Using("1"), Using("2"), result]);
      var r := Compact(w, s, Config(1, 0), "", formatted, now);
      && Answered(s.messages) && !Paired(s.messages) && !Separates(s.messages, 0, 2)
      && r.Some? && r.value.session.messages[1..] == [Using("2"), result]
      && !Answered(r.value.session.messages)
  {
    var result := Message(User, [Resulting("1")], None);
    var messages := [Using("1"), Using("2"), result];
    UsingResulting("1", "1");
    UsingResulting("2", "1");
    assert Answered(messages) by {
      forall i: nat, id | i < |messages| && Answers(messages[i], id)
        ensures UsedBefore(messages, i, id)
      {
        UsingResulting("1", id);
        UsingResulting("2", id);
        assert Asks(messages[0], id);
      }
    }
    WaitsExactly(messages, 2, "1");
    assert !Waits(messages, 2, "1");
    assert NearestUse(messages, 1, 2);
    assert Boundary(messages, 0, 2) == Some(1);
    CutOnly(w, messages, formatted, now, 1);
    assert Strands(messages, 1) by {
      assert LastUse(messages, 2, "1") == LastUse(messages, 1, "1") == Some(0);
      assert Answers(messages[2], "1");
    }
    AnsweredAfterExactly(messages, 1, SummaryMessage(Continuation(w, formatted, true, true)));
  }

  /** What compaction leaves of a session without a summary of which one message is preserved. */
  lemma CutOnly(w: Wording, messages: seq<Message>, formatted: string, now: U64, keep: nat)
    requires 1 < |messages| < 0x1_0000_0000_0000_0000 && messages[0].role != System
    requires Boundary(messages, 0, |messages| - 1) == Some(keep)
    ensures var r := Compact(w, Conversing(messages), Config(1, 0), "", formatted, now);
      var first := SummaryMessage(Continuation(w, formatted, true, true));
      && r.Some? && r.value.session.messages == [first] + messages[keep..]
      && r.value.session.messages[1..] == messages[keep..]
      && !HasToolUse(first) && !HasResult(first)
  {
    assert messages[0..] == messages;
  }

  // ---------------------------------------------------------------- reading the summary back

  ghost predicate At(s: string, marker: string, p: nat) {
    p + |marker| <= |s| && s[p..p + |marker|] == marker
  }

  ghost predicate Contains(s: string, marker: string) {
    exists p: nat :: At(s, marker, p)
  }

  lemma AtFront(s: string, marker: string)
    ensures At(s, marker, 0) <==> marker <= s
  {
    if |marker| <= |s| {
      assert s[0..0 + |marker|] == s[..|marker|];
    }
  }

  lemma AtEach(s: string, marker: string, p: nat, d: nat)
    requires At(s, marker, p) && d < |marker|
    ensures s[p + d] == marker[d]
  {
    assert s[p..p + |marker|][d] == s[p + d];
  }

  lemma {:induction false} FindFirst(s: string, marker: string)
    ensures Find(s, marker).Some? ==> At(s, marker, Find(s, marker).value)
    ensures forall p: nat :: At(s, marker, p) ==> Find(s, marker).Some? && Find(s, marker).value <= p
  {
    AtFront(s, marker);
    if !(marker <= s) && s != [] {
      FindFirst(s[1..], marker);
      forall p: nat | 0 < p && p + |marker| <= |s|
        ensures At(s, marker, p) <==> At(s[1..], marker, p - 1)
      {
        assert s[1..][p - 1..p - 1 + |marker|] == s[p..p + |marker|];
      }
      if Find(s[1..], marker).Some? {
        var q := Find(s[1..], marker).value;
        assert At(s[1..], marker, q + 1 - 1);
      }
    }
  }

  /** The text up to the first occurrence of the marker, or all of it. */
  ghost predicate UpToMarker(s: string, marker: string, t: string) {
    if Contains(s, marker)
    then At(s, marker, |t|) && t == s[..|t|] && forall p: nat :: At(s, marker, p) ==> |t| <= p
    else t == s
  }

  lemma BeforeExactly(s: string, marker: string, t: string)
    ensures Before(s, marker) == t <==> UpToMarker(s, marker, t)
  {
    FindFirst(s, marker);
    if Contains(s, marker) {
      var p := Find(s, marker).value;
      assert |s[..p]| == p && At(s, marker, p);
    }
  }

  /** The text without the white space at its ends. */
  ghost predicate TrimsTo(s: string, t: string) {
    Trimmed(t) && exists before, after :: White(before) && White(after) && s == before + t + after
  }

  lemma TrimExactly(s: string, t: string)
    ensures Trim(s) == t <==> TrimsTo(s, t)
  {
    var before, after := TrimSplits(s);
    if TrimsTo(s, t) {
      var b, a :| White(b) && White(a) && s == b + t + a;
      TrimOf(b, t, a);
    }
  }

  /** The summary in a message text is what stands behind the fixed sentences, up to the first
      note, and in that up to the first resume sentence, without white space at its ends. */
  ghost predicate SummaryIn(w: Wording, text: string, summary: string) {
    exists rest, a, b ::
      && text == w.preamble + rest && UpToMarker(rest, "\n\n" + w.recentNote, a)
      && UpToMarker(a, "\n" + w.resume, b) && TrimsTo(b, summary)
  }

  lemma SummaryInExactly(w: Wording, text: string, summary: string)
    ensures ReadSummary(w, text) == Some(summary) <==> SummaryIn(w, text, summary)
  {
    var note, resume := "\n\n" + w.recentNote, "\n" + w.resume;
    if w.preamble <= text {
      var rest := text[|w.preamble|..];
      assert text == w.preamble + rest;
      SummaryBehind(note, resume, rest, summary);
      forall r | text == w.preamble + r
        ensures r == rest
      {
      }
    }
  }

  lemma SummaryBehind(note: string, resume: string, rest: string, summary: string)
    ensures Trim(Before(Before(rest, note), resume)) == summary <==>
      exists a, b :: UpToMarker(rest, note, a) && UpToMarker(a, resume, b) && TrimsTo(b, summary)
  {
    var a := Before(rest, note);
    var b := Before(a, resume);
    BeforeExactly(rest, note, a);
    BeforeExactly(a, resume, b);
    TrimExactly(b, summary);
    forall x, y | UpToMarker(rest, note, x) && UpToMarker(x, resume, y)
      ensures x == a && y == b
    {
      BeforeExactly(rest, note, x);
      BeforeExactly(x, resume, y);
    }
  }

  /** A marker that starts with one or two line feeds and has no others. */
  ghost predicate IsMarker(marker: string) {
    && marker != [] && marker[0] == '\n'
    && forall i :: 2 <= i < |marker| ==> marker[i] != '\n'
  }

  /** A text that ends in no white space, as trimming leaves it. */
  ghost predicate Closed(text: string) {
    text == [] || !IsWhite(text[|text| - 1])
  }

  /** A marker that starts inside a trimmed text ends inside it. */
  lemma NoStraddle(text: string, tail: string, marker: string, p: nat)
    requires Closed(text) && IsMarker(marker)
    requires tail == [] || tail[0] == '\n'
    requires At(text + tail, marker, p) && p < |text|
    ensures At(text, marker, p)
  {
    var all := text + tail;
    if p + |marker| <= |text| {
      assert all[p..p + |marker|] == text[p..p + |marker|];
    } else {
      AtEach(all, marker, p, 0);
      AtEach(all, marker, p, |text| - p);
      assert false;
    }
  }

  /** Cutting `text + tail` at a marker the text holds cuts inside the text; one it does not
      hold cannot be found before the tail. */
  lemma CutBeforeTail(text: string, tail: string, marker: string)
    requires Closed(text) && IsMarker(marker)
    requires tail == [] || tail[0] == '\n'
    ensures Contains(text, marker) ==> |Before(text + tail, marker)| < |text|
    ensures !Contains(text, marker) && marker <= tail ==> Before(text + tail, marker) == text
    ensures !Contains(text, marker) && (forall p: nat :: !At(tail, marker, p)) ==>
      Before(text + tail, marker) == text + tail
  {
    var all := text + tail;
    FindFirst(all, marker);
    if Contains(text, marker) {
      var p: nat :| At(text, marker, p);
      assert all[p..p + |marker|] == text[p..p + |marker|];
      assert At(all, marker, p);
    } else {
      forall p: nat | At(all, marker, p)
        ensures p >= |text| && At(tail, marker, p - |text|)
      {
        if p < |text| {
          NoStraddle(text, tail, marker, p);
        } else {
          assert all[p..p + |marker|] == tail[p - |text|..p - |text| + |marker|];
        }
      }
      if marker <= tail {
        assert all[|text|..|text| + |marker|] == marker;
        assert At(all, marker, |text|);
        assert all[..|text|] == text;
      }
    }
  }

  ghost predicate PlainWording(w: Wording) {
    && (exists c :: c in w.preamble && !IsWhite(c))
    && w.recentNote != [] && '\n' !in w.recentNote
    && w.resume != [] && '\n' !in w.resume
  }

  lemma WordingIsPlain()
    ensures PlainWording(WORDING)
  {
    PreambleHasInk();
    NoteIsOneLine();
    ResumeIsOneLine();
  }

  lemma PreambleHasInk()
    ensures '.' in PREAMBLE && !IsWhite('.')
  {
  }

  lemma NoteIsOneLine()
    ensures RECENT_NOTE != [] && '\n' !in RECENT_NOTE
  {
  }

  lemma ResumeIsOneLine()
    ensures RESUME != [] && '\n' !in RESUME
  {
    ResumeWhatIsOneLine();
    ResumeHowIsOneLine();
    assert '\n' !in " continuation text.";
    Together(RESUME_HOW, " continuation text.");
    Together(RESUME_WHAT, RESUME_HOW + " continuation text.");
  }

  lemma Together(a: string, b: string)
    requires '\n' !in a && '\n' !in b
    ensures '\n' !in a + b
  {
  }

  lemma ResumeWhatIsOneLine()
    ensures RESUME_WHAT != [] && '\n' !in RESUME_WHAT
  {
    assert '\n' !in "Continue the conversation from";
    assert '\n' !in " where it left off without asking";
    assert '\n' !in " the user any further questions.";
  }

  lemma ResumeHowIsOneLine()
    ensures '\n' !in RESUME_HOW
  {
    assert '\n' !in " Resume directly - do not ackonwledge";
    assert '\n' !in " the summary, do not recap what was";
    assert '\n' !in " happening, and do not preface with";
  }

  lemma Markers(w: Wording)
    requires PlainWording(w)
    ensures IsMarker("\n\n" + w.recentNote) && IsMarker("\n" + w.resume)
    ensures forall p: nat :: !At("\n" + w.resume, "\n\n" + w.recentNote, p)
  {
    var note, resume := "\n\n" + w.recentNote, "\n" + w.resume;
    forall p: nat | At(resume, note, p)
      ensures false
    {
      AtEach(resume, note, p, 1);
    }
  }

  /** A summary is read back as written, whatever sentences follow it, exactly when it holds
      neither of the two marker sentences. */
  lemma SummaryReadBackExactly(w: Wording, summary: string, suppressQuestion: bool, recentPreserved: bool)
    requires PlainWording(w) && Trim(summary) == summary
    ensures ReadSummary(w, Continuation(w, summary, suppressQuestion, recentPreserved)).Some?
    ensures ReadSummary(w, Continuation(w, summary, suppressQuestion, recentPreserved)) == Some(summary) <==>
      !Contains(summary, "\n\n" + w.recentNote) && !Contains(summary, "\n" + w.resume)
  {
    var note, resume := "\n\n" + w.recentNote, "\n" + w.resume;
    var after := if suppressQuestion then resume else "";
    var tail := (if recentPreserved then note else "") + after;
    var text := Continuation(w, summary, suppressQuestion, recentPreserved);
    assert text[|w.preamble|..] == summary + tail;
    Markers(w);
    CutBeforeTail(summary, tail, note);
    CutBeforeTail(summary, after, resume);
    CutBeforeTail(summary, "", resume);
    assert summary + "" == summary;
    assert forall p: nat :: !At("", note, p) && !At("", resume, p);
    if !recentPreserved {
      assert tail == after;
    }
    if Contains(summary, note) {
      ShorterBefore(Before(summary + tail, note), resume);
    }
  }

  /** A text whose second line starts with the resume sentence. */
  function TwoLines(w: Wording): string {
    "a\n" + w.resume + "b"
  }

  lemma NoNoteInside(w: Wording, text: string)
    requires PlainWording(w) && text == TwoLines(w)
    ensures !Contains(text, "\n\n" + w.recentNote)
  {
    var note := "\n\n" + w.recentNote;
    forall p: nat | At(text, note, p)
      ensures false
    {
      AtEach(text, note, p, 0);
      AtEach(text, note, p, 1);
    }
  }

  lemma CutAtResume(w: Wording, text: string)
    requires PlainWording(w) && text == TwoLines(w)
    ensures Before(text, "\n" + w.resume) == "a"
  {
    var resume := "\n" + w.resume;
    assert text[1..1 + |resume|] == resume;
    assert At(text, resume, 1);
    FindFirst(text, resume);
    assert !At(text, resume, 0) by {
      assert text[0..|resume|][0] == 'a';
    }
    assert text[..1] == "a";
  }

  /** A summary a line of which starts with the resume sentence is cut in front of that line. */
  lemma SummaryCutShort(w: Wording)
    requires PlainWording(w)
    ensures Trim(TwoLines(w)) == TwoLines(w)
    ensures ReadSummary(w, Continuation(w, TwoLines(w), true, true)) == Some("a")
  {
    var summary, note, resume := TwoLines(w), "\n\n" + w.recentNote, "\n" + w.resume;
    var text := Continuation(w, summary, true, true);
    assert text[|w.preamble|..] == summary + (note + resume);
    NoNoteInside(w, summary);
    Markers(w);
    CutBeforeTail(summary, note + resume, note);
    CutAtResume(w, summary);
  }

  lemma ShorterBefore(s: string, marker: string)
    ensures |Before(s, marker)| <= |s|
  {
  }

  lemma {:induction false} TrimKeepsInk(s: string, c: char)
    requires c in s && !IsWhite(c)
    ensures Trim(s) != []
    decreases |s|
  {
    if IsWhite(s[0]) {
      TrimKeepsInk(s[1..], c);
    } else if IsWhite(s[|s| - 1]) {
      TrimKeepsInk(s[..|s| - 1], c);
    }
  }

  ghost predicate ReadsBack(w: Wording, m: Message, formatted: string) {
    ExistingSummary(w, m) == Some(formatted) <==>
      !Contains(formatted, "\n\n" + w.recentNote) && !Contains(formatted, "\n" + w.resume)
  }

  /** The message compaction puts in front is recognised as a summary. */
  lemma SummaryRecognised(w: Wording, formatted: string, suppressQuestion: bool, recentPreserved: bool)
    requires PlainWording(w) && Trim(formatted) == formatted
    ensures var m := SummaryMessage(Continuation(w, formatted, suppressQuestion, recentPreserved));
      ExistingSummary(w, m).Some? && ReadsBack(w, m, formatted)
  {
    var text := Continuation(w, formatted, suppressQuestion, recentPreserved);
    SummaryReadBackExactly(w, formatted, suppressQuestion, recentPreserved);
    var c :| c in w.preamble && !IsWhite(c);
    TrimKeepsInk(text, c);
    assert FirstText([Text(text)]) == Some(text);
  }

  // ---------------------------------------------------------------- whole runs

  datatype Step =
    | Append(message: Message)
    | Compress(config: Config, summary: string, formatted: string, now: U64)

  /** A message holds tool results or asks for tools, not both; results come first in it, and the
      system asks for none. */
  ghost predicate OneKind(m: Message) {
    && (HasResult(m) ==> StartsWithResult(m) && !HasToolUse(m))
    && (HasToolUse(m) ==> m.role != System)
  }

  /** Appended messages are no summaries, and a result comes after the use it answers. */
  ghost predicate Enabled(w: Wording, s: Session, step: Step) {
    match step
    case Append(m) =>
      && OneKind(m) && ExistingSummary(w, m).None?
      && forall id :: Answers(m, id) ==> FollowsUse(s.messages, |s.messages|, id)
    case Compress(config, _, formatted, _) =>
      config.preserveRecentMessages > 0 && |s.messages| < 0x1_0000_0000_0000_0000 && Trim(formatted) == formatted
  }

  ghost function Next(w: Wording, s: Session, step: Step): Session
    requires Enabled(w, s, step)
  {
    match step
    case Append(m) => s.(messages := s.messages + [m])
    case Compress(config, summary, formatted, now) =>
      CompactFailsExactly(w, s, config, summary, formatted, now);
      Compact(w, s, config, summary, formatted, now).value.session
  }

  /** Every result follows the use it answers, every message is of one kind, and only the first
      can be a summary. */
  ghost predicate Inv(w: Wording, messages: seq<Message>) {
    && Paired(messages)
    && (forall i :: 0 <= i < |messages| ==> OneKind(messages[i]))
    && (forall i :: 1 <= i < |messages| ==> ExistingSummary(w, messages[i]).None?)
  }

  lemma AppendKeeps(w: Wording, s: Session, m: Message)
    requires Inv(w, s.messages) && Enabled(w, s, Append(m))
    ensures Inv(w, s.messages + [m])
  {
    var after := s.messages + [m];
    forall i: nat, id | i < |after| && Answers(after[i], id)
      ensures FollowsUse(after, i, id)
    {
      FollowsInPrefix(s.messages, m, i, id);
    }
  }

  lemma FollowsInPrefix(messages: seq<Message>, m: Message, i: nat, id: string)
    requires i <= |messages|
    ensures FollowsUse(messages + [m], i, id) <==> FollowsUse(messages, i, id)
  {
    var after := messages + [m];
    assert forall l :: 0 <= l < |messages| ==> after[l] == messages[l];
    assert forall j: nat :: j < i ==> (OnlyResults(after, j, i) <==> OnlyResults(messages, j, i));
  }

  ghost predicate OnlyFirstIsSummary(w: Wording, messages: seq<Message>) {
    forall i :: 0 <= i < |messages| ==> (ExistingSummary(w, messages[i]).Some? <==> i == 0)
  }

  lemma CompressKeeps(w: Wording, messages: seq<Message>, prefix: nat, start: nat, first: Message)
    requires Inv(w, messages) && prefix == SummaryPrefix(w, messages)
    requires ExistingSummary(w, first).Some? && !HasToolUse(first) && !HasResult(first)
    requires prefix < start < |messages|
    ensures Boundary(messages, prefix, start).Some?
    ensures var after := [first] + messages[Boundary(messages, prefix, start).value..];
      Inv(w, after) && OnlyFirstIsSummary(w, after)
  {
    PairedAfterExactly(messages, prefix, start, first);
    var keep := Boundary(messages, prefix, start).value;
    NothingSeparates(w, messages, start);
    OnlyFirst(m => ExistingSummary(w, m).Some?, messages, keep, first);
    AllOneKind(messages, keep, first);
  }

  lemma OnlyFirst(isSummary: Message -> bool, messages: seq<Message>, keep: nat, first: Message)
    requires isSummary(first) && keep <= |messages|
    requires forall i :: 1 <= i < |messages| ==> !isSummary(messages[i])
    requires keep == 0 && messages != [] ==> !isSummary(messages[0])
    ensures var after := [first] + messages[keep..];
      forall i :: 0 <= i < |after| ==> (isSummary(after[i]) <==> i == 0)
  {
  }

  lemma AllOneKind(messages: seq<Message>, keep: nat, first: Message)
    requires keep <= |messages| && OneKind(first)
    requires forall i :: 0 <= i < |messages| ==> OneKind(messages[i])
    ensures var after := [first] + messages[keep..];
      forall i :: 0 <= i < |after| ==> OneKind(after[i])
  {
  }

  lemma NothingSeparates(w: Wording, messages: seq<Message>, k: nat)
    requires Inv(w, messages) && k < |messages|
    ensures !Separates(messages, SummaryPrefix(w, messages), k)
  {
  }

  /** What a compaction that takes place leaves. */
  lemma CompressStep(w: Wording, s: Session, config: Config, summary: string, formatted: string, now: U64)
    returns (prefix: nat, start: nat, first: Message)
    requires PlainWording(w) && Enabled(w, s, Compress(config, summary, formatted, now))
    requires ShouldCompact(w, s.messages, config)
    ensures prefix == SummaryPrefix(w, s.messages) && start == |s.messages| - config.preserveRecentMessages
    ensures prefix < start < |s.messages|
    ensures Boundary(s.messages, prefix, start).Some?
    ensures Next(w, s, Compress(config, summary, formatted, now)).messages
      == [first] + s.messages[Boundary(s.messages, prefix, start).value..]
    ensures first == SummaryMessage(Continuation(w, formatted, true, true))
  {
    prefix := SummaryPrefix(w, s.messages);
    start := |s.messages| - config.preserveRecentMessages;
    first := SummaryMessage(Continuation(w, formatted, true, true));
    CompactsTo(w, s, config, summary, formatted, now);
  }

  lemma CompactsTo(w: Wording, s: Session, config: Config, summary: string, formatted: string, now: U64)
    requires |s.messages| < 0x1_0000_0000_0000_0000
    requires ShouldCompact(w, s.messages, config) && config.preserveRecentMessages > 0
    ensures var prefix := SummaryPrefix(w, s.messages);
      var keep := Boundary(s.messages, prefix, |s.messages| - config.preserveRecentMessages);
      var r := Compact(w, s, config, summary, formatted, now);
      && r.Some? && keep.Some?
      && r.value.session.messages ==
        [SummaryMessage(Continuation(w, formatted, true, true))] + s.messages[keep.value..]
  {
    BoundaryFailsExactly(s.messages, SummaryPrefix(w, s.messages), RawKeepFrom(s.messages, config));
  }

  lemma StepKeeps(w: Wording, s: Session, step: Step)
    requires PlainWording(w) && Inv(w, s.messages) && Enabled(w, s, step)
    ensures Inv(w, Next(w, s, step).messages)
  {
    match step
    case Append(m) => AppendKeeps(w, s, m);
    case Compress(config, summary, formatted, now) =>
      if ShouldCompact(w, s.messages, config) {
        var prefix, start, first := CompressStep(w, s, config, summary, formatted, now);
        SummaryRecognised(w, formatted, true, true);
        CompressKeeps(w, s.messages, prefix, start, first);
      }
  }

  ghost predicate Run(w: Wording, s: Session, steps: seq<Step>, end: Session)
    decreases |steps|
  {
    if steps == [] then s == end
    else Enabled(w, s, steps[0]) && Run(w, Next(w, s, steps[0]), steps[1..], end)
  }

  /** Over any run of appends and compactions every tool result stays behind the use it answers,
      with only results between, and no message but the first is taken for a summary. */
  lemma {:induction false} RunKeeps(w: Wording, s: Session, steps: seq<Step>, end: Session)
    requires PlainWording(w) && Inv(w, s.messages) && Run(w, s, steps, end)
    ensures Inv(w, end.messages)
    decreases |steps|
  {
    if steps != [] {
      StepKeeps(w, s, steps[0]);
      RunKeeps(w, Next(w, s, steps[0]), steps[1..], end);
    }
  }

  // ---------------------------------------------------------------- what becomes of the messages

  /** The messages of a session but an old summary in front. */
  function Conversed(w: Wording, s: Session): seq<Message> {
    s.messages[SummaryPrefix(w, s.messages)..]
  }

  function AppendedBy(step: Step): seq<Message> {
    if step.Append? then [step.message] else []
  }

  ghost function RemovedBy(w: Wording, s: Session, step: Step): nat
    requires Enabled(w, s, step)
  {
    match step
    case Append(_) => 0
    case Compress(config, summary, formatted, now) =>
      CompactFailsExactly(w, s, config, summary, formatted, now);
      Compact(w, s, config, summary, formatted, now).value.removedMessageCount
  }

  predicate Takes(w: Wording, s: Session, step: Step) {
    step.Compress? && ShouldCompact(w, s.messages, step.config)
  }

  function Appended(steps: seq<Step>): seq<Message> {
    if steps == [] then [] else AppendedBy(steps[0]) + Appended(steps[1..])
  }

  ghost function Removed(w: Wording, s: Session, steps: seq<Step>, end: Session): nat
    requires Run(w, s, steps, end)
    decreases |steps|
  {
    if steps == [] then 0 else RemovedBy(w, s, steps[0]) + Removed(w, Next(w, s, steps[0]), steps[1..], end)
  }

  ghost function Compactions(w: Wording, s: Session, steps: seq<Step>, end: Session): nat
    requires Run(w, s, steps, end)
    decreases |steps|
  {
    if steps == [] then 0
    else (if Takes(w, s, steps[0]) then 1 else 0) + Compactions(w, Next(w, s, steps[0]), steps[1..], end)
  }

  lemma AppendConverses(w: Wording, s: Session, m: Message)
    requires Enabled(w, s, Append(m))
    ensures Conversed(w, Next(w, s, Append(m))) == Conversed(w, s) + [m]
  {
    if s.messages == [] {
      assert s.messages + [m] == [m];
    } else {
      assert (s.messages + [m])[0] == s.messages[0];
    }
  }

  lemma CompressConverses(w: Wording, s: Session, config: Config, summary: string, formatted: string, now: U64)
    requires PlainWording(w) && Enabled(w, s, Compress(config, summary, formatted, now))
    requires ShouldCompact(w, s.messages, config)
    ensures var step := Compress(config, summary, formatted, now);
      && RemovedBy(w, s, step) <= |Conversed(w, s)|
      && Conversed(w, Next(w, s, step)) == Conversed(w, s)[RemovedBy(w, s, step)..]
  {
    var prefix, start, first := CompressStep(w, s, config, summary, formatted, now);
    SummaryRecognised(w, formatted, true, true);
    CompactConserves(w, s, config, summary, formatted, now);
    var keep := Boundary(s.messages, prefix, start).value;
    assert ([first] + s.messages[keep..])[1..] == s.messages[keep..];
    assert s.messages[prefix..][keep - prefix..] == s.messages[keep..];
  }

  lemma StepConverses(w: Wording, s: Session, step: Step)
    requires PlainWording(w) && Enabled(w, s, step)
    ensures RemovedBy(w, s, step) <= |Conversed(w, s)|
    ensures Conversed(w, Next(w, s, step)) == Conversed(w, s)[RemovedBy(w, s, step)..] + AppendedBy(step)
  {
    match step
    case Append(m) => AppendConverses(w, s, m);
    case Compress(config, summary, formatted, now) =>
      if ShouldCompact(w, s.messages, config) {
        CompressConverses(w, s, config, summary, formatted, now);
      } else {
        CompactConserves(w, s, config, summary, formatted, now);
      }
      assert Conversed(w, s)[RemovedBy(w, s, step)..] + [] == Conversed(w, s)[RemovedBy(w, s, step)..];
  }

  /** The count, so many compactions on. */
  function CountedOn(count: U32, more: nat): U32
    decreases more
  {
    if more == 0 then count else CountedOn(OneOn(count), more - 1)
  }

  lemma {:induction false} CountedModulo(count: U32, more: nat)
    ensures CountedOn(count, more) == (count + more) % 0x1_0000_0000
    decreases more
  {
    if more > 0 {
      CountedModulo(OneOn(count), more - 1);
    }
  }

  lemma CompressCounts(w: Wording, s: Session, config: Config, summary: string, formatted: string, now: U64)
    requires |s.messages| < 0x1_0000_0000_0000_0000 && config.preserveRecentMessages > 0
    ensures Compact(w, s, config, summary, formatted, now).Some?
    ensures CountOf(Compact(w, s, config, summary, formatted, now).value.session) ==
      if ShouldCompact(w, s.messages, config) then OneOn(CountOf(s)) else CountOf(s)
  {
    CompactConserves(w, s, config, summary, formatted, now);
  }

  lemma StepCounts(w: Wording, s: Session, step: Step)
    requires Enabled(w, s, step)
    ensures CountOf(Next(w, s, step)) == if Takes(w, s, step) then OneOn(CountOf(s)) else CountOf(s)
  {
    match step
    case Append(_) =>
    case Compress(config, summary, formatted, now) => CompressCounts(w, s, config, summary, formatted, now);
  }

  /** A run of at least one step: the session after the first, and what that step did. */
  lemma FirstStep(w: Wording, s: Session, steps: seq<Step>, end: Session)
    returns (next: Session, takes: bool, removed: nat, appended: seq<Message>)
    requires PlainWording(w) && Run(w, s, steps, end) && steps != []
    ensures Run(w, next, steps[1..], end)
    ensures CountOf(next) == if takes then OneOn(CountOf(s)) else CountOf(s)
    ensures Compactions(w, s, steps, end) == (if takes then 1 else 0) + Compactions(w, next, steps[1..], end)
    ensures removed <= |Conversed(w, s)| && Conversed(w, next) == Conversed(w, s)[removed..] + appended
    ensures Removed(w, s, steps, end) == removed + Removed(w, next, steps[1..], end)
    ensures Appended(steps) == appended + Appended(steps[1..])
  {
    next := Next(w, s, steps[0]);
    takes, removed, appended := Takes(w, s, steps[0]), RemovedBy(w, s, steps[0]), AppendedBy(steps[0]);
    StepCounts(w, s, steps[0]);
    StepConverses(w, s, steps[0]);
  }

  /** Over any run of appends and compactions the messages left behind a summary are the last of
      all the messages there were and were appended, in order, and those missing in front are as
      many as were counted as removed. */
  lemma {:induction false} NothingVanishes(w: Wording, s: Session, steps: seq<Step>, end: Session)
    requires PlainWording(w) && Run(w, s, steps, end)
    ensures var all := Conversed(w, s) + Appended(steps);
      Removed(w, s, steps, end) <= |all| && Conversed(w, end) == all[Removed(w, s, steps, end)..]
    decreases |steps|
  {
    if steps == [] {
      assert Conversed(w, s) + [] == Conversed(w, s);
    } else {
      var next, takes, removed, appended := FirstStep(w, s, steps, end);
      NothingVanishes(w, next, steps[1..], end);
      Dropped(Conversed(w, s), removed, appended, Conversed(w, next),
              Appended(steps[1..]), Appended(steps), Removed(w, next, steps[1..], end));
    }
  }

  lemma {:induction false} CompactionsCountedOn(w: Wording, s: Session, steps: seq<Step>, end: Session)
    requires PlainWording(w) && Run(w, s, steps, end)
    ensures CountOf(end) == CountedOn(CountOf(s), Compactions(w, s, steps, end))
    decreases |steps|
  {
    if steps != [] {
      var next, takes, removed, appended := FirstStep(w, s, steps, end);
      CompactionsCountedOn(w, next, steps[1..], end);
    }
  }

  /** The compactions that took place are counted, modulo 2 to the 32. */
  lemma CompactionsCounted(w: Wording, s: Session, steps: seq<Step>, end: Session)
    requires PlainWording(w) && Run(w, s, steps, end)
    ensures CountOf(end) == (CountOf(s) + Compactions(w, s, steps, end)) % 0x1_0000_0000
  {
    CompactionsCountedOn(w, s, steps, end);
    CountedModulo(CountOf(s), Compactions(w, s, steps, end));
  }

  lemma Dropped(
    a: seq<Message>, i: nat, b: seq<Message>, next: seq<Message>, c: seq<Message>, both: seq<Message>, j: nat)
    requires i <= |a| && next == a[i..] + b && both == b + c && j <= |next + c|
    ensures i + j <= |a + both| && (next + c)[j..] == (a + both)[i + j..]
  {
  }

  /** Results stay behind their uses, exactly one message is a summary, the first, its text
      reads back as written unless it holds a marker sentence, and the most recent messages
      are untouched. */
  ghost predicate WellCompacted(w: Wording, before: seq<Message>, after: seq<Message>, recent: nat, formatted: string) {
    && Paired(after)
    && OnlyFirstIsSummary(w, after)
    && recent <= |before| && recent < |after|
    && after[|after| - recent..] == before[|before| - recent..]
    && ReadsBack(w, after[0], formatted)
  }

  lemma CompactedWell(w: Wording, messages: seq<Message>, prefix: nat, start: nat, first: Message, formatted: string)
    requires Inv(w, messages) && prefix == SummaryPrefix(w, messages)
    requires ExistingSummary(w, first).Some? && !HasToolUse(first) && !HasResult(first)
    requires ReadsBack(w, first, formatted)
    requires prefix < start < |messages|
    ensures Boundary(messages, prefix, start).Some?
    ensures WellCompacted(w, messages, [first] + messages[Boundary(messages, prefix, start).value..],
                          |messages| - start, formatted)
  {
    CompressKeeps(w, messages, prefix, start, first);
    RecentKept(first, messages, Boundary(messages, prefix, start).value, |messages| - start);
  }

  lemma CompactedStep(w: Wording, s: Session, config: Config, summary: string, formatted: string, now: U64,
                      after: seq<Message>)
    requires PlainWording(w) && Inv(w, s.messages)
    requires Enabled(w, s, Compress(config, summary, formatted, now)) && ShouldCompact(w, s.messages, config)
    requires after == Next(w, s, Compress(config, summary, formatted, now)).messages
    ensures WellCompacted(w, s.messages, after, config.preserveRecentMessages, formatted)
  {
    var prefix, start, first := CompressStep(w, s, config, summary, formatted, now);
    SummaryRecognised(w, formatted, true, true);
    CompactedWell(w, s.messages, prefix, start, first, formatted);
  }

  /** Every compaction that takes place in a run compacts well. */
  lemma CompactedInRun(w: Wording, s: Session, steps: seq<Step>, end: Session,
                       config: Config, summary: string, formatted: string, now: U64)
    requires PlainWording(w) && Inv(w, s.messages) && Run(w, s, steps, end)
    requires Enabled(w, end, Compress(config, summary, formatted, now)) && ShouldCompact(w, end.messages, config)
    ensures WellCompacted(w, end.messages, Next(w, end, Compress(config, summary, formatted, now)).messages,
                          config.preserveRecentMessages, formatted)
  {
    RunKeeps(w, s, steps, end);
    var after := Next(w, end, Compress(config, summary, formatted, now)).messages;
    CompactedStep(w, end, config, summary, formatted, now, after);
  }

  lemma RecentKept(first: Message, messages: seq<Message>, keep: nat, recent: nat)
    requires keep + recent <= |messages|
    ensures var after := [first] + messages[keep..];
      |after| > recent && after[|after| - recent..] == messages[|messages| - recent..]
  {
  }
}
