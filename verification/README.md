# A model of the hand-copied cores

The repository is a collection of re-typed pieces of other projects: a JSON and session log
runtime in Rust, parts of a streaming agent framework and of a concurrency library in Go, and a
media player in C. This project models the algorithms and protocols at their centre, one group of
Dafny modules for each, and states what they are for as laws over every input, every run or every
interleaving.

| modules | what they model |
|---|---|
| `Json`, `JsonProperties`, `JsonGrammar`, `JsonErrors`, `JsonPrinting`, `JsonParser` | the JSON printer and the recursive-descent parser over an array of characters (strings as in section 7 of RFC 8259, the 64-bit part of section 6 for numbers); which texts are accepted, which mistake is reported for the others, and which text is printed |
| `Strings`, `Conversation`, `SessionLog`, `SessionLogProperties`, `SessionLogWriting`, `SessionLogReading`, `SessionLogErrors` | the session file, one JSON record a line, or one object in the legacy form; what is written, what every file means, and what is reported for the others |
| `Compaction`, `CompactionProperties` | where a long conversation is cut and how its summary is recognised |
| `EditDistance` | the two-row distance behind "did you mean" |
| `Timestamps` | the compare-exchange loop behind increasing time stamps |
| `Serialization`, `SerializationProperties`, `SerializationReading`, `Serializer` | the type-directed serializer that leaves out tags and zero values |
| `StreamCopy`, `StreamCopyProperties`, `StreamReaders` | copies of one stream over a list of fill-once cells |
| `InterruptTree`, `InterruptTreeProperties`, `InterruptFilter` | interrupt trees, flattened to contexts with shared parents, filtered in place, rebuilt |
| `OutputParts`, `ToolCalls`, `MapConcat`, `MapMerger` and their properties | merging of streamed chunks |
| `FieldMapping`, `FieldMappingProperties`, `FieldConverter` | writes by path into nested maps |
| `OrderedStream`, `OrderedStreamProperties` | bounded workers whose callbacks run in order of submission |
| `ResultAggregator` | results saved in any order and filtered in place |
| `PacketQueue`, `PlayerProtocol`, `FrameRing`, `FrameRingProtocol`, `ExternalClock` | the player's queues, serials, frame ring, once as an object and once as a protocol of two threads, and clock |

Where the original changes fields, slices, maps or arrays step by step, the model does so too, in
classes and methods, and each method is stated against a function or a value whose laws follow as
lemmas. Protocols of several threads or goroutines are state machines over their atomic steps; the
fields a state machine calls logs are read by no step.

## What the code does not do

Some laws one would expect hold only under a condition. Each is stated as an equivalence for all
inputs or runs, and with an input or a run that shows the failure.

- The distance counts bytes when one string is empty, characters otherwise
  (`EditDistance.ComputedIsOptimum`, `ByteCountOverestimates`).
- Prompt time stamps beyond the range of a JSON number are clamped when saved, and the health check
  is not saved (`SessionLogProperties.ReadsBackTheSameExactly`, `ReadsBackDifferent`).
- Compaction with nothing to preserve indexes past the messages
  (`CompactionProperties.CompactFailsExactly`, `CompactFails`). A tool result can be kept without the
  use it answers: when its message also asks for a tool, when it comes behind another block, or when
  another use is between (`PairedAfterExactly`, `AnsweredAfterExactly`, `SplitsAnswerAndUse`,
  `SplitsHiddenResult`, `SplitsFarUse`).
- A summary that holds a marker sentence is read back shortened
  (`CompactionProperties.SummaryReadBackExactly`, `SummaryCutShort`).
- In an interface hole a nil slice comes back empty, a map cannot be read back and an array comes
  back as a slice (`SerializationProperties.InterfaceExactly`, `NilSliceInInterface`,
  `MapInInterface`, `ArrayInInterface`).
- A leaf that is no root cause is lost when a tree is flattened
  (`InterruptTreeProperties.RebuildsExactly`, `LeafNotRebuilt`), and a root cause above another one
  is judged by its cut address (`InterruptFilter.KeptIsIntended`, `InnerRootCauseSurvives`).
- Collecting results stops at the last failed task
  (`ResultAggregator.CollectsAllExactly`, `ResultLost`).
- Of audio parts merged into inline audio before them, a link is dropped and a missing audio is not
  accepted (`OutputPartsProperties.LinksKeptExactly`, `FailsExactly`, `LinkDroppedOrFailed`).
- Merging the chunks of a tool call always drops its type, and all extra data but the first chunk's
  (`ToolCallsProperties.TypeAndExtraKeptExactly`, `TypeAndExtraLost`).
- Writes by path depend on their order when one path is a prefix of another
  (`FieldMappingProperties.OrderMattersExactly`, `OrderMatters`).
- A time stamp can lie behind the wall clock of its own call, after a lost exchange
  (`Timestamps.BehindTheClockExactly`, `BehindTheClock`).
- A frame ring of one slot that keeps its last frame gets stuck, which no ring of the player is
  (`FrameRingProtocol.StuckExactly`, `GetsStuck`).

Three slips of the parser are read as what they stand for: the missing `None` arm of `parse_value`
is the error for the end of the input, the missing `?` in `parse_unicode_escape` is there, and
`skip_whitspace` is `skip_whitespace`. The block type `too_result` is read as `tool_result`.

## Model

| member | source | states |
|---|---|---|
| `JsonProperties.RoundTrip` | Rust/handwritten-claw-code/rust/crates/runtime/src/json.rs:22-62 | parsing what was printed for any value gives that value |
| `JsonProperties.ValueRead` | Rust/handwritten-claw-code/rust/crates/runtime/src/json.rs:187-328 | the parser consumes exactly the printed value, whatever follows it except a digit |
| `JsonProperties.RenderInjective` | Rust/handwritten-claw-code/rust/crates/runtime/src/json.rs:22-49 | equal printed texts, even with more text behind them, come from equal values |
| `JsonProperties.StringRead` | Rust/handwritten-claw-code/rust/crates/runtime/src/json.rs:108-149 | a printed string with its escapes reads back, whatever follows the closing quote |
| `JsonProperties.NumberRead` | Rust/handwritten-claw-code/rust/crates/runtime/src/json.rs:306-328 | a printed 64-bit number reads back unless a digit follows it |
| `JsonProperties.ElementsRead` | Rust/handwritten-claw-code/rust/crates/runtime/src/json.rs:263-282 | the array loop reads the printed elements back in order |
| `JsonProperties.MembersRead` | Rust/handwritten-claw-code/rust/crates/runtime/src/json.rs:284-304 | the object loop reads the printed entries of an ordered map back |
| `JsonProperties.ParsedValueValid` | Rust/handwritten-claw-code/rust/crates/runtime/src/json.rs:187-199 | whatever the parser accepts has its keys in order without repetition and its numbers in range |
| `JsonProperties.ParseNormalises` | Rust/handwritten-claw-code/rust/crates/runtime/src/json.rs:51-62 | printing what was parsed is a normal form: it parses to the same value |
| `JsonProperties.RenderClean` | Rust/handwritten-claw-code/rust/crates/runtime/src/json.rs:108-132 | no printed value holds a raw control character, so no raw line break |
| `JsonProperties.LookupInsert` | Rust/handwritten-claw-code/rust/crates/runtime/src/json.rs:284-304 | inserting a key sets that key and changes no other |
| `JsonProperties.InsertSorted` | Rust/handwritten-claw-code/rust/crates/runtime/src/json.rs:284-304 | insertion keeps the keys in order and adds nothing else |
| `JsonGrammar.AcceptedExactly` | Rust/handwritten-claw-code/rust/crates/runtime/src/json.rs:51-356 | the parser accepts exactly the texts of a grammar written without it, with any spaces, every form of escape, trailing commas and repeated keys, and gives what they mean |
| `JsonGrammar.TextRead` | Rust/handwritten-claw-code/rust/crates/runtime/src/json.rs:187-356 | every text of that grammar, after any spaces, is read as what it means, whatever follows it; only a number must not be followed by a digit |
| `JsonGrammar.ValueWritten` | Rust/handwritten-claw-code/rust/crates/runtime/src/json.rs:187-356 | whatever the parser reads is such a text |
| `JsonErrors.RejectedExactly` | Rust/handwritten-claw-code/rust/crates/runtime/src/json.rs:51-356 | the parser refuses a source exactly for its first mistake, a relation on texts that names the mistake without the parser |
| `JsonErrors.ValueFails` | Rust/handwritten-claw-code/rust/crates/runtime/src/json.rs:187-328 | the same for a value, its strings, numbers, arrays and objects, at every depth |
| `JsonErrors.RejectedOnce` | Rust/handwritten-claw-code/rust/crates/runtime/src/json.rs:51-62 | every source has either a meaning or a mistake, and one mistake only |
| `JsonPrinting.PrintedExactly` | Rust/handwritten-claw-code/rust/crates/runtime/src/json.rs:22-49 | of all the texts of a value the printed one is the one without spaces, trailing commas, leading zeros or avoidable escapes, its keys in increasing order |
| `JsonPrinting.LessExactly` | Rust/handwritten-claw-code/rust/crates/runtime/src/json.rs:10-20 | the order of keys is that of their first different characters, a beginning first |
| `JsonParser.Parser.ParseValue` | Rust/handwritten-claw-code/rust/crates/runtime/src/json.rs:187-199 | the cursor method returns the value, the error and the remaining text of the reference parser |
| `JsonParser.Parser.ParseLiteral` | Rust/handwritten-claw-code/rust/crates/runtime/src/json.rs:202-211 | matches the literal character by character, as the prefix test of the reference parser |
| `JsonParser.Parser.ParseString` | Rust/handwritten-claw-code/rust/crates/runtime/src/json.rs:213-227 | the loop over characters and escapes reads what the reference parser reads |
| `JsonParser.Parser.ParseEscape` | Rust/handwritten-claw-code/rust/crates/runtime/src/json.rs:230-244 | each escape stands for the character the reference parser gives it |
| `JsonParser.Parser.ParseUnicodeEscape` | Rust/handwritten-claw-code/rust/crates/runtime/src/json.rs:246-261 | four hexadecimal digits make a scalar value; a surrogate or a missing digit is an error |
| `JsonParser.Parser.ParseArray` | Rust/handwritten-claw-code/rust/crates/runtime/src/json.rs:263-282 | the element loop, trailing comma included, is the reference parser's |
| `JsonParser.Parser.ParseObject` | Rust/handwritten-claw-code/rust/crates/runtime/src/json.rs:284-304 | the member loop, trailing comma and repeated keys included, is the reference parser's |
| `JsonParser.Parser.ParseNumber` | Rust/handwritten-claw-code/rust/crates/runtime/src/json.rs:306-328 | the digit loop and the range check are the reference parser's |
| `JsonParser.Parser.SkipWhitespace` | Rust/handwritten-claw-code/rust/crates/runtime/src/json.rs:352-356 | skips the leading white space; that it is the blanks, tabs, carriage returns and line feeds and all of them is JsonGrammar.AcceptedExactly |
| `JsonParser.Parser.Expect` | Rust/handwritten-claw-code/rust/crates/runtime/src/json.rs:331-341 | consumes the expected character or reports which one is missing |
| `JsonParser.Parser.Parse` | Rust/handwritten-claw-code/rust/crates/runtime/src/json.rs:51-62 | the whole parse, with trailing content refused, is the reference parser, which JsonGrammar.AcceptedExactly and JsonErrors.RejectedExactly describe |
| `JsonParser.RenderString` | Rust/handwritten-claw-code/rust/crates/runtime/src/json.rs:108-132 | the buffer loop prints the string as the reference printer does |
| `JsonParser.PushUnicodeEscape` | Rust/handwritten-claw-code/rust/crates/runtime/src/json.rs:135-149 | appends the four-digit escape of a control character |
| `EditDistance.SimpleEditDistance` | Rust/handwritten-claw-code/rust/crates/runtime/src/config_validate.rs:414-448 | the two-row loop returns the recursive distance, except that its early returns count bytes |
| `EditDistance.PrefixIsDistance` | Rust/handwritten-claw-code/rust/crates/runtime/src/config_validate.rs:422-447 | the table over prefixes the rows hold is the recursive distance |
| `EditDistance.DistanceIsOptimum` | Rust/handwritten-claw-code/rust/crates/runtime/src/config_validate.rs:414-448 | the distance is reached by some insert, delete and replace script and by no shorter one |
| `EditDistance.NoShorterScript` | Rust/handwritten-claw-code/rust/crates/runtime/src/config_validate.rs:414-448 | every edit script is at least as long as the distance |
| `EditDistance.ShortestScript` | Rust/handwritten-claw-code/rust/crates/runtime/src/config_validate.rs:414-448 | a script as long as the distance exists |
| `EditDistance.ZeroOnlyOnEqual` | Rust/handwritten-claw-code/rust/crates/runtime/src/config_validate.rs:414-448 | the distance is zero exactly for equal strings |
| `EditDistance.Symmetric` | Rust/handwritten-claw-code/rust/crates/runtime/src/config_validate.rs:414-448 | the distance does not depend on the order of the strings |
| `EditDistance.Triangle` | Rust/handwritten-claw-code/rust/crates/runtime/src/config_validate.rs:414-448 | the triangle inequality |
| `EditDistance.ComputedIsOptimum` | Rust/handwritten-claw-code/rust/crates/runtime/src/config_validate.rs:415-420 | the computed number is the optimum exactly unless one string is empty and the other not ASCII |
| `EditDistance.ByteCountOverestimates` | Rust/handwritten-claw-code/rust/crates/runtime/src/config_validate.rs:415-420 | an input for which the early return gives more than the optimum |
| `EditDistance.SuggestsExactMatch` | Rust/handwritten-claw-code/rust/crates/runtime/src/config_validate.rs:401-412 | when some candidate equals the input up to case, the suggestion does |
| `EditDistance.LowerCaseExactly` | Rust/handwritten-claw-code/rust/crates/runtime/src/config_validate.rs:401-412 | two texts are compared as equal exactly when they differ only in the case of the letters A to Z |
| `EditDistance.SuggestsSameSpelling` | Rust/handwritten-claw-code/rust/crates/runtime/src/config_validate.rs:401-412 | of the candidates that are the input but for case the first is suggested |
| `EditDistance.SuggestsNearest` | Rust/handwritten-claw-code/rust/crates/runtime/src/config_validate.rs:401-412 | no edit script leads to any candidate in fewer steps than the distance of the one suggested, which is at most three; without a suggestion all scripts are longer than three |
| `SessionLog.ReadSession` | Rust/handwritten-claw-code/rust/crates/runtime/src/session.rs:327-428 | the line loop computes the reading function, errors with their line included; one draft value collects the fields |
| `SessionLogProperties.SavesExactly` | Rust/handwritten-claw-code/rust/crates/runtime/src/session.rs:171-231 | saving fails exactly for a time stamp or count beyond a JSON number or a path that is no text |
| `SessionLogProperties.SnapshotReadBack` | Rust/handwritten-claw-code/rust/crates/runtime/src/session.rs:171-428 | what was saved is read back: metadata, compaction, prompt history and messages in order |
| `SessionLogWriting.SnapshotWritten` | Rust/handwritten-claw-code/rust/crates/runtime/src/session.rs:171-231 | the file of a session is one line for its own record, one for its compaction if there was one, one for each prompt and one for each message, in order, each with exactly the fields it should have |
| `SessionLogWriting.MetaWritten` | Rust/handwritten-claw-code/rust/crates/runtime/src/session.rs:196-231 | the record of the session has its numbers, and a fork, a path and a model exactly if there is one |
| `SessionLogWriting.MessageWritten` | Rust/handwritten-claw-code/rust/crates/runtime/src/session.rs:537-542 | the object of a message has its role, its blocks in order and its usage if there is one, each block exactly the fields of its kind |
| `SessionLogProperties.ReadsBackTheSameExactly` | Rust/handwritten-claw-code/rust/crates/runtime/src/session.rs:171-428 | the session read back equals the one saved exactly when it has no health check and no clamped prompt time stamp |
| `SessionLogProperties.ReadsBackDifferent` | Rust/handwritten-claw-code/rust/crates/runtime/src/session.rs:171-231 | a session with a health check and a late prompt reads back without the one and with the other clamped |
| `SessionLogProperties.SnapshotIsNotLegacy` | Rust/handwritten-claw-code/rust/crates/runtime/src/session.rs:137-152 | a saved session is never taken for the legacy format |
| `SessionLogProperties.LegacyExactly` | Rust/handwritten-claw-code/rust/crates/runtime/src/session.rs:137-152 | a file is taken for the legacy format exactly when it is, with whatever spaces, the text of an object that has an entry for the messages, and then for that object |
| `SessionLogProperties.PrintedLegacy` | Rust/handwritten-claw-code/rust/crates/runtime/src/session.rs:137-152 | so is the printed text of every such object |
| `SessionLogReading.LoadExactly` | Rust/handwritten-claw-code/rust/crates/runtime/src/session.rs:137-152 | a file of either format is read exactly for what it means, a relation between texts and sessions written without the readers |
| `SessionLogReading.FileExactly` | Rust/handwritten-claw-code/rust/crates/runtime/src/session.rs:327-428 | a file of records gives a session exactly when its lines mean one, record after record, and the clock and the fresh identifier fill in what is missing |
| `SessionLogReading.LineExactly` | Rust/handwritten-claw-code/rust/crates/runtime/src/session.rs:339-414 | a line is read exactly for what it means: nothing if it is white, else the record its text writes |
| `SessionLogReading.RecordExactly` | Rust/handwritten-claw-code/rust/crates/runtime/src/session.rs:347-414 | each kind of record changes exactly what it should, unknown fields ignored |
| `SessionLogReading.FileSplit` | Rust/handwritten-claw-code/rust/crates/runtime/src/session.rs:339 | lines ended by a line feed, or by a carriage return and one, are split back into those lines, and the last may lack its end |
| `SessionLogReading.SessionExactly` | Rust/handwritten-claw-code/rust/crates/runtime/src/session.rs:248-325 | the legacy object gives a session exactly when it means one, with its defaults and its unreadable prompts passed over |
| `SessionLogReading.MessageExactly` | Rust/handwritten-claw-code/rust/crates/runtime/src/session.rs:609-647 | a value is read as a message exactly when it means it |
| `SessionLogReading.BlockExactly` | Rust/handwritten-claw-code/rust/crates/runtime/src/session.rs:673-712 | a value is read as a block exactly when it means it |
| `SessionLogErrors.LoadFails` | Rust/handwritten-claw-code/rust/crates/runtime/src/session.rs:137-152 | a file of either format is refused exactly for the first thing wrong with it, a relation written without the readers |
| `SessionLogErrors.FileFails` | Rust/handwritten-claw-code/rust/crates/runtime/src/session.rs:327-428 | a file of records is refused exactly for its first wrong line, under its number, the lines before it being readable |
| `SessionLogErrors.LineFails` | Rust/handwritten-claw-code/rust/crates/runtime/src/session.rs:339-414 | a line is refused exactly for text that is no JSON, a value that is no object, or the first thing wrong with its record |
| `SessionLogErrors.SessionFails` | Rust/handwritten-claw-code/rust/crates/runtime/src/session.rs:248-325 | the legacy object is refused exactly for its first wrong part, a missing version as no session at all |
| `SessionLogErrors.MessageFails` | Rust/handwritten-claw-code/rust/crates/runtime/src/session.rs:609-647 | a message is refused exactly for its role, its first wrong block or its usage, in this order |
| `SessionLogErrors.BlockFails` | Rust/handwritten-claw-code/rust/crates/runtime/src/session.rs:673-712 | a block is refused exactly for its type or its first missing field |
| `SessionLogProperties.MetaRecordReads` | Rust/handwritten-claw-code/rust/crates/runtime/src/session.rs:196-231 | the meta record reads back every field and has no messages field |
| `SessionLogProperties.CompactionRecordReads` | Rust/handwritten-claw-code/rust/crates/runtime/src/session.rs:544-580 | a compaction record reads back |
| `SessionLogProperties.PromptRecordReads` | Rust/handwritten-claw-code/rust/crates/runtime/src/session.rs:582-607 | a prompt record reads back with its time stamp clamped to the largest JSON number |
| `SessionLogProperties.MessageReadBack` | Rust/handwritten-claw-code/rust/crates/runtime/src/session.rs:609-647 | a message reads back with role, blocks in order and usage |
| `SessionLogProperties.BlockReadBack` | Rust/handwritten-claw-code/rust/crates/runtime/src/session.rs:673-712 | every kind of content block reads back |
| `SessionLogProperties.LinesOfJoin` | Rust/handwritten-claw-code/rust/crates/runtime/src/session.rs:189-192 | joining printed records and splitting the file gives the same lines |
| `SessionLogProperties.RecordPlain` | Rust/handwritten-claw-code/rust/crates/runtime/src/session.rs:339-343 | a printed record has no line feed and no white space at its ends |
| `Strings.TrimSplits` | Rust/handwritten-claw-code/rust/crates/runtime/src/session.rs:339-343 | trimming takes white space off both ends, and all of it |
| `Strings.TrimOf` | Rust/handwritten-claw-code/rust/crates/runtime/src/session.rs:339-343 | and nothing else |
| `Compaction.KeepFrom` | Rust/handwritten-claw-code/rust/crates/runtime/src/compact.rs:57-100 | the boundary loop goes back as the boundary function says, and has no result where it looks past the last message |
| `Compaction.BoundaryFailsExactly` | Rust/handwritten-claw-code/rust/crates/runtime/src/compact.rs:57-67 | the loop looks past the last message exactly when it starts there and neither at zero nor at the old summary |
| `Compaction.ContinuationMessage` | Rust/handwritten-claw-code/rust/crates/runtime/src/compact.rs:145-169 | builds the summary message text piece by piece |
| `Compaction.CompactSession` | Rust/handwritten-claw-code/rust/crates/runtime/src/compact.rs:27-140 | the whole compaction; nothing where the boundary loop looks past the last message |
| `CompactionProperties.CompactAccounts` | Rust/handwritten-claw-code/rust/crates/runtime/src/compact.rs:103-139 | prefix, removed and preserved messages add up to the old length, and at least the configured number survives |
| `CompactionProperties.CompactedExactly` | Rust/handwritten-claw-code/rust/crates/runtime/src/compact.rs:588-666 | a session is compacted exactly when, not counting an old summary in front, it has more messages than are to be preserved and its estimate in UTF-8 bytes reaches the limit |
| `CompactionProperties.CompactConserves` | Rust/handwritten-claw-code/rust/crates/runtime/src/compact.rs:27-140 | otherwise it comes back as it is with nothing removed; compacted, its messages are the old ones from the cut on behind one summary, and nothing else changes but the time and the record of the compaction |
| `CompactionProperties.CutExactly` | Rust/handwritten-claw-code/rust/crates/runtime/src/compact.rs:57-100 | for any messages: the boundary is the one place such that what lies between it and the configured number opens with results and asks for no tool, and nothing forces it further back or lets it be later |
| `CompactionProperties.CompactedAtCut` | Rust/handwritten-claw-code/rust/crates/runtime/src/compact.rs:103-169 | a compacted session is the summary between the fixed sentences and the old messages from that cut on |
| `CompactionProperties.NothingVanishes` | Rust/handwritten-claw-code/rust/crates/runtime/src/compact.rs:27-140 | over any run of appends and compactions the messages kept are the last of all there were or were appended, in order, and those missing are as many as were counted as removed |
| `CompactionProperties.CompactionsCounted` | Rust/handwritten-claw-code/rust/crates/runtime/src/session.rs:234-246 | over any run the count rises by one for each compaction that took place, modulo 2^32 |
| `CompactionProperties.TokensCounted` | Rust/handwritten-claw-code/rust/crates/runtime/src/compact.rs:604-620 | the estimate is a quarter of the UTF-8 bytes, rounded down, and one, for each block |
| `CompactionProperties.RecognisedExactly` | Rust/handwritten-claw-code/rust/crates/runtime/src/compact.rs:634-666 | a message is an old summary exactly when it is the system's and its first text that is not blank starts with the fixed sentences |
| `CompactionProperties.CompactFailsExactly` | Rust/handwritten-claw-code/rust/crates/runtime/src/compact.rs:44-67 | the index is out of range exactly when compaction takes place and is to preserve no message |
| `CompactionProperties.CompactFails` | Rust/handwritten-claw-code/rust/crates/runtime/src/compact.rs:44-67 | a session of one message, none to be preserved, for which it does |
| `CompactionProperties.PairedAfterExactly` | Rust/handwritten-claw-code/rust/crates/runtime/src/compact.rs:57-100 | results stay behind the uses they answer, by identifier, exactly when the nearest use before the run of results at the boundary is not itself in a result or the old summary and the boundary message hides no result behind another block; otherwise a use is lost |
| `CompactionProperties.AnsweredAfterExactly` | Rust/handwritten-claw-code/rust/crates/runtime/src/compact.rs:44-103 | for any cut of any session: every result kept has its use exactly when no kept result has its nearest use cut off |
| `CompactionProperties.SplitsAnswerAndUse` | Rust/handwritten-claw-code/rust/crates/runtime/src/compact.rs:57-100 | a session whose compaction keeps a message that answers one use and asks for another, without the use it answers |
| `CompactionProperties.SplitsHiddenResult` | Rust/handwritten-claw-code/rust/crates/runtime/src/compact.rs:68-72 | a session whose compaction keeps a result behind a text without its use |
| `CompactionProperties.SplitsFarUse` | Rust/handwritten-claw-code/rust/crates/runtime/src/compact.rs:85-97 | a session of two uses and the result of the first, whose compaction keeps the other use |
| `CompactionProperties.PairedByWaiting` | Rust/handwritten-claw-code/rust/crates/runtime/src/compact.rs:47-56 | one pass that remembers the uses waiting for a result decides whether every result follows the use it answers with only results between |
| `CompactionProperties.SummaryReadBackExactly` | Rust/handwritten-claw-code/rust/crates/runtime/src/compact.rs:634-654 | a trimmed summary reads back as written, whatever sentences follow it, exactly when it holds neither marker sentence |
| `CompactionProperties.SummaryInExactly` | Rust/handwritten-claw-code/rust/crates/runtime/src/compact.rs:634-654 | of any text, the summary read back is what stands behind the opening sentences, up to the first note and in that up to the first resume sentence, trimmed |
| `CompactionProperties.SummaryCutShort` | Rust/handwritten-claw-code/rust/crates/runtime/src/compact.rs:634-654 | a summary whose second line starts with the resume sentence, of which only the first line is read back |
| `CompactionProperties.SummaryRecognised` | Rust/handwritten-claw-code/rust/crates/runtime/src/compact.rs:634-666 | the message compaction writes is recognised as a summary |
| `CompactionProperties.WordingIsPlain` | Rust/handwritten-claw-code/rust/crates/runtime/src/compact.rs:6-10 | the fixed sentences have the form the read-back relies on |
| `CompactionProperties.RunKeeps` | Rust/handwritten-claw-code/rust/crates/runtime/src/compact.rs:27-140 | over any run of compactions and appends, of results that come first in their message and answer a waiting use, every result stays behind the use it answers and only the first message is a summary |
| `CompactionProperties.CompactedInRun` | Rust/handwritten-claw-code/rust/crates/runtime/src/compact.rs:27-169 | every compaction in such a run leaves exactly one summary, every result behind the use it answers and the recent messages verbatim |
| `Serializer.Registry.GenericRegister` | Go/handwritten_eino/internal/serialization/serialization.go:39-58 | a type or key already taken is refused; otherwise both directions of the registry gain the pair |
| `Serializer.SetSliceElems` | Go/handwritten_eino/internal/serialization/serialization.go:450-488 | the filled slice holds the restored elements in order, or the first error |
| `Serializer.SetArrayElems` | Go/handwritten_eino/internal/serialization/serialization.go:450-488 | the filled array holds the restored elements at their places |
| `Serializer.SetMapKVs` | Go/handwritten_eino/internal/serialization/serialization.go:491-516 | the filled map holds the restored value of each key, in whatever order the keys are visited |
| `Serializer.SetStructFields` | Go/handwritten_eino/internal/serialization/serialization.go:519-560 | the filled struct holds the restored fields, in whatever order they are visited |
| `SerializationProperties.RoundTripExactly` | Go/handwritten_eino/internal/serialization/serialization.go:89-448 | a well-typed value of the fragment comes back the same exactly when it is restorable |
| `SerializationProperties.BodyExactly` | Go/handwritten_eino/internal/serialization/serialization.go:286-368 | the body of a value is restored exactly when the value is restorable |
| `SerializationProperties.SliceExactly` | Go/handwritten_eino/internal/serialization/serialization.go:450-488 | a slice is restored exactly when its elements are |
| `SerializationProperties.ArrayExactly` | Go/handwritten_eino/internal/serialization/serialization.go:450-488 | an array is restored exactly when its elements are |
| `SerializationProperties.MapExactly` | Go/handwritten_eino/internal/serialization/serialization.go:491-516 | a map is restored exactly when its values are |
| `SerializationProperties.StructExactly` | Go/handwritten_eino/internal/serialization/serialization.go:519-560 | a struct is restored exactly when its exported fields are and the others are zero |
| `SerializationProperties.InterfaceExactly` | Go/handwritten_eino/internal/serialization/serialization.go:89-281 | a value in an interface hole comes back exactly when its dynamic type can be named and rebuilt |
| `SerializationProperties.RestoreExtracted` | Go/handwritten_eino/internal/serialization/serialization.go:371-406 | a type is rebuilt from its tag exactly when it can be named |
| `SerializationProperties.ZeroUnique` | Go/handwritten_eino/internal/serialization/serialization.go:89-281 | a dropped zero value is the one its type restores |
| `SerializationProperties.MarshalledFields` | Go/handwritten_eino/internal/serialization/serialization.go:89-281 | the field table of a struct has an entry for each exported field and no other, holding what is written for the field; what is written for a zero is NothingWrittenExactly |
| `SerializationProperties.NothingWrittenExactly` | Go/handwritten_eino/internal/serialization/serialization.go:89-281 | nothing is written exactly for an empty interface and for the zero value of a type |
| `SerializationProperties.Written` | Go/handwritten_eino/internal/serialization/serialization.go:89-281 | whatever is written is written as it should be at every depth: a tag exactly under an interface, nothing exactly for a zero, and else the parts in their places |
| `SerializationProperties.ExtractedAs` | Go/handwritten_eino/internal/serialization/serialization.go:623-660 | a type is spelled out as far as it is a map or a list and goes by its key below |
| `SerializationProperties.HeadedAs` | Go/handwritten_eino/internal/serialization/serialization.go:89-281 | what an interface holds is tagged by its type, a struct by a key of its own, a map by the type of its values only |
| `SerializationProperties.WrittenExactly` | Go/handwritten_eino/internal/serialization/serialization.go:89-281 | a value can be written exactly when every interface in it holds a value of a registered type |
| `SerializationProperties.ExtractedExactly` | Go/handwritten_eino/internal/serialization/serialization.go:623-660 | a type can be named exactly when all types it is made of are registered |
| `SerializationProperties.UnmarshalTyped` | Go/handwritten_eino/internal/serialization/serialization.go:286-448 | whatever is read from any node has the type asked for, and so have all its parts |
| `SerializationProperties.PlaceTyped` | Go/handwritten_eino/internal/serialization/serialization.go:450-560 | the same for what ends up in a slot, a field or an entry |
| `SerializationProperties.FieldsKnown` | Go/handwritten_eino/internal/serialization/serialization.go:519-560 | a value for a field that is not exported is refused, one for no field at all is passed over |
| `SerializationProperties.ElementsInRoom` | Go/handwritten_eino/internal/serialization/serialization.go:450-488 | more elements than an array has room for are refused, fewer leave the rest zero |
| `SerializationProperties.ForeignTypesRefused` | Go/handwritten_eino/internal/serialization/serialization.go:286-448 | a node that names an unregistered type, or another type than that of its place, cannot be read |
| `SerializationReading.UnmarshalledExactly` | Go/handwritten_eino/internal/serialization/serialization.go:286-448 | the reader gives exactly the value that a node carries, whatever the node and wherever it comes from: which type it names, and which value of that type it holds, a relation written without the reader |
| `SerializationReading.PlacedExactly` | Go/handwritten_eino/internal/serialization/serialization.go:450-560 | the same for what ends up in a slot, a field or an entry |
| `SerializationReading.RestoredExactly` | Go/handwritten_eino/internal/serialization/serialization.go:371-406 | a type is restored exactly if the tag names it, the first of what it gives counting |
| `SerializationProperties.MarshalInjective` | Go/handwritten_eino/internal/serialization/serialization.go:89-281 | two restorable values of one type with the same output are the same value |
| `SerializationProperties.NilSliceInInterface` | Go/handwritten_eino/internal/serialization/serialization.go:89-281 | a nil slice in an interface hole comes back empty |
| `SerializationProperties.ArrayInInterface` | Go/handwritten_eino/internal/serialization/serialization.go:238-246 | an array in an interface hole comes back as the slice of its elements |
| `SerializationProperties.MapInInterface` | Go/handwritten_eino/internal/serialization/serialization.go:203 | a map in an interface hole cannot be read back |
| `StreamCopyProperties.RunsAreSafe` | Go/handwritten_eino/schema/stream.go:440-606 | in every interleaving each child is told a prefix of the source, the source is never asked twice at once, after its end or after its close |
| `StreamCopyProperties.ClosedExactlyOnce` | Go/handwritten_eino/schema/stream.go:571-589 | the source is closed once, after every child has closed |
| `StreamCopyProperties.CellsFilledOnce` | Go/handwritten_eino/schema/stream.go:536-569 | each position is asked for once; a filled or linked cell never changes |
| `StreamCopyProperties.NeverStuck` | Go/handwritten_eino/schema/stream.go:536-589 | while a call is under way some goroutine can take a step |
| `StreamCopyProperties.CallsEnd` | Go/handwritten_eino/schema/stream.go:536-589 | a run has at most five steps for each call, so with NeverStuck every call returns |
| `StreamCopyProperties.EveryCallAnswered` | Go/handwritten_eino/schema/stream.go:536-569 | every call is answered once |
| `StreamCopyProperties.ClosedByItself` | Go/handwritten_eino/schema/stream.go:571-589 | a child is closed exactly from its own first call of close on |
| `StreamCopyProperties.StepKeeps` | Go/handwritten_eino/schema/stream.go:536-589 | every atomic step of recv and close keeps the invariant |
| `StreamCopyProperties.RunKeeps` | Go/handwritten_eino/schema/stream.go:440-606 | every run keeps the invariant |
| `StreamReaders.ArrayReader.Recv` | Go/handwritten_eino/schema/stream.go:88-99 | gives the elements in order, then the end |
| `StreamReaders.ArrayReader.Copy` | Go/handwritten_eino/schema/stream.go:101-112 | the copies share the array and start where the original stands |
| `StreamReaders.ParentStreamReader.constructor` | Go/handwritten_eino/schema/stream.go:440-472 | all children start at one empty cell |
| `StreamReaders.ParentStreamReader.Peek` | Go/handwritten_eino/schema/stream.go:536-569 | gives a child the element at its position and moves it on; only the first to arrive asks the source |
| `StreamReaders.ParentStreamReader.Close` | Go/handwritten_eino/schema/stream.go:571-589 | clears the slot and closes the source with the last one, once |
| `InterruptTree.Interrupt` | Go/handwritten_eino/internal/core/interrupt.go:54-93 | a signal is a root cause exactly when nothing is below it, so trees built this way have the leaves as root causes |
| `InterruptTree.Builder.GetOrCreateSignal` | Go/handwritten_eino/internal/core/interrupt.go:150-196 | finds the node of a context or makes it, with its ancestors, and links each child once |
| `InterruptTree.FromInterruptContexts` | Go/handwritten_eino/internal/core/interrupt.go:150-196 | the loop builds the table the contexts stand for |
| `InterruptTreeProperties.RebuildsExactly` | Go/handwritten_eino/internal/core/interrupt.go:150-226 | the tree is rebuilt with its order, saved state dropped, exactly when every leaf is a root cause |
| `InterruptTreeProperties.LeafNotRebuilt` | Go/handwritten_eino/internal/core/interrupt.go:150-226 | a tree with a leaf that is no root cause, and the table rebuilt without that leaf |
| `InterruptTreeProperties.RebuildsNothingElse` | Go/handwritten_eino/internal/core/interrupt.go:150-196 | nothing is rebuilt that was not in the tree |
| `InterruptTreeProperties.RepresentsOneTree` | Go/handwritten_eino/internal/core/interrupt.go:150-196 | a table stands for one tree only |
| `InterruptTreeProperties.ContextsAddTree` | Go/handwritten_eino/internal/core/interrupt.go:150-226 | adding the contexts of a tree to a table is adding the tree |
| `InterruptFilter.FindParent` | Go/handwritten_eino/internal/core/interrupt.go:245-265 | the nearest kept ancestor, found over the parents as they are |
| `InterruptFilter.FilterParentChain` | Go/handwritten_eino/internal/core/interrupt.go:245-265 | the chain above a context points to kept ancestors only, in the shared nodes |
| `InterruptFilter.EncapsulateContextAddress` | Go/handwritten_eino/internal/core/interrupt.go:268-278 | the addresses on the chain are cut to their allowed segments |
| `InterruptFilter.FilterOne` | Go/handwritten_eino/internal/core/interrupt.go:232-239 | finishes one root cause and spoils no other |
| `InterruptFilter.FilterAll` | Go/handwritten_eino/internal/core/interrupt.go:228-241 | after the loop every root cause is finished |
| `InterruptFilter.BuildContexts` | Go/handwritten_eino/internal/core/interrupt.go:202-226 | the contexts of a tree, sharing their ancestors |
| `InterruptFilter.IoInterruptContexts` | Go/handwritten_eino/internal/core/interrupt.go:198-242 | each context has exactly its kept ancestors in order, with every address on the chain cut |
| `InterruptFilter.FilteredChain` | Go/handwritten_eino/internal/core/interrupt.go:245-265 | following the pointers of a filtered context meets exactly its kept ancestors |
| `InterruptFilter.KeptIsIntended` | Go/handwritten_eino/internal/core/interrupt.go:245-265 | what is kept is what ends in an allowed segment exactly when no ancestor that is a root cause ends otherwise yet has one |
| `InterruptFilter.InnerRootCauseSurvives` | Go/handwritten_eino/internal/core/interrupt.go:245-278 | a root cause above another is kept though its address does not end in an allowed segment |
| `InterruptFilter.RestrictLast` | Go/handwritten_eino/internal/core/interrupt.go:268-278 | cutting an address twice is cutting it once, and a cut address ends in an allowed segment |
| `InterruptFilter.RestrictExactly` | Go/handwritten_eino/internal/core/interrupt.go:268-278 | cutting leaves exactly the allowed segments, in order |
| `OrderedStreamProperties.RunsAreSafe` | Go/handwritten-conc/stream/stream.go:30-101 | in every interleaving each task starts at most once, no more workers than the limit live, the k-th message handled is that of the k-th task and says how it ended, the callbacks called, with the one under way, are those of the tasks that sent one, in that order, and pooled channels are empty |
| `OrderedStreamProperties.WaitReturnsAfterAll` | Go/handwritten-conc/stream/stream.go:51-60 | when Wait has returned every task was started once, has ended and was handled, and no goroutine is left |
| `OrderedStreamProperties.NeverStuck` | Go/handwritten-conc/stream/stream.go:30-93 | until Wait returns some goroutine can take a step |
| `OrderedStreamProperties.RunsEnd` | Go/handwritten-conc/stream/stream.go:30-101 | no interleaving goes on for ever: at most fourteen steps for each task submitted and five more, so with NeverStuck the wait returns |
| `OrderedStreamProperties.TasksAreSubmissions` | Go/handwritten-conc/stream/stream.go:30-49 | every submission puts one task on the stream, and nothing else does |
| `OrderedStreamProperties.WorkersStay` | Go/handwritten-conc/pool/pool.go:97-106 | in every interleaving a worker has left before the task channel is closed exactly if one of its tasks panicked, which then is the last it has run |
| `OrderedStreamProperties.WorkerMoves` | Go/handwritten-conc/pool/pool.go:97-106 | a worker is never blocked on its own channel or the limiter |
| `OrderedStreamProperties.PlacesKept` | Go/handwritten-conc/pool/pool.go:114-124 | the limiter holds one place for each live worker and never more than its limit |
| `OrderedStreamProperties.ChannelKept` | Go/handwritten-conc/stream/stream.go:74-101 | a channel has one owner at a time and is empty whenever it is in the pool |
| `OrderedStreamProperties.TaskKept` | Go/handwritten-conc/pool/pool.go:21-42 | a task is handed to one worker and leaves it with one message |
| `OrderedStreamProperties.StepKeeps` | Go/handwritten-conc/stream/stream.go:30-101 | every atomic step, panicking tasks included, keeps the invariant |
| `ResultAggregator.Aggregator.NextIndex` | Go/handwritten-conc/pool/result_context_pool.go:71-78 | indices are handed out in order of submission |
| `ResultAggregator.Aggregator.SaveResult` | Go/handwritten-conc/pool/result_context_pool.go:80-95 | a saved result is in its slot, whatever the order of saves, and others stay |
| `ResultAggregator.Aggregator.AllSaved` | Go/handwritten-conc/pool/result_context_pool.go:80-95 | once all are saved the slots are the results in order of submission |
| `ResultAggregator.Aggregator.Collect` | Go/handwritten-conc/pool/result_context_pool.go:97-116 | the answer is the results without errors below the largest errored index, in order |
| `ResultAggregator.Slide` | Go/handwritten-conc/pool/result_context_pool.go:108-114 | appending within one array overwrites no slot still to be read |
| `ResultAggregator.SlideAll` | Go/handwritten-conc/pool/result_context_pool.go:106-115 | the segments between errored indices are appended in order |
| `ResultAggregator.CollectsAllExactly` | Go/handwritten-conc/pool/result_context_pool.go:97-116 | no successful result is lost exactly when the last task failed or none did |
| `ResultAggregator.KeptExactly` | Go/handwritten-conc/pool/result_context_pool.go:97-116 | what is kept is exactly the results that did not fail, as many and each at its place |
| `ResultAggregator.CollectedExactly` | Go/handwritten-conc/pool/result_context_pool.go:97-116 | everything is returned if failed results are wanted or none failed, otherwise what did not fail before the last failure |
| `ResultAggregator.ResultLost` | Go/handwritten-conc/pool/result_context_pool.go:97-116 | two tasks of which the first fails, and the result of the second is not returned |
| `OutputParts.GroupOutputParts` | Go/handwritten_eino/schema/message.go:827-848 | the grouping loop compares each part with the head of its group |
| `OutputParts.MergeTextParts` | Go/handwritten_eino/schema/message.go:697-725 | joins the texts in order and keeps the first stream index |
| `OutputParts.MergeReasoningParts` | Go/handwritten_eino/schema/message.go:727-765 | joins the reasoning in order and keeps the last signature that is not empty |
| `OutputParts.MergeAudioParts` | Go/handwritten_eino/schema/message.go:767-823 | joins the inline data in order and keeps the first media type; nothing when an audio is missing |
| `OutputParts.MergeOutputPartGroup` | Go/handwritten_eino/schema/message.go:672-694 | merges a group by the kind of its head |
| `OutputParts.ConcatAssistantMultiContent` | Go/handwritten_eino/schema/message.go:653-670 | groups and merges all parts, or panics on the first group that does |
| `OutputPartsProperties.Incremental` | Go/handwritten_eino/schema/message.go:653-890 | merging merged parts with later ones is merging all at once, failures included |
| `OutputPartsProperties.Idempotent` | Go/handwritten_eino/schema/message.go:653-890 | merging again changes nothing |
| `OutputPartsProperties.NothingLost` | Go/handwritten_eino/schema/message.go:672-823 | for every stream: its texts, reasoning and inline sounds survive in order, and none is given to another stream |
| `OutputPartsProperties.MergedAsFarAsPossible` | Go/handwritten_eino/schema/message.go:653-876 | the parts are cut into runs exactly where one is apart from the first of its run, by kind, by stream or because that is audio that is not inline, and each run is merged into one part |
| `OutputPartsProperties.NeighboursApart` | Go/handwritten_eino/schema/message.go:827-890 | no two neighbours of the result could still be merged |
| `OutputPartsProperties.ApartExactly` | Go/handwritten_eino/schema/message.go:851-890 | the condition under which parts stay apart, written out |
| `OutputPartsProperties.MergedWhole` | Go/handwritten_eino/schema/message.go:697-823 | a merged part has the stream of the first, all texts, reasoning or sounds in order, the last signature and the first media type that is not empty, and nothing else |
| `OutputPartsProperties.FailsExactly` | Go/handwritten_eino/schema/message.go:767-780 | merging fails exactly when an audio part without its audio follows inline audio with only audio of the same stream between them |
| `OutputPartsProperties.LinksKeptExactly` | Go/handwritten_eino/schema/message.go:767-848 | the links of audio parts survive in order exactly when no part with a link follows inline audio in that way |
| `OutputPartsProperties.LinkDroppedOrFailed` | Go/handwritten_eino/schema/message.go:767-823 | inline audio before a link, which is dropped, and before a part without audio, which cannot be merged |
| `ToolCalls.SortChunks` | Go/handwritten_eino/schema/message.go:893-905 | separates the chunks without an index and gathers the positions of the others |
| `ToolCalls.MergeCall` | Go/handwritten_eino/schema/message.go:907-958 | merges the chunks of one index, or finds that they disagree |
| `ToolCalls.ConcatToolCalls` | Go/handwritten_eino/schema/message.go:892-974 | the merged calls, in whatever order the indices are visited |
| `ToolCalls.InsertCall` | Go/handwritten_eino/schema/message.go:960-972 | the stable sort puts each merged call in its place |
| `ToolCallsProperties.Incremental` | Go/handwritten_eino/schema/message.go:892-974 | merging merged calls with later chunks is merging all at once, conflicts included |
| `ToolCallsProperties.Idempotent` | Go/handwritten_eino/schema/message.go:892-974 | merging again changes nothing |
| `ToolCallsProperties.CallHoldsAll` | Go/handwritten_eino/schema/message.go:921-957 | a call holds all arguments in order and the identifier and name its chunks give |
| `ToolCallsProperties.UnindexedKept` | Go/handwritten_eino/schema/message.go:892-905 | the chunks without an index come first, as they are and in order |
| `ToolCallsProperties.CallGathers` | Go/handwritten_eino/schema/message.go:907-958 | for every chunk with an index the result has the call of that index, with all its arguments in order, the identifier and name its chunks give and the extra data of the first |
| `ToolCallsProperties.NothingElse` | Go/handwritten_eino/schema/message.go:892-974 | the result has nothing else |
| `ToolCallsProperties.IdAndNameGiven` | Go/handwritten_eino/schema/message.go:923-937 | no identifier or name is made up |
| `ToolCallsProperties.ConcatFailsExactly` | Go/handwritten_eino/schema/message.go:892-974 | the chunks cannot be merged exactly when two of the same index give different identifiers or names |
| `ToolCallsProperties.ConflictExactly` | Go/handwritten_eino/schema/message.go:923-937 | merging a call fails exactly when two chunks give different identifiers or names |
| `ToolCallsProperties.TypeAndExtraKeptExactly` | Go/handwritten_eino/schema/message.go:909-955 | a merged call has the types and extra data of its chunks exactly when none gives a type, and none extra data other than the first chunk's |
| `ToolCallsProperties.TypeAndExtraLost` | Go/handwritten_eino/schema/message.go:909-955 | two chunks of which the merged call loses the type of the first and the extra data of the second |
| `ToolCallsProperties.ResultOrdered` | Go/handwritten_eino/schema/message.go:960-972 | the result is in order of index, without a repeated index |
| `MapMerger.ConcatStrings` | Go/handwritten_eino/internal/concat.go:38-54 | joins the texts in order |
| `MapMerger.FilterZeros` | Go/handwritten_eino/internal/concat.go:186-206 | the one value that is not zero, the zero value if there is none, an error if there are two |
| `MapMerger.MergeValues` | Go/handwritten_eino/internal/concat.go:129-167 | merges the candidates of one key by their type |
| `MapMerger.ConcatChunks` | Go/handwritten_eino/internal/concat.go:100-170 | the merged map, in whatever order keys are visited, or an error |
| `MapConcatProperties.MapsIncremental` | Go/handwritten_eino/internal/concat.go:78-228 | merging a merged map with later chunks is merging all at once, errors included |
| `MapConcatProperties.MergeIncremental` | Go/handwritten_eino/internal/concat.go:129-228 | the same for the values of one key |
| `MapConcatProperties.Idempotent` | Go/handwritten_eino/internal/concat.go:78-170 | merging again changes nothing |
| `MapConcatProperties.NoTextLost` | Go/handwritten_eino/internal/concat.go:100-170 | at every path the merged value holds the texts of all chunks in order |
| `MapConcatProperties.MergedAt` | Go/handwritten_eino/internal/concat.go:129-228 | what is left at every path is what the values have there, put together by their type: texts joined, the last of those of which the last is taken, the one value that is not zero |
| `MapConcatProperties.MergesExactly` | Go/handwritten_eino/internal/concat.go:129-228 | values can be merged exactly when at no path they are of different types or two that must agree are set |
| `MapConcatProperties.ChunksMergedAt` | Go/handwritten_eino/internal/concat.go:78-170 | the merged map has the keys of all chunks and no others, and at every path under a key what the chunks have there |
| `MapConcatProperties.ChunksMergeExactly` | Go/handwritten_eino/internal/concat.go:78-170 | chunks can be merged exactly when the values of no key conflict at any path |
| `FieldMapping.Target.AssignOne` | Go/handwritten_eino/compose/field_mapping.go:92-240 | writes a plain value at its path and replaces only what is at or below it; fails exactly when the path is empty, which takes a map, or a value is in the way |
| `FieldMapping.Target.AssignWhole` | Go/handwritten_eino/compose/field_mapping.go:93-97 | a map written to the empty path becomes the whole destination, each of its values at its key |
| `FieldMapping.WriteValue` | Go/handwritten_eino/compose/field_mapping.go:107-240 | the loop with its parent map and key, over maps that refer to each other |
| `FieldMapping.Round` | Go/handwritten_eino/compose/field_mapping.go:181-215 | one step down makes a missing map and writes it back to its parent |
| `FieldMapping.JoinOfSplit` | Go/handwritten_eino/compose/field_mapping.go:244-257 | splitting a path loses nothing |
| `FieldMapping.PathOfText` | Go/handwritten_eino/compose/field_mapping.go:248-257 | only the empty text is no path at all |
| `FieldMapping.SplitComponents` | Go/handwritten_eino/compose/field_mapping.go:244-257 | a path has no separator left in it |
| `FieldMapping.SplitOfJoin` | Go/handwritten_eino/compose/field_mapping.go:244-257 | every path of such components is read off the text that joins them |
| `FieldMappingProperties.ReadsBack` | Go/handwritten_eino/compose/field_mapping.go:92-240 | every path written reads back its value and nothing else can be read |
| `FieldMappingProperties.Determined` | Go/handwritten_eino/compose/field_mapping.go:92-240 | the nested map is determined by what was written, however its maps came to be |
| `FieldMappingProperties.OrderIrrelevant` | Go/handwritten_eino/compose/field_mapping.go:51-64 | writes to paths none of which is a prefix of another give the same result in any order |
| `FieldMappingProperties.AllWritten` | Go/handwritten_eino/compose/field_mapping.go:51-64 | such writes all succeed and all their values are kept |
| `FieldMappingProperties.OrderMattersExactly` | Go/handwritten_eino/compose/field_mapping.go:51-64 | for any number of different paths, every order writes all and gives the same map exactly when no path is empty or a prefix of another |
| `FieldMappingProperties.OrderMatters` | Go/handwritten_eino/compose/field_mapping.go:51-64 | a key and a path through it: refused in one order, and in the other only the key is left |
| `FieldConverter.ConvertTo` | Go/handwritten_eino/compose/field_mapping.go:51-64 | the conversion in any order holds exactly the mappings |
| `FieldConverter.ConversionsAgree` | Go/handwritten_eino/compose/field_mapping.go:51-64 | two conversions of the same mappings give the same nested map |
| `FieldConverter.ConvertedReadsBack` | Go/handwritten_eino/compose/field_mapping.go:51-64 | every mapping reads back from the result, which has no other leaves |
| `PacketQueue.PacketQueue.PutPrivate` | C/ffplay.c:412-433 | appends the packet with the current serial and adds to the totals, unless aborted |
| `PacketQueue.PacketQueue.FlushAll` | C/ffplay.c:484-496 | drains the list, clears the totals and starts a new serial |
| `PacketQueue.PacketQueue.RequestAbort` | C/ffplay.c:506-515 | sets the abort request and nothing else |
| `PacketQueue.PacketQueue.Begin` | C/ffplay.c:517-523 | clears the abort request and starts a new serial |
| `PacketQueue.PacketQueue.Get` | C/ffplay.c:526-558 | answers abort first, then the first packet, else would wait |
| `PacketQueue.Put` | C/ffplay.c:412-433 | the totals stay the sums over the queue |
| `PacketQueue.Take` | C/ffplay.c:526-558 | the totals stay the sums over the queue |
| `PacketQueue.RunIsFifo` | C/ffplay.c:412-558 | over any run the packets taken and those still queued are the packets accepted since the last flush, in order, each under the serial of its time, and the totals are those of the queue |
| `PacketQueue.QueueIsFifo` | C/ffplay.c:412-558 | the same from the initialisation on: nothing is accepted before the start or after an abort |
| `PlayerProtocol.RunsAreSafe` | C/ffplay.c:573-670 | in every interleaving the totals are sums, queued packets have the current serial and the codec holds packets of the decoder's serial |
| `PlayerProtocol.AcceptedFramesAreCurrent` | C/ffplay.c:1591-1594 | a frame is accepted exactly when all its packets were queued since the last flush |
| `PlayerProtocol.QueuedPacketsAreCurrent` | C/ffplay.c:484-496 | every queued packet was put since the last flush |
| `PlayerProtocol.NoCurrentPacketLost` | C/ffplay.c:573-670 | in every interleaving a packet put since the last flush is queued, in the decoder's hand or accepted by the codec, which accepts packets in the order in which they were put and none twice |
| `PlayerProtocol.CodecExactly` | C/ffplay.c:573-670 | in every run each packet handed to the codec and not refused is accepted, and the codec holds exactly what the steps taken leave in it |
| `PlayerProtocol.FramesInOrder` | C/ffplay.c:573-670 | in every run the frames waiting are those that waited and those the codec gave and that were neither dropped nor overtaken by an abort, in order, without as many as the display has taken |
| `PlayerProtocol.WaitsExactly` | C/ffplay.c:573-670 | in every interleaving, while a stream is open its decoder thread lives, and it has to wait exactly when it wants a packet, has none left over and the queue is empty |
| `PlayerProtocol.FinishedExactly` | C/ffplay.c:573-670 | once the codec reports its end the decoder is finished for the serial it then has, until a new serial or a start takes that back |
| `PlayerProtocol.CloseComesThrough` | C/ffplay.c:811-818 | once a stream is aborted its decoder thread can always take a step until it has ended, which it has after eight at most, in every interleaving with a reader that still puts and flushes; then it can be closed |
| `PlayerProtocol.TakesEight` | C/ffplay.c:573-670 | a run in which an aborted decoder thread takes all eight |
| `PlayerProtocol.StepKeeps` | C/ffplay.c:573-670 | every step of reader, decoder and display keeps the invariant |
| `FrameRing.FrameQueue.constructor` | C/ffplay.c:683-702 | an empty ring of at most the fixed number of slots |
| `FrameRing.FrameQueue.Peek` | C/ffplay.c:723-726 | the next frame to show |
| `FrameRing.FrameQueue.PeekNext` | C/ffplay.c:728-731 | the frame after the next |
| `FrameRing.FrameQueue.PeekLast` | C/ffplay.c:733-736 | the frame on display, or the next before any was shown |
| `FrameRing.FrameQueue.PeekWritable` | C/ffplay.c:738-752 | a slot that holds no frame of the ring |
| `FrameRing.FrameQueue.PeekReadable` | C/ffplay.c:754-768 | the next frame, or none when aborted |
| `FrameRing.FrameQueue.Fill` | C/ffplay.c:1729-1758 | filling the writable slot disturbs no frame |
| `FrameRing.FrameQueue.Push` | C/ffplay.c:770-778 | the filled slot becomes the last frame waiting |
| `FrameRing.FrameQueue.Next` | C/ffplay.c:780-793 | the next frame moves to last shown, the one before it is released, the writable slot stays |
| `FrameRing.FrameQueue.NbRemaining` | C/ffplay.c:796-799 | the number of frames waiting |
| `FrameRing.FrameQueue.LastPos` | C/ffplay.c:802-809 | the position of the frame on display if it has the current serial |
| `FrameRing.RunIsFifo` | C/ffplay.c:770-793 | frames shown and frames waiting are the frames pushed, in order, within capacity |
| `FrameRingProtocol.RunsAreSafe` | C/ffplay.c:738-793 | in every interleaving the display finds the pictures pushed, once each and in order, within capacity, and the slot being filled holds none of them |
| `FrameRingProtocol.EveryPicturePushed` | C/ffplay.c:738-793 | every picture filled in is pushed, in order, but for the one in hand; the display finds one each time it moves on |
| `FrameRingProtocol.CallsAnswered` | C/ffplay.c:738-768 | every wait that ends before an abort, and every look, gives a frame, which is then taken, and every wait for room a slot, which is then filled; no other call gives anything |
| `FrameRingProtocol.AbortFrees` | C/ffplay.c:811-818 | an abort is possible at any time, and after it neither thread waits |
| `FrameRingProtocol.HoldsExactly` | C/ffplay.c:677-793 | in every interleaving a slot holds a picture exactly if that was filled in and not yet released |
| `FrameRingProtocol.CallsEnd` | C/ffplay.c:738-793 | a run has at most six steps for each call, so with NeverStuck every call returns |
| `FrameRingProtocol.LastStaysOnDisplay` | C/ffplay.c:733-793 | in every interleaving a kept last frame stays at the read index until the display releases it |
| `FrameRingProtocol.ShownExactly` | C/ffplay.c:780-793 | in every interleaving a frame is on display exactly if the ring keeps its last one and the display has found any |
| `FrameRingProtocol.StuckExactly` | C/ffplay.c:738-768 | the two threads wait for each other exactly when a ring of one slot keeps its only frame on display and nothing is aborted |
| `FrameRingProtocol.NeverStuck` | C/ffplay.c:738-793 | no ring of two or more slots, and none that keeps no frame, ever gets stuck |
| `FrameRingProtocol.GetsStuck` | C/ffplay.c:738-784 | a run in which a ring of one slot does |
| `FrameRingProtocol.StepKeeps` | C/ffplay.c:738-793 | every step of the two threads, index moves outside the mutex included, keeps the invariant |
| `ExternalClock.Clock.GetClock` | C/ffplay.c:1359-1369 | what the clock shows |
| `ExternalClock.Clock.SetClockAt` | C/ffplay.c:1371-1377 | anchors the clock at a value and a time |
| `ExternalClock.Clock.SetClockSpeed` | C/ffplay.c:1385-1389 | sets the clock to what it shows, then the speed |
| `ExternalClock.Clock.CheckExternalClockSpeed` | C/ffplay.c:1442-1454 | slows down, speeds up or returns towards the normal speed by the length of the queues |
| `ExternalClock.Clock.TogglePause` | C/ffplay.c:1471-1482 | sets the clock to what it shows and toggles the pause |
| `ExternalClock.ReadingIsTotal` | C/ffplay.c:1359-1482 | over any run the clock shows its start plus the sum of speed times unpaused time |
| `ExternalClock.ShowsExactly` | C/ffplay.c:1359-1369 | a clock that has been set shows something to the queue of its serial and to no other |
| `ExternalClock.SetShows` | C/ffplay.c:1371-1383 | setting the clock anchors it: it shows the value and what time, paused or not, adds to it |
| `ExternalClock.UnsetShowsNothing` | C/ffplay.c:1359-1482 | a clock that was never set shows nothing, whatever is done to it |
| `ExternalClock.StepChanges` | C/ffplay.c:1442-1482 | a toggle turns the pause around and keeps the speed, a check sets the speed, neither changes the serial |
| `ExternalClock.NeverJumps` | C/ffplay.c:1385-1482 | right after an operation the clock shows what it showed right before |
| `ExternalClock.NeverBackwards` | C/ffplay.c:1359-1482 | the clock does not run backwards while time does not |
| `ExternalClock.SpeedBounds` | C/ffplay.c:1442-1454 | from the normal speed, the speed stays between 0.900 and 1.010 |
| `ExternalClock.AdjustedWhole` | C/ffplay.c:1442-1454 | each check moves the speed by at most one step, and by none past the normal speed on the way back |
| `ExternalClock.SpeedMoves` | C/ffplay.c:1442-1454 | by which of the three rules the speed moves, with the numbers of packets and the steps written out |
| `Timestamps.StrictlyIncreasing` | Rust/handwritten-claw-code/rust/crates/runtime/src/session.rs:756-790 | results increase in the order of their exchanges exactly until the largest 64-bit number |
| `Timestamps.NeverRepeats` | Rust/handwritten-claw-code/rust/crates/runtime/src/session.rs:756-790 | no two calls return the same value below the largest |
| `Timestamps.BehindTheClockExactly` | Rust/handwritten-claw-code/rust/crates/runtime/src/session.rs:771-789 | in every run a result lies behind the wall clock of its call exactly when the call lost an exchange and the value after the one it replaced is behind that clock |
| `Timestamps.LossDecides` | Rust/handwritten-claw-code/rust/crates/runtime/src/session.rs:771-789 | a call that loses no exchange returns its wall clock if that is later than the value it replaced; in all other cases the result is exactly the value after that one |
| `Timestamps.UndisturbedReturns` | Rust/handwritten-claw-code/rust/crates/runtime/src/session.rs:771-789 | a call that is left alone, whatever has happened before, returns after three more steps at most |
| `Timestamps.BehindTheClock` | Rust/handwritten-claw-code/rust/crates/runtime/src/session.rs:771-789 | a run in which a call at wall clock 1000 returns 6 |
| `Timestamps.StepKeeps` | Rust/handwritten-claw-code/rust/crates/runtime/src/session.rs:756-790 | every load, however stale, and every exchange keep the invariant |

## Left out

- JSON: errors are constructors with what varies in their messages, not the messages, and nesting depth is not limited.
- Session log: files, their rotation and the store path are not part of this model; the writer of the legacy form is not in the repository.
- Session log: the writers of messages, usages and forks are taken as the mirror of their readers, because their files are not in the repository.
- Compaction.CompactSession: the merged summary and its display form are parameters, because their wording carries no law; the display form is taken as trimmed, which is how it is produced.
- Compaction.CompactSession: the number of compactions wraps around at 32 bits, as a release build does, and there are fewer than 2^64 messages; sums of token estimates are unbounded.
- Serialization: pointers, custom marshalers, named slice and map types and map keys other than scalars are not part of this model; scalars are opaque values that are taken to survive their own encoding.
- StreamCopy: each child belongs to one goroutine, as its callers use it; the other kinds of readers and merging of streams are not part of this model.
- InterruptTree: the layer payload and the persistence maps are not part of this model.
- OutputParts: extra data of parts is not part of this model, and images and videos are opaque.
- ToolCalls.ConcatToolCalls: which of several conflicts is reported depends on the order of a map in the original, so there is one kind of conflict; the library's stable sort is modelled as stable insertion.
- MapConcat: keys are texts, functions registered by users are not part of this model, and an empty map stands for a nil one.
- MapMerger.ConcatChunks: which of several failures is reported depends on the order of a map in the original, so there is one kind of failure.
- FieldMapping: targets other than nested maps (structs, pointers, typed maps) are not part of this model.
- FieldMapping.Target.AssignOne: the value written is plain, so that no path goes on into a map that was itself a value, and the empty path is refused; a map written to the empty path is `AssignWhole`.
- FieldMapping.Target.AssignWhole: a map written to the empty path has plain values only; that the destination then is the predecessor's own map, and not a copy of it, is not part of this model.
- OrderedStream: the channel pool is used by one stream, a pool is not used again after its wait, and a task that ends its goroutine without returning or panicking is not part of this model; which panic is raised again is not modelled.
- ResultAggregator: the context pool around it and its cancellation are not part of this model.
- PlayerProtocol: queueing a frame does not wait for room, which is the subject of the frame ring and ends with an abort there; the codec is a bag of packets emptied by a flush, from which a frame may be made of any of them; buffering in filter graphs, subtitles and the overflow of 32-bit sizes and serials are not part of this model.
- FrameRing: each method is one atomic step between which the other thread may act; waiting is a precondition that says what ends it. FrameRingProtocol has the smaller steps.
- FrameRingProtocol: memory is sequentially consistent, and an abort is not taken back while the two threads live; pictures are numbers.
- ExternalClock: doubles are reals, and setting the clock to a stream's clock is an explicit set.
- Multi-source stream readers, delay queues, wait group panics, message response metadata, option parsing, rendering and the event loop are not part of this model.
