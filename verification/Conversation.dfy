/** The messages of a session, shared by the session log and by compaction. */
module Conversation {

  import opened Wrappers

  type U32 = n: int | 0 <= n < 0x1_0000_0000

  type U64 = n: int | 0 <= n < 0x1_0000_0000_0000_0000

  datatype Role = System | User | Assistant | Tool

  datatype Block =
    | Text(text: string)
    | Thinking(thinking: string, signature: Option<string>)
    | ToolUse(id: string, name: string, input: string)
    | ToolResult(toolUseId: string, toolName: string, output: string, isError: bool)

  datatype Usage = Usage(inputTokens: U32, outputTokens: U32, cacheCreationTokens: U32, cacheReadTokens: U32)

  datatype Message = Message(role: Role, blocks: seq<Block>, usage: Option<Usage>)
}
