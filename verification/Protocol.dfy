/** Roles, tool calls and messages of omniai/protocol.py. Decoded JSON arguments are opaque
    values, and encoding them is taken to be invertible, so they are carried as they are. */
module Protocol {
  import opened Options

  datatype Role = System | User | Assistant | Tool

  type Json = string

  datatype ToolCall = ToolCall(id: string, name: string, arguments: Json)

  /** `toolCallId` is the `tool_call_id` entry of the message's metadata. */
  datatype OmniMessage = OmniMessage(
    role: Role,
    content: string,
    toolCalls: seq<ToolCall>,
    sessionId: string,
    toolCallId: Option<string>
  )

}
