/** Message conversion and streaming of `internal/ai/provider/anthropic/provider.go`.

    JSON text stays opaque: `Json` stands for the two things the code asks of `encoding/json`, whether
    a text is valid and how `Marshal` writes out a raw value. */
module Anthropic {
  import opened Strings

  datatype ToolCall = ToolCall(id: string, kind: string, name: string, arguments: string)

  datatype ChatMessage = ChatMessage(role: string, content: string, toolCallID: string, toolCalls: seq<ToolCall>)

  /** A content block; `input` is None when the JSON has no `input` field. */
  datatype Block =
    | Text(text: string)
    | ToolUse(id: string, name: string, input: Option<string>)
    | ToolResult(toolUseID: string, content: string)
    | OtherBlock

  datatype ApiMessage = ApiMessage(role: string, blocks: seq<Block>)

  datatype ChatResponse = ChatResponse(content: string, toolCalls: seq<ToolCall>, finishReason: string)

  datatype Json = Json(valid: string -> bool, compact: string -> string) {
    /** What `Marshal` writes for the arguments of a tool call. */
    function Normal(arguments: string): string {
      if valid(arguments) then compact(arguments) else "{}"
    }

    /** Compacting keeps JSON valid and is done once it was done. */
    ghost predicate Lawful() {
      && (forall s :: valid(s) ==> valid(compact(s)) && compact(compact(s)) == compact(s))
      && valid("{}") && compact("{}") == "{}"
    }
  }

  // ---------------------------------------------------------------- requests

  function UseBlock(json: Json, tc: ToolCall): Block {
    ToolUse(tc.id, tc.name, Some(json.Normal(tc.arguments)))
  }

  function UseBlocks(json: Json, calls: seq<ToolCall>): seq<Block> {
    if calls == [] then [] else [UseBlock(json, calls[0])] + UseBlocks(json, calls[1..])
  }

  lemma {:induction false} UseBlocksSnoc(json: Json, calls: seq<ToolCall>, tc: ToolCall)
    ensures UseBlocks(json, calls + [tc]) == UseBlocks(json, calls) + [UseBlock(json, tc)]
  {
    if calls == [] {
      assert calls + [tc] == [tc] && [tc][1..] == [];
    } else {
      assert (calls + [tc])[1..] == calls[1..] + [tc];
      UseBlocksSnoc(json, calls[1..], tc);
    }
  }

  /** `convertMessage`. */
  function Convert(json: Json, m: ChatMessage): ApiMessage {
    if m.role == "tool" then ApiMessage("user", [ToolResult(m.toolCallID, m.content)])
    else if m.toolCalls != [] then
      ApiMessage("assistant", (if m.content != "" then [Text(m.content)] else []) + UseBlocks(json, m.toolCalls))
    else ApiMessage(m.role, [Text(m.content)])
  }

  method ConvertMessage(json: Json, m: ChatMessage) returns (r: ApiMessage)
    ensures r == Convert(json, m)
  {
    if m.role == "tool" { return ApiMessage("user", [ToolResult(m.toolCallID, m.content)]); }
    if |m.toolCalls| == 0 { return ApiMessage(m.role, [Text(m.content)]); }
    var blocks: seq<Block> := [];
    if m.content != "" { blocks := blocks + [Text(m.content)]; }
    ghost var head := blocks;
    for i := 0 to |m.toolCalls|
      invariant blocks == head + UseBlocks(json, m.toolCalls[..i])
    {
      var tc := m.toolCalls[i];
      assert m.toolCalls[..i + 1] == m.toolCalls[..i] + [tc];
      UseBlocksSnoc(json, m.toolCalls[..i], tc);
      var inputRaw := tc.arguments;
      if json.valid(inputRaw) { inputRaw := json.compact(inputRaw); } else { inputRaw := "{}"; }
      blocks := blocks + [ToolUse(tc.id, tc.name, Some(inputRaw))];
    }
    assert m.toolCalls[..|m.toolCalls|] == m.toolCalls;
    r := ApiMessage("assistant", blocks);
  }

  lemma {:induction false} UseBlocksAt(json: Json, calls: seq<ToolCall>)
    ensures |UseBlocks(json, calls)| == |calls|
    ensures forall i :: 0 <= i < |calls| ==> UseBlocks(json, calls)[i] == UseBlock(json, calls[i])
  {
    hide UseBlock;
    if calls == [] {
    } else {
      UseBlocksAt(json, calls[1..]);
    }
  }

  lemma BehindText(head: seq<Block>, blocks: seq<Block>, i: nat)
    requires i < |blocks|
    ensures (head + blocks)[|head| + i] == blocks[i]
  {
  }

  lemma CallIsWritten(json: Json, m: ChatMessage, i: nat)
    requires m.role != "tool" && i < |m.toolCalls|
    ensures var tc, n := m.toolCalls[i], if m.content == "" then 0 else 1;
            && |Convert(json, m).blocks| == n + |m.toolCalls|
            && Convert(json, m).blocks[n + i] ==
               ToolUse(tc.id, tc.name, Some(if json.valid(tc.arguments) then json.compact(tc.arguments) else "{}"))
  {
    UseBlocksAt(json, m.toolCalls);
    hide UseBlocks;
    BehindText(if m.content != "" then [Text(m.content)] else [], UseBlocks(json, m.toolCalls), i);
  }

  /** What is written for a message: a tool result from the user, the text and the calls of the assistant in
      order with arguments that are no JSON replaced by an empty object, or one text in the message's role. */
  lemma MessageIsWritten(json: Json, m: ChatMessage)
    ensures m.role == "tool" ==> Convert(json, m) == ApiMessage("user", [ToolResult(m.toolCallID, m.content)])
    ensures m.role != "tool" && m.toolCalls == [] ==> Convert(json, m) == ApiMessage(m.role, [Text(m.content)])
    ensures m.role != "tool" && m.toolCalls != [] ==>
              var n := if m.content == "" then 0 else 1;
              && Convert(json, m).role == "assistant" && |Convert(json, m).blocks| == n + |m.toolCalls|
              && (n == 1 ==> Convert(json, m).blocks[0] == Text(m.content))
              && forall i :: 0 <= i < |m.toolCalls| ==>
                               var tc := m.toolCalls[i];
                               var arguments := if json.valid(tc.arguments) then json.compact(tc.arguments) else "{}";
                               Convert(json, m).blocks[n + i] == ToolUse(tc.id, tc.name, Some(arguments))
  {
    if m.role != "tool" && m.toolCalls != [] {
      CallIsWritten(json, m, 0);
      assert m.content != "" ==> Convert(json, m).blocks[0] == Text(m.content);
      assert Convert(json, m).role == "assistant";
      hide Convert;
      forall i | 0 <= i < |m.toolCalls|
        ensures var tc, n := m.toolCalls[i], if m.content == "" then 0 else 1;
                Convert(json, m).blocks[n + i] ==
                ToolUse(tc.id, tc.name, Some(if json.valid(tc.arguments) then json.compact(tc.arguments) else "{}"))
      {
        CallIsWritten(json, m, i);
      }
    }
  }

  function NonSystem(ms: seq<ChatMessage>): seq<ChatMessage> {
    if ms == [] then []
    else (if ms[0].role == "system" then [] else [ms[0]]) + NonSystem(ms[1..])
  }

  function ConvertAll(json: Json, ms: seq<ChatMessage>): seq<ApiMessage> {
    if ms == [] then [] else [Convert(json, ms[0])] + ConvertAll(json, ms[1..])
  }

  /** The first text that is not empty among `system` and the system messages, in order. */
  function SystemText(system: string, ms: seq<ChatMessage>): string
    decreases |ms|
  {
    if system != "" || ms == [] then system
    else SystemText(if ms[0].role == "system" then ms[0].content else "", ms[1..])
  }

  datatype MessagesRequest = MessagesRequest(maxTokens: int, system: string, messages: seq<ApiMessage>)

  /** `buildRequest`, without the tool list and the model name, which are copied. */
  method BuildRequest(json: Json, messages: seq<ChatMessage>, maxTokens: int, systemMsg: string)
    returns (req: MessagesRequest)
    ensures req.maxTokens == if maxTokens == 0 then 4096 else maxTokens
    ensures req.messages == ConvertAll(json, NonSystem(messages))
    ensures req.system == SystemText(systemMsg, messages)
  {
    var system := systemMsg;
    var out: seq<ApiMessage> := [];
    for i := 0 to |messages|
      invariant out + ConvertAll(json, NonSystem(messages[i..])) == ConvertAll(json, NonSystem(messages))
      invariant SystemText(system, messages[i..]) == SystemText(systemMsg, messages)
    {
      var m := messages[i];
      RequestStep(json, messages[i..], system, out);
      assert messages[i..][1..] == messages[i + 1..];
      if m.role == "system" {
        if system == "" { system := m.content; }
        continue;
      }
      var msg := ConvertMessage(json, m);
      out := out + [msg];
    }
    assert out + [] == out;
    req := MessagesRequest(if maxTokens == 0 then 4096 else maxTokens, system, out);
  }

  lemma RequestStep(json: Json, ms: seq<ChatMessage>, system: string, out: seq<ApiMessage>)
    requires ms != []
    ensures out + ConvertAll(json, NonSystem(ms)) ==
            (if ms[0].role == "system" then out else out + [Convert(json, ms[0])])
            + ConvertAll(json, NonSystem(ms[1..]))
    ensures SystemText(system, ms) ==
            SystemText(if system == "" && ms[0].role == "system" then ms[0].content else system, ms[1..])
  {
    hide Convert;
    var rest := NonSystem(ms[1..]);
    if ms[0].role == "system" {
      assert NonSystem(ms) == [] + rest == rest;
    } else {
      assert NonSystem(ms)[1..] == rest;
      Assoc(out, [Convert(json, ms[0])], ConvertAll(json, rest));
    }
  }

  lemma {:induction false} NonSystemConcat(a: seq<ChatMessage>, b: seq<ChatMessage>)
    ensures NonSystem(a + b) == NonSystem(a) + NonSystem(b)
  {
    if a == [] {
      assert a + b == b && [] + NonSystem(b) == NonSystem(b);
    } else {
      assert (a + b)[0] == a[0] && (a + b)[1..] == a[1..] + b;
      NonSystemConcat(a[1..], b);
      Assoc(if a[0].role == "system" then [] else [a[0]], NonSystem(a[1..]), NonSystem(b));
    }
  }

  lemma {:induction false} ConvertAllConcat(json: Json, a: seq<ChatMessage>, b: seq<ChatMessage>)
    ensures ConvertAll(json, a + b) == ConvertAll(json, a) + ConvertAll(json, b)
  {
    hide Convert;
    if a == [] {
      assert a + b == b && [] + ConvertAll(json, b) == ConvertAll(json, b);
    } else {
      assert (a + b)[0] == a[0] && (a + b)[1..] == a[1..] + b;
      ConvertAllConcat(json, a[1..], b);
      Assoc([Convert(json, a[0])], ConvertAll(json, a[1..]), ConvertAll(json, b));
    }
  }

  lemma ConvertOne(json: Json, m: ChatMessage)
    ensures ConvertAll(json, NonSystem([m])) == if m.role == "system" then [] else [Convert(json, m)]
  {
    hide Convert;
    assert [m][1..] == [] && [m][0] == m;
    assert NonSystem([m]) == if m.role == "system" then [] else [m];
  }

  /** Wherever a message stands, it reaches the request exactly once and at its place, unless it is a
      system message. */
  lemma RequestKeepsMessage(json: Json, a: seq<ChatMessage>, m: ChatMessage, b: seq<ChatMessage>)
    ensures ConvertAll(json, NonSystem(a + [m] + b)) ==
            ConvertAll(json, NonSystem(a))
            + (if m.role == "system" then [] else [Convert(json, m)])
            + ConvertAll(json, NonSystem(b))
  {
    hide *;
    NonSystemConcat(a + [m], b);
    NonSystemConcat(a, [m]);
    ConvertAllConcat(json, NonSystem(a + [m]), NonSystem(b));
    ConvertAllConcat(json, NonSystem(a), NonSystem([m]));
    ConvertOne(json, m);
  }

  predicate Speaks(m: ChatMessage) { m.role == "system" && m.content != "" }

  /** The caller's system text is used if there is one, else that of the first system message that
      says anything, and none if no message does. */
  lemma {:induction false} SystemTextIsFirst(system: string, ms: seq<ChatMessage>, i: nat)
    requires i <= |ms| && (forall j :: 0 <= j < i ==> !Speaks(ms[j])) && (i < |ms| ==> Speaks(ms[i]))
    ensures SystemText(system, ms) == if system != "" then system else if i < |ms| then ms[i].content else ""
  {
    if system != "" || i == 0 {
    } else {
      assert !Speaks(ms[0]);
      SystemTextIsFirst("", ms[1..], i - 1);
    }
  }

  // ---------------------------------------------------------------- responses

  function MapStopReason(r: string): string {
    if r == "end_turn" then "stop"
    else if r == "tool_use" then "tool_calls"
    else if r == "max_tokens" then "length"
    else r
  }

  /** The common finish reason `f` that stands for Anthropic's stop reason `r`; reasons without a common
      name keep theirs. */
  predicate IsFinish(r: string, f: string) {
    || (r == "end_turn" && f == "stop") || (r == "tool_use" && f == "tool_calls")
    || (r == "max_tokens" && f == "length")
    || (r != "end_turn" && r != "tool_use" && r != "max_tokens" && f == r)
  }

  lemma MapsToFinish(r: string, f: string)
    ensures f == MapStopReason(r) <==> IsFinish(r, f)
    ensures f == "" && IsFinish(r, f) ==> r == ""
  {
  }

  function TextOf(blocks: seq<Block>): string {
    if blocks == [] then ""
    else (if blocks[0].Text? then blocks[0].text else "") + TextOf(blocks[1..])
  }

  function CallOf(b: Block): ToolCall
    requires b.ToolUse?
  {
    ToolCall(b.id, "function", b.name, if b.input.Some? then b.input.value else "{}")
  }

  function CallsOf(blocks: seq<Block>): seq<ToolCall> {
    if blocks == [] then []
    else (if blocks[0].ToolUse? then [CallOf(blocks[0])] else []) + CallsOf(blocks[1..])
  }

  lemma {:induction false} ResponseSnoc(blocks: seq<Block>, b: Block)
    ensures TextOf(blocks + [b]) == TextOf(blocks) + if b.Text? then b.text else ""
    ensures CallsOf(blocks + [b]) == CallsOf(blocks) + if b.ToolUse? then [CallOf(b)] else []
  {
    if blocks == [] {
      assert blocks + [b] == [b] && [b][1..] == [];
    } else {
      assert (blocks + [b])[0] == blocks[0] && (blocks + [b])[1..] == blocks[1..] + [b];
      ResponseSnoc(blocks[1..], b);
    }
  }

  /** `convertResponse`, without model name and token counts. */
  method ConvertResponse(blocks: seq<Block>, stopReason: string) returns (r: ChatResponse)
    ensures r == ChatResponse(TextOf(blocks), CallsOf(blocks), r.finishReason) && IsFinish(stopReason, r.finishReason)
  {
    var content := "";
    var calls: seq<ToolCall> := [];
    for i := 0 to |blocks|
      invariant content == TextOf(blocks[..i]) && calls == CallsOf(blocks[..i])
    {
      var b := blocks[i];
      assert blocks[..i + 1] == blocks[..i] + [b];
      ResponseSnoc(blocks[..i], b);
      match b {
        case Text(t) => content := content + t;
        case ToolUse(id, name, input) =>
          calls := calls + [ToolCall(id, "function", name, if input.Some? then input.value else "{}")];
        case _ =>
      }
    }
    assert blocks[..|blocks|] == blocks;
    MapsToFinish(stopReason, MapStopReason(stopReason));
    r := ChatResponse(content, calls, MapStopReason(stopReason));
  }

  lemma {:induction false} ResponseConcat(a: seq<Block>, b: seq<Block>)
    ensures TextOf(a + b) == TextOf(a) + TextOf(b) && CallsOf(a + b) == CallsOf(a) + CallsOf(b)
  {
    if a == [] {
      assert a + b == b && "" + TextOf(b) == TextOf(b) && [] + CallsOf(b) == CallsOf(b);
    } else {
      assert (a + b)[0] == a[0] && (a + b)[1..] == a[1..] + b;
      ResponseConcat(a[1..], b);
      Assoc(if a[0].Text? then a[0].text else "", TextOf(a[1..]), TextOf(b));
      Assoc(if a[0].ToolUse? then [CallOf(a[0])] else [], CallsOf(a[1..]), CallsOf(b));
    }
  }

  /** Wherever a tool call stands in a response, it becomes a function call with its id, its name and its
      input at its place; a text goes to its place in the content; other blocks leave no trace. */
  lemma ResponseKeepsBlock(a: seq<Block>, c: Block, b: seq<Block>)
    ensures TextOf(a + [c] + b) == TextOf(a) + (match c case Text(t) => t case _ => "") + TextOf(b)
    ensures CallsOf(a + [c] + b) ==
            CallsOf(a) + (match c
                          case ToolUse(id, name, None) => [ToolCall(id, "function", name, "{}")]
                          case ToolUse(id, name, Some(input)) => [ToolCall(id, "function", name, input)]
                          case _ => []) + CallsOf(b)
  {
    ResponseConcat(a + [c], b);
    ResponseSnoc(a, c);
  }

  // ---------------------------------------------------------------- conversions undo each other

  function NormalCall(json: Json, tc: ToolCall): ToolCall {
    ToolCall(tc.id, "function", tc.name, json.Normal(tc.arguments))
  }

  function NormalCalls(json: Json, calls: seq<ToolCall>): seq<ToolCall> {
    if calls == [] then [] else [NormalCall(json, calls[0])] + NormalCalls(json, calls[1..])
  }

  lemma {:induction false} ReadUseBlocks(json: Json, calls: seq<ToolCall>)
    ensures CallsOf(UseBlocks(json, calls)) == NormalCalls(json, calls) && TextOf(UseBlocks(json, calls)) == ""
  {
    if calls == [] {
    } else {
      ReadUseBlocks(json, calls[1..]);
      assert UseBlocks(json, calls)[1..] == UseBlocks(json, calls[1..]);
    }
  }

  /** A message read back from the blocks written for it. */
  function ReadMessage(m: ApiMessage): ChatMessage {
    if m.role == "user" && |m.blocks| == 1 && m.blocks[0].ToolResult? then
      ChatMessage("tool", m.blocks[0].content, m.blocks[0].toolUseID, [])
    else ChatMessage(m.role, TextOf(m.blocks), "", CallsOf(m.blocks))
  }

  /** What the blocks can express of a message: a tool result makes no calls, only the assistant does,
      and only a tool result answers a call. */
  function NormalMessage(json: Json, m: ChatMessage): ChatMessage {
    if m.role == "tool" then ChatMessage("tool", m.content, m.toolCallID, [])
    else ChatMessage(if m.toolCalls != [] then "assistant" else m.role, m.content, "", NormalCalls(json, m.toolCalls))
  }

  /** Reading back the blocks written for a message recovers it up to normal form: its role, its text
      and all its tool calls, in order. */
  lemma MessageRoundTrip(json: Json, m: ChatMessage)
    ensures ReadMessage(Convert(json, m)) == NormalMessage(json, m)
  {
    hide UseBlocks, NormalCalls;
    var blocks := Convert(json, m).blocks;
    ReadUseBlocks(json, m.toolCalls);
    if m.role == "tool" {
    } else if m.toolCalls == [] {
      TextFirst(blocks);
      assert blocks[1..] == [];
      assert NormalCalls(json, []) == [] by { NoCalls(json); }
    } else {
      FirstIsUse(json, m.toolCalls);
      if m.content != "" {
        TextFirst(blocks);
        assert blocks[1..] == UseBlocks(json, m.toolCalls);
      } else {
        assert blocks == UseBlocks(json, m.toolCalls);
      }
    }
  }

  /** The tool calls of a message arrive in order, as function calls with their ids and names; arguments
      that are no JSON are replaced by an empty object. */
  lemma CallsArrive(json: Json, m: ChatMessage)
    ensures var calls := ReadMessage(Convert(json, m)).toolCalls;
            && |calls| == (if m.role == "tool" then 0 else |m.toolCalls|)
            && forall i :: 0 <= i < |calls| ==>
                             && calls[i].id == m.toolCalls[i].id && calls[i].name == m.toolCalls[i].name
                             && calls[i].kind == "function"
                             && calls[i].arguments == if json.valid(m.toolCalls[i].arguments)
                                                      then json.compact(m.toolCalls[i].arguments) else "{}"
  {
    MessageRoundTrip(json, m);
    hide Convert, ReadMessage;
    NormalCallsAt(json, m.toolCalls);
  }

  lemma {:induction false} NormalCallsAt(json: Json, calls: seq<ToolCall>)
    ensures |NormalCalls(json, calls)| == |calls|
    ensures forall i :: 0 <= i < |calls| ==> NormalCalls(json, calls)[i] == NormalCall(json, calls[i])
  {
    hide NormalCall;
    if calls == [] {
    } else {
      NormalCallsAt(json, calls[1..]);
    }
  }

  lemma FirstIsUse(json: Json, calls: seq<ToolCall>)
    requires calls != []
    ensures UseBlocks(json, calls) != [] && UseBlocks(json, calls)[0].ToolUse?
  {
  }

  /** Normalising changes nothing of what is sent, and normalising twice is normalising once. */
  lemma NormalMessageIsEquivalent(json: Json, m: ChatMessage)
    requires json.Lawful()
    ensures Convert(json, NormalMessage(json, m)) == Convert(json, m)
    ensures NormalMessage(json, NormalMessage(json, m)) == NormalMessage(json, m)
  {
    hide UseBlocks, NormalCalls;
    NormalCallsSendTheSame(json, m.toolCalls);
    NormalisingIsIdempotent(json, m.toolCalls);
    NoCalls(json);
  }

  lemma {:induction false} NormalCallsSendTheSame(json: Json, calls: seq<ToolCall>)
    requires json.Lawful()
    ensures UseBlocks(json, NormalCalls(json, calls)) == UseBlocks(json, calls)
    ensures NormalCalls(json, calls) == [] <==> calls == []
  {
    if calls == [] {
    } else {
      NormalCallsSendTheSame(json, calls[1..]);
      assert NormalCalls(json, calls)[1..] == NormalCalls(json, calls[1..]);
    }
  }

  lemma {:induction false} NormalisingIsIdempotent(json: Json, calls: seq<ToolCall>)
    requires json.Lawful()
    ensures NormalCalls(json, NormalCalls(json, calls)) == NormalCalls(json, calls)
  {
    if calls == [] {
    } else {
      NormalisingIsIdempotent(json, calls[1..]);
      assert NormalCalls(json, calls)[1..] == NormalCalls(json, calls[1..]);
    }
  }

  /** A tool call whose input is already as `Marshal` writes it. */
  predicate NormalUse(json: Json, b: Block) {
    b.ToolUse? && b.input.Some? && json.Normal(b.input.value) == b.input.value
  }

  predicate NormalUses(json: Json, blocks: seq<Block>) {
    forall i :: 0 <= i < |blocks| ==> NormalUse(json, blocks[i])
  }

  /** A response that survives being sent back: one text alone, or tool calls with at most one text,
      not empty, in front of them. */
  predicate Replayable(json: Json, blocks: seq<Block>) {
    || (|blocks| == 1 && blocks[0].Text?)
    || (blocks != [] && NormalUses(json, blocks))
    || (|blocks| > 1 && blocks[0].Text? && blocks[0].text != "" && NormalUses(json, blocks[1..]))
  }

  /** The message a caller builds from a response to continue the conversation. */
  function Reply(blocks: seq<Block>): ChatMessage {
    ChatMessage("assistant", TextOf(blocks), "", CallsOf(blocks))
  }

  lemma NormalUseSurvives(json: Json, b: Block)
    requires NormalUse(json, b)
    ensures UseBlock(json, CallOf(b)) == b
  {
    hide TextOf, CallsOf, UseBlocks;
  }

  lemma UnfoldUses(json: Json, blocks: seq<Block>)
    requires blocks != [] && NormalUses(json, blocks)
    ensures NormalUse(json, blocks[0]) && NormalUses(json, blocks[1..])
    ensures CallsOf(blocks) == [CallOf(blocks[0])] + CallsOf(blocks[1..])
    ensures TextOf(blocks) == TextOf(blocks[1..])
  {
    hide NormalUse;
    assert NormalUse(json, blocks[0]);
    assert blocks[0].ToolUse? by { UseIsUse(json, blocks[0]); }
    assert "" + TextOf(blocks[1..]) == TextOf(blocks[1..]);
  }

  lemma UseIsUse(json: Json, b: Block)
    ensures NormalUse(json, b) ==> b.ToolUse?
  {
  }

  lemma {:induction false} UsesSurvive(json: Json, blocks: seq<Block>)
    requires NormalUses(json, blocks)
    ensures UseBlocks(json, CallsOf(blocks)) == blocks && TextOf(blocks) == "" && |CallsOf(blocks)| == |blocks|
  {
    hide NormalUses, NormalUse, UseBlock, UseBlocks;
    if blocks == [] {
      assert UseBlocks(json, []) == [] by { NoCalls(json); }
    } else {
      UnfoldUses(json, blocks);
      NormalUseSurvives(json, blocks[0]);
      UsesSurvive(json, blocks[1..]);
      UnfoldCalls(json, CallOf(blocks[0]), CallsOf(blocks[1..]));
      assert blocks == [blocks[0]] + blocks[1..];
    }
  }

  lemma NoCalls(json: Json)
    ensures UseBlocks(json, []) == [] && NormalCalls(json, []) == []
  {
  }

  lemma UnfoldCalls(json: Json, tc: ToolCall, rest: seq<ToolCall>)
    ensures UseBlocks(json, [tc] + rest) == [UseBlock(json, tc)] + UseBlocks(json, rest)
  {
    hide UseBlock;
    var calls := [tc] + rest;
    assert calls[0] == tc && calls[1..] == rest;
  }

  lemma {:induction false} UseBlocksAreNormal(json: Json, calls: seq<ToolCall>)
    requires json.Lawful()
    ensures NormalUses(json, UseBlocks(json, calls)) && |UseBlocks(json, calls)| == |calls|
  {
    if calls == [] {
    } else {
      UseBlocksAreNormal(json, calls[1..]);
      var b := UseBlocks(json, calls);
      forall i | 0 <= i < |b| ensures NormalUse(json, b[i]) {
        if i > 0 { assert b[i] == UseBlocks(json, calls[1..])[i - 1]; }
      }
    }
  }

  /** Sending a response back gives the blocks that came exactly when it is replayable; otherwise texts
      are merged and moved in front of the tool calls. */
  lemma ResponseRoundTrip(json: Json, blocks: seq<Block>)
    requires json.Lawful()
    ensures Convert(json, Reply(blocks)).blocks == blocks <==> Replayable(json, blocks)
  {
    var m := Reply(blocks);
    UseBlocksAreNormal(json, m.toolCalls);
    var out := Convert(json, m).blocks;
    assert Replayable(json, out) by {
      if m.toolCalls != [] && m.content != "" { assert out[1..] == UseBlocks(json, m.toolCalls); }
      else if m.toolCalls != [] { assert out == UseBlocks(json, m.toolCalls); }
    }
    if Replayable(json, blocks) { ReplayableSurvives(json, blocks); }
  }

  lemma ReplayableSurvives(json: Json, blocks: seq<Block>)
    requires Replayable(json, blocks)
    ensures Convert(json, Reply(blocks)).blocks == blocks
  {
    hide NormalUses, UseBlocks;
    if |blocks| == 1 && blocks[0].Text? {
      TextFirst(blocks);
      assert blocks[1..] == [] && blocks == [blocks[0]];
    } else if NormalUses(json, blocks) {
      UsesSurvive(json, blocks);
      assert Convert(json, Reply(blocks)).blocks == [] + blocks == blocks;
    } else {
      UsesSurvive(json, blocks[1..]);
      TextFirst(blocks);
      assert blocks == [blocks[0]] + blocks[1..];
    }
  }

  lemma TextFirst(blocks: seq<Block>)
    requires blocks != [] && blocks[0].Text?
    ensures CallsOf(blocks) == CallsOf(blocks[1..])
    ensures TextOf(blocks[1..]) == "" ==> TextOf(blocks) == blocks[0].text
  {
    assert [] + CallsOf(blocks[1..]) == CallsOf(blocks[1..]);
    assert blocks[0].text + "" == blocks[0].text;
  }

  /** Two texts come back as one. */
  lemma TwoTextsAreMerged(json: Json, a: string, b: string)
    ensures Convert(json, Reply([Text(a), Text(b)])).blocks == [Text(a + b)] != [Text(a), Text(b)]
  {
    var blocks := [Text(a), Text(b)];
    assert blocks[1..] == [Text(b)] && [Text(b)][1..] == [];
    assert TextOf([Text(b)]) == b + "" == b && CallsOf([Text(b)]) == [];
    TextFirst(blocks);
  }

  // ---------------------------------------------------------------- streaming

  datatype Delta = Delta(kind: string, text: string, partialJson: string, stopReason: string)

  /** A line of the event stream: no data (blank lines, `event:` lines), data that is not an event, or
      an event. */
  datatype Line = NoData | BadData | Event(kind: string, delta: Option<Delta>)

  datatype Chunk = Chunk(delta: string, toolArguments: Option<string>, finishReason: string, error: bool)

  const ERROR_CHUNK := Chunk("", None, "", true)

  /** The chunk an event sends, if any. */
  function ChunkOf(e: Line): seq<Chunk>
    requires e.Event?
  {
    if e.kind == "content_block_delta" && e.delta.Some? then
      var d := e.delta.value;
      [Chunk(if d.kind == "text_delta" then d.text else "",
             if d.kind == "input_json_delta" then Some(d.partialJson) else None, "", false)]
    else if e.kind == "message_delta" && e.delta.Some? && e.delta.value.stopReason != "" then
      [Chunk("", None, MapStopReason(e.delta.value.stopReason), false)]
    else []
  }

  predicate IsStop(line: Line) { line.Event? && line.kind == "message_stop" }

  function Chunks(lines: seq<Line>, readError: bool): seq<Chunk> {
    if lines == [] then if readError then [ERROR_CHUNK] else []
    else
      match lines[0]
      case NoData => Chunks(lines[1..], readError)
      case BadData => [ERROR_CHUNK]
      case Event(kind, _) => if kind == "message_stop" then [] else ChunkOf(lines[0]) + Chunks(lines[1..], readError)
  }

  /** The goroutine of `ChatStream`; `chunks` is what it sends before it closes the channel. */
  method ChatStream(lines: seq<Line>, readError: bool) returns (chunks: seq<Chunk>)
    ensures chunks == Chunks(lines, readError)
  {
    chunks := [];
    assert lines[0..] == lines && lines[|lines|..] == [];
    for i := 0 to |lines|
      invariant chunks + Chunks(lines[i..], readError) == Chunks(lines, readError)
    {
      var line := lines[i];
      ChunksStep(lines, i, readError, chunks);
      hide Chunks;
      match line {
        case NoData => continue;
        case BadData =>
          return chunks + [ERROR_CHUNK];
        case Event(kind, delta) =>
          if kind == "content_block_delta" {
            if delta.None? { continue; }
            var chunk := Chunk("", None, "", false);
            if delta.value.kind == "text_delta" {
              chunk := chunk.(delta := delta.value.text);
            } else if delta.value.kind == "input_json_delta" {
              chunk := chunk.(toolArguments := Some(delta.value.partialJson));
            }
            chunks := chunks + [chunk];
          } else if kind == "message_delta" {
            if delta.Some? && delta.value.stopReason != "" {
              chunks := chunks + [Chunk("", None, MapStopReason(delta.value.stopReason), false)];
            }
          } else if kind == "message_stop" {
            return chunks;
          }
      }
    }
    if readError { chunks := chunks + [ERROR_CHUNK]; }
  }

  lemma ChunksStep(lines: seq<Line>, i: nat, readError: bool, done: seq<Chunk>)
    requires i < |lines|
    ensures done + Chunks(lines[i..], readError) ==
            if lines[i].BadData? then done + [ERROR_CHUNK]
            else if IsStop(lines[i]) then done
            else (if lines[i].Event? then done + ChunkOf(lines[i]) else done) + Chunks(lines[i + 1..], readError)
    ensures done + [] == done
  {
    hide ChunkOf;
    assert lines[i..][0] == lines[i] && lines[i..][1..] == lines[i + 1..];
    if lines[i].Event? { Assoc(done, ChunkOf(lines[i]), Chunks(lines[i + 1..], readError)); }
  }

  function DeltaText(chunks: seq<Chunk>): string {
    if chunks == [] then "" else chunks[0].delta + DeltaText(chunks[1..])
  }

  function ArgumentText(chunks: seq<Chunk>): string {
    if chunks == [] then ""
    else (if chunks[0].toolArguments.Some? then chunks[0].toolArguments.value else "") + ArgumentText(chunks[1..])
  }

  function FinishReasons(chunks: seq<Chunk>): seq<string> {
    if chunks == [] then []
    else (if chunks[0].finishReason != "" then [chunks[0].finishReason] else []) + FinishReasons(chunks[1..])
  }

  /** Nothing left to stream of a block. */
  predicate Spent(b: Block) {
    match b
    case Text(t) => t == ""
    case ToolUse(_, _, input) => input.None? || input.value == ""
    case _ => true
  }

  /** A tool call without the first `n` characters of its input. */
  function CutInput(b: Block, n: nat): Block
    requires b.ToolUse? && b.input.Some? && n <= |b.input.value|
  {
    b.(input := Some(b.input.value[n..]))
  }

  /** `lines` stream the response `blocks`: each block's text or input arrives cut into deltas in any
      way, a `content_block_stop` ends it, the stop reason comes in a `message_delta`, and blank lines,
      pings and unknown events may stand anywhere before `message_stop`. */
  predicate Streams(lines: seq<Line>, blocks: seq<Block>, stopReason: string)
    decreases |lines|
  {
    lines != [] &&
    match lines[0]
    case NoData => Streams(lines[1..], blocks, stopReason)
    case BadData => false
    case Event(kind, delta) =>
      if kind == "message_stop" then blocks == [] && stopReason == ""
      else if kind == "content_block_stop" then
        blocks != [] && Spent(blocks[0]) && Streams(lines[1..], blocks[1..], stopReason)
      else if kind == "message_delta" && delta.Some? && delta.value.stopReason != "" then
        delta.value.stopReason == stopReason && Streams(lines[1..], blocks, "")
      else if kind == "content_block_delta" && delta.Some? && delta.value.kind == "text_delta" then
        && blocks != [] && blocks[0].Text? && delta.value.text <= blocks[0].text
        && Streams(lines[1..], [Text(blocks[0].text[|delta.value.text|..])] + blocks[1..], stopReason)
      else if kind == "content_block_delta" && delta.Some? && delta.value.kind == "input_json_delta" then
        && blocks != [] && blocks[0].ToolUse? && blocks[0].input.Some?
        && delta.value.partialJson <= blocks[0].input.value
        && Streams(lines[1..], [CutInput(blocks[0], |delta.value.partialJson|)] + blocks[1..], stopReason)
      else Streams(lines[1..], blocks, stopReason)
  }

  /** The inputs of all tool calls, one after the other. */
  function InputOf(blocks: seq<Block>): string {
    if blocks == [] then ""
    else (if blocks[0].ToolUse? && blocks[0].input.Some? then blocks[0].input.value else "") + InputOf(blocks[1..])
  }

  /** The chunks of a stream say what `convertResponse` makes of the blocks and the stop reason. */
  ghost predicate Agrees(chunks: seq<Chunk>, blocks: seq<Block>, stopReason: string) {
    && DeltaText(chunks) == TextOf(blocks)
    && ArgumentText(chunks) == InputOf(blocks)
    && |FinishReasons(chunks)| == (if stopReason == "" then 0 else 1)
    && (stopReason != "" ==> IsFinish(stopReason, FinishReasons(chunks)[0]))
    && forall c :: c in chunks ==> !c.error
  }

  /** For a stream that follows the blocks one by one, the deltas spell the content `convertResponse`
      builds, the argument deltas spell the raw inputs of the tool calls, the finish reason is the same
      and no chunk is an error. */
  lemma {:induction false} StreamAgrees(lines: seq<Line>, blocks: seq<Block>, stopReason: string, readError: bool)
    requires Streams(lines, blocks, stopReason)
    ensures Agrees(Chunks(lines, readError), blocks, stopReason)
    decreases |lines|
  {
    if lines[0].Event? && lines[0].kind != "message_stop" {
      var e, rest := lines[0], Chunks(lines[1..], readError);
      if e.kind == "content_block_stop" {
        StreamAgrees(lines[1..], blocks[1..], stopReason, readError);
        SpentSaysNothing(rest, blocks, stopReason);
      } else if e.kind == "message_delta" && e.delta.Some? && e.delta.value.stopReason != "" {
        StreamAgrees(lines[1..], blocks, "", readError);
        AddFinish(rest, blocks, stopReason);
      } else if e.kind == "content_block_delta" && e.delta.Some? && e.delta.value.kind == "text_delta" {
        var d := e.delta.value.text;
        StreamAgrees(lines[1..], [Text(blocks[0].text[|d|..])] + blocks[1..], stopReason, readError);
        AddText(rest, d, blocks, stopReason);
      } else if e.kind == "content_block_delta" && e.delta.Some? && e.delta.value.kind == "input_json_delta" {
        var d := e.delta.value.partialJson;
        StreamAgrees(lines[1..], [CutInput(blocks[0], |d|)] + blocks[1..], stopReason, readError);
        AddInput(rest, d, blocks, stopReason);
      } else {
        StreamAgrees(lines[1..], blocks, stopReason, readError);
        AddEmpty(rest, blocks, stopReason);
      }
    } else if lines[0].NoData? {
      StreamAgrees(lines[1..], blocks, stopReason, readError);
    }
  }

  lemma ConsChunk(c: Chunk, rest: seq<Chunk>)
    ensures var all := [c] + rest;
            && DeltaText(all) == c.delta + DeltaText(rest)
            && ArgumentText(all) == (if c.toolArguments.Some? then c.toolArguments.value else "") + ArgumentText(rest)
            && FinishReasons(all) == (if c.finishReason != "" then [c.finishReason] else []) + FinishReasons(rest)
            && ((forall x :: x in all ==> !x.error) <==> !c.error && forall x :: x in rest ==> !x.error)
  {
    var all := [c] + rest;
    assert all[0] == c && all[1..] == rest;
    assert forall x :: x in all <==> x == c || x in rest;
  }

  lemma SpentSaysNothing(rest: seq<Chunk>, blocks: seq<Block>, stopReason: string)
    requires blocks != [] && Spent(blocks[0]) && Agrees(rest, blocks[1..], stopReason)
    ensures Agrees([] + rest, blocks, stopReason)
  {
    assert [] + rest == rest;
  }

  lemma AddFinish(rest: seq<Chunk>, blocks: seq<Block>, stopReason: string)
    requires stopReason != "" && Agrees(rest, blocks, "")
    ensures Agrees([Chunk("", None, MapStopReason(stopReason), false)] + rest, blocks, stopReason)
  {
    MapsToFinish(stopReason, MapStopReason(stopReason));
    ConsChunk(Chunk("", None, MapStopReason(stopReason), false), rest);
  }

  lemma AddEmpty(rest: seq<Chunk>, blocks: seq<Block>, stopReason: string)
    requires Agrees(rest, blocks, stopReason)
    ensures Agrees([] + rest, blocks, stopReason)
    ensures Agrees([Chunk("", None, "", false)] + rest, blocks, stopReason)
  {
    assert [] + rest == rest;
    ConsChunk(Chunk("", None, "", false), rest);
  }

  lemma AddText(rest: seq<Chunk>, d: string, blocks: seq<Block>, stopReason: string)
    requires blocks != [] && blocks[0].Text? && d <= blocks[0].text
    requires Agrees(rest, [Text(blocks[0].text[|d|..])] + blocks[1..], stopReason)
    ensures Agrees([Chunk(d, None, "", false)] + rest, blocks, stopReason)
  {
    ConsChunk(Chunk(d, None, "", false), rest);
    var cut := Text(blocks[0].text[|d|..]);
    assert ([cut] + blocks[1..])[1..] == blocks[1..];
    assert blocks[0].text == d + cut.text;
    Assoc(d, cut.text, TextOf(blocks[1..]));
  }

  lemma AddInput(rest: seq<Chunk>, d: string, blocks: seq<Block>, stopReason: string)
    requires blocks != [] && blocks[0].ToolUse? && blocks[0].input.Some? && d <= blocks[0].input.value
    requires Agrees(rest, [CutInput(blocks[0], |d|)] + blocks[1..], stopReason)
    ensures Agrees([Chunk("", Some(d), "", false)] + rest, blocks, stopReason)
  {
    ConsChunk(Chunk("", Some(d), "", false), rest);
    var cut := CutInput(blocks[0], |d|);
    assert ([cut] + blocks[1..])[1..] == blocks[1..];
    assert blocks[0].input.value == d + cut.input.value;
    Assoc(d, cut.input.value, InputOf(blocks[1..]));
  }

  // ---------------------------------------------------------------- streams that do not follow the blocks

  /** `message_stop` comes before any line that is not an event. */
  predicate Closed(lines: seq<Line>) {
    lines != [] && (IsStop(lines[0]) || (!lines[0].BadData? && Closed(lines[1..])))
  }

  predicate IsDelta(line: Line, kind: string) {
    line.Event? && line.kind == "content_block_delta" && line.delta.Some? && line.delta.value.kind == kind
  }

  /** The `text_delta`s before `message_stop` spell `text`; any other events may stand anywhere. */
  predicate TextStreams(lines: seq<Line>, text: string)
    decreases |lines|
  {
    lines != [] &&
    if IsStop(lines[0]) then text == ""
    else if lines[0].BadData? then false
    else if IsDelta(lines[0], "text_delta") then
      var d := lines[0].delta.value.text; d <= text && TextStreams(lines[1..], text[|d|..])
    else TextStreams(lines[1..], text)
  }

  /** The `input_json_delta`s before `message_stop` spell `input`. */
  predicate InputStreams(lines: seq<Line>, input: string)
    decreases |lines|
  {
    lines != [] &&
    if IsStop(lines[0]) then input == ""
    else if lines[0].BadData? then false
    else if IsDelta(lines[0], "input_json_delta") then
      var d := lines[0].delta.value.partialJson; d <= input && InputStreams(lines[1..], input[|d|..])
    else InputStreams(lines[1..], input)
  }

  lemma ChunksBehind(lines: seq<Line>, readError: bool)
    requires lines != [] && !lines[0].BadData? && !IsStop(lines[0])
    ensures var rest := Chunks(lines[1..], readError);
            Chunks(lines, readError) == if lines[0].Event? then ChunkOf(lines[0]) + rest else rest
  {
    hide ChunkOf;
  }

  /** What one event adds to the deltas and to the argument deltas. */
  lemma ChunkAdds(e: Line, rest: seq<Chunk>)
    requires e.Event?
    ensures DeltaText(ChunkOf(e) + rest) ==
            (if IsDelta(e, "text_delta") then e.delta.value.text else "") + DeltaText(rest)
    ensures ArgumentText(ChunkOf(e) + rest) ==
            (if IsDelta(e, "input_json_delta") then e.delta.value.partialJson else "") + ArgumentText(rest)
    ensures forall c :: c in ChunkOf(e) ==> !c.error
  {
    if ChunkOf(e) == [] {
      assert [] + rest == rest;
      assert "" + DeltaText(rest) == DeltaText(rest) && "" + ArgumentText(rest) == ArgumentText(rest);
    } else {
      ConsChunk(ChunkOf(e)[0], rest);
      assert ChunkOf(e) == [ChunkOf(e)[0]];
    }
  }

  lemma FrontIs(d: string, x: string, text: string)
    ensures d + x == text <==> d <= text && x == text[|d|..]
  {
    if d <= text { assert text == d + text[|d|..]; SameFront(d, x, text[|d|..]); }
    if d + x == text { assert text[..|d|] == d; }
  }

  /** Streaming and not streaming agree on the text: for every stream, the deltas of its chunks spell
      `text` and it is closed exactly when its `text_delta`s spell `text`, whatever events are
      interleaved. With the content `convertResponse` builds for `text`, however it is cut. */
  lemma {:induction false} TextAgreesIff(lines: seq<Line>, text: string, readError: bool)
    ensures TextStreams(lines, text) <==> Closed(lines) && DeltaText(Chunks(lines, readError)) == text
    decreases |lines|
  {
    hide ChunkOf;
    if lines == [] || lines[0].BadData? || IsStop(lines[0]) {
    } else {
      var rest := Chunks(lines[1..], readError);
      ChunksBehind(lines, readError);
      hide Chunks;
      var d := if IsDelta(lines[0], "text_delta") then lines[0].delta.value.text else "";
      if lines[0].Event? { ChunkAdds(lines[0], rest); } else { assert d + DeltaText(rest) == DeltaText(rest); }
      FrontIs(d, DeltaText(rest), text);
      if d <= text { TextAgreesIff(lines[1..], text[|d|..], readError); }
      assert text[|""|..] == text;
    }
  }

  /** The same for the argument deltas. */
  lemma {:induction false} InputAgreesIff(lines: seq<Line>, input: string, readError: bool)
    ensures InputStreams(lines, input) <==> Closed(lines) && ArgumentText(Chunks(lines, readError)) == input
    decreases |lines|
  {
    hide ChunkOf;
    if lines == [] || lines[0].BadData? || IsStop(lines[0]) {
    } else {
      var rest := Chunks(lines[1..], readError);
      ChunksBehind(lines, readError);
      hide Chunks;
      var d := if IsDelta(lines[0], "input_json_delta") then lines[0].delta.value.partialJson else "";
      if lines[0].Event? { ChunkAdds(lines[0], rest); } else { assert d + ArgumentText(rest) == ArgumentText(rest); }
      FrontIs(d, ArgumentText(rest), input);
      if d <= input { InputAgreesIff(lines[1..], input[|d|..], readError); }
      assert input[|""|..] == input;
    }
  }

  /** A closed stream sends no error chunk. */
  lemma {:induction false} ClosedHasNoError(lines: seq<Line>, readError: bool)
    requires Closed(lines)
    ensures forall c :: c in Chunks(lines, readError) ==> !c.error
  {
    if IsStop(lines[0]) {
    } else {
      ClosedHasNoError(lines[1..], readError);
      ChunksBehind(lines, readError);
      if lines[0].Event? { ChunkAdds(lines[0], Chunks(lines[1..], readError)); }
    }
  }

  /** Streams that follow the blocks are among them. */
  lemma StreamsSpell(lines: seq<Line>, blocks: seq<Block>, stopReason: string)
    requires Streams(lines, blocks, stopReason)
    ensures TextStreams(lines, TextOf(blocks)) && InputStreams(lines, InputOf(blocks))
  {
    StreamAgrees(lines, blocks, stopReason, false);
    StreamsAreClosed(lines, blocks, stopReason);
    TextAgreesIff(lines, TextOf(blocks), false);
    InputAgreesIff(lines, InputOf(blocks), false);
  }

  lemma {:induction false} StreamsAreClosed(lines: seq<Line>, blocks: seq<Block>, stopReason: string)
    requires Streams(lines, blocks, stopReason)
    ensures Closed(lines)
    decreases |lines|
  {
    if IsStop(lines[0]) {
    } else {
      var b, r := StreamsRest(lines, blocks, stopReason);
      StreamsAreClosed(lines[1..], b, r);
    }
  }

  /** The rest of such a stream follows what is left of the blocks. */
  lemma StreamsRest(lines: seq<Line>, blocks: seq<Block>, stopReason: string) returns (b: seq<Block>, r: string)
    requires Streams(lines, blocks, stopReason) && !IsStop(lines[0])
    ensures !lines[0].BadData? && Streams(lines[1..], b, r)
  {
    b, r := blocks, stopReason;
    if lines[0].Event? {
      var e := lines[0];
      if e.kind == "content_block_stop" {
        b := blocks[1..];
      } else if e.kind == "message_delta" && e.delta.Some? && e.delta.value.stopReason != "" {
        r := "";
      } else if IsDelta(e, "text_delta") {
        b := [Text(blocks[0].text[|e.delta.value.text|..])] + blocks[1..];
      } else if IsDelta(e, "input_json_delta") {
        b := [CutInput(blocks[0], |e.delta.value.partialJson|)] + blocks[1..];
      }
    }
  }

  // ---------------------------------------------------------------- what is sent, and the finish reasons

  /** The stop reasons that come before `message_stop`, in order. */
  function StopReasons(lines: seq<Line>): seq<string> {
    if lines == [] || IsStop(lines[0]) || lines[0].BadData? then []
    else
      var e := lines[0];
      (if e.Event? && e.kind == "message_delta" && e.delta.Some? && e.delta.value.stopReason != ""
      then [e.delta.value.stopReason] else [])
      + StopReasons(lines[1..])
  }

  /** How many events say something before `message_stop`: content deltas of any kind and stop reasons. */
  function Telling(lines: seq<Line>): nat {
    if lines == [] || IsStop(lines[0]) || lines[0].BadData? then 0
    else
      var e := lines[0];
      (if && e.Event? && e.delta.Some?
          && (e.kind == "content_block_delta" || (e.kind == "message_delta" && e.delta.value.stopReason != ""))
      then 1 else 0)
      + Telling(lines[1..])
  }

  ghost predicate Finishes(reasons: seq<string>, finish: seq<string>) {
    |reasons| == |finish| && forall i :: 0 <= i < |reasons| ==> IsFinish(reasons[i], finish[i])
  }

  lemma FinishOf(e: Line, rest: seq<Chunk>)
    requires e.Event? && !IsStop(e)
    ensures FinishReasons(ChunkOf(e) + rest) ==
            (if e.kind == "message_delta" && e.delta.Some? && e.delta.value.stopReason != ""
            then [MapStopReason(e.delta.value.stopReason)] else [])
            + FinishReasons(rest)
  {
    assert e.delta.Some? ==> (MapStopReason(e.delta.value.stopReason) == "" <==> e.delta.value.stopReason == "");
    if ChunkOf(e) == [] {
      assert [] + rest == rest && [] + FinishReasons(rest) == FinishReasons(rest);
    } else {
      ConsChunk(ChunkOf(e)[0], rest);
      assert ChunkOf(e) == [ChunkOf(e)[0]];
    }
  }

  lemma FinishesCons(r: string, reasons: seq<string>, finish: seq<string>)
    requires Finishes(reasons, finish)
    ensures Finishes([r] + reasons, [MapStopReason(r)] + finish) && Finishes([] + reasons, [] + finish)
  {
    MapsToFinish(r, MapStopReason(r));
    hide IsFinish;
  }

  /** Every stream sends the stop reasons it gets, in order and under their common names. */
  lemma {:induction false} FinishesFollow(lines: seq<Line>, readError: bool)
    ensures Finishes(StopReasons(lines), FinishReasons(Chunks(lines, readError)))
  {
    hide ChunkOf, Finishes;
    if lines == [] || lines[0].BadData? || IsStop(lines[0]) {
      assert FinishReasons([ERROR_CHUNK]) == [] && Finishes([], []) by { NoFinish(); }
    } else {
      var e, rest := lines[0], Chunks(lines[1..], readError);
      FinishesFollow(lines[1..], readError);
      ChunksBehind(lines, readError);
      if e.Event? { FinishOf(e, rest); } else { assert [] + FinishReasons(rest) == FinishReasons(rest); }
      FinishesCons(if e.Event? && e.delta.Some? then e.delta.value.stopReason else "",
                   StopReasons(lines[1..]), FinishReasons(rest));
    }
  }

  lemma NoFinish()
    ensures FinishReasons([ERROR_CHUNK]) == [] && Finishes([], [])
  {
    assert [ERROR_CHUNK][1..] == [];
  }

  /** Every stream sends one chunk for each event that says something, and one for an error. */
  lemma {:induction false} OneChunkEach(lines: seq<Line>, readError: bool)
    ensures |Chunks(lines, readError)| == Telling(lines) + if Breaks(lines, readError) then 1 else 0
  {
    if lines == [] || lines[0].BadData? || IsStop(lines[0]) {
    } else {
      OneChunkEach(lines[1..], readError);
      ChunksBehind(lines, readError);
    }
  }

  // ---------------------------------------------------------------- argument deltas and arguments

  /** The arguments of the calls, one behind the other. */
  function ArgumentsOf(calls: seq<ToolCall>): string {
    if calls == [] then "" else calls[0].arguments + ArgumentsOf(calls[1..])
  }

  /** How many tool calls have no input. */
  function MissingInputs(blocks: seq<Block>): nat {
    if blocks == [] then 0
    else (if blocks[0].ToolUse? && blocks[0].input.None? then 1 else 0) + MissingInputs(blocks[1..])
  }

  lemma {:induction false} InputsAreArguments(blocks: seq<Block>)
    ensures |ArgumentsOf(CallsOf(blocks))| == |InputOf(blocks)| + 2 * MissingInputs(blocks)
    ensures MissingInputs(blocks) == 0 ==> ArgumentsOf(CallsOf(blocks)) == InputOf(blocks)
  {
    if blocks == [] {
    } else {
      InputsAreArguments(blocks[1..]);
      var rest := CallsOf(blocks[1..]);
      if blocks[0].ToolUse? {
        assert CallsOf(blocks) == [CallOf(blocks[0])] + rest;
        assert CallsOf(blocks)[0] == CallOf(blocks[0]) && CallsOf(blocks)[1..] == rest;
      } else {
        assert CallsOf(blocks) == [] + rest == rest;
        assert "" + InputOf(blocks[1..]) == InputOf(blocks[1..]);
      }
    }
  }

  /** When the argument deltas spell the raw inputs, they are the arguments of the converted response
      exactly when no tool call lacks its input: `convertResponse` writes `{}` for it. */
  lemma ArgumentsAgreeIff(lines: seq<Line>, blocks: seq<Block>, readError: bool)
    requires InputStreams(lines, InputOf(blocks))
    ensures ArgumentText(Chunks(lines, readError)) == ArgumentsOf(CallsOf(blocks)) <==> MissingInputs(blocks) == 0
  {
    InputAgreesIff(lines, InputOf(blocks), readError);
    InputsAreArguments(blocks);
  }

  /** A tool call whose input is missing has no argument delta, and `{}` in the converted response. */
  lemma MissingInputExample(id: string, name: string, readError: bool)
    ensures var lines := [Event("content_block_stop", None), Event("message_stop", None)];
            var blocks := [ToolUse(id, name, None)];
            && Streams(lines, blocks, "") && ArgumentText(Chunks(lines, readError)) == ""
            && ArgumentsOf(CallsOf(blocks)) == "{}"
  {
    var lines := [Event("content_block_stop", None), Event("message_stop", None)];
    var blocks := [ToolUse(id, name, None)];
    assert lines[1..] == [Event("message_stop", None)] && blocks[1..] == [];
    StreamAgrees(lines, blocks, "", readError);
    assert CallsOf(blocks) == [CallOf(blocks[0])] && CallsOf(blocks)[1..] == [];
    assert "{}" + "" == "{}";
  }

  /** A tool call without arguments streams one empty argument delta: the text agrees, the arguments do
      not. */
  lemma EmptyArgumentsExample(id: string, name: string, readError: bool)
    ensures var stop := Event("message_stop", None);
            var text := Event("content_block_delta", Some(Delta("text_delta", "a", "", "")));
            var input := Event("content_block_delta", Some(Delta("input_json_delta", "", "", "")));
            var lines, blocks := [text, input, stop], [Text("a"), ToolUse(id, name, Some("{}"))];
            && DeltaText(Chunks(lines, readError)) == TextOf(blocks) == "a"
            && ArgumentText(Chunks(lines, readError)) == "" && ArgumentsOf(CallsOf(blocks)) == "{}"
  {
    var stop := Event("message_stop", None);
    var text := Event("content_block_delta", Some(Delta("text_delta", "a", "", "")));
    var input := Event("content_block_delta", Some(Delta("input_json_delta", "", "", "")));
    var use := ToolUse(id, name, Some("{}"));
    var lines, blocks := [text, input, stop], [Text("a"), use];
    assert lines[1..] == [input, stop] && [input, stop][1..] == [stop] && "a"[1..] == "";
    assert TextStreams([stop], "") && InputStreams([stop], "");
    assert TextStreams([input, stop], "") && InputStreams([input, stop], "");
    assert TextStreams(lines, "a") && InputStreams(lines, "");
    TextAgreesIff(lines, "a", readError);
    InputAgreesIff(lines, "", readError);
    assert blocks[1..] == [use] && [use][1..] == [];
    assert CallsOf([use]) == [CallOf(use)] && CallsOf(blocks) == [] + [CallOf(use)] == [CallOf(use)];
    assert [CallOf(use)][1..] == [] && "{}" + "" == "{}" && "a" + "" == "a";
    assert TextOf([use]) == "" + "" == "";
  }

  lemma ErrorStaysLast(front: seq<Chunk>, rest: seq<Chunk>)
    requires forall c :: c in front ==> !c.error
    ensures var all := front + rest;
            && ((forall i :: 0 <= i < |rest| - 1 ==> !rest[i].error) ==>
                forall i :: 0 <= i < |all| - 1 ==> !all[i].error)
            && (all != [] && all[|all| - 1].error <==> rest != [] && rest[|rest| - 1].error)
            && (rest != [] ==> all != [] && all[|all| - 1] == rest[|rest| - 1])
  {
    var all := front + rest;
    assert forall i :: 0 <= i < |all| ==> all[i] == if i < |front| then front[i] else rest[i - |front|];
  }

  /** For every stream, an error chunk is the last one and says nothing else, and there is one exactly when
      a data line is not an event or reading fails before `message_stop`. */
  lemma {:induction false} ErrorChunkIsLast(lines: seq<Line>, readError: bool)
    ensures var chunks := Chunks(lines, readError);
            && (forall i :: 0 <= i < |chunks| - 1 ==> !chunks[i].error)
            && (chunks != [] && chunks[|chunks| - 1].error <==> Breaks(lines, readError))
            && (Breaks(lines, readError) ==> chunks[|chunks| - 1] == Chunk("", None, "", true))
  {
    hide ChunkOf;
    if lines == [] || lines[0].BadData? || IsStop(lines[0]) {
    } else {
      var rest := Chunks(lines[1..], readError);
      ErrorChunkIsLast(lines[1..], readError);
      ChunksBehind(lines, readError);
      hide Chunks;
      if lines[0].Event? {
        ChunkAdds(lines[0], rest);
        ErrorStaysLast(ChunkOf(lines[0]), rest);
      }
    }
  }

  predicate Breaks(lines: seq<Line>, readError: bool) {
    if lines == [] then readError
    else if lines[0].BadData? then true
    else if IsStop(lines[0]) then false
    else Breaks(lines[1..], readError)
  }

  /** Nothing after `message_stop` is looked at. */
  lemma {:induction false} NothingFollowsStop(a: seq<Line>, stop: Line, b: seq<Line>, readError: bool)
    requires IsStop(stop)
    ensures Chunks(a + [stop] + b, readError) == Chunks(a + [stop], false)
  {
    var s, t := a + [stop] + b, a + [stop];
    if a == [] {
      assert s[0] == stop && t[0] == stop;
    } else {
      assert s[0] == a[0] == t[0] && s[1..] == a[1..] + [stop] + b && t[1..] == a[1..] + [stop];
      NothingFollowsStop(a[1..], stop, b, readError);
    }
  }
}
