/** The MCP stdio client (`stdioProtocol` and `executeStdio` in `internal/executor/mcp/executor.go`):
    newline-delimited JSON-RPC 2.0 over an arbitrary server stream, with the handshake of the
    lifecycle section of MCP revision 2025-03-26. */
module McpStdio {
  import opened Strings

  /** Parameters of a request; tool arguments are opaque text. */
  datatype Params =
    | NoParams
    | InitializeParams(protocolVersion: string, clientName: string, clientVersion: string)
    | CallParams(name: string, arguments: string)

  /** Id 0 is left out of the JSON, so a request with id 0 is a notification. */
  datatype Request = Request(id: int, name: string, params: Params)

  datatype RpcError = RpcError(code: int, message: string)

  /** A decoded line. A message without an id decodes to id 0. The client does not look at `name`,
      which is set on requests and notifications that come from the server. */
  datatype Message = Message(id: int, name: Option<string>, result: Option<string>, error: Option<RpcError>)

  /** One line of the server: one that does not decode, such as a message whose id is no integer, or a
      message; and whether the context is done
      when it has been scanned. */
  datatype Event = Event(line: Option<Message>, contextDone: bool)

  /** What is found when the stream ends. */
  datatype End = End(contextDone: bool, readError: bool)

  datatype Failure = WriteFailed | ContextDone | BadLine | ReadFailed | ServerClosed

  datatype Result<T> = Success(value: T) | Error(failure: Failure)

  // ---------------------------------------------------------------- waiting for an id

  /** The scan stops at this line when it waits for `id`. */
  predicate Stops(e: Event, id: int) {
    e.contextDone || e.line.None? || e.line.value.id == id
  }

  /** Index of the first line the scan stops at; the length of the stream if it runs out. */
  function StopAt(events: seq<Event>, id: int): (n: nat)
    ensures n <= |events|
    ensures forall i :: 0 <= i < n ==> !Stops(events[i], id)
    ensures n < |events| ==> Stops(events[n], id)
  {
    if events == [] || Stops(events[0], id) then 0 else 1 + StopAt(events[1..], id)
  }

  function AtEnd(end: End): Failure {
    if end.contextDone then ContextDone else if end.readError then ReadFailed else ServerClosed
  }

  function Answer(events: seq<Event>, end: End, id: int): Result<Message> {
    var n := StopAt(events, id);
    if n == |events| then Error(AtEnd(end))
    else if events[n].contextDone then Error(ContextDone)
    else if events[n].line.None? then Error(BadLine)
    else Success(events[n].line.value)
  }

  function Rest(events: seq<Event>, id: int): seq<Event> {
    var n := StopAt(events, id);
    if n == |events| then [] else events[n + 1..]
  }

  class StdioProtocol {
    const end: End
    /** Whether the n-th write succeeds. */
    const writable: nat -> bool
    var incoming: seq<Event>
    var written: seq<Request>
    var writes: nat
    var nextID: int

    constructor (incoming: seq<Event>, end: End, writable: nat -> bool)
      ensures this.incoming == incoming && this.end == end && this.writable == writable
      ensures written == [] && writes == 0 && nextID == 0
    {
      this.incoming, this.end, this.writable := incoming, end, writable;
      written, writes, nextID := [], 0, 0;
    }

    method Write(request: Request) returns (ok: bool)
      modifies `written, `writes
      ensures ok == writable(old(writes)) && writes == old(writes) + 1
      ensures written == if ok then old(written) + [request] else old(written)
    {
      ok := writable(writes);
      writes := writes + 1;
      if ok { written := written + [request]; }
    }

    /** `request`: count the id up, write, and read lines until one carries the id. */
    method Call(name: string, params: Params) returns (r: Result<Message>)
      modifies this
      ensures nextID == old(nextID) + 1 && writes == old(writes) + 1
      ensures !writable(old(writes)) ==>
                r == Error(WriteFailed) && written == old(written) && incoming == old(incoming)
      ensures writable(old(writes)) ==>
                && written == old(written) + [Request(nextID, name, params)]
                && r == Answer(old(incoming), end, nextID) && incoming == Rest(old(incoming), nextID)
    {
      nextID := nextID + 1;
      var id := nextID;
      var ok := Write(Request(id, name, params));
      if !ok { return Error(WriteFailed); }
      while incoming != []
        invariant nextID == id && writes == old(writes) + 1 && written == old(written) + [Request(id, name, params)]
        invariant Answer(incoming, end, id) == Answer(old(incoming), end, id)
        invariant Rest(incoming, id) == Rest(old(incoming), id)
        decreases |incoming|
      {
        var e := incoming[0];
        StepOver(incoming, end, id);
        incoming := incoming[1..];
        if e.contextDone { return Error(ContextDone); }
        if e.line.None? { return Error(BadLine); }
        if e.line.value.id == id { return Success(e.line.value); }
      }
      r := Error(AtEnd(end));
    }

    /** `notification`. */
    method Notify(name: string) returns (ok: bool)
      modifies `written, `writes
      ensures ok == writable(old(writes)) && writes == old(writes) + 1
      ensures written == if ok then old(written) + [Request(0, name, NoParams)] else old(written)
    {
      ok := Write(Request(0, name, NoParams));
    }
  }

  lemma StepOver(events: seq<Event>, end: End, id: int)
    requires events != []
    ensures Stops(events[0], id) ==> Rest(events, id) == events[1..]
    ensures !Stops(events[0], id) ==>
              Answer(events, end, id) == Answer(events[1..], end, id) && Rest(events, id) == Rest(events[1..], id)
  {
    if !Stops(events[0], id) {
      var n := StopAt(events[1..], id);
      assert StopAt(events, id) == 1 + n;
      if n < |events| - 1 { assert events[1..][n + 1..] == events[n + 2..]; }
    }
  }

  // ---------------------------------------------------------------- the session

  datatype ToolResult = Output(result: Option<string>) | ToolError(error: RpcError)

  datatype Outcome =
    | InitializeFailed(failure: Failure)
    | InitializeRejected(error: RpcError)
    | NotifyFailed
    | CallFailed(failure: Failure)
    | Done(answer: Message)

  /** `resultFromResponse`. */
  function ResultFromResponse(m: Message): ToolResult {
    match m.error
    case Some(e) => ToolError(e)
    case None => Output(m.result)
  }

  const INITIALIZE_PARAMS := InitializeParams("2025-03-26", "agenthub-skill-runtime", "1.0.0")
  const INITIALIZE := Request(1, "initialize", INITIALIZE_PARAMS)
  const INITIALIZED := Request(0, "notifications/initialized", NoParams)

  function ToolsCall(tool: string, arguments: string): Request {
    Request(2, "tools/call", CallParams(tool, arguments))
  }

  function Script(tool: string, arguments: string): seq<Request> {
    [INITIALIZE, INITIALIZED, ToolsCall(tool, arguments)]
  }

  /** The handshake as the client sees it: the initialize request was written and the first message
      that carries its id has no error. */
  predicate Shaken(events: seq<Event>, end: End, writable: nat -> bool) {
    writable(0) && Answer(events, end, 1).Success? && Answer(events, end, 1).value.error.None?
  }

  /** What a session writes: how much of the script it gets through. */
  function Written(events: seq<Event>, end: End, writable: nat -> bool, tool: string, arguments: string): seq<Request> {
    if !writable(0) then []
    else if !Shaken(events, end, writable) || !writable(1) then [INITIALIZE]
    else if !writable(2) then [INITIALIZE, INITIALIZED]
    else Script(tool, arguments)
  }

  function SessionOutcome(events: seq<Event>, end: End, writable: nat -> bool): Outcome {
    if !writable(0) then InitializeFailed(WriteFailed)
    else
      match Answer(events, end, 1)
      case Error(f) => InitializeFailed(f)
      case Success(m) =>
        if m.error.Some? then InitializeRejected(m.error.value)
        else if !writable(1) then NotifyFailed
        else if !writable(2) then CallFailed(WriteFailed)
        else
          match Answer(Rest(events, 1), end, 2)
          case Error(f) => CallFailed(f)
          case Success(answer) => Done(answer)
  }

  /** `executeStdio`, once the child process runs; `result` is what the caller gets unless it gets an error. */
  method ExecuteStdio(p: StdioProtocol, tool: string, arguments: string)
    returns (outcome: Outcome, result: Option<ToolResult>)
    requires p.nextID == 0 && p.writes == 0 && p.written == []
    modifies p
    ensures outcome == SessionOutcome(old(p.incoming), p.end, p.writable)
    ensures p.written == Written(old(p.incoming), p.end, p.writable, tool, arguments)
    ensures match outcome
            case Done(Message(_, _, output, None)) => result == Some(Output(output))
            case Done(Message(_, _, _, Some(error))) => result == Some(ToolError(error))
            case _ => result == None
  {
    result := None;
    var initialize := p.Call("initialize", INITIALIZE_PARAMS);
    if initialize.Error? { return InitializeFailed(initialize.failure), None; }
    if initialize.value.error.Some? { return InitializeRejected(initialize.value.error.value), None; }
    var ok := p.Notify("notifications/initialized");
    if !ok { return NotifyFailed, None; }
    var response := p.Call("tools/call", CallParams(tool, arguments));
    if response.Error? { return CallFailed(response.failure), None; }
    outcome := Done(response.value);
    result := Some(ResultFromResponse(response.value));
  }

  // ---------------------------------------------------------------- what the session guarantees

  /** For every server stream the client writes a prefix of three requests, and how far it gets decides
      what it reports; the tool call goes out only after a message with the id of the initialize request
      and without an error, response or not, and the initialized notification precedes it. */
  lemma WritesFollowTheScript(events: seq<Event>, end: End, writable: nat -> bool, tool: string, arguments: string)
    ensures Written(events, end, writable, tool, arguments) <=
            [ Request(1, "initialize", InitializeParams("2025-03-26", "agenthub-skill-runtime", "1.0.0")),
              Request(0, "notifications/initialized", NoParams),
              Request(2, "tools/call", CallParams(tool, arguments)) ]
    ensures |Written(events, end, writable, tool, arguments)| ==
            match SessionOutcome(events, end, writable)
            case InitializeFailed(f) => if f == WriteFailed then 0 else 1
            case InitializeRejected(_) => 1
            case NotifyFailed => 1
            case CallFailed(f) => if f == WriteFailed then 2 else 3
            case Done(_) => 3
    ensures ToolsCall(tool, arguments) in Written(events, end, writable, tool, arguments) <==>
            |Written(events, end, writable, tool, arguments)| == 3
    ensures ToolsCall(tool, arguments) in Written(events, end, writable, tool, arguments) ==>
              INITIALIZED in Written(events, end, writable, tool, arguments) && Shaken(events, end, writable)
  {
    hide Answer, Rest;
    var w := Written(events, end, writable, tool, arguments);
    if |w| == 3 { assert w[2] == ToolsCall(tool, arguments) && w[1] == INITIALIZED; }
    NeverWriteFailed(events, end, 1);
    NeverWriteFailed(Rest(events, 1), end, 2);
  }

  lemma NeverWriteFailed(events: seq<Event>, end: End, id: int)
    ensures Answer(events, end, id) != Error(WriteFailed)
  {
  }

  /** Every other outcome: what was not written, why no answer came, or the error of the first message. */
  lemma OtherOutcomesIff(events: seq<Event>, end: End, writable: nat -> bool, f: Failure, e: RpcError)
    ensures var outcome := SessionOutcome(events, end, writable);
            var greeted := exists i :: FirstWithId(events, 0, i, 1) && events[i].line.value.error.None?;
            && (outcome == InitializeFailed(f) <==>
                if writable(0) then Answer(events, end, 1) == Error(f) else f == WriteFailed)
            && (outcome == InitializeRejected(e) <==>
                writable(0) && exists i :: FirstWithId(events, 0, i, 1) && events[i].line.value.error == Some(e))
            && (outcome == NotifyFailed <==> writable(0) && greeted && !writable(1))
            && (outcome == CallFailed(f) <==>
                && writable(0) && greeted && writable(1)
                && if writable(2) then Answer(Rest(events, 1), end, 2) == Error(f) else f == WriteFailed)
  {
    hide Answer, Rest;
    assert events[0..] == events;
    AnswerIsFirst(events, 0, end, 1);
    forall i | FirstWithId(events, 0, i, 1)
      ensures 0 <= i < |events| && events[i].line == Some(Answer(events, end, 1).value)
    {
      FirstIsAnswer(events, 0, end, i, 1);
    }
  }

  /** What a caller gets from the tool: the output of the second message when it has no error, and its
      error otherwise. */
  lemma ToolResultIff(events: seq<Event>, end: End, writable: nat -> bool, result: ToolResult)
    ensures (exists m :: SessionOutcome(events, end, writable) == Done(m) && ResultFromResponse(m) == result)
            <==> writable(0) && writable(1) && writable(2) && exists i, j, m :: Resulting(events, i, j, m, result)
  {
    hide SessionOutcome, Answered;
    if m :| SessionOutcome(events, end, writable) == Done(m) && ResultFromResponse(m) == result {
      SessionSucceedsIff(events, end, writable, m);
      var i, j :| Answered(events, i, j, m);
      assert Resulting(events, i, j, m, result);
    }
    if i, j, m :| Resulting(events, i, j, m, result) { SessionSucceedsIff(events, end, writable, m); }
  }

  /** Lines `i` and `j` are the answers to the two requests, and `result` is what line `j` says. */
  ghost predicate Resulting(events: seq<Event>, i: int, j: int, m: Message, result: ToolResult) {
    Answered(events, i, j, m) &&
    match result
    case Output(output) => m.error == None && m.result == output
    case ToolError(error) => m.error == Some(error)
  }

  /** Line `i` is read, is a message, and nothing before it from `from` on ends the wait for `id`. */
  ghost predicate FirstWithId(events: seq<Event>, from: int, i: int, id: int) {
    && 0 <= from <= i < |events|
    && !events[i].contextDone && events[i].line.Some? && events[i].line.value.id == id
    && forall x :: from <= x < i ==> !Stops(events[x], id)
  }

  /** Why a wait fails: at the first line that ends it the context is done, or else the line is no
      message; or no line ends it and the stream does. */
  lemma FailureIsFirst(events: seq<Event>, end: End, id: int, failure: Failure)
    ensures Answer(events, end, id) == Error(failure) <==>
            || (failure == (if end.contextDone then ContextDone else if end.readError then ReadFailed else ServerClosed)
                && forall x :: 0 <= x < |events| ==> !Stops(events[x], id))
            || exists i :: FirstFailing(events, i, id, failure)
  {
    var n := StopAt(events, id);
    if i :| FirstFailing(events, i, id, failure) { assert i == n; }
    if n < |events| && Answer(events, end, id) == Error(failure) { assert FirstFailing(events, n, id, failure); }
  }

  ghost predicate FirstFailing(events: seq<Event>, i: int, id: int, failure: Failure) {
    && 0 <= i < |events| && (forall x :: 0 <= x < i ==> !Stops(events[x], id)) && Stops(events[i], id)
    && if events[i].contextDone then failure == ContextDone else events[i].line.None? && failure == BadLine
  }

  lemma AnswerIsFirst(events: seq<Event>, from: nat, end: End, id: int)
    requires from <= |events|
    ensures Answer(events[from..], end, id).Success? <==> exists i :: FirstWithId(events, from, i, id)
    ensures Answer(events[from..], end, id).Success? ==>
              var i := from + StopAt(events[from..], id);
              && FirstWithId(events, from, i, id) && events[i].line == Some(Answer(events[from..], end, id).value)
              && Rest(events[from..], id) == events[i + 1..]
  {
    var tail := events[from..];
    var n := StopAt(tail, id);
    assert forall x :: from <= x < |events| ==> events[x] == tail[x - from];
    if Answer(tail, end, id).Success? {
      assert FirstWithId(events, from, from + n, id);
      assert tail[n + 1..] == events[from + n + 1..];
    }
    if i :| FirstWithId(events, from, i, id) {
      assert Stops(tail[i - from], id);
      forall k | 0 <= k < i - from ensures !Stops(tail[k], id) { assert tail[k] == events[from + k]; }
    }
  }

  lemma FirstIsUnique(events: seq<Event>, from: int, i: int, j: int, id: int)
    requires FirstWithId(events, from, i, id) && FirstWithId(events, from, j, id)
    ensures i == j
  {
    assert Stops(events[i], id) && Stops(events[j], id);
  }

  /** A session yields a result exactly when its three writes succeed, the stream has a first message
      with id 1 that carries no error and then a first message with id 2, and nothing before them ends
      the wait; the result is that second message. */
  lemma SessionSucceedsIff(events: seq<Event>, end: End, writable: nat -> bool, answer: Message)
    ensures SessionOutcome(events, end, writable) == Done(answer)
            <==> writable(0) && writable(1) && writable(2) && exists i, j :: Answered(events, i, j, answer)
  {
    hide Answer, Rest, FirstWithId;
    if i, j :| Answered(events, i, j, answer) { AnsweredIsDone(events, end, writable, answer, i, j); }
    if SessionOutcome(events, end, writable) == Done(answer) {
      var i, j := DoneIsAnswered(events, end, writable, answer);
    }
  }

  /** Lines `i` and `j` are the answers to the two requests. */
  ghost predicate Answered(events: seq<Event>, i: int, j: int, answer: Message) {
    && FirstWithId(events, 0, i, 1) && events[i].line.value.error.None?
    && FirstWithId(events, i + 1, j, 2) && events[j].line == Some(answer)
  }

  lemma AnsweredIsDone(events: seq<Event>, end: End, writable: nat -> bool, answer: Message, i: int, j: int)
    requires Answered(events, i, j, answer)
    ensures Answer(events, end, 1).Success? && Answer(events, end, 1).value.error.None?
    ensures Answer(Rest(events, 1), end, 2) == Success(answer)
  {
    hide Answer, Rest;
    assert events[0..] == events;
    AnswerIsFirst(events, 0, end, 1);
    FirstIsUnique(events, 0, i, StopAt(events, 1), 1);
    AnswerIsFirst(events, i + 1, end, 2);
    FirstIsUnique(events, i + 1, j, i + 1 + StopAt(events[i + 1..], 2), 2);
  }

  lemma DoneIsAnswered(events: seq<Event>, end: End, writable: nat -> bool, answer: Message) returns (i: int, j: int)
    requires SessionOutcome(events, end, writable) == Done(answer)
    ensures Answered(events, i, j, answer) && writable(0) && writable(1) && writable(2)
  {
    hide Answer, Rest, FirstWithId;
    assert events[0..] == events;
    AnswerIsFirst(events, 0, end, 1);
    i := StopAt(events, 1);
    assert FirstWithId(events, 0, i, 1);
    assert i < |events| by { FirstInRange(events, 0, i, 1); }
    AnswerIsFirst(events, i + 1, end, 2);
    j := i + 1 + StopAt(events[i + 1..], 2);
  }

  lemma FirstInRange(events: seq<Event>, from: int, i: int, id: int)
    requires FirstWithId(events, from, i, id)
    ensures 0 <= from <= i < |events|
  {
  }

  lemma {:induction false} SkippedLine(a: seq<Event>, e: Event, b: seq<Event>, end: End, id: int)
    requires !Stops(e, id)
    ensures Answer(a + [e] + b, end, id) == Answer(a + b, end, id)
    ensures Rest(a + [e] + b, id) == Rest(a + b, id)
            || exists k :: 0 <= k <= |a| && Rest(a + [e] + b, id) == a[k..] + [e] + b && Rest(a + b, id) == a[k..] + b
  {
    var s, t := a + [e] + b, a + b;
    if a == [] {
      assert s == [e] + b && s[1..] == b && t == b;
      StepOver(s, end, id);
    } else {
      assert s[0] == a[0] == t[0] && s[1..] == a[1..] + [e] + b && t[1..] == a[1..] + b;
      StepOver(s, end, id);
      StepOver(t, end, id);
      if Stops(a[0], id) {
        assert StopAt(s, id) == 0 && StopAt(t, id) == 0;
        assert a[1..] + [e] + b == s[1..];
      } else {
        SkippedLine(a[1..], e, b, end, id);
        if k :| 0 <= k <= |a[1..]| && Rest(s[1..], id) == a[1..][k..] + [e] + b && Rest(t[1..], id) == a[1..][k..] + b {
          assert a[1..][k..] == a[k + 1..];
        }
      }
    }
  }

  /** Messages without an id, or with an integer id nobody asked for, are invisible: adding one anywhere
      in the stream changes neither the outcome nor what is written. */
  lemma ForeignMessagesAreInvisible(a: seq<Event>, e: Event, b: seq<Event>, end: End, writable: nat -> bool,
      tool: string, arguments: string)
    requires !e.contextDone && e.line.Some? && e.line.value.id !in {1, 2}
    ensures SessionOutcome(a + [e] + b, end, writable) == SessionOutcome(a + b, end, writable)
    ensures Written(a + [e] + b, end, writable, tool, arguments) == Written(a + b, end, writable, tool, arguments)
  {
    SkippedLine(a, e, b, end, 1);
    if Rest(a + [e] + b, 1) != Rest(a + b, 1) {
      var k :| 0 <= k <= |a| && Rest(a + [e] + b, 1) == a[k..] + [e] + b && Rest(a + b, 1) == a[k..] + b;
      SkippedLine(a[k..], e, b, end, 2);
    }
  }

  /** Adding the line between `a` and `b` changes neither the outcome nor what is written. */
  ghost predicate Unnoticed(a: seq<Event>, e: Event, b: seq<Event>, end: End, writable: nat -> bool,
                            tool: string, arguments: string)
  {
    && SessionOutcome(a + [e] + b, end, writable) == SessionOutcome(a + b, end, writable)
    && Written(a + [e] + b, end, writable, tool, arguments) == Written(a + b, end, writable, tool, arguments)
  }

  /** Anywhere in any stream. */
  ghost predicate Invisible(e: Event) {
    forall a, b, end, writable, tool, arguments :: Unnoticed(a, e, b, end, writable, tool, arguments)
  }

  /** A line is invisible everywhere exactly when it decodes, its id is neither of the client's, and the
      context is not done when it has been scanned. */
  lemma InvisibleIff(e: Event)
    ensures Invisible(e) <==> !e.contextDone && e.line.Some? && e.line.value.id !in {1, 2}
  {
    if !e.contextDone && e.line.Some? && e.line.value.id !in {1, 2} {
      forall a, b, end, writable, tool, arguments ensures Unnoticed(a, e, b, end, writable, tool, arguments) {
        ForeignMessagesAreInvisible(a, e, b, end, writable, tool, arguments);
      }
    } else {
      var a, end, writable := VisibleSomewhere(e);
      assert !Unnoticed(a, e, [], end, writable, "", "");
    }
  }

  /** Where the line shows: at the start of the stream, or behind the answer to initialize. */
  lemma VisibleSomewhere(e: Event) returns (a: seq<Event>, end: End, writable: nat -> bool)
    requires e.contextDone || e.line.None? || e.line.value.id in {1, 2}
    ensures SessionOutcome(a + [e] + [], end, writable) != SessionOutcome(a + [], end, writable)
  {
    end, writable := End(false, false), (n: nat) => true;
    if e.contextDone || e.line.None? || e.line.value.id == 1 {
      a := [];
      assert a + [e] + [] == [e] && a + [] == [];
      assert StopAt([e], 1) == 0 && StopAt([], 1) == 0;
      assert Rest([e], 1) == [] && StopAt([], 2) == 0;
    } else {
      a := [Ready()];
      assert a + [e] + [] == [Ready(), e] && a + [] == [Ready()];
      assert StopAt([Ready(), e], 1) == 0 && StopAt([Ready()], 1) == 0;
      assert Rest([Ready(), e], 1) == [e] && Rest([Ready()], 1) == [];
      assert StopAt([e], 2) == 0 && StopAt([], 2) == 0;
    }
  }

  // ---------------------------------------------------------------- responses and server requests

  /** Section 5 of JSON-RPC 2.0: a response names no method. */
  predicate Response(m: Message) { m.name.None? }

  /** The messages a session takes for the answers to its two requests. */
  function Accepted(events: seq<Event>, end: End, writable: nat -> bool): seq<Message> {
    if !writable(0) || Answer(events, end, 1).Error? then []
    else
      var first := Answer(events, end, 1).value;
      var second := Answer(Rest(events, 1), end, 2);
      if first.error.Some? || !writable(1) || !writable(2) || second.Error? then [first] else [first, second.value]
  }

  /** What is accepted decides the session: the last answer, and whether the handshake was made. */
  lemma AcceptedDecides(events: seq<Event>, end: End, writable: nat -> bool)
    ensures Shaken(events, end, writable) <==>
            Accepted(events, end, writable) != [] && Accepted(events, end, writable)[0].error.None?
    ensures forall m :: SessionOutcome(events, end, writable) == Done(m) <==>
                        |Accepted(events, end, writable)| == 2 && Accepted(events, end, writable)[1] == m
  {
    hide Answer, Rest;
  }

  ghost predicate OnlyResponses(events: seq<Event>, end: End, writable: nat -> bool) {
    forall m :: m in Accepted(events, end, writable) ==> Response(m)
  }

  /** Only responses are accepted exactly when the first message with id 1 is one and, if that starts
      the tool call, the first message with id 2 behind it is one. */
  lemma OnlyResponsesIff(events: seq<Event>, end: End, writable: nat -> bool)
    ensures OnlyResponses(events, end, writable) <==>
            && (forall i :: writable(0) && FirstWithId(events, 0, i, 1) ==> Response(events[i].line.value))
            && (forall i, j :: writable(0) && writable(1) && writable(2) && FirstWithId(events, 0, i, 1)
                               && events[i].line.value.error.None? && FirstWithId(events, i + 1, j, 2)
                               ==> Response(events[j].line.value))
  {
    hide Answer, Rest, FirstWithId, Response;
    forall i | FirstWithId(events, 0, i, 1)
      ensures 0 <= i < |events| && events[i].line.Some?
      ensures Answer(events, end, 1) == Success(events[i].line.value)
    {
      FirstIsAnswer(events, 0, end, i, 1);
    }
    forall i, j | FirstWithId(events, 0, i, 1) && FirstWithId(events, i + 1, j, 2)
      ensures 0 <= j < |events| && events[j].line.Some?
      ensures Answer(Rest(events, 1), end, 2) == Success(events[j].line.value)
    {
      FirstIsAnswer(events, 0, end, i, 1);
      FirstIsAnswer(events, i + 1, end, j, 2);
    }
    AcceptedAreFirst(events, end, writable);
  }

  /** The first message with the id is the answer. */
  lemma FirstIsAnswer(events: seq<Event>, from: nat, end: End, i: int, id: int)
    requires FirstWithId(events, from, i, id)
    ensures from <= i < |events| && events[i].line.Some? && from <= |events|
    ensures Answer(events[from..], end, id) == Success(events[i].line.value)
    ensures Rest(events[from..], id) == events[i + 1..]
    ensures from == 0 ==>
              Answer(events, end, id) == Success(events[i].line.value) && Rest(events, id) == events[i + 1..]
  {
    hide Answer, Rest;
    AnswerIsFirst(events, from, end, id);
    FirstIsUnique(events, from, i, from + StopAt(events[from..], id), id);
    assert events[0..] == events;
  }

  /** Every accepted message is a first message with its id. */
  lemma AcceptedAreFirst(events: seq<Event>, end: End, writable: nat -> bool)
    ensures var all := Accepted(events, end, writable);
            && (|all| >= 1 ==> exists i :: FirstWithId(events, 0, i, 1) && events[i].line == Some(all[0]))
            && (|all| == 2 ==> exists i, j :: Answered(events, i, j, all[1]))
  {
    hide Answer, Rest, FirstWithId;
    var all := Accepted(events, end, writable);
    assert events[0..] == events;
    AnswerIsFirst(events, 0, end, 1);
    if |all| >= 1 { assert FirstWithId(events, 0, StopAt(events, 1), 1); }
    if |all| == 2 { var i, j := DoneIsAnswered(events, end, writable, all[1]); }
  }

  /** The server gives its own requests only ids in `ids`; a notification has none, which reads as 0. */
  ghost predicate OwnIds(events: seq<Event>, ids: iset<int>) {
    forall e :: e in events && e.line.Some? && !Response(e.line.value) ==> e.line.value.id in ids
  }

  /** The client can rely on what it accepts exactly with servers that never give a request of their
      own the id 1 or 2. */
  lemma ReliableIff(ids: iset<int>)
    ensures (forall events, end, writable :: OwnIds(events, ids) ==> OnlyResponses(events, end, writable))
            <==> 1 !in ids && 2 !in ids
  {
    if 1 !in ids && 2 !in ids {
      forall events, end, writable | OwnIds(events, ids) ensures OnlyResponses(events, end, writable) {
        OtherIdsAreReliable(events, ids, end, writable);
      }
    } else {
      var writable, end := (n: nat) => true, End(false, false);
      if 1 in ids {
        PingIsTakenForInitializeAnswer(writable, end, "", "");
        assert OwnIds([Ping()], ids);
      } else {
        ServerRequestIsTakenForAnswer(writable, end);
        assert OwnIds([Ready(), ListRoots(), Answering()], ids);
      }
    }
  }

  lemma OtherIdsAreReliable(events: seq<Event>, ids: iset<int>, end: End, writable: nat -> bool)
    requires OwnIds(events, ids) && 1 !in ids && 2 !in ids
    ensures OnlyResponses(events, end, writable)
  {
    hide Accepted;
    forall i | 0 <= i < |events| && events[i].line.Some? && events[i].line.value.id !in ids
      ensures Response(events[i].line.value)
    {
      assert events[i] in events;
    }
    OnlyResponsesIff(events, end, writable);
  }

  /** So with a server that keeps the id 1 off its own requests, the tool call goes out only after a
      response to initialize without an error. */
  lemma ToolCallFollowsResponse(events: seq<Event>, end: End, writable: nat -> bool, tool: string, arguments: string)
    requires forall e :: e in events && e.line.Some? && e.line.value.id == 1 ==> Response(e.line.value)
    requires ToolsCall(tool, arguments) in Written(events, end, writable, tool, arguments)
    ensures exists i :: FirstWithId(events, 0, i, 1) && Response(events[i].line.value)
                        && events[i].line.value.error.None?
  {
    WritesFollowTheScript(events, end, writable, tool, arguments);
    AnswerIsFirst(events, 0, end, 1);
    assert events[0..] == events;
    var i := StopAt(events, 1);
    assert FirstWithId(events, 0, i, 1) && events[i] in events;
  }

  function Ping(): Event { Event(Some(Message(1, Some("ping"), None, None)), false) }

  function Ready(): Event { Event(Some(Message(1, None, Some("{}"), None)), false) }

  function ListRoots(): Event { Event(Some(Message(2, Some("roots/list"), None, None)), false) }

  function Answering(): Event { Event(Some(Message(2, None, Some("answer"), None)), false) }

  /** A stream whose only line is a `ping` request with id 1 makes the client call the tool. */
  lemma PingIsTakenForInitializeAnswer(writable: nat -> bool, end: End, tool: string, arguments: string)
    requires writable(0) && writable(1) && writable(2)
    ensures ToolsCall(tool, arguments) in Written([Ping()], end, writable, tool, arguments)
    ensures Accepted([Ping()], end, writable) == [Ping().line.value] && !OnlyResponses([Ping()], end, writable)
  {
    var events := [Ping()];
    assert StopAt(events, 1) == 0 && Rest(events, 1) == [];
    assert Answer(events, end, 1) == Success(Ping().line.value) && Answer([], end, 2).Error?;
    assert Script(tool, arguments)[2] == ToolsCall(tool, arguments);
    assert Ping().line.value in Accepted(events, end, writable);
  }

  /** A `roots/list` request with id 2 is taken for the answer to the tool call. */
  lemma ServerRequestIsTakenForAnswer(writable: nat -> bool, end: End)
    requires writable(0) && writable(1) && writable(2)
    ensures var events, request := [Ready(), ListRoots(), Answering()], ListRoots().line.value;
            && SessionOutcome(events, end, writable) == Done(request) && ResultFromResponse(request) == Output(None)
            && Accepted(events, end, writable) == [Ready().line.value, request] && !OnlyResponses(events, end, writable)
  {
    var events := [Ready(), ListRoots(), Answering()];
    assert StopAt(events, 1) == 0;
    assert Rest(events, 1) == events[1..];
    assert StopAt(events[1..], 2) == 0;
    assert Answer(events, end, 1) == Success(Ready().line.value);
    assert Answer(events[1..], end, 2) == Success(ListRoots().line.value);
    assert Accepted(events, end, writable)[1] == ListRoots().line.value;
    assert ListRoots().line.value in Accepted(events, end, writable);
  }
}
