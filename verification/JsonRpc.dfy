/**
 Dispatch of JSON-RPC 2.0 messages by the MCP stdio server: requests, notifications
 and batches (sections 4, 4.1, 5 and 6 of the JSON-RPC 2.0 specification).
 */
module JsonRpc {
  import opened Wrappers
  import opened Json

  datatype Id = NullId | TextId(s: string) | NumberId(n: int)

  datatype Response = ResultOf(id: Id, result: Json) | ErrorOf(id: Id, code: int)

  const INVALID_REQUEST := -32600
  const METHOD_NOT_FOUND := -32601
  const INVALID_PARAMS := -32602
  const INTERNAL_ERROR := -32603

  datatype Outcome = Returned(value: Json) | McpError(code: string, value: Json) | Threw

  /** The adapter: its next state and what a dispatched method comes to. */
  type Adapter<!S> = (S, string, Option<Json>) -> (S, Outcome)

  function Get(message: Json, key: string): Option<Json>
    requires message.JObj?
  {
    Find(message.fields, key)
  }

  function IdFrom(value: Option<Json>): Option<Id> {
    match value
    case Some(JNull) => Some(NullId)
    case Some(JStr(s)) => Some(TextId(s))
    case Some(JNum(n)) => Some(NumberId(n))
    case _ => None
  }

  function MethodOf(message: Json): Option<string>
    requires message.JObj?
  {
    match Get(message, "method") case Some(JStr(m)) => Some(m) case _ => None
  }

  predicate IsVersioned(message: Json)
    requires message.JObj?
  {
    Get(message, "jsonrpc") == Some(JStr("2.0"))
  }

  /** A message that answers one of ours: it is dropped. */
  predicate IsResponse(message: Json) {
    && message.JObj? && IsVersioned(message) && MethodOf(message).None?
    && (Get(message, "result").Some? || Get(message, "error").Some?)
  }

  predicate IsCall(message: Json) {
    message.JObj? && IsVersioned(message) && MethodOf(message).Some?
  }

  /** A call without an id member (section 4.1). */
  predicate IsNotification(message: Json) {
    IsCall(message) && Get(message, "id").None?
  }

  /** A call with a string, number or null id. */
  predicate IsRequest(message: Json) {
    IsCall(message) && IdFrom(Get(message, "id")).Some?
  }

  predicate IsRegistered(m: string) {
    m in ["tools/list", "tools/call", "resources/list", "resources/read", "prompts/list", "prompts/get"]
  }

  function RequestedVersion(params: Option<Json>): Option<string> {
    match params
    case Some(JObj(fields)) => (match Find(fields, "protocolVersion") case Some(JStr(v)) => Some(v) case _ => None)
    case _ => None
  }

  predicate OffersVersion(params: Option<Json>, supported: seq<string>) {
    RequestedVersion(params).Some? && RequestedVersion(params).value in supported
  }

  /**
   What the server is configured with: its supported versions, its greeting in a requested
   version, how the context of the connection is merged into params, and how results are shaped.
   */
  datatype Server<!S> = Server(
    adapter: Adapter<S>, supported: seq<string>, greeting: string -> Json,
    inContext: Option<Json> -> Option<Json>, shape: (string, Json) -> Json)

  /** The registered methods: the only place where the adapter is called. */
  function CallAdapter<S>(server: Server<S>, s: S, id: Id, m: string, params: Option<Json>): (S, Response) {
    var (s', outcome) := server.adapter(s, m, server.inContext(params));
    (s', match outcome
         case Threw => ErrorOf(id, INTERNAL_ERROR)
         case Returned(value) => ResultOf(id, server.shape(m, value))
         case McpError(code, value) =>
           if m == "tools/call" then ResultOf(id, server.shape(m, value))
           else ErrorOf(id, if code == "method_not_found" then METHOD_NOT_FOUND else INVALID_PARAMS))
  }

  function Single<S>(server: Server<S>, s: S, message: Json): (S, Option<Response>) {
    if !message.JObj? then (s, Some(ErrorOf(NullId, INVALID_REQUEST)))
    else if IsResponse(message) then (s, None)
    else
      var id := IdFrom(Get(message, "id"));
      if !IsVersioned(message) || MethodOf(message).None? then
        (s, Some(ErrorOf(id.GetOr(NullId), INVALID_REQUEST)))
      else if Get(message, "id").None? then (s, None)
      else if id.None? then (s, Some(ErrorOf(NullId, INVALID_REQUEST)))
      else
        var m, params := MethodOf(message).value, Get(message, "params");
        if m == "initialize" then
          (s, Some(if OffersVersion(params, server.supported) then ResultOf(id.value, server.greeting(RequestedVersion(params).value))
                   else ErrorOf(id.value, INVALID_PARAMS)))
        else if m == "notifications/initialized" then (s, Some(ResultOf(id.value, JObj([]))))
        else if !IsRegistered(m) then (s, Some(ErrorOf(id.value, METHOD_NOT_FOUND)))
        else
          var (s', response) := CallAdapter(server, s, id.value, m, params);
          (s', Some(response))
  }

  /** Nothing, one response, or the responses of a batch. */
  datatype Reply = NoReply | OneReply(response: Response) | BatchReply(responses: seq<Response>)

  function Listed(response: Option<Response>): seq<Response> {
    if response.Some? then [response.value] else []
  }

  /** The entries of a batch one after another. */
  function Entries<S>(server: Server<S>, s: S, entries: seq<Json>): (S, seq<Response>)
    decreases |entries|
  {
    if entries == [] then (s, [])
    else
      var (s', response) := Single(server, s, entries[0]);
      var (s'', responses) := Entries(server, s', entries[1..]);
      (s'', Listed(response) + responses)
  }

  function Dispatched<S>(server: Server<S>, s: S, message: Json): (S, Reply) {
    if !message.JArr? then
      var (s', response) := Single(server, s, message);
      (s', if response.Some? then OneReply(response.value) else NoReply)
    else if message.items == [] then (s, OneReply(ErrorOf(NullId, INVALID_REQUEST)))
    else
      var (s', responses) := Entries(server, s, message.items);
      (s', if responses == [] then NoReply else BatchReply(responses))
  }

  /** The session that the entries from the `i`-th on leave, after some responses. */
  function Remaining<S>(server: Server<S>, s: S, responses: seq<Response>, entries: seq<Json>, i: nat): (S, seq<Response>)
    requires i <= |entries|
  {
    var (s', later) := Entries(server, s, entries[i..]);
    (s', responses + later)
  }

  lemma RemainingNext<S>(server: Server<S>, s: S, responses: seq<Response>, entries: seq<Json>, i: nat)
    requires i < |entries|
    ensures var (next, response) := Single(server, s, entries[i]);
      Remaining(server, s, responses, entries, i) == Remaining(server, next, responses + Listed(response), entries, i + 1)
  {
    var (next, response) := Single(server, s, entries[i]);
    assert entries[i..][0] == entries[i] && entries[i..][1..] == entries[i + 1..];
    var (s', later) := Entries(server, next, entries[i + 1..]);
    assert responses + (Listed(response) + later) == (responses + Listed(response)) + later;
  }

  method DispatchEntries<S>(server: Server<S>, s: S, entries: seq<Json>) returns (s': S, responses: seq<Response>)
    ensures (s', responses) == Entries(server, s, entries)
  {
    s', responses := s, [];
    var i := 0;
    ghost var all := Entries(server, s, entries);
    assert entries[0..] == entries && [] + all.1 == all.1;
    while i < |entries|
      invariant 0 <= i <= |entries| && all == Entries(server, s, entries)
      invariant Remaining(server, s', responses, entries, i) == all
    {
      RemainingNext(server, s', responses, entries, i);
      var (next, response) := Single(server, s', entries[i]);
      s', responses := next, responses + Listed(response);
      i := i + 1;
    }
    assert entries[i..] == [] && responses + [] == responses;
  }

  method Dispatch<S>(server: Server<S>, s: S, message: Json) returns (s': S, reply: Reply)
    ensures (s', reply) == Dispatched(server, s, message)
  {
    if message.JArr? {
      if |message.items| == 0 {
        return s, OneReply(ErrorOf(NullId, INVALID_REQUEST));
      }
      var responses;
      s', responses := DispatchEntries(server, s, message.items);
      reply := if |responses| == 0 then NoReply else BatchReply(responses);
    } else {
      var (next, response) := Single(server, s, message);
      s' := next;
      reply := if response.Some? then OneReply(response.value) else NoReply;
    }
  }

  // ------------------------------------------------------------------ properties

  /** The id under which a message must be answered: its own if well formed, else null (section 5). */
  function AnswerId(message: Json): Id {
    if message.JObj? then IdFrom(Get(message, "id")).GetOr(NullId) else NullId
  }

  /**
   Every message is answered except notifications and responses, under the right id,
   and only requests for registered methods reach the adapter.
   */
  lemma SingleContract<S>(server: Server<S>, s: S, message: Json)
    ensures var (s', response) := Single(server, s, message);
      && (response.None? <==> IsNotification(message) || IsResponse(message))
      && (response.Some? ==> response.value.id == AnswerId(message))
      && (response.Some? && response.value.ResultOf? ==> IsRequest(message))
      && (!(IsRequest(message) && IsRegistered(MethodOf(message).value)) ==> s' == s)
      && (IsRequest(message) && IsRegistered(MethodOf(message).value) ==>
            s' == server.adapter(s, MethodOf(message).value, server.inContext(Get(message, "params"))).0)
  {
    assert !IsRegistered("initialize") && !IsRegistered("notifications/initialized");
  }

  /** The messages that are answered. */
  function Answered(entries: seq<Json>): seq<Json> {
    if entries == [] then []
    else (if IsNotification(entries[0]) || IsResponse(entries[0]) then [] else [entries[0]]) + Answered(entries[1..])
  }

  /** A batch answers each message that needs an answer once, in order, under its id (section 6). */
  lemma {:induction false} BatchAnswersInOrder<S>(server: Server<S>, s: S, entries: seq<Json>)
    ensures var responses := Entries(server, s, entries).1;
      && |responses| == |Answered(entries)|
      && forall i :: 0 <= i < |responses| ==> responses[i].id == AnswerId(Answered(entries)[i])
    decreases |entries|
  {
    if entries != [] {
      SingleContract(server, s, entries[0]);
      BatchAnswersInOrder(server, Single(server, s, entries[0]).0, entries[1..]);
    }
  }

  /** Messages sent one by one, each as its own line. */
  function OneByOne<S>(server: Server<S>, s: S, messages: seq<Json>): (S, seq<Response>)
    requires forall i :: 0 <= i < |messages| ==> !messages[i].JArr?
    decreases |messages|
  {
    if messages == [] then (s, [])
    else
      var (s', reply) := Dispatched(server, s, messages[0]);
      var (s'', responses) := OneByOne(server, s', messages[1..]);
      (s'', (if reply.OneReply? then [reply.response] else []) + responses)
  }

  /**
   A batch has the effects and the responses of its messages sent one by one; without
   any answer it writes nothing, not an empty array.
   */
  lemma {:induction false} BatchIsSequence<S>(server: Server<S>, s: S, messages: seq<Json>)
    requires messages != [] && forall i :: 0 <= i < |messages| ==> !messages[i].JArr?
    ensures var (s', reply) := Dispatched(server, s, JArr(messages));
      && s' == OneByOne(server, s, messages).0
      && reply == (if OneByOne(server, s, messages).1 == [] then NoReply else BatchReply(OneByOne(server, s, messages).1))
  {
    EntriesOneByOne(server, s, messages);
  }

  lemma {:induction false} EntriesOneByOne<S>(server: Server<S>, s: S, messages: seq<Json>)
    requires forall i :: 0 <= i < |messages| ==> !messages[i].JArr?
    ensures Entries(server, s, messages) == OneByOne(server, s, messages)
    decreases |messages|
  {
    if messages != [] {
      EntriesOneByOne(server, Single(server, s, messages[0]).0, messages[1..]);
    }
  }
}
