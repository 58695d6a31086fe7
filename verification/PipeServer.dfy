/**
 One client connection of the service: the read loop, and handlers that run concurrently and answer
 in any order, each with one write of a whole frame.
 */
module PipeServer {
  import opened Framing
  import opened Options

  /** A parsed request; the id is the text of whatever JSON value the client sent, if any. */
  datatype Request = Request(verb: string, id: Option<string>)

  datatype Response = Response(id: Option<string>, success: bool, result: Option<string>, error: string)

  /** JSON decoding and encoding, which this model leaves open; a response need not have an encoding. */
  datatype Codec =
    Codec(parse: bytes -> Option<Request>, marshal: Response -> Option<bytes>, unmarshal: bytes -> Option<Response>)

  /** How a handler's work ends: parameters that do not decode, an error of the backend, or a result. */
  datatype Ending = BadParams(message: string) | BackendError(message: string) | Success(result: Option<string>)

  const VERBS := {
    "configure", "createVM", "startVM", "stopVM", "isRunning", "isGuestConnected", "spawn", "kill", "writeStdin",
    "isProcessRunning", "mountPath", "readFile", "installSdk", "addApprovedOauthToken", "setDebugLogging",
    "isDebugLoggingEnabled", "subscribeEvents", "getDownloadStatus", "getSessionsDiskInfo", "pruneSessionCaches",
    "deleteSessionDirs", "createDiskImage", "sendGuestResponse"}

  /** Handlers that look at no parameters, or ignore ones that do not decode. */
  const LENIENT := {"isRunning", "isGuestConnected", "isDebugLoggingEnabled", "getDownloadStatus"}

  /** Handlers whose backend call cannot fail. */
  const INFALLIBLE := {"setDebugLogging", "isDebugLoggingEnabled", "getDownloadStatus"}

  /** The endings a handler of that verb can have. */
  predicate CanEnd(verb: string, e: Ending) {
    && (e.BadParams? ==> verb !in LENIENT)
    && (e.BackendError? ==> verb !in INFALLIBLE)
  }

  function Fail(id: Option<string>, message: string): Response {
    Response(id, false, None, message)
  }

  /** The response `Handle` makes. */
  function Reply(parsed: Option<Request>, e: Ending): Response {
    if parsed.None? then Fail(None, "Parse error")
    else if parsed.value.verb !in VERBS then Response(parsed.value.id, true, None, "")
    else
      match e
      case BadParams(message) => Fail(parsed.value.id, "Invalid params: " + message)
      case BackendError(message) => Fail(parsed.value.id, message)
      case Success(result) => Response(parsed.value.id, true, result, "")
  }

  function IdOf(codec: Codec, payload: bytes): Option<string> {
    var parsed := codec.parse(payload);
    if parsed.Some? then parsed.value.id else None
  }

  predicate Subscribes(codec: Codec, payload: bytes) {
    var parsed := codec.parse(payload);
    parsed.Some? && parsed.value.verb == "subscribeEvents"
  }

  // ---- The code of one connection ----

  /** `Handle`, with the ending of the handler it dispatches to. A response that cannot be encoded is dropped. */
  method Handle(codec: Codec, conn: Conn, payload: bytes, e: Ending) returns (ok: bool)
    modifies conn`output
    ensures var data := codec.marshal(Reply(codec.parse(payload), e));
            if data.None? then !ok && conn.output == old(conn.output)
            else if ok then conn.output == old(conn.output) + Encode(data.value)
            else old(conn.output) <= conn.output < old(conn.output) + Encode(data.value)
  {
    var parsed := codec.parse(payload);
    var response;
    if parsed.None? {
      response := Fail(None, "Parse error");
    } else {
      var req := parsed.value;
      if req.verb !in VERBS {
        response := Response(req.id, true, None, "");
      } else if e.BadParams? {
        response := Fail(req.id, "Invalid params: " + e.message);
      } else if e.BackendError? {
        response := Fail(req.id, e.message);
      } else {
        response := Response(req.id, true, e.result, "");
      }
    }
    var data := codec.marshal(response);
    if data.None? { return false; }
    ok := conn.WriteMessage(data.value);
  }

  datatype LoopEnd = Quit | Broke(error: ReadError) | Subscribed(payload: bytes)

  /** What the read loop makes of a stream: the payloads it dispatches, and how it ends. */
  function Dispatched(codec: Codec, s: bytes): (seq<bytes>, LoopEnd)
    decreases |s|
  {
    match ReadFrame(SOCKET, s)
    case Failed(error, _) => ([], Broke(error))
    case Got(payload, rest) =>
      if Subscribes(codec, payload) then ([], Subscribed(payload))
      else
        var later := Dispatched(codec, rest);
        ([payload] + later.0, later.1)
  }

  /** The read loop of `handleConnection`; a server that is stopping makes it end early. */
  method ReadLoop(codec: Codec, conn: Conn) returns (spawned: seq<bytes>, end: LoopEnd)
    modifies conn`input
    ensures end.Quit? ==> spawned <= Dispatched(codec, old(conn.input)).0
    ensures !end.Quit? ==> (spawned, end) == Dispatched(codec, old(conn.input))
  {
    spawned := [];
    ghost var all := Dispatched(codec, conn.input);
    assert spawned + all.0 == all.0;
    while true
      invariant all == (spawned + Dispatched(codec, conn.input).0, Dispatched(codec, conn.input).1)
      decreases |conn.input|
    {
      var quit := *;
      if quit { return spawned, Quit; }
      ghost var before := conn.input;
      var f := conn.ReadMessage(SOCKET);
      assert f == ReadFrame(SOCKET, before) && spawned + [] == spawned;
      match f {
        case Failed(error, _) =>
          return spawned, Broke(error);
        case Got(payload, rest) =>
          if Subscribes(codec, payload) { return spawned, Subscribed(payload); }
          assert spawned + ([payload] + Dispatched(codec, rest).0) == spawned + [payload] + Dispatched(codec, rest).0;
          spawned := spawned + [payload];
      }
    }
  }

  /** The client asks for events instead of an answer. */
  predicate AsksForEvents(codec: Codec, m: bytes) {
    codec.parse(m).Some? && codec.parse(m).value.verb == "subscribeEvents"
  }

  /** From a stream of framed requests the loop dispatches those before the first that asks for events. */
  lemma {:induction false} RequestsBeforeEvents(codec: Codec, ms: seq<bytes>, j: nat, tail: bytes)
    requires AllFit(SOCKET, ms) && j <= |ms| && (forall k :: 0 <= k < j ==> !AsksForEvents(codec, ms[k]))
    requires j < |ms| ==> AsksForEvents(codec, ms[j])
    ensures Dispatched(codec, EncodeAll(ms) + tail)
            == if j < |ms| then (ms[..j], Subscribed(ms[j]))
               else (ms + Dispatched(codec, tail).0, Dispatched(codec, tail).1)
    decreases |ms|
  {
    if ms == [] {
      assert EncodeAll(ms) + tail == tail && ms + Dispatched(codec, tail).0 == Dispatched(codec, tail).0;
    } else {
      var rest := EncodeAll(ms[1..]) + tail;
      FirstFrame(ms, tail, rest);
      ReadBackIff(SOCKET, ms[0], rest);
      if j > 0 {
        RequestsBeforeEvents(codec, ms[1..], j - 1, tail);
        Prepended(ms, j, Dispatched(codec, tail).0);
      }
    }
  }

  lemma FirstFrame(ms: seq<bytes>, tail: bytes, rest: bytes)
    requires ms != [] && rest == EncodeAll(ms[1..]) + tail
    ensures EncodeAll(ms) + tail == Encode(ms[0]) + rest
  {
  }

  lemma Prepended(ms: seq<bytes>, j: nat, more: seq<bytes>)
    requires 0 < j <= |ms|
    ensures [ms[0]] + ms[1..][..j - 1] == ms[..j] && [ms[0]] + (ms[1..] + more) == ms + more
  {
  }

  // ---- Every interleaving ----

  /** A handler at work, or what became of its response: written, dropped, or lost in a failed write. */
  datatype Handler =
    | Running(payload: bytes)
    | Wrote(payload: bytes, ending: Ending, response: Response, data: bytes)
    | Dropped(payload: bytes, ending: Ending, response: Response)
    | Lost(payload: bytes)

  /** `order` records the handlers in the order of their writes, and `partial` what a failed write left. */
  datatype Sys = Sys(request: bytes, input: bytes, open: bool, broken: bool, handlers: seq<Handler>,
                     output: bytes, order: seq<nat>, partial: bytes)

  datatype Action =
    | Read
    | Close
    | Answer(i: nat, e: Ending)
    | Drop(i: nat, e: Ending)
    | FailAnswer(i: nat, e: Ending, sent: nat)

  function Start(request: bytes): Sys {
    Sys(request, request, true, false, [], [], [], [])
  }

  predicate Enabled(codec: Codec, s: Sys, a: Action) {
    match a
    case Read => s.open
    case Close => s.open
    case Answer(i, e) => s.open && !s.broken && Ends(codec, s, i, e) && Encoded(codec, s, i, e).Some?
    case Drop(i, e) => Ends(codec, s, i, e) && Encoded(codec, s, i, e).None?
    case FailAnswer(i, e, _) => Ends(codec, s, i, e) && Encoded(codec, s, i, e).Some?
  }

  /** The handler can end that way. */
  predicate Ends(codec: Codec, s: Sys, i: nat, e: Ending) {
    && i < |s.handlers| && s.handlers[i].Running?
    && var parsed := codec.parse(s.handlers[i].payload); parsed.Some? ==> CanEnd(parsed.value.verb, e)
  }

  /** The response of a handler that ends that way, encoded. */
  function Encoded(codec: Codec, s: Sys, i: nat, e: Ending): Option<bytes>
    requires i < |s.handlers|
  {
    codec.marshal(Reply(codec.parse(s.handlers[i].payload), e))
  }

  /** One whole frame goes out, and its handler is done. */
  function Appended(s: Sys, i: nat, e: Ending, response: Response, data: bytes): Sys
    requires i < |s.handlers|
  {
    s.(handlers := s.handlers[i := Wrote(s.handlers[i].payload, e, response, data)],
       output := s.output + Encode(data), order := s.order + [i])
  }

  /**
   A write fails because the connection is closed or broken. The first to fail on an open
   connection may have sent a part of its frame; after that nothing goes out.
   */
  function Apply(codec: Codec, s: Sys, a: Action): Sys
    requires Enabled(codec, s, a)
  {
    match a
    case Read =>
      (match ReadFrame(SOCKET, s.input)
       case Failed(_, rest) => s.(open := false, input := rest)
       case Got(payload, rest) =>
         if Subscribes(codec, payload) then s.(open := false, input := rest)
         else s.(input := rest, handlers := s.handlers + [Running(payload)]))
    case Close => s.(open := false)
    case Answer(i, e) =>
      Appended(s, i, e, Reply(codec.parse(s.handlers[i].payload), e), Encoded(codec, s, i, e).value)
    case Drop(i, e) =>
      var payload := s.handlers[i].payload;
      s.(handlers := s.handlers[i := Dropped(payload, e, Reply(codec.parse(payload), e))])
    case FailAnswer(i, e, sent) =>
      var payload := s.handlers[i].payload;
      var frame := Encode(Encoded(codec, s, i, e).value);
      var part := if s.open && !s.broken && sent < |frame| then frame[..sent] else [];
      s.(handlers := s.handlers[i := Lost(payload)], broken := true, output := s.output + part,
         partial := s.partial + part)
  }

  function After(codec: Codec, request: bytes, run: seq<Action>): Sys {
    if run == [] then Start(request)
    else
      var s := After(codec, request, run[..|run| - 1]);
      var a := run[|run| - 1];
      if Enabled(codec, s, a) then Apply(codec, s, a) else s
  }

  function Payloads(hs: seq<Handler>): (ps: seq<bytes>)
    ensures |ps| == |hs| && forall i :: 0 <= i < |hs| ==> ps[i] == hs[i].payload
  {
    if hs == [] then [] else [hs[0].payload] + Payloads(hs[1..])
  }

  predicate AllWrote(hs: seq<Handler>, order: seq<nat>) {
    forall k :: 0 <= k < |order| ==> order[k] < |hs| && hs[order[k]].Wrote?
  }

  /** The messages written, in the order of the writes. */
  function Written(hs: seq<Handler>, order: seq<nat>): (ms: seq<bytes>)
    requires AllWrote(hs, order)
    ensures |ms| == |order| && forall k :: 0 <= k < |order| ==> ms[k] == hs[order[k]].data
  {
    if order == [] then []
    else Written(hs, order[..|order| - 1]) + [hs[order[|order| - 1]].data]
  }

  predicate Distinct(order: seq<nat>) {
    forall j, k :: 0 <= j < k < |order| ==> order[j] != order[k]
  }

  /** The order lists each handler that answered once. */
  predicate Ordered(s: Sys) {
    && Distinct(s.order) && AllWrote(s.handlers, s.order)
    && (forall i :: 0 <= i < |s.handlers| && s.handlers[i].Wrote? ==> i in s.order)
  }

  /** The handlers are the requests read so far, in order. */
  predicate Asked(codec: Codec, s: Sys) {
    && Payloads(s.handlers) <= Dispatched(codec, s.request).0
    && (s.open ==> Dispatched(codec, s.request)
                   == (Payloads(s.handlers) + Dispatched(codec, s.input).0, Dispatched(codec, s.input).1))
  }

  /** The response carries the request's id, and says how its handler ended. */
  predicate Tells(codec: Codec, payload: bytes, e: Ending, r: Response) {
    var parsed := codec.parse(payload);
    && r.id == IdOf(codec, payload) && (parsed.Some? ==> CanEnd(parsed.value.verb, e))
    && (r.success <==> parsed.Some? && (parsed.value.verb in VERBS ==> e.Success?))
    && (r.success ==> r.error == "" && r.result == if parsed.value.verb in VERBS then e.result else None)
    && (!r.success ==> r.result == None
                       && (parsed.None? ==> r.error == "Parse error")
                       && (parsed.Some? && e.BadParams? ==> r.error == "Invalid params: " + e.message)
                       && (parsed.Some? && e.BackendError? ==> r.error == e.message))
  }

  /** The handler's response says how it ended, and was encoded as written or not at all. */
  predicate Honest(codec: Codec, h: Handler) {
    && (h.Wrote? ==> codec.marshal(h.response) == Some(h.data))
    && (h.Dropped? ==> codec.marshal(h.response) == None)
    && (h.Wrote? || h.Dropped? ==> Tells(codec, h.payload, h.ending, h.response))
  }

  /** What was written is one frame for each handler that answered, and perhaps a part of one more. */
  ghost predicate Answered(codec: Codec, s: Sys) {
    && Ordered(s)
    && s.output == EncodeAll(Written(s.handlers, s.order)) + s.partial
    && (forall i :: 0 <= i < |s.handlers| ==> Honest(codec, s.handlers[i]))
  }

  ghost predicate CutShort(codec: Codec, s: Sys) {
    s.partial == [] || (s.broken && exists response, cut :: Cut(codec, response, cut, s.partial))
  }

  ghost predicate Inv(codec: Codec, s: Sys) {
    Asked(codec, s) && Answered(codec, s) && CutShort(codec, s)
  }

  /** A strict prefix of the frame of a response. */
  predicate Cut(codec: Codec, response: Response, cut: nat, partial: bytes) {
    var data := codec.marshal(response);
    data.Some? && var frame := Encode(data.value); cut < |frame| && partial == frame[..cut]
  }

  lemma {:induction false} PayloadsSame(hs: seq<Handler>, ks: seq<Handler>)
    requires |hs| == |ks| && forall i :: 0 <= i < |hs| ==> hs[i].payload == ks[i].payload
    ensures Payloads(hs) == Payloads(ks)
  {
  }

  lemma {:induction false} WrittenSame(hs: seq<Handler>, ks: seq<Handler>, order: seq<nat>)
    requires AllWrote(hs, order) && forall k :: 0 <= k < |order| ==> order[k] < |ks| && ks[order[k]] == hs[order[k]]
    ensures AllWrote(ks, order) && Written(hs, order) == Written(ks, order)
  {
  }

  lemma PayloadsSnoc(hs: seq<Handler>, h: Handler)
    ensures Payloads(hs + [h]) == Payloads(hs) + [h.payload]
  {
  }

  lemma {:induction false} EncodeAllSnoc(ms: seq<bytes>, m: bytes)
    ensures EncodeAll(ms + [m]) == EncodeAll(ms) + Encode(m)
  {
    EncodeAllSplit(ms + [m], |ms|);
    assert (ms + [m])[..|ms|] == ms && (ms + [m])[|ms|..] == [m];
    assert EncodeAll([m]) == Encode(m) + EncodeAll([m][1..]);
  }

  lemma ReadAsks(codec: Codec, s: Sys)
    requires Asked(codec, s) && s.open
    ensures Asked(codec, Apply(codec, s, Read))
  {
    var f := ReadFrame(SOCKET, s.input);
    if f.Got? && !Subscribes(codec, f.payload) {
      var later := Dispatched(codec, f.rest);
      PayloadsSnoc(s.handlers, Running(f.payload));
      assert Payloads(s.handlers) + ([f.payload] + later.0) == Payloads(s.handlers) + [f.payload] + later.0;
    }
  }

  /** One more request has no effect on what was answered. */
  lemma MoreHandlers(codec: Codec, s: Sys, t: Sys)
    requires Answered(codec, s) && s.handlers <= t.handlers
    requires forall i :: |s.handlers| <= i < |t.handlers| ==> t.handlers[i].Running?
    requires t.order == s.order && t.output == s.output && t.partial == s.partial
    ensures Answered(codec, t)
  {
    WrittenSame(s.handlers, t.handlers, s.order);
  }

  lemma KeepRead(codec: Codec, s: Sys)
    requires Inv(codec, s) && s.open
    ensures Inv(codec, Apply(codec, s, Read))
  {
    var t := Apply(codec, s, Read);
    ReadAsks(codec, s);
    MoreHandlers(codec, s, t);
    assert CutShort(codec, t);
  }

  lemma WrittenSnoc(hs: seq<Handler>, order: seq<nat>, i: nat)
    requires AllWrote(hs, order) && i < |hs| && hs[i].Wrote?
    ensures AllWrote(hs, order + [i])
    ensures Written(hs, order + [i]) == Written(hs, order) + [hs[i].data]
  {
    assert (order + [i])[..|order|] == order;
  }

  lemma OutputSnoc(output: bytes, ms: seq<bytes>, m: bytes, none: bytes)
    requires output == EncodeAll(ms) + none && none == []
    ensures output + Encode(m) == EncodeAll(ms + [m]) + none
  {
    EncodeAllSnoc(ms, m);
  }

  lemma OrderAppends(s: Sys, t: Sys, i: nat, h: Handler)
    requires Ordered(s) && i < |s.handlers| && s.handlers[i].Running? && h.Wrote?
    requires t.handlers == s.handlers[i := h] && t.order == s.order + [i]
    ensures Ordered(t)
  {
    assert i !in s.order;
    forall j | 0 <= j < |t.handlers| && t.handlers[j].Wrote? ensures j in t.order {
      if j == i { assert t.order[|s.order|] == i; }
    }
  }

  lemma ReplyTells(codec: Codec, payload: bytes, e: Ending)
    requires codec.parse(payload).Some? ==> CanEnd(codec.parse(payload).value.verb, e)
    ensures Tells(codec, payload, e, Reply(codec.parse(payload), e))
  {
  }

  lemma AnswerAppends(codec: Codec, s: Sys, i: nat, e: Ending, response: Response, data: bytes)
    requires Answered(codec, s) && s.partial == [] && i < |s.handlers| && s.handlers[i].Running?
    requires Honest(codec, Wrote(s.handlers[i].payload, e, response, data))
    ensures Answered(codec, Appended(s, i, e, response, data))
  {
    var h := Wrote(s.handlers[i].payload, e, response, data);
    var hs := s.handlers[i := h];
    var t := s.(handlers := hs, output := s.output + Encode(data), order := s.order + [i]);
    OrderAppends(s, t, i, h);
    AppendedFrames(s, hs, i, data);
  }

  lemma AppendedFrames(s: Sys, hs: seq<Handler>, i: nat, data: bytes)
    requires Ordered(s) && s.partial == [] && s.output == EncodeAll(Written(s.handlers, s.order)) + s.partial
    requires i < |s.handlers| && s.handlers[i].Running? && |hs| == |s.handlers| && hs[i].Wrote? && hs[i].data == data
    requires forall j :: 0 <= j < |hs| && j != i ==> hs[j] == s.handlers[j]
    ensures AllWrote(hs, s.order + [i]) && s.output + Encode(data) == EncodeAll(Written(hs, s.order + [i])) + s.partial
  {
    WrittenSame(s.handlers, hs, s.order);
    WrittenSnoc(hs, s.order, i);
    OutputSnoc(s.output, Written(hs, s.order), data, s.partial);
  }

  lemma KeepAnswer(codec: Codec, s: Sys, i: nat, e: Ending)
    requires Inv(codec, s) && Enabled(codec, s, Answer(i, e))
    ensures Inv(codec, Apply(codec, s, Answer(i, e)))
  {
    var response, data := Reply(codec.parse(s.handlers[i].payload), e), Encoded(codec, s, i, e).value;
    ReplyTells(codec, s.handlers[i].payload, e);
    AppendKeeps(codec, s, i, e, response, data);
  }

  lemma AppendKeeps(codec: Codec, s: Sys, i: nat, e: Ending, response: Response, data: bytes)
    requires Inv(codec, s) && !s.broken && i < |s.handlers| && s.handlers[i].Running?
    requires Honest(codec, Wrote(s.handlers[i].payload, e, response, data))
    ensures Inv(codec, Appended(s, i, e, response, data))
  {
    AnswerAppends(codec, s, i, e, response, data);
    PayloadsSame(s.handlers, Appended(s, i, e, response, data).handlers);
  }

  /** A handler that ends without a whole frame changes nothing in what was answered before. */
  lemma EndedAnswers(codec: Codec, s: Sys, t: Sys, i: nat, h: Handler, part: bytes)
    requires Answered(codec, s) && i < |s.handlers| && s.handlers[i].Running? && !h.Wrote? && Honest(codec, h)
    requires t.handlers == s.handlers[i := h] && t.order == s.order
    requires t.output == s.output + part && t.partial == s.partial + part
    ensures Answered(codec, t)
  {
    assert i !in s.order;
    WrittenSame(s.handlers, t.handlers, s.order);
    assert s.output + part == EncodeAll(Written(s.handlers, s.order)) + (s.partial + part);
  }

  lemma KeepDrop(codec: Codec, s: Sys, i: nat, e: Ending)
    requires Inv(codec, s) && Enabled(codec, s, Drop(i, e))
    ensures Inv(codec, Apply(codec, s, Drop(i, e)))
  {
    var payload := s.handlers[i].payload;
    var h := Dropped(payload, e, Reply(codec.parse(payload), e));
    var t := s.(handlers := s.handlers[i := h]);
    PayloadsSame(s.handlers, t.handlers);
    NothingAdded(s);
    ReplyTells(codec, payload, e);
    EndedAnswers(codec, s, t, i, h, []);
  }

  lemma NothingAdded(s: Sys)
    ensures s.output + [] == s.output && s.partial + [] == s.partial
  {
  }

  lemma KeepFailAnswer(codec: Codec, s: Sys, i: nat, e: Ending, sent: nat)
    requires Inv(codec, s) && Enabled(codec, s, FailAnswer(i, e, sent))
    ensures Inv(codec, Apply(codec, s, FailAnswer(i, e, sent)))
  {
    var t := Apply(codec, s, FailAnswer(i, e, sent));
    PayloadsSame(s.handlers, t.handlers);
    var response := Reply(codec.parse(s.handlers[i].payload), e);
    var frame := Encode(Encoded(codec, s, i, e).value);
    var part := if s.open && !s.broken && sent < |frame| then frame[..sent] else [];
    EndedAnswers(codec, s, t, i, t.handlers[i], part);
    if part != [] {
      assert Cut(codec, response, sent, t.partial);
    } else {
      assert t.partial == s.partial;
    }
  }

  /** The invariant holds in every state of every run. */
  lemma {:induction false} Reachable(codec: Codec, request: bytes, run: seq<Action>)
    ensures var s := After(codec, request, run); Inv(codec, s) && s.request == request
  {
    if run == [] {
      var s := Start(request);
      assert Payloads(s.handlers) + Dispatched(codec, s.input).0 == Dispatched(codec, s.input).0;
    } else {
      var last := |run| - 1;
      Reachable(codec, request, run[..last]);
      var s, a := After(codec, request, run[..last]), run[last];
      if Enabled(codec, s, a) {
        match a
        case Read => KeepRead(codec, s);
        case Close =>
        case Answer(i, e) => KeepAnswer(codec, s, i, e);
        case Drop(i, e) => KeepDrop(codec, s, i, e);
        case FailAnswer(i, e, sent) => KeepFailAnswer(codec, s, i, e, sent);
      }
    }
  }

  /** A duplicate-free listing of all the numbers below n has n entries. */
  lemma {:induction false} PermutationLength(order: seq<nat>, n: nat)
    requires Distinct(order) && (forall k :: 0 <= k < |order| ==> order[k] < n) && forall i :: 0 <= i < n ==> i in order
    ensures |order| == n
    decreases n
  {
    if order != [] {
      assert order[0] < n && n - 1 in order;
      var k :| 0 <= k < |order| && order[k] == n - 1;
      var rest := order[..k] + order[k + 1..];
      forall i | 0 <= i < n - 1 ensures i in rest {
        assert i in order;
        var j :| 0 <= j < |order| && order[j] == i;
        assert rest[if j < k then j else j - 1] == i;
      }
      PermutationLength(rest, n - 1);
    } else {
      assert n > 0 ==> 0 in order;
    }
  }

  /** The connection is up and every request read has been dealt with; the responses written fit into a frame. */
  predicate AllAnswered(s: Sys) {
    s.open && !s.broken && forall i :: 0 <= i < |s.handlers| ==>
                             s.handlers[i].Dropped? || (s.handlers[i].Wrote? && Fits(SOCKET, s.handlers[i].data))
  }

  predicate NoneDropped(s: Sys) {
    forall i :: 0 <= i < |s.handlers| ==> !s.handlers[i].Dropped?
  }

  /**
   The client decodes one response for each request whose response has an encoding, in some order, each
   with its request's id and saying how its handler ended, and nothing else.
   */
  ghost predicate OneEach(codec: Codec, s: Sys, out: Outcome)
    requires Ordered(s)
  {
    && out.error == Header(EOF) && |out.messages| == |s.order| && (NoneDropped(s) ==> |s.order| == |s.handlers|)
    && (forall i :: 0 <= i < |s.handlers| ==> (i in s.order <==> codec.marshal(ResponseOf(s, i)).Some?))
    && forall k :: 0 <= k < |s.order| ==>
         var h := s.handlers[s.order[k]];
         Some(out.messages[k]) == codec.marshal(h.response) && Tells(codec, h.payload, h.ending, h.response)
  }

  function ResponseOf(s: Sys, i: nat): Response
    requires i < |s.handlers|
  {
    if s.handlers[i].Wrote? || s.handlers[i].Dropped? then s.handlers[i].response else Fail(None, "")
  }

  /**
   On an open connection, once every request read has been dealt with, what the client decodes is a
   permutation of exactly one response per request, those without an encoding excepted.
   */
  lemma OneResponsePerRequest(codec: Codec, request: bytes, run: seq<Action>)
    requires AllAnswered(After(codec, request, run))
    ensures var s := After(codec, request, run);
            && Ordered(s) && OneEach(codec, s, ReadAll(SOCKET, s.output))
            && Payloads(s.handlers) <= Dispatched(codec, request).0
  {
    Reachable(codec, request, run);
    AnsweredIsOneEach(codec, After(codec, request, run));
  }

  lemma AnsweredIsOneEach(codec: Codec, s: Sys)
    requires Answered(codec, s) && s.partial == [] && AllAnswered(s)
    ensures OneEach(codec, s, ReadAll(SOCKET, s.output))
  {
    if NoneDropped(s) { AllListed(s); }
    forall i | 0 <= i < |s.handlers| ensures i in s.order <==> codec.marshal(ResponseOf(s, i)).Some? {
      ListedIfEncoded(codec, s, i);
    }
    var out := ReadAll(SOCKET, s.output);
    DecodedAsWritten(s);
    forall k | 0 <= k < |s.order|
      ensures var h := s.handlers[s.order[k]];
              Some(out.messages[k]) == codec.marshal(h.response) && Tells(codec, h.payload, h.ending, h.response)
    {
      assert Honest(codec, s.handlers[s.order[k]]);
    }
  }

  lemma AllListed(s: Sys)
    requires Ordered(s) && AllAnswered(s) && NoneDropped(s)
    ensures |s.order| == |s.handlers|
  {
    PermutationLength(s.order, |s.handlers|);
  }

  lemma ListedIfEncoded(codec: Codec, s: Sys, i: nat)
    requires Answered(codec, s) && AllAnswered(s) && i < |s.handlers|
    ensures i in s.order <==> codec.marshal(ResponseOf(s, i)).Some?
  {
    assert Honest(codec, s.handlers[i]);
  }

  lemma DecodedAsWritten(s: Sys)
    requires Ordered(s) && s.output == EncodeAll(Written(s.handlers, s.order)) + s.partial && s.partial == [] && AllAnswered(s)
    ensures ReadAll(SOCKET, s.output) == Outcome(Written(s.handlers, s.order), Header(EOF))
  {
    var ms := Written(s.handlers, s.order);
    assert s.output == EncodeAll(ms);
    StreamRoundTrip(SOCKET, ms);
  }

  /** The client can decode every response, and the request `i` is the only one with its id. */
  predicate UniqueId(codec: Codec, s: Sys, i: nat) {
    i < |s.handlers| && forall j :: 0 <= j < |s.handlers| ==>
                          && (s.handlers[j].Wrote? ==> codec.unmarshal(s.handlers[j].data) == Some(s.handlers[j].response))
                          && (j != i ==> IdOf(codec, s.handlers[j].payload) != IdOf(codec, s.handlers[i].payload))
  }

  /**
   So the client finds exactly one response for a request whose id no other request has, or none if
   that response has no encoding.
   */
  lemma EachIdAnsweredOnce(codec: Codec, request: bytes, run: seq<Action>, i: nat) returns (k: nat)
    requires AllAnswered(After(codec, request, run)) && UniqueId(codec, After(codec, request, run), i)
    ensures var s := After(codec, request, run); var ms := ReadAll(SOCKET, s.output).messages;
            && (s.handlers[i].Wrote? ==> k < |ms|)
            && forall l :: 0 <= l < |ms| ==>
                 (AnswersId(codec, ms[l], IdOf(codec, s.handlers[i].payload)) <==> s.handlers[i].Wrote? && l == k)
  {
    Reachable(codec, request, run);
    OneResponsePerRequest(codec, request, run);
    k := AnswerOf(codec, After(codec, request, run), ReadAll(SOCKET, After(codec, request, run).output), i);
  }

  lemma AnswerOf(codec: Codec, s: Sys, out: Outcome, i: nat) returns (k: nat)
    requires Answered(codec, s) && OneEach(codec, s, out) && UniqueId(codec, s, i)
    ensures s.handlers[i].Wrote? ==> k < |out.messages|
    ensures forall l :: 0 <= l < |out.messages| ==>
              (AnswersId(codec, out.messages[l], IdOf(codec, s.handlers[i].payload)) <==> s.handlers[i].Wrote? && l == k)
  {
    if s.handlers[i].Wrote? {
      assert i in s.order;
      k :| 0 <= k < |s.order| && s.order[k] == i;
    } else {
      k := 0;
    }
  }

  predicate AnswersId(codec: Codec, message: bytes, id: Option<string>) {
    var response := codec.unmarshal(message);
    response.Some? && response.value.id == id
  }

  /**
   Whatever happens to the connection, the client decodes only whole responses, at most one for each
   request; a write cut short shows up as an error after them and never as a message.
   */
  lemma {:induction false} NeverGarbled(codec: Codec, request: bytes, run: seq<Action>)
    requires forall response: Response :: Sendable(codec, After(codec, request, run), response) ==> Framed(codec, response)
    ensures var s := After(codec, request, run);
            Ordered(s) && ReadAll(SOCKET, s.output).messages == Written(s.handlers, s.order)
  {
    Reachable(codec, request, run);
    var s := After(codec, request, run);
    var ms := Written(s.handlers, s.order);
    forall m | m in ms ensures Fits(SOCKET, m) {
      var k :| 0 <= k < |ms| && ms[k] == m;
      assert Sendable(codec, s, s.handlers[s.order[k]].response);
    }
    ReadAllPrepend(SOCKET, ms, s.partial);
    if s.partial != [] {
      var response, cut :| Cut(codec, response, cut, s.partial);
      assert Sendable(codec, s, response);
      CutFrame(SOCKET, codec.marshal(response).value, cut);
    }
    assert ms + [] == ms;
  }

  /** The response, if it has an encoding, fits into a frame. */
  predicate Framed(codec: Codec, response: Response) {
    var data := codec.marshal(response);
    data.Some? ==> Fits(SOCKET, data.value)
  }

  /** The response was written, or a write of it was cut short. */
  ghost predicate Sendable(codec: Codec, s: Sys, response: Response) {
    || (exists i :: 0 <= i < |s.handlers| && s.handlers[i].Wrote? && s.handlers[i].response == response)
    || (exists cut :: Cut(codec, response, cut, s.partial))
  }
}
