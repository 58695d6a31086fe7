/**
 The vsock bridge to the guest: its shared state, the critical sections of the callers, the reader
 and `Close`, and every interleaving of them for unboundedly many calls and connections.
 */
module GuestBridge {
  import opened Channels
  import opened Options

  const WORD: nat := 0x1_0000_0000_0000_0000

  // ---- Messages from the guest ----

  /** The `error` field of a message: absent, JSON null, a string, or any other value's text. */
  datatype ErrorField = NoError | NullError | TextError(text: string) | OtherError(raw: string)

  /** A parsed guest message; `id` is `None` when the field is absent. */
  datatype Message = Message(
    typ: string, event: string, id: Option<nat>, success: bool,
    error: ErrorField, result: Option<string>, raw: string)

  /** What a call receives; `from` is the id of the message it was taken from. */
  datatype Reply = Result(from: nat, payload: string) | Refused(from: nat, message: string)

  datatype Kind = Event | Answer(id: nat, reply: Reply) | Unhandled

  predicate Forwarded(name: string) {
    name in {"stdout", "stderr", "exit", "networkStatus", "apiReachability", "ready", "startupStep"}
  }

  function ErrorText(e: ErrorField): Option<string> {
    match e
    case NoError => None
    case NullError => None
    case TextError(text) => Some(if text == "" then "guest error" else text)
    case OtherError(raw) => Some("guest error: " + raw)
  }

  function ReplyOf(id: nat, m: Message): Reply {
    match ErrorText(m.error)
    case Some(text) => Refused(id, text)
    case None => Result(id, if m.result.Some? then m.result.value else m.raw)
  }

  /** The branches of `handleMessage`. */
  function Classify(m: Message): Kind {
    if Forwarded(m.typ) || (m.typ == "event" && Forwarded(m.event)) then Event
    else if (m.typ == "response" || m.success || m.result.Some? || !m.error.NoError?) && m.id.Some? then
      Answer(m.id.value, ReplyOf(m.id.value, m))
    else Unhandled
  }

  // ---- The bridge object ----

  /** The fields under the bridge's locks, the channels made so far, and the open descriptors. */
  datatype Shared = Shared(
    conn: Option<nat>, connected: bool, closed: bool,
    pending: map<nat, nat>, nextID: nat,
    chans: map<nat, Channel<Reply>>, open: set<nat>)

  function RegisterIn(sh: Shared, call: nat, id: nat): Shared {
    sh.(chans := sh.chans[call := Fresh()], pending := sh.pending[id := call])
  }

  function RemoveFrom(sh: Shared, id: nat): Shared {
    sh.(pending := sh.pending - {id})
  }

  /** Some id taken out of `all`, leaving `left`, has its reply channel at `c`. */
  predicate Taken(all: map<nat, nat>, left: map<nat, nat>, c: nat) {
    exists id :: id in all && id !in left && all[id] == c
  }

  /** The channels once the entries of `all` that are not in `left` are closed. */
  function CloseTaken(chans: map<nat, Channel<Reply>>, all: map<nat, nat>, left: map<nat, nat>): map<nat, Channel<Reply>> {
    map c | c in chans :: if Taken(all, left, c) then Close(chans[c]) else chans[c]
  }

  function FlushIn(sh: Shared): Shared {
    sh.(pending := map[], chans := CloseTaken(sh.chans, sh.pending, map[]))
  }

  function InstallIn(sh: Shared, c: nat): Shared {
    sh.(conn := Some(c), open := if sh.conn.Some? then sh.open - {sh.conn.value} else sh.open)
  }

  function DetachIn(sh: Shared, c: nat): Shared {
    if sh.conn == Some(c) then sh.(conn := None) else sh
  }

  function DropIn(sh: Shared): Shared {
    if sh.conn.Some? then sh.(conn := None, open := sh.open - {sh.conn.value}) else sh
  }

  /** Every pending channel exists, can be sent to and closed, and is pending under one id only. */
  predicate Ready(pending: map<nat, nat>, chans: map<nat, Channel<Reply>>) {
    && (forall id :: id in pending ==> pending[id] in chans && CanSend(chans[pending[id]]))
    && (forall id, other :: id in pending && other in pending && id != other ==> pending[id] != pending[other])
  }

  /** One step of a flush: the channel is still open, and closing it is what removing its entry calls for. */
  /** The entries of `left` are among those of `all`. */
  predicate Among(left: map<nat, nat>, all: map<nat, nat>) {
    forall id :: id in left ==> id in all && all[id] == left[id]
  }

  lemma FlushStep(chans: map<nat, Channel<Reply>>, all: map<nat, nat>, left: map<nat, nat>, id: nat)
    requires Ready(all, chans) && id in left && Among(left, all)
    ensures var c := left[id]; var now := CloseTaken(chans, all, left);
            && c in now && CanClose(now[c]) && Among(left - {id}, all)
            && now[c := Close(now[c])] == CloseTaken(chans, all, left - {id})
  {
    var c := all[id];
    var now, next := CloseTaken(chans, all, left), CloseTaken(chans, all, left - {id});
    forall d | d in chans ensures Taken(all, left - {id}, d) <==> Taken(all, left, d) || d == c {
      if d == c { assert id in all && id !in left - {id} && all[id] == d; }
    }
    assert next.Keys == now.Keys + {c};
  }

  lemma NothingTaken(chans: map<nat, Channel<Reply>>, all: map<nat, nat>)
    ensures CloseTaken(chans, all, all) == chans
  {
  }

  lemma FewerEntries(m: map<nat, nat>, id: nat)
    requires id in m
    ensures |m - {id}| < |m|
  {
    assert (m - {id}).Keys == m.Keys - {id};
    assert |(m - {id}).Keys| == |m.Keys| - 1;
  }

  class Bridge {
    var conn: Option<nat>
    var connected: bool
    var closed: bool
    var pending: map<nat, nat>
    var nextID: nat
    var chans: map<nat, Channel<Reply>>
    var open: set<nat>

    ghost function State(): Shared
      reads this
    {
      Shared(conn, connected, closed, pending, nextID, chans, open)
    }

    constructor ()
      ensures State() == Shared(None, false, false, map[], 0, map[], {})
    {
      conn, connected, closed, pending, nextID := None, false, false, map[], 0;
      chans, open := map[], {};
    }

    /** `atomic.AddUint64(&g.nextID, 1)`. */
    method NextID() returns (id: nat)
      modifies this
      ensures id == (old(nextID) + 1) % WORD && State() == old(State()).(nextID := id)
    {
      nextID := (nextID + 1) % WORD;
      id := nextID;
    }

    method Register(call: nat, id: nat)
      modifies this
      ensures State() == RegisterIn(old(State()), call, id)
    {
      chans := chans[call := Fresh()];
      pending := pending[id := call];
    }

    /** `delete(g.pending, id)` after a failed write or a timeout. */
    method Unregister(id: nat)
      modifies this
      ensures State() == RemoveFrom(old(State()), id)
    {
      pending := pending - {id};
    }

    /** The lookup of a reply's channel, which takes it out of `pending`. */
    method TakePending(id: nat) returns (found: Option<nat>)
      modifies this
      ensures found == if id in old(pending) then Some(old(pending)[id]) else None
      ensures State() == RemoveFrom(old(State()), id)
    {
      found := None;
      if id in pending {
        found := Some(pending[id]);
        pending := pending - {id};
      }
    }

    /** What is done with a reply outside the lock: the send, then the close. */
    method SendAndClose(call: nat, reply: Reply)
      requires call in chans && CanSend(chans[call])
      modifies this
      ensures State() == old(State()).(chans := old(chans)[call := Channel([reply], true)])
    {
      chans := chans[call := Send(chans[call], reply)];
      assert chans[call].buf == [reply];
      chans := chans[call := Close(chans[call])];
    }

    /**
     `handleMessage` in one go: an event is emitted under its name, an answer to a pending id takes the
     channel out of `pending` and gets the reply, and anything else changes nothing.
     */
    method HandleMessage(m: Message) returns (emitted: Option<string>)
      requires Ready(pending, chans)
      modifies this
      ensures emitted == if Forwarded(m.typ) then Some(m.typ)
                         else if m.typ == "event" && Forwarded(m.event) then Some(m.event) else None
      ensures var k, sh := Classify(m), old(State());
              State() == if k.Answer? && k.id in sh.pending
                         then RemoveFrom(sh, k.id).(chans := sh.chans[sh.pending[k.id] := Channel([k.reply], true)])
                         else sh
    {
      if Forwarded(m.typ) { return Some(m.typ); }
      if m.typ == "event" {
        if Forwarded(m.event) { return Some(m.event); }
      }
      emitted := None;
      if m.typ == "response" || m.success || m.result.Some? || !m.error.NoError? {
        if m.id.Some? {
          var id := m.id.value;
          var found := TakePending(id);
          if found.Some? {
            var failure := None;
            if !m.error.NoError? {
              failure := ErrorText(m.error);
            }
            var reply := if failure.Some? then Refused(id, failure.value)
                         else Result(id, if m.result.Some? then m.result.value else m.raw);
            SendAndClose(found.value, reply);
          } else {
            assert pending == old(pending);
          }
        }
      }
    }

    /** The flush at the end of a connection, in whatever order the map yields its entries. */
    method Flush()
      requires Ready(pending, chans)
      modifies this`pending, this`chans
      ensures State() == FlushIn(old(State()))
    {
      ghost var all, chans0 := pending, chans;
      NothingTaken(chans, pending);
      while pending != map[]
        invariant Among(pending, all)
        invariant chans == CloseTaken(chans0, all, pending)
        decreases |pending|
      {
        var left, now := pending, chans;
        var id :| id in left;
        FlushStep(chans0, all, left, id);
        FewerEntries(left, id);
        chans := now[left[id] := Close(now[left[id]])];
        pending := left - {id};
      }
    }

    method Install(c: nat)
      modifies this
      ensures State() == InstallIn(old(State()), c)
    {
      if conn.Some? {
        open := open - {conn.value};
      }
      conn := Some(c);
    }

    method Detach(c: nat)
      modifies this
      ensures State() == DetachIn(old(State()), c)
    {
      if conn == Some(c) {
        conn := None;
      }
    }

    method Drop()
      modifies this
      ensures State() == DropIn(old(State()))
    {
      if conn.Some? {
        open := open - {conn.value};
        conn := None;
      }
    }
  }
}
