/**
 What a `Forward` call gets: over every run the cause of each outcome, and how a call on a connected
 bridge comes to its answer.
 */
module BridgeCalls {
  import opened Channels
  import opened GuestBridge
  import opened BridgeProtocol
  import opened Options

  // ---- Causes ----

  /** The bridge held no connection when the call was made. */
  ghost predicate HadNone(run: seq<Action>, i: nat) {
    exists k :: 0 <= k < |run| && run[k] == Load && |After(run[..k]).calls| == i && After(run[..k]).sh.conn.None?
  }

  predicate DownAt(s: Sys, i: nat) {
    i < |s.calls| && !s.calls[i].pc.Done? && !s.sh.connected
  }

  /** The bridge was not connected at some moment of the call. */
  ghost predicate SawDown(run: seq<Action>, i: nat) {
    exists k :: 0 <= k < |run| && DownAt(After(run[..k]), i)
  }

  /** The reply is what the message says: its error if it has one, else its result, else all of it. */
  predicate Tells(m: Message, r: Reply) {
    match m.error
    case TextError(text) => r.Refused? && (text != "" ==> r.message == text) && (text == "" ==> r.message == "guest error")
    case OtherError(raw) => r.Refused? && r.message == "guest error: " + raw
    case _ => r.Result? && (m.result.Some? ==> m.result == Some(r.payload)) && (m.result.None? ==> r.payload == m.raw)
  }

  /** The message is no event, and looks like a response to the request with that id. */
  predicate Responds(m: Message, id: nat) {
    && !Forwarded(m.typ) && !(m.typ == "event" && Forwarded(m.event))
    && (m.typ == "response" || m.success || m.result.Some? || !m.error.NoError?) && m.id == Some(id)
  }

  /** The guest sent a response that says so. */
  ghost predicate Said(run: seq<Action>, r: Reply) {
    exists m :: Read(m) in run && Responds(m, r.from) && Tells(m, r)
  }

  ghost predicate Caused(run: seq<Action>, i: nat, o: Outcome) {
    match o
    case NotConnected => HadNone(run, i) || SawDown(run, i)
    case Replied(r) => Said(run, r)
    case Disconnected => Flush in run
    case WriteFailure => FailWrite(i) in run
    case Timeout => Expire(i) in run
  }

  ghost predicate CallTraced(run: seq<Action>, i: nat, c: Call) {
    && (c.conn.None? ==> HadNone(run, i))
    && (c.pc.Failed? ==> FailWrite(i) in run)
    && (c.pc.TimedOut? ==> Expire(i) in run)
    && (c.pc.Done? ==> Caused(run, i, c.pc.outcome))
  }

  ghost predicate ChanTraced(run: seq<Action>, c: Channel<Reply>, answered: bool) {
    (forall r :: r in c.buf ==> Said(run, r)) && (c.closed && !answered ==> Flush in run)
  }

  ghost predicate Traced(run: seq<Action>, s: Sys) {
    && (forall i :: 0 <= i < |s.calls| ==> CallTraced(run, i, s.calls[i]))
    && (forall i :: i in s.sh.chans ==> ChanTraced(run, s.sh.chans[i], i in s.answered))
    && (s.reader.Holding? ==> Said(run, s.reader.reply))
  }

  // ---- They stay ----

  lemma CauseStays(run: seq<Action>, a: Action, i: nat, o: Outcome)
    requires Caused(run, i, o)
    ensures Caused(run + [a], i, o)
  {
    match o
    case NotConnected =>
      if HadNone(run, i) { HadNoneStays(run, a, i); } else { SawDownStays(run, a, i); }
    case Replied(r) => SaidStays(run, a, r);
    case _ =>
  }

  lemma HadNoneStays(run: seq<Action>, a: Action, i: nat)
    requires HadNone(run, i)
    ensures HadNone(run + [a], i)
  {
    var k :| 0 <= k < |run| && run[k] == Load && |After(run[..k]).calls| == i && After(run[..k]).sh.conn.None?;
    assert (run + [a])[..k] == run[..k] && (run + [a])[k] == run[k];
  }

  lemma SawDownStays(run: seq<Action>, a: Action, i: nat)
    requires SawDown(run, i)
    ensures SawDown(run + [a], i)
  {
    var k :| 0 <= k < |run| && DownAt(After(run[..k]), i);
    assert (run + [a])[..k] == run[..k];
  }

  lemma SaidStays(run: seq<Action>, a: Action, r: Reply)
    requires Said(run, r)
    ensures Said(run + [a], r)
  {
    var m :| Read(m) in run && Responds(m, r.from) && Tells(m, r);
    assert Read(m) in run + [a];
  }

  lemma CallStays(run: seq<Action>, a: Action, i: nat, c: Call)
    requires CallTraced(run, i, c)
    ensures CallTraced(run + [a], i, c)
  {
    if c.conn.None? { HadNoneStays(run, a, i); }
    if c.pc.Done? { CauseStays(run, a, i, c.pc.outcome); }
  }

  lemma ChanStays(run: seq<Action>, a: Action, c: Channel<Reply>, answered: bool)
    requires ChanTraced(run, c, answered)
    ensures ChanTraced(run + [a], c, answered)
  {
    forall r | r in c.buf ensures Said(run + [a], r) {
      SaidStays(run, a, r);
    }
  }

  // ---- Every action leaves a trace ----

  lemma LoadTraced(run: seq<Action>)
    requires After(run).sh.conn.None?
    ensures HadNone(run + [Load], |After(run).calls|)
  {
    var all := run + [Load];
    assert all[..|run|] == run && all[|run|] == Load;
  }

  lemma CheckTraced(run: seq<Action>, i: nat)
    requires DownAt(After(run), i)
    ensures SawDown(run + [Check(i)], i)
  {
    assert (run + [Check(i)])[..|run|] == run;
  }

  /** A message that is taken for an answer is read as it says. */
  lemma ReadTraced(run: seq<Action>, m: Message)
    requires Classify(m).Answer?
    ensures Said(run + [Read(m)], Classify(m).reply) && Classify(m).reply.from == Classify(m).id
  {
    var r := Classify(m).reply;
    assert Read(m) in run + [Read(m)] && Responds(m, r.from) && Tells(m, r);
  }

  /** The step of one call. */
  lemma OwnCallTraced(run: seq<Action>, a: Action, i: nat)
    requires var s := After(run); Inv(s) && Traced(run, s) && Enabled(s, a) && i < |s.calls| && ByCall(a, i)
    ensures CallTraced(run + [a], i, Apply(After(run), a).calls[i])
  {
    var s := After(run);
    CallStays(run, a, i, s.calls[i]);
    assert Good(s, i) && a in run + [a];
    if a.Check? && !s.sh.connected { CheckTraced(run, i); }
    if a.Receive? { ChanStays(run, a, s.sh.chans[i], i in s.answered); }
  }

  lemma CallsTraced(run: seq<Action>, a: Action, i: nat)
    requires var s := After(run); Inv(s) && Traced(run, s) && Enabled(s, a) && i < |Apply(s, a).calls|
    ensures CallTraced(run + [a], i, Apply(After(run), a).calls[i])
  {
    var s := After(run);
    if i >= |s.calls| {
      NewCall(s, a, i);
      if s.sh.conn.None? { LoadTraced(run); }
    } else if ByCall(a, i) {
      OwnCallTraced(run, a, i);
    } else {
      OtherStepsLeaveIt(s, a, i);
      CallStays(run, a, i, s.calls[i]);
    }
  }

  lemma NewCall(s: Sys, a: Action, i: nat)
    requires Enabled(s, a) && |s.calls| <= i < |Apply(s, a).calls|
    ensures a == Load && i == |s.calls| && Apply(s, a).calls[i] == Call(Loaded, s.sh.conn, 0, false)
  {
  }

  /** What an action does to one reply channel. */
  lemma ChanMoves(s: Sys, a: Action, i: nat)
    requires Inv(s) && Enabled(s, a) && i in Apply(s, a).sh.chans
    ensures var t := Apply(s, a);
            || t.sh.chans[i] == Fresh()
            || (i in s.sh.chans && t.sh.chans[i] == s.sh.chans[i] && (i in s.answered ==> i in t.answered))
            || (i in s.sh.chans && t.sh.chans[i] == Received(s.sh.chans[i]) && t.answered == s.answered)
            || (i in s.sh.chans && a == Deliver && s.reader.call == i && t.sh.chans[i] == Send(s.sh.chans[i], s.reader.reply)
                && i in t.answered)
            || (i in s.sh.chans && a == CloseReply && t.sh.chans[i] == Close(s.sh.chans[i]) && i in t.answered)
            || (i in s.sh.chans && a == Flush && t.sh.chans[i] == Close(s.sh.chans[i]) && t.answered == s.answered)
  {
  }

  lemma ChansTraced(run: seq<Action>, a: Action, i: nat)
    requires var s := After(run); Inv(s) && Traced(run, s) && Enabled(s, a) && i in Apply(s, a).sh.chans
    ensures var t := Apply(After(run), a); ChanTraced(run + [a], t.sh.chans[i], i in t.answered)
  {
    var s := After(run);
    ChanMoves(s, a, i);
    if i in s.sh.chans { ChanStays(run, a, s.sh.chans[i], i in s.answered); }
    if a == Deliver { SaidStays(run, a, s.reader.reply); }
    assert a in run + [a];
  }

  lemma HandTraced(run: seq<Action>, a: Action)
    requires var s := After(run); Traced(run, s) && Enabled(s, a)
    ensures var t := Apply(After(run), a); t.reader.Holding? ==> Said(run + [a], t.reader.reply)
  {
    var s := After(run);
    if s.reader.Holding? { SaidStays(run, a, s.reader.reply); }
    if a.Read? && Classify(a.m).Answer? { ReadTraced(run, a.m); }
  }

  lemma {:induction false} AlwaysTraced(run: seq<Action>)
    requires After(run).issued < WORD
    ensures Traced(run, After(run))
  {
    if run != [] {
      var init, a := run[..|run| - 1], run[|run| - 1];
      IssuedGrows(run, |run| - 1);
      AlwaysTraced(init);
      Reachable(init);
      TraceOne(init, a);
      assert run == init + [a];
    }
  }

  lemma TraceOne(run: seq<Action>, a: Action)
    requires Inv(After(run)) && Traced(run, After(run))
    ensures Traced(run + [a], if Enabled(After(run), a) then Apply(After(run), a) else After(run))
  {
    var s := After(run);
    if Enabled(s, a) {
      var t := Apply(s, a);
      forall i | 0 <= i < |t.calls| ensures CallTraced(run + [a], i, t.calls[i]) {
        CallsTraced(run, a, i);
      }
      forall i | i in t.sh.chans ensures ChanTraced(run + [a], t.sh.chans[i], i in t.answered) {
        ChansTraced(run, a, i);
      }
      HandTraced(run, a);
    } else {
      forall i | 0 <= i < |s.calls| ensures CallTraced(run + [a], i, s.calls[i]) {
        CallStays(run, a, i, s.calls[i]);
      }
      forall i | i in s.sh.chans ensures ChanTraced(run + [a], s.sh.chans[i], i in s.answered) {
        ChanStays(run, a, s.sh.chans[i], i in s.answered);
      }
      if s.reader.Holding? { SaidStays(run, a, s.reader.reply); }
    }
  }

  /**
   Whatever a call returned with has its cause in the run: it reports no connection only if there was
   none or the bridge was down, a reply only as the guest sent it, a disconnect only after a flush, and
   a failed write or a timeout only after its own.
   */
  lemma {:induction false} EveryOutcomeHasItsCause(run: seq<Action>, i: nat)
    requires After(run).issued < WORD && i < |After(run).calls| && After(run).calls[i].pc.Done?
    ensures Caused(run, i, After(run).calls[i].pc.outcome)
  {
    AlwaysTraced(run);
    assert CallTraced(run, i, After(run).calls[i]);
  }

  // ---- A call on a connected bridge is answered ----

  lemma Step(run: seq<Action>, a: Action)
    requires Enabled(After(run), a)
    ensures After(run + [a]) == Apply(After(run), a)
  {
    assert (run + [a])[..|run|] == run;
  }

  /** The guest is connected over `c`, and the reader waits for its next message. */
  predicate Up(s: Sys, c: nat) {
    s.reader == Reading(c) && s.sh.conn == Some(c) && s.sh.connected
  }

  /** A guest that connects while the bridge accepts brings it up. */
  lemma {:induction false} Connects(run: seq<Action>) returns (next: seq<Action>)
    requires After(run).reader.Accepting?
    ensures run <= next && Up(After(next), After(run).nextConn) && After(next).calls == After(run).calls
  {
    Step(run, Accept); next := run + [Accept];
    Step(next, Install); next := next + [Install];
    Step(next, MarkConnected); next := next + [MarkConnected];
  }

  lemma {:induction false} Registers(run: seq<Action>, c: nat) returns (next: seq<Action>)
    requires Up(After(run), c) && Inv(After(run)) && After(run).issued + 1 < WORD
    ensures run <= next
    ensures var s, t := After(run), After(next); var i, id := |s.calls|, s.issued + 1;
            && Up(t, c) && t.calls == s.calls + [Call(Registered, Some(c), id, false)] && t.issued == id && t.answered == s.answered
            && t.sh.pending == s.sh.pending[id := i] && t.sh.chans == s.sh.chans[i := Fresh()] && t.sh.open == s.sh.open
  {
    var i := |After(run).calls|;
    Step(run, Load); next := run + [Load];
    Step(next, Check(i)); next := next + [Check(i)];
    Step(next, Number(i)); next := next + [Number(i)];
    Step(next, BridgeProtocol.Register(i)); next := next + [BridgeProtocol.Register(i)];
  }

  lemma {:induction false} Writes(run: seq<Action>, c: nat, i: nat) returns (next: seq<Action>)
    requires var s := After(run); Up(s, c) && c in s.sh.open && At(s, i, Registered) && s.calls[i].conn == Some(c)
    ensures run <= next
    ensures var s, t := After(run), After(next);
            t == s.(calls := s.calls[i := s.calls[i].(pc := Waiting, wrote := true)])
  {
    Step(run, BeginWrite(i)); next := run + [BeginWrite(i)];
    Step(next, EndWrite(i)); next := next + [EndWrite(i)];
  }

  lemma {:induction false} Answers(run: seq<Action>, c: nat, i: nat, m: Message) returns (next: seq<Action>)
    requires var s := After(run);
             && Up(s, c) && At(s, i, Waiting) && i in s.sh.chans && s.sh.chans[i] == Fresh()
             && Classify(m).Answer? && PendingOf(s, i, Classify(m).id)
    ensures run <= next
    ensures var s, t := After(run), After(next);
            && Up(t, c) && t.calls == s.calls[i := s.calls[i].(pc := Done(Replied(Classify(m).reply)))]
            && t.sh.pending == s.sh.pending - {Classify(m).id}
  {
    Step(run, Read(m)); next := run + [Read(m)];
    Step(next, Deliver); next := next + [Deliver];
    Step(next, CloseReply); next := next + [CloseReply];
    Step(next, Receive(i)); next := next + [Receive(i)];
  }

  /**
   From every reachable state with the guest connected a new call goes through: once its request is
   written and the guest has responded to its id, it ends with what the response says, leaves nothing
   pending, and no other call has moved.
   */
  lemma {:induction false} NewCallIsAnswered(run: seq<Action>, c: nat, m: Message) returns (next: seq<Action>, r: Reply)
    requires After(run).issued + 1 < WORD && Up(After(run), c) && Responds(m, After(run).issued + 1)
    ensures run <= next && Tells(m, r) && r.from == After(run).issued + 1
    ensures var s, t := After(run), After(next);
            && t.calls == s.calls + [Call(Done(Replied(r)), Some(c), s.issued + 1, true)]
            && t.sh.pending == s.sh.pending && Up(t, c)
  {
    Reachable(run);
    var s := After(run);
    next := Registers(run, c);
    next := Writes(next, c, |s.calls|);
    next := Answers(next, c, |s.calls|, m);
    r := Classify(m).reply;
    PendingIdsAreOld(s);
  }

  lemma PendingIdsAreOld(s: Sys)
    requires Inv(s)
    ensures forall id :: id in s.sh.pending ==> id <= s.issued
  {
    forall id | id in s.sh.pending ensures id <= s.issued {
      assert Good(s, s.sh.pending[id]);
    }
  }

  /** From every state in which the bridge has no connection, or is not connected, a new call is refused at once. */
  lemma {:induction false} NewCallIsRefused(run: seq<Action>)
    requires After(run).sh.conn.None? || !After(run).sh.connected
    ensures var s, i := After(run), |After(run).calls|;
            After(run + [Load] + [Check(i)]) == s.(calls := s.calls + [Call(Done(NotConnected), s.sh.conn, 0, false)])
  {
    var i := |After(run).calls|;
    Step(run, Load);
    Step(run + [Load], Check(i));
  }

  // ---- The life of a connection ----

  /** The bridge reports itself connected exactly while the loop serves a connection, and the loop stops only after `Close`. */
  lemma {:induction false} ConnectedIffServing(run: seq<Action>)
    requires After(run).issued < WORD
    ensures var s := After(run); (s.sh.connected <==> Serves(s.reader)) && (s.reader.Stopped? ==> s.sh.closed)
  {
    Reachable(run);
  }

  /** A call that a flush leaves with word of the disconnect. */
  predicate ToldOfEnd(s: Sys, i: nat) {
    Enabled(s, Receive(i)) && Apply(s, Receive(i)).calls[i].pc == Done(Disconnected)
  }

  /** A connection that breaks is cleared away: the loop flushes, and is back at accepting. */
  lemma {:induction false} Breaks(run: seq<Action>, c: nat) returns (next: seq<Action>)
    requires After(run).reader == Reading(c) && After(run).issued < WORD
    ensures run <= next
    ensures var s, t := After(run), After(next);
            && t.reader == Accepting && !t.sh.connected && t.sh.conn.None? && t.sh.open == {} && t.sh.pending == map[]
            && t.calls == s.calls && t.sh.closed == s.sh.closed && t.issued == s.issued
            && forall i :: 0 <= i < |s.calls| && s.calls[i].pc.Waiting? && PendingOf(s, i, s.calls[i].id) ==> ToldOfEnd(t, i)
  {
    var s := After(run);
    Reachable(run);
    next := LetsGo(run, c);
    Step(next, Flush);
    forall i | 0 <= i < |s.calls| && s.calls[i].pc.Waiting? && PendingOf(s, i, s.calls[i].id)
      ensures ToldOfEnd(After(next + [Flush]), i)
    {
      assert Good(s, i) && Taken(s.sh.pending, map[], i);
    }
    next := next + [Flush];
    Reachable(next);
  }

  lemma {:induction false} LetsGo(run: seq<Action>, c: nat) returns (next: seq<Action>)
    requires After(run).reader == Reading(c) && Inv(After(run))
    ensures run <= next
    ensures var s, t := After(run), After(next);
            && t.reader == Shut(c) && !t.sh.connected && t.sh.conn.None? && t.sh.open == {}
            && t.sh.pending == s.sh.pending && t.sh.chans == s.sh.chans && t.calls == s.calls && t.sh.closed == s.sh.closed
            && t.issued == s.issued
  {
    next := GivesUp(run, c);
    Step(next, CloseConn); next := next + [CloseConn];
  }

  lemma {:induction false} GivesUp(run: seq<Action>, c: nat) returns (next: seq<Action>)
    requires After(run).reader == Reading(c) && Inv(After(run))
    ensures run <= next
    ensures var s, t := After(run), After(next);
            && t.sh.conn.None? && t == s.(reader := Detached(c), sh := s.sh.(connected := false, conn := None))
  {
    Step(run, ReadFail); next := run + [ReadFail];
    Step(next, MarkDisconnected); next := next + [MarkDisconnected];
    Step(next, Detach); next := next + [Detach];
  }

  /** After `Close` no call gets its request out: the connection is gone, and its descriptor with it. */
  lemma {:induction false} NothingWrittenOnceDropped(run: seq<Action>, i: nat)
    requires After(run).issued < WORD && At(After(run), i, BridgeProtocol.Registered)
    ensures var t := After(run + [MarkClosed] + [Drop]);
            t.sh.conn.None? && t.sh.closed && (After(run).calls[i].conn == After(run).sh.conn ==> !Enabled(t, BeginWrite(i)))
  {
    Step(run, MarkClosed);
    Step(run + [MarkClosed], Drop);
  }

  /** `Close` on a bridge that serves ends the loop, and the reader's next failure to read leaves nothing behind. */
  lemma {:induction false} CloseEndsTheLoop(run: seq<Action>, c: nat) returns (next: seq<Action>)
    requires After(run).reader == Reading(c) && After(run).issued < WORD
    ensures run + [MarkClosed] + [Drop] <= next
    ensures var t := After(next); t.reader == Stopped && t.sh.conn.None? && t.sh.open == {} && t.sh.pending == map[]
  {
    Step(run, MarkClosed);
    Step(run + [MarkClosed], Drop);
    next := Breaks(run + [MarkClosed] + [Drop], c);
    Step(next, AcceptFail); next := next + [AcceptFail];
  }
}
