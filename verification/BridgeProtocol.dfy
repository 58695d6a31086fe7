/**
 Every interleaving of `Forward` calls, the accept and read loop, and `Close` on one bridge. Each
 action is one critical section, atomic access, channel operation or system call of the source.
 */
module BridgeProtocol {
  import opened Channels
  import opened GuestBridge
  import opened Options

  datatype Outcome =
    | NotConnected
    | Replied(reply: Reply)
    | Disconnected
    | WriteFailure
    | Timeout

  /** Where a `Forward` call is. */
  datatype Pc = Loaded | Checked | Numbered | Registered | Writing | Waiting | Failed | TimedOut | Done(outcome: Outcome)

  /** One call: the connection it loaded, its request id, and whether its write ever began. */
  datatype Call = Call(pc: Pc, conn: Option<nat>, id: nat, wrote: bool)

  /** Where the accept and read loop is. */
  datatype Reader =
    | Accepting
    | Accepted(c: nat)
    | Installed(c: nat)
    | Reading(c: nat)
    | Holding(c: nat, call: nat, reply: Reply)
    | Sent(c: nat, call: nat)
    | Ended(c: nat)
    | Down(c: nat)
    | Detached(c: nat)
    | Shut(c: nat)
    | Stopped

  /**
   The whole system. `issued` counts the ids handed out; `flushed` collects the connections whose
   flush has run and `answered` the calls a reply was sent to; `fault` records a send that would
   block or panic, a second send to one call, or a second close.
   */
  datatype Sys = Sys(sh: Shared, calls: seq<Call>, reader: Reader, nextConn: nat, issued: nat,
                     flushed: set<nat>, answered: set<nat>, fault: bool)

  datatype Action =
    | Load
    | Check(i: nat)
    | Number(i: nat)
    | Register(i: nat)
    | BeginWrite(i: nat)
    | FailWrite(i: nat)
    | EndWrite(i: nat)
    | Receive(i: nat)
    | Expire(i: nat)
    | Unregister(i: nat)
    | Accept
    | AcceptFail
    | Install
    | MarkConnected
    | Read(m: Message)
    | Deliver
    | CloseReply
    | ReadFail
    | MarkDisconnected
    | Detach
    | CloseConn
    | Flush
    | MarkClosed
    | Drop

  const START := Sys(Shared(None, false, false, map[], 0, map[], {}), [], Accepting, 0, 0, {}, {}, false)

  predicate At(s: Sys, i: nat, pc: Pc) {
    i < |s.calls| && s.calls[i].pc == pc
  }

  predicate Enabled(s: Sys, a: Action) {
    match a
    case Load => true
    case Check(i) => At(s, i, Loaded)
    case Number(i) => At(s, i, Checked)
    case Register(i) => At(s, i, Numbered)
    // A write begins only on an open descriptor; it may also fail before it begins.
    case BeginWrite(i) => At(s, i, Registered) && s.calls[i].conn.Some? && s.calls[i].conn.value in s.sh.open
    case FailWrite(i) => At(s, i, Registered) || At(s, i, Writing)
    case EndWrite(i) => At(s, i, Writing)
    case Receive(i) => At(s, i, Waiting) && i in s.sh.chans && CanReceive(s.sh.chans[i])
    case Expire(i) => At(s, i, Waiting)
    case Unregister(i) => At(s, i, Failed) || At(s, i, TimedOut)
    case Accept => s.reader.Accepting?
    case AcceptFail => s.reader.Accepting?
    case Install => s.reader.Accepted?
    case MarkConnected => s.reader.Installed?
    case Read(_) => s.reader.Reading?
    case Deliver => s.reader.Holding? && s.reader.call in s.sh.chans
    case CloseReply => s.reader.Sent? && s.reader.call in s.sh.chans
    case ReadFail => s.reader.Reading?
    case MarkDisconnected => s.reader.Ended?
    case Detach => s.reader.Down?
    case CloseConn => s.reader.Detached?
    case Flush => s.reader.Shut?
    case MarkClosed => true
    case Drop => true
  }

  function Set(s: Sys, i: nat, pc: Pc): Sys
    requires i < |s.calls|
  {
    s.(calls := s.calls[i := s.calls[i].(pc := pc)])
  }

  function Apply(s: Sys, a: Action): Sys
    requires Enabled(s, a)
  {
    match a
    case Load => s.(calls := s.calls + [Call(Loaded, s.sh.conn, 0, false)])
    case Check(i) =>
      if s.calls[i].conn.None? || !s.sh.connected then Set(s, i, Done(NotConnected)) else Set(s, i, Checked)
    case Number(i) =>
      var id := (s.sh.nextID + 1) % WORD;
      s.(sh := s.sh.(nextID := id), issued := s.issued + 1, calls := s.calls[i := s.calls[i].(pc := Numbered, id := id)])
    case Register(i) => Set(s, i, Registered).(sh := RegisterIn(s.sh, i, s.calls[i].id))
    case BeginWrite(i) => s.(calls := s.calls[i := s.calls[i].(pc := Writing, wrote := true)])
    case FailWrite(i) => Set(s, i, Failed)
    case EndWrite(i) => Set(s, i, Waiting)
    case Receive(i) =>
      var c := s.sh.chans[i];
      Set(s, i, Done(if c.buf != [] then Replied(c.buf[0]) else Disconnected))
        .(sh := s.sh.(chans := s.sh.chans[i := Received(c)]))
    case Expire(i) => Set(s, i, TimedOut)
    case Unregister(i) =>
      Set(s, i, Done(if s.calls[i].pc == Failed then WriteFailure else Timeout)).(sh := RemoveFrom(s.sh, s.calls[i].id))
    case Accept =>
      s.(reader := Accepted(s.nextConn), nextConn := s.nextConn + 1, sh := s.sh.(open := s.sh.open + {s.nextConn}))
    case AcceptFail => if s.sh.closed then s.(reader := Stopped) else s
    case Install => s.(reader := Installed(s.reader.c), sh := InstallIn(s.sh, s.reader.c))
    case MarkConnected => s.(reader := Reading(s.reader.c), sh := s.sh.(connected := true))
    case Read(m) => ApplyRead(s, Classify(m))
    case Deliver =>
      var ch := s.sh.chans[s.reader.call];
      s.(reader := Sent(s.reader.c, s.reader.call), answered := s.answered + {s.reader.call},
         fault := s.fault || !CanSend(ch) || s.reader.call in s.answered,
         sh := s.sh.(chans := s.sh.chans[s.reader.call := Send(ch, s.reader.reply)]))
    case CloseReply =>
      var ch := s.sh.chans[s.reader.call];
      s.(reader := Reading(s.reader.c), fault := s.fault || !CanClose(ch),
         sh := s.sh.(chans := s.sh.chans[s.reader.call := Close(ch)]))
    case ReadFail => s.(reader := Ended(s.reader.c))
    case MarkDisconnected => s.(reader := Down(s.reader.c), sh := s.sh.(connected := false))
    case Detach => s.(reader := Detached(s.reader.c), sh := DetachIn(s.sh, s.reader.c))
    case CloseConn => s.(reader := Shut(s.reader.c), sh := s.sh.(open := s.sh.open - {s.reader.c}))
    case Flush =>
      s.(reader := Accepting, flushed := s.flushed + {s.reader.c}, fault := s.fault || !Ready(s.sh.pending, s.sh.chans),
         sh := FlushIn(s.sh))
    case MarkClosed => s.(sh := s.sh.(closed := true))
    case Drop => s.(sh := DropIn(s.sh))
  }

  /** A message read from the guest: only an answer to a pending id changes anything here. */
  function ApplyRead(s: Sys, k: Kind): Sys
    requires s.reader.Reading?
  {
    if k.Answer? && k.id in s.sh.pending then
      s.(reader := Holding(s.reader.c, s.sh.pending[k.id], k.reply), sh := RemoveFrom(s.sh, k.id))
    else s
  }

  /** The state after a run; an action that is not enabled changes nothing. */
  function After(run: seq<Action>): Sys {
    if run == [] then START
    else
      var s := After(run[..|run| - 1]);
      var a := run[|run| - 1];
      if Enabled(s, a) then Apply(s, a) else s
  }

  // ---- The invariant ----

  predicate HasId(c: Call) {
    !c.pc.Loaded? && !c.pc.Checked? && c.pc != Done(NotConnected)
  }

  predicate HasChan(c: Call) {
    HasId(c) && !c.pc.Numbered?
  }

  predicate Live(c: Call) {
    c.pc.Registered? || c.pc.Writing? || c.pc.Waiting? || c.pc.Failed? || c.pc.TimedOut?
  }

  predicate InReply(r: Reader) {
    r.Holding? || r.Sent?
  }

  /** The reader has taken the call's channel out of `pending` and is not done with it. */
  predicate InHand(s: Sys, i: nat) {
    InReply(s.reader) && s.reader.call == i
  }

  predicate PendingOf(s: Sys, i: nat, id: nat) {
    id in s.sh.pending && s.sh.pending[id] == i
  }

  /** What holds of one call. */
  predicate Good(s: Sys, i: nat)
    requires i < |s.calls|
  {
    var c := s.calls[i];
    && (HasId(c) ==> 1 <= c.id <= s.issued)
    && (i in s.sh.chans <==> HasChan(c))
    // A call that has not returned is pending, in the reader's hand, or has its answer in its channel.
    && (Live(c) ==> PendingOf(s, i, c.id) || InHand(s, i) || s.sh.chans[i].closed)
    // A pending channel is open and empty; any reply in a channel is for the call that made it.
    && (PendingOf(s, i, c.id) ==> Live(c) && s.sh.chans[i] == Fresh() && i !in s.answered)
    && (HasChan(c) ==> |s.sh.chans[i].buf| <= 1 && forall r :: r in s.sh.chans[i].buf ==> r.from == c.id && i in s.answered)
    && (c.pc.Done? && c.pc.outcome.Replied? ==> c.pc.outcome.reply.from == c.id && i in s.answered)
    && (c.pc.Done? && c.pc.outcome.Disconnected? ==> s.sh.chans[i].closed && i !in s.answered)
    && (Live(c) && i in s.answered ==> s.sh.chans[i].buf != [])
    && (i in s.answered ==> HasChan(c))
    // A write began only after the id was registered, and once its connection's flush has run it is not pending.
    && (c.pc.Writing? || c.pc.Waiting? || c.pc.TimedOut? ==> c.wrote)
    && (c.pc.Loaded? || c.pc.Checked? || c.pc.Numbered? || c.pc.Registered? ==> !c.wrote)
    && (c.wrote ==> HasId(c) && c.conn.Some?)
    && (c.wrote && c.conn.value in s.flushed ==> c.id !in s.sh.pending && !InHand(s, i))
    && (c.conn.Some? ==> c.conn.value < s.nextConn)
  }

  /** Ids are handed out once, and everything pending or in hand belongs to some call. */
  predicate Owned(s: Sys) {
    && s.sh.nextID == s.issued
    && (forall i, j :: 0 <= i < j < |s.calls| && HasId(s.calls[i]) && HasId(s.calls[j]) ==> s.calls[i].id != s.calls[j].id)
    && (forall id :: id in s.sh.pending ==> s.sh.pending[id] < |s.calls| && s.calls[s.sh.pending[id]].id == id
                                            && HasChan(s.calls[s.sh.pending[id]]))
    && (forall i :: i in s.sh.chans ==> i < |s.calls|)
    && (forall i :: i in s.answered ==> i < |s.calls|)
  }

  predicate Hand(s: Sys) {
    && (s.reader.Holding? || s.reader.Sent? ==>
          var i := s.reader.call;
          i < |s.calls| && i in s.sh.chans && s.calls[i].id !in s.sh.pending && !s.sh.chans[i].closed)
    && (s.reader.Sent? ==> s.reader.call in s.answered)
    && (s.reader.Holding? ==> s.sh.chans[s.reader.call].buf == [] && s.reader.reply.from == s.calls[s.reader.call].id
                              && s.reader.call !in s.answered)
  }

  predicate ReaderHas(r: Reader, c: nat) {
    !r.Accepting? && !r.Stopped? && r.c == c
  }

  /** The loop is between marking its connection as connected and marking it as not. */
  predicate Serves(r: Reader) {
    r.Reading? || r.Holding? || r.Sent? || r.Ended?
  }

  /** At most one connection is open; the bridge holds it only between its install and its detach. */
  predicate Conns(s: Sys) {
    && (!s.reader.Accepting? && !s.reader.Stopped? ==> s.reader.c < s.nextConn && s.reader.c !in s.flushed)
    && (forall c :: c in s.sh.open ==> ReaderHas(s.reader, c) && !s.reader.Shut?)
    && (forall c :: c in s.flushed ==> c < s.nextConn && c !in s.sh.open)
    && (s.reader.Accepted? ==> s.reader.c in s.sh.open)
    && (s.sh.connected <==> Serves(s.reader)) && (s.reader.Stopped? ==> s.sh.closed)
    && (s.sh.conn.Some? ==> s.sh.conn.value in s.sh.open && ReaderHas(s.reader, s.sh.conn.value)
                            && !s.reader.Accepted? && !s.reader.Detached? && !s.reader.Shut?)
  }

  predicate Inv(s: Sys) {
    && Owned(s) && Hand(s) && Conns(s) && !s.fault
    && (forall i :: 0 <= i < |s.calls| ==> Good(s, i))
  }

  // ---- Every action keeps it ----

  /** A call that an action does not concern stays good. */
  lemma Unconcerned(s: Sys, t: Sys, i: nat)
    requires i < |s.calls| && i < |t.calls| && Good(s, i) && t.calls[i] == s.calls[i]
    requires i in s.sh.chans <==> i in t.sh.chans
    requires i in s.sh.chans ==> t.sh.chans[i] == s.sh.chans[i]
    requires PendingOf(t, i, s.calls[i].id) <==> PendingOf(s, i, s.calls[i].id)
    requires s.calls[i].wrote && s.calls[i].id in t.sh.pending ==> s.calls[i].id in s.sh.pending
    requires InHand(s, i) ==> InHand(t, i)
    requires InHand(t, i) ==> InHand(s, i)
    requires i in s.answered <==> i in t.answered
    requires s.issued <= t.issued && s.nextConn <= t.nextConn && t.flushed == s.flushed
    ensures Good(t, i)
  {
  }

  /** One call moves on; nothing shared changes. */
  lemma OneCall(s: Sys, i: nat, c: Call)
    requires Inv(s) && i < |s.calls|
    requires c.id == s.calls[i].id && HasChan(c) == HasChan(s.calls[i]) && (HasId(c) ==> HasId(s.calls[i]))
    requires Good(s.(calls := s.calls[i := c]), i)
    ensures Inv(s.(calls := s.calls[i := c]))
  {
    var t := s.(calls := s.calls[i := c]);
    forall j | 0 <= j < |t.calls| ensures Good(t, j) {
      if j != i { Unconcerned(s, t, j); }
    }
  }

  lemma KeepLoad(s: Sys)
    requires Inv(s)
    ensures Inv(Apply(s, Load))
  {
    var t := Apply(s, Load);
    forall j | 0 <= j < |t.calls| ensures Good(t, j) {
      if j < |s.calls| { Unconcerned(s, t, j); }
    }
  }

  lemma KeepCheck(s: Sys, i: nat)
    requires Inv(s) && Enabled(s, Check(i))
    ensures Inv(Apply(s, Check(i)))
  {
    assert Good(s, i);
    OneCall(s, i, Apply(s, Check(i)).calls[i]);
  }

  lemma KeepNumber(s: Sys, i: nat)
    requires Inv(s) && Enabled(s, Number(i)) && s.issued + 1 < WORD
    ensures Inv(Apply(s, Number(i)))
  {
    var t := Apply(s, Number(i));
    assert Good(s, i);
    forall j | 0 <= j < |t.calls| ensures Good(t, j) {
      assert Good(s, j);
      if j != i { Unconcerned(s, t, j); }
    }
    assert t.sh.nextID == s.issued + 1;
    forall j | 0 <= j < |t.calls| && j != i && HasId(t.calls[j]) ensures t.calls[j].id != t.calls[i].id {
      assert Good(s, j);
    }
  }

  lemma KeepRegister(s: Sys, i: nat)
    requires Inv(s) && Enabled(s, Register(i))
    ensures Inv(Apply(s, Register(i)))
  {
    var t := Apply(s, Register(i));
    assert Good(s, i);
    if s.reader.Holding? || s.reader.Sent? { assert Good(s, s.reader.call); }
    forall j | 0 <= j < |t.calls| ensures Good(t, j) {
      assert Good(s, j);
      if j != i {
        assert HasId(s.calls[j]) ==> s.calls[j].id != s.calls[i].id;
        Unconcerned(s, t, j);
      }
    }
  }

  lemma KeepWrite(s: Sys, i: nat, a: Action)
    requires Inv(s) && Enabled(s, a) && a in {BeginWrite(i), FailWrite(i), EndWrite(i), Expire(i)}
    ensures Inv(Apply(s, a))
  {
    assert Good(s, i);
    OneCall(s, i, Apply(s, a).calls[i]);
  }

  lemma KeepReceive(s: Sys, i: nat)
    requires Inv(s) && Enabled(s, Receive(i))
    ensures Inv(Apply(s, Receive(i)))
  {
    var t := Apply(s, Receive(i));
    assert Good(s, i);
    forall j | 0 <= j < |t.calls| ensures Good(t, j) {
      if j != i { Unconcerned(s, t, j); }
    }
  }

  lemma KeepUnregister(s: Sys, i: nat)
    requires Inv(s) && Enabled(s, Unregister(i))
    ensures Inv(Apply(s, Unregister(i)))
  {
    var t := Apply(s, Unregister(i));
    assert Good(s, i);
    forall j | 0 <= j < |t.calls| ensures Good(t, j) {
      assert Good(s, j);
      if j != i {
        assert HasId(s.calls[j]) ==> s.calls[j].id != s.calls[i].id;
        Unconcerned(s, t, j);
      }
    }
  }

  lemma KeepReader(s: Sys, a: Action)
    requires Inv(s) && Enabled(s, a)
    requires a in {Accept, AcceptFail, Install, MarkConnected, ReadFail, MarkDisconnected, Detach, CloseConn, MarkClosed, Drop}
    ensures Inv(Apply(s, a))
  {
    ReaderAlone(s, a);
    var t := Apply(s, a);
    forall j | 0 <= j < |t.calls| ensures Good(t, j) {
      Unconcerned(s, t, j);
    }
  }

  lemma ReaderAlone(s: Sys, a: Action)
    requires Inv(s) && Enabled(s, a)
    requires a in {Accept, AcceptFail, Install, MarkConnected, ReadFail, MarkDisconnected, Detach, CloseConn, MarkClosed, Drop}
    ensures var t := Apply(s, a);
            && t.calls == s.calls && t.sh.chans == s.sh.chans && t.sh.pending == s.sh.pending && t.issued == s.issued
            && t.answered == s.answered && t.flushed == s.flushed && s.nextConn <= t.nextConn && t.fault == s.fault
            && t.sh.nextID == s.sh.nextID && Conns(t)
            && (t.reader == s.reader || (!InReply(s.reader) && !InReply(t.reader)))
  {
  }

  lemma KeepRead(s: Sys, m: Message)
    requires Inv(s) && Enabled(s, Read(m))
    ensures Inv(Apply(s, Read(m)))
  {
    var t := Apply(s, Read(m));
    var k := Classify(m);
    if k.Answer? && k.id in s.sh.pending {
      var i := s.sh.pending[k.id];
      assert Good(s, i);
      forall j | 0 <= j < |t.calls| ensures Good(t, j) {
        assert Good(s, j);
        if j != i { Unconcerned(s, t, j); }
      }
    }
  }

  lemma KeepDeliver(s: Sys)
    requires Inv(s) && Enabled(s, Deliver)
    ensures Inv(Apply(s, Deliver))
  {
    var t := Apply(s, Deliver);
    var i := s.reader.call;
    assert Good(s, i);
    forall j | 0 <= j < |t.calls| ensures Good(t, j) {
      if j != i { Unconcerned(s, t, j); }
    }
  }

  lemma KeepCloseReply(s: Sys)
    requires Inv(s) && Enabled(s, CloseReply)
    ensures Inv(Apply(s, CloseReply))
  {
    var t := Apply(s, CloseReply);
    var i := s.reader.call;
    assert Good(s, i);
    forall j | 0 <= j < |t.calls| ensures Good(t, j) {
      if j != i { Unconcerned(s, t, j); }
    }
  }

  lemma PendingIsReady(s: Sys)
    requires Inv(s)
    ensures Ready(s.sh.pending, s.sh.chans)
  {
    forall id | id in s.sh.pending
      ensures s.sh.pending[id] in s.sh.chans && CanSend(s.sh.chans[s.sh.pending[id]])
    {
      assert Good(s, s.sh.pending[id]);
    }
  }

  lemma KeepFlush(s: Sys)
    requires Inv(s) && Enabled(s, Flush)
    ensures Inv(Apply(s, Flush))
  {
    var t := Apply(s, Flush);
    PendingIsReady(s);
    forall j | 0 <= j < |t.calls| ensures Good(t, j) {
      assert Good(s, j);
      if PendingOf(s, j, s.calls[j].id) { assert Taken(s.sh.pending, map[], j); }
    }
  }

  lemma KeepAll(s: Sys, a: Action)
    requires Inv(s) && Enabled(s, a) && Apply(s, a).issued < WORD
    ensures Inv(Apply(s, a))
  {
    match a
    case Load => KeepLoad(s);
    case Check(i) => KeepCheck(s, i);
    case Number(i) => KeepNumber(s, i);
    case Register(i) => KeepRegister(s, i);
    case Receive(i) => KeepReceive(s, i);
    case Unregister(i) => KeepUnregister(s, i);
    case BeginWrite(i) => KeepWrite(s, i, a);
    case FailWrite(i) => KeepWrite(s, i, a);
    case EndWrite(i) => KeepWrite(s, i, a);
    case Expire(i) => KeepWrite(s, i, a);
    case Read(m) => KeepRead(s, m);
    case Deliver => KeepDeliver(s);
    case CloseReply => KeepCloseReply(s);
    case Flush => KeepFlush(s);
    case _ => KeepReader(s, a);
  }

  // ---- Every run ----

  lemma StepIssues(s: Sys, a: Action)
    requires Enabled(s, a)
    ensures s.issued <= Apply(s, a).issued
  {
  }

  lemma {:induction false} IssuedGrows(run: seq<Action>, k: nat)
    requires k <= |run|
    ensures After(run[..k]).issued <= After(run).issued
    decreases |run| - k
  {
    if k < |run| {
      var next := run[..k + 1];
      assert next[..|next| - 1] == run[..k] && next[|next| - 1] == run[k];
      if Enabled(After(run[..k]), run[k]) { StepIssues(After(run[..k]), run[k]); }
      IssuedGrows(run, k + 1);
    } else {
      assert run[..k] == run;
    }
  }

  /** In every run that hands out fewer than 2^64 ids, every state satisfies the invariant. */
  lemma {:induction false} Reachable(run: seq<Action>)
    requires After(run).issued < WORD
    ensures Inv(After(run))
  {
    if run != [] {
      var last := |run| - 1;
      IssuedGrows(run, last);
      Reachable(run[..last]);
      if Enabled(After(run[..last]), run[last]) { KeepAll(After(run[..last]), run[last]); }
    }
  }

  /** Reply channels are sent to at most once, never while full or closed, and never closed twice. */
  lemma ChannelsNeverFault(run: seq<Action>)
    requires After(run).issued < WORD
    ensures !After(run).fault
  {
    Reachable(run);
  }

  /**
   Once a connection's flush has run, no request written on it is pending, and a call that still
   waits for its answer finds its channel closed, so it returns without its timer.
   */
  lemma {:induction false} FlushLeavesNothingBehind(run: seq<Action>, i: nat)
    requires After(run).issued < WORD && i < |After(run).calls|
    requires var c := After(run).calls[i]; c.wrote && c.conn.Some? && c.conn.value in After(run).flushed
    ensures var s := After(run);
            s.calls[i].id !in s.sh.pending &&
            (s.calls[i].pc.Waiting? ==> Enabled(s, Receive(i)) && s.sh.chans[i].closed)
  {
    Reachable(run);
    assert Good(After(run), i);
  }

  /** A delivered reply was taken from a message that carries the call's own id. */
  lemma {:induction false} RepliesMatch(run: seq<Action>, i: nat)
    requires After(run).issued < WORD && i < |After(run).calls|
    requires After(run).calls[i].pc.Done? && After(run).calls[i].pc.outcome.Replied?
    ensures After(run).calls[i].pc.outcome.reply.from == After(run).calls[i].id
  {
    Reachable(run);
    assert Good(After(run), i);
  }

  /** A call reports a disconnect only if no reply was sent to it; a sent reply is never lost to a close. */
  lemma {:induction false} DisconnectedMeansUnanswered(run: seq<Action>, i: nat)
    requires After(run).issued < WORD && i < |After(run).calls| && HasId(After(run).calls[i])
    ensures var s := After(run);
            && (s.calls[i].pc == Done(Disconnected) ==> i !in s.answered)
            && (s.calls[i].pc.Waiting? && i in s.answered ==>
                  Enabled(s, Receive(i)) && Apply(s, Receive(i)).calls[i].pc.outcome.Replied?)
  {
    Reachable(run);
    assert Good(After(run), i);
  }

  /** A call that has returned keeps its one outcome for the rest of the run. */
  lemma {:induction false} OutcomeIsFinal(run: seq<Action>, k: nat, i: nat)
    requires k <= |run| && i < |After(run[..k]).calls| && After(run[..k]).calls[i].pc.Done?
    ensures i < |After(run).calls| && After(run).calls[i] == After(run[..k]).calls[i]
    decreases |run| - k
  {
    if k < |run| {
      var next := run[..k + 1];
      assert next[..k] == run[..k];
      if Enabled(After(run[..k]), run[k]) { StepKeepsDone(After(run[..k]), run[k], i); }
      OutcomeIsFinal(run, k + 1, i);
    } else {
      assert run[..k] == run;
    }
  }

  lemma StepKeepsDone(s: Sys, a: Action, i: nat)
    requires Enabled(s, a) && i < |s.calls| && s.calls[i].pc.Done?
    ensures i < |Apply(s, a).calls| && Apply(s, a).calls[i] == s.calls[i]
  {
  }

  // ---- Calls end ----

  predicate ByCall(a: Action, i: nat) {
    a in {Check(i), Number(i), Register(i), BeginWrite(i), FailWrite(i), EndWrite(i), Receive(i), Expire(i), Unregister(i)}
  }

  /** A bound on the steps the call still makes. */
  function StepsLeft(pc: Pc): nat {
    match pc
    case Loaded => 7
    case Checked => 6
    case Numbered => 5
    case Registered => 4
    case Writing => 3
    case Waiting => 2
    case Failed => 1
    case TimedOut => 1
    case Done(_) => 0
  }

  lemma OwnStepAdvances(s: Sys, a: Action, i: nat)
    requires Enabled(s, a) && i < |s.calls| && ByCall(a, i)
    ensures var t := Apply(s, a); i < |t.calls| && StepsLeft(t.calls[i].pc) < StepsLeft(s.calls[i].pc)
  {
  }

  lemma OtherStepsLeaveIt(s: Sys, a: Action, i: nat)
    requires Enabled(s, a) && i < |s.calls| && !ByCall(a, i)
    ensures i < |Apply(s, a).calls| && Apply(s, a).calls[i] == s.calls[i]
  {
  }

  /** How many steps the call `i` makes after the first `k` actions of the run. */
  function OwnSteps(run: seq<Action>, k: nat, i: nat): nat {
    if |run| <= k then 0
    else
      var init, a := run[..|run| - 1], run[|run| - 1];
      OwnSteps(init, k, i) + (if ByCall(a, i) && Enabled(After(init), a) then 1 else 0)
  }

  lemma {:induction false} StepsAreBounded(run: seq<Action>, k: nat, i: nat)
    requires k <= |run| && i < |After(run[..k]).calls|
    ensures i < |After(run).calls|
    ensures OwnSteps(run, k, i) + StepsLeft(After(run).calls[i].pc) <= StepsLeft(After(run[..k]).calls[i].pc)
  {
    if k == |run| {
      assert run[..k] == run;
    } else {
      var init, a := run[..|run| - 1], run[|run| - 1];
      assert init[..k] == run[..k];
      StepsAreBounded(init, k, i);
      if Enabled(After(init), a) {
        if ByCall(a, i) { OwnStepAdvances(After(init), a, i); } else { OtherStepsLeaveIt(After(init), a, i); }
      }
    }
  }

  /**
   Every call ends: whatever else happens it makes at most seven steps, and until it has returned one
   of them is enabled.
   */
  lemma {:induction false} EveryCallEnds(run: seq<Action>, k: nat, i: nat)
    requires k <= |run| && i < |After(run[..k]).calls|
    ensures OwnSteps(run, k, i) <= 7 && i < |After(run).calls|
    ensures After(run).calls[i].pc.Done? <==> forall a :: ByCall(a, i) ==> !Enabled(After(run), a)
  {
    StepsAreBounded(run, k, i);
    var s := After(run);
    var a := match s.calls[i].pc
             case Loaded => Check(i)
             case Checked => Number(i)
             case Numbered => Register(i)
             case Registered => FailWrite(i)
             case Writing => EndWrite(i)
             case Waiting => Expire(i)
             case _ => Unregister(i);
    assert ByCall(a, i) && (s.calls[i].pc.Done? || Enabled(s, a));
  }

  /** Whatever is pending belongs to a call that has not returned; once all have, nothing is pending. */
  lemma {:induction false} NothingLeftPending(run: seq<Action>)
    requires After(run).issued < WORD
    ensures var s := After(run);
            && (forall id :: id in s.sh.pending ==> var i := s.sh.pending[id];
                                                    i < |s.calls| && s.calls[i].id == id && !s.calls[i].pc.Done?)
            && ((forall i :: 0 <= i < |s.calls| ==> s.calls[i].pc.Done?) ==> s.sh.pending == map[])
  {
    Reachable(run);
    var s := After(run);
    forall id | id in s.sh.pending ensures !s.calls[s.sh.pending[id]].pc.Done? {
      assert Good(s, s.sh.pending[id]);
    }
  }

  /**
   The bridge holds no connection when it accepts one, so the branch of the accept loop that
   closes a prior connection never runs, and at most one descriptor is open at any time.
   */
  lemma {:induction false} OneConnection(run: seq<Action>)
    requires After(run).issued < WORD
    ensures var s := After(run);
            && (s.reader.Accepted? ==> s.sh.conn == None)
            && (forall c, d :: c in s.sh.open && d in s.sh.open ==> c == d)
  {
    Reachable(run);
  }
}
