/**
 The bind protocol between the client and the mount helper: every interleaving of `Bind` and `Stop`
 calls, the reader of the helper's output, the exit watcher, and the helper's own loop.
 */
module VfsProtocol {
  import opened Channels
  import opened VfsClient
  import Helper = MountHelper

  datatype Op = BindOp(req: Helper.BindRequest) | StopOp

  datatype Outcome = CacheHit | BadPath | Succeeded | Failed(reply: Reply) | WriteFailure | Timeout

  /** Where a call of `Bind` or of `Stop`'s `send` is. */
  datatype Pc = Begun | Missed | Resolved | Registered | Waiting | WriteFailed | TimedOut | Acked | Done(outcome: Outcome)

  datatype Call = Call(pc: Pc, op: Op, id: nat, written: bool)

  /** A line of the helper's input; `Junk` is a line cut short by a failing write. */
  datatype Request = Request(id: nat, op: Op) | Junk

  /** A line of the helper's output. */
  datatype Line = Response(id: nat, ok: bool, error: string) | NoId | ReadyEvent | OtherEvent

  datatype HelperPc = Serving | Replying(line: Line) | ReplyingStop(id: nat) | Stopping | Quitting | Finished | Gone

  datatype Reader = Idle | Holding(call: nat, reply: Reply) | Sent(call: nat)

  /**
   `owner` records the call each id was handed to, `answered` the calls something was sent to, and
   `fault` a send that would block or panic, a second send, a second close, or a receive from a
   channel closed empty.
   */
  datatype Sys = Sys(root: string, client: Shared, calls: seq<Call>, reader: Reader, exitFlushed: bool,
                     stdin: seq<Request>, stdinClosed: bool, stdout: seq<Line>,
                     helperPc: HelperPc, helper: Helper.State,
                     issued: nat, owner: map<nat, nat>, answered: set<nat>, fault: bool)

  /** What a failing write may still have put into the pipe. */
  datatype Reached = Nothing | Part | Whole

  datatype Action =
    | CallBind(relPath: string, mode: string, hostPath: string)
    | CallStop
    | CheckCache(i: nat)
    | Resolve(i: nat, ok: bool)
    | Register(i: nat)
    | Write(i: nat)
    | FailWrite(i: nat, reached: Reached)
    | Receive(i: nat)
    | Expire(i: nat)
    | Unregister(i: nat)
    | Record(i: nat)
    | CloseStdin
    | ReadLine
    | Deliver
    | CloseReply
    | WatchExit
    | HelperTake(host: Helper.Host)
    | HelperEmit
    | HelperStop
    | HelperQuit
    | HelperEvent(ready: bool)
    | HelperExit

  function Start(root: string): Sys {
    Sys(root, Shared(map[], {}, 0, false, 0, map[]), [], Idle, false, [], false, [], Serving, Helper.EMPTY,
        0, map[], {}, false)
  }

  predicate At(s: Sys, i: nat, pc: Pc) {
    i < |s.calls| && s.calls[i].pc == pc
  }

  predicate Enabled(s: Sys, a: Action) {
    match a
    case CallBind(_, _, _) => true
    case CallStop => true
    case CheckCache(i) => At(s, i, Begun)
    case Resolve(i, _) => At(s, i, Missed)
    case Register(i) => At(s, i, Resolved)
    // A whole line goes through only while both ends of the pipe are open.
    case Write(i) => At(s, i, Registered) && !s.stdinClosed && !s.helperPc.Gone?
    // A failing write puts something into the pipe only while both ends are open.
    case FailWrite(i, reached) => At(s, i, Registered) && (reached.Nothing? || (!s.stdinClosed && !s.helperPc.Gone?))
    case Receive(i) => At(s, i, Waiting) && i in s.client.chans && CanReceive(s.client.chans[i])
    case Expire(i) => At(s, i, Waiting)
    case Unregister(i) => At(s, i, WriteFailed) || At(s, i, TimedOut)
    case Record(i) => At(s, i, Acked) && s.calls[i].op.BindOp?
    case CloseStdin => true
    case ReadLine => s.reader.Idle? && s.stdout != []
    case Deliver => s.reader.Holding? && s.reader.call in s.client.chans
    case CloseReply => s.reader.Sent? && s.reader.call in s.client.chans
    case WatchExit => s.helperPc.Gone? && !s.exitFlushed
    case HelperTake(_) => s.helperPc.Serving? && s.stdin != []
    case HelperEmit => s.helperPc.Replying? || s.helperPc.ReplyingStop?
    case HelperStop => s.helperPc.Stopping? || s.helperPc.Quitting?
    case HelperQuit => s.helperPc.Serving?
    case HelperEvent(_) => !s.helperPc.Gone?
    case HelperExit => !s.helperPc.Gone?
  }

  function Set(s: Sys, i: nat, pc: Pc): Sys
    requires i < |s.calls|
  {
    s.(calls := s.calls[i := s.calls[i].(pc := pc)])
  }

  /** Where a received reply takes a call. */
  function AfterReply(op: Op, r: Reply): Pc {
    if r.Answered? && r.ok then (if op.BindOp? then Acked else Done(Succeeded)) else Done(Failed(r))
  }

  function ApplyRegister(s: Sys, i: nat): Sys
    requires i < |s.calls|
  {
    var id := IdFrom(s.client.nextReqID);
    s.(client := RegisterIn(s.client, i), calls := s.calls[i := s.calls[i].(pc := Registered, id := id)],
       issued := s.issued + 1, owner := s.owner[id := i])
  }

  function ApplyWrite(s: Sys, i: nat): Sys
    requires i < |s.calls|
  {
    var c := s.calls[i];
    s.(calls := s.calls[i := c.(pc := Waiting, written := true)], stdin := s.stdin + [Request(c.id, c.op)])
  }

  function ApplyFailWrite(s: Sys, i: nat, reached: Reached): Sys
    requires i < |s.calls|
  {
    Set(s, i, WriteFailed).(stdin := s.stdin + match reached
                                               case Nothing => []
                                               case Part => [Junk]
                                               case Whole => [Request(s.calls[i].id, s.calls[i].op)])
  }

  function ApplyRecord(s: Sys, i: nat): Sys
    requires i < |s.calls| && s.calls[i].op.BindOp?
  {
    Set(s, i, Done(Succeeded)).(client := s.client.(activeBinds := s.client.activeBinds + {s.calls[i].op.req.relPath}))
  }

  function ApplyReceive(s: Sys, i: nat): Sys
    requires i < |s.calls| && i in s.client.chans
  {
    var c := s.client.chans[i];
    if c.buf == [] then Set(s, i, Done(Failed(Exited))).(fault := true)
    else Set(s, i, AfterReply(s.calls[i].op, c.buf[0])).(client := s.client.(chans := s.client.chans[i := Received(c)]))
  }

  function ApplyUnregister(s: Sys, i: nat): Sys
    requires i < |s.calls|
  {
    Set(s, i, Done(if s.calls[i].pc == WriteFailed then WriteFailure else Timeout))
      .(client := RemoveFrom(s.client, s.calls[i].id))
  }

  function Apply(s: Sys, a: Action): Sys
    requires Enabled(s, a)
  {
    match a
    case CallBind(relPath, mode, hostPath) =>
      var req := Helper.BindRequest(hostPath, relPath, if mode == "" then "rw" else mode);
      s.(calls := s.calls + [Call(Begun, BindOp(req), 0, false)])
    case CallStop => s.(calls := s.calls + [Call(Resolved, StopOp, 0, false)])
    case CheckCache(i) =>
      var op := s.calls[i].op;
      Set(s, i, if op.BindOp? && op.req.relPath in s.client.activeBinds then Done(CacheHit) else Missed)
    case Resolve(i, ok) => Set(s, i, if ok then Resolved else Done(BadPath))
    case Register(i) => ApplyRegister(s, i)
    case Write(i) => ApplyWrite(s, i)
    case FailWrite(i, reached) => ApplyFailWrite(s, i, reached)
    case Receive(i) => ApplyReceive(s, i)
    case Expire(i) => Set(s, i, TimedOut)
    case Unregister(i) => ApplyUnregister(s, i)
    case Record(i) => ApplyRecord(s, i)
    case CloseStdin => s.(stdinClosed := true)
    case ReadLine => ApplyLine(s.(stdout := s.stdout[1..]), s.stdout[0])
    case Deliver =>
      var i := s.reader.call;
      var ch := s.client.chans[i];
      s.(reader := Sent(i), answered := s.answered + {i},
         fault := s.fault || !CanSend(ch) || i in s.answered,
         client := s.client.(chans := s.client.chans[i := Send(ch, s.reader.reply)]))
    case CloseReply =>
      var ch := s.client.chans[s.reader.call];
      s.(reader := Idle, fault := s.fault || !CanClose(ch),
         client := s.client.(chans := s.client.chans[s.reader.call := Close(ch)]))
    case WatchExit =>
      var told := set id | id in s.client.pending :: s.client.pending[id];
      s.(exitFlushed := true, answered := s.answered + told,
         fault := s.fault || !Ready(s.client.pending, s.client.chans) || told * s.answered != {},
         client := ExitIn(s.client))
    case HelperTake(host) => ApplyRequest(s.(stdin := s.stdin[1..]), s.stdin[0], host)
    case HelperEmit =>
      if s.helperPc.Replying? then s.(stdout := s.stdout + [s.helperPc.line], helperPc := Serving)
      else s.(stdout := s.stdout + [Response(s.helperPc.id, true, "")], helperPc := Stopping)
    case HelperStop =>
      s.(helper := Helper.StopStep(s.helper), helperPc := if s.helperPc.Quitting? then Finished else Serving)
    case HelperQuit => s.(helperPc := Quitting)
    case HelperEvent(ready) => s.(stdout := s.stdout + [if ready then ReadyEvent else OtherEvent])
    case HelperExit => s.(helperPc := Gone)
  }

  /** The client reads one line of the helper's output. */
  function ApplyLine(s: Sys, line: Line): Sys {
    match line
    case Response(id, ok, error) =>
      if id in s.client.pending then
        s.(reader := Holding(s.client.pending[id], Answered(id, ok, error)), client := RemoveFrom(s.client, id))
      else s
    case ReadyEvent => s.(client := ReadyIn(s.client))
    case NoId => s
    case OtherEvent => s
  }

  /** The helper handles one line of its input. */
  function ApplyRequest(s: Sys, r: Request, host: Helper.Host): Sys {
    match r
    case Request(id, BindOp(req)) =>
      var result := Helper.Decide(s.helper, s.root, req, host);
      s.(helper := Helper.BindStep(s.helper, req.relPath, result),
         helperPc := Replying(if result.Rejected? then Response(id, false, "rejected") else Response(id, true, "")))
    case Request(id, StopOp) => s.(helperPc := ReplyingStop(id))
    case Junk => s.(helperPc := Replying(NoId))
  }

  /** The state after a run; an action that is not enabled changes nothing. */
  function After(root: string, run: seq<Action>): Sys {
    if run == [] then Start(root)
    else
      var s := After(root, run[..|run| - 1]);
      var a := run[|run| - 1];
      if Enabled(s, a) then Apply(s, a) else s
  }

  // ---- The invariant ----

  /** The helper holds the path, passed over it as a non-directory, or has unbound it since. */
  predicate Covered(h: Helper.State, p: string) {
    p in h.active || p in h.skipped || h.unbound[p] > 0
  }

  predicate CoveredOp(h: Helper.State, op: Op) {
    op.BindOp? ==> Covered(h, op.req.relPath)
  }

  predicate HasId(c: Call) {
    !c.pc.Begun? && !c.pc.Missed? && !c.pc.Resolved? && c.pc != Done(CacheHit) && c.pc != Done(BadPath)
  }

  predicate Live(c: Call) {
    c.pc.Registered? || c.pc.Waiting? || c.pc.WriteFailed? || c.pc.TimedOut?
  }

  predicate InHand(s: Sys, i: nat) {
    !s.reader.Idle? && s.reader.call == i
  }

  predicate PendingOf(s: Sys, i: nat, id: nat) {
    id in s.client.pending && s.client.pending[id] == i
  }

  /** A reply may be given to a call: it answers the call's own request, and a positive one is true. */
  predicate Fits(s: Sys, c: Call, r: Reply) {
    if r.Answered? then r.from == c.id && (r.ok ==> CoveredOp(s.helper, c.op)) else s.exitFlushed
  }

  predicate Positive(r: Reply) {
    r.Answered? && r.ok
  }

  /** The outcomes of a bind that worked: the path was cached before, or it is now. */
  predicate Cached(o: Outcome) {
    o.CacheHit? || o.Succeeded?
  }

  /** What holds of one call. */
  predicate Good(s: Sys, i: nat)
    requires i < |s.calls|
  {
    var c := s.calls[i];
    && (HasId(c) ==> 1 <= c.id <= s.issued && c.id in s.owner && s.owner[c.id] == i)
    && (i in s.client.chans <==> HasId(c))
    && (Live(c) ==> PendingOf(s, i, c.id) || InHand(s, i) || s.client.chans[i].closed)
    && (PendingOf(s, i, c.id) ==> Live(c) && s.client.chans[i] == Fresh() && i !in s.answered && !InHand(s, i))
    && (HasId(c) ==> |s.client.chans[i].buf| <= 1 && forall r :: r in s.client.chans[i].buf ==> Fits(s, c, r))
    && (HasId(c) && s.client.chans[i].closed ==> i in s.answered)
    && (Live(c) && i in s.answered ==> s.client.chans[i].buf != [])
    && (i in s.answered ==> HasId(c))
    && (c.pc.Acked? ==> CoveredOp(s.helper, c.op))
    && (c.pc.Done? && c.pc.outcome.Failed? ==> Fits(s, c, c.pc.outcome.reply) && !Positive(c.pc.outcome.reply))
    && (c.op.BindOp? && c.pc.Done? && Cached(c.pc.outcome) ==> c.op.req.relPath in s.client.activeBinds)
    && (c.pc.Waiting? || c.pc.TimedOut? ==> c.written)
    && (c.written && s.exitFlushed ==> c.id !in s.client.pending)
    && (c.written ==> HasId(c))
  }

  predicate Known(s: Sys, id: nat) {
    id in s.owner && s.owner[id] < |s.calls| && s.calls[s.owner[id]].id == id && HasId(s.calls[s.owner[id]])
  }

  /** Everything in the pipes names a call that asked for it, and every positive answer is true. */
  predicate GoodRequest(s: Sys, r: Request) {
    r.Request? ==> Known(s, r.id) && s.calls[s.owner[r.id]].op == r.op
  }

  predicate GoodLine(s: Sys, line: Line) {
    line.Response? ==> Known(s, line.id) && (line.ok ==> CoveredOp(s.helper, s.calls[s.owner[line.id]].op))
  }

  predicate Pipes(s: Sys) {
    && (forall r :: r in s.stdin ==> GoodRequest(s, r))
    && (forall line :: line in s.stdout ==> GoodLine(s, line))
    && (s.helperPc.Replying? ==> GoodLine(s, s.helperPc.line))
    && (s.helperPc.ReplyingStop? ==> Known(s, s.helperPc.id) && s.calls[s.owner[s.helperPc.id]].op.StopOp?)
  }

  predicate Owned(s: Sys) {
    && s.client.nextReqID == (if s.issued == 0 then 0 else (s.issued + 1) % WORD)
    && (forall id :: id in s.owner ==> 1 <= id <= s.issued && Known(s, id))
    && (forall id :: id in s.client.pending ==> id in s.owner && s.client.pending[id] == s.owner[id])
    && (forall i :: i in s.client.chans ==> i < |s.calls|)
    && (forall i :: i in s.answered ==> i < |s.calls|)
    && (s.exitFlushed ==> s.helperPc.Gone?)
    && s.client.readyCloses == (if s.client.readyFired then 1 else 0)
  }

  predicate Hand(s: Sys) {
    && (!s.reader.Idle? ==>
          var i := s.reader.call;
          i < |s.calls| && i in s.client.chans && s.calls[i].id !in s.client.pending && !s.client.chans[i].closed)
    && (s.reader.Sent? ==> s.reader.call in s.answered)
    && (s.reader.Holding? ==>
          var i := s.reader.call;
          s.client.chans[i].buf == [] && i !in s.answered && s.reader.reply.Answered? && Fits(s, s.calls[i], s.reader.reply))
  }

  ghost predicate HelperInv(s: Sys) {
    && Helper.Balanced(s.helper) && Helper.ActiveValid(s.helper, s.root)
    && (!s.helper.stopping ==> s.helper.unbound == multiset{})
    && (forall p :: p in s.client.activeBinds ==> Covered(s.helper, p))
  }

  ghost predicate Inv(s: Sys) {
    && Owned(s) && Hand(s) && Pipes(s) && HelperInv(s) && !s.fault
    && (forall i :: 0 <= i < |s.calls| ==> Good(s, i))
  }

  // ---- Every action keeps it ----

  ghost predicate Grows(g: Helper.State, h: Helper.State) {
    forall p :: Covered(g, p) ==> Covered(h, p)
  }

  /** A call that an action does not concern stays good. */
  lemma Unconcerned(s: Sys, t: Sys, i: nat)
    requires i < |s.calls| && i < |t.calls| && Good(s, i) && t.calls[i] == s.calls[i]
    requires i in s.client.chans <==> i in t.client.chans
    requires i in s.client.chans ==> t.client.chans[i] == s.client.chans[i]
    requires PendingOf(t, i, s.calls[i].id) <==> PendingOf(s, i, s.calls[i].id)
    requires s.calls[i].written && s.calls[i].id in t.client.pending ==> s.calls[i].id in s.client.pending
    requires InHand(s, i) <==> InHand(t, i)
    requires i in s.answered <==> i in t.answered
    requires HasId(s.calls[i]) ==> s.calls[i].id in t.owner && t.owner[s.calls[i].id] == i
    requires s.issued <= t.issued && t.exitFlushed == s.exitFlushed && Grows(s.helper, t.helper)
    requires s.client.activeBinds <= t.client.activeBinds
    ensures Good(t, i)
  {
  }

  /** Calls keep their ids and what they asked for, and the helper only grows: the pipes stay good. */
  lemma PipesStay(s: Sys, t: Sys)
    requires Pipes(s) && Grows(s.helper, t.helper)
    requires forall id :: Known(s, id) ==> Known(t, id) && t.owner[id] == s.owner[id]
                                           && t.calls[t.owner[id]].op == s.calls[s.owner[id]].op
    ensures forall r :: GoodRequest(s, r) ==> GoodRequest(t, r)
    ensures forall line :: GoodLine(s, line) ==> GoodLine(t, line)
  {
  }

  /** One call moves on; nothing shared but the pipes changes. */
  lemma OneCall(s: Sys, t: Sys, i: nat)
    requires Inv(s) && i < |s.calls| && |t.calls| == |s.calls|
    requires t == s.(calls := t.calls, stdin := t.stdin) && t.calls == s.calls[i := t.calls[i]]
    requires t.calls[i].id == s.calls[i].id && t.calls[i].op == s.calls[i].op && HasId(t.calls[i]) == HasId(s.calls[i])
    requires Good(t, i)
    requires forall r :: r in t.stdin ==> r in s.stdin || GoodRequest(t, r)
    ensures Inv(t)
  {
    forall j | 0 <= j < |t.calls| ensures Good(t, j) {
      if j != i { Unconcerned(s, t, j); }
    }
    PipesStay(s, t);
  }

  /** One call moves on, and perhaps its channel and its pending entry with it: the others do not notice. */
  lemma OthersUntouched(s: Sys, t: Sys, i: nat)
    requires Inv(s) && i < |s.calls| && HasId(s.calls[i]) && |t.calls| == |s.calls|
    requires t == s.(calls := t.calls, client := t.client) && t.calls == s.calls[i := t.calls[i]]
    requires t.calls[i].id == s.calls[i].id && t.calls[i].op == s.calls[i].op && HasId(t.calls[i])
    requires t.client.pending == s.client.pending || t.client.pending == s.client.pending - {s.calls[i].id}
    requires t.client.chans.Keys == s.client.chans.Keys
    requires forall j :: j in s.client.chans && j != i ==> t.client.chans[j] == s.client.chans[j]
    requires s.client.activeBinds <= t.client.activeBinds
    ensures Pipes(t) && forall j :: 0 <= j < |t.calls| && j != i ==> Good(t, j)
  {
    assert Good(s, i);
    forall j | 0 <= j < |t.calls| && j != i ensures Good(t, j) {
      assert Good(s, j);
      Unconcerned(s, t, j);
    }
    PipesStay(s, t);
  }

  lemma KeepCall(s: Sys, a: Action)
    requires Inv(s) && (a.CallBind? || a.CallStop?)
    ensures Inv(Apply(s, a))
  {
    var t := Apply(s, a);
    forall j | 0 <= j < |t.calls| ensures Good(t, j) {
      if j < |s.calls| { Unconcerned(s, t, j); }
    }
    PipesStay(s, t);
  }

  lemma KeepEarly(s: Sys, i: nat, a: Action)
    requires Inv(s) && Enabled(s, a) && (a == CheckCache(i) || (a.Resolve? && a.i == i))
    ensures Inv(Apply(s, a))
  {
    assert Good(s, i);
    OneCall(s, Apply(s, a), i);
  }

  lemma FreshId(s: Sys, i: nat)
    requires Inv(s) && At(s, i, Resolved) && s.issued + 1 < WORD
    ensures IdFrom(s.client.nextReqID) == s.issued + 1 && s.issued + 1 !in s.owner && s.issued + 1 !in s.client.pending
    ensures !InHand(s, i) && i !in s.client.chans && i !in s.answered
    ensures !s.reader.Idle? ==> s.reader.call < |s.calls| && s.calls[s.reader.call].id <= s.issued
  {
    assert Good(s, i);
    if !s.reader.Idle? { assert Good(s, s.reader.call); }
  }

  lemma RegisterLeavesOthers(s: Sys, i: nat)
    requires Inv(s) && At(s, i, Resolved) && s.issued + 1 < WORD
    ensures var t := ApplyRegister(s, i); Pipes(t) && forall j :: 0 <= j < |t.calls| && j != i ==> Good(t, j)
  {
    FreshId(s, i);
    var t := ApplyRegister(s, i);
    forall j | 0 <= j < |t.calls| && j != i ensures Good(t, j) {
      assert Good(s, j);
      Unconcerned(s, t, j);
    }
    PipesStay(s, t);
  }

  lemma KeepRegister(s: Sys, i: nat)
    requires Inv(s) && At(s, i, Resolved) && s.issued + 1 < WORD
    ensures Inv(ApplyRegister(s, i))
  {
    FreshId(s, i);
    RegisterLeavesOthers(s, i);
    assert Good(s, i);
  }

  lemma KeepWrite(s: Sys, i: nat)
    requires Inv(s) && At(s, i, Registered) && !s.helperPc.Gone?
    ensures Inv(ApplyWrite(s, i))
  {
    assert Good(s, i);
    OneCall(s, ApplyWrite(s, i), i);
  }

  lemma KeepFailWrite(s: Sys, i: nat, reached: Reached)
    requires Inv(s) && At(s, i, Registered)
    ensures Inv(ApplyFailWrite(s, i, reached))
  {
    assert Good(s, i);
    OneCall(s, ApplyFailWrite(s, i, reached), i);
  }

  lemma KeepExpire(s: Sys, i: nat)
    requires Inv(s) && At(s, i, Waiting)
    ensures Inv(Set(s, i, TimedOut))
  {
    assert Good(s, i);
    OneCall(s, Set(s, i, TimedOut), i);
  }

  lemma ReceiverIsGood(s: Sys, i: nat)
    requires Inv(s) && At(s, i, Waiting) && i in s.client.chans && CanReceive(s.client.chans[i])
    ensures s.client.chans[i].buf != [] && Good(ApplyReceive(s, i), i)
  {
    assert Good(s, i);
    assert s.client.chans[i].buf != [];
    assert Fits(s, s.calls[i], s.client.chans[i].buf[0]);
  }

  lemma KeepReceive(s: Sys, i: nat)
    requires Inv(s) && At(s, i, Waiting) && i in s.client.chans && CanReceive(s.client.chans[i])
    ensures Inv(ApplyReceive(s, i))
  {
    ReceiverIsGood(s, i);
    assert Good(s, i);
    OthersUntouched(s, ApplyReceive(s, i), i);
  }

  lemma UnregisteredIsGood(s: Sys, i: nat)
    requires Inv(s) && (At(s, i, WriteFailed) || At(s, i, TimedOut))
    ensures var t := ApplyUnregister(s, i); Good(t, i) && Owned(t) && HelperInv(t)
  {
    assert Good(s, i);
  }

  lemma KeepUnregister(s: Sys, i: nat)
    requires Inv(s) && (At(s, i, WriteFailed) || At(s, i, TimedOut))
    ensures Inv(ApplyUnregister(s, i))
  {
    UnregisteredIsGood(s, i);
    assert Good(s, i);
    OthersUntouched(s, ApplyUnregister(s, i), i);
  }

  lemma RecordedIsGood(s: Sys, i: nat)
    requires Inv(s) && At(s, i, Acked) && s.calls[i].op.BindOp?
    ensures var t := ApplyRecord(s, i); Good(t, i) && Owned(t) && HelperInv(t)
  {
    assert Good(s, i);
  }

  lemma KeepRecord(s: Sys, i: nat)
    requires Inv(s) && At(s, i, Acked) && s.calls[i].op.BindOp?
    ensures Inv(ApplyRecord(s, i))
  {
    RecordedIsGood(s, i);
    assert Good(s, i);
    OthersUntouched(s, ApplyRecord(s, i), i);
  }

  lemma TakeAnswer(s: Sys, line: Line)
    requires Inv(s) && s.reader.Idle? && line.Response? && GoodLine(s, line) && line.id in s.client.pending
    ensures Inv(ApplyLine(s, line))
  {
    var t := ApplyLine(s, line);
    var i := s.owner[line.id];
    assert Good(s, i);
    forall j | 0 <= j < |t.calls| ensures Good(t, j) {
      assert Good(s, j);
      if j != i { Unconcerned(s, t, j); }
    }
    PipesStay(s, t);
  }

  lemma OtherLine(s: Sys, line: Line)
    requires Inv(s) && s.reader.Idle? && (line.Response? ==> line.id !in s.client.pending)
    ensures Inv(ApplyLine(s, line))
  {
    var t := ApplyLine(s, line);
    forall j | 0 <= j < |t.calls| ensures Good(t, j) {
      Unconcerned(s, t, j);
    }
    PipesStay(s, t);
  }

  lemma KeepLine(s: Sys)
    requires Inv(s) && Enabled(s, ReadLine)
    ensures Inv(Apply(s, ReadLine))
  {
    var u := s.(stdout := s.stdout[1..]);
    var line := s.stdout[0];
    assert GoodLine(s, line);
    HelperMoves(s, u);
    assert Inv(u);
    if line.Response? && line.id in s.client.pending { TakeAnswer(u, line); } else { OtherLine(u, line); }
  }

  lemma KeepHand(s: Sys, a: Action)
    requires Inv(s) && Enabled(s, a) && (a.Deliver? || a.CloseReply?)
    ensures Inv(Apply(s, a))
  {
    var t := Apply(s, a);
    var i := s.reader.call;
    assert Good(s, i);
    forall j | 0 <= j < |t.calls| ensures Good(t, j) {
      if j != i { Unconcerned(s, t, j); }
    }
    PipesStay(s, t);
  }

  lemma PendingIsReady(s: Sys)
    requires Inv(s)
    ensures Ready(s.client.pending, s.client.chans)
    ensures forall id :: id in s.client.pending ==> s.client.pending[id] !in s.answered
  {
    forall id | id in s.client.pending
      ensures s.client.pending[id] in s.client.chans && CanSend(s.client.chans[s.client.pending[id]])
              && s.client.pending[id] !in s.answered
    {
      assert Good(s, s.owner[id]);
    }
    forall id, other | id in s.client.pending && other in s.client.pending && id != other
      ensures s.client.pending[id] != s.client.pending[other]
    {
      assert Known(s, id) && Known(s, other);
    }
  }

  lemma ExitTells(s: Sys, j: nat)
    requires Inv(s) && Enabled(s, WatchExit) && j < |s.calls| && Ready(s.client.pending, s.client.chans)
    ensures Good(Apply(s, WatchExit), j)
  {
    var t := Apply(s, WatchExit);
    assert Good(s, j);
    if PendingOf(s, j, s.calls[j].id) {
      assert Taken(s.client.pending, map[], j);
      assert t.client.chans[j].buf == [Exited];
    } else {
      assert forall id :: id in s.client.pending && s.client.pending[id] == j ==> id == s.calls[j].id;
    }
  }

  lemma KeepExit(s: Sys)
    requires Inv(s) && Enabled(s, WatchExit)
    ensures Inv(Apply(s, WatchExit))
  {
    var t := Apply(s, WatchExit);
    PendingIsReady(s);
    forall j | 0 <= j < |t.calls| ensures Good(t, j) {
      ExitTells(s, j);
    }
    PipesStay(s, t);
  }

  /** The helper moves on; the calls stay as they are. */
  lemma HelperMoves(s: Sys, t: Sys)
    requires Inv(s) && Grows(s.helper, t.helper)
    requires t == s.(helper := t.helper, helperPc := t.helperPc, stdin := t.stdin, stdout := t.stdout,
                     stdinClosed := t.stdinClosed)
    ensures Owned(s) && (s.helperPc.Gone? ==> t.helperPc.Gone?) ==> Owned(t)
    ensures Hand(t) && forall i :: 0 <= i < |t.calls| ==> Good(t, i)
    ensures forall r :: GoodRequest(s, r) ==> GoodRequest(t, r)
    ensures forall line :: GoodLine(s, line) ==> GoodLine(t, line)
    ensures forall p :: p in t.client.activeBinds ==> Covered(t.helper, p)
  {
    forall j | 0 <= j < |t.calls| ensures Good(t, j) {
      Unconcerned(s, t, j);
    }
    PipesStay(s, t);
  }

  lemma KeepQuiet(s: Sys, a: Action)
    requires Inv(s) && Enabled(s, a)
    requires a.CloseStdin? || a.HelperEmit? || a.HelperQuit? || a.HelperEvent? || a.HelperExit?
    ensures Inv(Apply(s, a))
  {
    HelperMoves(s, Apply(s, a));
  }

  lemma KeepStop(s: Sys)
    requires Inv(s) && Enabled(s, HelperStop)
    ensures Inv(Apply(s, HelperStop))
  {
    var t := Apply(s, HelperStop);
    Helper.StopKeeps(s.helper, s.root);
    HelperMoves(s, t);
  }

  lemma BindGrows(s: Sys, req: Helper.BindRequest, host: Helper.Host)
    requires HelperInv(s)
    ensures var r := Helper.Decide(s.helper, s.root, req, host);
            var h := Helper.BindStep(s.helper, req.relPath, r);
            && Grows(s.helper, h) && (!r.Rejected? ==> Covered(h, req.relPath))
            && Helper.Balanced(h) && Helper.ActiveValid(h, s.root)
            && h.stopping == s.helper.stopping && h.unbound == s.helper.unbound
            && h.active == if r == Helper.Bound then s.helper.active + {req.relPath} else s.helper.active
  {
    Helper.BindKeeps(s.helper, s.root, req, host);
  }

  lemma KeepTake(s: Sys, host: Helper.Host)
    requires Inv(s) && Enabled(s, HelperTake(host))
    ensures Inv(Apply(s, HelperTake(host)))
  {
    var t := Apply(s, HelperTake(host));
    var r := s.stdin[0];
    assert GoodRequest(s, r);
    if r.Request? && r.op.BindOp? { BindGrows(s, r.op.req, host); }
    HelperMoves(s, t);
  }

  lemma KeepCalls(s: Sys, a: Action)
    requires Inv(s) && Enabled(s, a) && Apply(s, a).issued < WORD && !ByHelper(a) && !ByReader(a)
    ensures Inv(Apply(s, a))
  {
    match a
    case CheckCache(i) => KeepEarly(s, i, a);
    case Resolve(i, _) => KeepEarly(s, i, a);
    case Register(i) => KeepRegister(s, i);
    case Write(i) => KeepWrite(s, i);
    case FailWrite(i, reached) => KeepFailWrite(s, i, reached);
    case Expire(i) => KeepExpire(s, i);
    case Receive(i) => KeepReceive(s, i);
    case Unregister(i) => KeepUnregister(s, i);
    case Record(i) => KeepRecord(s, i);
    case _ => KeepCall(s, a);
  }

  lemma KeepReader(s: Sys, a: Action)
    requires Inv(s) && Enabled(s, a) && ByReader(a)
    ensures Inv(Apply(s, a))
  {
    match a
    case CloseStdin => KeepQuiet(s, a);
    case ReadLine => KeepLine(s);
    case WatchExit => KeepExit(s);
    case _ => KeepHand(s, a);
  }

  lemma KeepHelper(s: Sys, a: Action)
    requires Inv(s) && Enabled(s, a) && ByHelper(a)
    ensures Inv(Apply(s, a))
  {
    match a
    case HelperTake(host) => KeepTake(s, host);
    case HelperStop => KeepStop(s);
    case _ => KeepQuiet(s, a);
  }

  lemma KeepAll(s: Sys, a: Action)
    requires Inv(s) && Enabled(s, a) && Apply(s, a).issued < WORD
    ensures Inv(Apply(s, a))
  {
    if ByHelper(a) { KeepHelper(s, a); } else if ByReader(a) { KeepReader(s, a); } else { KeepCalls(s, a); }
  }

  // ---- What each side leaves alone ----

  predicate ByHelper(a: Action) {
    a.HelperTake? || a.HelperEmit? || a.HelperStop? || a.HelperQuit? || a.HelperEvent? || a.HelperExit?
  }

  /** The client's read loop, its exit watcher, and the end of the helper's input. */
  predicate ByReader(a: Action) {
    a.CloseStdin? || a.ReadLine? || a.Deliver? || a.CloseReply? || a.WatchExit?
  }

  /** A call leaves the helper alone, and puts nothing into a closed pipe. */
  lemma CallFrame(s: Sys, a: Action)
    requires Enabled(s, a) && !ByHelper(a) && !ByReader(a)
    ensures var t := Apply(s, a);
            && t.root == s.root && t.helper == s.helper && t.helperPc == s.helperPc && s.issued <= t.issued
            && t.stdinClosed == s.stdinClosed && (s.stdinClosed ==> t.stdin == s.stdin)
  {
    if a.FailWrite? { FailedWriteFrame(s, a.i, a.reached); }
  }

  lemma FailedWriteFrame(s: Sys, i: nat, reached: Reached)
    requires Enabled(s, FailWrite(i, reached))
    ensures var t := ApplyFailWrite(s, i, reached);
            && t.root == s.root && t.helper == s.helper && t.helperPc == s.helperPc && s.issued <= t.issued
            && t.stdinClosed == s.stdinClosed && (s.stdinClosed ==> t.stdin == s.stdin)
  {
  }

  lemma ReaderFrame(s: Sys, a: Action)
    requires Enabled(s, a) && ByReader(a)
    ensures var t := Apply(s, a);
            && t.root == s.root && t.helper == s.helper && t.helperPc == s.helperPc && t.issued == s.issued
            && t.calls == s.calls && t.stdin == s.stdin && (s.stdinClosed ==> t.stdinClosed)
  {
  }

  lemma HelperFrame(s: Sys, a: Action)
    requires Enabled(s, a) && ByHelper(a)
    ensures var t := Apply(s, a);
            t.root == s.root && t.calls == s.calls && t.issued == s.issued && t.stdinClosed == s.stdinClosed
  {
  }

  // ---- Every run ----

  lemma StepIssues(s: Sys, a: Action)
    requires Enabled(s, a)
    ensures s.issued <= Apply(s, a).issued
  {
    if ByHelper(a) { HelperFrame(s, a); } else if ByReader(a) { ReaderFrame(s, a); } else { CallFrame(s, a); }
  }

  lemma {:induction false} IssuedGrows(root: string, run: seq<Action>, k: nat)
    requires k <= |run|
    ensures After(root, run[..k]).issued <= After(root, run).issued
    decreases |run| - k
  {
    if k < |run| {
      var next := run[..k + 1];
      assert next[..|next| - 1] == run[..k] && next[|next| - 1] == run[k];
      if Enabled(After(root, run[..k]), run[k]) { StepIssues(After(root, run[..k]), run[k]); }
      IssuedGrows(root, run, k + 1);
    } else {
      assert run[..k] == run;
    }
  }

  /** In every run that hands out fewer than 2^64 ids, every state satisfies the invariant. */
  lemma {:induction false} Reachable(root: string, run: seq<Action>)
    requires After(root, run).issued < WORD
    ensures Inv(After(root, run))
  {
    if run != [] {
      var last := |run| - 1;
      IssuedGrows(root, run, last);
      Reachable(root, run[..last]);
      var s := After(root, run[..last]);
      if Enabled(s, run[last]) { KeepAll(s, run[last]); }
    }
  }

  /**
   Until the helper begins to stop, whatever the client believes bound the helper has bound, or has
   passed over as a non-directory. Afterwards it has at least been bound once.
   */
  lemma {:induction false} BindAgreement(root: string, run: seq<Action>, p: string)
    requires After(root, run).issued < WORD && p in After(root, run).client.activeBinds
    ensures var h := After(root, run).helper;
            && (p in h.active || p in h.skipped || h.unbound[p] > 0)
            && (!h.stopping ==> p in h.active + h.skipped)
  {
    Reachable(root, run);
  }

  /** Before the helper stops, a path is mounted at most once, unless a read-only remount failed for it. */
  lemma {:induction false} MountedAtMostOnce(root: string, run: seq<Action>, p: string)
    requires After(root, run).issued < WORD && !After(root, run).helper.stopping
    ensures var h := After(root, run).helper;
            h.mounts[p] == (if p in h.active then 1 else 0) + h.remountFailures[p]
  {
    Reachable(root, run);
  }

  /** No channel is sent to twice, while full or closed, none is closed twice, and `ready` is closed at most once. */
  lemma {:induction false} ChannelsNeverFault(root: string, run: seq<Action>)
    requires After(root, run).issued < WORD
    ensures !After(root, run).fault && After(root, run).client.readyCloses <= 1
  {
    Reachable(root, run);
  }

  /**
   After the exit watcher has run, a call still waiting either has a reply in its channel or is in
   the reader's hand: none is left to its timer.
   */
  lemma {:induction false} ExitReachesEveryCall(root: string, run: seq<Action>, i: nat)
    requires After(root, run).issued < WORD && After(root, run).exitFlushed
    requires At(After(root, run), i, Waiting)
    ensures var s := After(root, run);
            s.calls[i].id !in s.client.pending && (InHand(s, i) || Enabled(s, Receive(i)))
  {
    Reachable(root, run);
    assert Good(After(root, run), i);
  }

  /**
   A call fails with the helper's answer only on a negative answer to its own request, and with word of
   its exit only after the exit.
   */
  lemma {:induction false} RepliesMatch(root: string, run: seq<Action>, i: nat)
    requires After(root, run).issued < WORD && i < |After(root, run).calls|
    requires After(root, run).calls[i].pc.Done? && After(root, run).calls[i].pc.outcome.Failed?
    ensures var s := After(root, run);
            match s.calls[i].pc.outcome.reply
            case Answered(from, ok, _) => from == s.calls[i].id && !ok
            case Exited => s.helperPc.Gone?
  {
    Reachable(root, run);
    assert Good(After(root, run), i);
  }
}
