/**
 What a `Bind` call gets: over every run the cause of each outcome, and how a call comes to the answer
 of a helper that serves.
 */
module VfsBind {
  import opened Channels
  import opened VfsClient
  import opened VfsProtocol
  import opened VfsStop
  import Helper = MountHelper

  // ---- Causes ----

  ghost predicate WriteFailedIn(run: seq<Action>, i: nat) {
    exists reached :: FailWrite(i, reached) in run
  }

  /** What the run must have seen for the outcome. */
  ghost predicate Caused(run: seq<Action>, s: Sys, i: nat, c: Call, o: Outcome) {
    match o
    case CacheHit => c.op.BindOp? && c.op.req.relPath in s.client.activeBinds
    case BadPath => Resolve(i, false) in run
    case Succeeded => c.op.BindOp? ==> c.op.req.relPath in s.client.activeBinds && Covered(s.helper, c.op.req.relPath)
    case Failed(Answered(from, ok, _)) => from == c.id && !ok
    case Failed(Exited) => WatchExit in run
    case WriteFailure => WriteFailedIn(run, i)
    case Timeout => Expire(i) in run
  }

  ghost predicate CallTraced(run: seq<Action>, i: nat, c: Call) {
    && (c.pc.WriteFailed? || c.pc == Done(WriteFailure) ==> WriteFailedIn(run, i))
    && (c.pc.TimedOut? || c.pc == Done(Timeout) ==> Expire(i) in run)
    && (c.pc == Done(BadPath) ==> Resolve(i, false) in run)
    && (c.pc == Done(CacheHit) || c.pc.Missed? || c.pc.Begun? ==> c.op.BindOp?)
  }

  ghost predicate Traced(run: seq<Action>, s: Sys) {
    && (forall i :: 0 <= i < |s.calls| ==> CallTraced(run, i, s.calls[i]))
    && (s.exitFlushed ==> WatchExit in run)
  }

  lemma TraceStays(run: seq<Action>, a: Action, i: nat, c: Call)
    requires CallTraced(run, i, c)
    ensures CallTraced(run + [a], i, c)
  {
    if WriteFailedIn(run, i) {
      var reached :| FailWrite(i, reached) in run;
      assert FailWrite(i, reached) in run + [a];
    }
  }

  /** The call an action moves, if it moves one. */
  predicate Moves(a: Action, i: nat) {
    || a in {CheckCache(i), Register(i), Write(i), Receive(i), Expire(i), Unregister(i), Record(i)}
    || (a.Resolve? && a.i == i) || (a.FailWrite? && a.i == i)
  }

  lemma OthersStay(s: Sys, a: Action, i: nat)
    requires Enabled(s, a) && i < |s.calls| && !Moves(a, i)
    ensures i < |Apply(s, a).calls| && Apply(s, a).calls[i] == s.calls[i]
  {
    if ByHelper(a) { HelperFrame(s, a); } else if ByReader(a) { ReaderFrame(s, a); }
  }

  /** A step of the call can take it from there to there. */
  predicate Leads(a: Action, i: nat, c: Call, d: Call) {
    && d.op == c.op && (d.pc.WriteFailed? ==> a.FailWrite?) && (d.pc.TimedOut? ==> a == Expire(i))
    && (d.pc == Done(WriteFailure) ==> c.pc.WriteFailed?) && (d.pc == Done(Timeout) ==> c.pc.TimedOut?)
    && (d.pc == Done(BadPath) ==> a == Resolve(i, false))
    && (d.pc == Done(CacheHit) || d.pc.Missed? || d.pc.Begun? ==> c.pc.Begun?)
  }

  lemma OwnMove(s: Sys, a: Action, i: nat)
    requires Enabled(s, a) && i < |s.calls| && Moves(a, i)
    ensures i < |Apply(s, a).calls| && Leads(a, i, s.calls[i], Apply(s, a).calls[i])
  {
    match a
    case Register(_) => RegisterMove(s, i);
    case FailWrite(_, reached) => FailMove(s, i, reached);
    case Receive(_) => ReceiveMove(s, i);
    case Unregister(_) => UnregisterMove(s, i);
    case _ =>
  }

  lemma RegisterMove(s: Sys, i: nat)
    requires i < |s.calls|
    ensures var t := ApplyRegister(s, i); |t.calls| == |s.calls| && Leads(VfsProtocol.Register(i), i, s.calls[i], t.calls[i])
  {
  }

  lemma FailMove(s: Sys, i: nat, reached: Reached)
    requires i < |s.calls|
    ensures var t := ApplyFailWrite(s, i, reached);
            |t.calls| == |s.calls| && Leads(FailWrite(i, reached), i, s.calls[i], t.calls[i])
  {
  }

  lemma ReceiveMove(s: Sys, i: nat)
    requires i < |s.calls| && i in s.client.chans
    ensures var t := ApplyReceive(s, i); |t.calls| == |s.calls| && Leads(Receive(i), i, s.calls[i], t.calls[i])
  {
  }

  lemma UnregisterMove(s: Sys, i: nat)
    requires At(s, i, WriteFailed) || At(s, i, TimedOut)
    ensures var t := ApplyUnregister(s, i); |t.calls| == |s.calls| && Leads(VfsProtocol.Unregister(i), i, s.calls[i], t.calls[i])
  {
  }

  lemma OwnTraced(run: seq<Action>, s: Sys, a: Action, i: nat)
    requires Enabled(s, a) && i < |s.calls| && Moves(a, i) && CallTraced(run, i, s.calls[i])
    ensures i < |Apply(s, a).calls| && CallTraced(run + [a], i, Apply(s, a).calls[i])
  {
    OwnMove(s, a, i);
    TraceFollows(run, a, i, s.calls[i], Apply(s, a).calls[i]);
  }

  lemma TraceFollows(run: seq<Action>, a: Action, i: nat, c: Call, d: Call)
    requires CallTraced(run, i, c) && Moves(a, i) && Leads(a, i, c, d)
    ensures CallTraced(run + [a], i, d)
  {
    TraceStays(run, a, i, c);
    assert a in run + [a];
    if a.FailWrite? { assert FailWrite(i, a.reached) in run + [a]; }
  }

  lemma NewTraced(run: seq<Action>, s: Sys, a: Action, i: nat)
    requires Enabled(s, a) && |s.calls| <= i < |Apply(s, a).calls|
    ensures CallTraced(run + [a], i, Apply(s, a).calls[i])
  {
    if ByHelper(a) { HelperFrame(s, a); } else if ByReader(a) { ReaderFrame(s, a); }
  }

  lemma ExitTraced(run: seq<Action>, s: Sys, a: Action)
    requires Enabled(s, a) && (s.exitFlushed ==> WatchExit in run)
    ensures Apply(s, a).exitFlushed ==> WatchExit in run + [a]
  {
    assert a in run + [a];
  }

  lemma TraceOne(run: seq<Action>, s: Sys, a: Action)
    requires Traced(run, s) && Enabled(s, a)
    ensures Traced(run + [a], Apply(s, a))
  {
    var t := Apply(s, a);
    forall i | 0 <= i < |t.calls| ensures CallTraced(run + [a], i, t.calls[i]) {
      if i >= |s.calls| {
        NewTraced(run, s, a, i);
      } else if Moves(a, i) {
        OwnTraced(run, s, a, i);
      } else {
        OthersStay(s, a, i);
        TraceStays(run, a, i, s.calls[i]);
      }
    }
    ExitTraced(run, s, a);
  }

  lemma {:induction false} AlwaysTraced(root: string, run: seq<Action>)
    ensures Traced(run, After(root, run))
  {
    if run != [] {
      var init, a := run[..|run| - 1], run[|run| - 1];
      var s := After(root, init);
      AlwaysTraced(root, init);
      if Enabled(s, a) {
        TraceOne(init, s, a);
      } else {
        forall i | 0 <= i < |s.calls| ensures CallTraced(init + [a], i, s.calls[i]) {
          TraceStays(init, a, i, s.calls[i]);
        }
      }
      assert run == init + [a];
    }
  }

  /**
   Whatever a call returned with has its cause: a bind that succeeds or hits the cache is cached, one
   that fails got a negative answer to its own request or word of the exit, and the rest had their path
   refused, their write fail or their timer run out.
   */
  lemma {:induction false} EveryOutcomeHasItsCause(root: string, run: seq<Action>, i: nat)
    requires After(root, run).issued < WORD && i < |After(root, run).calls| && After(root, run).calls[i].pc.Done?
    ensures var s := After(root, run); Caused(run, s, i, s.calls[i], s.calls[i].pc.outcome)
  {
    Reachable(root, run);
    AlwaysTraced(root, run);
    var s := After(root, run);
    assert Good(s, i) && CallTraced(run, i, s.calls[i]);
  }

  // ---- The pipes drain ----

  /** Both pipes are open and the helper still reads. */
  predicate Healthy(s: Sys) {
    !s.stdinClosed && !Down(s.helperPc)
  }

  /** Nothing is under way in the pipes, the helper or the reader. */
  predicate AtEase(s: Sys) {
    s.stdin == [] && s.stdout == [] && s.helperPc == Serving && s.reader == Idle && !s.stdinClosed
  }

  /** The calls, the cache and the ids are as they were. */
  predicate Kept(s: Sys, t: Sys) {
    && t.root == s.root && t.calls == s.calls && t.stdinClosed == s.stdinClosed && t.issued == s.issued
    && t.client.activeBinds == s.client.activeBinds && t.client.nextReqID == s.client.nextReqID
  }

  lemma {:induction false} HelperReturns(root: string, run: seq<Action>) returns (next: seq<Action>)
    requires !Down(After(root, run).helperPc)
    ensures run <= next
    ensures var s, t := After(root, run), After(root, next);
            t == s.(helper := t.helper, helperPc := Serving, stdout := t.stdout)
  {
    next := run;
    if After(root, next).helperPc.Replying? || After(root, next).helperPc.ReplyingStop? {
      Step(root, next, HelperEmit); next := next + [HelperEmit];
    }
    if After(root, next).helperPc.Stopping? {
      Step(root, next, HelperStop); next := next + [HelperStop];
    }
  }

  lemma {:induction false} ServesAll(root: string, run: seq<Action>) returns (next: seq<Action>)
    requires !Down(After(root, run).helperPc)
    ensures run <= next
    ensures var s, t := After(root, run), After(root, next);
            t == s.(helper := t.helper, helperPc := Serving, stdout := t.stdout, stdin := [])
    decreases |After(root, run).stdin|
  {
    next := HelperReturns(root, run);
    if After(root, next).stdin != [] {
      TakeLeaves(After(root, next));
      Step(root, next, HelperTake(Helper.WILLING));
      var rest := ServesAll(root, next + [HelperTake(Helper.WILLING)]);
      Longer(next, next + [HelperTake(Helper.WILLING)], rest);
      Longer(run, next, rest);
      next := rest;
    }
  }

  lemma TakeLeaves(s: Sys)
    requires Enabled(s, HelperTake(Helper.WILLING))
    ensures var t := Apply(s, HelperTake(Helper.WILLING));
            !Down(t.helperPc) && t == s.(helper := t.helper, helperPc := t.helperPc, stdin := s.stdin[1..])
  {
  }

  lemma {:induction false} ReaderReturns(root: string, run: seq<Action>) returns (next: seq<Action>)
    requires After(root, run).issued < WORD
    ensures run <= next
    ensures var s, t := After(root, run), After(root, next);
            && Kept(s, t) && t.reader == Idle && t.stdin == s.stdin && t.stdout == s.stdout && t.helperPc == s.helperPc
            && t.helper == s.helper && t.client.readyFired == s.client.readyFired
  {
    Reachable(root, run);
    next := run;
    if After(root, next).reader.Holding? {
      Step(root, next, Deliver); next := next + [Deliver];
    }
    if After(root, next).reader.Sent? {
      Step(root, next, CloseReply); next := next + [CloseReply];
    }
  }

  lemma LineLeaves(s: Sys)
    requires Enabled(s, ReadLine)
    ensures var t := Apply(s, ReadLine);
            && Kept(s, t) && t.stdin == s.stdin && t.stdout == s.stdout[1..] && t.helperPc == s.helperPc && t.helper == s.helper
            && (s.stdout[0] == ReadyEvent || s.client.readyFired ==> t.client.readyFired)
  {
  }

  lemma FirstOrLater(lines: seq<Line>)
    requires lines != []
    ensures forall line :: line in lines ==> line == lines[0] || line in lines[1..]
  {
  }

  lemma {:induction false} ReadsAll(root: string, run: seq<Action>) returns (next: seq<Action>)
    requires After(root, run).issued < WORD
    ensures run <= next
    ensures var s, t := After(root, run), After(root, next);
            && Kept(s, t) && t.reader == Idle && t.stdin == s.stdin && t.stdout == [] && t.helperPc == s.helperPc
            && t.helper == s.helper && (ReadyEvent in s.stdout || s.client.readyFired ==> t.client.readyFired)
    decreases |After(root, run).stdout|
  {
    next := ReaderReturns(root, run);
    if After(root, next).stdout != [] {
      LineLeaves(After(root, next));
      Step(root, next, ReadLine);
      FirstOrLater(After(root, next).stdout);
      var rest := ReadsAll(root, next + [ReadLine]);
      Longer(next, next + [ReadLine], rest);
      Longer(run, next, rest);
      next := rest;
    }
  }

  /** While both pipes are open and the helper reads, whatever is under way can come to rest. */
  lemma {:induction false} ComesToRest(root: string, run: seq<Action>) returns (next: seq<Action>)
    requires Healthy(After(root, run)) && After(root, run).issued < WORD
    ensures run <= next && AtEase(After(root, next)) && Kept(After(root, run), After(root, next))
  {
    var served := ServesAll(root, run);
    next := ReadsAll(root, served);
    Longer(run, served, next);
  }

  // ---- A bind comes to its answer ----

  /** The mode a bind is carried out with. */
  function ModeOf(mode: string): string {
    if mode == "" then "rw" else mode
  }

  /** A bind of a path that is not cached, called and written. */
  lemma {:induction false} Asks(root: string, run: seq<Action>, relPath: string, mode: string, hostPath: string)
    returns (next: seq<Action>)
    requires var s := After(root, run);
             AtEase(s) && Inv(s) && s.issued + 1 < WORD && relPath !in s.client.activeBinds
    ensures run <= next
    ensures var s, t := After(root, run), After(root, next);
            var i, id, op := |s.calls|, s.issued + 1, BindOp(Helper.BindRequest(hostPath, relPath, ModeOf(mode)));
            && t.calls == s.calls + [Call(Waiting, op, id, true)] && t.stdin == [Request(id, op)]
            && t.stdout == [] && t.helperPc == Serving && t.reader == Idle && t.helper == s.helper && t.root == s.root
            && PendingOf(t, i, id) && i in t.client.chans && t.client.chans[i] == Fresh()
            && t.client.activeBinds == s.client.activeBinds
  {
    var i := |After(root, run).calls|;
    next := Calls(root, run, relPath, mode, hostPath);
    Step(root, next, VfsProtocol.Register(i)); next := next + [VfsProtocol.Register(i)];
    Step(root, next, Write(i)); next := next + [Write(i)];
  }

  lemma {:induction false} Calls(root: string, run: seq<Action>, relPath: string, mode: string, hostPath: string)
    returns (next: seq<Action>)
    requires relPath !in After(root, run).client.activeBinds
    ensures run <= next
    ensures var s, t := After(root, run), After(root, next);
            t == s.(calls := s.calls + [Call(Resolved, BindOp(Helper.BindRequest(hostPath, relPath, ModeOf(mode))), 0, false)])
  {
    var s, i := After(root, run), |After(root, run).calls|;
    var op := BindOp(Helper.BindRequest(hostPath, relPath, ModeOf(mode)));
    Step(root, run, CallBind(relPath, mode, hostPath)); next := run + [CallBind(relPath, mode, hostPath)];
    MissesCache(s.(calls := s.calls + [Call(Begun, op, 0, false)]), i);
    Step(root, next, CheckCache(i)); next := next + [CheckCache(i)];
    Step(root, next, Resolve(i, true)); next := next + [Resolve(i, true)];
    LastOf(s.calls, Call(Begun, op, 0, false), Call(Missed, op, 0, false), Call(Resolved, op, 0, false));
  }

  lemma MissesCache(s: Sys, i: nat)
    requires At(s, i, Begun) && s.calls[i].op.BindOp? && s.calls[i].op.req.relPath !in s.client.activeBinds
    ensures Apply(s, CheckCache(i)) == Set(s, i, Missed)
  {
  }

  lemma LastOf<T>(xs: seq<T>, x: T, y: T, z: T)
    ensures (xs + [x])[|xs| := y][|xs| := z] == xs + [z]
  {
  }

  /** The helper answers the request in its input. */
  lemma {:induction false} Serves(root: string, run: seq<Action>, id: nat, req: Helper.BindRequest, host: Helper.Host)
    returns (next: seq<Action>)
    requires var s := After(root, run); s.helperPc == Serving && s.stdin == [Request(id, BindOp(req))] && s.stdout == []
    ensures run <= next
    ensures var s, t := After(root, run), After(root, next);
            var r := Helper.Decide(s.helper, s.root, req, host);
            && |t.stdout| == 1 && t.stdout[0].Response? && t.stdout[0].id == id && (t.stdout[0].ok <==> !r.Rejected?)
            && t == s.(stdin := [], stdout := t.stdout, helper := Helper.BindStep(s.helper, req.relPath, r))
  {
    Step(root, run, HelperTake(host)); next := run + [HelperTake(host)];
    Step(root, next, HelperEmit); next := next + [HelperEmit];
  }

  /** The client reads the answer and hands it to the call. */
  lemma {:induction false} Delivers(root: string, run: seq<Action>, i: nat, line: Line) returns (next: seq<Action>)
    requires var s := After(root, run);
             && s.reader == Idle && s.stdout == [line] && line.Response? && PendingOf(s, i, line.id)
             && At(s, i, Waiting) && s.calls[i].op.BindOp? && i in s.client.chans && s.client.chans[i] == Fresh()
    ensures run <= next
    ensures var s, t := After(root, run), After(root, next);
            && t.calls == s.calls[i := s.calls[i].(pc := if line.ok then Acked else Done(Failed(Answered(line.id, false, line.error))))]
            && t.client.activeBinds == s.client.activeBinds && t.helper == s.helper
  {
    next := HandsOver(root, run, i, line);
    Step(root, next, Receive(i)); next := next + [Receive(i)];
  }

  lemma {:induction false} HandsOver(root: string, run: seq<Action>, i: nat, line: Line) returns (next: seq<Action>)
    requires var s := After(root, run);
             && s.reader == Idle && s.stdout == [line] && line.Response? && PendingOf(s, i, line.id)
             && i in s.client.chans && s.client.chans[i] == Fresh()
    ensures run <= next
    ensures var s, t := After(root, run), After(root, next);
            && t.calls == s.calls && t.client.activeBinds == s.client.activeBinds && t.helper == s.helper
            && i in t.client.chans && t.client.chans[i] == Close(Send(Fresh(), Answered(line.id, line.ok, line.error)))
  {
    Step(root, run, ReadLine); next := run + [ReadLine];
    Step(root, next, Deliver); next := next + [Deliver];
    Step(root, next, CloseReply); next := next + [CloseReply];
  }

  /** What a bind that the helper decided comes to on both sides. */
  predicate Decided(s: Sys, t: Sys, req: Helper.BindRequest, r: Helper.BindResult) {
    && |t.calls| == |s.calls| + 1 && t.calls[..|s.calls|] == s.calls
    && t.helper == Helper.BindStep(s.helper, req.relPath, r)
    && var c := t.calls[|s.calls|];
       && c.op == BindOp(req) && c.pc.Done?
       && (if r.Rejected? then c.pc.outcome.Failed? && c.pc.outcome.reply.Answered? && !c.pc.outcome.reply.ok
                               && c.pc.outcome.reply.from == c.id && t.client.activeBinds == s.client.activeBinds
           else c.pc.outcome == Succeeded && t.client.activeBinds == s.client.activeBinds + {req.relPath})
  }

  /**
   A bind that is written to a serving helper at rest, and whose answer is read, succeeds and is cached
   exactly when the helper did not reject it.
   */
  lemma {:induction false} BindIsDecided(root: string, run: seq<Action>, relPath: string, mode: string, hostPath: string,
                                         host: Helper.Host)
    returns (next: seq<Action>)
    requires var s := After(root, run); AtEase(s) && s.issued + 1 < WORD && relPath !in s.client.activeBinds
    ensures run <= next
    ensures var s, req := After(root, run), Helper.BindRequest(hostPath, relPath, ModeOf(mode));
            Decided(s, After(root, next), req, Helper.Decide(s.helper, s.root, req, host))
  {
    var s, req := After(root, run), Helper.BindRequest(hostPath, relPath, ModeOf(mode));
    var i, id := |s.calls|, s.issued + 1;
    Reachable(root, run);
    next := Asks(root, run, relPath, mode, hostPath);
    next := Serves(root, next, id, req, host);
    next := Delivers(root, next, i, After(root, next).stdout[0]);
    if !Helper.Decide(s.helper, s.root, req, host).Rejected? {
      Step(root, next, VfsProtocol.Record(i)); next := next + [VfsProtocol.Record(i)];
    }
  }

  /**
   From every reachable state with both pipes open and a helper that reads, a bind of valid paths can
   come to success, whatever else is under way, and then both sides have it cached.
   */
  lemma {:induction false} BindGoesThrough(root: string, run: seq<Action>, relPath: string, mode: string, hostPath: string)
    returns (next: seq<Action>)
    requires var s := After(root, run); Healthy(s) && s.issued + 1 < WORD && relPath !in s.client.activeBinds
    requires Helper.Mountable(root, Helper.BindRequest(hostPath, relPath, ModeOf(mode)))
    ensures run <= next
    ensures var s, t := After(root, run), After(root, next);
            && |t.calls| == |s.calls| + 1 && t.calls[|s.calls|].pc == Done(Succeeded)
            && t.calls[|s.calls|].op == BindOp(Helper.BindRequest(hostPath, relPath, ModeOf(mode)))
            && relPath in t.client.activeBinds && relPath in t.helper.active
  {
    RootStays(root, run);
    var rested := ComesToRest(root, run);
    next := BindIsDecided(root, rested, relPath, mode, hostPath, Helper.WILLING);
    Longer(run, rested, next);
  }

  /** A bind of a path that the client has cached ends at once, and nothing is sent. */
  lemma {:induction false} CachedBindEnds(root: string, run: seq<Action>, relPath: string, mode: string, hostPath: string)
    requires relPath in After(root, run).client.activeBinds
    ensures var s := After(root, run);
            After(root, run + [CallBind(relPath, mode, hostPath)] + [CheckCache(|s.calls|)])
            == s.(calls := s.calls + [Call(Done(CacheHit), BindOp(Helper.BindRequest(hostPath, relPath, ModeOf(mode))), 0, false)])
  {
    var i := |After(root, run).calls|;
    Step(root, run, CallBind(relPath, mode, hostPath));
    Step(root, run + [CallBind(relPath, mode, hostPath)], CheckCache(i));
  }

  // ---- The ready event ----

  /** The event is on its way to the client, or has reached it. */
  predicate ReadySent(s: Sys) {
    ReadyEvent in s.stdout || s.client.readyFired
  }

  lemma ReadyByHelper(s: Sys, a: Action)
    requires Enabled(s, a) && ByHelper(a) && s.helperPc != Replying(ReadyEvent)
    ensures ReadySent(Apply(s, a)) ==> ReadySent(s) || a == HelperEvent(true)
    ensures Apply(s, a).helperPc != Replying(ReadyEvent)
  {
  }

  lemma ReadyByClient(s: Sys, a: Action)
    requires Enabled(s, a) && !ByHelper(a)
    ensures ReadySent(Apply(s, a)) ==> ReadySent(s)
    ensures Apply(s, a).helperPc == s.helperPc
  {
    if ByReader(a) { ReaderFrame(s, a); } else { CallFrame(s, a); }
  }

  /** The client takes the helper for ready only after the helper said so. */
  lemma {:induction false} ReadyWasSaid(root: string, run: seq<Action>)
    ensures ReadySent(After(root, run)) ==> HelperEvent(true) in run
    ensures After(root, run).helperPc != Replying(ReadyEvent)
  {
    if run != [] {
      var init, a := run[..|run| - 1], run[|run| - 1];
      ReadyWasSaid(root, init);
      assert run == init + [a];
      if Enabled(After(root, init), a) {
        if ByHelper(a) { ReadyByHelper(After(root, init), a); } else { ReadyByClient(After(root, init), a); }
      }
    }
  }

  /** And once the helper has said so, the client can take it for ready, whatever else is in the pipe. */
  lemma {:induction false} ReadyComesThrough(root: string, run: seq<Action>) returns (next: seq<Action>)
    requires !After(root, run).helperPc.Gone? && After(root, run).issued < WORD
    ensures run + [HelperEvent(true)] <= next && After(root, next).client.readyFired
  {
    Step(root, run, HelperEvent(true));
    var s := After(root, run);
    assert (s.stdout + [ReadyEvent])[|s.stdout|] == ReadyEvent;
    next := ReadsAll(root, run + [HelperEvent(true)]);
  }
}
