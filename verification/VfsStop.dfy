/**
 Stopping the mount helper: when its cache stays empty after a stop, and what becomes of a bind that
 reaches it late. Also, how often one mount point is mounted.
 */
module VfsStop {
  import opened Channels
  import opened LexicalPath
  import opened VfsClient
  import opened VfsProtocol
  import Helper = MountHelper

  lemma Step(root: string, run: seq<Action>, a: Action)
    requires Enabled(After(root, run), a)
    ensures After(root, run + [a]) == Apply(After(root, run), a)
  {
    assert (run + [a])[..|run|] == run;
  }

  /** Nothing has reached the helper yet. */
  predicate Untouched(s: Sys, root: string) {
    s.root == root && s.stdin == [] && !s.stdinClosed && s.helperPc == Serving && s.helper == Helper.EMPTY
  }

  lemma BindCalled(root: string, req: Helper.BindRequest) returns (run: seq<Action>)
    requires req.mode == "rw"
    ensures var s := After(root, run);
            && Untouched(s, root) && s.calls == [Call(Resolved, BindOp(req), 0, false)] && s.client.nextReqID == 0
  {
    run := [CallBind(req.relPath, "rw", req.hostPath)];
    assert run[..0] == [];
    Step(root, run, CheckCache(0)); run := run + [CheckCache(0)];
    Step(root, run, Resolve(0, true)); run := run + [Resolve(0, true)];
  }

  lemma BothRegistered(root: string, run: seq<Action>) returns (next: seq<Action>)
    requires var s := After(root, run);
             Untouched(s, root) && |s.calls| == 1 && At(s, 0, Resolved) && s.client.nextReqID == 0
    ensures var s, t := After(root, run), After(root, next);
            && Untouched(t, root) && |t.calls| == 2 && t.calls[0] == s.calls[0].(pc := Registered, id := 1)
            && t.calls[1] == Call(Registered, StopOp, 2, false)
  {
    Step(root, run, Register(0)); next := run + [Register(0)];
    Step(root, next, CallStop); next := next + [CallStop];
    Step(root, next, Register(1)); next := next + [Register(1)];
  }

  /** A bind registered but not yet written, and a stop request on its way to an idle helper. */
  lemma Overtaken(root: string, req: Helper.BindRequest) returns (run: seq<Action>)
    requires req.mode == "rw"
    ensures var s := After(root, run);
            && s.root == root && s.stdin == [Request(2, StopOp)] && !s.stdinClosed
            && s.helperPc == Serving && s.helper == Helper.EMPTY
            && At(s, 0, Registered) && s.calls[0].op == BindOp(req)
  {
    run := BindCalled(root, req);
    run := BothRegistered(root, run);
    Step(root, run, Write(1)); run := run + [Write(1)];
  }

  /** The helper answers the stop request and stops. */
  lemma StopServed(root: string, run: seq<Action>, host: Helper.Host) returns (next: seq<Action>)
    requires var s := After(root, run);
             s.helperPc == Serving && |s.stdin| == 1 && s.stdin[0].Request? && s.stdin[0].op.StopOp?
    ensures var s, t := After(root, run), After(root, next);
            t == s.(stdin := [], stdout := s.stdout + [Response(s.stdin[0].id, true, "")], helper := Helper.StopStep(s.helper))
  {
    Step(root, run, HelperTake(host)); next := run + [HelperTake(host)];
    Step(root, next, HelperEmit); next := next + [HelperEmit];
    Step(root, next, HelperStop); next := next + [HelperStop];
  }

  /** A write the helper serves once it is stopping. */
  lemma WriteServed(root: string, run: seq<Action>, host: Helper.Host, result: Helper.BindResult) returns (next: seq<Action>)
    requires var s := After(root, run);
             && s.helperPc == Serving && s.stdin == [] && !s.stdinClosed && s.helper.stopping
             && At(s, 0, Registered) && s.calls[0].op.BindOp?
             && result == Helper.Decide(s.helper, s.root, s.calls[0].op.req, host)
    ensures var s, t := After(root, run), After(root, next);
            t.helperPc.Replying? && t.helper == Helper.BindStep(s.helper, s.calls[0].op.req.relPath, result)
  {
    Step(root, run, Write(0)); next := run + [Write(0)];
    Step(root, next, HelperTake(host)); next := next + [HelperTake(host)];
  }

  /** The helper gives the answer it has and quits; it was already stopping. */
  lemma QuitAfterReply(root: string, run: seq<Action>) returns (next: seq<Action>)
    requires After(root, run).helperPc.Replying? && After(root, run).helper.stopping
    ensures After(root, next).helperPc == Finished && After(root, next).helper == After(root, run).helper
  {
    Step(root, run, HelperEmit); next := run + [HelperEmit];
    Step(root, next, HelperQuit); next := next + [HelperQuit];
    Step(root, next, HelperStop); next := next + [HelperStop];
  }

  /**
   Such a late bind can happen: a stop request overtakes a bind that has been registered but not
   yet written, the helper unbinds everything, serves the bind, and then quits with it mounted.
   */
  lemma LateBindIsLeftMounted(root: string, relPath: string, hostPath: string, host: Helper.Host)
    returns (run: seq<Action>)
    requires Helper.Decide(Helper.EMPTY, root, Helper.BindRequest(hostPath, relPath, "rw"), host) == Helper.Bound
    ensures var s := After(root, run);
            s.helperPc.Finished? && s.helper.active == {relPath} && s.helper.unbound == multiset{}
  {
    run := Overtaken(root, Helper.BindRequest(hostPath, relPath, "rw"));
    run := StopServed(root, run, host);
    run := WriteServed(root, run, host, Helper.Bound);
    run := QuitAfterReply(root, run);
  }

  // ---- A bind served late ----

  /** The helper reads no more lines. */
  predicate Down(pc: HelperPc) {
    pc.Quitting? || pc.Finished? || pc.Gone?
  }

  lemma RequestGrows(s: Sys, r: Request, host: Helper.Host)
    ensures var t := ApplyRequest(s, r, host);
            t.helper.stopping == s.helper.stopping && s.helper.active <= t.helper.active
  {
  }

  lemma RequestMounts(s: Sys, r: Request, host: Helper.Host)
    ensures var t := ApplyRequest(s, r, host);
            && t.calls == s.calls
            && forall p :: p in t.helper.mounts ==>
                 p in s.helper.mounts || (r.Request? && r.op.BindOp? && p == r.op.req.relPath)
  {
    if r.Request? && r.op.BindOp? {
      BindMounts(s.helper, r.op.req.relPath, Helper.Decide(s.helper, s.root, r.op.req, host));
    }
  }

  lemma BindMounts(h: Helper.State, relPath: string, result: Helper.BindResult)
    ensures forall p :: p in Helper.BindStep(h, relPath, result).mounts ==> p in h.mounts || p == relPath
  {
  }

  /** Nothing but the reading of a line touches the cache of a helper that is stopping. */
  lemma HelperStep(s: Sys, a: Action)
    requires Enabled(s, a) && ByHelper(a) && !a.HelperTake? && s.helper.stopping
    ensures var t := Apply(s, a);
            t.helper == s.helper && t.stdin == s.stdin && (Down(s.helperPc) ==> Down(t.helperPc))
  {
  }

  lemma StoppingStays(s: Sys, a: Action)
    requires Enabled(s, a) && s.helper.stopping
    ensures Apply(s, a).helper.stopping && s.helper.active <= Apply(s, a).helper.active
  {
    if a.HelperTake? {
      RequestGrows(s.(stdin := s.stdin[1..]), s.stdin[0], a.host);
    } else if ByHelper(a) {
      HelperStep(s, a);
    } else if ByReader(a) {
      ReaderFrame(s, a);
    } else {
      CallFrame(s, a);
    }
  }

  lemma {:induction false} StoppedStays(root: string, run: seq<Action>, more: seq<Action>)
    requires After(root, run).helper.stopping
    ensures After(root, run + more).helper.stopping
    ensures After(root, run).helper.active <= After(root, run + more).helper.active
    decreases |more|
  {
    if more == [] {
      assert run + more == run;
    } else {
      var last := |more| - 1;
      StoppedStays(root, run, more[..last]);
      MoreByOne(root, run, more);
      var s := After(root, run + more[..last]);
      if Enabled(s, more[last]) { StoppingStays(s, more[last]); }
    }
  }

  lemma FrontAndLast<T>(xs: seq<T>, ys: seq<T>)
    requires ys != []
    ensures (xs + ys)[..|xs + ys| - 1] == xs + ys[..|ys| - 1] && (xs + ys)[|xs + ys| - 1] == ys[|ys| - 1]
  {
  }

  lemma AfterLast(root: string, run: seq<Action>, front: seq<Action>, a: Action)
    requires run != [] && run[..|run| - 1] == front && run[|run| - 1] == a
    ensures After(root, run) == if Enabled(After(root, front), a) then Apply(After(root, front), a) else After(root, front)
  {
  }

  lemma MoreByOne(root: string, run: seq<Action>, more: seq<Action>)
    requires more != []
    ensures var s, a := After(root, run + more[..|more| - 1]), more[|more| - 1];
            After(root, run + more) == if Enabled(s, a) then Apply(s, a) else s
  {
    FrontAndLast(run, more);
    AfterLast(root, run + more, run + more[..|more| - 1], more[|more| - 1]);
  }

  /** A bind that the helper carries out after its stop is mounted for good: nothing unbinds it later. */
  lemma {:induction false} LateBindIsNeverUnbound(root: string, run: seq<Action>, host: Helper.Host, more: seq<Action>)
    requires var s := After(root, run);
             && s.helper.stopping && Enabled(s, HelperTake(host)) && s.stdin[0].Request? && s.stdin[0].op.BindOp?
             && Helper.Decide(s.helper, s.root, s.stdin[0].op.req, host) == Helper.Bound
    ensures After(root, run).stdin[0].op.req.relPath in After(root, run + [HelperTake(host)] + more).helper.active
  {
    Step(root, run, HelperTake(host));
    StoppedStays(root, run + [HelperTake(host)], more);
  }

  // ---- When no bind can be served late ----

  /** A line of the helper's input that it could still carry out as a bind. */
  predicate BindLine(root: string, r: Request) {
    r.Request? && r.op.BindOp? && Helper.Mountable(root, r.op.req)
  }

  /** The helper reads no more, or its input is closed and holds no bind that it could carry out. */
  predicate Sealed(s: Sys) {
    Down(s.helperPc) || (s.stdinClosed && forall r :: r in s.stdin ==> !BindLine(s.root, r))
  }

  predicate Quiet(s: Sys) {
    s.helper.stopping && s.helper.active == {} && Sealed(s)
  }

  lemma NotCarriedOut(s: Sys, r: Request, host: Helper.Host)
    requires s.helper.active == {} && !BindLine(s.root, r)
    ensures ApplyRequest(s, r, host).helper.active == {}
  {
    if r.Request? && r.op.BindOp? { Helper.BoundSomewhereIff(s.helper, s.root, r.op.req); }
  }

  lemma QuietTake(s: Sys, host: Helper.Host)
    requires Enabled(s, HelperTake(host)) && Quiet(s)
    ensures Quiet(Apply(s, HelperTake(host)))
  {
    StoppingStays(s, HelperTake(host));
    NotCarriedOut(s.(stdin := s.stdin[1..]), s.stdin[0], host);
  }

  lemma QuietStays(s: Sys, a: Action)
    requires Enabled(s, a) && Quiet(s)
    ensures Quiet(Apply(s, a))
  {
    if a.HelperTake? {
      QuietTake(s, a.host);
    } else if ByHelper(a) {
      HelperFrame(s, a);
      HelperStep(s, a);
    } else if ByReader(a) {
      ReaderFrame(s, a);
    } else {
      CallFrame(s, a);
    }
  }

  lemma {:induction false} QuietForEver(root: string, run: seq<Action>, more: seq<Action>)
    requires Quiet(After(root, run))
    ensures Quiet(After(root, run + more))
    decreases |more|
  {
    if more == [] {
      assert run + more == run;
    } else {
      var last := |more| - 1;
      QuietForEver(root, run, more[..last]);
      MoreByOne(root, run, more);
      var s := After(root, run + more[..last]);
      if Enabled(s, more[last]) { QuietStays(s, more[last]); }
    }
  }

  // ---- When one can ----

  /** A helper that is stopping, with an empty cache and still reading. */
  predicate Reading(s: Sys) {
    s.helper.stopping && s.helper.active == {} && !Down(s.helperPc)
  }

  /** It gets back to its input, whatever it is doing, without touching it. */
  lemma Settle(root: string, run: seq<Action>) returns (next: seq<Action>)
    requires Reading(After(root, run))
    ensures run <= next && Reading(After(root, next)) && After(root, next).helperPc == Serving
    ensures After(root, next).stdin == After(root, run).stdin && After(root, next).root == After(root, run).root
  {
    var pc := After(root, run).helperPc;
    next := run;
    if pc.Replying? || pc.ReplyingStop? {
      Step(root, next, HelperEmit); next := next + [HelperEmit];
    }
    if pc.ReplyingStop? || pc.Stopping? {
      Step(root, next, HelperStop); next := next + [HelperStop];
    }
  }

  lemma TakeOther(root: string, run: seq<Action>)
    requires var s := After(root, run); Reading(s) && s.helperPc == Serving && s.stdin != [] && !BindLine(s.root, s.stdin[0])
    ensures var s, t := After(root, run), After(root, run + [HelperTake(Helper.WILLING)]);
            Reading(t) && t.stdin == s.stdin[1..] && t.root == s.root
  {
    var s := After(root, run);
    Step(root, run, HelperTake(Helper.WILLING));
    NotCarriedOut(s.(stdin := s.stdin[1..]), s.stdin[0], Helper.WILLING);
  }

  lemma {:induction false} TakeBind(root: string, run: seq<Action>)
    requires var s := After(root, run); Reading(s) && s.helperPc == Serving && s.stdin != [] && BindLine(s.root, s.stdin[0])
    ensures After(root, run + [HelperTake(Helper.WILLING)]).helper.active != {}
  {
    var s := After(root, run);
    Step(root, run, HelperTake(Helper.WILLING));
    assert s.stdin[0].op.req.relPath in Apply(s, HelperTake(Helper.WILLING)).helper.active;
  }

  /** The helper reads on until the bind. */
  lemma {:induction false} ReadOn(root: string, run: seq<Action>, k: nat) returns (next: seq<Action>)
    requires var s := After(root, run); Reading(s) && k < |s.stdin| && BindLine(s.root, s.stdin[k])
    ensures run <= next && After(root, next).helper.active != {}
    decreases k
  {
    next := Settle(root, run);
    var s := After(root, next);
    var taken := next + [HelperTake(Helper.WILLING)];
    if BindLine(s.root, s.stdin[0]) {
      TakeBind(root, next);
      next := taken;
    } else {
      TakeOther(root, next);
      next := ReadOn(root, taken, k - 1);
      Longer(run, taken, next);
    }
  }

  lemma Longer(run: seq<Action>, next: seq<Action>, last: seq<Action>)
    requires run <= next && next <= last
    ensures run <= last
  {
  }

  // ---- A new call can always be made ----

  function Letters(n: nat): string {
    seq(n, i => 'a')
  }

  lemma LongerThanAll(names: set<string>) returns (n: nat)
    ensures forall p :: p in names ==> |p| < n
  {
    if names == {} {
      n := 0;
    } else {
      var p :| p in names;
      n := LongerThanAll(names - {p});
      n := if |p| < n then n else |p| + 1;
      assert forall q :: q in names ==> q == p || q in names - {p};
    }
  }

  lemma LettersClean(n: nat)
    requires n > 0
    ensures Helper.CleanRelative(Letters(n))
  {
    SplitPlain(Letters(n));
  }

  /** A bind of a new path, called, resolved and registered. */
  lemma NewCall(root: string, run: seq<Action>, relPath: string) returns (next: seq<Action>)
    requires relPath !in After(root, run).client.activeBinds
    ensures run <= next
    ensures var s, t := After(root, run), After(root, next); var i := |s.calls|;
            && t.stdin == s.stdin && t.stdinClosed == s.stdinClosed && t.helper == s.helper && t.helperPc == s.helperPc
            && t.root == s.root && At(t, i, Registered) && t.calls[i].op == BindOp(Helper.BindRequest("/", relPath, "rw"))
  {
    var i := |After(root, run).calls|;
    Step(root, run, CallBind(relPath, "rw", "/")); next := run + [CallBind(relPath, "rw", "/")];
    Step(root, next, CheckCache(i)); next := next + [CheckCache(i)];
    Step(root, next, Resolve(i, true)); next := next + [Resolve(i, true)];
    Step(root, next, Register(i)); next := next + [Register(i)];
  }

  lemma Written(root: string, run: seq<Action>, i: nat)
    requires Reading(After(root, run)) && Enabled(After(root, run), Write(i))
    ensures var s, t := After(root, run), After(root, run + [Write(i)]);
            Reading(t) && t.stdin == s.stdin + [Request(s.calls[i].id, s.calls[i].op)] && t.root == s.root
  {
    Step(root, run, Write(i));
  }

  lemma NewPath(root: string, taken: set<string>) returns (relPath: string)
    requires Helper.ProperRoot(root)
    ensures relPath !in taken && Helper.Mountable(root, Helper.BindRequest("/", relPath, "rw"))
  {
    var n := LongerThanAll(taken);
    relPath := Letters(n + 1);
    LettersClean(n + 1);
    Helper.CleanTarget(root, relPath);
  }

  lemma NewLine(root: string, run: seq<Action>) returns (next: seq<Action>)
    requires Helper.ProperRoot(After(root, run).root) && Reading(After(root, run)) && !After(root, run).stdinClosed
    ensures run <= next
    ensures var s, t := After(root, run), After(root, next);
            Reading(t) && |t.stdin| == |s.stdin| + 1 && BindLine(t.root, t.stdin[|s.stdin|])
  {
    var s := After(root, run);
    var relPath := NewPath(s.root, s.client.activeBinds);
    var called := NewCall(root, run, relPath);
    Written(root, called, |s.calls|);
    next := called + [Write(|s.calls|)];
  }

  lemma RootKept(s: Sys, a: Action)
    requires Enabled(s, a)
    ensures Apply(s, a).root == s.root
  {
    if ByHelper(a) { HelperFrame(s, a); } else if ByReader(a) { ReaderFrame(s, a); } else { CallFrame(s, a); }
  }

  lemma {:induction false} RootStays(root: string, run: seq<Action>)
    ensures After(root, run).root == root
  {
    if run != [] {
      var init, a := run[..|run| - 1], run[|run| - 1];
      RootStays(root, init);
      if Enabled(After(root, init), a) { RootKept(After(root, init), a); }
    }
  }

  /**
   Once the helper has stopped with nothing cached, its cache stays empty in every later state exactly
   when it has ceased to read its input, or the input is closed and no bind that it could carry out is
   left in it.
   */
  lemma {:induction false} StopStaysEmptyIff(root: string, run: seq<Action>)
    requires Helper.ProperRoot(root) && After(root, run).helper.stopping && After(root, run).helper.active == {}
    ensures (forall more :: After(root, run + more).helper.active == {}) <==> Sealed(After(root, run))
  {
    if Sealed(After(root, run)) {
      forall more ensures After(root, run + more).helper.active == {} {
        QuietForEver(root, run, more);
      }
    } else {
      var next := Unsealed(root, run);
      assert run + next[|run|..] == next;
    }
  }

  lemma Unsealed(root: string, run: seq<Action>) returns (next: seq<Action>)
    requires Helper.ProperRoot(root) && Reading(After(root, run)) && !Sealed(After(root, run))
    ensures run <= next && After(root, next).helper.active != {}
  {
    RootStays(root, run);
    var s := After(root, run);
    if r :| r in s.stdin && BindLine(s.root, r) {
      var k :| 0 <= k < |s.stdin| && s.stdin[k] == r;
      next := ReadOn(root, run, k);
    } else {
      var written := NewLine(root, run);
      next := ReadOn(root, written, |s.stdin|);
    }
  }

  // ---- How often a mount point is mounted ----

  /** Every bind is asked for by a clean relative path. */
  predicate AsksClean(run: seq<Action>) {
    forall a :: a in run && a.CallBind? ==> Helper.CleanRelative(a.relPath)
  }

  /** Only paths that a call asked for are mounted, and all of them are clean. */
  predicate MountsClean(s: Sys) {
    && (forall c :: c in s.calls && c.op.BindOp? ==> Helper.CleanRelative(c.op.req.relPath))
    && (forall p :: p in s.helper.mounts ==> Helper.CleanRelative(p))
  }

  lemma MountedWasAsked(s: Sys, host: Helper.Host)
    requires Inv(s) && MountsClean(s) && Enabled(s, HelperTake(host))
    ensures MountsClean(Apply(s, HelperTake(host)))
  {
    var r := s.stdin[0];
    assert GoodRequest(s, r);
    RequestMounts(s.(stdin := s.stdin[1..]), r, host);
    if r.Request? && r.op.BindOp? { assert s.calls[s.owner[r.id]] in s.calls; }
  }

  /** Every call goes on asking for what it asked for. */
  lemma OpKept(s: Sys, a: Action, i: nat)
    requires Enabled(s, a) && !ByHelper(a) && !ByReader(a) && !a.CallBind? && !a.CallStop? && i < |s.calls|
    ensures var t := Apply(s, a); |t.calls| == |s.calls| && t.calls[i].op == s.calls[i].op
  {
    match a
    case Register(j) => RegisterKeepsOp(s, j, i);
    case FailWrite(j, reached) => FailKeepsOp(s, j, reached, i);
    case Receive(j) => ReceiveKeepsOp(s, j, i);
    case _ =>
  }

  lemma RegisterKeepsOp(s: Sys, j: nat, i: nat)
    requires j < |s.calls| && i < |s.calls|
    ensures var t := ApplyRegister(s, j); |t.calls| == |s.calls| && t.calls[i].op == s.calls[i].op
  {
  }

  lemma FailKeepsOp(s: Sys, j: nat, reached: Reached, i: nat)
    requires j < |s.calls| && i < |s.calls|
    ensures var t := ApplyFailWrite(s, j, reached); |t.calls| == |s.calls| && t.calls[i].op == s.calls[i].op
  {
  }

  lemma ReceiveKeepsOp(s: Sys, j: nat, i: nat)
    requires j < |s.calls| && i < |s.calls| && j in s.client.chans
    ensures var t := ApplyReceive(s, j); |t.calls| == |s.calls| && t.calls[i].op == s.calls[i].op
  {
  }

  lemma HelperMountsNothing(s: Sys, a: Action)
    requires Enabled(s, a) && ByHelper(a) && !a.HelperTake?
    ensures Apply(s, a).helper.mounts == s.helper.mounts && Apply(s, a).calls == s.calls
  {
  }

  lemma SameOps(s: Sys, t: Sys)
    requires MountsClean(s) && t.helper.mounts == s.helper.mounts && |t.calls| == |s.calls|
    requires forall i :: 0 <= i < |s.calls| ==> t.calls[i].op == s.calls[i].op
    ensures MountsClean(t)
  {
    forall c | c in t.calls && c.op.BindOp? ensures Helper.CleanRelative(c.op.req.relPath) {
      var i :| 0 <= i < |t.calls| && t.calls[i] == c;
      assert s.calls[i] in s.calls;
    }
  }

  lemma OpsKept(s: Sys, a: Action)
    requires Enabled(s, a) && !ByHelper(a) && !ByReader(a) && !a.CallBind? && !a.CallStop? && MountsClean(s)
    ensures MountsClean(Apply(s, a))
  {
    var t := Apply(s, a);
    CallFrame(s, a);
    forall i | 0 <= i < |s.calls| ensures |t.calls| == |s.calls| && t.calls[i].op == s.calls[i].op {
      OpKept(s, a, i);
    }
    if |s.calls| > 0 {
      OpKept(s, a, 0);
      SameOps(s, t);
    }
  }

  lemma StaysClean(s: Sys, a: Action)
    requires Inv(s) && MountsClean(s) && Enabled(s, a) && (a.CallBind? ==> Helper.CleanRelative(a.relPath))
    ensures MountsClean(Apply(s, a))
  {
    if a.HelperTake? {
      MountedWasAsked(s, a.host);
    } else if ByHelper(a) {
      HelperMountsNothing(s, a);
    } else if ByReader(a) {
      ReaderFrame(s, a);
    } else {
      CallFrame(s, a);
      if !a.CallBind? && !a.CallStop? {
        OpsKept(s, a);
      }
    }
  }

  lemma {:induction false} AllMountsClean(root: string, run: seq<Action>)
    requires After(root, run).issued < WORD && AsksClean(run)
    ensures MountsClean(After(root, run))
  {
    if run != [] {
      var last := |run| - 1;
      IssuedGrows(root, run, last);
      assert run[last] in run && forall a :: a in run[..last] ==> a in run;
      AllMountsClean(root, run[..last]);
      Reachable(root, run[..last]);
      if Enabled(After(root, run[..last]), run[last]) { StaysClean(After(root, run[..last]), run[last]); }
    }
  }

  /**
   In a run that binds clean relative paths only, each mount point is mounted under one spelling, and
   before a stop, unless a read-only remount failed, just once.
   */
  lemma {:induction false} EachMountPointOnce(root: string, run: seq<Action>, p: string, q: string)
    requires Helper.ProperRoot(root) && After(root, run).issued < WORD && AsksClean(run)
    requires p in After(root, run).helper.mounts && q in After(root, run).helper.mounts
    requires Helper.ValidateRelPath(root, p) == Helper.ValidateRelPath(root, q)
    ensures p == q
    ensures var h := After(root, run).helper; !h.stopping && h.remountFailures[p] == 0 ==> h.mounts[p] == 1
  {
    AllMountsClean(root, run);
    Helper.CleanTargetsDiffer(root, p, q);
    Reachable(root, run);
  }
}
