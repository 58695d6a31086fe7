/**
 Session directories: a start makes its session's directory, and the cleanup of a runtime removes that
 of its own session, which may be the same.
 */
module VmDirectories {
  import opened KvmBackend
  import opened Options
  import opened VmLifecycle

  /** Sessions are recorded once, and only the last step of a cleanup removes a directory: that of the runtime it cleaned. */
  lemma OnlyCleanupRemoves(s: Sys, a: Action, dir: string)
    requires Inv(s) && Enabled(s, a)
    ensures s.sessions <= Apply(s, a).sessions
    ensures dir in s.dirs && dir !in Apply(s, a).dirs ==>
              a.CleanNext? && s.threads[a.i].step == AtTearDown && s.threads[a.i].state.sessionDir == dir
  {
    if a.CleanNext? { assert s.threads[a.i].Cleaning?; }
  }

  lemma CleanedAfter(s: Sys, i: nat)
    requires Inv(s) && Enabled(s, CleanNext(i)) && s.threads[i].step == AtTearDown
    ensures var q := s.threads[i].state.qemu;
            q.Some? && q.value < |s.place| && s.sessions[q.value] == s.threads[i].state.sessionDir
            && Apply(s, CleanNext(i)).place == s.place[q.value := Cleaned]
  {
    assert GoodThread(s, i);
  }

  /** The runtime is being launched or installed. */
  predicate Live(p: Place) {
    p.Building? || p.Installed?
  }

  /** A runtime of that session has been taken and its cleanup is not done. */
  predicate CleanupPending(s: Sys, session: string) {
    exists q :: 0 <= q < |s.place| && q < |s.sessions| && s.place[q].Held? && s.sessions[q] == session
  }

  /** While the runtime is live, its directory is there and no cleanup of its session is pending. */
  predicate Safe(s: Sys, r: nat) {
    r < |s.place| == |s.sessions| && (Live(s.place[r]) ==> s.sessions[r] in s.dirs && !CleanupPending(s, s.sessions[r]))
  }

  /** While one runtime is launched or installed, no other is installed. */
  lemma OnlyOneLive(s: Sys, r: nat, q: nat)
    requires Inv(s) && r < |s.place| && q < |s.place| && Live(s.place[r]) && s.place[q] == Installed
    ensures q == r
  {
    assert GoodRuntime(s, r) && GoodRuntime(s, q);
    LaunchedIntoNone(s, r);
  }

  lemma LaunchedIntoNone(s: Sys, r: nat)
    requires Inv(s) && r < |s.place|
    ensures s.place[r].Building? ==> !s.b.started
  {
    assert GoodRuntime(s, r);
    if s.place[r].Building? { assert GoodThread(s, s.place[r].i); }
  }

  /** No cleanup of the session becomes pending while one of its runtimes is live. */
  lemma NoNewCleanup(s: Sys, a: Action, r: nat)
    requires Inv(s) && Enabled(s, a) && Safe(s, r) && r < |Apply(s, a).place| && Live(s.place[r]) && Live(Apply(s, a).place[r])
    requires s.sessions <= Apply(s, a).sessions
    ensures !CleanupPending(Apply(s, a), s.sessions[r])
  {
    var t := Apply(s, a);
    forall q | 0 <= q < |t.place| && q < |t.sessions| && t.place[q].Held? ensures t.sessions[q] != s.sessions[r] {
      if q < |s.place| {
        MovesForward(s, a, q);
        if s.place[q] == Installed { OnlyOneLive(s, r, q); }
        assert s.place[q].Held?;
      } else {
        NewIsBuilt(s, a, q);
      }
    }
  }

  lemma NewIsBuilt(s: Sys, a: Action, q: nat)
    requires Inv(s) && Enabled(s, a) && |s.place| <= q < |Apply(s, a).place|
    ensures !Apply(s, a).place[q].Held?
  {
  }

  lemma RemovalWasPending(s: Sys, a: Action, dir: string)
    requires Inv(s) && Enabled(s, a) && dir in s.dirs && dir !in Apply(s, a).dirs
    ensures CleanupPending(s, dir)
  {
    OnlyCleanupRemoves(s, a, dir);
    CleanedAfter(s, a.i);
    assert GoodThread(s, a.i);
    assert s.place[s.threads[a.i].state.qemu.value].Held?;
  }

  lemma SafeStays(s: Sys, a: Action, r: nat)
    requires Inv(s) && Enabled(s, a) && Safe(s, r)
    ensures Safe(Apply(s, a), r)
  {
    var t := Apply(s, a);
    var dir := s.sessions[r];
    KeepAll(s, a);
    MovesForward(s, a, r);
    OnlyCleanupRemoves(s, a, dir);
    if dir in s.dirs && dir !in t.dirs { RemovalWasPending(s, a, dir); }
    if Live(t.place[r]) { NoNewCleanup(s, a, r); }
  }

  lemma FrontAndLast<T>(xs: seq<T>, ys: seq<T>)
    requires ys != []
    ensures (xs + ys)[..|xs + ys| - 1] == xs + ys[..|ys| - 1] && (xs + ys)[|xs + ys| - 1] == ys[|ys| - 1]
  {
  }

  lemma AfterLast(run: seq<Action>, front: seq<Action>, a: Action)
    requires run != [] && run[..|run| - 1] == front && run[|run| - 1] == a
    ensures After(run) == if Enabled(After(front), a) then Apply(After(front), a) else After(front)
  {
  }

  lemma {:induction false} MoreByOne(run: seq<Action>, more: seq<Action>)
    requires more != []
    ensures var s, a := After(run + more[..|more| - 1]), more[|more| - 1];
            After(run + more) == if Enabled(s, a) then Apply(s, a) else s
  {
    FrontAndLast(run, more);
    AfterLast(run + more, run + more[..|more| - 1], more[|more| - 1]);
  }

  lemma {:induction false} SafeForEver(run: seq<Action>, more: seq<Action>, r: nat)
    requires Safe(After(run), r)
    ensures Safe(After(run + more), r)
    decreases |more|
  {
    if more == [] {
      assert run + more == run;
    } else {
      var last := |more| - 1;
      SafeForEver(run, more[..last], r);
      MoreByOne(run, more);
      var s := After(run + more[..last]);
      Reachable(run + more[..last]);
      if Enabled(s, more[last]) { SafeStays(s, more[last], r); }
    }
  }

  function StepsLeft(step: CleanStep): nat {
    match step
    case AtProber => 2
    case AtClose => 1
    case AtTearDown => 0
  }

  /** No prober runs. */
  predicate Quiet(s: Sys) {
    s.b.prober.None? && s.probers == {}
  }

  /** Nothing of the runtime runs any more, and its stop channel is closed. */
  predicate ShutDown(s: Sys, r: nat) {
    r !in s.helpers && r !in s.qemus && r !in s.bridges && r in s.closed
  }

  /** Where a goroutine goes on once its cleanup is done. */
  function AfterCleaning(t: Thread): Thread
    requires t.Cleaning?
  {
    if t.next.Some? then Preparing(t.next.value) else Returned
  }

  /** The first steps of a cleanup remove nothing. */
  lemma FirstSteps(s: Sys, j: nat)
    requires Enabled(s, CleanNext(j)) && s.threads[j].step != AtTearDown
    ensures var t := Apply(s, CleanNext(j));
            && t.sessions == s.sessions && t.dirs == s.dirs && t.place == s.place && t.b == s.b.(prober := t.b.prober)
            && t.helpers == s.helpers && t.qemus == s.qemus && t.bridges == s.bridges
            && t.threads == s.threads[j := t.threads[j]]
            && t.threads[j].Cleaning? && t.threads[j].state == s.threads[j].state && t.threads[j].next == s.threads[j].next
            && StepsLeft(t.threads[j].step) < StepsLeft(s.threads[j].step)
  {
  }

  /** What a cleanup comes to: its runtime is shut down, its directory gone, and the goroutine goes on. */
  predicate CleanedUp(s: Sys, t: Sys, j: nat)
    requires j < |s.threads| && s.threads[j].Cleaning?
  {
    var c := s.threads[j].state;
    && t.sessions == s.sessions && t.dirs == s.dirs - {c.sessionDir} && t.b == s.b.(prober := t.b.prober)
    && t.threads == s.threads[j := AfterCleaning(s.threads[j])]
    && c.qemu.Some? && c.qemu.value < |s.place| && t.place == s.place[c.qemu.value := Cleaned]
    && t.helpers == s.helpers - {c.qemu.value} && t.qemus == s.qemus - {c.qemu.value}
    && t.bridges == s.bridges - {c.qemu.value} && c.qemu.value in t.closed
    && (s.threads[j].step == AtProber || Quiet(s) ==> Quiet(t))
  }

  lemma LastStep(s: Sys, j: nat)
    requires Inv(s) && Enabled(s, CleanNext(j)) && s.threads[j].step == AtTearDown
    ensures CleanedUp(s, Apply(s, CleanNext(j)), j)
  {
    assert GoodThread(s, j);
    assert GoodRuntime(s, s.threads[j].state.qemu.value);
  }

  /** The rest of a cleanup, step by step. */
  lemma {:induction false} CleanOut(run: seq<Action>, j: nat) returns (next: seq<Action>)
    requires Enabled(After(run), CleanNext(j))
    ensures run <= next && CleanedUp(After(run), After(next), j)
    decreases StepsLeft(After(run).threads[j].step)
  {
    Reachable(run);
    Step(run, CleanNext(j));
    next := run + [CleanNext(j)];
    if After(run).threads[j].step == AtTearDown {
      LastStep(After(run), j);
    } else {
      FirstSteps(After(run), j);
      FirstQuiets(After(run), j);
      next := CleanOut(next, j);
    }
  }

  /** The first step stops the prober, if there is one. */
  lemma FirstQuiets(s: Sys, j: nat)
    requires Inv(s) && Enabled(s, CleanNext(j)) && s.threads[j].step != AtTearDown
    ensures var t := Apply(s, CleanNext(j));
            (s.threads[j].step == AtProber || Quiet(s) ==> Quiet(t))
  {
  }

  /** The new runtime's directory is there whenever it is live, whatever happens next. */
  ghost predicate DirectoryKept(run: seq<Action>, r: nat, session: string) {
    forall more :: var t := After(run + more); r < |t.place| && Live(t.place[r]) ==> session in t.dirs
  }

  /** The goroutine at the cleanup of that session is still at it after the start made the directory. */
  lemma PendingThread(s: Sys, i: nat) returns (j: nat)
    requires Inv(s) && Enabled(s, MakeDir(i)) && CleanupPending(s, s.threads[i].session)
    ensures var t := Apply(s, MakeDir(i));
            && Enabled(t, CleanNext(j)) && t.threads[j].state.sessionDir == s.threads[i].session
            && t.threads[j].state.qemu.Some? && t.threads[j].state.qemu.value < |s.place|
  {
    var q :| 0 <= q < |s.place| && q < |s.sessions| && s.place[q].Held? && s.sessions[q] == s.threads[i].session;
    j := s.place[q].i;
    assert GoodRuntime(s, q) && GoodThread(s, j);
  }

  lemma PendingCleanupRemoves(run: seq<Action>, i: nat)
    requires Enabled(After(run), MakeDir(i)) && CleanupPending(After(run), After(run).threads[i].session)
    ensures !DirectoryKept(run + [MakeDir(i)], |After(run).sessions|, After(run).threads[i].session)
  {
    var s := After(run);
    Reachable(run);
    Step(run, MakeDir(i));
    assert Apply(s, MakeDir(i)).place == s.place + [Building(i)];
    var j := PendingThread(s, i);
    RemovedLater(run + [MakeDir(i)], j, |s.sessions|, s.threads[i].session);
  }

  lemma RemovedLater(made: seq<Action>, j: nat, r: nat, session: string)
    requires var t := After(made);
             && Enabled(t, CleanNext(j)) && t.threads[j].state.sessionDir == session && t.threads[j].state.qemu != Some(r)
             && r < |t.place| && Live(t.place[r])
    ensures !DirectoryKept(made, r, session)
  {
    var next := CleanOut(made, j);
    NotKept(made, next, r, session);
  }

  lemma NotKept(made: seq<Action>, next: seq<Action>, r: nat, session: string)
    requires made <= next && r < |After(next).place| && Live(After(next).place[r]) && session !in After(next).dirs
    ensures !DirectoryKept(made, r, session)
  {
    assert made + next[|made|..] == next;
  }

  /**
   A start that makes its session's directory keeps it for as long as its runtime is being launched or
   installed, whatever else happens, exactly when no cleanup of that session is pending at that moment.
   */
  lemma {:induction false} DirectoryKeptIff(run: seq<Action>, i: nat)
    requires Enabled(After(run), MakeDir(i))
    ensures var s := After(run);
            DirectoryKept(run + [MakeDir(i)], |s.sessions|, s.threads[i].session)
            <==> !CleanupPending(s, s.threads[i].session)
  {
    var s := After(run);
    var r, session := |s.sessions|, s.threads[i].session;
    if CleanupPending(s, session) {
      PendingCleanupRemoves(run, i);
    } else {
      Reachable(run);
      Step(run, MakeDir(i));
      var made := run + [MakeDir(i)];
      MadeIsSafe(s, i);
      forall more ensures var t := After(made + more); r < |t.place| && Live(t.place[r]) ==> session in t.dirs {
        SafeForEver(made, more, r);
        SessionsGrow(made, more);
      }
    }
  }

  lemma MadeIsSafe(s: Sys, i: nat)
    requires Inv(s) && Enabled(s, MakeDir(i)) && !CleanupPending(s, s.threads[i].session)
    ensures Safe(Apply(s, MakeDir(i)), |s.sessions|)
  {
    var t := Apply(s, MakeDir(i));
    forall q | 0 <= q < |t.place| && t.place[q].Held? ensures t.sessions[q] != s.threads[i].session {
      assert q < |s.place|;
    }
  }

  lemma {:induction false} SessionsGrow(run: seq<Action>, more: seq<Action>)
    ensures After(run).sessions <= After(run + more).sessions
    decreases |more|
  {
    if more == [] {
      assert run + more == run;
    } else {
      var last := |more| - 1;
      SessionsGrow(run, more[..last]);
      MoreByOne(run, more);
      var s := After(run + more[..last]);
      Reachable(run + more[..last]);
      if Enabled(s, more[last]) { OnlyCleanupRemoves(s, more[last], ""); }
    }
  }

  /**
   With one pending the removal can hit an installed runtime: a stop takes the runtime, a start of
   the same session launches and commits, and only then does the stop's cleanup delete the directory.
   */
  lemma CleanupCanRemoveLiveDirectory(session: string) returns (run: seq<Action>)
    requires session != ""
    ensures var s := After(run);
            s.b.qemu == Some(1) && s.place == [Cleaned, Installed] && s.b.sessionDir == session && session !in s.dirs
  {
    run := FirstLaunch(session);
    run := Settled(run);
    run := Restarted(run, session);
    run := CleanOut(run, 2);
  }

  lemma Settled(run: seq<Action>) returns (next: seq<Action>)
    requires var s := After(run);
             s.threads == [Committed(0)] && s.b.started && s.b.watchdogStop == Some(0)
    ensures var s, t := After(run), After(next);
            && |t.threads| == 2 && t.sessions == s.sessions && t.place == s.place && t.dirs == s.dirs
            && t.b == s.b.(starting := false)
  {
    Step(run, SeeGuest(0)); next := run + [SeeGuest(0)];
    Step(next, StartWatchdog(0)); next := next + [StartWatchdog(0)];
    Step(next, Probe(0, false)); next := next + [Probe(0, false)];
    Step(next, End(0)); next := next + [End(0)];
  }

  /** A stop takes the first runtime, and a start of the same session overtakes its cleanup. */
  lemma Restarted(run: seq<Action>, session: string) returns (next: seq<Action>)
    requires session != ""
    requires var s := After(run);
             && |s.threads| == 2 && s.sessions == [session] && s.place == [Installed] && s.dirs == {session}
             && s.b.started && !s.b.starting && Contents(s.b) == Taken(Some(0), Some(0), Some(0), session, Some(0))
    ensures var t := After(next);
            && |t.threads| == 4 && t.threads[2] == Cleaning(Taken(Some(0), Some(0), Some(0), session, Some(0)), AtProber, None)
            && t.sessions == [session, session] && t.place == [Held(2), Installed] && t.dirs == {session}
            && t.b.qemu == Some(1) && t.b.sessionDir == session
  {
    next := StoppedAndCalled(run, session);
    next := Launch(next, 3);
  }

  lemma StoppedAndCalled(run: seq<Action>, session: string) returns (next: seq<Action>)
    requires session != ""
    requires var s := After(run);
             && |s.threads| == 2 && s.sessions == [session] && s.place == [Installed] && s.dirs == {session}
             && s.b.started && !s.b.starting && Contents(s.b) == Taken(Some(0), Some(0), Some(0), session, Some(0))
    ensures var t := After(next);
            && |t.threads| == 4 && t.threads[2] == Cleaning(Taken(Some(0), Some(0), Some(0), session, Some(0)), AtProber, None)
            && t.threads[3] == Preparing(session)
            && t.sessions == [session] && t.place == [Held(2)] && t.dirs == {session}
  {
    Step(run, CallStop); next := run + [CallStop];
    Step(next, CallStart(session)); next := next + [CallStart(session)];
  }
}
