/**
 Which session a start launches: over every run the one it was called with, also when it first has to
 clean up after a QEMU that died.
 */
module VmStarts {
  import opened KvmBackend
  import opened Options
  import opened VmDirectories
  import opened VmLifecycle

  // ---- Every runtime is of the session asked for ----

  /** The goroutine `i` is that of a start called with the session. */
  ghost predicate CalledWith(run: seq<Action>, i: nat, session: string) {
    exists k :: 0 <= k < |run| && run[k] == CallStart(session) && |After(run[..k]).threads| == i
  }

  /** The goroutine of a start called with the session built the runtime `r`. */
  ghost predicate BuiltFor(run: seq<Action>, r: nat, session: string) {
    exists m, i :: Builds(run, m, i, r) && CalledWith(run, i, session)
  }

  predicate Builds(run: seq<Action>, m: nat, i: nat, r: nat) {
    m < |run| && run[m] == MakeDir(i) && Enabled(After(run[..m]), run[m]) && |After(run[..m]).sessions| == r
  }

  /** The session that a goroutine before its launch is going to launch. */
  function Asked(t: Thread): Option<string> {
    if t.Preparing? then Some(t.session) else if t.Cleaning? then t.next else None
  }

  ghost predicate ThreadAsked(run: seq<Action>, i: nat, t: Thread) {
    Asked(t).Some? ==> CalledWith(run, i, Asked(t).value)
  }

  ghost predicate AsAsked(run: seq<Action>, s: Sys) {
    && (forall i :: 0 <= i < |s.threads| ==> ThreadAsked(run, i, s.threads[i]))
    && (forall r :: 0 <= r < |s.sessions| ==> BuiltFor(run, r, s.sessions[r]))
  }

  lemma CalledWithStays(run: seq<Action>, a: Action, i: nat, session: string)
    requires CalledWith(run, i, session)
    ensures CalledWith(run + [a], i, session)
  {
    var k :| 0 <= k < |run| && run[k] == CallStart(session) && |After(run[..k]).threads| == i;
    assert (run + [a])[..k] == run[..k] && (run + [a])[k] == run[k];
  }

  lemma BuildsStays(run: seq<Action>, a: Action, m: nat, i: nat, r: nat)
    requires Builds(run, m, i, r)
    ensures Builds(run + [a], m, i, r)
  {
    FrontStays(run, a, m);
  }

  lemma FrontStays(run: seq<Action>, a: Action, m: nat)
    requires m < |run|
    ensures (run + [a])[..m] == run[..m] && (run + [a])[m] == run[m]
  {
  }

  lemma BuiltForStays(run: seq<Action>, a: Action, r: nat, session: string)
    requires BuiltFor(run, r, session)
    ensures BuiltFor(run + [a], r, session)
  {
    var m, i :| Builds(run, m, i, r) && CalledWith(run, i, session);
    BuildsStays(run, a, m, i, r);
    CalledWithStays(run, a, i, session);
  }

  lemma CallAsks(run: seq<Action>, session: string)
    ensures CalledWith(run + [CallStart(session)], |After(run).threads|, session)
  {
    var all := run + [CallStart(session)];
    assert all[..|run|] == run && all[|run|] == CallStart(session);
  }

  lemma MakeDirBuilds(run: seq<Action>, i: nat)
    requires Enabled(After(run), MakeDir(i))
    ensures Builds(run + [MakeDir(i)], |run|, i, |After(run).sessions|)
  {
    var all := run + [MakeDir(i)];
    assert all[..|run|] == run && all[|run|] == MakeDir(i);
  }

  /** A goroutine goes on asking for what it asked for until its launch. */
  lemma AskedMoves(s: Sys, a: Action, i: nat)
    requires Enabled(s, a) && i < |s.threads| && i < |Apply(s, a).threads| && Asked(Apply(s, a).threads[i]).Some?
    ensures Asked(s.threads[i]) == Asked(Apply(s, a).threads[i])
  {
    if a.CallStart? { StartAddsOne(s, a.session); }
    if a.CallStop? || a.CallIsRunning? { TakeAddsOne(s, a); }
  }

  lemma StartAddsOne(s: Sys, session: string)
    requires session != ""
    ensures var t := Apply(s, CallStart(session)); var n := |s.threads|;
            t.threads[..n] == s.threads && |t.threads| == n + 1
            && (Asked(t.threads[n]).Some? ==> Asked(t.threads[n]).value == session)
  {
  }

  lemma TakeAddsOne(s: Sys, a: Action)
    requires a.CallStop? || a.CallIsRunning?
    ensures var t := Apply(s, a); var n := |s.threads|;
            t.threads[..n] == s.threads && |t.threads| == n + 1 && Asked(t.threads[n]) == None
  {
  }

  /** A new goroutine asks only for what it was called with. */
  lemma AskedFirst(s: Sys, a: Action, i: nat)
    requires Enabled(s, a) && |s.threads| <= i < |Apply(s, a).threads| && Asked(Apply(s, a).threads[i]).Some?
    ensures i == |s.threads| && a == CallStart(Asked(Apply(s, a).threads[i]).value)
  {
    if a.CallStart? { StartAddsOne(s, a.session); }
    if a.CallStop? || a.CallIsRunning? { TakeAddsOne(s, a); }
  }

  lemma SessionMoves(s: Sys, a: Action)
    requires Enabled(s, a)
    ensures Apply(s, a).sessions == if a.MakeDir? then s.sessions + [s.threads[a.i].session] else s.sessions
  {
  }

  lemma AskOne(run: seq<Action>, a: Action)
    requires AsAsked(run, After(run)) && Enabled(After(run), a)
    ensures AsAsked(run + [a], Apply(After(run), a))
  {
    var s, t := After(run), Apply(After(run), a);
    forall i | 0 <= i < |t.threads| ensures ThreadAsked(run + [a], i, t.threads[i]) {
      if Asked(t.threads[i]).Some? {
        var session := Asked(t.threads[i]).value;
        if i < |s.threads| {
          AskedMoves(s, a, i);
          CalledWithStays(run, a, i, session);
        } else {
          AskedFirst(s, a, i);
          CallAsks(run, session);
        }
      }
    }
    SessionMoves(s, a);
    forall r | 0 <= r < |t.sessions| ensures BuiltFor(run + [a], r, t.sessions[r]) {
      if r < |s.sessions| {
        BuiltForStays(run, a, r, s.sessions[r]);
      } else {
        MakeDirBuilds(run, a.i);
        CalledWithStays(run, a, a.i, s.threads[a.i].session);
      }
    }
  }

  lemma AskNone(run: seq<Action>, a: Action, s: Sys)
    requires AsAsked(run, s)
    ensures AsAsked(run + [a], s)
  {
    forall i | 0 <= i < |s.threads| ensures ThreadAsked(run + [a], i, s.threads[i]) {
      if Asked(s.threads[i]).Some? { CalledWithStays(run, a, i, Asked(s.threads[i]).value); }
    }
    forall r | 0 <= r < |s.sessions| ensures BuiltFor(run + [a], r, s.sessions[r]) {
      BuiltForStays(run, a, r, s.sessions[r]);
    }
  }

  lemma {:induction false} AlwaysAsAsked(run: seq<Action>)
    ensures AsAsked(run, After(run))
  {
    if run != [] {
      var init, a := run[..|run| - 1], run[|run| - 1];
      AlwaysAsAsked(init);
      if Enabled(After(init), a) { AskOne(init, a); } else { AskNone(init, a, After(init)); }
      assert run == init + [a];
    }
  }

  /**
   Every runtime of a run is of the session that was the argument of the very `StartVM` whose goroutine
   built it, whether that start found the backend empty or a dead runtime in it.
   */
  lemma {:induction false} SessionIsAsAsked(run: seq<Action>, r: nat)
    requires r < |After(run).sessions|
    ensures BuiltFor(run, r, After(run).sessions[r])
  {
    AlwaysAsAsked(run);
  }

  // ---- A start can run through ----

  /** No start is in flight, and the backend is empty or its QEMU is dead. */
  predicate Startable(s: Sys) {
    !s.b.starting && (s.b.started ==> Exited(s.b, s.qemus))
  }

  /** What a start that runs through has replaced. */
  predicate Replaced(s: Sys, t: Sys, session: string) {
    && |s.place| == |s.sessions|
    && (s.b.qemu.Some? ==> s.b.qemu.value < |s.place|)
    && t.sessions == s.sessions + [session]
    && t.place == (if s.b.started && s.b.qemu.Some? then s.place[s.b.qemu.value := Cleaned] else s.place) + [Installed]
    && t.dirs == s.dirs - (if s.b.started then {s.b.sessionDir} else {}) + {session}
    && t.b.started && t.b.sessionDir == session && Contents(t.b).qemu == Some(|s.sessions|)
  }

  /** With the backend empty: the start goes straight to the launch. */
  lemma {:induction false} StartFromEmpty(run: seq<Action>, session: string) returns (next: seq<Action>)
    requires Startable(After(run)) && !After(run).b.started && session != ""
    ensures run + [CallStart(session)] <= next && Replaced(After(run), After(next), session)
  {
    Reachable(run);
    Step(run, CallStart(session));
    next := Launch(run + [CallStart(session)], |After(run).threads|);
  }

  /** With a dead runtime in the backend: the start takes it, cleans it up, and then launches. */
  lemma {:induction false} StartOverDead(run: seq<Action>, session: string) returns (next: seq<Action>)
    requires Startable(After(run)) && After(run).b.started && session != ""
    ensures run + [CallStart(session)] <= next && Replaced(After(run), After(next), session)
  {
    var s := After(run);
    Reachable(run);
    DeadIsTaken(s, session);
    Step(run, CallStart(session));
    var called := run + [CallStart(session)];
    var cleaned := CleanOut(called, |s.threads|);
    next := Launch(cleaned, |s.threads|);
  }

  lemma DeadIsTaken(s: Sys, session: string)
    requires Inv(s) && Startable(s) && s.b.started && session != ""
    ensures var t := Apply(s, CallStart(session)); var i := |s.threads|;
            && s.b.qemu.Some? && s.b.qemu.value < |s.place| == |s.sessions|
            && |t.threads| == i + 1 && t.threads[i] == Cleaning(Contents(s.b), AtProber, Some(session))
            && t.sessions == s.sessions && t.dirs == s.dirs && t.place == s.place[s.b.qemu.value := Held(i)]
  {
  }

  /**
   From every reachable state in which no start is in flight and the backend is empty or its QEMU dead,
   a start can run through: what was there is cleaned up, and the session asked for is installed.
   */
  lemma {:induction false} StartRunsThrough(run: seq<Action>, session: string) returns (next: seq<Action>)
    requires Startable(After(run)) && session != ""
    ensures run + [CallStart(session)] <= next && Replaced(After(run), After(next), session)
  {
    if After(run).b.started { next := StartOverDead(run, session); } else { next := StartFromEmpty(run, session); }
  }

  // ---- A stop can run through ----

  /**
   From every reachable state with a runtime in the backend, a stop can run through: nothing of the runtime
   or of a prober runs on, its stop channel is closed, its directory is gone, and the backend is empty.
   */
  lemma {:induction false} StopRunsThrough(run: seq<Action>) returns (next: seq<Action>)
    requires After(run).b.started
    ensures run + [CallStop] <= next
    ensures var s, t := After(run), After(next);
            && Contents(t.b) == Taken(None, None, None, "", None) && !t.b.started && t.b.starting == s.b.starting
            && t.dirs == s.dirs - {s.b.sessionDir} && Quiet(t)
            && s.b.qemu.Some? && s.b.qemu.value < |s.place| && t.place == s.place[s.b.qemu.value := Cleaned]
            && ShutDown(t, s.b.qemu.value)
  {
    Reachable(run);
    Step(run, CallStop);
    next := CleanOut(run + [CallStop], |After(run).threads|);
  }

  // ---- Watchdogs ----

  /**
   A watchdog can be told to quit exactly when its runtime's cleanup has closed the stop channel: never
   while the runtime is installed, and always once it has been cleaned.
   */
  lemma {:induction false} WatchdogToldIff(run: seq<Action>, i: nat)
    requires i < |After(run).threads| && After(run).threads[i].Watching? && After(run).threads[i].r < |After(run).place|
    ensures var s, r := After(run), After(run).threads[i].r;
            && (s.place[r] == Installed || s.place[r] == Lost ==> !Enabled(s, WatchdogQuits(i)))
            && (s.place[r] == Cleaned ==> Enabled(s, WatchdogQuits(i)))
            && (s.place[r].Held? ==> s.place[r].i < |s.threads| && s.threads[s.place[r].i].Cleaning?
                                     && (Enabled(s, WatchdogQuits(i)) <==> s.threads[s.place[r].i].step == AtTearDown))
  {
    Reachable(run);
    var s, r := After(run), After(run).threads[i].r;
    assert GoodRuntime(s, r);
    if s.place[r].Held? { assert GoodThread(s, s.place[r].i); }
  }

  /** A watchdog that fires or is told to quit is gone, and nothing else has changed. */
  lemma {:induction false} WatchdogEnds(run: seq<Action>, i: nat, a: Action)
    requires a in {WatchdogFires(i), WatchdogQuits(i)} && Enabled(After(run), a)
    ensures After(run + [a]) == After(run).(threads := After(run).threads[i := Returned])
  {
    Step(run, a);
  }
}
