/**
 Every interleaving of `StartVM`, `StopVM`, `IsRunning` and watchdogs over one backend, with QEMU
 and helper processes that may exit at any time.
 */
module VmLifecycle {
  import opened KvmBackend
  import opened Options

  datatype CleanStep = AtProber | AtClose | AtTearDown

  /** One goroutine. A cleanup made by a start goes on to launch the session `next`. */
  datatype Thread =
    | Cleaning(state: Taken, step: CleanStep, next: Option<string>)
    | Preparing(session: string)
    | WithDir(r: nat)
    | HelperUp(r: nat)
    | QemuUp(r: nat)
    | Listening(r: nat)
    | Committed(r: nat)
    | GuestSeen(r: nat)
    | Probing
    | Ending
    | Watching(r: nat)
    | Returned

  /** Where a runtime is: with the thread that builds it, in the backend, with the thread that cleans it, or gone. */
  datatype Place = Building(i: nat) | Installed | Held(i: nat) | Cleaned | TornDown | Lost

  /**
   `helpers`, `qemus`, `bridges` and `probers` are what is running, `dirs` the session directories
   on disk, `closed` the watchdog channels closed. `place`, `holder`, `watched` and `fault` record
   where each runtime is, whose start pipeline is in flight, the runtimes given a watchdog, and a
   double close, a second watchdog, or a commit over a runtime.
   */
  datatype Sys = Sys(b: Shared, threads: seq<Thread>, sessions: seq<string>, place: seq<Place>,
                     helpers: set<nat>, qemus: set<nat>, bridges: set<nat>, probers: set<nat>, nextProber: nat,
                     dirs: set<string>, closed: set<nat>, holder: Option<nat>, watched: set<nat>, fault: bool)

  const START := Sys(IDLE, [], [], [], {}, {}, {}, {}, 0, {}, {}, None, {}, false)

  datatype Action =
    | CallStart(session: string)
    | CallStop
    | CallIsRunning
    | CleanNext(i: nat)
    | MakeDir(i: nat)
    | LaunchHelper(i: nat)
    | LaunchQemu(i: nat)
    | Listen(i: nat)
    | Fail(i: nat)
    | Commit(i: nat)
    | SeeGuest(i: nat)
    | StartWatchdog(i: nat)
    | Probe(i: nat, wanted: bool)
    | End(i: nat)
    | WatchdogFires(i: nat)
    | WatchdogQuits(i: nat)
    | QemuExits(r: nat)
    | HelperExits(r: nat)

  predicate Enabled(s: Sys, a: Action) {
    match a
    case CallStart(session) => session != ""
    case CallStop => true
    case CallIsRunning => true
    case CleanNext(i) => i < |s.threads| && s.threads[i].Cleaning?
    case MakeDir(i) => i < |s.threads| && s.threads[i].Preparing?
    case LaunchHelper(i) => i < |s.threads| && s.threads[i].WithDir?
    case LaunchQemu(i) => i < |s.threads| && s.threads[i].HelperUp?
    case Listen(i) => i < |s.threads| && s.threads[i].QemuUp?
    case Fail(i) =>
      i < |s.threads| &&
      (s.threads[i].Preparing? || s.threads[i].WithDir? || s.threads[i].HelperUp? || s.threads[i].QemuUp?)
    case Commit(i) => i < |s.threads| && s.threads[i].Listening? && s.threads[i].r < |s.sessions|
    case SeeGuest(i) => i < |s.threads| && s.threads[i].Committed?
    case StartWatchdog(i) => i < |s.threads| && s.threads[i].GuestSeen?
    case Probe(i, _) => i < |s.threads| && s.threads[i].Probing?
    case End(i) => i < |s.threads| && s.threads[i].Ending?
    case WatchdogFires(i) => i < |s.threads| && s.threads[i].Watching?
    case WatchdogQuits(i) => i < |s.threads| && s.threads[i].Watching? && s.threads[i].r in s.closed
    case QemuExits(r) => true
    case HelperExits(r) => true
  }

  function Set(s: Sys, i: nat, t: Thread): Sys
    requires i < |s.threads|
  {
    s.(threads := s.threads[i := t])
  }

  function Move(s: Sys, r: Option<nat>, p: Place): Sys {
    if r.Some? && r.value < |s.place| then s.(place := s.place[r.value := p]) else s
  }

  function Without(running: set<nat>, r: Option<nat>): set<nat> {
    if r.Some? then running - {r.value} else running
  }

  /** A new goroutine cleans up what it took, or returns. */
  function CleanOrReturn(s: Sys, b: Shared, taken: Option<Taken>): Sys {
    if taken.Some? then
      Move(s.(b := b, threads := s.threads + [Cleaning(taken.value, AtProber, None)]), taken.value.qemu, Held(|s.threads|))
    else s.(b := b, threads := s.threads + [Returned])
  }

  function Apply(s: Sys, a: Action): Sys
    requires Enabled(s, a)
  {
    match a
    case CallStart(session) =>
      var i := |s.threads|;
      var t := s.(b := AfterClaim(s.b, s.qemus));
      (match ClaimOf(s.b, s.qemus)
       case AlreadyRunning => t.(threads := t.threads + [Returned])
       case Ignored(lost) =>
         Move(t.(threads := t.threads + [Returned]), if lost.Some? then lost.value.qemu else None, Lost)
       case Claimed(None) => t.(threads := t.threads + [Preparing(session)], holder := Some(i))
       case Claimed(Some(stale)) =>
         Move(t.(threads := t.threads + [Cleaning(stale, AtProber, Some(session))], holder := Some(i)), stale.qemu, Held(i)))
    case CallStop =>
      CleanOrReturn(s, if s.b.started then Emptied(s.b) else s.b, if s.b.started then Some(Contents(s.b)) else None)
    case CallIsRunning =>
      var exited := Exited(s.b, s.qemus);
      CleanOrReturn(s, if exited then Emptied(s.b) else s.b, if exited then Some(Contents(s.b)) else None)
    case CleanNext(i) => ApplyClean(s, i)
    case MakeDir(i) =>
      var session := s.threads[i].session;
      Set(s, i, WithDir(|s.sessions|))
        .(sessions := s.sessions + [session], place := s.place + [Building(i)], dirs := s.dirs + {session})
    case LaunchHelper(i) => Set(s, i, HelperUp(s.threads[i].r)).(helpers := s.helpers + {s.threads[i].r})
    case LaunchQemu(i) => Set(s, i, QemuUp(s.threads[i].r)).(qemus := s.qemus + {s.threads[i].r})
    case Listen(i) => Set(s, i, Listening(s.threads[i].r)).(bridges := s.bridges + {s.threads[i].r})
    case Fail(i) =>
      if s.threads[i].Preparing? then Set(s, i, Ending)
      else
        var r := s.threads[i].r;
        Move(Set(s, i, Ending), Some(r), TornDown).(helpers := s.helpers - {r}, qemus := s.qemus - {r})
    case Commit(i) =>
      var r := s.threads[i].r;
      Move(Set(s, i, Committed(r)), Some(r), Installed)
        .(b := CommitIn(s.b, r, s.sessions[r]), fault := s.fault || s.b.started || s.b.qemu.Some?)
    case SeeGuest(i) => Set(s, i, GuestSeen(s.threads[i].r))
    case StartWatchdog(i) =>
      var t := Set(s, i, Probing);
      if s.b.started && s.b.watchdogStop.Some? then
        var w := s.b.watchdogStop.value;
        t.(threads := t.threads + [Watching(w)], watched := s.watched + {w}, fault := s.fault || w in s.watched)
      else t
    case Probe(i, wanted) =>
      var t := Set(s, i, Ending);
      if wanted then
        t.(b := s.b.(prober := Some(s.nextProber)), nextProber := s.nextProber + 1,
           probers := Without(s.probers, s.b.prober) + {s.nextProber})
      else t
    case End(i) => Set(s, i, Returned).(b := s.b.(starting := false), holder := None)
    case WatchdogFires(i) => Set(s, i, Returned)
    case WatchdogQuits(i) => Set(s, i, Returned)
    case QemuExits(r) => s.(qemus := s.qemus - {r})
    case HelperExits(r) => s.(helpers := s.helpers - {r})
  }

  /** The parts of `cleanupVMRuntime`. */
  function ApplyClean(s: Sys, i: nat): Sys
    requires i < |s.threads| && s.threads[i].Cleaning?
  {
    var c := s.threads[i];
    match c.step
    case AtProber => Set(s, i, c.(step := AtClose)).(b := s.b.(prober := None), probers := Without(s.probers, s.b.prober))
    case AtClose =>
      var t := Set(s, i, c.(step := AtTearDown));
      if c.state.watchdogStop.Some? then
        var w := c.state.watchdogStop.value;
        t.(closed := s.closed + {w}, fault := s.fault || w in s.closed)
      else t
    case AtTearDown =>
      Move(Set(s, i, if c.next.Some? then Preparing(c.next.value) else Returned), c.state.qemu, Cleaned)
        .(bridges := Without(s.bridges, c.state.bridge), qemus := Without(s.qemus, c.state.qemu),
          helpers := Without(s.helpers, c.state.helper),
          dirs := if c.state.sessionDir != "" then s.dirs - {c.state.sessionDir} else s.dirs)
  }

  /** The state after a run; an action that is not enabled changes nothing. */
  function After(run: seq<Action>): Sys {
    if run == [] then START
    else
      var s := After(run[..|run| - 1]);
      var a := run[|run| - 1];
      if Enabled(s, a) then Apply(s, a) else s
  }

  // ---- The invariant ----

  /** The thread is between its claim of `starting` and its release. */
  predicate InPipeline(t: Thread) {
    match t
    case Cleaning(_, _, next) => next.Some?
    case Watching(_) => false
    case Returned => false
    case _ => true
  }

  predicate BeforeCommit(t: Thread) {
    match t
    case Cleaning(_, _, next) => next.Some?
    case Preparing(_) => true
    case WithDir(_) => true
    case HelperUp(_) => true
    case QemuUp(_) => true
    case Listening(_) => true
    case _ => false
  }

  predicate Builds(t: Thread, r: nat) {
    (t.WithDir? || t.HelperUp? || t.QemuUp? || t.Listening?) && t.r == r
  }

  predicate Holds(t: Thread, r: nat) {
    t.Cleaning? && t.state.qemu == Some(r)
  }

  /** A whole runtime: all its parts belong to the runtime `r`. */
  predicate WholeState(s: Sys, c: Taken, r: nat) {
    r < |s.sessions| && c == Taken(Some(r), Some(r), Some(r), s.sessions[r], Some(r))
  }

  /** What holds of one thread. */
  predicate GoodThread(s: Sys, i: nat)
    requires i < |s.threads|
  {
    var t := s.threads[i];
    && (InPipeline(t) <==> s.holder == Some(i))
    && (t.Cleaning? ==> t.state.qemu.Some? && WholeState(s, t.state, t.state.qemu.value)
                        && t.state.qemu.value < |s.place| && s.place[t.state.qemu.value] == Held(i)
                        && (t.next.Some? ==> t.next.value != "")
                        && (t.state.qemu.value in s.closed <==> t.step == AtTearDown))
    && (t.Preparing? ==> t.session != "")
    && (t.WithDir? || t.HelperUp? || t.QemuUp? || t.Listening? ==> t.r < |s.place| && s.place[t.r] == Building(i))
    && (t.Committed? || t.GuestSeen? ==> t.r < |s.place| && !s.place[t.r].Building? && t.r !in s.watched
                                         && (s.b.watchdogStop == None || s.b.watchdogStop == Some(t.r)))
    && (t.Watching? ==> t.r in s.watched)
    && (BeforeCommit(t) ==> !s.b.started)
  }

  /** A runtime is where `place` says, and nothing of it runs that this place does not account for. */
  predicate GoodRuntime(s: Sys, r: nat)
    requires r < |s.place| == |s.sessions|
  {
    && s.sessions[r] != ""
    && match s.place[r]
       case Building(i) =>
         && i < |s.threads| && Builds(s.threads[i], r) && r !in s.watched && r !in s.closed
         && (r in s.bridges ==> s.threads[i].Listening?)
         && (r in s.qemus ==> s.threads[i].QemuUp? || s.threads[i].Listening?)
         && (r in s.helpers ==> !s.threads[i].WithDir?)
       case Installed => s.b.qemu == Some(r) && r !in s.closed
       case Held(i) => i < |s.threads| && Holds(s.threads[i], r)
       case Cleaned => r in s.closed && r !in s.bridges && r !in s.qemus && r !in s.helpers
       case TornDown => r !in s.closed && r !in s.bridges && r !in s.qemus && r !in s.helpers && r !in s.watched
       case Lost => r !in s.closed && r !in s.qemus
  }

  /** The backend's fields describe one installed runtime, or none. */
  predicate Whole(s: Sys) {
    if s.b.started then
      s.b.qemu.Some? && WholeState(s, Contents(s.b), s.b.qemu.value)
      && s.b.qemu.value < |s.place| && s.place[s.b.qemu.value] == Installed
    else Contents(s.b) == Taken(None, None, None, "", None)
  }

  predicate Bounded(runtimes: set<nat>, n: nat) {
    forall r :: r in runtimes ==> r < n
  }

  predicate Bookkeeping(s: Sys) {
    && |s.place| == |s.sessions|
    && (s.b.starting <==> s.holder.Some?)
    && (s.holder.Some? ==> s.holder.value < |s.threads| && InPipeline(s.threads[s.holder.value]))
    && Bounded(s.helpers, |s.place|) && Bounded(s.qemus, |s.place|) && Bounded(s.bridges, |s.place|)
    && Bounded(s.closed, |s.place|) && Bounded(s.watched, |s.place|)
    && s.probers == (if s.b.prober.Some? then {s.b.prober.value} else {})
    && (s.b.prober.Some? ==> s.b.prober.value < s.nextProber)
  }

  predicate Inv(s: Sys) {
    && Bookkeeping(s) && Whole(s) && !s.fault
    && (forall i :: 0 <= i < |s.threads| ==> GoodThread(s, i))
    && (forall r :: 0 <= r < |s.place| ==> GoodRuntime(s, r))
  }

  // ---- Every action keeps it ----

  lemma KeepStartRefused(s: Sys, session: string)
    requires Inv(s) && session != "" && (ClaimOf(s.b, s.qemus) == AlreadyRunning || ClaimOf(s.b, s.qemus) == Ignored(None))
    ensures Inv(Apply(s, CallStart(session)))
  {
    var t := Apply(s, CallStart(session));
    forall i | 0 <= i < |t.threads| ensures GoodThread(t, i) {
      if i < |s.threads| { assert GoodThread(s, i); }
    }
    forall r | 0 <= r < |t.place| ensures GoodRuntime(t, r) {
      assert GoodRuntime(s, r);
    }
  }

  lemma KeepStartLosing(s: Sys, session: string)
    requires Inv(s) && session != "" && ClaimOf(s.b, s.qemus).Ignored? && ClaimOf(s.b, s.qemus).lost.Some?
    ensures Inv(Apply(s, CallStart(session)))
  {
    var t := Apply(s, CallStart(session));
    assert GoodRuntime(s, s.b.qemu.value);
    forall i | 0 <= i < |t.threads| ensures GoodThread(t, i) {
      if i < |s.threads| { assert GoodThread(s, i); }
    }
    forall r | 0 <= r < |t.place| ensures GoodRuntime(t, r) {
      assert GoodRuntime(s, r);
    }
  }

  lemma KeepStartFresh(s: Sys, session: string)
    requires Inv(s) && session != "" && ClaimOf(s.b, s.qemus) == Claimed(None)
    ensures Inv(Apply(s, CallStart(session)))
  {
    var t := Apply(s, CallStart(session));
    forall i | 0 <= i < |t.threads| ensures GoodThread(t, i) {
      if i < |s.threads| { assert GoodThread(s, i); }
    }
    forall r | 0 <= r < |t.place| ensures GoodRuntime(t, r) {
      assert GoodRuntime(s, r);
    }
  }

  lemma KeepStartStale(s: Sys, session: string)
    requires Inv(s) && session != "" && ClaimOf(s.b, s.qemus).Claimed? && ClaimOf(s.b, s.qemus).stale.Some?
    ensures Inv(Apply(s, CallStart(session)))
  {
    var t := Apply(s, CallStart(session));
    assert GoodRuntime(s, s.b.qemu.value);
    forall i | 0 <= i < |t.threads| ensures GoodThread(t, i) {
      if i < |s.threads| { assert GoodThread(s, i); }
    }
    forall r | 0 <= r < |t.place| ensures GoodRuntime(t, r) {
      assert GoodRuntime(s, r);
    }
  }

  lemma KeepReturned(s: Sys)
    requires Inv(s)
    ensures Inv(CleanOrReturn(s, s.b, None))
  {
    var t := CleanOrReturn(s, s.b, None);
    forall i | 0 <= i < |t.threads| ensures GoodThread(t, i) {
      if i < |s.threads| { assert GoodThread(s, i); }
    }
    forall r | 0 <= r < |t.place| ensures GoodRuntime(t, r) {
      assert GoodRuntime(s, r);
    }
  }

  lemma KeepTaken(s: Sys)
    requires Inv(s) && s.b.started
    ensures Inv(CleanOrReturn(s, Emptied(s.b), Some(Contents(s.b))))
  {
    var t := CleanOrReturn(s, Emptied(s.b), Some(Contents(s.b)));
    assert GoodRuntime(s, s.b.qemu.value);
    forall i | 0 <= i < |t.threads| ensures GoodThread(t, i) {
      if i < |s.threads| { assert GoodThread(s, i); }
    }
    forall r | 0 <= r < |t.place| ensures GoodRuntime(t, r) {
      assert GoodRuntime(s, r);
    }
  }

  /** A stop, or a check that finds QEMU dead, takes the runtime; otherwise the call returns. */
  lemma KeepTake(s: Sys, a: Action)
    requires Inv(s) && (a.CallStop? || a.CallIsRunning?)
    ensures Inv(Apply(s, a))
  {
    if s.b.started { KeepTaken(s); }
    KeepReturned(s);
  }

  lemma KeepCleanProber(s: Sys, i: nat)
    requires Inv(s) && Enabled(s, CleanNext(i)) && s.threads[i].step == AtProber
    ensures Inv(Apply(s, CleanNext(i)))
  {
    var t := Apply(s, CleanNext(i));
    assert GoodThread(s, i);
    forall j | 0 <= j < |t.threads| ensures GoodThread(t, j) {
      if j < |s.threads| { assert GoodThread(s, j); }
    }
    forall r | 0 <= r < |t.place| ensures GoodRuntime(t, r) {
      assert GoodRuntime(s, r);
    }
  }

  lemma KeepCleanClose(s: Sys, i: nat)
    requires Inv(s) && Enabled(s, CleanNext(i)) && s.threads[i].step == AtClose
    ensures Inv(Apply(s, CleanNext(i)))
  {
    var t := Apply(s, CleanNext(i));
    assert GoodThread(s, i);
    forall j | 0 <= j < |t.threads| ensures GoodThread(t, j) {
      if j < |s.threads| { assert GoodThread(s, j); }
    }
    forall r | 0 <= r < |t.place| ensures GoodRuntime(t, r) {
      assert GoodRuntime(s, r);
    }
  }

  lemma KeepCleanTearDown(s: Sys, i: nat)
    requires Inv(s) && Enabled(s, CleanNext(i)) && s.threads[i].step == AtTearDown
    ensures Inv(Apply(s, CleanNext(i)))
  {
    var t := Apply(s, CleanNext(i));
    assert GoodThread(s, i);
    forall j | 0 <= j < |t.threads| ensures GoodThread(t, j) {
      if j < |s.threads| { assert GoodThread(s, j); }
    }
    forall r | 0 <= r < |t.place| ensures GoodRuntime(t, r) {
      assert GoodRuntime(s, r);
    }
  }

  lemma KeepMakeDir(s: Sys, i: nat)
    requires Inv(s) && Enabled(s, MakeDir(i))
    ensures Inv(Apply(s, MakeDir(i)))
  {
    var t := Apply(s, MakeDir(i));
    assert GoodThread(s, i);
    forall j | 0 <= j < |t.threads| ensures GoodThread(t, j) {
      assert GoodThread(s, j);
    }
    forall r | 0 <= r < |t.place| ensures GoodRuntime(t, r) {
      if r < |s.place| { assert GoodRuntime(s, r); }
    }
  }

  /** One goroutine moves on within its launch, and what it launched runs. */
  lemma KeepLaunch(s: Sys, i: nat, a: Action)
    requires Inv(s) && Enabled(s, a) && a in {LaunchHelper(i), LaunchQemu(i), Listen(i)}
    ensures Inv(Apply(s, a))
  {
    var t := Apply(s, a);
    assert GoodThread(s, i);
    forall j | 0 <= j < |t.threads| ensures GoodThread(t, j) {
      assert GoodThread(s, j);
    }
    forall r | 0 <= r < |t.place| ensures GoodRuntime(t, r) {
      assert GoodRuntime(s, r);
    }
  }

  lemma KeepFail(s: Sys, i: nat)
    requires Inv(s) && Enabled(s, Fail(i))
    ensures Inv(Apply(s, Fail(i)))
  {
    var t := Apply(s, Fail(i));
    assert GoodThread(s, i);
    forall j | 0 <= j < |t.threads| ensures GoodThread(t, j) {
      assert GoodThread(s, j);
    }
    forall r | 0 <= r < |t.place| ensures GoodRuntime(t, r) {
      if r < |s.place| { assert GoodRuntime(s, r); }
    }
  }

  lemma KeepCommit(s: Sys, i: nat)
    requires Inv(s) && Enabled(s, Commit(i))
    ensures Inv(Apply(s, Commit(i)))
  {
    var t := Apply(s, Commit(i));
    assert GoodThread(s, i);
    assert GoodRuntime(s, s.threads[i].r);
    forall j | 0 <= j < |t.threads| ensures GoodThread(t, j) {
      assert GoodThread(s, j);
    }
    forall r | 0 <= r < |t.place| ensures GoodRuntime(t, r) {
      if r < |s.place| { assert GoodRuntime(s, r); }
    }
  }

  /** One goroutine moves on, and nothing else changes. */
  lemma KeepAlone(s: Sys, i: nat, a: Action)
    requires Inv(s) && Enabled(s, a) && a in {SeeGuest(i), WatchdogFires(i), WatchdogQuits(i)}
    ensures Inv(Apply(s, a))
  {
    var t := Apply(s, a);
    assert GoodThread(s, i);
    forall j | 0 <= j < |t.threads| ensures GoodThread(t, j) {
      assert GoodThread(s, j);
    }
    forall r | 0 <= r < |t.place| ensures GoodRuntime(t, r) {
      assert GoodRuntime(s, r);
    }
  }

  lemma KeepStartWatchdog(s: Sys, i: nat)
    requires Inv(s) && Enabled(s, StartWatchdog(i))
    ensures Inv(Apply(s, StartWatchdog(i)))
  {
    var t := Apply(s, StartWatchdog(i));
    assert GoodThread(s, i);
    forall j | 0 <= j < |t.threads| ensures GoodThread(t, j) {
      if j < |s.threads| { assert GoodThread(s, j); }
    }
    forall r | 0 <= r < |t.place| ensures GoodRuntime(t, r) {
      assert GoodRuntime(s, r);
    }
  }

  lemma KeepEnd(s: Sys, i: nat)
    requires Inv(s) && Enabled(s, End(i))
    ensures Inv(Apply(s, End(i)))
  {
    var t := Apply(s, End(i));
    assert GoodThread(s, i);
    forall j | 0 <= j < |t.threads| ensures GoodThread(t, j) {
      if j < |s.threads| { assert GoodThread(s, j); }
    }
    forall r | 0 <= r < |t.place| ensures GoodRuntime(t, r) {
      assert GoodRuntime(s, r);
    }
  }

  lemma KeepProbe(s: Sys, i: nat, wanted: bool)
    requires Inv(s) && Enabled(s, Probe(i, wanted))
    ensures Inv(Apply(s, Probe(i, wanted)))
  {
    var t := Apply(s, Probe(i, wanted));
    assert GoodThread(s, i);
    forall j | 0 <= j < |t.threads| ensures GoodThread(t, j) {
      if j < |s.threads| { assert GoodThread(s, j); }
    }
    forall r | 0 <= r < |t.place| ensures GoodRuntime(t, r) {
      assert GoodRuntime(s, r);
    }
  }

  lemma KeepExit(s: Sys, a: Action)
    requires Inv(s) && (a.QemuExits? || a.HelperExits?)
    ensures Inv(Apply(s, a))
  {
    var t := Apply(s, a);
    forall j | 0 <= j < |t.threads| ensures GoodThread(t, j) {
      assert GoodThread(s, j);
    }
    forall r | 0 <= r < |t.place| ensures GoodRuntime(t, r) {
      assert GoodRuntime(s, r);
    }
  }

  lemma KeepAll(s: Sys, a: Action)
    requires Inv(s) && Enabled(s, a)
    ensures Inv(Apply(s, a))
  {
    match a
    case CallStart(session) =>
      match ClaimOf(s.b, s.qemus) {
       case AlreadyRunning => KeepStartRefused(s, session);
       case Ignored(None) => KeepStartRefused(s, session);
       case Ignored(Some(_)) => KeepStartLosing(s, session);
       case Claimed(None) => KeepStartFresh(s, session);
       case Claimed(Some(_)) => KeepStartStale(s, session);
      }
    case CallStop => KeepTake(s, a);
    case CallIsRunning => KeepTake(s, a);
    case CleanNext(i) =>
      match s.threads[i].step {
       case AtProber => KeepCleanProber(s, i);
       case AtClose => KeepCleanClose(s, i);
       case AtTearDown => KeepCleanTearDown(s, i);
      }
    case MakeDir(i) => KeepMakeDir(s, i);
    case LaunchHelper(i) => KeepLaunch(s, i, a);
    case LaunchQemu(i) => KeepLaunch(s, i, a);
    case Listen(i) => KeepLaunch(s, i, a);
    case Fail(i) => KeepFail(s, i);
    case Commit(i) => KeepCommit(s, i);
    case SeeGuest(i) => KeepAlone(s, i, a);
    case StartWatchdog(i) => KeepStartWatchdog(s, i);
    case Probe(i, wanted) => KeepProbe(s, i, wanted);
    case End(i) => KeepEnd(s, i);
    case WatchdogFires(i) => KeepAlone(s, i, a);
    case WatchdogQuits(i) => KeepAlone(s, i, a);
    case QemuExits(_) => KeepExit(s, a);
    case HelperExits(_) => KeepExit(s, a);
  }

  // ---- Every run ----

  lemma {:induction false} Reachable(run: seq<Action>)
    ensures Inv(After(run))
  {
    if run != [] {
      var last := |run| - 1;
      Reachable(run[..last]);
      if Enabled(After(run[..last]), run[last]) { KeepAll(After(run[..last]), run[last]); }
    }
  }

  /** `starting` holds exactly while a start pipeline is in flight, and no two ever are. */
  lemma {:induction false} OneStartAtATime(run: seq<Action>, i: nat, j: nat)
    requires i < |After(run).threads| && j < |After(run).threads|
    ensures var s := After(run);
            && (InPipeline(s.threads[i]) ==> s.b.starting)
            && (InPipeline(s.threads[i]) && InPipeline(s.threads[j]) ==> i == j)
            && (s.b.starting ==> exists k :: 0 <= k < |s.threads| && InPipeline(s.threads[k]))
  {
    Reachable(run);
    assert GoodThread(After(run), i) && GoodThread(After(run), j);
  }

  /** `started` holds exactly when every part is set; then all parts are of one runtime, in its own session directory. */
  lemma StartedMeansWhole(run: seq<Action>)
    ensures var s := After(run); var b := s.b;
            && (b.started <==> b.qemu.Some? && b.helper.Some? && b.bridge.Some? && b.watchdogStop.Some?)
            && (b.started <==> b.qemu.Some? || b.helper.Some? || b.bridge.Some? || b.watchdogStop.Some?)
            && (b.started ==> b.qemu == b.helper == b.bridge == b.watchdogStop
                              && b.qemu.value < |s.sessions| && b.sessionDir == s.sessions[b.qemu.value])
  {
    Reachable(run);
  }

  /** A commit finds the backend empty. */
  lemma {:induction false} CommitOverwritesNothing(run: seq<Action>, i: nat)
    requires Enabled(After(run), Commit(i))
    ensures Contents(After(run).b) == Taken(None, None, None, "", None) && !After(run).b.started
  {
    Reachable(run);
    assert GoodThread(After(run), i);
  }

  /** The channel a cleanup closes is its runtime's and still open: no stop channel is closed twice. */
  lemma {:induction false} StopChannelClosedOnce(run: seq<Action>, i: nat)
    requires Enabled(After(run), CleanNext(i)) && After(run).threads[i].step == AtClose
    ensures var s := After(run); var w := s.threads[i].state.watchdogStop;
            w.Some? && w == s.threads[i].state.qemu && w.value !in s.closed
  {
    Reachable(run);
    assert GoodThread(After(run), i);
  }

  /** A start hands a watchdog the channel of the runtime it launched itself, and no runtime gets a second one. */
  lemma {:induction false} OwnWatchdogOnly(run: seq<Action>, i: nat)
    requires Enabled(After(run), StartWatchdog(i)) && After(run).b.watchdogStop.Some?
    ensures var s := After(run);
            s.b.watchdogStop.value == s.threads[i].r && s.threads[i].r !in s.watched
  {
    Reachable(run);
    assert GoodThread(After(run), i);
  }

  /** The moves a runtime can make. */
  predicate Follows(p: Place, q: Place) {
    match p
    case Building(_) => q.Installed? || q.TornDown?
    case Installed => q.Held? || q.Lost?
    case Held(_) => q.Cleaned?
    case _ => false
  }

  /** What one action does to one runtime; in particular it is lost only to a start that finds another in flight. */
  lemma MovesForward(s: Sys, a: Action, r: nat)
    requires Inv(s) && Enabled(s, a) && r < |s.place|
    ensures var t := Apply(s, a);
            && r < |t.place|
            && (t.place[r] == s.place[r] || Follows(s.place[r], t.place[r]))
            && (t.place[r] == Lost && s.place[r] != Lost
                <==> a.CallStart? && s.b.qemu == Some(r) && r !in s.qemus && s.b.starting)
            && (s.place[r] == Installed ==>
                  (t.place[r] != Installed <==> a.CallStop? || (r !in s.qemus && (a.CallStart? || a.CallIsRunning?))))
  {
    assert GoodRuntime(s, r);
    if a.CleanNext? || a.Fail? || a.Commit? { assert GoodThread(s, a.i); }
  }

  function Rank(p: Place): nat {
    match p
    case Building(_) => 0
    case Installed => 1
    case Held(_) => 2
    case _ => 3
  }

  lemma OneMore(run: seq<Action>, k: nat)
    requires k < |run|
    ensures var s := After(run[..k]);
            After(run[..k + 1]) == if Enabled(s, run[k]) then Apply(s, run[k]) else s
  {
    var next := run[..k + 1];
    assert next[..k] == run[..k];
  }

  /** A runtime never comes back: over any run it is taken out of the backend at most once and cleaned at most once. */
  lemma {:induction false} NeverBack(run: seq<Action>, k: nat, r: nat)
    requires k <= |run| && r < |After(run[..k]).place|
    ensures var p, q := After(run[..k]).place[r], After(run).place;
            r < |q| && (q[r] == p || Rank(p) < Rank(q[r])) && (p.Held? ==> q[r] == p || q[r] == Cleaned)
    decreases |run| - k
  {
    if k < |run| {
      Reachable(run[..k]);
      OneMore(run, k);
      if Enabled(After(run[..k]), run[k]) { MovesForward(After(run[..k]), run[k], r); }
      NeverBack(run, k + 1, r);
    } else {
      assert run[..k] == run;
    }
  }

  /** No QEMU runs that is not being launched, installed, or about to be shut down. */
  lemma {:induction false} NoStrayQemu(run: seq<Action>, r: nat)
    requires r in After(run).qemus
    ensures var s := After(run); r < |s.place| && (s.place[r].Building? || s.place[r].Installed? || s.place[r].Held?)
  {
    Reachable(run);
    assert GoodRuntime(After(run), r);
  }

  /**
   When no call is in progress, only the installed runtime and those lost to an overlapping start
   can have a helper or bridge left; everything else taken was cleaned and its channel closed.
   */
  lemma AtRest(run: seq<Action>, r: nat)
    requires forall i :: 0 <= i < |After(run).threads| ==> After(run).threads[i].Watching? || After(run).threads[i].Returned?
    requires r < |After(run).place|
    ensures var s := After(run);
            && !s.b.starting && s.qemus <= (if s.b.qemu.Some? then {s.b.qemu.value} else {})
            && match s.place[r]
               case Installed => s.b.qemu == Some(r)
               case Cleaned => r in s.closed && r !in s.helpers && r !in s.bridges
               case TornDown => r !in s.helpers && r !in s.bridges
               case Lost => r !in s.closed
               case _ => false
  {
    Reachable(run);
    var s := After(run);
    assert GoodRuntime(s, r);
    forall q | q in s.qemus ensures s.b.qemu == Some(q) {
      assert GoodRuntime(s, q);
    }
  }

  lemma Step(run: seq<Action>, a: Action)
    requires Enabled(After(run), a)
    ensures After(run + [a]) == Apply(After(run), a)
  {
    assert (run + [a])[..|run|] == run;
  }

  /** A launch that meets no failure, from its claim to its commit. */
  lemma Launch(run: seq<Action>, i: nat) returns (next: seq<Action>)
    requires i < |After(run).threads| && After(run).threads[i].Preparing?
    ensures run <= next
    ensures var s, t := After(run), After(next);
            var r, session := |s.sessions|, s.threads[i].session;
            && t.threads == s.threads[i := Committed(r)] && t.sessions == s.sessions + [session]
            && t.place == s.place + [Installed] && t.b == CommitIn(s.b, r, session)
            && t.helpers == s.helpers + {r} && t.bridges == s.bridges + {r} && t.qemus == s.qemus + {r}
            && t.dirs == s.dirs + {session} && t.closed == s.closed
  {
    next := Booted(run, i);
    Step(next, Commit(i)); next := next + [Commit(i)];
  }

  lemma Booted(run: seq<Action>, i: nat) returns (next: seq<Action>)
    requires i < |After(run).threads| && After(run).threads[i].Preparing?
    ensures run <= next
    ensures var s, t := After(run), After(next);
            var r, session := |s.sessions|, s.threads[i].session;
            && |s.place| == r && t.threads == s.threads[i := Listening(r)] && t.sessions == s.sessions + [session]
            && t.place == s.place + [Building(i)] && t.b == s.b
            && t.helpers == s.helpers + {r} && t.bridges == s.bridges + {r} && t.qemus == s.qemus + {r}
            && t.dirs == s.dirs + {session} && t.closed == s.closed
  {
    next := Prepared(run, i);
    Step(next, LaunchQemu(i)); next := next + [LaunchQemu(i)];
    Step(next, Listen(i)); next := next + [Listen(i)];
  }

  lemma Prepared(run: seq<Action>, i: nat) returns (next: seq<Action>)
    requires i < |After(run).threads| && After(run).threads[i].Preparing?
    ensures run <= next
    ensures var s, t := After(run), After(next);
            var r, session := |s.sessions|, s.threads[i].session;
            && |s.place| == r && t.threads == s.threads[i := HelperUp(r)] && t.sessions == s.sessions + [session]
            && t.place == s.place + [Building(i)] && t.b == s.b
            && t.helpers == s.helpers + {r} && t.bridges == s.bridges && t.qemus == s.qemus
            && t.dirs == s.dirs + {session} && t.closed == s.closed
  {
    Reachable(run);
    Step(run, MakeDir(i)); next := run + [MakeDir(i)];
    Step(next, LaunchHelper(i)); next := next + [LaunchHelper(i)];
  }

  /** The first start of a run, up to its commit. */
  lemma FirstLaunch(session: string) returns (run: seq<Action>)
    requires session != ""
    ensures var t := After(run);
            && t.threads == [Committed(0)] && t.sessions == [session] && t.place == [Installed]
            && t.b == CommitIn(IDLE.(starting := true), 0, session)
            && t.helpers == {0} && t.bridges == {0} && t.qemus == {0} && t.dirs == {session} && t.closed == {}
  {
    run := [];
    Step(run, CallStart(session)); run := run + [CallStart(session)];
    run := Launch(run, 0);
  }

  /**
   A runtime can be lost: QEMU dies while the start that launched it still waits for the guest, and
   another start takes the dead runtime and returns. Its helper and bridge stay up.
   */
  lemma RuntimeCanBeLost(session: string, other: string) returns (run: seq<Action>)
    requires session != "" && other != ""
    ensures var s := After(run);
            s.place == [Lost] && 0 in s.helpers && 0 in s.bridges && 0 !in s.closed && !s.b.started
  {
    run := FirstLaunch(session);
    Step(run, QemuExits(0)); run := run + [QemuExits(0)];
    Step(run, CallStart(other)); run := run + [CallStart(other)];
  }
}
