/** The KVM backend's fields and the critical sections over them. A runtime is named by a number. */
module KvmBackend {
  import opened Options

  /** What a take moves out of the backend. */
  datatype Taken = Taken(qemu: Option<nat>, helper: Option<nat>, bridge: Option<nat>,
                         sessionDir: string, watchdogStop: Option<nat>)

  datatype Shared = Shared(started: bool, starting: bool,
                           qemu: Option<nat>, helper: Option<nat>, bridge: Option<nat>,
                           sessionDir: string, watchdogStop: Option<nat>, prober: Option<nat>)

  const IDLE := Shared(false, false, None, None, None, "", None, None)

  /** How `StartVM`'s first critical section ends. */
  datatype Claim =
    | AlreadyRunning
    | Ignored(lost: Option<Taken>)
    | Claimed(stale: Option<Taken>)

  function Contents(b: Shared): Taken {
    Taken(b.qemu, b.helper, b.bridge, b.sessionDir, b.watchdogStop)
  }

  function Emptied(b: Shared): Shared {
    b.(started := false, qemu := None, helper := None, bridge := None, sessionDir := "", watchdogStop := None)
  }

  /** A runtime is there and its QEMU is not among those still running. */
  predicate Exited(b: Shared, running: set<nat>) {
    b.started && !(b.qemu.Some? && b.qemu.value in running)
  }

  function ClaimOf(b: Shared, running: set<nat>): Claim {
    var stale := if Exited(b, running) then Some(Contents(b)) else None;
    if b.started && stale.None? then AlreadyRunning
    else if b.starting then Ignored(stale)
    else Claimed(stale)
  }

  function AfterClaim(b: Shared, running: set<nat>): Shared {
    match ClaimOf(b, running)
    case AlreadyRunning => b
    case Ignored(lost) => if lost.Some? then Emptied(b) else b
    case Claimed(stale) => (if stale.Some? then Emptied(b) else b).(starting := true)
  }

  function CommitIn(b: Shared, r: nat, sessionDir: string): Shared {
    b.(started := true, qemu := Some(r), helper := Some(r), bridge := Some(r), sessionDir := sessionDir,
       watchdogStop := Some(r))
  }

  class Backend {
    var started: bool
    var starting: bool
    var qemu: Option<nat>
    var helper: Option<nat>
    var bridge: Option<nat>
    var sessionDir: string
    var watchdogStop: Option<nat>
    var prober: Option<nat>

    ghost function State(): Shared
      reads this
    {
      Shared(started, starting, qemu, helper, bridge, sessionDir, watchdogStop, prober)
    }

    constructor ()
      ensures State() == IDLE
    {
      started, starting, qemu, helper, bridge := false, false, None, None, None;
      sessionDir, watchdogStop, prober := "", None, None;
    }

    method TakeRuntime() returns (state: Taken)
      modifies this
      ensures state == Contents(old(State())) && State() == Emptied(old(State()))
    {
      state := Taken(qemu, helper, bridge, sessionDir, watchdogStop);
      started, qemu, helper, bridge, sessionDir, watchdogStop := false, None, None, None, "", None;
    }

    method TakeExited(running: set<nat>) returns (state: Option<Taken>)
      modifies this
      ensures state == if Exited(old(State()), running) then Some(Contents(old(State()))) else None
      ensures State() == if Exited(old(State()), running) then Emptied(old(State())) else old(State())
    {
      if !started { return None; }
      if qemu.Some? && qemu.value in running { return None; }
      var taken := TakeRuntime();
      return Some(taken);
    }

    /** `StartVM` up to its claim of `starting`. */
    method BeginStart(running: set<nat>) returns (claim: Claim)
      modifies this
      ensures claim == ClaimOf(old(State()), running)
      ensures State() == AfterClaim(old(State()), running)
    {
      var stale := None;
      if started {
        stale := TakeExited(running);
        if stale.None? { return AlreadyRunning; }
      }
      if starting { return Ignored(stale); }
      starting := true;
      return Claimed(stale);
    }

    method Commit(r: nat, dir: string)
      modifies this
      ensures State() == CommitIn(old(State()), r, dir)
    {
      started, qemu, helper, bridge, sessionDir, watchdogStop := true, Some(r), Some(r), Some(r), dir, Some(r);
    }

    method TakeForStop() returns (state: Option<Taken>)
      modifies this
      ensures state == if old(started) then Some(Contents(old(State()))) else None
      ensures State() == if old(started) then Emptied(old(State())) else old(State())
    {
      if !started { return None; }
      var taken := TakeRuntime();
      return Some(taken);
    }
  }
}
