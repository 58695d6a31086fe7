/** The client of the mount helper: what its mutex guards, and its critical sections. */
module VfsClient {
  import opened Channels
  import opened Options

  const WORD: nat := 0x1_0000_0000_0000_0000

  /** What a command receives: the helper's answer to the request `from`, or word of the helper's exit. */
  datatype Reply = Answered(from: nat, ok: bool, error: string) | Exited

  datatype Shared = Shared(
    pending: map<nat, nat>, activeBinds: set<string>, nextReqID: nat,
    readyFired: bool, readyCloses: nat, chans: map<nat, Channel<Reply>>)

  /** Request ids start at one: a counter found at zero is first moved on. */
  function IdFrom(counter: nat): nat {
    if counter == 0 then 1 else counter
  }

  function RegisterIn(sh: Shared, call: nat): Shared {
    var id := IdFrom(sh.nextReqID);
    sh.(nextReqID := (id + 1) % WORD, chans := sh.chans[call := Fresh()], pending := sh.pending[id := call])
  }

  function RemoveFrom(sh: Shared, id: nat): Shared {
    sh.(pending := sh.pending - {id})
  }

  /** Some id taken out of `all`, leaving `left`, has its reply channel at `c`. */
  predicate Taken(all: map<nat, nat>, left: map<nat, nat>, c: nat) {
    exists id :: id in all && id !in left && all[id] == c
  }

  /** The channels once every call taken out of `all` has been told of the exit and its channel closed. */
  function TellTaken(chans: map<nat, Channel<Reply>>, all: map<nat, nat>, left: map<nat, nat>): map<nat, Channel<Reply>> {
    map c | c in chans :: if Taken(all, left, c) then Close(Send(chans[c], Exited)) else chans[c]
  }

  function ExitIn(sh: Shared): Shared {
    sh.(pending := map[], chans := TellTaken(sh.chans, sh.pending, map[]))
  }

  function ReadyIn(sh: Shared): Shared {
    if sh.readyFired then sh else sh.(readyFired := true, readyCloses := sh.readyCloses + 1)
  }

  /** Every pending channel exists and can be sent to, and is pending under one id only. */
  predicate Ready(pending: map<nat, nat>, chans: map<nat, Channel<Reply>>) {
    && (forall id :: id in pending ==> pending[id] in chans && CanSend(chans[pending[id]]))
    && (forall id, other :: id in pending && other in pending && id != other ==> pending[id] != pending[other])
  }

  lemma TellStep(chans: map<nat, Channel<Reply>>, all: map<nat, nat>, left: map<nat, nat>, id: nat)
    requires Ready(all, chans) && id in left && id in all
    ensures var c := all[id]; var now := TellTaken(chans, all, left);
            && c in now && CanSend(now[c])
            && now[c := Close(Send(now[c], Exited))] == TellTaken(chans, all, left - {id})
  {
    var c := all[id];
    var now, next := TellTaken(chans, all, left), TellTaken(chans, all, left - {id});
    forall d | d in chans ensures Taken(all, left - {id}, d) <==> Taken(all, left, d) || d == c {
      if d == c { assert id in all && id !in left - {id} && all[id] == d; }
    }
    assert next.Keys == now.Keys + {c};
  }

  lemma FewerEntries(m: map<nat, nat>, id: nat)
    requires id in m
    ensures |m - {id}| < |m|
  {
    assert (m - {id}).Keys == m.Keys - {id};
    assert |(m - {id}).Keys| == |m.Keys| - 1;
  }

  class Client {
    var pending: map<nat, nat>
    var activeBinds: set<string>
    var nextReqID: nat
    var readyFired: bool
    var readyCloses: nat
    var chans: map<nat, Channel<Reply>>

    ghost function State(): Shared
      reads this
    {
      Shared(pending, activeBinds, nextReqID, readyFired, readyCloses, chans)
    }

    constructor ()
      ensures State() == Shared(map[], {}, 0, false, 0, map[])
    {
      pending, activeBinds, nextReqID, readyFired, readyCloses, chans := map[], {}, 0, false, 0, map[];
    }

    /** The first critical section of `send`: an id, a channel and a pending entry. */
    method Register(call: nat) returns (id: nat)
      modifies this
      ensures id == IdFrom(old(nextReqID)) && State() == RegisterIn(old(State()), call)
    {
      if nextReqID == 0 {
        nextReqID := 1;
      }
      id := nextReqID;
      nextReqID := (nextReqID + 1) % WORD;
      chans := chans[call := Fresh()];
      pending := pending[id := call];
    }

    method Unregister(id: nat)
      modifies this
      ensures State() == RemoveFrom(old(State()), id)
    {
      pending := pending - {id};
    }

    /** The lookup for a response line, which takes the channel out of `pending`. */
    method TakePending(id: nat) returns (found: Option<nat>)
      modifies this
      ensures found == if id in old(pending) then Some(old(pending)[id]) else None
      ensures State() == RemoveFrom(old(State()), id)
    {
      found := None;
      if id in pending {
        found := Some(pending[id]);
        pending := pending - {id};
      }
    }

    /** What the reader does with a response outside the mutex. */
    method SendAndClose(call: nat, reply: Reply)
      requires call in chans && CanSend(chans[call])
      modifies this
      ensures State() == old(State()).(chans := old(chans)[call := Channel([reply], true)])
    {
      chans := chans[call := Send(chans[call], reply)];
      assert chans[call].buf == [reply];
      chans := chans[call := Close(chans[call])];
    }

    /** The loop of `watchExit`, all of it under the mutex. */
    method RejectPending()
      requires Ready(pending, chans)
      modifies this`pending, this`chans
      ensures State() == ExitIn(old(State()))
    {
      ghost var all, chans0 := pending, chans;
      assert chans == TellTaken(chans0, all, pending);
      while pending != map[]
        invariant forall id :: id in pending ==> id in all && all[id] == pending[id]
        invariant chans == TellTaken(chans0, all, pending)
        decreases |pending|
      {
        var id :| id in pending;
        var c := pending[id];
        TellStep(chans0, all, pending, id);
        FewerEntries(pending, id);
        chans := chans[c := Close(Send(chans[c], Exited))];
        pending := pending - {id};
      }
    }

    /** The ready event: the channel is closed the first time only. */
    method FireReady()
      modifies this
      ensures State() == ReadyIn(old(State()))
    {
      if !readyFired {
        readyFired := true;
        readyCloses := readyCloses + 1;
      }
    }

    method Record(relPath: string)
      modifies this
      ensures State() == old(State()).(activeBinds := old(activeBinds) + {relPath})
    {
      activeBinds := activeBinds + {relPath};
    }
  }
}
