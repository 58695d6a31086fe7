/** What deletion, pruning and the report promise together. */
module DiskTheorems {
  import opened DiskMgmt
  import opened Sorting
  import opened Strings

  const NO_FAULTS: map<string, nat> := map[]

  // ---- Deletion and the report ----

  /** After the removal the report does not list the session, lists all others, and gives them the sizes they had. */
  ghost predicate Agrees(es: Entries, after: Entries, name: string) {
    && Owners(after) == Owners(es) - {name}
    && forall q :: q != name ==> SizeOf(after, q) == SizeOf(es, q)
  }

  lemma OwnsWhatItHits(n: string, name: string)
    requires ValidName(name) && !Contains(name, INFIX)
    ensures Hit(n, name) <==> Owner(n) == name
  {
    HitsAreOwnedIff(name);
  }

  lemma RemovalAgrees(es: Entries, listing: set<string>, name: string, faults: map<string, nat>)
    requires es.Keys <= listing && ValidName(name) && !Contains(name, INFIX)
    requires Removable(es, Hits(listing, name), faults)
    ensures Agrees(es, Without(es, Hits(listing, name), faults), name)
  {
    var after := Without(es, Hits(listing, name), faults);
    forall n | n in es ensures n in after <==> Owner(n) != name {
      OwnsWhatItHits(n, name);
    }
    OwnersLeft(es, after, name);
    forall q | q != name ensures SizeOf(after, q) == SizeOf(es, q) {
      ShareKept(es, after, q);
    }
  }

  /** A session whose entries are all left as they were keeps its size. */
  lemma ShareKept(es: Entries, after: Entries, q: string)
    requires after.Keys <= es.Keys && forall n :: n in es && Owner(n) == q ==> n in after && after[n] == es[n]
    ensures SizeOf(after, q) == SizeOf(es, q)
  {
    assert OwnedBy(after, q) == OwnedBy(es, q);
    SumSame(OwnedBy(es, q), es, after);
  }

  lemma OwnersLeft(es: Entries, after: Entries, name: string)
    requires forall n :: n in es ==> (n in after <==> Owner(n) != name)
    requires forall n :: n in after ==> n in es && after[n] == es[n]
    ensures Owners(after) == Owners(es) - {name}
  {
    forall o | o in Owners(es) && o != name ensures o in Owners(after) {
      var n :| n in es && es[n].dir && Owner(n) == o;
      assert n in after;
    }
  }

  /** A valid session that is not running and whose entries can all be removed is reported deleted, and the report agrees. */
  lemma DeletedIsGone(es: Entries, name: string, running: set<string>, faults: map<string, nat>)
    requires ValidName(name) && !Contains(name, INFIX) && name !in running
    requires Removable(es, Hits(es.Keys, name), faults)
    ensures var (after, r) := Delete(es, [name], running, faults);
            r.deleted == [name] && r.errors == map[] && Agrees(es, after, name)
  {
    assert [name][..0] == [];
    assert Delete(es, [], running, faults) == (es, DeleteResult([], map[]));
    RemovalAgrees(es, es.Keys, name, faults);
  }

  lemma {:induction false} DeleteShrinks(es: Entries, names: seq<string>, running: set<string>)
    ensures Delete(es, names, running, NO_FAULTS).0.Keys <= es.Keys
  {
    if names != [] { DeleteShrinks(es, names[..|names| - 1], running); }
  }

  ghost predicate AgreesOnAll(es: Entries, after: Entries, gone: set<string>) {
    && Owners(after) == Owners(es) - gone
    && forall q :: q !in gone ==> SizeOf(after, q) == SizeOf(es, q)
  }

  lemma OneMoreGone(es: Entries, mid: Entries, after: Entries, gone: set<string>, name: string)
    requires AgreesOnAll(es, mid, gone) && Agrees(mid, after, name)
    ensures AgreesOnAll(es, after, gone + {name})
  {
  }

  function Gone(names: seq<string>): set<string> {
    set n | n in names
  }

  lemma GoneSnoc(init: seq<string>, last: string)
    ensures Gone(init + [last]) == Gone(init) + {last}
  {
  }

  /** The names that a deletion goes ahead with. */
  function Accepted(names: seq<string>, running: set<string>): seq<string> {
    if names == [] then []
    else
      var last := names[|names| - 1];
      Accepted(names[..|names| - 1], running) + (if ValidName(last) && last !in running then [last] else [])
  }

  /** The refused names are reported, each with its reason, and the others are listed as deleted. */
  ghost predicate Reports(names: seq<string>, running: set<string>, r: DeleteResult) {
    && r.deleted == Accepted(names, running)
    && (forall n :: n in r.errors <==> n in names && (!ValidName(n) || n in running))
    && (forall n :: n in r.errors ==> r.errors[n] == if ValidName(n) then StillRunning else InvalidName)
  }

  lemma ReportsOneMore(init: seq<string>, last: string, running: set<string>, was: DeleteResult, r: DeleteResult)
    requires Reports(init, running, was)
    requires r == if !ValidName(last) then was.(errors := was.errors[last := InvalidName])
                  else if last in running then was.(errors := was.errors[last := StillRunning])
                  else was.(deleted := was.deleted + [last])
    ensures Reports(init + [last], running, r)
  {
    AcceptedSnoc(init, last, running);
    assert was.deleted + [] == was.deleted;
  }

  lemma DeleteSnoc(es: Entries, init: seq<string>, last: string, running: set<string>, mid: Entries, was: DeleteResult)
    requires (mid, was) == Delete(es, init, running, NO_FAULTS)
    ensures Delete(es, init + [last], running, NO_FAULTS) == DeleteOne(mid, was, es.Keys, last, running, NO_FAULTS)
  {
    assert (init + [last])[..|init|] == init && (init + [last])[|init|] == last;
  }

  /**
   Deleting any list of names: those that are no plain names or whose session is running are refused with
   that reason and cost no session a byte; the rest are deleted, which takes exactly them off the report.
   */
  lemma {:induction false} DeletedAreGone(es: Entries, names: seq<string>, running: set<string>)
    requires forall n :: n in Accepted(names, running) ==> !Contains(n, INFIX)
    ensures var (after, r) := Delete(es, names, running, NO_FAULTS);
            Reports(names, running, r) && AgreesOnAll(es, after, Gone(r.deleted))
  {
    if names != [] {
      var init, last := names[..|names| - 1], names[|names| - 1];
      assert names == init + [last];
      AcceptedSnoc(init, last, running);
      DeletedAreGone(es, init, running);
      DeleteShrinks(es, init, running);
      var (mid, was) := Delete(es, init, running, NO_FAULTS);
      DeleteSnoc(es, init, last, running, mid, was);
      var (after, r) := DeleteOne(mid, was, es.Keys, last, running, NO_FAULTS);
      ReportsOneMore(init, last, running, was, r);
      if ValidName(last) && last !in running {
        RemovalAgrees(mid, es.Keys, last, NO_FAULTS);
        OneMoreGone(es, mid, after, Gone(was.deleted), last);
        GoneSnoc(was.deleted, last);
      }
    }
  }

  lemma AcceptedSnoc(init: seq<string>, last: string, running: set<string>)
    ensures Accepted(init + [last], running)
            == Accepted(init, running) + (if ValidName(last) && last !in running then [last] else [])
  {
    assert (init + [last])[..|init|] == init;
  }

  /** A deletion that fails part way is reported as such, and costs no other session a byte. */
  lemma FailureIsReported(es: Entries, name: string, running: set<string>, faults: map<string, nat>, q: string)
    requires ValidName(name) && !Contains(name, INFIX) && name !in running
    requires !Removable(es, Hits(es.Keys, name), faults)
    ensures var (after, r) := Delete(es, [name], running, faults);
            r == DeleteResult([], map[name := RemoveFailed]) && (q != name ==> SizeOf(after, q) == SizeOf(es, q))
  {
    assert [name][..0] == [];
    assert Delete(es, [], running, faults) == (es, DeleteResult([], map[]));
    if q != name { OthersKept(es, name, faults, Without(es, Hits(es.Keys, name), faults), q); }
  }

  lemma OthersKept(es: Entries, name: string, faults: map<string, nat>, after: Entries, q: string)
    requires ValidName(name) && !Contains(name, INFIX) && q != name && after == Without(es, Hits(es.Keys, name), faults)
    ensures SizeOf(after, q) == SizeOf(es, q)
  {
    forall n | n in es && Owner(n) == q ensures n !in Hits(es.Keys, name) {
      OwnsWhatItHits(n, name);
    }
    ShareKept(es, after, q);
  }

  /** For all directories, deletion of a valid name agrees with the report exactly when the name does not contain the infix. */
  lemma DeletionAgreesIff(name: string)
    requires ValidName(name)
    ensures (forall es: Entries :: Agrees(es, Without(es, Hits(es.Keys, name), NO_FAULTS), name)) <==> !Contains(name, INFIX)
  {
    if Contains(name, INFIX) {
      HitsAreOwnedIff(name);
      MatchChar(name, Index(name, INFIX), INFIX, 0);
      var es: Entries := map[name := Entry(true, 1)];
      assert Hit(name, name);
      var after := Without(es, Hits(es.Keys, name), NO_FAULTS);
      assert after == map[];
      BackupCounts(name);
      assert !Agrees(es, after, name);
    } else {
      forall es: Entries ensures Agrees(es, Without(es, Hits(es.Keys, name), NO_FAULTS), name) {
        RemovalAgrees(es, es.Keys, name, NO_FAULTS);
      }
    }
  }

  lemma BackupCounts(name: string)
    requires IsBackup(name)
    ensures Owner(name) != name
    ensures SizeOf(map[name := Entry(true, 1)], Owner(name)) == 1 && SizeOf(map[], Owner(name)) == 0
  {
    var es: Entries := map[name := Entry(true, 1)];
    assert OwnedBy(es, Owner(name)) == {name};
    SumPick({name}, es, name);
    assert {name} - {name} == {};
    assert OwnedBy(map[], Owner(name)) == {};
  }

  lemma LeftOwned(es: Entries, gone: set<string>, after: Entries, q: string)
    requires after == Without(es, gone, NO_FAULTS)
    ensures OwnedBy(after, q) == OwnedBy(es, q) - gone * OwnedBy(es, q)
  {
  }

  /**
   Deleting a backup by its own name, which is valid, takes what it removes off the backup's owner,
   and off no other session.
   */
  lemma BackupDeletionChargesOwner(es: Entries, name: string, q: string)
    requires IsBackup(name)
    ensures var after := Without(es, Hits(es.Keys, name), NO_FAULTS);
            && (q != Owner(name) ==> SizeOf(after, q) == SizeOf(es, q))
            && (q == Owner(name) ==>
                  SizeOf(es, q) == SizeOf(after, q) + Sum(Hits(es.Keys, name) * OwnedBy(es, q), es))
  {
    var gone := Hits(es.Keys, name);
    var after := Without(es, gone, NO_FAULTS);
    forall n | n in gone ensures Owner(n) == Owner(name) { BackupHitsOwner(n, name); }
    LeftOwned(es, gone, after, q);
    SumSplit(OwnedBy(es, q), gone * OwnedBy(es, q), es);
    SumSame(OwnedBy(after, q), es, after);
    if q != Owner(name) { assert gone * OwnedBy(es, q) == {}; }
  }

  // ---- Pruning ----

  ghost function Total(es: Entries): nat {
    Sum(es.Keys, es)
  }

  /** What failed removals deleted all the same. */
  function Losses(es: Entries, failing: set<string>, faults: map<string, nat>): Entries
    requires failing <= es.Keys && failing <= faults.Keys
  {
    map n | n in failing :: Entry(true, es[n].size - Shrunk(es[n], faults[n]).size)
  }

  lemma {:induction false} SumAdds(names: set<string>, es: Entries, fs: Entries, gs: Entries)
    requires names <= es.Keys && names <= fs.Keys && names <= gs.Keys
    requires forall n :: n in names ==> es[n].size == fs[n].size + gs[n].size
    ensures Sum(names, es) == Sum(names, fs) + Sum(names, gs)
    decreases names
  {
    if names != {} {
      var n :| n in names;
      SumPick(names, es, n);
      SumPick(names, fs, n);
      SumPick(names, gs, n);
      SumAdds(names - {n}, es, fs, gs);
    }
  }

  /** Bytes are conserved: what was there is still there, was freed, or went in a removal that failed part way. */
  lemma PruneConserves(es: Entries, running: set<string>, age: Age, faults: map<string, nat>, after: Entries, r: PruneResult)
    requires IsPrune(es, running, age, faults, after, r)
    ensures r.errors <= es.Keys && r.errors <= faults.Keys
    ensures Total(es) == Total(after) + r.freed + Sum(r.errors, Losses(es, r.errors, faults))
  {
    var removed, failing := Pruned(es, es.Keys, running, age, faults), r.errors;
    assert after.Keys == es.Keys - removed;
    SumSplit(es.Keys, removed, es);
    SumSplit(after.Keys, failing, es);
    SumSplit(after.Keys, failing, after);
    SumSame(after.Keys - failing, es, after);
    SumAdds(failing, es, after, Losses(es, failing, faults));
  }

  /** Only backups that qualify change: every other entry, and every running session's total, stays as it was. */
  lemma PruneSparesOthers(es: Entries, running: set<string>, age: Age, faults: map<string, nat>, after: Entries, r: PruneResult,
                          n: string, q: string)
    requires IsPrune(es, running, age, faults, after, r)
    ensures n in es && !Prunable(es, n, running, age) ==> n in after && after[n] == es[n]
    ensures n in es && n !in after ==> IsBackup(n) && es[n].dir && Owner(n) !in running && Owner(n) in r.pruned
    ensures q in running ==> SizeOf(after, q) == SizeOf(es, q)
  {
    if q in running {
      assert OwnedBy(after, q) == OwnedBy(es, q);
      SumSame(OwnedBy(es, q), es, after);
    }
    if n in es && n !in after { assert n in Pruned(es, es.Keys, running, age, faults); }
  }

  /** The two lists are sorted, free of duplicates, and share no session; a skipped session lost nothing. */
  lemma PrunedAndSkippedAreDisjoint(es: Entries, running: set<string>, age: Age, faults: map<string, nat>, after: Entries,
                                    r: PruneResult, q: string)
    requires IsPrune(es, running, age, faults, after, r)
    ensures Ascending(r.pruned) && Ascending(r.skipped) && !(q in r.pruned && q in r.skipped)
    ensures q in r.skipped ==> OwnedBy(after, q) == OwnedBy(es, q)
  {
    if q in r.skipped {
      forall n | n in OwnedBy(es, q) ensures n in after {
        NotPruned(es, running, age, faults, n);
      }
    }
  }

  lemma NotPruned(es: Entries, running: set<string>, age: Age, faults: map<string, nat>, n: string)
    requires n in es && Owner(n) !in PrunedOwners(es, es.Keys, running, age, faults)
    ensures n in Without(es, AllPrunable(es, running, age), faults)
  {
    assert n !in Pruned(es, es.Keys, running, age, faults);
  }

  /** What is left of a backup's name after its owner and the infix. */
  function Stamp(n: string): string
    requires IsBackup(n)
  {
    n[|Owner(n) + INFIX|..]
  }

  /** A backup qualifies: its session is not running, and it was made long enough ago, if that matters. */
  predicate Qualifies(es: Entries, n: string, running: set<string>, seconds: int, now: int, created: map<string, int>) {
    && n in es && es[n].dir && IsBackup(n) && Owner(n) !in running
    && (seconds > 0 ==> Stamp(n) in created && now - created[Stamp(n)] >= seconds * SECOND)
  }

  lemma {:induction false} PrunableIff(es: Entries, n: string, running: set<string>, seconds: int, now: int, created: map<string, int>)
    requires seconds <= 9_223_372_036
    ensures Prunable(es, n, running, Age(seconds, Cutoff(now, seconds), created))
            <==> Qualifies(es, n, running, seconds, now, created)
  {
    if seconds > 0 { CutoffExactIff(now, seconds); }
  }

  /**
   For age limits that fit, a prune removes exactly the backups that qualify and do not fail, reports
   exactly those that fail, and lists a session as pruned for a backup that went and as skipped for one
   that was spared when none went.
   */
  lemma PruneIsExact(es: Entries, running: set<string>, seconds: int, now: int, created: map<string, int>,
                     faults: map<string, nat>, after: Entries, r: PruneResult, n: string, q: string)
    requires seconds <= 9_223_372_036
    requires IsPrune(es, running, Age(seconds, Cutoff(now, seconds), created), faults, after, r)
    ensures n in es && n !in after <==> Qualifies(es, n, running, seconds, now, created) && n !in faults
    ensures n in r.errors <==> Qualifies(es, n, running, seconds, now, created) && n in faults
    ensures q in r.pruned <==> exists m :: m in es && m !in after && Owner(m) == q
    ensures q in r.skipped <==> q !in r.pruned && exists m :: m in es && es[m].dir && IsBackup(m) && Owner(m) == q
                                                    && !Qualifies(es, m, running, seconds, now, created)
  {
    var age := Age(seconds, Cutoff(now, seconds), created);
    PrunableIff(es, n, running, seconds, now, created);
    forall m ensures Prunable(es, m, running, age) <==> Qualifies(es, m, running, seconds, now, created) {
      PrunableIff(es, m, running, seconds, now, created);
    }
    assert forall m :: m in Pruned(es, es.Keys, running, age, faults) <==> m in es && m !in after;
    assert q in r.pruned <==> q in PrunedOwners(es, es.Keys, running, age, faults);
    assert q in r.skipped <==> q !in r.pruned && q in SparedOwners(es, es.Keys, running, age);
  }

  /** The age limit means what it says exactly while the seconds fit a 64-bit count of nanoseconds. */
  lemma CutoffExactIff(now: int, olderThanSeconds: nat)
    ensures Cutoff(now, olderThanSeconds) == now - olderThanSeconds * SECOND <==> olderThanSeconds <= 9_223_372_036
  {
    var x := olderThanSeconds * SECOND;
    if olderThanSeconds <= 9_223_372_036 {
      assert 0 <= x + WORD64 / 2 < WORD64;
    } else {
      assert x >= WORD64 / 2;
      assert Wrap64(x) < WORD64 / 2;
    }
  }
}
