/**
 Disk accounting over the sessions directory: sizes by owning session, deletion of sessions with
 their pre-stop backups, and pruning of old backups.
 */
module DiskMgmt {
  import opened LexicalPath
  import opened Options
  import opened Sorting
  import opened Strings

  const INFIX := ".pre-stop-"

  /** An entry of the sessions directory: whether it is a directory, and the bytes of the files in it. */
  datatype Entry = Entry(dir: bool, size: nat)

  type Entries = map<string, Entry>

  // ---- Owners ----

  /** The session an entry counts toward. */
  function Owner(name: string): string {
    var i := Index(name, INFIX);
    if i > 0 then name[..i] else name
  }

  predicate IsBackup(name: string) {
    Index(name, INFIX) > 0
  }

  /** The entries that deleting a session removes. */
  predicate Hit(entry: string, name: string) {
    entry == name || name + INFIX <= entry
  }

  predicate ValidName(name: string) {
    name != "" && name == Base(name) && !("." <= name)
  }

  /** The names accepted are the plain names of visible entries, and a slash. */
  lemma ValidNameIff(name: string)
    ensures ValidName(name) <==> name == "/" || (name != "" && '/' !in name && name[0] != '.')
  {
    if name != "" && name == Base(name) && name != "/" {
      assert forall c :: c in name ==> c != '/';
    }
    if name != "" && name[|name| - 1] != '/' { assert TrimSlashes(name) == name; }
    assert name == "/" ==> TrimSlashes(name) == "";
  }

  lemma DotOnlyFirst(s: string, i: nat, p: nat)
    requires MatchAt(s, i, INFIX) && i < p < i + |INFIX|
    ensures s[p] != INFIX[0]
  {
    MatchChar(s, i, INFIX, p - i);
  }

  /** The infix cannot overlap itself, so after a name without it the first infix is the one appended. */
  lemma FirstInfix(name: string, rest: string)
    requires !Contains(name, INFIX)
    ensures Index(name + INFIX + rest, INFIX) == |name|
  {
    var e := name + INFIX + rest;
    assert e[|name|..|name| + |INFIX|] == INFIX;
    assert MatchAt(e, |name|, INFIX);
    MatchChar(e, |name|, INFIX, 0);
    var i := Index(e, INFIX);
    if i < |name| {
      if i + |INFIX| <= |name| {
        assert e == name + (INFIX + rest);
        MatchInHead(name, INFIX + rest, i, INFIX);
      } else {
        DotOnlyFirst(e, i, |name|);
      }
    }
  }

  lemma OwnerHits(entry: string, name: string)
    requires Owner(entry) == name
    ensures Hit(entry, name)
  {
    var i := Index(entry, INFIX);
    if i > 0 { assert entry[..i + |INFIX|] == name + INFIX; }
  }

  lemma BackupOf(entry: string, name: string)
    requires name != "" && !Contains(name, INFIX) && name + INFIX <= entry
    ensures Owner(entry) == name
  {
    var rest := entry[|name + INFIX|..];
    assert entry == name + INFIX + rest;
    FirstInfix(name, rest);
  }

  /** Deletion goes by prefix and the report by first infix; they agree on every entry exactly for names without the infix. */
  lemma HitsAreOwnedIff(name: string)
    requires name != "" && !("." <= name)
    ensures (forall entry :: Hit(entry, name) <==> Owner(entry) == name) <==> !Contains(name, INFIX)
  {
    if Contains(name, INFIX) {
      MatchChar(name, Index(name, INFIX), INFIX, 0);
      assert Index(name, INFIX) != 0;
      assert Hit(name, name) && Owner(name) != name;
    } else {
      forall entry ensures Hit(entry, name) <==> Owner(entry) == name {
        if Owner(entry) == name { OwnerHits(entry, name); }
        if name + INFIX <= entry { BackupOf(entry, name); }
      }
    }
  }

  /** What a backup's name hits belongs to that backup's own owner. */
  lemma BackupHitsOwner(entry: string, name: string)
    requires IsBackup(name) && Hit(entry, name)
    ensures Owner(entry) == Owner(name)
  {
    if entry != name {
      var i := Index(name, INFIX);
      var rest := entry[|name|..];
      assert entry == name + rest;
      assert name[i..i + |INFIX|] == entry[i..i + |INFIX|];
      assert MatchAt(entry, i, INFIX);
      var k := Index(entry, INFIX);
      if k < i { MatchInHead(name, rest, k, INFIX); }
    }
  }

  // ---- Sums ----

  ghost function Sum(names: set<string>, es: Entries): nat
    requires names <= es.Keys
  {
    if names == {} then 0 else var n :| n in names; es[n].size + Sum(names - {n}, es)
  }

  lemma {:induction false} SumPick(names: set<string>, es: Entries, n: string)
    requires names <= es.Keys && n in names
    ensures Sum(names, es) == es[n].size + Sum(names - {n}, es)
    decreases names
  {
    var first :| first in names && Sum(names, es) == es[first].size + Sum(names - {first}, es);
    if first != n {
      SumPick(names - {first}, es, n);
      SumPick(names - {n}, es, first);
      assert names - {first} - {n} == names - {n} - {first};
    }
  }

  lemma {:induction false} SumSame(names: set<string>, es: Entries, fs: Entries)
    requires names <= es.Keys && names <= fs.Keys && forall n :: n in names ==> es[n].size == fs[n].size
    ensures Sum(names, es) == Sum(names, fs)
    decreases names
  {
    if names != {} {
      var n :| n in names;
      SumPick(names, es, n);
      SumPick(names, fs, n);
      SumSame(names - {n}, es, fs);
    }
  }

  lemma {:induction false} SumSplit(names: set<string>, part: set<string>, es: Entries)
    requires names <= es.Keys && part <= names
    ensures Sum(names, es) == Sum(part, es) + Sum(names - part, es)
    decreases part
  {
    if part == {} {
      assert names - part == names;
    } else {
      var n :| n in part;
      SumPick(names, es, n);
      SumPick(part, es, n);
      SumSplit(names - {n}, part - {n}, es);
      assert names - {n} - (part - {n}) == names - part;
    }
  }

  // ---- The report ----

  ghost function OwnedBy(es: Entries, owner: string): set<string> {
    set n | n in es && es[n].dir && Owner(n) == owner
  }

  /** The sessions a report lists. */
  ghost function Owners(es: Entries): set<string> {
    set n | n in es && es[n].dir :: Owner(n)
  }

  ghost function SizeOf(es: Entries, owner: string): nat {
    Sum(OwnedBy(es, owner), es)
  }

  datatype SessionSize = SessionSize(name: string, size: nat)

  /** A report: each session once, by name, with the total of its directory and its backups. */
  ghost predicate IsReport(es: Entries, report: seq<SessionSize>) {
    && |report| == |InOrder(Owners(es))|
    && forall i :: 0 <= i < |report| ==> report[i] == SessionSize(InOrder(Owners(es))[i], SizeOf(es, InOrder(Owners(es))[i]))
  }

  /** The part of the directory read so far. */
  ghost function Read(es: Entries, left: set<string>): Entries {
    es - left
  }

  lemma ReadOne(es: Entries, left: set<string>, n: string)
    requires left <= es.Keys && n in left
    ensures var was, now := Read(es, left), Read(es, left - {n});
            && (!es[n].dir ==> forall o :: OwnedBy(now, o) == OwnedBy(was, o))
            && (es[n].dir ==> OwnedBy(now, Owner(n)) == OwnedBy(was, Owner(n)) + {n} && n !in OwnedBy(was, Owner(n)))
            && (es[n].dir ==> forall o :: o != Owner(n) ==> OwnedBy(now, o) == OwnedBy(was, o))
  {
  }

  lemma SizeAfterOne(es: Entries, left: set<string>, n: string, o: string)
    requires left <= es.Keys && n in left
    ensures SizeOf(Read(es, left - {n}), o)
            == SizeOf(Read(es, left), o) + (if es[n].dir && Owner(n) == o then es[n].size else 0)
  {
    var was, now := Read(es, left), Read(es, left - {n});
    ReadOne(es, left, n);
    if es[n].dir && Owner(n) == o {
      SumPick(OwnedBy(now, o), now, n);
      assert OwnedBy(now, o) - {n} == OwnedBy(was, o);
    }
    SumSame(OwnedBy(was, o), was, now);
  }

  lemma OwnersAfterOne(es: Entries, left: set<string>, n: string)
    requires left <= es.Keys && n in left
    ensures Owners(Read(es, left - {n})) == Owners(Read(es, left)) + (if es[n].dir then {Owner(n)} else {})
  {
    var was, now := Read(es, left), Read(es, left - {n});
    forall o ensures o in Owners(now) <==> o in Owners(was) || (es[n].dir && o == Owner(n)) {
      if o in Owners(was) { var m :| m in was && was[m].dir && Owner(m) == o; assert m in now; }
      if es[n].dir { assert n in now; }
    }
  }

  lemma NothingYet(es: Entries, o: string)
    requires o !in Owners(es)
    ensures SizeOf(es, o) == 0
  {
    assert forall n :: n in es && es[n].dir ==> Owner(n) in Owners(es);
    assert OwnedBy(es, o) == {};
  }

  /** The sizes found so far. */
  ghost predicate Tallied(es: Entries, left: set<string>, sizes: map<string, nat>) {
    && left <= es.Keys && sizes.Keys == Owners(Read(es, left))
    && forall o :: o in sizes ==> sizes[o] == SizeOf(Read(es, left), o)
  }

  function Had(sizes: map<string, nat>, o: string): nat {
    if o in sizes then sizes[o] else 0
  }

  lemma HadIs(es: Entries, left: set<string>, sizes: map<string, nat>, o: string)
    requires Tallied(es, left, sizes)
    ensures Had(sizes, o) == SizeOf(Read(es, left), o)
  {
    if o !in sizes { NothingYet(Read(es, left), o); }
  }

  function Add(sizes: map<string, nat>, o: string, size: nat): map<string, nat> {
    sizes[o := Had(sizes, o) + size]
  }

  lemma TallyOne(es: Entries, left: set<string>, sizes: map<string, nat>, n: string)
    requires Tallied(es, left, sizes) && n in left
    ensures Tallied(es, left - {n}, if es[n].dir then Add(sizes, Owner(n), es[n].size) else sizes)
  {
    var sizes1 := if es[n].dir then Add(sizes, Owner(n), es[n].size) else sizes;
    OwnersAfterOne(es, left, n);
    forall o | o in sizes1 ensures sizes1[o] == SizeOf(Read(es, left - {n}), o) {
      HadIs(es, left, sizes, o);
      SizeAfterOne(es, left, n, o);
    }
  }

  // ---- Removal ----

  /** What a failed removal leaves of an entry. */
  function Shrunk(e: Entry, rest: nat): Entry {
    e.(size := if rest < e.size then rest else e.size)
  }

  /** `os.RemoveAll` of one entry; `faults` holds the entries it fails on, and how much it leaves of them. */
  function RemoveAll(es: Entries, n: string, faults: map<string, nat>): Entries {
    if n !in es then es
    else if n in faults then es[n := Shrunk(es[n], faults[n])]
    else es - {n}
  }

  /** The entries once all of `gone` have been removed. */
  function Without(es: Entries, gone: set<string>, faults: map<string, nat>): Entries {
    map n | n in es && (n !in gone || n in faults) :: if n in gone then Shrunk(es[n], faults[n]) else es[n]
  }

  lemma WithoutOneMore(es: Entries, gone: set<string>, faults: map<string, nat>, n: string)
    requires n !in gone
    ensures RemoveAll(Without(es, gone, faults), n, faults) == Without(es, gone + {n}, faults)
  {
  }

  lemma WithoutNothing(es: Entries, faults: map<string, nat>)
    ensures Without(es, {}, faults) == es
  {
  }

  // ---- Deletion ----

  datatype DeleteError = InvalidName | StillRunning | RemoveFailed

  datatype DeleteResult = DeleteResult(deleted: seq<string>, errors: map<string, DeleteError>)

  /** The listed entries that deleting the session removes. */
  function Hits(listing: set<string>, name: string): set<string> {
    set n | n in listing && Hit(n, name)
  }

  predicate Removable(es: Entries, gone: set<string>, faults: map<string, nat>) {
    forall n :: n in es && n in gone ==> n !in faults
  }

  /** One name of a deletion; `listing` is the directory as it was read at the start. */
  function DeleteOne(es: Entries, r: DeleteResult, listing: set<string>, name: string, running: set<string>,
                     faults: map<string, nat>): (Entries, DeleteResult)
  {
    if !ValidName(name) then (es, r.(errors := r.errors[name := InvalidName]))
    else if name in running then (es, r.(errors := r.errors[name := StillRunning]))
    else
      var gone := Hits(listing, name);
      (Without(es, gone, faults),
       if Removable(es, gone, faults) then r.(deleted := r.deleted + [name])
       else r.(errors := r.errors[name := RemoveFailed]))
  }

  function Delete(es: Entries, names: seq<string>, running: set<string>, faults: map<string, nat>): (Entries, DeleteResult)
  {
    if names == [] then (es, DeleteResult([], map[]))
    else
      var before := Delete(es, names[..|names| - 1], running, faults);
      DeleteOne(before.0, before.1, es.Keys, names[|names| - 1], running, faults)
  }

  // ---- Pruning ----

  const WORD64: int := 0x1_0000_0000_0000_0000

  /** A 64-bit product as Go computes it. */
  function Wrap64(x: int): int {
    (x + WORD64 / 2) % WORD64 - WORD64 / 2
  }

  const SECOND: int := 1_000_000_000

  /** The latest creation time, in nanoseconds, at which a backup is old enough. */
  function Cutoff(now: int, olderThanSeconds: int): int {
    now - Wrap64(olderThanSeconds * SECOND)
  }

  /** The age rule of one call; `created` holds the timestamps that parse. */
  datatype Age = Age(olderThanSeconds: int, cutoff: int, created: map<string, int>)

  predicate OldEnough(n: string, age: Age)
    requires IsBackup(n)
  {
    var stamp := n[Index(n, INFIX) + |INFIX|..];
    age.olderThanSeconds <= 0 || (stamp in age.created && age.created[stamp] <= age.cutoff)
  }

  /** A backup directory whose session is not running and which is old enough. */
  predicate Prunable(es: Entries, n: string, running: set<string>, age: Age) {
    n in es && es[n].dir && IsBackup(n) && Owner(n) !in running && OldEnough(n, age)
  }

  predicate Spared(es: Entries, n: string, running: set<string>, age: Age) {
    n in es && es[n].dir && IsBackup(n) && !Prunable(es, n, running, age)
  }

  datatype PruneResult = PruneResult(pruned: seq<string>, skipped: seq<string>, freed: nat, errors: set<string>)

  function AllPrunable(es: Entries, running: set<string>, age: Age): set<string> {
    set n | n in es && Prunable(es, n, running, age)
  }

  /** The backups that go, and the owners whose backups went or were spared. */
  function Pruned(es: Entries, seen: set<string>, running: set<string>, age: Age, faults: map<string, nat>): set<string> {
    set n | n in es && n in seen && Prunable(es, n, running, age) && n !in faults
  }

  ghost function PrunedOwners(es: Entries, seen: set<string>, running: set<string>, age: Age, faults: map<string, nat>): set<string> {
    set n | n in Pruned(es, seen, running, age, faults) :: Owner(n)
  }

  ghost function SparedOwners(es: Entries, seen: set<string>, running: set<string>, age: Age): set<string> {
    set n | n in es && n in seen && Spared(es, n, running, age) :: Owner(n)
  }

  /** What a prune that goes ahead leaves and reports. */
  ghost predicate IsPrune(es: Entries, running: set<string>, age: Age, faults: map<string, nat>, after: Entries, r: PruneResult) {
    var pruned, spared := PrunedOwners(es, es.Keys, running, age, faults), SparedOwners(es, es.Keys, running, age);
    && after == Without(es, AllPrunable(es, running, age), faults)
    && r.pruned == InOrder(pruned) && r.skipped == InOrder(spared - pruned)
    && r.freed == Sum(Pruned(es, es.Keys, running, age, faults), es)
    && r.errors == AllPrunable(es, running, age) * faults.Keys
  }

  class SessionsRoot {
    var entries: Entries

    constructor (entries: Entries)
      ensures this.entries == entries
    {
      this.entries := entries;
    }

    /** The loop of `GetSessionsDiskInfo` over the entries, and the sorted listing it ends in. */
    method GetSessionsDiskInfo() returns (report: seq<SessionSize>)
      ensures IsReport(entries, report)
    {
      var sizes: map<string, nat> := map[];
      var names: seq<string> := [];
      var left := entries.Keys;
      assert Read(entries, left) == map[];
      while left != {}
        invariant Tallied(entries, left, sizes)
        invariant forall o :: o in names <==> o in sizes
        invariant forall i, j :: 0 <= i < j < |names| ==> names[i] != names[j]
        decreases left
      {
        var name :| name in left;
        TallyOne(entries, left, sizes, name);
        left := left - {name};
        if entries[name].dir {
          var owner := name;
          var i := Index(name, INFIX);
          if i > 0 {
            owner := name[..i];
          }
          if owner !in sizes {
            names := names + [owner];
          }
          assert owner == Owner(name);
          sizes := Add(sizes, owner, entries[name].size);
        }
      }
      assert Read(entries, {}) == entries;
      names := SortStrings(names);
      InOrderIs(Owners(entries), names);
      report := seq(|names|, i requires 0 <= i < |names| && names[i] in sizes => SessionSize(names[i], sizes[names[i]]));
    }

    method DeleteSessionDirs(names: seq<string>, running: set<string>, faults: map<string, nat>) returns (r: DeleteResult)
      modifies this`entries
      ensures (entries, r) == Delete(old(entries), names, running, faults)
    {
      r := DeleteResult([], map[]);
      var listing := entries.Keys;
      ghost var es := entries;
      for k := 0 to |names|
        invariant (entries, r) == Delete(es, names[..k], running, faults)
      {
        var name := names[k];
        assert names[..k + 1][..k] == names[..k];
        if name == "" || name != Base(name) || "." <= name {
          r := r.(errors := r.errors[name := InvalidName]);
          continue;
        }
        if name in running {
          r := r.(errors := r.errors[name := StillRunning]);
          continue;
        }
        var failed := RemoveHits(listing, name, faults);
        if failed {
          r := r.(errors := r.errors[name := RemoveFailed]);
        } else {
          r := r.(deleted := r.deleted + [name]);
        }
      }
      assert names[..|names|] == names;
    }

    /** The inner loop of the deletion. */
    method RemoveHits(listing: set<string>, name: string, faults: map<string, nat>) returns (failed: bool)
      modifies this`entries
      ensures entries == Without(old(entries), Hits(listing, name), faults)
      ensures failed == !Removable(old(entries), Hits(listing, name), faults)
    {
      ghost var es := entries;
      failed := false;
      var left := listing;
      WithoutNothing(es, faults);
      assert Hits(listing - left, name) == {};
      while left != {}
        invariant left <= listing
        invariant entries == Without(es, Hits(listing - left, name), faults)
        invariant failed == !Removable(es, Hits(listing - left, name), faults)
        decreases left
      {
        var en :| en in left;
        ghost var gone := Hits(listing - left, name);
        left := left - {en};
        if en == name || name + INFIX <= en {
          assert Hits(listing - left, name) == gone + {en};
          WithoutOneMore(es, gone, faults, en);
          failed := failed || (en in entries && en in faults);
          entries := RemoveAll(entries, en, faults);
        } else {
          assert Hits(listing - left, name) == gone;
        }
      }
      assert listing - {} == listing;
    }

    /**
     `PruneSessionCaches`; `free` is what the file system reports free, if it was asked, and a negative
     or zero age means that every backup is old enough.
     */
    method PruneSessionCaches(onlyIfFreeBytesBelow: int, free: int, includeSessionTmp: bool, olderThanSeconds: int,
                              now: int, created: map<string, int>, running: set<string>, faults: map<string, nat>)
      returns (r: PruneResult)
      modifies this`entries
      ensures !includeSessionTmp || (onlyIfFreeBytesBelow > 0 && free >= onlyIfFreeBytesBelow) ==>
                r == PruneResult([], [], 0, {}) && entries == old(entries)
      ensures includeSessionTmp && !(onlyIfFreeBytesBelow > 0 && free >= onlyIfFreeBytesBelow) ==>
                IsPrune(old(entries), running, Age(olderThanSeconds, Cutoff(now, olderThanSeconds), created), faults, entries, r)
    {
      if !includeSessionTmp { return PruneResult([], [], 0, {}); }
      if onlyIfFreeBytesBelow > 0 {
        if free >= onlyIfFreeBytesBelow { return PruneResult([], [], 0, {}); }
      }
      var age := Age(olderThanSeconds, Cutoff(now, olderThanSeconds), created);
      ghost var es := entries;
      var pruned, skipped, freed, errors := PruneEntries(running, age, faults);
      SweepEnd(es, running, age, faults, Sweep(entries, pruned, skipped, freed, errors));
      var prunedSessions := ListSet(pruned);
      var skippedSessions := ListSet(skipped - pruned);
      r := PruneResult(prunedSessions, skippedSessions, freed, errors);
    }

    /** The loop over the entries. */
    method PruneEntries(running: set<string>, age: Age, faults: map<string, nat>)
      returns (pruned: set<string>, skipped: set<string>, freed: nat, errors: set<string>)
      modifies this`entries
      ensures Swept(old(entries), {}, running, age, faults, Sweep(entries, pruned, skipped, freed, errors))
    {
      ghost var es := entries;
      var left := entries.Keys;
      pruned, skipped, freed, errors := {}, {}, 0, {};
      SweepStart(es, running, age, faults);
      while left != {}
        invariant left <= es.Keys
        invariant Swept(es, left, running, age, faults, Sweep(entries, pruned, skipped, freed, errors))
        decreases left
      {
        var name :| name in left;
        SweepOne(es, left, name, running, age, faults, Sweep(entries, pruned, skipped, freed, errors));
        left := left - {name};
        pruned, skipped, freed, errors := PruneEntry(es, name, running, age, faults, pruned, skipped, freed, errors);
      }
    }

    /** One turn of that loop. */
    method PruneEntry(ghost es: Entries, name: string, running: set<string>, age: Age, faults: map<string, nat>,
                      pruned0: set<string>, skipped0: set<string>, freed0: nat, errors0: set<string>)
      returns (pruned: set<string>, skipped: set<string>, freed: nat, errors: set<string>)
      requires name in entries && name in es && entries[name] == es[name]
      modifies this`entries
      ensures Sweep(entries, pruned, skipped, freed, errors)
              == SweepStep(es, name, running, age, faults, Sweep(old(entries), pruned0, skipped0, freed0, errors0))
    {
      pruned, skipped, freed, errors := pruned0, skipped0, freed0, errors0;
      var i := Index(name, INFIX);
      if !entries[name].dir || i <= 0 { return; }
      var owner := name[..i];
      if owner in running {
        skipped := skipped + {owner};
        return;
      }
      if age.olderThanSeconds > 0 {
        var stamp := name[i + |INFIX|..];
        if stamp !in age.created || age.created[stamp] > age.cutoff {
          skipped := skipped + {owner};
          return;
        }
      }
      var size := entries[name].size;
      entries := RemoveAll(entries, name, faults);
      if name in faults {
        errors := errors + {name};
        return;
      }
      freed := freed + size;
      pruned := pruned + {owner};
    }
  }

  /** The names of a set, sorted. */
  method ListSet(names: set<string>) returns (sorted: seq<string>)
    ensures sorted == InOrder(names)
  {
    var list := [];
    var left := names;
    while left != {}
      invariant left <= names
      invariant forall k :: k in list <==> k in names - left
      invariant forall i, j :: 0 <= i < j < |list| ==> list[i] != list[j]
      decreases left
    {
      var n :| n in left;
      assert n !in list;
      left := left - {n};
      list := list + [n];
    }
    sorted := SortStrings(list);
    InOrderIs(names, sorted);
  }

  lemma StepWithout(es: Entries, all: set<string>, left: set<string>, n: string, faults: map<string, nat>)
    requires left <= es.Keys && n in left
    ensures n in Without(es, all - left, faults) && Without(es, all - left, faults)[n] == es[n]
    ensures Without(es, all - (left - {n}), faults)
            == (if n in all then RemoveAll(Without(es, all - left, faults), n, faults) else Without(es, all - left, faults))
  {
    if n in all {
      assert all - (left - {n}) == (all - left) + {n};
      WithoutOneMore(es, all - left, faults, n);
    } else {
      assert all - (left - {n}) == all - left;
    }
  }

  lemma StepOwners(es: Entries, done: set<string>, n: string, running: set<string>, age: Age, faults: map<string, nat>)
    requires n in es
    ensures PrunedOwners(es, done + {n}, running, age, faults)
            == PrunedOwners(es, done, running, age, faults)
               + (if Prunable(es, n, running, age) && n !in faults then {Owner(n)} else {})
    ensures SparedOwners(es, done + {n}, running, age)
            == SparedOwners(es, done, running, age) + (if Spared(es, n, running, age) then {Owner(n)} else {})
  {
    var was, now := PrunedOwners(es, done, running, age, faults), PrunedOwners(es, done + {n}, running, age, faults);
    forall o | o in was ensures o in now {
      var m :| m in Pruned(es, done, running, age, faults) && Owner(m) == o;
      assert m in Pruned(es, done + {n}, running, age, faults);
    }
    if Prunable(es, n, running, age) && n !in faults { assert n in Pruned(es, done + {n}, running, age, faults); }
    var swas, snow := SparedOwners(es, done, running, age), SparedOwners(es, done + {n}, running, age);
    forall o | o in swas ensures o in snow {
      var m :| m in es && m in done && Spared(es, m, running, age) && Owner(m) == o;
      assert m in done + {n};
    }
    if Spared(es, n, running, age) { assert n in done + {n}; }
  }

  lemma StepSum(es: Entries, done: set<string>, n: string, running: set<string>, age: Age, faults: map<string, nat>)
    requires n in es && n !in done
    ensures Sum(Pruned(es, done + {n}, running, age, faults), es)
            == Sum(Pruned(es, done, running, age, faults), es)
               + (if Prunable(es, n, running, age) && n !in faults then es[n].size else 0)
  {
    var was, now := Pruned(es, done, running, age, faults), Pruned(es, done + {n}, running, age, faults);
    if Prunable(es, n, running, age) && n !in faults {
      SumPick(now, es, n);
      assert now - {n} == was;
    } else {
      assert now == was;
    }
  }

  /** The loop's variables part way. */
  datatype Sweep = Sweep(entries: Entries, pruned: set<string>, skipped: set<string>, freed: nat, errors: set<string>)

  /** What they are once all but `left` have been looked at. */
  ghost predicate Swept(es: Entries, left: set<string>, running: set<string>, age: Age, faults: map<string, nat>, w: Sweep) {
    var all, done := AllPrunable(es, running, age), es.Keys - left;
    && w.entries == Without(es, all - left, faults)
    && w.pruned == PrunedOwners(es, done, running, age, faults)
    && w.skipped == SparedOwners(es, done, running, age)
    && w.freed == Sum(Pruned(es, done, running, age, faults), es)
    && w.errors == all * faults.Keys - left
  }

  function SweepStep(es: Entries, n: string, running: set<string>, age: Age, faults: map<string, nat>, w: Sweep): Sweep
    requires n in es
  {
    if Prunable(es, n, running, age) then
      var t := w.(entries := RemoveAll(w.entries, n, faults));
      if n in faults then t.(errors := w.errors + {n})
      else t.(pruned := w.pruned + {Owner(n)}, freed := w.freed + es[n].size)
    else if Spared(es, n, running, age) then w.(skipped := w.skipped + {Owner(n)})
    else w
  }

  lemma SweepStart(es: Entries, running: set<string>, age: Age, faults: map<string, nat>)
    ensures Swept(es, es.Keys, running, age, faults, Sweep(es, {}, {}, 0, {}))
  {
    WithoutNothing(es, faults);
    assert AllPrunable(es, running, age) - es.Keys == {} && es.Keys - es.Keys == {};
    assert Pruned(es, {}, running, age, faults) == {};
  }

  lemma StepErrors(all: set<string>, failing: set<string>, left: set<string>, n: string)
    requires n in left
    ensures all * failing - (left - {n}) == (all * failing - left) + (if n in all && n in failing then {n} else {})
  {
  }

  lemma SweepOne(es: Entries, left: set<string>, n: string, running: set<string>, age: Age, faults: map<string, nat>, w: Sweep)
    requires left <= es.Keys && n in left && Swept(es, left, running, age, faults, w)
    ensures Swept(es, left - {n}, running, age, faults, SweepStep(es, n, running, age, faults, w))
    ensures n in w.entries && w.entries[n] == es[n]
  {
    var all, done := AllPrunable(es, running, age), es.Keys - left;
    assert es.Keys - (left - {n}) == done + {n};
    StepWithout(es, all, left, n, faults);
    StepOwners(es, done, n, running, age, faults);
    StepSum(es, done, n, running, age, faults);
    StepErrors(all, faults.Keys, left, n);
  }

  lemma SweepEnd(es: Entries, running: set<string>, age: Age, faults: map<string, nat>, w: Sweep)
    requires Swept(es, {}, running, age, faults, w)
    ensures w.entries == Without(es, AllPrunable(es, running, age), faults)
    ensures w.pruned == PrunedOwners(es, es.Keys, running, age, faults)
    ensures w.skipped == SparedOwners(es, es.Keys, running, age)
    ensures w.freed == Sum(Pruned(es, es.Keys, running, age, faults), es)
    ensures w.errors == AllPrunable(es, running, age) * faults.Keys
  {
    assert es.Keys - {} == es.Keys && AllPrunable(es, running, age) - {} == AllPrunable(es, running, age);
  }
}
