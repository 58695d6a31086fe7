/**
 The working directory of a spawn and its effect on transcripts: the native backend's choice, the
 KVM backend's migration, and any sequence of both.
 */
module SpawnCwd {
  import opened MountPaths
  import opened Options
  import opened Transcript
  import opened Workspace

  const CONFIG_VAR := "CLAUDE_CONFIG_DIR"
  const CONFIG_MOUNT := ".claude"

  /** The CLI's config dir on the host; empty when there is none. */
  function ConfigDir(host: Host, env: map<string, string>, mounts: map<string, MountSpec>): string {
    if CONFIG_MOUNT in mounts && mounts[CONFIG_MOUNT].path != "" then
      ResolveSubpath(host.links, host.home, mounts[CONFIG_MOUNT].path)
    else if CONFIG_VAR in env then env[CONFIG_VAR]
    else ""
  }

  /** The first directory whose slug is among those. */
  function FirstHolding(cwds: seq<string>, dirs: seq<string>): Option<string> {
    if cwds == [] then None
    else if Slug(cwds[0]) != "" && Slug(cwds[0]) in dirs then Some(cwds[0])
    else FirstHolding(cwds[1..], dirs)
  }

  lemma HasFirst(host: Host, raw: string, eligible: seq<WsMount>)
    requires eligible != []
    ensures Candidates(host, raw, eligible) != []
  {
    CandidatesAreEligible(host, raw, eligible);
    assert HostPaths(eligible)[0] in Candidates(host, raw, eligible);
  }

  /** The choice among the candidates for the session `id`, when its config dir is `cfg`. */
  ghost function Resume(st: Store, cands: seq<string>, currentCwd: string, cfg: string, id: string, works: bool): (string, Store)
    requires cands != []
  {
    var dirs := Found(st, cfg, id);
    var held := FirstHolding(cands + [currentCwd], dirs);
    if held.Some? then (held.value, st)
    else if dirs != [] && Slug(cands[0]) != "" then (cands[0], CopyIn(st, cfg, dirs[0], Slug(cands[0]), id, works).1)
    else (cands[0], st)
  }

  ghost function Choose(host: Host, st: Store, eligible: seq<WsMount>, currentCwd: string, args: seq<string>,
                        env: map<string, string>, mounts: map<string, MountSpec>, works: bool): (string, Store)
  {
    if eligible == [] then (currentCwd, st)
    else
      HasFirst(host, HintVar(env), eligible);
      var cands := Candidates(host, HintVar(env), eligible);
      var id, cfg := ResumeID(args), ConfigDir(host, env, mounts);
      if id == "" || cfg == "" then (cands[0], st) else Resume(st, cands, currentCwd, cfg, id, works)
  }

  /** The loop over the candidates and the current directory. */
  method FindHolding(cwds: seq<string>, dirs: seq<string>) returns (held: Option<string>)
    ensures held == FirstHolding(cwds, dirs)
  {
    var dirSet := set d | d in dirs;
    for i := 0 to |cwds|
      invariant FirstHolding(cwds, dirs) == FirstHolding(cwds[i..], dirs)
    {
      var s := Slugify(cwds[i]);
      assert cwds[i..][1..] == cwds[i + 1..];
      if s != "" && s in dirSet { return Some(cwds[i]); }
    }
    held := None;
  }

  /** `chooseSpawnCwd`; `works` says whether the file system lets a copy succeed. */
  method ChooseSpawnCwd(disk: Disk, host: Host, currentCwd: string, args: seq<string>, env: map<string, string>,
                        mounts: map<string, MountSpec>, works: bool)
    returns (cwd: string, ghost eligible: seq<WsMount>)
    modifies disk`files
    ensures IsEligible(host, mounts, eligible)
    ensures (cwd, disk.Now()) == Choose(host, old(disk.Now()), eligible, currentCwd, args, env, mounts, works)
  {
    var ms := EligibleWorkspaceMounts(host, mounts);
    eligible := ms;
    if ms == [] { return currentCwd, ms; }
    var candidates := OrderedCwdCandidates(host, env, ms);
    HasFirst(host, HintVar(env), ms);
    var id := ExtractResumeID(args);
    if id != "" {
      var cfg := ConfigDir(host, env, mounts);
      if cfg != "" {
        var dirs := disk.FindTranscript(cfg, id);
        var held := FindHolding(candidates + [currentCwd], dirs);
        if held.Some? { return held.value, ms; }
        if dirs != [] {
          var chosen := candidates[0];
          var s := Slugify(chosen);
          if s != "" {
            var r := disk.CopyTranscript(cfg, dirs[0], s, id, works);
          }
          return chosen, ms;
        }
      }
    }
    cwd := candidates[0];
  }

  // ---- The KVM backend ----

  ghost function MigrateTo(st: Store, cfg: string, want: string, id: string, works: bool): Store {
    var dirs := Found(st, cfg, id);
    if dirs == [] || want in dirs then st else CopyIn(st, cfg, dirs[0], want, id, works).1
  }

  ghost function Migrated(host: Host, st: Store, args: seq<string>, cwd: string, mounts: map<string, MountSpec>, works: bool)
    : Store
  {
    var id := ResumeID(args);
    if id == "" || CONFIG_MOUNT !in mounts || mounts[CONFIG_MOUNT].path == "" then st
    else
      var cfg := HostAbsFromShared(host.links, mounts[CONFIG_MOUNT].path, host.home);
      if cfg.Err? || Slug(cwd) == "" then st
      else MigrateTo(st, cfg.path, Slug(cwd), id, works)
  }

  method MigrateTranscriptForResume(disk: Disk, host: Host, args: seq<string>, cwd: string,
                                    mounts: map<string, MountSpec>, works: bool)
    modifies disk`files
    ensures disk.Now() == Migrated(host, old(disk.Now()), args, cwd, mounts, works)
  {
    var id := ExtractResumeID(args);
    if id == "" { return; }
    if CONFIG_MOUNT !in mounts || mounts[CONFIG_MOUNT].path == "" { return; }
    var cfg := HostAbsFromShared(host.links, mounts[CONFIG_MOUNT].path, host.home);
    if cfg.Err? { return; }
    var want := Slugify(cwd);
    if want == "" { return; }
    var dirs := disk.FindTranscript(cfg.path, id);
    if |dirs| == 0 { return; }
    for i := 0 to |dirs|
      invariant forall j :: 0 <= j < i ==> dirs[j] != want
    {
      if dirs[i] == want { return; }
    }
    var r := disk.CopyTranscript(cfg.path, dirs[0], want, id, works);
  }

  // ---- Resume is a fixed point ----

  lemma {:induction false} FirstHoldingIs(cwds: seq<string>, dirs: seq<string>)
    ensures var h := FirstHolding(cwds, dirs);
            && (h.Some? ==> h.value in cwds && Slug(h.value) != "" && Slug(h.value) in dirs)
            && (h.None? ==> forall c :: c in cwds ==> Slug(c) == "" || Slug(c) !in dirs)
  {
    if cwds != [] {
      FirstHoldingIs(cwds[1..], dirs);
      assert forall c :: c in cwds ==> c == cwds[0] || c in cwds[1..];
    }
  }

  /** After a copy the target is found along with the rest, unless its directory is a link. */
  lemma FoundAfterCopy(st: Store, cfg: string, from: string, to: string, id: string, works: bool)
    requires cfg != "" && ValidId(id)
    ensures var (r, st1) := CopyIn(st, cfg, from, to, id, works);
            && (r.Copied? && (cfg, to) !in st.linked ==> to in Found(st1, cfg, id))
            && (r.Copied? && (cfg, to) in st.linked ==> Found(st1, cfg, id) == Found(st, cfg, id))
            && (!r.Copied? ==> st1 == st)
  {
    var (r, st1) := CopyIn(st, cfg, from, to, id, works);
    if r.Copied? {
      if (cfg, to) !in st.linked {
        assert Key(cfg, to, id).slug in Holders(st1, cfg, id);
      } else {
        forall d ensures d in Holders(st1, cfg, id) <==> d in Holders(st, cfg, id) {
          if d in Holders(st, cfg, id) { assert Key(cfg, d, id).slug in Holders(st1, cfg, id); }
          if d in Holders(st1, cfg, id) { assert Key(cfg, d, id).slug in Holders(st, cfg, id); }
        }
        assert Holders(st1, cfg, id) == Holders(st, cfg, id);
      }
    }
  }

  lemma SourceIsThere(st: Store, cfg: string, id: string)
    requires Found(st, cfg, id) != []
    ensures cfg != "" && ValidId(id)
    ensures forall d :: d in Found(st, cfg, id) ==> Key(cfg, d, id) in st.files
  {
    forall d | d in Found(st, cfg, id) ensures Key(cfg, d, id) in st.files {
      assert d in Holders(st, cfg, id);
    }
  }

  lemma ResumeAgain(st: Store, cands: seq<string>, currentCwd: string, cfg: string, id: string, works: bool, again: bool)
    requires cands != []
    ensures var (cwd, st1) := Resume(st, cands, currentCwd, cfg, id, works);
            var (cwd2, st2) := Resume(st1, cands, currentCwd, cfg, id, again);
            cwd2 == cwd && (works ==> st2 == st1)
  {
    var dirs := Found(st, cfg, id);
    var all := cands + [currentCwd];
    if FirstHolding(all, dirs).None? && dirs != [] && Slug(cands[0]) != "" {
      SourceIsThere(st, cfg, id);
      assert dirs[0] in dirs;
      FoundAfterCopy(st, cfg, dirs[0], Slug(cands[0]), id, works);
      FirstHoldingIs(all, dirs);
    }
  }

  /**
   A repeated spawn picks the same directory, whether or not the file system let the first copy
   through; when it did, the second spawn leaves the store alone.
   */
  lemma RepeatedSpawnIsStable(host: Host, st: Store, eligible: seq<WsMount>, currentCwd: string, args: seq<string>,
                              env: map<string, string>, mounts: map<string, MountSpec>, works: bool, again: bool)
    ensures var (cwd, st1) := Choose(host, st, eligible, currentCwd, args, env, mounts, works);
            var (cwd2, st2) := Choose(host, st1, eligible, currentCwd, args, env, mounts, again);
            cwd2 == cwd && (works ==> st2 == st1)
  {
    if eligible != [] {
      HasFirst(host, HintVar(env), eligible);
      ResumeAgain(st, Candidates(host, HintVar(env), eligible), currentCwd, ConfigDir(host, env, mounts), ResumeID(args), works, again);
    }
  }

  // ---- Which directory is chosen ----

  /** The directory's slug is usable and among those. */
  predicate HeldBy(dirs: seq<string>, cwd: string) {
    Slug(cwd) != "" && Slug(cwd) in dirs
  }

  predicate FirstHeld(cwds: seq<string>, dirs: seq<string>, j: nat) {
    j < |cwds| && HeldBy(dirs, cwds[j]) && forall k :: 0 <= k < j ==> !HeldBy(dirs, cwds[k])
  }

  lemma {:induction false} FirstHoldingAt(cwds: seq<string>, dirs: seq<string>, j: nat)
    requires FirstHeld(cwds, dirs, j)
    ensures FirstHolding(cwds, dirs) == Some(cwds[j])
  {
    if j > 0 {
      assert !HeldBy(dirs, cwds[0]);
      forall k | 0 <= k < j - 1 ensures !HeldBy(dirs, cwds[1..][k]) {
        assert cwds[1..][k] == cwds[k + 1];
      }
      FirstHoldingAt(cwds[1..], dirs, j - 1);
    }
  }

  /** The session is resumed where it was: in the first candidate that holds its transcript, without a copy. */
  lemma ResumesWhereHeld(host: Host, st: Store, eligible: seq<WsMount>, currentCwd: string, args: seq<string>,
                         env: map<string, string>, mounts: map<string, MountSpec>, works: bool, j: nat)
    requires eligible != [] && ResumeID(args) != "" && ConfigDir(host, env, mounts) != ""
    requires FirstHeld(Candidates(host, HintVar(env), eligible), Found(st, ConfigDir(host, env, mounts), ResumeID(args)), j)
    ensures Choose(host, st, eligible, currentCwd, args, env, mounts, works)
            == (Candidates(host, HintVar(env), eligible)[j], st)
  {
    var cands, dirs := Candidates(host, HintVar(env), eligible), Found(st, ConfigDir(host, env, mounts), ResumeID(args));
    HasFirst(host, HintVar(env), eligible);
    assert forall k :: 0 <= k <= j ==> (cands + [currentCwd])[k] == cands[k];
    FirstHoldingAt(cands + [currentCwd], dirs, j);
  }

  /** If only the directory the spawn was to start in holds it, the spawn stays there. */
  lemma StaysWhereHeld(host: Host, st: Store, eligible: seq<WsMount>, currentCwd: string, args: seq<string>,
                       env: map<string, string>, mounts: map<string, MountSpec>, works: bool)
    requires eligible != [] && ResumeID(args) != "" && ConfigDir(host, env, mounts) != ""
    requires var dirs := Found(st, ConfigDir(host, env, mounts), ResumeID(args));
             && HeldBy(dirs, currentCwd)
             && forall c :: c in Candidates(host, HintVar(env), eligible) ==> !HeldBy(dirs, c)
    ensures Choose(host, st, eligible, currentCwd, args, env, mounts, works) == (currentCwd, st)
  {
    var cands, dirs := Candidates(host, HintVar(env), eligible), Found(st, ConfigDir(host, env, mounts), ResumeID(args));
    HasFirst(host, HintVar(env), eligible);
    forall k | 0 <= k < |cands| ensures !HeldBy(dirs, (cands + [currentCwd])[k]) {
      assert cands[k] in cands;
    }
    FirstHoldingAt(cands + [currentCwd], dirs, |cands|);
  }

  /**
   In every other case the spawn starts in the first candidate: without a session to resume or a config
   dir nothing is copied, and otherwise the first of the transcripts found is copied for it.
   */
  lemma ElseFirstCandidate(host: Host, st: Store, eligible: seq<WsMount>, currentCwd: string, args: seq<string>,
                           env: map<string, string>, mounts: map<string, MountSpec>, works: bool)
    requires eligible != []
    requires var cfg, id := ConfigDir(host, env, mounts), ResumeID(args);
             id == "" || cfg == "" ||
             forall c :: c in Candidates(host, HintVar(env), eligible) + [currentCwd] ==> !HeldBy(Found(st, cfg, id), c)
    ensures var cfg, id, cands := ConfigDir(host, env, mounts), ResumeID(args), Candidates(host, HintVar(env), eligible);
            var (cwd, st1) := Choose(host, st, eligible, currentCwd, args, env, mounts, works);
            && cands != [] && cwd == cands[0]
            && st1 == if id == "" || cfg == "" || Found(st, cfg, id) == [] || Slug(cwd) == "" then st
                      else CopyIn(st, cfg, Found(st, cfg, id)[0], Slug(cwd), id, works).1
  {
    var cfg, id, cands := ConfigDir(host, env, mounts), ResumeID(args), Candidates(host, HintVar(env), eligible);
    HasFirst(host, HintVar(env), eligible);
    if id != "" && cfg != "" { FirstHoldingIs(cands + [currentCwd], Found(st, cfg, id)); }
  }

  lemma ResumeHolds(st: Store, cands: seq<string>, currentCwd: string, cfg: string, id: string)
    requires cands != [] && Found(st, cfg, id) != []
    ensures var (cwd, st1) := Resume(st, cands, currentCwd, cfg, id, true);
            Slug(cwd) != "" ==> Key(cfg, Slug(cwd), id) in st1.files
  {
    var dirs := Found(st, cfg, id);
    FirstHoldingIs(cands + [currentCwd], dirs);
    SourceIsThere(st, cfg, id);
    assert dirs[0] in dirs;
  }

  /**
   A session that some project directory holds can be resumed from the chosen directory exactly when
   there is an eligible mount, or the directory it keeps for want of one already holds it.
   */
  lemma ChosenCwdHoldsTranscriptIff(host: Host, st: Store, eligible: seq<WsMount>, currentCwd: string, args: seq<string>,
                                    env: map<string, string>, mounts: map<string, MountSpec>)
    requires var cfg := ConfigDir(host, env, mounts);
             Found(st, cfg, ResumeID(args)) != []
             && Slug(Choose(host, st, eligible, currentCwd, args, env, mounts, true).0) != ""
    ensures var cfg, id := ConfigDir(host, env, mounts), ResumeID(args);
            var (cwd, st1) := Choose(host, st, eligible, currentCwd, args, env, mounts, true);
            Key(cfg, Slug(cwd), id) in st1.files <==> eligible != [] || Key(cfg, Slug(currentCwd), id) in st.files
  {
    var cfg, id := ConfigDir(host, env, mounts), ResumeID(args);
    SourceIsThere(st, cfg, id);
    if eligible != [] {
      HasFirst(host, HintVar(env), eligible);
      ResumeHolds(st, Candidates(host, HintVar(env), eligible), currentCwd, cfg, id);
    }
  }

  function ContentOf(st: Store, k: Key): Option<string> {
    if k in st.files then Some(st.files[k]) else None
  }

  /**
   After a migration that works the guest's directory holds the session, if need be as a copy of the first
   transcript found, and a second one changes nothing.
   */
  lemma MigrationHealsOnce(host: Host, st: Store, args: seq<string>, cwd: string, mounts: map<string, MountSpec>, again: bool)
    requires CONFIG_MOUNT in mounts && mounts[CONFIG_MOUNT].path != "" && Slug(cwd) != ""
    requires HostAbsFromShared(host.links, mounts[CONFIG_MOUNT].path, host.home).Ok?
    requires Found(st, HostAbsFromShared(host.links, mounts[CONFIG_MOUNT].path, host.home).path, ResumeID(args)) != []
    ensures var cfg := HostAbsFromShared(host.links, mounts[CONFIG_MOUNT].path, host.home).path;
            var st1 := Migrated(host, st, args, cwd, mounts, true);
            && Key(cfg, Slug(cwd), ResumeID(args)) in st1.files
            && (Key(cfg, Slug(cwd), ResumeID(args)) !in st.files ==>
                  ContentOf(st1, Key(cfg, Slug(cwd), ResumeID(args)))
                  == ContentOf(st, Key(cfg, Found(st, cfg, ResumeID(args))[0], ResumeID(args))))
            && Migrated(host, st1, args, cwd, mounts, again) == st1
  {
    var cfg := HostAbsFromShared(host.links, mounts[CONFIG_MOUNT].path, host.home).path;
    SourceIsThere(st, cfg, ResumeID(args));
    MigrateToOnce(st, cfg, Slug(cwd), ResumeID(args), again);
  }

  lemma MigrateToOnce(st: Store, cfg: string, want: string, id: string, again: bool)
    requires want != "" && Found(st, cfg, id) != []
    ensures var st1 := MigrateTo(st, cfg, want, id, true);
            && Key(cfg, want, id) in st1.files && MigrateTo(st1, cfg, want, id, again) == st1
            && (Key(cfg, want, id) !in st.files ==>
                  ContentOf(st1, Key(cfg, want, id)) == ContentOf(st, Key(cfg, Found(st, cfg, id)[0], id)))
  {
    var dirs := Found(st, cfg, id);
    SourceIsThere(st, cfg, id);
    assert dirs[0] in dirs;
    FoundAfterCopy(st, cfg, dirs[0], want, id, true);
  }

  /** The directory that a session is resumed from when there is no mount to serve as one, with nothing copied. */
  lemma StaysWithoutMounts(host: Host, st: Store, currentCwd: string, args: seq<string>, env: map<string, string>,
                           mounts: map<string, MountSpec>, works: bool)
    ensures Choose(host, st, [], currentCwd, args, env, mounts, works) == (currentCwd, st)
  {
  }

  /** Both backends look for a session in the same config dir, whenever the KVM backend accepts the mount. */
  lemma BackendsShareConfigDir(host: Host, env: map<string, string>, mounts: map<string, MountSpec>)
    requires CleanLinks(host.links) && host.home != ""
    requires CONFIG_MOUNT in mounts && HostAbsFromShared(host.links, mounts[CONFIG_MOUNT].path, host.home).Ok?
    ensures ConfigDir(host, env, mounts) == HostAbsFromShared(host.links, mounts[CONFIG_MOUNT].path, host.home).path
  {
    ResolversAgree(host.links, mounts[CONFIG_MOUNT].path, host.home);
  }

  /** Without a mount for it the config dir is the one the environment names, if any. */
  lemma ConfigDirFromEnv(host: Host, env: map<string, string>, mounts: map<string, MountSpec>)
    requires ".claude" !in mounts || mounts[".claude"].path == ""
    ensures "CLAUDE_CONFIG_DIR" in env ==> ConfigDir(host, env, mounts) == env["CLAUDE_CONFIG_DIR"]
    ensures "CLAUDE_CONFIG_DIR" !in env ==> ConfigDir(host, env, mounts) == ""
  {
  }

  // ---- Any sequence of spawns ----

  datatype Spawn =
    | Native(host: Host, eligible: seq<WsMount>, currentCwd: string, args: seq<string>, env: map<string, string>,
             mounts: map<string, MountSpec>, works: bool)
    | Kvm(host: Host, args: seq<string>, cwd: string, mounts: map<string, MountSpec>, works: bool)

  ghost function AfterSpawn(st: Store, s: Spawn): Store {
    match s
    case Native(host, eligible, currentCwd, args, env, mounts, works) =>
      Choose(host, st, eligible, currentCwd, args, env, mounts, works).1
    case Kvm(host, args, cwd, mounts, works) => Migrated(host, st, args, cwd, mounts, works)
  }

  ghost function AfterSpawns(st: Store, spawns: seq<Spawn>): Store {
    if spawns == [] then st
    else AfterSpawn(AfterSpawns(st, spawns[..|spawns| - 1]), spawns[|spawns| - 1])
  }

  lemma ExtendsItself(st: Store)
    ensures Extends(st, st)
  {
    forall k | k in st.files ensures HasOriginal(st, k, st.files[k]) {
      assert k in st.files && k.cfg == k.cfg && k.id == k.id && st.files[k] == st.files[k];
    }
  }

  lemma ResumeExtends(st: Store, cands: seq<string>, currentCwd: string, cfg: string, id: string, works: bool)
    requires cands != []
    ensures Extends(st, Resume(st, cands, currentCwd, cfg, id, works).1)
  {
    ExtendsItself(st);
    var dirs := Found(st, cfg, id);
    if dirs != [] { CopyExtends(st, cfg, dirs[0], Slug(cands[0]), id, works); }
  }

  lemma SpawnExtends(st: Store, s: Spawn)
    ensures Extends(st, AfterSpawn(st, s))
  {
    ExtendsItself(st);
    match s
    case Native(host, eligible, currentCwd, args, env, mounts, works) =>
      if eligible != [] {
        HasFirst(host, HintVar(env), eligible);
        ResumeExtends(st, Candidates(host, HintVar(env), eligible), currentCwd, ConfigDir(host, env, mounts), ResumeID(args), works);
      }
    case Kvm(host, args, cwd, mounts, works) => MigrationExtends(host, st, args, cwd, mounts, works);
  }

  lemma MigrationExtends(host: Host, st: Store, args: seq<string>, cwd: string, mounts: map<string, MountSpec>, works: bool)
    ensures Extends(st, Migrated(host, st, args, cwd, mounts, works))
  {
    ExtendsItself(st);
    if CONFIG_MOUNT in mounts {
      var cfg := HostAbsFromShared(host.links, mounts[CONFIG_MOUNT].path, host.home);
      if cfg.Ok? {
        var dirs := Found(st, cfg.path, ResumeID(args));
        if dirs != [] { CopyExtends(st, cfg.path, dirs[0], Slug(cwd), ResumeID(args), works); }
      }
    }
  }

  /**
   Over any sequence of native and KVM spawns no transcript is changed or removed, and every new one
   equals a transcript of the same session that was there at the start.
   */
  lemma {:induction false} TranscriptsAreOnlyAdded(st: Store, spawns: seq<Spawn>)
    ensures Extends(st, AfterSpawns(st, spawns))
  {
    if spawns == [] {
      ExtendsItself(st);
    } else {
      var init := spawns[..|spawns| - 1];
      TranscriptsAreOnlyAdded(st, init);
      SpawnExtends(AfterSpawns(st, init), spawns[|spawns| - 1]);
      ExtendsTransitive(st, AfterSpawns(st, init), AfterSpawns(st, spawns));
    }
  }
}
