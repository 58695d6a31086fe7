/** The mount helper process: its bind cache, and what its operations do to the host's mounts. */
module MountHelper {
  import opened LexicalPath

  datatype Stat = IsDir | NotDir | NotExist | StatError

  /** How the host answers during one bind: the stat calls, directory creation, mount and remount. */
  datatype Host = Host(stat: Stat, mkdir: bool, restat: Stat, mkTarget: bool, mount: bool, remount: bool)

  datatype BindRequest = BindRequest(hostPath: string, relPath: string, mode: string)

  datatype BindError =
    | HostNotAbsolute | RelPathRequired | RelPathAbsolute | RelPathEscapes
    | MkdirHost | StatHost | HostMissing | MkdirTarget | MountFailed | RemountFailed

  datatype BindResult = Bound | AlreadyBound | Skipped | Rejected(error: BindError)

  datatype Target = At(path: string) | Invalid(error: BindError)

  function ValidateRelPath(sharedRoot: string, relPath: string): Target {
    if relPath == "" then Invalid(RelPathRequired)
    else if Rooted(relPath) then Invalid(RelPathAbsolute)
    else
      var target := Clean(Join(sharedRoot, relPath));
      if target != sharedRoot && !(sharedRoot + "/" <= target) then Invalid(RelPathEscapes)
      else At(target)
  }

  /**
   The bind cache, and a record of what was done to the host: every successful `mount --bind`,
   every one whose read-only remount then failed, every unbind of a cached path, and every
   non-directory acknowledged without a mount.
   */
  datatype State = State(
    active: set<string>, stopping: bool,
    mounts: multiset<string>, remountFailures: multiset<string>, unbound: multiset<string>, skipped: set<string>)

  const EMPTY := State({}, false, multiset{}, multiset{}, multiset{}, {})

  /** The answer for a valid path that is not cached, from the stat of its source to the mount. */
  function Attempt(mode: string, host: Host): BindResult {
    var creatable := host.stat == NotExist && (mode == "rw" || mode == "rwd");
    if creatable && !host.mkdir then Rejected(MkdirHost)
    else if creatable && host.restat in {NotExist, StatError} then Rejected(StatHost)
    else if !creatable && host.stat in {NotExist, StatError} then Rejected(HostMissing)
    else if (if creatable then host.restat else host.stat) == NotDir then Skipped
    else if !host.mkTarget then Rejected(MkdirTarget)
    else if !host.mount then Rejected(MountFailed)
    else if mode == "ro" && !host.remount then Rejected(RemountFailed)
    else Bound
  }

  /** The answer `doBind` gives. */
  function Decide(s: State, sharedRoot: string, req: BindRequest, host: Host): BindResult {
    if req.hostPath == "" || !Rooted(req.hostPath) then Rejected(HostNotAbsolute)
    else
      var target := ValidateRelPath(sharedRoot, req.relPath);
      if target.Invalid? then Rejected(target.error)
      else if req.relPath in s.active then AlreadyBound
      else Attempt(req.mode, host)
  }

  /** The state a bind with that answer leaves. */
  function BindStep(s: State, relPath: string, r: BindResult): State {
    match r
    case Bound => s.(active := s.active + {relPath}, mounts := s.mounts + multiset{relPath})
    case AlreadyBound => s
    case Skipped => s.(skipped := s.skipped + {relPath})
    case Rejected(e) =>
      if e == RemountFailed then
        s.(mounts := s.mounts + multiset{relPath}, remountFailures := s.remountFailures + multiset{relPath})
      else s
  }

  function UnbindStep(s: State, sharedRoot: string, relPath: string): State {
    if ValidateRelPath(sharedRoot, relPath).Invalid? || relPath !in s.active then s
    else s.(active := s.active - {relPath}, unbound := s.unbound + multiset{relPath})
  }

  function StopStep(s: State): State {
    if s.stopping then s
    else s.(stopping := true, active := {}, unbound := s.unbound + multiset(s.active))
  }

  predicate Acknowledged(r: BindResult) {
    !r.Rejected?
  }

  /** Only validated paths are cached. */
  predicate ActiveValid(s: State, sharedRoot: string) {
    forall p :: p in s.active ==> ValidateRelPath(sharedRoot, p).At?
  }

  /** Every mount made for a path is the cached one, one whose remount failed, or one since unbound. */
  ghost predicate Balanced(s: State) {
    forall p: string :: s.mounts[p] == (if p in s.active then 1 else 0) + s.remountFailures[p] + s.unbound[p]
  }

  /** A stop that has unbound everything but `left`. */
  ghost function Unbinding(s: State, left: set<string>): State {
    s.(active := left, unbound := s.unbound + multiset(s.active - left))
  }

  lemma NothingUnbound(s: State)
    ensures Unbinding(s, s.active) == s
  {
    assert s.active - s.active == {};
  }

  lemma UnbindOne(s: State, sharedRoot: string, left: set<string>, p: string)
    requires ActiveValid(s, sharedRoot) && left <= s.active && p in s.active
    ensures UnbindStep(Unbinding(s, left), sharedRoot, p) == Unbinding(s, left - {p})
  {
    assert ValidateRelPath(sharedRoot, p).At?;
    if p in left {
      assert s.active - (left - {p}) == (s.active - left) + {p};
    } else {
      assert left - {p} == left;
    }
  }

  lemma DropLast<T>(s: seq<T>, i: nat)
    requires i < |s|
    ensures forall x :: x in s[..i + 1] ==> x in s[..i] || x == s[i]
  {
    assert s[..i + 1] == s[..i] + [s[i]];
  }

  /** The cached paths, in whatever order the map yields them. */
  method Listing(active: set<string>) returns (relPaths: seq<string>)
    ensures forall p :: p in active ==> p in relPaths
    ensures forall i :: 0 <= i < |relPaths| ==> relPaths[i] in active
  {
    relPaths := [];
    var left := active;
    while left != {}
      invariant left <= active
      invariant forall i :: 0 <= i < |relPaths| ==> relPaths[i] in active
      invariant forall p :: p in active - left ==> p in relPaths
      decreases left
    {
      var k :| k in left;
      left := left - {k};
      relPaths := relPaths + [k];
    }
  }

  class Helper {
    const sharedRoot: string
    var activeBinds: set<string>
    var stopping: bool
    var mounts: multiset<string>
    var remountFailures: multiset<string>
    var unbound: multiset<string>
    var skipped: set<string>

    ghost function Now(): State
      reads this
    {
      State(activeBinds, stopping, mounts, remountFailures, unbound, skipped)
    }

    constructor (sharedRoot: string)
      ensures this.sharedRoot == sharedRoot && Now() == EMPTY
    {
      this.sharedRoot := sharedRoot;
      activeBinds, stopping, skipped := {}, false, {};
      mounts, remountFailures, unbound := multiset{}, multiset{}, multiset{};
    }

    method DoBind(req: BindRequest, host: Host) returns (r: BindResult)
      modifies this
      ensures r == Decide(old(Now()), sharedRoot, req, host)
      ensures Now() == BindStep(old(Now()), req.relPath, r)
    {
      if req.hostPath == "" || !Rooted(req.hostPath) { return Rejected(HostNotAbsolute); }
      var target := ValidateRelPath(sharedRoot, req.relPath);
      if target.Invalid? { return Rejected(target.error); }
      if req.relPath in activeBinds { return AlreadyBound; }
      r := MountSource(req.relPath, req.mode, host);
    }

    /** The rest of a bind, once its paths are valid and it is not cached. */
    method MountSource(relPath: string, mode: string, host: Host) returns (r: BindResult)
      modifies this
      ensures r == Attempt(mode, host) && Now() == BindStep(old(Now()), relPath, r)
    {
      var info := host.stat;
      if info == NotExist || info == StatError {
        if info == NotExist && (mode == "rw" || mode == "rwd") {
          if !host.mkdir { return Rejected(MkdirHost); }
          info := host.restat;
          if info == NotExist || info == StatError { return Rejected(StatHost); }
        } else {
          return Rejected(HostMissing);
        }
      }
      if info == NotDir {
        skipped := skipped + {relPath};
        return Skipped;
      }
      if !host.mkTarget { return Rejected(MkdirTarget); }
      if !host.mount { return Rejected(MountFailed); }
      mounts := mounts + multiset{relPath};
      if mode == "ro" && !host.remount {
        remountFailures := remountFailures + multiset{relPath};
        return Rejected(RemountFailed);
      }
      activeBinds := activeBinds + {relPath};
      return Bound;
    }

    method DoUnbind(relPath: string)
      modifies this`activeBinds, this`unbound
      ensures var unbinds := relPath in old(activeBinds) && ValidateRelPath(sharedRoot, relPath).At?;
              && activeBinds == old(activeBinds) - (if unbinds then {relPath} else {})
              && unbound == old(unbound) + (if unbinds then multiset{relPath} else multiset{})
      ensures Now() == UnbindStep(old(Now()), sharedRoot, relPath)
    {
      var target := ValidateRelPath(sharedRoot, relPath);
      if target.Invalid? || relPath !in activeBinds { return; }
      unbound := unbound + multiset{relPath};
      activeBinds := activeBinds - {relPath};
    }

    /** The first stop unbinds everything that was cached, in the order a copy of the cache lists it. */
    method DoStop()
      requires ActiveValid(Now(), sharedRoot)
      modifies this`stopping, this`activeBinds, this`unbound
      ensures Now() == StopStep(old(Now()))
    {
      if stopping { return; }
      stopping := true;
      var relPaths := Listing(activeBinds);
      ghost var s0 := Now();
      var i := |relPaths|;
      NothingUnbound(s0);
      assert relPaths[..i] == relPaths;
      while i > 0
        invariant 0 <= i <= |relPaths|
        invariant activeBinds <= s0.active && Now() == Unbinding(s0, activeBinds)
        invariant forall p :: p in activeBinds ==> p in relPaths[..i]
        modifies this`activeBinds, this`unbound
      {
        i := i - 1;
        DropLast(relPaths, i);
        UnbindOne(s0, sharedRoot, activeBinds, relPaths[i]);
        DoUnbind(relPaths[i]);
      }
      assert activeBinds == {} && s0.active - {} == s0.active;
    }
  }

  // ---- What every operation keeps ----

  /** An answer fits the cache: only what is not cached is mounted, and only a valid path. */
  predicate Fits(s: State, sharedRoot: string, relPath: string, r: BindResult) {
    && (r.Bound? || r == Rejected(RemountFailed) ==> relPath !in s.active && ValidateRelPath(sharedRoot, relPath).At?)
    && (r.AlreadyBound? ==> relPath in s.active)
  }

  lemma DecisionFits(s: State, sharedRoot: string, req: BindRequest, host: Host)
    ensures Fits(s, sharedRoot, req.relPath, Decide(s, sharedRoot, req, host))
  {
  }

  lemma StepKeeps(s: State, sharedRoot: string, relPath: string, r: BindResult)
    requires Balanced(s) && ActiveValid(s, sharedRoot) && Fits(s, sharedRoot, relPath, r)
    ensures var t := BindStep(s, relPath, r);
            && Balanced(t) && ActiveValid(t, sharedRoot)
            && s.active <= t.active && s.skipped <= t.skipped && t.stopping == s.stopping
            && (Acknowledged(r) ==> relPath in t.active + t.skipped)
  {
  }

  /**
   A bind keeps the mount ledger and the validity of the cache, forgets nothing, and answers a
   request positively only when its path is then cached or was passed over.
   */
  lemma BindKeeps(s: State, sharedRoot: string, req: BindRequest, host: Host)
    requires Balanced(s) && ActiveValid(s, sharedRoot)
    ensures var t := BindStep(s, req.relPath, Decide(s, sharedRoot, req, host));
            && Balanced(t) && ActiveValid(t, sharedRoot)
            && s.active <= t.active && s.skipped <= t.skipped && t.stopping == s.stopping
            && (Acknowledged(Decide(s, sharedRoot, req, host)) ==> req.relPath in t.active + t.skipped)
  {
    DecisionFits(s, sharedRoot, req, host);
    StepKeeps(s, sharedRoot, req.relPath, Decide(s, sharedRoot, req, host));
  }

  /** A stop leaves the cache empty and unbinds each cached mount once. */
  lemma StopKeeps(s: State, sharedRoot: string)
    requires Balanced(s) && ActiveValid(s, sharedRoot)
    ensures var t := StopStep(s);
            Balanced(t) && ActiveValid(t, sharedRoot) && t.stopping && (!s.stopping ==> t.active == {})
  {
  }

  /**
   The cache is keyed by the path as spelled: another spelling of a bound path, one slash longer,
   is bound again on top of the same mount point.
   */
  lemma AnotherSpellingMountsAgain(s: State, sharedRoot: string, req: BindRequest, host: Host)
    requires Decide(s, sharedRoot, req, host) == Bound && req.relPath + "/" !in s.active
    ensures var again := req.(relPath := req.relPath + "/");
            var t := BindStep(s, req.relPath, Bound);
            ValidateRelPath(sharedRoot, again.relPath) == ValidateRelPath(sharedRoot, req.relPath) &&
            Decide(t, sharedRoot, again, host) == Bound
  {
    var rel := req.relPath;
    JoinIgnoresTrailingSlash(sharedRoot, rel);
  }

  lemma JoinIgnoresTrailingSlash(a: string, b: string)
    requires b != ""
    ensures Join(a, b + "/") == Join(a, b)
  {
    var p := if a != "" then a + "/" + b else b;
    assert (if a != "" then a + "/" + (b + "/") else b + "/") == p + "/";
    assert p + "/" + "" == p + "/";
    SplitAt(p, "");
    FoldEnd(Split(p), [], Rooted(p));
  }

  lemma {:induction false} FoldEnd(pieces: seq<string>, kept: seq<string>, rooted: bool)
    ensures Fold(pieces + [""], kept, rooted) == Fold(pieces, kept, rooted)
    decreases |pieces|
  {
    if pieces == [] {
      assert ([] + [""])[1..] == [];
    } else {
      FoldEnd(pieces[1..], Push(kept, pieces[0], rooted), rooted);
      assert (pieces + [""])[1..] == pieces[1..] + [""];
    }
  }

  // ---- Mount points ----

  /** The shared root is made by joining the staging directory and a name, so it is clean and not the root. */
  predicate ProperRoot(sharedRoot: string) {
    IsClean(sharedRoot) && sharedRoot != "/"
  }

  /** A relative path of plain names: no empty piece, no dots, no slash at either end. */
  predicate CleanRelative(p: string) {
    Normal(Split(p))
  }

  lemma TargetByComponents(sharedRoot: string, p: string)
    requires ProperRoot(sharedRoot) && ValidateRelPath(sharedRoot, p).At?
    ensures ValidateRelPath(sharedRoot, p).path == Abs(Components(sharedRoot + "/" + p))
    ensures Normal(Components(sharedRoot + "/" + p))
  {
    CleanIsClean(sharedRoot + "/" + p);
    ComponentsNormal(sharedRoot + "/" + p);
  }

  /** Two valid spellings name one mount point exactly when their components below the shared root are the same. */
  lemma SameTargetIff(sharedRoot: string, p: string, q: string)
    requires ProperRoot(sharedRoot) && ValidateRelPath(sharedRoot, p).At? && ValidateRelPath(sharedRoot, q).At?
    ensures ValidateRelPath(sharedRoot, p) == ValidateRelPath(sharedRoot, q)
            <==> Components(sharedRoot + "/" + p) == Components(sharedRoot + "/" + q)
  {
    TargetByComponents(sharedRoot, p);
    TargetByComponents(sharedRoot, q);
    ComponentsOfAbs(Components(sharedRoot + "/" + p));
    ComponentsOfAbs(Components(sharedRoot + "/" + q));
  }

  lemma {:induction false} GlueConcat(front: seq<string>, back: seq<string>)
    requires front != [] && back != []
    ensures Glue(front) + "/" + Glue(back) == Glue(front + back)
  {
    if |front| == 1 {
      assert front + back == [front[0]] + back && (front + back)[1..] == back;
    } else {
      GlueConcat(front[1..], back);
      assert (front + back)[1..] == front[1..] + back;
    }
  }

  /** A clean relative path is valid, and its mount point is the shared root followed by it. */
  lemma CleanTarget(sharedRoot: string, p: string)
    requires ProperRoot(sharedRoot) && CleanRelative(p)
    ensures ValidateRelPath(sharedRoot, p) == At(sharedRoot + "/" + p)
  {
    var cs := Components(sharedRoot);
    AbsOfComponents(sharedRoot);
    GlueOfSplit(p);
    GlueConcat(cs, Split(p));
    assert sharedRoot + "/" + p == Abs(cs + Split(p));
    ComponentsOfAbs(cs + Split(p));
    NotRooted(p);
    assert sharedRoot + "/" <= sharedRoot + "/" + p;
  }

  lemma FirstPieceEmpty(p: string)
    requires p == "" || p[0] == '/'
    ensures Split(p)[0] == ""
  {
  }

  lemma NotRooted(p: string)
    requires CleanRelative(p)
    ensures p != "" && !Rooted(p)
  {
    assert Split(p)[0] in Split(p) && Plain(Split(p)[0]);
    if p == "" || p[0] == '/' { FirstPieceEmpty(p); }
  }

  /** So different clean paths have different mount points. */
  lemma CleanTargetsDiffer(sharedRoot: string, p: string, q: string)
    requires ProperRoot(sharedRoot) && CleanRelative(p) && CleanRelative(q)
    ensures ValidateRelPath(sharedRoot, p) == ValidateRelPath(sharedRoot, q) <==> p == q
  {
    CleanTarget(sharedRoot, p);
    CleanTarget(sharedRoot, q);
    assert (sharedRoot + "/" + p)[|sharedRoot| + 1..] == p && (sharedRoot + "/" + q)[|sharedRoot| + 1..] == q;
  }

  /**
   The valid paths are those relative ones that do not climb out of the shared root, and the mount point
   of a valid path is the root's components met by those of the path.
   */
  lemma ValidIff(sharedRoot: string, relPath: string)
    requires ProperRoot(sharedRoot)
    ensures var target, cs := ValidateRelPath(sharedRoot, relPath), Components(sharedRoot + "/" + relPath);
            && (target.At? <==> relPath != "" && !Rooted(relPath) && Components(sharedRoot) <= cs)
            && (target.At? ==> target.path == Abs(cs))
            && (target.Invalid? ==> target.error == if relPath == "" then RelPathRequired
                                                    else if Rooted(relPath) then RelPathAbsolute else RelPathEscapes)
  {
    var target := Clean(sharedRoot + "/" + relPath);
    CleanIsClean(sharedRoot + "/" + relPath);
    ComponentsNormal(sharedRoot + "/" + relPath);
    UnderIsComponentPrefix(target, sharedRoot);
  }

  // ---- Which binds can mount ----

  /** What the source of a bind turns out to be, once it has been made if it may be. */
  predicate SourceIs(mode: string, host: Host, what: Stat) {
    host.stat == what || (host.stat == NotExist && mode in {"rw", "rwd"} && host.mkdir && host.restat == what)
  }

  /**
   What becomes of a bind of valid paths that is not cached: mounted exactly when the source is a directory
   and every step after that succeeds, with a remount only for read-only binds; passed over exactly when the
   source is something else that exists; and rejected in all other cases.
   */
  lemma BindOutcomes(s: State, sharedRoot: string, req: BindRequest, host: Host)
    requires Mountable(sharedRoot, req) && req.relPath !in s.active
    ensures var r := Decide(s, sharedRoot, req, host);
            && (r == Bound <==> SourceIs(req.mode, host, IsDir) && host.mkTarget && host.mount && (req.mode == "ro" ==> host.remount))
            && (r == Skipped <==> SourceIs(req.mode, host, NotDir))
            && (r == Rejected(RemountFailed) <==>
                  SourceIs(req.mode, host, IsDir) && host.mkTarget && host.mount && req.mode == "ro" && !host.remount)
            && r != AlreadyBound
  {
  }

  /** A host on which every step of a bind succeeds. */
  const WILLING := Host(IsDir, true, IsDir, true, true, true)

  predicate Mountable(sharedRoot: string, req: BindRequest) {
    req.hostPath != "" && Rooted(req.hostPath) && ValidateRelPath(sharedRoot, req.relPath).At?
  }

  /** A source that does not exist is made for a writable mount, if the host lets it, and for no other. */
  lemma MissingSourceIff(s: State, sharedRoot: string, req: BindRequest)
    requires Mountable(sharedRoot, req) && req.relPath !in s.active
    ensures (exists host: Host :: host.stat == NotExist && Decide(s, sharedRoot, req, host) == Bound) <==> req.mode in {"rw", "rwd"}
    ensures forall host: Host :: host.stat == NotExist && (req.mode !in {"rw", "rwd"} || !host.mkdir) ==>
              Decide(s, sharedRoot, req, host).Rejected?
  {
    if req.mode in {"rw", "rwd"} { assert Decide(s, sharedRoot, req, WILLING.(stat := NotExist)) == Bound; }
  }

  /** A bind of a path that is not cached mounts it on some host exactly when its two paths are valid. */
  lemma BoundSomewhereIff(s: State, sharedRoot: string, req: BindRequest)
    requires req.relPath !in s.active
    ensures (exists host :: Decide(s, sharedRoot, req, host) == Bound) <==> Mountable(sharedRoot, req)
  {
    if Mountable(sharedRoot, req) { assert Decide(s, sharedRoot, req, WILLING) == Bound; }
  }
}
