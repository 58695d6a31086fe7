/**
 The two resolvers of a mount's path: the native backend's `resolveSubpath` and the KVM backend's
 `hostAbsFromShared`, over an abstract outcome of `filepath.EvalSymlinks`.
 */
module MountPaths {
  import opened LexicalPath

  /** What `EvalSymlinks` answers for the paths that exist; it fails on all others. */
  type Links = map<string, string>

  /** A mount as Desktop sends it: a path relative to the root, to home, or absolute, and a mode. */
  datatype MountSpec = MountSpec(path: string, mode: string)

  datatype HostPath = Ok(path: string) | Err(error: PathError)
  datatype PathError = RelPathRequired | NotRelative(path: string) | OutsideHome(path: string)

  function Measure(p: string): nat {
    if p == "" then 5
    else if p == "." then 1
    else 2 * |p| + (if p[|p| - 1] == '/' then 1 else 0)
  }

  /** The parent is smaller, or the path is its own parent. */
  lemma DirSmaller(p: string)
    ensures Dir(p) != p ==> Measure(Dir(p)) < Measure(p)
  {
    var q := p[..AfterSlash(p)];
    if q != "" {
      CleanShrinks(q);
      NoTrailingSlash(q);
    }
  }

  /** Symlinks resolved in the longest existing prefix of the path. */
  function Canonicalize(links: Links, p: string): string
    decreases Measure(p)
  {
    if p in links then links[p]
    else if Dir(p) == p then p
    else
      DirSmaller(p);
      Join(Canonicalize(links, Dir(p)), Base(p))
  }

  /** The check both resolvers make: the path itself, or text starting with it and a slash. */
  predicate Inside(p: string, home: string) {
    home + "/" <= p || p == home
  }

  function ResolveSubpath(links: Links, home: string, relPath: string): string {
    if relPath == "" then home
    else
      var asRoot := Clean("/" + relPath);
      if Inside(asRoot, home) then asRoot
      else
        var homeCanon := Canonicalize(links, home);
        var asRootCanon := Canonicalize(links, asRoot);
        if Inside(asRootCanon, homeCanon) then asRootCanon
        else Join(home, relPath)
  }

  function HostAbsFromShared(links: Links, relPath: string, home: string): HostPath {
    if relPath == "" then Err(RelPathRequired)
    else if Rooted(relPath) then Err(NotRelative(relPath))
    else
      var abs := Clean("/" + relPath);
      if Inside(abs, home) then Ok(abs)
      else
        var absCanon := Canonicalize(links, abs);
        var homeCanon := Canonicalize(links, home);
        if Inside(absCanon, homeCanon) then Ok(absCanon)
        else Err(OutsideHome(abs))
  }

  // ---- Canonical paths ----

  /** `EvalSymlinks` returns clean absolute paths. */
  predicate CleanLinks(links: Links) {
    forall p :: p in links ==> IsClean(links[p])
  }

  /**
   `EvalSymlinks` answers for a resolved path with that path, and a name missing from a directory
   is not a link when the directory is reached by its resolved path.
   */
  ghost predicate Coherent(links: Links) {
    && CleanLinks(links)
    && (forall p :: p in links ==> links[p] in links && links[links[p]] == links[p])
    && (forall p :: IsClean(p) && p !in links && Canonicalize(links, p) in links ==>
          links[Canonicalize(links, p)] == Canonicalize(links, p))
  }

  lemma {:induction false} CanonicalizeClean(links: Links, p: string)
    requires CleanLinks(links) && IsClean(p)
    ensures IsClean(Canonicalize(links, p))
    decreases |p|
  {
    if p !in links && p != "/" {
      ParentOfClean(p);
      CanonicalizeClean(links, Dir(p));
      JoinOfClean(Canonicalize(links, Dir(p)), Base(p));
    }
  }

  lemma {:induction false} CanonicalizeSome(links: Links, p: string)
    requires CleanLinks(links) && p != ""
    ensures Canonicalize(links, p) != ""
    decreases Measure(p)
  {
    if p !in links && Dir(p) != p {
      DirSmaller(p);
      DirSome(p);
      CanonicalizeSome(links, Dir(p));
      NoTrailingSlash(Canonicalize(links, Dir(p)) + "/" + Base(p));
    }
  }

  lemma DirSome(p: string)
    ensures Dir(p) != ""
  {
    var q := p[..AfterSlash(p)];
    if q != "" { NoTrailingSlash(q); }
  }

  /** A directory that exists, below which the path has those names and nothing on its way exists. */
  predicate Deepest(links: Links, above: string, rest: seq<string>) {
    && IsClean(above) && Normal(rest)
    && (above in links || above == "/")
    && (forall k :: 0 < k <= |rest| ==> Abs(Components(above) + rest[..k]) !in links)
  }

  /**
   Canonicalizing resolves the symbolic links of the deepest directory on the path that exists, and
   keeps the names below it.
   */
  lemma {:induction false} CanonicalizeKeepsRest(links: Links, above: string, rest: seq<string>)
    requires CleanLinks(links) && Deepest(links, above, rest)
    ensures var p := Abs(Components(above) + rest);
            Canonicalize(links, p) == Abs(Components(if above in links then links[above] else above) + rest)
    decreases |rest|
  {
    AbsOfComponents(above);
    if rest == [] {
      assert Components(above) + rest == Components(above);
      var there := if above in links then links[above] else above;
      AbsOfComponents(there);
      assert Components(there) + rest == Components(there);
    } else {
      var last := |rest| - 1;
      var cs := Components(above) + rest;
      assert rest[..|rest|] == rest && forall k :: 0 < k <= last ==> rest[..last][..k] == rest[..k];
      assert cs[..|cs| - 1] == Components(above) + rest[..last] && cs[|cs| - 1] == rest[last];
      CanonicalizeKeepsRest(links, above, rest[..last]);
      ParentAndBase(cs);
      KeepsLast(if above in links then links[above] else above, rest);
    }
  }

  lemma KeepsLast(there: string, rest: seq<string>)
    requires IsClean(there) && Normal(rest) && rest != []
    ensures Join(Abs(Components(there) + rest[..|rest| - 1]), rest[|rest| - 1]) == Abs(Components(there) + rest)
  {
    AbsOfComponents(there);
    var cs := Components(there) + rest;
    assert cs[..|cs| - 1] == Components(there) + rest[..|rest| - 1] && cs[|cs| - 1] == rest[|rest| - 1];
    ParentAndBase(cs);
  }

  lemma {:induction false} CanonicalizeIdempotent(links: Links, p: string)
    requires Coherent(links) && IsClean(p)
    ensures Canonicalize(links, Canonicalize(links, p)) == Canonicalize(links, p)
    decreases |p|
  {
    var q := Canonicalize(links, p);
    if p !in links && p != "/" && q !in links {
      ParentOfClean(p);
      var d := Canonicalize(links, Dir(p));
      CanonicalizeClean(links, Dir(p));
      CanonicalizeIdempotent(links, Dir(p));
      JoinOfClean(d, Base(p));
    }
  }

  // ---- Agreement and containment ----

  /** Containment by components, in a clean directory other than the root. */
  predicate Under(p: string, home: string) {
    IsClean(home) && home != "/" && Components(home) <= Components(p)
  }

  /**
   What the text check means for a clean path: `home` itself, or a path under it. A home spelled
   otherwise, with a slash at its end for one, holds nothing.
   */
  lemma InsideIsUnder(p: string, home: string)
    requires IsClean(p) && home != ""
    ensures Inside(p, home) <==> p == home || Under(p, home)
  {
    if home + "/" <= p { AboveCleanIsClean(home, p); }
    if IsClean(home) && home != "/" { UnderIsComponentPrefix(p, home); }
  }

  /**
   What the KVM resolver accepts, the native resolver resolves to the same path; it accepts exactly
   the relative paths that are, component by component, home or inside it by name, or inside its
   canonical form once resolved. This holds for any home, however it is spelled.
   */
  lemma {:induction false} ResolversAgree(links: Links, relPath: string, home: string)
    requires CleanLinks(links) && home != ""
    ensures var r := HostAbsFromShared(links, relPath, home);
            var abs, canon := Clean("/" + relPath), Canonicalize(links, home);
            && (r.Ok? ==> ResolveSubpath(links, home, relPath) == r.path && IsClean(r.path))
            && (r.Ok? ==> r.path in {home, canon} || Under(r.path, home) || Under(r.path, canon))
            && (r.Ok? <==> relPath != "" && !Rooted(relPath) &&
                           (abs == home || Under(abs, home) || Canonicalize(links, abs) == canon
                            || Under(Canonicalize(links, abs), canon)))
  {
    var abs := Clean("/" + relPath);
    CleanIsClean("/" + relPath);
    CanonicalizeClean(links, abs);
    CanonicalizeSome(links, home);
    InsideIsUnder(abs, home);
    InsideIsUnder(Canonicalize(links, abs), Canonicalize(links, home));
  }

  /**
   No doubled home: a path the native resolver placed inside home, or the KVM resolver accepted,
   resolves to itself when it is sent back root-relative, by both resolvers.
   */
  lemma ResolvedIsFixed(links: Links, relPath: string, home: string)
    requires Coherent(links) && home != ""
    requires Under(ResolveSubpath(links, home, relPath), home) || HostAbsFromShared(links, relPath, home).Ok?
    requires ResolveSubpath(links, home, relPath) != "/"
    ensures var r := ResolveSubpath(links, home, relPath);
            Rooted(r) && ResolveSubpath(links, home, r[1..]) == r && HostAbsFromShared(links, r[1..], home) == Ok(r)
  {
    var r := ResolveSubpath(links, home, relPath);
    if Under(r, home) {
      ResolvedIsClean(links, relPath, home);
      UnderIsComponentPrefix(r, home);
      InsideIsFixed(links, r, home);
    } else {
      AcceptedIsFixed(links, relPath, home);
    }
  }

  lemma ResolvedIsClean(links: Links, relPath: string, home: string)
    requires CleanLinks(links) && IsClean(home)
    ensures IsClean(ResolveSubpath(links, home, relPath))
  {
    CleanIsClean("/" + relPath);
    CanonicalizeClean(links, Clean("/" + relPath));
    CleanIsClean(home + "/" + relPath);
  }

  /** A path that the text check places in home resolves to itself, as does one already canonical. */
  lemma InsideIsFixed(links: Links, r: string, home: string)
    requires IsClean(r) && r != "/"
    requires Inside(r, home) || (Canonicalize(links, r) == r && Inside(r, Canonicalize(links, home)))
    ensures Rooted(r) && ResolveSubpath(links, home, r[1..]) == r && HostAbsFromShared(links, r[1..], home) == Ok(r)
  {
    NoDoubleSlash(r);
    assert "/" + r[1..] == r;
  }

  lemma AcceptedIsFixed(links: Links, relPath: string, home: string)
    requires Coherent(links) && HostAbsFromShared(links, relPath, home).Ok?
    requires ResolveSubpath(links, home, relPath) != "/"
    ensures var r := ResolveSubpath(links, home, relPath);
            Rooted(r) && ResolveSubpath(links, home, r[1..]) == r && HostAbsFromShared(links, r[1..], home) == Ok(r)
  {
    var abs := Clean("/" + relPath);
    CleanIsClean("/" + relPath);
    CanonicalizeClean(links, abs);
    var canon := Canonicalize(links, abs);
    if Inside(abs, home) {
      InsideIsFixed(links, abs, home);
    } else {
      CanonicalizeIdempotent(links, abs);
      InsideIsFixed(links, canon, home);
    }
  }

  /** The path is home or inside it, as it is spelled or once both are canonical. */
  predicate InHome(links: Links, home: string, p: string) {
    var canon := Canonicalize(links, home);
    p == home || Under(p, home) || Canonicalize(links, p) == canon || Under(Canonicalize(links, p), canon)
  }

  /** Where a path goes that is not in home when read from the root: its pieces are followed from home. */
  lemma HomeRelative(links: Links, home: string, relPath: string)
    requires CleanLinks(links) && Rooted(home) && relPath != "" && !InHome(links, home, Clean("/" + relPath))
    ensures var r := ResolveSubpath(links, home, relPath);
            && IsClean(r) && Components(r) == Fold(Split(relPath), Components(home), true)
            && (".." !in Split(relPath) ==> Components(home) <= Components(r))
            && (Normal(Split(relPath)) ==> Components(r) == Components(home) + Split(relPath))
  {
    var abs := Clean("/" + relPath);
    CleanIsClean("/" + relPath);
    CanonicalizeClean(links, abs);
    CanonicalizeSome(links, home);
    InsideIsUnder(abs, home);
    InsideIsUnder(Canonicalize(links, abs), Canonicalize(links, home));
    CleanIsClean(home + "/" + relPath);
    ComponentsAfter(home, relPath);
    if ".." !in Split(relPath) { FoldWithoutParents(Split(relPath), Components(home)); }
    if Normal(Split(relPath)) { FoldNormal(Split(relPath), Components(home), true); }
  }

  /**
   What the native resolver answers on every input: home itself for the empty path; the path read from
   the root if that lies in home as spelled, or its canonical form if it lies there once resolved; and
   otherwise the path followed from home, which stays under a home it does not climb out of.
   */
  lemma ResolverAnswers(links: Links, home: string, relPath: string)
    requires CleanLinks(links) && Rooted(home)
    ensures var r, abs := ResolveSubpath(links, home, relPath), Clean("/" + relPath);
            if relPath == "" then r == home
            else if abs == home || Under(abs, home) then r == abs
            else if InHome(links, home, abs) then r == Canonicalize(links, abs)
            else IsClean(r) && Components(r) == Fold(Split(relPath), Components(home), true)
                 && (".." !in Split(relPath) && IsClean(home) && home != "/" ==> Under(r, home))
  {
    var abs := Clean("/" + relPath);
    CleanIsClean("/" + relPath);
    CanonicalizeClean(links, abs);
    CanonicalizeSome(links, home);
    InsideIsUnder(abs, home);
    InsideIsUnder(Canonicalize(links, abs), Canonicalize(links, home));
    if relPath != "" && !InHome(links, home, abs) { HomeRelative(links, home, relPath); }
  }

  /**
   With the root as home the KVM resolver rejects every path that does not resolve to the root
   itself, while the native resolver accepts it.
   */
  lemma RootHome(links: Links, relPath: string)
    requires CleanLinks(links) && Canonicalize(links, "/") == "/" && relPath != "" && !Rooted(relPath)
    ensures var abs := Clean("/" + relPath);
            HostAbsFromShared(links, relPath, "/").Ok? <==> abs == "/" || Canonicalize(links, abs) == "/"
    ensures var abs := Clean("/" + relPath);
            Canonicalize(links, abs) != "/" ==> ResolveSubpath(links, "/", relPath) == abs
  {
    var abs := Clean("/" + relPath);
    CleanIsClean("/" + relPath);
    CanonicalizeClean(links, abs);
    InsideRoot(abs);
    InsideRoot(Canonicalize(links, abs));
    JoinRoot(relPath);
  }

  lemma InsideRoot(p: string)
    requires IsClean(p)
    ensures Inside(p, "/") <==> p == "/"
  {
    if p != "/" { NoDoubleSlash(p); }
  }
}
