/** The repair of file paths to which Desktop has prepended the service's data directory. */
module CoworkPrefix {
  import opened Strings
  import opened LexicalPath
  import opened Options

  /** The path of the data directory below home. */
  const SHARE := ".local" + "/" + ("share" + "/" + "claude-cowork")

  function DataDir(home: string): (dir: string)
    ensures dir != ""
  {
    var p := home + "/" + SHARE;
    NoTrailingSlash(p);
    Clean(p)
  }

  lemma ThreePieces(a: string, b: string, c: string)
    requires '/' !in a && '/' !in b && '/' !in c
    ensures Split(a + "/" + (b + "/" + c)) == [a, b, c]
  {
    SplitPlain(c);
    SplitCons(b, c);
    SplitCons(a, b + "/" + c);
  }

  lemma BelowThree(cs: seq<string>, a: string, b: string, c: string)
    requires Normal(cs) && Plain(a) && Plain(b) && Plain(c)
    ensures Below(Below(Below(Abs(cs), a), b), c) == Abs(cs + [a, b, c])
  {
    BelowIsAbs(cs, a);
    BelowIsAbs(cs + [a], b);
    BelowIsAbs(cs + [a] + [b], c);
    assert cs + [a] + [b] + [c] == cs + [a, b, c];
  }

  lemma CleanBelowThree(home: string, a: string, b: string, c: string)
    requires IsClean(home) && Plain(a) && Plain(b) && Plain(c)
    ensures Clean(home + "/" + (a + "/" + (b + "/" + c))) == Below(Below(Below(home, a), b), c)
  {
    var tail := a + "/" + (b + "/" + c);
    AbsOfComponents(home);
    ThreePieces(a, b, c);
    ComponentsAfter(home, tail);
    FoldNormal([a, b, c], Components(home), true);
    BelowThree(Components(home), a, b, c);
    CleanIsClean(home + "/" + tail);
  }

  /** Below a home that is a clean path, the directory is where the service keeps its data. */
  lemma DataDirIs(home: string)
    requires IsClean(home)
    ensures DataDir(home) == Below(Below(Below(home, ".local"), "share"), "claude-cowork")
  {
    CleanBelowThree(home, ".local", "share", "claude-cowork");
  }

  function TrimSlash(s: string): string {
    if s != "" && s[0] == '/' then s[1..] else s
  }

  /** The data directory and a slash, twice, with the inner leading slash dropped. */
  function Marker(dir: string): string {
    dir + "/" + TrimSlash(dir + "/")
  }

  /** The path with markers replaced, first one first, until none is left. */
  function Collapsed(path: string, dir: string): string
    requires dir != ""
    decreases |path|
  {
    if Contains(path, Marker(dir)) then Collapsed(ReplaceFirst(path, Marker(dir), dir + "/"), dir) else path
  }

  /** `collapseRepeatedCoworkPrefix`; `home` is `None` when the home directory is unknown. */
  method CollapseRepeatedCoworkPrefix(filePath: string, home: Option<string>) returns (path: string)
    ensures home.None? ==> path == filePath
    ensures home.Some? ==> path == Collapsed(filePath, DataDir(home.value))
  {
    path := filePath;
    if home.None? { return; }
    var base := DataDir(home.value) + "/";
    var marker := base + TrimSlash(base);
    while Contains(path, marker)
      invariant Collapsed(path, DataDir(home.value)) == Collapsed(filePath, DataDir(home.value))
      decreases |path|
    {
      path := ReplaceFirst(path, marker, base);
    }
  }

  /** What Desktop sends for an absolute path: the data directory before it, `k` times. */
  function Mangled(path: string, dir: string, k: nat): string {
    if k == 0 then path else dir + Mangled(path, dir, k - 1)
  }

  /** The result holds no doubled directory, so collapsing again changes nothing. */
  lemma {:induction false} CollapsedIsNormal(path: string, dir: string)
    requires dir != ""
    ensures !Contains(Collapsed(path, dir), Marker(dir))
    ensures Collapsed(Collapsed(path, dir), dir) == Collapsed(path, dir)
    ensures |Collapsed(path, dir)| <= |path|
    ensures Collapsed(path, dir) == path <==> !Contains(path, Marker(dir))
    decreases |path|
  {
    if Contains(path, Marker(dir)) {
      CollapsedIsNormal(ReplaceFirst(path, Marker(dir), dir + "/"), dir);
    }
  }

  lemma MarkerIsDouble(dir: string)
    requires Rooted(dir)
    ensures Marker(dir) == dir + (dir + "/")
  {
    assert (dir + "/")[1..] == dir[1..] + "/";
    assert dir == "/" + dir[1..];
  }

  lemma CollapseHead(path: string, dir: string)
    requires Rooted(dir) && dir + "/" <= path
    ensures Collapsed(dir + path, dir) == Collapsed(path, dir)
  {
    var s, m := dir + path, Marker(dir);
    MarkerIsDouble(dir);
    PrefixAfter(dir, dir + "/", path);
    assert MatchAt(s, 0, m);
    var rest := path[|dir| + 1..];
    assert path == dir + "/" + rest;
    ReplaceAtHead(s, m, dir + "/", rest);
  }

  lemma ReplaceAtHead(s: string, m: string, base: string, rest: string)
    requires MatchAt(s, 0, m) && rest == s[|m|..]
    ensures Contains(s, m) && ReplaceFirst(s, m, base) == base + rest
  {
    assert Index(s, m) == 0;
    assert s[..0] + base + rest == base + rest;
  }

  lemma {:induction false} MangledBegins(path: string, dir: string, k: nat)
    requires Rooted(dir) && dir + "/" <= path
    ensures dir + "/" <= Mangled(path, dir, k)
  {
    if k > 0 {
      MangledBegins(path, dir, k - 1);
      var inner := Mangled(path, dir, k - 1);
      assert inner[0] == (dir + "/")[0];
      PrefixAfter(dir, "/", inner);
    }
  }

  /** However often the directory was prepended to a path below it, the same path comes out. */
  lemma {:induction false} MangledCollapses(path: string, dir: string, k: nat, sent: string)
    requires Rooted(dir) && dir + "/" <= path && sent == Mangled(path, dir, k)
    ensures Collapsed(sent, dir) == Collapsed(path, dir)
    decreases k
  {
    if k > 0 {
      var inner := Mangled(path, dir, k - 1);
      MangledBegins(path, dir, k - 1);
      MangledCollapses(path, dir, k - 1, inner);
      CollapseHead(inner, dir);
    }
  }

  /** A sane absolute path survives being mangled exactly when it lies below the directory. */
  lemma {:induction false} MangledUndoneIff(path: string, dir: string, k: nat)
    requires Rooted(dir) && Rooted(path) && !Contains(path, Marker(dir)) && k > 0
    ensures Collapsed(Mangled(path, dir, k), dir) == path <==> dir + "/" <= path
  {
    if dir + "/" <= path {
      MangledCollapses(path, dir, k, Mangled(path, dir, k));
      CollapsedIsNormal(path, dir);
    } else {
      MangledFloor(path, dir, k, Mangled(path, dir, k));
    }
  }

  /** Collapsing never gets below one prepended directory unless the path lay inside it. */
  lemma {:induction false} MangledFloor(path: string, dir: string, k: nat, sent: string)
    requires Rooted(dir) && Rooted(path) && !Contains(path, Marker(dir)) && k > 0
    requires !(dir + "/" <= path) && sent == Mangled(path, dir, k)
    ensures Collapsed(sent, dir) != path
    decreases k
  {
    if k == 1 {
      OnceMangled(path, dir);
    } else {
      var inner := Mangled(path, dir, k - 1);
      MangledAgain(path, dir, k - 1);
      CollapseHead(inner, dir);
      MangledFloor(path, dir, k - 1, inner);
    }
  }

  lemma MangledAgain(path: string, dir: string, k: nat)
    requires Rooted(dir) && Rooted(path) && k > 0
    ensures dir + "/" <= Mangled(path, dir, k)
  {
    MangledRooted(path, dir, k - 1);
    var inner := Mangled(path, dir, k - 1);
    assert "/" <= inner;
    PrefixAfter(dir, "/", inner);
  }

  lemma MangledRooted(path: string, dir: string, k: nat)
    requires Rooted(dir) && Rooted(path)
    ensures Rooted(Mangled(path, dir, k))
  {
  }

  lemma {:induction false} OnceMangled(path: string, dir: string)
    requires Rooted(dir) && Rooted(path) && !Contains(path, Marker(dir)) && !(dir + "/" <= path)
    ensures Collapsed(dir + path, dir) != path
  {
    var s := dir + path;
    var m := Marker(dir);
    MarkerIsDouble(dir);
    var i := Index(s, m);
    if i >= 0 {
      var r := ReplaceFirst(s, m, dir + "/");
      assert |r| == |path|;
      if r == path { CollapsedToPath(path, dir, i); }
      CollapsedIsNormal(r, dir);
      CollapsedLength(r, dir);
    }
  }

  /** A path that collapses at all gets shorter. */
  lemma {:induction false} CollapsedLength(path: string, dir: string)
    requires dir != ""
    ensures |Collapsed(path, dir)| == |path| ==> Collapsed(path, dir) == path
  {
    if Contains(path, Marker(dir)) {
      CollapsedIsNormal(ReplaceFirst(path, Marker(dir), dir + "/"), dir);
    }
  }

  lemma FirstReplaced(s: string, m: string, base: string, i: nat, head: string, rest: string)
    requires Index(s, m) == i && head == s[..i] && rest == s[i + |m|..]
    ensures ReplaceFirst(s, m, base) == head + base + rest
  {
  }

  lemma DoubleBegins(dir: string, path: string, i: nat, m: string)
    requires i < |dir| && MatchAt(dir + path, i, m) && dir <= m
    ensures MatchAt(dir + path, i, dir) && (dir + path)[..i] == dir[..i]
  {
    assert MatchAt(m, 0, dir);
    SubMatch(dir + path, i, m, 0, dir);
  }

  lemma {:induction false} CollapsedToPath(path: string, dir: string, i: int)
    requires Rooted(dir) && Rooted(path) && !Contains(path, Marker(dir))
    requires i == Index(dir + path, Marker(dir)) >= 0
    requires ReplaceFirst(dir + path, Marker(dir), dir + "/") == path
    ensures dir + "/" <= path
  {
    var s := dir + path;
    var m := Marker(dir);
    MarkerIsDouble(dir);
    if i >= |dir| {
      MatchInTail(dir, path, i, m);
    } else {
      DoubleBegins(dir, path, i, m);
      FirstReplaced(s, m, dir + "/", i, dir[..i], s[i + |m|..]);
      Rotation(path, dir, i, dir[..i], s[i + |m|..]);
    }
  }

  lemma MatchInTail(a: string, b: string, i: int, p: string)
    requires MatchAt(a + b, i, p) && i >= |a|
    ensures MatchAt(b, i - |a|, p)
  {
    assert (a + b)[i..i + |p|] == b[i - |a|..i - |a| + |p|];
  }

  /** If moving the first `i` characters of the directory to its end gives it back, the path begins with it. */
  lemma Rotation(path: string, dir: string, i: nat, head: string, rest: string)
    requires Rooted(dir) && i < |dir| && MatchAt(dir + path, i, dir)
    requires head == dir[..i] && path == head + (dir + "/") + rest
    ensures dir + "/" <= path
  {
    var tail := dir[i..];
    assert dir == head + tail;
    Rotated(dir, path, i, head, tail);
    assert path == dir + (head + "/" + rest);
    if i > 0 { assert head[0] == '/'; }
    PrefixAfter(dir, "/", head + "/" + rest);
  }

  lemma Rotated(dir: string, path: string, i: nat, head: string, tail: string)
    requires i < |dir| && MatchAt(dir + path, i, dir) && dir == head + tail && |head| == i && head <= path
    ensures head + dir == dir + head
  {
    assert (dir + path)[i..i + |dir|] == tail + head;
    assert dir == tail + head;
    assert head + (tail + head) == (head + tail) + head;
  }
}
