/**
 When the session pass alone can be undone. A session directory is `root + "/sessions/" + name`,
 where `root` is the service's data directory, and the pass replaces `"/sessions/" + name` by it.
 */
module SessionPrefix {
  import opened Strings
  import opened Replacement

  const SESSIONS := "/sessions"

  function VmPrefix(name: string): (vm: string)
    ensures vm != ""
  {
    SESSIONS + "/" + name
  }

  function SessionDir(root: string, name: string): (dir: string)
    ensures dir != ""
  {
    root + VmPrefix(name)
  }

  predicate SessionName(name: string) {
    name != "" && '/' !in name
  }

  /** A data directory's absolute path, with no directory named `sessions` in it. */
  predicate DataRoot(root: string) {
    root != "" && root[0] == '/' && !Contains(root + "/", SESSIONS + "/")
  }

  lemma OneSlash()
    ensures |SESSIONS| == 9 && SESSIONS[0] == '/'
    ensures forall j :: 1 <= j < 9 ==> SESSIONS[j] != '/'
  {
  }

  /** `/sessions/` cannot begin before the end of a data root. */
  lemma SessionsAfterRoot(root: string, rest: string, i: int)
    requires DataRoot(root) && rest != "" && rest[0] == '/' && MatchAt(root + rest, i, SESSIONS + "/")
    ensures i >= |root|
  {
    OneSlash();
    var p := SESSIONS + "/";
    if i + |p| <= |root| + 1 {
      assert root + rest == (root + "/") + rest[1..];
      MatchInHead(root + "/", rest[1..], i, p);
    } else if i < |root| {
      MatchChar(root + rest, i, p, |root| - i);
    }
  }

  lemma PatternAfterRoot(root: string, name: string, rest: string, i: int)
    requires DataRoot(root) && rest != "" && rest[0] == '/' && MatchAt(root + rest, i, VmPrefix(name))
    ensures i >= |root|
  {
    assert VmPrefix(name) == (SESSIONS + "/") + name;
    assert MatchAt(VmPrefix(name), 0, SESSIONS + "/");
    SubMatch(root + rest, i, VmPrefix(name), 0, SESSIONS + "/");
    SessionsAfterRoot(root, rest, i);
  }

  lemma PatternChars(name: string)
    requires SessionName(name)
    ensures var f := VmPrefix(name);
            |f| == 10 + |name| && f[0] == '/' && f[9] == '/' && f[9..] == "/" + name &&
            forall j :: 1 <= j < |f| && j != 9 ==> f[j] != '/'
  {
    OneSlash();
    var f := VmPrefix(name);
    assert forall j :: 1 <= j < 9 ==> f[j] == SESSIONS[j];
    assert forall j :: 10 <= j < |f| ==> f[j] == name[j - 10];
  }

  /** The only border that can straddle is the session's name, as a prefix of the session directory. */
  lemma BorderIsName(root: string, name: string, k: int)
    requires SessionName(name) && DataRoot(root)
    requires 0 < k < |SessionDir(root, name)|
    requires var t := SessionDir(root, name); t[..k] == t[|t| - k..]
    ensures k == |name| + 1
  {
    var t, f := SessionDir(root, name), VmPrefix(name);
    PatternChars(name);
    if k >= |f| {
      MatchTail(root, f);
      assert MatchAt(t[|t| - k..], k - |f|, f) by { assert t[|t| - k..][k - |f|..k] == t[|root|..]; }
      MatchInHead(t[..k], t[k..], k - |f|, f);
      assert t[..k] + t[k..] == t;
      assert MatchAt(t, k - |f|, f);
      PatternAfterRoot(root, name, f, k - |f|);
    } else {
      assert t[|t| - k..][0] == f[|f| - k];
      assert t[..k][0] == root[0];
    }
  }

  /** `/sessions` and the session prefix right after it, where the name does not begin `sessions`. */
  lemma LatePattern(root: string, name: string, i: int)
    requires SessionName(name) && DataRoot(root)
    requires MatchAt(root + (SESSIONS + VmPrefix(name)), i, VmPrefix(name))
    ensures i == |root| + 9 || (i == |root| && name <= "sessions")
  {
    var f := VmPrefix(name);
    var rest := SESSIONS + f;
    var s := root + rest;
    PatternChars(name);
    OneSlash();
    PatternAfterRoot(root, name, rest, i);
    MatchChar(s, i, f, 0);
    assert forall j :: 1 <= j < 9 ==> s[|root| + j] == SESSIONS[j];
    if i == |root| {
      NameBeginsSessions(name);
      assert name == f[10..] == s[i..i + |f|][10..] == s[i + 10..i + |f|];
      assert s[i + 10..i + |f|] == (rest[10..])[..|name|];
    }
  }

  lemma NameBeginsSessions(name: string)
    requires SessionName(name)
    ensures (SESSIONS + VmPrefix(name))[10..] == "sessions/" + name
    ensures name <= "sessions/" + name ==> name <= "sessions"
  {
    var s := "sessions/" + name;
    assert SESSIONS + VmPrefix(name) == "/sessions/" + s;
    assert s[8] == '/';
    if name <= s {
      assert forall j :: 0 <= j < |name| ==> name[j] == s[j];
      assert |name| <= 8;
      assert s[..8] == "sessions";
    }
  }

  lemma EarlyPattern(root: string, name: string)
    requires SessionName(name) && name <= "sessions"
    ensures MatchAt(root + (SESSIONS + VmPrefix(name)), |root|, VmPrefix(name))
  {
    NameBeginsSessions(name);
    var rest := SESSIONS + VmPrefix(name);
    assert rest == "/sessions/" + ("sessions/" + name);
    assert VmPrefix(name) == "/sessions/" + name;
    assert name <= "sessions/" + name;
    PrefixAfter("/sessions/", name, "sessions/" + name);
    assert (root + rest)[|root|..] == rest;
  }

  lemma FirstLate(root: string, name: string, s: string, i: int)
    requires SessionName(name) && DataRoot(root) && s == root + (SESSIONS + VmPrefix(name))
    requires i == Index(s, VmPrefix(name)) && MatchAt(s, |root| + 9, VmPrefix(name))
    ensures i == if name <= "sessions" then |root| else |root| + 9
  {
    LatePattern(root, name, i);
    if name <= "sessions" { EarlyPattern(root, name); }
  }

  /** Where the pattern first occurs when a bare `/sessions` stands before it. */
  lemma FirstAfterBareSessions(root: string, name: string)
    requires SessionName(name) && DataRoot(root)
    ensures var x, f := root + SESSIONS, VmPrefix(name);
            Index(x + f, f) == if name <= "sessions" then |root| else |x|
  {
    var f := VmPrefix(name);
    var x := root + SESSIONS;
    var s := root + (SESSIONS + f);
    assert x + f == s;
    MatchTail(x, f);
    FirstLate(root, name, s, Index(s, f));
  }

  /** An occurrence of the whole directory can only start at the ninth character. */
  lemma WholeDirAtNine(root: string, name: string, s: string, p: nat)
    requires SessionName(name) && DataRoot(root) && !(name <= "sessions")
    requires s == root + (SESSIONS + VmPrefix(name)) && MatchAt(s, p, SessionDir(root, name))
    ensures p == 9 && MatchAt(s, 9, root)
  {
    var f, t := VmPrefix(name), SessionDir(root, name);
    MatchTail(root, f);
    SubMatch(s, p, t, |root|, f);
    LatePattern(root, name, p + |root|);
    assert MatchAt(t, 0, root);
    SubMatch(s, p, t, 0, root);
  }

  lemma NoWholeDir(root: string, name: string)
    requires SessionName(name) && DataRoot(root) && !(name <= "sessions")
    ensures !Contains(root + SESSIONS + VmPrefix(name), SessionDir(root, name))
  {
    var f, t := VmPrefix(name), SessionDir(root, name);
    var s := root + SESSIONS + f;
    assert s == root + (SESSIONS + f);
    RootEndsInSessions(root);
    var p := Index(s, t);
    if p >= 0 {
      WholeDirAtNine(root, name, s, p);
      MatchInHead(root + SESSIONS, f, 9, root);
    }
  }

  lemma RootEndsInSessions(root: string)
    requires DataRoot(root)
    ensures !MatchAt(root + SESSIONS, 9, root)
  {
    OneSlash();
    var x := root + SESSIONS;
    if MatchAt(x, 9, root) {
      MatchChar(x, 9, root, 0);
      if |root| >= 9 {
        LastNine(root, x);
        EndsInSessions(root, root[..|root| - 9]);
      }
    }
  }

  lemma LastNine(root: string, x: string)
    requires x == root + SESSIONS && |root| >= 9 && MatchAt(x, 9, root)
    ensures root == root[..|root| - 9] + SESSIONS
  {
    OneSlash();
    assert root == x[9..9 + |root|];
    assert forall j :: 0 <= j < 9 ==> root[|root| - 9 + j] == x[|root| + j] == SESSIONS[j];
  }

  lemma EndsInSessions(root: string, before: string)
    requires DataRoot(root)
    ensures root != before + SESSIONS
  {
    if root == before + SESSIONS {
      assert root + "/" == before + (SESSIONS + "/");
      MatchTail(before, SESSIONS + "/");
    }
  }

  lemma HeadOf(a: string, b: string, k: nat)
    requires k <= |a|
    ensures (a + b)[..k] == a[..k]
  {
  }

  lemma NameInRoot(root: string, name: string)
    requires SessionName(name) && root != "" && "/" + name <= SessionDir(root, name)
    ensures "/" + name <= root
  {
    var t, q := SessionDir(root, name), "/" + name;
    PatternChars(name);
    assert t[|root|] == '/';
    assert forall j :: 1 <= j < |q| ==> q[j] == name[j - 1];
    assert forall j :: 0 <= j < |q| ==> q[j] == t[j];
    assert |root| >= |q|;
  }

  /**
   For a data root without a directory named `sessions`, the session pass is undone on every text that does
   not name the session directory exactly when the session's name does not begin the root's path,
   the prefixes of the word `sessions` apart.
   */
  lemma SessionPassUndoneIff(root: string, name: string)
    requires SessionName(name) && DataRoot(root)
    ensures var f, t := VmPrefix(name), SessionDir(root, name);
            (forall s :: !Contains(s, t) ==> ReplaceAll(ReplaceAll(s, f, t), t, f) == s)
            <==> (name <= "sessions" || !("/" + name <= root))
  {
    PassUndoneIff(VmPrefix(name), SessionDir(root, name));
    StraddlesIff(root, name);
  }

  lemma DirParts(root: string, name: string, k: nat)
    requires k == |name| + 1
    ensures var t := SessionDir(root, name);
            |t| > k && t[..|t| - k] == root + SESSIONS && t[|t| - k..] == "/" + name && (k <= |root| ==> t[..k] == root[..k])
  {
    var t := SessionDir(root, name);
    assert t == (root + SESSIONS) + ("/" + name);
    if k <= |root| {
      assert t == root + (SESSIONS + ("/" + name));
      HeadOf(root, SESSIONS + ("/" + name), k);
    }
  }

  lemma NameMakesStraddle(root: string, name: string, k: nat)
    requires SessionName(name) && DataRoot(root) && "/" + name <= root && !(name <= "sessions") && k == |name| + 1
    ensures StraddleAt(VmPrefix(name), SessionDir(root, name), k)
  {
    FirstAfterBareSessions(root, name);
    DirParts(root, name, k);
    NoWholeDir(root, name);
  }

  lemma StraddleNeedsName(root: string, name: string, k: int)
    requires SessionName(name) && DataRoot(root) && StraddleAt(VmPrefix(name), SessionDir(root, name), k)
    ensures !(name <= "sessions") && "/" + name <= root
  {
    BorderIsName(root, name, k);
    DirParts(root, name, |name| + 1);
    FirstAfterBareSessions(root, name);
    NameInRoot(root, name);
  }

  lemma StraddlesIff(root: string, name: string)
    requires SessionName(name) && DataRoot(root)
    ensures Straddles(VmPrefix(name), SessionDir(root, name))
            <==> !(name <= "sessions") && "/" + name <= root
  {
    var f, t := VmPrefix(name), SessionDir(root, name);
    if Straddles(f, t) {
      var k :| 0 < k < |t| && StraddleAt(f, t, k);
      StraddleNeedsName(root, name, k);
    }
    if "/" + name <= root && !(name <= "sessions") {
      DirParts(root, name, |name| + 1);
      NameMakesStraddle(root, name, |name| + 1);
    }
  }
}
