/** The choice of a spawned process's working directory, and what it does to the transcript store. */
module Workspace {
  import opened LexicalPath
  import opened MountPaths
  import opened Options
  import opened Sorting
  import opened Transcript

  /** The host as the choice sees it: symlinks, the home directory, and the directories that exist. */
  datatype Host = Host(links: Links, home: string, dirs: set<string>)

  datatype WsMount = WsMount(name: string, hostPath: string)

  // ---- Eligible mounts ----

  predicate Infrastructure(name: string) {
    "." <= name || name == "uploads" || name == "outputs"
  }

  function HostPathOf(host: Host, spec: MountSpec): string {
    ResolveSubpath(host.links, host.home, spec.path)
  }

  predicate Serves(host: Host, mounts: map<string, MountSpec>, m: WsMount) {
    && m.name in mounts && !Infrastructure(m.name)
    && m.hostPath == HostPathOf(host, mounts[m.name]) && m.hostPath in host.dirs
  }

  function Names(ms: seq<WsMount>): (names: seq<string>)
    ensures |names| == |ms| && forall i :: 0 <= i < |ms| ==> names[i] == ms[i].name
  {
    seq(|ms|, i requires 0 <= i < |ms| => ms[i].name)
  }

  /** The mounts that can serve, each once, by name. */
  ghost predicate IsEligible(host: Host, mounts: map<string, MountSpec>, ms: seq<WsMount>) {
    Ascending(Names(ms)) && forall m :: m in ms <==> Serves(host, mounts, m)
  }

  /** `sort.Slice` by name, for mounts whose names differ. */
  method SortByName(ms: seq<WsMount>) returns (sorted: seq<WsMount>)
    requires forall i, j :: 0 <= i < j < |ms| ==> ms[i].name != ms[j].name
    ensures Ascending(Names(sorted)) && forall m :: m in sorted <==> m in ms
  {
    sorted := [];
    for i := 0 to |ms|
      invariant Ascending(Names(sorted))
      invariant forall m :: m in sorted <==> m in ms[..i]
    {
      var m := ms[i];
      forall k | 0 <= k < |sorted| ensures Names(sorted)[k] != m.name {
        assert sorted[k] in ms[..i];
      }
      var at := Position(Names(sorted), m.name);
      var next := sorted[..at] + [m] + sorted[at..];
      assert Names(next) == Names(sorted)[..at] + [m.name] + Names(sorted)[at..];
      assert ms[..i + 1] == ms[..i] + [m] && sorted == sorted[..at] + sorted[at..];
      sorted := next;
    }
    assert ms[..|ms|] == ms;
  }

  method EligibleWorkspaceMounts(host: Host, mounts: map<string, MountSpec>) returns (eligible: seq<WsMount>)
    ensures IsEligible(host, mounts, eligible)
  {
    eligible := [];
    var left := mounts.Keys;
    while left != {}
      invariant left <= mounts.Keys
      invariant forall m :: m in eligible <==> Serves(host, mounts, m) && m.name !in left
      invariant forall i :: 0 <= i < |eligible| ==> eligible[i].name !in left
      invariant forall i, j :: 0 <= i < j < |eligible| ==> eligible[i].name != eligible[j].name
      decreases left
    {
      var name :| name in left;
      left := left - {name};
      if !("." <= name || name == "uploads" || name == "outputs") {
        var hostPath := ResolveSubpath(host.links, host.home, mounts[name].path);
        if hostPath in host.dirs {
          eligible := eligible + [WsMount(name, hostPath)];
        }
      }
    }
    eligible := SortByName(eligible);
  }

  /** The order in which the mounts are visited has no effect on the result. */
  lemma EligibleUnique(host: Host, mounts: map<string, MountSpec>, ms: seq<WsMount>, other: seq<WsMount>)
    requires IsEligible(host, mounts, ms) && IsEligible(host, mounts, other)
    ensures ms == other
  {
    forall n ensures n in Names(ms) <==> n in Names(other) {
      SameNames(host, mounts, ms, other, n);
      SameNames(host, mounts, other, ms, n);
    }
    AscendingUnique(Names(ms), Names(other));
    assert |ms| == |Names(ms)| == |other|;
    forall i | 0 <= i < |ms| ensures ms[i] == other[i] {
      assert Names(ms)[i] == Names(other)[i];
      assert ms[i] in ms && other[i] in other;
    }
  }

  lemma SameNames(host: Host, mounts: map<string, MountSpec>, ms: seq<WsMount>, other: seq<WsMount>, n: string)
    requires IsEligible(host, mounts, ms) && IsEligible(host, mounts, other)
    ensures n in Names(ms) ==> n in Names(other)
  {
    if n !in Names(ms) { return; }
    var i :| 0 <= i < |ms| && Names(ms)[i] == n;
    assert ms[i] in other;
    var j :| 0 <= j < |other| && other[j] == ms[i];
    assert Names(other)[j] == n;
  }

  // ---- Candidates ----

  /** The Unicode white space that `strings.TrimSpace` removes. */
  predicate IsSpace(c: char) {
    var n := c as int;
    9 <= n <= 13 || n in {0x20, 0x85, 0xA0, 0x1680, 0x2028, 0x2029, 0x202F, 0x205F, 0x3000} || 0x2000 <= n <= 0x200A
  }

  function TrimLeft(s: string): string {
    if s != "" && IsSpace(s[0]) then TrimLeft(s[1..]) else s
  }

  function TrimSpace(s: string): string {
    TrimRight(TrimLeft(s))
  }

  function TrimRight(s: string): string {
    if s != "" && IsSpace(s[|s| - 1]) then TrimRight(s[..|s| - 1]) else s
  }

  /** The text between bars. */
  function Fields(s: string): (parts: seq<string>)
    ensures parts != []
  {
    if s == "" then [""]
    else
      var rest := Fields(s[1..]);
      if s[0] == '|' then [""] + rest else [[s[0]] + rest[0]] + rest[1..]
  }

  /** A workspace hint names a mount's host path: as spelled, or once both are canonical. */
  predicate Matches(host: Host, entry: string, m: WsMount) {
    var want := if "/" <= entry then entry else ResolveSubpath(host.links, host.home, entry);
    m.hostPath == want || Canonicalize(host.links, m.hostPath) == Canonicalize(host.links, want)
  }

  /** The hint a field stands for, if it names the mount at all. */
  predicate Hints(host: Host, field: string, m: WsMount) {
    TrimSpace(field) != "" && Matches(host, TrimSpace(field), m)
  }

  /** Which fields name which mounts. */
  type Hits = (string, WsMount) -> bool

  function HintsOn(host: Host): Hits {
    (field, m) => Hints(host, field, m)
  }

  function HostPaths(ms: seq<WsMount>): (paths: seq<string>)
    ensures |paths| == |ms| && forall i :: 0 <= i < |ms| ==> paths[i] == ms[i].hostPath
  {
    if ms == [] then [] else HostPaths(ms[..|ms| - 1]) + [ms[|ms| - 1].hostPath]
  }

  /** The host paths one field names, in mount order. */
  function Named(hits: Hits, field: string, ms: seq<WsMount>): seq<string> {
    if ms == [] then []
    else
      var m := ms[|ms| - 1];
      Named(hits, field, ms[..|ms| - 1]) + (if hits(field, m) then [m.hostPath] else [])
  }

  function NamedByAll(hits: Hits, fields: seq<string>, ms: seq<WsMount>): seq<string> {
    if fields == [] then []
    else NamedByAll(hits, fields[..|fields| - 1], ms) + Named(hits, fields[|fields| - 1], ms)
  }

  /** First occurrences only. */
  function Firsts(xs: seq<string>): seq<string> {
    if xs == [] then []
    else
      var before, x := Firsts(xs[..|xs| - 1]), xs[|xs| - 1];
      if x in before then before else before + [x]
  }

  function HintFields(raw: string): seq<string> {
    if raw == "" then [] else Fields(raw)
  }

  function Candidates(host: Host, raw: string, eligible: seq<WsMount>): seq<string> {
    Firsts(Ranked(HintsOn(host), HintFields(raw), eligible))
  }

  lemma FirstsSnoc(xs: seq<string>, x: string)
    ensures Firsts(xs + [x]) == if x in Firsts(xs) then Firsts(xs) else Firsts(xs) + [x]
  {
    assert (xs + [x])[..|xs|] == xs;
  }

  /** One `add`: the path is appended unless it was seen. */
  method Add(seen: set<string>, candidates: seq<string>, p: string, ghost wanted: seq<string>)
    returns (seen1: set<string>, candidates1: seq<string>)
    requires candidates == Firsts(wanted) && forall q :: q in seen <==> q in candidates
    ensures candidates1 == Firsts(wanted + [p]) && forall q :: q in seen1 <==> q in candidates1
  {
    FirstsSnoc(wanted, p);
    seen1, candidates1 := seen, candidates;
    if p !in seen {
      seen1, candidates1 := seen + {p}, candidates + [p];
    }
  }

  lemma NamedStep(hits: Hits, field: string, ms: seq<WsMount>, i: nat)
    requires i < |ms|
    ensures Named(hits, field, ms[..i + 1])
            == Named(hits, field, ms[..i]) + (if hits(field, ms[i]) then [ms[i].hostPath] else [])
  {
    assert ms[..i + 1][..i] == ms[..i];
  }

  lemma UnnamedField(host: Host, field: string, ms: seq<WsMount>)
    requires TrimSpace(field) == ""
    ensures Named(HintsOn(host), field, ms) == []
  {
  }

  method OrderedCwdCandidates(host: Host, env: map<string, string>, eligible: seq<WsMount>) returns (candidates: seq<string>)
    ensures candidates == Candidates(host, HintVar(env), eligible)
  {
    var seen := {};
    candidates := [];
    ghost var wanted := [];
    var raw := HintVar(env);
    if raw != "" {
      var canon := seq(|eligible|, i requires 0 <= i < |eligible| => Canonicalize(host.links, eligible[i].hostPath));
      var fields := Fields(raw);
      for f := 0 to |fields|
        invariant candidates == Firsts(wanted) && forall q :: q in seen <==> q in candidates
        invariant wanted == NamedByAll(HintsOn(host), fields[..f], eligible)
      {
        var entry := TrimSpace(fields[f]);
        NamedByOneMore(HintsOn(host), fields, f, eligible);
        if entry == "" {
          UnnamedField(host, fields[f], eligible);
          continue;
        }
        seen, candidates := AddMatching(host, fields[f], eligible, canon, seen, candidates, wanted);
        wanted := wanted + Named(HintsOn(host), fields[f], eligible);
      }
      assert fields[..|fields|] == fields;
    }
    ghost var hinted := wanted;
    assert hinted + [] == hinted;
    for i := 0 to |eligible|
      invariant candidates == Firsts(wanted) && forall q :: q in seen <==> q in candidates
      invariant wanted == hinted + HostPaths(eligible[..i])
    {
      HostPathsStep(eligible, i);
      Regroup(hinted, HostPaths(eligible[..i]), [eligible[i].hostPath]);
      seen, candidates := Add(seen, candidates, eligible[i].hostPath, wanted);
      wanted := wanted + [eligible[i].hostPath];
    }
    assert eligible[..|eligible|] == eligible;
  }

  lemma HostPathsStep(ms: seq<WsMount>, i: nat)
    requires i < |ms|
    ensures HostPaths(ms[..i + 1]) == HostPaths(ms[..i]) + [ms[i].hostPath]
  {
    assert ms[..i + 1][..i] == ms[..i];
  }

  lemma NamedByOneMore(hits: Hits, fields: seq<string>, f: nat, ms: seq<WsMount>)
    requires f < |fields|
    ensures NamedByAll(hits, fields[..f + 1], ms) == NamedByAll(hits, fields[..f], ms) + Named(hits, fields[f], ms)
  {
    assert fields[..f + 1][..f] == fields[..f];
  }

  lemma Regroup(a: seq<string>, b: seq<string>, c: seq<string>)
    ensures (a + b) + c == a + (b + c) && a + [] == a
  {
  }

  lemma MatchStep(hits: Hits, field: string, ms: seq<WsMount>, i: nat, wanted: seq<string>, wanted1: seq<string>)
    requires i < |ms| && wanted1 == wanted + Named(hits, field, ms[..i])
    ensures wanted + Named(hits, field, ms[..i + 1])
            == (if hits(field, ms[i]) then wanted1 + [ms[i].hostPath] else wanted1)
  {
    NamedStep(hits, field, ms, i);
    Regroup(wanted, Named(hits, field, ms[..i]), if hits(field, ms[i]) then [ms[i].hostPath] else []);
  }

  /** The inner loop: every mount the field names is added. */
  method AddMatching(host: Host, field: string, eligible: seq<WsMount>, canon: seq<string>,
                     seen: set<string>, candidates: seq<string>, ghost wanted: seq<string>)
    returns (seen1: set<string>, candidates1: seq<string>)
    requires TrimSpace(field) != "" && |canon| == |eligible|
    requires forall i :: 0 <= i < |eligible| ==> canon[i] == Canonicalize(host.links, eligible[i].hostPath)
    requires candidates == Firsts(wanted) && forall q :: q in seen <==> q in candidates
    ensures candidates1 == Firsts(wanted + Named(HintsOn(host), field, eligible)) && forall q :: q in seen1 <==> q in candidates1
  {
    var entry := TrimSpace(field);
    var want := entry;
    if !("/" <= entry) {
      want := ResolveSubpath(host.links, host.home, entry);
    }
    var wantCanon := Canonicalize(host.links, want);
    seen1, candidates1 := seen, candidates;
    ghost var wanted1 := wanted;
    for i := 0 to |eligible|
      invariant candidates1 == Firsts(wanted1) && forall q :: q in seen1 <==> q in candidates1
      invariant wanted1 == wanted + Named(HintsOn(host), field, eligible[..i])
    {
      var m := eligible[i];
      var hit := m.hostPath == want || canon[i] == wantCanon;
      assert hit == HintsOn(host)(field, m);
      MatchStep(HintsOn(host), field, eligible, i, wanted, wanted1);
      if hit {
        seen1, candidates1 := Add(seen1, candidates1, m.hostPath, wanted1);
        wanted1 := wanted1 + [m.hostPath];
      }
    }
    assert eligible[..|eligible|] == eligible;
  }

  const HINT_VAR := "CLAUDE_CODE_WORKSPACE_HOST_PATHS"

  function HintVar(env: map<string, string>): string {
    if HINT_VAR in env then env[HINT_VAR] else ""
  }

  // ---- What the candidates are ----

  /** `p` stands before `q`. */
  predicate Before(xs: seq<string>, p: string, q: string) {
    exists i, j :: 0 <= i < j < |xs| && xs[i] == p && xs[j] == q
  }

  predicate NoDuplicates(xs: seq<string>) {
    forall i, j :: 0 <= i < j < |xs| ==> xs[i] != xs[j]
  }

  lemma {:induction false} FirstsKeepsAll(xs: seq<string>)
    ensures NoDuplicates(Firsts(xs)) && forall p :: p in Firsts(xs) <==> p in xs
  {
    if xs != [] {
      var init := xs[..|xs| - 1];
      FirstsKeepsAll(init);
      assert xs == init + [xs[|xs| - 1]];
    }
  }

  lemma {:induction false} FirstsGrows(xs: seq<string>, ys: seq<string>)
    ensures Firsts(xs) <= Firsts(xs + ys)
    decreases |ys|
  {
    if ys == [] {
      assert xs + ys == xs;
    } else {
      var init := ys[..|ys| - 1];
      FirstsGrows(xs, init);
      assert xs + ys == (xs + init) + [ys[|ys| - 1]];
      FirstsSnoc(xs + init, ys[|ys| - 1]);
    }
  }

  /** What occurs earlier comes earlier. */
  lemma EarlierComesFirst(xs: seq<string>, ys: seq<string>, p: string, q: string)
    requires p in xs && q !in xs && q in ys
    ensures Before(Firsts(xs + ys), p, q)
  {
    FirstsGrows(xs, ys);
    FirstsKeepsAll(xs);
    FirstsKeepsAll(xs + ys);
    var first, all := Firsts(xs), Firsts(xs + ys);
    assert p in first && q !in first && q in xs + ys && q in all;
    assert forall k :: 0 <= k < |first| ==> all[k] == first[k] && first[k] != q;
    var i :| 0 <= i < |first| && first[i] == p;
    var j :| 0 <= j < |all| && all[j] == q;
    assert all[i] == p;
  }

  /** The candidates are the eligible host paths, each once: a hint never adds a path of its own. */
  lemma CandidatesAreEligible(host: Host, raw: string, eligible: seq<WsMount>)
    ensures var cs := Candidates(host, raw, eligible);
            NoDuplicates(cs) && forall p :: p in cs <==> p in HostPaths(eligible)
  {
    var hinted := NamedByAll(HintsOn(host), HintFields(raw), eligible);
    FirstsKeepsAll(hinted + HostPaths(eligible));
    forall p | p in hinted ensures p in HostPaths(eligible) {
      HintedAreEligible(HintsOn(host), HintFields(raw), eligible, p);
    }
  }

  lemma {:induction false} HintedAreEligible(hits: Hits, fields: seq<string>, ms: seq<WsMount>, p: string)
    ensures p in NamedByAll(hits, fields, ms) <==> Hinted(hits, fields, ms, p)
    ensures p in NamedByAll(hits, fields, ms) ==> p in HostPaths(ms)
  {
    if fields != [] {
      var init, last := fields[..|fields| - 1], fields[|fields| - 1];
      HintedAreEligible(hits, init, ms, p);
      NamedAre(hits, last, ms, p);
      HintedByOneMore(hits, init, last, fields, ms, p);
    }
  }

  lemma HintedByOneMore(hits: Hits, init: seq<string>, last: string, fields: seq<string>, ms: seq<WsMount>, p: string)
    requires fields == init + [last]
    ensures Hinted(hits, fields, ms, p)
            <==> Hinted(hits, init, ms, p) || exists m :: 0 <= m < |ms| && hits(last, ms[m]) && ms[m].hostPath == p
  {
    if Hinted(hits, init, ms, p) {
      var f, m :| 0 <= f < |init| && 0 <= m < |ms| && hits(init[f], ms[m]) && ms[m].hostPath == p;
      assert fields[f] == init[f];
    }
    if m :| 0 <= m < |ms| && hits(last, ms[m]) && ms[m].hostPath == p {
      assert fields[|init|] == last;
    }
    if f, m :| 0 <= f < |fields| && 0 <= m < |ms| && hits(fields[f], ms[m]) && ms[m].hostPath == p {
      assert f < |init| ==> init[f] == fields[f];
    }
  }

  lemma {:induction false} NamedAre(hits: Hits, field: string, ms: seq<WsMount>, p: string)
    ensures p in Named(hits, field, ms) <==> exists m :: 0 <= m < |ms| && hits(field, ms[m]) && ms[m].hostPath == p
    ensures p in Named(hits, field, ms) ==> p in HostPaths(ms)
  {
    if ms != [] {
      var init := ms[..|ms| - 1];
      NamedAre(hits, field, init, p);
      if p in Named(hits, field, init) {
        var m :| 0 <= m < |init| && hits(field, init[m]) && init[m].hostPath == p;
        assert ms[m] == init[m];
      } else if m :| 0 <= m < |ms| && hits(field, ms[m]) && ms[m].hostPath == p {
        assert m < |init| ==> init[m] == ms[m];
      }
    }
  }

  /** Some field names the path, through an eligible mount. */
  predicate Hinted(hits: Hits, fields: seq<string>, ms: seq<WsMount>, p: string) {
    exists f, m :: 0 <= f < |fields| && 0 <= m < |ms| && hits(fields[f], ms[m]) && ms[m].hostPath == p
  }

  lemma {:induction false} NamedByAllSplit(hits: Hits, fields: seq<string>, k: nat, ms: seq<WsMount>) returns (rest: seq<string>)
    requires k <= |fields|
    ensures NamedByAll(hits, fields, ms) == NamedByAll(hits, fields[..k], ms) + rest
    decreases |fields|
  {
    if k == |fields| {
      assert fields[..k] == fields;
      rest := [];
    } else {
      var init := fields[..|fields| - 1];
      var r := NamedByAllSplit(hits, init, k, ms);
      assert init[..k] == fields[..k];
      rest := r + Named(hits, fields[|fields| - 1], ms);
    }
  }

  /** All the paths in the order they are wanted: those the fields name, then every host path. */
  function Ranked(hits: Hits, fields: seq<string>, ms: seq<WsMount>): seq<string> {
    NamedByAll(hits, fields, ms) + HostPaths(ms)
  }

  lemma {:induction false} EarlierFieldFirst(hits: Hits, fields: seq<string>, ms: seq<WsMount>, k: nat, p: string, q: string)
    requires k <= |fields| && Hinted(hits, fields[..k], ms, p) && !Hinted(hits, fields[..k], ms, q) && q in HostPaths(ms)
    ensures Before(Firsts(Ranked(hits, fields, ms)), p, q)
  {
    HintedAreEligible(hits, fields[..k], ms, p);
    HintedAreEligible(hits, fields[..k], ms, q);
    var rest := NamedByAllSplit(hits, fields, k, ms);
    var xs, ys := NamedByAll(hits, fields[..k], ms), rest + HostPaths(ms);
    EarlierComesFirst(xs, ys, p, q);
    Regroup(xs, rest, HostPaths(ms));
  }

  /** A path named by the first `k` hints comes before any candidate that they do not name. */
  lemma EarlierHintFirst(host: Host, raw: string, eligible: seq<WsMount>, k: nat, p: string, q: string)
    requires var fields := HintFields(raw);
             k <= |fields| && Hinted(HintsOn(host), fields[..k], eligible, p)
             && !Hinted(HintsOn(host), fields[..k], eligible, q)
    requires q in HostPaths(eligible)
    ensures Before(Candidates(host, raw, eligible), p, q)
  {
    EarlierFieldFirst(HintsOn(host), HintFields(raw), eligible, k, p, q);
  }

  // ---- What a hint names ----

  /** The fields, with bars between them. */
  function Barred(parts: seq<string>): string
    requires parts != []
  {
    if |parts| == 1 then parts[0] else parts[0] + "|" + Barred(parts[1..])
  }

  lemma {:induction false} FieldsCons(c: string, s: string)
    requires '|' !in c
    ensures Fields(c + "|" + s) == [c] + Fields(s)
  {
    var t := c + "|" + s;
    if c == "" {
      assert t[1..] == s;
    } else {
      FieldsCons(c[1..], s);
      assert t[1..] == c[1..] + "|" + s && t[0] == c[0];
      assert ([c[1..]] + Fields(s))[1..] == Fields(s) && [c[0]] + c[1..] == c;
    }
  }

  lemma {:induction false} FieldsPlain(c: string)
    requires '|' !in c
    ensures Fields(c) == [c]
  {
    if c != "" {
      FieldsPlain(c[1..]);
      assert [c[0]] + c[1..] == c;
    }
  }

  /** Hints are told apart by the bars between them. */
  lemma {:induction false} FieldsBarred(parts: seq<string>)
    requires parts != [] && forall p :: p in parts ==> '|' !in p
    ensures Fields(Barred(parts)) == parts
  {
    if |parts| == 1 {
      FieldsPlain(parts[0]);
    } else {
      FieldsBarred(parts[1..]);
      FieldsCons(parts[0], Barred(parts[1..]));
    }
  }

  predicate Blank(w: string) {
    forall c :: c in w ==> IsSpace(c)
  }

  predicate Trimmed(p: string) {
    p != "" && !IsSpace(p[0]) && !IsSpace(p[|p| - 1])
  }

  lemma {:induction false} TrimLeftBlank(w: string, p: string)
    requires Blank(w) && p != "" && !IsSpace(p[0])
    ensures TrimLeft(w + p) == p
  {
    if w == "" {
      assert w + p == p;
    } else {
      assert w[0] in w && (w + p)[1..] == w[1..] + p;
      TrimLeftBlank(w[1..], p);
    }
  }

  lemma {:induction false} TrimRightBlank(p: string, w: string)
    requires Blank(w) && p != "" && !IsSpace(p[|p| - 1])
    ensures TrimRight(p + w) == p
    decreases |w|
  {
    if w == "" {
      assert p + w == p;
    } else {
      var last := |w| - 1;
      assert w[last] in w && (p + w)[..|p + w| - 1] == p + w[..last];
      TrimRightBlank(p, w[..last]);
    }
  }

  /** White space around a hint does not matter. */
  lemma TrimSpaceBlank(before: string, p: string, after: string)
    requires Blank(before) && Trimmed(p) && Blank(after)
    ensures TrimSpace(before + (p + after)) == p
  {
    TrimLeftBlank(before, p + after);
    TrimRightBlank(p, after);
  }

  /**
   A hint names exactly the mounts whose host path is the one it spells, from the root or from home, or
   the same one once both are canonical, whatever white space stands around it.
   */
  lemma HintNamesIff(host: Host, before: string, entry: string, after: string, m: WsMount)
    requires Blank(before) && Trimmed(entry) && Blank(after)
    ensures var spelled := if Rooted(entry) then entry else ResolveSubpath(host.links, host.home, entry);
            Hints(host, before + (entry + after), m)
            <==> m.hostPath == spelled || Canonicalize(host.links, m.hostPath) == Canonicalize(host.links, spelled)
  {
    TrimSpaceBlank(before, entry, after);
    RootedIff(entry);
  }

  lemma RootedIff(p: string)
    ensures Rooted(p) <==> "/" <= p
  {
  }

  lemma HostPathsSplit(ms: seq<WsMount>, k: nat) returns (rest: seq<string>)
    requires k <= |ms|
    ensures HostPaths(ms) == HostPaths(ms[..k]) + rest
  {
    rest := HostPaths(ms)[k..];
    assert HostPaths(ms[..k]) == HostPaths(ms)[..k];
  }

  lemma {:induction false} NamedSplit(hits: Hits, field: string, ms: seq<WsMount>, k: nat) returns (rest: seq<string>)
    requires k <= |ms|
    ensures Named(hits, field, ms) == Named(hits, field, ms[..k]) + rest
    decreases |ms|
  {
    if k == |ms| {
      rest := [];
      assert ms[..k] == ms && Named(hits, field, ms) + [] == Named(hits, field, ms);
    } else {
      var init, last := ms[..|ms| - 1], ms[|ms| - 1];
      assert init[..k] == ms[..k];
      rest := NamedSplit(hits, field, init, k);
      var more := if hits(field, last) then [last.hostPath] else [];
      Regroup(Named(hits, field, ms[..k]), rest, more);
      rest := rest + more;
    }
  }

  /** What one field adds, up to a mount, comes before all that follows. */
  lemma {:induction false} UpToMount(hits: Hits, fields: seq<string>, ms: seq<WsMount>, k: nat, i: nat) returns (rest: seq<string>)
    requires k < |fields| && i < |ms|
    ensures Ranked(hits, fields, ms) == (NamedByAll(hits, fields[..k], ms) + Named(hits, fields[k], ms[..i + 1])) + rest
  {
    var later := NamedByAllSplit(hits, fields, k + 1, ms);
    NamedByOneMore(hits, fields, k, ms);
    var more := NamedSplit(hits, fields[k], ms, i + 1);
    rest := more + (later + HostPaths(ms));
    FourParts(NamedByAll(hits, fields[..k], ms), Named(hits, fields[k], ms[..i + 1]), more, later, HostPaths(ms));
  }

  lemma FourParts(a: seq<string>, b: seq<string>, c: seq<string>, d: seq<string>, e: seq<string>)
    ensures ((a + (b + c)) + d) + e == (a + b) + (c + (d + e))
  {
  }

  /** Among the paths that one hint names, those of mounts earlier by name come first. */
  lemma SameHintByName(host: Host, raw: string, eligible: seq<WsMount>, k: nat, i: nat, q: string)
    requires var fields := HintFields(raw);
             && k < |fields| && i < |eligible| && HintsOn(host)(fields[k], eligible[i])
             && !Hinted(HintsOn(host), fields[..k], eligible, q)
             && !Hinted(HintsOn(host), [fields[k]], eligible[..i + 1], q)
    requires q in HostPaths(eligible)
    ensures Before(Candidates(host, raw, eligible), eligible[i].hostPath, q)
  {
    var hits, fields := HintsOn(host), HintFields(raw);
    var first, here := NamedByAll(hits, fields[..k], eligible), Named(hits, fields[k], eligible[..i + 1]);
    var rest := UpToMount(hits, fields, eligible, k, i);
    HintedAreEligible(hits, fields[..k], eligible, q);
    OneField(hits, fields[k], eligible[..i + 1], q);
    NamedStep(hits, fields[k], eligible, i);
    LastIn(Named(hits, fields[k], eligible[..i]), eligible[i].hostPath);
    RankedHasAll(hits, fields, eligible, q);
    EarlierComesFirst(first + here, rest, eligible[i].hostPath, q);
  }

  lemma LastIn(xs: seq<string>, x: string)
    ensures x in xs + [x]
  {
    assert (xs + [x])[|xs|] == x;
  }

  lemma RankedHasAll(hits: Hits, fields: seq<string>, ms: seq<WsMount>, q: string)
    requires q in HostPaths(ms)
    ensures q in Ranked(hits, fields, ms)
  {
  }

  lemma OneField(hits: Hits, field: string, ms: seq<WsMount>, q: string)
    ensures q in Named(hits, field, ms) ==> Hinted(hits, [field], ms, q)
  {
    NamedAre(hits, field, ms, q);
    if q in Named(hits, field, ms) {
      var m :| 0 <= m < |ms| && hits(field, ms[m]) && ms[m].hostPath == q;
      assert hits([field][0], ms[m]);
    }
  }

  lemma {:induction false} UnnamedInOrder(hits: Hits, fields: seq<string>, ms: seq<WsMount>, k: nat, q: string)
    requires k < |ms| && !Hinted(hits, fields, ms, q) && q in HostPaths(ms) && q !in HostPaths(ms[..k + 1])
    ensures Before(Firsts(Ranked(hits, fields, ms)), ms[k].hostPath, q)
  {
    HintedAreEligible(hits, fields, ms, q);
    var rest := HostPathsSplit(ms, k + 1);
    var named, head := NamedByAll(hits, fields, ms), HostPaths(ms[..k + 1]);
    assert head[k] == ms[k].hostPath && ms[k].hostPath in named + head;
    EarlierComesFirst(named + head, rest, ms[k].hostPath, q);
    Regroup(named, head, rest);
  }

  /** Paths that no hint names follow in the order of the mounts' names. */
  lemma {:induction false} UnhintedByName(host: Host, raw: string, eligible: seq<WsMount>, k: nat, q: string)
    requires k < |eligible| && !Hinted(HintsOn(host), HintFields(raw), eligible, q)
    requires q in HostPaths(eligible) && q !in HostPaths(eligible[..k + 1])
    ensures Before(Candidates(host, raw, eligible), eligible[k].hostPath, q)
  {
    UnnamedInOrder(HintsOn(host), HintFields(raw), eligible, k, q);
  }
}
