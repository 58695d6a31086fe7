/** The CLI's transcript store: project slugs, session ids, lookup, and the copy that never overwrites. */
module Transcript {
  import opened LexicalPath
  import opened Sorting

  const MAX_SLUG := 200

  // ---- Slugs ----

  predicate Alphanumeric(c: char) {
    'a' <= c <= 'z' || 'A' <= c <= 'Z' || '0' <= c <= '9'
  }

  function Dashed(path: string): (s: string)
    ensures |s| == |path|
    ensures forall i :: 0 <= i < |path| ==> s[i] == if Alphanumeric(path[i]) then path[i] else '-'
  {
    if path == "" then ""
    else Dashed(path[..|path| - 1]) + [if Alphanumeric(path[|path| - 1]) then path[|path| - 1] else '-']
  }

  /** The project directory name of a cwd; empty when the CLI would shorten it. */
  function Slug(path: string): string {
    if |path| > MAX_SLUG then "" else Dashed(path)
  }

  method Slugify(path: string) returns (s: string)
    ensures s == Slug(path)
  {
    var b := "";
    for i := 0 to |path|
      invariant b == Dashed(path[..i])
    {
      var r := path[i];
      if 'a' <= r <= 'z' || 'A' <= r <= 'Z' || '0' <= r <= '9' {
        b := b + [r];
      } else {
        b := b + ['-'];
      }
      assert path[..i + 1][..i] == path[..i];
    }
    assert path[..|path|] == path;
    s := if |b| > MAX_SLUG then "" else b;
  }

  /** A usable slug names one plain directory, and is its own slug. */
  lemma SlugIsPlain(path: string)
    requires Slug(path) != ""
    ensures Plain(Slug(path)) && Slug(Slug(path)) == Slug(path)
  {
    var s := Slug(path);
    assert !Alphanumeric('/') && !('/' == '-');
    assert forall i :: 0 <= i < |s| ==> (Alphanumeric(s[i]) || s[i] == '-') && s[i] != '/';
    assert !Alphanumeric('.');
    assert s[0] != '.';
    assert Dashed(s) == s;
  }

  /** A directory has a usable slug exactly when its path is not empty and not too long. */
  lemma SlugUsableIff(path: string)
    ensures Slug(path) != "" <==> 0 < |path| <= 200
  {
  }

  // ---- The resumed session ----

  const RESUME := "--resume"

  predicate ResumeFlag(a: string) {
    a == RESUME || RESUME + "=" <= a
  }

  /** The value of the first resume flag, if there is one. */
  function ResumeID(args: seq<string>): string {
    if args == [] then ""
    else if args[0] == RESUME then (if |args| > 1 then args[1] else "")
    else if RESUME + "=" <= args[0] then args[0][|RESUME| + 1..]
    else ResumeID(args[1..])
  }

  method ExtractResumeID(args: seq<string>) returns (id: string)
    ensures id == ResumeID(args)
  {
    for i := 0 to |args|
      invariant ResumeID(args) == ResumeID(args[i..])
    {
      var a := args[i];
      assert args[i..][1..] == args[i + 1..];
      if a == RESUME {
        if i + 1 < |args| { return args[i + 1]; }
        return "";
      }
      if RESUME + "=" <= a { return a[|RESUME| + 1..]; }
    }
    id := "";
  }

  /** Arguments before the first flag do not matter; the flag decides, with its own value or the next argument. */
  lemma {:induction false} FirstFlagDecides(args: seq<string>, i: nat)
    requires i < |args| && ResumeFlag(args[i]) && forall j :: 0 <= j < i ==> !ResumeFlag(args[j])
    ensures ResumeID(args) == if args[i] != RESUME then args[i][|RESUME| + 1..]
                              else if i + 1 < |args| then args[i + 1] else ""
    decreases i
  {
    if i > 0 {
      assert !ResumeFlag(args[0]);
      FirstFlagDecides(args[1..], i - 1);
    }
  }

  /** A session id may be used as a file name. */
  predicate ValidId(id: string) {
    id != "" && id != "." && id != ".." && '/' !in id && '\\' !in id
  }

  function TranscriptPath(cfg: string, slug: string, id: string): string {
    Join(Join(Join(cfg, "projects"), slug), id + ".jsonl")
  }

  /** A valid id and a plain project name give a file two levels below `projects`, from which both can be read off. */
  lemma PathStaysInProject(cfg: string, slug: string, id: string)
    requires IsClean(cfg) && Plain(slug) && ValidId(id)
    ensures var p := TranscriptPath(cfg, slug, id);
            Base(p) == id + ".jsonl" && Base(Dir(p)) == slug && Dir(Dir(p)) == Join(cfg, "projects")
            && Dir(Dir(Dir(p))) == cfg
  {
    var name := id + ".jsonl";
    assert |name| > 2 && '/' !in name;
    assert '/' !in "projects";
    JoinOfClean(cfg, "projects");
    JoinOfClean(Join(cfg, "projects"), slug);
    JoinOfClean(Join(Join(cfg, "projects"), slug), name);
  }

  /** So different transcripts are different files, and a store can be a map from their names. */
  lemma PathsDiffer(cfg: string, slug: string, id: string, slug1: string, id1: string)
    requires IsClean(cfg) && Plain(slug) && ValidId(id) && Plain(slug1) && ValidId(id1)
    ensures TranscriptPath(cfg, slug, id) == TranscriptPath(cfg, slug1, id1) <==> slug == slug1 && id == id1
  {
    PathStaysInProject(cfg, slug, id);
    PathStaysInProject(cfg, slug1, id1);
    if id + ".jsonl" == id1 + ".jsonl" {
      assert id == (id + ".jsonl")[..|id|] && id1 == (id1 + ".jsonl")[..|id1|];
    }
  }

  // ---- The store ----

  datatype Key = Key(cfg: string, slug: string, id: string)

  /** The transcripts on disk, and the entries of `projects` that are not plain directories (such as symlinks). */
  datatype Store = Store(files: map<Key, string>, linked: set<(string, string)>)

  /** The project directories that hold a transcript of the session; a directory's name is not empty. */
  ghost function Holders(st: Store, cfg: string, id: string): set<string> {
    set k | k in st.files && k.cfg == cfg && k.id == id && k.slug != "" && (cfg, k.slug) !in st.linked :: k.slug
  }

  ghost function Found(st: Store, cfg: string, id: string): seq<string> {
    if cfg == "" || !ValidId(id) then [] else InOrder(Holders(st, cfg, id))
  }

  datatype CopyResult = InvalidId | Skipped | Copied | Failed

  /** What a copy does, when the file system lets it or not. */
  function CopyIn(st: Store, cfg: string, from: string, to: string, id: string, works: bool): (CopyResult, Store) {
    if !ValidId(id) then (InvalidId, st)
    else if from == "" || to == "" || from == to || Key(cfg, to, id) in st.files then (Skipped, st)
    else if Key(cfg, from, id) !in st.files || !works then (Failed, st)
    else (Copied, st.(files := st.files[Key(cfg, to, id) := st.files[Key(cfg, from, id)]]))
  }

  /** Every transcript of `st` is in `st1` unchanged, and every one in `st1` is that of the same session in `st`. */
  ghost predicate Extends(st: Store, st1: Store) {
    && st1.linked == st.linked
    && (forall k :: k in st.files ==> k in st1.files && st1.files[k] == st.files[k])
    && (forall k :: k in st1.files ==> HasOriginal(st, k, st1.files[k]))
  }

  predicate HasOriginal(st: Store, k: Key, content: string) {
    exists o :: o in st.files && o.cfg == k.cfg && o.id == k.id && st.files[o] == content
  }

  /** A copy only adds, and what it adds is a transcript that was there. */
  lemma CopyExtends(st: Store, cfg: string, from: string, to: string, id: string, works: bool)
    ensures Extends(st, CopyIn(st, cfg, from, to, id, works).1)
  {
    var st1 := CopyIn(st, cfg, from, to, id, works).1;
    forall k | k in st1.files ensures HasOriginal(st, k, st1.files[k]) {
      var o := if k in st.files then k else Key(cfg, from, id);
      assert o in st.files && o.cfg == k.cfg && o.id == k.id && st.files[o] == st1.files[k];
    }
  }

  lemma ExtendsTransitive(a: Store, b: Store, c: Store)
    requires Extends(a, b) && Extends(b, c)
    ensures Extends(a, c)
  {
    forall k | k in c.files ensures HasOriginal(a, k, c.files[k]) {
      assert HasOriginal(b, k, c.files[k]);
      var o :| o in b.files && o.cfg == k.cfg && o.id == k.id && b.files[o] == c.files[k];
      assert HasOriginal(a, o, b.files[o]);
    }
  }

  class Disk {
    var files: map<Key, string>
    const linked: set<(string, string)>

    ghost function Now(): Store
      reads this
    {
      Store(files, linked)
    }

    constructor (files: map<Key, string>, linked: set<(string, string)>)
      ensures Now() == Store(files, linked)
    {
      this.files, this.linked := files, linked;
    }

    method FindTranscript(cfg: string, id: string) returns (dirs: seq<string>)
      ensures dirs == Found(Now(), cfg, id)
    {
      if cfg == "" || !ValidId(id) { return []; }
      var entries := set k | k in files.Keys && k.cfg == cfg && k.slug != "" :: k.slug;
      var left := entries;
      dirs := [];
      while left != {}
        invariant left <= entries
        invariant forall i :: 0 <= i < |dirs| ==> dirs[i] !in left
        invariant forall i, j :: 0 <= i < j < |dirs| ==> dirs[i] != dirs[j]
        invariant forall d :: d in dirs <==> d in Holders(Now(), cfg, id) && d !in left
        decreases left
      {
        var e :| e in left;
        left := left - {e};
        if (cfg, e) !in linked && Key(cfg, e, id) in files {
          assert Key(cfg, e, id).slug in Holders(Now(), cfg, id);
          dirs := dirs + [e];
        }
      }
      dirs := SortStrings(dirs);
      InOrderIs(Holders(Now(), cfg, id), dirs);
    }

    method CopyTranscript(cfg: string, from: string, to: string, id: string, works: bool) returns (r: CopyResult)
      modifies this`files
      ensures (r, Now()) == CopyIn(old(Now()), cfg, from, to, id, works)
    {
      if !ValidId(id) { return InvalidId; }
      if from == "" || to == "" || from == to { return Skipped; }
      var src, dst := Key(cfg, from, id), Key(cfg, to, id);
      if dst in files { return Skipped; }
      if src !in files { return Failed; }
      if !works { return Failed; }
      files := files[dst := files[src]];
      return Copied;
    }
  }
}
