/** `filepath.Clean`, `Join`, `Dir` and `Base` on slash-separated paths, by path components. */
module LexicalPath {

  /** The pieces between slashes; never empty. */
  function Split(s: string): (parts: seq<string>)
    ensures parts != [] && forall p :: p in parts ==> '/' !in p
  {
    if s == "" then [""]
    else
      var rest := Split(s[1..]);
      if s[0] == '/' then [""] + rest
      else [[s[0]] + rest[0]] + rest[1..]
  }

  function Glue(parts: seq<string>): string {
    if parts == [] then ""
    else if |parts| == 1 then parts[0]
    else parts[0] + "/" + Glue(parts[1..])
  }

  /** One step of `Clean`: the components kept so far meet the next piece. */
  function Push(kept: seq<string>, piece: string, rooted: bool): seq<string> {
    if piece == "" || piece == "." then kept
    else if piece == ".." then
      if kept != [] && kept[|kept| - 1] != ".." then kept[..|kept| - 1]
      else if rooted then kept
      else kept + [".."]
    else kept + [piece]
  }

  function Fold(pieces: seq<string>, kept: seq<string>, rooted: bool): seq<string>
    decreases |pieces|
  {
    if pieces == [] then kept else Fold(pieces[1..], Push(kept, pieces[0], rooted), rooted)
  }

  predicate Rooted(p: string) {
    p != "" && p[0] == '/'
  }

  function Components(p: string): seq<string> {
    Fold(Split(p), [], Rooted(p))
  }

  function Render(components: seq<string>, rooted: bool): string {
    if rooted then "/" + Glue(components)
    else if components == [] then "."
    else Glue(components)
  }

  function Clean(p: string): string {
    if p == "" then "." else Render(Components(p), Rooted(p))
  }

  function Join(a: string, b: string): string {
    if a != "" then Clean(a + "/" + b) else if b != "" then Clean(b) else ""
  }

  /** The position after the last slash. */
  function AfterSlash(p: string): (i: nat)
    ensures i <= |p| && '/' !in p[i..] && (i > 0 ==> p[i - 1] == '/')
  {
    if p == "" then 0
    else if p[|p| - 1] == '/' then |p|
    else
      var i := AfterSlash(p[..|p| - 1]);
      assert p[i..] == p[..|p| - 1][i..] + [p[|p| - 1]];
      i
  }

  function Dir(p: string): string {
    Clean(p[..AfterSlash(p)])
  }

  function TrimSlashes(p: string): (r: string)
    ensures r == "" || r[|r| - 1] != '/'
  {
    if p != "" && p[|p| - 1] == '/' then TrimSlashes(p[..|p| - 1]) else p
  }

  function Base(p: string): string {
    if p == "" then "."
    else
      var t := TrimSlashes(p);
      if t == "" then "/" else t[AfterSlash(t)..]
  }

  // ---- Normal component lists ----

  predicate Plain(c: string) {
    c != "" && c != "." && c != ".." && '/' !in c
  }

  predicate Normal(cs: seq<string>) {
    forall c :: c in cs ==> Plain(c)
  }

  /** The path of a component list, from the root. */
  function Abs(cs: seq<string>): string {
    "/" + Glue(cs)
  }

  /** A rooted path `Clean` leaves alone. */
  predicate IsClean(p: string) {
    Rooted(p) && Clean(p) == p
  }

  lemma {:induction false} SplitCons(c: string, s: string)
    requires '/' !in c
    ensures Split(c + "/" + s) == [c] + Split(s)
  {
    var t := c + "/" + s;
    if c == "" {
      assert t[1..] == s;
    } else {
      SplitCons(c[1..], s);
      assert t[1..] == c[1..] + "/" + s;
      assert [c[0]] + c[1..] == c;
    }
  }

  lemma {:induction false} SplitPlain(c: string)
    requires '/' !in c
    ensures Split(c) == [c]
  {
    if c != "" {
      SplitPlain(c[1..]);
      assert [c[0]] + c[1..] == c;
    }
  }

  lemma {:induction false} SplitGlue(cs: seq<string>)
    requires cs != [] && forall c :: c in cs ==> '/' !in c
    ensures Split(Glue(cs)) == cs
  {
    if |cs| == 1 {
      SplitPlain(cs[0]);
    } else {
      SplitGlue(cs[1..]);
      SplitCons(cs[0], Glue(cs[1..]));
    }
  }

  lemma {:induction false} FoldNormal(cs: seq<string>, kept: seq<string>, rooted: bool)
    requires Normal(cs)
    ensures Fold(cs, kept, rooted) == kept + cs
    decreases |cs|
  {
    if cs != [] {
      assert cs[0] in cs;
      FoldNormal(cs[1..], kept + [cs[0]], rooted);
      assert kept + cs == kept + [cs[0]] + cs[1..];
    }
  }

  lemma {:induction false} FoldKeepsNormal(pieces: seq<string>, kept: seq<string>)
    requires Normal(kept) && forall p :: p in pieces ==> '/' !in p
    ensures Normal(Fold(pieces, kept, true))
    decreases |pieces|
  {
    if pieces != [] {
      FoldKeepsNormal(pieces[1..], Push(kept, pieces[0], true));
    }
  }

  lemma ComponentsNormal(p: string)
    requires Rooted(p)
    ensures Normal(Components(p)) && Clean(p) == Abs(Components(p))
  {
    FoldKeepsNormal(Split(p), []);
  }

  lemma ComponentsOfAbs(cs: seq<string>)
    requires Normal(cs)
    ensures Components(Abs(cs)) == cs && IsClean(Abs(cs))
  {
    var p := Abs(cs);
    assert p == "" + "/" + Glue(cs);
    SplitCons("", Glue(cs));
    if cs == [] {
      assert Split("") == [""];
      assert Split(p) == ["", ""];
      assert Fold(["", ""], [], true) == Fold([""], [], true) == Fold([], [], true);
    } else {
      SplitGlue(cs);
      assert ([""] + cs)[1..] == cs;
      FoldNormal(cs, [], true);
      assert [] + cs == cs;
    }
  }

  /** `Clean` of a rooted path is clean, and names the same components. */
  lemma CleanIsClean(p: string)
    requires Rooted(p)
    ensures IsClean(Clean(p)) && Components(Clean(p)) == Components(p)
  {
    ComponentsNormal(p);
    ComponentsOfAbs(Components(p));
  }

  lemma AbsOfComponents(p: string)
    requires IsClean(p)
    ensures Normal(Components(p)) && p == Abs(Components(p))
  {
    ComponentsNormal(p);
  }

  // ---- Prefixes of clean paths are prefixes of their components ----

  lemma {:induction false} GluePrefix(hs: seq<string>, cs: seq<string>)
    requires Normal(hs) && Normal(cs) && hs != []
    ensures Glue(hs) + "/" <= Glue(cs) <==> hs <= cs && |hs| < |cs|
    decreases |hs|
  {
    if cs != [] {
      var h, c := hs[0], cs[0];
      assert h in hs && c in cs;
      var htail := if |hs| == 1 then "/" else "/" + (Glue(hs[1..]) + "/");
      var tail := if |cs| == 1 then "" else "/" + Glue(cs[1..]);
      assert Glue(hs) + "/" == h + htail && Glue(cs) == c + tail;
      FirstPiece(h, htail, c, tail);
      HeadAndTail(hs, cs);
      if |hs| > 1 && |cs| > 1 {
        GluePrefix(hs[1..], cs[1..]);
        SlashPrefix(Glue(hs[1..]) + "/", Glue(cs[1..]));
      }
    }
  }

  lemma HeadAndTail(hs: seq<string>, cs: seq<string>)
    requires hs != [] && cs != []
    ensures hs <= cs <==> hs[0] == cs[0] && hs[1..] <= cs[1..]
  {
    assert hs == [hs[0]] + hs[1..] && cs == [cs[0]] + cs[1..];
  }

  lemma SlashPrefix(a: string, b: string)
    ensures "/" + a <= "/" + b <==> a <= b
  {
    assert ("/" + a)[1..] == a && ("/" + b)[1..] == b;
    if "/" + a <= "/" + b { assert ("/" + b)[..|a| + 1][1..] == b[..|a|]; }
  }

  /** Two paths that agree up to a slash agree on their first pieces. */
  lemma FirstPiece(h: string, htail: string, c: string, tail: string)
    requires '/' !in h && '/' !in c && Rooted(htail) && (tail == "" || Rooted(tail))
    ensures h + htail <= c + tail <==> h == c && htail <= tail
  {
    var a, b := h + htail, c + tail;
    assert a[|h|..] == htail && b[|c|..] == tail;
    assert forall i :: 0 <= i < |h| ==> a[i] == h[i];
    assert forall i :: 0 <= i < |c| ==> b[i] == c[i];
    if a <= b {
      assert a[|h|] == '/' && b[|h|] == a[|h|];
      assert |h| >= |c|;
      assert |h| == |c|;
      assert h == a[..|h|] == b[..|h|] == c;
    }
    if h == c && htail <= tail {
      assert b[..|a|] == c + tail[..|htail|];
    }
  }

  /** For clean paths, being the directory or starting with it and a slash is having its components first. */
  lemma UnderIsComponentPrefix(p: string, home: string)
    requires IsClean(p) && IsClean(home) && home != "/"
    ensures (p == home || home + "/" <= p) <==> Components(home) <= Components(p)
  {
    AbsOfComponents(p);
    AbsOfComponents(home);
    var hs, cs := Components(home), Components(p);
    GluePrefix(hs, cs);
    assert home + "/" == "/" + (Glue(hs) + "/");
    SlashPrefix(Glue(hs) + "/", Glue(cs));
    if hs <= cs && |hs| == |cs| { assert hs == cs; }
  }

  // ---- Parent and last component of a clean path ----

  lemma {:induction false} SplitAt(a: string, b: string)
    ensures Split(a + "/" + b) == Split(a) + Split(b)
  {
    var p := a + "/" + b;
    if a == "" {
      assert p[1..] == b;
    } else {
      SplitAt(a[1..], b);
      assert p[1..] == a[1..] + "/" + b && p[0] == a[0];
      SplitFirst(p, Split(p[1..]));
      SplitFirst(a, Split(a[1..]));
      FirstOfTwo(a[0], Split(a[1..]), Split(b));
    }
  }

  /** The pieces of a text, from its first character and the pieces of the rest. */
  function WithFirst(c: char, rest: seq<string>): seq<string>
    requires rest != []
  {
    if c == '/' then [""] + rest else [[c] + rest[0]] + rest[1..]
  }

  lemma SplitFirst(s: string, rest: seq<string>)
    requires s != "" && rest == Split(s[1..])
    ensures Split(s) == WithFirst(s[0], rest)
  {
  }

  lemma FirstOfTwo(c: char, xs: seq<string>, ys: seq<string>)
    requires xs != []
    ensures WithFirst(c, xs + ys) == WithFirst(c, xs) + ys
  {
    assert (xs + ys)[0] == xs[0] && (xs + ys)[1..] == xs[1..] + ys;
  }

  lemma {:induction false} GlueOfSplit(p: string)
    ensures Glue(Split(p)) == p
  {
    if p != "" {
      GlueOfSplit(p[1..]);
      var rest := Split(p[1..]);
      if p[0] == '/' {
        assert ([""] + rest)[1..] == rest;
      } else if |rest| > 1 {
        assert ([[p[0]] + rest[0]] + rest[1..])[1..] == rest[1..];
      }
    }
  }

  lemma {:induction false} FoldConcat(a: seq<string>, b: seq<string>, kept: seq<string>, rooted: bool)
    ensures Fold(a + b, kept, rooted) == Fold(b, Fold(a, kept, rooted), rooted)
    decreases |a|
  {
    if a == [] {
      assert a + b == b;
    } else {
      FoldConcat(a[1..], b, Push(kept, a[0], rooted), rooted);
      assert (a + b)[1..] == a[1..] + b && (a + b)[0] == a[0];
    }
  }

  /** The components of a path continued by another: those of the first, met by the pieces of the second. */
  lemma ComponentsAfter(p: string, q: string)
    requires Rooted(p)
    ensures Components(p + "/" + q) == Fold(Split(q), Components(p), true)
  {
    SplitAt(p, q);
    FoldConcat(Split(p), Split(q), [], true);
  }

  lemma {:induction false} FoldWithoutParents(pieces: seq<string>, kept: seq<string>)
    requires ".." !in pieces
    ensures kept <= Fold(pieces, kept, true)
    decreases |pieces|
  {
    if pieces != [] {
      assert pieces[0] in pieces && forall p :: p in pieces[1..] ==> p in pieces;
      FoldWithoutParents(pieces[1..], Push(kept, pieces[0], true));
    }
  }

  /**
   `Clean` piece by piece: an empty piece or a dot leaves a path alone, two dots lead to its parent, and
   any other piece is appended.
   */
  lemma CleanByPieces(p: string, piece: string)
    requires Rooted(p) && '/' !in piece
    ensures var c, d := Clean(p), Clean(p + "/" + piece);
            && (piece == "" || piece == "." ==> d == c)
            && (piece == ".." && c != "/" ==> exists last :: Plain(last) && c == Below(d, last))
            && (piece == ".." && c == "/" ==> d == "/")
            && (Plain(piece) ==> d == Below(c, piece))
  {
    var cs := Components(p);
    ComponentsAfter(p, piece);
    SplitPlain(piece);
    ComponentsNormal(p);
    assert Fold([piece], cs, true) == Push(cs, piece, true) by { assert [piece][1..] == []; }
    CleanIsClean(p + "/" + piece);
    if piece == ".." && cs != [] { AboveLast(cs); }
    if Plain(piece) { BelowIsAbs(cs, piece); }
  }

  lemma AboveLast(cs: seq<string>)
    requires Normal(cs) && cs != []
    ensures Push(cs, "..", true) == cs[..|cs| - 1]
    ensures Plain(cs[|cs| - 1]) && Abs(cs) == Below(Abs(cs[..|cs| - 1]), cs[|cs| - 1])
  {
    var last := |cs| - 1;
    assert cs[last] in cs && Normal(cs[..last]);
    BelowIsAbs(cs[..last], cs[last]);
    assert cs[..last] + [cs[last]] == cs;
  }

  /** The path of an entry of a directory. */
  function Below(dir: string, name: string): string {
    if dir == "/" then "/" + name else dir + ("/" + name)
  }

  lemma BelowIsAbs(cs: seq<string>, c: string)
    requires Normal(cs)
    ensures Below(Abs(cs), c) == Abs(cs + [c])
  {
    if cs == [] {
      assert [] + [c] == [c];
    } else {
      GlueSnoc(cs, c);
      GlueSome(cs);
      SlashFirst(Glue(cs), "/" + c);
    }
  }

  lemma GlueSome(cs: seq<string>)
    requires Normal(cs) && cs != []
    ensures Glue(cs) != ""
  {
    assert cs[0] in cs;
  }

  lemma SlashFirst(a: string, b: string)
    ensures "/" + (a + b) == ("/" + a) + b
  {
  }

  /** A path that a clean one continues below is clean itself. */
  lemma AboveCleanIsClean(above: string, p: string)
    requires IsClean(p) && above != "" && above + "/" <= p
    ensures IsClean(above) && above != "/"
  {
    var rest := p[|above| + 1..];
    assert p == above + "/" + rest;
    SplitAt(above, rest);
    PiecesOfClean(p);
    GlueOfSplit(above);
    FrontPieces(above, Split(above), Split(rest), Components(p));
  }

  lemma FrontPieces(above: string, front: seq<string>, back: seq<string>, cs: seq<string>)
    requires above != "" && above == Glue(front) && front != [] && front + back == [""] + cs && Normal(cs)
    ensures IsClean(above) && above != "/"
  {
    assert (front + back)[0] == "";
    var hs := front[1..];
    assert cs == ([""] + cs)[1..] == hs + back;
    assert hs == cs[..|hs|];
    assert hs != [] && above == Abs(hs);
    ComponentsOfAbs(hs);
    assert Components("/") == [];
  }

  lemma PiecesOfClean(p: string)
    requires IsClean(p) && p != "/"
    ensures Split(p) == [""] + Components(p) && Normal(Components(p))
  {
    AbsOfComponents(p);
    SplitCons("", Glue(Components(p)));
    assert p == "" + "/" + Glue(Components(p));
    SplitGlue(Components(p));
  }

  lemma {:induction false} GlueSnoc(cs: seq<string>, c: string)
    requires cs != []
    ensures Glue(cs + [c]) == Glue(cs) + "/" + c == Glue(cs) + ("/" + c)
  {
    if |cs| > 1 {
      GlueSnoc(cs[1..], c);
      assert (cs + [c])[1..] == cs[1..] + [c];
      assert Glue(cs + [c]) == cs[0] + "/" + (Glue(cs[1..]) + "/" + c);
    } else {
      assert (cs + [c])[1..] == [c];
    }
  }

  lemma {:induction false} AfterSlashAt(a: string, c: string)
    requires '/' !in c
    ensures AfterSlash(a + "/" + c) == |a| + 1
    decreases |c|
  {
    var p := a + "/" + c;
    if c != "" {
      var d := c[..|c| - 1];
      assert p[..|p| - 1] == a + "/" + d;
      assert p[|p| - 1] == c[|c| - 1];
      AfterSlashAt(a, d);
    }
  }

  /** A clean path other than the root is its parent, a slash, and its last component. */
  lemma ParentAndBase(cs: seq<string>)
    requires Normal(cs) && cs != []
    ensures var p, up := Abs(cs), Abs(cs[..|cs| - 1]);
            Dir(p) == up && Base(p) == cs[|cs| - 1] && Join(up, Base(p)) == p && p != "/" && |up| < |p|
  {
    var last := cs[|cs| - 1];
    var front := cs[..|cs| - 1];
    assert cs == front + [last];
    assert last in cs;
    var p, up := Abs(cs), Abs(front);
    var a := if front == [] then "" else up;
    if front != [] { GlueSnoc(front, last); }
    assert p == a + "/" + last;
    AfterSlashAt(a, last);
    assert TrimSlashes(p) == p by { assert p[|p| - 1] == last[|last| - 1]; }
    assert p[AfterSlash(p)..] == last;
    assert p[..AfterSlash(p)] == a + "/";
    TrailingSlash(front);
    ComponentsOfAbs(cs);
    if front == [] {
      JoinAtRoot(last);
      assert up == "/" && p == "/" + last;
    } else {
      assert up + "/" + last == p && Clean(p) == p;
    }
  }

  lemma ParentOfClean(p: string)
    requires IsClean(p) && p != "/"
    ensures IsClean(Dir(p)) && |Dir(p)| < |p| && Plain(Base(p))
  {
    AbsOfComponents(p);
    var cs := Components(p);
    assert cs != [] && cs[|cs| - 1] in cs;
    ParentAndBase(cs);
    ComponentsOfAbs(cs[..|cs| - 1]);
  }

  lemma JoinOfClean(d: string, b: string)
    requires IsClean(d) && Plain(b)
    ensures var q := Join(d, b); IsClean(q) && q != "/" && Dir(q) == d && Base(q) == b
  {
    AbsOfComponents(d);
    var cs := Components(d) + [b];
    assert cs[..|cs| - 1] == Components(d);
    ParentAndBase(cs);
    ComponentsOfAbs(cs);
  }

  lemma NoDoubleSlash(p: string)
    requires IsClean(p) && p != "/"
    ensures |p| > 1 && p[1] != '/'
  {
    AbsOfComponents(p);
    var cs := Components(p);
    assert cs != [] && cs[0] in cs;
    assert Glue(cs)[0] == cs[0][0];
  }

  /** Joining a relative path to the root is cleaning it from the root. */
  lemma JoinRoot(p: string)
    ensures Join("/", p) == Clean("/" + p)
  {
    var q := "/" + p;
    var qq := "/" + "/" + p;
    assert qq == "" + "/" + q;
    SplitCons("", q);
    assert Split(qq)[1..] == Split(q);
    assert Push([], "", true) == [];
    assert Fold(Split(qq), [], true) == Fold(Split(q), [], true);
  }

  lemma TrailingSlash(cs: seq<string>)
    requires Normal(cs)
    ensures Clean((if cs == [] then "" else Abs(cs)) + "/") == Abs(cs)
  {
    if cs == [] {
      ComponentsOfAbs([]);
    } else {
      var q := Abs(cs) + "/";
      assert q == "" + "/" + (Glue(cs) + "/");
      SplitCons("", Glue(cs) + "/");
      SplitTrailing(cs);
      assert Split(q) == [""] + (cs + [""]);
      assert ([""] + (cs + [""]))[1..] == cs + [""];
      assert Fold(Split(q), [], true) == Fold(cs + [""], [], true);
      FoldTrailing(cs, []);
      assert [] + cs == cs;
    }
  }

  lemma {:induction false} SplitTrailing(cs: seq<string>)
    requires cs != [] && forall c :: c in cs ==> '/' !in c
    ensures Split(Glue(cs) + "/") == cs + [""]
  {
    if |cs| == 1 {
      SplitCons(cs[0], "");
      assert cs[0] + "/" + "" == cs[0] + "/";
    } else {
      SplitTrailing(cs[1..]);
      SplitCons(cs[0], Glue(cs[1..]) + "/");
      assert cs[0] + "/" + (Glue(cs[1..]) + "/") == Glue(cs) + "/";
    }
  }

  lemma {:induction false} FoldTrailing(cs: seq<string>, kept: seq<string>)
    requires Normal(cs)
    ensures Fold(cs + [""], kept, true) == kept + cs
    decreases |cs|
  {
    if cs == [] {
      assert ([] + [""])[1..] == [];
    } else {
      assert cs[0] in cs;
      FoldTrailing(cs[1..], kept + [cs[0]]);
      assert kept + cs == kept + [cs[0]] + cs[1..];
      assert (cs + [""])[1..] == cs[1..] + [""];
    }
  }

  lemma JoinAtRoot(c: string)
    requires Plain(c)
    ensures Join("/", c) == "/" + c
  {
    assert "/" + "/" + c == "" + "/" + ("" + "/" + c);
    SplitCons("", "" + "/" + c);
    SplitCons("", c);
    SplitPlain(c);
    var q := "/" + "/" + c;
    assert Split(q) == ["", "", c];
    assert ["", "", c][1..] == ["", c] && ["", c][1..] == [c];
    assert Fold(["", "", c], [], true) == Fold(["", c], [], true) == Fold([c], [], true);
    FoldNormal([c], [], true);
    assert [] + [c] == [c];
  }

  // ---- Lengths ----

  function Width(cs: seq<string>): nat {
    if cs == [] then 0 else |cs[0]| + 1 + Width(cs[1..])
  }

  lemma {:induction false} WidthSnoc(cs: seq<string>, c: string)
    ensures Width(cs + [c]) == Width(cs) + |c| + 1
  {
    if cs != [] {
      WidthSnoc(cs[1..], c);
      assert (cs + [c])[1..] == cs[1..] + [c];
    }
  }

  lemma WidthSplit(s: string)
    ensures Width(Split(s)) == |s| + 1
  {
    if s != "" { WidthSplit(s[1..]); }
  }

  lemma WidthGlue(cs: seq<string>)
    ensures cs != [] ==> |Glue(cs)| + 1 == Width(cs)
  {
    if |cs| > 1 { WidthGlue(cs[1..]); }
  }

  lemma WidthPush(kept: seq<string>, piece: string, rooted: bool)
    ensures Width(Push(kept, piece, rooted)) <= Width(kept) + (if piece == "" then 0 else |piece| + 1)
  {
    if kept != [] {
      WidthSnoc(kept[..|kept| - 1], kept[|kept| - 1]);
      assert kept == kept[..|kept| - 1] + [kept[|kept| - 1]];
    }
    WidthSnoc(kept, piece);
  }

  lemma {:induction false} WidthFold(pieces: seq<string>, kept: seq<string>, rooted: bool)
    ensures Width(Fold(pieces, kept, rooted)) <= Width(kept) + Width(pieces)
    decreases |pieces|
  {
    if pieces != [] {
      WidthPush(kept, pieces[0], rooted);
      WidthFold(pieces[1..], Push(kept, pieces[0], rooted), rooted);
    }
  }

  /** `Clean` never lengthens a path. */
  lemma CleanShrinks(p: string)
    requires p != ""
    ensures |Clean(p)| <= |p|
  {
    var parts := Split(p);
    WidthSplit(p);
    if Rooted(p) {
      assert parts[0] == "";
      WidthFold(parts[1..], [], true);
    } else {
      WidthFold(parts, [], false);
    }
    WidthGlue(Components(p));
  }

  lemma NoTrailingSlash(p: string)
    requires p != ""
    ensures Clean(p) != "" && (Clean(p) == "/" || Clean(p)[|Clean(p)| - 1] != '/')
  {
    FoldPieces(Split(p), [], Rooted(p));
    var cs := Components(p);
    if cs != [] { GlueEnd(cs); }
  }

  lemma {:induction false} FoldPieces(pieces: seq<string>, kept: seq<string>, rooted: bool)
    requires forall p :: p in pieces ==> '/' !in p
    requires forall c :: c in kept ==> c != "" && '/' !in c
    ensures forall c :: c in Fold(pieces, kept, rooted) ==> c != "" && '/' !in c
    decreases |pieces|
  {
    if pieces != [] {
      FoldPieces(pieces[1..], Push(kept, pieces[0], rooted), rooted);
    }
  }

  lemma {:induction false} GlueEnd(cs: seq<string>)
    requires cs != [] && forall c :: c in cs ==> c != "" && '/' !in c
    ensures Glue(cs) != "" && Glue(cs)[|Glue(cs)| - 1] != '/'
  {
    assert cs[0] in cs;
    if |cs| > 1 {
      assert forall c :: c in cs[1..] ==> c in cs;
      GlueEnd(cs[1..]);
    }
  }
}
