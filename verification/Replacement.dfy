/**
 Sequences of `ReplaceAll` passes. A table of passes that stay out of each other's way is one
 simultaneous left-to-right replacement, and a single pass is undone by its reverse exactly when
 no inserted text can complete an occurrence that began before it.
 */
module Replacement {
  import opened Strings

  datatype Remap = Remap(from: string, to: string)

  predicate Usable(table: seq<Remap>) {
    forall r :: r in table ==> r.from != "" && r.to != ""
  }

  /** The passes of a remap loop, in table order. */
  function Passes(s: string, table: seq<Remap>): string
    requires Usable(table)
  {
    if table == [] then s
    else
      var last := |table| - 1;
      ReplaceAll(Passes(s, table[..last]), table[last].from, table[last].to)
  }

  /** The first entry whose pattern `s` begins with, or -1. */
  function Pick(s: string, table: seq<Remap>): (i: int)
    ensures -1 <= i < |table|
    ensures i >= 0 ==> table[i].from <= s
    ensures forall j :: 0 <= j < |table| && (i < 0 || j < i) ==> !(table[j].from <= s)
  {
    if table == [] then -1
    else if table[0].from <= s then 0
    else
      var i := Pick(s, table[1..]);
      if i < 0 then -1 else i + 1
  }

  /** One left-to-right scan that replaces whatever entry matches first at each position. */
  function Multi(s: string, table: seq<Remap>): string
    requires Usable(table)
    decreases |s|
  {
    if s == "" then ""
    else
      var i := Pick(s, table);
      if i < 0 then [s[0]] + Multi(s[1..], table)
      else table[i].to + Multi(s[|table[i].from|..], table)
  }

  lemma MultiTakes(y: string, p: nat, tail: string, table: seq<Remap>)
    requires Usable(table) && Pick(y, table) == p && y == table[p].from + tail
    ensures Multi(y, table) == table[p].to + Multi(tail, table)
  {
    assert y[|table[p].from|..] == tail;
  }

  lemma MultiSkips(y: string, tail: string, table: seq<Remap>)
    requires Usable(table) && y != "" && Pick(y, table) < 0 && tail == y[1..]
    ensures Multi(y, table) == [y[0]] + Multi(tail, table)
  {
  }

  // ---- One pass against text whose pieces are known ----

  /** A pass copies a piece from which its pattern cannot start. */
  lemma {:induction false} SkipPiece(g: string, j: nat, rest: string, f: string, t: string)
    requires f != "" && j <= |g| && NoStart(f, g, j)
    ensures ReplaceAll(g[j..] + rest, f, t) == g[j..] + ReplaceAll(rest, f, t)
    decreases |g| - j
  {
    var s := g[j..] + rest;
    if j == |g| {
      assert s == rest;
    } else {
      assert !CanStart(f, g, j);
      FromHere(g, j, rest);
      ReplaceAllSkipTo(s, g[j + 1..] + rest, f, t);
      SkipPiece(g, j + 1, rest, f, t);
      FromHere(g, j, ReplaceAll(rest, f, t));
    }
  }

  /** A simultaneous replacement copies a piece from which none of its patterns can start. */
  lemma {:induction false} CopyPiece(g: string, j: nat, rest: string, table: seq<Remap>)
    requires Usable(table) && j <= |g|
    requires forall r :: r in table ==> NoStart(r.from, g, j)
    ensures Multi(g[j..] + rest, table) == g[j..] + Multi(rest, table)
    decreases |g| - j
  {
    var s := g[j..] + rest;
    if j == |g| {
      assert s == rest;
    } else {
      var p := Pick(s, table);
      assert forall r :: r in table ==> !CanStart(r.from, g, j);
      assert s[1..] == g[j + 1..] + rest;
      CopyPiece(g, j + 1, rest, table);
    }
  }

  /** Text at the head of a replacement's output that no inserted piece can start in was there before. */
  lemma {:induction false} HeadWasThere(s: string, f: string, j: nat, table: seq<Remap>)
    requires Usable(table) && j <= |f|
    requires forall r :: r in table ==> NoStart(r.to, f, j)
    requires f[j..] <= Multi(s, table)
    ensures f[j..] <= s
    decreases |s|
  {
    if j < |f| && s != "" {
      var p := Pick(s, table);
      var out := Multi(s, table);
      if p >= 0 {
        assert CanStart(table[p].to, f, j);
      } else {
        assert f[j + 1..] == f[j..][1..];
        assert out[1..] == Multi(s[1..], table);
        HeadWasThere(s[1..], f, j + 1, table);
        assert f[j] == f[j..][0] == out[0];
        assert f[j..] == [f[j]] + f[j + 1..];
        assert s == [s[0]] + s[1..];
      }
    }
  }

  // ---- A table of passes is one simultaneous replacement ----

  /**
   `later` may run after `earlier` without finding anything that `earlier` inserted or disturbed. The
   two may look for texts of which one begins the other: what `earlier` replaces first stays replaced.
   */
  predicate Clear(later: Remap, earlier: Remap) {
    NoStart(earlier.from, later.from, 1) && Apart(later.from, earlier.to)
  }

  lemma {:induction false} PassExtends(s: string, table: seq<Remap>, r: Remap)
    requires Usable(table + [r])
    requires forall q :: q in table ==> Clear(r, q)
    ensures Usable(table)
    ensures ReplaceAll(Multi(s, table), r.from, r.to) == Multi(s, table + [r])
    decreases |s|
  {
    var both := table + [r];
    assert forall q :: q in table ==> q in both;
    assert r in both;
    if s != "" {
      var p := Pick(s, table);
      PickExtends(s, table, r);
      if p >= 0 {
        var rest := s[|table[p].from|..];
        PassExtends(rest, table, r);
        ExtendTaken(s, table, r, p, rest);
      } else if r.from <= s {
        var rest := s[|r.from|..];
        PassExtends(rest, table, r);
        ExtendMatch(s, table, r, rest);
      } else {
        PassExtends(s[1..], table, r);
        ExtendChar(s, table, r, s[1..]);
      }
    }
  }

  lemma ExtendTaken(s: string, table: seq<Remap>, r: Remap, p: nat, rest: string)
    requires Usable(table + [r]) && Usable(table) && p == Pick(s, table) == Pick(s, table + [r]) && p < |table|
    requires Clear(r, table[p]) && s == table[p].from + rest
    requires ReplaceAll(Multi(rest, table), r.from, r.to) == Multi(rest, table + [r])
    ensures ReplaceAll(Multi(s, table), r.from, r.to) == Multi(s, table + [r])
  {
    MultiTakes(s, p, rest, table);
    MultiTakes(s, p, rest, table + [r]);
    assert table[p].to[0..] == table[p].to;
    SkipPiece(table[p].to, 0, Multi(rest, table), r.from, r.to);
  }

  lemma ExtendMatch(s: string, table: seq<Remap>, r: Remap, rest: string)
    requires Usable(table + [r]) && Usable(table) && Pick(s, table) < 0 && Pick(s, table + [r]) == |table|
    requires (forall q :: q in table ==> Clear(r, q)) && s == r.from + rest && r.from != ""
    requires ReplaceAll(Multi(rest, table), r.from, r.to) == Multi(rest, table + [r])
    ensures ReplaceAll(Multi(s, table), r.from, r.to) == Multi(s, table + [r])
  {
    forall q | q in table ensures NoStart(q.from, r.from, 1) { assert Clear(r, q); }
    FirstCharThenCopy(r.from, rest, table);
    var out := r.from + Multi(rest, table);
    ReplaceAllHere(out, r.from, r.to);
    assert out[|r.from|..] == Multi(rest, table);
    MultiTakes(s, |table|, rest, table + [r]);
  }

  lemma {:induction false} ExtendChar(s: string, table: seq<Remap>, r: Remap, tail: string)
    requires Usable(table + [r]) && Usable(table) && Pick(s, table) < 0 && Pick(s, table + [r]) < 0
    requires (forall q :: q in table ==> Clear(r, q)) && s != "" && tail == s[1..] && r.from != "" && !(r.from <= s)
    requires ReplaceAll(Multi(tail, table), r.from, r.to) == Multi(tail, table + [r])
    ensures ReplaceAll(Multi(s, table), r.from, r.to) == Multi(s, table + [r])
  {
    var out := Multi(s, table);
    MultiSkips(s, tail, table);
    MultiSkips(s, tail, table + [r]);
    assert r.from[0..] == r.from;
    forall q | q in table ensures NoStart(q.to, r.from, 0) { assert Clear(r, q); }
    if r.from <= out { HeadWasThere(s, r.from, 0, table); }
    assert out[1..] == Multi(tail, table);
    ReplaceAllSkipTo(out, Multi(tail, table), r.from, r.to);
  }

  lemma PickExtends(s: string, table: seq<Remap>, r: Remap)
    ensures Pick(s, table + [r]) ==
            if Pick(s, table) >= 0 then Pick(s, table) else if r.from <= s then |table| else -1
  {
    var both := table + [r];
    assert forall j :: 0 <= j < |table| ==> both[j] == table[j];
    assert both[|table|] == r;
  }

  /** Passes that each stay clear of the earlier ones amount to one simultaneous scan. */
  lemma {:induction false} PassesAreSimultaneous(s: string, table: seq<Remap>)
    requires Usable(table)
    requires forall i, j :: 0 <= i < j < |table| ==> Clear(table[j], table[i])
    ensures Passes(s, table) == Multi(s, table)
  {
    if table == [] {
      NothingToReplace(s);
    } else {
      var last := |table| - 1;
      PassesAreSimultaneous(s, table[..last]);
      assert table == table[..last] + [table[last]];
      forall q | q in table[..last] ensures Clear(table[last], q) {
        var i :| 0 <= i < last && table[..last][i] == q;
        assert table[i] == q;
      }
      PassExtends(s, table[..last], table[last]);
    }
  }

  lemma NothingToReplace(s: string)
    ensures Multi(s, []) == s
  {
    if s != "" { NothingToReplace(s[1..]); }
  }

  lemma {:induction false} PassAsScan(s: string, from: string, to: string)
    requires from != "" && to != ""
    ensures ReplaceAll(s, from, to) == Multi(s, [Remap(from, to)])
  {
    NothingToReplace(s);
    PassExtends(s, [], Remap(from, to));
    assert [] + [Remap(from, to)] == [Remap(from, to)];
  }

  lemma FirstCharThenCopy(g: string, rest: string, table: seq<Remap>)
    requires Usable(table) && g != "" && Pick(g + rest, table) < 0
    requires forall r :: r in table ==> NoStart(r.from, g, 1)
    ensures Multi(g + rest, table) == g + Multi(rest, table)
  {
    FromStart(g, rest);
    MultiSkips(g + rest, g[1..] + rest, table);
    CopyPiece(g, 1, rest, table);
    FromStart(g, Multi(rest, table));
  }

  // ---- Order independence ----

  predicate Distinct<T(==)>(q: seq<T>) {
    forall i, j :: 0 <= i < j < |q| ==> q[i] != q[j]
  }

  /** No pattern starts inside a pattern, except that one may begin another, nor overlaps another entry's replacement. */
  predicate Independent(table: seq<Remap>) {
    && Usable(table)
    && Distinct(table)
    && (forall a, b :: a in table && b in table ==> NoStart(a.from, b.from, 1))
    && (forall a, b :: a in table && b in table && a != b ==> a.from != b.from && Apart(a.from, b.to))
  }

  /** The same entries in another order. */
  predicate Reorders<T(==)>(other: seq<T>, table: seq<T>) {
    Distinct(other) && (forall r :: r in other ==> r in table) && (forall r :: r in table ==> r in other)
  }

  /** Where one pattern begins another, its replacement begins the other's, and what is left over is the same. */
  predicate Coherent(table: seq<Remap>) {
    forall a, b :: a in table && b in table && a.from <= b.from ==> b.to == a.to + b.from[|a.from|..]
  }

  ghost predicate SameOutput(table: seq<Remap>, other: seq<Remap>) {
    Usable(table) && Usable(other) && forall s :: Passes(s, table) == Passes(s, other)
  }

  lemma IndependentAnyOrder(table: seq<Remap>, other: seq<Remap>)
    requires Independent(table) && Reorders(other, table)
    ensures Independent(other)
  {
  }

  lemma {:induction false} IndependentPasses(s: string, table: seq<Remap>)
    requires Independent(table)
    ensures Passes(s, table) == Multi(s, table)
  {
    PassesAreSimultaneous(s, table);
  }

  lemma PickSome(s: string, table: seq<Remap>, r: Remap)
    requires r in table && r.from <= s
    ensures Pick(s, table) >= 0
  {
    var k :| 0 <= k < |table| && table[k] == r;
  }

  lemma NonePicked(s: string, table: seq<Remap>, other: seq<Remap>)
    requires Pick(s, table) < 0 && forall r :: r in other ==> r in table
    ensures Pick(s, other) < 0
  {
    forall r | r in table ensures !(r.from <= s) {
      if r.from <= s { PickSome(s, table, r); }
    }
  }

  lemma NestedPatterns(a: string, b: string, s: string)
    requires a <= s && b <= s && |a| <= |b|
    ensures a <= b && s[|a|..] == b[|a|..] + s[|b|..]
  {
    assert s == b + s[|b|..];
  }

  /** A scan that takes the shorter of two matching patterns copies what the longer one has beyond it. */
  lemma ShorterTaken(s: string, table: seq<Remap>, a: Remap, b: Remap, rest: string)
    requires Independent(table) && a in table && b in table && b.from <= s && rest == s[|b.from|..]
    requires Pick(s, table) >= 0 && table[Pick(s, table)] == a && a.from <= b.from
    ensures Multi(s, table) == a.to + (b.from[|a.from|..] + Multi(rest, table))
  {
    NestedPatterns(a.from, b.from, s);
    var x := b.from[|a.from|..];
    assert s == a.from + (x + rest);
    MultiTakes(s, Pick(s, table), x + rest, table);
    CopyPiece(b.from, |a.from|, rest, table);
  }

  lemma LongerTaken(s: string, table: seq<Remap>, b: Remap, rest: string)
    requires Usable(table) && Pick(s, table) >= 0 && table[Pick(s, table)] == b && rest == s[|b.from|..]
    ensures Multi(s, table) == b.to + Multi(rest, table)
  {
    assert s == b.from + rest;
    MultiTakes(s, Pick(s, table), rest, table);
  }

  /** Of two orders, one takes `a` and the other the longer `b`: with coherent replacements it makes no difference. */
  lemma {:induction false} EitherTaken(s: string, table: seq<Remap>, other: seq<Remap>, a: Remap, b: Remap, rest: string)
    requires Independent(table) && Usable(other) && a in table && b in table && Coherent(table)
    requires a.from <= s && b.from <= s && |a.from| <= |b.from| && rest == s[|b.from|..]
    requires Pick(s, table) >= 0 && table[Pick(s, table)] == a && Pick(s, other) >= 0 && other[Pick(s, other)] == b
    requires Multi(rest, table) == Multi(rest, other)
    ensures Multi(s, table) == Multi(s, other)
  {
    NestedPatterns(a.from, b.from, s);
    ShorterTaken(s, table, a, b, rest);
    LongerTaken(s, other, b, rest);
    Assoc(a.to, b.from[|a.from|..], Multi(rest, table));
  }

  lemma {:induction false} MultiIgnoresOrder(s: string, table: seq<Remap>, other: seq<Remap>)
    requires Independent(table) && Coherent(table) && Reorders(other, table)
    ensures Usable(other) && Multi(s, table) == Multi(s, other)
    decreases |s|
  {
    IndependentAnyOrder(table, other);
    if s != "" {
      var p, q := Pick(s, table), Pick(s, other);
      if p < 0 {
        NonePicked(s, table, other);
        MultiIgnoresOrder(s[1..], table, other);
        MultiSkips(s, s[1..], table);
        MultiSkips(s, s[1..], other);
      } else {
        var a := table[p];
        PickSome(s, other, a);
        var b := other[q];
        if |a.from| <= |b.from| {
          MultiIgnoresOrder(s[|b.from|..], table, other);
          EitherTaken(s, table, other, a, b, s[|b.from|..]);
        } else {
          MultiIgnoresOrder(s[|a.from|..], table, other);
          EitherTaken(s, other, table, b, a, s[|a.from|..]);
        }
      }
    }
  }

  /** The table with one entry moved to the front. */
  function ToFront<T>(table: seq<T>, i: nat): (t: seq<T>)
    requires i < |table|
    ensures |t| == |table| && t[0] == table[i]
  {
    [table[i]] + table[..i] + table[i + 1..]
  }

  lemma FrontReorders<T>(table: seq<T>, i: nat)
    requires Distinct(table) && i < |table|
    ensures Reorders(ToFront(table, i), table)
  {
    var t := ToFront(table, i);
    forall r | r in table ensures r in t {
      var k :| 0 <= k < |table| && table[k] == r;
      assert t[if k < i then k + 1 else if k == i then 0 else k] == r;
    }
    forall j | 0 <= j < |t| ensures t[j] == table[if j == 0 then i else if j <= i then j - 1 else j] {
    }
  }

  /** On the longer pattern of an incoherent pair, the order that tries the shorter first differs from the one that tries it last. */
  lemma IncoherentPair(table: seq<Remap>, i: nat, j: nat)
    requires Independent(table) && i < |table| && j < |table| && table[i].from <= table[j].from
    requires table[j].to != table[i].to + table[j].from[|table[i].from|..]
    ensures Usable(ToFront(table, i)) && Usable(ToFront(table, j))
    ensures Passes(table[j].from, ToFront(table, i)) != Passes(table[j].from, ToFront(table, j))
  {
    var a, b := table[i], table[j];
    var s := b.from;
    var first, last := ToFront(table, i), ToFront(table, j);
    FrontReorders(table, i);
    FrontReorders(table, j);
    IndependentAnyOrder(table, first);
    IndependentAnyOrder(table, last);
    IndependentPasses(s, first);
    IndependentPasses(s, last);
    assert first[0] == a && Pick(s, first) == 0;
    assert last[0] == b && Pick(s, last) == 0;
    ShorterTaken(s, first, a, b, "");
    LongerTaken(s, last, b, "");
    assert b.from[|a.from|..] + "" == b.from[|a.from|..];
    assert b.to + "" == b.to;
  }

  /** Every order of an independent table rewrites every text the same way exactly when the table is coherent. */
  lemma OrderIrrelevantIff(table: seq<Remap>)
    requires Independent(table)
    ensures (forall other :: Reorders(other, table) ==> SameOutput(table, other)) <==> Coherent(table)
  {
    if Coherent(table) {
      forall other | Reorders(other, table) ensures SameOutput(table, other) {
        IndependentAnyOrder(table, other);
        forall s ensures Passes(s, table) == Passes(s, other) {
          OrderIrrelevant(s, table, other);
        }
      }
    } else {
      var a, b :| a in table && b in table && a.from <= b.from && b.to != a.to + b.from[|a.from|..];
      var i :| 0 <= i < |table| && table[i] == a;
      var j :| 0 <= j < |table| && table[j] == b;
      IncoherentPair(table, i, j);
      FrontReorders(table, i);
      FrontReorders(table, j);
      assert !(SameOutput(table, ToFront(table, i)) && SameOutput(table, ToFront(table, j)));
    }
  }

  lemma {:induction false} OrderIrrelevant(s: string, table: seq<Remap>, other: seq<Remap>)
    requires Independent(table) && Coherent(table) && Reorders(other, table)
    ensures Usable(other) && Passes(s, table) == Passes(s, other)
  {
    IndependentAnyOrder(table, other);
    IndependentPasses(s, table);
    IndependentPasses(s, other);
    MultiIgnoresOrder(s, table, other);
  }

  // ---- One pass and its reverse ----

  /**
   An occurrence of `t` can begin in copied text and end inside an inserted `t`: some proper prefix
   `x` of `t` leaves a border behind, and `x` followed by `f` holds `f` first right after `x`, and
   holds no `t`.
   */
  predicate StraddleAt(f: string, t: string, k: int) {
    0 < k < |t| && t[..k] == t[|t| - k..] &&
    var x := t[..|t| - k];
    Index(x + f, f) == |x| && !Contains(x + f, t)
  }

  predicate Straddles(f: string, t: string) {
    exists k :: 0 < k < |t| && StraddleAt(f, t, k)
  }

  lemma {:induction false} PassUndone(s: string, f: string, t: string)
    requires f != "" && t != ""
    requires !Contains(s, t) && !Straddles(f, t)
    ensures ReplaceAll(ReplaceAll(s, f, t), t, f) == s
    decreases |s|
  {
    var i := Index(s, f);
    if i >= 0 {
      var u, v := s[..i], s[i + |f|..];
      var tail := ReplaceAll(v, f, t);
      assert s == u + f + v;
      assert s == u + f + v + "";
      if Contains(v, t) { MatchInPiece(u + f, v, "", Index(v, t), t); }
      PassUndone(v, f, t);
      FirstMatchPlanted(u, v, f, t, tail);
      ReplaceAt(u, t, tail, f);
    }
  }

  lemma {:induction false} ReplaceAt(u: string, from: string, rest: string, to: string)
    requires from != "" && Index(u + from + rest, from) == |u|
    ensures ReplaceAll(u + from + rest, from, to) == u + to + ReplaceAll(rest, from, to)
  {
    var z := u + from + rest;
    assert z[..|u|] == u && z[|u| + |from|..] == rest;
  }

  lemma MatchInPiece(a: string, b: string, c: string, i: int, p: string)
    requires MatchAt(b, i, p)
    ensures MatchAt(a + b + c, |a| + i, p)
  {
    var s := a + b + c;
    assert s[|a| + i..|a| + i + |p|] == b[i..i + |p|];
  }

  /** In `u`, an inserted `t`, and more text, `t` is first found where it was inserted. */
  lemma FirstMatchPlanted(u: string, v: string, f: string, t: string, tail: string)
    requires f != "" && t != "" && !Contains(u + f + v, t) && !Straddles(f, t)
    requires Index(u + f + v, f) == |u|
    ensures Index(u + t + tail, t) == |u|
  {
    var z := u + t + tail;
    MatchInPiece(u, t, tail, 0, t);
    var j := Index(z, t);
    if j + |t| <= |u| {
      assert z[j..j + |t|] == u[j..j + |t|];
      assert "" + u + (f + v) == u + f + v;
      MatchInPiece("", u, f + v, j, t);
    } else if j < |u| {
      EarlyMatchStraddles(u, v, f, t, tail, j);
    }
  }

  /** A match that begins in `u` and ends in the `t` after it makes `t` a bordered word. */
  lemma OverlapIsBorder(u: string, t: string, tail: string, j: nat, k: nat)
    requires j < |u| < j + |t| && MatchAt(u + t + tail, j, t) && k == j + |t| - |u|
    ensures t[..|t| - k] == u[j..] && t[|t| - k..] == t[..k]
  {
    var z := u + t + tail;
    assert t == z[j..j + |t|] == u[j..] + t[..k];
  }

  /** A later part of the text has no `t` and the same first `f`. */
  lemma PartIsClean(a: string, x: string, f: string, v: string, t: string)
    requires f != "" && !Contains(a + (x + f) + v, t) && Index(a + (x + f) + v, f) == |a| + |x|
    ensures !Contains(x + f, t) && Index(x + f, f) == |x|
  {
    var xf := x + f;
    if Contains(xf, t) { MatchInPiece(a, xf, v, Index(xf, t), t); }
    MatchTail(x, f);
    if Index(xf, f) < |x| { MatchInPiece(a, xf, v, Index(xf, f), f); }
  }

  lemma EarlyMatchStraddles(u: string, v: string, f: string, t: string, tail: string, j: int)
    requires f != "" && t != "" && !Contains(u + f + v, t)
    requires Index(u + f + v, f) == |u|
    requires 0 <= j < |u| < j + |t| && MatchAt(u + t + tail, j, t)
    ensures Straddles(f, t)
  {
    var k := j + |t| - |u|;
    var a, x := u[..j], u[j..];
    assert u + f + v == a + (x + f) + v;
    OverlapIsBorder(u, t, tail, j, k);
    PartIsClean(a, x, f, v, t);
    assert StraddleAt(f, t, k);
  }

  lemma StraddleBreaks(f: string, t: string, k: int)
    requires f != "" && t != "" && StraddleAt(f, t, k)
    ensures var s := t[..|t| - k] + f;
            !Contains(s, t) && ReplaceAll(ReplaceAll(s, f, t), t, f) != s
  {
    var x := t[..|t| - k];
    var s := x + f;
    var z := x + t;
    assert s[..|x|] == x && s[|s|..] == "";
    assert ReplaceAll(s, f, t) == z by { assert ReplaceAll("", f, t) == ""; assert x + t + "" == z; }
    assert t == x + t[..k];
    assert z[..|t|] == t;
    ReplaceAllHere(z, t, f);
    var w := z[|t|..];
    assert |w| < |t|;
    assert ReplaceAll(w, t, f) == w;
    assert f + w == s ==> MatchAt(s, 0, f);
  }

  /**
   A pass is undone by its reverse on every text free of the replacement exactly when no
   occurrence can straddle; whether one can is a finite check on the two strings.
   */
  lemma PassUndoneIff(f: string, t: string)
    requires f != "" && t != ""
    ensures (forall s :: !Contains(s, t) ==> ReplaceAll(ReplaceAll(s, f, t), t, f) == s)
            <==> !Straddles(f, t)
  {
    if Straddles(f, t) {
      var k :| 0 < k < |t| && StraddleAt(f, t, k);
      StraddleBreaks(f, t, k);
    } else {
      forall s | !Contains(s, t) ensures ReplaceAll(ReplaceAll(s, f, t), t, f) == s {
        PassUndone(s, f, t);
      }
    }
  }

  // ---- A scan that inserts one text, and the pass that takes it out again ----

  /** Every entry puts back what it found, except the one that replaces `f` by `t`. */
  predicate Keeps(table: seq<Remap>, f: string, t: string) {
    Usable(table) && forall r :: r in table ==> r.from == r.to || r == Remap(f, t)
  }

  /** How a scan's output begins: with one kept piece of its input, or with the inserted text. */
  lemma KeptStep(s: string, f: string, t: string, table: seq<Remap>) returns (w: string, inserted: bool)
    requires Keeps(table, f, t) && s != ""
    ensures w != "" && w <= s && s == w + s[|w|..]
    ensures inserted ==> w == f
    ensures Multi(s, table) == (if inserted then t else w) + Multi(s[|w|..], table)
  {
    var p := Pick(s, table);
    if p < 0 {
      w, inserted := s[..1], false;
    } else {
      w, inserted := table[p].from, table[p] == Remap(f, t);
    }
  }

  lemma {:induction false} KeptHeadWasThere(s: string, f: string, t: string, table: seq<Remap>, j: nat)
    requires Keeps(table, f, t) && Unbordered(t) && 1 <= j <= |t|
    requires t[j..] <= Multi(s, table)
    ensures t[j..] <= s
    decreases |s|
  {
    if j < |t| && s != "" {
      var w, inserted := KeptStep(s, f, t, table);
      assert !CanStart(t, t, j);
      var rest := s[|w|..];
      if !inserted && j + |w| <= |t| {
        SplitHead(t[j..], w, Multi(rest, table));
        assert t[j..][|w|..] == t[j + |w|..];
        KeptHeadWasThere(rest, f, t, table, j + |w|);
        PrefixAfter(w, t[j + |w|..], rest);
      }
    }
  }

  lemma {:induction false} SkipKept(w: string, s: string, f: string, t: string, table: seq<Remap>)
    requires Keeps(table, f, t) && t != "" && Unbordered(t) && !Contains(w + s, t)
    ensures ReplaceAll(w + Multi(s, table), t, f) == w + ReplaceAll(Multi(s, table), t, f)
    decreases |w|
  {
    var out := Multi(s, table);
    if w == "" {
      assert w + out == out && w + ReplaceAll(out, t, f) == ReplaceAll(out, t, f);
    } else {
      var z := w + out;
      if t <= z { KeptHead(w, s, f, t, table); HeadContains(w + s, t); }
      FromStart(w, out);
      ReplaceAllSkipTo(z, w[1..] + out, t, f);
      TailFree(w + s, 1, t);
      FromStart(w, s);
      SkipKept(w[1..], s, f, t, table);
      FromStart(w, ReplaceAll(out, t, f));
    }
  }

  lemma KeptHead(w: string, s: string, f: string, t: string, table: seq<Remap>)
    requires Keeps(table, f, t) && Unbordered(t) && w != "" && t <= w + Multi(s, table)
    ensures t <= w + s
  {
    if |t| > |w| {
      SplitHead(t, w, Multi(s, table));
      KeptHeadWasThere(s, f, t, table, |w|);
      PrefixAfter(w, t[|w|..], s);
    }
  }

  /** Whatever the scan kept, one pass takes out exactly the insertions of an unbordered text. */
  lemma {:induction false} KeptUndone(s: string, f: string, t: string, table: seq<Remap>)
    requires Keeps(table, f, t) && t != "" && Unbordered(t) && !Contains(s, t)
    ensures ReplaceAll(Multi(s, table), t, f) == s
    decreases |s|
  {
    if s != "" {
      var w, inserted := KeptStep(s, f, t, table);
      var rest := s[|w|..];
      TailFree(s, |w|, t);
      KeptUndone(rest, f, t, table);
      if inserted {
        var out := t + Multi(rest, table);
        ReplaceAllHere(out, t, f);
        assert out[|t|..] == Multi(rest, table);
      } else {
        SkipKept(w, rest, f, t, table);
      }
    }
  }
}
