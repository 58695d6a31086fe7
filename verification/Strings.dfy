/** Byte-string searching and replacing, as Go's `strings` and `bytes` packages define them. */
module Strings {

  predicate MatchAt(s: string, i: int, p: string) {
    0 <= i <= |s| - |p| && s[i..i + |p|] == p
  }

  /** The first position of `p` in `s`, or -1. */
  function Index(s: string, p: string): (i: int)
    ensures -1 <= i
    ensures i >= 0 ==> MatchAt(s, i, p)
    ensures forall j :: MatchAt(s, j, p) ==> 0 <= i <= j
  {
    if p <= s then 0
    else if s == "" then -1
    else
      var i := Index(s[1..], p);
      MatchesInTail(s, p);
      MatchInTail(s, i + 1, p);
      if i < 0 then -1 else i + 1
  }

  lemma MatchInTail(s: string, i: int, p: string)
    requires s != ""
    ensures i != 0 && MatchAt(s, i, p) <==> MatchAt(s[1..], i - 1, p)
  {
    if 1 <= i <= |s| - |p| { assert s[1..][i - 1..i - 1 + |p|] == s[i..i + |p|]; }
  }

  lemma MatchesInTail(s: string, p: string)
    requires s != "" && !(p <= s)
    ensures forall j :: MatchAt(s, j, p) ==> MatchAt(s[1..], j - 1, p)
  {
    forall j | MatchAt(s, j, p) ensures MatchAt(s[1..], j - 1, p) {
      MatchInTail(s, j, p);
    }
  }

  predicate Contains(s: string, p: string) {
    Index(s, p) >= 0
  }

  /** `strings.Replace(s, from, to, 1)`. */
  function ReplaceFirst(s: string, from: string, to: string): string {
    var i := Index(s, from);
    if i < 0 then s else s[..i] + to + s[i + |from|..]
  }

  /** `strings.ReplaceAll`: the text inserted for one occurrence is not scanned again. */
  function ReplaceAll(s: string, from: string, to: string): string
    requires from != ""
    decreases |s|
  {
    var i := Index(s, from);
    if i < 0 then s else s[..i] + to + ReplaceAll(s[i + |from|..], from, to)
  }

  lemma ReplaceAllHere(s: string, from: string, to: string)
    requires from != "" && from <= s
    ensures ReplaceAll(s, from, to) == to + ReplaceAll(s[|from|..], from, to)
  {
    assert MatchAt(s, 0, from);
    assert Index(s, from) == 0;
  }

  lemma Peel(s: string, i: nat, k: nat)
    requires 1 <= i <= k <= |s|
    ensures s[..i] == [s[0]] + s[1..][..i - 1] && s[1..][k - 1..] == s[k..]
  {
  }

  lemma Regroup(a: string, b: string, c: string, d: string)
    ensures (a + b) + c + d == a + (b + c + d)
  {
  }

  lemma Assoc(a: string, b: string, c: string)
    ensures (a + b) + c == a + (b + c)
  {
  }

  lemma IndexSkip(s: string, p: string)
    requires s != "" && !(p <= s)
    ensures Index(s, p) == if Index(s[1..], p) < 0 then -1 else Index(s[1..], p) + 1
  {
  }

  lemma {:induction false} ReplaceAllAt(s: string, i: nat, from: string, to: string, head: string, tail: string)
    requires from != "" && Index(s, from) == i && head == s[..i] && tail == s[i + |from|..]
    ensures ReplaceAll(s, from, to) == head + to + ReplaceAll(tail, from, to)
  {
    var r, t := ReplaceAll(s, from, to), ReplaceAll(s[i + |from|..], from, to);
    assert r == s[..i] + to + t;
    assert t == ReplaceAll(tail, from, to);
  }

  lemma {:induction false} ReplaceAllSkip(s: string, from: string, to: string)
    requires from != "" && s != "" && !(from <= s)
    ensures ReplaceAll(s, from, to) == [s[0]] + ReplaceAll(s[1..], from, to)
  {
    IndexSkip(s, from);
    var i := Index(s, from);
    if i >= 0 {
      var head, tail := s[1..][..i - 1], s[i + |from|..];
      Peel(s, i, i + |from|);
      ReplaceAllAt(s, i, from, to, [s[0]] + head, tail);
      ReplaceAllAt(s[1..], i - 1, from, to, head, tail);
      Regroup([s[0]], head, to, ReplaceAll(tail, from, to));
    } else {
      assert s == [s[0]] + s[1..];
    }
  }

  /** The same with the rest of the text given apart. */
  lemma {:induction false} ReplaceAllSkipTo(s: string, tail: string, from: string, to: string)
    requires from != "" && s != "" && tail == s[1..] && !(from <= s)
    ensures ReplaceAll(s, from, to) == [s[0]] + ReplaceAll(tail, from, to)
  {
    ReplaceAllSkip(s, from, to);
  }

  lemma FromStart(g: string, x: string)
    requires g != ""
    ensures g + x != "" && (g + x)[0] == g[0] && (g + x)[1..] == g[1..] + x && [g[0]] + (g[1..] + x) == g + x
  {
  }

  lemma FromHere(g: string, j: nat, x: string)
    requires j < |g|
    ensures g[j..] + x != "" && (g[j..] + x)[0] == g[j] && (g[j..] + x)[1..] == g[j + 1..] + x
    ensures [g[j]] + (g[j + 1..] + x) == g[j..] + x
  {
  }

  /** Some text holds `g` and, starting `d` characters into it, `f`. */
  predicate CanStart(f: string, g: string, d: nat)
    requires d <= |g|
  {
    f <= g[d..] || g[d..] <= f
  }

  /** No occurrence of `f` starts inside an occurrence of `g` at or after its `from`-th character. */
  predicate NoStart(f: string, g: string, from: nat) {
    forall d :: from <= d < |g| ==> !CanStart(f, g, d)
  }

  /** Occurrences of `f` and `g` never share a character. */
  predicate Apart(f: string, g: string) {
    NoStart(f, g, 0) && NoStart(g, f, 0)
  }

  /** Two occurrences of `t` never share a character unless they coincide. */
  predicate Unbordered(t: string) {
    NoStart(t, t, 1)
  }

  // ---- Prefixes and substrings ----

  lemma PrefixCons(f: string, s: string)
    requires f != "" && s != "" && f[0] == s[0] && f[1..] <= s[1..]
    ensures f <= s
  {
    assert f == [f[0]] + f[1..] && s == [s[0]] + s[1..];
  }

  lemma PrefixAfter(w: string, f: string, s: string)
    ensures w + f <= w + s <==> f <= s
  {
    assert (w + f)[|w|..] == f && (w + s)[|w|..] == s;
    if w + f <= w + s { assert (w + s)[..|w + f|][|w|..] == s[..|f|]; }
  }

  lemma SplitHead(f: string, w: string, rest: string)
    requires |w| <= |f| && f <= w + rest
    ensures f == w + f[|w|..] && f[|w|..] <= rest
  {
    assert f[..|w|] == w;
    assert f == w + f[|w|..];
    PrefixAfter(w, f[|w|..], rest);
  }

  lemma HeadsDisagree(a: string, b: string, y: string)
    requires b != "" && b <= y && NoStart(a, b, 0)
    ensures !(a <= y)
  {
    assert b[0..] == b;
    assert !CanStart(a, b, 0);
  }

  lemma HeadContains(s: string, p: string)
    requires p <= s
    ensures Contains(s, p)
  {
    assert MatchAt(s, 0, p);
  }

  lemma TailFree(s: string, k: nat, p: string)
    requires k <= |s| && !Contains(s, p)
    ensures !Contains(s[k..], p)
  {
    var t := s[k..];
    var i := Index(t, p);
    if i >= 0 {
      assert t[i..i + |p|] == s[k + i..k + i + |p|];
      assert MatchAt(s, k + i, p);
    }
  }

  lemma MatchChar(s: string, i: int, p: string, k: nat)
    requires MatchAt(s, i, p) && k < |p|
    ensures s[i + k] == p[k]
  {
    assert s[i..i + |p|][k] == s[i + k];
  }

  lemma MatchInHead(a: string, b: string, i: int, p: string)
    requires MatchAt(a + b, i, p) && i + |p| <= |a|
    ensures MatchAt(a, i, p)
  {
    assert (a + b)[i..i + |p|] == a[i..i + |p|];
  }

  lemma SubMatch(s: string, i: int, p: string, k: nat, q: string)
    requires MatchAt(s, i, p) && MatchAt(p, k, q)
    ensures MatchAt(s, i + k, q)
  {
    forall j | 0 <= j < |q| ensures s[i + k..i + k + |q|][j] == q[j] {
      MatchChar(s, i, p, k + j);
      MatchChar(p, k, q, j);
    }
  }

  lemma MatchTail(a: string, b: string)
    ensures MatchAt(a + b, |a|, b)
  {
    assert (a + b)[|a|..] == b;
  }
}
