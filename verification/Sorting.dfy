/** Strings in the order Go compares them, and sorting by a string key. */
module Sorting {

  predicate Less(a: string, b: string) {
    b != [] && (a == [] || a[0] < b[0] || (a[0] == b[0] && Less(a[1..], b[1..])))
  }

  lemma {:induction false} LessTotal(a: string, b: string)
    ensures Less(a, b) || a == b || Less(b, a)
    ensures !(Less(a, b) && Less(b, a)) && !Less(a, a)
  {
    if a != [] {
      LessTotal(a[1..], a[1..]);
      if b != [] { LessTotal(a[1..], b[1..]); }
    }
  }

  lemma {:induction false} LessTransitive(a: string, b: string, c: string)
    requires Less(a, b) && Less(b, c)
    ensures Less(a, c)
  {
    if a != [] && a[0] == b[0] && b[0] == c[0] { LessTransitive(a[1..], b[1..], c[1..]); }
  }

  // ---- Sequences of distinct keys ----

  predicate Ascending(keys: seq<string>) {
    forall i, j :: 0 <= i < j < |keys| ==> Less(keys[i], keys[j])
  }

  /** An ascending sequence has no duplicates and is fixed by its elements. */
  lemma {:induction false} AscendingUnique(xs: seq<string>, ys: seq<string>)
    requires Ascending(xs) && Ascending(ys) && forall k :: k in xs <==> k in ys
    ensures xs == ys
    decreases |xs|
  {
    if xs == [] || ys == [] {
      EmptyTogether(xs, ys);
    } else {
      FirstIsLeast(xs, ys);
      FirstIsLeast(ys, xs);
      LessTotal(xs[0], ys[0]);
      LessTotal(xs[0], xs[0]);
      forall k ensures k in xs[1..] <==> k in ys[1..] {
        assert k in xs <==> k == xs[0] || k in xs[1..];
        assert k in ys <==> k == ys[0] || k in ys[1..];
      }
      AscendingUnique(xs[1..], ys[1..]);
      assert xs == [xs[0]] + xs[1..] && ys == [ys[0]] + ys[1..];
    }
  }

  lemma EmptyTogether(xs: seq<string>, ys: seq<string>)
    requires forall k :: k in xs <==> k in ys
    ensures xs == [] <==> ys == []
  {
    if xs != [] { assert xs[0] in ys; }
    if ys != [] { assert ys[0] in xs; }
  }

  lemma FirstIsLeast(xs: seq<string>, ys: seq<string>)
    requires Ascending(xs) && xs != [] && ys != [] && ys[0] in xs
    ensures xs[0] == ys[0] || Less(xs[0], ys[0])
  {
  }

  /** Where a new key goes: before the first that is not below it. */
  method Position(keys: seq<string>, k: string) returns (i: nat)
    requires Ascending(keys) && k !in keys
    ensures i <= |keys| && Ascending(keys[..i] + [k] + keys[i..])
  {
    i := 0;
    while i < |keys| && Less(keys[i], k)
      invariant i <= |keys| && forall j :: 0 <= j < i ==> Less(keys[j], k)
    {
      i := i + 1;
    }
    InsertAscends(keys, k, i);
  }

  lemma InsertAscends(keys: seq<string>, k: string, i: nat)
    requires Ascending(keys) && k !in keys && i <= |keys|
    requires (forall j :: 0 <= j < i ==> Less(keys[j], k)) && (i < |keys| ==> !Less(keys[i], k))
    ensures Ascending(keys[..i] + [k] + keys[i..])
  {
    forall j | i <= j < |keys| ensures Less(k, keys[j]) {
      LessTotal(keys[i], k);
      if j > i { LessTransitive(k, keys[i], keys[j]); }
    }
    var all := keys[..i] + [k] + keys[i..];
    forall a, b | 0 <= a < b < |all| ensures Less(all[a], all[b]) {
    }
  }

  // ---- Listing a set in order ----

  lemma LeastExists(s: set<string>) returns (m: string)
    requires s != {}
    ensures m in s && forall k :: k in s ==> k == m || Less(m, k)
  {
    m :| m in s;
    if s != {m} {
      var n := LeastExists(s - {m});
      LessTotal(m, n);
      if Less(n, m) {
        m := n;
      } else {
        forall k | k in s && k != m ensures Less(m, k) {
          if k != n { LessTransitive(m, n, k); }
        }
      }
    }
  }

  lemma SomeLeast(s: set<string>)
    requires s != {}
    ensures exists m :: m in s && forall k :: k in s ==> k == m || Less(m, k)
  {
    var m := LeastExists(s);
  }

  /** The elements of a set in ascending order. */
  ghost function InOrder(s: set<string>): (keys: seq<string>)
    ensures Ascending(keys) && forall k :: k in keys <==> k in s
  {
    if s == {} then []
    else
      SomeLeast(s);
      var m :| m in s && forall k :: k in s ==> k == m || Less(m, k);
      [m] + InOrder(s - {m})
  }

  lemma InOrderIs(s: set<string>, keys: seq<string>)
    requires Ascending(keys) && forall k :: k in keys <==> k in s
    ensures keys == InOrder(s)
  {
    AscendingUnique(keys, InOrder(s));
  }

  /** `sort.Strings` on names that differ. */
  method SortStrings(names: seq<string>) returns (sorted: seq<string>)
    requires forall i, j :: 0 <= i < j < |names| ==> names[i] != names[j]
    ensures Ascending(sorted) && |sorted| == |names| && forall k :: k in sorted <==> k in names
  {
    sorted := [];
    for i := 0 to |names|
      invariant Ascending(sorted) && |sorted| == i
      invariant forall k :: k in sorted <==> k in names[..i]
    {
      assert names[i] !in names[..i];
      var at := Position(sorted, names[i]);
      assert names[..i + 1] == names[..i] + [names[i]] && sorted == sorted[..at] + sorted[at..];
      sorted := sorted[..at] + [names[i]] + sorted[at..];
    }
    assert names[..|names|] == names;
  }
}
