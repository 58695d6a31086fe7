/**
 The rewriting of session and mount paths in a spawned process's stdin and stdout. The session
 directory's own path ends in the virtual path it replaces, so the two directions are not mirror
 images pass by pass; they are over the whole text.
 */
module PathRemap {
  import opened Strings
  import opened Replacement

  /** A mount: the path below the session directory, `/mnt/<name>`, and the host path it stands for. */
  datatype Mount = Mount(suffix: string, host: string)

  /** The entries for stdin, in mount order: session path to host path. */
  function ForwardTable(dir: string, mounts: seq<Mount>): (t: seq<Remap>)
    ensures |t| == |mounts| && forall i :: 0 <= i < |t| ==> t[i] == Remap(dir + mounts[i].suffix, mounts[i].host)
  {
    seq(|mounts|, i requires 0 <= i < |mounts| => Remap(dir + mounts[i].suffix, mounts[i].host))
  }

  /** The entries for stdout, in mount order: host path to virtual path. */
  function ReverseTable(vm: string, mounts: seq<Mount>): (t: seq<Remap>)
    ensures |t| == |mounts| && forall i :: 0 <= i < |t| ==> t[i] == Remap(mounts[i].host, vm + mounts[i].suffix)
  {
    seq(|mounts|, i requires 0 <= i < |mounts| => Remap(mounts[i].host, vm + mounts[i].suffix))
  }

  /** What `writeStdin` does to the data: the session pass, then the mount passes. */
  function ToReal(data: string, vm: string, dir: string, forward: seq<Remap>): string
    requires vm != "" && Usable(forward)
  {
    Passes(ReplaceAll(data, vm, dir), forward)
  }

  /** What `streamOutput` does to a line: the mount passes, then the session pass. */
  function ToVirtual(line: string, vm: string, dir: string, reverse: seq<Remap>): string
    requires dir != "" && Usable(reverse)
  {
    ReplaceAll(Passes(line, reverse), dir, vm)
  }

  /** What input rewriting needs: nothing inserted is found again, and nothing found overlaps itself. */
  predicate InputClear(vm: string, dir: string, mounts: seq<Mount>) {
    && vm != "" && dir != "" && Unbordered(dir) && Distinct(mounts)
    && (forall m :: m in mounts ==>
          && m.suffix != "" && m.host != ""
          && NoStart(vm, m.suffix, 0) && NoStart(dir, m.suffix, 0) && Apart(m.host, dir))
    && (forall m, n :: m in mounts && n in mounts && m != n ==>
          m.suffix != n.suffix && Apart(dir + m.suffix, n.host))
  }

  /**
   The conditions under which the two directions keep out of each other's way. Mounts may be nested:
   one's path may begin another's. A host path may begin another only if the mounts are nested the same way.
   */
  predicate Separated(vm: string, dir: string, mounts: seq<Mount>) {
    && InputClear(vm, dir, mounts)
    && (forall m, n :: m in mounts && n in mounts ==> NoStart(m.host, n.host, 1))
    && (forall m, n :: m in mounts && n in mounts && m != n ==>
          && Apart(m.host, vm + n.suffix)
          && (m.host <= n.host ==> n.suffix == m.suffix + n.host[|m.host|..]))
  }

  /** A text that mentions neither the session directory nor any mounted host path. */
  predicate Virtual(s: string, dir: string, mounts: seq<Mount>) {
    !Contains(s, dir) && forall m :: m in mounts ==> !Contains(s, m.host)
  }

  // ---- Each direction as one scan of the virtual text ----

  /** The whole stdin rewriting as one scan: mounts first, then the bare session prefix. */
  function Scan(vm: string, dir: string, mounts: seq<Mount>): (t: seq<Remap>)
    ensures |t| == |mounts| + 1 && t[|mounts|] == Remap(vm, dir)
    ensures forall i :: 0 <= i < |mounts| ==> t[i] == Remap(vm + mounts[i].suffix, mounts[i].host)
  {
    seq(|mounts|, i requires 0 <= i < |mounts| => Remap(vm + mounts[i].suffix, mounts[i].host)) + [Remap(vm, dir)]
  }

  /** The same scan with the mounts left as they are. */
  function KeepScan(vm: string, dir: string, mounts: seq<Mount>): (t: seq<Remap>)
    ensures |t| == |mounts| + 1 && t[|mounts|] == Remap(vm, dir)
    ensures forall i :: 0 <= i < |mounts| ==> t[i] == Remap(vm + mounts[i].suffix, vm + mounts[i].suffix)
  {
    seq(|mounts|, i requires 0 <= i < |mounts| => Remap(vm + mounts[i].suffix, vm + mounts[i].suffix)) + [Remap(vm, dir)]
  }

  lemma SamePick(s: string, vm: string, dir: string, mounts: seq<Mount>)
    ensures Pick(s, Scan(vm, dir, mounts)) == Pick(s, KeepScan(vm, dir, mounts))
  {
    var a, b := Scan(vm, dir, mounts), KeepScan(vm, dir, mounts);
    assert forall i :: 0 <= i < |a| ==> a[i].from == b[i].from;
  }

  lemma TablesUsable(vm: string, dir: string, mounts: seq<Mount>)
    requires InputClear(vm, dir, mounts)
    ensures Usable(ForwardTable(dir, mounts)) && Usable(ReverseTable(vm, mounts))
    ensures Usable(Scan(vm, dir, mounts)) && Usable(KeepScan(vm, dir, mounts))
  {
  }

  lemma {:induction false} ForwardScan(s: string, vm: string, dir: string, mounts: seq<Mount>)
    requires InputClear(vm, dir, mounts) && !Contains(s, dir)
    ensures Usable(ForwardTable(dir, mounts)) && Usable(Scan(vm, dir, mounts))
    ensures Multi(ReplaceAll(s, vm, dir), ForwardTable(dir, mounts)) == Multi(s, Scan(vm, dir, mounts))
    decreases |s|
  {
    TablesUsable(vm, dir, mounts);
    var fwd, scan := ForwardTable(dir, mounts), Scan(vm, dir, mounts);
    if s != "" {
      var p := Pick(s, scan);
      var k := if p < 0 then 1 else |scan[p].from|;
      TailFree(s, k, dir);
      ForwardScan(s[k..], vm, dir, mounts);
      if p < 0 {
        ForwardChar(s, vm, dir, mounts);
      } else if p == |mounts| {
        ForwardSession(s, vm, dir, mounts);
      } else {
        ForwardMount(s, vm, dir, mounts, p);
      }
    }
  }

  /** The session directory's path heads the session pass's output only if the pass put it there. */
  lemma NoNewHead(s: string, vm: string, dir: string)
    requires vm != "" && dir != "" && Unbordered(dir) && !(vm <= s)
    requires dir <= ReplaceAll(s, vm, dir)
    ensures dir <= s
  {
    ReplaceAllSkip(s, vm, dir);
    PassAsScan(s[1..], vm, dir);
    var y := ReplaceAll(s, vm, dir);
    assert dir[1..] <= y[1..] && y[1..] == ReplaceAll(s[1..], vm, dir);
    HeadWasThere(s[1..], dir, 1, [Remap(vm, dir)]);
    PrefixCons(dir, s);
  }

  lemma ForwardChar(s: string, vm: string, dir: string, mounts: seq<Mount>)
    requires InputClear(vm, dir, mounts) && Usable(ForwardTable(dir, mounts)) && !Contains(s, dir)
    requires s != "" && Pick(s, Scan(vm, dir, mounts)) < 0
    ensures Multi(ReplaceAll(s, vm, dir), ForwardTable(dir, mounts))
            == [s[0]] + Multi(ReplaceAll(s[1..], vm, dir), ForwardTable(dir, mounts))
  {
    var fwd, scan := ForwardTable(dir, mounts), Scan(vm, dir, mounts);
    assert !(scan[|mounts|].from <= s);
    ReplaceAllSkip(s, vm, dir);
    var y := ReplaceAll(s, vm, dir);
    if dir <= y { NoNewHead(s, vm, dir); HeadContains(s, dir); }
    forall i | 0 <= i < |fwd| ensures !(fwd[i].from <= y) {
      assert dir <= fwd[i].from;
    }
    assert y[1..] == ReplaceAll(s[1..], vm, dir);
  }

  /** After a bare session prefix the inserted directory does not begin a mount's path. */
  lemma BareSession(s': string, vm: string, dir: string, g: string)
    requires vm != "" && dir != "" && NoStart(dir, g, 0) && !(g <= s')
    ensures !(dir + g <= dir + ReplaceAll(s', vm, dir))
  {
    var rest := ReplaceAll(s', vm, dir);
    PrefixAfter(dir, g, rest);
    if g <= rest {
      PassAsScan(s', vm, dir);
      assert g[0..] == g;
      HeadWasThere(s', g, 0, [Remap(vm, dir)]);
    }
  }

  lemma LongerCannotStart(dir: string, g: string)
    requires Unbordered(dir)
    ensures NoStart(dir + g, dir, 1)
  {
    forall d | 1 <= d < |dir| ensures !CanStart(dir + g, dir, d) {
      assert !CanStart(dir, dir, d);
    }
  }

  lemma ForwardSession(s: string, vm: string, dir: string, mounts: seq<Mount>)
    requires InputClear(vm, dir, mounts) && Usable(ForwardTable(dir, mounts))
    requires Pick(s, Scan(vm, dir, mounts)) == |mounts|
    ensures Multi(ReplaceAll(s, vm, dir), ForwardTable(dir, mounts))
            == dir + Multi(ReplaceAll(s[|vm|..], vm, dir), ForwardTable(dir, mounts))
  {
    var fwd, scan := ForwardTable(dir, mounts), Scan(vm, dir, mounts);
    var s' := s[|vm|..];
    assert vm <= s && s == vm + s';
    ReplaceAllHere(s, vm, dir);
    var rest := ReplaceAll(s', vm, dir);
    var y := dir + rest;
    forall i | 0 <= i < |fwd| ensures !(fwd[i].from <= y) {
      assert mounts[i] in mounts;
      assert !(scan[i].from <= s);
      PrefixAfter(vm, mounts[i].suffix, s');
      BareSession(s', vm, dir, mounts[i].suffix);
    }
    forall r | r in fwd ensures NoStart(r.from, dir, 1) {
      var i :| 0 <= i < |fwd| && fwd[i] == r;
      LongerCannotStart(dir, mounts[i].suffix);
    }
    FirstCharThenCopy(dir, rest, fwd);
  }

  /** The session pass on a prefix followed by a mount's suffix. */
  lemma SessionPassThrough(s: string, vm: string, dir: string, g: string, tail: string)
    requires vm != "" && s == vm + (g + tail) && NoStart(vm, g, 0)
    ensures ReplaceAll(s, vm, dir) == dir + g + ReplaceAll(tail, vm, dir)
  {
    ReplaceAllHere(s, vm, dir);
    assert s[|vm|..] == g + tail;
    assert g[0..] == g;
    SkipPiece(g, 0, tail, vm, dir);
    assert dir + (g + ReplaceAll(tail, vm, dir)) == dir + g + ReplaceAll(tail, vm, dir);
  }

  lemma {:induction false} ForwardMount(s: string, vm: string, dir: string, mounts: seq<Mount>, p: nat)
    requires InputClear(vm, dir, mounts) && Usable(ForwardTable(dir, mounts))
    requires p < |mounts| && Pick(s, Scan(vm, dir, mounts)) == p
    ensures vm + mounts[p].suffix <= s
    ensures Multi(ReplaceAll(s, vm, dir), ForwardTable(dir, mounts))
            == mounts[p].host
               + Multi(ReplaceAll(s[|vm + mounts[p].suffix|..], vm, dir), ForwardTable(dir, mounts))
  {
    var g := mounts[p].suffix;
    assert mounts[p] in mounts;
    assert Scan(vm, dir, mounts)[p].from == vm + g;
    var tail := s[|vm + g|..];
    assert s == vm + (g + tail);
    SessionPassThrough(s, vm, dir, g, tail);
    var y := dir + g + ReplaceAll(tail, vm, dir);
    PickForward(s, y, vm, dir, mounts, p, g + tail);
    MultiTakes(y, p, ReplaceAll(tail, vm, dir), ForwardTable(dir, mounts));
  }

  /** After the session pass the same entry is the first to match. */
  lemma PickForward(s: string, y: string, vm: string, dir: string, mounts: seq<Mount>, p: nat, after: string)
    requires InputClear(vm, dir, mounts) && p < |mounts| && Pick(s, Scan(vm, dir, mounts)) == p
    requires s == vm + after && y == ReplaceAll(s, vm, dir) && dir + mounts[p].suffix <= y
    ensures Pick(y, ForwardTable(dir, mounts)) == p
  {
    var fwd, scan := ForwardTable(dir, mounts), Scan(vm, dir, mounts);
    assert fwd[p].from <= y;
    ReplaceAllHere(s, vm, dir);
    assert s[|vm|..] == after;
    forall q | 0 <= q < p ensures !(fwd[q].from <= y) {
      var g := mounts[q].suffix;
      assert mounts[q] in mounts && !(scan[q].from <= s);
      PrefixAfter(vm, g, after);
      BareSession(after, vm, dir, g);
    }
  }

  lemma HeadsComparable(a: string, b: string, c: string, d: string)
    requires a + b <= c + d || c + d <= a + b
    ensures a <= c || c <= a
  {
    assert (a + b)[..|a|] == a && (c + d)[..|c|] == c;
  }

  /** Two mounts' session paths overlap only from their common beginning. */
  lemma PatternsNest(vm: string, dir: string, mounts: seq<Mount>, m: Mount, n: Mount)
    requires InputClear(vm, dir, mounts) && m in mounts && n in mounts
    ensures NoStart(dir + m.suffix, dir + n.suffix, 1)
  {
    var f, g := dir + m.suffix, dir + n.suffix;
    forall d | 1 <= d < |g| ensures !CanStart(f, g, d) {
      if d < |dir| {
        assert !CanStart(dir, dir, d);
        assert g[d..] == dir[d..] + n.suffix;
        if CanStart(f, g, d) { HeadsComparable(dir, m.suffix, dir[d..], n.suffix); }
      } else {
        var t := n.suffix[d - |dir|..];
        assert !CanStart(dir, n.suffix, d - |dir|);
        assert g[d..] == t + "";
        if CanStart(f, g, d) { HeadsComparable(dir, m.suffix, t, ""); }
      }
    }
  }

  lemma ForwardIndependent(vm: string, dir: string, mounts: seq<Mount>)
    requires InputClear(vm, dir, mounts)
    ensures Independent(ForwardTable(dir, mounts))
  {
    var t := ForwardTable(dir, mounts);
    forall i | 0 <= i < |t| ensures t[i].from != "" && t[i].to != "" {
      assert mounts[i] in mounts;
    }
    forall i, j | 0 <= i < |t| && 0 <= j < |t|
      ensures NoStart(t[i].from, t[j].from, 1)
      ensures i != j ==> t[i].from != t[j].from && Apart(t[i].from, t[j].to)
    {
      var m, n := mounts[i], mounts[j];
      assert m in mounts && n in mounts;
      PatternsNest(vm, dir, mounts, m, n);
      assert (dir + m.suffix)[|dir|..] == m.suffix && (dir + n.suffix)[|dir|..] == n.suffix;
    }
  }

  /** On text free of the session directory's path, the stdin passes are one scan. */
  lemma ToRealIsScan(s: string, vm: string, dir: string, mounts: seq<Mount>)
    requires InputClear(vm, dir, mounts) && !Contains(s, dir)
    ensures Usable(ForwardTable(dir, mounts)) && Usable(Scan(vm, dir, mounts))
    ensures ToReal(s, vm, dir, ForwardTable(dir, mounts)) == Multi(s, Scan(vm, dir, mounts))
  {
    TablesUsable(vm, dir, mounts);
    ForwardIndependent(vm, dir, mounts);
    IndependentPasses(ReplaceAll(s, vm, dir), ForwardTable(dir, mounts));
    ForwardScan(s, vm, dir, mounts);
  }

  // ---- The way back ----

  lemma LongerPattern(f: string, e: string, g: string, k: nat)
    requires NoStart(f, g, k)
    ensures NoStart(f + e, g, k)
  {
    forall d | k <= d < |g| ensures !CanStart(f + e, g, d) {
      assert !CanStart(f, g, d);
    }
  }

  /** Nothing that either scan looks for starts inside a mount's suffix. */
  lemma SuffixCopied(vm: string, dir: string, mounts: seq<Mount>, n: Mount, k: nat)
    requires InputClear(vm, dir, mounts) && n in mounts
    ensures forall r :: r in Scan(vm, dir, mounts) || r in KeepScan(vm, dir, mounts) ==> NoStart(r.from, n.suffix, k)
  {
    forall i | 0 <= i <= |mounts| ensures NoStart(Scan(vm, dir, mounts)[i].from, n.suffix, k) {
      if i < |mounts| { LongerPattern(vm, mounts[i].suffix, n.suffix, 0); }
    }
    assert forall i :: 0 <= i <= |mounts| ==> KeepScan(vm, dir, mounts)[i].from == Scan(vm, dir, mounts)[i].from;
  }

  /** Nothing that the scan inserts, or that the way back looks for, starts inside a host path. */
  lemma HostCopied(vm: string, dir: string, mounts: seq<Mount>, back: seq<Mount>, n: Mount, k: nat)
    requires Separated(vm, dir, mounts) && Reorders(back, mounts) && n in mounts && k > 0
    ensures forall r :: r in Scan(vm, dir, mounts) ==> NoStart(r.to, n.host, k)
    ensures forall r :: r in ReverseTable(vm, back) ==> NoStart(r.from, n.host, k)
  {
    forall r | r in Scan(vm, dir, mounts) ensures NoStart(r.to, n.host, k) {
      var i :| 0 <= i <= |mounts| && Scan(vm, dir, mounts)[i] == r;
      if i < |mounts| { assert NoStart(mounts[i].host, n.host, 1); } else { assert Apart(n.host, dir); }
    }
    forall r | r in ReverseTable(vm, back) ensures NoStart(r.from, n.host, k) {
      var i :| 0 <= i < |back| && ReverseTable(vm, back)[i] == r;
      assert back[i] in mounts && NoStart(back[i].host, n.host, 1);
    }
  }

  lemma ReverseClear(vm: string, dir: string, mounts: seq<Mount>, back: seq<Mount>)
    requires Separated(vm, dir, mounts) && Reorders(back, mounts)
    ensures Usable(ReverseTable(vm, back))
    ensures var t := ReverseTable(vm, back); forall i, j :: 0 <= i < j < |t| ==> Clear(t[j], t[i])
  {
    var t := ReverseTable(vm, back);
    forall i, j | 0 <= i < j < |t| ensures Clear(t[j], t[i]) {
      assert back[i] in mounts && back[j] in mounts && back[i] != back[j];
      assert NoStart(back[i].host, back[j].host, 1) && Apart(back[j].host, vm + back[i].suffix);
    }
    forall i | 0 <= i < |t| ensures t[i].from != "" && t[i].to != "" { assert back[i] in mounts; }
  }

  /** A scan's text on which the way back has been taken. */
  predicate Restored(s: string, vm: string, dir: string, mounts: seq<Mount>, back: seq<Mount>)
    requires Usable(Scan(vm, dir, mounts)) && Usable(ReverseTable(vm, back)) && Usable(KeepScan(vm, dir, mounts))
  {
    Multi(Multi(s, Scan(vm, dir, mounts)), ReverseTable(vm, back)) == Multi(s, KeepScan(vm, dir, mounts))
  }

  /** The inserted host is recognised by itself, or by a host that begins it. */
  lemma HostOrOuter(s: string, vm: string, dir: string, mounts: seq<Mount>, back: seq<Mount>, a: Mount, b: Mount, q: nat, rest: string)
    requires Separated(vm, dir, mounts) && Reorders(back, mounts) && a in mounts
    requires Usable(Scan(vm, dir, mounts)) && Usable(ReverseTable(vm, back)) && Usable(KeepScan(vm, dir, mounts))
    requires var z := a.host + Multi(rest, Scan(vm, dir, mounts));
             q < |back| && b == back[q] && Pick(z, ReverseTable(vm, back)) == q && |b.host| <= |a.host|
    requires Restored(rest, vm, dir, mounts, back)
    ensures Multi(a.host + Multi(rest, Scan(vm, dir, mounts)), ReverseTable(vm, back))
            == vm + a.suffix + Multi(rest, KeepScan(vm, dir, mounts))
  {
    var rev, m := ReverseTable(vm, back), Multi(rest, Scan(vm, dir, mounts));
    var z := a.host + m;
    assert b in mounts && b.host <= z;
    var x := a.host[|b.host|..];
    OuterHost(vm, dir, mounts, a, b, m);
    HostCopied(vm, dir, mounts, back, a, |b.host|);
    CopyPiece(a.host, |b.host|, m, rev);
    MultiTakes(z, q, x + m, rev);
    var k := Multi(rest, KeepScan(vm, dir, mounts));
    Rejoin(vm, b.suffix, x, k);
  }

  lemma Rejoin(a: string, b: string, x: string, k: string)
    ensures (a + b) + (x + k) == a + (b + x) + k && (a + (b + x)) + k == a + b + (x + k)
  {
  }

  lemma CutOff(s: string, f: string)
    requires f <= s
    ensures s == f + s[|f|..]
  {
  }

  lemma OuterHost(vm: string, dir: string, mounts: seq<Mount>, a: Mount, b: Mount, m: string)
    requires Separated(vm, dir, mounts) && a in mounts && b in mounts && b.host <= a.host + m && |b.host| <= |a.host|
    ensures var x := a.host[|b.host|..]; a.suffix == b.suffix + x && a.host + m == b.host + (x + m)
  {
    NestedPatterns(b.host, a.host, a.host + m);
    var x := a.host[|b.host|..];
    assert a.host == b.host + x;
    assert (b.host + x) + m == b.host + (x + m);
    if a == b { assert x == "" && b.suffix + x == b.suffix; }
  }

  /** The inserted host and the text after it spell a longer host: then the text spelled the longer mount. */
  lemma LongerHost(vm: string, dir: string, mounts: seq<Mount>, back: seq<Mount>, a: Mount, b: Mount, rest: string)
    returns (x: string, rest2: string)
    requires Separated(vm, dir, mounts) && Reorders(back, mounts) && a in mounts && b in mounts && |a.host| < |b.host|
    requires Usable(Scan(vm, dir, mounts)) && Usable(KeepScan(vm, dir, mounts))
    requires b.host <= a.host + Multi(rest, Scan(vm, dir, mounts))
    ensures rest == x + rest2 && b.host == a.host + x && b.suffix == a.suffix + x
    ensures Multi(rest, Scan(vm, dir, mounts)) == x + Multi(rest2, Scan(vm, dir, mounts))
    ensures Multi(rest, KeepScan(vm, dir, mounts)) == x + Multi(rest2, KeepScan(vm, dir, mounts))
  {
    var scan := Scan(vm, dir, mounts);
    NestedPatterns(a.host, b.host, a.host + Multi(rest, scan));
    x := b.host[|a.host|..];
    SplitHead(b.host, a.host, Multi(rest, scan));
    HostCopied(vm, dir, mounts, back, b, |a.host|);
    HeadWasThere(rest, b.host, |a.host|, scan);
    rest2 := rest[|x|..];
    SuffixRest(vm, dir, mounts, a, b, x, rest2);
  }

  lemma SuffixRest(vm: string, dir: string, mounts: seq<Mount>, a: Mount, b: Mount, x: string, rest: string)
    requires InputClear(vm, dir, mounts) && b in mounts && b.suffix == a.suffix + x
    requires Usable(Scan(vm, dir, mounts)) && Usable(KeepScan(vm, dir, mounts))
    ensures Multi(x + rest, Scan(vm, dir, mounts)) == x + Multi(rest, Scan(vm, dir, mounts))
    ensures Multi(x + rest, KeepScan(vm, dir, mounts)) == x + Multi(rest, KeepScan(vm, dir, mounts))
  {
    assert b.suffix[|a.suffix|..] == x;
    SuffixCopied(vm, dir, mounts, b, |a.suffix|);
    CopyPiece(b.suffix, |a.suffix|, rest, Scan(vm, dir, mounts));
    CopyPiece(b.suffix, |a.suffix|, rest, KeepScan(vm, dir, mounts));
  }

  lemma HostInner(vm: string, dir: string, mounts: seq<Mount>, back: seq<Mount>, a: Mount, b: Mount, q: nat, x: string, rest2: string)
    requires Usable(Scan(vm, dir, mounts)) && Usable(ReverseTable(vm, back)) && Usable(KeepScan(vm, dir, mounts))
    requires b.host == a.host + x && b.suffix == a.suffix + x && q < |back| && back[q] == b
    requires Pick(a.host + (x + Multi(rest2, Scan(vm, dir, mounts))), ReverseTable(vm, back)) == q
    requires Restored(rest2, vm, dir, mounts, back)
    ensures Multi(a.host + (x + Multi(rest2, Scan(vm, dir, mounts))), ReverseTable(vm, back))
            == vm + a.suffix + (x + Multi(rest2, KeepScan(vm, dir, mounts)))
  {
    var m, k := Multi(rest2, Scan(vm, dir, mounts)), Multi(rest2, KeepScan(vm, dir, mounts));
    Assoc(a.host, x, m);
    MultiTakes(b.host + m, q, m, ReverseTable(vm, back));
    Rejoin(vm, a.suffix, x, k);
  }

  /** Where the scan inserted a host path, the way back puts the mount's path again, whichever entry finds it. */
  lemma MountBack(s: string, vm: string, dir: string, mounts: seq<Mount>, back: seq<Mount>, p: nat, rest: string)
    requires Separated(vm, dir, mounts) && Reorders(back, mounts) && (forall m :: m in mounts ==> !Contains(s, m.host))
    requires Usable(Scan(vm, dir, mounts)) && Usable(ReverseTable(vm, back)) && Usable(KeepScan(vm, dir, mounts))
    requires p < |mounts| && Pick(s, Scan(vm, dir, mounts)) == p && s == vm + mounts[p].suffix + rest
    ensures Restored(s, vm, dir, mounts, back)
    decreases |s|, 0
  {
    var rev, scan, keep := ReverseTable(vm, back), Scan(vm, dir, mounts), KeepScan(vm, dir, mounts);
    var a := mounts[p];
    assert a in mounts && a in back;
    MultiTakes(s, p, rest, scan);
    SamePick(s, vm, dir, mounts);
    MultiTakes(s, p, rest, keep);
    var z := a.host + Multi(rest, scan);
    var i :| 0 <= i < |back| && back[i] == a;
    assert rev[i] in rev;
    PickSome(z, rev, rev[i]);
    var q := Pick(z, rev);
    var b := back[q];
    StillFree(s, |vm + a.suffix|, rest, mounts);
    if |b.host| <= |a.host| {
      ReverseMounts(rest, vm, dir, mounts, back);
      HostOrOuter(s, vm, dir, mounts, back, a, b, q, rest);
    } else {
      var x, rest2 := LongerHost(vm, dir, mounts, back, a, b, rest);
      StillFree(rest, |x|, rest2, mounts);
      ReverseMounts(rest2, vm, dir, mounts, back);
      HostInner(vm, dir, mounts, back, a, b, q, x, rest2);
    }
  }

  lemma StillFree(s: string, k: nat, rest: string, mounts: seq<Mount>)
    requires k <= |s| && rest == s[k..] && forall m :: m in mounts ==> !Contains(s, m.host)
    ensures forall m :: m in mounts ==> !Contains(rest, m.host)
  {
    forall m | m in mounts ensures !Contains(rest, m.host) { TailFree(s, k, m.host); }
  }

  lemma SessionBack(s: string, vm: string, dir: string, mounts: seq<Mount>, back: seq<Mount>, rest: string)
    requires Separated(vm, dir, mounts) && Reorders(back, mounts)
    requires Usable(Scan(vm, dir, mounts)) && Usable(ReverseTable(vm, back)) && Usable(KeepScan(vm, dir, mounts))
    requires Pick(s, Scan(vm, dir, mounts)) == |mounts| && s == vm + rest && Restored(rest, vm, dir, mounts, back)
    ensures Restored(s, vm, dir, mounts, back)
  {
    var rev, scan := ReverseTable(vm, back), Scan(vm, dir, mounts);
    MultiTakes(s, |mounts|, rest, scan);
    SamePick(s, vm, dir, mounts);
    MultiTakes(s, |mounts|, rest, KeepScan(vm, dir, mounts));
    assert dir[0..] == dir;
    forall r | r in rev ensures NoStart(r.from, dir, 0) {
      var i :| 0 <= i < |rev| && rev[i] == r;
      assert back[i] in mounts && Apart(back[i].host, dir);
    }
    CopyPiece(dir, 0, Multi(rest, scan), rev);
  }

  lemma {:induction false} CharBack(s: string, vm: string, dir: string, mounts: seq<Mount>, back: seq<Mount>, rest: string)
    requires Separated(vm, dir, mounts) && Reorders(back, mounts) && (forall m :: m in mounts ==> !Contains(s, m.host))
    requires Usable(Scan(vm, dir, mounts)) && Usable(ReverseTable(vm, back)) && Usable(KeepScan(vm, dir, mounts))
    requires s != "" && rest == s[1..] && Pick(s, Scan(vm, dir, mounts)) < 0 && Restored(rest, vm, dir, mounts, back)
    ensures Restored(s, vm, dir, mounts, back)
  {
    var rev, scan := ReverseTable(vm, back), Scan(vm, dir, mounts);
    var z := Multi(s, scan);
    MultiSkips(s, rest, scan);
    SamePick(s, vm, dir, mounts);
    MultiSkips(s, rest, KeepScan(vm, dir, mounts));
    forall i | 0 <= i < |rev| ensures !(rev[i].from <= z) {
      assert back[i] in mounts;
      if back[i].host <= z { HostAtHead(s, vm, dir, mounts, back, back[i], rest); }
    }
    assert z[1..] == Multi(rest, scan);
    MultiSkips(z, Multi(rest, scan), rev);
  }

  lemma HostAtHead(s: string, vm: string, dir: string, mounts: seq<Mount>, back: seq<Mount>, n: Mount, rest: string)
    requires Separated(vm, dir, mounts) && Reorders(back, mounts) && n in mounts && Usable(Scan(vm, dir, mounts))
    requires s != "" && rest == s[1..] && n.host <= [s[0]] + Multi(rest, Scan(vm, dir, mounts))
    ensures Contains(s, n.host)
  {
    var f, z := n.host, [s[0]] + Multi(rest, Scan(vm, dir, mounts));
    HostCopied(vm, dir, mounts, back, n, 1);
    assert f[1..] <= z[1..] == Multi(rest, Scan(vm, dir, mounts));
    HeadWasThere(rest, f, 1, Scan(vm, dir, mounts));
    PrefixCons(f, s);
    HeadContains(s, f);
  }

  lemma {:induction false} ReverseMounts(s: string, vm: string, dir: string, mounts: seq<Mount>, back: seq<Mount>)
    requires Separated(vm, dir, mounts) && Reorders(back, mounts) && (forall m :: m in mounts ==> !Contains(s, m.host))
    requires Usable(Scan(vm, dir, mounts)) && Usable(ReverseTable(vm, back)) && Usable(KeepScan(vm, dir, mounts))
    ensures Restored(s, vm, dir, mounts, back)
    decreases |s|, 1
  {
    if s != "" {
      var p := Pick(s, Scan(vm, dir, mounts));
      if p < 0 {
        StillFree(s, 1, s[1..], mounts);
        ReverseMounts(s[1..], vm, dir, mounts, back);
        CharBack(s, vm, dir, mounts, back, s[1..]);
      } else if p == |mounts| {
        var rest := s[|vm|..];
        CutOff(s, vm);
        StillFree(s, |vm|, rest, mounts);
        ReverseMounts(rest, vm, dir, mounts, back);
        SessionBack(s, vm, dir, mounts, back, rest);
      } else {
        var rest := s[|vm + mounts[p].suffix|..];
        CutOff(s, vm + mounts[p].suffix);
        MountBack(s, vm, dir, mounts, back, p, rest);
      }
    }
  }

  /**
   Stdin and stdout rewriting undo each other, for tables listed in any two orders: text that names
   no real path reaches the process with real paths and, echoed back, returns as it was sent.
   */
  lemma RoundTrip(s: string, vm: string, dir: string, mounts: seq<Mount>, back: seq<Mount>)
    requires Separated(vm, dir, mounts) && Reorders(back, mounts) && Virtual(s, dir, mounts)
    ensures Usable(ForwardTable(dir, mounts)) && Usable(ReverseTable(vm, back))
    ensures ToVirtual(ToReal(s, vm, dir, ForwardTable(dir, mounts)), vm, dir, ReverseTable(vm, back)) == s
  {
    TablesUsable(vm, dir, mounts);
    ReverseClear(vm, dir, mounts, back);
    ToRealIsScan(s, vm, dir, mounts);
    PassesAreSimultaneous(Multi(s, Scan(vm, dir, mounts)), ReverseTable(vm, back));
    ReverseMounts(s, vm, dir, mounts, back);
    KeptUndone(s, vm, dir, KeepScan(vm, dir, mounts));
  }

  // ---- Nested mounts meet the conditions ----

  /** The first two characters tell that no occurrence of `f` starts in `g`. */
  predicate Told(f: string, g: string, from: nat) {
    |f| > 1 && forall d :: from <= d < |g| ==> g[d] != f[0] || (d + 1 < |g| && g[d + 1] != f[1])
  }

  lemma ToldNoStart(f: string, g: string, from: nat)
    requires Told(f, g, from)
    ensures NoStart(f, g, from)
  {
    forall d | from <= d < |g| ensures !CanStart(f, g, d) {
      var h := g[d..];
      assert g[d] != f[0] || (d + 1 < |g| && g[d + 1] != f[1]);
      assert h[0] == g[d] && (d + 1 < |g| ==> h[1] == g[d + 1]);
      FirstTwoDiffer(f, h);
    }
  }

  lemma FirstTwoDiffer(f: string, h: string)
    requires |f| > 1 && h != "" && (h[0] != f[0] || (|h| > 1 && h[1] != f[1]))
    ensures !(f <= h) && !(h <= f)
  {
    PrefixChar(f, h, 0); PrefixChar(f, h, 1);
    PrefixChar(h, f, 0); PrefixChar(h, f, 1);
  }

  lemma PrefixChar(f: string, h: string, k: nat)
    ensures f <= h && k < |f| ==> k < |h| && f[k] == h[k]
  {
  }

  lemma MountToldClear(vm: string, dir: string, m: Mount)
    requires Told(vm, m.suffix, 0) && Told(dir, m.suffix, 0) && Told(m.host, dir, 0) && Told(dir, m.host, 0)
    ensures NoStart(vm, m.suffix, 0) && NoStart(dir, m.suffix, 0) && Apart(m.host, dir)
  {
    ToldNoStart(vm, m.suffix, 0);
    ToldNoStart(dir, m.suffix, 0);
    ToldNoStart(m.host, dir, 0);
    ToldNoStart(dir, m.host, 0);
  }

  lemma NestedMountsClear(inner: string)
    requires inner == "/k" || inner == "/h/b"
    ensures InputClear("/v", "/r/v", [Mount("/m", "/h"), Mount("/m/b", inner)])
  {
    var vm, dir, a, b := "/v", "/r/v", Mount("/m", "/h"), Mount("/m/b", inner);
    ToldNoStart(dir, dir, 1);
    MountToldClear(vm, dir, a);
    MountToldClear(vm, dir, b);
    NestedHostsClear(dir, a, b);
    assert |a.suffix| != |b.suffix|;
  }

  lemma NestedHostsClear(dir: string, a: Mount, b: Mount)
    requires dir == "/r/v" && a == Mount("/m", "/h") && b.suffix == "/m/b" && (b.host == "/k" || b.host == "/h/b")
    ensures Apart(dir + a.suffix, b.host) && Apart(dir + b.suffix, a.host)
  {
    ToldNoStart(dir + a.suffix, b.host, 0); ToldNoStart(b.host, dir + a.suffix, 0);
    ToldNoStart(dir + b.suffix, a.host, 0); ToldNoStart(a.host, dir + b.suffix, 0);
  }

  lemma NestedHostsApart(vm: string, a: Mount, b: Mount)
    requires vm == "/v" && a == Mount("/m", "/h") && b.suffix == "/m/b" && (b.host == "/k" || b.host == "/h/b")
    ensures NoStart(a.host, a.host, 1) && NoStart(a.host, b.host, 1) && NoStart(b.host, a.host, 1) && NoStart(b.host, b.host, 1)
    ensures Apart(a.host, vm + b.suffix) && Apart(b.host, vm + a.suffix)
  {
    ToldNoStart(a.host, a.host, 1); ToldNoStart(a.host, b.host, 1);
    ToldNoStart(b.host, a.host, 1); ToldNoStart(b.host, b.host, 1);
    ToldNoStart(a.host, vm + b.suffix, 0); ToldNoStart(vm + b.suffix, a.host, 0);
    ToldNoStart(b.host, vm + a.suffix, 0); ToldNoStart(vm + a.suffix, b.host, 0);
  }

  /** A mount below another one, with its host path elsewhere or inside the outer host path. */
  lemma NestedMountsSeparated(inner: string)
    requires inner == "/k" || inner == "/h/b"
    ensures Separated("/v", "/r/v", [Mount("/m", "/h"), Mount("/m/b", inner)])
  {
    var vm, a, b := "/v", Mount("/m", "/h"), Mount("/m/b", inner);
    NestedMountsClear(inner);
    NestedHostsApart(vm, a, b);
    assert b.suffix == a.suffix + "/b";
    assert inner == "/k" ==> a.host[1] != b.host[1];
    assert inner == "/h/b" ==> b.host[|a.host|..] == "/b" && |a.host| < |b.host|;
  }
}
