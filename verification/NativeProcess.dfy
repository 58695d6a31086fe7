/** The remap tables built by `Spawn` from a map of mounts, and the loops that apply them. */
module NativeProcess {
  import opened Strings
  import opened Replacement
  import opened PathRemap
  import MountPaths

  /** The remapping state of one spawned process; an empty `vmPrefix` is a process without one. */
  datatype ProcessPaths = ProcessPaths(
    vmPrefix: string, realPrefix: string, reverseMap: bool,
    mountRemap: seq<Remap>, reverseMountRemap: seq<Remap>)

  function MountOf(links: MountPaths.Links, home: string, name: string, spec: MountPaths.MountSpec): Mount {
    Mount("/mnt/" + name, MountPaths.ResolveSubpath(links, home, spec.path))
  }

  /** The mounts in the order the map was iterated. */
  function MountsIn(links: MountPaths.Links, home: string, mounts: map<string, MountPaths.MountSpec>, order: seq<string>)
    : (ms: seq<Mount>)
    requires forall n :: n in order ==> n in mounts
    ensures |ms| == |order| && forall i :: 0 <= i < |order| ==> ms[i] == MountOf(links, home, order[i], mounts[order[i]])
  {
    seq(|order|, i requires 0 <= i < |order| => MountOf(links, home, order[i], mounts[order[i]]))
  }

  /** The table of the mounts whose two spellings differ. */
  function ForwardEntries(dir: string, ms: seq<Mount>): seq<Remap> {
    if ms == [] then []
    else
      var m := ms[|ms| - 1];
      ForwardEntries(dir, ms[..|ms| - 1]) + (if dir + m.suffix != m.host then [Remap(dir + m.suffix, m.host)] else [])
  }

  function ReverseEntries(vm: string, ms: seq<Mount>): seq<Remap> {
    if ms == [] then []
    else
      var m := ms[|ms| - 1];
      ReverseEntries(vm, ms[..|ms| - 1]) + (if m.host != vm + m.suffix then [Remap(m.host, vm + m.suffix)] else [])
  }

  predicate Lists(order: seq<string>, keys: set<string>) {
    Distinct(order) && (forall k :: k in order ==> k in keys) && (forall k :: k in keys ==> k in order)
  }

  lemma OneMoreMount(links: MountPaths.Links, home: string, mounts: map<string, MountPaths.MountSpec>,
                     order: seq<string>, name: string)
    requires (forall n :: n in order ==> n in mounts) && name in mounts
    ensures forall n :: n in order + [name] ==> n in mounts
    ensures MountsIn(links, home, mounts, order + [name])
            == MountsIn(links, home, mounts, order) + [MountOf(links, home, name, mounts[name])]
  {
    forall n | n in order + [name] ensures n in mounts { }
  }

  lemma OneMoreEntry(vm: string, dir: string, ms: seq<Mount>, m: Mount)
    ensures ForwardEntries(dir, ms + [m])
            == ForwardEntries(dir, ms) + (if dir + m.suffix != m.host then [Remap(dir + m.suffix, m.host)] else [])
    ensures ReverseEntries(vm, ms + [m])
            == ReverseEntries(vm, ms) + (if m.host != vm + m.suffix then [Remap(m.host, vm + m.suffix)] else [])
  {
    assert (ms + [m])[..|ms|] == ms;
  }

  /** The tables list every mount whose spellings differ, in that order of the map. */
  predicate BuiltInOrder(links: MountPaths.Links, home: string, vm: string, dir: string, mounts: map<string, MountPaths.MountSpec>,
                         order: seq<string>, forward: seq<Remap>, reverse: seq<Remap>)
  {
    && Lists(order, mounts.Keys)
    && forward == ForwardEntries(dir, MountsIn(links, home, mounts, order))
    && reverse == ReverseEntries(vm, MountsIn(links, home, mounts, order))
  }

  /** The loop of `Spawn` over the mounts, in whatever order the map yields them. */
  method BuildTables(links: MountPaths.Links, home: string, vm: string, dir: string, mounts: map<string, MountPaths.MountSpec>)
    returns (forward: seq<Remap>, reverse: seq<Remap>)
    ensures exists order :: BuiltInOrder(links, home, vm, dir, mounts, order, forward, reverse)
  {
    forward, reverse := [], [];
    ghost var order := [];
    var left := mounts.Keys;
    while left != {}
      invariant left <= mounts.Keys
      invariant Lists(order, mounts.Keys - left)
      invariant forward == ForwardEntries(dir, MountsIn(links, home, mounts, order))
      invariant reverse == ReverseEntries(vm, MountsIn(links, home, mounts, order))
      decreases left
    {
      var name :| name in left;
      left := left - {name};
      var hostPath := MountPaths.ResolveSubpath(links, home, mounts[name].path);
      var mntPath := dir + "/mnt/" + name;
      var vmMntPath := vm + "/mnt/" + name;
      assert mntPath == dir + ("/mnt/" + name) && vmMntPath == vm + ("/mnt/" + name);
      OneMoreMount(links, home, mounts, order, name);
      OneMoreEntry(vm, dir, MountsIn(links, home, mounts, order), Mount("/mnt/" + name, hostPath));
      if mntPath != hostPath {
        forward := forward + [Remap(mntPath, hostPath)];
      }
      if hostPath != vmMntPath {
        reverse := reverse + [Remap(hostPath, vmMntPath)];
      }
      order := order + [name];
    }
    assert BuiltInOrder(links, home, vm, dir, mounts, order, forward, reverse);
  }

  /** One line of a process's output, as `streamOutput` rewrites it. */
  method RewriteOutput(p: ProcessPaths, text: string) returns (line: string)
    requires Usable(p.reverseMountRemap) && (p.reverseMap ==> p.realPrefix != "")
    ensures line == if p.reverseMap then ToVirtual(text, p.vmPrefix, p.realPrefix, p.reverseMountRemap) else text
  {
    line := text;
    if p.reverseMap {
      for i := 0 to |p.reverseMountRemap|
        invariant Usable(p.reverseMountRemap[..i]) && line == Passes(text, p.reverseMountRemap[..i])
      {
        line := ReplaceAll(line, p.reverseMountRemap[i].from, p.reverseMountRemap[i].to);
        assert p.reverseMountRemap[..i + 1] == p.reverseMountRemap[..i] + [p.reverseMountRemap[i]];
      }
      assert p.reverseMountRemap[..|p.reverseMountRemap|] == p.reverseMountRemap;
      line := ReplaceAll(line, p.realPrefix, p.vmPrefix);
    }
  }

  /** Data for a process's stdin, as `writeStdin` rewrites it, and a path, as `present_files` does. */
  method RewriteInput(p: ProcessPaths, text: string) returns (data: string)
    requires Usable(p.mountRemap)
    ensures data == if p.vmPrefix != "" then ToReal(text, p.vmPrefix, p.realPrefix, p.mountRemap)
                    else Passes(text, p.mountRemap)
  {
    data := text;
    if p.vmPrefix != "" {
      data := ReplaceAll(data, p.vmPrefix, p.realPrefix);
    }
    ghost var start := data;
    for i := 0 to |p.mountRemap|
      invariant Usable(p.mountRemap[..i]) && data == Passes(start, p.mountRemap[..i])
    {
      data := ReplaceAll(data, p.mountRemap[i].from, p.mountRemap[i].to);
      assert p.mountRemap[..i + 1] == p.mountRemap[..i] + [p.mountRemap[i]];
    }
    assert p.mountRemap[..|p.mountRemap|] == p.mountRemap;
  }

  // ---- What holds whichever order the map was iterated in ----

  predicate EndsWith(s: string, t: string) {
    |t| <= |s| && s[|s| - |t|..] == t
  }

  lemma HostElsewhere(dir: string, m: Mount, vm: string)
    requires dir != "" && m.host != "" && Apart(m.host, dir)
    ensures dir + m.suffix != m.host
    ensures EndsWith(dir, vm) && vm != "" ==> vm + m.suffix != m.host
  {
    assert !CanStart(m.host, dir, 0) && !CanStart(dir, m.host, 0);
    assert m.host[0..] == m.host && dir[0..] == dir;
    assert NoStart(m.host, dir, 0);
    if EndsWith(dir, vm) && vm != "" && vm + m.suffix == m.host {
      assert vm <= m.host;
      assert CanStart(m.host, dir, |dir| - |vm|);
    }
  }

  predicate AllElsewhere(dir: string, ms: seq<Mount>) {
    dir != "" && forall m :: m in ms ==> m.host != "" && Apart(m.host, dir)
  }

  /** With hosts clear of the session directory no mount is skipped, so both tables list all of them. */
  lemma {:induction false} NoneSkipped(vm: string, dir: string, ms: seq<Mount>)
    requires AllElsewhere(dir, ms)
    ensures ForwardEntries(dir, ms) == ForwardTable(dir, ms)
    ensures EndsWith(dir, vm) && vm != "" ==> ReverseEntries(vm, ms) == ReverseTable(vm, ms)
  {
    if ms != [] {
      var init, last := ms[..|ms| - 1], ms[|ms| - 1];
      assert ms == init + [last] && last in ms;
      assert forall m :: m in init ==> m in ms;
      NoneSkipped(vm, dir, init);
      HostElsewhere(dir, last, vm);
      OneMoreEntry(vm, dir, init, last);
      OneMoreTable(vm, dir, init, last);
    }
  }

  lemma OneMoreTable(vm: string, dir: string, ms: seq<Mount>, m: Mount)
    ensures ForwardTable(dir, ms + [m]) == ForwardTable(dir, ms) + [Remap(dir + m.suffix, m.host)]
    ensures ReverseTable(vm, ms + [m]) == ReverseTable(vm, ms) + [Remap(m.host, vm + m.suffix)]
  {
  }

  lemma MountsDiffer(links: MountPaths.Links, home: string, mounts: map<string, MountPaths.MountSpec>, a: string, b: string)
    requires a in mounts && b in mounts && a != b
    ensures MountOf(links, home, a, mounts[a]).suffix != MountOf(links, home, b, mounts[b]).suffix
  {
    assert ("/mnt/" + a)[5..] == a && ("/mnt/" + b)[5..] == b;
  }

  /** Two orders of the map list the same mounts, each once. */
  lemma OrdersReorder(links: MountPaths.Links, home: string, mounts: map<string, MountPaths.MountSpec>,
                      order: seq<string>, other: seq<string>)
    requires Lists(order, mounts.Keys) && Lists(other, mounts.Keys)
    ensures Reorders(MountsIn(links, home, mounts, other), MountsIn(links, home, mounts, order))
  {
    var ms, ms' := MountsIn(links, home, mounts, order), MountsIn(links, home, mounts, other);
    forall i, j | 0 <= i < j < |other| ensures ms'[i] != ms'[j] {
      MountsDiffer(links, home, mounts, other[i], other[j]);
    }
    forall m | m in ms' ensures m in ms {
      var i :| 0 <= i < |other| && ms'[i] == m;
      assert other[i] in order;
      var k :| 0 <= k < |order| && order[k] == other[i];
      assert ms[k] == m;
    }
    forall m | m in ms ensures m in ms' {
      var i :| 0 <= i < |order| && ms[i] == m;
      assert order[i] in other;
      var k :| 0 <= k < |other| && other[k] == order[i];
      assert ms'[k] == m;
    }
  }

  lemma TablesReorder(dir: string, ms: seq<Mount>, ms': seq<Mount>)
    requires Reorders(ms', ms) && Independent(ForwardTable(dir, ms))
    requires forall m, n :: m in ms && n in ms && m != n ==> m.suffix != n.suffix
    ensures Reorders(ForwardTable(dir, ms'), ForwardTable(dir, ms))
  {
    var t, t' := ForwardTable(dir, ms), ForwardTable(dir, ms');
    forall i, j | 0 <= i < j < |t'| ensures t'[i] != t'[j] {
      assert ms'[i] in ms && ms'[j] in ms && ms'[i] != ms'[j];
      assert t'[i].from[|dir|..] == ms'[i].suffix && t'[j].from[|dir|..] == ms'[j].suffix;
    }
    forall i | 0 <= i < |t'| ensures t'[i] in t {
      assert ms'[i] in ms;
      var k :| 0 <= k < |ms| && ms[k] == ms'[i];
      assert t[k] == t'[i];
    }
    forall i | 0 <= i < |t| ensures t[i] in t' {
      assert ms[i] in ms';
      var k :| 0 <= k < |ms'| && ms'[k] == ms[i];
      assert t'[k] == t[i];
    }
  }

  // ---- When the order of the map does not matter to a process's input ----

  /** Every nested mount's host path extends the outer mount's host path by the same text. */
  predicate NestedAlike(ms: seq<Mount>) {
    forall m, n :: m in ms && n in ms && m.suffix <= n.suffix ==> n.host == m.host + n.suffix[|m.suffix|..]
  }

  ghost predicate SameInput(vm: string, dir: string, t: seq<Remap>, u: seq<Remap>) {
    vm != "" && Usable(t) && Usable(u) && forall s :: ToReal(s, vm, dir, t) == ToReal(s, vm, dir, u)
  }

  lemma SamePrefix(dir: string, a: string, b: string)
    ensures dir + a <= dir + b <==> a <= b
    ensures a <= b ==> (dir + b)[|dir + a|..] == b[|a|..]
  {
    PrefixAfter(dir, a, b);
  }

  lemma CoherentMeansAlike(dir: string, ms: seq<Mount>, m: Mount, n: Mount)
    requires Coherent(ForwardTable(dir, ms)) && m in ms && n in ms && m.suffix <= n.suffix
    ensures n.host == m.host + n.suffix[|m.suffix|..]
  {
    var t := ForwardTable(dir, ms);
    var i :| 0 <= i < |ms| && ms[i] == m;
    var j :| 0 <= j < |ms| && ms[j] == n;
    SamePrefix(dir, m.suffix, n.suffix);
    assert t[i] in t && t[j] in t;
  }

  lemma AlikeMeansCoherent(dir: string, ms: seq<Mount>, a: Remap, b: Remap)
    requires NestedAlike(ms) && a in ForwardTable(dir, ms) && b in ForwardTable(dir, ms) && a.from <= b.from
    ensures b.to == a.to + b.from[|a.from|..]
  {
    var t := ForwardTable(dir, ms);
    var i :| 0 <= i < |t| && t[i] == a;
    var j :| 0 <= j < |t| && t[j] == b;
    SamePrefix(dir, ms[i].suffix, ms[j].suffix);
    assert ms[i] in ms && ms[j] in ms;
  }

  lemma CoherentIffNestedAlike(dir: string, ms: seq<Mount>)
    ensures Coherent(ForwardTable(dir, ms)) <==> NestedAlike(ms)
  {
    if Coherent(ForwardTable(dir, ms)) {
      forall m, n | m in ms && n in ms && m.suffix <= n.suffix ensures n.host == m.host + n.suffix[|m.suffix|..] {
        CoherentMeansAlike(dir, ms, m, n);
      }
    }
    if NestedAlike(ms) {
      var t := ForwardTable(dir, ms);
      forall a, b | a in t && b in t && a.from <= b.from ensures b.to == a.to + b.from[|a.from|..] {
        AlikeMeansCoherent(dir, ms, a, b);
      }
    }
  }

  lemma TableAtFront(dir: string, ms: seq<Mount>, i: nat)
    requires i < |ms|
    ensures ForwardTable(dir, ToFront(ms, i)) == ToFront(ForwardTable(dir, ms), i)
  {
  }

  lemma FrontAt<T>(q: seq<T>, i: nat)
    requires i < |q|
    ensures forall k :: 0 <= k < |q| ==> ToFront(q, i)[k] == q[if k == 0 then i else if k <= i then k - 1 else k]
  {
  }

  lemma MountsAtFront(links: MountPaths.Links, home: string, mounts: map<string, MountPaths.MountSpec>, order: seq<string>, i: nat)
    requires Lists(order, mounts.Keys) && i < |order|
    ensures Lists(ToFront(order, i), mounts.Keys)
    ensures MountsIn(links, home, mounts, ToFront(order, i)) == ToFront(MountsIn(links, home, mounts, order), i)
  {
    FrontReorders(order, i);
    FrontAt(order, i);
    FrontAt(MountsIn(links, home, mounts, order), i);
  }

  lemma {:induction false} IncoherentTable(dir: string, ms: seq<Mount>, i: nat, j: nat)
    requires Independent(ForwardTable(dir, ms)) && i < |ms| && j < |ms|
    requires ms[i].suffix <= ms[j].suffix && ms[j].host != ms[i].host + ms[j].suffix[|ms[i].suffix|..]
    ensures var t := ForwardTable(dir, ms);
            && Usable(ToFront(t, i)) && Usable(ToFront(t, j))
            && Passes(dir + ms[j].suffix, ToFront(t, i)) != Passes(dir + ms[j].suffix, ToFront(t, j))
  {
    var t := ForwardTable(dir, ms);
    SamePrefix(dir, ms[i].suffix, ms[j].suffix);
    IncoherentPair(t, i, j);
  }

  lemma SessionAlone(vm: string, dir: string, g: string)
    requires vm != "" && NoStart(vm, g, 0)
    ensures ReplaceAll(vm + g, vm, dir) == dir + g
  {
    assert vm + g == vm + (g + "");
    SessionPassThrough(vm + g, vm, dir, g, "");
    assert dir + g + "" == dir + g;
  }

  /** Two orders that rewrite some text differently, when a nested mount's host path lies elsewhere. */
  lemma NestedElsewhere(vm: string, dir: string, ms: seq<Mount>, i: nat, j: nat)
    requires InputClear(vm, dir, ms) && i < |ms| && j < |ms|
    requires ms[i].suffix <= ms[j].suffix && ms[j].host != ms[i].host + ms[j].suffix[|ms[i].suffix|..]
    ensures !SameInput(vm, dir, ForwardTable(dir, ToFront(ms, i)), ForwardTable(dir, ToFront(ms, j)))
  {
    ForwardIndependent(vm, dir, ms);
    TableAtFront(dir, ms, i);
    TableAtFront(dir, ms, j);
    IncoherentTable(dir, ms, i, j);
    assert ms[j] in ms;
    SessionAlone(vm, dir, ms[j].suffix);
    TellsApart(vm + ms[j].suffix, dir + ms[j].suffix, vm, dir, ForwardTable(dir, ToFront(ms, i)), ForwardTable(dir, ToFront(ms, j)));
  }

  lemma {:induction false} TellsApart(s: string, y: string, vm: string, dir: string, t: seq<Remap>, u: seq<Remap>)
    requires vm != "" && Usable(t) && Usable(u) && y == ReplaceAll(s, vm, dir) && Passes(y, t) != Passes(y, u)
    ensures !SameInput(vm, dir, t, u)
  {
    assert ToReal(s, vm, dir, t) != ToReal(s, vm, dir, u);
  }

  lemma AlikeInAnyOrder(links: MountPaths.Links, home: string, vm: string, dir: string,
                        mounts: map<string, MountPaths.MountSpec>, order: seq<string>, other: seq<string>)
    requires Lists(order, mounts.Keys) && Lists(other, mounts.Keys)
    requires InputClear(vm, dir, MountsIn(links, home, mounts, order)) && NestedAlike(MountsIn(links, home, mounts, order))
    ensures SameInput(vm, dir, ForwardTable(dir, MountsIn(links, home, mounts, order)),
                      ForwardTable(dir, MountsIn(links, home, mounts, other)))
  {
    var ms, ms' := MountsIn(links, home, mounts, order), MountsIn(links, home, mounts, other);
    var t, u := ForwardTable(dir, ms), ForwardTable(dir, ms');
    ForwardIndependent(vm, dir, ms);
    CoherentIffNestedAlike(dir, ms);
    OrdersReorder(links, home, mounts, order, other);
    TablesReorder(dir, ms, ms');
    IndependentAnyOrder(t, u);
    forall s ensures ToReal(s, vm, dir, t) == ToReal(s, vm, dir, u) {
      OrderIrrelevant(ReplaceAll(s, vm, dir), t, u);
    }
  }

  /** All iterations of the mount map give tables that rewrite every text the same way. */
  ghost predicate OrderFree(links: MountPaths.Links, home: string, vm: string, dir: string,
                            mounts: map<string, MountPaths.MountSpec>)
  {
    forall order, other :: Lists(order, mounts.Keys) && Lists(other, mounts.Keys) ==>
      SameInput(vm, dir, ForwardEntries(dir, MountsIn(links, home, mounts, order)),
                ForwardEntries(dir, MountsIn(links, home, mounts, other)))
  }

  lemma EntriesAreTable(links: MountPaths.Links, home: string, vm: string, dir: string,
                        mounts: map<string, MountPaths.MountSpec>, order: seq<string>, other: seq<string>)
    requires Lists(order, mounts.Keys) && Lists(other, mounts.Keys) && InputClear(vm, dir, MountsIn(links, home, mounts, order))
    ensures InputClear(vm, dir, MountsIn(links, home, mounts, other))
    ensures ForwardEntries(dir, MountsIn(links, home, mounts, other)) == ForwardTable(dir, MountsIn(links, home, mounts, other))
    ensures NestedAlike(MountsIn(links, home, mounts, order)) ==> NestedAlike(MountsIn(links, home, mounts, other))
  {
    OrdersReorder(links, home, mounts, order, other);
    NoneSkipped(vm, dir, MountsIn(links, home, mounts, other));
  }

  lemma NotAlikeNotFree(links: MountPaths.Links, home: string, vm: string, dir: string,
                        mounts: map<string, MountPaths.MountSpec>, order: seq<string>)
    requires Lists(order, mounts.Keys) && InputClear(vm, dir, MountsIn(links, home, mounts, order))
    requires !NestedAlike(MountsIn(links, home, mounts, order))
    ensures !OrderFree(links, home, vm, dir, mounts)
  {
    var ms := MountsIn(links, home, mounts, order);
    var i, j := NotAlikePair(ms);
    NestedElsewhere(vm, dir, ms, i, j);
    FrontEntries(links, home, vm, dir, mounts, order, i);
    FrontEntries(links, home, vm, dir, mounts, order, j);
  }

  lemma NotAlikePair(ms: seq<Mount>) returns (i: nat, j: nat)
    requires !NestedAlike(ms)
    ensures i < |ms| && j < |ms| && ms[i].suffix <= ms[j].suffix
    ensures ms[j].host != ms[i].host + ms[j].suffix[|ms[i].suffix|..]
  {
    var m, n :| m in ms && n in ms && m.suffix <= n.suffix && n.host != m.host + n.suffix[|m.suffix|..];
    i :| 0 <= i < |ms| && ms[i] == m;
    j :| 0 <= j < |ms| && ms[j] == n;
  }

  lemma FrontEntries(links: MountPaths.Links, home: string, vm: string, dir: string,
                     mounts: map<string, MountPaths.MountSpec>, order: seq<string>, i: nat)
    requires Lists(order, mounts.Keys) && InputClear(vm, dir, MountsIn(links, home, mounts, order)) && i < |order|
    ensures Lists(ToFront(order, i), mounts.Keys)
    ensures ForwardEntries(dir, MountsIn(links, home, mounts, ToFront(order, i)))
            == ForwardTable(dir, ToFront(MountsIn(links, home, mounts, order), i))
  {
    MountsAtFront(links, home, mounts, order, i);
    EntriesAreTable(links, home, vm, dir, mounts, order, ToFront(order, i));
  }

  /**
   The order in which the mount map is iterated has no effect on a process's input exactly when every
   nested mount's host path extends the outer one's by the same text.
   */
  lemma InputOrderIff(links: MountPaths.Links, home: string, vm: string, dir: string,
                      mounts: map<string, MountPaths.MountSpec>, order: seq<string>)
    requires Lists(order, mounts.Keys) && InputClear(vm, dir, MountsIn(links, home, mounts, order))
    ensures OrderFree(links, home, vm, dir, mounts) <==> NestedAlike(MountsIn(links, home, mounts, order))
  {
    if NestedAlike(MountsIn(links, home, mounts, order)) {
      forall a, b | Lists(a, mounts.Keys) && Lists(b, mounts.Keys)
        ensures SameInput(vm, dir, ForwardEntries(dir, MountsIn(links, home, mounts, a)),
                          ForwardEntries(dir, MountsIn(links, home, mounts, b)))
      {
        EntriesAreTable(links, home, vm, dir, mounts, order, a);
        EntriesAreTable(links, home, vm, dir, mounts, order, b);
        AlikeInAnyOrder(links, home, vm, dir, mounts, a, b);
      }
    } else {
      NotAlikeNotFree(links, home, vm, dir, mounts, order);
    }
  }

  // ---- The round trip ----

  /** What stdin rewriting makes of virtual text, stdout rewriting restores, for any iteration orders. */
  lemma AnyOrderRoundTrips(s: string, links: MountPaths.Links, home: string, vm: string, dir: string,
                           mounts: map<string, MountPaths.MountSpec>, order: seq<string>, other: seq<string>)
    requires Lists(order, mounts.Keys) && Lists(other, mounts.Keys)
    requires EndsWith(dir, vm) && Separated(vm, dir, MountsIn(links, home, mounts, order))
    requires Virtual(s, dir, MountsIn(links, home, mounts, order))
    ensures var fwd := ForwardEntries(dir, MountsIn(links, home, mounts, order));
            var rev := ReverseEntries(vm, MountsIn(links, home, mounts, other));
            Usable(fwd) && Usable(rev) && ToVirtual(ToReal(s, vm, dir, fwd), vm, dir, rev) == s
  {
    var ms, ms' := MountsIn(links, home, mounts, order), MountsIn(links, home, mounts, other);
    OrdersReorder(links, home, mounts, order, other);
    NoneSkipped(vm, dir, ms);
    NoneSkipped(vm, dir, ms');
    RoundTrip(s, vm, dir, ms, ms');
  }

  /**
   `present_files` maps the paths of an already rewritten line back: a path the process was given
   comes back as the process printed it.
   */
  lemma PresentedPathRestored(s: string, vm: string, dir: string, ms: seq<Mount>, back: seq<Mount>)
    requires Separated(vm, dir, ms) && Reorders(back, ms) && Virtual(s, dir, ms)
    ensures Usable(ForwardTable(dir, ms)) && Usable(ReverseTable(vm, back))
    ensures var printed := ToReal(s, vm, dir, ForwardTable(dir, ms));
            ToReal(ToVirtual(printed, vm, dir, ReverseTable(vm, back)), vm, dir, ForwardTable(dir, ms)) == printed
  {
    RoundTrip(s, vm, dir, ms, back);
  }
}
