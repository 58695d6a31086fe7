/** What the queue repair promises: it is complete for its checks, stable, and changes nothing else. */
module QueueTheorems {
  import opened Options
  import opened QueueRepair
  import opened Strings

  // ---- The diagnosis of a queue ----

  function Uuids(es: seq<Entry>): set<string> {
    set i | 0 <= i < |es| && es[i].uuid != "" :: es[i].uuid
  }

  /** The entry names a parent that is neither before it nor itself. */
  predicate Broken(es: seq<Entry>, i: nat)
    requires i < |es|
  {
    i > 0 && es[i].parentUuid != "" && es[i].parentUuid !in Uuids(es[..i + 1])
  }

  function BrokenLines(es: seq<Entry>): seq<nat> {
    if es == [] then []
    else BrokenLines(es[..|es| - 1]) + (if Broken(es, |es| - 1) then [|es| - 1] else [])
  }

  datatype Diagnosis = Diagnosis(broken: seq<nat>, stringResults: seq<nat>, mismatches: seq<Mismatch>)

  function DiagnosisOf(es: seq<Entry>, sid: string): Diagnosis {
    Diagnosis(BrokenLines(es), StringResultLines(es), Mismatches(es, sid))
  }

  lemma BrokenPrefix(es: seq<Entry>, i: nat)
    requires i < |es|
    ensures Broken(es[..i + 1], i) == Broken(es, i)
    ensures BrokenLines(es[..i + 1]) == BrokenLines(es[..i]) + (if Broken(es, i) then [i] else [])
  {
    assert es[..i + 1][..i + 1] == es[..i + 1] && es[..i + 1][..i] == es[..i];
  }

  lemma UuidsSnoc(es: seq<Entry>, i: nat)
    requires i < |es|
    ensures Uuids(es[..i + 1]) == Uuids(es[..i]) + (if es[i].uuid != "" then {es[i].uuid} else {})
  {
    var was, now := es[..i], es[..i + 1];
    forall u | u in Uuids(was) ensures u in Uuids(now) {
      var k :| 0 <= k < |was| && was[k].uuid != "" && was[k].uuid == u;
      assert now[k] == was[k];
    }
    forall u | u in Uuids(now) ensures u in Uuids(was) || u == es[i].uuid {
      var k :| 0 <= k < |now| && now[k].uuid != "" && now[k].uuid == u;
      if k < i { assert was[k] == now[k]; }
    }
    if es[i].uuid != "" { assert now[i].uuid in Uuids(now); }
  }

  method CheckChain(es: seq<Entry>) returns (broken: seq<nat>)
    ensures broken == BrokenLines(es)
  {
    broken := [];
    var uuidsSeen := {};
    for i := 0 to |es|
      invariant uuidsSeen == Uuids(es[..i]) && broken == BrokenLines(es[..i])
    {
      var uuid, parent := es[i].uuid, es[i].parentUuid;
      UuidsSnoc(es, i);
      BrokenPrefix(es, i);
      if uuid != "" {
        uuidsSeen := uuidsSeen + {uuid};
      }
      if parent != "" && parent !in uuidsSeen && i > 0 {
        broken := broken + [i];
      }
    }
    assert es[..|es|] == es;
  }

  method CheckContent(es: seq<Entry>) returns (lines: seq<nat>)
    ensures lines == StringResultLines(es)
  {
    lines := [];
    for i := 0 to |es|
      invariant lines == StringResultLines(es[..i])
    {
      assert es[..i + 1][..i] == es[..i];
      var content := BlocksOf(es[i]);
      ghost var start := lines;
      for j := 0 to |content|
        invariant lines == start + StringLines(content[..j], i)
      {
        ghost var before := StringLines(content[..j], i);
        assert content[..j + 1][..j] == content[..j] && before + [] == before;
        assert start + (before + [i]) == (start + before) + [i];
        if StringResult(content[j]) {
          lines := lines + [i];
        }
      }
      assert content[..|content|] == content;
    }
    assert es[..|es|] == es;
  }

  method CheckSessions(es: seq<Entry>, sid: string) returns (mismatches: seq<Mismatch>)
    ensures mismatches == Mismatches(es, sid)
  {
    mismatches := [];
    for i := 0 to |es|
      invariant mismatches == Mismatches(es[..i], sid)
    {
      assert es[..i + 1][..i] == es[..i] && mismatches + [] == mismatches;
      var s := Text(es[i].sessionId);
      if s != "" && s != sid {
        mismatches := mismatches + [Mismatch(i, s)];
      }
    }
    assert es[..|es|] == es;
  }

  /** The parent, content and session checks of `diagnose` on a queue. */
  method DiagnoseQueue(es: seq<Entry>, sid: string) returns (d: Diagnosis)
    ensures d == DiagnosisOf(es, sid)
  {
    var broken := CheckChain(es);
    var stringResults := CheckContent(es);
    var mismatches := CheckSessions(es, sid);
    d := Diagnosis(broken, stringResults, mismatches);
  }

  // ---- Nothing left to repair ----

  /** The repair finds nothing in the entry. */
  predicate Sound(e: Entry, sid: string) {
    !Synthetic(e) && (forall b :: b in BlocksOf(e) ==> !StringResult(b)) && !Mismatched(e, sid) && !StalePrompt(e, sid)
  }

  predicate AllSound(es: seq<Entry>, sid: string) {
    forall e :: e in es ==> Sound(e, sid)
  }

  lemma FixedIsSound(e: Entry, sid: string)
    requires !Synthetic(e)
    ensures Sound(FixOne(e, sid), sid)
  {
    assert BlocksOf(FixOne(e, sid)) == FixBlocks(BlocksOf(e));
    assert MessageId(FixOne(e, sid)) == MessageId(e);
  }

  lemma SoundIsFixed(e: Entry, sid: string)
    ensures FixOne(e, sid) == e <==> (forall b :: b in BlocksOf(e) ==> !StringResult(b)) && !Mismatched(e, sid) && !StalePrompt(e, sid)
  {
    var bs := BlocksOf(e);
    if forall b :: b in bs ==> !StringResult(b) {
      assert FixBlocks(bs) == bs;
    } else {
      var j :| 0 <= j < |bs| && StringResult(bs[j]);
      assert BlocksOf(FixOne(e, sid)) == FixBlocks(bs);
      assert FixBlocks(bs)[j] != bs[j];
    }
  }

  lemma KeptSnoc(init: seq<Entry>, last: Entry)
    ensures Kept(init + [last]) == if Synthetic(last) then Kept(init) else Kept(init) + [last]
    ensures Removals(init + [last]) == if Synthetic(last) then Removals(init) + [RemovedEntry(|init|, MessageId(last))] else Removals(init)
  {
    assert (init + [last])[..|init|] == init;
  }

  lemma {:induction false} KeptMembers(es: seq<Entry>)
    ensures forall e :: e in Kept(es) <==> e in es && !Synthetic(e)
  {
    if es != [] {
      var init, last := es[..|es| - 1], es[|es| - 1];
      assert es == init + [last];
      KeptMembers(init);
      KeptSnoc(init, last);
    }
  }

  lemma {:induction false} KeptLength(es: seq<Entry>)
    ensures |Kept(es)| + |Removals(es)| == |es|
    ensures Removals(es) == [] ==> Kept(es) == es
  {
    if es != [] {
      var init, last := es[..|es| - 1], es[|es| - 1];
      assert es == init + [last];
      KeptLength(init);
      KeptSnoc(init, last);
    }
  }

  lemma {:induction false} KeptAreReal(es: seq<Entry>)
    ensures |Kept(es)| <= |es| && forall e :: e in Kept(es) <==> e in es && !Synthetic(e)
    ensures (Kept(es) == es || |Kept(es)| < |es|) && (Kept(es) == es <==> Removals(es) == [])
  {
    KeptMembers(es);
    KeptLength(es);
  }

  lemma {:induction false} NoLines(bs: seq<Block>, line: nat)
    ensures StringLines(bs, line) == [] <==> forall b :: b in bs ==> !StringResult(b)
  {
    if bs != [] {
      NoLines(bs[..|bs| - 1], line);
      assert bs == bs[..|bs| - 1] + [bs[|bs| - 1]];
    }
  }

  /** The fixes found for entries that are kept are none exactly when all of them are sound. */
  lemma {:induction false} NoFixes(es: seq<Entry>, sid: string)
    requires forall e :: e in es ==> !Synthetic(e)
    ensures StringResultLines(es) == [] && Mismatches(es, sid) == [] && StalePrompts(es, sid) == [] <==> AllSound(es, sid)
  {
    if es != [] {
      var init, last := es[..|es| - 1], es[|es| - 1];
      assert es == init + [last];
      NoFixes(init, sid);
      NoLines(BlocksOf(last), |es| - 1);
      AllSoundSnoc(es, init, last, sid);
      assert !Mismatched(last, sid) ==> FixSession(last, sid) == last;
    }
  }

  lemma AllSoundSnoc(es: seq<Entry>, init: seq<Entry>, last: Entry, sid: string)
    requires es == init + [last]
    ensures AllSound(es, sid) <==> AllSound(init, sid) && Sound(last, sid)
  {
  }

  lemma RepairedIsSound(es: seq<Entry>, sid: string)
    ensures AllSound(Repaired(es, sid), sid)
  {
    var kept := Kept(es);
    KeptAreReal(es);
    forall e | e in Repaired(es, sid) ensures Sound(e, sid) {
      var i :| 0 <= i < |kept| && Repaired(es, sid)[i] == e;
      assert kept[i] in kept;
      FixedIsSound(kept[i], sid);
    }
  }

  lemma SoundNeedsNothing(es: seq<Entry>, sid: string)
    requires AllSound(es, sid)
    ensures Fixes(es, sid) == []
  {
    KeptAreReal(es);
    assert forall e :: e in es ==> Sound(e, sid);
    AllKept(es);
    NoFixes(es, sid);
  }

  lemma {:induction false} AllKept(es: seq<Entry>)
    requires forall e :: e in es ==> !Synthetic(e)
    ensures Kept(es) == es
  {
    if es != [] {
      AllKept(es[..|es| - 1]);
      assert es == es[..|es| - 1] + [es[|es| - 1]];
    }
  }

  /** A repair reports nothing exactly when it would change nothing. */
  lemma NoRepairsIff(es: seq<Entry>, sid: string)
    ensures Fixes(es, sid) == [] <==> Repaired(es, sid) == es
  {
    KeptAreReal(es);
    if Fixes(es, sid) == [] {
      NoFixes(es, sid);
      forall i | 0 <= i < |es| ensures Repaired(es, sid)[i] == es[i] {
        assert es[i] in es && Sound(es[i], sid);
        SoundIsFixed(es[i], sid);
      }
    }
    if Repaired(es, sid) == es {
      RepairedIsSound(es, sid);
      SoundNeedsNothing(es, sid);
    }
  }

  /** After a repair that was written, a second one reports that nothing is needed and leaves the file alone. */
  lemma RepairIsIdempotent(file: Option<seq<Entry>>, sid: string, dryRun: bool)
    requires file.Some?
    ensures var after := FileAfter(file, sid, false);
            Report(after, sid, dryRun) == [NoRepairs] && FileAfter(after, sid, dryRun) == after
  {
    RepairedIsSound(file.value, sid);
    SoundNeedsNothing(Repaired(file.value, sid), sid);
  }

  lemma RepairedIsReal(es: seq<Entry>, sid: string)
    ensures forall e :: e in Repaired(es, sid) ==> !Synthetic(e)
    ensures Fixes(es, sid) == [] ==> forall e :: e in es ==> !Synthetic(e)
  {
    RepairedIsSound(es, sid);
    KeptAreReal(es);
  }

  /** The file then holds no entry of a dummy message, and diagnosis finds no string results and no session mismatches. */
  lemma RepairedIsClean(file: Option<seq<Entry>>, sid: string)
    requires file.Some?
    ensures var d := DiagnosisOf(FileAfter(file, sid, false).value, sid);
            d.stringResults == [] && d.mismatches == []
    ensures forall e :: e in FileAfter(file, sid, false).value ==> !Contains(MessageId(e), "dummy")
  {
    var es := file.value;
    KeptAreReal(es);
    RepairedIsReal(es, sid);
    if Fixes(es, sid) != [] {
      RepairedIsSound(es, sid);
      NoFixes(Repaired(es, sid), sid);
    }
  }

  /** On a queue without synthetic entries a dry run lists exactly what diagnosis finds, and the last-prompts without a session. */
  lemma {:induction false} DryRunListsTheDiagnosis(es: seq<Entry>, sid: string)
    requires forall e :: e in es ==> !Synthetic(e)
    ensures var d := DiagnosisOf(es, sid);
            Fixes(es, sid) == ContentFixes(d.stringResults) + SessionFixes(d.mismatches) + StalePrompts(es, sid)
    ensures FileAfter(Some(es), sid, true) == Some(es)
  {
    AllKept(es);
    KeptAreReal(es);
    assert [] + ContentFixes(StringResultLines(es)) == ContentFixes(StringResultLines(es));
  }

  /** Once mismatches are fixed, a last-prompt is only ever given a session id it lacked. */
  lemma {:induction false} PromptFixesFillIn(es: seq<Entry>, sid: string)
    ensures forall a :: a in StalePrompts(es, sid) ==> a == FixedPrompt("")
  {
    if es != [] { PromptFixesFillIn(es[..|es| - 1], sid); }
  }

  /** A real run lists the same fixes as a dry run, and then the write. */
  lemma RealRunListsTheSame(file: Option<seq<Entry>>, sid: string)
    ensures var dry, wet := Report(file, sid, true), Report(file, sid, false);
            wet == dry || (file.Some? && wet == dry + [Written(|Repaired(file.value, sid)|)])
    ensures FileAfter(file, sid, true) == file
  {
  }

  // ---- What survives ----

  /** The two entries differ at most in their session id and in string results made arrays of the same text. */
  predicate OnlyFixed(e: Entry, f: Entry, sid: string) {
    && f.sessionId == (if Text(e.sessionId) !in {"", sid} || (e.typ == Some("last-prompt") && Text(e.sessionId) != sid)
                       then Some(sid) else e.sessionId)
    && f.typ == e.typ && f.uuid == e.uuid && f.parentUuid == e.parentUuid && f.rest == e.rest
    && (e.message.Some? <==> f.message.Some?)
    && (e.message.Some? ==>
          var m, n := e.message.value, f.message.value;
          && n.id == m.id && n.rest == m.rest && (m.content.Blocks? <==> n.content.Blocks?)
          && (if m.content.Blocks? then
                |n.content.blocks| == |m.content.blocks|
                && forall j :: 0 <= j < |m.content.blocks| ==> OnlyFixedBlock(m.content.blocks[j], n.content.blocks[j])
              else n.content == m.content))
  }

  predicate OnlyFixedBlock(b: Block, c: Block) {
    if b.Block? && b.typ == Some("tool_result") && b.content.Str? then c == b.(content := OneText(b.content.text)) else c == b
  }

  lemma {:induction false} KeptGrows(es: seq<Entry>, p: nat)
    requires p <= |es|
    ensures Kept(es[..p]) <= Kept(es)
    decreases |es|
  {
    if p < |es| {
      KeptGrows(es[..|es| - 1], p);
      assert es[..|es| - 1][..p] == es[..p];
    } else {
      assert es[..p] == es;
    }
  }

  /** Where a surviving entry stands in the repaired queue: behind the survivors before it. */
  function PlaceOf(es: seq<Entry>, p: nat): nat
    requires p < |es|
  {
    |Kept(es[..p])|
  }

  lemma KeptStep(es: seq<Entry>, p: nat)
    requires p < |es|
    ensures Kept(es[..p + 1]) == Kept(es[..p]) + (if Synthetic(es[p]) then [] else [es[p]])
  {
    assert es[..p + 1][..p] == es[..p];
  }

  lemma {:induction false} SurvivorPlace(es: seq<Entry>, p: nat)
    requires p < |es| && !Synthetic(es[p])
    ensures PlaceOf(es, p) < |Kept(es)| && Kept(es)[PlaceOf(es, p)] == es[p]
    ensures Kept(es)[..PlaceOf(es, p) + 1] == Kept(es[..p + 1])
  {
    KeptStep(es, p);
    KeptGrows(es, p + 1);
  }

  lemma PlacesAscend(es: seq<Entry>, p: nat, q: nat)
    requires p < q < |es| && !Synthetic(es[p])
    ensures PlaceOf(es, p) < PlaceOf(es, q)
  {
    KeptStep(es, p);
    KeptGrows(es[..q], p + 1);
    assert es[..q][..p + 1] == es[..p + 1];
  }

  lemma FixingOnlyFixes(e: Entry, sid: string)
    ensures OnlyFixed(e, FixOne(e, sid), sid)
  {
  }

  /** Every entry that is not synthetic survives, in order, with nothing but the fixes made to it. */
  lemma SurvivorsInOrder(es: seq<Entry>, sid: string, p: nat, q: nat)
    requires p < |es| && !Contains(MessageId(es[p]), "dummy") && q < |es| && !Contains(MessageId(es[q]), "dummy")
    ensures PlaceOf(es, p) < |Repaired(es, sid)| && OnlyFixed(es[p], Repaired(es, sid)[PlaceOf(es, p)], sid)
    ensures p < q ==> PlaceOf(es, p) < PlaceOf(es, q)
  {
    SurvivorPlace(es, p);
    FixingOnlyFixes(es[p], sid);
    if p < q { PlacesAscend(es, p, q); }
  }

  // ---- The parent chain ----

  predicate ChainSound(es: seq<Entry>) {
    forall i :: 0 <= i < |es| ==> !Broken(es, i)
  }

  lemma ChainSoundSnoc(es: seq<Entry>, last: nat)
    requires last + 1 == |es|
    ensures ChainSound(es) <==> ChainSound(es[..last]) && !Broken(es, last)
  {
    forall i | 0 <= i < last ensures Broken(es[..last], i) == Broken(es, i) {
      assert es[..last][..i + 1] == es[..i + 1];
    }
  }

  lemma {:induction false} NoBrokenLines(es: seq<Entry>)
    ensures BrokenLines(es) == [] <==> ChainSound(es)
  {
    if es != [] {
      var last := |es| - 1;
      NoBrokenLines(es[..last]);
      ChainSoundSnoc(es, last);
    }
  }

  lemma UuidsAre(es: seq<Entry>, u: string)
    ensures u in Uuids(es) <==> u != "" && exists i :: 0 <= i < |es| && es[i].uuid == u
  {
    if u != "" && exists i :: 0 <= i < |es| && es[i].uuid == u {
      var i :| 0 <= i < |es| && es[i].uuid == u;
      assert es[i].uuid in Uuids(es);
    }
  }

  lemma SameUuids(es: seq<Entry>, fs: seq<Entry>)
    requires |es| == |fs| && forall i :: 0 <= i < |es| ==> es[i].uuid == fs[i].uuid
    ensures Uuids(es) == Uuids(fs)
  {
    forall u ensures u in Uuids(es) <==> u in Uuids(fs) {
      UuidsAre(es, u);
      UuidsAre(fs, u);
    }
  }

  lemma FixingKeepsChain(es: seq<Entry>, sid: string)
    ensures ChainSound(FixEach(es, sid)) <==> ChainSound(es)
  {
    var fs := FixEach(es, sid);
    forall i | 0 <= i < |es| ensures Broken(fs, i) == Broken(es, i) {
      assert fs[i].parentUuid == es[i].parentUuid;
      SameUuids(fs[..i + 1], es[..i + 1]);
    }
  }

  lemma {:induction false} OriginOf(es: seq<Entry>, i: nat) returns (p: nat)
    requires i < |Kept(es)|
    ensures p < |es| && !Synthetic(es[p]) && PlaceOf(es, p) == i
    ensures Kept(es)[i] == es[p] && Kept(es)[..i + 1] == Kept(es[..p + 1])
    decreases |es|
  {
    var last := |es| - 1;
    var init := es[..last];
    if i < |Kept(init)| {
      p := OriginOf(init, i);
      assert init[..p] == es[..p] && init[..p + 1] == es[..p + 1];
      TakeOfConcat(Kept(init), if Synthetic(es[last]) then [] else [es[last]], i);
    } else {
      p := last;
      assert es[..last + 1] == es && Kept(es)[..i + 1] == Kept(es);
    }
  }

  lemma TakeOfConcat(a: seq<Entry>, b: seq<Entry>, i: nat)
    requires i < |a|
    ensures (a + b)[..i + 1] == a[..i + 1] && (a + b)[i] == a[i]
  {
  }

  /** The survivor `p`, which is not the first, names the removed entry `q` as its parent. */
  predicate Orphaned(es: seq<Entry>, p: nat, q: nat)
    requires p < |es| && q < |es|
  {
    && !Synthetic(es[p]) && Synthetic(es[q]) && PlaceOf(es, p) > 0
    && es[p].parentUuid != "" && es[q].uuid == es[p].parentUuid
  }

  predicate DistinctUuids(es: seq<Entry>) {
    forall i, j :: 0 <= i < j < |es| && es[i].uuid != "" ==> es[i].uuid != es[j].uuid
  }

  /** The entry survives and bears the uuid. */
  predicate Bears(es: seq<Entry>, k: nat, u: string) {
    k < |es| && !Synthetic(es[k]) && es[k].uuid == u
  }

  lemma SurvivorBears(head: seq<Entry>, u: string) returns (k: nat)
    requires u in Uuids(Kept(head))
    ensures Bears(head, k, u)
  {
    UuidsAre(Kept(head), u);
    var i :| 0 <= i < |Kept(head)| && Kept(head)[i].uuid == u;
    KeptMembers(head);
    assert Kept(head)[i] in Kept(head);
    k :| 0 <= k < |head| && head[k] == Kept(head)[i];
  }

  lemma BearerSurvives(head: seq<Entry>, k: nat, u: string)
    requires Bears(head, k, u) && u != ""
    ensures u in Uuids(Kept(head))
  {
    KeptMembers(head);
    assert head[k] in head;
    var i :| 0 <= i < |Kept(head)| && Kept(head)[i] == head[k];
    UuidsAre(Kept(head), u);
  }

  /** A sound chain gives the entry a parent at or before it. */
  lemma ParentBefore(es: seq<Entry>, p: nat) returns (i: nat)
    requires p < |es| && p > 0 && ChainSound(es) && es[p].parentUuid != ""
    ensures i <= p && es[i].uuid == es[p].parentUuid
  {
    assert !Broken(es, p);
    UuidsAre(es[..p + 1], es[p].parentUuid);
    i :| 0 <= i < |es[..p + 1]| && es[..p + 1][i].uuid == es[p].parentUuid;
  }

  lemma SameBearer(es: seq<Entry>, i: nat, k: nat)
    requires DistinctUuids(es) && i < |es| && k < |es| && es[i].uuid == es[k].uuid != ""
    ensures i == k
  {
  }

  /** With distinct uuids a removed entry's uuid is no survivor's. */
  lemma RemovedIsGone(es: seq<Entry>, p: nat, i: nat)
    requires DistinctUuids(es) && p < |es| && i < |es| && Synthetic(es[i]) && es[i].uuid != ""
    ensures es[i].uuid !in Uuids(Kept(es[..p + 1]))
  {
    if es[i].uuid in Uuids(Kept(es[..p + 1])) {
      var k := SurvivorBears(es[..p + 1], es[i].uuid);
      SameBearer(es, i, k);
    }
  }

  /** The survivor's parent is among the survivors up to it exactly when it was not removed. */
  lemma ParentSurvivesIff(es: seq<Entry>, p: nat, i: nat)
    requires DistinctUuids(es) && i <= p < |es| && es[i].uuid != ""
    ensures es[i].uuid in Uuids(Kept(es[..p + 1])) <==> !Synthetic(es[i])
  {
    if Synthetic(es[i]) {
      RemovedIsGone(es, p, i);
    } else {
      BearerSurvives(es[..p + 1], i, es[i].uuid);
    }
  }

  lemma OrphanedBy(es: seq<Entry>, p: nat, i: nat, q: nat)
    requires DistinctUuids(es) && i <= p < |es| && q < |es| && es[i].uuid == es[p].parentUuid != "" && Orphaned(es, p, q)
    ensures q == i
  {
    SameBearer(es, i, q);
  }

  /** The survivor is broken among the survivors exactly when the entry it names as its parent was removed. */
  lemma {:induction false} KeptBrokenIff(es: seq<Entry>, p: nat)
    requires p < |es| && !Synthetic(es[p]) && PlaceOf(es, p) < |Kept(es)| && ChainSound(es) && DistinctUuids(es)
    requires Kept(es)[PlaceOf(es, p)] == es[p] && Kept(es)[..PlaceOf(es, p) + 1] == Kept(es[..p + 1])
    ensures Broken(Kept(es), PlaceOf(es, p)) <==> exists q :: 0 <= q < |es| && Orphaned(es, p, q)
  {
    if es[p].parentUuid != "" && PlaceOf(es, p) > 0 {
      var i := ParentBefore(es, p);
      ParentSurvivesIff(es, p, i);
      assert Synthetic(es[i]) ==> Orphaned(es, p, i);
      forall q | 0 <= q < |es| && Orphaned(es, p, q) ensures q == i {
        OrphanedBy(es, p, i, q);
      }
    }
  }

  predicate HasOrphan(es: seq<Entry>) {
    exists p, q :: 0 <= p < |es| && 0 <= q < |es| && Orphaned(es, p, q)
  }

  lemma BrokenMeansOrphan(es: seq<Entry>, i: nat)
    requires ChainSound(es) && DistinctUuids(es) && i < |Kept(es)| && Broken(Kept(es), i)
    ensures HasOrphan(es)
  {
    var p := OriginOf(es, i);
    KeptBrokenIff(es, p);
  }

  lemma {:induction false} OrphanMeansBroken(es: seq<Entry>, p: nat, q: nat)
    requires ChainSound(es) && DistinctUuids(es) && p < |es| && q < |es| && Orphaned(es, p, q)
    ensures !ChainSound(Kept(es))
  {
    SurvivorPlace(es, p);
    KeptBrokenIff(es, p);
    assert Broken(Kept(es), PlaceOf(es, p));
  }

  /**
   The repair does not mend the parent chain, and can break it: a queue whose chain diagnosis accepts
   stays acceptable exactly when no survivor but the first names a removed entry as its parent.
   */
  lemma ChainSurvivesIff(es: seq<Entry>, sid: string)
    requires DiagnosisOf(es, sid).broken == [] && DistinctUuids(es)
    ensures DiagnosisOf(Repaired(es, sid), sid).broken == [] <==> !HasOrphan(es)
  {
    NoBrokenLines(es);
    NoBrokenLines(Repaired(es, sid));
    FixingKeepsChain(Kept(es), sid);
    if !ChainSound(Kept(es)) {
      var i :| 0 <= i < |Kept(es)| && Broken(Kept(es), i);
      BrokenMeansOrphan(es, i);
    }
    if HasOrphan(es) {
      var p, q :| 0 <= p < |es| && 0 <= q < |es| && Orphaned(es, p, q);
      OrphanMeansBroken(es, p, q);
    }
  }
}
