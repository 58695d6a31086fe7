/** The session doctor's repair of a queue file, and the checks its diagnosis makes of one. */
module QueueRepair {
  import opened Options
  import opened Strings

  // ---- Well-formed queue lines ----

  /** A block's `content`; `OneText` is an array holding one text part. */
  datatype BlockContent = NoContent | Str(text: string) | OneText(text: string) | OtherValue(raw: string)

  /** An element of a message's content: an object, with what the repair looks at, or anything else. */
  datatype Block = Block(typ: Option<string>, content: BlockContent, rest: string) | NotAnObject(raw: string)

  datatype Content = Absent | Blocks(blocks: seq<Block>) | NotAList(raw: string)

  datatype Message = Message(id: Option<string>, content: Content, rest: string)

  datatype Entry = Entry(message: Option<Message>, sessionId: Option<string>, typ: Option<string>,
                         uuid: string, parentUuid: string, rest: string)

  /** `get(key, "")`. */
  function Text(o: Option<string>): string {
    if o.Some? then o.value else ""
  }

  const DUMMY := "dummy"
  const LAST_PROMPT := "last-prompt"

  function MessageId(e: Entry): string {
    if e.message.Some? then Text(e.message.value.id) else ""
  }

  predicate Synthetic(e: Entry) {
    Contains(MessageId(e), DUMMY)
  }

  function BlocksOf(e: Entry): seq<Block> {
    if e.message.Some? && e.message.value.content.Blocks? then e.message.value.content.blocks else []
  }

  predicate StringResult(b: Block) {
    b.Block? && b.typ == Some("tool_result") && b.content.Str?
  }

  predicate Mismatched(e: Entry, sid: string) {
    Text(e.sessionId) != "" && Text(e.sessionId) != sid
  }

  predicate StalePrompt(e: Entry, sid: string) {
    e.typ == Some(LAST_PROMPT) && Text(e.sessionId) != sid
  }

  // ---- What the repair makes of them ----

  function FixBlock(b: Block): Block {
    if StringResult(b) then b.(content := OneText(b.content.text)) else b
  }

  function FixBlocks(bs: seq<Block>): (fs: seq<Block>)
    ensures |fs| == |bs| && forall j :: 0 <= j < |bs| ==> fs[j] == FixBlock(bs[j])
  {
    seq(|bs|, j requires 0 <= j < |bs| => FixBlock(bs[j]))
  }

  function WithBlocks(e: Entry, bs: seq<Block>): Entry {
    if e.message.Some? && e.message.value.content.Blocks? then
      e.(message := Some(e.message.value.(content := Blocks(bs))))
    else e
  }

  function FixContent(e: Entry): Entry {
    WithBlocks(e, FixBlocks(BlocksOf(e)))
  }

  function FixSession(e: Entry, sid: string): Entry {
    if Mismatched(e, sid) then e.(sessionId := Some(sid)) else e
  }

  function FixPrompt(e: Entry, sid: string): Entry {
    if StalePrompt(e, sid) then e.(sessionId := Some(sid)) else e
  }

  function Kept(es: seq<Entry>): seq<Entry> {
    if es == [] then []
    else
      var e := es[|es| - 1];
      Kept(es[..|es| - 1]) + (if Synthetic(e) then [] else [e])
  }

  function FixOne(e: Entry, sid: string): Entry {
    FixPrompt(FixSession(FixContent(e), sid), sid)
  }

  function FixEach(es: seq<Entry>, sid: string): (fs: seq<Entry>)
    ensures |fs| == |es| && forall i :: 0 <= i < |es| ==> fs[i] == FixOne(es[i], sid)
  {
    seq(|es|, i requires 0 <= i < |es| => FixOne(es[i], sid))
  }

  function Repaired(es: seq<Entry>, sid: string): seq<Entry> {
    FixEach(Kept(es), sid)
  }

  // ---- What it reports ----

  datatype Action =
    | NoQueueFile
    | RemovedEntry(line: nat, id: string)
    | FixedContent(line: nat)
    | FixedSession(line: nat, was: string)
    | FixedPrompt(was: string)
    | Written(count: nat)
    | NoRepairs

  function Removals(es: seq<Entry>): seq<Action> {
    if es == [] then []
    else
      var i := |es| - 1;
      Removals(es[..i]) + (if Synthetic(es[i]) then [RemovedEntry(i, MessageId(es[i]))] else [])
  }

  /** The line, once for each of the blocks that is a string result. */
  function StringLines(bs: seq<Block>, line: nat): seq<nat> {
    if bs == [] then []
    else StringLines(bs[..|bs| - 1], line) + (if StringResult(bs[|bs| - 1]) then [line] else [])
  }

  /** The lines diagnosis warns of, once for each string result. */
  function StringResultLines(es: seq<Entry>): seq<nat> {
    if es == [] then [] else StringResultLines(es[..|es| - 1]) + StringLines(BlocksOf(es[|es| - 1]), |es| - 1)
  }

  datatype Mismatch = Mismatch(line: nat, sessionId: string)

  function Mismatches(es: seq<Entry>, sid: string): seq<Mismatch> {
    if es == [] then []
    else
      var i := |es| - 1;
      Mismatches(es[..i], sid) + (if Mismatched(es[i], sid) then [Mismatch(i, Text(es[i].sessionId))] else [])
  }

  /** The stale session ids of last-prompt entries, once mismatches are fixed. */
  function StalePrompts(es: seq<Entry>, sid: string): seq<Action> {
    if es == [] then []
    else
      var e := FixSession(es[|es| - 1], sid);
      StalePrompts(es[..|es| - 1], sid) + (if StalePrompt(e, sid) then [FixedPrompt(Text(e.sessionId))] else [])
  }

  function ContentFixes(lines: seq<nat>): (as_: seq<Action>)
    ensures |as_| == |lines|
  {
    if lines == [] then [] else ContentFixes(lines[..|lines| - 1]) + [FixedContent(lines[|lines| - 1])]
  }

  function SessionFixes(ms: seq<Mismatch>): (as_: seq<Action>)
    ensures |as_| == |ms|
  {
    if ms == [] then []
    else SessionFixes(ms[..|ms| - 1]) + [FixedSession(ms[|ms| - 1].line, ms[|ms| - 1].sessionId)]
  }

  /** The fixes reported for a queue, in order. */
  function Fixes(es: seq<Entry>, sid: string): seq<Action> {
    var kept := Kept(es);
    Removals(es) + ContentFixes(StringResultLines(kept)) + SessionFixes(Mismatches(kept, sid)) + StalePrompts(kept, sid)
  }

  function Report(file: Option<seq<Entry>>, sid: string, dryRun: bool): seq<Action> {
    if file.None? then [NoQueueFile]
    else
      var fixes := Fixes(file.value, sid);
      if fixes == [] then [NoRepairs]
      else if dryRun then fixes
      else fixes + [Written(|Repaired(file.value, sid)|)]
  }

  function FileAfter(file: Option<seq<Entry>>, sid: string, dryRun: bool): Option<seq<Entry>> {
    if file.None? || dryRun || Fixes(file.value, sid) == [] then file else Some(Repaired(file.value, sid))
  }

  // ---- The repair ----

  lemma ContentFixesSnoc(lines: seq<nat>, line: nat)
    ensures ContentFixes(lines + [line]) == ContentFixes(lines) + [FixedContent(line)]
  {
    assert (lines + [line])[..|lines|] == lines;
  }

  class QueueFile {
    var file: Option<seq<Entry>>

    constructor (file: Option<seq<Entry>>)
      ensures this.file == file
    {
      this.file := file;
    }

    method RepairQueue(sid: string, dryRun: bool) returns (actions: seq<Action>)
      modifies this
      ensures actions == Report(old(file), sid, dryRun)
      ensures file == FileAfter(old(file), sid, dryRun)
    {
      if file.None? { return [NoQueueFile]; }
      var es := file.value;
      var kept, removals := RemoveSynthetic(es);
      var queue, contents := FixContents(kept);
      var sessions, prompts;
      queue, sessions := FixSessions(kept, queue, sid);
      queue, prompts := FixPrompts(kept, queue, sid);
      assert queue == Repaired(es, sid);
      actions := removals + contents + sessions + prompts;
      if actions != [] && !dryRun {
        file := Some(queue);
        actions := actions + [Written(|queue|)];
      }
      if actions == [] {
        actions := [NoRepairs];
      }
    }
  }

  /** Fix 1. */
  method RemoveSynthetic(es: seq<Entry>) returns (kept: seq<Entry>, actions: seq<Action>)
    ensures kept == Kept(es) && actions == Removals(es)
  {
    kept, actions := [], [];
    for i := 0 to |es|
      invariant kept == Kept(es[..i]) && actions == Removals(es[..i])
    {
      assert es[..i + 1][..i] == es[..i];
      var msgId := MessageId(es[i]);
      if Contains(msgId, DUMMY) {
        actions := actions + [RemovedEntry(i, msgId)];
      } else {
        kept := kept + [es[i]];
      }
    }
    assert es[..|es|] == es;
  }

  lemma {:induction false} ContentFixesConcat(a: seq<nat>, b: seq<nat>)
    ensures ContentFixes(a + b) == ContentFixes(a) + ContentFixes(b)
    decreases |b|
  {
    if b == [] {
      assert a + b == a;
    } else {
      var init, last := b[..|b| - 1], b[|b| - 1];
      ContentFixesConcat(a, init);
      ContentFixesSnoc(a + init, last);
      ContentFixesSnoc(init, last);
      assert a + b == (a + init) + [last] && b == init + [last];
    }
  }

  /** Fix 2. */
  method FixContents(kept: seq<Entry>) returns (queue: seq<Entry>, actions: seq<Action>)
    ensures |queue| == |kept| && forall k :: 0 <= k < |kept| ==> queue[k] == FixContent(kept[k])
    ensures actions == ContentFixes(StringResultLines(kept))
  {
    queue, actions := kept, [];
    for i := 0 to |kept|
      invariant |queue| == |kept| && actions == ContentFixes(StringResultLines(kept[..i]))
      invariant forall k :: 0 <= k < |kept| ==> queue[k] == if k < i then FixContent(kept[k]) else kept[k]
    {
      assert kept[..i + 1][..i] == kept[..i];
      var blocks, fixes := FixBlocksOf(BlocksOf(queue[i]), i);
      ContentFixesConcat(StringResultLines(kept[..i]), StringLines(BlocksOf(kept[i]), i));
      queue := queue[i := WithBlocks(queue[i], blocks)];
      actions := actions + fixes;
    }
    assert kept[..|kept|] == kept;
  }

  /** The inner loop of Fix 2, over the blocks of one line. */
  method FixBlocksOf(bs: seq<Block>, line: nat) returns (blocks: seq<Block>, actions: seq<Action>)
    ensures blocks == FixBlocks(bs) && actions == ContentFixes(StringLines(bs, line))
  {
    blocks, actions := bs, [];
    for j := 0 to |bs|
      invariant |blocks| == |bs| && actions == ContentFixes(StringLines(bs[..j], line))
      invariant forall m :: 0 <= m < |bs| ==> blocks[m] == if m < j then FixBlock(bs[m]) else bs[m]
    {
      var block := blocks[j];
      ghost var before := StringLines(bs[..j], line);
      assert bs[..j + 1][..j] == bs[..j] && before + [] == before;
      assert block == bs[j];
      if block.Block? && block.typ == Some("tool_result") {
        if block.content.Str? {
          blocks := blocks[j := block.(content := OneText(block.content.text))];
          ContentFixesSnoc(before, line);
          actions := actions + [FixedContent(line)];
        }
      }
    }
    assert bs[..|bs|] == bs;
  }

  lemma MismatchesSnoc(es: seq<Entry>, i: nat, sid: string)
    requires i < |es|
    ensures Mismatches(es[..i + 1], sid)
            == if Mismatched(es[i], sid) then Mismatches(es[..i], sid) + [Mismatch(i, Text(es[i].sessionId))]
               else Mismatches(es[..i], sid)
  {
    assert es[..i + 1][..i] == es[..i];
  }

  lemma SessionFixesSnoc(ms: seq<Mismatch>, m: Mismatch)
    ensures SessionFixes(ms + [m]) == SessionFixes(ms) + [FixedSession(m.line, m.sessionId)]
  {
    assert (ms + [m])[..|ms|] == ms;
  }

  /** The first `n` entries have been through the fix. */
  predicate FixedUpTo(fix: Entry -> Entry, queue: seq<Entry>, fixed: seq<Entry>, n: nat) {
    |fixed| == |queue| && forall k :: 0 <= k < |queue| ==> fixed[k] == if k < n then fix(queue[k]) else queue[k]
  }

  lemma OneMoreFixed(fix: Entry -> Entry, queue: seq<Entry>, fixed: seq<Entry>, i: nat)
    requires i < |queue| && FixedUpTo(fix, queue, fixed, i)
    ensures fixed[i] == queue[i] && FixedUpTo(fix, queue, fixed[i := fix(queue[i])], i + 1)
    ensures fix(queue[i]) == queue[i] ==> FixedUpTo(fix, queue, fixed, i + 1)
  {
  }

  /** Fix 3. */
  method FixSessions(kept: seq<Entry>, queue: seq<Entry>, sid: string) returns (fixed: seq<Entry>, actions: seq<Action>)
    requires |queue| == |kept| && forall k :: 0 <= k < |kept| ==> queue[k] == FixContent(kept[k])
    ensures |fixed| == |kept| && forall k :: 0 <= k < |kept| ==> fixed[k] == FixSession(FixContent(kept[k]), sid)
    ensures actions == SessionFixes(Mismatches(kept, sid))
  {
    fixed, actions := queue, [];
    ghost var fix := (e: Entry) => FixSession(e, sid);
    for i := 0 to |kept|
      invariant FixedUpTo(fix, queue, fixed, i) && actions == SessionFixes(Mismatches(kept[..i], sid))
    {
      MismatchesSnoc(kept, i, sid);
      SessionFixesSnoc(Mismatches(kept[..i], sid), Mismatch(i, Text(kept[i].sessionId)));
      OneMoreFixed(fix, queue, fixed, i);
      var e := fixed[i];
      assert e == FixContent(kept[i]) && e.sessionId == kept[i].sessionId;
      var s := Text(e.sessionId);
      if s != "" && s != sid {
        fixed := fixed[i := e.(sessionId := Some(sid))];
        actions := actions + [FixedSession(i, s)];
      }
    }
    assert kept[..|kept|] == kept;
  }

  lemma ContentKeepsHeader(e: Entry, sid: string)
    ensures FixSession(FixContent(e), sid).typ == FixSession(e, sid).typ
    ensures FixSession(FixContent(e), sid).sessionId == FixSession(e, sid).sessionId
  {
  }

  lemma StalePromptsSnoc(es: seq<Entry>, i: nat, sid: string)
    requires i < |es|
    ensures var e := FixSession(es[i], sid);
            StalePrompts(es[..i + 1], sid)
            == if StalePrompt(e, sid) then StalePrompts(es[..i], sid) + [FixedPrompt(Text(e.sessionId))]
               else StalePrompts(es[..i], sid)
  {
    assert es[..i + 1][..i] == es[..i];
  }

  /** Fix 4. */
  method FixPrompts(kept: seq<Entry>, queue: seq<Entry>, sid: string) returns (fixed: seq<Entry>, actions: seq<Action>)
    requires |queue| == |kept| && forall k :: 0 <= k < |kept| ==> queue[k] == FixSession(FixContent(kept[k]), sid)
    ensures fixed == FixEach(kept, sid) && actions == StalePrompts(kept, sid)
  {
    fixed, actions := queue, [];
    ghost var fix := (e: Entry) => FixPrompt(e, sid);
    for i := 0 to |kept|
      invariant FixedUpTo(fix, queue, fixed, i) && actions == StalePrompts(kept[..i], sid)
    {
      StalePromptsSnoc(kept, i, sid);
      OneMoreFixed(fix, queue, fixed, i);
      var e := fixed[i];
      assert e == FixSession(FixContent(kept[i]), sid);
      ContentKeepsHeader(kept[i], sid);
      if e.typ == Some(LAST_PROMPT) {
        var s := Text(e.sessionId);
        if s != sid {
          fixed := fixed[i := e.(sessionId := Some(sid))];
          actions := actions + [FixedPrompt(s)];
        }
      }
    }
    assert kept[..|kept|] == kept;
  }
}
