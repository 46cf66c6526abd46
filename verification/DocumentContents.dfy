/** What the document a judge reads holds (src/assert.ts), read off the composed document and its fingerprint alone. */
module DocumentContents {
  import opened Decimal
  import opened JudgedDocument
  import opened Options

  // ---------------------------------------------------------------------------------------------
  // What a run has to show, counted in its own record, and where the sections of each sort begin.

  predicate Speaks(t: Turn) { t.isText && t.text != "" }

  /** How many of the first n turns say something. */
  function Spoken(turns: seq<Turn>, n: nat): nat
    requires n <= |turns|
  {
    if n == 0 then 0 else Spoken(turns, n - 1) + if Speaks(turns[n - 1]) then 1 else 0
  }

  predicate IsSpeaker(sa: Subagent) { exists t :: t in sa.turns && Speaks(t) }

  /** How many of the first n sub-agents say something. */
  function Speakers(subagents: seq<Subagent>, n: nat): nat
    requires n <= |subagents|
  {
    if n == 0 then 0 else Speakers(subagents, n - 1) + if IsSpeaker(subagents[n - 1]) then 1 else 0
  }

  /** A top-level Skill call that some result answers. */
  predicate IsAnswered(call: ToolCall, results: seq<ToolResult>) {
    && call.name == "Skill" && call.main && call.parent == None && call.id.Some?
    && exists r :: r in results && r.id == call.id
  }

  function Answers(calls: seq<ToolCall>, results: seq<ToolResult>, n: nat): nat
    requires n <= |calls|
  {
    if n == 0 then 0 else Answers(calls, results, n - 1) + if IsAnswered(calls[n - 1], results) then 1 else 0
  }

  /** How many of the first n captured files are in scope. */
  function FilesInScope(ctx: Context, o: Opts, n: nat): nat
    requires n <= |ctx.authored|
  {
    if n == 0 then 0
    else FilesInScope(ctx, o, n - 1) + if InScope(ctx, o.evidenceFiles, ctx.authored[n - 1].path) then 1 else 0
  }

  function FinalAt(ctx: Context): nat { if ctx.remote then 1 else 0 }

  function TranscriptAt(ctx: Context): nat { FinalAt(ctx) + if ctx.finalMessage != "" then 1 else 0 }

  predicate ShowsSubagents(ctx: Context, o: Opts) { o.subagentText && !ctx.remote }

  predicate ShowsSkills(ctx: Context, o: Opts) { o.forkResults && ctx.toolCalls.Some? && ctx.toolResults.Some? }

  function SkillsAt(ctx: Context, o: Opts): nat {
    TranscriptAt(ctx) + 1 + if ShowsSubagents(ctx, o) then Speakers(ctx.subagents, |ctx.subagents|) else 0
  }

  function FilesAt(ctx: Context, o: Opts): nat {
    SkillsAt(ctx, o)
    + if ShowsSkills(ctx, o) then Answers(ctx.toolCalls.value, ctx.toolResults.value, |ctx.toolCalls.value|) else 0
  }

  function NotesAt(ctx: Context, o: Opts): nat { FilesAt(ctx, o) + FilesInScope(ctx, o, |ctx.authored|) }

  // ---------------------------------------------------------------------------------------------
  // Each list holds its entries in the order of the record.

  lemma Appended<T>(front: seq<T>, more: seq<T>, k: nat)
    requires k < |front| + |more|
    ensures (front + more)[k] == if k < |front| then front[k] else more[k - |front|]
  {
  }

  lemma {:induction false} SpokenCount(turns: seq<Turn>, n: nat)
    requires n <= |turns|
    ensures |SpokenTurns(turns[..n])| == Spoken(turns, n)
  {
    if n > 0 {
      assert turns[..n][..n - 1] == turns[..n - 1];
      SpokenCount(turns, n - 1);
    }
  }

  /** The text of a sub-agent is that of its text turns that say something, in order. */
  lemma {:induction false} SpokenInOrder(turns: seq<Turn>, n: nat, i: nat)
    requires i < n <= |turns| && Speaks(turns[i])
    ensures Spoken(turns, i) < |SpokenTurns(turns[..n])| && SpokenTurns(turns[..n])[Spoken(turns, i)] == turns[i].text
  {
    assert turns[..n][..n - 1] == turns[..n - 1];
    if i == n - 1 { SpokenCount(turns, i); } else { SpokenInOrder(turns, n - 1, i); }
  }

  lemma {:induction false} SpokenSaySomething(turns: seq<Turn>)
    ensures forall k :: 0 <= k < |SpokenTurns(turns)| ==> SpokenTurns(turns)[k] != ""
  {
    if turns != [] { SpokenSaySomething(turns[..|turns| - 1]); }
  }

  lemma {:induction false} SilentHasNoText(turns: seq<Turn>)
    requires forall t :: t in turns ==> !Speaks(t)
    ensures SpokenTurns(turns) == []
  {
    if turns != [] {
      SilentHasNoText(turns[..|turns| - 1]);
      assert turns[|turns| - 1] in turns;
    }
  }

  lemma SpeakerHasText(sa: Subagent)
    ensures IsSpeaker(sa) <==> Join(SpokenTurns(sa.turns)) != ""
  {
    if IsSpeaker(sa) {
      var i :| 0 <= i < |sa.turns| && Speaks(sa.turns[i]);
      SpokenInOrder(sa.turns, |sa.turns|, i);
      assert sa.turns[..|sa.turns|] == sa.turns;
      SpokenSaySomething(sa.turns);
      JoinLength(SpokenTurns(sa.turns));
    } else {
      SilentHasNoText(sa.turns);
    }
  }

  lemma SpeakerHasPart(ctx: Context, i: nat)
    requires i < |ctx.subagents|
    ensures |SubagentPart(ctx, i)| == if IsSpeaker(ctx.subagents[i]) then 1 else 0
  {
    SpeakerHasText(ctx.subagents[i]);
  }

  lemma OneMoreSubagent(ctx: Context, n: nat)
    requires 0 < n <= |ctx.subagents|
    ensures |SubagentParts(ctx, n)| ==
            |SubagentParts(ctx, n - 1)| + if IsSpeaker(ctx.subagents[n - 1]) then 1 else 0
  {
    SpeakerHasPart(ctx, n - 1);
  }

  lemma {:induction false} SubagentCount(ctx: Context, n: nat)
    requires n <= |ctx.subagents|
    ensures |SubagentParts(ctx, n)| == Speakers(ctx.subagents, n)
  {
    if n > 0 {
      SubagentCount(ctx, n - 1);
      OneMoreSubagent(ctx, n);
    }
  }

  lemma SubagentKeeps(ctx: Context, n: nat, k: nat, p: Part)
    requires 0 < n <= |ctx.subagents| && k < |SubagentParts(ctx, n - 1)| && SubagentParts(ctx, n - 1)[k] == p
    ensures k < |SubagentParts(ctx, n)| && SubagentParts(ctx, n)[k] == p
  {
    Appended(SubagentParts(ctx, n - 1), SubagentPart(ctx, n - 1), k);
  }

  predicate IsSubagentPart(ctx: Context, i: nat, p: Part)
    requires i < |ctx.subagents|
  {
    SubagentPart(ctx, i) == [p]
  }

  lemma SubagentAdds(ctx: Context, n: nat) returns (p: Part)
    requires 0 < n <= |ctx.subagents| && IsSpeaker(ctx.subagents[n - 1])
    ensures IsSubagentPart(ctx, n - 1, p)
    ensures var k := Speakers(ctx.subagents, n - 1); k < |SubagentParts(ctx, n)| && SubagentParts(ctx, n)[k] == p
  {
    SubagentCount(ctx, n - 1);
    SpeakerHasPart(ctx, n - 1);
    Appended(SubagentParts(ctx, n - 1), SubagentPart(ctx, n - 1), |SubagentParts(ctx, n - 1)|);
    p := SubagentPart(ctx, n - 1)[0];
  }

  /** One section for every sub-agent that says something, in order. */
  lemma {:induction false} SubagentsInOrder(ctx: Context, n: nat, i: nat) returns (p: Part)
    requires i < n <= |ctx.subagents| && IsSpeaker(ctx.subagents[i])
    ensures IsSubagentPart(ctx, i, p)
    ensures var k := Speakers(ctx.subagents, i); k < |SubagentParts(ctx, n)| && SubagentParts(ctx, n)[k] == p
  {
    if i == n - 1 {
      p := SubagentAdds(ctx, n);
    } else {
      p := SubagentsInOrder(ctx, n - 1, i);
      SubagentKeeps(ctx, n, Speakers(ctx.subagents, i), p);
    }
  }

  predicate FirstAt(results: seq<ToolResult>, k: nat, id: string) {
    k < |results| && results[k].id == Some(id) && forall j :: 0 <= j < k ==> results[j].id != Some(id)
  }

  lemma {:induction false} FirstResultIsFirst(results: seq<ToolResult>, id: string) returns (k: nat)
    requires FirstResult(results, id).Some?
    ensures FirstAt(results, k, id) && results[k] == FirstResult(results, id).value
  {
    if results[0].id == Some(id) {
      k := 0;
    } else {
      k := FirstResultIsFirst(results[1..], id);
      k := k + 1;
    }
  }

  /** The answer `j` joins the call to the first result that carries its id, result k. */
  predicate Joins(ctx: Context, call: ToolCall, results: seq<ToolResult>, j: Joined, k: nat) {
    && call.id == Some(j.id) && FirstAt(results, k, j.id)
    && (call.skill.Some? && call.skill.value != "" ==> j.skill == call.skill.value)
    && j.truncated == results[k].truncated && j.forked == ctx.forked(j.text)
    && j.text == if results[k].text.Some? then results[k].text.value else ""
  }

  function JoinedOf(ctx: Context, call: ToolCall, r: ToolResult): Joined
    requires call.id.Some?
  {
    Joined(SkillName(call), call.id.value, ResultText(r), ctx.forked(ResultText(r)), r.truncated)
  }

  lemma JoinedOfJoins(ctx: Context, call: ToolCall, results: seq<ToolResult>) returns (k: nat)
    requires ResultOf(call, results).Some?
    ensures Joins(ctx, call, results, JoinedOf(ctx, call, ResultOf(call, results).value), k)
  {
    k := FirstResultIsFirst(results, call.id.value);
  }

  lemma AnsweredHasResult(call: ToolCall, results: seq<ToolResult>)
    ensures IsAnswered(call, results) <==> TopLevelSkill(call) && ResultOf(call, results).Some?
  {
  }

  lemma {:induction false} JoinedCount(ctx: Context, calls: seq<ToolCall>, results: seq<ToolResult>, n: nat)
    requires n <= |calls|
    ensures |JoinCalls(ctx, calls[..n], results).joined| == Answers(calls, results, n)
  {
    if n > 0 {
      assert calls[..n][..n - 1] == calls[..n - 1];
      JoinedCount(ctx, calls, results, n - 1);
      AnsweredHasResult(calls[n - 1], results);
    }
  }

  /** One answer for every answered call, in order. */
  lemma {:induction false} JoinedInOrder(ctx: Context, calls: seq<ToolCall>, results: seq<ToolResult>, n: nat, i: nat)
    returns (k: nat)
    requires i < n <= |calls| && IsAnswered(calls[i], results)
    ensures var joined, at := JoinCalls(ctx, calls[..n], results).joined, Answers(calls, results, i);
            at < |joined| && Joins(ctx, calls[i], results, joined[at], k)
  {
    assert calls[..n][..n - 1] == calls[..n - 1];
    if i == n - 1 {
      JoinedCount(ctx, calls, results, i);
      AnsweredHasResult(calls[i], results);
      k := JoinedOfJoins(ctx, calls[i], results);
    } else {
      k := JoinedInOrder(ctx, calls, results, n - 1, i);
    }
  }

  /** How many of the first n files are kept. */
  function Hits(files: seq<AuthoredFile>, hit: string -> bool, n: nat): nat
    requires n <= |files|
  {
    if n == 0 then 0 else Hits(files, hit, n - 1) + if hit(files[n - 1].path) then 1 else 0
  }

  lemma FilterNext(files: seq<AuthoredFile>, hit: string -> bool, n: nat)
    requires 0 < n <= |files|
    ensures FilterFiles(files[..n], hit) ==
            FilterFiles(files[..n - 1], hit) + if hit(files[n - 1].path) then [files[n - 1]] else []
  {
    assert files[..n][..n - 1] == files[..n - 1];
  }

  lemma {:induction false} FilteredCount(files: seq<AuthoredFile>, hit: string -> bool, n: nat)
    requires n <= |files|
    ensures |FilterFiles(files[..n], hit)| == Hits(files, hit, n)
  {
    if n > 0 {
      FilterNext(files, hit, n);
      FilteredCount(files, hit, n - 1);
    }
  }

  lemma FilterKeeps(files: seq<AuthoredFile>, hit: string -> bool, n: nat, k: nat)
    requires 0 < n <= |files| && k < |FilterFiles(files[..n - 1], hit)|
    ensures k < |FilterFiles(files[..n], hit)|
    ensures FilterFiles(files[..n], hit)[k] == FilterFiles(files[..n - 1], hit)[k]
  {
    var more := if hit(files[n - 1].path) then [files[n - 1]] else [];
    Appended(FilterFiles(files[..n - 1], hit), more, k);
    FilterNext(files, hit, n);
  }

  lemma FilterAdds(files: seq<AuthoredFile>, hit: string -> bool, n: nat)
    requires 0 < n <= |files| && hit(files[n - 1].path)
    ensures var k := |FilterFiles(files[..n - 1], hit)|;
            k < |FilterFiles(files[..n], hit)| && FilterFiles(files[..n], hit)[k] == files[n - 1]
  {
    Appended(FilterFiles(files[..n - 1], hit), [files[n - 1]], |FilterFiles(files[..n - 1], hit)|);
    FilterNext(files, hit, n);
  }

  lemma {:induction false} FilteredInOrder(files: seq<AuthoredFile>, hit: string -> bool, n: nat, i: nat)
    requires i < n <= |files| && hit(files[i].path)
    ensures Hits(files, hit, i) < |FilterFiles(files[..n], hit)|
    ensures FilterFiles(files[..n], hit)[Hits(files, hit, i)] == files[i]
  {
    if i == n - 1 {
      FilteredCount(files, hit, i);
      FilterAdds(files, hit, n);
    } else {
      FilteredInOrder(files, hit, n - 1, i);
      FilterKeeps(files, hit, n, Hits(files, hit, i));
    }
  }

  lemma {:induction false} KeepingAllKeepsAll(files: seq<AuthoredFile>, hit: string -> bool)
    requires forall p :: hit(p)
    ensures FilterFiles(files, hit) == files
  {
    if files != [] {
      var front := files[..|files| - 1];
      KeepingAllKeepsAll(front, hit);
      assert files == front + [files[|files| - 1]];
    }
  }

  lemma {:induction false} HitsInScope(ctx: Context, o: Opts, hit: string -> bool, n: nat)
    requires n <= |ctx.authored| && forall p :: hit(p) <==> InScope(ctx, o.evidenceFiles, p)
    ensures Hits(ctx.authored, hit, n) == FilesInScope(ctx, o, n)
  {
    if n > 0 { HitsInScope(ctx, o, hit, n - 1); }
  }

  lemma {:induction false} RemoteShowsNoFile(ctx: Context, o: Opts, n: nat)
    requires n <= |ctx.authored| && ctx.remote
    ensures FilesInScope(ctx, o, n) == 0
  {
    if n > 0 { RemoteShowsNoFile(ctx, o, n - 1); }
  }

  lemma FilesAreFiltered(ctx: Context, o: Opts, hit: string -> bool)
    requires !ctx.remote && forall p :: hit(p) <==> InScope(ctx, o.evidenceFiles, p)
    ensures Files(ctx, o) == FilterFiles(ctx.authored[..|ctx.authored|], hit)
  {
    assert ctx.authored[..|ctx.authored|] == ctx.authored;
    if Scoped(o.evidenceFiles) {
      SameFilter(ctx.authored, hit, (p: string) => ctx.matches(o.evidenceFiles.value, p));
    } else {
      KeepingAllKeepsAll(ctx.authored, hit);
    }
  }

  lemma {:induction false} SameFilter(files: seq<AuthoredFile>, f: string -> bool, g: string -> bool)
    requires forall p :: f(p) <==> g(p)
    ensures FilterFiles(files, f) == FilterFiles(files, g)
  {
    if files != [] { SameFilter(files[..|files| - 1], f, g); }
  }

  /** The files of a scope are the captured ones inside it, in order. */
  lemma FilesInOrder(ctx: Context, o: Opts)
    ensures |Files(ctx, o)| == FilesInScope(ctx, o, |ctx.authored|)
    ensures forall i :: 0 <= i < |ctx.authored| && InScope(ctx, o.evidenceFiles, ctx.authored[i].path) ==>
              FilesInScope(ctx, o, i) < |Files(ctx, o)| && Files(ctx, o)[FilesInScope(ctx, o, i)] == ctx.authored[i]
  {
    var n := |ctx.authored|;
    if ctx.remote {
      RemoteShowsNoFile(ctx, o, n);
    } else {
      var hit := p => InScope(ctx, o.evidenceFiles, p);
      FilesAreFiltered(ctx, o, hit);
      FilteredCount(ctx.authored, hit, n);
      HitsInScope(ctx, o, hit, n);
      forall i | 0 <= i < n && InScope(ctx, o.evidenceFiles, ctx.authored[i].path)
        ensures FilesInScope(ctx, o, i) < |Files(ctx, o)|
        ensures Files(ctx, o)[FilesInScope(ctx, o, i)] == ctx.authored[i]
      {
        FilteredInOrder(ctx.authored, hit, n, i);
        HitsInScope(ctx, o, hit, i);
      }
    }
  }

  // ---------------------------------------------------------------------------------------------
  // From sections to the document and its fingerprint.

  /** The scrubbed text, up to the cap. */
  function UpTo(text: string, cap: nat): string { if |text| <= cap then text else text[..cap] }

  /** A text under a heading, at least up to the cap. */
  predicate Begins(shown: string, heading: string, text: string, cap: nat) {
    heading + "\n" + UpTo(text, cap) <= shown
  }

  /** Whole within the cap; beyond it, that much of it and the words of the cut. */
  predicate Heads(shown: string, heading: string, text: string, cap: nat) {
    Begins(shown, heading, text, cap) && (|text| <= cap ==> shown == heading + "\n" + text)
  }

  lemma CapHeads(heading: string, text: string, cap: nat, note: nat -> string)
    ensures Heads(Headed(heading, text, cap, note), heading, text, cap)
  {
    var capped := CapForJudge(text, cap, note);
    assert UpTo(text, cap) <= capped;
    assert heading + "\n" + UpTo(text, cap) <= heading + "\n" + capped;
  }

  /** A part of a shown text is shown. */
  lemma ShownPart(doc: string, text: string, from: nat, to: nat)
    requires Shown(doc, text) && from <= to <= |text|
    ensures Shown(doc, text[from..to])
  {
    var p: nat :| ShownAt(doc, text, p);
    forall k | 0 <= k < to - from ensures doc[p + from..p + to][k] == text[from..to][k] {
      assert doc[p..p + |text|][from + k] == text[from + k];
    }
    assert doc[p + from..p + to] == text[from..to];
    assert ShownAt(doc, text[from..to], p + from);
  }

  lemma HeadedIsShown(doc: string, shown: string, heading: string, text: string, cap: nat)
    requires Heads(shown, heading, text, cap) && Shown(doc, shown)
    ensures Shown(doc, UpTo(text, cap))
  {
    var head, upTo := heading + "\n", UpTo(text, cap);
    ShownPart(doc, shown, |head|, |head| + |upTo|);
    assert shown[|head|..|head| + |upTo|] == (head + upTo)[|head|..];
  }

  /** Section i was not reached by the cut of the document. */
  predicate Whole(c: Composed, i: nat) { c.overflowAt.Some? ==> i < c.overflowAt.value }

  /** What the document and its fingerprint say of these sections. */
  ghost predicate Lists(parts: seq<Part>, c: Composed) {
    && c.doc == Sent(parts) && Fingerprints(parts, Limit(parts), c.fingerprint)
    && forall i :: 0 <= i < |parts| && Whole(c, i) ==> Survives(parts, i)
  }

  lemma ReportsLists(ctx: Context, o: Opts, c: Composed)
    requires Reports(ctx, o, c)
    ensures Lists(Sections(ctx, o), c)
  {
    var parts := Sections(ctx, o);
    forall i | 0 <= i < |parts| && Whole(c, i) ensures Survives(parts, i) {
      assert c.overflowAt.None? ==> !CutBefore(parts, |parts|);
      assert c.overflowAt.Some? ==> !CutBefore(parts, c.overflowAt.value);
    }
  }

  /** A section the cut did not reach stands in the document and is fingerprinted whole, under its kind. */
  lemma WholeIsListed(parts: seq<Part>, c: Composed, i: nat)
    requires Lists(parts, c) && i < |parts| && Whole(c, i) && |parts[i].text| > 0
    ensures i < |c.fingerprint| && c.fingerprint[i] == Section(parts[i].kind, parts[i].path, parts[i].text)
    ensures Shown(c.doc, parts[i].text)
  {
    SurvivorsAreFingerprintedWhole(parts, c.fingerprint, i);
    assert parts[i].text[0..] == parts[i].text;
    SurvivesShown(parts, i, parts[i].text);
  }

  /** The first n characters of that section are shown, and fingerprinted under its kind. */
  ghost predicate ListedUpTo(c: Composed, i: nat, p: Part, n: nat)
    requires n <= |p.text|
  {
    && i < |c.fingerprint| && c.fingerprint[i].kind == p.kind && c.fingerprint[i].path == p.path
    && p.text[..n] <= c.fingerprint[i].slice && Shown(c.doc, p.text[..n])
  }

  lemma PrefixIsListed(parts: seq<Part>, c: Composed, i: nat, n: nat)
    requires Lists(parts, c) && i < |parts| && 0 < n <= |parts[i].text| && StartOf(parts, i) + n <= DOC_CAP
    ensures ListedUpTo(c, i, parts[i], n)
  {
    PrefixSurvives(parts, i, n);
  }

  lemma PrefixSurvives(parts: seq<Part>, i: nat, n: nat)
    requires i < |parts| && 0 < n <= |parts[i].text| && StartOf(parts, i) + n <= DOC_CAP
    ensures StartOf(parts, i) < Limit(parts) && parts[i].text[..n] <= SurvivingText(parts, Limit(parts), i)
    ensures Shown(Sent(parts), parts[i].text[..n])
  {
    PartAt(Texts(parts), i);
    SentSlice(parts, Limit(parts), i);
    var slice := SurvivingText(parts, Limit(parts), i);
    assert ShownAt(Sent(parts), slice, StartOf(parts, i));
    ShownPart(Sent(parts), slice, 0, n);
    assert slice[0..n] == parts[i].text[..n];
  }

  // ---------------------------------------------------------------------------------------------
  // Where each section stands.

  lemma Within<T>(all: seq<T>, pre: seq<T>, xs: seq<T>, k: nat)
    requires pre + xs <= all && k < |xs|
    ensures |pre| + k < |all| && all[|pre| + k] == xs[k]
  {
    assert all[|pre| + k] == (pre + xs)[|pre| + k];
  }

  lemma Extended<T>(a: seq<T>, b: seq<T>, c: seq<T>)
    requires a <= b
    ensures a <= b + c
  {
  }

  /** The sections are pushed sort by sort. */
  lemma SortsInOrder(ctx: Context, o: Opts)
    ensures RemoteNote(ctx, o) + Answer(ctx) <= Lead(ctx, o) <= Graded(ctx, o) <= Sections(ctx, o)
    ensures var skilled, files := Lead(ctx, o) + SkillParts(ctx, Skills(ctx, o)), Files(ctx, o);
            && skilled <= Graded(ctx, o) && skilled + FileParts(ctx, files) <= Graded(ctx, o)
            && Graded(ctx, o) == skilled + FileParts(ctx, files) + ScratchNote(ctx, files)
            && Sections(ctx, o) == Graded(ctx, o) + HealthNote(ctx, files)
  {
    var lead, skills, files := Lead(ctx, o), SkillParts(ctx, Skills(ctx, o)), Files(ctx, o);
    Extended(lead, lead + skills, FileParts(ctx, files));
    Extended(lead, lead + skills + FileParts(ctx, files), ScratchNote(ctx, files));
    Extended(lead + skills, lead + skills + FileParts(ctx, files), ScratchNote(ctx, files));
  }

  lemma PrefixOfPrefix<T>(a: seq<T>, b: seq<T>, c: seq<T>)
    requires a <= b <= c
    ensures a <= c
  {
  }

  lemma RemoteSection(ctx: Context, o: Opts)
    requires ctx.remote
    ensures 0 < |Sections(ctx, o)| && Sections(ctx, o)[0] == Part(KHealth, ctx.remoteNote(o.subagentText), None)
  {
    SortsInOrder(ctx, o);
    assert Sections(ctx, o)[0] == (RemoteNote(ctx, o) + Answer(ctx))[0];
  }

  lemma AnswerSection(ctx: Context, o: Opts, k: nat)
    requires k < |Answer(ctx)|
    ensures FinalAt(ctx) + k < |Sections(ctx, o)| && Sections(ctx, o)[FinalAt(ctx) + k] == Answer(ctx)[k]
  {
    SortsInOrder(ctx, o);
    PrefixOfPrefix(RemoteNote(ctx, o) + Answer(ctx), Lead(ctx, o), Graded(ctx, o));
    PrefixOfPrefix(RemoteNote(ctx, o) + Answer(ctx), Graded(ctx, o), Sections(ctx, o));
    Within(Sections(ctx, o), RemoteNote(ctx, o), Answer(ctx), k);
  }

  lemma AnswerSize(ctx: Context)
    ensures |Answer(ctx)| == TranscriptAt(ctx) - FinalAt(ctx) + 1
  {
  }

  lemma LeadSize(ctx: Context, o: Opts)
    ensures |RemoteNote(ctx, o) + Answer(ctx)| == TranscriptAt(ctx) + 1
    ensures |Subagents(ctx, o)| == SkillsAt(ctx, o) - TranscriptAt(ctx) - 1 && |Lead(ctx, o)| == SkillsAt(ctx, o)
  {
    SubagentCount(ctx, |ctx.subagents|);
  }

  lemma SubagentStands(ctx: Context, o: Opts, k: nat)
    requires k < |Subagents(ctx, o)|
    ensures TranscriptAt(ctx) + 1 + k < |Sections(ctx, o)|
    ensures Sections(ctx, o)[TranscriptAt(ctx) + 1 + k] == Subagents(ctx, o)[k]
  {
    SortsInOrder(ctx, o);
    LeadSize(ctx, o);
    PrefixOfPrefix(Lead(ctx, o), Graded(ctx, o), Sections(ctx, o));
    Within(Sections(ctx, o), RemoteNote(ctx, o) + Answer(ctx), Subagents(ctx, o), k);
  }

  lemma SkillsSize(ctx: Context, o: Opts)
    ensures |Skills(ctx, o)| == FilesAt(ctx, o) - SkillsAt(ctx, o)
  {
    if ShowsSkills(ctx, o) {
      var calls := ctx.toolCalls.value;
      JoinedCount(ctx, calls, ctx.toolResults.value, |calls|);
      assert calls[..|calls|] == calls;
    }
  }

  lemma SkillSection(ctx: Context, o: Opts, k: nat)
    requires k < |Skills(ctx, o)|
    ensures SkillsAt(ctx, o) + k < |Sections(ctx, o)|
    ensures Sections(ctx, o)[SkillsAt(ctx, o) + k] == SkillPart(ctx, Skills(ctx, o)[k])
  {
    SortsInOrder(ctx, o);
    LeadSize(ctx, o);
    PrefixOfPrefix(Lead(ctx, o) + SkillParts(ctx, Skills(ctx, o)), Graded(ctx, o), Sections(ctx, o));
    Within(Sections(ctx, o), Lead(ctx, o), SkillParts(ctx, Skills(ctx, o)), k);
  }

  lemma FileSection(ctx: Context, o: Opts, k: nat)
    requires k < |Files(ctx, o)|
    ensures FilesAt(ctx, o) + k < |Sections(ctx, o)|
    ensures Sections(ctx, o)[FilesAt(ctx, o) + k] == FilePart(ctx, Files(ctx, o)[k])
  {
    var skilled, files := Lead(ctx, o) + SkillParts(ctx, Skills(ctx, o)), Files(ctx, o);
    SortsInOrder(ctx, o);
    LeadSize(ctx, o);
    SkillsSize(ctx, o);
    PrefixOfPrefix(skilled + FileParts(ctx, files), Graded(ctx, o), Sections(ctx, o));
    Within(Sections(ctx, o), skilled, FileParts(ctx, files), k);
  }

  lemma GradedSize(ctx: Context, o: Opts)
    ensures |Graded(ctx, o)| == NotesAt(ctx, o) + |ScratchNote(ctx, Files(ctx, o))|
  {
    LeadSize(ctx, o);
    SkillsSize(ctx, o);
    FilesInOrder(ctx, o);
  }

  lemma ScratchSection(ctx: Context, o: Opts)
    requires ScratchNote(ctx, Files(ctx, o)) != []
    ensures NotesAt(ctx, o) < |Sections(ctx, o)|
    ensures Sections(ctx, o)[NotesAt(ctx, o)] == Part(KScratchNote, ctx.scratchNote, None)
  {
    var files := Files(ctx, o);
    var filed := Lead(ctx, o) + SkillParts(ctx, Skills(ctx, o)) + FileParts(ctx, files);
    SortsInOrder(ctx, o);
    GradedSize(ctx, o);
    Within(Sections(ctx, o), filed, ScratchNote(ctx, files), 0);
  }

  lemma HealthSection(ctx: Context, o: Opts)
    requires HealthNote(ctx, Files(ctx, o)) != []
    ensures |Graded(ctx, o)| < |Sections(ctx, o)|
    ensures Sections(ctx, o)[|Graded(ctx, o)|] == Part(KHealth, ctx.healthNote(Files(ctx, o)), None)
  {
  }

  // ---------------------------------------------------------------------------------------------
  // What the judge is shown.

  /** Section i puts that text under that heading. */
  predicate HeadAt(parts: seq<Part>, i: nat, kind: Kind, heading: string, text: string, cap: nat) {
    i < |parts| && parts[i].kind == kind && parts[i].path == None && Heads(parts[i].text, heading, text, cap)
  }

  /** Entry i of the fingerprint is of that kind and begins with the text under its heading, and the document shows the
      text: up to the cap. */
  ghost predicate Reads(c: Composed, i: nat, kind: Kind, heading: string, text: string, cap: nat) {
    && i < |c.fingerprint| && c.fingerprint[i].kind == kind && c.fingerprint[i].path == None
    && Begins(c.fingerprint[i].slice, heading, text, cap)
    && Shown(c.doc, UpTo(text, cap)) && (|text| <= cap ==> Shown(c.doc, text))
  }

  /** The same of a section the cut did not reach: a text within the cap is all that stands under the heading. */
  ghost predicate ReadsWhole(c: Composed, i: nat, kind: Kind, heading: string, text: string, cap: nat) {
    && Reads(c, i, kind, heading, text, cap) && Heads(c.fingerprint[i].slice, heading, text, cap)
    && Shown(c.doc, c.fingerprint[i].slice)
  }

  lemma ListedReads(c: Composed, i: nat, p: Part, kind: Kind, heading: string, text: string, cap: nat)
    requires p.kind == kind && p.path == None && Heads(p.text, heading, text, cap)
    requires |heading| + 1 + |UpTo(text, cap)| <= |p.text|
    requires ListedUpTo(c, i, p, |heading| + 1 + |UpTo(text, cap)|)
    ensures Reads(c, i, kind, heading, text, cap)
  {
    var head, n := heading + "\n" + UpTo(text, cap), |heading| + 1 + |UpTo(text, cap)|;
    assert p.text[..n] == head;
    ShownPart(c.doc, head, |heading| + 1, n);
    assert head[|heading| + 1..n] == UpTo(text, cap);
  }

  lemma HeadLength(shown: string, heading: string, text: string, cap: nat)
    requires Heads(shown, heading, text, cap)
    ensures |heading| + 1 + |UpTo(text, cap)| <= |shown| && |UpTo(text, cap)| <= cap
  {
  }

  /** A headed section that begins early enough is shown up to its cap. */
  lemma EarlyHeadReads(parts: seq<Part>, c: Composed, i: nat, kind: Kind, heading: string, text: string, cap: nat)
    requires Lists(parts, c) && HeadAt(parts, i, kind, heading, text, cap)
    requires StartOf(parts, i) + |heading| + 1 + cap <= DOC_CAP
    ensures Reads(c, i, kind, heading, text, cap)
  {
    HeadLength(parts[i].text, heading, text, cap);
    PrefixIsListed(parts, c, i, |heading| + 1 + |UpTo(text, cap)|);
    ListedReads(c, i, parts[i], kind, heading, text, cap);
  }

  /** A headed section that the cut did not reach is fingerprinted whole and shown up to its cap. */
  lemma WholeHeadReads(parts: seq<Part>, c: Composed, i: nat, kind: Kind, heading: string, text: string, cap: nat)
    requires Lists(parts, c) && HeadAt(parts, i, kind, heading, text, cap) && Whole(c, i)
    ensures ReadsWhole(c, i, kind, heading, text, cap)
  {
    WholeIsListed(parts, c, i);
    HeadedIsShown(c.doc, parts[i].text, heading, text, cap);
  }

  lemma FinalHeads(ctx: Context, o: Opts)
    requires ctx.finalMessage != ""
    ensures HeadAt(Sections(ctx, o), FinalAt(ctx), KFinal, "## Final answer", ctx.scrub(ctx.finalMessage), 32768)
  {
    AnswerSection(ctx, o, 0);
    CapHeads("## Final answer", ctx.scrub(ctx.finalMessage), FINAL_CAP, ctx.cutNote);
  }

  lemma FinalStart(ctx: Context, o: Opts)
    requires ctx.remote ==> |ctx.remoteNote(o.subagentText)| <= 200000
    ensures FinalAt(ctx) < |Sections(ctx, o)| && StartOf(Sections(ctx, o), FinalAt(ctx)) <= 200002
  {
    AnswerSection(ctx, o, 0);
    if ctx.remote {
      RemoteSection(ctx, o);
      assert Start(Texts(Sections(ctx, o)), 1) == Start(Texts(Sections(ctx, o)), 0) + |Sections(ctx, o)[0].text| + 2;
    }
  }

  /** The final answer stands in the document up to its cap, and its section is fingerprinted as the answer. Only words
      of some 200 thousand characters ahead of it could push it out. */
  lemma FinalAnswerIsShown(ctx: Context, o: Opts, c: Composed)
    requires Reports(ctx, o, c) && ctx.finalMessage != ""
    requires ctx.remote ==> |ctx.remoteNote(o.subagentText)| <= 200000
    ensures Reads(c, FinalAt(ctx), KFinal, "## Final answer", ctx.scrub(ctx.finalMessage), 32768)
  {
    FinalHeads(ctx, o);
    FinalStart(ctx, o);
    ReportsLists(ctx, o, c);
    EarlyHeadReads(Sections(ctx, o), c, FinalAt(ctx), KFinal, "## Final answer", ctx.scrub(ctx.finalMessage), 32768);
  }

  lemma TranscriptStart(ctx: Context, o: Opts)
    requires ctx.remote ==> |ctx.remoteNote(o.subagentText)| <= 50000
    requires var text := ctx.scrub(ctx.finalMessage); |text| <= 32768 || |ctx.cutNote(|text| - 32768)| <= 40000
    ensures TranscriptAt(ctx) < |Sections(ctx, o)| && StartOf(Sections(ctx, o), TranscriptAt(ctx)) <= 130000
  {
    AnswerSize(ctx);
    AnswerSection(ctx, o, |Answer(ctx)| - 1);
    var starts := Texts(Sections(ctx, o));
    if ctx.remote { RemoteSection(ctx, o); }
    if ctx.finalMessage != "" {
      AnswerSection(ctx, o, 0);
      assert |starts[FinalAt(ctx)]| <= 16 + 32768 + 40000;
      assert Start(starts, TranscriptAt(ctx)) == Start(starts, FinalAt(ctx)) + |starts[FinalAt(ctx)]| + 2;
    }
    assert ctx.remote ==> Start(starts, 1) == |starts[0]| + 2;
  }

  lemma LastAnswer(ctx: Context)
    ensures Answer(ctx) != []
    ensures Answer(ctx)[|Answer(ctx)| - 1] ==
            Part(KTranscript, Headed("## Transcript", ctx.scrub(ctx.transcript), TRANSCRIPT_CAP, ctx.cutNote), None)
  {
  }

  lemma TranscriptHeads(ctx: Context, o: Opts)
    ensures HeadAt(Sections(ctx, o), TranscriptAt(ctx), KTranscript, "## Transcript", ctx.scrub(ctx.transcript), 131072)
  {
    AnswerSize(ctx);
    LastAnswer(ctx);
    AnswerSection(ctx, o, |Answer(ctx)| - 1);
    CapHeads("## Transcript", ctx.scrub(ctx.transcript), TRANSCRIPT_CAP, ctx.cutNote);
  }

  /** The transcript stands in the document up to its cap when what comes before it is of ordinary length. */
  lemma TranscriptIsShown(ctx: Context, o: Opts, c: Composed)
    requires Reports(ctx, o, c)
    requires ctx.remote ==> |ctx.remoteNote(o.subagentText)| <= 50000
    requires var text := ctx.scrub(ctx.finalMessage); |text| <= 32768 || |ctx.cutNote(|text| - 32768)| <= 40000
    ensures Reads(c, TranscriptAt(ctx), KTranscript, "## Transcript", ctx.scrub(ctx.transcript), 131072)
  {
    TranscriptHeads(ctx, o);
    TranscriptStart(ctx, o);
    ReportsLists(ctx, o, c);
    EarlyHeadReads(Sections(ctx, o), c, TranscriptAt(ctx), KTranscript, "## Transcript", ctx.scrub(ctx.transcript),
                   131072);
  }

  /** Whatever comes before it, a transcript that the cut did not reach stands there. */
  lemma UncutTranscriptIsShown(ctx: Context, o: Opts, c: Composed)
    requires Reports(ctx, o, c) && Whole(c, TranscriptAt(ctx))
    ensures ReadsWhole(c, TranscriptAt(ctx), KTranscript, "## Transcript", ctx.scrub(ctx.transcript), 131072)
  {
    TranscriptHeads(ctx, o);
    ReportsLists(ctx, o, c);
    WholeHeadReads(Sections(ctx, o), c, TranscriptAt(ctx), KTranscript, "## Transcript", ctx.scrub(ctx.transcript),
                   131072);
  }

  function SubagentHeading(ctx: Context, i: nat): string
    requires i < |ctx.subagents|
  {
    var sa := ctx.subagents[i];
    "## Sub-agent output: " + ctx.scrub(if sa.title.Some? then sa.title.value else "#" + Digits(i + 1))
  }

  function SubagentText(ctx: Context, i: nat): string
    requires i < |ctx.subagents|
  {
    ctx.scrub(Join(SpokenTurns(ctx.subagents[i].turns)))
  }

  lemma SubagentPartHeads(ctx: Context, i: nat, p: Part)
    requires i < |ctx.subagents| && IsSubagentPart(ctx, i, p)
    ensures p.kind == KSubagent && p.path == None && Heads(p.text, SubagentHeading(ctx, i), SubagentText(ctx, i), 16384)
  {
    CapHeads(SubagentHeading(ctx, i), SubagentText(ctx, i), SUBAGENT_CAP, ctx.cutNote);
  }

  lemma SubagentHeads(ctx: Context, o: Opts, i: nat)
    requires o.subagentText && !ctx.remote && i < |ctx.subagents| && IsSpeaker(ctx.subagents[i])
    ensures HeadAt(Sections(ctx, o), TranscriptAt(ctx) + 1 + Speakers(ctx.subagents, i), KSubagent,
                   SubagentHeading(ctx, i), SubagentText(ctx, i), 16384)
  {
    var p := SubagentsInOrder(ctx, |ctx.subagents|, i);
    SubagentStands(ctx, o, Speakers(ctx.subagents, i));
    SubagentPartHeads(ctx, i, p);
  }

  /** The output of a sub-agent that says something has its section when it is asked for, off the remote lane; unless
      the cut reaches that section, it stands in the document up to its cap. */
  lemma SubagentIsShown(ctx: Context, o: Opts, c: Composed, i: nat)
    requires Reports(ctx, o, c) && o.subagentText && !ctx.remote
    requires i < |ctx.subagents| && IsSpeaker(ctx.subagents[i])
    requires Whole(c, TranscriptAt(ctx) + 1 + Speakers(ctx.subagents, i))
    ensures ReadsWhole(c, TranscriptAt(ctx) + 1 + Speakers(ctx.subagents, i), KSubagent,
                       SubagentHeading(ctx, i), SubagentText(ctx, i), 16384)
  {
    SubagentHeads(ctx, o, i);
    ReportsLists(ctx, o, c);
    WholeHeadReads(Sections(ctx, o), c, TranscriptAt(ctx) + 1 + Speakers(ctx.subagents, i), KSubagent,
                   SubagentHeading(ctx, i), SubagentText(ctx, i), 16384);
  }

  /** The heading of an answer says whether its skill forked and whether it was cut when it was captured. */
  function AnswerHeading(ctx: Context, j: Joined): string {
    (if j.forked then "## Fork skill result: " else "## Skill result: ") + ctx.scrub(j.skill)
    + (if j.truncated then " (truncated)" else "")
  }

  lemma SkillHeads(ctx: Context, j: Joined)
    ensures SkillPart(ctx, j).kind == KSkillResult && SkillPart(ctx, j).path == None
    ensures Heads(SkillPart(ctx, j).text, AnswerHeading(ctx, j), ctx.scrub(j.text), 32768)
  {
    CapHeads(AnswerHeading(ctx, j), ctx.scrub(j.text), SKILL_RESULT_CAP, ctx.cutNote);
    SkillText(ctx, j);
  }

  lemma SkillText(ctx: Context, j: Joined)
    ensures SkillPart(ctx, j).kind == KSkillResult && SkillPart(ctx, j).path == None
    ensures SkillPart(ctx, j).text ==
            Headed(AnswerHeading(ctx, j), ctx.scrub(j.text), SKILL_RESULT_CAP, ctx.cutNote)
  {
  }

  lemma SkillsInOrder(ctx: Context, o: Opts, i: nat) returns (j: Joined, k: nat)
    requires ShowsSkills(ctx, o)
    requires i < |ctx.toolCalls.value| && IsAnswered(ctx.toolCalls.value[i], ctx.toolResults.value)
    ensures var at := Answers(ctx.toolCalls.value, ctx.toolResults.value, i);
            at < |Skills(ctx, o)| && Skills(ctx, o)[at] == j
    ensures Joins(ctx, ctx.toolCalls.value[i], ctx.toolResults.value, j, k)
  {
    var calls := ctx.toolCalls.value;
    k := JoinedInOrder(ctx, calls, ctx.toolResults.value, |calls|, i);
    assert calls[..|calls|] == calls;
    j := Skills(ctx, o)[Answers(calls, ctx.toolResults.value, i)];
  }

  lemma SkillHeadsAt(ctx: Context, parts: seq<Part>, i: nat, j: Joined)
    requires i < |parts| && parts[i] == SkillPart(ctx, j)
    ensures HeadAt(parts, i, KSkillResult, AnswerHeading(ctx, j), ctx.scrub(j.text), 32768)
  {
    SkillHeads(ctx, j);
  }

  /** Where the section of that call stands. */
  function AnswerAt(ctx: Context, o: Opts, i: nat): nat
    requires ShowsSkills(ctx, o) && i <= |ctx.toolCalls.value|
  {
    SkillsAt(ctx, o) + Answers(ctx.toolCalls.value, ctx.toolResults.value, i)
  }

  lemma SkillReads(ctx: Context, parts: seq<Part>, c: Composed, i: nat, j: Joined)
    requires Lists(parts, c) && i < |parts| && parts[i] == SkillPart(ctx, j) && Whole(c, i)
    ensures ReadsWhole(c, i, KSkillResult, AnswerHeading(ctx, j), ctx.scrub(j.text), 32768)
  {
    SkillHeadsAt(ctx, parts, i, j);
    WholeHeadReads(parts, c, i, KSkillResult, AnswerHeading(ctx, j), ctx.scrub(j.text), 32768);
  }

  lemma SkillSectionIs(ctx: Context, o: Opts, at: nat, j: Joined)
    requires at < |Skills(ctx, o)| && Skills(ctx, o)[at] == j
    ensures SkillsAt(ctx, o) + at < |Sections(ctx, o)| && Sections(ctx, o)[SkillsAt(ctx, o) + at] == SkillPart(ctx, j)
  {
    SkillSection(ctx, o, at);
  }

  lemma AnswerStands(ctx: Context, o: Opts, i: nat) returns (j: Joined, k: nat)
    requires ShowsSkills(ctx, o)
    requires i < |ctx.toolCalls.value| && IsAnswered(ctx.toolCalls.value[i], ctx.toolResults.value)
    ensures Joins(ctx, ctx.toolCalls.value[i], ctx.toolResults.value, j, k)
    ensures AnswerAt(ctx, o, i) < |Sections(ctx, o)| && Sections(ctx, o)[AnswerAt(ctx, o, i)] == SkillPart(ctx, j)
  {
    j, k := SkillsInOrder(ctx, o, i);
    SkillSectionIs(ctx, o, Answers(ctx.toolCalls.value, ctx.toolResults.value, i), j);
  }

  lemma AnswerReads(ctx: Context, o: Opts, c: Composed, at: nat, j: Joined)
    requires Reports(ctx, o, c) && Whole(c, at)
    requires at < |Sections(ctx, o)| && Sections(ctx, o)[at] == SkillPart(ctx, j)
    ensures ReadsWhole(c, at, KSkillResult, AnswerHeading(ctx, j), ctx.scrub(j.text), 32768)
  {
    ReportsLists(ctx, o, c);
    SkillReads(ctx, Sections(ctx, o), c, at, j);
  }

  /** An answered top-level Skill call has its section when answers are asked for: the first result with its id. */
  lemma SkillAnswerIsShown(ctx: Context, o: Opts, c: Composed, i: nat) returns (j: Joined, k: nat)
    requires Reports(ctx, o, c) && ShowsSkills(ctx, o)
    requires i < |ctx.toolCalls.value| && IsAnswered(ctx.toolCalls.value[i], ctx.toolResults.value)
    requires Whole(c, AnswerAt(ctx, o, i))
    ensures Joins(ctx, ctx.toolCalls.value[i], ctx.toolResults.value, j, k)
    ensures ReadsWhole(c, AnswerAt(ctx, o, i), KSkillResult, AnswerHeading(ctx, j), ctx.scrub(j.text), 32768)
  {
    j, k := AnswerStands(ctx, o, i);
    AnswerReads(ctx, o, c, AnswerAt(ctx, o, i), j);
  }

  /** The section of a file: the heading marks one from the scratchpad unless the user sees that directory, and one the
      capture cut. */
  function FileText(ctx: Context, f: AuthoredFile): string {
    var scratch := "scratchpad/" <= f.path && "scratchpad" !in ctx.userVisible && "scratchpad/" !in ctx.userVisible;
    "## Authored file: " + ctx.scrub(f.path) + (if scratch then ctx.scratchTag else "")
    + (if f.truncated then " (truncated)" else "") + "\n" + ctx.scrub(f.content)
  }

  lemma FilePartIs(ctx: Context, f: AuthoredFile)
    ensures FilePart(ctx, f) == Part(KAuthored, FileText(ctx, f), Some(f.path)) && |FileText(ctx, f)| > 0
  {
  }

  /** Entry i of the fingerprint is that file, whole, and the document shows it. */
  ghost predicate ListsFile(c: Composed, i: nat, f: AuthoredFile, text: string) {
    i < |c.fingerprint| && c.fingerprint[i] == Section(KAuthored, Some(f.path), text) && Shown(c.doc, text)
  }

  lemma FileHeads(ctx: Context, o: Opts, i: nat)
    requires i < |ctx.authored| && InScope(ctx, o.evidenceFiles, ctx.authored[i].path)
    ensures FilesAt(ctx, o) + FilesInScope(ctx, o, i) < |Sections(ctx, o)|
    ensures Sections(ctx, o)[FilesAt(ctx, o) + FilesInScope(ctx, o, i)] == FilePart(ctx, ctx.authored[i])
  {
    FilesInOrder(ctx, o);
    FileSection(ctx, o, FilesInScope(ctx, o, i));
  }

  lemma WholeFileIsListed(ctx: Context, parts: seq<Part>, c: Composed, at: nat, f: AuthoredFile)
    requires Lists(parts, c) && at < |parts| && Whole(c, at) && parts[at] == FilePart(ctx, f)
    ensures ListsFile(c, at, f, FileText(ctx, f))
  {
    FilePartIs(ctx, f);
    WholeIsListed(parts, c, at);
  }

  lemma FileReads(ctx: Context, o: Opts, c: Composed, at: nat, f: AuthoredFile)
    requires Reports(ctx, o, c) && Whole(c, at)
    requires at < |Sections(ctx, o)| && Sections(ctx, o)[at] == FilePart(ctx, f)
    ensures ListsFile(c, at, f, FileText(ctx, f))
  {
    ReportsLists(ctx, o, c);
    WholeFileIsListed(ctx, Sections(ctx, o), c, at, f);
  }

  /** A captured file in scope has its section, whole and under its own path, unless the cut reaches it. */
  lemma FileIsListed(ctx: Context, o: Opts, c: Composed, i: nat)
    requires Reports(ctx, o, c) && i < |ctx.authored| && InScope(ctx, o.evidenceFiles, ctx.authored[i].path)
    requires Whole(c, FilesAt(ctx, o) + FilesInScope(ctx, o, i))
    ensures ListsFile(c, FilesAt(ctx, o) + FilesInScope(ctx, o, i), ctx.authored[i], FileText(ctx, ctx.authored[i]))
  {
    FileHeads(ctx, o, i);
    FileReads(ctx, o, c, FilesAt(ctx, o) + FilesInScope(ctx, o, i), ctx.authored[i]);
  }

  // ---------------------------------------------------------------------------------------------
  // The outline: which sections there are, in which order.

  /** Some file in scope comes from a scratchpad the user does not see. */
  predicate ShowsScratch(ctx: Context, o: Opts) {
    && "scratchpad" !in ctx.userVisible && "scratchpad/" !in ctx.userVisible
    && exists f :: f in ctx.authored && InScope(ctx, o.evidenceFiles, f.path) && "scratchpad/" <= f.path
  }

  /** The capture missed something, or cut a file in scope; on the remote lane nothing is said of it. */
  predicate ShowsGaps(ctx: Context, o: Opts) {
    && !ctx.remote
    && (|| (exists f :: f in ctx.authored && InScope(ctx, o.evidenceFiles, f.path) && f.truncated)
        || (ctx.health.Some? && !(ctx.health.value.omitted == [] && ctx.health.value.unreadable == []
                                  && !ctx.health.value.scratchpadSkipped && !ctx.health.value.noPreRunManifest)))
  }

  lemma NotesShown(ctx: Context, o: Opts)
    ensures |ScratchNote(ctx, Files(ctx, o))| == if ShowsScratch(ctx, o) then 1 else 0
    ensures |HealthNote(ctx, Files(ctx, o))| == if ShowsGaps(ctx, o) then 1 else 0
  {
    var files := Files(ctx, o);
    assert forall f :: f in files <==> f in ctx.authored && InScope(ctx, o.evidenceFiles, f.path);
  }

  /** How many sections a document has. */
  function SectionCount(ctx: Context, o: Opts): nat {
    NotesAt(ctx, o) + (if ShowsScratch(ctx, o) then 1 else 0) + (if ShowsGaps(ctx, o) then 1 else 0)
  }

  /** The kind of section i. */
  function KindAt(ctx: Context, o: Opts, i: nat): Kind {
    if i < FinalAt(ctx) then KHealth
    else if i < TranscriptAt(ctx) then KFinal
    else if i == TranscriptAt(ctx) then KTranscript
    else if i < SkillsAt(ctx, o) then KSubagent
    else if i < FilesAt(ctx, o) then KSkillResult
    else if i < NotesAt(ctx, o) then KAuthored
    else if i == NotesAt(ctx, o) && ShowsScratch(ctx, o) then KScratchNote
    else KHealth
  }

  lemma SectionTotal(ctx: Context, o: Opts)
    ensures |Sections(ctx, o)| == SectionCount(ctx, o)
  {
    SortsInOrder(ctx, o);
    NotesShown(ctx, o);
    GradedSize(ctx, o);
  }

  predicate Fits(p: Part, kind: Kind) { p.kind == kind && (|p.text| > 0 || kind in {KHealth, KScratchNote}) }

  lemma {:induction false} SubagentsFit(ctx: Context, n: nat)
    requires n <= |ctx.subagents|
    ensures forall k :: 0 <= k < |SubagentParts(ctx, n)| ==> Fits(SubagentParts(ctx, n)[k], KSubagent)
  {
    if n > 0 { SubagentsFit(ctx, n - 1); }
  }

  lemma SubagentFits(ctx: Context, o: Opts, i: nat)
    requires TranscriptAt(ctx) < i < SkillsAt(ctx, o)
    ensures i < |Sections(ctx, o)| && Fits(Sections(ctx, o)[i], KSubagent)
  {
    LeadSize(ctx, o);
    SubagentStands(ctx, o, i - TranscriptAt(ctx) - 1);
    SubagentsFit(ctx, |ctx.subagents|);
  }

  lemma AnswerFits(ctx: Context, o: Opts, i: nat)
    requires FinalAt(ctx) <= i <= TranscriptAt(ctx)
    ensures i < |Sections(ctx, o)|
    ensures Fits(Sections(ctx, o)[i], if i < TranscriptAt(ctx) then KFinal else KTranscript)
  {
    AnswerSize(ctx);
    AnswerSection(ctx, o, i - FinalAt(ctx));
  }

  lemma SkillPartFits(ctx: Context, j: Joined)
    ensures Fits(SkillPart(ctx, j), KSkillResult)
  {
    SkillText(ctx, j);
    assert |AnswerHeading(ctx, j) + "\n"| > 0;
  }

  lemma SkillFits(ctx: Context, o: Opts, i: nat)
    requires SkillsAt(ctx, o) <= i < FilesAt(ctx, o)
    ensures i < |Sections(ctx, o)| && Fits(Sections(ctx, o)[i], KSkillResult)
  {
    SkillsSize(ctx, o);
    SkillSection(ctx, o, i - SkillsAt(ctx, o));
    SkillPartFits(ctx, Skills(ctx, o)[i - SkillsAt(ctx, o)]);
  }

  lemma FileSaysSomething(ctx: Context, parts: seq<Part>, i: nat, f: AuthoredFile)
    requires i < |parts| && parts[i] == FilePart(ctx, f)
    ensures Fits(parts[i], KAuthored)
  {
    FilePartIs(ctx, f);
  }

  lemma FileSectionFits(ctx: Context, o: Opts, k: nat, f: AuthoredFile)
    requires k < |Files(ctx, o)| && f == Files(ctx, o)[k]
    ensures FilesAt(ctx, o) + k < |Sections(ctx, o)| && Fits(Sections(ctx, o)[FilesAt(ctx, o) + k], KAuthored)
  {
    FileSection(ctx, o, k);
    FileSaysSomething(ctx, Sections(ctx, o), FilesAt(ctx, o) + k, f);
  }

  lemma FileIndexFits(ctx: Context, o: Opts, k: nat)
    requires k < |Files(ctx, o)|
    ensures FilesAt(ctx, o) + k < |Sections(ctx, o)| && Fits(Sections(ctx, o)[FilesAt(ctx, o) + k], KAuthored)
  {
    FileSectionFits(ctx, o, k, Files(ctx, o)[k]);
  }

  lemma FileFits(ctx: Context, o: Opts, i: nat)
    requires FilesAt(ctx, o) <= i < NotesAt(ctx, o)
    ensures i < |Sections(ctx, o)| && Fits(Sections(ctx, o)[i], KAuthored)
  {
    FilesSize(ctx, o);
    FileIndexFits(ctx, o, i - FilesAt(ctx, o));
  }

  lemma FilesSize(ctx: Context, o: Opts)
    ensures |Files(ctx, o)| == NotesAt(ctx, o) - FilesAt(ctx, o)
  {
    FilesInOrder(ctx, o);
  }

  lemma NoteFits(ctx: Context, o: Opts, i: nat)
    requires NotesAt(ctx, o) <= i < SectionCount(ctx, o)
    ensures i < |Sections(ctx, o)|
    ensures Sections(ctx, o)[i] ==
            if i == NotesAt(ctx, o) && ShowsScratch(ctx, o) then Part(KScratchNote, ctx.scratchNote, None)
            else Part(KHealth, ctx.healthNote(Files(ctx, o)), None)
  {
    NotesShown(ctx, o);
    GradedSize(ctx, o);
    if i == NotesAt(ctx, o) && ShowsScratch(ctx, o) { ScratchSection(ctx, o); } else { HealthSection(ctx, o); }
  }

  lemma SectionFits(ctx: Context, o: Opts, i: nat)
    requires i < SectionCount(ctx, o)
    ensures i < |Sections(ctx, o)| && Fits(Sections(ctx, o)[i], KindAt(ctx, o, i))
  {
    if i < FinalAt(ctx) {
      RemoteSection(ctx, o);
    } else if i <= TranscriptAt(ctx) {
      AnswerFits(ctx, o, i);
    } else if i < SkillsAt(ctx, o) {
      SubagentFits(ctx, o, i);
    } else if i < FilesAt(ctx, o) {
      SkillFits(ctx, o, i);
    } else if i < NotesAt(ctx, o) {
      FileFits(ctx, o, i);
    } else {
      NoteFits(ctx, o, i);
    }
  }

  lemma NoteSaysSomething(ctx: Context, o: Opts, i: nat)
    requires NotesAt(ctx, o) <= i < SectionCount(ctx, o)
    requires |ctx.scratchNote| > 0 && |ctx.healthNote(Files(ctx, o))| > 0
    ensures i < |Sections(ctx, o)| && |Sections(ctx, o)[i].text| > 0
  {
    NoteFits(ctx, o, i);
  }

  lemma LastSaysSomething(ctx: Context, o: Opts, i: nat)
    requires |ctx.scratchNote| > 0 && |ctx.healthNote(Files(ctx, o))| > 0 && i + 1 == SectionCount(ctx, o)
    ensures i < |Sections(ctx, o)| && |Sections(ctx, o)[i].text| > 0
  {
    if i >= NotesAt(ctx, o) { NoteSaysSomething(ctx, o, i); } else { SectionFits(ctx, o, i); }
  }

  /** THE OUTLINE. The fingerprint lists the note of the remote lane, the answer, the transcript, the sub-agents, the
      Skill answers, the files, and the notes on scratch and on gaps, in that order and each exactly as often as the run
      calls for; the cut can only shorten the list. */
  lemma OutlineInOrder(ctx: Context, o: Opts, c: Composed)
    requires Reports(ctx, o, c)
    ensures |c.fingerprint| <= SectionCount(ctx, o)
    ensures forall i :: 0 <= i < |c.fingerprint| ==> c.fingerprint[i].kind == KindAt(ctx, o, i)
    ensures c.overflowAt.None? && |ctx.scratchNote| > 0 && |ctx.healthNote(Files(ctx, o))| > 0 ==>
              |c.fingerprint| == SectionCount(ctx, o)
  {
    var parts := Sections(ctx, o);
    SectionTotal(ctx, o);
    forall i | 0 <= i < |c.fingerprint| ensures c.fingerprint[i].kind == KindAt(ctx, o, i) {
      SectionFits(ctx, o, i);
      assert c.fingerprint[i] == SectionOf(parts, Limit(parts), i);
    }
    if c.overflowAt.None? && |ctx.scratchNote| > 0 && |ctx.healthNote(Files(ctx, o))| > 0 {
      LastSaysSomething(ctx, o, |parts| - 1);
      ReportsLists(ctx, o, c);
      WholeIsListed(parts, c, |parts| - 1);
    }
  }

  /** A remote run is judged on its transcript and answers alone, and the judge is told so first. */
  lemma RemoteShowsNoFiles(ctx: Context, o: Opts, c: Composed, i: nat)
    requires Reports(ctx, o, c) && ctx.remote && i < |c.fingerprint|
    ensures c.fingerprint[i].kind !in {KSubagent, KAuthored, KScratchNote}
    ensures c.fingerprint[0].kind == KHealth && c.fingerprint[0].slice <= ctx.remoteNote(o.subagentText)
  {
    OutlineInOrder(ctx, o, c);
    RemoteShowsNoFile(ctx, o, |ctx.authored|);
    RemoteSection(ctx, o);
    assert c.fingerprint[0] == SectionOf(Sections(ctx, o), Limit(Sections(ctx, o)), 0);
  }
}
