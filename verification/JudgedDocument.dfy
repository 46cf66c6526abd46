/** The document a judge grades (src/assert.ts): which evidence is in scope, how Skill results are joined to their
    calls, how the document is composed, capped and fingerprinted. */
module JudgedDocument {
  import opened Decimal
  import opened Options

  const FINAL_CAP := 32 * 1024
  const TRANSCRIPT_CAP := 128 * 1024
  const DOC_CAP := 256 * 1024
  const SUBAGENT_CAP := 16 * 1024
  const SKILL_RESULT_CAP := 32768

  datatype AuthoredFile = AuthoredFile(path: string, content: string, truncated: bool)

  datatype Health = Health(omitted: seq<string>, unreadable: seq<string>, scratchpadSkipped: bool,
                           noPreRunManifest: bool)

  datatype Turn = Turn(isText: bool, text: string)

  datatype Subagent = Subagent(title: Option<string>, turns: seq<Turn>)

  datatype ToolCall = ToolCall(name: string, main: bool, parent: Option<string>, id: Option<string>,
                               skill: Option<string>)

  datatype ToolResult = ToolResult(id: Option<string>, text: Option<string>, truncated: bool)

  /** What a run left behind. `scrub` removes secrets, `matches` is the glob engine, `forked` and `background` recognise
      the two fork markers of a Skill result, the last five word what the judge is told: all arbitrary. */
  datatype Context = Context(
    remote: bool, finalMessage: string, transcript: string, subagents: seq<Subagent>,
    toolCalls: Option<seq<ToolCall>>, toolResults: Option<seq<ToolResult>>,
    authored: seq<AuthoredFile>, health: Option<Health>, userVisible: seq<string>,
    scrub: string -> string, matches: (seq<string>, string) -> bool,
    forked: string -> bool, background: string -> bool,
    remoteNote: bool -> string, healthNote: seq<AuthoredFile> -> string, scratchTag: string, scratchNote: string,
    cutNote: nat -> string)

  datatype Opts = Opts(evidenceFiles: Option<seq<string>>, subagentText: bool, forkResults: bool)

  // ---------------------------------------------------------------------------------------------
  // Scope.

  predicate Scoped(globs: Option<seq<string>>) { globs.Some? && globs.value != [] }

  predicate InScope(ctx: Context, globs: Option<seq<string>>, path: string) {
    !ctx.remote && (Scoped(globs) ==> ctx.matches(globs.value, path))
  }

  datatype Scope = Scope(files: seq<AuthoredFile>, omitted: seq<string>, unreadable: seq<string>, matchedAny: bool)

  function FilterPaths(paths: seq<string>, hit: string -> bool): (r: seq<string>)
    ensures forall p :: p in r <==> p in paths && hit(p)
  {
    if paths == [] then []
    else
      assert forall p :: p in paths <==> p == paths[0] || p in paths[1..];
      (if hit(paths[0]) then [paths[0]] else []) + FilterPaths(paths[1..], hit)
  }

  function FilterFiles(files: seq<AuthoredFile>, hit: string -> bool): (r: seq<AuthoredFile>)
    ensures forall f :: f in r <==> f in files && hit(f.path)
  {
    if files == [] then []
    else
      var front, last := files[..|files| - 1], files[|files| - 1];
      assert forall f :: f in files <==> f in front || f == last;
      FilterFiles(front, hit) + if hit(last.path) then [last] else []
  }

  function Omitted(ctx: Context): seq<string> {
    if ctx.health.Some? then ctx.health.value.omitted else []
  }

  function Unreadable(ctx: Context): seq<string> {
    if ctx.health.Some? then ctx.health.value.unreadable else []
  }

  /** One partition, used by the composer and by the refusal: each list holds exactly its in-scope paths. */
  function ScopeAuthoredEvidence(ctx: Context, globs: Option<seq<string>>): (r: Scope)
    ensures forall f :: f in r.files <==> f in ctx.authored && InScope(ctx, globs, f.path)
    ensures forall p :: p in r.omitted <==> p in Omitted(ctx) && InScope(ctx, globs, p)
    ensures forall p :: p in r.unreadable <==> p in Unreadable(ctx) && InScope(ctx, globs, p)
    ensures !ctx.remote && Scoped(globs) ==> (r.matchedAny <==> r.files != [] || r.omitted != [] || r.unreadable != [])
  {
    if ctx.remote then Scope([], [], [], true)
    else if !Scoped(globs) then Scope(ctx.authored, Omitted(ctx), Unreadable(ctx), true)
    else
      var hit := (p: string) => ctx.matches(globs.value, p);
      var files := FilterFiles(ctx.authored, hit);
      var omitted := FilterPaths(Omitted(ctx), hit);
      var unreadable := FilterPaths(Unreadable(ctx), hit);
      Scope(files, omitted, unreadable, |files| + |omitted| + |unreadable| > 0)
  }

  // ---------------------------------------------------------------------------------------------
  // Skill calls and their results.

  predicate TopLevelSkill(c: ToolCall) { c.name == "Skill" && c.main && c.parent == None }

  function SkillName(c: ToolCall): string {
    if c.skill.Some? && c.skill.value != "" then c.skill.value else "(unnamed skill)"
  }

  /** The first result that carries `id`. */
  function FirstResult(results: seq<ToolResult>, id: string): (r: Option<ToolResult>)
    ensures r.Some? ==> r.value in results && r.value.id == Some(id)
    ensures r.None? ==> forall x :: x in results ==> x.id != Some(id)
  {
    if results == [] then None
    else
      assert forall x :: x in results <==> x == results[0] || x in results[1..];
      if results[0].id == Some(id) then Some(results[0]) else FirstResult(results[1..], id)
  }

  function ResultOf(c: ToolCall, results: seq<ToolResult>): Option<ToolResult> {
    if c.id.Some? then FirstResult(results, c.id.value) else None
  }

  function ResultText(r: ToolResult): string { if r.text.Some? then r.text.value else "" }

  datatype Joined = Joined(skill: string, id: string, text: string, forked: bool, truncated: bool)

  datatype SkillJoin =
    SkillJoin(recorded: bool, joined: seq<Joined>, truncated: seq<string>, unpaired: seq<string>,
              background: seq<string>)

  const NOT_RECORDED := SkillJoin(false, [], [], [], [])

  /** The join of the first calls, one call at a time. */
  function JoinCalls(ctx: Context, calls: seq<ToolCall>, results: seq<ToolResult>): (r: SkillJoin)
    ensures r.recorded
  {
    if calls == [] then SkillJoin(true, [], [], [], [])
    else
      var j := JoinCalls(ctx, calls[..|calls| - 1], results);
      var c := calls[|calls| - 1];
      var r := ResultOf(c, results);
      if !TopLevelSkill(c) then j
      else if r.None? then j.(unpaired := j.unpaired + [SkillName(c)])
      else
        var text := ResultText(r.value);
        j.(truncated := j.truncated + (if r.value.truncated then [SkillName(c)] else []),
           background := j.background + (if ctx.background(text) then [SkillName(c)] else []),
           joined := j.joined + [Joined(SkillName(c), c.id.value, text, ctx.forked(text), r.value.truncated)])
  }

  function JoinOf(ctx: Context): SkillJoin {
    if ctx.toolCalls.None? || ctx.toolResults.None? then NOT_RECORDED
    else JoinCalls(ctx, ctx.toolCalls.value, ctx.toolResults.value)
  }

  /** The index `byId` holds the first result of every id. */
  method JoinSkillResults(ctx: Context) returns (j: SkillJoin)
    ensures j == JoinOf(ctx)
  {
    if ctx.toolCalls.None? || ctx.toolResults.None? { return NOT_RECORDED; }
    var calls, results := ctx.toolCalls.value, ctx.toolResults.value;
    var byId: map<string, ToolResult> := map[];
    for i := 0 to |results|
      invariant forall id :: (id in byId) == FirstResult(results[..i], id).Some?
      invariant forall id :: id in byId ==> FirstResult(results[..i], id) == Some(byId[id])
    {
      var r := results[i];
      forall id { FirstResultOfMore(results[..i], r, id); }
      assert results[..i] + [r] == results[..i + 1];
      if r.id.Some? && r.id.value !in byId { byId := byId[r.id.value := r]; }
    }
    assert results[..|results|] == results;
    j := SkillJoin(true, [], [], [], []);
    for i := 0 to |calls|
      invariant j == JoinCalls(ctx, calls[..i], results)
    {
      var c := calls[i];
      assert calls[..i + 1][..i] == calls[..i];
      if !TopLevelSkill(c) { continue; }
      if c.id.None? || c.id.value !in byId {
        j := j.(unpaired := j.unpaired + [SkillName(c)]);
        continue;
      }
      var r := byId[c.id.value];
      var text := ResultText(r);
      if r.truncated { j := j.(truncated := j.truncated + [SkillName(c)]); }
      if ctx.background(text) { j := j.(background := j.background + [SkillName(c)]); }
      j := j.(joined := j.joined + [Joined(SkillName(c), c.id.value, text, ctx.forked(text), r.truncated)]);
    }
    assert calls[..|calls|] == calls;
  }

  lemma {:induction false} FirstResultOfMore(results: seq<ToolResult>, r: ToolResult, id: string)
    ensures FirstResult(results + [r], id) ==
            if FirstResult(results, id).Some? then FirstResult(results, id)
            else if r.id == Some(id) then Some(r) else None
  {
    if results != [] {
      assert (results + [r])[1..] == results[1..] + [r];
      FirstResultOfMore(results[1..], r, id);
    }
  }

  /** The answer of call `c` is whole: it came back, in the foreground, uncut. */
  predicate Answered(ctx: Context, c: ToolCall, results: seq<ToolResult>) {
    var r := ResultOf(c, results);
    r.Some? && !r.value.truncated && !ctx.background(ResultText(r.value))
  }

  ghost predicate HasAnswer(joined: seq<Joined>, c: ToolCall, results: seq<ToolResult>) {
    var r := ResultOf(c, results);
    r.Some? && exists k :: 0 <= k < |joined| && joined[k].id == c.id.value && joined[k].text == ResultText(r.value)
                           && joined[k].skill == SkillName(c) && joined[k].truncated == r.value.truncated
  }

  lemma HasAnswerOfMore(joined: seq<Joined>, x: Joined, c: ToolCall, results: seq<ToolResult>)
    requires HasAnswer(joined, c, results)
    ensures HasAnswer(joined + [x], c, results)
  {
    var r := ResultOf(c, results);
    var k :| 0 <= k < |joined| && joined[k].id == c.id.value && joined[k].text == ResultText(r.value)
             && joined[k].skill == SkillName(c) && joined[k].truncated == r.value.truncated;
    assert (joined + [x])[k] == joined[k];
  }

  /** The three gap lists are empty exactly when every top-level Skill call was answered whole, and then every one of
      them is in the join, with the first result that carries its own id. */
  lemma {:induction false} JoinIsComplete(ctx: Context, calls: seq<ToolCall>, results: seq<ToolResult>)
    ensures var j := JoinCalls(ctx, calls, results);
            && (j.unpaired == [] && j.background == [] && j.truncated == [] <==>
                forall c :: c in calls && TopLevelSkill(c) ==> Answered(ctx, c, results))
            && (forall c :: c in calls && TopLevelSkill(c) && ResultOf(c, results).Some? ==>
                 HasAnswer(j.joined, c, results))
  {
    if calls != [] {
      var front, last := calls[..|calls| - 1], calls[|calls| - 1];
      JoinIsComplete(ctx, front, results);
      assert forall c :: c in calls <==> c in front || c == last;
      var j0, j := JoinCalls(ctx, front, results), JoinCalls(ctx, calls, results);
      var r := ResultOf(last, results);
      if TopLevelSkill(last) && r.Some? {
        var x := j.joined[|j.joined| - 1];
        assert j.joined == j0.joined + [x];
        forall c | c in front && TopLevelSkill(c) && ResultOf(c, results).Some?
          ensures HasAnswer(j.joined, c, results)
        {
          HasAnswerOfMore(j0.joined, x, c, results);
        }
        assert j.joined[|j0.joined|] == x;
      }
    }
  }

  /** Every joined section comes from a top-level call and carries that call's own result. */
  lemma {:induction false} JoinIsSound(ctx: Context, calls: seq<ToolCall>, results: seq<ToolResult>, k: nat)
    requires k < |JoinCalls(ctx, calls, results).joined|
    ensures var x := JoinCalls(ctx, calls, results).joined[k];
            exists c :: c in calls && TopLevelSkill(c) && c.id == Some(x.id) && x.skill == SkillName(c) &&
              ResultOf(c, results).Some? && x.text == ResultText(ResultOf(c, results).value)
  {
    var front, last := calls[..|calls| - 1], calls[|calls| - 1];
    if k < |JoinCalls(ctx, front, results).joined| {
      JoinIsSound(ctx, front, results, k);
    } else {
      assert last in calls;
    }
  }

  // ---------------------------------------------------------------------------------------------
  // Text: joining with blank lines, and capping.

  function Join(parts: seq<string>): string {
    if parts == [] then ""
    else if |parts| == 1 then parts[0]
    else Join(parts[..|parts| - 1]) + "\n\n" + parts[|parts| - 1]
  }

  /** Where part i begins in the joined text. */
  function Start(parts: seq<string>, i: nat): nat
    requires i <= |parts|
  {
    if i == 0 then 0 else Start(parts, i - 1) + |parts[i - 1]| + 2
  }

  function End(parts: seq<string>, i: nat): nat
    requires i < |parts|
  {
    Start(parts, i) + |parts[i]|
  }

  lemma {:induction false} StartOfPrefix(parts: seq<string>, n: nat, i: nat)
    requires i <= n <= |parts|
    ensures Start(parts[..n], i) == Start(parts, i)
  {
    if i > 0 { StartOfPrefix(parts, n, i - 1); }
  }

  lemma {:induction false} StartGrows(parts: seq<string>, i: nat, j: nat)
    requires i < j <= |parts|
    ensures Start(parts, i) + |parts[i]| + 2 <= Start(parts, j)
  {
    if i < j - 1 { StartGrows(parts, i, j - 1); }
  }

  lemma {:induction false} JoinLength(parts: seq<string>)
    requires parts != []
    ensures |Join(parts)| == End(parts, |parts| - 1)
  {
    if |parts| > 1 {
      var front := parts[..|parts| - 1];
      JoinLength(front);
      StartOfPrefix(parts, |parts| - 1, |parts| - 2);
    }
  }

  lemma {:induction false} JoinPrefix(parts: seq<string>, n: nat)
    requires 0 < n <= |parts|
    ensures |Join(parts[..n])| == End(parts, n - 1) <= |Join(parts)|
    ensures Join(parts)[..End(parts, n - 1)] == Join(parts[..n])
    decreases |parts|
  {
    JoinLength(parts[..n]);
    StartOfPrefix(parts, n, n - 1);
    if n == |parts| {
      assert parts[..n] == parts;
    } else {
      var front := parts[..|parts| - 1];
      JoinPrefix(front, n);
      assert front[..n] == parts[..n];
      StartOfPrefix(parts, |parts| - 1, n - 1);
    }
  }

  /** Part i stands whole at its offset of the joined text. */
  lemma PartAt(parts: seq<string>, i: nat)
    requires i < |parts|
    ensures End(parts, i) <= |Join(parts)|
    ensures Join(parts)[Start(parts, i)..End(parts, i)] == parts[i]
  {
    JoinPrefix(parts, i + 1);
    var upTo := parts[..i + 1];
    if i > 0 {
      JoinPrefix(parts, i);
      assert upTo[..i] == parts[..i];
    }
    assert Join(upTo)[Start(parts, i)..] == parts[i];
  }

  /** Words the cut of the whole document. */
  function CutMarker(n: nat): string {
    "\n[" + Digits(n) + " chars truncated]"
  }

  function CapForJudge(text: string, cap: nat, cutNote: nat -> string): (r: string)
    ensures text[..if |text| <= cap then |text| else cap] <= r
    ensures |text| <= cap ==> r == text
  {
    if |text| <= cap then text else text[..cap] + cutNote(|text| - cap)
  }

  // ---------------------------------------------------------------------------------------------
  // The sections of a document, in order.

  datatype Kind = KHealth | KFinal | KTranscript | KSubagent | KSkillResult | KAuthored | KScratchNote

  /** An entry of `parts` with its index-aligned entry of `kinds`. */
  datatype Part = Part(kind: Kind, text: string, path: Option<string>)

  function Texts(parts: seq<Part>): (r: seq<string>)
    ensures |r| == |parts|
    ensures forall i :: 0 <= i < |parts| ==> r[i] == parts[i].text
  {
    seq(|parts|, i requires 0 <= i < |parts| => parts[i].text)
  }

  function Headed(heading: string, text: string, cap: nat, cutNote: nat -> string): string {
    heading + "\n" + CapForJudge(text, cap, cutNote)
  }

  function RemoteNote(ctx: Context, o: Opts): seq<Part> {
    if ctx.remote then [Part(KHealth, ctx.remoteNote(o.subagentText), None)] else []
  }

  function Answer(ctx: Context): seq<Part> {
    (if ctx.finalMessage != "" then
       [Part(KFinal, Headed("## Final answer", ctx.scrub(ctx.finalMessage), FINAL_CAP, ctx.cutNote), None)]
     else [])
    + [Part(KTranscript, Headed("## Transcript", ctx.scrub(ctx.transcript), TRANSCRIPT_CAP, ctx.cutNote), None)]
  }

  function SpokenTurns(turns: seq<Turn>): seq<string> {
    if turns == [] then []
    else
      var last := turns[|turns| - 1];
      SpokenTurns(turns[..|turns| - 1]) + (if last.isText && last.text != "" then [last.text] else [])
  }

  function SubagentSection(ctx: Context, i: nat, text: string): Part
    requires i < |ctx.subagents|
  {
    var sa := ctx.subagents[i];
    var title := if sa.title.Some? then sa.title.value else "#" + Digits(i + 1);
    Part(KSubagent, Headed("## Sub-agent output: " + ctx.scrub(title), ctx.scrub(text), SUBAGENT_CAP, ctx.cutNote),
         None)
  }

  function SubagentPart(ctx: Context, i: nat): seq<Part>
    requires i < |ctx.subagents|
  {
    var text := Join(SpokenTurns(ctx.subagents[i].turns));
    if text == "" then [] else [SubagentSection(ctx, i, text)]
  }

  /** The sections of the first n sub-agents. */
  function SubagentParts(ctx: Context, n: nat): seq<Part>
    requires n <= |ctx.subagents|
  {
    if n == 0 then [] else SubagentParts(ctx, n - 1) + SubagentPart(ctx, n - 1)
  }

  function Subagents(ctx: Context, o: Opts): seq<Part> {
    if o.subagentText && !ctx.remote then SubagentParts(ctx, |ctx.subagents|) else []
  }

  function SkillPart(ctx: Context, j: Joined): Part {
    Part(KSkillResult,
         Headed((if j.forked then "## Fork skill result: " else "## Skill result: ") + ctx.scrub(j.skill)
                + (if j.truncated then " (truncated)" else ""),
                ctx.scrub(j.text), SKILL_RESULT_CAP, ctx.cutNote),
         None)
  }

  function SkillParts(ctx: Context, joined: seq<Joined>): (r: seq<Part>)
    ensures |r| == |joined|
    ensures forall i :: 0 <= i < |joined| ==> r[i] == SkillPart(ctx, joined[i])
  {
    seq(|joined|, i requires 0 <= i < |joined| => SkillPart(ctx, joined[i]))
  }

  function Skills(ctx: Context, o: Opts): seq<Joined> { if o.forkResults then JoinOf(ctx).joined else [] }

  predicate ScratchIsUserVisible(ctx: Context) { "scratchpad" in ctx.userVisible || "scratchpad/" in ctx.userVisible }

  predicate IsScratch(ctx: Context, f: AuthoredFile) { !ScratchIsUserVisible(ctx) && "scratchpad/" <= f.path }

  function FilePart(ctx: Context, f: AuthoredFile): Part {
    Part(KAuthored,
         "## Authored file: " + ctx.scrub(f.path)
         + (if IsScratch(ctx, f) then ctx.scratchTag else "")
         + (if f.truncated then " (truncated)" else "") + "\n" + ctx.scrub(f.content),
         Some(f.path))
  }

  function FileParts(ctx: Context, files: seq<AuthoredFile>): (r: seq<Part>)
    ensures |r| == |files|
    ensures forall i :: 0 <= i < |files| ==> r[i] == FilePart(ctx, files[i])
  {
    seq(|files|, i requires 0 <= i < |files| => FilePart(ctx, files[i]))
  }

  function ScratchNote(ctx: Context, files: seq<AuthoredFile>): seq<Part> {
    if exists f :: f in files && IsScratch(ctx, f) then [Part(KScratchNote, ctx.scratchNote, None)] else []
  }

  /** The capture is known to be incomplete, or a shown file is only a prefix. */
  predicate Incomplete(ctx: Context, files: seq<AuthoredFile>) {
    || (!ctx.remote && ctx.health.Some?
        && (ctx.health.value.omitted != [] || ctx.health.value.unreadable != []
            || ctx.health.value.scratchpadSkipped || ctx.health.value.noPreRunManifest))
    || exists f :: f in files && f.truncated
  }

  function HealthNote(ctx: Context, files: seq<AuthoredFile>): seq<Part> {
    if Incomplete(ctx, files) then [Part(KHealth, ctx.healthNote(files), None)] else []
  }

  /** Everything before the Skill results. */
  function Lead(ctx: Context, o: Opts): seq<Part> { RemoteNote(ctx, o) + Answer(ctx) + Subagents(ctx, o) }

  function Files(ctx: Context, o: Opts): seq<AuthoredFile> { ScopeAuthoredEvidence(ctx, o.evidenceFiles).files }

  /** Everything a judge is asked to grade. */
  function Graded(ctx: Context, o: Opts): seq<Part> {
    Lead(ctx, o) + SkillParts(ctx, Skills(ctx, o)) + FileParts(ctx, Files(ctx, o)) + ScratchNote(ctx, Files(ctx, o))
  }

  function Sections(ctx: Context, o: Opts): seq<Part> { Graded(ctx, o) + HealthNote(ctx, Files(ctx, o)) }

  // ---------------------------------------------------------------------------------------------
  // What survives the aggregate cap.

  function Doc(parts: seq<Part>): string { Join(Texts(parts)) }

  function Sent(parts: seq<Part>): string { CapForJudge(Doc(parts), DOC_CAP, CutMarker) }

  /** The length of the surviving prefix. */
  function Limit(parts: seq<Part>): nat { if |Doc(parts)| <= DOC_CAP then |Doc(parts)| else DOC_CAP }

  /** Part i lies whole before the cut. */
  predicate Survives(parts: seq<Part>, i: nat)
    requires i < |parts|
  {
    End(Texts(parts), i) <= DOC_CAP
  }

  predicate ShownAt(doc: string, text: string, p: nat) { p + |text| <= |doc| && doc[p..p + |text|] == text }

  /** The text occurs whole in the document. */
  ghost predicate Shown(doc: string, text: string) { exists p: nat :: ShownAt(doc, text, p) }

  lemma SurvivesWhole(parts: seq<Part>, i: nat)
    requires i < |parts| && Survives(parts, i)
    ensures End(Texts(parts), i) <= |Sent(parts)|
    ensures Sent(parts)[Start(Texts(parts), i)..End(Texts(parts), i)] == parts[i].text
  {
    PartAt(Texts(parts), i);
    var doc, sent, end := Doc(parts), Sent(parts), End(Texts(parts), i);
    assert doc[..Limit(parts)] <= sent;
    assert sent[..end] == doc[..end];
    assert sent[Start(Texts(parts), i)..end] == sent[..end][Start(Texts(parts), i)..];
    assert doc[Start(Texts(parts), i)..end] == doc[..end][Start(Texts(parts), i)..];
  }

  lemma SurvivesShown(parts: seq<Part>, i: nat, text: string)
    requires i < |parts| && Survives(parts, i)
    requires |text| <= |parts[i].text| && parts[i].text[|parts[i].text| - |text|..] == text
    ensures Shown(Sent(parts), text)
  {
    SurvivesWhole(parts, i);
    var sent, start, end := Sent(parts), Start(Texts(parts), i), End(Texts(parts), i);
    var p := end - |text|;
    assert sent[p..p + |text|] == sent[start..end][p - start..];
    assert ShownAt(sent, text, p);
  }

  /** An earlier part survives whenever a later one does. */
  lemma SurvivalIsDownward(parts: seq<Part>, i: nat, j: nat)
    requires i <= j < |parts| && Survives(parts, j)
    ensures Survives(parts, i)
  {
    if i < j { StartGrows(Texts(parts), i, j); }
  }

  /** `lenUpTo(n)` of the source measures exactly the survival of part n - 1. */
  function LenUpTo(parts: seq<Part>, n: nat): nat
    requires n <= |parts|
  {
    |Join(Texts(parts)[..n])|
  }

  lemma LenUpToIsEnd(parts: seq<Part>, n: nat)
    requires 0 < n <= |parts|
    ensures LenUpTo(parts, n) == End(Texts(parts), n - 1) <= |Doc(parts)|
  {
    JoinPrefix(Texts(parts), n);
  }

  // ---------------------------------------------------------------------------------------------
  // The fingerprint. A section's hash is represented by the slice that is hashed.

  datatype Section = Section(kind: Kind, path: Option<string>, slice: string)

  function Min(a: int, b: int): int { if a <= b then a else b }

  function StartOf(parts: seq<Part>, i: nat): nat
    requires i <= |parts|
  {
    Start(Texts(parts), i)
  }

  /** Part i up to the cut. */
  function SurvivingText(parts: seq<Part>, limit: nat, i: nat): string
    requires i < |parts| && StartOf(parts, i) < limit
  {
    parts[i].text[..Min(|parts[i].text|, limit - StartOf(parts, i))]
  }

  function SectionOf(parts: seq<Part>, limit: nat, i: nat): Section
    requires i < |parts| && StartOf(parts, i) < limit
  {
    Section(parts[i].kind, parts[i].path, SurvivingText(parts, limit, i))
  }

  /** Section i is part i up to the cut, and a part that begins at or past the cut has no section. */
  ghost predicate Fingerprints(parts: seq<Part>, limit: nat, sections: seq<Section>) {
    && |sections| <= |parts|
    && (forall i :: 0 <= i < |parts| ==> (i < |sections| <==> StartOf(parts, i) < limit))
    && (forall i :: 0 <= i < |sections| ==> sections[i] == SectionOf(parts, limit, i))
  }

  lemma SentSlice(parts: seq<Part>, limit: nat, i: nat)
    requires limit == Limit(parts) && i < |parts| && StartOf(parts, i) < limit
    ensures limit <= |Sent(parts)|
    ensures Sent(parts)[StartOf(parts, i)..Min(StartOf(parts, i) + |parts[i].text|, limit)] ==
              SurvivingText(parts, limit, i)
  {
    var start, sent, doc := StartOf(parts, i), Sent(parts), Doc(parts);
    var end := Min(start + |parts[i].text|, limit);
    PartAt(Texts(parts), i);
    assert doc[..limit] <= sent;
    SliceOfSlices(doc, sent, limit, start, end, start + |parts[i].text|);
  }

  lemma SliceOfSlices(doc: string, sent: string, limit: nat, start: nat, end: nat, partEnd: nat)
    requires limit <= |doc| && doc[..limit] <= sent && start <= end <= limit && end <= partEnd <= |doc|
    ensures sent[start..end] == doc[start..partEnd][..end - start]
  {
    assert sent[..limit] == doc[..limit];
    assert sent[start..end] == sent[..limit][start..end];
  }

  lemma SentLimit(parts: seq<Part>)
    ensures Min(|Sent(parts)|, DOC_CAP) == Limit(parts)
  {
    assert Doc(parts)[..Limit(parts)] <= Sent(parts);
  }

  lemma StartsPast(parts: seq<Part>, i: nat, k: nat, limit: nat)
    requires i <= k < |parts| && StartOf(parts, i) >= limit
    ensures StartOf(parts, k) >= limit
  {
    if i < k { StartGrows(Texts(parts), i, k); }
  }

  method FingerprintJudgedDoc(sent: string, parts: seq<Part>) returns (sections: seq<Section>)
    requires sent == Sent(parts)
    ensures Fingerprints(parts, Limit(parts), sections)
  {
    var limit := Min(|sent|, DOC_CAP);
    SentLimit(parts);
    sections := [];
    var off, i := 0, 0;
    while i < |parts| && off < limit
      invariant 0 <= i <= |parts| && i == |sections|
      invariant off == StartOf(parts, i)
      invariant forall k :: 0 <= k < i ==> StartOf(parts, k) < limit && sections[k] == SectionOf(parts, limit, k)
    {
      SentSlice(parts, limit, i);
      var slice := sent[off..Min(off + |parts[i].text|, limit)];
      sections := sections + [Section(parts[i].kind, parts[i].path, slice)];
      off := off + |parts[i].text| + 2;
      i := i + 1;
    }
    forall k | i <= k < |parts| ensures StartOf(parts, k) >= limit { StartsPast(parts, i, k, limit); }
  }

  /** A section that says something is fingerprinted whole exactly when it survives the cap whole. */
  lemma SurvivorsAreFingerprintedWhole(parts: seq<Part>, sections: seq<Section>, i: nat)
    requires Fingerprints(parts, Limit(parts), sections) && i < |parts| && parts[i].text != ""
    ensures Survives(parts, i) <==> i < |sections| && sections[i].slice == parts[i].text
  {
    PartAt(Texts(parts), i);
    assert StartOf(parts, i) + |parts[i].text| <= |Doc(parts)|;
  }

  function Slices(sections: seq<Section>): (r: seq<string>)
    ensures |r| == |sections|
    ensures forall i :: 0 <= i < |sections| ==> r[i] == sections[i].slice
  {
    seq(|sections|, i requires 0 <= i < |sections| => sections[i].slice)
  }

  /** Slice i is text i up to the cut at `limit`. */
  predicate IsSlice(texts: seq<string>, slices: seq<string>, limit: nat, i: nat) {
    && i < |texts| && i < |slices| && Start(texts, i) < limit
    && slices[i] == texts[i][..Min(|texts[i]|, limit - Start(texts, i))]
  }

  /** `joined` is doc[..limit], short of a separator the limit cut at most. */
  predicate Tiles(doc: string, joined: string, limit: nat) {
    limit <= |doc| && joined <= doc[..limit] && doc[..limit][|joined|..] <= "\n\n"
  }

  /** The sections, joined as the parts were, tile the surviving prefix; only a separator can stick out at its end. */
  lemma SectionsTile(parts: seq<Part>, limit: nat, sections: seq<Section>)
    requires limit <= |Doc(parts)| && Fingerprints(parts, limit, sections)
    ensures Tiles(Doc(parts), Join(Slices(sections)), limit)
  {
    var texts, slices := Texts(parts), Slices(sections);
    forall i | 0 <= i < |slices| ensures IsSlice(texts, slices, limit, i) {
      assert sections[i] == SectionOf(parts, limit, i);
    }
    if |slices| < |texts| { assert StartOf(parts, |slices|) >= limit; }
    SlicesTile(texts, slices, limit);
  }

  lemma SlicesTile(texts: seq<string>, slices: seq<string>, limit: nat)
    requires limit <= |Join(texts)| && |slices| <= |texts|
    requires forall i :: 0 <= i < |slices| ==> IsSlice(texts, slices, limit, i)
    requires |slices| < |texts| ==> limit <= Start(texts, |slices|)
    ensures Tiles(Join(texts), Join(slices), limit)
  {
    var m := |slices|;
    if m == 0 {
      assert |texts| > 0 ==> Start(texts, 0) == 0;
    } else {
      OnlyLastCut(texts, slices, limit);
      LastSliceTiles(texts, slices, limit);
    }
  }

  lemma LastSliceTiles(texts: seq<string>, slices: seq<string>, limit: nat)
    requires limit <= |Join(texts)| && 0 < |slices| <= |texts| && IsSlice(texts, slices, limit, |slices| - 1)
    requires slices[..|slices| - 1] == texts[..|slices| - 1]
    requires |slices| < |texts| ==> limit <= Start(texts, |slices|)
    ensures Tiles(Join(texts), Join(slices), limit)
  {
    var m := |slices|;
    var cut := |slices[m - 1]|;
    SliceLength(texts, slices, limit, m - 1);
    assert Join(slices) == Join(texts)[..Start(texts, m - 1) + cut] by { JoinedCut(texts, slices, cut); }
    TailIsSeparator(texts, m, cut, limit);
  }

  lemma SliceLength(texts: seq<string>, slices: seq<string>, limit: nat, i: nat)
    requires IsSlice(texts, slices, limit, i)
    ensures |slices[i]| == Min(|texts[i]|, limit - Start(texts, i)) <= |texts[i]|
    ensures slices[i] == texts[i][..|slices[i]|]
  {
  }

  /** Only the last section can be cut. */
  lemma OnlyLastCut(texts: seq<string>, slices: seq<string>, limit: nat)
    requires 0 < |slices| <= |texts|
    requires forall i :: 0 <= i < |slices| ==> IsSlice(texts, slices, limit, i)
    ensures slices[..|slices| - 1] == texts[..|slices| - 1] && IsSlice(texts, slices, limit, |slices| - 1)
  {
    assert IsSlice(texts, slices, limit, |slices| - 1);
    forall i | 0 <= i < |slices| - 1 ensures slices[i] == texts[i] {
      assert IsSlice(texts, slices, limit, i);
      StartGrows(texts, i, |slices| - 1);
    }
  }

  lemma TailIsSeparator(texts: seq<string>, m: nat, cut: nat, limit: nat)
    requires 0 < m <= |texts| && limit <= |Join(texts)| && Start(texts, m - 1) < limit
    requires cut == Min(|texts[m - 1]|, limit - Start(texts, m - 1))
    requires m < |texts| ==> limit <= Start(texts, m)
    ensures Start(texts, m - 1) + cut <= |Join(texts)|
    ensures Tiles(Join(texts), Join(texts)[..Start(texts, m - 1) + cut], limit)
  {
    if m < |texts| { SeparatorAt(texts, m); } else { JoinLength(texts); }
    SeparatorSticksOut(Join(texts), Start(texts, m - 1), |texts[m - 1]|, cut, limit, m < |texts|);
  }

  lemma SliceOfTake(doc: string, from: nat, limit: nat)
    requires from <= limit <= |doc|
    ensures doc[..limit][from..] == doc[from..limit]
  {
  }

  lemma SliceTwice(doc: string, from: nat, mid: nat, to: nat)
    requires from <= mid <= to <= |doc|
    ensures doc[from..to][..mid - from] == doc[from..mid]
  {
  }

  lemma SeparatorSticksOut(doc: string, start: nat, size: nat, cut: nat, limit: nat, more: bool)
    requires start < limit <= |doc| && cut == Min(size, limit - start)
    requires more ==> limit <= start + size + 2 <= |doc| && doc[start + size..start + size + 2] == "\n\n"
    requires !more ==> start + size == |doc|
    ensures Tiles(doc, doc[..start + cut], limit)
  {
    var len := start + cut;
    if len < limit {
      SliceOfTake(doc, len, limit);
      SliceTwice(doc, len, limit, len + 2);
    } else {
      assert doc[..limit][len..] == "";
    }
  }

  /** Everything before part i of the joined text. */
  function Before(texts: seq<string>, i: nat): string
    requires i < |texts|
  {
    if i == 0 then "" else Join(texts[..i]) + "\n\n"
  }

  lemma JoinLast(parts: seq<string>)
    requires |parts| > 1
    ensures Join(parts) == Join(parts[..|parts| - 1]) + "\n\n" + parts[|parts| - 1]
  {
  }

  lemma JoinBefore(texts: seq<string>, i: nat)
    requires i < |texts|
    ensures |Before(texts, i)| == Start(texts, i)
    ensures Join(texts[..i + 1]) == Before(texts, i) + texts[i]
  {
    if i == 0 {
      assert texts[..1] == [texts[0]];
    } else {
      JoinLast(texts[..i + 1]);
      TakeTwice(texts, i);
      JoinPrefix(texts, i);
    }
  }

  lemma TakeTwice(texts: seq<string>, i: nat)
    requires i < |texts|
    ensures texts[..i + 1][..i] == texts[..i] && texts[..i + 1][i] == texts[i]
  {
  }

  lemma JoinOfSlices(texts: seq<string>, slices: seq<string>)
    requires 0 < |slices| <= |texts| && slices[..|slices| - 1] == texts[..|slices| - 1]
    ensures Join(slices) == Before(texts, |slices| - 1) + slices[|slices| - 1]
  {
    JoinBefore(slices, |slices| - 1);
    assert slices[..|slices|] == slices;
  }

  lemma BeforeIsPrefix(texts: seq<string>, i: nat)
    requires i < |texts|
    ensures |Before(texts, i)| == Start(texts, i) && Before(texts, i) + texts[i] <= Join(texts)
  {
    JoinPrefix(texts, i + 1);
    JoinBefore(texts, i);
  }

  lemma JoinedCut(texts: seq<string>, slices: seq<string>, cut: nat)
    requires 0 < |slices| <= |texts| && cut <= |texts[|slices| - 1]|
    requires slices[..|slices| - 1] == texts[..|slices| - 1]
    requires slices[|slices| - 1] == texts[|slices| - 1][..cut]
    ensures Start(texts, |slices| - 1) + cut <= |Join(texts)|
    ensures Join(slices) == Join(texts)[..Start(texts, |slices| - 1) + cut]
  {
    var i := |slices| - 1;
    BeforeIsPrefix(texts, i);
    JoinOfSlices(texts, slices);
    PrefixCut(Join(texts), Before(texts, i), texts[i], cut);
  }

  lemma PrefixCut(doc: string, before: string, text: string, cut: nat)
    requires before + text <= doc && cut <= |text|
    ensures before + text[..cut] == doc[..|before| + cut]
  {
    assert doc[..|before| + |text|] == before + text;
    assert doc[..|before| + cut] == (before + text)[..|before| + cut];
  }

  lemma SeparatorAt(texts: seq<string>, m: nat)
    requires 0 < m < |texts|
    ensures Start(texts, m) <= |Join(texts)|
    ensures Join(texts)[End(texts, m - 1)..Start(texts, m)] == "\n\n"
  {
    JoinPrefix(texts, m);
    BeforeIsPrefix(texts, m);
    MiddleOfPrefix(Join(texts), Join(texts[..m]), "\n\n");
  }

  lemma MiddleOfPrefix(doc: string, head: string, middle: string)
    requires head + middle <= doc
    ensures doc[|head|..|head| + |middle|] == middle
  {
    assert doc[..|head| + |middle|] == head + middle;
    assert doc[|head|..|head| + |middle|] == doc[..|head| + |middle|][|head|..];
  }

  // ---------------------------------------------------------------------------------------------
  // Composing.

  datatype Composed = Composed(
    doc: string, evidenceCut: bool, healthNoteCut: bool, overflowAt: Option<nat>, skillResultsCut: set<string>,
    fingerprint: seq<Section>)

  /** Some section among the first n does not survive the cap whole. */
  ghost predicate CutBefore(parts: seq<Part>, n: nat)
    requires n <= |parts|
  {
    exists i :: 0 <= i < n && !Survives(parts, i)
  }

  lemma LenUpToDecides(parts: seq<Part>, n: nat)
    requires 0 < n <= |parts|
    ensures LenUpTo(parts, n) > DOC_CAP <==> CutBefore(parts, n)
    ensures CutBefore(parts, n) <==> !Survives(parts, n - 1)
  {
    LenUpToIsEnd(parts, n);
    if Survives(parts, n - 1) {
      forall i | 0 <= i < n ensures Survives(parts, i) { SurvivalIsDownward(parts, i, n - 1); }
    }
  }

  lemma Overflow(parts: seq<Part>)
    requires parts != []
    ensures |Doc(parts)| > DOC_CAP <==> !Survives(parts, |parts| - 1)
  {
    LenUpToIsEnd(parts, |parts|);
    assert Texts(parts)[..|parts|] == Texts(parts);
  }

  /** A Skill section is cut when the aggregate cap reaches it, or when scrubbing made its text too long. */
  predicate SkillCut(ctx: Context, parts: seq<Part>, joined: seq<Joined>, first: nat, k: nat)
    requires k < |joined| && first + |joined| <= |parts|
  {
    |ctx.scrub(joined[k].text)| > SKILL_RESULT_CAP || !Survives(parts, first + k)
  }

  /** What the bookkeeping of a document with these sections says: exactly which evidence the cap reached. `graded` is
      the number of sections up to the end of the authored evidence, `first` the index of the first Skill section. */
  ghost predicate ReportsOn(ctx: Context, parts: seq<Part>, graded: nat, anyFile: bool, joined: seq<Joined>, first: nat,
                            c: Composed)
    requires graded <= |parts| && first + |joined| <= |parts| && parts != []
  {
    && c.doc == Sent(parts)
    && (c.evidenceCut <==> anyFile && CutBefore(parts, graded))
    && (c.healthNoteCut <==> !c.evidenceCut && graded < |parts| && !Survives(parts, |parts| - 1))
    && (c.overflowAt.None? <==> !CutBefore(parts, |parts|))
    && (c.overflowAt.Some? ==>
          c.overflowAt.value < |parts| && !Survives(parts, c.overflowAt.value) && !CutBefore(parts, c.overflowAt.value))
    && (forall n :: n in c.skillResultsCut <==>
          exists k :: 0 <= k < |joined| && joined[k].skill == n && SkillCut(ctx, parts, joined, first, k))
    && Fingerprints(parts, Limit(parts), c.fingerprint)
  }

  ghost predicate Reports(ctx: Context, o: Opts, c: Composed) {
    ReportsOn(ctx, Sections(ctx, o), |Graded(ctx, o)|, Files(ctx, o) != [], Skills(ctx, o), |Lead(ctx, o)|, c)
  }

  method PushSubagents(ctx: Context, parts: seq<Part>) returns (r: seq<Part>)
    ensures r == parts + SubagentParts(ctx, |ctx.subagents|)
  {
    r := parts;
    NoSubagent(ctx, parts);
    for i := 0 to |ctx.subagents|
      invariant r == parts + SubagentParts(ctx, i)
    {
      r := PushSubagent(ctx, parts, i, r);
    }
  }

  lemma NoSubagent(ctx: Context, parts: seq<Part>)
    ensures parts == parts + SubagentParts(ctx, 0)
  {
  }

  lemma NextSubagent(ctx: Context, parts: seq<Part>, i: nat)
    requires i < |ctx.subagents|
    ensures parts + SubagentParts(ctx, i) + SubagentPart(ctx, i) == parts + SubagentParts(ctx, i + 1)
  {
    Regroup(parts, SubagentParts(ctx, i), SubagentPart(ctx, i));
  }

  lemma Regroup(a: seq<Part>, b: seq<Part>, c: seq<Part>)
    ensures a + b + c == a + (b + c)
  {
  }

  method PushSubagent(ctx: Context, ghost parts: seq<Part>, i: nat, soFar: seq<Part>) returns (r: seq<Part>)
    requires i < |ctx.subagents| && soFar == parts + SubagentParts(ctx, i)
    ensures r == parts + SubagentParts(ctx, i + 1)
  {
    NextSubagent(ctx, parts, i);
    var text := Join(SpokenTurns(ctx.subagents[i].turns));
    if text == "" {
      assert SubagentPart(ctx, i) == [];
      return soFar;
    }
    r := soFar + SubagentPart(ctx, i);
  }

  method PushSkills(ctx: Context, joined: seq<Joined>, parts: seq<Part>) returns (r: seq<Part>, cut: set<string>)
    ensures r == parts + SkillParts(ctx, joined)
    ensures forall n :: n in cut <==> TooLong(ctx, joined, n)
  {
    r, cut := parts, {};
    for i := 0 to |joined|
      invariant r == parts + SkillParts(ctx, joined[..i])
      invariant forall n :: n in cut <==>
                exists k :: 0 <= k < i && joined[k].skill == n && |ctx.scrub(joined[k].text)| > SKILL_RESULT_CAP
    {
      if |ctx.scrub(joined[i].text)| > SKILL_RESULT_CAP { cut := cut + {joined[i].skill}; }
      assert SkillParts(ctx, joined[..i + 1]) == SkillParts(ctx, joined[..i]) + [SkillPart(ctx, joined[i])];
      r := r + [SkillPart(ctx, joined[i])];
    }
    assert joined[..|joined|] == joined;
  }

  method PushFiles(ctx: Context, files: seq<AuthoredFile>, parts: seq<Part>) returns (r: seq<Part>, authoredCount: nat)
    ensures r == parts + FileParts(ctx, files) + ScratchNote(ctx, files)
    ensures authoredCount == |files|
  {
    r, authoredCount := parts, 0;
    var sawScratch := false;
    for i := 0 to |files|
      invariant r == parts + FileParts(ctx, files[..i])
      invariant authoredCount == i
      invariant sawScratch <==> exists k :: 0 <= k < i && IsScratch(ctx, files[k])
    {
      authoredCount := authoredCount + 1;
      sawScratch := sawScratch || IsScratch(ctx, files[i]);
      assert FileParts(ctx, files[..i + 1]) == FileParts(ctx, files[..i]) + [FilePart(ctx, files[i])];
      r := r + [FilePart(ctx, files[i])];
    }
    assert files[..|files|] == files;
    if sawScratch { r := r + [Part(KScratchNote, ctx.scratchNote, None)]; }
  }

  /** The first section the cut lands in. */
  method FirstCut(parts: seq<Part>) returns (at: Option<nat>)
    ensures at.None? <==> !CutBefore(parts, |parts|)
    ensures at.Some? ==> at.value < |parts| && !Survives(parts, at.value) && !CutBefore(parts, at.value)
  {
    for i := 0 to |parts|
      invariant !CutBefore(parts, i)
    {
      LenUpToDecides(parts, i + 1);
      if LenUpTo(parts, i + 1) > DOC_CAP { return Some(i); }
    }
    return None;
  }

  lemma CutReaches(parts: seq<Part>, n: nat)
    requires 0 < n <= |parts|
    ensures |Doc(parts)| > DOC_CAP && LenUpTo(parts, n) > DOC_CAP <==> !Survives(parts, n - 1)
  {
    LenUpToIsEnd(parts, n);
  }

  /** The aggregate cap reaches a section of skill n among the first i Skill sections. */
  ghost predicate ReachedBy(parts: seq<Part>, joined: seq<Joined>, first: nat, i: nat, n: string)
    requires i <= |joined| && first + |joined| <= |parts|
  {
    exists k :: 0 <= k < i && joined[k].skill == n && !Survives(parts, first + k)
  }

  ghost predicate TooLong(ctx: Context, joined: seq<Joined>, n: string) {
    exists k :: 0 <= k < |joined| && joined[k].skill == n && |ctx.scrub(joined[k].text)| > SKILL_RESULT_CAP
  }

  method ReachedSkills(parts: seq<Part>, joined: seq<Joined>, first: nat) returns (cut: set<string>)
    requires first + |joined| <= |parts|
    ensures forall n :: n in cut <==> ReachedBy(parts, joined, first, |joined|, n)
  {
    cut := {};
    var overflowed := |Doc(parts)| > DOC_CAP;
    for i := 0 to |joined|
      invariant forall n :: n in cut <==> ReachedBy(parts, joined, first, i, n)
    {
      CutReaches(parts, first + i + 1);
      if overflowed && LenUpTo(parts, first + i + 1) > DOC_CAP { cut := cut + {joined[i].skill}; }
    }
  }

  method CutSkills(ctx: Context, parts: seq<Part>, joined: seq<Joined>, first: nat, atCompose: set<string>)
    returns (cut: set<string>)
    requires first + |joined| <= |parts|
    requires forall n :: n in atCompose <==> TooLong(ctx, joined, n)
    ensures forall n :: n in cut <==>
              exists k :: 0 <= k < |joined| && joined[k].skill == n && SkillCut(ctx, parts, joined, first, k)
  {
    var reached := ReachedSkills(parts, joined, first);
    cut := atCompose + reached;
    forall n
      ensures n in cut <==>
                exists k :: 0 <= k < |joined| && joined[k].skill == n && SkillCut(ctx, parts, joined, first, k)
    {
      CutEitherWay(ctx, parts, joined, first, n);
    }
  }

  lemma CutEitherWay(ctx: Context, parts: seq<Part>, joined: seq<Joined>, first: nat, n: string)
    requires first + |joined| <= |parts|
    ensures TooLong(ctx, joined, n) || ReachedBy(parts, joined, first, |joined|, n) <==>
            exists k :: 0 <= k < |joined| && joined[k].skill == n && SkillCut(ctx, parts, joined, first, k)
  {
    if k :| 0 <= k < |joined| && joined[k].skill == n && |ctx.scrub(joined[k].text)| > SKILL_RESULT_CAP {
      assert SkillCut(ctx, parts, joined, first, k);
    }
    if k :| 0 <= k < |joined| && joined[k].skill == n && !Survives(parts, first + k) {
      assert SkillCut(ctx, parts, joined, first, k);
    }
  }

  /** The report on a document is determined by its inputs, so a memoised report is what composing again would give. */
  lemma ReportsDetermine(ctx: Context, o: Opts, c: Composed, d: Composed)
    requires Reports(ctx, o, c) && Reports(ctx, o, d)
    ensures c == d
  {
    var parts := Sections(ctx, o);
    assert c.skillResultsCut == d.skillResultsCut;
    SameFingerprint(parts, Limit(parts), c.fingerprint, d.fingerprint);
  }

  lemma SameFingerprint(parts: seq<Part>, limit: nat, s: seq<Section>, t: seq<Section>)
    requires Fingerprints(parts, limit, s) && Fingerprints(parts, limit, t)
    ensures s == t
  {
    assert |s| < |parts| ==> StartOf(parts, |s|) >= limit;
    assert |t| < |parts| ==> StartOf(parts, |t|) >= limit;
  }

  method PushLead(ctx: Context, o: Opts) returns (parts: seq<Part>)
    ensures parts == Lead(ctx, o)
  {
    parts := RemoteNote(ctx, o) + Answer(ctx);
    if o.subagentText && !ctx.remote { parts := PushSubagents(ctx, parts); }
  }

  method PushForkResults(ctx: Context, o: Opts, parts: seq<Part>)
    returns (r: seq<Part>, joined: seq<Joined>, tooLong: set<string>)
    ensures joined == Skills(ctx, o) && r == parts + SkillParts(ctx, joined)
    ensures forall n :: n in tooLong <==> TooLong(ctx, joined, n)
  {
    r, joined, tooLong := parts, [], {};
    if o.forkResults {
      var j := JoinSkillResults(ctx);
      joined := j.joined;
      r, tooLong := PushSkills(ctx, joined, parts);
    }
  }

  /** Whether the cap reached the authored evidence, or only the note after it. */
  method MeasureCuts(parts: seq<Part>, graded: nat, authoredCount: nat) returns (evidenceCut: bool, healthNoteCut: bool)
    requires 0 < graded <= |parts|
    ensures evidenceCut <==> authoredCount > 0 && CutBefore(parts, graded)
    ensures healthNoteCut <==> !evidenceCut && graded < |parts| && !Survives(parts, |parts| - 1)
  {
    var overflowed := |Doc(parts)| > DOC_CAP;
    Overflow(parts);
    LenUpToDecides(parts, graded);
    CutReaches(parts, graded);
    evidenceCut := overflowed && authoredCount > 0 && LenUpTo(parts, graded) > DOC_CAP;
    healthNoteCut := overflowed && !evidenceCut && |parts| > graded;
  }

  /** The measurements taken over the composed sections. */
  method Measure(ctx: Context, parts: seq<Part>, graded: nat, authoredCount: nat, joined: seq<Joined>, first: nat,
                 tooLong: set<string>)
    returns (c: Composed)
    requires 0 < graded <= |parts| && first + |joined| <= |parts|
    requires forall n :: n in tooLong <==> TooLong(ctx, joined, n)
    ensures ReportsOn(ctx, parts, graded, authoredCount > 0, joined, first, c)
  {
    var evidenceCut, healthNoteCut := MeasureCuts(parts, graded, authoredCount);
    var overflowAt := FirstCut(parts);
    var skillResultsCut := CutSkills(ctx, parts, joined, first, tooLong);
    var sent := CapForJudge(Doc(parts), DOC_CAP, CutMarker);
    var fingerprint := FingerprintJudgedDoc(sent, parts);
    c := Composed(sent, evidenceCut, healthNoteCut, overflowAt, skillResultsCut, fingerprint);
  }

  method ComposeJudgedDocument(ctx: Context, o: Opts) returns (c: Composed)
    ensures Reports(ctx, o, c)
  {
    var parts := PushLead(ctx, o);
    var first := |parts|;
    var joined, tooLong;
    parts, joined, tooLong := PushForkResults(ctx, o, parts);
    var files := ScopeAuthoredEvidence(ctx, o.evidenceFiles).files;
    var authoredCount;
    parts, authoredCount := PushFiles(ctx, files, parts);
    var authoredEnd := |parts|;
    parts := parts + HealthNote(ctx, files);
    c := Measure(ctx, parts, authoredEnd, authoredCount, joined, first, tooLong);
  }
}
