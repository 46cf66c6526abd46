/** When a `semantic_matches` assert is refused for want of evidence (src/assert.ts), and what a grade then rests on. */
module JudgeRefusal {
  import opened JudgedDocument
  import opened Options

  datatype MinPass = All | AtLeast(n: int)

  datatype Assertion = SemanticMatches(rubric: seq<string>, minPass: MinPass, judgeModel: Option<string>, opts: Opts)

  datatype Reason =
    | UnmeetableMinPass
    | ForkCallsUnrecorded
    | ForkResultUnpaired
    | ForkResultBackground
    | ForkResultTruncated
    | RemoteEvidenceFiles
    | NoPreRunManifest
    | ScopeMatchedNothing
    | InScopeTruncated
    | InScopeOmitted
    | EvidenceIncomplete
    | AuthoredEvidenceTruncated

  datatype Refusal = Refusal(reason: Reason, paths: set<string>)

  function SetOf(xs: seq<string>): set<string> { set x | x in xs }

  predicate MinPassUnmeetable(a: Assertion) { a.minPass.AtLeast? && a.minPass.n > |a.rubric| }

  function ForkRecordRefusal(a: Assertion, ctx: Context): Option<Refusal> {
    var j := JoinOf(ctx);
    if !a.opts.forkResults then None
    else if !j.recorded then Some(Refusal(ForkCallsUnrecorded, {}))
    else if j.unpaired != [] then Some(Refusal(ForkResultUnpaired, SetOf(j.unpaired)))
    else if j.background != [] then Some(Refusal(ForkResultBackground, SetOf(j.background)))
    else if j.truncated != [] then Some(Refusal(ForkResultTruncated, SetOf(j.truncated)))
    else None
  }

  predicate NoManifest(ctx: Context) { !ctx.remote && ctx.health.Some? && ctx.health.value.noPreRunManifest }

  function TruncatedPaths(files: seq<AuthoredFile>): set<string> { set f | f in files && f.truncated :: f.path }

  function AuthoredPaths(ctx: Context): set<string> {
    if ctx.remote then {} else (set f | f in ctx.authored :: f.path) + SetOf(Omitted(ctx)) + SetOf(Unreadable(ctx))
  }

  /** `docInfo` is what composing this assert's document reported; absent when the pre-pass did not run. */
  function SemanticRefusal(a: Assertion, ctx: Context, docInfo: Option<Composed>): Option<Refusal> {
    var scope := a.opts.evidenceFiles;
    var fromRecord := ForkRecordRefusal(a, ctx);
    var sc := ScopeAuthoredEvidence(ctx, scope);
    var cut := TruncatedPaths(sc.files);
    var missing := SetOf(sc.omitted) + SetOf(sc.unreadable);
    if MinPassUnmeetable(a) then Some(Refusal(UnmeetableMinPass, {}))
    else if fromRecord.Some? then fromRecord
    else if ctx.remote && Scoped(scope) then Some(Refusal(RemoteEvidenceFiles, {}))
    else if NoManifest(ctx) then Some(Refusal(NoPreRunManifest, {}))
    else if Scoped(scope) && !sc.matchedAny then Some(Refusal(ScopeMatchedNothing, AuthoredPaths(ctx)))
    else if missing != {} || cut != {} then
      var reason :=
        if !Scoped(scope) then EvidenceIncomplete
        else if cut != {} && missing == {} then InScopeTruncated
        else InScopeOmitted;
      Some(Refusal(reason, missing + cut))
    else if a.opts.forkResults && docInfo.Some? && docInfo.value.skillResultsCut != {} then
      Some(Refusal(ForkResultTruncated, docInfo.value.skillResultsCut))
    else if docInfo.Some? && docInfo.value.evidenceCut then Some(Refusal(AuthoredEvidenceTruncated, {}))
    else None
  }

  // ---------------------------------------------------------------------------------------------
  // What "the evidence is whole" means, without reference to any of the refusals.

  /** Every top-level Skill call came back whole. */
  predicate AnswersRecorded(ctx: Context) {
    && ctx.toolCalls.Some? && ctx.toolResults.Some?
    && forall c :: c in ctx.toolCalls.value && TopLevelSkill(c) ==> Answered(ctx, c, ctx.toolResults.value)
  }

  ghost predicate AnswersFit(ctx: Context, o: Opts) {
    var parts, joined, first := Sections(ctx, o), Skills(ctx, o), |Lead(ctx, o)|;
    forall k :: 0 <= k < |joined| ==> !SkillCut(ctx, parts, joined, first, k)
  }

  /** The capture holds every in-scope file whole, and a scope names something. */
  ghost predicate CaptureWhole(ctx: Context, globs: Option<seq<string>>) {
    && !NoManifest(ctx)
    && (forall f :: f in ctx.authored && InScope(ctx, globs, f.path) ==> !f.truncated)
    && (forall p :: p in Omitted(ctx) ==> !InScope(ctx, globs, p))
    && (forall p :: p in Unreadable(ctx) ==> !InScope(ctx, globs, p))
    && (Scoped(globs) ==> !ctx.remote && exists f :: f in ctx.authored && InScope(ctx, globs, f.path))
  }

  ghost predicate FilesFit(ctx: Context, o: Opts) {
    Files(ctx, o) != [] ==> !CutBefore(Sections(ctx, o), |Graded(ctx, o)|)
  }

  lemma ForkRecordRefusalIsExact(a: Assertion, ctx: Context)
    ensures ForkRecordRefusal(a, ctx).None? <==> (a.opts.forkResults ==> AnswersRecorded(ctx))
  {
    if ctx.toolCalls.Some? && ctx.toolResults.Some? {
      JoinIsComplete(ctx, ctx.toolCalls.value, ctx.toolResults.value);
    }
  }

  lemma NothingMissing(ctx: Context, globs: Option<seq<string>>)
    ensures var sc := ScopeAuthoredEvidence(ctx, globs);
            SetOf(sc.omitted) + SetOf(sc.unreadable) == {} <==>
              && (forall p :: p in Omitted(ctx) ==> !InScope(ctx, globs, p))
              && (forall p :: p in Unreadable(ctx) ==> !InScope(ctx, globs, p))
  {
    var sc := ScopeAuthoredEvidence(ctx, globs);
    assert forall p :: p in sc.omitted || p in sc.unreadable ==> p in SetOf(sc.omitted) + SetOf(sc.unreadable);
  }

  lemma NothingTruncated(files: seq<AuthoredFile>)
    ensures TruncatedPaths(files) == {} <==> forall f :: f in files ==> !f.truncated
  {
    forall f | f in files && f.truncated ensures f.path in TruncatedPaths(files) {}
  }

  lemma ScopeMatches(ctx: Context, globs: Option<seq<string>>)
    requires Scoped(globs) && !ctx.remote
    ensures var sc := ScopeAuthoredEvidence(ctx, globs);
            sc.omitted == [] && sc.unreadable == [] ==>
              (sc.matchedAny <==> exists f :: f in ctx.authored && InScope(ctx, globs, f.path))
  {
    var sc := ScopeAuthoredEvidence(ctx, globs);
    if sc.files != [] { assert sc.files[0] in sc.files; }
  }

  lemma CaptureWholeIsExact(ctx: Context, globs: Option<seq<string>>)
    ensures var sc := ScopeAuthoredEvidence(ctx, globs);
            CaptureWhole(ctx, globs) <==>
              && !(ctx.remote && Scoped(globs)) && !NoManifest(ctx) && !(Scoped(globs) && !sc.matchedAny)
              && SetOf(sc.omitted) + SetOf(sc.unreadable) == {} && TruncatedPaths(sc.files) == {}
  {
    var sc := ScopeAuthoredEvidence(ctx, globs);
    NothingMissing(ctx, globs);
    NothingTruncated(sc.files);
    if Scoped(globs) && !ctx.remote {
      ScopeMatches(ctx, globs);
      if sc.omitted != [] { assert sc.omitted[0] in SetOf(sc.omitted) + SetOf(sc.unreadable); }
      if sc.unreadable != [] { assert sc.unreadable[0] in SetOf(sc.omitted) + SetOf(sc.unreadable); }
    }
  }

  lemma NoAnswerCut(ctx: Context, o: Opts, c: Composed)
    requires Reports(ctx, o, c)
    ensures c.skillResultsCut == {} <==> AnswersFit(ctx, o)
  {
    var parts, joined, first := Sections(ctx, o), Skills(ctx, o), |Lead(ctx, o)|;
    forall k | 0 <= k < |joined| && SkillCut(ctx, parts, joined, first, k)
      ensures joined[k].skill in c.skillResultsCut
    {
    }
  }

  /** An assert graded over its own document is refused exactly when no grade could pass it or some of its evidence is
      missing, partial, or cut. */
  lemma RefusalIsExact(a: Assertion, ctx: Context, c: Composed)
    requires Reports(ctx, a.opts, c)
    ensures SemanticRefusal(a, ctx, Some(c)).None? <==>
            && !MinPassUnmeetable(a)
            && (a.opts.forkResults ==> AnswersRecorded(ctx) && AnswersFit(ctx, a.opts))
            && CaptureWhole(ctx, a.opts.evidenceFiles)
            && FilesFit(ctx, a.opts)
  {
    ForkRecordRefusalIsExact(a, ctx);
    CaptureWholeIsExact(ctx, a.opts.evidenceFiles);
    NoAnswerCut(ctx, a.opts, c);
  }

  /** A refusal over the capture names exactly the in-scope paths with a gap. */
  lemma RefusalNamesEveryGap(a: Assertion, ctx: Context, docInfo: Option<Composed>, path: string)
    requires SemanticRefusal(a, ctx, docInfo).Some?
    requires SemanticRefusal(a, ctx, docInfo).value.reason in {InScopeTruncated, InScopeOmitted, EvidenceIncomplete}
    ensures path in SemanticRefusal(a, ctx, docInfo).value.paths <==>
            && InScope(ctx, a.opts.evidenceFiles, path)
            && (path in Omitted(ctx) || path in Unreadable(ctx)
                || exists f :: f in ctx.authored && f.path == path && f.truncated)
  {
    var sc := ScopeAuthoredEvidence(ctx, a.opts.evidenceFiles);
    assert SemanticRefusal(a, ctx, docInfo).value.paths ==
           SetOf(sc.omitted) + SetOf(sc.unreadable) + TruncatedPaths(sc.files);
    assert path in TruncatedPaths(sc.files) <==> exists f :: f in sc.files && f.path == path && f.truncated;
  }

  // ---------------------------------------------------------------------------------------------
  // Evidence soundness.

  lemma FileSurvives(ctx: Context, o: Opts, f: AuthoredFile) returns (i: nat)
    requires f in Files(ctx, o) && FilesFit(ctx, o)
    ensures i < |Sections(ctx, o)| && Survives(Sections(ctx, o), i) && Sections(ctx, o)[i] == FilePart(ctx, f)
  {
    var k :| 0 <= k < |Files(ctx, o)| && Files(ctx, o)[k] == f;
    i := |Lead(ctx, o)| + |Skills(ctx, o)| + k;
    SectionOfFile(ctx, o, k);
    assert !CutBefore(Sections(ctx, o), |Graded(ctx, o)|);
  }

  lemma FileIsShown(ctx: Context, o: Opts, f: AuthoredFile)
    requires f in Files(ctx, o) && FilesFit(ctx, o)
    ensures Shown(Sent(Sections(ctx, o)), FilePart(ctx, f).text)
    ensures Shown(Sent(Sections(ctx, o)), ctx.scrub(f.content))
  {
    var i := FileSurvives(ctx, o, f);
    var text, content := FilePart(ctx, f).text, ctx.scrub(f.content);
    assert text[|text| - |text|..] == text && text[|text| - |content|..] == content;
    SurvivesShown(Sections(ctx, o), i, text);
    SurvivesShown(Sections(ctx, o), i, content);
  }

  lemma SectionOfFile(ctx: Context, o: Opts, k: nat)
    requires k < |Files(ctx, o)|
    ensures |Lead(ctx, o)| + |Skills(ctx, o)| + k < |Graded(ctx, o)|
    ensures Sections(ctx, o)[|Lead(ctx, o)| + |Skills(ctx, o)| + k] == FilePart(ctx, Files(ctx, o)[k])
  {
    SectionAt(Lead(ctx, o), SkillParts(ctx, Skills(ctx, o)), FileParts(ctx, Files(ctx, o)),
              ScratchNote(ctx, Files(ctx, o)), HealthNote(ctx, Files(ctx, o)), k);
  }

  lemma SectionAt(lead: seq<Part>, skills: seq<Part>, files: seq<Part>, scratch: seq<Part>, health: seq<Part>, k: nat)
    requires k < |files|
    ensures (lead + skills + files + scratch + health)[|lead| + |skills| + k] == files[k]
  {
  }

  lemma SectionOfSkill(ctx: Context, o: Opts, k: nat)
    requires k < |Skills(ctx, o)|
    ensures |Lead(ctx, o)| + k < |Sections(ctx, o)|
    ensures Sections(ctx, o)[|Lead(ctx, o)| + k] == SkillPart(ctx, Skills(ctx, o)[k])
  {
  }

  lemma AnswerEndsSection(ctx: Context, j: Joined)
    requires |ctx.scrub(j.text)| <= SKILL_RESULT_CAP
    ensures var text, answer := SkillPart(ctx, j).text, ctx.scrub(j.text);
            |answer| <= |text| && text[|text| - |answer|..] == answer
  {
  }

  lemma SectionShowsAnswer(ctx: Context, parts: seq<Part>, i: nat, j: Joined)
    requires i < |parts| && parts[i] == SkillPart(ctx, j) && Survives(parts, i)
    requires |ctx.scrub(j.text)| <= SKILL_RESULT_CAP
    ensures Shown(Sent(parts), ctx.scrub(j.text))
  {
    AnswerEndsSection(ctx, j);
    SurvivesShown(parts, i, ctx.scrub(j.text));
  }

  lemma AnswerFits(ctx: Context, o: Opts, k: nat)
    requires k < |Skills(ctx, o)| && AnswersFit(ctx, o)
    ensures var at, j := |Lead(ctx, o)| + k, Skills(ctx, o)[k];
            && at < |Sections(ctx, o)| && Sections(ctx, o)[at] == SkillPart(ctx, j) && Survives(Sections(ctx, o), at)
            && |ctx.scrub(j.text)| <= SKILL_RESULT_CAP
  {
    assert !SkillCut(ctx, Sections(ctx, o), Skills(ctx, o), |Lead(ctx, o)|, k);
    SectionOfSkill(ctx, o, k);
  }

  lemma AnswerIsShown(ctx: Context, o: Opts, call: ToolCall)
    requires o.forkResults && AnswersRecorded(ctx) && AnswersFit(ctx, o)
    requires call in ctx.toolCalls.value && TopLevelSkill(call)
    ensures var r := ResultOf(call, ctx.toolResults.value);
            r.Some? && Shown(Sent(Sections(ctx, o)), ctx.scrub(ResultText(r.value)))
  {
    var r, joined := ResultOf(call, ctx.toolResults.value), Skills(ctx, o);
    JoinIsComplete(ctx, ctx.toolCalls.value, ctx.toolResults.value);
    assert Answered(ctx, call, ctx.toolResults.value);
    assert HasAnswer(joined, call, ctx.toolResults.value);
    var k :| 0 <= k < |joined| && joined[k].text == ResultText(r.value);
    AnswerFits(ctx, o, k);
    SectionShowsAnswer(ctx, Sections(ctx, o), |Lead(ctx, o)| + k, joined[k]);
  }

  /** EVIDENCE SOUNDNESS. When an assert is not refused over its own composed document, the capture knew every in-scope
      path, each in-scope authored file lies whole in the text sent to the judge, and with `include_fork_results` every
      top-level Skill call has a paired, foreground, uncut answer that lies whole in that text. */
  lemma EvidenceSoundness(a: Assertion, ctx: Context, c: Composed)
    requires Reports(ctx, a.opts, c) && SemanticRefusal(a, ctx, Some(c)).None?
    ensures forall p :: p in Omitted(ctx) || p in Unreadable(ctx) ==> !InScope(ctx, a.opts.evidenceFiles, p)
    ensures forall f :: f in ctx.authored && InScope(ctx, a.opts.evidenceFiles, f.path) ==>
              !f.truncated && Shown(c.doc, FilePart(ctx, f).text) && Shown(c.doc, ctx.scrub(f.content))
    ensures a.opts.forkResults ==> ctx.toolCalls.Some? && ctx.toolResults.Some?
    ensures a.opts.forkResults ==> forall call :: call in ctx.toolCalls.value && TopLevelSkill(call) ==>
              && Answered(ctx, call, ctx.toolResults.value)
              && Shown(c.doc, ctx.scrub(ResultText(ResultOf(call, ctx.toolResults.value).value)))
  {
    RefusalIsExact(a, ctx, c);
    forall f | f in ctx.authored && InScope(ctx, a.opts.evidenceFiles, f.path)
      ensures Shown(c.doc, FilePart(ctx, f).text) && Shown(c.doc, ctx.scrub(f.content))
    {
      FileIsShown(ctx, a.opts, f);
    }
    if a.opts.forkResults {
      forall call | call in ctx.toolCalls.value && TopLevelSkill(call)
        ensures Shown(c.doc, ctx.scrub(ResultText(ResultOf(call, ctx.toolResults.value).value)))
      {
        AnswerIsShown(ctx, a.opts, call);
      }
    }
  }
}
