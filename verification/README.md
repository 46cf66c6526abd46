# Verified model of the harness's gates, verdicts and pools

This project models the parts of the harness where a wrong branch would turn a red result green, and proves what they
promise. It has six parts.

- **The regression gate** (`scripts/eval-gate.ts`). `FisherTail` is the one-sided Fisher test over exact binomials;
  `ClaimText` says when two claims are the same text; `EvalProfile` aggregates runs into pass fractions; `EvalDiff` is
  the per-claim diff and the calibration; `ChildProcess` and `CapturePool` are the bounded child processes and the worker
  pool that capture runs, and `Utf8` is the decoding of what a child prints.
- **The schema-compatibility classifier** (`scripts/check-surface.ts`). `Surface` and `SurfaceDiff` are the leaf maps,
  their flattening and their diff; `SurfaceCompat` gives schemas their JSON Schema draft-07 meaning (Validation sections
  6.1.1 to 6.1.3, 6.2.2 to 6.2.5, 6.4.1, 6.5.3 to 6.5.6 and 6.7.2) and proves that an `ok` diff breaks no old document,
  for old schemas whose nodes are typed or unions of such nodes (the shape of `schema/session.schema.json`);
  `SurfaceVerdicts` proves the converse, change by change: which single changes of a schema, at any node, are let pass,
  and that bounds pass exactly when every old document still meets them; `SurfaceGaps` characterises kinds of change
  where the diff's verdict and the compatibility come apart.
- **The verdict engine** (`src/assert.ts`). `JudgedDocument` composes, caps and fingerprints the document a judge reads,
  and `DocumentContents` says what it then shows, read off the document and its fingerprint alone;
  `JudgeRefusal` says when its evidence is refused; `JudgePrepass` is the grading loop with its document memo and the
  check that reads it; `CountVerdicts` and `Matching` are the three-valued counts and the matching loops.
- **The async pool** (`src/async-pool.ts`): `AsyncPool`.
- **Version order, staged agents and occurrence counting** (`src/baseline.ts`): `Versions`, `NativeStaging`,
  `StagingOrder` (what depends on the directory listing), `Occurrences`, over `Sorting`.
- **The placeholder scanner** (`scripts/release-preflight.ts`): `PlaceholderScan`.

Code that computes by calls is written as functions with lemmas; code that updates things step by step is written as
methods over loops, arrays and classes, each tied to a function of its inputs. Concurrent code (the pools, the child
processes) is a transition system whose step is the code between two awaits or one event handler, and its theorems hold
for every schedule.

What the source gets from outside is a parameter that can be anything: the judge's replies, `fn` of the pool, a run's
outcome, directory listings and markers, `JSON.parse`, the glob engine, the secret scrubber, the fork markers of a Skill
result, the TODO and `pattern` regexes.

Where the code does not do what one would expect of it, or what a comment beside it says, the code was followed and the
exact condition is proved:

- Every chunk of a child's output is decoded on its own. The buffer is the decoded output exactly when no chunk begins
  inside a character; for a child that printed a text, exactly when no chunk begins with a continuation byte
  (`ChildProcess.BufferIsTheOutput`, `ChildProcess.BufferIsTheText`; `ChildProcess.SplitCharacterIsLost` is an input).
- A claim without text is read as the empty text. The comment at `scripts/eval-gate.ts:178-179` says it will not match;
  it matches exactly the other claims without words (`ClaimText.BlankClaimsMatch`).
- A type widened from `integer` to `number` is reported as a break although every old document keeps its type: the diff
  is ok exactly when every old type is still named, the documents are kept exactly when every old type is covered
  (`SurfaceVerdicts.TypeVerdict`, `SurfaceVerdicts.TypesMean`).
- A numeric `const` that is raised reads as a loosened bound: the diff is ok exactly when the const did not fall, while
  the schemas are compatible exactly when it did not change (`SurfaceGaps.NumericConstVerdict`).
- Enum members with the same label (the string `"true"` and the boolean `true`) flatten to one key: the diff is ok exactly
  when every old label is still there, the schemas are compatible exactly when every old member of the type is
  (`SurfaceGaps.EnumVerdict`; `SurfaceGaps.EnumCollisionRejects` is an input).
- Types kept beside the union a node's old type moved into are not compared with it: the diff is ok, and the schemas are
  compatible exactly when those types cover the old one (`SurfaceGaps.BesideUnionIsUnseen`).
- A schema that appears where there was no leaf (a property of an open object, the first item schema of an array) is an
  addition unless it is required: the schemas are compatible exactly when it accepts everything
  (`SurfaceGaps.ChildVerdict`, in closed form `SurfaceGaps.TypedChildVerdict`).
- A keyword of a kind the baseline did not record is never reported, as intended (`SurfaceDiff.UnrecordedKindUnseen`); for
  a length bound the schemas are then compatible exactly when it excludes nothing (`SurfaceGaps.UnrecordedLengthUnseen`).
- A capture in which the skill never fired writes `k/0` rates. The comment at `scripts/eval-gate.ts:358-361` says the diff
  skips them; it fails the gate instead (`EvalDiff.NeverFiredFailsTheGate`; `EvalDiff.NeverFiredCapture` is an input).
- Two version directories that spell one version differently compare equal. The list of staged versions depends on the
  directory listing exactly when two listed entries do so, and the version fallen back to exactly when the newest is
  spelled in two ways (`StagingOrder.FallbackForgetsListingOrder`, `StagingOrder.ChoiceForgetsListingOrder`).
- A question whose text was redacted makes the option-count verdict unavailable even where it could not matter:
  `CountVerdicts.RuleIsExact` says exactly when, and `CountVerdicts.UnsureSelectionIsCautious` is an input.
- A process id used again before its first child settled leaves the second child untracked: tracking is right at every
  point exactly when no spawn is given the id of a child that has not settled
  (`ChildProcess.TrackingIsExactForFreshPids`).

## Model

| member | source | states |
|---|---|---|
| `FisherTail.FisherDropP` | scripts/eval-gate.ts:55-66 | the loop over the feasible cells sums to the exact lower tail, and the sum is above 0 and at most 1, so the final minimum changes nothing |
| `FisherTail.ChooseIsFactorialRatio` | scripts/eval-gate.ts:50 | the binomial of the Pascal recurrence is the factorial ratio that `lnChoose` takes the logarithm of |
| `FisherTail.Vandermonde` | scripts/eval-gate.ts:58-64 | the feasible tables of fixed margins are exactly all choices of the passes: the full tail is the denominator |
| `FisherTail.LowerTailIsUpperTail` | scripts/eval-gate.ts:52-66 | the lower tail on the candidate cell is the upper tail on the baseline cell |
| `FisherTail.DropPIsProbability` | scripts/eval-gate.ts:62-65 | 0 < p <= 1, and p is 1 exactly when the candidate passed everything or the baseline nothing |
| `FisherTail.DropPMonotoneInCandidate` | scripts/eval-gate.ts:55-66 | p does not fall when the candidate passes more runs, although the margin moves with it |
| `FisherTail.DropPAntitoneInBaseline` | scripts/eval-gate.ts:55-66 | p does not rise when the baseline passes more runs |
| `ClaimText.KeyIsTheWords` | scripts/eval-gate.ts:178-180 | two claims have one key exactly when they are the same list of words, a word being a maximal run without white space |
| `ClaimText.BlankClaimsMatch` | scripts/eval-gate.ts:177-180 | a claim without words has the key of exactly the other claims without words |
| `EvalProfile.FractionRoundTrip` | scripts/eval-gate.ts:104-111 | `parseFraction` reads back every fraction the aggregation writes, and refuses a rate over no run |
| `EvalProfile.RateIsPassCount` | scripts/eval-gate.ts:340-351 | with agreeing rubrics, the rate looked up by claim text is the number of runs, among those with a valid grade and live the skill invoked, whose first claim of that text passed |
| `EvalProfile.AggregateMeasures` | scripts/eval-gate.ts:329-383 | an accepted capture's fraction for a claim counts, in its denominator, exactly the runs with a valid grade that live also invoked the skill, and in its numerator those of them that passed the first position of its text; it is malformed exactly when there is no such run, which live happens only below the minimum of invoked runs; errored and ungradeable runs count in neither |
| `EvalProfile.RefusedCapture` | scripts/eval-gate.ts:334-368 | a capture is refused exactly when two of its runs report different claims, or with the skill in place fewer than four runs are gradeable, or four invoked the skill and fewer than four of those have a valid grade |
| `EvalProfile.PriorsMeasure` | scripts/eval-gate.ts:333-382 | a claim's prior is the fraction of the runs without the skill that passed it, absent exactly when every run had it; claims keep their rubric's order and start untagged |
| `EvalDiff.BucketDiff` | scripts/eval-gate.ts:197-297 | the lists hold exactly the claims of their fate, regressions by p and those of equal p in the order found; triggers and gaps are those of each scenario; `hardFail` is false exactly when the two profiles cover each other |
| `EvalDiff.FindByWords` | scripts/eval-gate.ts:239 | the claim a baseline claim is compared with is the first candidate claim of the same words, and there is none exactly when no claim has them |
| `EvalDiff.EditedClaimFailsTheGate` | scripts/eval-gate.ts:240-253 | a baseline claim, not tagged non-discriminating, whose words no candidate claim of its scenario has leaves the profiles uncovered, so the gate hard-fails |
| `EvalDiff.NewClaimFailsTheGate` | scripts/eval-gate.ts:278-286 | a candidate claim whose words no baseline claim of its scenario has leaves the profiles uncovered, so the gate hard-fails |
| `EvalDiff.CoveredEntries` | scripts/eval-gate.ts:189-194 | covering each other means: the scenario sets agree, no claim is new, every claim not tagged non-discriminating has a text match, and all fractions are well formed |
| `EvalDiff.Judge` | scripts/eval-gate.ts:256-275 | one pair of fractions is malformed, improved, unchanged, a regression or inconclusive, by rate and by Fisher p |
| `EvalDiff.FateIsByRate` | scripts/eval-gate.ts:256-275 | a pair of fractions is an improvement, no change or a drop as the candidate rate is higher, equal or lower, and a drop is a regression exactly when the Fisher p is at most 0.05 |
| `EvalDiff.TriggerIsByRate` | scripts/eval-gate.ts:215-231 | a trigger regression is a baseline rate of at least 0.8, a lower candidate rate and a Fisher p of at most 0.05 |
| `EvalDiff.EveryClaimAccountedFor` | scripts/eval-gate.ts:234-276 | the claims fall into exactly one bucket: the seven counts add up to the number of claims, and each list has its bucket's size |
| `EvalDiff.OneOutcomePerClaim` | scripts/eval-gate.ts:208-286 | the diff holds one outcome for every claim of the scenarios on both sides |
| `EvalDiff.FatesMirror` | scripts/eval-gate.ts:239-275 | with distinct untagged claims, a claim improves one way exactly when it drops the other way, and is unchanged or malformed both ways |
| `EvalDiff.ReportsMirror` | scripts/eval-gate.ts:197-297 | the improvements reported one way are exactly the drops reported the other way |
| `EvalDiff.WorseIsStillRegressed` | scripts/eval-gate.ts:263-275 | a claim that regressed at k of n also regresses at fewer passes, or against a better baseline |
| `EvalDiff.CalibrateScenario` | scripts/eval-gate.ts:612-629 | claims are tagged in place, in order, up to the first that cannot be judged; the rest keep their tags and the error is that claim's |
| `EvalDiff.CalibratedClaimSkipped` | scripts/eval-gate.ts:612-629 | from runs to diff: a claim calibrated against an ablated capture is later skipped exactly when that capture measured enough runs and three quarters of them passed the claim without the skill |
| `EvalDiff.NeverFiredFailsTheGate` | scripts/eval-gate.ts:353-361 | when the skill never fired in a candidate's runs, a baseline claim graded against it leaves the profiles uncovered, so the gate hard-fails |
| `EvalDiff.NeverFiredCapture` | scripts/eval-gate.ts:353-383 | four answered runs without the skill are such a capture: it is accepted, with its claim at `0/0` |
| `ChildProcess.BoundedSpawn.constructor` | scripts/eval-gate.ts:448-453 | a new child is tracked if it has a process id, and nothing is buffered |
| `ChildProcess.BoundedSpawn.Settle` | scripts/eval-gate.ts:466-472 | only the first result counts, and settling stops the tracking |
| `ChildProcess.BoundedSpawn.Handle` | scripts/eval-gate.ts:473-493 | the timer and the data, close and error handlers move the child exactly as its transition function does |
| `ChildProcess.BufferIsBounded` | scripts/eval-gate.ts:477-485 | under any events the buffer keeps to the byte cap, is a prefix of the chunks decoded one by one, and is all of them exactly while the output is within the cap |
| `ChildProcess.BufferIsTheOutput` | scripts/eval-gate.ts:484 | the buffer is the decoding of the whole output exactly when no chunk goes on with a character the output before it broke off in |
| `ChildProcess.BufferIsTheText` | scripts/eval-gate.ts:484 | for output that encodes a text, the buffer is that text exactly when no chunk begins with a continuation byte |
| `ChildProcess.SplitCharacterIsLost` | scripts/eval-gate.ts:484-488 | a JSON string cut inside its one character is parsed with three replacement characters in its place |
| `Utf8.DecodeInTwo` | scripts/eval-gate.ts:484 | decoding bytes in two pieces gives the same text unless the cut is inside a character, and a longer one then |
| `Utf8.RoundTrip` | scripts/eval-gate.ts:484 | decoding an encoded text gives it back |
| `Utf8.CutOfText` | scripts/eval-gate.ts:484 | inside an encoded text, a cut is inside a character exactly when a continuation byte follows it |
| `ChildProcess.FirstSettlingEventDecides` | scripts/eval-gate.ts:466-493 | the promise is settled exactly when some event settles it, with the value the first such event calls for: the parse of the chunks decoded one by one for a close, an empty object otherwise |
| `ChildProcess.ClosedChildResolves` | scripts/eval-gate.ts:466-488 | a child that closes first, within the cap, resolves to what its text parses as, and to an empty object for no text or one that does not parse |
| `ChildProcess.SettledStays` | scripts/eval-gate.ts:466-467 | no later event changes a settled child's value |
| `ChildProcess.ChildFollowsItsOwnEvents` | scripts/eval-gate.ts:448-494 | in any interleaving of children, each one's state is what its own events alone make it |
| `ChildProcess.TrackedAreLive` | scripts/eval-gate.ts:402-406 | when no process id is reused while its child is unsettled, the tracked ids are exactly those of the spawned, unsettled children, one child each |
| `ChildProcess.TrackingIsExactForFreshPids` | scripts/eval-gate.ts:402-406 | the tracked ids are exactly the live ones at every point, and after any child fails there, exactly when no spawn reuses the id of an unsettled child |
| `ChildProcess.NothingDeadIsTracked` | scripts/eval-gate.ts:402-406 | for any process ids at all, a tracked id belongs to an unsettled child |
| `ChildProcess.ReusedPidIsDropped` | scripts/eval-gate.ts:466-471 | from any state, a spawn that reuses a live id is dropped from tracking, still running, when the first child fails |
| `CapturePool.BuildJobs` | scripts/eval-gate.ts:513-515 | the job list has every repetition of every file, in order |
| `CapturePool.JobAt` | scripts/eval-gate.ts:513-515 | job f * reps + i is file f |
| `CapturePool.EveryJobRunsOnce` | scripts/eval-gate.ts:516-529 | in every schedule that ends, each job ran exactly once, and each scenario holds its repetitions for each file of its name |
| `CapturePool.StepUsesOne` | scripts/eval-gate.ts:519-528 | every step of a worker uses up one of what is left, so the pool ends |
| `CapturePool.CaptureLive` | scripts/eval-gate.ts:512-534 | under an arbitrary scheduler the pool ends, every job is done, and each scenario holds the results of exactly its own jobs, each once |
| `SurfaceDiff.DiffSurfaces` | scripts/check-surface.ts:206-277 | over the leaf kinds the baseline recorded, the four lists hold exactly the keys of their fate, consumed branch leaves are exactly the copies, and the diff is ok exactly when nothing is removed or changed |
| `SurfaceDiff.Conservation` | scripts/check-surface.ts:217-276 | every baseline-only key is reported once, as removed, changed or widened; a common key with a new value once, as changed or widened; a new key once, as added or changed, unless it is a consumed leaf or a widened leaf's new form; any other key never |
| `SurfaceDiff.EqualDiffIsEmpty` | scripts/check-surface.ts:203-277 | surfaces that flatten alike, such as a surface and itself, report nothing |
| `SurfaceDiff.DecidePath` | scripts/check-surface.ts:239-253 | the loop over a path's branches decides moved intact, moved with a constraint, or neither, and takes a branch that copies the old leaves when there is one |
| `SurfaceDiff.SameSizeIsCopy` | scripts/check-surface.ts:245-251 | comparing sizes is enough: a branch that keeps every old leaf and has as many has no other |
| `SurfaceDiff.SpliceOut` | scripts/check-surface.ts:261-269 | a backward splicing loop removes exactly the taken keys and loses none |
| `SurfaceDiff.Distribute` | scripts/check-surface.ts:217-276 | the pushes and splices leave each key in the one list its place calls for, without repeats |
| `SurfaceDiff.ReducedKeys` | scripts/check-surface.ts:73-85 | reducing a surface to some kinds drops exactly the keys of the others |
| `SurfaceDiff.UnrecordedKindUnseen` | scripts/check-surface.ts:207-211 | a key of a kind the baseline did not record is in none of the lists |
| `SurfaceCompat.OkDiffIsCompatible` | scripts/check-surface.ts:95-201 | when the diff has nothing removed or changed, every document the old input schema accepts is accepted by the new one, also where old nodes are unions or open objects |
| `SurfaceCompat.MinorReleaseKeepsOldFiles` | scripts/check-surface.ts:311-342 | a release that passes the check without a higher major version, against a snapshot that recorded every kind, rejects no file that used to load |
| `SurfaceCompat.NodeSound` | scripts/check-surface.ts:118-198 | the same at every node of the schema, by induction over properties, items and union branches |
| `SurfaceCompat.RequiredSound` | scripts/check-surface.ts:149-154 | a field the new schema requires was required before |
| `SurfaceCompat.ChildKept` | scripts/check-surface.ts:256-260 | a property, an item schema and a union branch of the old schema are still there |
| `SurfaceCompat.UnionStaysBare` | scripts/check-surface.ts:149-168 | a node that was only a union gains no keyword of its own |
| `SurfaceCompat.TypeSound` | scripts/check-surface.ts:185-197 | a value of an old type has a new type |
| `SurfaceCompat.EnumSound` | scripts/check-surface.ts:162-166 | a value of the old enum is in the new one, or there is none |
| `SurfaceCompat.BoundSound` | scripts/check-surface.ts:149-184 | a value within the old bounds is within the new ones, also where an exclusive bound became an inclusive one |
| `SurfaceCompat.UnionHasCopy` | scripts/check-surface.ts:239-251 | a first union on a typed node that existed is no change only if a branch holds exactly the node's old leaves |
| `SurfaceVerdicts.OkIsTheVerdict` | scripts/check-surface.ts:263-286 | a diff is ok exactly when no key is removed and none changed |
| `SurfaceVerdicts.BoundVerdict` | scripts/check-surface.ts:155-160 | for a schema whose only change is one moved bound, at any node, the diff is ok exactly when every document within the old bound is within the new one: a minimum that did not rise, a maximum that did not fall; and the bound is then reported as widened |
| `SurfaceVerdicts.DroppedVerdict` | scripts/check-surface.ts:149-168 | a keyword dropped at any node is let pass exactly when it is one whose absence lets more in (a required mark, a bound, a pattern, a const, a closed object), an enum that leaves its node another keyword, or the node moved intact into a union branch |
| `SurfaceVerdicts.IntroducedVerdict` | scripts/check-surface.ts:149-168 | a keyword introduced at a node that existed is let pass only when it is a reference |
| `SurfaceVerdicts.ExchangedVerdict` | scripts/check-surface.ts:155-160 | any other scalar exchanged for a different one is reported |
| `SurfaceVerdicts.TypeVerdict` | scripts/check-surface.ts:185-197 | a changed set of types, at any node, is let pass exactly when every old type is still named |
| `SurfaceVerdicts.TypesMean` | scripts/check-surface.ts:185-197 | documents are kept exactly when every old type is named or is `integer` beside `number` |
| `SurfaceVerdicts.ReplacedVerdict` | scripts/check-surface.ts:167-184 | an exclusive bound that gives way to an inclusive one is let pass exactly when every number beyond the old bound is within the new one |
| `SurfaceVerdicts.ChildAppearsVerdict` | scripts/check-surface.ts:149-154 | a property or an item schema that appears below a node that existed is let pass exactly when it is not required |
| `SurfaceVerdicts.BranchAppearsVerdict` | scripts/check-surface.ts:122-147 | a branch that appears is let pass exactly when it is appended to an `anyOf` the node had |
| `SurfaceVerdicts.MoveVerdict` | scripts/check-surface.ts:122-147 | a node moved intact into a branch of a new union is let pass, its leaves widened |
| `SurfaceGaps.NumericConstVerdict` | scripts/check-surface.ts:155-160 | for a numeric const moved from m to n the diff is ok exactly when n >= m, the schemas are compatible exactly when n = m |
| `SurfaceGaps.EnumVerdict` | scripts/check-surface.ts:51-53 | for enums under a type the diff is ok exactly when every old label is still there, the schemas compatible exactly when every old member of the type is |
| `SurfaceGaps.EnumCollisionRejects` | scripts/check-surface.ts:51-53 | with the string "true" exchanged for the boolean, a document that used to load no longer does, under an ok diff |
| `SurfaceGaps.BesideUnionIsUnseen` | scripts/check-surface.ts:135-141 | when a type moves into a union and the node keeps a list of types, the diff is ok, and the schemas are compatible exactly when the list holds the old type, or holds number for integer |
| `SurfaceGaps.ChildVerdict` | scripts/check-surface.ts:119-154 | when a schema appears below a node that took anything there, the diff is ok exactly when it is not required, the schemas compatible exactly when, besides, it accepts everything |
| `SurfaceGaps.TypedChildVerdict` | scripts/check-surface.ts:119-168 | for a schema that is only typed, that is when it names every type |
| `SurfaceGaps.UnrecordedLengthUnseen` | scripts/check-surface.ts:207-211 | a length bound new since a baseline that did not record lengths leaves the diff ok; the schemas are compatible exactly when it is at most 0 |
| `JudgedDocument.ScopeAuthoredEvidence` | src/assert.ts:1375-1391 | files, omitted and unreadable paths are exactly the in-scope ones, and a scope matched exactly when one of the lists is not empty |
| `JudgedDocument.JoinSkillResults` | src/assert.ts:1428-1461 | the index by id and the loop over calls compute the join with the first result that carries each call's own id |
| `JudgedDocument.JoinIsComplete` | src/assert.ts:1428-1461 | no gap is listed exactly when every top-level Skill call has a paired, foreground, uncut result, and every paired call is in the join |
| `JudgedDocument.JoinIsSound` | src/assert.ts:1412-1421 | every joined section belongs to a top-level call and carries that call's own result |
| `JudgedDocument.CapForJudge` | src/assert.ts:1361-1364 | the text up to the cap is kept as a prefix, and a text within the cap is unchanged |
| `JudgedDocument.ComposeJudgedDocument` | src/assert.ts:1475-1680 | the composed text is the capped join of the sections in order; evidence is cut exactly when a file was authored and some section up to the authored end does not survive whole; the health note, the overflow section and the cut Skill sections are exactly those the cap reaches |
| `JudgedDocument.LenUpToDecides` | src/assert.ts:1633-1640 | measuring the joined length of the first sections against the cap decides whether any of them is cut |
| `JudgedDocument.SurvivesWhole` | src/assert.ts:1640-1671 | a section that ends before the cap stands whole at its offset of the sent text |
| `JudgedDocument.FingerprintJudgedDoc` | src/assert.ts:1690-1704 | section i is the surviving prefix of part i, for exactly the parts that begin before the cut |
| `JudgedDocument.SectionsTile` | src/assert.ts:1686-1704 | the sections, joined as the parts were, are the surviving prefix up to a separator the cut may leave at its end |
| `JudgedDocument.SurvivorsAreFingerprintedWhole` | src/assert.ts:1686-1704 | a section is fingerprinted whole exactly when it survives the cap whole |
| `JudgedDocument.ReportsDetermine` | src/assert.ts:1207-1225 | composing twice for the same options gives the same document and the same report |
| `DocumentContents.FinalAnswerIsShown` | src/assert.ts:1512 | a final message stands, scrubbed, in the document up to its cap of 32768 characters, and the first section, after the note of the remote lane, is fingerprinted as the answer |
| `DocumentContents.TranscriptIsShown` | src/assert.ts:1513 | so does the transcript, up to 131072 characters, in the next section, when the words of the answer's cut are of ordinary length |
| `DocumentContents.UncutTranscriptIsShown` | src/assert.ts:1513 | and whole in its section, whatever the words before it, when the cut did not reach it |
| `DocumentContents.SpokenInOrder` | src/assert.ts:1528-1532 | the text of a sub-agent is that of its text turns that say something, in order |
| `DocumentContents.SubagentIsShown` | src/assert.ts:1526-1536 | off the remote lane, when asked for, the output of each sub-agent that says something has its own section, in order, and unless the cut reaches it stands there up to 16384 characters |
| `DocumentContents.SkillAnswerIsShown` | src/assert.ts:1550-1561 | when asked for, each top-level Skill call that some result answers has its section, in order, with the first result of its id up to 32768 characters, unless the cut reaches it |
| `DocumentContents.FileIsListed` | src/assert.ts:1577-1588 | each captured file in scope has its section, in order, whole, under its own path, marked as scratch or truncated exactly when it is, unless the cut reaches it |
| `DocumentContents.OutlineInOrder` | src/assert.ts:1504-1630 | the fingerprint lists the remote note, the answer, the transcript, the sub-agents, the Skill answers, the files, the scratch note and the health note in that order, each exactly as often as the run calls for; only the cut shortens the list |
| `DocumentContents.RemoteShowsNoFiles` | src/assert.ts:1504-1511 | a remote run shows no sub-agent, file or scratch note, and begins with the note that says so |
| `JudgeRefusal.ForkRecordRefusalIsExact` | src/assert.ts:947-989 | with fork results asked for, the record alone refuses exactly when some top-level Skill answer is missing, in the background or cut, or nothing was recorded |
| `JudgeRefusal.RefusalIsExact` | src/assert.ts:997-1158 | an assert is refused exactly when no grade could pass it, a Skill answer is not whole in the document, the capture does not hold every in-scope file whole, or the cap cut the authored evidence |
| `JudgeRefusal.RefusalNamesEveryGap` | src/assert.ts:1062-1112 | a refusal over the capture names exactly the in-scope paths omitted, unreadable or truncated |
| `JudgeRefusal.EvidenceSoundness` | src/assert.ts:991-1158 | when an assert is not refused, every in-scope authored file lies whole in the text sent and none is missing, and every top-level Skill answer asked for lies whole in it |
| `JudgePrepass.DocKeyIsInjective` | src/assert.ts:1217 | two asserts share a memo key only when their document options are the same |
| `JudgePrepass.StringifyIsInjective` | src/assert.ts:1217 | different scopes have different JSON texts, whatever characters their globs hold |
| `JudgePrepass.JudgedDoc` | src/assert.ts:1211-1225 | the memo always returns what composing afresh would |
| `JudgePrepass.GradeWithRetry` | src/assert.ts:1277-1311 | at most two calls, the second only after a malformed grade or a retryable failure; every priced call is added up |
| `JudgePrepass.Prepass.constructor` | src/assert.ts:1197-1206 | the maps start without entries |
| `JudgePrepass.Prepass.JudgeOne` | src/assert.ts:1257-1342 | one assert changes the maps exactly by its outcome: a refusal alone, or document, cost, attempts and a grade or an invalid mark |
| `JudgePrepass.Prepass.RunSemanticJudges` | src/assert.ts:1188-1343 | after the loop every assert has ended in the outcome its own document and replies call for, and nothing else is recorded |
| `JudgePrepass.ExactlyOneEnding` | src/assert.ts:1257-1342 | each assert is exactly one of refused, graded and invalid; refused means no call, no cost and no judged document |
| `JudgePrepass.WhatWasSpent` | src/assert.ts:1284-1342 | otherwise one or two calls were made, the cost is their sum, and a grade is the last reply's |
| `JudgePrepass.CheckAgrees` | src/assert.ts:3200-3271 | the check passes exactly on a grade in which as many claims passed as there are rubric lines, or as are asked for, and no more are asked for than there are lines; it fails on every other ending with its own verdict, and never says the judge was not run |
| `JudgePrepass.AllMeansEvery` | src/assert.ts:3245-3263 | with `min_pass: all` and a claim per rubric line, enough claims passed exactly when every one did |
| `JudgePrepass.NothingRecordedIsRed` | src/assert.ts:3222-3234 | where the pre-pass recorded nothing the check is never green: it is refused exactly when fork results are asked for and the record does not hold every answer whole, and is otherwise a judge not run |
| `JudgePrepass.GreenIsGrounded` | src/assert.ts:3200-3271 | a passing assert was graded over a document holding all its evidence whole, and at least as many of its claims passed as it needs |
| `CountVerdicts.JudgeHookCountIsExact` | src/assert.ts:2000-2008 | for a bound some count meets, the interval rule passes (fails) exactly when every resolution of the unreadable frames does |
| `CountVerdicts.EmptyBoundIsExactUnlessCovered` | src/assert.ts:2000-2008 | for a bound no count meets the rule is exact unless the range covers the whole gap |
| `CountVerdicts.PendingHooks` | src/assert.ts:1732-1743 | counts the distinct hooks in scope that started and have no response anywhere |
| `CountVerdicts.CheckHookCount` | src/assert.ts:2021-2063 | over at least one frame the verdict is exact over the frames and the pending hooks, for the bounds given, for at least one match when none is given and for no lower bound when only a maximum is; with none given it passes exactly when some frame matches; over no frame it never passes; an empty bound fails and a tool no frame can carry is unavailable |
| `CountVerdicts.CountVerdict` | src/assert.ts:4709-4717 | the loop over every possible count passes (fails) exactly when all of them meet (miss) the bound |
| `CountVerdicts.LabelVerdict` | src/assert.ts:4698-4717 | one sub-question's verdict is exact over its redacted labels |
| `CountVerdicts.QuestionOptionCount` | src/assert.ts:4662-4748 | a bad selected question fails whatever else is unknown, none selected and none unsure fails, and a pass needs every selected question sure and none unsure |
| `CountVerdicts.RuleIsSound` | src/assert.ts:4722-4748 | a pass (fail) holds however labels and selections turn out |
| `CountVerdicts.RuleIsExact` | src/assert.ts:4662-4748 | the verdict is exact if and only if every question's text is readable, or a selected question misses the bound anyway, or the unreadable ones could tip the rule either way |
| `CountVerdicts.AlwaysHoldsWhen` | src/assert.ts:4722-4748 | every resolution passes exactly when some question is selected and all that may be meet the bound whatever their labels are |
| `CountVerdicts.NeverHoldsWhen` | src/assert.ts:4722-4748 | every resolution fails exactly when a selected question misses the bound anyway, or none is selected and all that may be miss it |
| `CountVerdicts.UnsureSelectionIsCautious` | src/assert.ts:4662-4677 | an unreadable question whose labels meet the bound leaves the verdict unavailable although every resolution passes |
| `CountVerdicts.RevealingNeverFlips` | src/assert.ts:1998-2008 | making an unknown known never changes a pass or a fail of a count |
| `CountVerdicts.RevealingNeverFlipsTheRule` | src/assert.ts:4662-4748 | nor one of the universal rule, for selections and labels alike |
| `CountVerdicts.FoldMatches` | src/assert.ts:3062-3117 | over a non-empty set within the cap the `each` and `any` folds are exact over unreadable files and links that could hide one; otherwise they never pass |
| `CountVerdicts.RevealingNeverFlipsTheFold` | src/assert.ts:3091-3117 | nor does revealing an unreadable file flip a fold |
| `Matching.SameSet` | src/assert.ts:116-126 | true exactly when the lists are equal as multisets |
| `Matching.ScanInOrder` | src/assert.ts:4612-4616 | the greedy scan succeeds exactly when the wanted labels embed, in order, in the offered ones |
| `Matching.OffersExpected` | src/assert.ts:4597-4617 | each mode decides its own meaning: equal lists, equal multisets, an ordered embedding, or inclusion |
| `Matching.QuestionOptions` | src/assert.ts:4557-4627 | passes exactly when gates are recorded, a selector is given or only one was asked, and some selected gate offers what is wanted |
| `Matching.EqualMeansSame` | src/assert.ts:343-365 | two JSON values are deeply equal exactly when they mean the same, objects as finite maps and arrays as sequences |
| `Matching.DeepJsonEqualIsEquivalence` | src/assert.ts:337-365 | deep equality is reflexive, symmetric and transitive |
| `AsyncPool.PoolSafety` | src/async-pool.ts:20-47 | in every interleaving the items in flight equal `running` and never exceed the clamped limit, the started items are 0, 1, 2, ... each once, nothing starts after the first throw, and `onStop` runs once with the number of other items in flight |
| `AsyncPool.FinishedRun` | src/async-pool.ts:27-52 | without a throw every result is `fn`'s value; with one the pool fails with the earliest throw, after every started item settled, keeping the other results |
| `AsyncPool.PoolTerminates` | src/async-pool.ts:24-50 | a run takes at most the items plus the workers in steps, and one that is not finished can go on |
| `AsyncPool.Pool.constructor` | src/async-pool.ts:15-23 | the shared variables start as the initial state |
| `AsyncPool.Pool.Advance` | src/async-pool.ts:27-33 | a worker between items takes the next one or returns, exactly as the transition says |
| `AsyncPool.Pool.Resume` | src/async-pool.ts:33-47 | a worker whose call settled records the value or the throw, exactly as the transition says |
| `AsyncPool.PMapBounded` | src/async-pool.ts:15-52 | under an arbitrary scheduler the call ends, with the log of a finished run; it fails with the throw of that log's first rejection exactly when there is one, and is otherwise fulfilled with `fn`'s values |
| `Versions.CmpVersionStrings` | src/baseline.ts:974-988 | the loop's sign is the first differing segment's, missing segments counting as 0 |
| `Versions.OlderByNumbers` | src/baseline.ts:974-988 | of two versions of plain numbers, the older is the one whose first differing number is smaller, a missing number counting as 0 |
| `Versions.ParseIntReads` | src/baseline.ts:975-979 | a segment is read as the numeral it begins with, up to the first character that is no digit, negated after a minus sign |
| `Versions.ParseIntSkips` | src/baseline.ts:975-979 | leading white space does not count, and a segment with no numeral is 0 |
| `Versions.CmpIsTotalPreorder` | src/baseline.ts:971-988 | the comparison is reflexive, antisymmetric in sign and transitive |
| `Versions.PatchBumpIsLaterDifference` | src/baseline.ts:156-164 | a patch bump is exactly a first difference after equal major and minor texts, and is one in both directions |
| `NativeStaging.CompareIsStrict` | src/baseline.ts:445-458 | two marked candidates of one version compare equal only when they are the same |
| `NativeStaging.FirstIsBest` | src/baseline.ts:445-458 | no runnable marked install of the version was published later than the first candidate; of those published then a nested one comes first, and of those the one whose build has the least name |
| `NativeStaging.ScanNativeVersion` | src/baseline.ts:398-434 | the scan lists candidates in choice order, and the unusable and unknown entries in listing order |
| `NativeStaging.RunnableIs` | src/baseline.ts:398-420 | an entry can be run exactly when it is a real dir named by twelve hexadecimal digits, with the agent in it and a marker that names that same build |
| `NativeStaging.UnfamiliarIs` | src/baseline.ts:406-422 | an entry is of an unknown layout exactly when it is not named so, not hidden and not the agent itself |
| `NativeStaging.ScanFindsWhatRuns` | src/baseline.ts:387-434 | a version dir has a candidate exactly when something in it can be run, and every candidate is such an install |
| `NativeStaging.ChoiceForgetsListingOrder` | src/baseline.ts:445-458 | the candidates of a version do not depend on the order the directory is listed in |
| `NativeStaging.StagedNativeVersions` | src/baseline.ts:460-474 | every real, visible version dir is scanned, newest first |
| `NativeStaging.ListedIs` | src/baseline.ts:470-471 | the fallback considers exactly the version dirs that are real and not hidden |
| `NativeStaging.NewestIsMaximal` | src/baseline.ts:592-593 | no other version that runs is newer than the one the fallback takes |
| `StagingOrder.FallbackForgetsListingOrder` | src/baseline.ts:460-474 | the version list is the same for every listing order exactly when no two listed entries spell one version apart |
| `StagingOrder.ChoiceForgetsListingOrder` | src/baseline.ts:470-474 | the version fallen back to is the same for every listing order exactly when the newest one that runs is spelled in one way |
| `StagingOrder.TiedSpellingsFollowTheListing` | src/baseline.ts:470-474 | among any entries, when two spell the newest version apart the one listed first is taken |
| `Sorting.SortIsStable` | src/baseline.ts:473 | elements that compare equal stay in the order they were given |
| `NativeStaging.MissingMeansNothingRuns` | src/baseline.ts:535-622 | for a parseable pin the state is missing exactly when nothing can be run |
| `NativeStaging.MissingSaysWhy` | src/baseline.ts:604-621 | when nothing runs, the cause is an unusable build exactly when some stray build dir has a marker, unfinished when the stray ones all lack theirs, an unknown layout when there are only unfamiliar entries |
| `NativeStaging.ResolveRunsThePin` | src/baseline.ts:547-589 | while an install of the pinned version is there only that version is run: the build pinned for this host or, when no host has one, in the path, a nested install of it if there is any, and none exactly when it is not there; where no build is pinned for this host, the latest published install |
| `NativeStaging.ResolveFallsBackToAPatch` | src/baseline.ts:591-603 | otherwise an agent is run exactly when the newest other version is a patch apart, and it is the latest published install of that one; the refusal is for a larger difference when another version could be run, and for a missing agent when none could |
| `NativeStaging.OtherPinsAreNotScanned` | src/baseline.ts:536-545 | a pinned path in neither layout is run itself if it is there, and without a path nothing is |
| `Occurrences.CountStringInBuffer` | src/baseline.ts:29-39 | the greedy count ends, and is the largest number of occurrences no two of which overlap |
| `Occurrences.OccursIs` | src/baseline.ts:29-39 | the needle occurs at a place exactly when the buffer is what comes before it, the needle, and what comes after |
| `PlaceholderScan.ChangelogPlaceholderLines` | scripts/release-preflight.ts:117-156 | the reported lines are, in order, those of one character-by-character scan of the whole section with code spans removed |
| `PlaceholderScan.StripDropsSpans` | scripts/release-preflight.ts:131 | stripping a line drops exactly the characters in closed code spans: backticks pair up from the left, and one left over opens nothing |
| `PlaceholderScan.SectionStartIs` | scripts/release-preflight.ts:125-129 | the section begins after the first heading of its version, and there is none without one |
| `PlaceholderScan.SectionEndIs` | scripts/release-preflight.ts:130 | it ends before the next heading of any version, or with the file |
| `PlaceholderScan.ScanLine` | scripts/release-preflight.ts:131-154 | several comments on one line, and one open over lines, leave the scanner and the whole-text scan in agreement |
| `PlaceholderScan.SaysByLine` | scripts/release-preflight.ts:146-149 | the word never reaches across a line break, so gathering a comment line by line loses nothing |
| `PlaceholderScan.SaysMeans` | scripts/release-preflight.ts:149 | a comment says it exactly when the word stands somewhere in it, each letter in either case |

## Left out

- Floating point: p-values, rates and costs are exact; `lgamma`, `exp` and the rounding of `Number` on very long digit strings are not modelled.
- Message wording: the words around a section's text are arbitrary texts, except the closing marker of a document cut by the aggregate cap, which is shortened; evidence strings and warnings do not appear.
- Secret scrubbing, hashing, regex and glob matching: arbitrary functions; a hashed section is represented by the text that is hashed.
- File systems, Docker, git and process spawning: inputs or events; `kill` has no modelled effect, so events after it may come in any order.
- Texts are sequences of Unicode scalar values, not of UTF-16 units; decoded output holds no lone surrogates, and a buffer's length in units is at most its length in bytes either way.
- AsyncPool.PoolSafety: an `onStop` callback that throws is not modelled.
- Flattened key strings: a key is its file, path, kind and member, so two keys whose dotted texts coincide, a file with no leaves and its `{}` entry, and the final sorting of the lists do not appear; `flatten` and `leafKeys` are the `At` function.
- SurfaceDiff.DecidePath: the source cuts a key at its last dot to find the path (scripts/check-surface.ts:241), which for an enum member such as `v1.0` falls inside the member; a node whose only leaf is such an enum, moved intact into a branch, is removed there and moved intact in the model.
- SurfaceCompat.OkDiffIsCompatible: for old schemas whose nodes have a type or are only a union, and new ones whose unions stand on nodes without a type or enum of their own; where the leaves cannot tell (a raised numeric const, colliding enum labels, a schema that appears where anything was allowed) it requires that nothing of the kind happened, and SurfaceGaps shows what happens otherwise; nodes without any keyword, `$ref`, `oneOf`, `allOf`, `not`, `propertyNames`, schema-valued `additionalProperties` and fractional bounds are not in the fragment, so `schema/scenario.schema.json` and `schema/scenario-multi-leg.schema.json` are covered only in part.
- The regrouping of `widen` and `narrow` in the classifier is stated as conditions on two leaves, not as additions to and deletions from two sets.
- `pickLastReleaseTag`, the git reading around it and the model and prompt guards of the gate: a reading of one branch settles them.
- JudgePrepass.Prepass.RunSemanticJudges: judge models, transports, token counts, error texts and rationales are not recorded, and `semantic_pairwise` asserts are not modelled; assertions are keyed by position.
- JudgedDocument.ScopeAuthoredEvidence: characters are Unicode scalar values, so lone surrogates in texts and globs do not occur.
- NativeStaging.StagedNativeVersions: the built-in sort is the stable insertion sort of `Sorting`; path strings and the notes written to standard error do not appear, and symbolic links matter only as dirs the fallback skips.
- PlaceholderScan.ChangelogPlaceholderLines: reports line numbers; the text of a reported line is that line.
- The rest of `check`, the answer channel and policy, and the other scripts: mostly single branches that would add only easy members.
