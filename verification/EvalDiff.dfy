/** `bucketDiff` and `calibrateScenario` of scripts/eval-gate.ts: every claim of the baseline is accounted for. */
module EvalDiff {
  import opened ClaimText
  import opened EvalProfile
  import FisherTail
  import opened Options
  import Sorting

  const ALPHA: real := 0.05

  datatype Entry = Entry(name: string, sp: ScenarioProfile)

  /** A profile is an object: scenarios in insertion order, one per name. */
  type Profile = seq<Entry>

  predicate DistinctNames(p: Profile) {
    forall i, j :: 0 <= i < j < |p| ==> p[i].name != p[j].name
  }

  function Lookup(p: Profile, name: string): (r: Option<ScenarioProfile>)
    ensures r.Some? <==> exists i :: 0 <= i < |p| && p[i].name == name
    ensures r.Some? ==> exists i :: 0 <= i < |p| && p[i].name == name && p[i].sp == r.value
  {
    if p == [] then None
    else if p[0].name == name then Some(p[0].sp)
    else
      var r := Lookup(p[1..], name);
      assert r.Some? ==> exists i :: 0 <= i < |p[1..]| && p[1..][i].name == name && p[1..][i].sp == r.value;
      assert forall i :: 0 < i < |p| ==> p[i] == p[1..][i - 1];
      r
  }

  lemma {:induction false} LookupAt(p: Profile, i: nat)
    requires DistinctNames(p) && i < |p|
    ensures Lookup(p, p[i].name) == Some(p[i].sp)
  {
    if i > 0 { LookupAt(p[1..], i - 1); }
  }

  // ---------------------------------------------------------------------------------------------
  // One claim.

  predicate Lower(c: Fraction, b: Fraction) { c.n * b.d < b.n * c.d }

  /** One-sided Fisher-exact drop at ALPHA. */
  ghost predicate SignificantDrop(b: Fraction, c: Fraction)
    requires b.n <= b.d && c.n <= c.d
  {
    FisherTail.DropP(b.n, b.d, c.n, c.d) <= ALPHA
  }

  datatype Fate = NoMatch | Skipped | Malformed | Improved | Unchanged | Regressed | Inconclusive

  /** What the diff says about baseline claim `bc`, given the candidate's claims. */
  ghost function FateOf(bc: ClaimProfile, claims: seq<ClaimProfile>): Fate {
    var j := Find(claims, ClaimKey(bc.claim));
    if j == |claims| then NoMatch
    else if bc.discriminating == Some(false) then Skipped
    else Compare(ParseFraction(bc.pass), ParseFraction(claims[j].pass))
  }

  ghost function Compare(b: Option<Fraction>, c: Option<Fraction>): Fate
    requires b.Some? ==> b.value.n <= b.value.d
    requires c.Some? ==> c.value.n <= c.value.d
  {
    if b.None? || c.None? then Malformed
    else if Lower(b.value, c.value) then Improved
    else if !Lower(c.value, b.value) then Unchanged
    else if SignificantDrop(b.value, c.value) then Regressed
    else Inconclusive
  }

  datatype Row = Row(scenario: string, index: nat, claim: string, base: string, cand: string, p: real)

  datatype Unmatched =
    | MissingScenario(scenario: string)
    | MalformedTrigger(scenario: string)
    | UnmatchedClaim(scenario: string, index: nat, claim: string)
    | MalformedPass(scenario: string, index: nat)
    | CandidateOnlyClaim(scenario: string, claim: string)
    | CandidateOnlyScenario(scenario: string)

  datatype Bucketed = Bucketed(regressions: seq<Row>, inconclusive: seq<Row>, improvements: seq<Row>,
                               triggerRegressions: seq<string>, skipped: nat, unmatched: seq<Unmatched>, hardFail: bool)

  /** The p recorded on a row; the improvements list carries none. */
  ghost function RowP(b: Option<Fraction>, c: Option<Fraction>): real
    requires b.Some? ==> b.value.n <= b.value.d
    requires c.Some? ==> c.value.n <= c.value.d
  {
    if b.None? || c.None? || !Lower(c.value, b.value) then 0.0
    else FisherTail.DropP(b.value.n, b.value.d, c.value.n, c.value.d)
  }

  /** Neither a coverage gap nor unreadable: the claim is compared, or known not to discriminate. */
  ghost predicate ClaimCovered(bc: ClaimProfile, claims: seq<ClaimProfile>) {
    || bc.discriminating == Some(false)
    || exists j :: && 0 <= j < |claims| && ClaimKey(claims[j].claim) == ClaimKey(bc.claim)
                   && (forall i :: 0 <= i < j ==> ClaimKey(claims[i].claim) != ClaimKey(bc.claim))
                   && ParseFraction(bc.pass).Some? && ParseFraction(claims[j].pass).Some?
  }

  /** One baseline claim of a shared scenario, judged: its fate, its row, and what it adds to `unmatched`. */
  datatype Outcome = Outcome(fate: Fate, row: Row, gap: seq<Unmatched>, covered: bool)

  ghost function OutcomeOf(scenario: string, bc: ClaimProfile, claims: seq<ClaimProfile>): Outcome {
    var j := Find(claims, ClaimKey(bc.claim));
    var fate := FateOf(bc, claims);
    var cand := if j < |claims| then claims[j].pass else "";
    var p := if j < |claims| then RowP(ParseFraction(bc.pass), ParseFraction(cand)) else 0.0;
    Outcome(fate, Row(scenario, bc.index, bc.claim, bc.pass, cand, p),
            match fate
            case NoMatch => [UnmatchedClaim(scenario, bc.index, bc.claim)]
            case Malformed => [MalformedPass(scenario, bc.index)]
            case _ => [],
            !fate.Malformed? && (fate.NoMatch? ==> bc.discriminating == Some(false)))
  }

  ghost function Outcomes(scenario: string, base: seq<ClaimProfile>, claims: seq<ClaimProfile>): seq<Outcome> {
    seq(|base|, i requires 0 <= i < |base| => OutcomeOf(scenario, base[i], claims))
  }

  lemma CoveredByFate(bc: ClaimProfile, claims: seq<ClaimProfile>)
    ensures ClaimCovered(bc, claims) <==>
            !FateOf(bc, claims).Malformed? && (FateOf(bc, claims).NoMatch? ==> bc.discriminating == Some(false))
  {}

  function Put(rows: seq<Row>, on: bool, row: Row): seq<Row> { if on then rows + [row] else rows }

  /** The rows of one fate, in order. */
  function Rows(os: seq<Outcome>, fate: Fate): seq<Row> {
    if os == [] then [] else Put(Rows(os[..|os| - 1], fate), os[|os| - 1].fate == fate, os[|os| - 1].row)
  }

  function Gaps(os: seq<Outcome>): seq<Unmatched> {
    if os == [] then [] else Gaps(os[..|os| - 1]) + os[|os| - 1].gap
  }

  function Count(os: seq<Outcome>, fate: Fate): nat {
    if os == [] then 0 else Count(os[..|os| - 1], fate) + if os[|os| - 1].fate == fate then 1 else 0
  }

  // ---------------------------------------------------------------------------------------------
  // The diff.

  /** Compare one pair of fractions with the Fisher rule. */
  method Judge(b: Option<Fraction>, c: Option<Fraction>) returns (fate: Fate, p: real)
    requires b.Some? ==> b.value.n <= b.value.d
    requires c.Some? ==> c.value.n <= c.value.d
    ensures fate == Compare(b, c) && p == RowP(b, c)
  {
    p := 0.0;
    if b.None? || c.None? { return Malformed, p; }
    if Lower(b.value, c.value) { return Improved, p; }
    if !Lower(c.value, b.value) { return Unchanged, p; }
    p := FisherTail.FisherDropP(b.value.n, b.value.d, c.value.n, c.value.d);
    fate := if p <= ALPHA then Regressed else Inconclusive;
  }

  /** What one judged claim adds to the result. */
  function Record(o: Outcome, out: Bucketed): Bucketed {
    Bucketed(Put(out.regressions, o.fate.Regressed?, o.row),
             Put(out.inconclusive, o.fate.Inconclusive?, o.row),
             Put(out.improvements, o.fate.Improved?, o.row),
             out.triggerRegressions,
             out.skipped + (if o.fate.Skipped? then 1 else 0),
             out.unmatched + o.gap,
             out.hardFail || !o.covered)
  }

  function RecordAll(os: seq<Outcome>, start: Bucketed): Bucketed {
    if os == [] then start else Record(os[|os| - 1], RecordAll(os[..|os| - 1], start))
  }

  /** The result of a run of claims, bucket by bucket. */
  lemma {:induction false} RecordAllBuckets(os: seq<Outcome>, start: Bucketed)
    ensures RecordAll(os, start) ==
            Bucketed(start.regressions + Rows(os, Regressed), start.inconclusive + Rows(os, Inconclusive),
                     start.improvements + Rows(os, Improved), start.triggerRegressions,
                     start.skipped + Count(os, Skipped), start.unmatched + Gaps(os),
                     start.hardFail || exists i :: 0 <= i < |os| && !os[i].covered)
  {
    if os != [] { RecordAllBuckets(os[..|os| - 1], start); }
  }

  /** The baseline claims of one shared scenario. */
  method DiffClaims(scenario: string, base: seq<ClaimProfile>, claims: seq<ClaimProfile>, start: Bucketed)
    returns (out: Bucketed)
    ensures out == RecordAll(Outcomes(scenario, base, claims), start)
  {
    out := start;
    ghost var os := Outcomes(scenario, base, claims);
    for i := 0 to |base|
      invariant out == RecordAll(os[..i], start)
    {
      assert os[..i + 1][..i] == os[..i];
      out := DiffClaim(scenario, base[i], claims, out);
    }
    assert os[..|base|] == os;
  }

  method DiffClaim(scenario: string, bc: ClaimProfile, claims: seq<ClaimProfile>, start: Bucketed)
    returns (out: Bucketed)
    ensures out == Record(OutcomeOf(scenario, bc, claims), start)
  {
    out := start;
    var j := Find(claims, ClaimKey(bc.claim));
    if j == |claims| {
      out := out.(unmatched := out.unmatched + [UnmatchedClaim(scenario, bc.index, bc.claim)]);
      if bc.discriminating != Some(false) { out := out.(hardFail := true); }
      return;
    }
    if bc.discriminating == Some(false) { return out.(skipped := out.skipped + 1); }
    var fate, p := Judge(ParseFraction(bc.pass), ParseFraction(claims[j].pass));
    var row := Row(scenario, bc.index, bc.claim, bc.pass, claims[j].pass, p);
    match fate
    case Malformed => out := out.(unmatched := out.unmatched + [MalformedPass(scenario, bc.index)], hardFail := true);
    case Improved => out := out.(improvements := out.improvements + [row]);
    case Regressed => out := out.(regressions := out.regressions + [row]);
    case Inconclusive => out := out.(inconclusive := out.inconclusive + [row]);
    case _ =>
  }

  /** The skill fired in at least 4 of 5 baseline runs and significantly less often in the candidate. */
  ghost predicate TriggerDropped(b: Option<Fraction>, c: Option<Fraction>)
    requires b.Some? ==> b.value.n <= b.value.d
    requires c.Some? ==> c.value.n <= c.value.d
  {
    b.Some? && c.Some? && 5 * b.value.n >= 4 * b.value.d && Compare(b, c).Regressed?
  }

  ghost predicate TriggerReadable(bs: ScenarioProfile, cs: ScenarioProfile) {
    ParseFraction(bs.skillInvoked).Some? && ParseFraction(cs.skillInvoked).Some?
  }

  /** The baseline has a claim with the same key. */
  predicate Known(base: seq<ClaimProfile>, cc: ClaimProfile) {
    exists i :: 0 <= i < |base| && ClaimKey(base[i].claim) == ClaimKey(cc.claim)
  }

  ghost predicate NoNewClaims(bs: ScenarioProfile, cs: ScenarioProfile) {
    forall j :: 0 <= j < |cs.claims| ==> Known(bs.claims, cs.claims[j])
  }

  /** Everything about one shared scenario could be compared. */
  ghost predicate ScenarioCovered(bs: ScenarioProfile, cs: ScenarioProfile) {
    && TriggerReadable(bs, cs)
    && (forall i :: 0 <= i < |bs.claims| ==> ClaimCovered(bs.claims[i], cs.claims))
    && NoNewClaims(bs, cs)
  }

  method DiffTrigger(scenario: string, bs: ScenarioProfile, cs: ScenarioProfile, start: Bucketed)
    returns (out: Bucketed)
    ensures out == start.(
              triggerRegressions := start.triggerRegressions +
                (if TriggerDropped(ParseFraction(bs.skillInvoked), ParseFraction(cs.skillInvoked))
                 then [scenario] else []),
              unmatched := start.unmatched + (if TriggerReadable(bs, cs) then [] else [MalformedTrigger(scenario)]),
              hardFail := start.hardFail || !TriggerReadable(bs, cs))
  {
    var b, c := ParseFraction(bs.skillInvoked), ParseFraction(cs.skillInvoked);
    if b.None? || c.None? {
      return start.(unmatched := start.unmatched + [MalformedTrigger(scenario)], hardFail := true);
    }
    out := start;
    if 5 * b.value.n >= 4 * b.value.d {
      var fate, p := Judge(b, c);
      if fate.Regressed? { out := out.(triggerRegressions := out.triggerRegressions + [scenario]); }
    }
  }

  /** Candidate claims without a baseline counterpart. */
  function NewClaims(scenario: string, base: seq<ClaimProfile>, cands: seq<ClaimProfile>): seq<Unmatched> {
    if cands == [] then []
    else
      var cc := cands[|cands| - 1];
      NewClaims(scenario, base, cands[..|cands| - 1])
      + if !Known(base, cc) then [CandidateOnlyClaim(scenario, cc.claim)] else []
  }

  method DiffNewClaims(scenario: string, base: seq<ClaimProfile>, cands: seq<ClaimProfile>, start: Bucketed)
    returns (out: Bucketed)
    ensures var extra := NewClaims(scenario, base, cands);
            out == start.(unmatched := start.unmatched + extra, hardFail := start.hardFail || extra != [])
  {
    out := start;
    for j := 0 to |cands|
      invariant var extra := NewClaims(scenario, base, cands[..j]);
                out == start.(unmatched := start.unmatched + extra, hardFail := start.hardFail || extra != [])
    {
      assert cands[..j + 1][..j] == cands[..j];
      if !Known(base, cands[j]) {
        out := out.(unmatched := out.unmatched + [CandidateOnlyClaim(scenario, cands[j].claim)], hardFail := true);
      }
    }
    assert cands[..|cands|] == cands;
  }

  lemma {:induction false} NoneNew(scenario: string, base: seq<ClaimProfile>, cands: seq<ClaimProfile>)
    ensures NewClaims(scenario, base, cands) == [] <==> forall j :: 0 <= j < |cands| ==> Known(base, cands[j])
  {
    if cands != [] {
      var n := |cands| - 1;
      NoneNew(scenario, base, cands[..n]);
      assert NewClaims(scenario, base, cands) == [] <==>
        NewClaims(scenario, base, cands[..n]) == [] && Known(base, cands[n]);
    }
  }

  // ---------------------------------------------------------------------------------------------
  // All scenarios.

  /** The judged claims of one baseline scenario; none when the candidate lacks it. */
  ghost function OutcomesFor(e: Entry, candidate: Profile): seq<Outcome> {
    match Lookup(candidate, e.name)
    case None => []
    case Some(cs) => Outcomes(e.name, e.sp.claims, cs.claims)
  }

  ghost function AllOutcomes(baseline: Profile, candidate: Profile): seq<Outcome> {
    if baseline == [] then []
    else AllOutcomes(baseline[..|baseline| - 1], candidate) + OutcomesFor(baseline[|baseline| - 1], candidate)
  }

  /** What one baseline scenario adds to `unmatched`, in order. */
  ghost function GapsFor(e: Entry, candidate: Profile): seq<Unmatched> {
    match Lookup(candidate, e.name)
    case None => [MissingScenario(e.name)]
    case Some(cs) =>
      (if TriggerReadable(e.sp, cs) then [] else [MalformedTrigger(e.name)])
      + Gaps(OutcomesFor(e, candidate)) + NewClaims(e.name, e.sp.claims, cs.claims)
  }

  ghost predicate TriggerDroppedFor(e: Entry, candidate: Profile) {
    match Lookup(candidate, e.name)
    case None => false
    case Some(cs) => TriggerDropped(ParseFraction(e.sp.skillInvoked), ParseFraction(cs.skillInvoked))
  }

  /** Scenarios only the candidate has. */
  function NewScenarios(baseline: Profile, candidate: Profile): seq<Unmatched> {
    if candidate == [] then []
    else
      var n := candidate[|candidate| - 1].name;
      NewScenarios(baseline, candidate[..|candidate| - 1])
      + if Lookup(baseline, n).None? then [CandidateOnlyScenario(n)] else []
  }

  ghost predicate AllClaimsCovered(os: seq<Outcome>) {
    forall i :: 0 <= i < |os| ==> os[i].covered
  }

  /** This baseline scenario was compared in full. */
  ghost predicate EntryCovered(e: Entry, candidate: Profile) {
    match Lookup(candidate, e.name)
    case None => false
    case Some(cs) =>
      && TriggerReadable(e.sp, cs)
      && AllClaimsCovered(OutcomesFor(e, candidate))
      && NewClaims(e.name, e.sp.claims, cs.claims) == []
  }

  /** One scenario's contribution to the result. */
  datatype Share = Share(os: seq<Outcome>, triggers: seq<string>, gaps: seq<Unmatched>, covered: bool)

  ghost function ShareOf(e: Entry, candidate: Profile): Share {
    Share(OutcomesFor(e, candidate), if TriggerDroppedFor(e, candidate) then [e.name] else [], GapsFor(e, candidate),
          EntryCovered(e, candidate))
  }

  function AddShare(x: Share, out: Bucketed): Bucketed {
    Bucketed(out.regressions + Rows(x.os, Regressed), out.inconclusive + Rows(x.os, Inconclusive),
             out.improvements + Rows(x.os, Improved), out.triggerRegressions + x.triggers,
             out.skipped + Count(x.os, Skipped), out.unmatched + x.gaps, out.hardFail || !x.covered)
  }

  method DiffEntry(e: Entry, candidate: Profile, start: Bucketed) returns (out: Bucketed)
    ensures out == AddShare(ShareOf(e, candidate), start)
  {
    var found := Lookup(candidate, e.name);
    if found.None? {
      return start.(unmatched := start.unmatched + [MissingScenario(e.name)], hardFail := true);
    }
    out := DiffShared(e, found.value, candidate, start);
  }

  method DiffShared(e: Entry, cs: ScenarioProfile, ghost candidate: Profile, start: Bucketed) returns (out: Bucketed)
    requires Lookup(candidate, e.name) == Some(cs)
    ensures out == AddShare(ShareOf(e, candidate), start)
  {
    var triggered := DiffTrigger(e.name, e.sp, cs, start);
    var claimed := DiffClaims(e.name, e.sp.claims, cs.claims, triggered);
    out := DiffNewClaims(e.name, e.sp.claims, cs.claims, claimed);
    ComposeShare(OutcomesFor(e, candidate), if TriggerDroppedFor(e, candidate) then [e.name] else [],
                 if TriggerReadable(e.sp, cs) then [] else [MalformedTrigger(e.name)],
                 NewClaims(e.name, e.sp.claims, cs.claims), TriggerReadable(e.sp, cs), start);
  }

  /** The three passes over one scenario add up to its share. */
  lemma ComposeShare(os: seq<Outcome>, triggers: seq<string>, gap: seq<Unmatched>, extra: seq<Unmatched>,
                     readable: bool, start: Bucketed)
    ensures var triggered := start.(triggerRegressions := start.triggerRegressions + triggers,
                                    unmatched := start.unmatched + gap, hardFail := start.hardFail || !readable);
            var claimed := RecordAll(os, triggered);
            claimed.(unmatched := claimed.unmatched + extra, hardFail := claimed.hardFail || extra != []) ==
            AddShare(Share(os, triggers, gap + Gaps(os) + extra, readable && AllClaimsCovered(os) && extra == []),
                     start)
  {
    var triggered := start.(triggerRegressions := start.triggerRegressions + triggers,
                            unmatched := start.unmatched + gap, hardFail := start.hardFail || !readable);
    RecordAllBuckets(os, triggered);
    assert start.unmatched + gap + Gaps(os) + extra == start.unmatched + (gap + Gaps(os) + extra);
  }

  ghost function Shares(baseline: Profile, candidate: Profile): seq<Share> {
    seq(|baseline|, i requires 0 <= i < |baseline| => ShareOf(baseline[i], candidate))
  }

  function AddShares(xs: seq<Share>, start: Bucketed): Bucketed {
    if xs == [] then start else AddShare(xs[|xs| - 1], AddShares(xs[..|xs| - 1], start))
  }

  function JoinOutcomes(xs: seq<Share>): seq<Outcome> {
    if xs == [] then [] else JoinOutcomes(xs[..|xs| - 1]) + xs[|xs| - 1].os
  }

  function JoinTriggers(xs: seq<Share>): seq<string> {
    if xs == [] then [] else JoinTriggers(xs[..|xs| - 1]) + xs[|xs| - 1].triggers
  }

  function JoinGaps(xs: seq<Share>): seq<Unmatched> {
    if xs == [] then [] else JoinGaps(xs[..|xs| - 1]) + xs[|xs| - 1].gaps
  }

  lemma {:induction false} RowsAppend(xs: seq<Outcome>, ys: seq<Outcome>, fate: Fate)
    ensures Rows(xs + ys, fate) == Rows(xs, fate) + Rows(ys, fate)
  {
    if ys == [] {
      assert xs + ys == xs;
    } else {
      RowsAppend(xs, ys[..|ys| - 1], fate);
      assert (xs + ys)[..|xs + ys| - 1] == xs + ys[..|ys| - 1];
    }
  }

  lemma {:induction false} CountAppend(xs: seq<Outcome>, ys: seq<Outcome>, fate: Fate)
    ensures Count(xs + ys, fate) == Count(xs, fate) + Count(ys, fate)
  {
    if ys == [] {
      assert xs + ys == xs;
    } else {
      CountAppend(xs, ys[..|ys| - 1], fate);
      assert (xs + ys)[..|xs + ys| - 1] == xs + ys[..|ys| - 1];
    }
  }

  const EMPTY: Bucketed := Bucketed([], [], [], [], 0, [], false)

  lemma {:induction false} SharesInTotal(xs: seq<Share>)
    ensures var os := JoinOutcomes(xs);
            AddShares(xs, EMPTY) ==
            Bucketed(Rows(os, Regressed), Rows(os, Inconclusive), Rows(os, Improved), JoinTriggers(xs),
                     Count(os, Skipped), JoinGaps(xs), exists i :: 0 <= i < |xs| && !xs[i].covered)
  {
    if xs != [] {
      SharesInTotal(xs[..|xs| - 1]);
      var os, more := JoinOutcomes(xs[..|xs| - 1]), xs[|xs| - 1].os;
      RowsAppend(os, more, Regressed);
      RowsAppend(os, more, Inconclusive);
      RowsAppend(os, more, Improved);
      CountAppend(os, more, Skipped);
    }
  }

  lemma {:induction false} SharesJoinOutcomes(baseline: Profile, candidate: Profile)
    ensures JoinOutcomes(Shares(baseline, candidate)) == AllOutcomes(baseline, candidate)
  {
    if baseline != [] {
      var before := baseline[..|baseline| - 1];
      SharesJoinOutcomes(before, candidate);
      assert Shares(baseline, candidate)[..|baseline| - 1] == Shares(before, candidate);
    }
  }

  predicate SortedByP(rows: seq<Row>) {
    forall i, j :: 0 <= i < j < |rows| ==> rows[i].p <= rows[j].p
  }

  predicate LowerP(a: Row, b: Row) { a.p <= b.p }

  function AtP(p: real): Row -> bool { (row: Row) => row.p == p }

  /** The rows of `from` by p, those with equal p in the order they came in. */
  ghost predicate OrderedByP(rows: seq<Row>, from: seq<Row>) {
    && SortedByP(rows) && multiset(rows) == multiset(from)
    && forall p :: Sorting.Keep(rows, AtP(p)) == Sorting.Keep(from, AtP(p))
  }

  /** `sort((a, b) => a.p - b.p)`, which is stable. */
  method SortByP(rows: seq<Row>) returns (sorted: seq<Row>)
    ensures OrderedByP(sorted, rows)
  {
    sorted := Sorting.SortBy(rows, LowerP);
    Sorting.SortKeeps(rows, LowerP);
    Sorting.SortSorts(rows, LowerP);
    assert forall i, j :: 0 <= i < j < |sorted| ==> LowerP(sorted[i], sorted[j]);
    forall p ensures Sorting.Keep(sorted, AtP(p)) == Sorting.Keep(rows, AtP(p)) {
      Sorting.SortIsStable(rows, LowerP, AtP(p));
    }
  }

  method DiffNewScenarios(baseline: Profile, candidate: Profile, start: Bucketed) returns (out: Bucketed)
    ensures var extra := NewScenarios(baseline, candidate);
            out == start.(unmatched := start.unmatched + extra, hardFail := start.hardFail || extra != [])
  {
    out := start;
    for j := 0 to |candidate|
      invariant var extra := NewScenarios(baseline, candidate[..j]);
                out == start.(unmatched := start.unmatched + extra, hardFail := start.hardFail || extra != [])
    {
      assert candidate[..j + 1][..j] == candidate[..j];
      var n := candidate[j].name;
      if Lookup(baseline, n).None? {
        out := out.(unmatched := out.unmatched + [CandidateOnlyScenario(n)], hardFail := true);
      }
    }
    assert candidate[..|candidate|] == candidate;
  }

  /** `bucketDiff`: every list holds exactly the judged claims of its fate. */
  method BucketDiff(baseline: Profile, candidate: Profile) returns (out: Bucketed)
    requires DistinctNames(baseline) && DistinctNames(candidate)
    ensures var os := AllOutcomes(baseline, candidate);
            && OrderedByP(out.regressions, Rows(os, Regressed))
            && out.inconclusive == Rows(os, Inconclusive)
            && out.improvements == Rows(os, Improved)
            && out.skipped == Count(os, Skipped)
    ensures out.triggerRegressions == JoinTriggers(Shares(baseline, candidate))
    ensures out.unmatched == JoinGaps(Shares(baseline, candidate)) + NewScenarios(baseline, candidate)
    ensures out.hardFail <==> !Covered(baseline, candidate)
  {
    out := EMPTY;
    ghost var shares := Shares(baseline, candidate);
    for i := 0 to |baseline|
      invariant out == AddShares(shares[..i], EMPTY)
    {
      assert shares[..i + 1][..i] == shares[..i];
      out := DiffEntry(baseline[i], candidate, out);
    }
    assert shares[..|baseline|] == shares;
    SharesInTotal(shares);
    SharesJoinOutcomes(baseline, candidate);
    CoveredEntries(baseline, candidate);
    out := DiffNewScenarios(baseline, candidate, out);
    var sorted := SortByP(out.regressions);
    out := out.(regressions := sorted);
  }

  // ---------------------------------------------------------------------------------------------
  // Main results.

  /** The gate's own condition, stated over the two profiles: the scenario sets agree, and in every scenario the trigger
      fractions are well formed, no claim is new, and every claim not tagged non-discriminating has a text match with
      well-formed fractions. `BucketDiff` raises `hardFail` exactly when it does not hold. */
  ghost predicate Covered(baseline: Profile, candidate: Profile) {
    && (forall i :: 0 <= i < |baseline| ==> Compared(baseline[i], candidate))
    && (forall j :: 0 <= j < |candidate| ==> Lookup(baseline, candidate[j].name).Some?)
  }

  /** The candidate has the scenario, and all of it could be compared. */
  ghost predicate Compared(e: Entry, candidate: Profile) {
    Lookup(candidate, e.name).Some? && ScenarioCovered(e.sp, Lookup(candidate, e.name).value)
  }

  lemma EntryIsCovered(e: Entry, candidate: Profile)
    ensures EntryCovered(e, candidate) <==> Compared(e, candidate)
  {
    match Lookup(candidate, e.name)
    case None =>
    case Some(cs) =>
      NoneNew(e.name, e.sp.claims, cs.claims);
      OutcomesCovered(e.name, e.sp.claims, cs.claims);
  }

  lemma OutcomesCovered(scenario: string, base: seq<ClaimProfile>, claims: seq<ClaimProfile>)
    ensures AllClaimsCovered(Outcomes(scenario, base, claims)) <==>
            forall i :: 0 <= i < |base| ==> ClaimCovered(base[i], claims)
  {
    var os := Outcomes(scenario, base, claims);
    forall i | 0 <= i < |base|
      ensures os[i].covered <==> ClaimCovered(base[i], claims)
    {
      CoveredByFate(base[i], claims);
    }
  }

  lemma {:induction false} NoNewScenarios(baseline: Profile, candidate: Profile)
    ensures NewScenarios(baseline, candidate) == [] <==>
            forall j :: 0 <= j < |candidate| ==> Lookup(baseline, candidate[j].name).Some?
  {
    if candidate != [] { NoNewScenarios(baseline, candidate[..|candidate| - 1]); }
  }

  lemma CoveredEntries(baseline: Profile, candidate: Profile)
    ensures Covered(baseline, candidate) <==>
            && (forall i :: 0 <= i < |baseline| ==> Shares(baseline, candidate)[i].covered)
            && NewScenarios(baseline, candidate) == []
  {
    NoNewScenarios(baseline, candidate);
    forall i | 0 <= i < |baseline|
      ensures Shares(baseline, candidate)[i].covered <==> Compared(baseline[i], candidate)
    {
      EntryIsCovered(baseline[i], candidate);
    }
  }

  /** Accounting: the claims of the shared scenarios fall into exactly one of the buckets. */
  lemma {:induction false} EveryClaimAccountedFor(os: seq<Outcome>)
    ensures Count(os, NoMatch) + Count(os, Malformed) + Count(os, Skipped) + Count(os, Improved) + Count(os, Unchanged)
            + Count(os, Regressed) + Count(os, Inconclusive) == |os|
    ensures |Rows(os, Improved)| == Count(os, Improved)
    ensures |Rows(os, Regressed)| == Count(os, Regressed)
    ensures |Rows(os, Inconclusive)| == Count(os, Inconclusive)
  {
    if os != [] { EveryClaimAccountedFor(os[..|os| - 1]); }
  }

  /** Claims of the baseline scenarios the candidate has too. */
  ghost function SharedClaims(baseline: Profile, candidate: Profile): nat {
    if baseline == [] then 0
    else
      var e := baseline[|baseline| - 1];
      SharedClaims(baseline[..|baseline| - 1], candidate) + if Lookup(candidate, e.name).Some? then |e.sp.claims| else 0
  }

  lemma {:induction false} OneOutcomePerClaim(baseline: Profile, candidate: Profile)
    ensures |AllOutcomes(baseline, candidate)| == SharedClaims(baseline, candidate)
  {
    if baseline != [] { OneOutcomePerClaim(baseline[..|baseline| - 1], candidate); }
  }

  predicate DistinctClaims(claims: seq<ClaimProfile>) {
    forall i, j :: 0 <= i < j < |claims| ==> ClaimKey(claims[i].claim) != ClaimKey(claims[j].claim)
  }

  /** Mirror: with distinct claims, neither tagged non-discriminating, a claim improves from one profile to the other
      exactly when it drops the other way round, and is unchanged or malformed both ways or neither. */
  lemma FatesMirror(base: seq<ClaimProfile>, cand: seq<ClaimProfile>, i: nat, j: nat)
    requires DistinctClaims(base) && DistinctClaims(cand) && i < |base| && j < |cand|
    requires ClaimKey(base[i].claim) == ClaimKey(cand[j].claim)
    requires base[i].discriminating != Some(false) && cand[j].discriminating != Some(false)
    ensures FateOf(base[i], cand).Improved? <==> FateOf(cand[j], base).Regressed? || FateOf(cand[j], base).Inconclusive?
    ensures FateOf(base[i], cand).Unchanged? <==> FateOf(cand[j], base).Unchanged?
    ensures FateOf(base[i], cand).Malformed? <==> FateOf(cand[j], base).Malformed?
  {
    assert Find(cand, ClaimKey(base[i].claim)) == j;
    assert Find(base, ClaimKey(cand[j].claim)) == i;
  }

  /** A regression at k of n is one at any k' < k of n, against the same or a better baseline. */
  lemma WorseIsStillRegressed(b: Fraction, b': Fraction, c: Fraction, c': Fraction)
    requires b.n <= b.d && b'.n <= b'.d && c.n <= c.d && b.d > 0 && c.d > 0
    requires b'.d == b.d && c'.d == c.d && b.n <= b'.n && c'.n <= c.n
    requires Compare(Some(b), Some(c)).Regressed?
    ensures Compare(Some(b'), Some(c')).Regressed?
  {
    FisherTail.DropPMonotoneInCandidate(b.n, b.d, c'.n, c.n, c.d);
    FisherTail.DropPAntitoneInBaseline(b.n, b'.n, b.d, c'.n, c.d);
    LowerStays(b.n, b'.n, b.d, c.n, c'.n, c.d);
  }

  lemma LowerStays(b: nat, b': nat, bd: nat, c: nat, c': nat, cd: nat)
    requires b <= b' && c' <= c
    ensures c * bd < b * cd ==> c' * bd < b' * cd
  {
    assert c' * bd <= c * bd && b * cd <= b' * cd;
  }

  // ---------------------------------------------------------------------------------------------
  // Reports of whole profiles, both ways round.

  /** A row of this fate names this claim of this scenario. */
  ghost predicate Reported(p: Profile, q: Profile, name: string, key: string, fate: Fate) {
    exists r :: r in Rows(AllOutcomes(p, q), fate) && r.scenario == name && ClaimKey(r.claim) == key
  }

  ghost predicate ClaimHasFate(p: Profile, q: Profile, name: string, key: string, fate: Fate) {
    && Lookup(p, name).Some? && Lookup(q, name).Some?
    && var base := Lookup(p, name).value.claims;
    exists i :: 0 <= i < |base| && ClaimKey(base[i].claim) == key
      && FateOf(base[i], Lookup(q, name).value.claims) == fate
  }

  lemma {:induction false} RowsMembers(os: seq<Outcome>, fate: Fate, r: Row)
    ensures r in Rows(os, fate) <==> exists i :: 0 <= i < |os| && os[i].fate == fate && os[i].row == r
  {
    if os != [] {
      var init := os[..|os| - 1];
      RowsMembers(init, fate, r);
      if i :| 0 <= i < |os| && os[i].fate == fate && os[i].row == r {
        if i < |init| { assert init[i] == os[i]; }
      }
    }
  }

  lemma {:induction false} JoinMembers(xs: seq<Share>, o: Outcome)
    ensures o in JoinOutcomes(xs) <==> exists k :: 0 <= k < |xs| && o in xs[k].os
  {
    if xs != [] { JoinMembers(xs[..|xs| - 1], o); }
  }

  lemma OutcomesMembers(p: Profile, q: Profile, o: Outcome)
    ensures o in AllOutcomes(p, q) <==> exists k :: 0 <= k < |p| && o in OutcomesFor(p[k], q)
  {
    var xs := Shares(p, q);
    SharesJoinOutcomes(p, q);
    JoinMembers(xs, o);
    assert forall k :: 0 <= k < |p| ==> xs[k].os == OutcomesFor(p[k], q);
  }

  lemma OutcomesForMembers(e: Entry, q: Profile, o: Outcome)
    ensures o in OutcomesFor(e, q) <==>
            Lookup(q, e.name).Some? && exists i ::
              0 <= i < |e.sp.claims| && o == OutcomeOf(e.name, e.sp.claims[i], Lookup(q, e.name).value.claims)
  {
    if Lookup(q, e.name).Some? {
      var os := OutcomesFor(e, q);
      if i :| 0 <= i < |e.sp.claims| && o == OutcomeOf(e.name, e.sp.claims[i], Lookup(q, e.name).value.claims) {
        assert os[i] == o;
      }
    }
  }

  lemma ReportedMeansFate(p: Profile, q: Profile, name: string, key: string, fate: Fate)
    requires DistinctNames(p) && Reported(p, q, name, key, fate)
    ensures ClaimHasFate(p, q, name, key, fate)
  {
    var os := AllOutcomes(p, q);
    var r :| r in Rows(os, fate) && r.scenario == name && ClaimKey(r.claim) == key;
    RowsMembers(os, fate, r);
    var n :| 0 <= n < |os| && os[n].fate == fate && os[n].row == r;
    OutcomesMembers(p, q, os[n]);
    var k :| 0 <= k < |p| && os[n] in OutcomesFor(p[k], q);
    OutcomesForMembers(p[k], q, os[n]);
    LookupAt(p, k);
  }

  lemma FateIsReported(p: Profile, q: Profile, name: string, key: string, fate: Fate)
    requires DistinctNames(p) && ClaimHasFate(p, q, name, key, fate)
    ensures Reported(p, q, name, key, fate)
  {
    var k :| 0 <= k < |p| && p[k].name == name;
    LookupAt(p, k);
    var claims := Lookup(q, name).value.claims;
    var i :| 0 <= i < |p[k].sp.claims| && ClaimKey(p[k].sp.claims[i].claim) == key
             && FateOf(p[k].sp.claims[i], claims) == fate;
    var o := OutcomeOf(name, p[k].sp.claims[i], claims);
    OutcomesForMembers(p[k], q, o);
    OutcomesMembers(p, q, o);
    var os := AllOutcomes(p, q);
    RowsMembers(os, fate, o.row);
    assert o.row in Rows(os, fate);
  }

  /** Claims are distinct and none is tagged non-discriminating. */
  ghost predicate Plain(p: Profile) {
    forall k :: 0 <= k < |p| ==>
      && DistinctClaims(p[k].sp.claims)
      && forall i :: 0 <= i < |p[k].sp.claims| ==> p[k].sp.claims[i].discriminating != Some(false)
  }

  lemma PlainLookup(p: Profile, name: string)
    requires Plain(p) && Lookup(p, name).Some?
    ensures DistinctClaims(Lookup(p, name).value.claims)
    ensures forall i :: 0 <= i < |Lookup(p, name).value.claims| ==>
              Lookup(p, name).value.claims[i].discriminating != Some(false)
  {}

  lemma DropMirrors(p: Profile, q: Profile, name: string, key: string, fate: Fate)
    requires Plain(p) && Plain(q) && ClaimHasFate(q, p, name, key, fate) && (fate.Regressed? || fate.Inconclusive?)
    ensures ClaimHasFate(p, q, name, key, Improved)
  {
    PlainLookup(p, name);
    PlainLookup(q, name);
    var base, cand := Lookup(p, name).value.claims, Lookup(q, name).value.claims;
    var j :| 0 <= j < |cand| && ClaimKey(cand[j].claim) == key && FateOf(cand[j], base) == fate;
    FatesMirror(base, cand, Find(base, key), j);
  }

  lemma ImprovementMirrors(p: Profile, q: Profile, name: string, key: string)
    requires Plain(p) && Plain(q) && ClaimHasFate(p, q, name, key, Improved)
    ensures ClaimHasFate(q, p, name, key, Regressed) || ClaimHasFate(q, p, name, key, Inconclusive)
  {
    PlainLookup(p, name);
    PlainLookup(q, name);
    var base, cand := Lookup(p, name).value.claims, Lookup(q, name).value.claims;
    var i :| 0 <= i < |base| && ClaimKey(base[i].claim) == key && FateOf(base[i], cand).Improved?;
    FatesMirror(base, cand, i, Find(cand, key));
  }

  /** With distinct, untagged claims the improvements reported one way are exactly the drops reported the other way. */
  lemma ReportsMirror(p: Profile, q: Profile, name: string, key: string)
    requires DistinctNames(p) && DistinctNames(q) && Plain(p) && Plain(q)
    ensures Reported(p, q, name, key, Improved) <==>
            Reported(q, p, name, key, Regressed) || Reported(q, p, name, key, Inconclusive)
  {
    if Reported(p, q, name, key, Improved) {
      ReportedMeansFate(p, q, name, key, Improved);
      ImprovementMirrors(p, q, name, key);
      if ClaimHasFate(q, p, name, key, Regressed) { FateIsReported(q, p, name, key, Regressed); }
      else { FateIsReported(q, p, name, key, Inconclusive); }
    }
    if Reported(q, p, name, key, Regressed) || Reported(q, p, name, key, Inconclusive) {
      var fate := if Reported(q, p, name, key, Regressed) then Regressed else Inconclusive;
      ReportedMeansFate(q, p, name, key, fate);
      DropMirrors(p, q, name, key, fate);
      FateIsReported(p, q, name, key, Improved);
    }
  }

  // ---------------------------------------------------------------------------------------------
  // calibrateScenario.

  datatype CalibrationError = ClaimMismatch | MalformedAblated

  /** The verdict of an ablated capture on one claim: does the claim need the skill? */
  function Calibrated(claim: string, ablated: ScenarioProfile): Result<bool, CalibrationError> {
    if ablated.validReps < MIN_VALID then Ok(true)
    else
      var j := Find(ablated.claims, ClaimKey(claim));
      if j == |ablated.claims| then Err(ClaimMismatch)
      else match ParseFraction(ablated.claims[j].pass)
        case None => Err(MalformedAblated)
        case Some(f) => Ok(4 * f.n < 3 * f.d)
  }

  function Tagged(c: ClaimProfile, ablated: ScenarioProfile): Result<ClaimProfile, CalibrationError> {
    match Calibrated(c.claim, ablated)
    case Ok(tag) => Ok(c.(discriminating := Some(tag)))
    case Err(e) => Err(e)
  }

  /** Tags the claims in place, and stops at the first that cannot be judged: what precedes it stays tagged. */
  method CalibrateScenario(claims: array<ClaimProfile>, ablated: ScenarioProfile)
    returns (done: nat, error: Option<CalibrationError>)
    modifies claims
    ensures done <= claims.Length && (error.None? <==> done == claims.Length)
    ensures forall i :: 0 <= i < done ==> Tagged(old(claims[i]), ablated) == Ok(claims[i])
    ensures forall i :: done <= i < claims.Length ==> claims[i] == old(claims[i])
    ensures error.Some? ==> Tagged(claims[done], ablated) == Err(error.value)
  {
    done := 0;
    while done < claims.Length
      invariant done <= claims.Length
      invariant forall i :: 0 <= i < done ==> Tagged(old(claims[i]), ablated) == Ok(claims[i])
      invariant forall i :: done <= i < claims.Length ==> claims[i] == old(claims[i])
    {
      var c := claims[done];
      var tagged := Tagged(c, ablated);
      match tagged
      case Err(e) =>
        return done, Some(e);
      case Ok(c') =>
        claims[done] := c';
        done := done + 1;
    }
    error := None;
  }

  /** From the ablated runs to the diff: a claim calibrated against a capture without the skill is skipped by the diff
      exactly when the capture has enough runs that count and at least three quarters of them passed the claim. */
  lemma CalibratedClaimSkipped(bc: ClaimProfile, envelopes: seq<Option<Rep>>, cands: seq<ClaimProfile>)
    requires Aggregate(envelopes, true).Ok? && Known(cands, bc)
    requires ClaimKey(bc.claim) in Keys(FirstRubric(Gradeable(envelopes)))
    ensures var ablated := Aggregate(envelopes, true).value;
            var i := FirstWith(Keys(FirstRubric(Gradeable(envelopes))), ClaimKey(bc.claim));
            var n := |RunsWhere(envelopes, (r: Rep) => Counted(r, true))|;
            var k := |RunsWhere(envelopes, (r: Rep) => Counted(r, true) && PassesAt(r, i))|;
            && Calibrated(bc.claim, ablated).Ok?
            && (FateOf(bc.(discriminating := Some(Calibrated(bc.claim, ablated).value)), cands).Skipped? <==>
                  n >= MIN_VALID && 4 * k >= 3 * n)
  {
    var ablated := Aggregate(envelopes, true).value;
    var keys := Keys(FirstRubric(Gradeable(envelopes)));
    KeysOfCapture(envelopes, true);
    FindIsFirst(ablated.claims, keys, ClaimKey(bc.claim));
    AggregateMeasures(envelopes, true, FirstWith(keys, ClaimKey(bc.claim)));
    TagDecidesSkip(bc, ablated, cands);
  }

  lemma TagDecidesSkip(bc: ClaimProfile, ablated: ScenarioProfile, cands: seq<ClaimProfile>)
    requires Calibrated(bc.claim, ablated).Ok? && Known(cands, bc)
    ensures FateOf(bc.(discriminating := Some(Calibrated(bc.claim, ablated).value)), cands).Skipped? <==>
              !Calibrated(bc.claim, ablated).value
  {}

  lemma KeysOfCapture(envelopes: seq<Option<Rep>>, ablated: bool)
    requires Aggregate(envelopes, ablated).Ok?
    ensures var claims := Aggregate(envelopes, ablated).value.claims;
            var keys := Keys(FirstRubric(Gradeable(envelopes)));
            |claims| == |keys| && forall i :: 0 <= i < |keys| ==> ClaimKey(claims[i].claim) == keys[i]
  {}

  lemma FindIsFirst(claims: seq<ClaimProfile>, keys: seq<string>, key: string)
    requires |claims| == |keys| && forall i :: 0 <= i < |keys| ==> ClaimKey(claims[i].claim) == keys[i]
    ensures Find(claims, key) == FirstWith(keys, key)
  {
    var j := FirstWith(keys, key);
    assert j < |keys| ==> ClaimKey(claims[j].claim) == key;
  }

  /** A baseline claim is compared with the first candidate claim that has the same words. */
  lemma FindByWords(claims: seq<ClaimProfile>, text: string)
    ensures var j := Find(claims, ClaimKey(text));
            && (j < |claims| ==> SameWords(claims[j].claim, text))
            && forall i :: 0 <= i < j ==> !SameWords(claims[i].claim, text)
  {
    var j := Find(claims, ClaimKey(text));
    if j < |claims| { KeyIsTheWords(claims[j].claim, text); }
    forall i | 0 <= i < j ensures !SameWords(claims[i].claim, text) { KeyIsTheWords(claims[i].claim, text); }
  }

  // ---------------------------------------------------------------------------------------------
  // Fates by rate.

  function RateOf(f: Fraction): real
    requires f.d > 0
  {
    f.n as real / f.d as real
  }

  lemma LowerIsByRate(c: Fraction, b: Fraction)
    requires c.d > 0 && b.d > 0
    ensures Lower(c, b) <==> RateOf(c) < RateOf(b)
  {
    var x, y := RateOf(c), RateOf(b);
    var m, n := c.d as real, b.d as real;
    assert x * m == c.n as real && y * n == b.n as real;
    assert (c.n * b.d) as real == x * m * n == x * (m * n) && (b.n * c.d) as real == y * n * m == y * (m * n);
    ScaleLess(x, y, m * n);
  }

  lemma ScaleLess(x: real, y: real, k: real)
    requires k > 0.0
    ensures x < y <==> x * k < y * k
  {}

  /** A pair of fractions is judged by its rates: a higher one is an improvement, an equal one no change, a lower one a
      regression when the Fisher test gives at most 1 in 20, and inconclusive otherwise. */
  lemma FateIsByRate(b: Fraction, c: Fraction)
    requires 0 < b.d && b.n <= b.d && 0 < c.d && c.n <= c.d
    ensures var fate, p := Compare(Some(b), Some(c)), FisherTail.DropP(b.n, b.d, c.n, c.d);
            && (fate.Improved? <==> RateOf(c) > RateOf(b))
            && (fate.Unchanged? <==> RateOf(c) == RateOf(b))
            && (fate.Regressed? <==> RateOf(c) < RateOf(b) && p <= 0.05)
            && (fate.Inconclusive? <==> RateOf(c) < RateOf(b) && p > 0.05)
            && RowP(Some(b), Some(c)) == if RateOf(c) < RateOf(b) then p else 0.0
  {
    LowerIsByRate(b, c);
    LowerIsByRate(c, b);
  }

  /** A trigger regression: the skill fired in at least 4 of 5 baseline runs, and significantly less often since. */
  lemma TriggerIsByRate(b: Fraction, c: Fraction)
    requires 0 < b.d && b.n <= b.d && 0 < c.d && c.n <= c.d
    ensures TriggerDropped(Some(b), Some(c)) <==>
              RateOf(b) >= 0.8 && RateOf(c) < RateOf(b) && FisherTail.DropP(b.n, b.d, c.n, c.d) <= 0.05
  {
    FateIsByRate(b, c);
    FourFifths(b);
  }

  lemma FourFifths(b: Fraction)
    requires b.d > 0
    ensures 5 * b.n >= 4 * b.d <==> RateOf(b) >= 0.8
  {
    var four := Fraction(4, 5);
    LowerIsByRate(b, four);
    assert RateOf(four) == 0.8;
  }

  // ---------------------------------------------------------------------------------------------
  // Claims by their words.

  lemma KnownByWords(base: seq<ClaimProfile>, cc: ClaimProfile)
    ensures Known(base, cc) <==> exists bc :: bc in base && SameWords(bc.claim, cc.claim)
  {
    forall i | 0 <= i < |base|
      ensures ClaimKey(base[i].claim) == ClaimKey(cc.claim) <==> SameWords(base[i].claim, cc.claim)
    {
      KeyIsTheWords(base[i].claim, cc.claim);
    }
    if Known(base, cc) {
      var i :| 0 <= i < |base| && ClaimKey(base[i].claim) == ClaimKey(cc.claim);
      assert base[i] in base;
    }
  }

  /** A candidate claim that no baseline claim of its scenario has the words of fails the gate. */
  lemma NewClaimFailsTheGate(baseline: Profile, candidate: Profile, i: nat, cs: ScenarioProfile, cc: ClaimProfile)
    requires i < |baseline| && Lookup(candidate, baseline[i].name) == Some(cs) && cc in cs.claims
    requires forall bc :: bc in baseline[i].sp.claims ==> !SameWords(bc.claim, cc.claim)
    ensures !Covered(baseline, candidate)
  {
    var j :| 0 <= j < |cs.claims| && cs.claims[j] == cc;
    KnownByWords(baseline[i].sp.claims, cc);
    assert !Known(baseline[i].sp.claims, cs.claims[j]);
    assert !Compared(baseline[i], candidate);
  }

  /** A claim that is not tagged, and that no candidate claim has the words of, fails the gate. */
  lemma EditedClaimFailsTheGate(baseline: Profile, candidate: Profile, i: nat, bc: ClaimProfile)
    requires i < |baseline| && bc in baseline[i].sp.claims && bc.discriminating != Some(false)
    requires Lookup(candidate, baseline[i].name).Some? ==>
               forall cc :: cc in Lookup(candidate, baseline[i].name).value.claims ==> !SameWords(cc.claim, bc.claim)
    ensures !Covered(baseline, candidate)
  {
    if Lookup(candidate, baseline[i].name).Some? {
      var claims := Lookup(candidate, baseline[i].name).value.claims;
      var j :| 0 <= j < |baseline[i].sp.claims| && baseline[i].sp.claims[j] == bc;
      forall k | 0 <= k < |claims| ensures ClaimKey(claims[k].claim) != ClaimKey(bc.claim) {
        assert claims[k] in claims;
        KeyIsTheWords(claims[k].claim, bc.claim);
      }
      assert !ClaimCovered(bc, claims);
    }
    assert !Compared(baseline[i], candidate);
  }

  /** A capture in which the skill fired in no run writes rates over nothing, so a baseline claim that is graded against
      it fails the gate (it is not passed over, as the comment in `aggregateScenario` says). */
  lemma NeverFiredFailsTheGate(baseline: Profile, candidate: Profile, i: nat, bc: ClaimProfile,
                               envelopes: seq<Option<Rep>>)
    requires i < |baseline| && bc in baseline[i].sp.claims && bc.discriminating != Some(false)
    requires Aggregate(envelopes, false).Ok? && RunsWhere(envelopes, (r: Rep) => Counted(r, false)) == {}
    requires Lookup(candidate, baseline[i].name) == Some(Aggregate(envelopes, false).value)
    ensures !Covered(baseline, candidate)
  {
    NeverFiredIsUncovered(bc, envelopes);
    var j :| 0 <= j < |baseline[i].sp.claims| && baseline[i].sp.claims[j] == bc;
    assert !Compared(baseline[i], candidate);
  }

  lemma NeverFiredIsUncovered(bc: ClaimProfile, envelopes: seq<Option<Rep>>)
    requires Aggregate(envelopes, false).Ok? && bc.discriminating != Some(false)
    requires RunsWhere(envelopes, (r: Rep) => Counted(r, false)) == {}
    ensures !ClaimCovered(bc, Aggregate(envelopes, false).value.claims)
  {
    var claims := Aggregate(envelopes, false).value.claims;
    forall j | 0 <= j < |claims| ensures ParseFraction(claims[j].pass).None? { AggregateMeasures(envelopes, false, j); }
  }

  /** Four runs that all answered, none with the skill: the capture is accepted, with its claim at `0/0`. */
  lemma NeverFiredCapture(g: Graded)
    ensures var run := Some(Rep(false, false, [g]));
            var capture := Aggregate([run, run, run, run], false);
            && RunsWhere([run, run, run, run], (r: Rep) => Counted(r, false)) == {}
            && capture.Ok? && |capture.value.claims| == 1 && capture.value.claims[0].pass == "0/0"
  {
    var rep := Rep(false, false, [g]);
    var envelopes := [Some(rep), Some(rep), Some(rep), Some(rep)];
    GradeableFour(rep);
    NoneCounted(envelopes, rep);
    KeptRuns(envelopes, (r: Rep) => Counted(r, false));
    FourAreAccepted(envelopes, rep, g);
  }

  lemma NoneCounted(envelopes: seq<Option<Rep>>, rep: Rep)
    requires !rep.invoked && forall e :: e in envelopes ==> e == Some(rep)
    ensures RunsWhere(envelopes, (r: Rep) => Counted(r, false)) == {}
  {
    forall k: nat | k < |envelopes| ensures envelopes[k] == Some(rep) { assert envelopes[k] in envelopes; }
  }

  lemma FourAreAccepted(envelopes: seq<Option<Rep>>, rep: Rep, g: Graded)
    requires rep == Rep(false, false, [g]) && Gradeable(envelopes) == [rep, rep, rep, rep]
    ensures var capture := Aggregate(envelopes, false);
            capture.Ok? && |capture.value.claims| == 1 && capture.value.claims[0].pass == "0/0"
  {
    var reps := [rep, rep, rep, rep];
    NoneKept(reps, (r: Rep) => (false || r.invoked) && !r.invalid);
    NoneKept(reps, (r: Rep) => false || r.invoked);
    assert Measured(reps, false) == [] && InvokedReps(reps, false) == [];
    assert FirstRubric(reps) == [g] && Consistent(reps, Keys([g]));
    NoRunNoRate(ClaimKey(g.claim));
    assert Render(0, 0) == "0/0";
  }

  lemma NoRunNoRate(key: string)
    ensures Rate([], key) == 0
  {}

  lemma GradeableFour(rep: Rep)
    ensures Gradeable([Some(rep), Some(rep), Some(rep), Some(rep)]) == [rep, rep, rep, rep]
  {
    var one: seq<Option<Rep>> := [Some(rep)];
    var two, three, four := one + one, one + one + one, one + one + one + one;
    assert one[1..] == [] && two[1..] == one && three[1..] == two && four[1..] == three;
    assert Gradeable(one) == [rep] && Gradeable(two) == [rep, rep] && Gradeable(three) == [rep, rep, rep];
    assert four == [Some(rep), Some(rep), Some(rep), Some(rep)];
  }

  lemma NoneKept(reps: seq<Rep>, f: Rep -> bool)
    requires forall r :: r in reps ==> !f(r)
    ensures Keep(reps, f) == []
  {
    var kept := Keep(reps, f);
    assert forall r :: r !in kept;
  }
}
