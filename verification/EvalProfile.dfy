/** Profiles of the answer-quality gate (scripts/eval-gate.ts): fractions, claim identity, and the aggregation of runs
    into a scenario profile. */
module EvalProfile {
  import opened ClaimText
  import opened Decimal
  import opened Options

  datatype Result<+T, +E> = Ok(value: T) | Err(error: E)

  datatype Fraction = Fraction(n: nat, d: nat)

  function IndexOfSlash(s: string): (i: nat)
    ensures i <= |s| && (i < |s| ==> s[i] == '/') && forall j :: 0 <= j < i ==> s[j] != '/'
  {
    if s == [] || s[0] == '/' then 0 else 1 + IndexOfSlash(s[1..])
  }

  /** Strict "k/n" with 0 <= k <= n and n > 0; anything else is None. */
  function ParseFraction(text: string): (r: Option<Fraction>)
    ensures r.Some? ==> r.value.n <= r.value.d && r.value.d > 0
  {
    var s := TrimEnd(TrimStart(text));
    var i := IndexOfSlash(s);
    if i == |s| then None
    else
      var l, r := s[..i], s[i + 1..];
      if l == "" || r == "" || !AllDigits(l) || !AllDigits(r) then None
      else
        var n, d := Value(l), Value(r);
        if d == 0 || n > d then None else Some(Fraction(n, d))
  }

  function Render(k: nat, n: nat): string { Digits(k) + "/" + Digits(n) }

  /** What `aggregateScenario` writes, `parseFraction` reads back: always the same fraction, except that a rate over no
      run at all is malformed. */
  lemma FractionRoundTrip(k: nat, n: nat)
    requires k <= n
    ensures ParseFraction(Render(k, n)) == if n == 0 then None else Some(Fraction(k, n))
  {
    var l, r := Digits(k), Digits(n);
    SplitAtSlash(l, r);
    ValueOfDigits(k);
    ValueOfDigits(n);
  }

  lemma DigitIsNoSpace(c: char)
    requires IsDigit(c)
    ensures !IsSpace(c)
  {}

  lemma SplitAtSlash(l: string, r: string)
    requires l != [] && AllDigits(l) && r != [] && AllDigits(r)
    ensures var s := l + "/" + r;
            && TrimEnd(TrimStart(s)) == s
            && IndexOfSlash(s) == |l| && s[..|l|] == l && s[|l| + 1..] == r
  {
    var s := l + "/" + r;
    assert s[0] == l[0] && s[|s| - 1] == r[|r| - 1];
    DigitIsNoSpace(s[0]);
    DigitIsNoSpace(s[|s| - 1]);
    assert s[|l|] == '/';
    assert forall j :: 0 <= j < |l| ==> s[j] == l[j] && IsDigit(s[j]);
    var i := IndexOfSlash(s);
    assert i <= |l|;
  }

  datatype ClaimProfile = ClaimProfile(index: nat, claim: string, pass: string, discriminating: Option<bool>,
                                       priors: Option<string>)

  datatype ScenarioProfile = ScenarioProfile(reps: nat, skillInvoked: string, validReps: nat, errored: nat,
                                             claims: seq<ClaimProfile>)

  const MIN_VALID := 4

  /** The first claim with a given key. */
  function Find(claims: seq<ClaimProfile>, key: string): (i: nat)
    ensures i <= |claims|
    ensures i < |claims| ==> ClaimKey(claims[i].claim) == key
    ensures forall j :: 0 <= j < i ==> ClaimKey(claims[j].claim) != key
  {
    if claims == [] || ClaimKey(claims[0].claim) == key then 0 else 1 + Find(claims[1..], key)
  }

  // ---------------------------------------------------------------------------------------------
  // aggregateScenario.

  datatype Graded = Graded(claim: string, pass: bool)

  /** One gradeable run. An envelope that errored, or has no semantic assertion, is None. */
  datatype Rep = Rep(invoked: bool, invalid: bool, claims: seq<Graded>)

  datatype CaptureError = InconsistentRubric | TooFewRuns | TooFewValidGrades

  function Gradeable(envelopes: seq<Option<Rep>>): (r: seq<Rep>)
    ensures |r| <= |envelopes|
  {
    if envelopes == [] then []
    else Gradeable(envelopes[..|envelopes| - 1])
         + match envelopes[|envelopes| - 1] case Some(r) => [r] case None => []
  }

  function Keep(reps: seq<Rep>, f: Rep -> bool): (r: seq<Rep>)
    ensures |r| <= |reps| && forall x :: x in r <==> x in reps && f(x)
  {
    if reps == [] then []
    else
      assert reps == reps[..|reps| - 1] + [reps[|reps| - 1]];
      Keep(reps[..|reps| - 1], f) + if f(reps[|reps| - 1]) then [reps[|reps| - 1]] else []
  }

  function Keys(claims: seq<Graded>): seq<string> {
    seq(|claims|, i requires 0 <= i < |claims| => ClaimKey(claims[i].claim))
  }

  /** `find(key)?.pass`: the first claim of the run with that key. */
  predicate Passes(claims: seq<Graded>, key: string) {
    if claims == [] then false
    else if ClaimKey(claims[0].claim) == key then claims[0].pass
    else Passes(claims[1..], key)
  }

  function Rate(reps: seq<Rep>, key: string): nat {
    |Keep(reps, (r: Rep) => Passes(r.claims, key))|
  }

  function Measured(reps: seq<Rep>, ablated: bool): seq<Rep> {
    Keep(reps, (r: Rep) => (ablated || r.invoked) && !r.invalid)
  }

  function InvokedReps(reps: seq<Rep>, ablated: bool): seq<Rep> { Keep(reps, (r: Rep) => ablated || r.invoked) }

  predicate Consistent(reps: seq<Rep>, rubric: seq<string>) {
    forall r :: r in reps && r.claims != [] ==> Keys(r.claims) == rubric
  }

  function FirstRubric(reps: seq<Rep>): seq<Graded> {
    if reps == [] then [] else if reps[0].claims != [] then reps[0].claims else FirstRubric(reps[1..])
  }

  function Aggregate(envelopes: seq<Option<Rep>>, ablated: bool): Result<ScenarioProfile, CaptureError> {
    var reps := Gradeable(envelopes);
    var rubric := FirstRubric(reps);
    var keys := Keys(rubric);
    var measured := Measured(reps, ablated);
    var notInvoked := Keep(reps, (r: Rep) => !r.invoked);
    if !Consistent(reps, keys) then Err(InconsistentRubric)
    else if !ablated && |reps| < MIN_VALID then Err(TooFewRuns)
    else if !ablated && |InvokedReps(reps, ablated)| >= MIN_VALID && |measured| < MIN_VALID then Err(TooFewValidGrades)
    else Ok(ScenarioProfile(
      |reps|, Render(|Keep(reps, (r: Rep) => r.invoked)|, |reps|), |measured|, |envelopes| - |reps|,
      seq(|keys|, i requires 0 <= i < |keys| => ClaimProfile(
        i, rubric[i].claim, Render(Rate(measured, keys[i]), |measured|), None,
        if notInvoked == [] then None else Some(Render(Rate(notInvoked, keys[i]), |notInvoked|))))))
  }

  /** The first position of a key: a claim repeated in a rubric is looked up there. */
  function FirstWith(keys: seq<string>, key: string): (i: nat)
    ensures i <= |keys| && (key in keys <==> i < |keys|)
    ensures i < |keys| ==> keys[i] == key
    ensures forall j :: 0 <= j < i ==> keys[j] != key
  {
    if keys == [] || keys[0] == key then 0 else 1 + FirstWith(keys[1..], key)
  }

  lemma {:induction false} PassesAtFirst(claims: seq<Graded>, key: string)
    ensures Passes(claims, key) <==>
              var i := FirstWith(Keys(claims), key); i < |claims| && claims[i].pass
  {
    if claims != [] && Keys(claims)[0] != key {
      assert Keys(claims)[1..] == Keys(claims[1..]);
      PassesAtFirst(claims[1..], key);
    }
  }

  /** The run passes its claim number i; a run that reported no claims passes none. */
  predicate PassesAt(r: Rep, i: nat) { i < |r.claims| && r.claims[i].pass }

  /** The run counts: its grade is valid, and with the skill in place it invoked it. */
  predicate Counted(r: Rep, ablated: bool) { !r.invalid && (ablated || r.invoked) }

  /** The envelopes that hold a gradeable run with a property. */
  function RunsWhere(envelopes: seq<Option<Rep>>, f: Rep -> bool): set<nat> {
    set k: nat | k < |envelopes| && envelopes[k].Some? && f(envelopes[k].value)
  }

  lemma KeepNext(reps: seq<Rep>, r: Rep, f: Rep -> bool)
    ensures Keep(reps + [r], f) == Keep(reps, f) + if f(r) then [r] else []
  {
    assert (reps + [r])[..|reps|] == reps;
  }

  lemma GradeableNext(envelopes: seq<Option<Rep>>, e: Option<Rep>)
    ensures Gradeable(envelopes + [e]) == if e.Some? then Gradeable(envelopes) + [e.value] else Gradeable(envelopes)
  {
    assert (envelopes + [e])[..|envelopes|] == envelopes;
  }

  lemma RunsNext(envelopes: seq<Option<Rep>>, e: Option<Rep>, f: Rep -> bool)
    ensures |RunsWhere(envelopes + [e], f)| == |RunsWhere(envelopes, f)| + if e.Some? && f(e.value) then 1 else 0
  {
    var runs := RunsWhere(envelopes, f);
    assert RunsWhere(envelopes + [e], f) == if e.Some? && f(e.value) then runs + {|envelopes|} else runs;
  }

  lemma {:induction false} KeptRuns(envelopes: seq<Option<Rep>>, f: Rep -> bool)
    ensures |Keep(Gradeable(envelopes), f)| == |RunsWhere(envelopes, f)|
  {
    if envelopes == [] {
      assert RunsWhere(envelopes, f) == {};
    } else {
      var front, e := envelopes[..|envelopes| - 1], envelopes[|envelopes| - 1];
      assert envelopes == front + [e];
      KeptRuns(front, f);
      GradeableNext(front, e);
      RunsNext(front, e, f);
      if e.Some? { KeepNext(Gradeable(front), e.value, f); }
    }
  }

  lemma {:induction false} AllKept(reps: seq<Rep>)
    ensures Keep(reps, (r: Rep) => true) == reps
  {
    if reps != [] {
      AllKept(reps[..|reps| - 1]);
      assert reps == reps[..|reps| - 1] + [reps[|reps| - 1]];
    }
  }

  lemma {:induction false} KeepTwice(reps: seq<Rep>, f: Rep -> bool, g: Rep -> bool, h: Rep -> bool)
    requires forall r :: r in reps ==> (h(r) <==> f(r) && g(r))
    ensures Keep(Keep(reps, f), g) == Keep(reps, h)
  {
    if reps != [] {
      var front, last := reps[..|reps| - 1], reps[|reps| - 1];
      assert reps == front + [last] && last in reps;
      assert forall r :: r in front ==> r in reps;
      KeepTwice(front, f, g, h);
      KeepNext(front, last, f);
      KeepNext(front, last, h);
      var kept := Keep(front, f);
      if f(last) { KeepNext(kept, last, g); } else { assert Keep(reps, f) == kept; }
    }
  }

  /** Looking a claim up by its text finds the run's first claim of that text. */
  lemma PassesByText(reps: seq<Rep>, rubric: seq<string>, key: string, r: Rep)
    requires key in rubric && Consistent(reps, rubric) && r in reps
    ensures Passes(r.claims, key) <==> PassesAt(r, FirstWith(rubric, key))
  {
    PassesAtFirst(r.claims, key);
  }

  /** So a rate by text is the number of counted runs that pass the claim at the text's first position. */
  lemma RateIsPassCount(envelopes: seq<Option<Rep>>, ablated: bool, rubric: seq<string>, key: string)
    requires key in rubric && Consistent(Gradeable(envelopes), rubric)
    ensures Rate(Measured(Gradeable(envelopes), ablated), key) ==
              |RunsWhere(envelopes, (r: Rep) => Counted(r, ablated) && PassesAt(r, FirstWith(rubric, key)))|
    ensures |Measured(Gradeable(envelopes), ablated)| == |RunsWhere(envelopes, (r: Rep) => Counted(r, ablated))|
  {
    var reps, i := Gradeable(envelopes), FirstWith(rubric, key);
    var counted, passed := (r: Rep) => Counted(r, ablated), (r: Rep) => Counted(r, ablated) && PassesAt(r, i);
    KeepSame(reps, (r: Rep) => (ablated || r.invoked) && !r.invalid, counted);
    forall r | r in reps ensures Passes(r.claims, key) <==> PassesAt(r, i) { PassesByText(reps, rubric, key, r); }
    KeepTwice(reps, counted, (r: Rep) => Passes(r.claims, key), passed);
    KeptRuns(envelopes, counted);
    KeptRuns(envelopes, passed);
  }

  /** An accepted capture measures what it says. Claim i's rate is, over the runs that count (a valid grade, and live
      the skill invoked), those whose own claim passed at the first position of that claim's text. It is a well-formed
      fraction exactly when some run counts, which for a live capture can fail only if fewer than MIN_VALID runs invoked
      the skill. The trigger fraction is the invoking runs over the gradeable ones. */
  lemma AggregateMeasures(envelopes: seq<Option<Rep>>, ablated: bool, i: nat)
    requires Aggregate(envelopes, ablated).Ok? && i < |Aggregate(envelopes, ablated).value.claims|
    ensures var p := Aggregate(envelopes, ablated).value;
            var keys := Keys(FirstRubric(Gradeable(envelopes)));
            && i < |keys| && ClaimKey(p.claims[i].claim) == keys[i]
            && var n := |RunsWhere(envelopes, (r: Rep) => Counted(r, ablated))|;
            && var k := |RunsWhere(envelopes,
                                   (r: Rep) => Counted(r, ablated) && PassesAt(r, FirstWith(keys, keys[i])))|;
            && k <= n == p.validReps
            && ParseFraction(p.claims[i].pass) == (if n == 0 then None else Some(Fraction(k, n)))
    ensures var p := Aggregate(envelopes, ablated).value;
            var ran, invoked := |RunsWhere(envelopes, (r: Rep) => true)|, |RunsWhere(envelopes, (r: Rep) => r.invoked)|;
            && p.reps == ran && p.errored == |envelopes| - ran
            && (!ablated ==> ParseFraction(p.skillInvoked) == Some(Fraction(invoked, ran)))
            && (!ablated && p.validReps == 0 ==> invoked < MIN_VALID)
  {
    var reps := Gradeable(envelopes);
    var keys := Keys(FirstRubric(reps));
    assert keys[i] in keys;
    RateIsPassCount(envelopes, ablated, keys, keys[i]);
    FractionRoundTrip(Rate(Measured(reps, ablated), keys[i]), |Measured(reps, ablated)|);
    RunsReported(envelopes, ablated);
  }

  /** The claims come in rubric order, untagged, each with its pass rate over the runs that did not invoke the skill; it
      has none when every run did. */
  lemma PriorsMeasure(envelopes: seq<Option<Rep>>, ablated: bool, i: nat)
    requires Aggregate(envelopes, ablated).Ok? && i < |Aggregate(envelopes, ablated).value.claims|
    ensures var c := Aggregate(envelopes, ablated).value.claims[i];
            var rubric := FirstRubric(Gradeable(envelopes));
            var first := FirstWith(Keys(rubric), ClaimKey(c.claim));
            var n := |RunsWhere(envelopes, (r: Rep) => !r.invoked)|;
            var k := |RunsWhere(envelopes, (r: Rep) => !r.invoked && PassesAt(r, first))|;
            && i < |rubric| && c.index == i && c.claim == rubric[i].claim && c.discriminating == None
            && (c.priors.None? <==> n == 0)
            && (c.priors.Some? ==> ParseFraction(c.priors.value) == Some(Fraction(k, n)))
  {
    var reps := Gradeable(envelopes);
    var keys := Keys(FirstRubric(reps));
    var notInvoked := Keep(reps, (r: Rep) => !r.invoked);
    KeptRuns(envelopes, (r: Rep) => !r.invoked);
    assert keys[i] in keys;
    var passed := (r: Rep) => !r.invoked && PassesAt(r, FirstWith(keys, keys[i]));
    forall r | r in reps ensures passed(r) <==> !r.invoked && Passes(r.claims, keys[i]) {
      PassesByText(reps, keys, keys[i], r);
    }
    KeepTwice(reps, (r: Rep) => !r.invoked, (r: Rep) => Passes(r.claims, keys[i]), passed);
    KeptRuns(envelopes, passed);
    FractionRoundTrip(Rate(notInvoked, keys[i]), |notInvoked|);
  }

  lemma RunsReported(envelopes: seq<Option<Rep>>, ablated: bool)
    requires Aggregate(envelopes, ablated).Ok?
    ensures var p := Aggregate(envelopes, ablated).value;
            var ran, invoked := |RunsWhere(envelopes, (r: Rep) => true)|, |RunsWhere(envelopes, (r: Rep) => r.invoked)|;
            && p.reps == ran && p.errored == |envelopes| - ran
            && (!ablated ==> ParseFraction(p.skillInvoked) == Some(Fraction(invoked, ran)))
            && (!ablated && p.validReps == 0 ==> invoked < MIN_VALID)
  {
    var reps := Gradeable(envelopes);
    AllKept(reps);
    KeptRuns(envelopes, (r: Rep) => true);
    KeptRuns(envelopes, (r: Rep) => r.invoked);
    KeepSame(reps, (r: Rep) => r.invoked, (r: Rep) => false || r.invoked);
    FractionRoundTrip(|Keep(reps, (r: Rep) => r.invoked)|, |reps|);
  }

  lemma {:induction false} KeepSame(reps: seq<Rep>, f: Rep -> bool, g: Rep -> bool)
    requires forall r :: f(r) == g(r)
    ensures Keep(reps, f) == Keep(reps, g)
  {
    if reps != [] { KeepSame(reps[..|reps| - 1], f, g); }
  }

  // ---------------------------------------------------------------------------------------------
  // When a capture is refused.

  /** The same claims, word for word, in the same order. */
  ghost predicate SameRubric(x: seq<Graded>, y: seq<Graded>) {
    |x| == |y| && forall i :: 0 <= i < |x| ==> SameWords(x[i].claim, y[i].claim)
  }

  lemma SameKeys(x: seq<Graded>, y: seq<Graded>)
    ensures Keys(x) == Keys(y) <==> SameRubric(x, y)
  {
    if |x| == |y| {
      forall i | 0 <= i < |x| ensures Keys(x)[i] == Keys(y)[i] <==> SameWords(x[i].claim, y[i].claim) {
        KeyIsTheWords(x[i].claim, y[i].claim);
      }
    }
    assert |Keys(x)| == |x| && |Keys(y)| == |y|;
  }

  lemma {:induction false} FirstRubricIs(reps: seq<Rep>)
    ensures FirstRubric(reps) == [] <==> forall r :: r in reps ==> r.claims == []
    ensures FirstRubric(reps) != [] ==>
              exists k :: 0 <= k < |reps| && reps[k].claims == FirstRubric(reps)
                          && forall j :: 0 <= j < k ==> reps[j].claims == []
  {
    if reps != [] && reps[0].claims == [] {
      FirstRubricIs(reps[1..]);
      if FirstRubric(reps) != [] {
        var k :| 0 <= k < |reps[1..]| && reps[1..][k].claims == FirstRubric(reps)
                 && forall j :: 0 <= j < k ==> reps[1..][j].claims == [];
        assert reps[k + 1] == reps[1..][k];
        forall j | 0 <= j < k + 1 ensures reps[j].claims == [] { assert j > 0 ==> reps[j] == reps[1..][j - 1]; }
      }
    }
  }

  ghost predicate Agree(envelopes: seq<Option<Rep>>) {
    forall r, s :: Some(r) in envelopes && Some(s) in envelopes && r.claims != [] && s.claims != [] ==>
      SameRubric(r.claims, s.claims)
  }

  lemma {:induction false} GradeableMembers(envelopes: seq<Option<Rep>>, r: Rep)
    ensures r in Gradeable(envelopes) <==> Some(r) in envelopes
  {
    if envelopes != [] {
      var front, last := envelopes[..|envelopes| - 1], envelopes[|envelopes| - 1];
      GradeableMembers(front, r);
      assert Some(r) in envelopes <==> Some(r) in front || Some(r) == last;
    }
  }

  lemma RubricsAgree(envelopes: seq<Option<Rep>>)
    ensures var reps := Gradeable(envelopes); Consistent(reps, Keys(FirstRubric(reps))) <==> Agree(envelopes)
  {
    var reps := Gradeable(envelopes);
    forall r ensures r in reps <==> Some(r) in envelopes { GradeableMembers(envelopes, r); }
    FirstRubricIs(reps);
    forall x: seq<Graded>, y: seq<Graded> ensures Keys(x) == Keys(y) <==> SameRubric(x, y) { SameKeys(x, y); }
  }

  /** A capture is refused exactly when two of its runs report different claims, or, with the skill in place, fewer than
      four runs are gradeable, or four invoked the skill and fewer than four of these have a valid grade. */
  lemma RefusedCapture(envelopes: seq<Option<Rep>>, ablated: bool)
    ensures var ran, invoked := |RunsWhere(envelopes, (r: Rep) => true)|, |RunsWhere(envelopes, (r: Rep) => r.invoked)|;
            var counted := |RunsWhere(envelopes, (r: Rep) => Counted(r, ablated))|;
            var a := Aggregate(envelopes, ablated);
            && (a == Err(InconsistentRubric) <==> !Agree(envelopes))
            && (a == Err(TooFewRuns) <==> Agree(envelopes) && !ablated && ran < 4)
            && (a == Err(TooFewValidGrades) <==>
                  Agree(envelopes) && !ablated && ran >= 4 && invoked >= 4 && counted < 4)
  {
    RubricsAgree(envelopes);
    var reps := Gradeable(envelopes);
    AllKept(reps);
    KeptRuns(envelopes, (r: Rep) => true);
    KeptRuns(envelopes, (r: Rep) => r.invoked);
    KeptRuns(envelopes, (r: Rep) => Counted(r, ablated));
    KeepSame(reps, (r: Rep) => Counted(r, ablated), (r: Rep) => (ablated || r.invoked) && !r.invalid);
    if !ablated { KeepSame(reps, (r: Rep) => r.invoked, (r: Rep) => ablated || r.invoked); }
  }
}
