/** The three-valued verdicts of src/assert.ts: hook and option counts, the rule over sub-questions, the file fold. */
module CountVerdicts {
  import opened Options

  /** Whether a frame, label or file counts; Unknown when it cannot be read. */
  datatype Tri = Yes | No | Unknown

  datatype Verdict = Pass | Fail | Unavailable

  // ---------------------------------------------------------------------------------------------
  // Resolutions: the ways the unknown members could turn out.

  ghost predicate Resolves(rs: seq<bool>, xs: seq<Tri>) {
    |rs| == |xs| && forall i :: 0 <= i < |xs| ==> (xs[i].Yes? ==> rs[i]) && (xs[i].No? ==> !rs[i])
  }

  function Count(rs: seq<bool>): nat {
    if rs == [] then 0 else (if rs[0] then 1 else 0) + Count(rs[1..])
  }

  function CountOf(xs: seq<Tri>, t: Tri): nat {
    if xs == [] then 0 else (if xs[0] == t then 1 else 0) + CountOf(xs[1..], t)
  }

  lemma {:induction false} CountOfSnoc(xs: seq<Tri>, x: Tri, t: Tri)
    ensures CountOf(xs + [x], t) == CountOf(xs, t) + (if x == t then 1 else 0)
  {
    if xs != [] {
      assert (xs + [x])[1..] == xs[1..] + [x];
      CountOfSnoc(xs[1..], x, t);
    }
  }

  lemma CountOfNext(xs: seq<Tri>, i: nat, t: Tri)
    requires i < |xs|
    ensures CountOf(xs[..i + 1], t) == CountOf(xs[..i], t) + (if xs[i] == t then 1 else 0)
  {
    assert xs[..i + 1] == xs[..i] + [xs[i]];
    CountOfSnoc(xs[..i], xs[i], t);
  }

  /** Every resolution counts within [yes, yes + unknown] … */
  lemma {:induction false} CountInRange(xs: seq<Tri>, rs: seq<bool>)
    requires Resolves(rs, xs)
    ensures CountOf(xs, Yes) <= Count(rs) <= CountOf(xs, Yes) + CountOf(xs, Unknown)
  {
    if xs != [] {
      assert forall i :: 0 <= i < |xs| - 1 ==> xs[1..][i] == xs[i + 1] && rs[1..][i] == rs[i + 1];
      CountInRange(xs[1..], rs[1..]);
    }
  }

  /** … and every count of that range is some resolution's. */
  function ResolutionAt(xs: seq<Tri>, k: nat): (rs: seq<bool>)
    requires CountOf(xs, Yes) <= k <= CountOf(xs, Yes) + CountOf(xs, Unknown)
    ensures Resolves(rs, xs) && Count(rs) == k
  {
    if xs == [] then []
    else
      var yes := xs[0].Yes? || (xs[0].Unknown? && k > CountOf(xs[1..], Yes));
      var rest := ResolutionAt(xs[1..], if yes then k - 1 else k);
      assert forall i :: 1 <= i < |xs| ==> xs[i] == xs[1..][i - 1];
      assert ([yes] + rest)[1..] == rest;
      [yes] + rest
  }

  // ---------------------------------------------------------------------------------------------
  // Bounds.

  datatype Bound = Exactly(n: nat) | Range(min: Option<nat>, max: Option<nat>)

  predicate InBound(b: Bound, k: int) {
    match b
    case Exactly(n) => k == n
    case Range(min, max) => (min.Some? ==> k >= min.value) && (max.Some? ==> k <= max.value)
  }

  ghost predicate EveryCount(xs: seq<Tri>, b: Bound) {
    forall rs :: Resolves(rs, xs) ==> InBound(b, Count(rs))
  }

  ghost predicate NoCount(xs: seq<Tri>, b: Bound) {
    forall rs :: Resolves(rs, xs) ==> !InBound(b, Count(rs))
  }

  /** A verdict is exact: it passes (fails) exactly when however the unknowns turn out the bound is met (missed). */
  ghost predicate ExactFor(v: Verdict, xs: seq<Tri>, b: Bound) {
    (v.Pass? <==> EveryCount(xs, b)) && (v.Fail? <==> NoCount(xs, b))
  }

  lemma EveryCountIsRange(xs: seq<Tri>, b: Bound)
    ensures EveryCount(xs, b) <==>
              forall k :: CountOf(xs, Yes) <= k <= CountOf(xs, Yes) + CountOf(xs, Unknown) ==> InBound(b, k)
  {
    var lo, hi := CountOf(xs, Yes), CountOf(xs, Yes) + CountOf(xs, Unknown);
    if EveryCount(xs, b) {
      forall k | lo <= k <= hi ensures InBound(b, k) {
        var rs := ResolutionAt(xs, k);
        assert Resolves(rs, xs);
      }
    }
    forall rs | Resolves(rs, xs) ensures lo <= Count(rs) <= hi { CountInRange(xs, rs); }
  }

  lemma NoCountIsRange(xs: seq<Tri>, b: Bound)
    ensures NoCount(xs, b) <==>
              forall k :: CountOf(xs, Yes) <= k <= CountOf(xs, Yes) + CountOf(xs, Unknown) ==> !InBound(b, k)
  {
    var lo, hi := CountOf(xs, Yes), CountOf(xs, Yes) + CountOf(xs, Unknown);
    if NoCount(xs, b) {
      forall k | lo <= k <= hi ensures !InBound(b, k) {
        var rs := ResolutionAt(xs, k);
        assert Resolves(rs, xs);
      }
    }
    forall rs | Resolves(rs, xs) ensures lo <= Count(rs) <= hi { CountInRange(xs, rs); }
  }

  // ---------------------------------------------------------------------------------------------
  // Hook counts.

  function JudgeHookCount(known: nat, unknown: nat, min: nat, max: Option<nat>): Verdict {
    var lo, hi := known, known + unknown;
    if lo >= min && (max.None? || hi <= max.value) then Pass
    else if hi < min || (max.Some? && lo > max.value) then Fail
    else Unavailable
  }

  /** For a bound some count meets, the interval rule is exact. */
  lemma JudgeHookCountIsExact(xs: seq<Tri>, min: nat, max: Option<nat>)
    requires max.Some? ==> min <= max.value
    ensures ExactFor(JudgeHookCount(CountOf(xs, Yes), CountOf(xs, Unknown), min, max), xs, Range(Some(min), max))
  {
    var b := Range(Some(min), max);
    var lo, hi := CountOf(xs, Yes), CountOf(xs, Yes) + CountOf(xs, Unknown);
    EveryCountIsRange(xs, b);
    NoCountIsRange(xs, b);
    var v := JudgeHookCount(lo, CountOf(xs, Unknown), min, max);
    assert InBound(b, lo) && InBound(b, hi) <==> v.Pass?;
    if v.Unavailable? {
      var k := if lo >= min then lo else min;
      assert lo <= k <= hi && InBound(b, k);
    }
  }

  /** With an empty bound the rule is exact unless the range covers the whole gap: that is why such a bound is refused
      before anything is counted. */
  lemma EmptyBoundIsExactUnlessCovered(xs: seq<Tri>, min: nat, max: nat)
    requires max < min
    ensures ExactFor(JudgeHookCount(CountOf(xs, Yes), CountOf(xs, Unknown), min, Some(max)), xs,
              Range(Some(min), Some(max)))
            <==> CountOf(xs, Yes) > max || CountOf(xs, Yes) + CountOf(xs, Unknown) < min
  {
    var b := Range(Some(min), Some(max));
    EveryCountIsRange(xs, b);
    NoCountIsRange(xs, b);
    assert !InBound(b, CountOf(xs, Yes));
  }

  datatype HookEvent = HookEvent(started: bool, id: Option<string>, inScope: bool)

  predicate StartedIn(events: seq<HookEvent>, id: string) {
    exists i :: 0 <= i < |events| && events[i].started && events[i].inScope && events[i].id == Some(id)
  }

  predicate RespondedIn(events: seq<HookEvent>, id: string) {
    exists i :: 0 <= i < |events| && !events[i].started && events[i].inScope && events[i].id == Some(id)
  }

  /** The hooks in scope that started and have no response, wherever in the recording one would stand. */
  function Waiting(events: seq<HookEvent>): (w: set<string>)
    ensures forall id :: id in w <==> StartedIn(events, id) && !RespondedIn(events, id)
  {
    set i | 0 <= i < |events| && events[i].started && events[i].inScope && events[i].id.Some?
            && !RespondedIn(events, events[i].id.value) :: events[i].id.value
  }

  method PendingHooks(events: seq<HookEvent>) returns (pending: nat)
    ensures pending == |Waiting(events)|
  {
    var responded: set<string>, waiting: set<string> := {}, {};
    for i := 0 to |events|
      invariant forall id :: id in responded <==> RespondedIn(events[..i], id)
    {
      var e := events[i];
      Extend(events, i);
      if !e.started && e.inScope && e.id.Some? { responded := responded + {e.id.value}; }
    }
    for i := 0 to |events|
      invariant forall id :: id in waiting <==> StartedIn(events[..i], id) && id !in responded
    {
      var e := events[i];
      Extend(events, i);
      if e.started && e.inScope && e.id.Some? && e.id.value !in responded { waiting := waiting + {e.id.value}; }
    }
    assert events[..|events|] == events;
    assert waiting == Waiting(events);
    pending := |waiting|;
  }

  lemma Extend(events: seq<HookEvent>, i: nat)
    requires i < |events|
    ensures forall id :: RespondedIn(events[..i + 1], id) <==>
              RespondedIn(events[..i], id) || (!events[i].started && events[i].inScope && events[i].id == Some(id))
    ensures forall id :: StartedIn(events[..i + 1], id) <==>
              StartedIn(events[..i], id) || (events[i].started && events[i].inScope && events[i].id == Some(id))
  {
    var before, after := events[..i], events[..i + 1];
    assert after[i] == events[i];
    assert forall k :: 0 <= k < i ==> after[k] == before[k];
  }

  function Unknowns(n: nat): (xs: seq<Tri>)
    ensures |xs| == n && forall i :: 0 <= i < n ==> xs[i] == Unknown
  {
    seq(n, i => Unknown)
  }

  lemma {:induction false} CountOfAppend(xs: seq<Tri>, ys: seq<Tri>, t: Tri)
    ensures CountOf(xs + ys, t) == CountOf(xs, t) + CountOf(ys, t)
  {
    if xs == [] {
      assert xs + ys == ys;
    } else {
      assert (xs + ys)[1..] == xs[1..] + ys;
      CountOfAppend(xs[1..], ys, t);
    }
  }

  lemma {:induction false} CountOfUnknowns(n: nat)
    ensures CountOf(Unknowns(n), Unknown) == n && CountOf(Unknowns(n), Yes) == 0
  {
    if n > 0 {
      assert Unknowns(n)[1..] == Unknowns(n - 1);
      CountOfUnknowns(n - 1);
    }
  }

  lemma {:induction false} CountOfSome(xs: seq<Tri>, t: Tri)
    ensures CountOf(xs, t) > 0 <==> t in xs
  {
    if xs != [] { CountOfSome(xs[1..], t); }
  }

  method CountThem(xs: seq<Tri>) returns (yes: nat, unknown: nat)
    ensures yes == CountOf(xs, Yes) && unknown == CountOf(xs, Unknown)
  {
    yes, unknown := 0, 0;
    for i := 0 to |xs|
      invariant yes == CountOf(xs[..i], Yes) && unknown == CountOf(xs[..i], Unknown)
    {
      CountOfNext(xs, i, Yes);
      CountOfNext(xs, i, Unknown);
      if xs[i].Unknown? { unknown := unknown + 1; } else if xs[i].Yes? { yes := yes + 1; }
    }
    assert xs[..|xs|] == xs;
  }

  /** `min` defaults to 1, or to 0 when only `max` is set. */
  function EffectiveMin(min: Option<nat>, max: Option<nat>): nat {
    if min.Some? then min.value else if max.None? then 1 else 0
  }

  /** `frames` holds what `matches` says of each frame in scope; `untooled` is set when a tool was asked for and no
      frame of the event can carry one. With frames to count, the verdict is exact over the frames and the pending
      hooks. With none it never passes, whatever the bound: a count over no evidence would be vacuous. */
  method CheckHookCount(frames: seq<Tri>, pending: nat, untooled: bool, min: Option<nat>, max: Option<nat>)
    returns (v: Verdict)
    ensures min.Some? && max.Some? && min.value > max.value ==> v == Fail
    ensures !(min.Some? && max.Some? && min.value > max.value) ==>
              && (untooled ==> v == Unavailable)
              && (!untooled && frames == [] ==> v == if pending > 0 then Unavailable else Fail)
              && (!untooled && frames != [] ==>
                   ExactFor(v, frames + Unknowns(pending),
                            if min.None? && max.None? then Range(Some(1), None)
                            else if min.None? then Range(Some(0), max) else Range(min, max)))
    ensures min.None? && max.None? ==> (v.Pass? <==> !untooled && Yes in frames)
  {
    if min.Some? && max.Some? && min.value > max.value { return Fail; }
    if untooled { return Unavailable; }
    if frames == [] { return if pending > 0 then Unavailable else Fail; }
    var matched, unreadable := CountThem(frames);
    CountOfSome(frames, Yes);
    v := JudgeHookCount(matched, unreadable + pending, EffectiveMin(min, max), max);
    CountOfAppend(frames, Unknowns(pending), Yes);
    CountOfAppend(frames, Unknowns(pending), Unknown);
    CountOfUnknowns(pending);
    JudgeHookCountIsExact(frames + Unknowns(pending), EffectiveMin(min, max), max);
  }

  // ---------------------------------------------------------------------------------------------
  // Option counts.

  /** The loop over every count the unreadable labels allow. */
  method CountVerdict(n: nat, unknown: nat, b: Bound) returns (v: Verdict)
    ensures v.Pass? <==> forall k :: n <= k <= n + unknown ==> InBound(b, k)
    ensures v.Fail? <==> forall k :: n <= k <= n + unknown ==> !InBound(b, k)
  {
    var any, every := false, true;
    var k := n;
    while k <= n + unknown
      invariant n <= k <= n + unknown + 1
      invariant any <==> exists j :: n <= j < k && InBound(b, j)
      invariant every <==> forall j :: n <= j < k ==> InBound(b, j)
    {
      if InBound(b, k) { any := true; } else { every := false; }
      k := k + 1;
    }
    v := if every then Pass else if any then Unavailable else Fail;
    if every { assert InBound(b, n); }
  }

  method LabelVerdict(labels: seq<Tri>, b: Bound) returns (v: Verdict)
    ensures ExactFor(v, labels, b)
  {
    var n, unknown := CountThem(labels);
    v := CountVerdict(n, unknown, b);
    EveryCountIsRange(labels, b);
    NoCountIsRange(labels, b);
  }

  /** A sub-question: whether `when_question` selects it (Unknown when its text was rewritten), and its labels. */
  datatype Question = Question(selected: Tri, labels: seq<Tri>)

  /** One way everything unknown could turn out: which questions are selected, and which labels match. */
  ghost predicate Answers(sel: seq<bool>, rss: seq<seq<bool>>, qs: seq<Question>) {
    && |sel| == |qs| && |rss| == |qs|
    && forall i :: 0 <= i < |qs| ==> AnswersAt(sel[i], rss[i], qs[i])
  }

  ghost predicate AnswersAt(s: bool, rs: seq<bool>, q: Question) {
    (q.selected.Yes? ==> s) && (q.selected.No? ==> !s) && Resolves(rs, q.labels)
  }

  /** The rule itself: some question is selected, and every selected one has a count in the bound. */
  ghost predicate RuleHolds(sel: seq<bool>, rss: seq<seq<bool>>, b: Bound)
    requires |sel| == |rss|
  {
    (exists i :: 0 <= i < |sel| && sel[i]) && forall i :: 0 <= i < |sel| ==> sel[i] ==> InBound(b, Count(rss[i]))
  }

  ghost predicate AlwaysHolds(qs: seq<Question>, b: Bound) {
    forall sel, rss :: Answers(sel, rss, qs) ==> RuleHolds(sel, rss, b)
  }

  ghost predicate NeverHolds(qs: seq<Question>, b: Bound) {
    forall sel, rss :: Answers(sel, rss, qs) ==> !RuleHolds(sel, rss, b)
  }

  predicate NoneUnsure(qs: seq<Question>) { forall i :: 0 <= i < |qs| ==> !qs[i].selected.Unknown? }

  predicate SomeSelected(qs: seq<Question>) { exists i :: 0 <= i < |qs| && qs[i].selected.Yes? }

  /** Some selected question misses the bound for every resolution of its labels. */
  ghost predicate SomeMisses(qs: seq<Question>, b: Bound) {
    exists i :: 0 <= i < |qs| && qs[i].selected.Yes? && NoCount(qs[i].labels, b)
  }

  /** How the selected sub-questions and their verdicts decide. */
  ghost predicate Decides(v: Verdict, qs: seq<Question>, b: Bound) {
    var sure := forall i :: 0 <= i < |qs| && qs[i].selected.Yes? ==> EveryCount(qs[i].labels, b);
    && (v.Fail? <==> SomeMisses(qs, b) || (!SomeSelected(qs) && NoneUnsure(qs)))
    && (v.Pass? <==> SomeSelected(qs) && sure && NoneUnsure(qs))
  }

  method QuestionOptionCount(qs: seq<Question>, b: Bound) returns (v: Verdict)
    ensures Decides(v, qs, b)
  {
    var pool, unsureSelected, bad, unsure := 0, 0, 0, 0;
    for i := 0 to |qs|
      invariant unsureSelected > 0 <==> exists k :: 0 <= k < i && qs[k].selected.Unknown?
      invariant pool > 0 <==> exists k :: 0 <= k < i && qs[k].selected.Yes?
      invariant bad > 0 <==> exists k :: 0 <= k < i && qs[k].selected.Yes? && NoCount(qs[k].labels, b)
      invariant bad > 0 || unsure > 0 <==> exists k :: 0 <= k < i && qs[k].selected.Yes? && !EveryCount(qs[k].labels, b)
    {
      if qs[i].selected.Unknown? { unsureSelected := unsureSelected + 1; }
      if qs[i].selected.Yes? {
        pool := pool + 1;
        var c := LabelVerdict(qs[i].labels, b);
        NotBoth(qs[i].labels, b);
        if c.Fail? { bad := bad + 1; }
        if c.Unavailable? { unsure := unsure + 1; }
      }
    }
    if pool == 0 { return if unsureSelected > 0 then Unavailable else Fail; }
    v := if bad > 0 then Fail else if unsure > 0 || unsureSelected > 0 then Unavailable else Pass;
    NotBothAll(qs, b);
  }

  lemma NotBoth(xs: seq<Tri>, b: Bound)
    ensures !(EveryCount(xs, b) && NoCount(xs, b))
  {
    var rs := ResolutionAt(xs, CountOf(xs, Yes));
    assert Resolves(rs, xs);
  }

  lemma NotBothAll(qs: seq<Question>, b: Bound)
    ensures forall i :: 0 <= i < |qs| ==> !(EveryCount(qs[i].labels, b) && NoCount(qs[i].labels, b))
  {
    forall i | 0 <= i < |qs|
      ensures !(EveryCount(qs[i].labels, b) && NoCount(qs[i].labels, b))
    {
      NotBoth(qs[i].labels, b);
    }
  }

  // ---------------------------------------------------------------------------------------------
  // The universal rule is sound, and when it is exact.

  function Selected(qs: seq<Question>): (sel: seq<bool>)
    ensures |sel| == |qs| && forall i :: 0 <= i < |qs| ==> sel[i] == qs[i].selected.Yes?
  {
    seq(|qs|, i requires 0 <= i < |qs| => qs[i].selected.Yes?)
  }

  /** A resolution that meets the bound, if there is one. */
  ghost function Best(xs: seq<Tri>, b: Bound): (rs: seq<bool>)
    ensures Resolves(rs, xs) && (!NoCount(xs, b) ==> InBound(b, Count(rs)))
  {
    if NoCount(xs, b) then ResolutionAt(xs, CountOf(xs, Yes))
    else
      var rs :| Resolves(rs, xs) && InBound(b, Count(rs));
      rs
  }

  ghost function BestOfAll(qs: seq<Question>, b: Bound): (rss: seq<seq<bool>>)
    ensures |rss| == |qs| && forall i :: 0 <= i < |qs| ==> rss[i] == Best(qs[i].labels, b)
  {
    seq(|qs|, i requires 0 <= i < |qs| => Best(qs[i].labels, b))
  }

  lemma RuleIsSound(qs: seq<Question>, b: Bound, v: Verdict)
    requires Decides(v, qs, b)
    ensures v.Pass? ==> AlwaysHolds(qs, b)
    ensures v.Fail? ==> NeverHolds(qs, b)
  {
    if v.Pass? {
      forall sel, rss | Answers(sel, rss, qs) ensures RuleHolds(sel, rss, b) {
        var i :| 0 <= i < |qs| && qs[i].selected.Yes?;
        assert AnswersAt(sel[i], rss[i], qs[i]);
        forall k | 0 <= k < |sel| && sel[k]
          ensures InBound(b, Count(rss[k]))
        {
          assert AnswersAt(sel[k], rss[k], qs[k]);
        }
      }
    }
    if v.Fail? {
      forall sel, rss | Answers(sel, rss, qs) ensures !RuleHolds(sel, rss, b) {
        if i :| 0 <= i < |qs| && qs[i].selected.Yes? && NoCount(qs[i].labels, b) {
          assert AnswersAt(sel[i], rss[i], qs[i]);
        } else {
          forall k | 0 <= k < |sel| ensures !sel[k] { assert AnswersAt(sel[k], rss[k], qs[k]); }
        }
      }
    }
  }

  /** Some question is selected, and all that may be selected meet the bound whatever their labels are. */
  ghost predicate AllMeet(qs: seq<Question>, b: Bound) {
    SomeSelected(qs) && forall i :: 0 <= i < |qs| && !qs[i].selected.No? ==> EveryCount(qs[i].labels, b)
  }

  /** No question is surely selected, and all that may be miss the bound whatever their labels are. */
  ghost predicate NoneCanMeet(qs: seq<Question>, b: Bound) {
    !SomeSelected(qs) && forall i :: 0 <= i < |qs| && qs[i].selected.Unknown? ==> NoCount(qs[i].labels, b)
  }

  /** Question i selected too, with the labels `rs`. */
  lemma SelectToo(qs: seq<Question>, b: Bound, i: nat, rs: seq<bool>)
    requires i < |qs| && !qs[i].selected.No? && Resolves(rs, qs[i].labels)
    ensures Answers(Selected(qs)[i := true], BestOfAll(qs, b)[i := rs], qs)
  {
    var sel, rss := Selected(qs)[i := true], BestOfAll(qs, b)[i := rs];
    forall k | 0 <= k < |qs| ensures AnswersAt(sel[k], rss[k], qs[k]) {}
  }

  lemma SelectedOnly(qs: seq<Question>, b: Bound)
    ensures Answers(Selected(qs), BestOfAll(qs, b), qs)
  {
    forall k | 0 <= k < |qs| ensures AnswersAt(Selected(qs)[k], BestOfAll(qs, b)[k], qs[k]) {}
  }

  lemma AllMeetHolds(qs: seq<Question>, b: Bound, sel: seq<bool>, rss: seq<seq<bool>>)
    requires AllMeet(qs, b) && Answers(sel, rss, qs)
    ensures RuleHolds(sel, rss, b)
  {
    var i :| 0 <= i < |qs| && qs[i].selected.Yes?;
    assert AnswersAt(sel[i], rss[i], qs[i]);
    forall k | 0 <= k < |sel| && sel[k] ensures InBound(b, Count(rss[k])) { assert AnswersAt(sel[k], rss[k], qs[k]); }
  }

  lemma AlwaysHoldsWhen(qs: seq<Question>, b: Bound)
    ensures AlwaysHolds(qs, b) <==> AllMeet(qs, b)
  {
    if AllMeet(qs, b) {
      forall sel, rss | Answers(sel, rss, qs) ensures RuleHolds(sel, rss, b) { AllMeetHolds(qs, b, sel, rss); }
    } else if SomeSelected(qs) {
      var i: nat :| i < |qs| && !qs[i].selected.No? && !EveryCount(qs[i].labels, b);
      var rs :| Resolves(rs, qs[i].labels) && !InBound(b, Count(rs));
      MissingOneFails(qs, b, i, rs);
    } else {
      SelectedOnly(qs, b);
      assert !RuleHolds(Selected(qs), BestOfAll(qs, b), b);
    }
  }

  lemma MissingOneFails(qs: seq<Question>, b: Bound, i: nat, rs: seq<bool>)
    requires i < |qs| && !qs[i].selected.No? && Resolves(rs, qs[i].labels) && !InBound(b, Count(rs))
    ensures !AlwaysHolds(qs, b)
  {
    SelectToo(qs, b, i, rs);
    var sel, rss := Selected(qs)[i := true], BestOfAll(qs, b)[i := rs];
    assert sel[i] && rss[i] == rs;
    assert !RuleHolds(sel, rss, b);
  }

  lemma NeverHoldsWhen(qs: seq<Question>, b: Bound)
    ensures NeverHolds(qs, b) <==> SomeMisses(qs, b) || NoneCanMeet(qs, b)
  {
    if SomeMisses(qs, b) || NoneCanMeet(qs, b) {
      forall sel, rss | Answers(sel, rss, qs) ensures !RuleHolds(sel, rss, b) {
        forall k | 0 <= k < |qs| ensures AnswersAt(sel[k], rss[k], qs[k]) {}
        if i :| 0 <= i < |qs| && qs[i].selected.Yes? && NoCount(qs[i].labels, b) { assert sel[i]; }
      }
    } else if SomeSelected(qs) {
      var i: nat :| i < |qs| && qs[i].selected.Yes?;
      SelectedOnly(qs, b);
      assert Selected(qs)[i];
      assert RuleHolds(Selected(qs), BestOfAll(qs, b), b);
    } else {
      var i: nat :| i < |qs| && qs[i].selected.Unknown? && !NoCount(qs[i].labels, b);
      SelectToo(qs, b, i, Best(qs[i].labels, b));
      var sel, rss := Selected(qs)[i := true], BestOfAll(qs, b)[i := Best(qs[i].labels, b)];
      assert sel[i];
      assert RuleHolds(sel, rss, b);
    }
  }

  /** The verdict is what the resolutions agree on. */
  ghost predicate RuleExact(v: Verdict, qs: seq<Question>, b: Bound) {
    (v.Pass? <==> AlwaysHolds(qs, b)) && (v.Fail? <==> NeverHolds(qs, b))
  }

  /** The verdict is exact unless some question's text cannot be read, nothing has failed yet, and that text could not
      matter: the questions that may be selected all meet the bound anyway, or all miss it. */
  lemma RuleIsExact(qs: seq<Question>, b: Bound, v: Verdict)
    requires Decides(v, qs, b)
    ensures RuleExact(v, qs, b) <==>
              NoneUnsure(qs) || SomeMisses(qs, b) || !(AllMeet(qs, b) || NoneCanMeet(qs, b))
  {
    RuleIsSound(qs, b, v);
    AlwaysHoldsWhen(qs, b);
    NeverHoldsWhen(qs, b);
    NotBothAll(qs, b);
  }

  /** Such a question: every reading of it passes, and the verdict is unavailable. */
  lemma UnsureSelectionIsCautious()
    ensures var qs := [Question(Yes, [Yes]), Question(Unknown, [Yes])];
            AlwaysHolds(qs, Exactly(1)) && Decides(Unavailable, qs, Exactly(1))
  {
    var qs, b := [Question(Yes, [Yes]), Question(Unknown, [Yes])], Exactly(1);
    assert CountOf([Yes], Yes) == 1 && CountOf([Yes], Unknown) == 0;
    EveryCountIsRange([Yes], b);
    NotBoth([Yes], b);
    assert qs[0].selected.Yes? && qs[1].selected.Unknown?;
    AlwaysHoldsWhen(qs, b);
  }

  // ---------------------------------------------------------------------------------------------
  // Revealing an unknown.

  predicate RevealsOne(y: Tri, x: Tri) { !x.Unknown? ==> y == x }

  /** `ys` is `xs` with some unknowns made known. */
  predicate Reveals(ys: seq<Tri>, xs: seq<Tri>) {
    |ys| == |xs| && forall i :: 0 <= i < |xs| ==> RevealsOne(ys[i], xs[i])
  }

  lemma RevealingKeepsCounts(xs: seq<Tri>, ys: seq<Tri>, b: Bound)
    requires Reveals(ys, xs)
    ensures EveryCount(xs, b) ==> EveryCount(ys, b)
    ensures NoCount(xs, b) ==> NoCount(ys, b)
  {
    forall rs | Resolves(rs, ys) ensures Resolves(rs, xs) {
      forall i | 0 <= i < |xs|
        ensures (xs[i].Yes? ==> rs[i]) && (xs[i].No? ==> !rs[i])
      {
        assert RevealsOne(ys[i], xs[i]);
      }
    }
  }

  /** Exact verdicts over one list: a pass stays a pass and a fail a fail, whatever is revealed. */
  lemma RevealingNeverFlips(xs: seq<Tri>, ys: seq<Tri>, b: Bound, before: Verdict, after: Verdict)
    requires Reveals(ys, xs) && ExactFor(before, xs, b) && ExactFor(after, ys, b)
    ensures !before.Unavailable? ==> after == before
  {
    RevealingKeepsCounts(xs, ys, b);
    NotBoth(ys, b);
  }

  predicate RevealsQuestion(r: Question, q: Question) {
    RevealsOne(r.selected, q.selected) && Reveals(r.labels, q.labels)
  }

  /** The same through the universal rule: selections and labels may both be revealed. */
  lemma RevealingNeverFlipsTheRule(qs: seq<Question>, rs: seq<Question>, b: Bound, before: Verdict, after: Verdict)
    requires |rs| == |qs| && (forall i :: 0 <= i < |qs| ==> RevealsQuestion(rs[i], qs[i]))
    requires Decides(before, qs, b) && Decides(after, rs, b)
    ensures !before.Unavailable? ==> after == before
  {
    forall i | 0 <= i < |qs|
      ensures EveryCount(qs[i].labels, b) ==> EveryCount(rs[i].labels, b)
      ensures NoCount(qs[i].labels, b) ==> NoCount(rs[i].labels, b)
      ensures RevealsOne(rs[i].selected, qs[i].selected)
    {
      assert RevealsQuestion(rs[i], qs[i]);
      RevealingKeepsCounts(qs[i].labels, rs[i].labels, b);
    }
    if before.Fail? {
      if i :| 0 <= i < |qs| && qs[i].selected.Yes? && NoCount(qs[i].labels, b) {
        assert rs[i].selected.Yes? && NoCount(rs[i].labels, b);
      }
    }
    if before.Pass? {
      var i :| 0 <= i < |qs| && qs[i].selected.Yes?;
      assert rs[i].selected.Yes?;
    }
  }

  // ---------------------------------------------------------------------------------------------
  // The fold over the files a glob matched.

  const GLOB_MAX_MATCHES := 200

  datatype Match = Each | Any

  ghost predicate FoldHolds(m: Match, rs: seq<bool>) {
    match m
    case Each => forall i :: 0 <= i < |rs| ==> rs[i]
    case Any => exists i :: 0 <= i < |rs| && rs[i]
  }

  ghost predicate FoldExact(v: Verdict, m: Match, xs: seq<Tri>) {
    && (v.Pass? <==> forall rs :: Resolves(rs, xs) ==> FoldHolds(m, rs))
    && (v.Fail? <==> forall rs :: Resolves(rs, xs) ==> !FoldHolds(m, rs))
  }

  /** The same through the fold. */
  lemma RevealingNeverFlipsTheFold(m: Match, xs: seq<Tri>, ys: seq<Tri>, before: Verdict, after: Verdict)
    requires Reveals(ys, xs) && FoldExact(before, m, xs) && FoldExact(after, m, ys)
    ensures !before.Unavailable? ==> after == before
  {
    forall rs | Resolves(rs, ys) ensures Resolves(rs, xs) {
      forall i | 0 <= i < |xs|
        ensures (xs[i].Yes? ==> rs[i]) && (xs[i].No? ==> !rs[i])
      {
        assert RevealsOne(ys[i], xs[i]);
      }
    }
  }

  /** `files` holds each matched file's own verdict, `linksBelow` the number of links that could hide a match. Over a
      non-empty set within the cap the fold is exact over the files and the links; otherwise it never passes. */
  method FoldMatches(m: Match, files: seq<Tri>, linksBelow: nat) returns (v: Verdict)
    ensures files == [] ==> v == if linksBelow > 0 then Unavailable else Fail
    ensures |files| > GLOB_MAX_MATCHES ==> v == Unavailable
    ensures 0 < |files| <= GLOB_MAX_MATCHES ==> FoldExact(v, m, files + Unknowns(linksBelow))
  {
    if files == [] { return if linksBelow > 0 then Unavailable else Fail; }
    if |files| > GLOB_MAX_MATCHES { return Unavailable; }
    var passed, failed, unavailable := 0, 0, linksBelow;
    for i := 0 to |files|
      invariant passed > 0 <==> exists k :: 0 <= k < i && files[k].Yes?
      invariant failed > 0 <==> exists k :: 0 <= k < i && files[k].No?
      invariant unavailable > 0 <==> linksBelow > 0 || exists k :: 0 <= k < i && files[k].Unknown?
    {
      match files[i] {
        case Yes => passed := passed + 1;
        case No => failed := failed + 1;
        case Unknown => unavailable := unavailable + 1;
      }
    }
    var all := files + Unknowns(linksBelow);
    FoldIsDecided(m, files, linksBelow);
    v := if (if m.Any? then passed > 0 else failed == 0 && unavailable == 0) then Pass
         else if unavailable > 0 && (m.Any? || failed == 0) then Unavailable
         else Fail;
  }

  function AllAs(xs: seq<Tri>, unknown: bool): (rs: seq<bool>)
    ensures Resolves(rs, xs) && forall i :: 0 <= i < |xs| && xs[i].Unknown? ==> rs[i] == unknown
  {
    seq(|xs|, i requires 0 <= i < |xs| => if xs[i].Unknown? then unknown else xs[i].Yes?)
  }

  lemma FoldIsDecided(m: Match, files: seq<Tri>, links: nat)
    requires files != []
    ensures var someUnknown := links > 0 || exists k :: 0 <= k < |files| && files[k].Unknown?;
            var someYes := exists k :: 0 <= k < |files| && files[k].Yes?;
            var someNo := exists k :: 0 <= k < |files| && files[k].No?;
            && ((forall rs :: Resolves(rs, files + Unknowns(links)) ==> FoldHolds(m, rs)) <==>
                 if m.Any? then someYes else !someNo && !someUnknown)
            && ((forall rs :: Resolves(rs, files + Unknowns(links)) ==> !FoldHolds(m, rs)) <==>
                 if m.Any? then !someYes && !someUnknown else someNo)
  {
    var all := files + Unknowns(links);
    assert forall k :: 0 <= k < |files| ==> all[k] == files[k];
    assert links > 0 ==> all[|files|].Unknown?;
    var worst, best := AllAs(all, false), AllAs(all, true);
    assert Resolves(worst, all) && Resolves(best, all);
    assert forall k :: |files| <= k < |all| ==> all[k].Unknown?;
    if k :| 0 <= k < |files| && files[k].Yes? { assert forall rs :: Resolves(rs, all) ==> rs[k]; }
    if k :| 0 <= k < |files| && files[k].No? { assert forall rs :: Resolves(rs, all) ==> !rs[k]; }
    if k :| 0 <= k < |files| && files[k].Unknown? { assert all[k].Unknown? && best[k] && !worst[k]; }
    if links > 0 { assert best[|files|] && !worst[|files|]; }
  }
}
