/** The judge pre-pass `runSemanticJudges` and the `semantic_matches` branch of `check` (src/assert.ts). */
module JudgePrepass {
  import opened JudgedDocument
  import opened JudgeRefusal
  import opened Options

  // ---------------------------------------------------------------------------------------------
  // The key of the document memo: `${sub}:${skill}::${JSON.stringify(scope) or ""}`.

  function Hex(n: nat): char
    requires n < 16
  {
    if n < 10 then ('0' as int + n) as char else ('a' as int + n - 10) as char
  }

  /** One character inside a JSON string, as `JSON.stringify` writes it. */
  function Escape(c: char): (r: string)
    ensures r != [] && r[0] != '"'
  {
    if c == '"' then "\\\""
    else if c == '\\' then "\\\\"
    else if c == '\n' then "\\n"
    else if c == '\r' then "\\r"
    else if c == '\t' then "\\t"
    else if c as int == 8 then "\\b"
    else if c as int == 12 then "\\f"
    else if c as int < 32 then "\\u00" + [Hex(c as int / 16), Hex(c as int % 16)]
    else [c]
  }

  /** The rest of a quoted string after its opening quote, followed by `rest`. */
  function Quoted(s: string, rest: string): string {
    if s == "" then ['"'] + rest else Escape(s[0]) + Quoted(s[1..], rest)
  }

  /** The elements from the second on, and the closing bracket. */
  function ListTail(xs: seq<string>): string {
    if xs == [] then [']'] else [','] + (['"'] + Quoted(xs[0], ListTail(xs[1..])))
  }

  function Stringify(xs: seq<string>): string {
    if xs == [] then ['['] + [']'] else ['['] + (['"'] + Quoted(xs[0], ListTail(xs[1..])))
  }

  function Bit(b: bool): string { if b then "1" else "0" }

  function DocKey(o: Opts): string {
    Bit(o.subagentText) + ":" + Bit(o.forkResults) + "::" +
      (if o.evidenceFiles.Some? then Stringify(o.evidenceFiles.value) else "")
  }

  /** No escape is a prefix of another one. */
  lemma EscapeIsPrefixFree(c: char, d: char, x: string, y: string)
    requires Escape(c) + x == Escape(d) + y
    ensures c == d && x == y
  {
    var u, v := Escape(c), Escape(d);
    assert u[0] == (u + x)[0] == (v + y)[0] == v[0];
    if u[0] == '\\' {
      assert u[1] == (u + x)[1] == (v + y)[1] == v[1];
      if u[1] == 'u' {
        assert u[4] == (u + x)[4] == (v + y)[4] == v[4];
        assert u[5] == (u + x)[5] == (v + y)[5] == v[5];
      }
    }
    assert x == (u + x)[|u|..] == (v + y)[|v|..] == y;
  }

  lemma SameHead(c: char, d: char, x: string, y: string)
    requires [c] + x == [d] + y
    ensures c == d && x == y
  {
    assert c == ([c] + x)[0] == ([d] + y)[0] == d;
    assert x == ([c] + x)[1..] == ([d] + y)[1..] == y;
  }

  lemma QuotedHead(s: string, rest: string)
    ensures Quoted(s, rest) != []
    ensures Quoted(s, rest)[0] == '"' <==> s == ""
  {
  }

  /** A quoted string ends at its own closing quote. */
  lemma {:induction false} QuotedIsPrefixFree(s: string, t: string, x: string, y: string)
    requires Quoted(s, x) == Quoted(t, y)
    ensures s == t && x == y
  {
    QuotedHead(s, x);
    QuotedHead(t, y);
    if s == "" {
      SameHead('"', '"', x, y);
    } else {
      EscapeIsPrefixFree(s[0], t[0], Quoted(s[1..], x), Quoted(t[1..], y));
      QuotedIsPrefixFree(s[1..], t[1..], x, y);
      assert s == [s[0]] + s[1..] && t == [t[0]] + t[1..];
    }
  }

  lemma {:induction false} ListTailIsInjective(xs: seq<string>, ys: seq<string>)
    requires ListTail(xs) == ListTail(ys)
    ensures xs == ys
  {
    assert ListTail(xs)[0] == (if xs == [] then ']' else ',');
    assert ListTail(ys)[0] == (if ys == [] then ']' else ',');
    if xs != [] {
      var u, v := Quoted(xs[0], ListTail(xs[1..])), Quoted(ys[0], ListTail(ys[1..]));
      SameHead(',', ',', ['"'] + u, ['"'] + v);
      SameHead('"', '"', u, v);
      QuotedIsPrefixFree(xs[0], ys[0], ListTail(xs[1..]), ListTail(ys[1..]));
      ListTailIsInjective(xs[1..], ys[1..]);
      assert xs == [xs[0]] + xs[1..] && ys == [ys[0]] + ys[1..];
    }
  }

  lemma StringifyIsInjective(xs: seq<string>, ys: seq<string>)
    requires Stringify(xs) == Stringify(ys)
    ensures xs == ys
  {
    assert Stringify(xs)[1] == (if xs == [] then ']' else '"');
    assert Stringify(ys)[1] == (if ys == [] then ']' else '"');
    if xs != [] {
      var u, v := Quoted(xs[0], ListTail(xs[1..])), Quoted(ys[0], ListTail(ys[1..]));
      SameHead('[', '[', ['"'] + u, ['"'] + v);
      SameHead('"', '"', u, v);
      QuotedIsPrefixFree(xs[0], ys[0], ListTail(xs[1..]), ListTail(ys[1..]));
      ListTailIsInjective(xs[1..], ys[1..]);
      assert xs == [xs[0]] + xs[1..] && ys == [ys[0]] + ys[1..];
    }
  }

  /** Two asserts share a memoised document only when their document options are the same. */
  lemma DocKeyIsInjective(o: Opts, p: Opts)
    requires DocKey(o) == DocKey(p)
    ensures o == p
  {
    var a, b := DocKey(o), DocKey(p);
    assert a[0] == Bit(o.subagentText)[0] && b[0] == Bit(p.subagentText)[0];
    assert a[2] == Bit(o.forkResults)[0] && b[2] == Bit(p.forkResults)[0];
    var u := if o.evidenceFiles.Some? then Stringify(o.evidenceFiles.value) else "";
    var v := if p.evidenceFiles.Some? then Stringify(p.evidenceFiles.value) else "";
    assert u == a[5..] == b[5..] == v;
    if o.evidenceFiles.Some? && p.evidenceFiles.Some? {
      StringifyIsInjective(o.evidenceFiles.value, p.evidenceFiles.value);
    }
  }

  // ---------------------------------------------------------------------------------------------
  // Replies, and what one assert's grading comes to.

  datatype Claim = Claim(index: int, pass: bool)

  datatype Reply = Reply(answer: Answer, cost: Option<real>)

  /** A grade, an unreadable grade, or a failed call. */
  datatype Answer = Grade(claims: seq<Claim>) | Malformed | CallFailed(retryable: bool)

  /** An arbitrary oracle: `judge(i, attempt, rubric, document)` is its reply to the given attempt on assert i. */
  type Judge = (nat, nat, seq<string>, string) -> Reply

  datatype Outcome =
    | Refused(refusal: Refusal)
    | Graded(claims: seq<Claim>, calls: nat, cost: Option<real>)
    | Invalid(calls: nat, cost: Option<real>)

  function SentRubric(ctx: Context, a: Assertion): seq<string> {
    seq(|a.rubric|, i requires 0 <= i < |a.rubric| => ctx.scrub(a.rubric[i]))
  }

  function ReplyTo(judge: Judge, ctx: Context, a: Assertion, i: nat, attempt: nat, doc: string): Reply {
    judge(i, attempt, SentRubric(ctx, a), doc)
  }

  function AddCost(total: Option<real>, call: Option<real>): Option<real> {
    if call.None? then total else Some((if total.None? then 0.0 else total.value) + call.value)
  }

  /** A second call is made only after a first one that might go differently. */
  predicate Retried(first: Reply) { first.answer.Malformed? || (first.answer.CallFailed? && first.answer.retryable) }

  function OutcomeOf(ctx: Context, judge: Judge, i: nat, a: Assertion, c: Composed): Outcome {
    var refusal := SemanticRefusal(a, ctx, Some(c));
    if refusal.Some? then Refused(refusal.value) else GradeOf(ctx, judge, i, a, c.doc)
  }

  function GradeOf(ctx: Context, judge: Judge, i: nat, a: Assertion, doc: string): Outcome {
    EndOf(ReplyTo(judge, ctx, a, i, 0, doc), ReplyTo(judge, ctx, a, i, 1, doc))
  }

  function EndOf(r0: Reply, r1: Reply): (o: Outcome)
    ensures !o.Refused?
  {
    if r0.answer.Grade? then Graded(r0.answer.claims, 1, AddCost(None, r0.cost))
    else if !Retried(r0) then Invalid(1, AddCost(None, r0.cost))
    else if r1.answer.Grade? then Graded(r1.answer.claims, 2, AddCost(AddCost(None, r0.cost), r1.cost))
    else Invalid(2, AddCost(AddCost(None, r0.cost), r1.cost))
  }

  /** The retry loop: at most two calls, the second only after a retryable failure, every priced call paid. */
  method GradeWithRetry(ctx: Context, judge: Judge, i: nat, a: Assertion, doc: string)
    returns (graded: Option<seq<Claim>>, calls: nat, cost: Option<real>, invalid: bool)
    ensures invalid <==> graded.None?
    ensures GradeOf(ctx, judge, i, a, doc) ==
              if graded.Some? then Graded(graded.value, calls, cost) else Invalid(calls, cost)
  {
    graded, calls, cost, invalid := None, 0, None, false;
    var attempt := 0;
    while attempt < 2 && graded.None?
      invariant 0 <= attempt <= 2 && calls == attempt && (attempt == 0 ==> graded.None?)
      invariant attempt == 0 ==> cost == None
      invariant attempt > 0 ==>
        var r0 := ReplyTo(judge, ctx, a, i, 0, doc);
        && (graded.Some? && attempt == 1 ==> r0.answer.Grade? && r0.answer.claims == graded.value)
        && (attempt == 2 || graded.None? ==> Retried(r0))
        && (attempt == 1 ==> cost == AddCost(None, r0.cost))
        && (attempt == 2 ==> cost == AddCost(AddCost(None, r0.cost), ReplyTo(judge, ctx, a, i, 1, doc).cost))
      invariant attempt == 2 ==>
        var r1 := ReplyTo(judge, ctx, a, i, 1, doc);
        (graded.Some? <==> r1.answer.Grade?) && (graded.Some? ==> r1.answer.claims == graded.value)
      invariant invalid <==> attempt == 2 && graded.None?
    {
      calls := attempt + 1;
      var stop := false;
      var reply := ReplyTo(judge, ctx, a, i, attempt, doc);
      match reply.answer {
        case Grade(claims) => graded := Some(claims);
        case Malformed => if attempt == 1 { invalid := true; }
        case CallFailed(retryable) =>
          stop := !retryable;
          if attempt == 1 || stop { invalid := true; }
      }
      cost := AddCost(cost, reply.cost);
      if stop { break; }
      attempt := attempt + 1;
    }
  }

  // ---------------------------------------------------------------------------------------------
  // The maps the pre-pass fills. An assertion object keys them; here, its position.

  datatype Maps = Maps(
    semanticResults: map<nat, seq<Claim>>, semanticRefused: map<nat, Refusal>, judgeInvalid: set<nat>,
    docInfo: map<nat, Composed>, judgeCosts: map<nat, real>, judgedDocs: map<nat, seq<Section>>,
    judgeAttempts: map<nat, nat>)
  {
    /** Nothing is recorded for assert i. */
    predicate Blank(i: nat) {
      i !in semanticResults && i !in semanticRefused && i !in judgeInvalid && i !in docInfo && i !in judgeCosts
      && i !in judgedDocs && i !in judgeAttempts
    }

    /** What assert i left in the maps is exactly this outcome, over this document. A refused assert leaves its refusal
        and the bookkeeping of its document: no result, no cost, no judged document, no call. */
    predicate Holds(i: nat, c: Composed, outcome: Outcome) {
      && i in docInfo && docInfo[i] == c
      && match outcome
         case Refused(refusal) =>
           && i in semanticRefused && semanticRefused[i] == refusal
           && i !in semanticResults && i !in judgeInvalid && i !in judgeCosts && i !in judgedDocs && i !in judgeAttempts
         case Graded(claims, calls, cost) =>
           && i in semanticResults && semanticResults[i] == claims
           && i !in semanticRefused && i !in judgeInvalid && Spent(i, c, calls, cost)
         case Invalid(calls, cost) =>
           && i in judgeInvalid && i !in semanticResults && i !in semanticRefused && Spent(i, c, calls, cost)
    }

    predicate Spent(i: nat, c: Composed, calls: nat, cost: Option<real>) {
      && i in judgeAttempts && judgeAttempts[i] == calls
      && i in judgedDocs && judgedDocs[i] == c.fingerprint
      && (i in judgeCosts <==> cost.Some?) && (cost.Some? ==> judgeCosts[i] == cost.value)
    }

    /** The maps once assert i ended so. */
    function After(i: nat, c: Composed, outcome: Outcome): Maps {
      match outcome
      case Refused(refusal) => this.(docInfo := docInfo[i := c], semanticRefused := semanticRefused[i := refusal])
      case Graded(claims, calls, cost) =>
        Paid(i, c, calls, cost).(semanticResults := semanticResults[i := claims])
      case Invalid(calls, cost) =>
        Paid(i, c, calls, cost).(judgeInvalid := judgeInvalid + {i})
    }

    function Paid(i: nat, c: Composed, calls: nat, cost: Option<real>): Maps {
      this.(docInfo := docInfo[i := c], judgedDocs := judgedDocs[i := c.fingerprint],
            judgeAttempts := judgeAttempts[i := calls],
            judgeCosts := if cost.Some? then judgeCosts[i := cost.value] else judgeCosts)
    }

    /** Assert k left the same in both. */
    predicate SameAt(k: nat, m: Maps) {
      && (k in semanticResults <==> k in m.semanticResults)
      && (k in semanticResults ==> semanticResults[k] == m.semanticResults[k])
      && (k in semanticRefused <==> k in m.semanticRefused)
      && (k in semanticRefused ==> semanticRefused[k] == m.semanticRefused[k])
      && (k in judgeInvalid <==> k in m.judgeInvalid)
      && (k in docInfo <==> k in m.docInfo) && (k in docInfo ==> docInfo[k] == m.docInfo[k])
      && (k in judgeCosts <==> k in m.judgeCosts) && (k in judgeCosts ==> judgeCosts[k] == m.judgeCosts[k])
      && (k in judgedDocs <==> k in m.judgedDocs) && (k in judgedDocs ==> judgedDocs[k] == m.judgedDocs[k])
      && (k in judgeAttempts <==> k in m.judgeAttempts)
      && (k in judgeAttempts ==> judgeAttempts[k] == m.judgeAttempts[k])
    }
  }

  /** Assert i ended in the outcome the judge's replies call for, over a document composed for its own options. */
  ghost predicate Ended(ctx: Context, a: Assertion, judge: Judge, i: nat, maps: Maps) {
    exists c: Composed :: Reports(ctx, a.opts, c) && maps.Holds(i, c, OutcomeOf(ctx, judge, i, a, c))
  }

  /** The memo of composed documents holds, under each key, what composing afresh for that key would give. */
  ghost predicate Memo(ctx: Context, cache: map<string, Composed>) {
    forall o: Opts :: DocKey(o) in cache ==> Reports(ctx, o, cache[DocKey(o)])
  }

  method JudgedDoc(ctx: Context, o: Opts, cache: map<string, Composed>)
    returns (c: Composed, docCache: map<string, Composed>)
    requires Memo(ctx, cache)
    ensures Memo(ctx, docCache) && Reports(ctx, o, c)
  {
    var key := DocKey(o);
    if key in cache { return cache[key], cache; }
    c := ComposeJudgedDocument(ctx, o);
    docCache := cache[key := c];
    forall p: Opts | DocKey(p) in docCache ensures Reports(ctx, p, docCache[DocKey(p)]) {
      if DocKey(p) == key { DocKeyIsInjective(o, p); }
    }
  }

  class Prepass {
    var maps: Maps

    constructor ()
      ensures forall i: nat :: maps.Blank(i)
    {
      maps := Maps(map[], map[], {}, map[], map[], map[], map[]);
    }

    /** One assert of the loop, after its document is composed. */
    method JudgeOne(ctx: Context, judge: Judge, i: nat, a: Assertion, built: Composed)
      modifies this
      ensures maps == old(maps).After(i, built, OutcomeOf(ctx, judge, i, a, built))
    {
      maps := maps.(docInfo := maps.docInfo[i := built]);
      var refusal := SemanticRefusal(a, ctx, Some(built));
      if refusal.Some? {
        maps := maps.(semanticRefused := maps.semanticRefused[i := refusal.value]);
        return;
      }
      var graded, attempts, cost, invalid := GradeWithRetry(ctx, judge, i, a, built.doc);
      if invalid { maps := maps.(judgeInvalid := maps.judgeInvalid + {i}); }
      maps := maps.(judgedDocs := maps.judgedDocs[i := built.fingerprint]);
      if cost.Some? { maps := maps.(judgeCosts := maps.judgeCosts[i := cost.value]); }
      maps := maps.(judgeAttempts := maps.judgeAttempts[i := attempts]);
      if graded.Some? { maps := maps.(semanticResults := maps.semanticResults[i := graded.value]); }
    }

    method RunSemanticJudges(ctx: Context, assertions: seq<Assertion>, judge: Judge)
      requires forall i: nat :: maps.Blank(i)
      modifies this
      ensures Progress(ctx, assertions, judge, |assertions|, maps)
    {
      var docCache: map<string, Composed> := map[];
      for i := 0 to |assertions|
        invariant Memo(ctx, docCache)
        invariant Progress(ctx, assertions, judge, i, maps)
      {
        var a := assertions[i];
        var built;
        built, docCache := JudgedDoc(ctx, a.opts, docCache);
        Step(ctx, assertions, judge, i, maps, built);
        JudgeOne(ctx, judge, i, a, built);
      }
    }
  }

  /** The first n asserts have ended; nothing is recorded for any other. */
  ghost predicate Progress(ctx: Context, assertions: seq<Assertion>, judge: Judge, n: nat, maps: Maps)
    requires n <= |assertions|
  {
    && (forall k :: 0 <= k < n ==> Ended(ctx, assertions[k], judge, k, maps))
    && (forall k: nat :: k >= n ==> maps.Blank(k))
  }

  lemma Step(ctx: Context, assertions: seq<Assertion>, judge: Judge, i: nat, maps: Maps, c: Composed)
    requires i < |assertions| && Progress(ctx, assertions, judge, i, maps) && Reports(ctx, assertions[i].opts, c)
    ensures Progress(ctx, assertions, judge, i + 1, maps.After(i, c, OutcomeOf(ctx, judge, i, assertions[i], c)))
  {
    var outcome := OutcomeOf(ctx, judge, i, assertions[i], c);
    var after := maps.After(i, c, outcome);
    AfterHolds(maps, i, c, outcome);
    assert Ended(ctx, assertions[i], judge, i, after);
    forall k | 0 <= k < i ensures Ended(ctx, assertions[k], judge, k, after) {
      EndedStays(ctx, assertions[k], judge, k, maps, after);
    }
    forall k: nat | k > i ensures after.Blank(k) { BlankStays(k, maps, after); }
  }

  lemma AfterHolds(m: Maps, i: nat, c: Composed, outcome: Outcome)
    requires m.Blank(i)
    ensures m.After(i, c, outcome).Holds(i, c, outcome)
    ensures forall k: nat :: k != i ==> m.After(i, c, outcome).SameAt(k, m)
  {
  }

  lemma BlankStays(k: nat, before: Maps, after: Maps)
    requires before.Blank(k) && after.SameAt(k, before)
    ensures after.Blank(k)
  {
  }

  lemma EndedStays(ctx: Context, a: Assertion, judge: Judge, k: nat, before: Maps, after: Maps)
    requires Ended(ctx, a, judge, k, before) && after.SameAt(k, before)
    ensures Ended(ctx, a, judge, k, after)
  {
    var c: Composed :| Reports(ctx, a.opts, c) && before.Holds(k, c, OutcomeOf(ctx, judge, k, a, c));
    assert after.Holds(k, c, OutcomeOf(ctx, judge, k, a, c));
  }

  // ---------------------------------------------------------------------------------------------
  // What an assert's ending says, whatever the judge does.

  function Price(r: Reply): real { if r.cost.Some? then r.cost.value else 0.0 }

  /** What these calls cost together. */
  function Prices(calls: seq<Reply>): real {
    if calls == [] then 0.0 else Price(calls[0]) + Prices(calls[1..])
  }

  predicate AnyPriced(calls: seq<Reply>) { exists r :: r in calls && r.cost.Some? }

  /** Exactly one of refused, graded and invalid. Refused: no call, no cost, no judged document. */
  lemma ExactlyOneEnding(ctx: Context, a: Assertion, judge: Judge, i: nat, maps: Maps)
    requires Ended(ctx, a, judge, i, maps)
    ensures i in maps.docInfo && Reports(ctx, a.opts, maps.docInfo[i])
    ensures i in maps.semanticRefused <==> SemanticRefusal(a, ctx, Some(maps.docInfo[i])).Some?
    ensures i in maps.semanticRefused <==> i !in maps.semanticResults && i !in maps.judgeInvalid
    ensures !(i in maps.semanticResults && i in maps.judgeInvalid)
    ensures i in maps.semanticRefused ==> i !in maps.judgeAttempts && i !in maps.judgeCosts && i !in maps.judgedDocs
    ensures i !in maps.semanticRefused ==>
              maps.Holds(i, maps.docInfo[i], GradeOf(ctx, judge, i, a, maps.docInfo[i].doc))
  {
    var c: Composed :| Reports(ctx, a.opts, c) && maps.Holds(i, c, OutcomeOf(ctx, judge, i, a, c));
  }

  /** The replies an ending took: one, or two when the first failed in a way worth retrying; the cost is the sum of the
      priced ones; a grade is the last reply's, and an invalid ending has no graded reply at all. */
  predicate TookReplies(o: Outcome, replies: seq<Reply>) {
    && !o.Refused? && o.calls == |replies| && 1 <= |replies| <= 2 && (|replies| == 2 ==> Retried(replies[0]))
    && o.cost == (if AnyPriced(replies) then Some(Prices(replies)) else None)
    && (o.Graded? ==> replies[|replies| - 1].answer == Grade(o.claims))
    && (o.Invalid? ==> !replies[|replies| - 1].answer.Grade? && (|replies| == 2 || !Retried(replies[0])))
  }

  lemma RepliesOfEnd(r0: Reply, r1: Reply)
    ensures TookReplies(EndOf(r0, r1), if EndOf(r0, r1).calls == 1 then [r0] else [r0, r1])
  {
    assert [r0][1..] == [] && [r0, r1][1..] == [r1] && [r1][1..] == [];
    assert Prices([r0]) == Price(r0) && Prices([r0, r1]) == Price(r0) + Price(r1);
    assert r0 in [r0] && r0 in [r0, r1] && r1 in [r0, r1];
  }

  /** The replies of the first n calls. */
  function Replies(ctx: Context, judge: Judge, i: nat, a: Assertion, doc: string, n: nat): seq<Reply> {
    seq(n, k requires 0 <= k => ReplyTo(judge, ctx, a, i, k, doc))
  }

  /** What is recorded for an assert that is not refused is what its replies came to, over the document sent. */
  lemma WhatWasSpent(ctx: Context, a: Assertion, judge: Judge, i: nat, maps: Maps)
    requires Ended(ctx, a, judge, i, maps)
    ensures i in maps.docInfo
    ensures i !in maps.semanticRefused ==>
              && i in maps.judgeAttempts
              && maps.Holds(i, maps.docInfo[i], GradeOf(ctx, judge, i, a, maps.docInfo[i].doc))
              && TookReplies(GradeOf(ctx, judge, i, a, maps.docInfo[i].doc),
                             Replies(ctx, judge, i, a, maps.docInfo[i].doc, maps.judgeAttempts[i]))
  {
    ExactlyOneEnding(ctx, a, judge, i, maps);
    GradeTookReplies(ctx, a, judge, i, maps.docInfo[i].doc);
  }

  lemma GradeTookReplies(ctx: Context, a: Assertion, judge: Judge, i: nat, doc: string)
    ensures !GradeOf(ctx, judge, i, a, doc).Refused?
    ensures TookReplies(GradeOf(ctx, judge, i, a, doc),
                        Replies(ctx, judge, i, a, doc, GradeOf(ctx, judge, i, a, doc).calls))
  {
    var r0, r1 := ReplyTo(judge, ctx, a, i, 0, doc), ReplyTo(judge, ctx, a, i, 1, doc);
    RepliesOfEnd(r0, r1);
    var n := EndOf(r0, r1).calls;
    assert Replies(ctx, judge, i, a, doc, n) == if n == 1 then [r0] else [r0, r1];
  }

  // ---------------------------------------------------------------------------------------------
  // The check.

  datatype Verdict = Pass | FailInvalid | FailRefused(refusal: Refusal) | FailNotRun | FailGrade

  function PassedClaims(claims: seq<Claim>): nat {
    if claims == [] then 0
    else PassedClaims(claims[..|claims| - 1]) + (if claims[|claims| - 1].pass then 1 else 0)
  }

  function Need(a: Assertion): int { if a.minPass.All? then |a.rubric| else a.minPass.n }

  function Check(ctx: Context, a: Assertion, i: nat, maps: Maps): Verdict {
    var docInfo := if i in maps.docInfo then Some(maps.docInfo[i]) else None;
    var refusal :=
      if i in maps.semanticRefused then Some(maps.semanticRefused[i])
      else if i in maps.semanticResults then SemanticRefusal(a, ctx, docInfo)
      else ForkRecordRefusal(a, ctx);
    if i in maps.judgeInvalid then FailInvalid
    else if refusal.Some? then FailRefused(refusal.value)
    else if i !in maps.semanticResults then FailNotRun
    else if PassedClaims(maps.semanticResults[i]) >= Need(a) then Pass
    else FailGrade
  }

  /** The passing claims of a reply, by position. */
  function Passing(claims: seq<Claim>): set<nat> { set k: nat | k < |claims| && claims[k].pass }

  lemma {:induction false} PassedIsCount(claims: seq<Claim>)
    ensures PassedClaims(claims) == |Passing(claims)|
    ensures PassedClaims(claims) <= |claims|
    ensures PassedClaims(claims) == |claims| <==> forall k :: 0 <= k < |claims| ==> claims[k].pass
  {
    if claims != [] {
      var n := |claims| - 1;
      PassedIsCount(claims[..n]);
      assert Passing(claims) == if claims[n].pass then Passing(claims[..n]) + {n} else Passing(claims[..n]);
    }
  }

  /** Enough claims passed: all the rubric's lines when nothing else is asked for, otherwise the number asked for. */
  predicate Enough(a: Assertion, claims: seq<Claim>) {
    match a.minPass
    case All => |Passing(claims)| >= |a.rubric|
    case AtLeast(n) => |Passing(claims)| >= n
  }

  lemma EnoughIsNeed(a: Assertion, claims: seq<Claim>)
    ensures Enough(a, claims) <==> PassedClaims(claims) >= Need(a)
  {
    PassedIsCount(claims);
  }

  /** The pre-pass and the check agree about every assert: each ending has its verdict, and only a grade with enough
      claims is green. */
  lemma CheckAgrees(ctx: Context, a: Assertion, judge: Judge, i: nat, maps: Maps)
    requires Ended(ctx, a, judge, i, maps)
    ensures Check(ctx, a, i, maps) == Pass <==> i in maps.semanticResults && Enough(a, maps.semanticResults[i])
    ensures Check(ctx, a, i, maps) == FailGrade <==> i in maps.semanticResults && !Enough(a, maps.semanticResults[i])
    ensures Check(ctx, a, i, maps) == FailInvalid <==> i in maps.judgeInvalid
    ensures Check(ctx, a, i, maps).FailRefused? <==> i in maps.semanticRefused
    ensures i in maps.semanticRefused ==> Check(ctx, a, i, maps) == FailRefused(maps.semanticRefused[i])
  {
    ExactlyOneEnding(ctx, a, judge, i, maps);
    if i in maps.semanticResults { EnoughIsNeed(a, maps.semanticResults[i]); }
  }

  /** Where the pre-pass recorded nothing the check is never green: the record of the Skill answers refuses, or the
      judge was not run. */
  lemma NothingRecordedIsRed(ctx: Context, a: Assertion, i: nat, maps: Maps)
    requires maps.Blank(i)
    ensures Check(ctx, a, i, maps) ==
            if ForkRecordRefusal(a, ctx).Some? then FailRefused(ForkRecordRefusal(a, ctx).value) else FailNotRun
    ensures Check(ctx, a, i, maps) == FailNotRun <==> (a.opts.forkResults ==> AnswersRecorded(ctx))
  {
    ForkRecordRefusalIsExact(a, ctx);
  }

  /** With `min_pass: all` and a claim per rubric line, every claim of the reply has to pass. */
  lemma AllMeansEvery(a: Assertion, claims: seq<Claim>)
    requires a.minPass.All? && |claims| == |a.rubric|
    ensures Enough(a, claims) <==> forall k :: 0 <= k < |claims| ==> claims[k].pass
  {
    PassedIsCount(claims);
  }

  /** No more claims are asked for than the rubric has. */
  predicate Meetable(a: Assertion) { a.minPass.All? || a.minPass.n <= |a.rubric| }

  /** A GREEN IS GROUNDED. After any run of the pre-pass, a passing assert was graded by its judge over a document that
      holds every in-scope authored file whole and, if asked for, every top-level Skill answer whole; and the judge's
      reply passed at least the claims the assert asks for, which is at most its rubric. */
  lemma GreenIsGrounded(ctx: Context, assertions: seq<Assertion>, judge: Judge, i: nat, maps: Maps)
    requires i < |assertions| && Progress(ctx, assertions, judge, |assertions|, maps)
    ensures i in maps.docInfo
    ensures Check(ctx, assertions[i], i, maps) == Pass ==> i in maps.judgeAttempts && 1 <= maps.judgeAttempts[i] <= 2
    ensures Check(ctx, assertions[i], i, maps) == Pass ==>
            var a, doc := assertions[i], maps.docInfo[i].doc;
            var reply := ReplyTo(judge, ctx, a, i, maps.judgeAttempts[i] - 1, doc);
            && reply.answer.Grade? && Meetable(a) && Enough(a, reply.answer.claims)
            && (a.minPass.All? && |reply.answer.claims| == |a.rubric| ==>
                  forall k :: 0 <= k < |a.rubric| ==> reply.answer.claims[k].pass)
            && (forall f :: f in ctx.authored && InScope(ctx, a.opts.evidenceFiles, f.path) ==>
                  !f.truncated && Shown(doc, ctx.scrub(f.content)))
            && (forall p :: p in Omitted(ctx) || p in Unreadable(ctx) ==> !InScope(ctx, a.opts.evidenceFiles, p))
            && (a.opts.forkResults ==>
                  && AnswersRecorded(ctx)
                  && forall call :: call in ctx.toolCalls.value && TopLevelSkill(call) ==>
                       Shown(doc, ctx.scrub(ResultText(ResultOf(call, ctx.toolResults.value).value))))
  {
    var a := assertions[i];
    CheckAgrees(ctx, a, judge, i, maps);
    ExactlyOneEnding(ctx, a, judge, i, maps);
    if Check(ctx, a, i, maps) == Pass {
      GradedAndGrounded(ctx, a, judge, i, maps);
      EvidenceSoundness(a, ctx, maps.docInfo[i]);
      RefusalIsExact(a, ctx, maps.docInfo[i]);
      if a.minPass.All? && |maps.semanticResults[i]| == |a.rubric| { AllMeansEvery(a, maps.semanticResults[i]); }
    }
  }

  lemma GradedAndGrounded(ctx: Context, a: Assertion, judge: Judge, i: nat, maps: Maps)
    requires Ended(ctx, a, judge, i, maps) && i in maps.semanticResults
    ensures i in maps.judgeAttempts && 1 <= maps.judgeAttempts[i] <= 2
    ensures ReplyTo(judge, ctx, a, i, maps.judgeAttempts[i] - 1, maps.docInfo[i].doc).answer ==
              Grade(maps.semanticResults[i])
  {
    ExactlyOneEnding(ctx, a, judge, i, maps);
  }
}
