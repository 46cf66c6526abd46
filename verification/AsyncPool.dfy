/** The bounded async pool `pMapBounded` (src/async-pool.ts). One step is the code a worker runs between two awaits. */
module AsyncPool {
  import opened Options

  datatype Outcome<+R, +E> = Value(v: R) | Throw(e: E)

  datatype Worker = Fresh | Awaiting(item: nat) | Returned

  /** What an observer of the pool sees, in order. */
  datatype Event<+R, +E> =
    | Started(item: nat)
    | Resolved(item: nat, v: R)
    | Rejected(item: nat, e: E)
    | OnStop(inFlight: int)

  datatype State<R, E> = State(
    next: nat, running: int, stopped: bool, firstError: Option<E>,
    results: map<nat, R>, workers: seq<Worker>, log: seq<Event<R, E>>)

  /** `concurrency` clamped to [1, n]. */
  function Limit(n: nat, concurrency: int): (limit: nat)
    requires n > 0
    ensures 1 <= limit <= n
    ensures 1 <= concurrency <= n ==> limit == concurrency
    ensures concurrency < 1 ==> limit == 1
    ensures concurrency > n ==> limit == n
  {
    var m := if concurrency < n then concurrency else n;
    if m < 1 then 1 else m
  }

  function Init<R, E>(n: nat, concurrency: int): State<R, E>
    requires n > 0
  {
    State(0, 0, false, None, map[], seq(Limit(n, concurrency), _ => Fresh), [])
  }

  /** The head of a worker's loop: leave, or take the next index and call `fn` on it. */
  function TakeNext<R, E>(s: State<R, E>, n: nat, w: nat): State<R, E>
    requires w < |s.workers|
  {
    if s.stopped then s.(workers := s.workers[w := Returned])
    else if s.next >= n then s.(next := s.next + 1, workers := s.workers[w := Returned])
    else s.(next := s.next + 1, running := s.running + 1,
            workers := s.workers[w := Awaiting(s.next)], log := s.log + [Started(s.next)])
  }

  /** The awaited call of worker w settles. */
  function Settle<R, E>(s: State<R, E>, n: nat, w: nat, o: Outcome<R, E>): State<R, E>
    requires w < |s.workers| && s.workers[w].Awaiting?
  {
    var i := s.workers[w].item;
    match o
    case Value(v) =>
      TakeNext(s.(results := s.results[i := v], running := s.running - 1, log := s.log + [Resolved(i, v)]), n, w)
    case Throw(e) =>
      var t := s.(running := s.running - 1, workers := s.workers[w := Returned]);
      if s.stopped then t.(log := s.log + [Rejected(i, e)])
      else t.(stopped := true, firstError := Some(e), log := s.log + [Rejected(i, e), OnStop(s.running - 1)])
  }

  predicate Enabled<R, E>(s: State<R, E>, w: nat) {
    w < |s.workers| && !s.workers[w].Returned?
  }

  /** One scheduling choice; choosing a worker that has returned changes nothing. */
  function Step<R, E>(s: State<R, E>, n: nat, fn: nat -> Outcome<R, E>, w: nat): State<R, E> {
    if !Enabled(s, w) then s
    else if s.workers[w].Fresh? then TakeNext(s, n, w)
    else Settle(s, n, w, fn(s.workers[w].item))
  }

  /** The state after a schedule, a sequence of worker numbers: an interleaving. `fn(i)` is what item i comes to. */
  function Run<R, E>(n: nat, concurrency: int, fn: nat -> Outcome<R, E>, schedule: seq<nat>): State<R, E>
    requires n > 0
  {
    if schedule == [] then Init(n, concurrency)
    else Step(Run(n, concurrency, fn, schedule[..|schedule| - 1]), n, fn, schedule[|schedule| - 1])
  }

  // ---------------------------------------------------------------------------------------------
  // What the log says.

  function Starts<R, E>(log: seq<Event<R, E>>): seq<nat> {
    if log == [] then []
    else
      var last := log[|log| - 1];
      Starts(log[..|log| - 1]) + if last.Started? then [last.item] else []
  }

  /** Items started and not yet settled. */
  function InFlight<R, E>(log: seq<Event<R, E>>): int {
    if log == [] then 0
    else
      var last := log[|log| - 1];
      InFlight(log[..|log| - 1]) + if last.Started? then 1 else if last.OnStop? then 0 else -1
  }

  /** At no moment of the log are more than `limit` items in flight. */
  predicate Bounded<R, E>(log: seq<Event<R, E>>, limit: nat) {
    InFlight(log) <= limit && (log != [] ==> Bounded(log[..|log| - 1], limit))
  }

  lemma {:induction false} BoundedEverywhere<R, E>(log: seq<Event<R, E>>, limit: nat, k: nat)
    requires Bounded(log, limit) && k <= |log|
    ensures InFlight(log[..k]) <= limit
  {
    if k == |log| {
      assert log[..k] == log;
    } else {
      BoundedEverywhere(log[..|log| - 1], limit, k);
      assert log[..|log| - 1][..k] == log[..k];
    }
  }

  ghost predicate Settled<R, E>(log: seq<Event<R, E>>, i: nat) {
    exists k :: 0 <= k < |log| && (log[k].Resolved? || log[k].Rejected?) && log[k].item == i
  }

  /** Position of the first throw. */
  function FirstThrow<R, E>(log: seq<Event<R, E>>): (r: Option<nat>)
    ensures r.Some? ==> r.value < |log| && log[r.value].Rejected? && forall j :: 0 <= j < r.value ==> !log[j].Rejected?
    ensures r.None? ==> forall j :: 0 <= j < |log| ==> !log[j].Rejected?
  {
    if log == [] then None
    else
      var before := FirstThrow(log[..|log| - 1]);
      if before.Some? then before
      else if log[|log| - 1].Rejected? then Some(|log| - 1)
      else None
  }

  /** After the first throw nothing starts; `onStop` is called right there, once, with the number of other items in
      flight; without a throw it is never called. */
  ghost predicate StopsAtFirstThrow<R, E>(log: seq<Event<R, E>>) {
    match FirstThrow(log)
    case None => forall j :: 0 <= j < |log| ==> !log[j].OnStop?
    case Some(k) =>
      && k + 1 < |log|
      && log[k + 1] == OnStop(InFlight(log[..k + 1]))
      && (forall j :: k < j < |log| ==> !log[j].Started?)
      && (forall j :: 0 <= j < |log| && j != k + 1 ==> !log[j].OnStop?)
  }

  lemma AppendEvent<R, E>(log: seq<Event<R, E>>, e: Event<R, E>)
    ensures Starts(log + [e]) == Starts(log) + if e.Started? then [e.item] else []
    ensures InFlight(log + [e]) == InFlight(log) + if e.Started? then 1 else if e.OnStop? then 0 else -1
    ensures FirstThrow(log + [e]) ==
            if FirstThrow(log).Some? then FirstThrow(log) else if e.Rejected? then Some(|log|) else None
    ensures forall i :: Settled(log + [e], i) <==> Settled(log, i) || ((e.Resolved? || e.Rejected?) && e.item == i)
    ensures forall k :: 0 <= k <= |log| ==> (log + [e])[..k] == log[..k]
  {
    assert (log + [e])[..|log|] == log;
    forall i | Settled(log, i) ensures Settled(log + [e], i) {
      var k :| 0 <= k < |log| && (log[k].Resolved? || log[k].Rejected?) && log[k].item == i;
      assert (log + [e])[k] == log[k];
    }
    forall i | (e.Resolved? || e.Rejected?) && e.item == i ensures Settled(log + [e], i) {
      assert (log + [e])[|log|] == e;
    }
  }

  // ---------------------------------------------------------------------------------------------
  // The invariant of every interleaving.

  function CountAwaiting(workers: seq<Worker>): nat {
    if workers == [] then 0 else (if workers[0].Awaiting? then 1 else 0) + CountAwaiting(workers[1..])
  }

  function CountActive(workers: seq<Worker>): nat {
    if workers == [] then 0 else (if workers[0].Returned? then 0 else 1) + CountActive(workers[1..])
  }

  lemma {:induction false} CountsAfterUpdate(workers: seq<Worker>, w: nat, x: Worker)
    requires w < |workers|
    ensures CountAwaiting(workers[w := x]) ==
            CountAwaiting(workers) - (if workers[w].Awaiting? then 1 else 0) + (if x.Awaiting? then 1 else 0)
    ensures CountActive(workers[w := x]) ==
            CountActive(workers) - (if workers[w].Returned? then 0 else 1) + (if x.Returned? then 0 else 1)
  {
    if w == 0 {
      assert workers[0 := x][1..] == workers[1..];
    } else {
      assert workers[w := x][1..] == workers[1..][w - 1 := x];
      CountsAfterUpdate(workers[1..], w - 1, x);
    }
  }

  lemma {:induction false} CountBounds(workers: seq<Worker>)
    ensures CountAwaiting(workers) <= CountActive(workers) <= |workers|
    ensures CountActive(workers) == 0 <==> forall w :: 0 <= w < |workers| ==> workers[w].Returned?
  {
    if workers != [] {
      CountBounds(workers[1..]);
      assert forall w :: 0 < w < |workers| ==> workers[w] == workers[1..][w - 1];
    }
  }

  function Upto(n: nat): seq<nat> { seq(n, i => i) }

  function TakenCount(next: nat, n: nat): nat { if next < n then next else n }

  ghost predicate Awaited(workers: seq<Worker>, i: nat) {
    exists w :: 0 <= w < |workers| && workers[w] == Awaiting(i)
  }

  /** Control: what the counters and the worker positions say; `leave` is the condition under which a worker returns. */
  ghost predicate ControlInv(workers: seq<Worker>, taken: nat, running: int, leave: bool, limit: nat) {
    && |workers| == limit
    && running == CountAwaiting(workers)
    && (forall w :: 0 <= w < limit && workers[w].Awaiting? ==> workers[w].item < taken)
    && (forall u, w :: 0 <= u < w < limit && workers[u].Awaiting? && workers[w].Awaiting? ==>
          workers[u].item != workers[w].item)
    && (forall w :: 0 <= w < limit && workers[w].Returned? ==> leave)
  }

  /** History: what the log says about the counters. */
  ghost predicate LogInv<R, E>(log: seq<Event<R, E>>, taken: nat, running: int, firstError: Option<E>, limit: nat,
                               fn: nat -> Outcome<R, E>) {
    && Starts(log) == Upto(taken)
    && InFlight(log) == running
    && Bounded(log, limit)
    && StopsAtFirstThrow(log)
    && (match FirstThrow(log) case None => firstError == None case Some(k) => firstError == Some(log[k].e))
    && (forall k :: 0 <= k < |log| && log[k].Rejected? ==> fn(log[k].item) == Throw(log[k].e))
  }

  /** Results: every started item is awaited by a worker or settled, never both. */
  ghost predicate ResultInv<R, E>(log: seq<Event<R, E>>, taken: nat, workers: seq<Worker>, results: map<nat, R>,
                                  fn: nat -> Outcome<R, E>) {
    && (forall i: nat :: i < taken ==> (Awaited(workers, i) <==> !Settled(log, i)))
    && (forall i: nat :: Settled(log, i) ==> i < taken)
    && (forall i: nat :: i in results <==> Settled(log, i) && fn(i).Value?)
    && (forall i: nat :: i in results ==> fn(i) == Value(results[i]))
  }

  ghost predicate Inv<R, E>(s: State<R, E>, n: nat, limit: nat, fn: nat -> Outcome<R, E>) {
    && ControlInv(s.workers, TakenCount(s.next, n), s.running, s.stopped || s.next >= n, limit)
    && (s.stopped <==> s.firstError.Some?)
    && LogInv(s.log, TakenCount(s.next, n), s.running, s.firstError, limit, fn)
    && ResultInv(s.log, TakenCount(s.next, n), s.workers, s.results, fn)
  }

  lemma LogStart<R, E>(log: seq<Event<R, E>>, taken: nat, running: int, limit: nat, fn: nat -> Outcome<R, E>)
    requires LogInv(log, taken, running, None, limit, fn) && running < limit
    ensures LogInv(log + [Started(taken)], taken + 1, running + 1, None, limit, fn)
  {
    var log' := log + [Started(taken)];
    AppendEvent(log, Started(taken));
    assert log'[..|log|] == log;
    assert Upto(taken + 1) == Upto(taken) + [taken];
  }

  lemma LogSettle<R, E>(log: seq<Event<R, E>>, e: Event<R, E>, taken: nat, running: int, err: Option<E>, limit: nat,
                        fn: nat -> Outcome<R, E>)
    requires LogInv(log, taken, running, err, limit, fn)
    requires e.Resolved? || (e.Rejected? && err.Some? && fn(e.item) == Throw(e.e))
    ensures LogInv(log + [e], taken, running - 1, err, limit, fn)
  {
    var log' := log + [e];
    AppendEvent(log, e);
    assert log'[..|log|] == log;
  }

  lemma LogFirstThrow<R, E>(log: seq<Event<R, E>>, i: nat, e: E, taken: nat, running: int, limit: nat,
                            fn: nat -> Outcome<R, E>)
    requires LogInv(log, taken, running, None, limit, fn) && fn(i) == Throw(e)
    ensures LogInv(log + [Rejected(i, e), OnStop(running - 1)], taken, running - 1, Some(e), limit, fn)
  {
    var mid := log + [Rejected(i, e)];
    var end := mid + [OnStop(running - 1)];
    assert log + [Rejected(i, e), OnStop(running - 1)] == end;
    AppendEvent(log, Rejected(i, e));
    AppendEvent(mid, OnStop(running - 1));
    assert Bounded(mid, limit) && Bounded(end, limit) by { assert end[..|mid|] == mid && mid[..|log|] == log; }
    StopRuleAfterThrow(log, i, e, running - 1);
    assert forall k :: 0 <= k < |end| && end[k].Rejected? ==> k == |log| || end[k] == log[k];
  }

  lemma StopRuleAfterThrow<R, E>(log: seq<Event<R, E>>, i: nat, e: E, others: int)
    requires FirstThrow(log).None? && StopsAtFirstThrow(log) && InFlight(log) == others + 1
    ensures StopsAtFirstThrow(log + [Rejected(i, e)] + [OnStop(others)])
  {
    var mid := log + [Rejected(i, e)];
    AppendEvent(log, Rejected(i, e));
    AppendEvent(mid, OnStop(others));
    assert (mid + [OnStop(others)])[..|mid|] == mid;
  }

  /** Worker w is between items: it holds none, and running already excludes it. */
  ghost predicate AtHead<R, E>(s: State<R, E>, n: nat, limit: nat, fn: nat -> Outcome<R, E>, w: nat) {
    && w < |s.workers| && Inv(s.(workers := s.workers[w := Fresh]), n, limit, fn)
  }

  lemma ControlTake(workers: seq<Worker>, w: nat, taken: nat, running: int, limit: nat)
    requires ControlInv(workers, taken, running, false, limit) && w < limit && workers[w].Fresh?
    ensures running < limit
    ensures ControlInv(workers[w := Awaiting(taken)], taken + 1, running + 1, false, limit)
    ensures ControlInv(workers[w := Awaiting(taken)], taken + 1, running + 1, true, limit)
  {
    CountsAfterUpdate(workers, w, Awaiting(taken));
    CountBounds(workers[w := Awaiting(taken)]);
  }

  lemma ControlLeave(workers: seq<Worker>, w: nat, taken: nat, running: int, leave: bool, limit: nat)
    requires ControlInv(workers, taken, running, leave, limit) && w < limit && workers[w].Fresh?
    ensures ControlInv(workers[w := Returned], taken, running, true, limit)
  {
    CountsAfterUpdate(workers, w, Returned);
  }

  lemma ResultTake<R, E>(log: seq<Event<R, E>>, taken: nat, workers: seq<Worker>, w: nat, results: map<nat, R>,
                         fn: nat -> Outcome<R, E>)
    requires ResultInv(log, taken, workers, results, fn) && w < |workers| && workers[w].Fresh?
    ensures ResultInv(log + [Started(taken)], taken + 1, workers[w := Awaiting(taken)], results, fn)
  {
    var log', workers' := log + [Started(taken)], workers[w := Awaiting(taken)];
    AppendEvent(log, Started(taken));
    forall i: nat
      ensures Awaited(workers', i) <==> Awaited(workers, i) || i == taken
      ensures Settled(log', i) <==> Settled(log, i)
    {
      AwaitedAfterUpdate(workers, w, Awaiting(taken), i);
    }
    assert !Settled(log', taken);
  }

  lemma ResultLeave<R, E>(log: seq<Event<R, E>>, taken: nat, workers: seq<Worker>, w: nat, results: map<nat, R>,
                          fn: nat -> Outcome<R, E>)
    requires ResultInv(log, taken, workers, results, fn) && w < |workers| && workers[w].Fresh?
    ensures ResultInv(log, taken, workers[w := Returned], results, fn)
  {
    forall i: nat ensures Awaited(workers[w := Returned], i) <==> Awaited(workers, i) {
      AwaitedAfterUpdate(workers, w, Returned, i);
    }
  }

  lemma TakeNextKeepsInv<R, E>(s: State<R, E>, n: nat, limit: nat, fn: nat -> Outcome<R, E>, w: nat)
    requires AtHead(s, n, limit, fn, w)
    ensures Inv(TakeNext(s, n, w), n, limit, fn)
  {
    if !s.stopped && s.next < n { TakesItem(s, n, limit, fn, w); } else { Leaves(s, n, limit, fn, w); }
  }

  lemma TakesItem<R, E>(s: State<R, E>, n: nat, limit: nat, fn: nat -> Outcome<R, E>, w: nat)
    requires AtHead(s, n, limit, fn, w) && !s.stopped && s.next < n
    ensures Inv(TakeNext(s, n, w), n, limit, fn)
  {
    var ws := s.workers[w := Fresh];
    ControlTake(ws, w, s.next, s.running, limit);
    LogStart(s.log, s.next, s.running, limit, fn);
    ResultTake(s.log, s.next, ws, w, s.results, fn);
    assert s.workers[w := Awaiting(s.next)] == ws[w := Awaiting(s.next)];
  }

  lemma Leaves<R, E>(s: State<R, E>, n: nat, limit: nat, fn: nat -> Outcome<R, E>, w: nat)
    requires AtHead(s, n, limit, fn, w) && (s.stopped || s.next >= n)
    ensures Inv(TakeNext(s, n, w), n, limit, fn)
  {
    var ws := s.workers[w := Fresh];
    var taken := TakenCount(s.next, n);
    ControlLeave(ws, w, taken, s.running, true, limit);
    ResultLeave(s.log, taken, ws, w, s.results, fn);
    assert s.workers[w := Returned] == ws[w := Returned];
  }

  lemma AwaitedAfterUpdate(workers: seq<Worker>, w: nat, x: Worker, i: nat)
    requires w < |workers| && !workers[w].Awaiting?
    ensures Awaited(workers[w := x], i) <==> Awaited(workers, i) || x == Awaiting(i)
  {
    if Awaited(workers, i) {
      var u :| 0 <= u < |workers| && workers[u] == Awaiting(i);
      assert workers[w := x][u] == Awaiting(i);
    }
    if x == Awaiting(i) { assert workers[w := x][w] == x; }
  }

  lemma ReleaseItem(workers: seq<Worker>, w: nat, x: Worker, i: nat)
    requires w < |workers| && workers[w] == Awaiting(i) && !x.Awaiting?
    requires forall u :: 0 <= u < |workers| && u != w && workers[u].Awaiting? ==> workers[u].item != i
    ensures forall j: nat :: Awaited(workers[w := x], j) <==> Awaited(workers, j) && j != i
  {
    forall j: nat | Awaited(workers, j) && j != i ensures Awaited(workers[w := x], j) {
      var u :| 0 <= u < |workers| && workers[u] == Awaiting(j);
      assert workers[w := x][u] == Awaiting(j);
    }
    forall j: nat | Awaited(workers[w := x], j) ensures Awaited(workers, j) && j != i {
      var u :| 0 <= u < |workers| && workers[w := x][u] == Awaiting(j);
      assert u != w && workers[u] == Awaiting(j);
    }
  }

  /** Item i leaves worker w and settles with event e. */
  lemma ControlRelease(workers: seq<Worker>, w: nat, x: Worker, taken: nat, running: int, leave: bool, limit: nat)
    requires ControlInv(workers, taken, running, leave, limit) && w < limit && workers[w].Awaiting? && !x.Awaiting?
    ensures x.Fresh? ==> ControlInv(workers[w := x], taken, running - 1, leave, limit)
    ensures ControlInv(workers[w := x], taken, running - 1, true, limit)
  {
    CountsAfterUpdate(workers, w, x);
  }

  lemma ResultRelease<R, E>(log: seq<Event<R, E>>, e: Event<R, E>, taken: nat, workers: seq<Worker>, w: nat, x: Worker,
                            results: map<nat, R>, fn: nat -> Outcome<R, E>)
    requires ResultInv(log, taken, workers, results, fn)
    requires w < |workers| && workers[w].Awaiting? && !x.Awaiting? && workers[w].item < taken
    requires forall u :: 0 <= u < |workers| && u != w && workers[u].Awaiting? ==> workers[u].item != workers[w].item
    requires (e.Resolved? || e.Rejected?) && e.item == workers[w].item
    ensures e.Resolved? && fn(e.item) == Value(e.v) ==>
              ResultInv(log + [e], taken, workers[w := x], results[e.item := e.v], fn)
    ensures e.Rejected? && fn(e.item) == Throw(e.e) ==> ResultInv(log + [e], taken, workers[w := x], results, fn)
  {
    AppendEvent(log, e);
    ReleaseItem(workers, w, x, e.item);
    assert Awaited(workers, e.item);
  }

  lemma ResolveReachesHead<R, E>(s: State<R, E>, n: nat, limit: nat, fn: nat -> Outcome<R, E>, w: nat, v: R)
    requires Inv(s, n, limit, fn) && w < |s.workers| && s.workers[w].Awaiting?
    requires fn(s.workers[w].item) == Value(v)
    ensures var i := s.workers[w].item;
            AtHead(s.(results := s.results[i := v], running := s.running - 1, log := s.log + [Resolved(i, v)]),
                   n, limit, fn, w)
  {
    var e := Resolved(s.workers[w].item, v);
    var taken := TakenCount(s.next, n);
    ControlRelease(s.workers, w, Fresh, taken, s.running, s.stopped || s.next >= n, limit);
    ResultRelease(s.log, e, taken, s.workers, w, Fresh, s.results, fn);
    LogSettle(s.log, e, taken, s.running, s.firstError, limit, fn);
  }

  lemma ThrowKeepsInv<R, E>(s: State<R, E>, n: nat, limit: nat, fn: nat -> Outcome<R, E>, w: nat, e: E)
    requires Inv(s, n, limit, fn) && w < |s.workers| && s.workers[w].Awaiting?
    requires fn(s.workers[w].item) == Throw(e)
    ensures Inv(Settle(s, n, w, Throw(e)), n, limit, fn)
  {
    var i := s.workers[w].item;
    var taken := TakenCount(s.next, n);
    ControlRelease(s.workers, w, Returned, taken, s.running, s.stopped || s.next >= n, limit);
    ResultRelease(s.log, Rejected(i, e), taken, s.workers, w, Returned, s.results, fn);
    if s.stopped {
      LogSettle(s.log, Rejected(i, e), taken, s.running, s.firstError, limit, fn);
    } else {
      LogFirstThrow(s.log, i, e, taken, s.running, limit, fn);
      ResultAfterOnStop(s.log, Rejected(i, e), s.running - 1, taken, s.workers[w := Returned], s.results, fn);
    }
  }

  lemma ResultAfterOnStop<R, E>(log: seq<Event<R, E>>, e: Event<R, E>, inFlight: int, taken: nat, workers: seq<Worker>,
                                results: map<nat, R>, fn: nat -> Outcome<R, E>)
    requires ResultInv(log + [e], taken, workers, results, fn)
    ensures ResultInv(log + [e, OnStop(inFlight)], taken, workers, results, fn)
  {
    AppendEvent(log + [e], OnStop(inFlight));
    assert log + [e, OnStop(inFlight)] == (log + [e]) + [OnStop(inFlight)];
  }

  lemma SettleKeepsInv<R, E>(s: State<R, E>, n: nat, limit: nat, fn: nat -> Outcome<R, E>, w: nat)
    requires Inv(s, n, limit, fn) && w < |s.workers| && s.workers[w].Awaiting?
    ensures Inv(Settle(s, n, w, fn(s.workers[w].item)), n, limit, fn)
  {
    var i := s.workers[w].item;
    match fn(i)
    case Value(v) =>
      ResolveReachesHead(s, n, limit, fn, w, v);
      TakeNextKeepsInv(s.(results := s.results[i := v], running := s.running - 1, log := s.log + [Resolved(i, v)]),
                       n, limit, fn, w);
    case Throw(e) =>
      ThrowKeepsInv(s, n, limit, fn, w, e);
  }

  lemma StepKeepsInv<R, E>(s: State<R, E>, n: nat, limit: nat, fn: nat -> Outcome<R, E>, w: nat)
    requires Inv(s, n, limit, fn)
    ensures Inv(Step(s, n, fn, w), n, limit, fn)
  {
    if Enabled(s, w) {
      if s.workers[w].Fresh? {
        assert s.workers[w := Fresh] == s.workers;
        TakeNextKeepsInv(s, n, limit, fn, w);
      } else {
        SettleKeepsInv(s, n, limit, fn, w);
      }
    }
  }

  lemma InitInv<R, E>(n: nat, concurrency: int, fn: nat -> Outcome<R, E>)
    requires n > 0
    ensures Inv(Init<R, E>(n, concurrency), n, Limit(n, concurrency), fn)
  {
    NoneAwaiting(seq(Limit(n, concurrency), _ => Fresh));
  }

  lemma {:induction false} NoneAwaiting(workers: seq<Worker>)
    requires forall w :: 0 <= w < |workers| ==> workers[w].Fresh?
    ensures CountAwaiting(workers) == 0 && CountActive(workers) == |workers|
  {
    if workers != [] { NoneAwaiting(workers[1..]); }
  }

  lemma {:induction false} RunKeepsInv<R, E>(n: nat, concurrency: int, fn: nat -> Outcome<R, E>, schedule: seq<nat>)
    requires n > 0
    ensures Inv(Run(n, concurrency, fn, schedule), n, Limit(n, concurrency), fn)
  {
    if schedule == [] {
      InitInv(n, concurrency, fn);
    } else {
      var before := schedule[..|schedule| - 1];
      RunKeepsInv(n, concurrency, fn, before);
      StepKeepsInv(Run(n, concurrency, fn, before), n, Limit(n, concurrency), fn, schedule[|schedule| - 1]);
    }
  }

  // ---------------------------------------------------------------------------------------------
  // Main results.

  /** Every interleaving: in-flight items equal `running` and never exceed the clamped limit, at any moment of the
      run; the started items are 0, 1, 2, ... with none repeated or skipped; and the stop rule holds. */
  lemma PoolSafety<R, E>(n: nat, concurrency: int, fn: nat -> Outcome<R, E>, schedule: seq<nat>)
    requires n > 0
    ensures var s := Run(n, concurrency, fn, schedule);
            && s.running == InFlight(s.log) == CountAwaiting(s.workers)
            && (forall k :: 0 <= k <= |s.log| ==> InFlight(s.log[..k]) <= Limit(n, concurrency))
            && (exists taken: nat :: taken <= n && Starts(s.log) == Upto(taken))
            && StopsAtFirstThrow(s.log)
  {
    RunKeepsInv(n, concurrency, fn, schedule);
    var s := Run(n, concurrency, fn, schedule);
    forall k | 0 <= k <= |s.log| ensures InFlight(s.log[..k]) <= Limit(n, concurrency) {
      BoundedEverywhere(s.log, Limit(n, concurrency), k);
    }
    assert Starts(s.log) == Upto(TakenCount(s.next, n));
  }

  predicate Finished<R, E>(s: State<R, E>) {
    forall w :: 0 <= w < |s.workers| ==> s.workers[w].Returned?
  }

  /** The promise once every worker has returned. */
  datatype Verdict<R, E> = Fulfilled(results: map<nat, R>) | Failed(e: E)

  function Answer<R, E>(s: State<R, E>): Verdict<R, E> {
    match s.firstError case Some(e) => Failed(e) case None => Fulfilled(s.results)
  }

  /** A finished run in which no item throws holds exactly `fn`'s value for every item, whatever the settling order;
      one in which an item threw fails with the earliest throw, after every started item has settled, and keeps the
      other started items' results. */
  lemma FinishedRun<R, E>(n: nat, concurrency: int, fn: nat -> Outcome<R, E>, schedule: seq<nat>)
    requires n > 0 && Finished(Run(n, concurrency, fn, schedule))
    ensures var s := Run(n, concurrency, fn, schedule);
            var started := Starts(s.log);
            && InFlight(s.log) == 0
            && (forall i: nat :: Settled(s.log, i) <==> i < |started|)
            && (forall i: nat :: i in s.results <==> i < |started| && fn(i).Value?)
            && (forall i: nat :: i in s.results ==> fn(i) == Value(s.results[i]))
            && (match FirstThrow(s.log)
                case None => |started| == n && Answer(s) == Fulfilled(s.results)
                  && (forall i: nat :: i < n ==> fn(i).Value?)
                case Some(k) => Answer(s) == Failed(s.log[k].e) && fn(s.log[k].item) == Throw(s.log[k].e))
  {
    var s := Run(n, concurrency, fn, schedule);
    RunKeepsInv(n, concurrency, fn, schedule);
    CountBounds(s.workers);
    var taken := TakenCount(s.next, n);
    assert |Starts(s.log)| == taken;
    assert s.workers[0].Returned?;
    forall i: nat | i < taken ensures Settled(s.log, i) {
      assert !Awaited(s.workers, i);
    }
    if FirstThrow(s.log).None? {
      assert taken == n;
      forall i: nat | i < n ensures fn(i).Value? {
        assert Settled(s.log, i);
        var k :| 0 <= k < |s.log| && (s.log[k].Resolved? || s.log[k].Rejected?) && s.log[k].item == i;
        assert s.log[k].Resolved?;
        ResolvedMeansValue(n, concurrency, fn, schedule, k);
      }
    }
  }

  lemma {:induction false} ResolvedMeansValue<R, E>(n: nat, concurrency: int, fn: nat -> Outcome<R, E>,
                                                    schedule: seq<nat>, k: nat)
    requires n > 0
    requires k < |Run(n, concurrency, fn, schedule).log| && Run(n, concurrency, fn, schedule).log[k].Resolved?
    ensures fn(Run(n, concurrency, fn, schedule).log[k].item).Value?
    decreases |schedule|
  {
    if schedule != [] {
      var before := schedule[..|schedule| - 1];
      if k < |Run(n, concurrency, fn, before).log| {
        ResolvedMeansValue(n, concurrency, fn, before, k);
      }
    }
  }

  /** What is left to do; every scheduling choice of a worker that has not returned uses up exactly one. */
  function Remaining<R, E>(s: State<R, E>, n: nat): nat {
    n - TakenCount(s.next, n) + CountActive(s.workers)
  }

  lemma StepUsesOne<R, E>(s: State<R, E>, n: nat, fn: nat -> Outcome<R, E>, w: nat)
    requires Enabled(s, w)
    ensures Remaining(Step(s, n, fn, w), n) == Remaining(s, n) - 1
    ensures |Step(s, n, fn, w).workers| == |s.workers|
  {
    CountsAfterUpdate(s.workers, w, Step(s, n, fn, w).workers[w]);
  }

  /** Choices of the schedule that found a worker to run. */
  function Effective<R, E>(n: nat, concurrency: int, fn: nat -> Outcome<R, E>, schedule: seq<nat>): nat
    requires n > 0
  {
    if schedule == [] then 0
    else
      var before := schedule[..|schedule| - 1];
      Effective(n, concurrency, fn, before) +
      if Enabled(Run(n, concurrency, fn, before), schedule[|schedule| - 1]) then 1 else 0
  }

  /** No run is longer than the items plus the workers, and a run that is not finished can always go on: the pool ends
      whenever each call settles. */
  lemma {:induction false} PoolTerminates<R, E>(n: nat, concurrency: int, fn: nat -> Outcome<R, E>, schedule: seq<nat>)
    requires n > 0
    ensures var s := Run(n, concurrency, fn, schedule);
            && Effective(n, concurrency, fn, schedule) + Remaining(s, n) == n + Limit(n, concurrency)
            && (!Finished(s) <==> exists w: nat :: Enabled(s, w))
  {
    var s := Run(n, concurrency, fn, schedule);
    if schedule == [] {
      NoneAwaiting(s.workers);
    } else {
      var before := schedule[..|schedule| - 1];
      var w := schedule[|schedule| - 1];
      PoolTerminates(n, concurrency, fn, before);
      if Enabled(Run(n, concurrency, fn, before), w) {
        StepUsesOne(Run(n, concurrency, fn, before), n, fn, w);
      }
    }
    if !Finished(s) {
      var w :| 0 <= w < |s.workers| && !s.workers[w].Returned?;
      assert Enabled(s, w);
    }
  }

  // ---------------------------------------------------------------------------------------------
  // The shared variables the workers update.

  class Pool<R, E> {
    const n: nat
    const fn: nat -> Outcome<R, E>
    var next: nat
    var running: int
    var stopped: bool
    var firstError: Option<E>
    var results: map<nat, R>
    var workers: seq<Worker>
    ghost var log: seq<Event<R, E>>

    ghost function View(): State<R, E>
      reads this
    {
      State(next, running, stopped, firstError, results, workers, log)
    }

    constructor (n: nat, concurrency: int, fn: nat -> Outcome<R, E>)
      requires n > 0
      ensures this.n == n && this.fn == fn && View() == Init(n, concurrency)
    {
      this.n, this.fn := n, fn;
      next, running, stopped, firstError := 0, 0, false, None;
      results := map[];
      workers := seq(Limit(n, concurrency), _ => Fresh);
      log := [];
    }

    /** `while (!stopped) { const i = next++; if (i >= items.length) return; running++; ...` */
    method Advance(w: nat)
      requires w < |workers|
      modifies this
      ensures View() == TakeNext(old(View()), n, w)
    {
      if stopped {
        workers := workers[w := Returned];
        return;
      }
      var i := next;
      next := next + 1;
      if i >= n {
        workers := workers[w := Returned];
        return;
      }
      running := running + 1;
      workers := workers[w := Awaiting(i)];
      log := log + [Started(i)];
    }

    /** The continuation of worker w once its call has settled: `try`, `catch` and `finally`. */
    method Resume(w: nat)
      requires w < |workers| && workers[w].Awaiting?
      modifies this
      ensures View() == Settle(old(View()), n, w, fn(old(workers)[w].item))
    {
      var i := workers[w].item;
      match fn(i)
      case Value(v) =>
        results := results[i := v];
        log := log + [Resolved(i, v)];
        running := running - 1;
        Advance(w);
      case Throw(e) =>
        log := log + [Rejected(i, e)];
        if !stopped {
          stopped := true;
          firstError := Some(e);
          log := log + [OnStop(running - 1)];
          assert log == old(log) + [Rejected(i, e), OnStop(running - 1)];
        }
        workers := workers[w := Returned];
        running := running - 1;
    }
  }

  predicate AnyActive(workers: seq<Worker>) { exists w :: 0 <= w < |workers| && !workers[w].Returned? }

  /** The whole call, under an arbitrary scheduler. */
  method PMapBounded<R, E>(n: nat, concurrency: int, fn: nat -> Outcome<R, E>)
    returns (answer: Verdict<R, E>, ghost log: seq<Event<R, E>>, ghost schedule: seq<nat>)
    ensures n == 0 ==> log == []
    ensures n > 0 ==> log == Run(n, concurrency, fn, schedule).log && Finished(Run(n, concurrency, fn, schedule))
    ensures answer.Failed? <==> exists k :: 0 <= k < |log| && log[k].Rejected?
    ensures forall k :: 0 <= k < |log| && log[k].Rejected? && (forall j :: 0 <= j < k ==> !log[j].Rejected?) ==>
              answer == Failed(log[k].e)
    ensures (forall i: nat :: i < n ==> fn(i).Value?) ==>
              answer.Fulfilled? && forall i: nat :: (i in answer.results <==> i < n)
                                                    && (i < n ==> fn(i) == Value(answer.results[i]))
    ensures answer.Failed? ==> exists i: nat :: i < n && fn(i) == Throw(answer.e)
    ensures answer.Fulfilled? ==> forall i: nat :: i < n ==> fn(i).Value?
  {
    if n == 0 {
      return Fulfilled(map[]), [], [];
    }
    var p := new Pool(n, concurrency, fn);
    schedule := [];
    while AnyActive(p.workers)
      invariant p.n == n && p.fn == fn
      invariant p.View() == Run(n, concurrency, fn, schedule)
      decreases Remaining(p.View(), n)
    {
      var w: nat :| 0 <= w < |p.workers| && !p.workers[w].Returned?;
      ghost var s := p.View();
      StepUsesOne(s, n, fn, w);
      if p.workers[w].Fresh? { p.Advance(w); } else { p.Resume(w); }
      assert (schedule + [w])[..|schedule|] == schedule;
      schedule := schedule + [w];
    }
    ghost var s := p.View();
    assert Finished(s);
    FinishedRun(n, concurrency, fn, schedule);
    RunKeepsInv(n, concurrency, fn, schedule);
    log := p.log;
    answer := match p.firstError case Some(e) => Failed(e) case None => Fulfilled(p.results);
    if answer.Failed? {
      var k := FirstThrow(log).value;
      assert Settled(log, log[k].item);
      assert fn(log[k].item) == Throw(answer.e);
    }
  }
}
