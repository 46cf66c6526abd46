/** The worker pool of `captureLive` (scripts/eval-gate.ts). One step is the code a worker runs between two awaits. */
module CapturePool {
  import Sorting

  // ---------------------------------------------------------------------------------------------
  // The jobs.

  /** One job, named by its scenario, for each repetition of each file. */
  function JobsOf(files: seq<string>, reps: nat): seq<string> {
    if files == [] then [] else JobsOf(files[..|files| - 1], reps) + Copies(files[|files| - 1], reps)
  }

  function Copies(name: string, reps: nat): (r: seq<string>)
    ensures |r| == reps && forall i :: 0 <= i < reps ==> r[i] == name
  {
    seq(reps, _ => name)
  }

  method BuildJobs(files: seq<string>, reps: nat) returns (jobs: seq<string>)
    ensures jobs == JobsOf(files, reps)
  {
    jobs := [];
    for f := 0 to |files|
      invariant jobs == JobsOf(files[..f], reps)
    {
      assert files[..f + 1][..f] == files[..f];
      for i := 0 to reps
        invariant jobs == JobsOf(files[..f], reps) + Copies(files[f], reps)[..i]
      {
        jobs := jobs + [files[f]];
      }
    }
    assert files[..|files|] == files;
  }

  lemma {:induction false} JobsPerScenario(files: seq<string>, reps: nat, name: string)
    ensures multiset(JobsOf(files, reps))[name] == reps * multiset(files)[name]
  {
    if files != [] {
      var front, last := files[..|files| - 1], files[|files| - 1];
      JobsPerScenario(front, reps, name);
      assert files == front + [last];
      CopiesCount(last, reps, name);
      Distribute(reps, multiset(front)[name], if last == name then 1 else 0);
    }
  }

  lemma Distribute(r: nat, x: nat, y: nat)
    ensures r * x + r * y == r * (x + y)
  {
  }

  lemma {:induction false} CopiesCount(x: string, reps: nat, name: string)
    ensures multiset(Copies(x, reps))[name] == if x == name then reps else 0
  {
    if reps > 0 {
      CopiesCount(x, reps - 1, name);
      assert Copies(x, reps) == Copies(x, reps - 1) + [x];
    }
  }

  // ---------------------------------------------------------------------------------------------
  // The shared variables, and the steps. A run always resolves (see ChildProcess): `env(j)` is what job j came to.

  datatype Worker = Fresh | Running(job: nat) | Returned

  /** `finished` is the order in which the jobs came back. */
  datatype State<E> = State(next: nat, done: nat, byScenario: map<string, seq<E>>, workers: seq<Worker>,
                            finished: seq<nat>)

  function Init<E>(jobs: seq<string>, concurrency: nat): State<E> {
    State(0, 0, map[], seq(if concurrency < |jobs| then concurrency else |jobs|, _ => Fresh), [])
  }

  /** `while (next < jobs.length) { const job = jobs[next++]; ...` */
  function TakeNext<E>(s: State<E>, jobs: seq<string>, w: nat): State<E>
    requires w < |s.workers|
  {
    if s.next < |jobs| then s.(next := s.next + 1, workers := s.workers[w := Running(s.next)])
    else s.(workers := s.workers[w := Returned])
  }

  function Recorded<E>(m: map<string, seq<E>>, name: string, e: E): map<string, seq<E>> {
    m[name := (if name in m then m[name] else []) + [e]]
  }

  predicate Enabled<E>(s: State<E>, w: nat) { w < |s.workers| && !s.workers[w].Returned? }

  function Step<E>(s: State<E>, jobs: seq<string>, env: nat -> E, w: nat): State<E> {
    if !Enabled(s, w) then s
    else
      match s.workers[w]
      case Fresh => TakeNext(s, jobs, w)
      case Running(j) =>
        if j >= |jobs| then s
        else
          TakeNext(s.(byScenario := Recorded(s.byScenario, jobs[j], env(j)), done := s.done + 1,
                      finished := s.finished + [j]), jobs, w)
  }

  function Run<E>(jobs: seq<string>, concurrency: nat, env: nat -> E, schedule: seq<nat>): State<E> {
    if schedule == [] then Init(jobs, concurrency)
    else Step(Run(jobs, concurrency, env, schedule[..|schedule| - 1]), jobs, env, schedule[|schedule| - 1])
  }

  // ---------------------------------------------------------------------------------------------
  // Every job is taken once, and is either with one worker or finished.

  function Times(finished: seq<nat>, j: nat): nat {
    if finished == [] then 0
    else Times(finished[..|finished| - 1], j) + (if finished[|finished| - 1] == j then 1 else 0)
  }

  predicate Holds(w: Worker, j: nat) { w == Running(j) }

  /** How many workers hold job j. */
  function Held(workers: seq<Worker>, j: nat): nat {
    if workers == [] then 0 else Held(workers[..|workers| - 1], j) + (if Holds(workers[|workers| - 1], j) then 1 else 0)
  }

  lemma {:induction false} HeldAfter(workers: seq<Worker>, w: nat, x: Worker, j: nat)
    requires w < |workers|
    ensures Held(workers[w := x], j) + (if Holds(workers[w], j) then 1 else 0) ==
              Held(workers, j) + (if Holds(x, j) then 1 else 0)
  {
    var n := |workers| - 1;
    if w < n {
      HeldAfter(workers[..n], w, x, j);
      assert workers[w := x][..n] == workers[..n][w := x];
    } else {
      assert workers[w := x][..n] == workers[..n];
    }
  }

  lemma {:induction false} NoneHeld(workers: seq<Worker>, j: nat)
    requires forall w :: 0 <= w < |workers| ==> !Holds(workers[w], j)
    ensures Held(workers, j) == 0
  {
    if workers != [] { NoneHeld(workers[..|workers| - 1], j); }
  }

  /** A job below the counter has been taken exactly once: it is finished, or one worker holds it. */
  ghost predicate TakenOnce(next: nat, finished: seq<nat>, workers: seq<Worker>) {
    forall j: nat :: Times(finished, j) + Held(workers, j) == if j < next then 1 else 0
  }

  lemma TakeKeepsOnce(next: nat, finished: seq<nat>, workers: seq<Worker>, w: nat)
    requires w < |workers| && !workers[w].Running? && TakenOnce(next, finished, workers)
    ensures TakenOnce(next + 1, finished, workers[w := Running(next)])
    ensures TakenOnce(next, finished, workers[w := Returned])
  {
    forall j: nat
      ensures Times(finished, j) + Held(workers[w := Running(next)], j) == if j < next + 1 then 1 else 0
      ensures Held(workers[w := Returned], j) == Held(workers, j)
    {
      HeldAfter(workers, w, Running(next), j);
      HeldAfter(workers, w, Returned, j);
    }
  }

  lemma FinishKeepsOnce(next: nat, finished: seq<nat>, workers: seq<Worker>, w: nat)
    requires w < |workers| && workers[w].Running? && TakenOnce(next, finished, workers)
    ensures TakenOnce(next, finished + [workers[w].job], workers[w := Fresh])
  {
    var more := finished + [workers[w].job];
    forall j: nat ensures Times(more, j) + Held(workers[w := Fresh], j) == if j < next then 1 else 0 {
      HeldAfter(workers, w, Fresh, j);
      assert more[..|finished|] == finished;
    }
  }

  /** The results of the finished jobs of one scenario, in the order they came back. */
  function ResultsOf<E>(jobs: seq<string>, env: nat -> E, finished: seq<nat>, name: string): seq<E> {
    if finished == [] then []
    else
      var j := finished[|finished| - 1];
      ResultsOf(jobs, env, finished[..|finished| - 1], name) + (if j < |jobs| && jobs[j] == name then [env(j)] else [])
  }

  ghost predicate Filed<E>(s: State<E>, jobs: seq<string>, env: nat -> E) {
    && s.done == |s.finished|
    && forall name :: ResultsOf(jobs, env, s.finished, name) == if name in s.byScenario then s.byScenario[name] else []
  }

  ghost predicate InRange(next: nat, workers: seq<Worker>, n: nat) {
    && next <= n
    && (forall w :: 0 <= w < |workers| && workers[w].Running? ==> workers[w].job < n)
    && (next < n ==> forall w :: 0 <= w < |workers| ==> !workers[w].Returned?)
  }

  ghost predicate Inv<E>(s: State<E>, jobs: seq<string>, env: nat -> E) {
    TakenOnce(s.next, s.finished, s.workers) && Filed(s, jobs, env) && InRange(s.next, s.workers, |jobs|)
  }

  lemma FinishKeepsFiled<E>(s: State<E>, jobs: seq<string>, env: nat -> E, j: nat)
    requires Filed(s, jobs, env) && j < |jobs|
    ensures Filed(s.(byScenario := Recorded(s.byScenario, jobs[j], env(j)), done := s.done + 1,
                     finished := s.finished + [j]), jobs, env)
  {
    assert (s.finished + [j])[..|s.finished|] == s.finished;
  }

  lemma StepKeepsInv<E>(s: State<E>, jobs: seq<string>, env: nat -> E, w: nat)
    requires Inv(s, jobs, env)
    ensures Inv(Step(s, jobs, env, w), jobs, env)
  {
    if Enabled(s, w) {
      if s.workers[w].Fresh? {
        TakeKeepsOnce(s.next, s.finished, s.workers, w);
      } else {
        var j := s.workers[w].job;
        var idle := s.workers[w := Fresh];
        FinishKeepsFiled(s, jobs, env, j);
        FinishKeepsOnce(s.next, s.finished, s.workers, w);
        TakeKeepsOnce(s.next, s.finished + [j], idle, w);
        assert idle[w := Running(s.next)] == s.workers[w := Running(s.next)];
        assert idle[w := Returned] == s.workers[w := Returned];
      }
    }
  }

  lemma {:induction false} RunKeepsInv<E>(jobs: seq<string>, concurrency: nat, env: nat -> E, schedule: seq<nat>)
    ensures Inv(Run(jobs, concurrency, env, schedule), jobs, env)
    ensures |Run(jobs, concurrency, env, schedule).workers| == if concurrency < |jobs| then concurrency else |jobs|
  {
    if schedule == [] {
      forall j: nat
        ensures Held(Init<E>(jobs, concurrency).workers, j) == 0
      {
        NoneHeld(Init<E>(jobs, concurrency).workers, j);
      }
    } else {
      var front := schedule[..|schedule| - 1];
      RunKeepsInv(jobs, concurrency, env, front);
      StepKeepsInv(Run(jobs, concurrency, env, front), jobs, env, schedule[|schedule| - 1]);
    }
  }

  predicate Finished<E>(s: State<E>) { forall w :: 0 <= w < |s.workers| ==> s.workers[w].Returned? }

  /** Each of the first n jobs occurs once, and no other. */
  ghost predicate Once(finished: seq<nat>, n: nat) { forall j: nat :: Times(finished, j) == if j < n then 1 else 0 }

  /** When every worker has returned, each job has been run exactly once, and each scenario holds one result for each of
      its jobs: the repetitions asked for, for every file of that name. */
  lemma EveryJobRunsOnce<E>(files: seq<string>, reps: nat, concurrency: nat, env: nat -> E, schedule: seq<nat>)
    requires concurrency > 0
    requires Finished(Run(JobsOf(files, reps), concurrency, env, schedule))
    ensures var jobs := JobsOf(files, reps);
            var s := Run(jobs, concurrency, env, schedule);
            && Once(s.finished, |jobs|) && s.done == |jobs|
            && forall name :: |if name in s.byScenario then s.byScenario[name] else []| == reps * multiset(files)[name]
  {
    var jobs := JobsOf(files, reps);
    var s := Run(jobs, concurrency, env, schedule);
    RunKeepsInv(jobs, concurrency, env, schedule);
    assert |jobs| > 0 ==> !(s.next < |jobs|) by {
      if |jobs| > 0 { var first := s.workers[0]; }
    }
    forall j: nat ensures Held(s.workers, j) == 0 { NoneHeld(s.workers, j); }
    OnceCounts(jobs, s.finished, |jobs|, "");
    forall name ensures |ResultsOf(jobs, env, s.finished, name)| == reps * multiset(files)[name] {
      ResultsAreCounted(jobs, env, s.finished, name);
      OnceCounts(jobs, s.finished, |jobs|, name);
      assert jobs[..|jobs|] == jobs;
      JobsPerScenario(files, reps, name);
    }
  }

  predicate Belongs(jobs: seq<string>, j: nat, name: string) { j < |jobs| && jobs[j] == name }

  /** How many of a list of jobs belong to a scenario. */
  function CountFor(jobs: seq<string>, finished: seq<nat>, name: string): nat {
    if finished == [] then 0
    else
      CountFor(jobs, finished[..|finished| - 1], name) +
      (if Belongs(jobs, finished[|finished| - 1], name) then 1 else 0)
  }

  lemma {:induction false} ResultsAreCounted<E>(jobs: seq<string>, env: nat -> E, finished: seq<nat>, name: string)
    ensures |ResultsOf(jobs, env, finished, name)| == CountFor(jobs, finished, name)
  {
    if finished != [] { ResultsAreCounted(jobs, env, finished[..|finished| - 1], name); }
  }

  lemma {:induction false} CountWithout(jobs: seq<string>, s: seq<nat>, i: nat, name: string)
    requires i < |s|
    ensures CountFor(jobs, s, name) ==
              CountFor(jobs, Sorting.Without(s, i), name) + (if Belongs(jobs, s[i], name) then 1 else 0)
  {
    var n := |s| - 1;
    if i < n {
      CountWithout(jobs, s[..n], i, name);
      assert Sorting.Without(s, i)[..n - 1] == Sorting.Without(s[..n], i);
      assert Sorting.Without(s, i)[n - 1] == s[n];
    } else {
      assert Sorting.Without(s, i) == s[..n];
    }
  }

  lemma {:induction false} TimesWithout(s: seq<nat>, i: nat, j: nat)
    requires i < |s|
    ensures Times(s, j) == Times(Sorting.Without(s, i), j) + (if s[i] == j then 1 else 0)
  {
    var n := |s| - 1;
    if i < n {
      TimesWithout(s[..n], i, j);
      assert Sorting.Without(s, i)[..n - 1] == Sorting.Without(s[..n], i);
      assert Sorting.Without(s, i)[n - 1] == s[n];
    } else {
      assert Sorting.Without(s, i) == s[..n];
    }
  }

  lemma {:induction false} WhereIs(s: seq<nat>, j: nat) returns (i: nat)
    requires Times(s, j) > 0
    ensures i < |s| && s[i] == j
  {
    if s[|s| - 1] == j { i := |s| - 1; } else { i := WhereIs(s[..|s| - 1], j); }
  }

  /** The first n jobs, finished once each in any order, are n, and give each scenario as many results as it has jobs
      among them. */
  lemma {:induction false} OnceCounts(jobs: seq<string>, finished: seq<nat>, n: nat, name: string)
    requires n <= |jobs| && Once(finished, n)
    ensures |finished| == n
    ensures CountFor(jobs, finished, name) == multiset(jobs[..n])[name]
    decreases n
  {
    if finished != [] { assert Times(finished, finished[|finished| - 1]) > 0; }
    if n > 0 {
      var i := WhereIs(finished, n - 1);
      forall j: nat
        ensures Times(Sorting.Without(finished, i), j) == if j < n - 1 then 1 else 0
      {
        TimesWithout(finished, i, j);
      }
      CountWithout(jobs, finished, i, name);
      OnceCounts(jobs, Sorting.Without(finished, i), n - 1, name);
      assert jobs[..n] == jobs[..n - 1] + [jobs[n - 1]];
    }
  }

  /** The finished jobs of one scenario, in the order they came back. */
  function JobsFor(jobs: seq<string>, finished: seq<nat>, name: string): seq<nat> {
    if finished == [] then []
    else
      var j := finished[|finished| - 1];
      JobsFor(jobs, finished[..|finished| - 1], name) + (if Belongs(jobs, j, name) then [j] else [])
  }

  /** These are the results of exactly the jobs of that scenario, each once, in some order. */
  ghost predicate HoldsItsOwn<E>(results: seq<E>, jobs: seq<string>, env: nat -> E, name: string) {
    exists js: seq<nat> ::
      && |js| == |results| && (forall k :: 0 <= k < |js| ==> results[k] == env(js[k]))
      && forall j: nat :: Times(js, j) == if Belongs(jobs, j, name) then 1 else 0
  }

  lemma {:induction false} TimesOfJobsFor(jobs: seq<string>, finished: seq<nat>, name: string, j: nat)
    ensures Times(JobsFor(jobs, finished, name), j) == if Belongs(jobs, j, name) then Times(finished, j) else 0
  {
    if finished != [] {
      var n := |finished| - 1;
      TimesOfJobsFor(jobs, finished[..n], name, j);
      TimesMore(JobsFor(jobs, finished[..n], name), finished[n], j);
      assert !Belongs(jobs, finished[n], name) ==> JobsFor(jobs, finished, name) == JobsFor(jobs, finished[..n], name);
    }
  }

  lemma TimesMore(js: seq<nat>, last: nat, j: nat)
    ensures Times(js + [last], j) == Times(js, j) + if last == j then 1 else 0
  {
    assert (js + [last])[..|js|] == js;
  }

  lemma {:induction false} ResultsOfJobsFor<E>(jobs: seq<string>, env: nat -> E, finished: seq<nat>, name: string)
    ensures var js, results := JobsFor(jobs, finished, name), ResultsOf(jobs, env, finished, name);
            |js| == |results| && forall k :: 0 <= k < |js| ==> results[k] == env(js[k])
  {
    if finished != [] { ResultsOfJobsFor(jobs, env, finished[..|finished| - 1], name); }
  }

  lemma OnceHoldsItsOwn<E>(jobs: seq<string>, env: nat -> E, finished: seq<nat>, name: string)
    requires Once(finished, |jobs|)
    ensures HoldsItsOwn(ResultsOf(jobs, env, finished, name), jobs, env, name)
  {
    var js := JobsFor(jobs, finished, name);
    ResultsOfJobsFor(jobs, env, finished, name);
    forall j: nat ensures Times(js, j) == if Belongs(jobs, j, name) then 1 else 0 {
      TimesOfJobsFor(jobs, finished, name, j);
    }
  }

  /** The job list is the files in order, each as often as asked for. */
  lemma {:induction false} JobAt(files: seq<string>, reps: nat, f: nat, i: nat)
    requires f < |files| && i < reps
    ensures |JobsOf(files, reps)| == |files| * reps && f * reps + i < |JobsOf(files, reps)|
    ensures JobsOf(files, reps)[f * reps + i] == files[f]
  {
    var front := files[..|files| - 1];
    JobCount(front, reps);
    assert |files| * reps == |front| * reps + reps;
    if f < |front| {
      JobAt(front, reps, f, i);
    } else {
      assert f * reps == |front| * reps;
    }
  }

  lemma {:induction false} JobCount(files: seq<string>, reps: nat)
    ensures |JobsOf(files, reps)| == |files| * reps
  {
    if files != [] {
      JobCount(files[..|files| - 1], reps);
      assert |files| * reps == (|files| - 1) * reps + reps;
    }
  }

  // ---------------------------------------------------------------------------------------------
  // Termination.

  function Active(workers: seq<Worker>): nat {
    if workers == [] then 0 else Active(workers[..|workers| - 1]) + (if workers[|workers| - 1].Returned? then 0 else 1)
  }

  lemma {:induction false} ActiveAfter(workers: seq<Worker>, w: nat, x: Worker)
    requires w < |workers|
    ensures Active(workers[w := x]) + (if workers[w].Returned? then 0 else 1) ==
              Active(workers) + (if x.Returned? then 0 else 1)
  {
    var n := |workers| - 1;
    if w < n {
      ActiveAfter(workers[..n], w, x);
      assert workers[w := x][..n] == workers[..n][w := x];
    } else {
      assert workers[w := x][..n] == workers[..n];
    }
  }

  function Remaining<E>(s: State<E>, jobs: seq<string>): int { |jobs| - s.next + Active(s.workers) }

  /** Every step of a worker that has not returned uses up one of what is left, so no run takes more than the jobs plus
      the workers. */
  lemma StepUsesOne<E>(s: State<E>, jobs: seq<string>, env: nat -> E, w: nat)
    requires Inv(s, jobs, env) && Enabled(s, w)
    ensures Remaining(Step(s, jobs, env, w), jobs) == Remaining(s, jobs) - 1
    ensures 0 < Remaining(s, jobs)
  {
    ActiveAfter(s.workers, w, Step(s, jobs, env, w).workers[w]);
  }

  lemma NextStep<E>(jobs: seq<string>, concurrency: nat, env: nat -> E, schedule: seq<nat>, w: nat)
    requires Enabled(Run(jobs, concurrency, env, schedule), w)
    ensures var s := Run(jobs, concurrency, env, schedule);
            && Run(jobs, concurrency, env, schedule + [w]) == Step(s, jobs, env, w)
            && (s.workers[w].Running? ==> s.workers[w].job < |jobs|)
            && Remaining(Step(s, jobs, env, w), jobs) < Remaining(s, jobs) && 0 < Remaining(s, jobs)
  {
    RunKeepsInv(jobs, concurrency, env, schedule);
    StepUsesOne(Run(jobs, concurrency, env, schedule), jobs, env, w);
    assert (schedule + [w])[..|schedule|] == schedule;
  }

  predicate AnyActive(workers: seq<Worker>) { exists w :: 0 <= w < |workers| && !workers[w].Returned? }

  /** The whole pool, under an arbitrary scheduler. */
  method CaptureLive<E>(files: seq<string>, reps: nat, concurrency: nat, env: nat -> E)
    returns (byScenario: map<string, seq<E>>, done: nat)
    requires concurrency > 0
    ensures done == |JobsOf(files, reps)|
    ensures forall name :: |if name in byScenario then byScenario[name] else []| == reps * multiset(files)[name]
    ensures forall name ::
              HoldsItsOwn(if name in byScenario then byScenario[name] else [], JobsOf(files, reps), env, name)
  {
    var jobs := BuildJobs(files, reps);
    var next, workers: seq<Worker> := 0, seq(if concurrency < |jobs| then concurrency else |jobs|, _ => Fresh);
    byScenario, done := map[], 0;
    ghost var finished: seq<nat>, schedule: seq<nat> := [], [];
    while AnyActive(workers)
      invariant State(next, done, byScenario, workers, finished) == Run(jobs, concurrency, env, schedule)
      decreases Remaining(State(next, done, byScenario, workers, finished), jobs)
    {
      var w: nat :| 0 <= w < |workers| && !workers[w].Returned?;
      ghost var s := State(next, done, byScenario, workers, finished);
      NextStep(jobs, concurrency, env, schedule, w);
      if workers[w].Running? {
        var j := workers[w].job;
        byScenario := Recorded(byScenario, jobs[j], env(j));
        done := done + 1;
        finished := finished + [j];
      }
      if next < |jobs| {
        workers, next := workers[w := Running(next)], next + 1;
      } else {
        workers := workers[w := Returned];
      }
      assert State(next, done, byScenario, workers, finished) == Step(s, jobs, env, w);
      schedule := schedule + [w];
    }
    EveryJobRunsOnce(files, reps, concurrency, env, schedule);
    RunKeepsInv(jobs, concurrency, env, schedule);
    forall name { OnceHoldsItsOwn(jobs, env, finished, name); }
  }
}
