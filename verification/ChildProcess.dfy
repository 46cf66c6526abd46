/** `boundedSpawnJson` and its tracked process groups (scripts/eval-gate.ts), under every order of events. */
module ChildProcess {
  import opened Options
  import opened Utf8

  datatype Event = Data(chunk: seq<Byte>) | Timeout | Close | Error

  /** The closure of one child. `pid` is absent when the spawn failed. */
  datatype Child<V> = Child(pid: Option<nat>, settled: bool, bytes: nat, buf: string, result: Option<V>)

  /** What the children share: how `JSON.parse` reads a text, and the value of an empty object. */
  datatype Env<V> = Env(maxBytes: nat, parse: string -> Option<V>, empty: V)

  function Born<V>(pid: Option<nat>): Child<V> { Child(pid, false, 0, [], None) }

  /** `JSON.parse(buf || "{}")`, or an empty object where that throws. */
  function ParseOutput<V>(env: Env<V>, buf: string): V {
    if buf == [] then env.empty
    else
      var v := env.parse(buf);
      if v.Some? then v.value else env.empty
  }

  /** Only the first result counts. */
  function Finish<V>(c: Child<V>, value: V): Child<V> {
    if c.settled then c else c.(settled := true, result := Some(value))
  }

  /** Every chunk is decoded on its own. */
  function After<V>(env: Env<V>, c: Child<V>, e: Event): Child<V> {
    match e
    case Data(chunk) =>
      var d := c.(bytes := c.bytes + |chunk|);
      if d.bytes > env.maxBytes then Finish(d, env.empty) else d.(buf := d.buf + Decode(chunk))
    case Timeout => Finish(c, env.empty)
    case Close => Finish(c, ParseOutput(env, c.buf))
    case Error => Finish(c, env.empty)
  }

  // ---------------------------------------------------------------------------------------------
  // One child, over any sequence of its events.

  function Feed<V>(env: Env<V>, c: Child<V>, events: seq<Event>): Child<V> {
    if events == [] then c else After(env, Feed(env, c, events[..|events| - 1]), events[|events| - 1])
  }

  /** Everything the child printed. */
  function Output(events: seq<Event>): seq<Byte> {
    if events == [] then []
    else Output(events[..|events| - 1]) + (match events[|events| - 1] case Data(chunk) => chunk case _ => [])
  }

  /** The chunks, decoded one by one. */
  function Text(events: seq<Event>): string {
    if events == [] then []
    else Text(events[..|events| - 1]) + (match events[|events| - 1] case Data(chunk) => Decode(chunk) case _ => [])
  }

  /** Event k settles the child on its own account: every event but a chunk that keeps within the cap. */
  predicate Settles(maxBytes: nat, events: seq<Event>, k: nat)
    requires k < |events|
  {
    events[k].Data? ==> |Output(events[..k + 1])| > maxBytes
  }

  /** What the child is worth if event k is the first that settles it. */
  function ValueAt<V>(env: Env<V>, events: seq<Event>, k: nat): V
    requires k < |events|
  {
    if events[k].Close? then ParseOutput(env, Text(events[..k])) else env.empty
  }

  /** The first event that settles a child. */
  predicate FirstSettling(maxBytes: nat, events: seq<Event>, k: nat) {
    k < |events| && Settles(maxBytes, events, k) && forall i :: 0 <= i < k ==> !Settles(maxBytes, events, i)
  }

  lemma SettlesInPrefix(maxBytes: nat, events: seq<Event>, n: nat, k: nat)
    requires k < n <= |events|
    ensures Settles(maxBytes, events[..n], k) <==> Settles(maxBytes, events, k)
  {
    assert events[..n][..k + 1] == events[..k + 1];
  }

  lemma {:induction false} DecodeIsShort(s: seq<Byte>)
    ensures |Decode(s)| <= |s| && (s != [] ==> Decode(s) != [])
  {
    if s != [] { DecodeIsShort(s[Span(s)..]); }
  }

  /** The buffer keeps to the cap, and holds all the decoded chunks exactly while the output is within the cap. */
  lemma {:induction false} BufferIsBounded<V>(env: Env<V>, pid: Option<nat>, events: seq<Event>)
    ensures var c := Feed(env, Born(pid), events);
            && c.pid == pid && c.bytes == |Output(events)|
            && |c.buf| <= env.maxBytes && |c.buf| <= |Output(events)| && c.buf <= Text(events)
            && (|Output(events)| <= env.maxBytes <==> c.buf == Text(events))
  {
    if events != [] {
      BufferIsBounded(env, pid, events[..|events| - 1]);
      if events[|events| - 1].Data? { DecodeIsShort(events[|events| - 1].chunk); }
    }
  }

  /** What one more event does to a child that has gone through the ones before it. */
  lemma LastEvent<V>(env: Env<V>, pid: Option<nat>, events: seq<Event>)
    requires events != []
    ensures var n := |events| - 1;
            var c, d := Feed(env, Born(pid), events[..n]), Feed(env, Born(pid), events);
            && (c.settled ==> d.settled && d.result == c.result)
            && (!c.settled ==> (d.settled <==> Settles(env.maxBytes, events, n)))
            && (!c.settled && d.settled && |Output(events[..n])| <= env.maxBytes ==>
                  d.result == Some(ValueAt(env, events, n)))
            && (!c.settled && !d.settled ==> d.result == c.result)
  {
    var n := |events| - 1;
    BufferIsBounded(env, pid, events[..n]);
    BufferIsBounded(env, pid, events);
    assert events[..n + 1] == events;
  }

  /** A child's promise is settled exactly when one of its events settles it, and its value is the one the first such
      event calls for, whatever came later. */
  lemma {:induction false} FirstSettlingEventDecides<V>(env: Env<V>, pid: Option<nat>, events: seq<Event>)
    ensures var c := Feed(env, Born(pid), events);
            && (c.settled <==> c.result.Some?)
            && (c.settled <==> exists k :: 0 <= k < |events| && Settles(env.maxBytes, events, k))
            && (forall k: nat :: FirstSettling(env.maxBytes, events, k) ==> c.result == Some(ValueAt(env, events, k)))
  {
    if events != [] {
      var n := |events| - 1;
      var front := events[..n];
      FirstSettlingEventDecides(env, pid, front);
      LastEvent(env, pid, events);
      forall k | 0 <= k < n ensures Settles(env.maxBytes, front, k) <==> Settles(env.maxBytes, events, k) {
        SettlesInPrefix(env.maxBytes, events, n, k);
      }
      if Feed(env, Born<V>(pid), front).settled {
        var k :| 0 <= k < n && Settles(env.maxBytes, front, k);
        FirstBelow(env.maxBytes, events, n, k);
        forall k: nat | FirstSettling(env.maxBytes, events, k)
          ensures k < n && FirstSettling(env.maxBytes, front, k) && ValueAt(env, front, k) == ValueAt(env, events, k)
        {
          assert front[..k] == events[..k];
        }
      } else {
        BeforeSettlingNothingIsLost(env.maxBytes, front);
      }
    }
  }

  /** A child that closes first, within the cap, resolves to what its text parses as; printing nothing, or something
      that does not parse, is worth the same as failing. */
  lemma ClosedChildResolves<V>(env: Env<V>, pid: Option<nat>, events: seq<Event>, k: nat)
    requires FirstSettling(env.maxBytes, events, k) && events[k].Close?
    ensures var text, c := Text(events[..k]), Feed(env, Born(pid), events);
            && (forall v :: text != "" && env.parse(text) == Some(v) ==> c.result == Some(v))
            && (text == "" || env.parse(text).None? ==> c.result == Some(env.empty))
  {
    FirstSettlingEventDecides(env, pid, events);
  }

  /** A child that times out, fails or prints too much first resolves to the empty value. */
  lemma BrokenChildIsEmpty<V>(env: Env<V>, pid: Option<nat>, events: seq<Event>, k: nat)
    requires FirstSettling(env.maxBytes, events, k) && !events[k].Close?
    ensures Feed(env, Born(pid), events).result == Some(env.empty)
  {
    FirstSettlingEventDecides(env, pid, events);
  }

  lemma FirstBelow(maxBytes: nat, events: seq<Event>, n: nat, k: nat)
    requires k < n <= |events| && Settles(maxBytes, events, k)
    ensures forall j: nat :: FirstSettling(maxBytes, events, j) ==> j < n
  {
  }

  /** While nothing has settled it, the child's output is within the cap. */
  lemma {:induction false} BeforeSettlingNothingIsLost(maxBytes: nat, events: seq<Event>)
    requires forall k :: 0 <= k < |events| ==> !Settles(maxBytes, events, k)
    ensures |Output(events)| <= maxBytes
  {
    if events != [] { assert events[..|events|] == events && !Settles(maxBytes, events, |events| - 1); }
  }

  /** Once settled, a child keeps its value. */
  lemma {:induction false} SettledStays<V>(env: Env<V>, c: Child<V>, events: seq<Event>)
    requires c.settled
    ensures Feed(env, c, events).settled && Feed(env, c, events).result == c.result
  {
    if events != [] { SettledStays(env, c, events[..|events| - 1]); }
  }

  // ---------------------------------------------------------------------------------------------
  // What decoding chunk by chunk does to the text.

  /** Chunk k goes on with a character the output before it broke off in. */
  predicate SplitAt(events: seq<Event>, k: nat)
    requires k < |events|
  {
    events[k].Data? && Splits(Output(events[..k]), events[k].chunk)
  }

  predicate NoSplit(events: seq<Event>) {
    forall k :: 0 <= k < |events| ==> !SplitAt(events, k)
  }

  lemma NoSplitLast(events: seq<Event>)
    requires events != []
    ensures NoSplit(events) <==> NoSplit(events[..|events| - 1]) && !SplitAt(events, |events| - 1)
  {
    var front := events[..|events| - 1];
    forall k | 0 <= k < |front| ensures SplitAt(front, k) <==> SplitAt(events, k) { assert front[..k] == events[..k]; }
  }

  lemma {:induction false} TextIsLonger(events: seq<Event>)
    ensures |Decode(Output(events))| <= |Text(events)|
    ensures Decode(Output(events)) == Text(events) <==> NoSplit(events)
    ensures !NoSplit(events) ==> |Decode(Output(events))| < |Text(events)|
  {
    if events != [] {
      var n := |events| - 1;
      var front := events[..n];
      TextIsLonger(front);
      NoSplitLast(events);
      if events[n].Data? {
        DecodeInTwo(Output(front), events[n].chunk);
      } else {
        assert Output(events) == Output(front) && Text(events) == Text(front);
      }
    }
  }

  /** The buffer is the decoded output exactly when no chunk begins inside a character. */
  lemma BufferIsTheOutput<V>(env: Env<V>, pid: Option<nat>, events: seq<Event>)
    requires |Output(events)| <= env.maxBytes
    ensures Feed(env, Born(pid), events).buf == Decode(Output(events)) <==> NoSplit(events)
  {
    BufferIsBounded(env, pid, events);
    TextIsLonger(events);
  }

  lemma {:induction false} OutputGrows(events: seq<Event>, n: nat)
    requires n <= |events|
    ensures Output(events[..n]) <= Output(events)
    decreases |events|
  {
    if n < |events| {
      OutputGrows(events[..|events| - 1], n);
      assert events[..|events| - 1][..n] == events[..n];
    } else {
      assert events[..n] == events;
    }
  }

  predicate BeginsInside(e: Event) {
    e.Data? && e.chunk != [] && Continuation(e.chunk[0])
  }

  lemma SplitOfText(events: seq<Event>, text: string, k: nat)
    requires Output(events) == EncodeAll(text) && k < |events|
    ensures SplitAt(events, k) <==> BeginsInside(events[k])
  {
    if events[k].Data? && events[k].chunk != [] {
      OutputGrows(events, k + 1);
      assert events[..k + 1][..k] == events[..k];
      CutOfText(text, Output(events[..k]), events[k].chunk);
    }
  }

  /** For a child that printed a text: the buffer is that text exactly when no chunk begins with a continuation byte. */
  lemma BufferIsTheText<V>(env: Env<V>, pid: Option<nat>, events: seq<Event>, text: string)
    requires |Output(events)| <= env.maxBytes && Output(events) == EncodeAll(text)
    ensures Feed(env, Born(pid), events).buf == text <==> forall k :: 0 <= k < |events| ==> !BeginsInside(events[k])
  {
    BufferIsTheOutput(env, pid, events);
    RoundTrip(text);
    forall k | 0 <= k < |events| ensures SplitAt(events, k) <==> BeginsInside(events[k]) {
      SplitOfText(events, text, k);
    }
  }

  /** The output `"\U{20AC}"` in two chunks, cut after the first byte of its character: what is parsed holds three
      replacement characters instead. */
  lemma SplitCharacterIsLost<V>(env: Env<V>, pid: Option<nat>)
    requires env.maxBytes >= 5
    ensures var events := [Data([0x22, 0xE2]), Data([0x82, 0xAC, 0x22]), Close];
            && Output(events) == EncodeAll("\"\U{20AC}\"")
            && Feed(env, Born(pid), events).result == Some(ParseOutput(env, "\"\U{FFFD}\U{FFFD}\U{FFFD}\""))
  {
    var one, two := Data([0x22, 0xE2]), Data([0x82, 0xAC, 0x22]);
    DecodeTwo(0x22, 0xE2);
    DecodeThree();
    TwoChunks(env, pid, one, two);
    assert Decode(one.chunk) + Decode(two.chunk) == "\"\U{FFFD}\U{FFFD}\U{FFFD}\"";
    EuroBytes();
    assert one.chunk + two.chunk == [0x22, 0xE2, 0x82, 0xAC, 0x22];
  }

  lemma TwoChunks<V>(env: Env<V>, pid: Option<nat>, one: Event, two: Event)
    requires one.Data? && two.Data? && |one.chunk| + |two.chunk| <= env.maxBytes
    ensures Output([one, two, Close]) == one.chunk + two.chunk
    ensures Feed(env, Born(pid), [one, two, Close]).result ==
              Some(ParseOutput(env, Decode(one.chunk) + Decode(two.chunk)))
  {
    OutputOfTwo(one, two);
    CloseSettles(env.maxBytes, one, two);
    FirstSettlingEventDecides(env, pid, [one, two, Close]);
    assert [one, two, Close][..2] == [one, two];
  }

  lemma CloseSettles(maxBytes: nat, one: Event, two: Event)
    requires one.Data? && two.Data? && |one.chunk| + |two.chunk| <= maxBytes
    ensures FirstSettling(maxBytes, [one, two, Close], 2)
  {
    var events := [one, two, Close];
    OutputOfTwo(one, two);
    assert events[..0 + 1] == [one] && events[..1 + 1] == [one, two];
    assert !Settles(maxBytes, events, 0) && !Settles(maxBytes, events, 1) && Settles(maxBytes, events, 2);
  }

  lemma OutputOfTwo(one: Event, two: Event)
    requires one.Data? && two.Data?
    ensures Output([one]) == one.chunk && Output([one, two]) == Output([one, two, Close]) == one.chunk + two.chunk
    ensures Text([one, two]) == Decode(one.chunk) + Decode(two.chunk)
  {
    assert [one][..0] == [] && [one, two][..1] == [one] && [one, two, Close][..2] == [one, two];
    assert Output([one]) == one.chunk && Text([one]) == Decode(one.chunk);
    assert Output([one, two, Close]) == Output([one, two]) + [];
  }

  lemma EuroBytes()
    ensures EncodeAll("\"\U{20AC}\"") == [0x22, 0xE2, 0x82, 0xAC, 0x22]
  {
    var t := "\"\U{20AC}\"";
    assert t[1..] == "\U{20AC}\"" && t[1..][1..] == "\"" && t[1..][1..][1..] == "";
    assert Encode('\U{20AC}') == [0xE2, 0x82, 0xAC];
  }

  lemma DecodeTwo(a: Byte, b: Byte)
    requires a < 0x80 && Need(b) > 0
    ensures Decode([a, b]) == [a as char, REPLACEMENT]
  {
    assert Span([a, b]) == 1 && CharOf([a, b], 1) == a as char && [a, b][1..] == [b];
    assert Span([b]) == 1 && CharOf([b], 1) == REPLACEMENT && [b][1..] == [];
    assert Decode([b]) == [REPLACEMENT];
  }

  lemma DecodeThree()
    ensures Decode([0x82, 0xAC, 0x22]) == [REPLACEMENT, REPLACEMENT, '\"']
  {
    var s: seq<Byte> := [0x82, 0xAC, 0x22];
    assert s[1..] == [0xAC, 0x22] && s[1..][1..] == [0x22] && s[1..][1..][1..] == [];
  }

  // ---------------------------------------------------------------------------------------------
  // All children together.

  datatype System<V> = System(children: seq<Child<V>>, outstanding: set<nat>)

  datatype Action = Spawn(pid: Option<nat>) | On(i: nat, e: Event)

  function Track(outstanding: set<nat>, pid: Option<nat>): set<nat> {
    if pid.Some? then outstanding + {pid.value} else outstanding
  }

  function Untrack(outstanding: set<nat>, pid: Option<nat>): set<nat> {
    if pid.Some? then outstanding - {pid.value} else outstanding
  }

  function Act<V>(env: Env<V>, s: System<V>, a: Action): System<V> {
    match a
    case Spawn(pid) => System(s.children + [Born(pid)], Track(s.outstanding, pid))
    case On(i, e) =>
      if i >= |s.children| then s
      else
        var c, d := s.children[i], After(env, s.children[i], e);
        System(s.children[i := d], if d.settled && !c.settled then Untrack(s.outstanding, c.pid) else s.outstanding)
  }

  function Run<V>(env: Env<V>, actions: seq<Action>): System<V> {
    if actions == [] then System([], {}) else Act(env, Run(env, actions[..|actions| - 1]), actions[|actions| - 1])
  }

  function Spawns(actions: seq<Action>): nat {
    if actions == [] then 0 else Spawns(actions[..|actions| - 1]) + (if actions[|actions| - 1].Spawn? then 1 else 0)
  }

  /** The events of child i, in order; the events of other children do not appear. */
  function EventsOf(actions: seq<Action>, i: nat): seq<Event> {
    if actions == [] then []
    else
      var front, last := actions[..|actions| - 1], actions[|actions| - 1];
      EventsOf(front, i) + (if last.On? && last.i == i && i < Spawns(front) then [last.e] else [])
  }

  /** A child's state depends on its own events only, however they are interleaved with those of the others. */
  lemma {:induction false} ChildFollowsItsOwnEvents<V>(env: Env<V>, actions: seq<Action>, i: nat)
    ensures |Run(env, actions).children| == Spawns(actions)
    ensures i < Spawns(actions) ==>
              var c := Run(env, actions).children[i];
              c == Feed(env, Born(c.pid), EventsOf(actions, i))
    ensures i >= Spawns(actions) ==> EventsOf(actions, i) == []
  {
    if actions != [] {
      var front, last := actions[..|actions| - 1], actions[|actions| - 1];
      ChildFollowsItsOwnEvents(env, front, i);
      var s := Run(env, front);
      if last.On? && last.i == i && i < Spawns(front) {
        var own := EventsOf(front, i);
        assert (own + [last.e])[..|own|] == own;
        AfterKeepsPid(env, s.children[i], last.e);
      } else {
        assert EventsOf(actions, i) == EventsOf(front, i);
      }
    }
  }

  lemma AfterKeepsPid<V>(env: Env<V>, c: Child<V>, e: Event)
    ensures After(env, c, e).pid == c.pid
    ensures c.settled ==> After(env, c, e).settled && After(env, c, e).result == c.result
  {
  }

  // ---------------------------------------------------------------------------------------------
  // The tracked process groups.

  predicate Live<V>(c: Child<V>, pid: nat) { c.pid == Some(pid) && !c.settled }

  /** Some child with this process id has been spawned and has not settled. */
  predicate LiveIn<V>(s: System<V>, pid: nat) { exists i :: 0 <= i < |s.children| && Live(s.children[i], pid) }

  /** No spawn is given the process id of a child that has not settled. */
  ghost predicate FreshPids<V>(env: Env<V>, actions: seq<Action>) {
    forall n :: 0 <= n < |actions| && actions[n].Spawn? && actions[n].pid.Some? ==>
      !LiveIn(Run(env, actions[..n]), actions[n].pid.value)
  }

  ghost predicate NoTwins<V>(s: System<V>) {
    forall i, j, pid: nat ::
      0 <= i < |s.children| && 0 <= j < |s.children| && Live(s.children[i], pid) && Live(s.children[j], pid) ==> i == j
  }

  /** Exactly the groups of the children that are spawned and not settled are tracked, so a signal handler can kill them
      all. */
  lemma {:induction false} TrackedAreLive<V>(env: Env<V>, actions: seq<Action>)
    requires FreshPids(env, actions)
    ensures forall pid :: pid in Run(env, actions).outstanding <==> LiveIn(Run(env, actions), pid)
    ensures NoTwins(Run(env, actions))
  {
    if actions != [] {
      var n := |actions| - 1;
      var front, last := actions[..n], actions[n];
      FreshInPrefix(env, actions, n);
      TrackedAreLive(env, front);
      var s, t := Run(env, front), Run(env, actions);
      if last.Spawn? {
        SpawnKeepsTracking(env, s, last.pid);
      } else if last.i < |s.children| {
        EventKeepsTracking(env, s, last.i, last.e);
      }
    }
  }

  ghost predicate Tracks<V>(s: System<V>) {
    NoTwins(s) && forall pid :: pid in s.outstanding <==> LiveIn(s, pid)
  }

  lemma SpawnKeepsTracking<V>(env: Env<V>, s: System<V>, pid: Option<nat>)
    requires Tracks(s) && (pid.Some? ==> !LiveIn(s, pid.value))
    ensures Tracks(Act(env, s, Spawn(pid)))
  {
    var t := Act(env, s, Spawn(pid));
    var n := |s.children|;
    assert forall i :: 0 <= i < n ==> t.children[i] == s.children[i];
    assert t.children[n] == Born(pid);
    forall p: nat ensures LiveIn(t, p) <==> LiveIn(s, p) || pid == Some(p) {
      if LiveIn(s, p) { var i :| 0 <= i < n && Live(s.children[i], p); assert Live(t.children[i], p); }
      if pid == Some(p) { assert Live(t.children[n], p); }
    }
  }

  lemma EventKeepsTracking<V>(env: Env<V>, s: System<V>, i: nat, e: Event)
    requires Tracks(s) && i < |s.children|
    ensures Tracks(Act(env, s, On(i, e)))
  {
    var t := Act(env, s, On(i, e));
    var c, d := s.children[i], t.children[i];
    AfterKeepsPid(env, c, e);
    assert forall k :: 0 <= k < |s.children| && k != i ==> t.children[k] == s.children[k];
    forall p: nat ensures LiveIn(t, p) <==> LiveIn(s, p) && !(Live(c, p) && d.settled) {
      if LiveIn(t, p) {
        var k :| 0 <= k < |t.children| && Live(t.children[k], p);
        assert Live(s.children[k], p);
      }
      if LiveIn(s, p) && !(Live(c, p) && d.settled) {
        var k :| 0 <= k < |s.children| && Live(s.children[k], p);
        assert Live(t.children[k], p);
      }
    }
  }

  /** Whatever the process ids, nothing dead is tracked. */
  lemma {:induction false} NothingDeadIsTracked<V>(env: Env<V>, actions: seq<Action>, pid: nat)
    requires pid in Run(env, actions).outstanding
    ensures LiveIn(Run(env, actions), pid)
  {
    var front, last := actions[..|actions| - 1], actions[|actions| - 1];
    var s, t := Run(env, front), Run(env, actions);
    if last.Spawn? {
      if pid in s.outstanding {
        NothingDeadIsTracked(env, front, pid);
        var k :| 0 <= k < |s.children| && Live(s.children[k], pid);
        assert Live(t.children[k], pid);
      } else {
        assert Live(t.children[|s.children|], pid);
      }
    } else {
      NothingDeadIsTracked(env, front, pid);
      var k :| 0 <= k < |s.children| && Live(s.children[k], pid);
      if last.i < |s.children| { AfterKeepsPid(env, s.children[last.i], last.e); }
      assert Live(t.children[k], pid);
    }
  }

  /** With a process id used again while its child runs: once that child fails, the second one's group is dropped. */
  lemma ReusedPidIsDropped<V>(env: Env<V>, s: System<V>, j: nat, pid: nat)
    requires j < |s.children| && Live(s.children[j], pid)
    ensures var t := Act(env, Act(env, s, Spawn(Some(pid))), On(j, Error));
            LiveIn(t, pid) && pid !in t.outstanding
  {
    var t := Act(env, Act(env, s, Spawn(Some(pid))), On(j, Error));
    assert Live(t.children[|s.children|], pid);
  }

  ghost predicate TracksLive<V>(s: System<V>) { forall pid :: pid in s.outstanding <==> LiveIn(s, pid) }

  /** At every point, and whichever child fails next, exactly the live groups are tracked. */
  ghost predicate TrackingHolds<V>(env: Env<V>, actions: seq<Action>) {
    forall n: nat, i: nat :: n <= |actions| ==> TracksLive(Act(env, Run(env, actions[..n]), On(i, Error)))
  }

  /** Which is so exactly when no spawn is given the process id of a child that has not settled. */
  lemma TrackingIsExactForFreshPids<V>(env: Env<V>, actions: seq<Action>)
    ensures TrackingHolds(env, actions) <==> FreshPids(env, actions)
  {
    if FreshPids(env, actions) {
      forall n: nat, i: nat | n <= |actions| ensures TracksLive(Act(env, Run(env, actions[..n]), On(i, Error))) {
        FreshInPrefix(env, actions, n);
        TrackedAreLive(env, actions[..n]);
        if i < |Run(env, actions[..n]).children| { EventKeepsTracking(env, Run(env, actions[..n]), i, Error); }
      }
    } else {
      var n :| 0 <= n < |actions| && actions[n].Spawn? && actions[n].pid.Some?
               && LiveIn(Run(env, actions[..n]), actions[n].pid.value);
      var s, pid := Run(env, actions[..n]), actions[n].pid.value;
      var j: nat :| j < |s.children| && Live(s.children[j], pid);
      ReusedPidIsDropped(env, s, j, pid);
      assert actions[..n + 1][..n] == actions[..n] && Run(env, actions[..n + 1]) == Act(env, s, actions[n]);
      assert !TracksLive(Act(env, Run(env, actions[..n + 1]), On(j, Error)));
    }
  }

  lemma FreshInPrefix<V>(env: Env<V>, actions: seq<Action>, n: nat)
    requires FreshPids(env, actions) && n <= |actions|
    ensures FreshPids(env, actions[..n])
  {
    forall k | 0 <= k < n && actions[..n][k].Spawn? && actions[..n][k].pid.Some?
      ensures !LiveIn(Run(env, actions[..n][..k]), actions[..n][k].pid.value)
    {
      assert actions[..n][..k] == actions[..k];
    }
  }

  // ---------------------------------------------------------------------------------------------
  // The closure itself.

  /** The module-level set every call shares. */
  class OutstandingPids {
    var pids: set<nat>

    constructor ()
      ensures pids == {}
    {
      pids := {};
    }
  }

  class BoundedSpawn<V> {
    const env: Env<V>
    const pid: Option<nat>
    const outstanding: OutstandingPids
    var settled: bool
    var bytes: nat
    var buf: string
    var result: Option<V>

    function View(): Child<V>
      reads this
    {
      Child(pid, settled, bytes, buf, result)
    }

    constructor (env: Env<V>, pid: Option<nat>, outstanding: OutstandingPids)
      modifies outstanding
      ensures this.env == env && this.outstanding == outstanding && View() == Born(pid)
      ensures outstanding.pids == Track(old(outstanding.pids), pid)
    {
      this.env, this.pid, this.outstanding := env, pid, outstanding;
      settled, bytes, buf, result := false, 0, [], None;
      new;
      if pid.Some? { outstanding.pids := outstanding.pids + {pid.value}; }
    }

    method Settle(value: V)
      modifies this, outstanding
      ensures View() == Finish(old(View()), value)
      ensures outstanding.pids == if old(settled) then old(outstanding.pids) else Untrack(old(outstanding.pids), pid)
    {
      if settled { return; }
      settled := true;
      if pid.Some? { outstanding.pids := outstanding.pids - {pid.value}; }
      result := Some(value);
    }

    /** The timer and the handlers of `data`, `close` and `error`. */
    method Handle(e: Event)
      modifies this, outstanding
      ensures View() == After(env, old(View()), e)
      ensures outstanding.pids ==
                if settled && !old(settled) then Untrack(old(outstanding.pids), pid) else old(outstanding.pids)
    {
      match e {
        case Data(chunk) =>
          bytes := bytes + |chunk|;
          if bytes > env.maxBytes {
            Settle(env.empty);
            return;
          }
          buf := buf + Decode(chunk);
        case Timeout => Settle(env.empty);
        case Close => Settle(ParseOutput(env, buf));
        case Error => Settle(env.empty);
      }
    }
  }
}
