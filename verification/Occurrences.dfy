/** `countStringInBuffer` (src/baseline.ts): the greedy left-to-right count is the largest number of occurrences that do
    not overlap. */
module Occurrences {
  import opened Options

  type Byte = b: int | 0 <= b < 256

  predicate OccursAt(buf: seq<Byte>, needle: seq<Byte>, i: int) {
    0 <= i && i + |needle| <= |buf| && buf[i..i + |needle|] == needle
  }

  /** The needle stands there, between what comes before and after. */
  lemma OccursIs(buf: seq<Byte>, needle: seq<Byte>, i: nat)
    ensures OccursAt(buf, needle, i) <==> exists before, after :: |before| == i && buf == before + needle + after
  {
    if OccursAt(buf, needle, i) { assert buf == buf[..i] + needle + buf[i + |needle|..]; }
  }

  /** `buf.indexOf(needle, from)`: the first occurrence at or after `from`. */
  method IndexOf(buf: seq<Byte>, needle: seq<Byte>, from: nat) returns (r: Option<nat>)
    ensures r.Some? ==> r.value >= from && OccursAt(buf, needle, r.value)
    ensures NoneFrom(buf, needle, from, if r.Some? then r.value else |buf| + 1)
  {
    var i := from;
    while i + |needle| <= |buf|
      invariant from <= i
      invariant forall k :: from <= k < i ==> !OccursAt(buf, needle, k)
    {
      if OccursAt(buf, needle, i) { return Some(i); }
      i := i + 1;
    }
    return None;
  }

  /** A choice of occurrences no two of which overlap. */
  ghost predicate Packing(buf: seq<Byte>, needle: seq<Byte>, chosen: set<nat>) {
    && (forall p :: p in chosen ==> OccursAt(buf, needle, p))
    && (forall p, q :: p in chosen && q in chosen && p < q ==> p + |needle| <= q)
  }

  ghost predicate Before(chosen: set<nat>, end: int) { forall p :: p in chosen ==> p < end }

  /** No packing within `end` has more than n occurrences. */
  ghost predicate AtMost(buf: seq<Byte>, needle: seq<Byte>, end: int, n: nat) {
    forall other :: Packing(buf, needle, other) && Before(other, end) ==> |other| <= n
  }

  ghost predicate NoneFrom(buf: seq<Byte>, needle: seq<Byte>, from: int, to: int) {
    forall k :: from <= k < to ==> !OccursAt(buf, needle, k)
  }

  /** The count terminates, some choice of that many occurrences does not overlap, and no larger one does not. */
  method CountStringInBuffer(buf: seq<Byte>, needle: seq<Byte>) returns (n: nat)
    ensures needle == [] ==> n == 0
    ensures needle != [] ==> exists chosen :: Packing(buf, needle, chosen) && |chosen| == n
    ensures needle != [] ==> forall chosen :: Packing(buf, needle, chosen) ==> |chosen| <= n
  {
    if |needle| == 0 { return 0; }
    n := 0;
    ghost var chosen: set<nat>, end := {}, 0;
    var i := IndexOf(buf, needle, 0);
    while i.Some?
      invariant Packing(buf, needle, chosen) && |chosen| == n
      invariant 0 <= end <= |buf| && Before(chosen, end - |needle| + 1)
      invariant AtMost(buf, needle, end, n)
      invariant i.Some? ==> i.value >= end && OccursAt(buf, needle, i.value)
      invariant NoneFrom(buf, needle, end, if i.Some? then i.value else |buf| + 1)
      decreases |buf| - end, if i.Some? then 1 else 0
    {
      AtMostOneMore(buf, needle, end, i.value, n);
      n := n + 1;
      chosen, end := chosen + {i.value}, i.value + |needle|;
      i := IndexOf(buf, needle, i.value + |needle|);
    }
    AtMostInAll(buf, needle, end, n);
  }

  lemma AtMostInAll(buf: seq<Byte>, needle: seq<Byte>, end: int, n: nat)
    requires AtMost(buf, needle, end, n) && NoneFrom(buf, needle, end, |buf| + 1)
    ensures forall other :: Packing(buf, needle, other) ==> |other| <= n
  {
    forall other | Packing(buf, needle, other) ensures |other| <= n {
      forall p | p in other ensures p < end { assert OccursAt(buf, needle, p); }
      assert Before(other, end);
    }
  }

  /** The exchange step of the greedy argument, for the bound. */
  lemma AtMostOneMore(buf: seq<Byte>, needle: seq<Byte>, end: int, i: int, n: nat)
    requires AtMost(buf, needle, end, n) && end <= i && NoneFrom(buf, needle, end, i)
    ensures AtMost(buf, needle, i + |needle|, n + 1)
  {
    forall other | Packing(buf, needle, other) && Before(other, i + |needle|) ensures |other| <= n + 1 {
      OneMore(buf, needle, other, end, i);
    }
  }

  /** Up to the end of the first occurrence i past `end`, a packing has at most one occurrence more than
      before `end`. */
  lemma OneMore(buf: seq<Byte>, needle: seq<Byte>, other: set<nat>, end: int, i: int)
    requires Packing(buf, needle, other) && Before(other, i + |needle|) && end <= i
    requires NoneFrom(buf, needle, end, i)
    ensures exists early :: Packing(buf, needle, early) && Before(early, end) && |other| <= |early| + 1
  {
    var early := set p | p in other && p < end;
    var late := other - early;
    assert other == early + late;
    forall p, q | p in late && q in late ensures p == q {
      assert OccursAt(buf, needle, p) && OccursAt(buf, needle, q);
      assert i <= p < i + |needle| && i <= q < i + |needle|;
    }
    AtMostOne(late);
    assert Packing(buf, needle, early) && Before(early, end);
  }

  lemma AtMostOne(s: set<nat>)
    requires forall p, q :: p in s && q in s ==> p == q
    ensures |s| <= 1
  {
    if s != {} {
      var p :| p in s;
      assert s == {p};
    }
  }
}
