/** The matching loops of src/assert.ts: multiset and subsequence matching of option labels, and JSON equality. */
module Matching {
  import opened Options

  // ---------------------------------------------------------------------------------------------
  // `sameSet`.

  function Left(counts: map<string, nat>, k: string): nat { if k in counts then counts[k] else 0 }

  method CountLabels(a: seq<string>) returns (counts: map<string, nat>)
    ensures forall k :: Left(counts, k) == multiset(a)[k]
  {
    counts := map[];
    for i := 0 to |a|
      invariant forall k :: Left(counts, k) == multiset(a[..i])[k]
    {
      assert a[..i + 1] == a[..i] + [a[i]];
      counts := counts[a[i] := Left(counts, a[i]) + 1];
    }
    assert a[..|a|] == a;
  }

  method SameSet(a: seq<string>, b: seq<string>) returns (same: bool)
    ensures same <==> multiset(a) == multiset(b)
  {
    if |a| != |b| {
      assert |multiset(a)| == |a| && |multiset(b)| == |b|;
      return false;
    }
    var counts: map<string, nat> := CountLabels(a);
    for i := 0 to |b|
      invariant forall k :: multiset(a)[k] == multiset(b[..i])[k] + Left(counts, k)
    {
      OneMore(b, i);
      if Left(counts, b[i]) == 0 { return false; }
      counts := counts[b[i] := Left(counts, b[i]) - 1];
    }
    assert b[..|b|] == b;
    SameSizeInside(multiset(b), multiset(a));
    return true;
  }

  lemma OneMore(b: seq<string>, i: nat)
    requires i < |b|
    ensures multiset(b[..i + 1]) == multiset(b[..i]) + multiset{b[i]}
    ensures multiset(b)[b[i]] > multiset(b[..i])[b[i]]
  {
    assert b[..i + 1] == b[..i] + [b[i]];
    assert b == b[..i + 1] + b[i + 1..];
  }

  lemma SameSizeInside<T>(x: multiset<T>, y: multiset<T>)
    requires x <= y && |x| == |y|
    ensures x == y
  {
    assert y == x + (y - x);
    assert |y - x| == 0;
  }

  // ---------------------------------------------------------------------------------------------
  // The ordered `contains` scan.

  ghost predicate IsEmbedding(f: seq<int>, want: seq<string>, got: seq<string>) {
    && |f| == |want|
    && (forall k :: 0 <= k < |f| ==> 0 <= f[k] < |got| && got[f[k]] == want[k])
    && (forall k, l :: 0 <= k < l < |f| ==> f[k] < f[l])
  }

  /** The wanted labels appear in this relative order among the offered ones. */
  ghost predicate Embeds(want: seq<string>, got: seq<string>) {
    exists f :: IsEmbedding(f, want, got)
  }

  lemma EmbedsInMore(want: seq<string>, got: seq<string>, l: string)
    requires Embeds(want, got)
    ensures Embeds(want, got + [l])
  {
    var f :| IsEmbedding(f, want, got);
    assert IsEmbedding(f, want, got + [l]);
  }

  lemma EmbedsNext(want: seq<string>, got: seq<string>, l: string)
    requires Embeds(want, got)
    ensures Embeds(want + [l], got + [l])
  {
    var f :| IsEmbedding(f, want, got);
    assert IsEmbedding(f + [|got|], want + [l], got + [l]);
  }

  /** Dropping the last wanted label frees the last offered one. */
  lemma EmbedsBefore(want: seq<string>, w: string, got: seq<string>, l: string)
    requires Embeds(want + [w], got + [l])
    ensures Embeds(want, got)
    ensures w != l ==> Embeds(want + [w], got)
  {
    var f :| IsEmbedding(f, want + [w], got + [l]);
    var n := |want|;
    assert (want + [w])[n] == w && (got + [l])[|got|] == l;
    forall k | 0 <= k < n ensures 0 <= f[k] < |got| && got[f[k]] == want[k] {
      assert f[k] < f[n];
      assert (want + [w])[k] == want[k];
    }
    assert IsEmbedding(f[..n], want, got);
    if w != l {
      assert f[n] < |got|;
      assert IsEmbedding(f, want + [w], got);
    }
  }

  /** The greedy scan finds an embedding whenever there is one. */
  method ScanInOrder(want: seq<string>, got: seq<string>) returns (found: bool)
    ensures found <==> Embeds(want, got)
  {
    var i := 0;
    assert IsEmbedding([], want[..0], got[..0]);
    NothingEmbedsInNothing(want);
    for j := 0 to |got|
      invariant 0 <= i <= |want|
      invariant Embeds(want[..i], got[..j])
      invariant i < |want| ==> !Embeds(want[..i + 1], got[..j])
    {
      var l := got[j];
      assert got[..j + 1] == got[..j] + [l];
      EmbedsInMore(want[..i], got[..j], l);
      if i < |want| {
        assert want[..i + 1] == want[..i] + [want[i]];
        if l == want[i] {
          EmbedsNext(want[..i], got[..j], l);
          if i + 1 < |want| {
            assert want[..i + 2] == want[..i + 1] + [want[i + 1]];
            if Embeds(want[..i + 2], got[..j + 1]) { EmbedsBefore(want[..i + 1], want[i + 1], got[..j], l); }
          }
          i := i + 1;
        } else if Embeds(want[..i + 1], got[..j + 1]) {
          EmbedsBefore(want[..i], want[i], got[..j], l);
        }
      }
    }
    assert got[..|got|] == got && want[..|want|] == want;
    found := i == |want|;
    if !found { PrefixEmbeds(want, i + 1, got); }
  }

  lemma NothingEmbedsInNothing(want: seq<string>)
    ensures want != [] ==> !Embeds(want[..1], [])
  {
    if want != [] {
      forall f: seq<int> | |f| == 1 ensures !IsEmbedding(f, want[..1], []) { var first := f[0]; }
    }
  }

  lemma PrefixEmbeds(want: seq<string>, n: nat, got: seq<string>)
    requires n <= |want|
    ensures Embeds(want, got) ==> Embeds(want[..n], got)
  {
    if Embeds(want, got) {
      var f :| IsEmbedding(f, want, got);
      assert IsEmbedding(f[..n], want[..n], got);
    }
  }

  // ---------------------------------------------------------------------------------------------
  // `question_options`.

  datatype Want = Equals(labels: seq<string>) | Contains(labels: seq<string>)

  /** What "the offered labels are the wanted ones" means in each mode. */
  ghost predicate Offers(got: seq<string>, want: Want, exact: bool) {
    match want
    case Equals(labels) => if exact then got == labels else multiset(got) == multiset(labels)
    case Contains(labels) => if exact then Embeds(labels, got) else forall w :: w in labels ==> w in got
  }

  method OffersExpected(got: seq<string>, want: Want, exact: bool) returns (offers: bool)
    ensures offers <==> Offers(got, want, exact)
  {
    match want {
      case Equals(labels) =>
        if exact { return got == labels; }
        offers := SameSet(got, labels);
      case Contains(labels) =>
        for i := 0 to |labels|
          invariant forall k :: 0 <= k < i ==> labels[k] in got
        {
          if labels[i] !in got {
            if exact { EmbeddedAreOffered(labels, got, labels[i]); }
            return false;
          }
        }
        if !exact { return true; }
        offers := ScanInOrder(labels, got);
    }
  }

  lemma EmbeddedAreOffered(want: seq<string>, got: seq<string>, w: string)
    requires w in want
    ensures Embeds(want, got) ==> w in got
  {
    if Embeds(want, got) {
      var f :| IsEmbedding(f, want, got);
      var k :| 0 <= k < |want| && want[k] == w;
      assert got[f[k]] == w;
    }
  }

  datatype Gate = Gate(question: string, labels: seq<string>)

  datatype Verdict = Pass | Fail | Unavailable

  /** `gates` is absent when the lane records no gate options; `selects` is the `when_question` regex. */
  method QuestionOptions(gates: Option<seq<Gate>>, selects: Option<string -> bool>, want: Want, exact: bool)
    returns (v: Verdict)
    ensures v.Unavailable? <==> gates.None?
    ensures v.Pass? <==>
              && gates.Some?
              && (selects.None? ==> |gates.value| == 1)
              && exists g :: g in gates.value && (selects.Some? ==> selects.value(g.question))
                   && Offers(g.labels, want, exact)
  {
    if gates.None? { return Unavailable; }
    var all := gates.value;
    if selects.None? && |all| > 1 { return Fail; }
    for i := 0 to |all|
      invariant forall k :: 0 <= k < i ==>
                !((selects.Some? ==> selects.value(all[k].question)) && Offers(all[k].labels, want, exact))
    {
      if selects.None? || selects.value(all[i].question) {
        var hit := OffersExpected(all[i].labels, want, exact);
        if hit {
          assert all[i] in all;
          return Pass;
        }
      }
    }
    return Fail;
  }

  // ---------------------------------------------------------------------------------------------
  // JSON equality.

  datatype Json = Null | Bool(b: bool) | Num(n: real) | Str(s: string) | Arr(items: seq<Json>) | Obj(fields: seq<Field>)

  datatype Field = Field(key: string, value: Json)

  /** The position of a key among the fields, or their number. */
  function KeyIndex(fields: seq<Field>, key: string): (i: nat)
    ensures i <= |fields|
    ensures i < |fields| ==> fields[i].key == key
    ensures forall k :: 0 <= k < i ==> fields[k].key != key
  {
    if fields == [] || fields[0].key == key then 0
    else
      var i := KeyIndex(fields[1..], key);
      assert forall k :: 1 <= k <= i ==> fields[k] == fields[1..][k - 1];
      i + 1
  }

  predicate HasKey(fields: seq<Field>, key: string) { KeyIndex(fields, key) < |fields| }

  /** An object holds each key once. */
  predicate Valid(j: Json)
    decreases j
  {
    match j
    case Arr(items) => forall i :: 0 <= i < |items| ==> Valid(items[i])
    case Obj(fields) =>
      && (forall i, k :: 0 <= i < k < |fields| ==> fields[i].key != fields[k].key)
      && (forall i :: 0 <= i < |fields| ==> Valid(fields[i].value))
    case _ => true
  }

  /** The recursive comparison: key order ignored, array order significant. Each loop that returns false at its first
      failure is the conjunction over its iterations. */
  predicate DeepJsonEqual(a: Json, b: Json)
    decreases a
  {
    match (a, b)
    case (Arr(xs), Arr(ys)) => |xs| == |ys| && forall i :: 0 <= i < |xs| ==> DeepJsonEqual(xs[i], ys[i])
    case (Obj(fs), Obj(gs)) =>
      && |fs| == |gs|
      && forall i :: 0 <= i < |fs| ==>
           HasKey(gs, fs[i].key) && DeepJsonEqual(fs[i].value, gs[KeyIndex(gs, fs[i].key)].value)
    case (_, _) => a == b
  }

  /** What a JSON text means: an object is a finite map, an array a sequence. */
  datatype Meaning = MNull | MBool(b: bool) | MNum(n: real) | MStr(s: string) | MArr(items: seq<Meaning>)
                     | MObj(fields: map<string, Meaning>)

  function KeySet(fields: seq<Field>): set<string> { set f | f in fields :: f.key }

  lemma KeySetIsHasKey(fields: seq<Field>, key: string)
    ensures key in KeySet(fields) <==> HasKey(fields, key)
  {
    if HasKey(fields, key) { assert fields[KeyIndex(fields, key)] in fields; }
  }

  ghost function Means(j: Json): Meaning
    decreases j
  {
    match j
    case Null => MNull
    case Bool(b) => MBool(b)
    case Num(n) => MNum(n)
    case Str(s) => MStr(s)
    case Arr(items) => MArr(seq(|items|, i requires 0 <= i < |items| => Means(items[i])))
    case Obj(fields) =>
      MObj(map k | k in KeySet(fields) && HasKey(fields, k) :: Means(fields[KeyIndex(fields, k)].value))
  }

  lemma {:induction false} EqualMeansSame(a: Json, b: Json)
    requires Valid(a) && Valid(b)
    ensures DeepJsonEqual(a, b) <==> Means(a) == Means(b)
    decreases a
  {
    match (a, b)
    case (Arr(xs), Arr(ys)) =>
      forall i | 0 <= i < |xs| && i < |ys| ensures DeepJsonEqual(xs[i], ys[i]) <==> Means(xs[i]) == Means(ys[i]) {
        EqualMeansSame(xs[i], ys[i]);
      }
      ArraysMeanSame(xs, ys);
    case (Obj(fs), Obj(gs)) =>
      forall i, j | 0 <= i < |fs| && 0 <= j < |gs|
        ensures DeepJsonEqual(fs[i].value, gs[j].value) <==> Means(fs[i].value) == Means(gs[j].value)
      {
        EqualMeansSame(fs[i].value, gs[j].value);
      }
      ObjectsMeanSame(fs, gs);
    case (_, _) =>
  }

  lemma ArraysMeanSame(xs: seq<Json>, ys: seq<Json>)
    ensures Means(Arr(xs)) == Means(Arr(ys)) <==>
              |xs| == |ys| && forall i :: 0 <= i < |xs| ==> Means(xs[i]) == Means(ys[i])
  {
    var ms, ns := Means(Arr(xs)).items, Means(Arr(ys)).items;
    assert |ms| == |xs| && forall i :: 0 <= i < |xs| ==> ms[i] == Means(xs[i]);
    assert |ns| == |ys| && forall i :: 0 <= i < |ys| ==> ns[i] == Means(ys[i]);
    if |xs| == |ys| && forall i :: 0 <= i < |xs| ==> Means(xs[i]) == Means(ys[i]) { assert ms == ns; }
  }

  lemma KeyIndexIsUnique(fields: seq<Field>, i: nat)
    requires Valid(Obj(fields)) && i < |fields|
    ensures KeyIndex(fields, fields[i].key) == i
  {
  }

  lemma {:induction false} KeySetSize(fields: seq<Field>)
    requires forall i, k :: 0 <= i < k < |fields| ==> fields[i].key != fields[k].key
    ensures |KeySet(fields)| == |fields|
  {
    if fields != [] {
      KeySetSize(fields[1..]);
      assert KeySet(fields) == {fields[0].key} + KeySet(fields[1..]) by {
        assert forall f :: f in fields <==> f == fields[0] || f in fields[1..];
      }
      forall f | f in fields[1..]
        ensures f.key != fields[0].key
      {
        var k :| 0 <= k < |fields[1..]| && fields[1..][k] == f;
      }
    }
  }

  /** `m` holds each key of the fields with its meaning, and nothing else. */
  ghost predicate Denotes(m: map<string, Meaning>, fields: seq<Field>) {
    && m.Keys == KeySet(fields)
    && forall i :: 0 <= i < |fields| ==> fields[i].key in m && m[fields[i].key] == Means(fields[i].value)
  }

  lemma MeansDenotes(fields: seq<Field>)
    requires Valid(Obj(fields))
    ensures Denotes(Means(Obj(fields)).fields, fields)
  {
    forall k ensures k in KeySet(fields) <==> HasKey(fields, k) { KeySetIsHasKey(fields, k); }
    forall i | 0 <= i < |fields| ensures KeyIndex(fields, fields[i].key) == i { KeyIndexIsUnique(fields, i); }
  }

  /** Two objects mean the same map exactly when they have as many keys, and each key of the first is one of the second
      with the same meaning. */
  lemma ObjectsMeanSame(fs: seq<Field>, gs: seq<Field>)
    requires Valid(Obj(fs)) && Valid(Obj(gs))
    ensures Means(Obj(fs)) == Means(Obj(gs)) <==>
            |fs| == |gs| && forall i :: 0 <= i < |fs| ==>
              HasKey(gs, fs[i].key) && Means(fs[i].value) == Means(gs[KeyIndex(gs, fs[i].key)].value)
  {
    MeansDenotes(fs);
    MeansDenotes(gs);
    var m, n := Means(Obj(fs)).fields, Means(Obj(gs)).fields;
    KeySetSize(fs);
    KeySetSize(gs);
    assert |m| == |m.Keys| && |n| == |n.Keys|;
    MapsAgree(m, n);
    forall i | 0 <= i < |fs|
      ensures fs[i].key in m
      ensures HasKey(gs, fs[i].key) <==> fs[i].key in n
      ensures HasKey(gs, fs[i].key) ==>
                (m[fs[i].key] == n[fs[i].key] <==> Means(fs[i].value) == Means(gs[KeyIndex(gs, fs[i].key)].value))
    {
      KeyMeansSame(m, n, fs, gs, i);
    }
    assert forall k :: k in m ==> exists i :: 0 <= i < |fs| && fs[i].key == k;
  }

  lemma KeyMeansSame(m: map<string, Meaning>, n: map<string, Meaning>, fs: seq<Field>, gs: seq<Field>, i: nat)
    requires Denotes(m, fs) && Denotes(n, gs) && i < |fs|
    ensures fs[i].key in m
    ensures HasKey(gs, fs[i].key) <==> fs[i].key in n
    ensures HasKey(gs, fs[i].key) ==>
              (m[fs[i].key] == n[fs[i].key] <==> Means(fs[i].value) == Means(gs[KeyIndex(gs, fs[i].key)].value))
  {
    KeySetIsHasKey(gs, fs[i].key);
    assert HasKey(gs, fs[i].key) ==> gs[KeyIndex(gs, fs[i].key)].key == fs[i].key;
  }

  lemma MapsAgree(m: map<string, Meaning>, n: map<string, Meaning>)
    ensures m == n <==> |m.Keys| == |n.Keys| && forall k :: k in m ==> k in n && m[k] == n[k]
  {
    if |m.Keys| == |n.Keys| && forall k :: k in m ==> k in n && m[k] == n[k] {
      SameSizeInside(multiset(m.Keys), multiset(n.Keys));
      assert forall k :: k in n <==> k in multiset(n.Keys);
    }
  }

  /** JSON equality is an equivalence. */
  lemma DeepJsonEqualIsEquivalence(a: Json, b: Json, c: Json)
    requires Valid(a) && Valid(b) && Valid(c)
    ensures DeepJsonEqual(a, a)
    ensures DeepJsonEqual(a, b) ==> DeepJsonEqual(b, a)
    ensures DeepJsonEqual(a, b) && DeepJsonEqual(b, c) ==> DeepJsonEqual(a, c)
  {
    EqualMeansSame(a, a);
    EqualMeansSame(a, b);
    EqualMeansSame(b, a);
    EqualMeansSame(b, c);
    EqualMeansSame(a, c);
  }
}
