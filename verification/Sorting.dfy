/** `Array.prototype.sort`: a stable sort by a comparator, and when its result does not depend on the order given. */
module Sorting {

  ghost predicate TotalPreorder<T(!new)>(le: (T, T) -> bool) {
    (forall x, y :: le(x, y) || le(y, x)) && forall x, y, z :: le(x, y) && le(y, z) ==> le(x, z)
  }

  ghost predicate Sorted<T>(s: seq<T>, le: (T, T) -> bool) {
    forall i, j :: 0 <= i < j < |s| ==> le(s[i], s[j])
  }

  /** `x` goes after everything it does not precede. */
  function Insert<T>(s: seq<T>, x: T, le: (T, T) -> bool): seq<T> {
    if s == [] || le(s[|s| - 1], x) then s + [x] else Insert(s[..|s| - 1], x, le) + [s[|s| - 1]]
  }

  function SortBy<T>(s: seq<T>, le: (T, T) -> bool): seq<T> {
    if s == [] then [] else Insert(SortBy(s[..|s| - 1], le), s[|s| - 1], le)
  }

  lemma {:induction false} InsertKeeps<T>(s: seq<T>, x: T, le: (T, T) -> bool)
    ensures multiset(Insert(s, x, le)) == multiset(s) + multiset{x}
  {
    if s != [] && !le(s[|s| - 1], x) {
      InsertKeeps(s[..|s| - 1], x, le);
      assert s == s[..|s| - 1] + [s[|s| - 1]];
    }
  }

  lemma {:induction false} SortKeeps<T>(s: seq<T>, le: (T, T) -> bool)
    ensures multiset(SortBy(s, le)) == multiset(s)
    ensures |SortBy(s, le)| == |s|
  {
    if s != [] {
      SortKeeps(s[..|s| - 1], le);
      InsertKeeps(SortBy(s[..|s| - 1], le), s[|s| - 1], le);
      assert s == s[..|s| - 1] + [s[|s| - 1]];
    }
    assert |multiset(SortBy(s, le))| == |SortBy(s, le)| && |multiset(s)| == |s|;
  }

  lemma {:induction false} InsertSorts<T(!new)>(s: seq<T>, x: T, le: (T, T) -> bool)
    requires TotalPreorder(le) && Sorted(s, le)
    ensures Sorted(Insert(s, x, le), le)
  {
    if s != [] {
      var front, last := s[..|s| - 1], s[|s| - 1];
      if le(last, x) {
        forall i | 0 <= i < |s| ensures le(s[i], x) {
          if i < |s| - 1 { assert le(s[i], last); }
        }
      } else {
        InsertSorts(front, x, le);
        InsertKeeps(front, x, le);
        var r := Insert(front, x, le);
        forall i | 0 <= i < |r| ensures le(r[i], last) {
          assert r[i] in multiset(r);
          if r[i] != x {
            assert r[i] in multiset(front);
            var k :| 0 <= k < |front| && front[k] == r[i];
            assert s[k] == front[k];
          }
        }
      }
    }
  }

  lemma {:induction false} SortSorts<T(!new)>(s: seq<T>, le: (T, T) -> bool)
    requires TotalPreorder(le)
    ensures Sorted(SortBy(s, le), le)
  {
    if s != [] {
      SortSorts(s[..|s| - 1], le);
      InsertSorts(SortBy(s[..|s| - 1], le), s[|s| - 1], le);
    }
  }

  /** No two different elements of `s` compare equal. */
  ghost predicate Strict<T>(s: seq<T>, le: (T, T) -> bool) {
    forall i, j :: 0 <= i < |s| && 0 <= j < |s| && le(s[i], s[j]) && le(s[j], s[i]) ==> s[i] == s[j]
  }

  lemma HeadsAgree<T>(s: seq<T>, t: seq<T>, le: (T, T) -> bool)
    requires Sorted(s, le) && Sorted(t, le) && multiset(s) == multiset(t) && Strict(s, le) && s != [] && t != []
    ensures s[0] == t[0]
  {
    assert t[0] in multiset(s) && s[0] in multiset(t);
    var i :| 0 <= i < |s| && s[i] == t[0];
    var j :| 0 <= j < |t| && t[j] == s[0];
    if i > 0 && j > 0 { assert le(s[0], s[i]) && le(s[i], s[0]); }
  }

  lemma DropHead<T>(s: seq<T>)
    requires s != []
    ensures multiset(s[1..]) == multiset(s) - multiset{s[0]}
  {
    assert s == [s[0]] + s[1..];
  }

  lemma {:induction false} SortedIsUnique<T>(s: seq<T>, t: seq<T>, le: (T, T) -> bool)
    requires Sorted(s, le) && Sorted(t, le) && multiset(s) == multiset(t) && Strict(s, le)
    ensures s == t
  {
    assert |multiset(s)| == |s| && |multiset(t)| == |t|;
    if s != [] {
      HeadsAgree(s, t, le);
      DropHead(s);
      DropHead(t);
      SortedIsUnique(s[1..], t[1..], le);
      assert s == [s[0]] + s[1..] && t == [t[0]] + t[1..];
    }
  }

  /** Under a comparator that is strict on the elements, the listing order does not matter. */
  lemma SortForgetsOrder<T(!new)>(s: seq<T>, t: seq<T>, le: (T, T) -> bool)
    requires TotalPreorder(le) && multiset(s) == multiset(t) && Strict(s, le)
    ensures SortBy(s, le) == SortBy(t, le)
  {
    SortSorts(s, le);
    SortSorts(t, le);
    SortKeeps(s, le);
    SortKeeps(t, le);
    var u := SortBy(s, le);
    forall i, j | 0 <= i < |u| && 0 <= j < |u| && le(u[i], u[j]) && le(u[j], u[i]) ensures u[i] == u[j] {
      assert u[i] in multiset(s) && u[j] in multiset(s);
      var k :| 0 <= k < |s| && s[k] == u[i];
      var l :| 0 <= l < |s| && s[l] == u[j];
    }
    SortedIsUnique(u, SortBy(t, le), le);
  }

  function Keep<T>(s: seq<T>, p: T -> bool): seq<T> {
    if s == [] then []
    else Keep(s[..|s| - 1], p) + if p(s[|s| - 1]) then [s[|s| - 1]] else []
  }

  lemma {:induction false} KeepOfTwo<T>(s: seq<T>, t: seq<T>, p: T -> bool)
    ensures Keep(s + t, p) == Keep(s, p) + Keep(t, p)
  {
    if t == [] {
      assert s + t == s;
    } else {
      var n := |t| - 1;
      KeepOfTwo(s, t[..n], p);
      assert (s + t)[..|s + t| - 1] == s + t[..n] && (s + t)[|s + t| - 1] == t[n];
    }
  }

  lemma {:induction false} KeepNone<T>(s: seq<T>, p: T -> bool)
    requires forall i :: 0 <= i < |s| ==> !p(s[i])
    ensures Keep(s, p) == []
  {
    if s != [] { KeepNone(s[..|s| - 1], p); }
  }

  lemma {:induction false} KeepFirst<T>(s: seq<T>, p: T -> bool, i: nat)
    requires i < |s| && p(s[i]) && forall k :: 0 <= k < i ==> !p(s[k])
    ensures Keep(s, p) != [] && Keep(s, p)[0] == s[i]
  {
    var front := s[..|s| - 1];
    if i == |s| - 1 { KeepNone(front, p); } else { KeepFirst(front, p, i); }
  }

  lemma KeepFront<T>(x: T, y: T, t: seq<T>, p: T -> bool)
    requires p(x) && p(y)
    ensures Keep([x, y] + t, p) == [x, y] + Keep(t, p)
  {
    KeepOfTwo([x, y], t, p);
    assert [x, y][..1] == [x] && [x][..0] == [];
    assert Keep([x], p) == [x] && Keep([x, y], p) == [x, y];
  }

  /** Elements that all compare equal. */
  ghost predicate Tied<T(!new)>(p: T -> bool, le: (T, T) -> bool) {
    forall x, y :: p(x) && p(y) ==> le(x, y)
  }

  lemma {:induction false} InsertKeepsTies<T(!new)>(s: seq<T>, x: T, le: (T, T) -> bool, p: T -> bool)
    requires Tied(p, le)
    ensures Keep(Insert(s, x, le), p) == Keep(s, p) + if p(x) then [x] else []
  {
    if s != [] && !le(s[|s| - 1], x) {
      InsertKeepsTies(s[..|s| - 1], x, le, p);
      assert !(p(s[|s| - 1]) && p(x));
    }
  }

  /** The sort is stable: elements that compare equal stay in the order they were given. */
  lemma {:induction false} SortIsStable<T(!new)>(s: seq<T>, le: (T, T) -> bool, p: T -> bool)
    requires Tied(p, le)
    ensures Keep(SortBy(s, le), p) == Keep(s, p)
  {
    if s != [] {
      SortIsStable(s[..|s| - 1], le, p);
      InsertKeepsTies(SortBy(s[..|s| - 1], le), s[|s| - 1], le, p);
    }
  }

  /** What each element contributes, in order. */
  function Gather<T, U>(s: seq<T>, f: T -> seq<U>): seq<U> {
    if s == [] then [] else Gather(s[..|s| - 1], f) + f(s[|s| - 1])
  }

  function Without<T>(s: seq<T>, i: nat): seq<T>
    requires i < |s|
  {
    s[..i] + s[i + 1..]
  }

  lemma {:induction false} GatherWithout<T, U>(s: seq<T>, i: nat, f: T -> seq<U>)
    requires i < |s|
    ensures multiset(Gather(s, f)) == multiset(Gather(Without(s, i), f)) + multiset(f(s[i]))
  {
    var n := |s| - 1;
    if i < n {
      GatherWithout(s[..n], i, f);
      assert Without(s, i)[..n - 1] == Without(s[..n], i);
      assert Without(s, i)[n - 1] == s[n];
    } else {
      assert Without(s, i) == s[..n];
    }
  }

  lemma WithoutKeeps<T>(s: seq<T>, i: nat)
    requires i < |s|
    ensures multiset(Without(s, i)) == multiset(s) - multiset{s[i]}
  {
    assert s == s[..i] + [s[i]] + s[i + 1..];
    assert multiset(s) == multiset(Without(s, i)) + multiset{s[i]};
  }

  lemma InFront<T>(s: seq<T>, x: T) returns (rest: seq<T>)
    requires x in s
    ensures multiset(s) == multiset{x} + multiset(rest)
  {
    var i: nat :| i < |s| && s[i] == x;
    WithoutKeeps(s, i);
    assert s[i] in multiset(s);
    rest := Without(s, i);
  }

  /** Any two elements can come first, either way round. */
  lemma TwoInFront<T>(s: seq<T>, x: T, y: T) returns (rest: seq<T>)
    requires x in s && y in s && x != y
    ensures multiset([x, y] + rest) == multiset(s) && multiset([y, x] + rest) == multiset(s)
  {
    var less := InFront(s, x);
    assert y in multiset(s);
    assert y in multiset(less);
    rest := InFront(less, y);
  }

  lemma {:induction false} GatherForgetsOrder<T, U>(s: seq<T>, t: seq<T>, f: T -> seq<U>)
    requires multiset(s) == multiset(t)
    ensures multiset(Gather(s, f)) == multiset(Gather(t, f))
  {
    assert |multiset(s)| == |s| && |multiset(t)| == |t|;
    if s != [] {
      var n := |s| - 1;
      assert s[n] in multiset(t);
      var i :| 0 <= i < |t| && t[i] == s[n];
      WithoutKeeps(s, n);
      WithoutKeeps(t, i);
      assert Without(s, n) == s[..n];
      GatherForgetsOrder(s[..n], Without(t, i), f);
      GatherWithout(t, i, f);
    }
  }

  lemma {:induction false} GatherOfTwo<T, U>(s: seq<T>, t: seq<T>, f: T -> seq<U>)
    ensures Gather(s + t, f) == Gather(s, f) + Gather(t, f)
  {
    if t == [] {
      assert s + t == s;
    } else {
      var n := |t| - 1;
      GatherOfTwo(s, t[..n], f);
      GatherLast(s + t, s + t[..n], f);
    }
  }

  lemma GatherLast<T, U>(s: seq<T>, front: seq<T>, f: T -> seq<U>)
    requires s != [] && front == s[..|s| - 1]
    ensures Gather(s, f) == Gather(front, f) + f(s[|s| - 1])
  {}
}
