/** Dotted version strings (src/baseline.ts): `cmpVersionStrings` and `isPatchBump`. */
module Versions {
  import opened Decimal
  import opened Options

  // ---------------------------------------------------------------------------------------------
  // Segments.

  function SplitDots(s: string): (r: seq<string>)
    ensures r != []
  {
    if s == "" then [""]
    else
      var rest := SplitDots(s[1..]);
      if s[0] == '.' then [""] + rest else [[s[0]] + rest[0]] + rest[1..]
  }

  function DigitPrefix(s: string): (r: string)
    ensures AllDigits(r)
  {
    if s != "" && IsDigit(s[0]) then [s[0]] + DigitPrefix(s[1..]) else ""
  }

  /** `parseInt(s, 10)`, or 0 where that is not a number: leading white space, a sign, then the longest run of
      digits. */
  function ParseInt(s: string): int {
    if s != "" && IsSpace(s[0]) then ParseInt(s[1..])
    else if s != "" && s[0] == '-' then 0 - Value(DigitPrefix(s[1..]))
    else if s != "" && s[0] == '+' then Value(DigitPrefix(s[1..]))
    else Value(DigitPrefix(s))
  }

  lemma {:induction false} DigitPrefixOf(s: string, rest: string)
    requires AllDigits(s) && (rest == "" || !IsDigit(rest[0]))
    ensures DigitPrefix(s + rest) == s
  {
    if s == "" {
      assert s + rest == rest;
    } else {
      assert (s + rest)[1..] == s[1..] + rest;
      DigitPrefixOf(s[1..], rest);
    }
  }

  /** A numeral is read as its number, up to the first character that is not a digit; a minus sign negates it. */
  lemma ParseIntReads(n: nat, rest: string)
    requires rest == "" || !IsDigit(rest[0])
    ensures ParseInt(Digits(n) + rest) == n
    ensures ParseInt(['+'] + (Digits(n) + rest)) == n && ParseInt(['-'] + (Digits(n) + rest)) == 0 - n
  {
    var digits := Digits(n);
    var s := digits + rest;
    assert Value(DigitPrefix(s)) == n by {
      DigitPrefixOf(digits, rest);
      ValueOfDigits(n);
    }
    assert IsDigit(s[0]) && !IsSpace(s[0]);
    Signed('+', s);
    Signed('-', s);
  }

  lemma Signed(sign: char, s: string)
    requires sign in {'+', '-'}
    ensures ParseInt([sign] + s) == if sign == '-' then 0 - Value(DigitPrefix(s)) else Value(DigitPrefix(s))
  {
    assert ([sign] + s)[1..] == s && !IsSpace(sign);
  }

  /** Leading white space does not count, and a segment with no numeral is 0. */
  lemma {:induction false} ParseIntSkips(space: string, s: string)
    requires forall i :: 0 <= i < |space| ==> IsSpace(space[i])
    ensures ParseInt(space + s) == ParseInt(s)
    ensures s == "" || !(IsSpace(s[0]) || IsDigit(s[0]) || s[0] == '-' || s[0] == '+') ==> ParseInt(space + s) == 0
  {
    if space == "" {
      assert space + s == s;
    } else {
      assert (space + s)[1..] == space[1..] + s;
      ParseIntSkips(space[1..], s);
    }
  }

  /** The numbers written with dots between them. */
  function Dotted(ns: seq<nat>): string
    requires ns != []
  {
    if |ns| == 1 then Digits(ns[0]) else Digits(ns[0]) + "." + Dotted(ns[1..])
  }

  lemma {:induction false} SplitSegment(s: string, rest: string)
    requires '.' !in s
    ensures SplitDots(s) == [s] && SplitDots(s + "." + rest) == [s] + SplitDots(rest)
  {
    var t := s + "." + rest;
    if s == "" {
      assert t[1..] == rest;
    } else {
      assert t[1..] == s[1..] + "." + rest;
      SplitSegment(s[1..], rest);
      assert [s[0]] + s[1..] == s;
    }
  }

  /** A version of plain numbers is read back number by number. */
  lemma {:induction false} SegmentsOfDotted(ns: seq<nat>)
    requires ns != []
    ensures |Segments(Dotted(ns))| == |ns| && forall i :: 0 <= i < |ns| ==> Segments(Dotted(ns))[i] == ns[i]
  {
    var s := Digits(ns[0]);
    assert s + "" == s;
    ParseIntReads(ns[0], "");
    if |ns| == 1 {
      SplitSegment(s, "");
    } else {
      SplitSegment(s, Dotted(ns[1..]));
      SegmentsOfDotted(ns[1..]);
    }
  }

  function Segments(v: string): (r: seq<int>)
    ensures |r| == |SplitDots(v)| && forall i :: 0 <= i < |r| ==> r[i] == ParseInt(SplitDots(v)[i])
  {
    seq(|SplitDots(v)|, i requires 0 <= i < |SplitDots(v)| => ParseInt(SplitDots(v)[i]))
  }

  /** A missing segment counts as 0. */
  function At(s: seq<int>, i: nat): int { if i < |s| then s[i] else 0 }

  // ---------------------------------------------------------------------------------------------
  // The order: the first differing segment decides.

  ghost predicate DiffersFirstAt(a: seq<int>, b: seq<int>, i: nat) {
    At(a, i) != At(b, i) && forall k: nat :: k < i ==> At(a, k) == At(b, k)
  }

  ghost predicate Same(a: seq<int>, b: seq<int>) { forall i: nat :: At(a, i) == At(b, i) }

  ghost predicate Older(a: string, b: string) {
    exists i: nat :: DiffersFirstAt(Segments(a), Segments(b), i) && At(Segments(a), i) < At(Segments(b), i)
  }

  ghost predicate SameVersion(a: string, b: string) { Same(Segments(a), Segments(b)) }

  function Longer(a: seq<int>, b: seq<int>): nat { if |a| < |b| then |b| else |a| }

  /** The comparison from segment i on. */
  function CmpFrom(a: seq<int>, b: seq<int>, i: nat): int
    decreases Longer(a, b) - i
  {
    if i >= Longer(a, b) then 0
    else if At(a, i) != At(b, i) then At(a, i) - At(b, i)
    else CmpFrom(a, b, i + 1)
  }

  function Cmp(a: string, b: string): int { CmpFrom(Segments(a), Segments(b), 0) }

  method CmpVersionStrings(a: string, b: string) returns (diff: int)
    ensures diff == Cmp(a, b)
    ensures diff < 0 <==> Older(a, b)
    ensures diff > 0 <==> Older(b, a)
    ensures diff == 0 <==> SameVersion(a, b)
  {
    var segA, segB := Segments(a), Segments(b);
    CmpMeans(a, b);
    for i := 0 to Longer(segA, segB)
      invariant CmpFrom(segA, segB, i) == CmpFrom(segA, segB, 0)
    {
      diff := At(segA, i) - At(segB, i);
      if diff != 0 { return diff; }
    }
    return 0;
  }

  lemma {:induction false} CmpFromMeans(a: seq<int>, b: seq<int>, i: nat)
    requires forall k: nat :: k < i ==> At(a, k) == At(b, k)
    ensures CmpFrom(a, b, i) == 0 ==> Same(a, b)
    ensures CmpFrom(a, b, i) != 0 ==>
              exists k: nat :: DiffersFirstAt(a, b, k) && CmpFrom(a, b, i) == At(a, k) - At(b, k)
    decreases Longer(a, b) - i
  {
    if i < Longer(a, b) {
      if At(a, i) != At(b, i) {
        assert DiffersFirstAt(a, b, i);
      } else {
        CmpFromMeans(a, b, i + 1);
      }
    } else {
      forall k: nat ensures At(a, k) == At(b, k) {}
    }
  }

  lemma FirstIsUnique(a: seq<int>, b: seq<int>, i: nat, j: nat)
    requires DiffersFirstAt(a, b, i) && (DiffersFirstAt(a, b, j) || DiffersFirstAt(b, a, j))
    ensures i == j
  {
    assert i < j ==> At(a, i) == At(b, i);
    assert j < i ==> At(a, j) == At(b, j);
  }

  lemma CmpMeans(a: string, b: string)
    ensures Cmp(a, b) < 0 <==> Older(a, b)
    ensures Cmp(a, b) > 0 <==> Older(b, a)
    ensures Cmp(a, b) == 0 <==> SameVersion(a, b)
  {
    var x, y := Segments(a), Segments(b);
    CmpFromMeans(x, y, 0);
    if Cmp(a, b) != 0 {
      var k: nat :| DiffersFirstAt(x, y, k) && Cmp(a, b) == At(x, k) - At(y, k);
      assert DiffersFirstAt(y, x, k);
      forall i: nat | DiffersFirstAt(x, y, i) || DiffersFirstAt(y, x, i) ensures i == k { FirstIsUnique(x, y, k, i); }
    }
  }

  /** The comparison is a total preorder: `a` at most `b` and `b` at most `c` give `a` at most `c`. */
  lemma CmpIsTotalPreorder(a: string, b: string, c: string)
    ensures Cmp(a, a) == 0
    ensures Cmp(a, b) < 0 <==> Cmp(b, a) > 0
    ensures Cmp(a, b) == 0 <==> Cmp(b, a) == 0
    ensures Cmp(a, b) <= 0 && Cmp(b, c) <= 0 ==> Cmp(a, c) <= 0
  {
    CmpMeans(a, a);
    CmpMeans(a, b);
    CmpMeans(b, a);
    CmpMeans(b, c);
    CmpMeans(a, c);
    assert SameVersion(a, b) ==> SameVersion(b, a);
    if Cmp(a, b) <= 0 && Cmp(b, c) <= 0 && Cmp(a, c) > 0 { OlderIsTransitive(a, b, c); }
  }

  lemma OlderIsTransitive(a: string, b: string, c: string)
    requires Older(a, b) || SameVersion(a, b)
    requires Older(b, c) || SameVersion(b, c)
    ensures Older(a, c) || SameVersion(a, c)
  {
    var x, y, z := Segments(a), Segments(b), Segments(c);
    if SameVersion(a, b) && SameVersion(b, c) {
      assert forall i: nat :: At(x, i) == At(y, i) && At(y, i) == At(z, i);
    } else if SameVersion(a, b) {
      var i: nat :| DiffersFirstAt(y, z, i) && At(y, i) < At(z, i);
      assert forall k: nat :: At(x, k) == At(y, k);
      assert DiffersFirstAt(x, z, i);
    } else if SameVersion(b, c) {
      var i: nat :| DiffersFirstAt(x, y, i) && At(x, i) < At(y, i);
      assert forall k: nat :: At(y, k) == At(z, k);
      assert DiffersFirstAt(x, z, i);
    } else {
      var i: nat :| DiffersFirstAt(x, y, i) && At(x, i) < At(y, i);
      var j: nat :| DiffersFirstAt(y, z, j) && At(y, j) < At(z, j);
      var first := if i < j then i else j;
      assert forall k: nat :: k < first ==> At(x, k) == At(y, k) && At(y, k) == At(z, k);
      assert DiffersFirstAt(x, z, first);
    }
  }

  /** Number i, a missing one counting as 0. */
  function NumberAt(ns: seq<nat>, i: nat): nat { if i < |ns| then ns[i] else 0 }

  lemma AtOfDotted(ns: seq<nat>, i: nat)
    requires ns != []
    ensures At(Segments(Dotted(ns)), i) == NumberAt(ns, i)
  {
    SegmentsOfDotted(ns);
  }

  /** Of two versions of plain numbers the one whose first differing number is smaller is older. */
  lemma OlderByNumbers(x: seq<nat>, y: seq<nat>)
    requires x != [] && y != []
    ensures Older(Dotted(x), Dotted(y)) <==>
            exists i: nat ::
              NumberAt(x, i) < NumberAt(y, i) && forall k: nat :: k < i ==> NumberAt(x, k) == NumberAt(y, k)
  {
    var a, b := Segments(Dotted(x)), Segments(Dotted(y));
    forall i: nat ensures At(a, i) == NumberAt(x, i) && At(b, i) == NumberAt(y, i) {
      AtOfDotted(x, i);
      AtOfDotted(y, i);
    }
    ByNumbers(a, b, x, y);
  }

  lemma ByNumbers(a: seq<int>, b: seq<int>, x: seq<nat>, y: seq<nat>)
    requires forall i: nat :: At(a, i) == NumberAt(x, i) && At(b, i) == NumberAt(y, i)
    ensures (exists i: nat :: DiffersFirstAt(a, b, i) && At(a, i) < At(b, i)) <==>
            exists i: nat ::
              NumberAt(x, i) < NumberAt(y, i) && forall k: nat :: k < i ==> NumberAt(x, k) == NumberAt(y, k)
  {
    if i: nat :| DiffersFirstAt(a, b, i) && At(a, i) < At(b, i) {
      assert NumberAt(x, i) < NumberAt(y, i);
    }
    if i: nat :| NumberAt(x, i) < NumberAt(y, i) && forall k: nat :: k < i ==> NumberAt(x, k) == NumberAt(y, k) {
      assert DiffersFirstAt(a, b, i);
    }
  }

  // ---------------------------------------------------------------------------------------------
  // Patch bumps.

  function SecondSegment(v: string): Option<string> {
    if |SplitDots(v)| > 1 then Some(SplitDots(v)[1]) else None
  }

  predicate IsPatchBump(pinned: string, found: string) {
    && pinned != "" && found != ""
    && SplitDots(pinned)[0] == SplitDots(found)[0]
    && SecondSegment(pinned) == SecondSegment(found)
    && Cmp(pinned, found) != 0
  }

  /** A patch bump is a difference, and the first one, in a segment after the minor; it is one in both directions. */
  lemma PatchBumpIsLaterDifference(pinned: string, found: string)
    ensures IsPatchBump(pinned, found) <==>
              && pinned != "" && found != ""
              && SplitDots(pinned)[0] == SplitDots(found)[0] && SecondSegment(pinned) == SecondSegment(found)
              && exists i: nat :: i >= 2 && DiffersFirstAt(Segments(pinned), Segments(found), i)
    ensures IsPatchBump(pinned, found) <==> IsPatchBump(found, pinned)
    ensures IsPatchBump(pinned, found) ==> !SameVersion(pinned, found)
  {
    var x, y := Segments(pinned), Segments(found);
    CmpMeans(pinned, found);
    CmpIsTotalPreorder(pinned, found, pinned);
    CmpFromMeans(x, y, 0);
    if i: nat :| i >= 2 && DiffersFirstAt(x, y, i) { assert !SameVersion(pinned, found); }
    if IsPatchBump(pinned, found) {
      var k: nat :| DiffersFirstAt(x, y, k) && Cmp(pinned, found) == At(x, k) - At(y, k);
      assert At(x, 0) == At(y, 0) && At(x, 1) == At(y, 1);
    }
  }
}
