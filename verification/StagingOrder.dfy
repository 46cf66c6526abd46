/** When the fallback of src/baseline.ts depends on the order the staging root is listed in. */
module StagingOrder {
  import opened NativeStaging
  import opened Options
  import opened Sorting
  import opened Versions

  /** A directory has one entry of a name. */
  ghost predicate OneEntryPerName(dirs: seq<Named>) {
    forall m, n :: m in dirs && n in dirs && m.name == n.name ==> m == n
  }

  function StagedAs(n: Named): Staged { Staged(n.name, ScanOf(n.name, n.dir)) }

  /** Two entries the fallback lists that spell one version differently. */
  ghost predicate SpellsApart(dirs: seq<Named>) {
    exists m, n :: m in dirs && n in dirs && SpelledApart(m, n)
  }

  ghost predicate SpelledApart(m: Named, n: Named) {
    Listed(m) && Listed(n) && m.name != n.name && SameVersion(m.name, n.name)
  }

  ghost predicate ListForgetsOrder(dirs: seq<Named>) {
    forall other :: multiset(other) == multiset(dirs) ==> StagedVersions(other) == StagedVersions(dirs)
  }

  /** The list of staged versions is the same for every listing order exactly when no two listed entries spell one
      version apart. */
  lemma FallbackForgetsListingOrder(dirs: seq<Named>)
    requires OneEntryPerName(dirs)
    ensures ListForgetsOrder(dirs) <==> !SpellsApart(dirs)
  {
    if SpellsApart(dirs) {
      OrderMatters(dirs);
    } else {
      forall other | multiset(other) == multiset(dirs) ensures StagedVersions(other) == StagedVersions(dirs) {
        OrderForgotten(dirs, other);
      }
    }
  }

  lemma OrderMatters(dirs: seq<Named>)
    requires SpellsApart(dirs)
    ensures !ListForgetsOrder(dirs)
  {
    var m, n :| m in dirs && n in dirs && SpelledApart(m, n);
    var rest := TwoInFront(dirs, m, n);
    ListsDiffer(m, n, rest);
  }

  lemma OrderForgotten(dirs: seq<Named>, other: seq<Named>)
    requires OneEntryPerName(dirs) && !SpellsApart(dirs) && multiset(other) == multiset(dirs)
    ensures StagedVersions(other) == StagedVersions(dirs)
  {
    var s := Scanned(dirs);
    GatherForgetsOrder(dirs, other, StagedOf);
    NewerFirstIsTotalPreorder();
    forall i, j | 0 <= i < |s| && 0 <= j < |s| && NewerFirst(s[i], s[j]) && NewerFirst(s[j], s[i])
      ensures s[i] == s[j]
    {
      OnePerVersion(dirs, s[i], s[j]);
    }
    SortForgetsOrder(s, Scanned(other), NewerFirst);
  }

  lemma ScannedDir(dirs: seq<Named>, v: Staged) returns (n: Named)
    requires v in Scanned(dirs)
    ensures n in dirs && Listed(n) && v == StagedAs(n)
  {
    ScannedMembers(dirs, v);
    n :| n in dirs && Listed(n) && v == Staged(n.name, ScanOf(n.name, n.dir));
  }

  lemma SameDir(dirs: seq<Named>, m: Named, n: Named)
    requires OneEntryPerName(dirs) && !SpellsApart(dirs) && m in dirs && n in dirs && Listed(m) && Listed(n)
    requires SameVersion(m.name, n.name)
    ensures m == n
  {
    assert !SpelledApart(m, n);
  }

  lemma OnePerVersion(dirs: seq<Named>, v: Staged, w: Staged)
    requires OneEntryPerName(dirs) && !SpellsApart(dirs) && v in Scanned(dirs) && w in Scanned(dirs)
    requires NewerFirst(v, w) && NewerFirst(w, v)
    ensures v == w
  {
    var m := ScannedDir(dirs, v);
    var n := ScannedDir(dirs, w);
    BothFirst(v, w);
    SameDir(dirs, m, n);
  }

  lemma BothFirst(v: Staged, w: Staged)
    requires NewerFirst(v, w) && NewerFirst(w, v)
    ensures SameVersion(v.version, w.version)
  {
    CmpMeans(v.version, w.version);
    CmpMeans(w.version, v.version);
    CmpIsTotalPreorder(v.version, w.version, v.version);
  }

  lemma SameVersionIsEquivalence(a: string, b: string, c: string)
    ensures SameVersion(a, a) && (SameVersion(a, b) ==> SameVersion(b, a))
    ensures SameVersion(a, b) && SameVersion(b, c) ==> SameVersion(a, c)
  {
    CmpMeans(a, b);
    CmpMeans(b, a);
    CmpMeans(b, c);
    CmpMeans(a, c);
    CmpIsTotalPreorder(a, b, c);
    CmpIsTotalPreorder(c, b, a);
    CmpIsTotalPreorder(a, a, a);
    CmpMeans(a, a);
  }

  /** Compares equal with `m`, and meets `q`. */
  ghost function TiedWith(m: Named, q: Staged -> bool): Staged -> bool {
    (v: Staged) => Cmp(v.version, m.name) == 0 && q(v)
  }

  lemma ScannedFront(m: Named, n: Named, rest: seq<Named>)
    requires Listed(m) && Listed(n)
    ensures Scanned([m, n] + rest) == [StagedAs(m), StagedAs(n)] + Scanned(rest)
  {
    GatherOfTwo([m, n], rest, StagedOf);
    GatherOfTwo([m], [n], StagedOf);
    assert [m] + [n] == [m, n] && [m][..0] == [] && [n][..0] == [];
    assert Scanned([m]) == [StagedAs(m)] && Scanned([n]) == [StagedAs(n)];
  }

  lemma TiedWithIsTied(m: Named, q: Staged -> bool)
    ensures Tied(TiedWith(m, q), NewerFirst)
  {
    forall v: Staged, w: Staged | TiedWith(m, q)(v) && TiedWith(m, q)(w) ensures NewerFirst(v, w) {
      CmpIsTotalPreorder(w.version, m.name, v.version);
      CmpIsTotalPreorder(v.version, m.name, w.version);
    }
  }

  lemma BothTied(m: Named, n: Named, q: Staged -> bool)
    requires SpelledApart(m, n)
    ensures q(StagedAs(m)) ==> TiedWith(m, q)(StagedAs(m)) && TiedWith(n, q)(StagedAs(m))
    ensures q(StagedAs(n)) ==> TiedWith(m, q)(StagedAs(n)) && TiedWith(n, q)(StagedAs(n))
    ensures SpelledApart(n, m)
  {
    CmpMeans(m.name, m.name);
    CmpMeans(n.name, n.name);
    CmpMeans(m.name, n.name);
    CmpMeans(n.name, m.name);
    SameVersionIsEquivalence(m.name, n.name, m.name);
    SameVersionIsEquivalence(n.name, m.name, n.name);
  }

  /** Of the staged versions that compare equal with k, the one listed first comes first. */
  lemma TiedComeAsListed(k: Named, m: Named, n: Named, rest: seq<Named>, q: Staged -> bool)
    requires Listed(m) && Listed(n) && TiedWith(k, q)(StagedAs(m)) && TiedWith(k, q)(StagedAs(n))
    ensures var kept := Keep(StagedVersions([m, n] + rest), TiedWith(k, q));
            kept != [] && kept[0] == StagedAs(m)
  {
    ScannedFront(m, n, rest);
    TiedWithIsTied(k, q);
    SortIsStable(Scanned([m, n] + rest), NewerFirst, TiedWith(k, q));
    KeepFront(StagedAs(m), StagedAs(n), Scanned(rest), TiedWith(k, q));
  }

  lemma ListsDiffer(m: Named, n: Named, rest: seq<Named>)
    requires SpelledApart(m, n)
    ensures StagedVersions([m, n] + rest) != StagedVersions([n, m] + rest)
  {
    var any := (v: Staged) => true;
    BothTied(m, n, any);
    TiedComeAsListed(m, m, n, rest, any);
    TiedComeAsListed(m, n, m, rest, any);
    assert StagedAs(m).version != StagedAs(n).version;
  }

  // ---------------------------------------------------------------------------------------------
  // The version the fallback takes.

  ghost predicate Installed(n: Named, pinned: string) { Listed(n) && n.name != pinned && Runnable(n.dir) }

  /** Something of this other version runs, and of no newer one. */
  ghost predicate IsNewest(m: Named, dirs: seq<Named>, pinned: string) {
    && m in dirs && Installed(m, pinned)
    && forall n :: n in dirs && Installed(n, pinned) ==> !Older(m.name, n.name)
  }

  ghost predicate NewestForgetsOrder(dirs: seq<Named>, pinned: string) {
    forall other :: multiset(other) == multiset(dirs) ==>
      Newest(StagedVersions(other), pinned) == Newest(StagedVersions(dirs), pinned)
  }

  /** The newest other version is spelled in two ways. */
  ghost predicate NewestSpelledApart(dirs: seq<Named>, pinned: string) {
    exists m, n :: IsNewest(m, dirs, pinned) && IsNewest(n, dirs, pinned) && m.name != n.name
  }

  lemma StagedDir(dirs: seq<Named>, v: Staged, pinned: string) returns (n: Named)
    requires v in StagedVersions(dirs) && Eligible(v, pinned)
    ensures n in dirs && Installed(n, pinned) && v == StagedAs(n)
  {
    StagedMembers(dirs, v);
    n :| n in dirs && Listed(n) && v == Staged(n.name, ScanOf(n.name, n.dir));
    ScanFindsWhatRuns(n.name, n.dir);
  }

  lemma NewestIsADir(dirs: seq<Named>, pinned: string) returns (n: Named)
    requires Newest(StagedVersions(dirs), pinned).Some?
    ensures IsNewest(n, dirs, pinned) && Newest(StagedVersions(dirs), pinned) == Some(StagedAs(n))
  {
    var v := Newest(StagedVersions(dirs), pinned).value;
    n := StagedDir(dirs, v, pinned);
    NewestIsChosen(dirs, pinned);
    IsNewestSpelled(n, v.scan.candidates[0], dirs, pinned);
  }

  lemma IsNewestSpelled(n: Named, c: Candidate, dirs: seq<Named>, pinned: string)
    requires n in dirs && Installed(n, pinned) && c.version == n.name && IsNewestOther(c, dirs, pinned)
    ensures IsNewest(n, dirs, pinned)
  {}

  lemma NewestAreTied(dirs: seq<Named>, pinned: string, m: Named, n: Named)
    requires IsNewest(m, dirs, pinned) && IsNewest(n, dirs, pinned)
    ensures SameVersion(m.name, n.name) && SameVersion(n.name, m.name)
  {
    CmpMeans(m.name, n.name);
    CmpMeans(n.name, m.name);
    CmpIsTotalPreorder(m.name, n.name, m.name);
  }

  /** When two entries spell the newest other version apart, the one listed first is taken. */
  lemma TiedSpellingsFollowTheListing(m: Named, n: Named, rest: seq<Named>, pinned: string)
    requires m.name != n.name
    requires IsNewest(m, [m, n] + rest, pinned) && IsNewest(n, [m, n] + rest, pinned)
    ensures Newest(StagedVersions([m, n] + rest), pinned) == Some(StagedAs(m))
  {
    var dirs, q := [m, n] + rest, (v: Staged) => Eligible(v, pinned);
    NewestAreTied(dirs, pinned, m, n);
    ScanFindsWhatRuns(m.name, m.dir);
    ScanFindsWhatRuns(n.name, n.dir);
    BothTied(m, n, q);
    TiedComeAsListed(m, m, n, rest, q);
    EligibleIsRunnable(dirs, pinned);
    var k := NewestIsADir(dirs, pinned);
    NewestAreTied(dirs, pinned, k, m);
    CmpMeans(k.name, m.name);
    FirstIsKept(StagedVersions(dirs), pinned, m);
  }

  lemma FirstIsKept(all: seq<Staged>, pinned: string, m: Named)
    requires Newest(all, pinned).Some? && Cmp(Newest(all, pinned).value.version, m.name) == 0
    ensures var kept := Keep(all, TiedWith(m, (v: Staged) => Eligible(v, pinned)));
            kept != [] && kept[0] == Newest(all, pinned).value
  {
    var i: nat :| i < |all| && all[i] == Newest(all, pinned).value
                  && forall k :: 0 <= k < i ==> !Eligible(all[k], pinned);
    KeepFirst(all, TiedWith(m, (v: Staged) => Eligible(v, pinned)), i);
  }

  lemma NewestInBoth(dirs: seq<Named>, other: seq<Named>, pinned: string, m: Named)
    requires multiset(other) == multiset(dirs)
    ensures IsNewest(m, other, pinned) <==> IsNewest(m, dirs, pinned)
  {
    assert forall n :: n in other <==> n in multiset(other);
    assert forall n :: n in dirs <==> n in multiset(dirs);
  }

  /** The version fallen back to is the same for every listing order exactly when the newest one is spelled
      in one way. */
  lemma ChoiceForgetsListingOrder(dirs: seq<Named>, pinned: string)
    requires OneEntryPerName(dirs)
    ensures NewestForgetsOrder(dirs, pinned) <==> !NewestSpelledApart(dirs, pinned)
  {
    if NewestSpelledApart(dirs, pinned) {
      TwoNewest(dirs, pinned);
    } else {
      forall other | multiset(other) == multiset(dirs)
        ensures Newest(StagedVersions(other), pinned) == Newest(StagedVersions(dirs), pinned)
      {
        OneNewest(dirs, other, pinned);
      }
    }
  }

  lemma TwoNewest(dirs: seq<Named>, pinned: string)
    requires NewestSpelledApart(dirs, pinned)
    ensures !NewestForgetsOrder(dirs, pinned)
  {
    var m, n :| IsNewest(m, dirs, pinned) && IsNewest(n, dirs, pinned) && m.name != n.name;
    var rest := TwoInFront(dirs, m, n);
    FirstIsTaken(dirs, m, n, rest, pinned);
    FirstIsTaken(dirs, n, m, rest, pinned);
    NotForgotten(dirs, [m, n] + rest, [n, m] + rest, pinned);
  }

  lemma NotForgotten(dirs: seq<Named>, one: seq<Named>, two: seq<Named>, pinned: string)
    requires multiset(one) == multiset(dirs) == multiset(two)
    requires Newest(StagedVersions(one), pinned) != Newest(StagedVersions(two), pinned)
    ensures !NewestForgetsOrder(dirs, pinned)
  {}

  lemma FirstIsTaken(dirs: seq<Named>, m: Named, n: Named, rest: seq<Named>, pinned: string)
    requires IsNewest(m, dirs, pinned) && IsNewest(n, dirs, pinned) && m.name != n.name
    requires multiset([m, n] + rest) == multiset(dirs)
    ensures Newest(StagedVersions([m, n] + rest), pinned) == Some(StagedAs(m))
  {
    NewestInBoth(dirs, [m, n] + rest, pinned, m);
    NewestInBoth(dirs, [m, n] + rest, pinned, n);
    TiedSpellingsFollowTheListing(m, n, rest, pinned);
  }

  lemma OneNewest(dirs: seq<Named>, other: seq<Named>, pinned: string)
    requires OneEntryPerName(dirs) && !NewestSpelledApart(dirs, pinned) && multiset(other) == multiset(dirs)
    ensures Newest(StagedVersions(other), pinned) == Newest(StagedVersions(dirs), pinned)
  {
    EligibleIsRunnable(dirs, pinned);
    EligibleIsRunnable(other, pinned);
    assert forall n :: n in other <==> n in multiset(other);
    assert forall n :: n in dirs <==> n in multiset(dirs);
    if Newest(StagedVersions(dirs), pinned).Some? {
      var m := NewestIsADir(dirs, pinned);
      var n := NewestIsADir(other, pinned);
      NewestInBoth(dirs, other, pinned, n);
      assert m.name == n.name;
    }
  }
}
