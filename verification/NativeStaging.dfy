/** Which staged native agent a baseline runs (src/baseline.ts), over every state and listing of the staging root. */
module NativeStaging {
  import opened Options
  import opened Sorting
  import opened Versions

  /** What a `.verified` marker holds: the build it names and when it was written. Absent when it is not a checksum. */
  datatype Marker = Marker(build: string, publishedMs: real)

  datatype Entry = Entry(name: string, isDir: bool, marker: Option<Marker>, hasApp: bool, hasBare: bool)

  /** A version dir: its entries, and the flat install in it. `realDir` is false for a symbolic link. */
  datatype VersionDir = VersionDir(entries: seq<Entry>, flatApp: bool, flatMarker: Option<Marker>, realDir: bool)

  const NO_DIR := VersionDir([], false, None, false)

  datatype Named = Named(name: string, dir: VersionDir)

  datatype Layout = Nested | Flat

  datatype Candidate = Candidate(version: string, layout: Layout, build: Option<string>, publishedMs: Option<real>)

  datatype Reason = Unmarked | NamesOther | NoBinary | BareBinary

  datatype Unusable = Unusable(entry: string, reason: Reason)

  datatype Scan = Scan(candidates: seq<Candidate>, unusable: seq<Unusable>, unknown: seq<string>)

  // ---------------------------------------------------------------------------------------------
  // The choice order among the candidates of one version.

  /** `localeCompare` on build names, which are lower-case hexadecimal. */
  function CompareText(a: string, b: string): int {
    if a == "" then (if b == "" then 0 else -1)
    else if b == "" then 1
    else if a[0] < b[0] then -1
    else if a[0] > b[0] then 1
    else CompareText(a[1..], b[1..])
  }

  lemma {:induction false} CompareTextIsOrder(a: string, b: string, c: string)
    ensures CompareText(a, b) == -CompareText(b, a)
    ensures CompareText(a, b) == 0 <==> a == b
    ensures CompareText(a, b) <= 0 && CompareText(b, c) <= 0 ==> CompareText(a, c) <= 0
  {
    if a != "" && b != "" {
      CompareTextIsOrder(a[1..], b[1..], if c != "" then c[1..] else "");
      assert a == [a[0]] + a[1..] && b == [b[0]] + b[1..];
    }
  }

  function Build(c: Candidate): string { if c.build.Some? then c.build.value else "" }

  function Published(c: Candidate): real { if c.publishedMs.Some? then c.publishedMs.value else 0.0 }

  function CompareNativeCandidates(a: Candidate, b: Candidate): real {
    if Published(b) - Published(a) != 0.0 then Published(b) - Published(a)
    else if a.layout != b.layout then (if a.layout == Nested then -1.0 else 1.0)
    else CompareText(Build(a), Build(b)) as real
  }

  predicate ChosenFirst(a: Candidate, b: Candidate) { CompareNativeCandidates(a, b) <= 0.0 }

  lemma ChoiceIsTotalPreorder()
    ensures TotalPreorder(ChosenFirst)
  {
    forall a, b ensures ChosenFirst(a, b) || ChosenFirst(b, a) { CompareTextIsOrder(Build(a), Build(b), ""); }
    forall a, b, c | ChosenFirst(a, b) && ChosenFirst(b, c) ensures ChosenFirst(a, c) {
      CompareTextIsOrder(Build(a), Build(b), Build(c));
    }
  }

  predicate Marked(c: Candidate) { c.build.Some? && c.publishedMs.Some? }

  /** Two marked candidates of one version compare equal only when they are the same candidate. */
  lemma CompareIsStrict(a: Candidate, b: Candidate)
    requires a.version == b.version && Marked(a) && Marked(b)
    ensures CompareNativeCandidates(a, b) == 0.0 <==> a == b
    ensures ChosenFirst(a, b) && ChosenFirst(b, a) ==> a == b
  {
    CompareTextIsOrder(Build(a), Build(b), "");
  }

  // ---------------------------------------------------------------------------------------------
  // Scanning one version dir.

  predicate Skipped(name: string) { (name != "" && name[0] == '.') || name == "claude.app" || name == "claude" }

  predicate IsHex(c: char) { '0' <= c <= '9' || 'a' <= c <= 'f' }

  predicate IsBuildName(name: string) { |name| == 12 && forall i :: 0 <= i < 12 ==> IsHex(name[i]) }

  /** A real dir named for a build, whose marker names that same build, and which holds the agent. */
  predicate RunnableBuild(e: Entry) {
    !Skipped(e.name) && IsBuildName(e.name) && e.isDir && e.marker.Some? && e.marker.value.build == e.name && e.hasApp
  }

  predicate Runnable(dir: VersionDir) { dir.flatApp || exists e :: e in dir.entries && RunnableBuild(e) }

  function NestedCandidate(version: string, e: Entry): Candidate
    requires e.marker.Some?
  {
    Candidate(version, Nested, Some(e.name), Some(e.marker.value.publishedMs))
  }

  function RankedOf(version: string, e: Entry): seq<Candidate> {
    if RunnableBuild(e) then [NestedCandidate(version, e)] else []
  }

  function UnusableOf(version: string, e: Entry): seq<Unusable> {
    var entry := version + "/" + e.name;
    if Skipped(e.name) || !IsBuildName(e.name) || !e.isDir then []
    else if e.marker.None? then [Unusable(entry, Unmarked)]
    else if e.marker.value.build != e.name then [Unusable(entry, NamesOther)]
    else if e.hasApp then []
    else [Unusable(entry, if e.hasBare then BareBinary else NoBinary)]
  }

  function UnknownOf(version: string, e: Entry): seq<string> {
    if Skipped(e.name) || IsBuildName(e.name) then [] else [version + "/" + e.name]
  }

  /** What the first entries contribute, in listing order. */
  function ScanEntries(version: string, entries: seq<Entry>): Scan {
    if entries == [] then Scan([], [], [])
    else
      var s, e := ScanEntries(version, entries[..|entries| - 1]), entries[|entries| - 1];
      Scan(s.candidates + RankedOf(version, e), s.unusable + UnusableOf(version, e), s.unknown + UnknownOf(version, e))
  }

  function FlatRanked(version: string, dir: VersionDir): seq<Candidate> {
    if dir.flatApp && dir.flatMarker.Some?
    then [Candidate(version, Flat, Some(dir.flatMarker.value.build), Some(dir.flatMarker.value.publishedMs))]
    else []
  }

  function Ranked(version: string, dir: VersionDir): seq<Candidate> {
    ScanEntries(version, dir.entries).candidates + FlatRanked(version, dir)
  }

  /** Candidates in choice order; a flat install without a marker counts only when nothing marked does. */
  function Candidates(version: string, dir: VersionDir): seq<Candidate> {
    if Ranked(version, dir) != [] then SortBy(Ranked(version, dir), ChosenFirst)
    else if dir.flatApp then [Candidate(version, Flat, None, None)]
    else []
  }

  function ScanOf(version: string, dir: VersionDir): Scan {
    var s := ScanEntries(version, dir.entries);
    Scan(Candidates(version, dir), s.unusable, s.unknown)
  }

  method ScanOne(version: string, e: Entry)
    returns (ranked: seq<Candidate>, unusable: seq<Unusable>, unknown: seq<string>)
    ensures ranked == RankedOf(version, e) && unusable == UnusableOf(version, e) && unknown == UnknownOf(version, e)
  {
    ranked, unusable, unknown := [], [], [];
    if Skipped(e.name) { return; }
    var entry := version + "/" + e.name;
    if !IsBuildName(e.name) {
      unknown := [entry];
      return;
    }
    if !e.isDir { return; }
    if e.marker.None? {
      unusable := [Unusable(entry, Unmarked)];
    } else if e.marker.value.build != e.name {
      unusable := [Unusable(entry, NamesOther)];
    } else if e.hasApp {
      ranked := [NestedCandidate(version, e)];
    } else {
      unusable := [Unusable(entry, if e.hasBare then BareBinary else NoBinary)];
    }
  }

  method ScanNativeVersion(version: string, dir: VersionDir) returns (out: Scan)
    ensures out == ScanOf(version, dir)
  {
    var ranked, unusable, unknown := [], [], [];
    for i := 0 to |dir.entries|
      invariant Scan(ranked, unusable, unknown) == ScanEntries(version, dir.entries[..i])
    {
      assert dir.entries[..i + 1][..i] == dir.entries[..i];
      var r, u, k := ScanOne(version, dir.entries[i]);
      ranked, unusable, unknown := ranked + r, unusable + u, unknown + k;
    }
    assert dir.entries[..|dir.entries|] == dir.entries;
    var flatUnverified := [];
    if dir.flatApp {
      if dir.flatMarker.Some? { ranked := ranked + FlatRanked(version, dir); }
      else { flatUnverified := [Candidate(version, Flat, None, None)]; }
    }
    assert ranked == Ranked(version, dir);
    out := Scan(if ranked != [] then SortBy(ranked, ChosenFirst) else flatUnverified, unusable, unknown);
  }

  /** The install a candidate stands for is in the dir and can be run. */
  predicate InstalledIn(c: Candidate, dir: VersionDir) {
    match c.layout
    case Nested => exists e :: e in dir.entries && RunnableBuild(e) && c.build == Some(e.name)
    case Flat => dir.flatApp && c.build == (if dir.flatMarker.Some? then Some(dir.flatMarker.value.build) else None)
  }

  lemma {:induction false} RankedMembers(version: string, entries: seq<Entry>, c: Candidate)
    ensures c in ScanEntries(version, entries).candidates <==>
              exists e :: e in entries && RunnableBuild(e) && c == NestedCandidate(version, e)
  {
    if entries != [] {
      var front, last := entries[..|entries| - 1], entries[|entries| - 1];
      RankedMembers(version, front, c);
      assert forall e :: e in entries <==> e in front || e == last;
    }
  }

  lemma CandidatesMembers(version: string, dir: VersionDir, c: Candidate)
    ensures c in Ranked(version, dir) <==>
              || c in FlatRanked(version, dir)
              || exists e :: e in dir.entries && RunnableBuild(e) && c == NestedCandidate(version, e)
    ensures Ranked(version, dir) != [] ==> (c in Candidates(version, dir) <==> c in Ranked(version, dir))
  {
    RankedMembers(version, dir.entries, c);
    var r := Ranked(version, dir);
    SortKeeps(r, ChosenFirst);
    assert c in multiset(SortBy(r, ChosenFirst)) <==> c in multiset(r);
  }

  /** A version dir has a candidate exactly when it holds something runnable, and every candidate is such an install. */
  lemma ScanFindsWhatRuns(version: string, dir: VersionDir)
    ensures Candidates(version, dir) != [] <==> Runnable(dir)
    ensures forall c :: c in Candidates(version, dir) ==> c.version == version && InstalledIn(c, dir)
    ensures forall e :: e in dir.entries && RunnableBuild(e) ==> NestedCandidate(version, e) in Candidates(version, dir)
    ensures forall c :: c in FlatRanked(version, dir) ==> c in Candidates(version, dir)
  {
    SortKeeps(Ranked(version, dir), ChosenFirst);
    forall c | c in Candidates(version, dir)
      ensures c.version == version && InstalledIn(c, dir)
    {
      CandidatesMembers(version, dir, c);
    }
    forall e | e in dir.entries && RunnableBuild(e) ensures NestedCandidate(version, e) in Candidates(version, dir) {
      CandidatesMembers(version, dir, NestedCandidate(version, e));
    }
    forall c | c in FlatRanked(version, dir)
      ensures c in Candidates(version, dir)
    {
      CandidatesMembers(version, dir, c);
    }
    if Candidates(version, dir) != [] {
      var c := Candidates(version, dir)[0];
      assert c in Candidates(version, dir);
    }
  }

  lemma NothingRunsNothing(version: string, dir: VersionDir)
    ensures Candidates(version, dir) == [] <==> !Runnable(dir)
  {
    ScanFindsWhatRuns(version, dir);
  }

  // ---------------------------------------------------------------------------------------------
  // Which candidate comes first.

  /** At the first place they differ, `a` has ended or has the smaller character. */
  ghost predicate ComesBefore(a: string, b: string) {
    exists i: nat :: i <= |a| && i < |b| && a[..i] == b[..i] && (i == |a| || a[i] < b[i])
  }

  lemma {:induction false} CompareTextMeans(a: string, b: string)
    ensures CompareText(a, b) < 0 <==> ComesBefore(a, b)
  {
    if a == "" {
      if b != "" { assert a[..0] == b[..0]; }
    } else if b != "" {
      CompareTextMeans(a[1..], b[1..]);
      if a[0] < b[0] { assert a[..0] == b[..0]; }
      if a[0] == b[0] {
        if ComesBefore(a[1..], b[1..]) {
          var i: nat :| i <= |a[1..]| && i < |b[1..]| && a[1..][..i] == b[1..][..i]
                        && (i == |a[1..]| || a[1..][i] < b[1..][i]);
          assert a[..i + 1] == [a[0]] + a[1..][..i] && b[..i + 1] == [b[0]] + b[1..][..i];
          assert ComesBefore(a, b);
        }
        if ComesBefore(a, b) { DropSameHead(a, b); }
      }
      if ComesBefore(a, b) { HeadsInOrder(a, b); }
    }
  }

  lemma HeadsInOrder(a: string, b: string)
    requires a != "" && b != "" && ComesBefore(a, b)
    ensures a[0] <= b[0]
  {
    var i: nat :| i <= |a| && i < |b| && a[..i] == b[..i] && (i == |a| || a[i] < b[i]);
    if i > 0 { assert a[..i][0] == a[0] && b[..i][0] == b[0]; }
  }

  lemma DropSameHead(a: string, b: string)
    requires a != "" && b != "" && a[0] == b[0] && ComesBefore(a, b)
    ensures ComesBefore(a[1..], b[1..])
  {
    var i: nat :| i <= |a| && i < |b| && a[..i] == b[..i] && (i == |a| || a[i] < b[i]);
    assert a[1..][..i - 1] == a[..i][1..] && b[1..][..i - 1] == b[..i][1..];
    assert i - 1 == |a[1..]| || a[1..][i - 1] < b[1..][i - 1];
  }

  /** The dir holds an install with a marker: of this layout and build, published then. */
  predicate PublishedAt(dir: VersionDir, layout: Layout, build: string, ms: real) {
    match layout
    case Nested =>
      exists e :: e in dir.entries && RunnableBuild(e) && e.name == build && e.marker.value.publishedMs == ms
    case Flat => dir.flatApp && dir.flatMarker == Some(Marker(build, ms))
  }

  /** No marked install was published later; among those published then it is nested if any is, and of the nested ones
      its build name comes first. */
  ghost predicate IsLatest(c: Candidate, dir: VersionDir) {
    && c.build.Some? && c.publishedMs.Some? && PublishedAt(dir, c.layout, c.build.value, c.publishedMs.value)
    && forall layout, build, ms :: PublishedAt(dir, layout, build, ms) ==>
         && ms <= c.publishedMs.value
         && (ms == c.publishedMs.value && layout == Nested ==>
               c.layout == Nested && !ComesBefore(build, c.build.value))
  }

  ghost predicate IsBest(c: Candidate, dir: VersionDir) {
    if exists layout, build, ms :: PublishedAt(dir, layout, build, ms) then IsLatest(c, dir)
    else c.layout == Flat && dir.flatApp && c.build == None
  }

  lemma RankedIsPublished(version: string, dir: VersionDir, layout: Layout, build: string, ms: real)
    ensures PublishedAt(dir, layout, build, ms) <==>
              Candidate(version, layout, Some(build), Some(ms)) in Ranked(version, dir)
  {
    CandidatesMembers(version, dir, Candidate(version, layout, Some(build), Some(ms)));
  }

  lemma FirstChosen(a: Candidate, b: Candidate)
    requires ChosenFirst(a, b) && Marked(a) && Marked(b)
    ensures b.publishedMs.value <= a.publishedMs.value
    ensures b.publishedMs == a.publishedMs && b.layout == Nested ==>
              a.layout == Nested && !ComesBefore(b.build.value, a.build.value)
  {
    CompareTextMeans(b.build.value, a.build.value);
    CompareTextIsOrder(a.build.value, b.build.value, "");
  }

  lemma RankedAreMarked(version: string, dir: VersionDir, c: Candidate)
    requires c in Ranked(version, dir)
    ensures Marked(c) && c == Candidate(version, c.layout, c.build, c.publishedMs)
  {
    CandidatesMembers(version, dir, c);
  }

  /** The first candidate is the one published last, if any has a marker. */
  lemma FirstIsBest(version: string, dir: VersionDir)
    requires Candidates(version, dir) != []
    ensures IsBest(Candidates(version, dir)[0], dir)
  {
    var r := Ranked(version, dir);
    if r == [] {
      forall layout, build, ms ensures !PublishedAt(dir, layout, build, ms) {
        RankedIsPublished(version, dir, layout, build, ms);
      }
    } else {
      SortedIsLatest(version, dir);
      var c := Candidates(version, dir)[0];
      assert PublishedAt(dir, c.layout, c.build.value, c.publishedMs.value);
    }
  }

  lemma SortedIsLatest(version: string, dir: VersionDir)
    requires Ranked(version, dir) != [] && Candidates(version, dir) != []
    ensures IsLatest(Candidates(version, dir)[0], dir)
  {
    var cs := Candidates(version, dir);
    ChoiceIsTotalPreorder();
    SortSorts(Ranked(version, dir), ChosenFirst);
    CandidatesMembers(version, dir, cs[0]);
    RankedAreMarked(version, dir, cs[0]);
    RankedIsPublished(version, dir, cs[0].layout, cs[0].build.value, cs[0].publishedMs.value);
    forall layout, build, ms | PublishedAt(dir, layout, build, ms)
      ensures ms <= cs[0].publishedMs.value
      ensures ms == cs[0].publishedMs.value && layout == Nested ==>
                cs[0].layout == Nested && !ComesBefore(build, cs[0].build.value)
    {
      var c := Candidate(version, layout, Some(build), Some(ms));
      RankedIsPublished(version, dir, layout, build, ms);
      CandidatesMembers(version, dir, c);
      var j :| 0 <= j < |cs| && cs[j] == c;
      CompareTextIsOrder(cs[0].build.value, cs[0].build.value, "");
      assert ChosenFirst(cs[0], c);
      FirstChosen(cs[0], c);
    }
  }

  // ---------------------------------------------------------------------------------------------
  // The listing order does not matter.

  lemma {:induction false} RankedIsGathered(version: string, entries: seq<Entry>)
    ensures ScanEntries(version, entries).candidates == Gather(entries, e => RankedOf(version, e))
  {
    if entries != [] { RankedIsGathered(version, entries[..|entries| - 1]); }
  }

  lemma RankedIsStrict(version: string, dir: VersionDir)
    ensures Strict(Ranked(version, dir), ChosenFirst)
  {
    var r := Ranked(version, dir);
    forall i, j | 0 <= i < |r| && 0 <= j < |r| && ChosenFirst(r[i], r[j]) && ChosenFirst(r[j], r[i])
      ensures r[i] == r[j]
    {
      CandidatesMembers(version, dir, r[i]);
      CandidatesMembers(version, dir, r[j]);
      CompareIsStrict(r[i], r[j]);
    }
  }

  /** The candidates of a version, and so the first one, do not depend on the order a directory is listed in. */
  lemma ChoiceForgetsListingOrder(version: string, dir: VersionDir, entries: seq<Entry>)
    requires multiset(entries) == multiset(dir.entries)
    ensures Candidates(version, dir.(entries := entries)) == Candidates(version, dir)
  {
    var r, q := Ranked(version, dir), Ranked(version, dir.(entries := entries));
    RankedIsGathered(version, dir.entries);
    RankedIsGathered(version, entries);
    GatherForgetsOrder(dir.entries, entries, e => RankedOf(version, e));
    assert multiset(r) == multiset(q);
    assert |multiset(r)| == |r| && |multiset(q)| == |q|;
    RankedIsStrict(version, dir);
    ChoiceIsTotalPreorder();
    SortForgetsOrder(r, q, ChosenFirst);
  }

  // ---------------------------------------------------------------------------------------------
  // The staged versions, newest first.

  datatype Staged = Staged(version: string, scan: Scan)

  predicate NewerFirst(a: Staged, b: Staged) { Cmp(b.version, a.version) <= 0 }

  lemma NewerFirstIsTotalPreorder()
    ensures TotalPreorder(NewerFirst)
  {
    forall a: Staged, b: Staged
      ensures NewerFirst(a, b) || NewerFirst(b, a)
    {
      CmpIsTotalPreorder(a.version, b.version, a.version);
    }
    forall a: Staged, b: Staged, c: Staged | NewerFirst(a, b) && NewerFirst(b, c) ensures NewerFirst(a, c) {
      CmpIsTotalPreorder(c.version, b.version, a.version);
    }
  }

  /** A version dir the fallback search considers: not hidden, not a link. */
  predicate Listed(n: Named) { !(n.name != "" && n.name[0] == '.') && n.dir.realDir }

  function StagedOf(n: Named): seq<Staged> { if Listed(n) then [Staged(n.name, ScanOf(n.name, n.dir))] else [] }

  function Scanned(dirs: seq<Named>): seq<Staged> { Gather(dirs, StagedOf) }

  function StagedVersions(dirs: seq<Named>): seq<Staged> { SortBy(Scanned(dirs), NewerFirst) }

  method StagedNativeVersions(dirs: seq<Named>) returns (all: seq<Staged>)
    ensures all == StagedVersions(dirs)
  {
    var out := [];
    for i := 0 to |dirs|
      invariant out == Scanned(dirs[..i])
    {
      assert dirs[..i + 1][..i] == dirs[..i];
      if Listed(dirs[i]) {
        var scan := ScanNativeVersion(dirs[i].name, dirs[i].dir);
        out := out + [Staged(dirs[i].name, scan)];
      }
    }
    assert dirs[..|dirs|] == dirs;
    all := SortBy(out, NewerFirst);
  }

  lemma {:induction false} ScannedMembers(dirs: seq<Named>, v: Staged)
    ensures v in Scanned(dirs) <==> exists n :: n in dirs && Listed(n) && v == Staged(n.name, ScanOf(n.name, n.dir))
  {
    if dirs != [] {
      var front, last := dirs[..|dirs| - 1], dirs[|dirs| - 1];
      ScannedMembers(front, v);
      assert forall n :: n in dirs <==> n in front || n == last;
    }
  }

  lemma StagedMembers(dirs: seq<Named>, v: Staged)
    ensures v in StagedVersions(dirs) <==>
              exists n :: n in dirs && Listed(n) && v == Staged(n.name, ScanOf(n.name, n.dir))
  {
    ScannedMembers(dirs, v);
    SortKeeps(Scanned(dirs), NewerFirst);
    assert v in multiset(StagedVersions(dirs)) <==> v in multiset(Scanned(dirs));
  }

  predicate Eligible(v: Staged, pinned: string) { v.version != pinned && v.scan.candidates != [] }

  /** The first eligible version of the list. */
  function Newest(all: seq<Staged>, pinned: string): (r: Option<Staged>)
    ensures r.None? ==> forall v :: v in all ==> !Eligible(v, pinned)
    ensures r.Some? ==>
              && Eligible(r.value, pinned)
              && exists i :: 0 <= i < |all| && all[i] == r.value && forall k :: 0 <= k < i ==> !Eligible(all[k], pinned)
  {
    if all == [] then None
    else
      assert forall v :: v in all <==> v == all[0] || v in all[1..];
      if Eligible(all[0], pinned) then Some(all[0])
      else
        var r := Newest(all[1..], pinned);
        assert r.Some? ==>
          exists i :: 0 <= i < |all[1..]| && all[1..][i] == r.value
                      && forall k :: 0 <= k < i ==> !Eligible(all[1..][k], pinned);
        assert forall k :: 1 <= k < |all| ==> all[k] == all[1..][k - 1];
        r
  }

  /** No eligible version is newer than the one found. */
  lemma NewestIsMaximal(dirs: seq<Named>, pinned: string)
    ensures var r := Newest(StagedVersions(dirs), pinned);
            r.Some? ==>
              forall v :: v in StagedVersions(dirs) && Eligible(v, pinned) ==> !Older(r.value.version, v.version)
  {
    var all := StagedVersions(dirs);
    var r := Newest(all, pinned);
    if r.Some? {
      NewerFirstIsTotalPreorder();
      SortSorts(Scanned(dirs), NewerFirst);
      var i :| 0 <= i < |all| && all[i] == r.value && forall k :: 0 <= k < i ==> !Eligible(all[k], pinned);
      forall v | v in all && Eligible(v, pinned) ensures !Older(r.value.version, v.version) {
        var j :| 0 <= j < |all| && all[j] == v;
        assert i != j ==> NewerFirst(all[i], all[j]);
        CmpMeans(r.value.version, v.version);
        CmpMeans(v.version, r.value.version);
      }
    }
  }

  // ---------------------------------------------------------------------------------------------
  // The classification.

  datatype Arch = Arm64 | X64

  /** The staged path a baseline pins: none, one in neither layout, or a version dir and perhaps a build. */
  datatype Pin = NoPin | OtherPath(present: bool) | Pinned(version: string, build: Option<string>)

  datatype Kind = Exact | OtherBuild | Patch | MajorMinor | Missing

  datatype Cause = MissingRoot | NothingStaged | Unfinished | UnusableBuild | UnknownLayout

  datatype Drift = Drift(kind: Kind, chosen: Option<Candidate>, cause: Option<Cause>)

  /** With builds pinned per architecture only this host's counts; otherwise the build in the path. */
  function PinnedBuild(pin: Pin, builds: map<Arch, string>, host: Arch): Option<string>
    requires pin.Pinned?
  {
    if builds.Keys != {} then (if host in builds then Some(builds[host]) else None) else pin.build
  }

  function DirOf(dirs: seq<Named>, name: string): VersionDir {
    if dirs == [] then NO_DIR else if dirs[0].name == name then dirs[0].dir else DirOf(dirs[1..], name)
  }

  function First(cs: seq<Candidate>, build: string, nestedOnly: bool): (r: Option<Candidate>)
    ensures r.Some? ==> r.value in cs && r.value.build == Some(build) && (nestedOnly ==> r.value.layout == Nested)
    ensures r.None? ==> forall c :: c in cs ==> !(c.build == Some(build) && (nestedOnly ==> c.layout == Nested))
  {
    if cs == [] then None
    else
      assert forall c :: c in cs <==> c == cs[0] || c in cs[1..];
      if cs[0].build == Some(build) && (nestedOnly ==> cs[0].layout == Nested) then Some(cs[0])
      else First(cs[1..], build, nestedOnly)
  }

  function MatchBuild(cs: seq<Candidate>, build: string): Option<Candidate> {
    if First(cs, build, true).Some? then First(cs, build, true) else First(cs, build, false)
  }

  function OthersUnusable(all: seq<Staged>, pinned: string): seq<Unusable> {
    if all == [] then []
    else (if all[0].version != pinned then all[0].scan.unusable else []) + OthersUnusable(all[1..], pinned)
  }

  function OthersUnknown(all: seq<Staged>, pinned: string): seq<string> {
    if all == [] then []
    else (if all[0].version != pinned then all[0].scan.unknown else []) + OthersUnknown(all[1..], pinned)
  }

  function CauseOf(unusable: seq<Unusable>, unknown: seq<string>): Cause {
    if unusable != [] then
      if forall u :: u in unusable ==> u.reason == Unmarked then Unfinished else UnusableBuild
    else if unknown != [] then UnknownLayout
    else NothingStaged
  }

  /** `root` is absent when the staging dir does not exist. */
  function ClassifyNativeStagingDrift(pin: Pin, builds: map<Arch, string>, host: Arch,
                                      root: Option<seq<Named>>): Drift {
    match pin
    case NoPin => Drift(Missing, None, Some(NothingStaged))
    case OtherPath(present) => if present then Drift(Exact, None, None) else Drift(Missing, None, Some(NothingStaged))
    case Pinned(pinned, _) =>
      var dirs := if root.Some? then root.value else [];
      var own := ScanOf(pinned, DirOf(dirs, pinned));
      var build := PinnedBuild(pin, builds, host);
      if own.candidates != [] then
        if build.None? then Drift(Exact, Some(own.candidates[0]), None)
        else
          var m := MatchBuild(own.candidates, build.value);
          if m.Some? then Drift(Exact, m, None) else Drift(OtherBuild, Some(own.candidates[0]), None)
      else if root.None? then Drift(Missing, None, Some(MissingRoot))
      else Fallback(pinned, own, StagedVersions(dirs))
  }

  /** Nothing of the pinned version runs: the newest other one, if any. */
  function Fallback(pinned: string, own: Scan, all: seq<Staged>): Drift {
    var newest := Newest(all, pinned);
    if newest.Some? then
      var kind := if IsPatchBump(pinned, newest.value.version) then Patch else MajorMinor;
      Drift(kind, Some(newest.value.scan.candidates[0]), None)
    else
      Drift(Missing, None,
            Some(CauseOf(own.unusable + OthersUnusable(all, pinned), own.unknown + OthersUnknown(all, pinned))))
  }

  /** Something of another version can be run. */
  ghost predicate OtherRunnable(dirs: seq<Named>, pinned: string) {
    exists n :: n in dirs && Listed(n) && n.name != pinned && Runnable(n.dir)
  }

  lemma EligibleIsRunnable(dirs: seq<Named>, pinned: string)
    ensures Newest(StagedVersions(dirs), pinned).Some? <==> OtherRunnable(dirs, pinned)
  {
    var all := StagedVersions(dirs);
    var r := Newest(all, pinned);
    if r.Some? {
      var v := r.value;
      assert v in all;
      StagedMembers(dirs, v);
      var n :| n in dirs && Listed(n) && v == Staged(n.name, ScanOf(n.name, n.dir));
      ScanFindsWhatRuns(n.name, n.dir);
    }
    if OtherRunnable(dirs, pinned) {
      var n :| n in dirs && Listed(n) && n.name != pinned && Runnable(n.dir);
      ScanFindsWhatRuns(n.name, n.dir);
      var v := Staged(n.name, ScanOf(n.name, n.dir));
      StagedMembers(dirs, v);
      assert v in all && Eligible(v, pinned);
    }
  }

  /** For a parseable pin, "missing" means exactly that there is nothing to run. */
  lemma MissingMeansNothingRuns(pinned: string, pinBuild: Option<string>, builds: map<Arch, string>, host: Arch,
                                root: Option<seq<Named>>)
    ensures var dirs := if root.Some? then root.value else [];
            ClassifyNativeStagingDrift(Pinned(pinned, pinBuild), builds, host, root).kind == Missing <==>
              !Runnable(DirOf(dirs, pinned)) && !OtherRunnable(dirs, pinned)
  {
    var dirs := if root.Some? then root.value else [];
    NothingRunsNothing(pinned, DirOf(dirs, pinned));
    EligibleIsRunnable(dirs, pinned);
  }

  // ---------------------------------------------------------------------------------------------
  // Why nothing was found, read off the directory.

  /** A dir named for a build that cannot be run. */
  predicate Stray(e: Entry) { !Skipped(e.name) && IsBuildName(e.name) && e.isDir && !RunnableBuild(e) }

  predicate Unfamiliar(e: Entry) { !Skipped(e.name) && !IsBuildName(e.name) }

  predicate HasStray(entries: seq<Entry>, marked: bool) {
    exists e :: e in entries && Stray(e) && e.marker.Some? == marked
  }

  predicate HasUnfamiliar(entries: seq<Entry>) { exists e :: e in entries && Unfamiliar(e) }

  predicate Reported(unusable: seq<Unusable>, marked: bool) {
    exists u :: u in unusable && (u.reason != Unmarked) == marked
  }

  lemma StrayIsReported(version: string, e: Entry, marked: bool)
    ensures Reported(UnusableOf(version, e), marked) <==> Stray(e) && e.marker.Some? == marked
  {
    if Stray(e) { assert UnusableOf(version, e)[0] in UnusableOf(version, e); }
  }

  lemma ReportedInBoth(x: seq<Unusable>, y: seq<Unusable>, marked: bool)
    ensures Reported(x + y, marked) <==> Reported(x, marked) || Reported(y, marked)
  {
    assert forall u :: u in x + y <==> u in x || u in y;
  }

  /** The scan of a dir reports a stray build with a marker (without one) exactly when it holds one, and an unknown
      entry exactly when it holds one. */
  lemma {:induction false} ScanReports(version: string, entries: seq<Entry>, marked: bool)
    ensures Reported(ScanEntries(version, entries).unusable, marked) <==> HasStray(entries, marked)
    ensures ScanEntries(version, entries).unknown != [] <==> HasUnfamiliar(entries)
  {
    if entries != [] {
      var front, last := entries[..|entries| - 1], entries[|entries| - 1];
      ScanReports(version, front, marked);
      ReportedInBoth(ScanEntries(version, front).unusable, UnusableOf(version, last), marked);
      StrayIsReported(version, last, marked);
      assert forall e :: e in entries <==> e in front || e == last;
      assert HasUnfamiliar(entries) <==> HasUnfamiliar(front) || Unfamiliar(last);
      assert |ScanEntries(version, entries).unknown| ==
             |ScanEntries(version, front).unknown| + |UnknownOf(version, last)|;
    }
  }

  lemma {:induction false} OthersReport(all: seq<Staged>, pinned: string, marked: bool)
    ensures Reported(OthersUnusable(all, pinned), marked) <==>
            exists v :: v in all && v.version != pinned && Reported(v.scan.unusable, marked)
    ensures OthersUnknown(all, pinned) != [] <==> exists v :: v in all && v.version != pinned && v.scan.unknown != []
  {
    if all != [] {
      OthersReport(all[1..], pinned, marked);
      var first := if all[0].version != pinned then all[0].scan.unusable else [];
      ReportedInBoth(first, OthersUnusable(all[1..], pinned), marked);
      assert forall v :: v in all <==> v == all[0] || v in all[1..];
    }
  }

  /** Another version dir the fallback lists. */
  predicate Other(n: Named, dirs: seq<Named>, pinned: string) { n in dirs && Listed(n) && n.name != pinned }

  /** The pinned version's dir, or another one, holds a stray build with (without) a marker. */
  ghost predicate SeesStray(dirs: seq<Named>, pinned: string, marked: bool) {
    || HasStray(DirOf(dirs, pinned).entries, marked)
    || exists n :: Other(n, dirs, pinned) && HasStray(n.dir.entries, marked)
  }

  ghost predicate SeesUnfamiliar(dirs: seq<Named>, pinned: string) {
    HasUnfamiliar(DirOf(dirs, pinned).entries) || exists n :: Other(n, dirs, pinned) && HasUnfamiliar(n.dir.entries)
  }

  lemma OthersAreListed(dirs: seq<Named>, pinned: string, marked: bool)
    ensures (exists v :: v in StagedVersions(dirs) && v.version != pinned && Reported(v.scan.unusable, marked)) <==>
            exists n :: Other(n, dirs, pinned) && HasStray(n.dir.entries, marked)
    ensures (exists v :: v in StagedVersions(dirs) && v.version != pinned && v.scan.unknown != []) <==>
            exists n :: Other(n, dirs, pinned) && HasUnfamiliar(n.dir.entries)
  {
    var all := StagedVersions(dirs);
    forall n | Other(n, dirs, pinned)
      ensures Staged(n.name, ScanOf(n.name, n.dir)) in all
      ensures HasStray(n.dir.entries, marked) <==> Reported(ScanOf(n.name, n.dir).unusable, marked)
      ensures HasUnfamiliar(n.dir.entries) <==> ScanOf(n.name, n.dir).unknown != []
    {
      StagedMembers(dirs, Staged(n.name, ScanOf(n.name, n.dir)));
      ScanReports(n.name, n.dir.entries, marked);
    }
    forall v | v in all && v.version != pinned
      ensures exists n :: Other(n, dirs, pinned) && v == Staged(n.name, ScanOf(n.name, n.dir))
    {
      StagedMembers(dirs, v);
      var n :| n in dirs && Listed(n) && v == Staged(n.name, ScanOf(n.name, n.dir));
      assert Other(n, dirs, pinned);
    }
  }

  lemma MissingSees(pinned: string, dirs: seq<Named>, marked: bool)
    ensures var own, all := ScanOf(pinned, DirOf(dirs, pinned)), StagedVersions(dirs);
            && (Reported(own.unusable + OthersUnusable(all, pinned), marked) <==> SeesStray(dirs, pinned, marked))
            && (own.unknown + OthersUnknown(all, pinned) != [] <==> SeesUnfamiliar(dirs, pinned))
  {
    var own, all := ScanOf(pinned, DirOf(dirs, pinned)), StagedVersions(dirs);
    ScanReports(pinned, DirOf(dirs, pinned).entries, marked);
    OthersReport(all, pinned, marked);
    OthersAreListed(dirs, pinned, marked);
    ReportedInBoth(own.unusable, OthersUnusable(all, pinned), marked);
  }

  lemma CauseSays(unusable: seq<Unusable>, unknown: seq<string>)
    ensures CauseOf(unusable, unknown) == UnusableBuild <==> Reported(unusable, true)
    ensures CauseOf(unusable, unknown) == Unfinished <==> Reported(unusable, false) && !Reported(unusable, true)
    ensures CauseOf(unusable, unknown) == UnknownLayout <==>
              !Reported(unusable, false) && !Reported(unusable, true) && unknown != []
  {
    if unusable != [] { assert unusable[0] in unusable; }
  }

  /** With nothing to run, the cause says what the considered dirs hold: unusable when some stray build has a marker,
      unfinished when all that are there lack theirs, an unknown layout when there are only unfamiliar entries. */
  lemma MissingSaysWhy(pinned: string, pinBuild: Option<string>, builds: map<Arch, string>, host: Arch,
                       dirs: seq<Named>)
    requires !Runnable(DirOf(dirs, pinned)) && !OtherRunnable(dirs, pinned)
    ensures var cause := ClassifyNativeStagingDrift(Pinned(pinned, pinBuild), builds, host, Some(dirs)).cause;
            && (cause == Some(UnusableBuild) <==> SeesStray(dirs, pinned, true))
            && (cause == Some(Unfinished) <==> SeesStray(dirs, pinned, false) && !SeesStray(dirs, pinned, true))
            && (cause == Some(UnknownLayout) <==>
                  !SeesStray(dirs, pinned, false) && !SeesStray(dirs, pinned, true) && SeesUnfamiliar(dirs, pinned))
  {
    var own, all := ScanOf(pinned, DirOf(dirs, pinned)), StagedVersions(dirs);
    NothingRunsNothing(pinned, DirOf(dirs, pinned));
    EligibleIsRunnable(dirs, pinned);
    MissingSees(pinned, dirs, true);
    MissingSees(pinned, dirs, false);
    CauseSays(own.unusable + OthersUnusable(all, pinned), own.unknown + OthersUnknown(all, pinned));
  }

  // ---------------------------------------------------------------------------------------------
  // What is run.

  /** With no override: run a candidate, run the pinned path itself, or fail. */
  datatype Resolution = Run(c: Candidate) | RunPinnedPath | Refuse(kind: Kind)

  function ResolveHostAgentBinary(d: Drift): Resolution {
    match d.kind
    case Exact => if d.chosen.Some? then Run(d.chosen.value) else RunPinnedPath
    case Patch => if d.chosen.Some? then Run(d.chosen.value) else Refuse(Patch)
    case _ => Refuse(d.kind)
  }

  predicate HasNested(dir: VersionDir, build: string) {
    exists e :: e in dir.entries && RunnableBuild(e) && e.name == build
  }

  /** An install of that build is there: nested, or flat with a marker that names it. */
  predicate HasBuild(dir: VersionDir, build: string) {
    || HasNested(dir, build)
    || (dir.flatApp && dir.flatMarker.Some? && dir.flatMarker.value.build == build)
  }

  ghost predicate Offers(cs: seq<Candidate>, layout: Layout, build: string) {
    exists c :: c in cs && c.layout == layout && c.build == Some(build)
  }

  lemma NestedOffered(version: string, dir: VersionDir, build: string)
    ensures Offers(Candidates(version, dir), Nested, build) <==> HasNested(dir, build)
  {
    ScanFindsWhatRuns(version, dir);
    if HasNested(dir, build) {
      var e :| e in dir.entries && RunnableBuild(e) && e.name == build;
      var c := NestedCandidate(version, e);
      assert c in Candidates(version, dir) && c.layout == Nested && c.build == Some(build);
    }
    if Offers(Candidates(version, dir), Nested, build) {
      var c :| c in Candidates(version, dir) && c.layout == Nested && c.build == Some(build);
      assert InstalledIn(c, dir);
    }
  }

  lemma FlatOffered(version: string, dir: VersionDir, build: string)
    ensures Offers(Candidates(version, dir), Flat, build) <==>
              dir.flatApp && dir.flatMarker.Some? && dir.flatMarker.value.build == build
  {
    ScanFindsWhatRuns(version, dir);
    if dir.flatApp && dir.flatMarker.Some? && dir.flatMarker.value.build == build {
      var c := FlatRanked(version, dir)[0];
      assert c in FlatRanked(version, dir) && c.layout == Flat && c.build == Some(build);
    }
    if Offers(Candidates(version, dir), Flat, build) {
      var c :| c in Candidates(version, dir) && c.layout == Flat && c.build == Some(build);
      assert InstalledIn(c, dir);
    }
  }

  lemma MatchPrefersNested(cs: seq<Candidate>, build: string)
    ensures var m := MatchBuild(cs, build);
            && (m.Some? <==> Offers(cs, Nested, build) || Offers(cs, Flat, build))
            && (m.Some? ==> m.value in cs && m.value.build == Some(build))
            && (m.Some? && m.value.layout == Flat ==> !Offers(cs, Nested, build))
  {}

  lemma PinnedBuildMatched(version: string, dir: VersionDir, build: string)
    ensures var m := MatchBuild(Candidates(version, dir), build);
            && (m.Some? <==> HasBuild(dir, build))
            && (m.Some? ==> m.value.version == version && InstalledIn(m.value, dir) && m.value.build == Some(build))
            && (m.Some? && m.value.layout == Flat ==> !HasNested(dir, build))
  {
    NestedOffered(version, dir, build);
    FlatOffered(version, dir, build);
    MatchPrefersNested(Candidates(version, dir), build);
    ScanFindsWhatRuns(version, dir);
  }

  lemma PinnedFirst(version: string, dir: VersionDir)
    requires Runnable(dir)
    ensures var cs := Candidates(version, dir);
            cs != [] && cs[0].version == version && InstalledIn(cs[0], dir) && IsBest(cs[0], dir)
  {
    ScanFindsWhatRuns(version, dir);
    FirstIsBest(version, dir);
    assert Candidates(version, dir)[0] in Candidates(version, dir);
  }

  /** What is run when something of the pinned version is there. */
  lemma PinnedIsRun(pinned: string, pinBuild: Option<string>, builds: map<Arch, string>, host: Arch,
                    root: Option<seq<Named>>)
    requires Candidates(pinned, DirOf(if root.Some? then root.value else [], pinned)) != []
    ensures var cs := Candidates(pinned, DirOf(if root.Some? then root.value else [], pinned));
            var build := PinnedBuild(Pinned(pinned, pinBuild), builds, host);
            var r := ResolveHostAgentBinary(ClassifyNativeStagingDrift(Pinned(pinned, pinBuild), builds, host, root));
            r == if build.None? then Run(cs[0])
                 else if MatchBuild(cs, build.value).Some? then Run(MatchBuild(cs, build.value).value)
                 else Refuse(OtherBuild)
  {}

  /** What is run of the pinned version's dir: with no build pinned its best install; with one, an install of that
      build, a nested one if there is any, and none if there is not. */
  ghost predicate RunsFrom(r: Resolution, version: string, dir: VersionDir, build: Option<string>) {
    && (r.Run? ==> r.c.version == version && InstalledIn(r.c, dir))
    && match build
       case None => r.Run? && IsBest(r.c, dir)
       case Some(b) =>
         && (HasBuild(dir, b) ==> r.Run? && r.c.build == build && (r.c.layout == Flat ==> !HasNested(dir, b)))
         && (!HasBuild(dir, b) ==> r == Refuse(OtherBuild))
  }

  /** While an install of the pinned version is there, only that version is run. Its build is the one pinned for this
      host; where builds are pinned for other hosts only, the version alone counts, and where none are, the build in the
      path. */
  lemma ResolveRunsThePin(pinned: string, pinBuild: Option<string>, builds: map<Arch, string>, host: Arch,
                          root: Option<seq<Named>>)
    requires Runnable(DirOf(if root.Some? then root.value else [], pinned))
    ensures var dir := DirOf(if root.Some? then root.value else [], pinned);
            var r := ResolveHostAgentBinary(ClassifyNativeStagingDrift(Pinned(pinned, pinBuild), builds, host, root));
            && (host in builds ==> RunsFrom(r, pinned, dir, Some(builds[host])))
            && (host !in builds && builds != map[] ==> RunsFrom(r, pinned, dir, None))
            && (builds == map[] ==> RunsFrom(r, pinned, dir, pinBuild))
  {
    var dir := DirOf(if root.Some? then root.value else [], pinned);
    PinnedFirst(pinned, dir);
    PinnedIsRun(pinned, pinBuild, builds, host, root);
    PinnedBuildIs(Pinned(pinned, pinBuild), builds, host);
    var build := PinnedBuild(Pinned(pinned, pinBuild), builds, host);
    if build.Some? { PinnedBuildMatched(pinned, dir, build.value); }
  }

  lemma PinnedBuildIs(pin: Pin, builds: map<Arch, string>, host: Arch)
    requires pin.Pinned?
    ensures host in builds ==> PinnedBuild(pin, builds, host) == Some(builds[host])
    ensures host !in builds && builds != map[] ==> PinnedBuild(pin, builds, host) == None
    ensures builds == map[] ==> PinnedBuild(pin, builds, host) == pin.build
  {
    if builds.Keys == {} { assert builds == map[]; }
  }

  /** A path in neither layout is run itself if it is there; without a path nothing is. */
  lemma OtherPinsAreNotScanned(builds: map<Arch, string>, host: Arch, root: Option<seq<Named>>, present: bool)
    ensures ResolveHostAgentBinary(ClassifyNativeStagingDrift(NoPin, builds, host, root)) == Refuse(Missing)
    ensures ResolveHostAgentBinary(ClassifyNativeStagingDrift(OtherPath(present), builds, host, root)) ==
            if present then RunPinnedPath else Refuse(Missing)
  {}

  // ---------------------------------------------------------------------------------------------
  // What the names of a listing say.

  /** Twelve lower-case hexadecimal digits. */
  predicate NamesBuild(name: string) { |name| == 12 && forall c :: c in name ==> c in "0123456789abcdef" }

  lemma BuildNameIs(name: string)
    ensures IsBuildName(name) <==> NamesBuild(name)
  {
    forall c ensures IsHex(c) <==> c in "0123456789abcdef" { HexIs(c); }
    if IsBuildName(name) {
      forall c | c in name ensures IsHex(c) { var i :| 0 <= i < |name| && name[i] == c; }
    }
    if NamesBuild(name) {
      forall i | 0 <= i < 12 ensures IsHex(name[i]) { assert name[i] in name; }
    }
  }

  lemma HexIs(c: char)
    ensures IsHex(c) <==> c in "0123456789abcdef"
  {
    var digits := "0123456789abcdef";
    if '0' <= c <= '9' { assert digits[c as int - '0' as int] == c; }
    if 'a' <= c <= 'f' { assert digits[10 + (c as int - 'a' as int)] == c; }
  }

  /** An entry can be run exactly when it is a real dir named for a build, with the agent in it and a marker that names
      that build. */
  lemma RunnableIs(e: Entry)
    ensures RunnableBuild(e) <==>
              NamesBuild(e.name) && e.isDir && e.hasApp && e.marker.Some? && e.marker.value.build == e.name
  {
    BuildNameIs(e.name);
    if NamesBuild(e.name) { assert e.name[0] in e.name && '.' !in e.name; }
  }

  /** An entry is unfamiliar exactly when it is not named for a build, not hidden and not the agent itself. */
  lemma UnfamiliarIs(e: Entry)
    ensures Unfamiliar(e) <==> !NamesBuild(e.name) && !("." <= e.name) && e.name !in {"claude", "claude.app"}
  {
    BuildNameIs(e.name);
  }

  /** The fallback considers exactly the version dirs that are real and not hidden. */
  lemma ListedIs(n: Named)
    ensures Listed(n) <==> n.dir.realDir && !("." <= n.name)
  {}

  /** A version's dir is the entry of that name; without one nothing is in it. */
  lemma {:induction false} DirOfIs(dirs: seq<Named>, name: string)
    ensures forall n :: n in dirs && n.name == name && OneOfName(dirs, name) ==> DirOf(dirs, name) == n.dir
    ensures (forall n :: n in dirs ==> n.name != name) ==> DirOf(dirs, name) == NO_DIR
  {
    if dirs != [] && dirs[0].name != name {
      DirOfIs(dirs[1..], name);
      assert forall n :: n in dirs <==> n == dirs[0] || n in dirs[1..];
      assert OneOfName(dirs, name) ==> OneOfName(dirs[1..], name);
    } else if dirs != [] {
      assert dirs[0] in dirs;
    }
  }

  predicate OneOfName(dirs: seq<Named>, name: string) {
    forall m, n :: m in dirs && n in dirs && m.name == name && n.name == name ==> m == n
  }

  /** `c` is the best install of another version than the pinned one, and no other version that runs is newer. */
  ghost predicate IsNewestOther(c: Candidate, dirs: seq<Named>, pinned: string) {
    && c.version != pinned
    && (exists n :: n in dirs && Listed(n) && n.name == c.version && InstalledIn(c, n.dir) && IsBest(c, n.dir))
    && forall n :: n in dirs && Listed(n) && n.name != pinned && Runnable(n.dir) ==> !Older(c.version, n.name)
  }

  /** When nothing of the pinned version runs, an agent is run exactly when the newest other version is a patch apart,
      and then that one is. */
  lemma ResolveFallsBackToAPatch(pinned: string, pinBuild: Option<string>, builds: map<Arch, string>, host: Arch,
                                 root: Option<seq<Named>>)
    requires !Runnable(DirOf(if root.Some? then root.value else [], pinned))
    ensures var dirs := if root.Some? then root.value else [];
            var r := ResolveHostAgentBinary(ClassifyNativeStagingDrift(Pinned(pinned, pinBuild), builds, host, root));
            var newest := Newest(StagedVersions(dirs), pinned);
            && r != RunPinnedPath
            && (r.Run? <==> newest.Some? && IsPatchBump(pinned, newest.value.version))
            && (r.Run? ==> r.c.version == newest.value.version && IsNewestOther(r.c, dirs, pinned))
            && (r.Refuse? ==> r.kind == if OtherRunnable(dirs, pinned) then MajorMinor else Missing)
  {
    var dirs := if root.Some? then root.value else [];
    EligibleIsRunnable(dirs, pinned);
    NothingRunsNothing(pinned, DirOf(dirs, pinned));
    NothingListedWithoutRoot(pinned);
    FallbackRunsAPatch(pinned, ScanOf(pinned, DirOf(dirs, pinned)), dirs);
  }

  lemma FallbackRunsAPatch(pinned: string, own: Scan, dirs: seq<Named>)
    ensures var r := ResolveHostAgentBinary(Fallback(pinned, own, StagedVersions(dirs)));
            var newest := Newest(StagedVersions(dirs), pinned);
            && r != RunPinnedPath
            && (r.Run? <==> newest.Some? && IsPatchBump(pinned, newest.value.version))
            && (r.Run? ==> r.c.version == newest.value.version && IsNewestOther(r.c, dirs, pinned))
            && (r.Refuse? ==> r.kind == if newest.Some? then MajorMinor else Missing)
  {
    NewestIsChosen(dirs, pinned);
  }

  lemma NothingListedWithoutRoot(pinned: string)
    ensures Newest(StagedVersions([]), pinned).None?
  {
    assert Scanned([]) == [] && StagedVersions([]) == [];
  }

  lemma NewestIsChosen(dirs: seq<Named>, pinned: string)
    ensures var r := Newest(StagedVersions(dirs), pinned);
            r.Some? ==>
              r.value.scan.candidates[0].version == r.value.version
                && IsNewestOther(r.value.scan.candidates[0], dirs, pinned)
  {
    var all := StagedVersions(dirs);
    var r := Newest(all, pinned);
    if r.Some? {
      var v, c := r.value, r.value.scan.candidates[0];
      assert v in all && c in v.scan.candidates;
      StagedMembers(dirs, v);
      var n :| n in dirs && Listed(n) && v == Staged(n.name, ScanOf(n.name, n.dir));
      ScanFindsWhatRuns(n.name, n.dir);
      FirstIsBest(n.name, n.dir);
      NewestIsMaximal(dirs, pinned);
      forall m | m in dirs && Listed(m) && m.name != pinned && Runnable(m.dir) ensures !Older(c.version, m.name) {
        var w := Staged(m.name, ScanOf(m.name, m.dir));
        StagedMembers(dirs, w);
        ScanFindsWhatRuns(m.name, m.dir);
        assert Eligible(w, pinned);
      }
    }
  }
}
