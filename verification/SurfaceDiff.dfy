/** scripts/check-surface.ts: which flattened keys of two surfaces are added, removed, changed or widened. */
module SurfaceDiff {
  import opened Surface
  import opened Options

  // ---------------------------------------------------------------------------------------------
  // inputReclassify: on the schemas a user writes, which keys a change widens and which it narrows.

  predicate Existed(bf: Leaves, path: Path) {
    exists p :: p in bf && path <= p
  }

  predicate IsNum(v: Val) { v.Scalar? && v.a.Num? }

  predicate IsStr(v: Val) { v.Scalar? && v.a.Str? }

  predicate Loosened(kind: Kind, b: int, c: int) {
    if LowerBound(kind) then c < b else c > b
  }

  /** The kinds of the source's first loop. */
  predicate Presence(kind: Kind) {
    kind.Required? || kind.Closed? || kind.Const? || Constraint(kind)
  }

  /** An exclusive bound gives way to an inclusive one at or beyond it. */
  predicate Replaced(b: Leaf, c: Leaf, exc: Kind, inc: Kind) {
    && exc in b && IsNum(b[exc]) && exc !in c
    && inc in c && IsNum(c[inc]) && inc !in b
    && (if LowerBound(exc) then c[inc].a.n <= b[exc].a.n else c[inc].a.n >= b[exc].a.n)
  }

  predicate ReplacesBound(b: Leaf, c: Leaf, kind: Kind) {
    || (kind.Minimum? && Replaced(b, c, ExclusiveMinimum, Minimum))
    || (kind.Maximum? && Replaced(b, c, ExclusiveMaximum, Maximum))
  }

  predicate BoundReplaced(b: Leaf, c: Leaf, kind: Kind) {
    || (kind.ExclusiveMinimum? && Replaced(b, c, ExclusiveMinimum, Minimum))
    || (kind.ExclusiveMaximum? && Replaced(b, c, ExclusiveMaximum, Maximum))
  }

  function TypeNames(v: Val): seq<Atom> {
    match v case Scalar(a) => [a] case List(vs) => vs
  }

  predicate Subset(xs: seq<Atom>, ys: seq<Atom>) {
    forall i :: 0 <= i < |xs| ==> xs[i] in ys
  }

  /** The new type set keeps every old type. */
  predicate TypeKept(b: Leaf, c: Leaf) {
    Type in b && Type in c && Subset(TypeNames(b[Type]), TypeNames(c[Type]))
  }

  predicate WidensAt(b: Leaf, c: Leaf, inCurrent: bool, kind: Kind, member: Option<string>) {
    var ofB := LeafFlat(b, kind, member).Some?;
    var ofC := LeafFlat(c, kind, member).Some?;
    || (Presence(kind) && kind in b && kind !in c && ofB)
    || (Presence(kind) && kind in b && kind in c && IsNum(b[kind]) && IsNum(c[kind])
        && Loosened(kind, b[kind].a.n, c[kind].a.n) && ofC)
    || (kind.Enum? && Enum in b && Enum !in c && inCurrent && ofB)
    || (BoundReplaced(b, c, kind) && ofB)
    || (ReplacesBound(b, c, kind) && ofC)
    || (kind.Type? && TypeKept(b, c) && ofB)
    || (kind.Type? && TypeKept(b, c) && ofC
        && match c[Type]
           case Scalar(a) => a.Str? && HasLabel(TypeNames(b[Type]), a.s)
           case List(_) => member.Some? && HasLabel(TypeNames(b[Type]), member.value))
  }

  /** Whether the leaves of a path new in the current schema sit in a union branch that can reject an old file. */
  predicate BranchNarrows(bf: Leaves, consumed: set<Key>, file: string, path: Path, i: nat)
    decreases |path| - i
  {
    if i >= |path| then false
    else if !path[i].Arm? || (exists p :: p in bf && path[..i + 1] <= p) then
      BranchNarrows(bf, consumed, file, path, i + 1)
    else if !Existed(bf, path[..i]) then false
    else
      var branch := path[i].branch;
      var firstOfKind := !exists p :: p in bf && HasBranchAfter(p, path[..i], branch);
      var keepsOld := exists x ::
        x in consumed && x.SchemaKey? && x.file == file && HasBranchAfter(x.path, path[..i], branch);
      branch.AllOf? || branch.OneOf? || (firstOfKind && !keepsOld)
  }

  predicate HasBranchAfter(p: Path, prefix: Path, branch: Branch) {
    prefix < p && p[|prefix|].Arm? && p[|prefix|].branch == branch
  }

  function Parent(path: Path): Path {
    if path == [] then [] else path[..|path| - 1]
  }

  predicate NarrowsAt(bf: Leaves, b: Leaf, c: Leaf, path: Path, kind: Kind, member: Option<string>) {
    && kind !in b && LeafFlat(c, kind, member).Some?
    && (|| (Presence(kind) && (if kind.Required? then Existed(bf, Parent(path)) else Existed(bf, path))
            && !ReplacesBound(b, c, kind))
        || ((kind.Enum? || kind.Type?) && Existed(bf, path)))
  }

  /** Both surfaces have this input schema. */
  predicate Compared(b: Surface, c: Surface, file: string) {
    file in INPUT_SCHEMAS && file in b.schemas && file in c.schemas
  }

  predicate Widens(b: Surface, c: Surface, k: Key) {
    && k.SchemaKey? && Compared(b, c, k.file)
    && WidensAt(LeafAt(b.schemas[k.file], k.path), LeafAt(c.schemas[k.file], k.path), k.path in c.schemas[k.file],
                k.kind, k.member)
  }

  predicate Narrows(b: Surface, c: Surface, consumed: set<Key>, k: Key) {
    && k.SchemaKey? && Compared(b, c, k.file)
    && var bf, cf := b.schemas[k.file], c.schemas[k.file];
    && (|| NarrowsAt(bf, LeafAt(bf, k.path), LeafAt(cf, k.path), k.path, k.kind, k.member)
        || (k.path !in bf && LeafFlat(LeafAt(cf, k.path), k.kind, k.member).Some?
            && BranchNarrows(bf, consumed, k.file, k.path, 0)))
  }

  // ---------------------------------------------------------------------------------------------
  // Leaves that moved into a union branch.

  /** The direct leaves of one path of one file. */
  type Direct = map<Key, FlatVal>

  datatype Decision = Undecided | MovedIntact | MovedNarrowed

  /** A surface flattened: the keys in insertion order, and their values. */
  datatype Flattening = Flattening(keys: seq<Key>, flat: map<Key, FlatVal>) {
    /** The keys are listed once each. */
    ghost predicate Listed() {
      && (forall i, j :: 0 <= i < j < |keys| ==> keys[i] != keys[j])
      && (forall k :: k in keys <==> k in flat)
    }

    /** The flattening of s. */
    ghost predicate Of(s: Surface) {
      && Listed()
      && (forall k :: k in flat <==> At(s, k).Some?)
      && (forall k :: k in flat ==> flat[k] == At(s, k).value)
    }

    function DirectLeaves(file: string, path: Path): Direct {
      map k | k in flat && k.SchemaKey? && k.file == file && k.path == path :: flat[k]
    }
  }

  /** The key of the same leaf inside a branch. */
  function InArm(k: Key, arm: Step): Key
    requires k.SchemaKey?
  {
    k.(path := k.path + [arm])
  }

  predicate KeepsAll(was: Direct, leaves: Direct, arm: Step)
    requires forall k :: k in was ==> k.SchemaKey?
  {
    forall k :: k in was ==> InArm(k, arm) in leaves && leaves[InArm(k, arm)] == was[k]
  }

  /** Both ways: the branch's leaves are the old ones and nothing more. */
  predicate IsCopy(was: Direct, leaves: Direct, arm: Step)
    requires forall k :: k in was ==> k.SchemaKey?
  {
    KeepsAll(was, leaves, arm) && forall x :: x in leaves ==> exists k :: k in was && x == InArm(k, arm)
  }

  lemma {:induction false} MovedKeys(keys: set<Key>, arm: Step)
    requires forall k :: k in keys ==> k.SchemaKey?
    ensures |set k | k in keys :: InArm(k, arm)| == |keys|
  {
    var image := set k | k in keys :: InArm(k, arm);
    if keys == {} {
      assert image == {};
    } else {
      var x :| x in keys;
      MovedKeys(keys - {x}, arm);
      assert image == (set k | k in keys - {x} :: InArm(k, arm)) + {InArm(x, arm)};
      forall k | k in keys - {x} ensures InArm(k, arm) != InArm(x, arm) {
        assert InArm(k, arm).path[..|k.path|] == k.path && InArm(x, arm).path[..|x.path|] == x.path;
      }
    }
  }

  /** The source compares sizes: a branch that keeps every old leaf and has as many leaves has no other. */
  lemma SameSizeIsCopy(was: Direct, leaves: Direct, arm: Step)
    requires forall k :: k in was ==> k.SchemaKey?
    requires KeepsAll(was, leaves, arm)
    ensures |leaves| == |was| <==> IsCopy(was, leaves, arm)
  {
    var image := set k | k in was.Keys :: InArm(k, arm);
    MovedKeys(was.Keys, arm);
    assert image <= leaves.Keys;
    SubsetSize(image, leaves.Keys);
    assert IsCopy(was, leaves, arm) <==> leaves.Keys <= image;
  }

  lemma SubsetSize<T>(xs: set<T>, ys: set<T>)
    requires xs <= ys
    ensures |xs| == |ys| <==> ys <= xs
  {
    var extra := ys - xs;
    assert ys == xs + extra;
    assert |ys| == |xs| + |extra|;
  }

  predicate UnionArm(s: Step) { s.Arm? && (s.branch.AnyOf? || s.branch.OneOf?) }

  ghost predicate ArmKeeps(b: Flattening, c: Flattening, file: string, path: Path, arm: Step) {
    UnionArm(arm) && KeepsAll(b.DirectLeaves(file, path), c.DirectLeaves(file, path + [arm]), arm)
  }

  ghost predicate ArmIsCopy(b: Flattening, c: Flattening, file: string, path: Path, arm: Step) {
    UnionArm(arm) && IsCopy(b.DirectLeaves(file, path), c.DirectLeaves(file, path + [arm]), arm)
  }

  ghost function Verdict(b: Flattening, c: Flattening, file: string, path: Path): Decision {
    if exists arm :: ArmIsCopy(b, c, file, path, arm) then MovedIntact
    else if exists arm :: ArmKeeps(b, c, file, path, arm) then MovedNarrowed
    else Undecided
  }

  /** The current surface lacks a direct leaf of this path. */
  ghost predicate LeafLost(b: Flattening, c: Flattening, file: string, path: Path) {
    exists k :: k in b.DirectLeaves(file, path) && k !in c.flat
  }

  /** Consumed keys are the leaves of branches that are an exact copy of the leaves of the path they branch from, where
      one of those is gone. */
  ghost predicate ConsumedSound(b: Flattening, c: Flattening, consumed: set<Key>) {
    forall x :: x in consumed ==> ConsumedKey(b, c, x)
  }

  ghost predicate ConsumedKey(b: Flattening, c: Flattening, x: Key) {
    && x in c.flat && x.SchemaKey? && x.path != []
    && ArmIsCopy(b, c, x.file, Parent(x.path), x.path[|x.path| - 1]) && LeafLost(b, c, x.file, Parent(x.path))
  }

  predicate LeafUnder(keys: seq<Key>, file: string, path: Path) {
    exists i :: 0 <= i < |keys| && keys[i].SchemaKey? && keys[i].file == file && path <= keys[i].path
  }

  /** The branches of `path`, in the order their leaves appear. */
  method Branches(keys: seq<Key>, file: string, path: Path) returns (arms: seq<Step>)
    ensures forall a :: a in arms <==> UnionArm(a) && LeafUnder(keys, file, path + [a])
  {
    arms := [];
    for i := 0 to |keys|
      invariant forall a :: a in arms <==> UnionArm(a) && LeafUnder(keys[..i], file, path + [a])
    {
      var k := keys[i];
      if k.SchemaKey? && k.file == file && path < k.path && UnionArm(k.path[|path|]) && k.path[|path|] !in arms {
        arms := arms + [k.path[|path|]];
      }
      forall a | UnionArm(a) ensures a in arms <==> LeafUnder(keys[..i + 1], file, path + [a]) {
        LeafUnderNext(keys, i, file, path, a);
      }
    }
    assert keys[..|keys|] == keys;
  }

  lemma LeafUnderNext(keys: seq<Key>, i: nat, file: string, path: Path, a: Step)
    requires i < |keys|
    ensures LeafUnder(keys[..i + 1], file, path + [a]) <==>
            || LeafUnder(keys[..i], file, path + [a])
            || (var k := keys[i]; k.SchemaKey? && k.file == file && path < k.path && k.path[|path|] == a)
  {
    var k := keys[i];
    if k.SchemaKey? && k.file == file {
      if path < k.path && k.path[|path|] == a {
        assert path + [a] == k.path[..|path| + 1];
        assert keys[..i + 1][i] == k;
      }
      if path + [a] <= k.path { assert (path + [a])[|path|] == a; }
    }
    if LeafUnder(keys[..i], file, path + [a]) {
      var j :| 0 <= j < i && keys[..i][j].SchemaKey? && keys[..i][j].file == file && path + [a] <= keys[..i][j].path;
      assert keys[..i + 1][j] == keys[j];
    }
  }

  lemma KeepingArmHasLeaves(b: Flattening, c: Flattening, file: string, path: Path, arm: Step)
    requires c.Listed() && b.DirectLeaves(file, path) != map[] && ArmKeeps(b, c, file, path, arm)
    ensures LeafUnder(c.keys, file, path + [arm])
  {
    var k :| k in b.DirectLeaves(file, path);
    assert InArm(k, arm) in c.DirectLeaves(file, path + [arm]);
    assert InArm(k, arm) in c.keys;
  }

  /** A branch and its direct leaves. */
  datatype Candidate = Candidate(arm: Step, leaves: Direct)

  predicate Keeps(was: Direct, c: Candidate)
    requires forall k :: k in was ==> k.SchemaKey?
  {
    KeepsAll(was, c.leaves, c.arm)
  }

  predicate Copies(was: Direct, c: Candidate)
    requires forall k :: k in was ==> k.SchemaKey?
  {
    IsCopy(was, c.leaves, c.arm)
  }

  method FirstCopy(was: Direct, cs: seq<Candidate>) returns (verdict: Decision, taken: nat)
    requires forall k :: k in was ==> k.SchemaKey?
    ensures verdict.MovedIntact? ==> taken < |cs| && Copies(was, cs[taken])
    ensures !verdict.MovedIntact? ==> forall j :: 0 <= j < |cs| ==> !Copies(was, cs[j])
    ensures !verdict.MovedIntact? ==> (verdict.MovedNarrowed? <==> exists j :: 0 <= j < |cs| && Keeps(was, cs[j]))
  {
    verdict, taken := Undecided, 0;
    for i := 0 to |cs|
      invariant !verdict.MovedIntact?
      invariant forall j :: 0 <= j < i ==> !Copies(was, cs[j])
      invariant verdict.MovedNarrowed? <==> exists j :: 0 <= j < i && Keeps(was, cs[j])
    {
      var keeps := Keeps(was, cs[i]);
      if keeps {
        SameSizeIsCopy(was, cs[i].leaves, cs[i].arm);
        if |cs[i].leaves| == |was| {
          return MovedIntact, i;
        }
        verdict := MovedNarrowed;
      }
    }
  }

  /** Decide one parent path: is some branch the old shape, intact or narrowed? */
  method DecidePath(b: Flattening, c: Flattening, file: string, path: Path)
    returns (verdict: Decision, taken: Option<Step>)
    requires c.Listed() && b.DirectLeaves(file, path) != map[]
    ensures verdict == Verdict(b, c, file, path)
    ensures verdict.MovedIntact? <==> taken.Some?
    ensures taken.Some? ==> ArmIsCopy(b, c, file, path, taken.value)
  {
    var arms := Branches(c.keys, file, path);
    var cs := seq(|arms|, i requires 0 <= i < |arms| => Candidate(arms[i], c.DirectLeaves(file, path + [arms[i]])));
    var n;
    verdict, n := FirstCopy(b.DirectLeaves(file, path), cs);
    taken := if verdict.MovedIntact? then Some(arms[n]) else None;
    forall arm | ArmKeeps(b, c, file, path, arm) ensures arm in arms {
      KeepingArmHasLeaves(b, c, file, path, arm);
    }
    VerdictOfCandidates(b, c, file, path, arms, cs);
  }

  lemma VerdictOfCandidates(b: Flattening, c: Flattening, file: string, path: Path, arms: seq<Step>, cs: seq<Candidate>)
    requires forall arm :: ArmKeeps(b, c, file, path, arm) ==> arm in arms
    requires forall a :: a in arms ==> UnionArm(a)
    requires |cs| == |arms|
    requires forall i :: 0 <= i < |arms| ==> cs[i] == Candidate(arms[i], c.DirectLeaves(file, path + [arms[i]]))
    ensures var was := b.DirectLeaves(file, path);
            Verdict(b, c, file, path) ==
            if exists j :: 0 <= j < |cs| && Copies(was, cs[j]) then MovedIntact
            else if exists j :: 0 <= j < |cs| && Keeps(was, cs[j]) then MovedNarrowed
            else Undecided
    ensures forall j :: 0 <= j < |cs| && Copies(b.DirectLeaves(file, path), cs[j]) ==>
              ArmIsCopy(b, c, file, path, arms[j])
  {
    forall j | 0 <= j < |cs|
      ensures Keeps(b.DirectLeaves(file, path), cs[j]) <==> ArmKeeps(b, c, file, path, arms[j])
      ensures Copies(b.DirectLeaves(file, path), cs[j]) <==> ArmIsCopy(b, c, file, path, arms[j])
    {
      assert arms[j] in arms;
      CandidateIsArm(b, c, file, path, arms[j], cs[j]);
    }
    CopyKeeps(b, c, file, path);
  }

  lemma CandidateIsArm(b: Flattening, c: Flattening, file: string, path: Path, arm: Step, x: Candidate)
    requires UnionArm(arm) && x == Candidate(arm, c.DirectLeaves(file, path + [arm]))
    ensures Keeps(b.DirectLeaves(file, path), x) <==> ArmKeeps(b, c, file, path, arm)
    ensures Copies(b.DirectLeaves(file, path), x) <==> ArmIsCopy(b, c, file, path, arm)
  {}

  lemma CopyKeeps(b: Flattening, c: Flattening, file: string, path: Path)
    ensures forall arm :: ArmIsCopy(b, c, file, path, arm) ==> ArmKeeps(b, c, file, path, arm)
  {}

  /** Some copy of this path's leaves has been consumed whole. */
  ghost predicate CopyConsumed(b: Flattening, c: Flattening, consumed: set<Key>, file: string, path: Path) {
    exists arm :: ArmIsCopy(b, c, file, path, arm) && c.DirectLeaves(file, path + [arm]).Keys <= consumed
  }

  /** Wherever the verdict is "moved intact", it rests on a consumed copy. */
  ghost predicate ConsumedComplete(b: Flattening, c: Flattening, consumed: set<Key>) {
    forall k :: k in b.flat && k !in c.flat && k.SchemaKey? && Verdict(b, c, k.file, k.path).MovedIntact? ==>
      CopyConsumed(b, c, consumed, k.file, k.path)
  }

  predicate MovedKey(c: Flattening, k: Key) { k !in c.flat && k.SchemaKey? }

  ghost predicate DecidedOk(b: Flattening, c: Flattening, decided: map<Key, Decision>, consumed: set<Key>) {
    && (forall k :: k in decided ==> DecidedKey(b, c, decided[k], consumed, k))
    && ConsumedSound(b, c, consumed)
  }

  ghost predicate DecidedKey(b: Flattening, c: Flattening, d: Decision, consumed: set<Key>, k: Key) {
    && k in b.flat && MovedKey(c, k)
    && d == Verdict(b, c, k.file, k.path) && !d.Undecided?
    && (d.MovedIntact? ==> CopyConsumed(b, c, consumed, k.file, k.path))
  }

  /** Undecided base-only keys whose path has no branch that keeps them. */
  ghost predicate Covered(b: Flattening, c: Flattening, decided: map<Key, Decision>, k: Key) {
    MovedKey(c, k) && k !in decided ==> Verdict(b, c, k.file, k.path).Undecided?
  }

  /** Every old leaf of one path that the current surface lacks gets the path's verdict. */
  function Mark(decided: map<Key, Decision>, was: Direct, c: Flattening, d: Decision): (r: map<Key, Decision>)
    ensures forall k :: k in r <==> k in decided || (k in was && k !in c.flat)
  {
    decided + map p | p in was && p !in c.flat :: d
  }

  method DecideKey(b: Flattening, c: Flattening, decided: map<Key, Decision>, consumed: set<Key>, k: Key)
    returns (decided': map<Key, Decision>, consumed': set<Key>)
    requires c.Listed() && k in b.flat && MovedKey(c, k) && k !in decided
    requires DecidedOk(b, c, decided, consumed)
    ensures DecidedOk(b, c, decided', consumed')
    ensures decided.Keys <= decided'.Keys && Covered(b, c, decided', k)
  {
    var was := b.DirectLeaves(k.file, k.path);
    assert k in was;
    var verdict, taken := DecidePath(b, c, k.file, k.path);
    consumed' := ConsumeTaken(b, c, decided, consumed, k.file, k.path, taken);
    if verdict.Undecided? { return decided, consumed'; }
    PathDecided(b, c, decided, consumed', k.file, k.path, verdict);
    decided' := Mark(decided, was, c, verdict);
  }

  method ConsumeTaken(b: Flattening, c: Flattening, ghost decided: map<Key, Decision>, consumed: set<Key>, file: string,
                      path: Path, taken: Option<Step>) returns (consumed': set<Key>)
    requires DecidedOk(b, c, decided, consumed)
    requires LeafLost(b, c, file, path) && (taken.Some? ==> ArmIsCopy(b, c, file, path, taken.value))
    ensures DecidedOk(b, c, decided, consumed')
    ensures taken.Some? ==> CopyConsumed(b, c, consumed', file, path)
  {
    if taken.None? { return consumed; }
    ConsumeArm(b, c, consumed, file, path, taken.value);
    consumed' := consumed + c.DirectLeaves(file, path + [taken.value]).Keys;
    StillDecided(b, c, decided, consumed, consumed');
  }

  lemma StillDecided(b: Flattening, c: Flattening, decided: map<Key, Decision>, consumed: set<Key>, consumed': set<Key>)
    requires DecidedOk(b, c, decided, consumed) && ConsumedSound(b, c, consumed')
    requires StillConsumed(b, c, consumed, consumed')
    ensures DecidedOk(b, c, decided, consumed')
  {
    forall k | k in decided ensures DecidedKey(b, c, decided[k], consumed', k) {
      assert DecidedKey(b, c, decided[k], consumed, k);
    }
  }

  lemma PathDecided(b: Flattening, c: Flattening, decided: map<Key, Decision>, consumed: set<Key>, file: string,
                    path: Path, d: Decision)
    requires DecidedOk(b, c, decided, consumed)
    requires d == Verdict(b, c, file, path) && !d.Undecided?
    requires d.MovedIntact? ==> CopyConsumed(b, c, consumed, file, path)
    ensures DecidedOk(b, c, Mark(decided, b.DirectLeaves(file, path), c, d), consumed)
  {
    var was := b.DirectLeaves(file, path);
    var decided' := Mark(decided, was, c, d);
    forall p | p in decided' ensures DecidedKey(b, c, decided'[p], consumed, p) {
      if p !in was || p in c.flat { assert DecidedKey(b, c, decided[p], consumed, p); }
    }
  }

  method DecideNext(b: Flattening, c: Flattening, decided: map<Key, Decision>, consumed: set<Key>, k: Key)
    returns (decided': map<Key, Decision>, consumed': set<Key>)
    requires c.Listed() && k in b.flat && DecidedOk(b, c, decided, consumed)
    ensures DecidedOk(b, c, decided', consumed')
    ensures decided.Keys <= decided'.Keys && Covered(b, c, decided', k)
  {
    if MovedKey(c, k) && k !in decided {
      decided', consumed' := DecideKey(b, c, decided, consumed, k);
    } else {
      decided', consumed' := decided, consumed;
    }
  }

  ghost predicate AllCovered(b: Flattening, c: Flattening, decided: map<Key, Decision>, keys: seq<Key>) {
    forall j :: 0 <= j < |keys| ==> Covered(b, c, decided, keys[j])
  }

  method DecideArms(b: Flattening, c: Flattening) returns (decided: map<Key, Decision>, consumed: set<Key>)
    requires b.Listed() && c.Listed()
    ensures DecidedOk(b, c, decided, consumed)
    ensures forall k :: k in b.flat ==> Covered(b, c, decided, k)
  {
    decided, consumed := map[], {};
    KeysEnumerated(b);
    for i := 0 to |b.keys|
      invariant DecidedOk(b, c, decided, consumed)
      invariant AllCovered(b, c, decided, b.keys[..i])
    {
      ghost var was := decided;
      decided, consumed := DecideNext(b, c, decided, consumed, b.keys[i]);
      CoveredStay(b, c, was, decided, b.keys, i);
    }
    EveryKeyCovered(b, c, decided);
  }

  lemma EveryKeyCovered(b: Flattening, c: Flattening, decided: map<Key, Decision>)
    requires b.Listed() && AllCovered(b, c, decided, b.keys[..|b.keys|])
    ensures forall k :: k in b.flat ==> Covered(b, c, decided, k)
  {
    assert b.keys[..|b.keys|] == b.keys;
    forall k | k in b.flat ensures Covered(b, c, decided, k) {
      assert k in b.keys;
    }
  }

  lemma CoveredStay(b: Flattening, c: Flattening, was: map<Key, Decision>, now: map<Key, Decision>, keys: seq<Key>,
                    i: nat)
    requires i < |keys| && was.Keys <= now.Keys && AllCovered(b, c, was, keys[..i]) && Covered(b, c, now, keys[i])
    ensures AllCovered(b, c, now, keys[..i + 1])
  {
    var before, after := keys[..i], keys[..i + 1];
    forall j | 0 <= j <= i ensures Covered(b, c, now, after[j]) {
      if j < i { assert after[j] == before[j] && Covered(b, c, was, before[j]); }
    }
  }

  lemma KeysEnumerated(b: Flattening)
    requires b.Listed()
    ensures forall j :: 0 <= j < |b.keys| ==> b.keys[j] in b.flat
  {
    forall j | 0 <= j < |b.keys| ensures b.keys[j] in b.flat {
      assert b.keys[j] in b.keys;
    }
  }

  lemma ConsumeArm(b: Flattening, c: Flattening, consumed: set<Key>, file: string, path: Path, arm: Step)
    requires ConsumedSound(b, c, consumed) && ArmIsCopy(b, c, file, path, arm) && LeafLost(b, c, file, path)
    ensures var consumed' := consumed + c.DirectLeaves(file, path + [arm]).Keys;
            && ConsumedSound(b, c, consumed') && CopyConsumed(b, c, consumed', file, path)
            && StillConsumed(b, c, consumed, consumed')
  {
    assert Parent(path + [arm]) == path;
    var consumed' := consumed + c.DirectLeaves(file, path + [arm]).Keys;
    forall x | x in consumed' ensures ConsumedKey(b, c, x) {
      if x !in consumed { assert x.path == path + [arm] && x.file == file; }
    }
  }

  ghost predicate StillConsumed(b: Flattening, c: Flattening, consumed: set<Key>, consumed': set<Key>) {
    forall f, p :: CopyConsumed(b, c, consumed, f, p) ==> CopyConsumed(b, c, consumed', f, p)
  }

  // ---------------------------------------------------------------------------------------------
  // diffSurfaces.

  datatype Diff = Diff(ok: bool, added: seq<Key>, removed: seq<Key>, changed: seq<Key>, widened: seq<Key>)

  datatype Fate = Absent | Same | Added | Removed | Changed | Widened | Dropped

  /** Where a key ends up, from what the earlier passes found out about it. */
  function Place(inB: bool, inC: bool, same: bool, moved: Decision, consumed: bool, widens: bool, narrows: bool): Fate {
    if inB && !inC then
      (if moved.MovedIntact? || widens then Widened else if moved.MovedNarrowed? then Changed else Removed)
    else if inB then (if same then Same else if widens then Widened else Changed)
    else if inC then (if consumed then Dropped else if narrows then Changed else if widens then Dropped else Added)
    else Absent
  }

  predicate NoDup(xs: seq<Key>) {
    forall i, j :: 0 <= i < j < |xs| ==> xs[i] != xs[j]
  }

  function Without(xs: seq<Key>, take: set<Key>): seq<Key> {
    if xs == [] then [] else (if xs[0] in take then [] else [xs[0]]) + Without(xs[1..], take)
  }

  /** The spliced members, last one first. */
  function Spliced(xs: seq<Key>, take: set<Key>): seq<Key> {
    if xs == [] then [] else Spliced(xs[1..], take) + if xs[0] in take then [xs[0]] else []
  }

  lemma {:induction false} SpliceMembers(xs: seq<Key>, take: set<Key>)
    requires NoDup(xs)
    ensures NoDup(Without(xs, take)) && NoDup(Spliced(xs, take))
    ensures forall k :: k in Without(xs, take) <==> k in xs && k !in take
    ensures forall k :: k in Spliced(xs, take) <==> k in xs && k in take
  {
    if xs != [] {
      SpliceMembers(xs[1..], take);
      assert xs == [xs[0]] + xs[1..];
      assert xs[0] !in xs[1..];
    }
  }

  /** A backward loop that splices the members of `take` out of a list and pushes them onto another. */
  method SpliceOut(xs: seq<Key>, take: set<Key>) returns (kept: seq<Key>, taken: seq<Key>)
    requires NoDup(xs)
    ensures NoDup(kept) && NoDup(taken)
    ensures forall k :: k in kept <==> k in xs && k !in take
    ensures forall k :: k in taken <==> k in xs && k in take
  {
    kept, taken := xs, [];
    var i := |xs|;
    while i > 0
      invariant 0 <= i <= |xs|
      invariant kept == xs[..i] + Without(xs[i..], take)
      invariant taken == Spliced(xs[i..], take)
    {
      i := i - 1;
      assert xs[i..] == [xs[i]] + xs[i + 1..] && xs[..i + 1] == xs[..i] + [xs[i]];
      if kept[i] in take {
        taken := taken + [kept[i]];
        kept := kept[..i] + kept[i + 1..];
      }
    }
    assert xs[0..] == xs;
    SpliceMembers(xs, take);
  }

  /** Nothing is in two lists, or twice in one. */
  predicate Separate(d: Diff) {
    && NoDup(d.added) && NoDup(d.removed) && NoDup(d.changed) && NoDup(d.widened)
    && (forall k :: k in d.added ==> k !in d.removed && k !in d.changed && k !in d.widened)
    && (forall k :: k in d.removed ==> k !in d.changed && k !in d.widened)
    && (forall k :: k in d.changed ==> k !in d.widened)
  }

  function DecisionOf(decided: map<Key, Decision>, k: Key): Decision {
    if k in decided then decided[k] else Undecided
  }

  function PlaceOf(b: Flattening, c: Flattening, decided: map<Key, Decision>, consumed: set<Key>, widen: set<Key>,
                   narrow: set<Key>, k: Key): Fate {
    Place(k in b.flat, k in c.flat, k in b.flat && k in c.flat && b.flat[k] == c.flat[k],
          DecisionOf(decided, k), k in consumed, k in widen, k in narrow)
  }

  method Push(xs: seq<Key>, ys: seq<Key>) returns (zs: seq<Key>)
    requires NoDup(xs) && NoDup(ys) && forall k :: k in ys ==> k !in xs
    ensures NoDup(zs) && forall k :: k in zs <==> k in xs || k in ys
  {
    zs := xs + ys;
    forall i, j | 0 <= i < j < |zs| ensures zs[i] != zs[j] {
      if i < |xs| <= j { assert zs[i] in xs && zs[j] in ys; }
    }
  }

  /** Splicing from one list and pushing onto another. */
  method Move(from: seq<Key>, to: seq<Key>, take: set<Key>) returns (rest: seq<Key>, more: seq<Key>)
    requires NoDup(from) && NoDup(to) && forall k :: k in from ==> k !in to
    ensures NoDup(rest) && NoDup(more)
    ensures forall k :: k in rest <==> k in from && k !in take
    ensures forall k :: k in more <==> k in to || (k in from && k in take)
  {
    var spliced;
    rest, spliced := SpliceOut(from, take);
    more := Push(to, spliced);
  }

  /** The list-building passes of `diffSurfaces`, given what the other passes found. */
  method Distribute(b: Flattening, c: Flattening, decided: map<Key, Decision>, consumed: set<Key>, widen: set<Key>,
                    narrow: set<Key>) returns (d: Diff)
    requires b.Listed() && c.Listed()
    ensures Separate(d)
    ensures forall k :: k in d.added <==> PlaceOf(b, c, decided, consumed, widen, narrow, k).Added?
    ensures forall k :: k in d.removed <==> PlaceOf(b, c, decided, consumed, widen, narrow, k).Removed?
    ensures forall k :: k in d.changed <==> PlaceOf(b, c, decided, consumed, widen, narrow, k).Changed?
    ensures forall k :: k in d.widened <==> PlaceOf(b, c, decided, consumed, widen, narrow, k).Widened?
    ensures d.ok <==> d.removed == [] && d.changed == []
  {
    var added, changed := CurrentOnly(b, c);
    var removed, moved, widened := BaseOnly(b, c, decided);
    changed := Push(changed, moved);
    var dropped;
    added, dropped := SpliceOut(added, consumed);
    removed, widened := Move(removed, widened, widen);
    changed, widened := Move(changed, widened, widen);
    added, changed := Move(added, changed, narrow);
    added, dropped := SpliceOut(added, widen);
    d := Diff(removed == [] && changed == [], added, removed, changed, widened);
  }

  /** New keys, and common keys whose value differs. */
  method CurrentOnly(b: Flattening, c: Flattening) returns (added: seq<Key>, changed: seq<Key>)
    requires c.Listed()
    ensures NoDup(added) && NoDup(changed)
    ensures forall k :: k in added <==> k in c.flat && k !in b.flat
    ensures forall k :: k in changed <==> k in c.flat && k in b.flat && b.flat[k] != c.flat[k]
  {
    added, changed := [], [];
    for i := 0 to |c.keys|
      invariant NoDup(added) && NoDup(changed)
      invariant forall k :: k in added <==> k in c.keys[..i] && k !in b.flat
      invariant forall k :: k in changed <==> k in c.keys[..i] && k in c.flat && k in b.flat && b.flat[k] != c.flat[k]
    {
      var k := c.keys[i];
      assert k in c.keys;
      assert c.keys[..i + 1] == c.keys[..i] + [k] && k !in c.keys[..i];
      if k !in b.flat { added := added + [k]; }
      else if b.flat[k] != c.flat[k] { changed := changed + [k]; }
    }
    assert c.keys[..|c.keys|] == c.keys;
  }

  /** Keys the current surface lacks, by decision. */
  method BaseOnly(b: Flattening, c: Flattening, decided: map<Key, Decision>)
    returns (removed: seq<Key>, changed: seq<Key>, widened: seq<Key>)
    requires b.Listed()
    ensures NoDup(removed) && NoDup(changed) && NoDup(widened)
    ensures forall k :: k in removed <==> k in b.flat && k !in c.flat && DecisionOf(decided, k).Undecided?
    ensures forall k :: k in changed <==> k in b.flat && k !in c.flat && DecisionOf(decided, k).MovedNarrowed?
    ensures forall k :: k in widened <==> k in b.flat && k !in c.flat && DecisionOf(decided, k).MovedIntact?
  {
    removed, changed, widened := [], [], [];
    for i := 0 to |b.keys|
      invariant NoDup(removed) && NoDup(changed) && NoDup(widened)
      invariant forall k :: k in removed <==> k in b.keys[..i] && k !in c.flat && DecisionOf(decided, k).Undecided?
      invariant forall k :: k in changed <==> k in b.keys[..i] && k !in c.flat && DecisionOf(decided, k).MovedNarrowed?
      invariant forall k :: k in widened <==> k in b.keys[..i] && k !in c.flat && DecisionOf(decided, k).MovedIntact?
    {
      var k := b.keys[i];
      assert k in b.keys;
      assert b.keys[..i + 1] == b.keys[..i] + [k] && k !in b.keys[..i];
      if k !in c.flat {
        match DecisionOf(decided, k)
        case MovedIntact => widened := widened + [k];
        case MovedNarrowed => changed := changed + [k];
        case Undecided => removed := removed + [k];
      }
    }
    assert b.keys[..|b.keys|] == b.keys;
  }

  // ---------------------------------------------------------------------------------------------
  // Main results.

  /** Where `diffSurfaces` puts a key of two surfaces, as flattened, when `consumed` are the moved branch leaves. */
  ghost function FateOf(s: Surface, t: Surface, b: Flattening, c: Flattening, consumed: set<Key>, k: Key): Fate {
    Place(At(s, k).Some?, At(t, k).Some?, At(s, k) == At(t, k),
          if k.SchemaKey? then Verdict(b, c, k.file, k.path) else Undecided,
          k in consumed, Widens(s, t, k), Narrows(s, t, consumed, k))
  }

  /** Every key is in the list of its fate, and in no other. */
  ghost predicate ListsFates(s: Surface, t: Surface, b: Flattening, c: Flattening, consumed: set<Key>, d: Diff) {
    && Separate(d)
    && (forall k :: k in d.added <==> FateOf(s, t, b, c, consumed, k).Added?)
    && (forall k :: k in d.removed <==> FateOf(s, t, b, c, consumed, k).Removed?)
    && (forall k :: k in d.changed <==> FateOf(s, t, b, c, consumed, k).Changed?)
    && (forall k :: k in d.widened <==> FateOf(s, t, b, c, consumed, k).Widened?)
  }

  /** A surface, as far as the baseline records leaf kinds. */
  function Recorded(s: Surface, baseline: Surface): Surface { WithKinds(s, KindsOf(baseline)) }

  /** The diff of two surfaces over the leaf kinds the baseline recorded; `b` and `c` are what flattening them gives. */
  method DiffSurfaces(baseline: Surface, current: Surface, b: Flattening, c: Flattening)
    returns (d: Diff, ghost consumed: set<Key>)
    requires b.Of(Recorded(baseline, baseline)) && c.Of(Recorded(current, baseline))
    ensures ConsumedSound(b, c, consumed) && ConsumedComplete(b, c, consumed)
    ensures ListsFates(Recorded(baseline, baseline), Recorded(current, baseline), b, c, consumed, d)
    ensures d.ok <==> d.removed == [] && d.changed == []
  {
    var s, t := Recorded(baseline, baseline), Recorded(current, baseline);
    var decided, used := DecideArms(b, c);
    consumed := used;
    var keys := b.flat.Keys + c.flat.Keys;
    var widen := set k | k in keys && Widens(s, t, k);
    var narrow := set k | k in keys && Narrows(s, t, used, k);
    d := Distribute(b, c, decided, used, widen, narrow);
    assert ConsumedComplete(b, c, used) by { AllConsumed(b, c, decided, used); }
    PlacesAreFates(s, t, b, c, decided, used, widen, narrow, d);
  }

  lemma AllConsumed(b: Flattening, c: Flattening, decided: map<Key, Decision>, consumed: set<Key>)
    requires DecidedOk(b, c, decided, consumed) && forall k :: k in b.flat ==> Covered(b, c, decided, k)
    ensures ConsumedComplete(b, c, consumed)
  {
    forall k | k in b.flat && k !in c.flat && k.SchemaKey? && Verdict(b, c, k.file, k.path).MovedIntact?
      ensures CopyConsumed(b, c, consumed, k.file, k.path)
    {
      assert Covered(b, c, decided, k);
      assert DecidedKey(b, c, decided[k], consumed, k);
    }
  }

  lemma PlacesAreFates(s: Surface, t: Surface, b: Flattening, c: Flattening, decided: map<Key, Decision>,
                       consumed: set<Key>, widen: set<Key>, narrow: set<Key>, d: Diff)
    requires b.Of(s) && c.Of(t)
    requires DecidedOk(b, c, decided, consumed) && forall k :: k in b.flat ==> Covered(b, c, decided, k)
    requires widen == set k | k in b.flat.Keys + c.flat.Keys && Widens(s, t, k)
    requires narrow == set k | k in b.flat.Keys + c.flat.Keys && Narrows(s, t, consumed, k)
    requires Separate(d)
    requires forall k :: k in d.added <==> PlaceOf(b, c, decided, consumed, widen, narrow, k).Added?
    requires forall k :: k in d.removed <==> PlaceOf(b, c, decided, consumed, widen, narrow, k).Removed?
    requires forall k :: k in d.changed <==> PlaceOf(b, c, decided, consumed, widen, narrow, k).Changed?
    requires forall k :: k in d.widened <==> PlaceOf(b, c, decided, consumed, widen, narrow, k).Widened?
    ensures ListsFates(s, t, b, c, consumed, d)
  {
    forall k ensures PlaceOf(b, c, decided, consumed, widen, narrow, k) == FateOf(s, t, b, c, consumed, k) {
      PlaceIsFate(s, t, b, c, decided, consumed, widen, narrow, k);
    }
  }

  lemma PlaceIsFate(s: Surface, t: Surface, b: Flattening, c: Flattening, decided: map<Key, Decision>,
                    consumed: set<Key>, widen: set<Key>, narrow: set<Key>, k: Key)
    requires b.Of(s) && c.Of(t)
    requires DecidedOk(b, c, decided, consumed) && (k in b.flat ==> Covered(b, c, decided, k))
    requires widen == set k | k in b.flat.Keys + c.flat.Keys && Widens(s, t, k)
    requires narrow == set k | k in b.flat.Keys + c.flat.Keys && Narrows(s, t, consumed, k)
    ensures PlaceOf(b, c, decided, consumed, widen, narrow, k) == FateOf(s, t, b, c, consumed, k)
  {}

  function Once(k: Key, xs: seq<Key>): nat { multiset(xs)[k] }

  lemma {:induction false} OnceIsMembership(k: Key, xs: seq<Key>)
    requires NoDup(xs)
    ensures Once(k, xs) == if k in xs then 1 else 0
  {
    if xs != [] {
      assert xs == [xs[0]] + xs[1..];
      OnceIsMembership(k, xs[1..]);
      if k == xs[0] { assert k !in xs[1..]; }
    }
  }

  /** Conservation: a key only the baseline has is reported exactly once, as removed, changed or widened; a common key
      with a new value exactly once, as changed or widened; a key only the current surface has at most once, as added or
      changed, and not at all only as a consumed branch leaf or the new form of a widened leaf; any other key never. */
  lemma Conservation(s: Surface, t: Surface, b: Flattening, c: Flattening, consumed: set<Key>, d: Diff, k: Key)
    requires ListsFates(s, t, b, c, consumed, d)
    ensures At(s, k).Some? && At(t, k).None? ==>
              Once(k, d.added) == 0 && Once(k, d.removed) + Once(k, d.changed) + Once(k, d.widened) == 1
    ensures At(s, k).Some? && At(t, k).Some? && At(s, k) != At(t, k) ==>
              Once(k, d.added) == Once(k, d.removed) == 0 && Once(k, d.changed) + Once(k, d.widened) == 1
    ensures At(s, k).None? && At(t, k).Some? ==>
              && Once(k, d.removed) == Once(k, d.widened) == 0
              && (if k in consumed || (Widens(s, t, k) && !Narrows(s, t, consumed, k))
                  then Once(k, d.added) + Once(k, d.changed) == 0
                  else Once(k, d.added) + Once(k, d.changed) == 1)
    ensures At(s, k) == At(t, k) ==>
              Once(k, d.added) + Once(k, d.removed) + Once(k, d.changed) + Once(k, d.widened) == 0
  {
    OnceIsMembership(k, d.added);
    OnceIsMembership(k, d.removed);
    OnceIsMembership(k, d.changed);
    OnceIsMembership(k, d.widened);
  }

  /** Surfaces that flatten to the same keys and values, such as a surface and itself, report nothing. */
  lemma EqualDiffIsEmpty(s: Surface, t: Surface, b: Flattening, c: Flattening, consumed: set<Key>, d: Diff)
    requires ListsFates(s, t, b, c, consumed, d) && forall k :: At(s, k) == At(t, k)
    ensures d.added == [] && d.removed == [] && d.changed == [] && d.widened == []
  {
    NoMembers(d.added);
    NoMembers(d.removed);
    NoMembers(d.changed);
    NoMembers(d.widened);
  }

  lemma NoMembers(xs: seq<Key>)
    ensures (forall k :: k !in xs) ==> xs == []
  {
    if xs != [] { assert xs[0] in xs; }
  }

  /** Reducing a surface to some kinds drops exactly the keys of the other kinds. */
  lemma ReducedKeys(s: Surface, kinds: set<Kind>, k: Key)
    ensures At(WithKinds(s, kinds), k) == if k.SchemaKey? && k.kind !in kinds then None else At(s, k)
  {
    if k.SchemaKey? && k.file in s.schemas {
      var leaf := LeafAt(s.schemas[k.file], k.path);
      assert LeafAt(ReduceLeaves(s.schemas[k.file], kinds), k.path) == ReduceLeaf(leaf, kinds);
    }
  }

  /** A key of a kind the baseline did not record is never reported. */
  lemma UnrecordedKindUnseen(baseline: Surface, current: Surface, b: Flattening, c: Flattening, consumed: set<Key>,
                             d: Diff, k: Key)
    requires ListsFates(Recorded(baseline, baseline), Recorded(current, baseline), b, c, consumed, d)
    requires k.SchemaKey? && k.kind !in KindsOf(baseline)
    ensures k !in d.added && k !in d.removed && k !in d.changed && k !in d.widened
  {
    ReducedKeys(baseline, KindsOf(baseline), k);
    ReducedKeys(current, KindsOf(baseline), k);
  }

  /** Reducing to every kind keeps all leaves. */
  lemma WholeLeaves(leaves: Leaves, kinds: set<Kind>)
    requires forall kind :: kind in kinds
    requires forall p :: p in leaves ==> leaves[p] != map[]
    ensures ReduceLeaves(leaves, kinds) == leaves
  {
    forall p | p in leaves ensures ReduceLeaf(leaves[p], kinds) == leaves[p] {}
  }
}
