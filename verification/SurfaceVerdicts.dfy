/** Which single changes of an input schema the surface diff lets pass, at any node, and what documents make of them. */
module SurfaceVerdicts {
  import opened Options
  import opened Surface
  import opened SurfaceCompat
  import opened SurfaceDiff
  import opened SurfaceGaps

  /** The diff of the two surfaces is ok exactly when no key was removed or changed. */
  lemma OkIsTheVerdict(x: Case, d: Diff)
    requires x.Setting() && ListsFates(x.base, x.cur, x.b, x.c, x.consumed, d)
    ensures x.Ok() <==> d.removed == [] && d.changed == []
  {
    if x.Ok() {
      forall k ensures k !in d.removed && k !in d.changed {
        assert !x.Fate(k).Removed? && !x.Fate(k).Changed?;
      }
      NoMembers(d.removed);
      NoMembers(d.changed);
    } else {
      var k :| x.Fate(k).Removed? || x.Fate(k).Changed?;
      assert k in d.removed || k in d.changed;
    }
  }

  // ---------------------------------------------------------------------------------------------
  // One keyword of one node.

  predicate OfKeyword(x: Case, p: Path, kind: Kind, k: Key) {
    k.SchemaKey? && k.file == x.file && k.path == p && k.kind == kind
  }

  /** The surfaces differ in this keyword of this node only. */
  ghost predicate OnlyKeyword(x: Case, p: Path, kind: Kind) {
    x.Setting() && forall k :: !OfKeyword(x, p, kind, k) ==> At(x.base, k) == At(x.cur, k)
  }

  lemma OnlyItsKeys(x: Case, p: Path, kind: Kind)
    requires OnlyKeyword(x, p, kind)
    ensures x.Ok() <==>
              forall m :: var f := x.Fate(SchemaKey(x.file, p, kind, m)); !f.Removed? && !f.Changed?
  {
    forall k | !OfKeyword(x, p, kind, k) ensures !x.Fate(k).Removed? && !x.Fate(k).Changed? { EqualFate(x, k); }
    forall k | OfKeyword(x, p, kind, k) ensures k == SchemaKey(x.file, p, kind, k.member) {}
  }

  lemma KeyAt(x: Case, p: Path, kind: Kind, m: Option<string>)
    requires x.Setting()
    ensures var k := SchemaKey(x.file, p, kind, m);
            && At(x.base, k) == LeafFlat(x.Was(p), kind, m) && At(x.cur, k) == LeafFlat(x.Now(p), kind, m)
            && (Widens(x.base, x.cur, k) <==> WidensAt(x.Was(p), x.Now(p), p in Walk(x.t), kind, m))
  {}

  lemma InWalk(s: Schema, p: Path)
    ensures p in Walk(s) <==> LeafAt(Walk(s), p) != map[]
  {
    WalkLeaf(s, p);
  }

  /** Some union branch is a copy of the node's old leaves. */
  ghost predicate Copied(x: Case, p: Path) { exists arm :: ArmIsCopy(x.b, x.c, x.file, p, arm) }

  lemma CopiedIsIntact(x: Case, p: Path)
    ensures Copied(x, p) <==> Verdict(x.b, x.c, x.file, p).MovedIntact?
  {}

  lemma PlacePresent(was: FlatVal, now: Option<FlatVal>, moved: Decision, consumed: bool, widens: bool, narrows: bool)
    ensures var f := Place(true, now.Some?, now == Some(was), moved, consumed, widens, narrows);
            !f.Removed? && !f.Changed? <==> now == Some(was) || widens || (now.None? && moved.MovedIntact?)
  {}

  /** A key of the baseline is no break when it is unchanged, widened, or gone to a copy. */
  lemma PresentFate(x: Case, p: Path, kind: Kind, m: Option<string>)
    requires x.Setting() && LeafFlat(x.Was(p), kind, m).Some?
    ensures var f := x.Fate(SchemaKey(x.file, p, kind, m));
            var now := LeafFlat(x.Now(p), kind, m);
            !f.Removed? && !f.Changed? <==>
              || now == LeafFlat(x.Was(p), kind, m)
              || WidensAt(x.Was(p), x.Now(p), p in Walk(x.t), kind, m)
              || (now.None? && Copied(x, p))
  {
    var k := SchemaKey(x.file, p, kind, m);
    KeyAt(x, p, kind, m);
    CopiedIsIntact(x, p);
    PlacePresent(LeafFlat(x.Was(p), kind, m).value, LeafFlat(x.Now(p), kind, m), Verdict(x.b, x.c, x.file, p),
                 k in x.consumed, Widens(x.base, x.cur, k), Narrows(x.base, x.cur, x.consumed, k));
  }

  // ---------------------------------------------------------------------------------------------
  // A bound that moves.

  const MINIMA: set<Kind> := {MinLength, Minimum, ExclusiveMinimum, MinItems}

  const MAXIMA: set<Kind> := {MaxLength, Maximum, ExclusiveMaximum, MaxItems}

  /** Bounds on a length, which sections 6.3.1, 6.3.2, 6.4.3 and 6.4.4 require not to be negative. */
  const LENGTHS: set<Kind> := {MinLength, MaxLength, MinItems, MaxItems}

  ghost predicate BoundMoved(x: Case, p: Path, kind: Kind, m: int, n: int) {
    && OnlyKeyword(x, p, kind) && kind in MINIMA + MAXIMA
    && kind in x.Was(p) && x.Was(p)[kind] == Scalar(Num(m))
    && kind in x.Now(p) && x.Now(p)[kind] == Scalar(Num(n))
  }

  /** Every document within the old bound is within the new one. */
  ghost predicate BoundKept(kind: Kind, m: int, n: int, re: Regex) {
    forall d :: Meets(kind, Scalar(Num(m)), {}, d, re) ==> Meets(kind, Scalar(Num(n)), {}, d, re)
  }

  lemma BoundOk(x: Case, p: Path, kind: Kind, m: int, n: int)
    requires BoundMoved(x, p, kind, m, n)
    ensures x.Ok() <==> if kind in MINIMA then n <= m else n >= m
  {
    OnlyItsKeys(x, p, kind);
    PresentFate(x, p, kind, None);
    ScalarHasOneKey(x, p, kind);
    MovedBoundWidens(x.Was(p), x.Now(p), p in Walk(x.t), kind, m, n);
    if n != m { NumberMoved(x, p, kind, m, n); }
  }

  lemma NumberMoved(x: Case, p: Path, kind: Kind, m: int, n: int)
    requires BoundMoved(x, p, kind, m, n) && n != m
    ensures LeafFlat(x.Now(p), kind, None).Some? && LeafFlat(x.Now(p), kind, None) != LeafFlat(x.Was(p), kind, None)
  {}

  lemma ScalarHasOneKey(x: Case, p: Path, kind: Kind)
    requires x.Setting()
    requires kind in x.Was(p) ==> x.Was(p)[kind].Scalar?
    requires kind in x.Now(p) ==> x.Now(p)[kind].Scalar?
    ensures forall m: Option<string> :: m.Some? ==> x.Fate(SchemaKey(x.file, p, kind, m)).Absent?
  {
    forall m: Option<string> | m.Some? ensures x.Fate(SchemaKey(x.file, p, kind, m)).Absent? { KeyAt(x, p, kind, m); }
  }

  lemma MovedBoundWidens(l: Leaf, r: Leaf, inCurrent: bool, kind: Kind, m: int, n: int)
    requires kind in MINIMA + MAXIMA && kind in l && l[kind] == Scalar(Num(m)) && kind in r && r[kind] == Scalar(Num(n))
    ensures WidensAt(l, r, inCurrent, kind, None) <==> if kind in MINIMA then n < m else n > m
  {}

  lemma BoundMeans(kind: Kind, m: int, n: int, re: Regex)
    requires kind in MINIMA + MAXIMA && (kind in LENGTHS ==> m >= 0 && n >= 0)
    ensures BoundKept(kind, m, n, re) <==> if kind in MINIMA then n <= m else n >= m
  {
    var d := AtBound(kind, m, n);
    if (kind in MINIMA && n > m) || (kind in MAXIMA && n < m) {
      assert Meets(kind, Scalar(Num(m)), {}, d, re) && !Meets(kind, Scalar(Num(n)), {}, d, re);
    }
  }

  /** A document within the bound m, but not within a stricter bound n. */
  function AtBound(kind: Kind, m: int, n: int): Doc {
    match kind
    case MinLength => DStr(seq(if m < 0 then 0 else m, _ => 'x'))
    case MaxLength => DStr(seq(if m < 0 then 0 else m, _ => 'x'))
    case MinItems => DArr(seq(if m < 0 then 0 else m, _ => DNull))
    case MaxItems => DArr(seq(if m < 0 then 0 else m, _ => DNull))
    case ExclusiveMinimum => DNum(n as real)
    case ExclusiveMaximum => DNum(n as real)
    case _ => DNum(m as real)
  }

  /** A moved bound: the diff is ok exactly when every document within the old bound is within the new one. */
  lemma BoundVerdict(x: Case, p: Path, kind: Kind, m: int, n: int, re: Regex)
    requires BoundMoved(x, p, kind, m, n) && (kind in LENGTHS ==> m >= 0 && n >= 0)
    ensures x.Ok() <==> BoundKept(kind, m, n, re)
    ensures x.Ok() <==> if kind in MINIMA then n <= m else n >= m
    ensures n != m && x.Ok() ==> x.Fate(SchemaKey(x.file, p, kind, None)).Widened?
  {
    BoundOk(x, p, kind, m, n);
    BoundMeans(kind, m, n, re);
    KeyAt(x, p, kind, None);
    MovedBoundWidens(x.Was(p), x.Now(p), p in Walk(x.t), kind, m, n);
  }

  // ---------------------------------------------------------------------------------------------
  // A keyword that is dropped.

  /** Dropping these only lets more documents in. */
  const DROPPABLE: set<Kind> :=
    {Required, Closed, Const, Pattern, MinLength, MaxLength, Minimum, Maximum, ExclusiveMinimum, ExclusiveMaximum,
     MinItems, MaxItems}

  lemma DroppedWidens(l: Leaf, r: Leaf, inCurrent: bool, kind: Kind, m: Option<string>)
    requires kind in l && kind !in r && LeafFlat(l, kind, m).Some?
    ensures kind in DROPPABLE ==> WidensAt(l, r, inCurrent, kind, m)
    ensures kind.Enum? ==> (WidensAt(l, r, inCurrent, kind, m) <==> inCurrent)
    ensures kind.Type? || kind.Ref? ==> !WidensAt(l, r, inCurrent, kind, m)
  {}

  lemma AbsentFate(x: Case, p: Path, kind: Kind, m: Option<string>)
    requires x.Setting() && LeafFlat(x.Was(p), kind, m).None? && LeafFlat(x.Now(p), kind, m).None?
    ensures x.Fate(SchemaKey(x.file, p, kind, m)).Absent?
  {
    KeyAt(x, p, kind, m);
  }

  /** A dropped keyword: the diff is ok exactly when it is one whose absence lets more in (an enum, when the node keeps
      another keyword), or when the node's old leaves stand in a union branch. */
  lemma DroppedVerdict(x: Case, p: Path, kind: Kind)
    requires OnlyKeyword(x, p, kind) && kind in x.Was(p) && kind !in x.Now(p)
    ensures x.Ok() <==> kind in DROPPABLE || (kind.Enum? && x.Now(p) != map[]) || Copied(x, p)
  {
    OnlyItsKeys(x, p, kind);
    InWalk(x.t, p);
    forall m ensures var f := x.Fate(SchemaKey(x.file, p, kind, m));
                     LeafFlat(x.Was(p), kind, m).Some? ==>
                       (!f.Removed? && !f.Changed? <==>
                          kind in DROPPABLE || (kind.Enum? && x.Now(p) != map[]) || Copied(x, p))
      ensures LeafFlat(x.Was(p), kind, m).None? ==> x.Fate(SchemaKey(x.file, p, kind, m)).Absent?
    {
      if LeafFlat(x.Was(p), kind, m).Some? {
        PresentFate(x, p, kind, m);
        DroppedWidens(x.Was(p), x.Now(p), p in Walk(x.t), kind, m);
      } else {
        AbsentFate(x, p, kind, m);
      }
    }
    var m := SomeMember(x.Was(p)[kind]);
    assert LeafFlat(x.Was(p), kind, m).Some?;
  }

  // ---------------------------------------------------------------------------------------------
  // A keyword that is introduced.

  /** Nothing is consumed where no key of the baseline is gone. */
  lemma NothingConsumed(x: Case)
    requires x.Setting() && forall k: Key :: k.SchemaKey? && At(x.base, k).Some? ==> At(x.cur, k).Some?
    ensures x.consumed == {}
  {
    forall k ensures k !in x.consumed {
      if k in x.consumed { ConsumedIsKey(x, k); }
    }
  }

  lemma {:induction false} OldPathNoBranch(bf: Leaves, consumed: set<Key>, file: string, path: Path, i: nat)
    requires Existed(bf, path)
    ensures !BranchNarrows(bf, consumed, file, path, i)
    decreases |path| - i
  {
    if i < |path| {
      var p :| p in bf && path <= p;
      assert path[..i + 1] <= p;
      OldPathNoBranch(bf, consumed, file, path, i + 1);
    }
  }

  lemma ExistedParent(bf: Leaves, p: Path)
    requires Existed(bf, p)
    ensures Existed(bf, Parent(p))
  {
    var q :| q in bf && p <= q;
    assert Parent(p) <= q;
  }

  /** A new key is no break when it is a consumed leaf or does not narrow. */
  lemma NewFate(x: Case, p: Path, kind: Kind, m: Option<string>)
    requires x.Setting() && LeafFlat(x.Was(p), kind, m).None? && LeafFlat(x.Now(p), kind, m).Some?
    ensures var k := SchemaKey(x.file, p, kind, m);
            !x.Fate(k).Removed? && !x.Fate(k).Changed? <==> k in x.consumed || !Narrows(x.base, x.cur, x.consumed, k)
  {
    KeyAt(x, p, kind, m);
  }

  lemma RefNeverNarrows(x: Case, p: Path, m: Option<string>)
    requires x.Setting() && Existed(Walk(x.s), p)
    ensures !Narrows(x.base, x.cur, x.consumed, SchemaKey(x.file, p, Ref, m))
  {
    OldPathNoBranch(Walk(x.s), x.consumed, x.file, p, 0);
  }

  lemma NoBoundReplaced(x: Case, p: Path, kind: Kind)
    requires OnlyKeyword(x, p, kind)
    ensures !ReplacesBound(x.Was(p), x.Now(p), kind)
  {
    if kind.Minimum? {
      KeyAt(x, p, ExclusiveMinimum, None);
      var k := SchemaKey(x.file, p, ExclusiveMinimum, None);
      assert At(x.base, k) == At(x.cur, k);
    }
    if kind.Maximum? {
      KeyAt(x, p, ExclusiveMaximum, None);
      var k := SchemaKey(x.file, p, ExclusiveMaximum, None);
      assert At(x.base, k) == At(x.cur, k);
    }
  }

  /** A keyword introduced on a node that existed: only a reference is let pass. */
  lemma IntroducedVerdict(x: Case, p: Path, kind: Kind)
    requires OnlyKeyword(x, p, kind) && kind !in x.Was(p) && kind in x.Now(p) && Existed(Walk(x.s), p)
    ensures x.Ok() <==> kind.Ref?
  {
    OnlyItsKeys(x, p, kind);
    AllStillThere(x, p, kind);
    NothingConsumed(x);
    NoBoundReplaced(x, p, kind);
    ExistedParent(Walk(x.s), p);
    forall m ensures var f := x.Fate(SchemaKey(x.file, p, kind, m));
                     LeafFlat(x.Now(p), kind, m).Some? ==> (!f.Removed? && !f.Changed? <==> kind.Ref?)
      ensures LeafFlat(x.Now(p), kind, m).None? ==> x.Fate(SchemaKey(x.file, p, kind, m)).Absent?
    {
      if LeafFlat(x.Now(p), kind, m).None? {
        AbsentFate(x, p, kind, m);
      } else {
        NewFate(x, p, kind, m);
        if kind.Ref? { RefNeverNarrows(x, p, m); } else { IntroducedNarrows(x, p, kind, m); }
      }
    }
    var m := SomeMember(x.Now(p)[kind]);
    assert LeafFlat(x.Now(p), kind, m).Some?;
  }

  lemma AllStillThere(x: Case, p: Path, kind: Kind)
    requires OnlyKeyword(x, p, kind) && kind !in x.Was(p)
    ensures forall k: Key :: k.SchemaKey? && At(x.base, k).Some? ==> At(x.cur, k).Some?
  {
    forall k: Key | k.SchemaKey? && At(x.base, k).Some? ensures At(x.cur, k).Some? {
      if OfKeyword(x, p, kind, k) { KeyAt(x, p, kind, k.member); }
    }
  }

  // ---------------------------------------------------------------------------------------------
  // A value that is exchanged.

  /** Any other scalar exchanged for another one is reported: a pattern, a reference, a const that is no number. */
  lemma ExchangedVerdict(x: Case, p: Path, kind: Kind, v: Atom, w: Atom)
    requires OnlyKeyword(x, p, kind) && !kind.Type? && !kind.Enum?
    requires kind in x.Was(p) && x.Was(p)[kind] == Scalar(v) && kind in x.Now(p) && x.Now(p)[kind] == Scalar(w)
    requires !(v.Num? && w.Num?)
    ensures x.Ok() <==> v == w
  {
    OnlyItsKeys(x, p, kind);
    ScalarHasOneKey(x, p, kind);
    PresentFate(x, p, kind, None);
    ExchangedNotWidened(x.Was(p), x.Now(p), p in Walk(x.t), kind, v, w);
  }

  lemma ExchangedNotWidened(l: Leaf, r: Leaf, inCurrent: bool, kind: Kind, v: Atom, w: Atom)
    requires kind in l && l[kind] == Scalar(v) && kind in r && r[kind] == Scalar(w)
    requires !kind.Type? && !kind.Enum? && !(v.Num? && w.Num?)
    ensures !WidensAt(l, r, inCurrent, kind, None)
  {}

  // ---------------------------------------------------------------------------------------------
  // A type set.

  predicate Names(v: Val) { forall i :: 0 <= i < |TypeNames(v)| ==> TypeNames(v)[i].Str? }

  /** Every document of an old type is of a new one. */
  ghost predicate TypesKept(av: Val, bv: Val, re: Regex) {
    forall d :: Meets(Type, av, {}, d, re) ==> Meets(Type, bv, {}, d, re)
  }

  ghost predicate TypeMoved(x: Case, p: Path, av: Val, bv: Val) {
    && OnlyKeyword(x, p, Type) && !Copied(x, p) && Names(av) && Names(bv)
    && Type in x.Was(p) && x.Was(p)[Type] == av && Type in x.Now(p) && x.Now(p)[Type] == bv
  }

  lemma KeptTypeFate(x: Case, p: Path, av: Val, bv: Val, m: Option<string>)
    requires TypeMoved(x, p, av, bv) && Subset(TypeNames(av), TypeNames(bv))
    ensures var f := x.Fate(SchemaKey(x.file, p, Type, m)); !f.Removed? && !f.Changed?
  {
    if LeafFlat(x.Was(p), Type, m).Some? {
      PresentFate(x, p, Type, m);
    } else if LeafFlat(x.Now(p), Type, m).Some? {
      NewFate(x, p, Type, m);
      InWalk(x.s, p);
    } else {
      AbsentFate(x, p, Type, m);
    }
  }

  /** The key under which an old type that is gone was recorded. */
  lemma LostTypeFate(x: Case, p: Path, av: Val, bv: Val, i: nat) returns (m: Option<string>)
    requires TypeMoved(x, p, av, bv) && i < |TypeNames(av)| && TypeNames(av)[i] !in TypeNames(bv)
    ensures var f := x.Fate(SchemaKey(x.file, p, Type, m)); f.Removed? || f.Changed?
  {
    var n := TypeNames(av)[i];
    m := if av.Scalar? then None else Some(Label(n));
    NamedHasKey(av, i);
    LostTypeKey(av, bv, i, m);
    LostNotWidened(x.Was(p), x.Now(p), p in Walk(x.t), av, bv, i, m);
    PresentFate(x, p, Type, m);
  }

  lemma LostNotWidened(l: Leaf, r: Leaf, inCurrent: bool, av: Val, bv: Val, i: nat, m: Option<string>)
    requires Type in l && l[Type] == av && Type in r && r[Type] == bv
    requires i < |TypeNames(av)| && TypeNames(av)[i] !in TypeNames(bv)
    ensures !WidensAt(l, r, inCurrent, Type, m)
  {
    assert !TypeKept(l, r);
  }

  lemma NamedHasKey(av: Val, i: nat)
    requires i < |TypeNames(av)|
    ensures FlatOf(av, if av.Scalar? then None else Some(Label(TypeNames(av)[i]))).Some?
  {}

  lemma LostTypeKey(av: Val, bv: Val, i: nat, m: Option<string>)
    requires Names(av) && Names(bv) && i < |TypeNames(av)| && TypeNames(av)[i] !in TypeNames(bv)
    requires m == if av.Scalar? then None else Some(Label(TypeNames(av)[i]))
    ensures FlatOf(av, m) != FlatOf(bv, m)
  {}

  /** A changed type set: the diff is ok exactly when every old type is still named. */
  lemma TypeVerdict(x: Case, p: Path, av: Val, bv: Val)
    requires TypeMoved(x, p, av, bv)
    ensures x.Ok() <==> Subset(TypeNames(av), TypeNames(bv))
  {
    OnlyItsKeys(x, p, Type);
    if Subset(TypeNames(av), TypeNames(bv)) {
      forall m ensures var f := x.Fate(SchemaKey(x.file, p, Type, m)); !f.Removed? && !f.Changed? {
        KeptTypeFate(x, p, av, bv, m);
      }
    } else {
      var i :| 0 <= i < |TypeNames(av)| && TypeNames(av)[i] !in TypeNames(bv);
      var m := LostTypeFate(x, p, av, bv, i);
    }
  }

  /** The documents are kept exactly when every old type is covered by the new ones: it is named, or it is `integer` and
      `number` is. So the verdict is stricter than the documents exactly there. */
  lemma TypesMean(av: Val, bv: Val, re: Regex)
    ensures TypesKept(av, bv, re) <==>
            forall i :: 0 <= i < |TypeNames(av)| ==> TypeCovered(TypeNames(av)[i], TypeNames(bv))
  {
    forall i | 0 <= i < |TypeNames(av)|
      ensures (forall d :: TypeMatches(TypeNames(av)[i], d) ==> Meets(Type, bv, {}, d, re)) <==>
                TypeCovered(TypeNames(av)[i], TypeNames(bv))
    {
      TypesCover(TypeNames(av)[i], TypeNames(bv));
    }
    if i :| 0 <= i < |TypeNames(av)| && !TypeCovered(TypeNames(av)[i], TypeNames(bv)) {
      var d :| TypeMatches(TypeNames(av)[i], d) && !Meets(Type, bv, {}, d, re);
      assert Meets(Type, av, {}, d, re);
    }
  }

  // ---------------------------------------------------------------------------------------------
  // An exclusive bound that gives way to an inclusive one.

  ghost predicate BoundGivesWay(x: Case, p: Path, exc: Kind, inc: Kind, m: int, n: int) {
    && x.Setting()
    && (forall k :: !OfKeyword(x, p, exc, k) && !OfKeyword(x, p, inc, k) ==> At(x.base, k) == At(x.cur, k))
    && exc in x.Was(p) && x.Was(p)[exc] == Scalar(Num(m)) && exc !in x.Now(p)
    && inc !in x.Was(p) && inc in x.Now(p) && x.Now(p)[inc] == Scalar(Num(n))
  }

  lemma InclusiveFate(x: Case, p: Path, exc: Kind, inc: Kind, m: int, n: int)
    requires BoundGivesWay(x, p, exc, inc, m, n)
    requires (exc == ExclusiveMinimum && inc == Minimum) || (exc == ExclusiveMaximum && inc == Maximum)
    requires SchemaKey(x.file, p, inc, None) !in x.consumed
    ensures var f := x.Fate(SchemaKey(x.file, p, inc, None));
            !f.Removed? && !f.Changed? <==> if inc == Minimum then n <= m else n >= m
  {
    NewFate(x, p, inc, None);
    InWalk(x.s, p);
    NarrowsOld(x, p, inc, None);
    InclusiveNarrows(Walk(x.s), x.Was(p), x.Now(p), p, exc, inc, m, n);
  }

  lemma NarrowsOld(x: Case, p: Path, kind: Kind, m: Option<string>)
    requires x.Setting() && p in Walk(x.s)
    ensures Narrows(x.base, x.cur, x.consumed, SchemaKey(x.file, p, kind, m)) <==>
              NarrowsAt(Walk(x.s), x.Was(p), x.Now(p), p, kind, m)
  {}

  lemma InclusiveNarrows(bf: Leaves, l: Leaf, r: Leaf, p: Path, exc: Kind, inc: Kind, m: int, n: int)
    requires p in bf && exc in l && l[exc] == Scalar(Num(m)) && exc !in r
    requires inc !in l && inc in r && r[inc] == Scalar(Num(n))
    requires (exc == ExclusiveMinimum && inc == Minimum) || (exc == ExclusiveMaximum && inc == Maximum)
    ensures NarrowsAt(bf, l, r, p, inc, None) <==> if inc == Minimum then n > m else n < m
  {
    assert p <= p && Existed(bf, p);
  }

  lemma ReplacedUnconsumed(x: Case, p: Path, exc: Kind, inc: Kind, m: int, n: int)
    requires BoundGivesWay(x, p, exc, inc, m, n) && exc != inc
    ensures SchemaKey(x.file, p, inc, None) !in x.consumed
  {
    var k := SchemaKey(x.file, p, inc, None);
    if k in x.consumed {
      ConsumedIsKey(x, k);
    }
  }

  /** `exclusiveMinimum: m` replaced by `minimum: n`, or the same for maxima: the diff is ok exactly when every number
      beyond the old bound is within the new one. */
  lemma ReplacedVerdict(x: Case, p: Path, exc: Kind, inc: Kind, m: int, n: int, re: Regex)
    requires BoundGivesWay(x, p, exc, inc, m, n)
    requires (exc == ExclusiveMinimum && inc == Minimum) || (exc == ExclusiveMaximum && inc == Maximum)
    ensures x.Ok() <==> if inc == Minimum then n <= m else n >= m
    ensures x.Ok() <==> forall d :: Meets(exc, Scalar(Num(m)), {}, d, re) ==> Meets(inc, Scalar(Num(n)), {}, d, re)
  {
    ReplacedOk(x, p, exc, inc, m, n);
    ReplacedMeans(exc, inc, m, n, re);
  }

  lemma ReplacedOk(x: Case, p: Path, exc: Kind, inc: Kind, m: int, n: int)
    requires BoundGivesWay(x, p, exc, inc, m, n)
    requires (exc == ExclusiveMinimum && inc == Minimum) || (exc == ExclusiveMaximum && inc == Maximum)
    ensures x.Ok() <==> if inc == Minimum then n <= m else n >= m
  {
    var key := SchemaKey(x.file, p, inc, None);
    ReplacedUnconsumed(x, p, exc, inc, m, n);
    InclusiveFate(x, p, exc, inc, m, n);
    KeyAt(x, p, inc, None);
    assert !x.Fate(key).Removed?;
    forall k ensures k != key ==> !x.Fate(k).Removed? && !x.Fate(k).Changed? {
      if k != key { OtherKeysOfReplaced(x, p, exc, inc, m, n, k); }
    }
    OkUnlessChanged(x, key, x.Fate(key).Changed?);
  }

  lemma OtherKeysOfReplaced(x: Case, p: Path, exc: Kind, inc: Kind, m: int, n: int, k: Key)
    requires BoundGivesWay(x, p, exc, inc, m, n) && k != SchemaKey(x.file, p, inc, None) && exc in DROPPABLE
    ensures !x.Fate(k).Removed? && !x.Fate(k).Changed?
  {
    if OfKeyword(x, p, exc, k) {
      if k.member.None? {
        PresentFate(x, p, exc, None);
        DroppedWidens(x.Was(p), x.Now(p), p in Walk(x.t), exc, None);
      } else {
        AbsentFate(x, p, exc, k.member);
      }
    } else if OfKeyword(x, p, inc, k) {
      AbsentFate(x, p, inc, k.member);
    } else {
      EqualFate(x, k);
    }
  }

  lemma ReplacedMeans(exc: Kind, inc: Kind, m: int, n: int, re: Regex)
    requires (exc == ExclusiveMinimum && inc == Minimum) || (exc == ExclusiveMaximum && inc == Maximum)
    ensures (forall d :: Meets(exc, Scalar(Num(m)), {}, d, re) ==> Meets(inc, Scalar(Num(n)), {}, d, re)) <==>
              if inc == Minimum then n <= m else n >= m
  {
    var between := DNum((m as real + n as real) / 2.0);
    if inc == Minimum && n > m {
      assert Meets(exc, Scalar(Num(m)), {}, between, re) && !Meets(inc, Scalar(Num(n)), {}, between, re);
    }
    if inc == Maximum && n < m {
      assert Meets(exc, Scalar(Num(m)), {}, between, re) && !Meets(inc, Scalar(Num(n)), {}, between, re);
    }
  }

  // ---------------------------------------------------------------------------------------------
  // Leaves where there were none.

  /** The surfaces differ below q only, where the baseline has nothing. */
  ghost predicate OnlyBelow(x: Case, q: Path) {
    && x.Setting()
    && (forall k: Key :: !(k.SchemaKey? && k.file == x.file && q <= k.path) ==> At(x.base, k) == At(x.cur, k))
    && !Existed(Walk(x.s), q)
  }

  lemma NothingBelow(x: Case, q: Path, r: Path)
    requires !Existed(Walk(x.s), q) && q <= r
    ensures x.Was(r) == map[] && r !in Walk(x.s) && !Existed(Walk(x.s), r)
  {
    InWalk(x.s, r);
    forall p | p in Walk(x.s) ensures !(r <= p) { PrefixChain(q, r, p); }
    assert r <= r;
  }

  lemma PrefixChain(q: Path, r: Path, p: Path)
    requires q <= r
    ensures r <= p ==> q <= p
  {}

  lemma NoneGone(x: Case, q: Path)
    requires OnlyBelow(x, q)
    ensures x.consumed == {}
  {
    forall k: Key | k.SchemaKey? && At(x.base, k).Some? ensures At(x.cur, k).Some? {
      if k.file == x.file && q <= k.path {
        NothingBelow(x, q, k.path);
        KeyAt(x, k.path, k.kind, k.member);
      }
    }
    NothingConsumed(x);
  }

  /** A new leaf below q narrows by its branches, or as a requirement at q itself. */
  lemma NewLeafNarrows(x: Case, p: Path, st: Step, r: Path, kind: Kind, m: Option<string>)
    requires OnlyBelow(x, p + [st]) && p + [st] <= r && Existed(Walk(x.s), p)
    requires LeafFlat(x.Now(r), kind, m).Some?
    ensures Narrows(x.base, x.cur, x.consumed, SchemaKey(x.file, r, kind, m)) <==>
              BranchNarrows(Walk(x.s), x.consumed, x.file, r, 0) || (kind.Required? && r == p + [st])
  {
    NothingBelow(x, p + [st], r);
    KeyAt(x, r, kind, m);
    ParentBelow(x, p, st, r);
    NewKeywordNarrows(Walk(x.s), x.Now(r), r, kind, m);
  }

  lemma ParentBelow(x: Case, p: Path, st: Step, r: Path)
    requires OnlyBelow(x, p + [st]) && p + [st] <= r && Existed(Walk(x.s), p)
    ensures Existed(Walk(x.s), Parent(r)) <==> r == p + [st]
  {
    if r == p + [st] {
      assert Parent(r) == p;
    } else {
      assert p + [st] <= Parent(r);
      NothingBelow(x, p + [st], Parent(r));
    }
  }

  lemma NewKeywordNarrows(bf: Leaves, c: Leaf, r: Path, kind: Kind, m: Option<string>)
    requires !Existed(bf, r) && LeafFlat(c, kind, m).Some?
    ensures NarrowsAt(bf, map[], c, r, kind, m) <==> kind.Required? && Existed(bf, Parent(r))
  {}

  lemma {:induction false} NewChildNoBranch(bf: Leaves, consumed: set<Key>, file: string, p: Path, st: Step, r: Path,
                                            i: nat)
    requires Existed(bf, p) && !Existed(bf, p + [st]) && p + [st] <= r
    ensures !st.Arm? ==> !BranchNarrows(bf, consumed, file, r, i)
    ensures st.Arm? && consumed == {} && i <= |p| ==>
              (BranchNarrows(bf, consumed, file, r, i) <==>
                 !(st.branch.AnyOf? && exists q :: q in bf && HasBranchAfter(q, p, AnyOf)))
    decreases |r| - i
  {
    if i < |r| {
      NewChildNoBranch(bf, consumed, file, p, st, r, i + 1);
      if i < |p| {
        PrefixOfOld(bf, p, r, i);
      } else {
        BelowIsNew(bf, p, st, r, i);
      }
    }
  }

  lemma PrefixOfOld(bf: Leaves, p: Path, r: Path, i: nat)
    requires Existed(bf, p) && p <= r && i < |p|
    ensures exists q :: q in bf && r[..i + 1] <= q
  {
    var q :| q in bf && p <= q;
    assert r[..i + 1] <= q;
  }

  lemma BelowIsNew(bf: Leaves, p: Path, st: Step, r: Path, i: nat)
    requires !Existed(bf, p + [st]) && p + [st] <= r && |p| <= i < |r|
    ensures !exists q :: q in bf && r[..i + 1] <= q
    ensures i == |p| ==> r[i] == st && r[..i] == p
    ensures i > |p| ==> !Existed(bf, r[..i])
  {
    assert r[|p|] == (p + [st])[|p|];
    forall q | q in bf ensures !(r[..i + 1] <= q) && (i > |p| ==> !(r[..i] <= q)) {
      assert r[..i + 1] <= q ==> p + [st] <= q;
      assert i > |p| && r[..i] <= q ==> p + [st] <= q;
    }
  }

  lemma NewLeafFate(x: Case, p: Path, st: Step, r: Path, kind: Kind, m: Option<string>)
    requires OnlyBelow(x, p + [st]) && p + [st] <= r && Existed(Walk(x.s), p) && LeafFlat(x.Now(r), kind, m).Some?
    ensures var f := x.Fate(SchemaKey(x.file, r, kind, m));
            !f.Removed? && !f.Changed? <==>
              && !(kind.Required? && r == p + [st])
              && (st.Arm? ==> st.branch.AnyOf? && exists q :: q in Walk(x.s) && HasBranchAfter(q, p, AnyOf))
  {
    NothingBelow(x, p + [st], r);
    NoneGone(x, p + [st]);
    NewFate(x, r, kind, m);
    NewLeafNarrows(x, p, st, r, kind, m);
    NewChildNoBranch(Walk(x.s), x.consumed, x.file, p, st, r, 0);
  }

  lemma OtherFates(x: Case, q: Path, k: Key)
    requires OnlyBelow(x, q)
    requires !(k.SchemaKey? && k.file == x.file && q <= k.path && LeafFlat(x.Now(k.path), k.kind, k.member).Some?)
    ensures !x.Fate(k).Removed? && !x.Fate(k).Changed?
  {
    if k.SchemaKey? && k.file == x.file && q <= k.path {
      NothingBelow(x, q, k.path);
      AbsentFate(x, k.path, k.kind, k.member);
    } else {
      EqualFate(x, k);
    }
  }

  /** A property or an item schema that appears on a node that existed: the diff is ok exactly when it is not
      required. */
  lemma ChildAppearsVerdict(x: Case, p: Path, st: Step)
    requires OnlyBelow(x, p + [st]) && !st.Arm? && Existed(Walk(x.s), p)
    ensures x.Ok() <==> Required !in x.Now(p + [st])
  {
    forall k ensures var f := x.Fate(k); Required !in x.Now(p + [st]) ==> !f.Removed? && !f.Changed? {
      if k.SchemaKey? && k.file == x.file && p + [st] <= k.path && LeafFlat(x.Now(k.path), k.kind, k.member).Some? {
        NewLeafFate(x, p, st, k.path, k.kind, k.member);
      } else {
        OtherFates(x, p + [st], k);
      }
    }
    if Required in x.Now(p + [st]) {
      NewLeafFate(x, p, st, p + [st], Required, SomeMember(x.Now(p + [st])[Required]));
    }
  }

  /** A union branch that appears on a node that existed: the diff is ok exactly when it is appended to an `anyOf`. */
  lemma BranchAppearsVerdict(x: Case, p: Path, branch: Branch, i: nat)
    requires OnlyBelow(x, p + [Arm(branch, i)]) && Existed(Walk(x.s), p)
    requires Existed(Walk(x.t), p + [Arm(branch, i)]) && Required !in x.Now(p + [Arm(branch, i)])
    ensures x.Ok() <==> branch.AnyOf? && exists q :: q in Walk(x.s) && HasBranchAfter(q, p, AnyOf)
  {
    var st := Arm(branch, i);
    var appended := branch.AnyOf? && exists q :: q in Walk(x.s) && HasBranchAfter(q, p, AnyOf);
    forall k ensures var f := x.Fate(k); appended ==> !f.Removed? && !f.Changed? {
      if k.SchemaKey? && k.file == x.file && p + [st] <= k.path && LeafFlat(x.Now(k.path), k.kind, k.member).Some? {
        NewLeafFate(x, p, st, k.path, k.kind, k.member);
      } else {
        OtherFates(x, p + [st], k);
      }
    }
    if !appended {
      var r :| r in Walk(x.t) && p + [st] <= r;
      InWalk(x.t, r);
      var kind :| kind in x.Now(r);
      NewLeafFate(x, p, st, r, kind, SomeMember(x.Now(r)[kind]));
    }
  }

  // ---------------------------------------------------------------------------------------------
  // A node that moves into a union.

  /** The node's leaves are gone, a new `anyOf` branch copies them, and only `anyOf` branches of the node are new. */
  ghost predicate MovedIntoUnion(x: Case, p: Path, arm: Step) {
    && x.Setting() && ConsumedComplete(x.b, x.c, x.consumed)
    && x.Was(p) != map[] && x.Now(p) == map[] && ArmIsCopy(x.b, x.c, x.file, p, arm)
    && (forall k: Key :: !(k.SchemaKey? && k.file == x.file && (k.path == p || HasBranchAfter(k.path, p, AnyOf))) ==>
          At(x.base, k) == At(x.cur, k))
    && (forall r {:trigger x.Was(r)} :: HasBranchAfter(r, p, AnyOf) ==> x.Was(r) == map[])
    && (forall r {:trigger x.Now(r)} :: HasBranchAfter(r, p, OneOf) ==> x.Now(r) == map[])
    && (forall i :: Required !in x.Now(p + [Arm(AnyOf, i)]))
  }

  lemma SomeLeafConsumed(x: Case, p: Path, arm: Step) returns (y: Key)
    requires MovedIntoUnion(x, p, arm)
    ensures y in x.consumed && y.SchemaKey? && y.file == x.file && HasBranchAfter(y.path, p, AnyOf)
  {
    var kind :| kind in x.Was(p);
    var m := SomeMember(x.Was(p)[kind]);
    var k := SchemaKey(x.file, p, kind, m);
    KeyAt(x, p, kind, m);
    CopiedIsIntact(x, p);
    assert k in x.b.flat && k !in x.c.flat;
    assert CopyConsumed(x.b, x.c, x.consumed, x.file, p);
    var taken :| ArmIsCopy(x.b, x.c, x.file, p, taken) && x.c.DirectLeaves(x.file, p + [taken]).Keys <= x.consumed;
    assert k in x.b.DirectLeaves(x.file, p);
    y := InArm(k, taken);
    assert y in x.c.DirectLeaves(x.file, p + [taken]);
    TakenIsAnyOf(x, p, arm, taken, y);
  }

  lemma TakenIsAnyOf(x: Case, p: Path, arm: Step, taken: Step, y: Key)
    requires MovedIntoUnion(x, p, arm) && UnionArm(taken) && y.SchemaKey? && y.file == x.file && y.path == p + [taken]
    requires y in x.c.flat
    ensures HasBranchAfter(y.path, p, AnyOf)
  {
    KeyAt(x, y.path, y.kind, y.member);
    assert y.path[|p|] == taken && p < y.path;
  }

  /** Such a move is no break: the leaves are widened, and the other branches only add. */
  lemma MoveVerdict(x: Case, p: Path, arm: Step)
    requires MovedIntoUnion(x, p, arm)
    ensures x.Ok()
    ensures forall kind, m :: LeafFlat(x.Was(p), kind, m).Some? ==> x.Fate(SchemaKey(x.file, p, kind, m)).Widened?
  {
    var y := SomeLeafConsumed(x, p, arm);
    CopiedIsIntact(x, p);
    InWalk(x.s, p);
    forall k ensures !x.Fate(k).Removed? && !x.Fate(k).Changed? { MovedFate(x, p, arm, y, k); }
    forall kind, m | LeafFlat(x.Was(p), kind, m).Some? ensures x.Fate(SchemaKey(x.file, p, kind, m)).Widened? {
      KeyAt(x, p, kind, m);
    }
  }

  lemma MovedFate(x: Case, p: Path, arm: Step, y: Key, k: Key)
    requires MovedIntoUnion(x, p, arm) && y in x.consumed && y.SchemaKey? && y.file == x.file
    requires HasBranchAfter(y.path, p, AnyOf)
    ensures !x.Fate(k).Removed? && !x.Fate(k).Changed?
  {
    if k.SchemaKey? && k.file == x.file && k.path == p {
      if LeafFlat(x.Was(p), k.kind, k.member).Some? { PresentFate(x, p, k.kind, k.member); }
      else { AbsentFate(x, p, k.kind, k.member); }
    } else if k.SchemaKey? && k.file == x.file && HasBranchAfter(k.path, p, AnyOf) {
      assert x.Was(k.path) == map[];
      if LeafFlat(x.Now(k.path), k.kind, k.member).Some? {
        NewFate(x, k.path, k.kind, k.member);
        MovedNotNarrow(x, p, arm, y, k);
      } else {
        AbsentFate(x, k.path, k.kind, k.member);
      }
    } else {
      EqualFate(x, k);
    }
  }

  lemma NothingUnderNew(x: Case, p: Path, arm: Step, r: Path)
    requires MovedIntoUnion(x, p, arm) && HasBranchAfter(r, p, AnyOf)
    ensures !Existed(Walk(x.s), r)
  {
    forall q | q in Walk(x.s) ensures !(r <= q) {
      InWalk(x.s, q);
      BranchGoesOn(r, q, p);
      assert HasBranchAfter(q, p, AnyOf) ==> x.Was(q) == map[];
    }
  }

  lemma BranchGoesOn(r: Path, q: Path, p: Path)
    requires HasBranchAfter(r, p, AnyOf)
    ensures r <= q ==> HasBranchAfter(q, p, AnyOf)
  {}

  lemma MovedPath(x: Case, p: Path, arm: Step, r: Path)
    requires MovedIntoUnion(x, p, arm) && HasBranchAfter(r, p, AnyOf)
    ensures p + [r[|p|]] <= r && Existed(Walk(x.s), p)
    ensures !Existed(Walk(x.s), r) && !Existed(Walk(x.s), p + [r[|p|]])
    ensures r != p + [r[|p|]] ==> !Existed(Walk(x.s), Parent(r))
    ensures r == p + [r[|p|]] ==> Required !in x.Now(r)
  {
    var st := r[|p|];
    assert p + [st] <= r && HasBranchAfter(p + [st], p, AnyOf);
    NothingUnderNew(x, p, arm, p + [st]);
    NothingUnderNew(x, p, arm, r);
    InWalk(x.s, p);
    assert p <= p;
    if r == p + [st] {
      assert st == Arm(AnyOf, st.index);
    } else {
      assert p + [st] <= Parent(r) && HasBranchAfter(Parent(r), p, AnyOf);
      NothingUnderNew(x, p, arm, Parent(r));
    }
  }

  lemma MovedNotNarrow(x: Case, p: Path, arm: Step, y: Key, k: Key)
    requires MovedIntoUnion(x, p, arm) && y in x.consumed && y.SchemaKey? && y.file == x.file
    requires HasBranchAfter(y.path, p, AnyOf)
    requires k.SchemaKey? && k.file == x.file && HasBranchAfter(k.path, p, AnyOf)
    requires LeafFlat(x.Now(k.path), k.kind, k.member).Some?
    ensures !Narrows(x.base, x.cur, x.consumed, k)
  {
    var st, r := k.path[|p|], k.path;
    MovedPath(x, p, arm, r);
    KeyAt(x, r, k.kind, k.member);
    assert x.Was(r) == map[];
    NewKeywordNarrows(Walk(x.s), x.Now(r), r, k.kind, k.member);
    KeptUnionNoBranch(Walk(x.s), x.consumed, x.file, p, st, r, y, 0);
  }

  lemma {:induction false} KeptUnionNoBranch(bf: Leaves, consumed: set<Key>, file: string, p: Path, st: Step, r: Path,
                                             y: Key, i: nat)
    requires Existed(bf, p) && !Existed(bf, p + [st]) && p + [st] <= r && st.Arm? && st.branch.AnyOf?
    requires y in consumed && y.SchemaKey? && y.file == file && HasBranchAfter(y.path, p, AnyOf)
    ensures !BranchNarrows(bf, consumed, file, r, i)
    decreases |r| - i
  {
    if i < |r| {
      KeptUnionNoBranch(bf, consumed, file, p, st, r, y, i + 1);
      if i < |p| { PrefixOfOld(bf, p, r, i); } else { BelowIsNew(bf, p, st, r, i); }
    }
  }
}
