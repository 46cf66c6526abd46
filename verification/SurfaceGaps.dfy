/** Where the fragment of SurfaceCompat ends: kinds of change for which the surface diff's verdict and the compatibility
    of the schemas come apart. Each is characterised on both sides, so the condition under which the diff errs is exact.

    They are a const moved, enum members exchanged, a type kept beside the union its old type moved into, a schema that
    appears where no leaf was, and a keyword of a kind that the baseline did not record. */
module SurfaceGaps {
  import opened Options
  import opened Surface
  import opened SurfaceCompat
  import opened SurfaceDiff

  function ScalarSchema(facts: Leaf): Schema { Schema(facts, map[], {}, None, []) }

  /** Every document the first schema accepts, the second one accepts. */
  ghost predicate Compatible(s: Schema, t: Schema, re: Regex) { forall d :: Accepts(s, d, re) ==> Accepts(t, d, re) }

  ghost predicate AcceptsAll(s: Schema, re: Regex) { forall d :: Accepts(s, d, re) }

  /** The two schemas are all there is in the surfaces. */
  ghost predicate Alone(x: Case) {
    && x.Setting()
    && x.base.schemas.Keys == {x.file} && x.cur.schemas.Keys == {x.file} && x.base.other == x.cur.other
  }

  lemma ScalarWalk(facts: Leaf, p: Path)
    ensures LeafAt(Walk(ScalarSchema(facts)), p) == if p == [] then facts else map[]
  {
    WalkLeaf(ScalarSchema(facts), p);
  }

  function ConstSchema(n: int): Schema {
    ScalarSchema(map[Type := Scalar(Str("integer")), Const := Scalar(Num(n))])
  }

  lemma ConstFate(x: Case, m: int, n: int, k: Key)
    requires Alone(x) && x.s == ConstSchema(m) && x.t == ConstSchema(n)
    ensures !x.Fate(k).Removed?
    ensures x.Fate(k).Changed? <==> k == SchemaKey(x.file, [], Const, None) && n < m
  {
    if k == SchemaKey(x.file, [], Const, None) {
      ScalarWalk(x.s.facts, []);
      ScalarWalk(x.t.facts, []);
      assert At(x.base, k) == Some(Json(Num(m))) && At(x.cur, k) == Some(Json(Num(n)));
      ConstWidens(x.s.facts, x.t.facts, m, n);
    } else {
      ConstElsewhere(x, m, n, k);
      EqualFate(x, k);
    }
  }

  lemma EqualFate(x: Case, k: Key)
    requires At(x.base, k) == At(x.cur, k)
    ensures x.Fate(k).Same? || x.Fate(k).Absent?
  {}

  lemma ConstWidens(l: Leaf, r: Leaf, m: int, n: int)
    requires Const in l && l[Const] == Scalar(Num(m)) && Const in r && r[Const] == Scalar(Num(n))
    ensures WidensAt(l, r, true, Const, None) <==> n > m
  {}

  lemma ConstElsewhere(x: Case, m: int, n: int, k: Key)
    requires Alone(x) && x.s == ConstSchema(m) && x.t == ConstSchema(n)
    requires k != SchemaKey(x.file, [], Const, None)
    ensures At(x.base, k) == At(x.cur, k)
  {
    if k.SchemaKey? && k.file == x.file {
      ScalarWalk(x.s.facts, k.path);
      ScalarWalk(x.t.facts, k.path);
    }
  }

  lemma ConstAccepts(n: int, d: Doc, re: Regex)
    ensures Accepts(ConstSchema(n), d, re) <==> d == DNum(n as real)
  {
    var s := ConstSchema(n);
    if d == DNum(n as real) {
      assert (n as real).Floor as real == n as real;
      assert TypeMatches(TypeNames(s.facts[Type])[0], d);
    } else {
      assert !Meets(Const, s.facts[Const], s.props.Keys, d, re);
    }
  }

  /** An integer const moved from m to n: the diff is ok exactly when n >= m, the schemas are compatible exactly when
      n == m. So the verdict errs exactly when the const is raised. */
  lemma NumericConstVerdict(x: Case, m: int, n: int, re: Regex)
    requires Alone(x) && x.s == ConstSchema(m) && x.t == ConstSchema(n)
    ensures x.Ok() <==> n >= m
    ensures Compatible(x.s, x.t, re) <==> n == m
  {
    forall k ensures !x.Fate(k).Removed? && (x.Fate(k).Changed? <==> k == SchemaKey(x.file, [], Const, None) && n < m) {
      ConstFate(x, m, n, k);
    }
    OkUnlessChanged(x, SchemaKey(x.file, [], Const, None), n < m);
    ConstCompatible(m, n, re);
  }

  lemma OkUnlessChanged(x: Case, key: Key, changed: bool)
    requires x.Setting() && forall k :: !x.Fate(k).Removed? && (x.Fate(k).Changed? <==> k == key && changed)
    ensures x.Ok() <==> !changed
  {
    assert x.Fate(key).Changed? <==> changed;
  }

  lemma ConstCompatible(m: int, n: int, re: Regex)
    ensures Compatible(ConstSchema(m), ConstSchema(n), re) <==> n == m
  {
    forall d ensures Accepts(ConstSchema(m), d, re) <==> d == DNum(m as real)
      ensures Accepts(ConstSchema(n), d, re) <==> d == DNum(n as real)
    {
      ConstAccepts(m, d, re);
      ConstAccepts(n, d, re);
    }
    assert Accepts(ConstSchema(m), DNum(m as real), re);
  }

  // ---------------------------------------------------------------------------------------------
  // Enum members.

  /** `{type: v, enum: members}`. */
  function EnumSchema(v: Atom, members: seq<Atom>): Schema {
    ScalarSchema(map[Type := Scalar(v), Enum := List(members)])
  }

  /** Every member has a label that some member of the other list has. */
  predicate LabelsWithin(xs: seq<Atom>, ys: seq<Atom>) {
    forall i :: 0 <= i < |xs| ==> HasLabel(ys, Label(xs[i]))
  }

  ghost predicate EnumMoved(x: Case, v: Atom, xs: seq<Atom>, ys: seq<Atom>) {
    Alone(x) && x.s == EnumSchema(v, xs) && x.t == EnumSchema(v, ys)
  }

  lemma EnumElsewhere(x: Case, v: Atom, xs: seq<Atom>, ys: seq<Atom>, k: Key)
    requires EnumMoved(x, v, xs, ys) && !(k.SchemaKey? && k.file == x.file && k.path == [] && k.kind.Enum?)
    ensures At(x.base, k) == At(x.cur, k)
  {
    if k.SchemaKey? && k.file == x.file {
      ScalarWalk(x.s.facts, k.path);
      ScalarWalk(x.t.facts, k.path);
    }
  }

  lemma EnumAtRoot(x: Case, v: Atom, xs: seq<Atom>, ys: seq<Atom>)
    requires EnumMoved(x, v, xs, ys)
    ensures x.Was([]) == x.s.facts && x.Now([]) == x.t.facts && [] in Walk(x.s)
    ensures forall p: Path :: p != [] ==> x.Now(p) == map[]
  {
    assert Type in x.s.facts;
    WalkLeaf(x.s, []);
    forall p: Path ensures x.Was(p) == if p == [] then x.s.facts else map[]
      ensures x.Now(p) == if p == [] then x.t.facts else map[]
    {
      ScalarWalk(x.s.facts, p);
      ScalarWalk(x.t.facts, p);
    }
  }

  lemma EnumNotReclassified(x: Case, m: Option<string>)
    requires x.Setting() && Enum in x.Was([]) && Enum in x.Now([]) && [] in Walk(x.s)
    ensures var k := SchemaKey(x.file, [], Enum, m);
            !Widens(x.base, x.cur, k) && !Narrows(x.base, x.cur, x.consumed, k)
  {}

  lemma EnumFate(x: Case, v: Atom, xs: seq<Atom>, ys: seq<Atom>, m: Option<string>)
    requires EnumMoved(x, v, xs, ys)
    ensures var k := SchemaKey(x.file, [], Enum, m);
            && !x.Fate(k).Changed?
            && (x.Fate(k).Removed? <==> FlatOf(List(xs), m).Some? && FlatOf(List(ys), m).None?)
  {
    EnumNotReclassified(x, m);
    EnumUndecided(x, v, xs, ys, m);
    PlainFate(x, SchemaKey(x.file, [], Enum, m));
  }

  lemma EnumUndecided(x: Case, v: Atom, xs: seq<Atom>, ys: seq<Atom>, m: Option<string>)
    requires EnumMoved(x, v, xs, ys)
    ensures var k := SchemaKey(x.file, [], Enum, m);
            && At(x.base, k) == FlatOf(List(xs), m) && At(x.cur, k) == FlatOf(List(ys), m)
            && (At(x.base, k).Some? ==> Verdict(x.b, x.c, x.file, []).Undecided?)
            && (At(x.base, k).Some? && At(x.cur, k).Some? ==> At(x.base, k) == At(x.cur, k))
  {
    EnumAtRoot(x, v, xs, ys);
    EnumLeaves(x, v, xs, ys, m);
    if FlatOf(List(xs), m).Some? { NothingMoved(x, Enum, m); }
  }

  lemma EnumLeaves(x: Case, v: Atom, xs: seq<Atom>, ys: seq<Atom>, m: Option<string>)
    requires EnumMoved(x, v, xs, ys)
    ensures var k := SchemaKey(x.file, [], Enum, m);
            && At(x.base, k) == FlatOf(List(xs), m) && At(x.cur, k) == FlatOf(List(ys), m)
            && (At(x.base, k).Some? && At(x.cur, k).Some? ==> At(x.base, k) == At(x.cur, k))
  {
    EnumAtRoot(x, v, xs, ys);
  }

  lemma PlainFate(x: Case, k: Key)
    requires k.SchemaKey? && !Widens(x.base, x.cur, k) && !Narrows(x.base, x.cur, x.consumed, k)
    requires At(x.base, k).Some? ==> Verdict(x.b, x.c, k.file, k.path).Undecided?
    requires At(x.base, k).Some? && At(x.cur, k).Some? ==> At(x.base, k) == At(x.cur, k)
    ensures !x.Fate(k).Changed? && (x.Fate(k).Removed? <==> At(x.base, k).Some? && At(x.cur, k).None?)
  {}

  /** A schema without children has no branch its leaves could have moved to. */
  lemma NothingMoved(x: Case, kind: Kind, m: Option<string>)
    requires x.Setting() && LeafFlat(x.Was([]), kind, m).Some? && forall p: Path :: p != [] ==> x.Now(p) == map[]
    ensures Verdict(x.b, x.c, x.file, []).Undecided?
  {
    var k := SchemaKey(x.file, [], kind, m);
    assert k in x.b.flat && k in x.b.DirectLeaves(x.file, []);
    forall arm ensures !ArmKeeps(x.b, x.c, x.file, [], arm) {
      assert x.Now([] + [arm]) == map[];
      assert At(x.cur, InArm(k, arm)).None? && InArm(k, arm) !in x.c.flat;
    }
    CopyKeeps(x.b, x.c, x.file, []);
  }

  lemma EnumOk(x: Case, v: Atom, xs: seq<Atom>, ys: seq<Atom>)
    requires EnumMoved(x, v, xs, ys)
    ensures x.Ok() <==> LabelsWithin(xs, ys) && (xs == [] ==> ys == [])
  {
    forall k ensures !x.Fate(k).Changed? && (x.Fate(k).Removed? <==>
              && k.SchemaKey? && k.file == x.file && k.path == [] && k.kind.Enum?
              && FlatOf(List(xs), k.member).Some? && FlatOf(List(ys), k.member).None?)
    {
      if k.SchemaKey? && k.file == x.file && k.path == [] && k.kind.Enum? {
        EnumFate(x, v, xs, ys, k.member);
      } else {
        EnumElsewhere(x, v, xs, ys, k);
        EqualFate(x, k);
      }
    }
    LabelsDecide(xs, ys);
    if m :| FlatOf(List(xs), m).Some? && FlatOf(List(ys), m).None? {
      assert x.Fate(SchemaKey(x.file, [], Enum, m)).Removed?;
    }
  }

  lemma LabelsDecide(xs: seq<Atom>, ys: seq<Atom>)
    ensures (exists m :: FlatOf(List(xs), m).Some? && FlatOf(List(ys), m).None?) <==>
              !LabelsWithin(xs, ys) || (xs == [] && ys != [])
  {
    if i :| 0 <= i < |xs| && !HasLabel(ys, Label(xs[i])) {
      assert FlatOf(List(xs), Some(Label(xs[i]))).Some? && FlatOf(List(ys), Some(Label(xs[i]))).None?;
    }
    if xs == [] && ys != [] { assert FlatOf(List(xs), None).Some? && FlatOf(List(ys), None).None?; }
  }

  lemma EnumAccepts(v: Atom, xs: seq<Atom>, d: Doc, re: Regex)
    ensures Accepts(EnumSchema(v, xs), d, re) <==> TypeMatches(v, d) && exists i :: 0 <= i < |xs| && d == AtomDoc(xs[i])
  {
    var s := EnumSchema(v, xs);
    assert s.facts[Type] == Scalar(v) && TypeNames(Scalar(v))[0] == v;
    assert Meets(Type, s.facts[Type], {}, d, re) <==> TypeMatches(v, d);
    assert Meets(Enum, s.facts[Enum], {}, d, re) <==> exists i :: 0 <= i < |xs| && d == AtomDoc(xs[i]);
  }

  lemma EnumCompatible(v: Atom, xs: seq<Atom>, ys: seq<Atom>, re: Regex)
    ensures Compatible(EnumSchema(v, xs), EnumSchema(v, ys), re) <==>
              forall i :: 0 <= i < |xs| && TypeMatches(v, AtomDoc(xs[i])) ==> xs[i] in ys
  {
    forall d
      ensures Accepts(EnumSchema(v, xs), d, re) <==>
                TypeMatches(v, d) && exists i :: 0 <= i < |xs| && d == AtomDoc(xs[i])
      ensures Accepts(EnumSchema(v, ys), d, re) <==>
                TypeMatches(v, d) && exists i :: 0 <= i < |ys| && d == AtomDoc(ys[i])
    {
      EnumAccepts(v, xs, d, re);
      EnumAccepts(v, ys, d, re);
    }
    if i :| 0 <= i < |xs| && TypeMatches(v, AtomDoc(xs[i])) && xs[i] !in ys {
      assert Accepts(EnumSchema(v, xs), AtomDoc(xs[i]), re);
      forall j | 0 <= j < |ys| ensures AtomDoc(xs[i]) != AtomDoc(ys[j]) { AtomDocInjective(xs[i], ys[j]); }
    }
  }

  lemma AtomDocInjective(a: Atom, b: Atom)
    ensures AtomDoc(a) == AtomDoc(b) <==> a == b
  {}

  /** An enum under a type: the diff is ok exactly when every old member's label is still there, the schemas are
      compatible exactly when every old member of that type is still there. So the verdict errs exactly when such a
      member is gone and another one has its label. */
  lemma EnumVerdict(x: Case, v: Atom, xs: seq<Atom>, ys: seq<Atom>, re: Regex)
    requires EnumMoved(x, v, xs, ys)
    ensures x.Ok() <==> LabelsWithin(xs, ys) && (xs == [] ==> ys == [])
    ensures Compatible(x.s, x.t, re) <==>
              forall i :: 0 <= i < |xs| && TypeMatches(v, AtomDoc(xs[i])) ==> xs[i] in ys
  {
    EnumOk(x, v, xs, ys);
    EnumCompatible(v, xs, ys, re);
  }

  /** The string `"true"` and the boolean `true` have one label: exchanged, a file with the string no longer loads. */
  lemma EnumCollisionRejects(x: Case, re: Regex)
    requires EnumMoved(x, Str("string"), [Str("true")], [Bool(true)])
    ensures x.Ok() && Accepts(x.s, DStr("true"), re) && !Accepts(x.t, DStr("true"), re)
  {
    var one: seq<Atom> := [Bool(true)];
    assert Label(one[0]) == "true" && HasLabel(one, "true");
    EnumOk(x, Str("string"), [Str("true")], one);
    EnumAccepts(Str("string"), [Str("true")], DStr("true"), re);
    EnumAccepts(Str("string"), one, DStr("true"), re);
    assert [Str("true")][0] == Str("true");
  }

  // ---------------------------------------------------------------------------------------------
  // A type beside a union.

  const ARM0: Step := Arm(AnyOf, 0)

  /** `{type: v}` becomes `{type: ws, anyOf: [{type: v}]}`, for a list of type names. */
  ghost predicate TypeKeptBesideUnion(x: Case, v: Atom, ws: seq<Atom>) {
    && Alone(x) && ws != []
    && x.s == ScalarSchema(map[Type := Scalar(v)])
    && x.t == ScalarSchema(map[Type := List(ws)]).(anyOf := [x.s])
  }

  lemma BesideUnionLeaves(x: Case, v: Atom, ws: seq<Atom>, p: Path)
    requires TypeKeptBesideUnion(x, v, ws)
    ensures x.Was(p) == if p == [] then map[Type := Scalar(v)] else map[]
    ensures x.Now(p) == if p == [] then map[Type := List(ws)] else if p == [ARM0] then map[Type := Scalar(v)] else map[]
  {
    ScalarWalk(x.s.facts, p);
    WalkLeaf(x.t, p);
    if p != [] {
      assert p == [p[0]] + p[1..];
      if |p| > 1 { assert Child(x.t, p[0]).Some? ==> Child(x.s, p[1..][0]).None?; }
    }
  }

  lemma DirectWas(x: Case, p: Path, k: Key)
    requires x.Setting()
    ensures k in x.b.DirectLeaves(x.file, p) <==>
              k.SchemaKey? && k.file == x.file && k.path == p && LeafFlat(x.Was(p), k.kind, k.member).Some?
    ensures k in x.b.DirectLeaves(x.file, p) ==>
              LeafFlat(x.Was(p), k.kind, k.member) == Some(x.b.DirectLeaves(x.file, p)[k])
  {
    assert k in x.b.flat <==> At(x.base, k).Some?;
  }

  lemma DirectNow(x: Case, p: Path, k: Key)
    requires x.Setting()
    ensures k in x.c.DirectLeaves(x.file, p) <==>
              k.SchemaKey? && k.file == x.file && k.path == p && LeafFlat(x.Now(p), k.kind, k.member).Some?
    ensures k in x.c.DirectLeaves(x.file, p) ==>
              LeafFlat(x.Now(p), k.kind, k.member) == Some(x.c.DirectLeaves(x.file, p)[k])
  {
    assert k in x.c.flat <==> At(x.cur, k).Some?;
  }

  lemma BesideUnionWas(x: Case, v: Atom, ws: seq<Atom>)
    requires TypeKeptBesideUnion(x, v, ws)
    ensures x.b.DirectLeaves(x.file, []) == map[SchemaKey(x.file, [], Type, None) := Json(v)]
  {
    BesideUnionLeaves(x, v, ws, []);
    var was := x.b.DirectLeaves(x.file, []);
    forall k ensures k in was <==> k == SchemaKey(x.file, [], Type, None) { DirectWas(x, [], k); }
    DirectWas(x, [], SchemaKey(x.file, [], Type, None));
  }

  lemma BesideUnionNow(x: Case, v: Atom, ws: seq<Atom>)
    requires TypeKeptBesideUnion(x, v, ws)
    ensures x.c.DirectLeaves(x.file, [ARM0]) == map[SchemaKey(x.file, [ARM0], Type, None) := Json(v)]
  {
    BesideUnionLeaves(x, v, ws, [ARM0]);
    var now := x.c.DirectLeaves(x.file, [ARM0]);
    forall k ensures k in now <==> k == SchemaKey(x.file, [ARM0], Type, None) { DirectNow(x, [ARM0], k); }
    DirectNow(x, [ARM0], SchemaKey(x.file, [ARM0], Type, None));
  }

  lemma BesideUnionVerdict(x: Case, v: Atom, ws: seq<Atom>)
    requires TypeKeptBesideUnion(x, v, ws)
    ensures Verdict(x.b, x.c, x.file, []).MovedIntact?
  {
    BesideUnionWas(x, v, ws);
    BesideUnionNow(x, v, ws);
    assert [] + [ARM0] == [ARM0];
    SingleCopy(x.file, Json(v));
    assert ArmIsCopy(x.b, x.c, x.file, [], ARM0);
  }

  lemma SingleCopy(file: string, v: FlatVal)
    ensures IsCopy(map[SchemaKey(file, [], Type, None) := v], map[SchemaKey(file, [ARM0], Type, None) := v], ARM0)
  {
    assert InArm(SchemaKey(file, [], Type, None), ARM0) == SchemaKey(file, [ARM0], Type, None);
  }

  /** A branch that is a copy of the root's old leaves is the union's only one. */
  lemma OnlyCopy(x: Case, v: Atom, ws: seq<Atom>, arm: Step)
    requires TypeKeptBesideUnion(x, v, ws) && ArmIsCopy(x.b, x.c, x.file, [], arm)
    ensures SchemaKey(x.file, [ARM0], Type, None) in x.c.DirectLeaves(x.file, [] + [arm])
  {
    var k := SchemaKey(x.file, [], Type, None);
    BesideUnionWas(x, v, ws);
    assert k in x.b.DirectLeaves(x.file, []);
    assert InArm(k, arm) in x.c.DirectLeaves(x.file, [] + [arm]);
    assert [] + [arm] == [arm];
    DirectNow(x, [arm], InArm(k, arm));
    BesideUnionLeaves(x, v, ws, [arm]);
  }

  lemma RootMoved(x: Case, v: Atom, ws: seq<Atom>)
    requires TypeKeptBesideUnion(x, v, ws)
    ensures MovedKey(x.c, SchemaKey(x.file, [], Type, None)) && SchemaKey(x.file, [], Type, None) in x.b.flat
  {
    var k := SchemaKey(x.file, [], Type, None);
    BesideUnionLeaves(x, v, ws, []);
    DirectWas(x, [], k);
    DirectNow(x, [], k);
  }

  lemma BesideUnionConsumed(x: Case, v: Atom, ws: seq<Atom>)
    requires TypeKeptBesideUnion(x, v, ws) && ConsumedComplete(x.b, x.c, x.consumed)
    ensures SchemaKey(x.file, [ARM0], Type, None) in x.consumed
  {
    BesideUnionVerdict(x, v, ws);
    RootMoved(x, v, ws);
    assert CopyConsumed(x.b, x.c, x.consumed, x.file, []);
    var arm :| ArmIsCopy(x.b, x.c, x.file, [], arm) && x.c.DirectLeaves(x.file, [] + [arm]).Keys <= x.consumed;
    OnlyCopy(x, v, ws, arm);
  }

  lemma RootFate(x: Case, v: Atom, ws: seq<Atom>, kind: Kind, m: Option<string>)
    requires TypeKeptBesideUnion(x, v, ws)
    ensures !x.Fate(SchemaKey(x.file, [], kind, m)).Removed? && !x.Fate(SchemaKey(x.file, [], kind, m)).Changed?
  {
    BesideUnionLeaves(x, v, ws, []);
    BesideUnionVerdict(x, v, ws);
  }

  lemma BesideUnionFate(x: Case, v: Atom, ws: seq<Atom>, k: Key)
    requires TypeKeptBesideUnion(x, v, ws) && ConsumedComplete(x.b, x.c, x.consumed)
    ensures !x.Fate(k).Removed? && !x.Fate(k).Changed?
  {
    if k.SchemaKey? && k.file == x.file {
      if k.path == [] {
        RootFate(x, v, ws, k.kind, k.member);
      } else {
        BesideUnionLeaves(x, v, ws, k.path);
        if k.path == [ARM0] && k.kind.Type? && k.member.None? { BesideUnionConsumed(x, v, ws); }
      }
    }
  }

  /** No document is of the type v but of none of the types ws. */
  predicate TypeCovered(v: Atom, ws: seq<Atom>) {
    v in ws || (v == Str("integer") && Str("number") in ws) || v !in TYPE_NAMES
  }

  const TYPE_NAMES: set<Atom> :=
    {Str("null"), Str("boolean"), Str("integer"), Str("number"), Str("string"), Str("array"), Str("object")}

  /** A document of that type and, but for integers, of no other. */
  function Specimen(v: Atom): Doc {
    if v == Str("boolean") then DBool(true)
    else if v == Str("integer") then DNum(0.0)
    else if v == Str("number") then DNum(0.5)
    else if v == Str("string") then DStr("")
    else if v == Str("array") then DArr([])
    else if v == Str("object") then DObj(map[])
    else DNull
  }

  lemma SpecimenTypes(v: Atom, w: Atom)
    requires v in TYPE_NAMES
    ensures TypeMatches(v, Specimen(v))
    ensures TypeMatches(w, Specimen(v)) ==> w == v || (v == Str("integer") && w == Str("number"))
  {
    assert (0.5).Floor == 0 && (0.0).Floor == 0;
  }

  lemma TypesCover(v: Atom, ws: seq<Atom>)
    ensures (forall d :: TypeMatches(v, d) ==> exists i :: 0 <= i < |ws| && TypeMatches(ws[i], d)) <==>
            TypeCovered(v, ws)
  {
    if TypeCovered(v, ws) {
      forall d | TypeMatches(v, d) ensures exists i :: 0 <= i < |ws| && TypeMatches(ws[i], d) {
        var w := if v in ws then v else Str("number");
        var i :| 0 <= i < |ws| && ws[i] == w;
        assert TypeMatches(ws[i], d);
      }
    } else {
      SpecimenTypes(v, v);
      forall i | 0 <= i < |ws| ensures !TypeMatches(ws[i], Specimen(v)) { SpecimenTypes(v, ws[i]); }
    }
  }

  lemma TypeAccepts(v: Val, d: Doc, re: Regex)
    ensures Accepts(ScalarSchema(map[Type := v]), d, re) <==>
              exists i :: 0 <= i < |TypeNames(v)| && TypeMatches(TypeNames(v)[i], d)
  {
    assert ScalarSchema(map[Type := v]).facts[Type] == v;
  }

  lemma TypedAccepts(x: Case, v: Atom, ws: seq<Atom>, d: Doc, re: Regex)
    requires TypeKeptBesideUnion(x, v, ws)
    ensures Accepts(x.s, d, re) <==> TypeMatches(v, d)
  {
    TypeAccepts(Scalar(v), d, re);
    assert TypeNames(Scalar(v))[0] == v;
  }

  lemma BesideUnionAccepts(x: Case, v: Atom, ws: seq<Atom>, d: Doc, re: Regex)
    requires TypeKeptBesideUnion(x, v, ws)
    ensures Accepts(x.s, d, re) <==> TypeMatches(v, d)
    ensures Accepts(x.t, d, re) <==> TypeMatches(v, d) && exists i :: 0 <= i < |ws| && TypeMatches(ws[i], d)
  {
    TypedAccepts(x, v, ws, d, re);
    assert x.t.facts[Type] == List(ws) && x.t.anyOf[0] == x.s;
    assert TypeNames(List(ws)) == ws;
    assert Meets(Type, x.t.facts[Type], {}, d, re) <==> exists i :: 0 <= i < |ws| && TypeMatches(ws[i], d);
  }

  /** A node that keeps types of its own beside the union its old type moved into: nothing is reported, and the schemas
      are compatible exactly when the types it keeps cover the old one. */
  lemma BesideUnionIsUnseen(x: Case, v: Atom, ws: seq<Atom>, re: Regex)
    requires TypeKeptBesideUnion(x, v, ws) && ConsumedComplete(x.b, x.c, x.consumed)
    ensures x.Ok()
    ensures Compatible(x.s, x.t, re) <==> TypeCovered(v, ws)
  {
    forall k ensures !x.Fate(k).Removed? && !x.Fate(k).Changed? { BesideUnionFate(x, v, ws, k); }
    TypesCover(v, ws);
    if TypeCovered(v, ws) {
      forall d | Accepts(x.s, d, re) ensures Accepts(x.t, d, re) { BesideUnionAccepts(x, v, ws, d, re); }
    } else {
      var d :| TypeMatches(v, d) && forall i :: 0 <= i < |ws| ==> !TypeMatches(ws[i], d);
      BesideUnionAccepts(x, v, ws, d, re);
    }
  }

  // ---------------------------------------------------------------------------------------------
  // A schema where no leaf was.

  /** `{type: object}` with a property, or `{type: array}` with an item schema. */
  function OpenSchema(st: Step): Schema {
    ScalarSchema(map[Type := Scalar(Str(if st.Prop? then "object" else "array"))])
  }

  function Grown(st: Step, child: Schema, required: bool): Schema
    requires st.Prop? || st.Items?
  {
    if st.Prop? then OpenSchema(st).(props := map[st.name := child], required := if required then {st.name} else {})
    else OpenSchema(st).(items := Some(child))
  }

  /** An open object gains a property, or an array its first item schema. */
  ghost predicate ChildAppears(x: Case, st: Step, child: Schema, required: bool) {
    && Alone(x) && (st.Prop? || st.Items?) && (required ==> st.Prop?)
    && x.s == OpenSchema(st) && x.t == Grown(st, child, required) && Required !in child.facts
  }

  lemma GrownLeaf(x: Case, st: Step, child: Schema, required: bool, p: Path)
    requires ChildAppears(x, st, child, required)
    ensures x.Was(p) == if p == [] then OpenSchema(st).facts else map[]
    ensures p == [] ==> x.Now(p) == x.Was(p)
    ensures x.Now(p) != map[] ==> p == [] || p[0] == st
    ensures Required in x.Now([st]) <==> required
  {
    ScalarWalk(x.s.facts, p);
    WalkLeaf(x.t, p);
    WalkLeaf(x.t, [st]);
    NodeBelow(x.t, [], st);
    assert [] + [st] == [st] && Parent([st]) == [];
    if p != [] { assert Child(x.t, p[0]).Some? ==> p[0] == st; }
  }

  lemma {:induction false} NewPathNoBranch(bf: Leaves, consumed: set<Key>, file: string, path: Path, i: nat)
    requires bf.Keys == {[]} && path != [] && !path[0].Arm?
    ensures !BranchNarrows(bf, consumed, file, path, i)
    decreases |path| - i
  {
    if i < |path| {
      NewPathNoBranch(bf, consumed, file, path, i + 1);
      forall p | p in bf ensures !(path[..i + 1] <= p) {}
      if i > 0 { assert !Existed(bf, path[..i]); }
    }
  }

  lemma GrownFate(x: Case, st: Step, child: Schema, required: bool, k: Key)
    requires ChildAppears(x, st, child, required)
    ensures !x.Fate(k).Removed?
    ensures x.Fate(k).Changed? ==> required
  {
    if k.SchemaKey? && k.file == x.file {
      GrownLeaf(x, st, child, required, k.path);
      if k.path != [] && x.Now(k.path) != map[] && !required { GrownNotNarrow(x, st, child, required, k); }
    }
  }

  lemma OnlyRoot(x: Case, st: Step, child: Schema, required: bool)
    requires ChildAppears(x, st, child, required)
    ensures Walk(x.s).Keys == {[]}
  {
    assert Type in x.s.facts;
    forall p ensures p in Walk(x.s) <==> p == [] {
      WalkLeaf(x.s, p);
      ScalarWalk(x.s.facts, p);
    }
  }

  lemma GrownNotNarrow(x: Case, st: Step, child: Schema, required: bool, k: Key)
    requires ChildAppears(x, st, child, required) && k.SchemaKey? && k.file == x.file
    requires k.path != [] && k.path[0] == st && !required
    ensures !Narrows(x.base, x.cur, x.consumed, k)
  {
    OnlyRoot(x, st, child, required);
    NewPathNoBranch(Walk(x.s), x.consumed, x.file, k.path, 0);
    GrownLeaf(x, st, child, required, k.path);
    assert !Existed(Walk(x.s), k.path);
    if k.kind.Required? && |k.path| == 1 { assert k.path == [st]; }
    if k.kind.Required? && |k.path| > 1 { assert !Existed(Walk(x.s), Parent(k.path)); }
  }

  lemma RequiredReported(x: Case, st: Step, child: Schema)
    requires ChildAppears(x, st, child, true)
    ensures exists k :: x.Fate(k).Changed?
  {
    var k := SchemaKey(x.file, [st], Required, None);
    GrownLeaf(x, st, child, true, []);
    GrownLeaf(x, st, child, true, [st]);
    WalkLeaf(x.t, [st]);
    assert x.Now([st])[Required] == Scalar(Bool(true));
    OnlyRoot(x, st, child, true);
    PropertyUnconsumed(x, [st]);
    assert [] in Walk(x.s) && [] <= Parent([st]);
    IntroducedNarrows(x, [st], Required, None);
    assert x.Fate(k).Changed?;
  }

  /** An open object that gains a property, or an array that gains its first item schema: the diff is ok exactly when
      the property is not required, and the schemas are compatible exactly when, besides, the new schema accepts
      everything. */
  lemma ChildVerdict(x: Case, st: Step, child: Schema, required: bool, re: Regex)
    requires ChildAppears(x, st, child, required)
    ensures x.Ok() <==> !required
    ensures Compatible(x.s, x.t, re) <==> !required && AcceptsAll(child, re)
  {
    forall k ensures !x.Fate(k).Removed? && (x.Fate(k).Changed? ==> required) { GrownFate(x, st, child, required, k); }
    if required { RequiredReported(x, st, child); }
    ChildCompatible(x, st, child, required, re);
  }

  function Host(st: Step, d: Doc): Doc {
    if st.Prop? then DObj(map[st.name := d]) else DArr([d])
  }

  lemma HostAccepted(x: Case, st: Step, child: Schema, required: bool, d: Doc, re: Regex)
    requires ChildAppears(x, st, child, required)
    ensures Accepts(x.s, Host(st, d), re)
    ensures Accepts(x.t, Host(st, d), re) ==> Accepts(child, d, re)
  {
    TypeAccepts(x.s.facts[Type], Host(st, d), re);
    assert TypeMatches(TypeNames(x.s.facts[Type])[0], Host(st, d));
    if Accepts(x.t, Host(st, d), re) {
      if st.Prop? { assert Accepts(x.t.props[st.name], Host(st, d).fields[st.name], re); }
      else { assert Accepts(x.t.items.value, Host(st, d).elems[0], re); }
    }
  }

  lemma EmptyObjectLost(x: Case, st: Step, child: Schema, re: Regex)
    requires ChildAppears(x, st, child, true)
    ensures Accepts(x.s, DObj(map[]), re) && !Accepts(x.t, DObj(map[]), re)
  {
    TypeAccepts(x.s.facts[Type], DObj(map[]), re);
    assert TypeMatches(TypeNames(x.s.facts[Type])[0], DObj(map[]));
    assert st.name in x.t.required;
  }

  lemma GrownAccepts(x: Case, st: Step, child: Schema, d: Doc, re: Regex)
    requires ChildAppears(x, st, child, false) && (forall e :: Accepts(child, e, re)) && Accepts(x.s, d, re)
    ensures Accepts(x.t, d, re)
  {
    assert MeetsAll(x.t.facts, x.t.props.Keys, d, re) by {
      forall kind | kind in x.t.facts ensures Meets(kind, x.t.facts[kind], x.t.props.Keys, d, re) {
        assert Meets(kind, x.s.facts[kind], x.s.props.Keys, d, re);
      }
    }
  }

  lemma ChildCompatible(x: Case, st: Step, child: Schema, required: bool, re: Regex)
    requires ChildAppears(x, st, child, required)
    ensures Compatible(x.s, x.t, re) <==> !required && AcceptsAll(child, re)
  {
    if required {
      EmptyObjectLost(x, st, child, re);
    } else if AcceptsAll(child, re) {
      forall d | Accepts(x.s, d, re) ensures Accepts(x.t, d, re) { GrownAccepts(x, st, child, d, re); }
    } else {
      var e :| !Accepts(child, e, re);
      HostAccepted(x, st, child, required, e, re);
      assert !(Accepts(x.s, Host(st, e), re) ==> Accepts(x.t, Host(st, e), re));
    }
  }

  /** For a child that is only typed, that is when it names every type. */
  lemma TypedChildVerdict(x: Case, st: Step, v: Val, re: Regex)
    requires ChildAppears(x, st, ScalarSchema(map[Type := v]), false)
    ensures x.Ok()
    ensures Compatible(x.s, x.t, re) <==>
              forall w :: w in TYPE_NAMES && w != Str("integer") ==> w in TypeNames(v)
  {
    var child := ScalarSchema(map[Type := v]);
    ChildVerdict(x, st, child, false, re);
    if w :| w in TYPE_NAMES && w != Str("integer") && w !in TypeNames(v) {
      TypeAccepts(v, Specimen(w), re);
      forall i | 0 <= i < |TypeNames(v)| ensures !TypeMatches(TypeNames(v)[i], Specimen(w)) {
        SpecimenTypes(w, TypeNames(v)[i]);
      }
    } else {
      forall d ensures Accepts(child, d, re) {
        var w := TypeOf(d);
        assert w in TypeNames(v);
        var i :| 0 <= i < |TypeNames(v)| && TypeNames(v)[i] == w;
        TypeAccepts(v, d, re);
      }
    }
  }

  function TypeOf(d: Doc): (w: Atom)
    ensures w in TYPE_NAMES && w != Str("integer") && TypeMatches(w, d)
  {
    match d
    case DNull => Str("null")
    case DBool(_) => Str("boolean")
    case DNum(_) => Str("number")
    case DStr(_) => Str("string")
    case DArr(_) => Str("array")
    case DObj(_) => Str("object")
  }

  // ---------------------------------------------------------------------------------------------
  // A keyword of a kind the baseline did not record.

  function StringSchema(n: Option<int>): Schema {
    ScalarSchema(if n.None? then map[Type := Scalar(Str("string"))]
                 else map[Type := Scalar(Str("string")), MinLength := Scalar(Num(n.value))])
  }

  /** The baseline is from before length bounds were recorded. */
  ghost predicate LengthAppears(before: Surface, now: Surface, file: string, n: int) {
    && MinLength !in KindsOf(before)
    && (forall name :: name in before.other ==> name in now.other && now.other[name] == before.other[name])
    && before.schemas == map[file := Walk(StringSchema(None))]
    && now.schemas == map[file := Walk(StringSchema(Some(n)))]
  }

  lemma LengthLeaf(kinds: set<Kind>, n: int, p: Path)
    requires MinLength !in kinds
    ensures LeafAt(ReduceLeaves(Walk(StringSchema(None)), kinds), p) ==
              LeafAt(ReduceLeaves(Walk(StringSchema(Some(n))), kinds), p)
  {
    ScalarWalk(StringSchema(None).facts, p);
    ScalarWalk(StringSchema(Some(n)).facts, p);
    assert ReduceLeaf(StringSchema(None).facts, kinds) == ReduceLeaf(StringSchema(Some(n)).facts, kinds);
  }

  lemma LengthAccepts(n: Option<int>, d: Doc, re: Regex)
    ensures Accepts(StringSchema(n), d, re) <==> d.DStr? && (n.Some? ==> |d.s| >= n.value)
  {
    var s := StringSchema(n);
    assert TypeNames(s.facts[Type])[0] == Str("string");
    assert Meets(Type, s.facts[Type], {}, d, re) <==> d.DStr?;
    assert n.Some? ==> (Meets(MinLength, s.facts[MinLength], {}, d, re) <==> (d.DStr? ==> |d.s| >= n.value));
  }

  /** A length bound such a baseline cannot see: the diff is ok, and the schemas are compatible exactly when the bound
      excludes no length. */
  lemma UnrecordedLengthUnseen(before: Surface, now: Surface, file: string, n: int, b: Flattening, c: Flattening,
                               consumed: set<Key>, d: Diff, re: Regex)
    requires LengthAppears(before, now, file, n)
    requires ListsFates(Recorded(before, before), Recorded(now, before), b, c, consumed, d)
    ensures d.removed == [] && d.changed == []
    ensures Compatible(StringSchema(None), StringSchema(Some(n)), re) <==> n <= 0
  {
    forall k ensures k !in d.removed && k !in d.changed {
      var s, t := Recorded(before, before), Recorded(now, before);
      if k.SchemaKey? { LengthLeaf(KindsOf(before), n, k.path); }
      assert At(s, k) == At(t, k) || (k.OtherKey? && At(s, k).None?);
    }
    NoMembers(d.removed);
    NoMembers(d.changed);
    forall e ensures Accepts(StringSchema(None), e, re) <==> e.DStr?
      ensures Accepts(StringSchema(Some(n)), e, re) <==> e.DStr? && |e.s| >= n
    {
      LengthAccepts(None, e, re);
      LengthAccepts(Some(n), e, re);
    }
    assert Accepts(StringSchema(None), DStr(""), re);
  }
}
