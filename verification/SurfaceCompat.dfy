/** What an `ok` surface diff means, under JSON Schema draft-07: the new schema accepts what the old one accepted. */
module SurfaceCompat {
  import opened Surface
  import opened SurfaceDiff
  import opened Options

  // ---------------------------------------------------------------------------------------------
  // Schemas and documents.

  /** `facts` holds the node's own keywords as leaf values; `required` belongs to the properties' leaves. */
  datatype Schema = Schema(facts: Leaf, props: map<string, Schema>, required: set<string>, items: Option<Schema>,
                           anyOf: seq<Schema>)

  datatype Doc = DNull | DBool(b: bool) | DNum(r: real) | DStr(s: string) | DArr(elems: seq<Doc>)
                 | DObj(fields: map<string, Doc>)

  /** The regular-expression engine is a parameter. */
  type Regex = (string, string) -> bool

  function AtomDoc(a: Atom): Doc {
    match a
    case Str(s) => DStr(s)
    case Num(n) => DNum(n as real)
    case Bool(b) => DBool(b)
    case Null => DNull
  }

  predicate TypeMatches(a: Atom, d: Doc) {
    && a.Str?
    && (match d
        case DNull => a.s == "null"
        case DBool(_) => a.s == "boolean"
        case DNum(r) => a.s == "number" || (a.s == "integer" && r.Floor as real == r)
        case DStr(_) => a.s == "string"
        case DArr(_) => a.s == "array"
        case DObj(_) => a.s == "object")
  }

  /** JSON Schema Validation draft-07, sections 6.1.1-6.1.3 (type, enum, const), 6.2.2-6.2.5, 6.3.1-6.3.3 and
      6.4.3-6.4.4 (bounds and pattern), 6.5.6 (additionalProperties: false). */
  predicate Meets(kind: Kind, v: Val, props: set<string>, d: Doc, re: Regex) {
    match kind
    case Type => exists i :: 0 <= i < |TypeNames(v)| && TypeMatches(TypeNames(v)[i], d)
    case Enum => v.List? && exists i :: 0 <= i < |v.vs| && d == AtomDoc(v.vs[i])
    case Const => v.Scalar? && d == AtomDoc(v.a)
    case Closed => d.DObj? ==> d.fields.Keys <= props
    case Pattern => IsStr(v) && d.DStr? ==> re(v.a.s, d.s)
    case MinLength => IsNum(v) && d.DStr? ==> |d.s| >= v.a.n
    case MaxLength => IsNum(v) && d.DStr? ==> |d.s| <= v.a.n
    case Minimum => IsNum(v) && d.DNum? ==> d.r >= v.a.n as real
    case Maximum => IsNum(v) && d.DNum? ==> d.r <= v.a.n as real
    case ExclusiveMinimum => IsNum(v) && d.DNum? ==> d.r > v.a.n as real
    case ExclusiveMaximum => IsNum(v) && d.DNum? ==> d.r < v.a.n as real
    case MinItems => IsNum(v) && d.DArr? ==> |d.elems| >= v.a.n
    case MaxItems => IsNum(v) && d.DArr? ==> |d.elems| <= v.a.n
    case Ref => true
    case Required => true
  }

  ghost predicate MeetsAll(facts: Leaf, props: set<string>, d: Doc, re: Regex) {
    forall k :: k in facts ==> Meets(k, facts[k], props, d, re)
  }

  /** Sections 6.4.1 (items), 6.5.3 (required), 6.5.4 (properties) and 6.7.2 (anyOf) on top of the node's own facts. */
  ghost predicate Accepts(s: Schema, d: Doc, re: Regex) {
    && MeetsAll(s.facts, s.props.Keys, d, re)
    && (d.DObj? ==> s.required <= d.fields.Keys)
    && (d.DObj? ==> forall n :: n in s.props && n in d.fields ==> Accepts(s.props[n], d.fields[n], re))
    && (d.DArr? && s.items.Some? ==> forall i :: 0 <= i < |d.elems| ==> Accepts(s.items.value, d.elems[i], re))
    && (s.anyOf != [] ==> exists i :: 0 <= i < |s.anyOf| && Accepts(s.anyOf[i], d, re))
  }

  // ---------------------------------------------------------------------------------------------
  // The walk: which leaves a schema has.

  function Child(s: Schema, step: Step): Option<Schema> {
    match step
    case Prop(n) => if n in s.props then Some(s.props[n]) else None
    case Items => s.items
    case Values => None
    case Arm(branch, i) => if branch.AnyOf? && i < |s.anyOf| then Some(s.anyOf[i]) else None
  }

  function NodeAt(s: Schema, p: Path): Option<Schema>
    decreases |p|
  {
    if p == [] then Some(s)
    else match Child(s, p[0])
      case None => None
      case Some(c) => NodeAt(c, p[1..])
  }

  predicate RequiredAt(s: Schema, p: Path) {
    && p != [] && p[|p| - 1].Prop?
    && NodeAt(s, Parent(p)).Some? && p[|p| - 1].name in NodeAt(s, Parent(p)).value.required
  }

  /** The leaf the walker records for the node at p. */
  function LeafOf(s: Schema, p: Path): Leaf
    requires NodeAt(s, p).Some?
  {
    var facts := NodeAt(s, p).value.facts;
    if RequiredAt(s, p) then facts[Required := Scalar(Bool(true))] else facts
  }

  function Steps(s: Schema): set<Step> {
    (set n | n in s.props :: Prop(n)) + (if s.items.Some? then {Items} else {})
    + (set i | 0 <= i < |s.anyOf| :: Arm(AnyOf, i))
  }

  ghost function Paths(s: Schema): set<Path>
    ensures forall p :: p in Paths(s) <==> NodeAt(s, p).Some?
  {
    var deeper := set st, p | st in Steps(s) && p in ChildPaths(s, st) :: [st] + p;
    assert forall p: Path {:trigger NodeAt(s, p)} :: p != [] && NodeAt(s, p).Some? ==> p in deeper by {
      forall p: Path | p != [] && NodeAt(s, p).Some? ensures p in deeper {
        assert p == [p[0]] + p[1..];
        assert p[0] in Steps(s) && p[1..] in ChildPaths(s, p[0]);
      }
    }
    {[]} + deeper
  }

  ghost function ChildPaths(s: Schema, st: Step): set<Path>
    requires st in Steps(s)
    ensures Child(s, st).Some?
    ensures forall p :: p in ChildPaths(s, st) <==> NodeAt(Child(s, st).value, p).Some?
    decreases s, 0
  {
    match st
    case Prop(n) => Paths(s.props[n])
    case Items => Paths(s.items.value)
    case Arm(_, i) => Paths(s.anyOf[i])
  }

  ghost function Walk(s: Schema): Leaves {
    map p | p in Paths(s) && LeafOf(s, p) != map[] :: LeafOf(s, p)
  }

  // ---------------------------------------------------------------------------------------------
  // The fragment.

  predicate WellShaped(kind: Kind, v: Val) {
    match kind
    case Type => forall i :: 0 <= i < |TypeNames(v)| ==> TypeNames(v)[i].Str?
    case Enum => v.List?
    case Const => v.Scalar?
    case Closed => v == Scalar(Bool(true))
    case Pattern => IsStr(v)
    case Ref => false
    case Required => false
    case _ => IsNum(v)
  }

  ghost predicate WellFormedNode(s: Schema) {
    && (forall k :: k in s.facts ==> WellShaped(k, s.facts[k]))
    && s.required <= s.props.Keys
  }

  predicate Admits(s: Schema, name: string) {
    Type in s.facts && Str(name) in TypeNames(s.facts[Type])
  }

  predicate TypedNode(s: Schema) {
    Type in s.facts && s.anyOf == []
  }

  /** A node that is only a union. */
  predicate PureUnion(s: Schema) {
    s.facts == map[] && s.props == map[] && s.items.None? && s.anyOf != []
  }

  /** Old schemas: every node has a type, or is a union of such nodes and nothing else. */
  ghost predicate OldFragment(s: Schema) {
    && WellFormedNode(s) && (TypedNode(s) || PureUnion(s))
    && (forall n :: n in s.props ==> OldFragment(s.props[n]))
    && (s.items.Some? ==> OldFragment(s.items.value))
    && (forall i :: 0 <= i < |s.anyOf| ==> OldFragment(s.anyOf[i]))
  }

  /** A union branch without children: value constraints only. */
  ghost predicate ScalarArm(s: Schema) {
    WellFormedNode(s) && s.props == map[] && s.items.None? && s.anyOf == [] && Closed !in s.facts
  }

  /** New schemas may be open and untyped; a node with a union keeps no `type` or `enum` of its own. */
  ghost predicate NewFragment(s: Schema) {
    && WellFormedNode(s)
    && (s.anyOf != [] ==> Type !in s.facts && Enum !in s.facts)
    && (forall n :: n in s.props ==> NewFragment(s.props[n]))
    && (s.items.Some? ==> NewFragment(s.items.value))
    && (forall i :: 0 <= i < |s.anyOf| ==> NewFragment(s.anyOf[i]))
  }

  /** Enum members that flatten to the same key are the same value (so `"1"` and `1` do not meet at one path). */
  predicate LabelsAgree(x: Leaf, y: Leaf) {
    Enum in x && Enum in y && x[Enum].List? && y[Enum].List? ==>
      forall i, j :: 0 <= i < |x[Enum].vs| && 0 <= j < |y[Enum].vs| && Label(x[Enum].vs[i]) == Label(y[Enum].vs[j]) ==>
        x[Enum].vs[i] == y[Enum].vs[j]
  }

  /** The classifier reads a raised numeric const as a loosened bound. */
  predicate ConstNotRaised(x: Leaf, y: Leaf) {
    Const in x && Const in y && IsNum(x[Const]) && IsNum(y[Const]) ==> y[Const].a.n <= x[Const].a.n
  }

  /** The same leaves, as flattened. */
  ghost predicate SameLeaves(l: Leaf, r: Leaf) {
    forall kind: Kind, m {:trigger LeafFlat(l, kind, m)} :: !kind.Required? ==>
      LeafFlat(l, kind, m) == LeafFlat(r, kind, m)
  }

  /** What the flattened leaves of a node cannot tell: members with one label, a raised const, the children of a branch
      that repeats the node's own leaves, and children that are new where anything was allowed (beside a union, in an
      open object, in an array without an item schema). */
  ghost predicate ComparableNodes(a: Schema, b: Schema) {
    && LabelsAgree(a.facts, b.facts) && ConstNotRaised(a.facts, b.facts)
    && (forall i :: 0 <= i < |b.anyOf| ==> LabelsAgree(a.facts, b.anyOf[i].facts))
    && (a.anyOf == [] ==>
          forall i :: 0 <= i < |b.anyOf| && SameLeaves(a.facts, b.anyOf[i].facts) ==> ScalarArm(b.anyOf[i]))
    && (a.anyOf != [] ==> b.props == map[] && b.items.None?)
    && (Admits(a, "object") && Closed !in a.facts ==> b.props.Keys <= a.props.Keys)
    && (Admits(a, "array") && a.items.None? ==> b.items.None?)
  }

  ghost predicate Comparable(a: Schema, b: Schema) {
    && ComparableNodes(a, b)
    && (forall n :: n in a.props && n in b.props ==> Comparable(a.props[n], b.props[n]))
    && (a.items.Some? && b.items.Some? ==> Comparable(a.items.value, b.items.value))
    && (forall i :: 0 <= i < |a.anyOf| && i < |b.anyOf| ==> Comparable(a.anyOf[i], b.anyOf[i]))
  }

  // ---------------------------------------------------------------------------------------------
  // An ok diff, key by key.

  /** One input schema, before and after, inside two surfaces whose diff has no removed and no changed key. */
  datatype Case = Case(file: string, s: Schema, t: Schema, base: Surface, cur: Surface, b: Flattening, c: Flattening,
                       consumed: set<Key>)
  {
    ghost predicate Setting() {
      && file in INPUT_SCHEMAS
      && file in base.schemas && base.schemas[file] == Walk(s)
      && file in cur.schemas && cur.schemas[file] == Walk(t)
      && b.Of(base) && c.Of(cur) && ConsumedSound(b, c, consumed)
    }

    ghost function Fate(k: Key): Fate {
      FateOf(base, cur, b, c, consumed, k)
    }

    ghost predicate Ok() {
      Setting() && forall k :: !Fate(k).Removed? && !Fate(k).Changed?
    }

    ghost function Was(p: Path): Leaf { LeafAt(Walk(s), p) }

    ghost function Now(p: Path): Leaf { LeafAt(Walk(t), p) }
  }

  lemma WalkLeaf(s: Schema, p: Path)
    ensures LeafAt(Walk(s), p) == if NodeAt(s, p).Some? then LeafOf(s, p) else map[]
    ensures p in Walk(s) <==> NodeAt(s, p).Some? && LeafOf(s, p) != map[]
  {}

  lemma KeyOk(x: Case, p: Path, kind: Kind, m: Option<string>)
    requires x.Ok()
    ensures var k := SchemaKey(x.file, p, kind, m);
            var was, now := LeafFlat(x.Was(p), kind, m), LeafFlat(x.Now(p), kind, m);
            && (was.Some? && now.None? ==> Verdict(x.b, x.c, x.file, p).MovedIntact? || Widens(x.base, x.cur, k))
            && (was.Some? && now.Some? && was != now ==> Widens(x.base, x.cur, k))
            && (was.None? && now.Some? ==> k in x.consumed || !Narrows(x.base, x.cur, x.consumed, k))
  {
    var k := SchemaKey(x.file, p, kind, m);
    assert !x.Fate(k).Removed? && !x.Fate(k).Changed?;
  }

  // ---------------------------------------------------------------------------------------------
  // Paths of the two schemas.

  lemma {:induction false} NodeBelow(s: Schema, p: Path, st: Step)
    ensures NodeAt(s, p + [st]) == match NodeAt(s, p) case None => None case Some(n) => Child(n, st)
    decreases |p|
  {
    if p == [] {
      assert [st][1..] == [];
    } else {
      assert (p + [st])[1..] == p[1..] + [st] && (p + [st])[0] == p[0];
      match Child(s, p[0])
      case None =>
      case Some(c) => NodeBelow(c, p[1..], st);
    }
  }

  lemma {:induction false} OldNode(s: Schema, p: Path)
    requires OldFragment(s) && NodeAt(s, p).Some?
    ensures OldFragment(NodeAt(s, p).value)
    decreases |p|
  {
    if p != [] { OldNode(Child(s, p[0]).value, p[1..]); }
  }

  lemma TypedInWalk(s: Schema, p: Path, a: Schema)
    requires NodeAt(s, p) == Some(a) && TypedNode(a)
    ensures p in Walk(s)
  {
    WalkLeaf(s, p);
    assert Type in LeafOf(s, p);
  }

  /** Every node of an old schema has a leaf at or below it. */
  lemma {:induction false} NodeExisted(s: Schema, p: Path, a: Schema)
    requires NodeAt(s, p) == Some(a) && OldFragment(a)
    ensures Existed(Walk(s), p)
    decreases a
  {
    if TypedNode(a) {
      TypedInWalk(s, p, a);
      assert p <= p;
    } else {
      var q := p + [Arm(AnyOf, 0)];
      NodeBelow(s, p, Arm(AnyOf, 0));
      NodeExisted(s, q, a.anyOf[0]);
      var r :| r in Walk(s) && q <= r;
      assert p <= r;
    }
  }

  lemma {:induction false} NodePrefix(s: Schema, p: Path, q: Path)
    requires NodeAt(s, p + q).Some?
    ensures NodeAt(s, p).Some?
    decreases |q|
  {
    if q == [] {
      assert p + q == p;
    } else {
      var n := |q| - 1;
      assert p + q == p + q[..n] + [q[n]];
      NodeBelow(s, p + q[..n], q[n]);
      NodePrefix(s, p, q[..n]);
    }
  }

  /** Some member label under which a value shows up when flattened. */
  function SomeMember(v: Val): (m: Option<string>)
    ensures FlatOf(v, m).Some?
  {
    match v
    case Scalar(_) => None
    case List(vs) => if vs == [] then None else assert Label(vs[0]) == Label(vs[0]); Some(Label(vs[0]))
  }

  lemma CopyLeaves(x: Case, p: Path, arm: Step, kind: Kind, m: Option<string>)
    requires x.Setting() && ArmIsCopy(x.b, x.c, x.file, p, arm)
    ensures LeafFlat(x.Was(p), kind, m) == LeafFlat(x.Now(p + [arm]), kind, m)
  {
    var k, k' := SchemaKey(x.file, p, kind, m), SchemaKey(x.file, p + [arm], kind, m);
    assert InArm(k, arm) == k';
    var was, now := x.b.DirectLeaves(x.file, p), x.c.DirectLeaves(x.file, p + [arm]);
    assert At(x.base, k) == LeafFlat(x.Was(p), kind, m) && At(x.cur, k') == LeafFlat(x.Now(p + [arm]), kind, m);
    assert k in was <==> At(x.base, k).Some?;
    assert k' in now <==> At(x.cur, k').Some?;
    if k' in now {
      var k0 :| k0 in was && k' == InArm(k0, arm);
      assert k0.path == p && k0 == k;
    }
  }

  /** A branch that copies a node's leaves is a branch of the new schema. */
  lemma CopyIsBranch(x: Case, p: Path, arm: Step, a: Schema)
    requires x.Setting() && ArmIsCopy(x.b, x.c, x.file, p, arm)
    requires TypedNode(a) && NodeAt(x.s, p) == Some(a)
    ensures NodeAt(x.t, p).Some? && Child(NodeAt(x.t, p).value, arm).Some?
  {
    WalkLeaf(x.s, p);
    var m := SomeMember(a.facts[Type]);
    CopyLeaves(x, p, arm, Type, m);
    WalkLeaf(x.t, p + [arm]);
    NodeBelow(x.t, p, arm);
  }

  lemma NoBranchNoMove(x: Case, p: Path, a: Schema)
    requires x.Setting() && TypedNode(a) && NodeAt(x.s, p) == Some(a)
    requires NodeAt(x.t, p).Some? ==> NodeAt(x.t, p).value.anyOf == []
    ensures !Verdict(x.b, x.c, x.file, p).MovedIntact?
  {
    if arm :| ArmIsCopy(x.b, x.c, x.file, p, arm) {
      CopyIsBranch(x, p, arm, a);
    }
  }

  lemma ConsumedIsKey(x: Case, k: Key)
    requires x.Setting() && k in x.consumed
    ensures ConsumedKey(x.b, x.c, k)
  {}

  lemma CopiedFrom(b: Flattening, c: Flattening, k: Key) returns (k0: Key)
    requires ConsumedKey(b, c, k)
    ensures k0 in b.DirectLeaves(k.file, Parent(k.path))
  {
    var p, arm := Parent(k.path), k.path[|k.path| - 1];
    assert p + [arm] == k.path;
    assert k in c.DirectLeaves(k.file, p + [arm]);
    k0 :| k0 in b.DirectLeaves(k.file, p) && k == InArm(k0, arm);
  }

  /** A consumed key sits in a copy, of the leaves of a node of the old schema. */
  lemma ConsumedParent(x: Case, k: Key)
    requires x.Setting() && k in x.consumed && k.file == x.file
    ensures ConsumedKey(x.b, x.c, k) && NodeAt(x.s, Parent(k.path)).Some?
  {
    ConsumedIsKey(x, k);
    var k0 := CopiedFrom(x.b, x.c, k);
    assert At(x.base, k0).Some?;
    WalkLeaf(x.s, Parent(k.path));
  }

  ghost predicate Unconsumed(x: Case, p: Path) {
    forall kind, m :: SchemaKey(x.file, p, kind, m) !in x.consumed
  }

  lemma PropertyUnconsumed(x: Case, p: Path)
    requires x.Setting() && (p == [] || !p[|p| - 1].Arm?)
    ensures Unconsumed(x, p)
  {
    forall kind, m ensures SchemaKey(x.file, p, kind, m) !in x.consumed {
      if SchemaKey(x.file, p, kind, m) in x.consumed { ConsumedParent(x, SchemaKey(x.file, p, kind, m)); }
    }
  }

  /** Nothing is consumed at a node of the old schema: its parent, if it is a union, has no leaf to copy. */
  lemma OldUnconsumed(x: Case, p: Path, b: Schema)
    requires x.Setting() && OldFragment(x.s) && NodeAt(x.s, p).Some?
    requires NodeAt(x.t, p) == Some(b) && WellFormedNode(b)
    ensures Unconsumed(x, p)
  {
    if p == [] || !p[|p| - 1].Arm? {
      PropertyUnconsumed(x, p);
    } else {
      forall kind, m ensures SchemaKey(x.file, p, kind, m) !in x.consumed {
        if SchemaKey(x.file, p, kind, m) in x.consumed {
          ConsumedNow(x, p, kind, m);
          ConsumedWas(x, p, kind, m);
          NoSharedLeaf(x.s, x.t, p, b, kind, m);
        }
      }
    }
  }

  /** The parent of a branch is a union, which has no leaf but that it may be required. */
  lemma UnionLeaf(s: Schema, q: Path, arm: Step, kind: Kind)
    requires OldFragment(s) && NodeAt(s, q + [arm]).Some? && arm.Arm?
    ensures kind in LeafAt(Walk(s), q) ==> kind.Required?
  {
    NodeBelow(s, q, arm);
    OldNode(s, q);
    WalkLeaf(s, q);
  }

  lemma BranchNotRequired(t: Schema, q: Path, arm: Step, b: Schema)
    requires NodeAt(t, q + [arm]) == Some(b) && WellFormedNode(b) && arm.Arm?
    ensures Required !in LeafAt(Walk(t), q + [arm])
  {
    WalkLeaf(t, q + [arm]);
  }

  lemma ConsumedNow(x: Case, p: Path, kind: Kind, m: Option<string>)
    requires x.Setting() && SchemaKey(x.file, p, kind, m) in x.consumed
    ensures LeafFlat(x.Now(p), kind, m).Some?
  {
    var k := SchemaKey(x.file, p, kind, m);
    assert k in x.c.flat && At(x.cur, k) == LeafFlat(x.Now(p), kind, m);
  }

  lemma ConsumedWas(x: Case, p: Path, kind: Kind, m: Option<string>)
    requires x.Setting() && SchemaKey(x.file, p, kind, m) in x.consumed
    ensures p != [] && LeafFlat(x.Was(Parent(p)), kind, m) == LeafFlat(x.Now(p), kind, m)
  {
    ConsumedParent(x, SchemaKey(x.file, p, kind, m));
    CopyLeavesAt(x, p, kind, m);
  }

  lemma CopyLeavesAt(x: Case, p: Path, kind: Kind, m: Option<string>)
    requires x.Setting() && p != [] && ArmIsCopy(x.b, x.c, x.file, Parent(p), p[|p| - 1])
    ensures LeafFlat(x.Was(Parent(p)), kind, m) == LeafFlat(x.Now(p), kind, m)
  {
    assert Parent(p) + [p[|p| - 1]] == p;
    CopyLeaves(x, Parent(p), p[|p| - 1], kind, m);
  }

  lemma NoSharedLeaf(s: Schema, t: Schema, p: Path, b: Schema, kind: Kind, m: Option<string>)
    requires OldFragment(s) && NodeAt(s, p).Some? && p != [] && p[|p| - 1].Arm?
    requires NodeAt(t, p) == Some(b) && WellFormedNode(b)
    ensures !(LeafFlat(LeafAt(Walk(s), Parent(p)), kind, m).Some? && LeafFlat(LeafAt(Walk(t), p), kind, m).Some?)
  {
    var q, arm := Parent(p), p[|p| - 1];
    assert q + [arm] == p;
    UnionLeaf(s, q, arm, kind);
    BranchNotRequired(t, q, arm, b);
  }

  // ---------------------------------------------------------------------------------------------
  // One keyword at one node.

  /** A node of the old schema and its counterpart in the new one. */
  ghost predicate Nodes(x: Case, p: Path, a: Schema, b: Schema) {
    && x.Ok() && OldFragment(x.s)
    && NodeAt(x.s, p) == Some(a) && OldFragment(a)
    && NodeAt(x.t, p) == Some(b) && NewFragment(b)
  }

  lemma IntroducedNarrows(x: Case, p: Path, kind: Kind, m: Option<string>)
    requires x.Setting()
    requires kind in x.Now(p) && kind !in x.Was(p) && LeafFlat(x.Now(p), kind, m).Some?
    requires Unconsumed(x, p)
    requires Existed(Walk(x.s), if kind.Required? then Parent(p) else p)
    requires !kind.Ref? && !ReplacesBound(x.Was(p), x.Now(p), kind)
    ensures var k := SchemaKey(x.file, p, kind, m); k !in x.consumed && Narrows(x.base, x.cur, x.consumed, k)
  {
    assert NarrowsAt(Walk(x.s), x.Was(p), x.Now(p), p, kind, m);
  }

  /** Introducing a keyword on a node that existed is a change, unless it stands in for an exclusive bound. */
  lemma Introduced(x: Case, p: Path, kind: Kind)
    requires x.Ok()
    requires kind in x.Now(p) && kind !in x.Was(p)
    requires Unconsumed(x, p)
    requires Existed(Walk(x.s), if kind.Required? then Parent(p) else p)
    requires !kind.Ref?
    ensures ReplacesBound(x.Was(p), x.Now(p), kind)
  {
    var m := SomeMember(x.Now(p)[kind]);
    KeyOk(x, p, kind, m);
    if !ReplacesBound(x.Was(p), x.Now(p), kind) {
      IntroducedNarrows(x, p, kind, m);
    }
  }

  lemma LeavesOfNodes(x: Case, p: Path, a: Schema, b: Schema, kind: Kind)
    requires Nodes(x, p, a, b) && !kind.Required?
    ensures kind in x.Was(p) <==> kind in a.facts
    ensures kind in a.facts ==> x.Was(p)[kind] == a.facts[kind]
    ensures kind in x.Now(p) <==> kind in b.facts
    ensures kind in b.facts ==> x.Now(p)[kind] == b.facts[kind]
    ensures Existed(Walk(x.s), p) && Unconsumed(x, p)
  {
    WalkLeaf(x.s, p);
    WalkLeaf(x.t, p);
    NodeExisted(x.s, p, a);
    OldUnconsumed(x, p, b);
  }

  /** What an ok diff says about the facts of a node, before (l) and after (r); `union` when it gained a union. */
  ghost predicate KindOk(l: Leaf, r: Leaf, union: bool, kind: Kind) {
    && (kind in r && kind !in l ==> ReplacesBound(l, r, kind))
    && (forall m {:trigger LeafFlat(l, kind, m)} :: LeafFlat(l, kind, m).Some? ==>
          || LeafFlat(r, kind, m) == LeafFlat(l, kind, m)
          || WidensAt(l, r, true, kind, m)
          || (union && LeafFlat(r, kind, m).None?))
  }

  lemma WidensAgrees(l: Leaf, r: Leaf, l': Leaf, r': Leaf, kind: Kind, m: Option<string>)
    requires !kind.Required?
    requires forall k: Kind :: !k.Required? ==> (k in l <==> k in l') && (k in l ==> l[k] == l'[k])
    requires forall k: Kind :: !k.Required? ==> (k in r <==> k in r') && (k in r ==> r[k] == r'[k])
    ensures WidensAt(l, r, true, kind, m) <==> WidensAt(l', r', true, kind, m)
    ensures LeafFlat(l, kind, m) == LeafFlat(l', kind, m) && LeafFlat(r, kind, m) == LeafFlat(r', kind, m)
    ensures ReplacesBound(l, r, kind) <==> ReplacesBound(l', r', kind)
  {}

  lemma NodeKindOk(x: Case, p: Path, a: Schema, b: Schema, kind: Kind)
    requires Nodes(x, p, a, b) && TypedNode(a) && !kind.Required? && !kind.Ref?
    requires kind in b.facts
    ensures KindOk(a.facts, b.facts, b.anyOf != [], kind)
  {
    forall k: Kind | !k.Required?
      ensures (k in x.Was(p) <==> k in a.facts) && (k in a.facts ==> x.Was(p)[k] == a.facts[k])
      ensures (k in x.Now(p) <==> k in b.facts) && (k in b.facts ==> x.Now(p)[k] == b.facts[k])
    {
      LeavesOfNodes(x, p, a, b, k);
    }
    LeavesOfNodes(x, p, a, b, kind);
    WidensAgrees(a.facts, b.facts, x.Was(p), x.Now(p), kind, None);
    if kind !in a.facts { Introduced(x, p, kind); }
    if b.anyOf == [] { NoBranchNoMove(x, p, a); }
    WalkLeaf(x.t, p);
    forall m | LeafFlat(a.facts, kind, m).Some?
      ensures || LeafFlat(b.facts, kind, m) == LeafFlat(a.facts, kind, m)
              || WidensAt(a.facts, b.facts, true, kind, m)
              || (b.anyOf != [] && LeafFlat(b.facts, kind, m).None?)
    {
      WidensAgrees(a.facts, b.facts, x.Was(p), x.Now(p), kind, m);
      KeyOk(x, p, kind, m);
    }
  }

  lemma TypeSound(l: Leaf, r: Leaf, d: Doc, props: set<string>, re: Regex)
    requires Type in l && WellShaped(Type, l[Type]) && Type in r && WellShaped(Type, r[Type])
    requires KindOk(l, r, false, Type) && Meets(Type, l[Type], props, d, re)
    ensures Meets(Type, r[Type], props, d, re)
  {
    var av, bv := l[Type], r[Type];
    var i :| 0 <= i < |TypeNames(av)| && TypeMatches(TypeNames(av)[i], d);
    var n := TypeNames(av)[i];
    if !TypeKept(l, r) {
      var m := if av.Scalar? then None else Some(Label(n));
      assert LeafFlat(l, Type, m).Some?;
      assert FlatOf(bv, m) == FlatOf(av, m);
      if av.List? {
        var j :| 0 <= j < |bv.vs| && Label(bv.vs[j]) == Label(n);
        assert TypeNames(bv)[j] == n;
      }
    }
    assert n in TypeNames(bv);
  }

  /** A member of the old enum still has its flattened key. */
  lemma EnumKeyKept(l: Leaf, r: Leaf, i: nat)
    requires Enum in r && KindOk(l, r, false, Enum)
    requires Enum in l && l[Enum].List? && i < |l[Enum].vs|
    ensures r[Enum].List? && HasLabel(r[Enum].vs, Label(l[Enum].vs[i]))
  {
    var m := Some(Label(l[Enum].vs[i]));
    assert LeafFlat(l, Enum, m) == Some(Member);
    assert !WidensAt(l, r, true, Enum, m);
  }

  lemma EnumSound(l: Leaf, r: Leaf, d: Doc, props: set<string>, re: Regex)
    requires Enum in r && r[Enum].List? && (Enum in l ==> l[Enum].List? && Meets(Enum, l[Enum], props, d, re))
    requires KindOk(l, r, false, Enum) && LabelsAgree(l, r)
    ensures Meets(Enum, r[Enum], props, d, re)
  {
    assert Enum in l;
    var i :| 0 <= i < |l[Enum].vs| && d == AtomDoc(l[Enum].vs[i]);
    EnumKeyKept(l, r, i);
    var j :| 0 <= j < |r[Enum].vs| && Label(r[Enum].vs[j]) == Label(l[Enum].vs[i]);
    assert d == AtomDoc(r[Enum].vs[j]);
  }

  lemma BoundSound(l: Leaf, r: Leaf, union: bool, kind: Kind, d: Doc, props: set<string>, props': set<string>,
                   re: Regex)
    requires kind in r && (kind.Const? || Constraint(kind)) && WellShaped(kind, r[kind])
    requires forall k :: k in l ==> WellShaped(k, l[k])
    requires ConstNotRaised(l, r)
    requires KindOk(l, r, union, kind) && MeetsAll(l, props, d, re)
    ensures Meets(kind, r[kind], props', d, re)
  {
    if kind in l {
      assert LeafFlat(l, kind, None).Some?;
      assert Meets(kind, l[kind], props, d, re);
    } else {
      var exc := if kind.Minimum? then ExclusiveMinimum else ExclusiveMaximum;
      assert Meets(exc, l[exc], props, d, re);
    }
  }

  lemma DroppedNode(x: Case, q: Path, c: Schema, m: Option<string>)
    requires x.Setting() && TypedNode(c) && NodeAt(x.s, q) == Some(c) && NodeAt(x.t, q).None?
    requires LeafFlat(c.facts, Type, m).Some?
    ensures LeafFlat(x.Was(q), Type, m).Some? && LeafFlat(x.Now(q), Type, m).None?
    ensures !Verdict(x.b, x.c, x.file, q).MovedIntact?
    ensures !Widens(x.base, x.cur, SchemaKey(x.file, q, Type, m))
  {
    WalkLeaf(x.s, q);
    WalkLeaf(x.t, q);
    NoBranchNoMove(x, q, c);
    DroppedTypeIsNoWidening(x, q, m);
  }

  lemma DroppedTypeIsNoWidening(x: Case, q: Path, m: Option<string>)
    requires x.Setting() && LeafFlat(x.Was(q), Type, m).Some? && x.Now(q) == map[]
    ensures !Widens(x.base, x.cur, SchemaKey(x.file, q, Type, m))
  {
    assert !TypeKept(x.Was(q), x.Now(q));
  }

  /** A node of the old schema is still there: dropping it would remove the type leaf at it or below. */
  lemma {:induction false} NodeKept(x: Case, q: Path, c: Schema)
    requires x.Ok() && NodeAt(x.s, q) == Some(c) && OldFragment(c)
    ensures NodeAt(x.t, q).Some?
    decreases c
  {
    if TypedNode(c) {
      var m := SomeMember(c.facts[Type]);
      KeyOk(x, q, Type, m);
      if NodeAt(x.t, q).None? { DroppedNode(x, q, c, m); }
    } else {
      NodeBelow(x.s, q, Arm(AnyOf, 0));
      NodeBelow(x.t, q, Arm(AnyOf, 0));
      NodeKept(x, q + [Arm(AnyOf, 0)], c.anyOf[0]);
    }
  }

  /** A property, an item schema and a union branch of the old schema are still there. */
  lemma ChildKept(x: Case, p: Path, a: Schema, b: Schema, st: Step)
    requires Nodes(x, p, a, b) && Child(a, st).Some?
    ensures Child(b, st).Some?
  {
    NodeBelow(x.s, p, st);
    NodeBelow(x.t, p, st);
    OldNode(x.s, p + [st]);
    NodeKept(x, p + [st], Child(a, st).value);
  }

  lemma ClosedSound(x: Case, p: Path, a: Schema, b: Schema, d: Doc, re: Regex)
    requires Nodes(x, p, a, b) && Closed in b.facts
    requires Closed in a.facts && Meets(Closed, a.facts[Closed], a.props.Keys, d, re)
    ensures Meets(Closed, b.facts[Closed], b.props.Keys, d, re)
  {
    forall n | n in a.props ensures n in b.props {
      ChildKept(x, p, a, b, Prop(n));
    }
  }

  lemma RequiredLeaf(s: Schema, p: Path, n: string)
    requires NodeAt(s, p).Some?
    ensures var a := NodeAt(s, p).value;
            var leaf := LeafAt(Walk(s), p + [Prop(n)]);
            && (n in a.required && n in a.props ==> Required in leaf)
            && (Required in leaf && n in a.props && Required !in a.props[n].facts ==> n in a.required)
            && (n !in a.props ==> leaf == map[])
  {
    NodeBelow(s, p, Prop(n));
    WalkLeaf(s, p + [Prop(n)]);
    assert Parent(p + [Prop(n)]) == p;
  }

  lemma RequiredSound(x: Case, p: Path, a: Schema, b: Schema, n: string)
    requires Nodes(x, p, a, b) && n in b.required
    ensures n in a.required
  {
    RequiredNow(x, p, b, n);
    LeavesOfNodes(x, p, a, b, Type);
    NewRequired(x, p, n);
    RequiredWas(x, p, a, n);
  }

  lemma RequiredNow(x: Case, p: Path, b: Schema, n: string)
    requires NodeAt(x.t, p) == Some(b) && NewFragment(b) && n in b.required
    ensures Required in x.Now(p + [Prop(n)])
  {
    RequiredLeaf(x.t, p, n);
  }

  lemma RequiredWas(x: Case, p: Path, a: Schema, n: string)
    requires NodeAt(x.s, p) == Some(a) && OldFragment(a) && Required in x.Was(p + [Prop(n)])
    ensures n in a.required
  {
    RequiredLeaf(x.s, p, n);
    if n in a.props { assert OldFragment(a.props[n]); }
  }

  lemma NewRequired(x: Case, p: Path, n: string)
    requires x.Ok() && Existed(Walk(x.s), p) && Required in x.Now(p + [Prop(n)])
    ensures Required in x.Was(p + [Prop(n)])
  {
    assert Parent(p + [Prop(n)]) == p;
    PropertyUnconsumed(x, p + [Prop(n)]);
    if Required !in x.Was(p + [Prop(n)]) { Introduced(x, p + [Prop(n)], Required); }
  }

  // ---------------------------------------------------------------------------------------------
  // Unions.

  lemma CopiedFact(l: Leaf, r: Leaf, kind: Kind, d: Doc, props: set<string>, props': set<string>, re: Regex)
    requires forall m :: LeafFlat(l, kind, m) == LeafFlat(r, kind, m)
    requires kind in r && WellShaped(kind, r[kind]) && !kind.Closed?
    requires kind in l ==> WellShaped(kind, l[kind]) && Meets(kind, l[kind], props, d, re)
    requires LabelsAgree(l, r)
    ensures Meets(kind, r[kind], props', d, re)
  {
    var cv := r[kind];
    assert LeafFlat(l, kind, SomeMember(cv)).Some?;
    var av := l[kind];
    assert LeafFlat(l, kind, None) == LeafFlat(r, kind, None);
    if av.List? && av.vs != [] {
      var i :| 0 <= i < |av.vs| && if kind.Type? then TypeMatches(av.vs[i], d) else d == AtomDoc(av.vs[i]);
      assert LeafFlat(l, kind, Some(Label(av.vs[i]))) == Some(Member);
      var j :| 0 <= j < |cv.vs| && Label(cv.vs[j]) == Label(av.vs[i]);
      assert TypeNames(cv)[j] == av.vs[i];
    }
  }

  /** A copied branch accepts what the old node's own facts accept. */
  lemma CopySound(x: Case, p: Path, a: Schema, arm: Step, c: Schema, d: Doc, re: Regex)
    requires x.Setting() && NodeAt(x.s, p) == Some(a) && WellFormedNode(a)
    requires ArmIsCopy(x.b, x.c, x.file, p, arm) && NodeAt(x.t, p + [arm]) == Some(c)
    requires ScalarArm(c) && LabelsAgree(a.facts, c.facts)
    requires MeetsAll(a.facts, a.props.Keys, d, re)
    ensures Accepts(c, d, re)
  {
    forall kind | kind in c.facts ensures Meets(kind, c.facts[kind], c.props.Keys, d, re) {
      assert WellShaped(kind, c.facts[kind]);
      CopiedLeaf(x, p, a, arm, c, kind);
      if kind in a.facts { assert Meets(kind, a.facts[kind], a.props.Keys, d, re); }
      CopiedFact(a.facts, c.facts, kind, d, a.props.Keys, c.props.Keys, re);
    }
  }

  lemma CopiedLeaf(x: Case, p: Path, a: Schema, arm: Step, c: Schema, kind: Kind)
    requires x.Setting() && NodeAt(x.s, p) == Some(a)
    requires ArmIsCopy(x.b, x.c, x.file, p, arm) && NodeAt(x.t, p + [arm]) == Some(c)
    requires !kind.Required?
    ensures forall m :: LeafFlat(a.facts, kind, m) == LeafFlat(c.facts, kind, m)
  {
    WalkLeaf(x.s, p);
    WalkLeaf(x.t, p + [arm]);
    forall m ensures LeafFlat(a.facts, kind, m) == LeafFlat(c.facts, kind, m) {
      CopyLeaves(x, p, arm, kind, m);
      assert LeafFlat(x.Was(p), kind, m) == LeafFlat(a.facts, kind, m);
      assert LeafFlat(x.Now(p + [arm]), kind, m) == LeafFlat(c.facts, kind, m);
    }
  }

  lemma {:induction false} SkipOldSteps(bf: Leaves, consumed: set<Key>, file: string, path: Path, p: Path, i: nat)
    requires p in bf && p <= path && i <= |p|
    ensures BranchNarrows(bf, consumed, file, path, i) == BranchNarrows(bf, consumed, file, path, |p|)
    decreases |p| - i
  {
    if i < |p| {
      assert path[..i + 1] <= p;
      SkipOldSteps(bf, consumed, file, path, p, i + 1);
    }
  }

  /** Nothing lies under a branch of a typed node. */
  lemma NothingUnderBranch(s: Schema, p: Path, a: Schema, st: Step)
    requires NodeAt(s, p) == Some(a) && TypedNode(a) && st.Arm?
    ensures forall r :: r in Walk(s) ==> !(p + [st] <= r) && !HasBranchAfter(r, p, st.branch)
  {
    forall r | r in Walk(s) ensures !(p + [st] <= r) && !HasBranchAfter(r, p, st.branch) {
      WalkLeaf(s, r);
      if p + [st] <= r {
        assert r[|p|] == (p + [st])[|p|];
        NoNodeUnderBranch(s, p, a, r);
      }
      if HasBranchAfter(r, p, st.branch) { NoNodeUnderBranch(s, p, a, r); }
    }
  }

  lemma NoNodeUnderBranch(s: Schema, p: Path, a: Schema, r: Path)
    requires NodeAt(s, p) == Some(a) && a.anyOf == [] && p < r && r[|p|].Arm?
    ensures NodeAt(s, r).None?
  {
    if NodeAt(s, r).Some? { StepOfPath(s, p, r); }
  }

  /** A node's path passes through a child of every node on it. */
  lemma StepOfPath(s: Schema, p: Path, r: Path)
    requires p < r && NodeAt(s, r).Some?
    ensures NodeAt(s, p).Some? && Child(NodeAt(s, p).value, r[|p|]).Some?
  {
    var q, rest := p + [r[|p|]], r[|p| + 1..];
    assert r == q + rest;
    NodePrefix(s, q, rest);
    NodeBelow(s, p, r[|p|]);
  }

  /** A branch new on a typed node that existed narrows, unless a copy of the old shape was consumed there. */
  lemma NewBranchNeedsCopy(x: Case, p: Path, a: Schema, i: nat, r: Path)
    requires x.Setting() && NodeAt(x.s, p) == Some(a) && TypedNode(a)
    requires p + [Arm(AnyOf, i)] <= r && !BranchNarrows(Walk(x.s), x.consumed, x.file, r, 0)
    ensures exists y :: y in x.consumed && y.SchemaKey? && y.file == x.file && HasBranchAfter(y.path, p, AnyOf)
  {
    TypedInWalk(x.s, p, a);
    SkipOldSteps(Walk(x.s), x.consumed, x.file, r, p, 0);
    assert r[..|p|] == p && r[..|p| + 1] == p + [Arm(AnyOf, i)] && r[|p|] == Arm(AnyOf, i);
    NothingUnderBranch(x.s, p, a, Arm(AnyOf, i));
    assert p <= p;
  }

  lemma BranchAtEnd(s: Schema, p: Path, a: Schema, path: Path)
    requires NodeAt(s, p) == Some(a) && TypedNode(a) && HasBranchAfter(path, p, AnyOf)
    requires NodeAt(s, Parent(path)).Some?
    ensures Parent(path) == p && |p| == |path| - 1
  {
    if p != Parent(path) {
      assert p < Parent(path) && Parent(path)[|p|] == path[|p|];
      NoNodeUnderBranch(s, p, a, Parent(path));
    }
  }

  /** Of a first union's leaves, some is consumed: otherwise the union would be a change. */
  lemma SomeUnionLeafConsumed(x: Case, p: Path, a: Schema, i: nat, r: Path) returns (y: Key)
    requires x.Ok() && NodeAt(x.s, p) == Some(a) && TypedNode(a)
    requires r in Walk(x.t) && p + [Arm(AnyOf, i)] <= r
    ensures y in x.consumed && y.SchemaKey? && y.file == x.file && HasBranchAfter(y.path, p, AnyOf)
  {
    WalkLeaf(x.t, r);
    NothingUnderBranch(x.s, p, a, Arm(AnyOf, i));
    assert r[|p|] == (p + [Arm(AnyOf, i)])[|p|];
    var kind :| kind in x.Now(r);
    var m := SomeMember(x.Now(r)[kind]);
    y := SchemaKey(x.file, r, kind, m);
    KeyOk(x, r, kind, m);
    if y !in x.consumed {
      NewBranchNeedsCopy(x, p, a, i, r);
      y :| y in x.consumed && y.SchemaKey? && y.file == x.file && HasBranchAfter(y.path, p, AnyOf);
    }
  }

  lemma CopyConsumedAt(x: Case, p: Path, a: Schema, y: Key) returns (arm: Step)
    requires NodeAt(x.s, p) == Some(a) && TypedNode(a)
    requires ConsumedKey(x.b, x.c, y) && y.file == x.file && HasBranchAfter(y.path, p, AnyOf)
    requires NodeAt(x.s, Parent(y.path)).Some?
    ensures ArmIsCopy(x.b, x.c, x.file, p, arm) && arm.Arm? && arm.branch.AnyOf?
  {
    BranchAtEnd(x.s, p, a, y.path);
    arm := y.path[|y.path| - 1];
  }

  /** A first union is no change only if one of its branches was consumed: a copy of the node's old leaves. */
  lemma UnionHasCopy(x: Case, p: Path, a: Schema, i: nat, r: Path) returns (arm: Step)
    requires x.Ok() && NodeAt(x.s, p) == Some(a) && TypedNode(a)
    requires r in Walk(x.t) && p + [Arm(AnyOf, i)] <= r
    ensures ArmIsCopy(x.b, x.c, x.file, p, arm) && arm.Arm? && arm.branch.AnyOf?
  {
    var y := SomeUnionLeafConsumed(x, p, a, i, r);
    ConsumedParent(x, y);
    arm := CopyConsumedAt(x, p, a, y);
  }

  /** A schema without a leaf at or below it accepts everything. */
  lemma {:induction false} LeaflessAccepts(t: Schema, q: Path, s: Schema, d: Doc, re: Regex)
    requires NodeAt(t, q) == Some(s) && NewFragment(s) && !Existed(Walk(t), q)
    ensures Accepts(s, d, re)
    decreases s
  {
    WalkLeaf(t, q);
    assert q <= q;
    forall st, d' | Child(s, st).Some? ensures Accepts(Child(s, st).value, d', re) {
      NodeBelow(t, q, st);
      NothingFurtherDown(Walk(t), q, st);
      ChildOfNew(s, st);
      LeaflessAccepts(t, q + [st], Child(s, st).value, d', re);
    }
    forall n | n in s.required ensures false {
      NothingFurtherDown(Walk(t), q, Prop(n));
      RequiredLeaf(t, q, n);
    }
    LeaflessNode(s, d, re);
  }

  lemma FurtherDown(q: Path, st: Step, r: Path)
    ensures q + [st] <= r ==> q <= r
  {}

  lemma NothingFurtherDown(leaves: Leaves, q: Path, st: Step)
    requires !Existed(leaves, q)
    ensures !Existed(leaves, q + [st]) && q + [st] !in leaves
  {
    forall r | r in leaves ensures !(q + [st] <= r) { FurtherDown(q, st, r); }
    assert q + [st] <= q + [st];
  }

  lemma ChildOfNew(s: Schema, st: Step)
    requires NewFragment(s) && Child(s, st).Some?
    ensures NewFragment(Child(s, st).value) && Child(s, st).value < s
  {}

  lemma LeaflessNode(s: Schema, d: Doc, re: Regex)
    requires s.facts == map[] && s.required == {}
    requires forall st, d' :: Child(s, st).Some? ==> Accepts(Child(s, st).value, d', re)
    ensures Accepts(s, d, re)
  {
    forall n | n in s.props && d.DObj? && n in d.fields ensures Accepts(s.props[n], d.fields[n], re) {
      assert Child(s, Prop(n)).Some?;
    }
    if s.items.Some? && d.DArr? {
      forall i | 0 <= i < |d.elems| ensures Accepts(s.items.value, d.elems[i], re) { assert Child(s, Items).Some?; }
    }
    if s.anyOf != [] { assert Child(s, Arm(AnyOf, 0)).Some? && Accepts(s.anyOf[0], d, re); }
  }

  lemma LeaflessBranch(t: Schema, p: Path, b: Schema, d: Doc, re: Regex)
    requires NodeAt(t, p) == Some(b) && NewFragment(b) && b.anyOf != [] && !Existed(Walk(t), p + [Arm(AnyOf, 0)])
    ensures Accepts(b.anyOf[0], d, re)
  {
    NodeBelow(t, p, Arm(AnyOf, 0));
    LeaflessAccepts(t, p + [Arm(AnyOf, 0)], b.anyOf[0], d, re);
  }

  lemma CopyIsSame(x: Case, p: Path, a: Schema, arm: Step, c: Schema)
    requires x.Setting() && NodeAt(x.s, p) == Some(a)
    requires ArmIsCopy(x.b, x.c, x.file, p, arm) && NodeAt(x.t, p + [arm]) == Some(c)
    ensures SameLeaves(a.facts, c.facts)
  {
    forall kind: Kind, m | !kind.Required? ensures LeafFlat(a.facts, kind, m) == LeafFlat(c.facts, kind, m) {
      CopiedLeaf(x, p, a, arm, c, kind);
    }
  }

  lemma CopyBranchSound(x: Case, p: Path, a: Schema, b: Schema, arm: Step, d: Doc, re: Regex)
    requires x.Setting() && NodeAt(x.s, p) == Some(a) && TypedNode(a) && WellFormedNode(a) && NodeAt(x.t, p) == Some(b)
    requires ComparableNodes(a, b) && ArmIsCopy(x.b, x.c, x.file, p, arm) && arm.Arm? && arm.branch.AnyOf?
    requires MeetsAll(a.facts, a.props.Keys, d, re)
    ensures arm.index < |b.anyOf| && Accepts(b.anyOf[arm.index], d, re)
  {
    CopyIsBranch(x, p, arm, a);
    NodeBelow(x.t, p, arm);
    CopyIsSame(x, p, a, arm, b.anyOf[arm.index]);
    CopySound(x, p, a, arm, b.anyOf[arm.index], d, re);
  }

  lemma UnionSound(x: Case, p: Path, a: Schema, b: Schema, d: Doc, re: Regex)
    requires Nodes(x, p, a, b) && TypedNode(a) && ComparableNodes(a, b) && b.anyOf != []
    requires MeetsAll(a.facts, a.props.Keys, d, re)
    ensures exists i :: 0 <= i < |b.anyOf| && Accepts(b.anyOf[i], d, re)
  {
    var q := p + [Arm(AnyOf, 0)];
    if Existed(Walk(x.t), q) {
      var r :| r in Walk(x.t) && q <= r;
      var arm := UnionHasCopy(x, p, a, 0, r);
      CopyBranchSound(x, p, a, b, arm, d, re);
    } else {
      LeaflessBranch(x.t, p, b, d, re);
    }
  }

  /** A union of the old schema gains no keyword of its own. */
  lemma UnionStaysBare(x: Case, p: Path, a: Schema, b: Schema)
    requires Nodes(x, p, a, b) && PureUnion(a)
    ensures b.facts == map[]
  {
    forall kind ensures kind !in b.facts {
      if kind in b.facts {
        assert WellShaped(kind, b.facts[kind]);
        forall k: Kind | !k.Required? ensures k !in x.Was(p) { LeavesOfNodes(x, p, a, b, k); }
        LeavesOfNodes(x, p, a, b, kind);
        Introduced(x, p, kind);
      }
    }
  }

  // ---------------------------------------------------------------------------------------------
  // Main result.

  lemma FactsSound(x: Case, p: Path, a: Schema, b: Schema, d: Doc, re: Regex)
    requires Nodes(x, p, a, b) && TypedNode(a) && ComparableNodes(a, b)
    requires MeetsAll(a.facts, a.props.Keys, d, re)
    ensures MeetsAll(b.facts, b.props.Keys, d, re)
  {
    forall kind | kind in b.facts ensures Meets(kind, b.facts[kind], b.props.Keys, d, re) {
      FactSound(x, p, a, b, kind, d, re);
    }
  }

  lemma FactSound(x: Case, p: Path, a: Schema, b: Schema, kind: Kind, d: Doc, re: Regex)
    requires Nodes(x, p, a, b) && TypedNode(a) && ComparableNodes(a, b) && kind in b.facts
    requires MeetsAll(a.facts, a.props.Keys, d, re)
    ensures Meets(kind, b.facts[kind], b.props.Keys, d, re)
  {
    assert WellShaped(kind, b.facts[kind]);
    NodeKindOk(x, p, a, b, kind);
    if kind in a.facts { assert Meets(kind, a.facts[kind], a.props.Keys, d, re); }
    if kind.Type? { TypeSound(a.facts, b.facts, d, a.props.Keys, re); }
    else if kind.Enum? { EnumSound(a.facts, b.facts, d, a.props.Keys, re); }
    else if kind.Closed? { ClosedSound(x, p, a, b, d, re); }
    else { BoundSound(a.facts, b.facts, b.anyOf != [], kind, d, a.props.Keys, b.props.Keys, re); }
  }

  lemma BranchKept(x: Case, p: Path, a: Schema, b: Schema, i: nat)
    requires Nodes(x, p, a, b) && i < |a.anyOf|
    ensures i < |b.anyOf| && Nodes(x, p + [Arm(AnyOf, i)], a.anyOf[i], b.anyOf[i])
  {
    ChildKept(x, p, a, b, Arm(AnyOf, i));
    NodeBelow(x.s, p, Arm(AnyOf, i));
    NodeBelow(x.t, p, Arm(AnyOf, i));
  }

  lemma PropertyKept(x: Case, p: Path, a: Schema, b: Schema, n: string)
    requires Nodes(x, p, a, b) && n in a.props && n in b.props
    ensures Nodes(x, p + [Prop(n)], a.props[n], b.props[n])
  {
    NodeBelow(x.s, p, Prop(n));
    NodeBelow(x.t, p, Prop(n));
  }

  lemma ItemsKept(x: Case, p: Path, a: Schema, b: Schema)
    requires Nodes(x, p, a, b) && a.items.Some? && b.items.Some?
    ensures Nodes(x, p + [Items], a.items.value, b.items.value)
  {
    NodeBelow(x.s, p, Items);
    NodeBelow(x.t, p, Items);
  }

  lemma {:induction false} NodeSound(x: Case, p: Path, a: Schema, b: Schema, d: Doc, re: Regex)
    requires Nodes(x, p, a, b) && Comparable(a, b) && Accepts(a, d, re)
    ensures Accepts(b, d, re)
    decreases d, a
  {
    forall n | n in b.required ensures n in a.required { RequiredSound(x, p, a, b, n); }
    if PureUnion(a) {
      UnionStaysBare(x, p, a, b);
      var i :| 0 <= i < |a.anyOf| && Accepts(a.anyOf[i], d, re);
      BranchKept(x, p, a, b, i);
      NodeSound(x, p + [Arm(AnyOf, i)], a.anyOf[i], b.anyOf[i], d, re);
    } else {
      FactsSound(x, p, a, b, d, re);
      if b.anyOf != [] { UnionSound(x, p, a, b, d, re); }
      if d.DObj? {
        forall n | n in b.props && n in d.fields ensures Accepts(b.props[n], d.fields[n], re) {
          TypeIsAdmitted(a, d, re);
          if Closed in a.facts { assert Meets(Closed, a.facts[Closed], a.props.Keys, d, re); }
          PropertyKept(x, p, a, b, n);
          NodeSound(x, p + [Prop(n)], a.props[n], b.props[n], d.fields[n], re);
        }
      }
      if d.DArr? && b.items.Some? {
        forall i | 0 <= i < |d.elems| ensures Accepts(b.items.value, d.elems[i], re) {
          TypeIsAdmitted(a, d, re);
          ItemsKept(x, p, a, b);
          NodeSound(x, p + [Items], a.items.value, b.items.value, d.elems[i], re);
        }
      }
    }
  }

  lemma TypeIsAdmitted(a: Schema, d: Doc, re: Regex)
    requires TypedNode(a) && Accepts(a, d, re)
    ensures d.DObj? ==> Admits(a, "object")
    ensures d.DArr? ==> Admits(a, "array")
  {
    assert Meets(Type, a.facts[Type], a.props.Keys, d, re);
    var i :| 0 <= i < |TypeNames(a.facts[Type])| && TypeMatches(TypeNames(a.facts[Type])[i], d);
    assert TypeNames(a.facts[Type])[i] in TypeNames(a.facts[Type]);
  }

  /** If the diff of two surfaces has no removed and no changed key, then on every input schema of the fragment every
      document the old schema accepts is accepted by the new one. */
  lemma OkDiffIsCompatible(x: Case, d: Diff, doc: Doc, re: Regex)
    requires x.Setting() && ListsFates(x.base, x.cur, x.b, x.c, x.consumed, d)
    requires d.removed == [] && d.changed == []
    requires OldFragment(x.s) && NewFragment(x.t) && Comparable(x.s, x.t)
    requires Accepts(x.s, doc, re)
    ensures Accepts(x.t, doc, re)
  {
    forall k ensures !x.Fate(k).Removed? && !x.Fate(k).Changed? {
      assert k !in d.removed && k !in d.changed;
    }
    NodeSound(x, [], x.s, x.t, doc, re);
  }

  // ---------------------------------------------------------------------------------------------
  // The release check.

  datatype Version = Version(major: nat, minor: nat, patch: nat)

  datatype Status = Pass | Fail | Warn | Skip

  /** `judgeSurfaceSinceTag`: `tag` and `version` are None when they are not X.Y.Z; `bumped` says whether package.json
      already carries another version than the tag. */
  function JudgeSinceTag(snapshot: bool, tag: Option<Version>, version: Option<Version>, bumped: bool,
                         d: Diff): Status {
    var breaking := |d.removed| > 0 || |d.changed| > 0;
    if !snapshot then Skip
    else if tag.None? || version.None? then Fail
    else if !bumped then (if breaking then Warn else Pass)
    else if !breaking || version.value.major > tag.value.major then Pass
    else Fail
  }

  /** The input schema of a case, as two snapshots hold it; the diff compares the kinds the old snapshot recorded. */
  ghost predicate Snapshots(x: Case, before: Surface, now: Surface) {
    && x.file in INPUT_SCHEMAS
    && x.file in before.schemas && before.schemas[x.file] == Walk(x.s)
    && x.file in now.schemas && now.schemas[x.file] == Walk(x.t)
    && x.base == Recorded(before, before) && x.cur == Recorded(now, before)
    && x.b.Of(x.base) && x.c.Of(x.cur) && ConsumedSound(x.b, x.c, x.consumed)
  }

  lemma RecordedWhole(x: Case, before: Surface, now: Surface)
    requires Snapshots(x, before, now) && forall kind :: kind in KindsOf(before)
    ensures x.Setting()
  {
    WholeLeaves(Walk(x.s), KindsOf(before));
    WholeLeaves(Walk(x.t), KindsOf(before));
  }

  /** A release that passes the check without raising the major version, against a snapshot that recorded every kind,
      rejects no file that used to load. */
  lemma MinorReleaseKeepsOldFiles(x: Case, before: Surface, now: Surface, d: Diff, tag: Version, version: Version,
                                  bumped: bool, doc: Doc, re: Regex)
    requires Snapshots(x, before, now) && forall kind :: kind in KindsOf(before)
    requires ListsFates(x.base, x.cur, x.b, x.c, x.consumed, d)
    requires JudgeSinceTag(true, Some(tag), Some(version), bumped, d).Pass? && version.major <= tag.major
    requires OldFragment(x.s) && NewFragment(x.t) && Comparable(x.s, x.t)
    ensures Accepts(x.s, doc, re) ==> Accepts(x.t, doc, re)
  {
    RecordedWhole(x, before, now);
    if Accepts(x.s, doc, re) { OkDiffIsCompatible(x, d, doc, re); }
  }
}
