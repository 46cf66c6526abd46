/** The structured surface that scripts/check-surface.ts compares: per schema file, the leaves the walker of
    scripts/lib/surface.ts records, with paths kept as steps instead of concatenated strings. */
module Surface {
  import opened Decimal
  import opened Options

  /** Leaf kinds, in the order of LEAF_KINDS. */
  datatype Kind =
    | Type | Enum | Const | Ref | Closed | Required
    | Pattern | MinLength | MaxLength | Minimum | Maximum | ExclusiveMinimum | ExclusiveMaximum | MinItems | MaxItems

  predicate Constraint(k: Kind) {
    !(k.Type? || k.Enum? || k.Const? || k.Ref? || k.Closed? || k.Required?)
  }

  /** Kinds whose name contains "min": loosened by lowering. */
  predicate LowerBound(k: Kind) {
    k.MinLength? || k.Minimum? || k.ExclusiveMinimum? || k.MinItems?
  }

  datatype Atom = Str(s: string) | Num(n: int) | Bool(b: bool) | Null

  datatype Val = Scalar(a: Atom) | List(vs: seq<Atom>)

  datatype Branch = AnyOf | OneOf | AllOf

  datatype Step = Prop(name: string) | Items | Values | Arm(branch: Branch, index: nat)

  type Path = seq<Step>

  type Leaf = map<Kind, Val>

  type Leaves = map<Path, Leaf>

  /** `other` holds what is not a schema leaf (the action's inputs and outputs, the environment variables, the list of
      recorded leaf kinds). */
  datatype Surface = Surface(schemas: map<string, Leaves>, other: map<string, string>, leafKinds: Option<set<Kind>>)

  /** The kinds a snapshot without a `leafKinds` field recorded. */
  const PRE_491_KINDS: set<Kind> := {Type, Enum, Const, Ref, Closed, Required}

  function KindsOf(s: Surface): set<Kind> {
    match s.leafKinds case Some(ks) => ks case None => PRE_491_KINDS
  }

  const INPUT_SCHEMAS: set<string> := {"scenario.schema.json", "scenario-multi-leg.schema.json", "session.schema.json"}

  /** How a list member is spelled inside a flattened key: a string as itself, anything else as its JSON. */
  function Label(a: Atom): string {
    match a
    case Str(s) => s
    case Num(n) => if n < 0 then "-" + Digits(-n) else Digits(n)
    case Bool(b) => if b then "true" else "false"
    case Null => "null"
  }

  /** A flattened key: one per scalar or empty list, one per member of a list. */
  datatype Key =
    | SchemaKey(file: string, path: Path, kind: Kind, member: Option<string>)
    | OtherKey(name: string)

  datatype FlatVal = Json(a: Atom) | Member | EmptyList | Text(t: string)

  predicate HasLabel(vs: seq<Atom>, l: string) {
    exists i :: 0 <= i < |vs| && Label(vs[i]) == l
  }

  /** What one leaf value contributes under a member label. */
  function FlatOf(v: Val, member: Option<string>): Option<FlatVal> {
    match v
    case Scalar(a) => if member.None? then Some(Json(a)) else None
    case List(vs) =>
      if vs == [] then (if member.None? then Some(EmptyList) else None)
      else if member.Some? && HasLabel(vs, member.value) then Some(Member)
      else None
  }

  function LeafFlat(leaf: Leaf, kind: Kind, member: Option<string>): Option<FlatVal> {
    if kind in leaf then FlatOf(leaf[kind], member) else None
  }

  function LeafAt(leaves: Leaves, path: Path): Leaf {
    if path in leaves then leaves[path] else map[]
  }

  /** The value of a flattened key, if the surface has it. */
  function At(s: Surface, k: Key): Option<FlatVal> {
    match k
    case OtherKey(n) => if n in s.other then Some(Text(s.other[n])) else None
    case SchemaKey(f, p, kind, m) => if f in s.schemas then LeafFlat(LeafAt(s.schemas[f], p), kind, m) else None
  }

  /** Every leaf reduced to `kinds`, dropping leaves left empty. */
  function WithKinds(s: Surface, kinds: set<Kind>): Surface {
    s.(schemas := map f | f in s.schemas :: ReduceLeaves(s.schemas[f], kinds))
  }

  function ReduceLeaf(leaf: Leaf, kinds: set<Kind>): Leaf {
    map k | k in leaf && k in kinds :: leaf[k]
  }

  function ReduceLeaves(leaves: Leaves, kinds: set<Kind>): Leaves {
    map p | p in leaves && ReduceLeaf(leaves[p], kinds) != map[] :: ReduceLeaf(leaves[p], kinds)
  }
}
