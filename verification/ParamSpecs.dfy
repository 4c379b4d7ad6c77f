/** Declared parameters and guarded form blocks: the vocabulary of a procedure's form. */
module ParamSpecs {
  import opened PyValues

  datatype Kind = FloatKind | IntKind | StrKind | BoolKind | ListKind

  datatype Choice = Choice(caption: string, value: Value)

  datatype ParamSpec = ParamSpec(
    kind: Kind,
    default: Value,
    unit: string,
    description: string,
    min: Option<Scalar>,
    max: Option<Scalar>,
    choices: Option<seq<Choice>>,
    structural: bool,
    widgetHint: Option<string>,
    columns: Columns)

  /** The columns of a `list` parameter; every other parameter has none. */
  datatype Columns = NoColumns | Columns(list: seq<Param>)

  /** One entry of a `params` or `columns` mapping, in declaration order. */
  datatype Param = Param(name: string, spec: ParamSpec)

  /** One entry of a guard: the parameter it reads and the values it accepts. */
  datatype Condition = Condition(name: string, accepted: seq<Value>)

  /** One guarded block of a form declaration; an empty guard is unconditional. */
  datatype Block = Block(key: string, title: string, params: seq<Param>, when: seq<Condition>)

  function Names(params: seq<Param>): (names: set<string>) {
    set p | p in params :: p.name
  }

  predicate DistinctNames(params: seq<Param>) {
    forall j, k | 0 <= j < k < |params| :: params[j].name != params[k].name
  }

  /** Whether a scalar of a scalar kind is legal: a boolean only where booleans are declared. */
  predicate AcceptsScalar(kind: Kind, x: Scalar) {
    match kind
    case FloatKind => x.Int? || x.Float?
    case IntKind => x.Int?
    case StrKind => x.Str?
    case BoolKind => x.Bool?
    case ListKind => false
  }

  predicate Accepts(spec: ParamSpec, value: Value) {
    if spec.kind.ListKind? then
      value.Table? && spec.columns.Columns? && spec.columns.list != [] &&
      forall k | 0 <= k < |value.rows| :: AcceptsRow(spec.columns.list, value.rows[k])
    else
      value.One? && AcceptsScalar(spec.kind, value.scalar)
  }

  predicate AcceptsRow(columns: seq<Param>, row: map<string, Scalar>) {
    row.Keys == Names(columns) &&
    forall c | c in columns :: AcceptsScalar(c.spec.kind, row[c.name])
  }

  predicate IsNumber(x: Scalar) {
    x.Int? || x.Float?
  }

  predicate AtMost(x: Scalar, y: Scalar) {
    IsNumeric(x) && IsNumeric(y) && AsReal(x) <= AsReal(y)
  }

  predicate ValidBounds(spec: ParamSpec) {
    (spec.min.Some? || spec.max.Some? ==>
      (spec.kind.IntKind? || spec.kind.FloatKind?) && spec.default.One?) &&
    (spec.min.Some? ==> IsNumber(spec.min.value) && AtMost(spec.min.value, spec.default.scalar)) &&
    (spec.max.Some? ==> IsNumber(spec.max.value) && AtMost(spec.default.scalar, spec.max.value)) &&
    (spec.min.Some? && spec.max.Some? ==> AtMost(spec.min.value, spec.max.value))
  }

  predicate ValidChoices(spec: ParamSpec, choices: seq<Choice>) {
    choices != [] && spec.min.None? && spec.max.None? &&
    (forall c | c in choices :: Accepts(spec, c.value)) &&
    (forall j, k | 0 <= j < k < |choices| :: choices[j].caption != choices[k].caption) &&
    exists c :: c in choices && PyEq(spec.default, c.value)
  }

  predicate ValidColumns(spec: ParamSpec)
    decreases spec, 0
  {
    if spec.kind.ListKind? then
      spec.columns.Columns? && spec.columns.list != [] &&
      spec.min.None? && spec.max.None? && spec.choices.None? &&
      DistinctNames(spec.columns.list) &&
      var columns := spec.columns.list;
      forall k | 0 <= k < |columns| ::
        columns[k].name != "" && !columns[k].spec.kind.ListKind? && ValidSpec(columns[k].spec)
    else
      spec.columns.NoColumns?
  }

  /** What constructing the declaration checks. */
  predicate ValidSpec(spec: ParamSpec)
    decreases spec, 1
  {
    ValidColumns(spec) && Accepts(spec, spec.default) && spec.widgetHint != Some("") &&
    match (spec.kind, spec.choices)
    case (ListKind, _) => true
    case (_, Some(choices)) => ValidChoices(spec, choices)
    case (_, None) => ValidBounds(spec)
  }

  predicate ValidGuard(guard: seq<Condition>) {
    (forall c | c in guard :: c.name != "" && c.accepted != []) &&
    forall j, k | 0 <= j < k < |guard| :: guard[j].name != guard[k].name
  }

  /** What constructing a block checks, its parameters' own checks included. */
  predicate ValidBlock(block: Block) {
    block.key != "" && block.title != "" && DistinctNames(block.params) &&
    (forall p | p in block.params :: p.name != "" && ValidSpec(p.spec)) &&
    ValidGuard(block.when)
  }
}
