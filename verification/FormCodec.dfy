/** A form declaration's wire rendering, and rebuilding the declaration from it. */
module FormCodec {
  import opened PyValues
  import opened ParamSpecs
  import F = Forms

  /** A parameter on the wire. Every key but `name` and `kind` may be missing; `min`, `max`, `choices` and
      `columns` may also be null, which reads the same. A missing default reads as null. */
  datatype WireSpec = WireSpec(
    name: string,
    kind: string,
    unit: Option<string>,
    description: Option<string>,
    default: Value,
    min: Option<Scalar>,
    max: Option<Scalar>,
    choices: Option<seq<Choice>>,
    structural: Option<bool>,
    widgetHint: Option<string>,
    columns: WireColumns)

  datatype WireColumns = NoWireColumns | WireColumns(list: seq<WireSpec>)

  /** A block on the wire; a missing list of parameters or guard is empty. */
  datatype WireBlock = WireBlock(key: string, title: Option<string>, params: seq<WireSpec>, when: seq<Condition>)

  datatype CodecError = UnknownKind(name: string) | Invalid(name: string) | InvalidBlock(key: string)

  // ---- rendering ----

  function KindName(kind: Kind): string {
    match kind
    case FloatKind => "float"
    case IntKind => "int"
    case StrKind => "str"
    case BoolKind => "bool"
    case ListKind => "list"
  }

  function ToJson(name: string, spec: ParamSpec): WireSpec
    decreases spec
  {
    WireSpec(
      name, KindName(spec.kind), Some(spec.unit), Some(spec.description), spec.default, spec.min, spec.max,
      if spec.choices == Some([]) then None else spec.choices,
      Some(spec.structural), Some(if spec.widgetHint.Some? then spec.widgetHint.value else ""),
      if spec.columns.Columns? && spec.columns.list != [] then WireColumns(ParamsToJson(spec.columns.list)) else NoWireColumns)
  }

  function ParamsToJson(params: seq<Param>): (wire: seq<WireSpec>)
    ensures |wire| == |params|
  {
    if params == [] then []
    else
      var n := |params| - 1;
      ParamsToJson(params[..n]) + [ToJson(params[n].name, params[n].spec)]
  }

  function BlockToJson(block: Block): WireBlock {
    WireBlock(block.key, Some(block.title), ParamsToJson(block.params), block.when)
  }

  function BlocksToJson(blocks: seq<Block>): (wire: seq<WireBlock>)
    ensures |wire| == |blocks|
  {
    seq(|blocks|, k requires 0 <= k < |blocks| => BlockToJson(blocks[k]))
  }

  // ---- rebuilding ----

  function KindOf(name: string): Option<Kind> {
    if name == "float" then Some(FloatKind)
    else if name == "int" then Some(IntKind)
    else if name == "str" then Some(StrKind)
    else if name == "bool" then Some(BoolKind)
    else if name == "list" then Some(ListKind)
    else None
  }

  /** A dictionary entry set: a name already there keeps its place and gets the new declaration. */
  function SetEntry(params: seq<Param>, name: string, spec: ParamSpec): seq<Param> {
    if params == [] then [Param(name, spec)]
    else if params[0].name == name then [Param(name, spec)] + params[1..]
    else [params[0]] + SetEntry(params[1..], name, spec)
  }

  function OrElse<T>(given: Option<T>, otherwise: T): T {
    if given.Some? then given.value else otherwise
  }

  function NotNull(x: Option<Scalar>): Option<Scalar> {
    if x == Some(Null) then None else x
  }

  /** The declaration a wire parameter describes, its columns already rebuilt. */
  function Described(w: WireSpec, kind: Kind, columns: seq<Param>): ParamSpec {
    ParamSpec(
      kind, w.default, OrElse(w.unit, ""), OrElse(w.description, ""), NotNull(w.min), NotNull(w.max),
      if w.choices == Some([]) then None else w.choices,
      OrElse(w.structural, false), if OrElse(w.widgetHint, "") == "" then None else w.widgetHint,
      if columns == [] then NoColumns else Columns(columns))
  }

  function FromJson(w: WireSpec): Result<ParamSpec, CodecError>
    decreases w, 1
  {
    var kind := KindOf(w.kind);
    if kind.None? then Err(UnknownKind(w.name))
    else
      match ColumnsFromJson(w)
      case Err(error) => Err(error)
      case Ok(columns) =>
        var spec := Described(w, kind.value, columns);
        if ValidSpec(spec) then Ok(spec) else Err(Invalid(w.name))
  }

  function ColumnsFromJson(w: WireSpec): Result<seq<Param>, CodecError>
    decreases w, 0
  {
    if w.columns.NoWireColumns? then Ok([]) else ParamsFromJson(w.columns.list)
  }

  /** The entries of a dictionary of parameters, rebuilt in order; the first error ends it. */
  function ParamsFromJson(wire: seq<WireSpec>): Result<seq<Param>, CodecError>
    decreases wire, 2
  {
    if wire == [] then Ok([])
    else
      var n := |wire| - 1;
      match ParamsFromJson(wire[..n])
      case Err(error) => Err(error)
      case Ok(params) =>
        match FromJson(wire[n])
        case Err(error) => Err(error)
        case Ok(spec) => Ok(SetEntry(params, wire[n].name, spec))
  }

  function BlockFromJson(w: WireBlock): Result<Block, CodecError> {
    match ParamsFromJson(w.params)
    case Err(error) => Err(error)
    case Ok(params) =>
      var block := Block(w.key, if OrElse(w.title, "") == "" then w.key else w.title.value, params, w.when);
      if ValidBlock(block) then Ok(block) else Err(InvalidBlock(w.key))
  }

  function BlocksFromJson(wire: seq<WireBlock>): Result<seq<Block>, CodecError> {
    if wire == [] then Ok([])
    else
      var n := |wire| - 1;
      match BlocksFromJson(wire[..n])
      case Err(error) => Err(error)
      case Ok(blocks) =>
        match BlockFromJson(wire[n])
        case Err(error) => Err(error)
        case Ok(block) => Ok(blocks + [block])
  }

  method RebuildParams(wire: seq<WireSpec>) returns (r: Result<seq<Param>, CodecError>)
    ensures r == ParamsFromJson(wire)
  {
    var params: seq<Param> := [];
    assert wire[..0] == [];
    for k := 0 to |wire|
      invariant ParamsFromJson(wire[..k]) == Ok(params)
    {
      assert wire[..k + 1][..k] == wire[..k];
      var spec := FromJson(wire[k]);
      if spec.Err? {
        ParamsErrorStays(wire, k + 1);
        return Err(spec.error);
      }
      params := SetEntry(params, wire[k].name, spec.value);
    }
    assert wire[..|wire|] == wire;
    r := Ok(params);
  }

  lemma {:induction false} ParamsErrorStays(wire: seq<WireSpec>, k: nat)
    requires k <= |wire| && ParamsFromJson(wire[..k]).Err?
    ensures ParamsFromJson(wire) == ParamsFromJson(wire[..k])
    decreases |wire|
  {
    if k == |wire| {
      assert wire[..k] == wire;
    } else {
      var n := |wire| - 1;
      assert wire[..n][..k] == wire[..k];
      ParamsErrorStays(wire[..n], k);
    }
  }

  lemma {:induction false} BlocksErrorStays(wire: seq<WireBlock>, k: nat)
    requires k <= |wire| && BlocksFromJson(wire[..k]).Err?
    ensures BlocksFromJson(wire) == BlocksFromJson(wire[..k])
    decreases |wire|
  {
    if k == |wire| {
      assert wire[..k] == wire;
    } else {
      var n := |wire| - 1;
      assert wire[..n][..k] == wire[..k];
      BlocksErrorStays(wire[..n], k);
    }
  }

  method RebuildBlocks(wire: seq<WireBlock>) returns (r: Result<seq<Block>, CodecError>)
    ensures r == BlocksFromJson(wire)
  {
    var rebuilt: seq<Block> := [];
    assert wire[..0] == [];
    for k := 0 to |wire|
      invariant BlocksFromJson(wire[..k]) == Ok(rebuilt)
    {
      assert wire[..k + 1][..k] == wire[..k];
      var params := RebuildParams(wire[k].params);
      if params.Err? {
        BlocksErrorStays(wire, k + 1);
        return Err(params.error);
      }
      var title := if OrElse(wire[k].title, "") == "" then wire[k].key else wire[k].title.value;
      var block := Block(wire[k].key, title, params.value, wire[k].when);
      if !ValidBlock(block) {
        BlocksErrorStays(wire, k + 1);
        return Err(InvalidBlock(wire[k].key));
      }
      rebuilt := rebuilt + [block];
    }
    assert wire[..|wire|] == wire;
    r := Ok(rebuilt);
  }

  // ---- rebuilding undoes rendering ----

  lemma {:induction false} SetNewEntry(params: seq<Param>, name: string, spec: ParamSpec)
    requires forall p | p in params :: p.name != name
    ensures SetEntry(params, name, spec) == params + [Param(name, spec)]
    decreases |params|
  {
    if params != [] {
      assert params[0] in params;
      SetNewEntry(params[1..], name, spec);
    }
  }

  /** What construction rules out is what rendering would lose. */
  lemma NothingIsLost(spec: ParamSpec)
    requires ValidSpec(spec)
    ensures NotNull(spec.min) == spec.min && NotNull(spec.max) == spec.max
    ensures spec.choices != Some([]) && spec.widgetHint != Some("") && spec.columns != Columns([])
    ensures spec.columns.Columns? ==> DistinctNames(spec.columns.list) && forall p | p in spec.columns.list :: ValidSpec(p.spec)
  {
    if spec.columns.Columns? {
      var columns := spec.columns.list;
      forall p | p in columns ensures ValidSpec(p.spec) {
        var k :| 0 <= k < |columns| && columns[k] == p;
      }
    }
  }

  lemma DescribedAsRendered(name: string, spec: ParamSpec, columns: seq<Param>)
    requires NotNull(spec.min) == spec.min && NotNull(spec.max) == spec.max
    requires spec.choices != Some([]) && spec.widgetHint != Some("")
    requires spec.columns == if columns == [] then NoColumns else Columns(columns)
    ensures Described(ToJson(name, spec), spec.kind, columns) == spec
  {
    hide ParamsToJson;
  }

  lemma RenderedHead(name: string, spec: ParamSpec)
    requires spec.columns != Columns([])
    ensures var w := ToJson(name, spec);
            w.name == name && KindOf(w.kind) == Some(spec.kind) &&
            w.columns == if spec.columns.Columns? then WireColumns(ParamsToJson(spec.columns.list)) else NoWireColumns
  {
    hide ParamsToJson;
  }

  /** A valid declaration comes back from the wire exactly as it was. */
  lemma {:induction false} SpecRoundTrip(name: string, spec: ParamSpec)
    requires ValidSpec(spec)
    ensures FromJson(ToJson(name, spec)) == Ok(spec) && ToJson(name, spec).name == name
    decreases spec, 1
  {
    hide ValidSpec, ToJson, Described, KindOf, DistinctNames, ParamsFromJson, ParamsToJson;
    NothingIsLost(spec);
    RenderedHead(name, spec);
    var columns := if spec.columns.Columns? then spec.columns.list else [];
    if spec.columns.Columns? {
      ParamsRoundTrip(columns);
    }
    DescribedAsRendered(name, spec, columns);
  }

  lemma {:induction false} ParamsRoundTrip(params: seq<Param>)
    requires DistinctNames(params) && forall p | p in params :: ValidSpec(p.spec)
    ensures ParamsFromJson(ParamsToJson(params)) == Ok(params)
    decreases params, 2
  {
    hide ValidSpec, FromJson, ToJson;
    if params != [] {
      var n := |params| - 1;
      ParamsRoundTrip(params[..n]);
      SpecRoundTrip(params[n].name, params[n].spec);
      forall p | p in params[..n] ensures p.name != params[n].name {
        var k :| 0 <= k < n && params[k] == p;
      }
      SetNewEntry(params[..n], params[n].name, params[n].spec);
      assert params == params[..n] + [params[n]];
      var wire := ParamsToJson(params);
      assert wire[..n] == ParamsToJson(params[..n]);
    }
  }

  lemma BlockRoundTrip(block: Block)
    requires ValidBlock(block)
    ensures BlockFromJson(BlockToJson(block)) == Ok(block)
  {
    hide ValidSpec;
    ParamsRoundTrip(block.params);
  }

  /** Rendering a valid form and rebuilding it is the identity. */
  lemma {:induction false} BlocksRoundTrip(blocks: seq<Block>)
    requires forall b | b in blocks :: ValidBlock(b)
    ensures BlocksFromJson(BlocksToJson(blocks)) == Ok(blocks)
    decreases |blocks|
  {
    hide ValidBlock, BlockToJson, BlockFromJson;
    if blocks != [] {
      var n := |blocks| - 1;
      BlocksRoundTrip(blocks[..n]);
      BlockRoundTrip(blocks[n]);
      assert BlocksToJson(blocks)[..n] == BlocksToJson(blocks[..n]);
      assert blocks == blocks[..n] + [blocks[n]];
    }
  }

  // ---- what the keys on the wire mean ----

  /** An accepted wire parameter is the declaration its keys describe: a missing text is empty, a missing
      or null bound, an empty list of choices and an empty hint are none, and a missing flag is false. */
  lemma KeysMean(w: WireSpec)
    requires FromJson(w).Ok?
    ensures var spec := FromJson(w).value;
            w.kind == (match spec.kind
                       case FloatKind => "float" case IntKind => "int" case StrKind => "str" case BoolKind => "bool" case ListKind => "list") &&
            spec.default == w.default &&
            spec.unit == (match w.unit case Some(text) => text case None => "") &&
            spec.description == (match w.description case Some(text) => text case None => "") &&
            spec.min == (match w.min case Some(Null) => None case bound => bound) &&
            spec.max == (match w.max case Some(Null) => None case bound => bound) &&
            spec.choices == (if w.choices.Some? && w.choices.value != [] then w.choices else None) &&
            (spec.structural <==> w.structural == Some(true)) &&
            spec.widgetHint == (if w.widgetHint.Some? && w.widgetHint.value != "" then w.widgetHint else None) &&
            (spec.columns.Columns? <==> w.columns.WireColumns? && w.columns.list != [])
  {
    hide ValidSpec;
    if w.columns.WireColumns? {
      ColumnsThere(w.columns.list);
    }
  }

  lemma {:induction false} ColumnsThere(wire: seq<WireSpec>)
    requires ParamsFromJson(wire).Ok?
    ensures ParamsFromJson(wire).value == [] <==> wire == []
    decreases |wire|
  {
    hide FromJson;
    if wire != [] {
      ColumnsThere(wire[..|wire| - 1]);
    }
  }

  /** A block on the wire without a title, or with an empty one, is titled by its key. */
  lemma BlockKeysMean(w: WireBlock)
    requires BlockFromJson(w).Ok?
    ensures var block := BlockFromJson(w).value;
            block.key == w.key && block.when == w.when && Ok(block.params) == ParamsFromJson(w.params) &&
            block.title == (match w.title case Some(text) => if text != "" then text else w.key case None => w.key)
  {
    hide ValidBlock, ParamsFromJson;
  }

  /** A scalar fits a kind named on the wire; a boolean is no number, and an integer is a float too. */
  ghost predicate Fits(kind: string, x: Scalar) {
    (kind == "int" && exists i :: x == Int(i)) ||
    (kind == "float" && ((exists i :: x == Int(i)) || exists r :: x == Float(r))) ||
    (kind == "str" && exists s :: x == Str(s)) ||
    (kind == "bool" && (x == Bool(true) || x == Bool(false)))
  }

  /** Both are numbers, no booleans, and the first is not the larger. */
  ghost predicate NotAbove(x: Scalar, y: Scalar) {
    !x.Bool? && !y.Bool? && exists r, s :: F.CountsAs(x, r) && F.CountsAs(y, s) && r <= s
  }

  predicate IsGiven(bound: Option<Scalar>) {
    bound.Some? && bound.value != Null
  }

  lemma FitsIff(kind: Kind, x: Scalar)
    requires !kind.ListKind?
    ensures AcceptsScalar(kind, x) <==> Fits(KindName(kind), x)
  {
    match x
    case Int(i) => assert x == Int(i);
    case Float(r) => assert x == Float(r);
    case Str(s) => assert x == Str(s);
    case _ =>
  }

  lemma NotAboveIff(x: Scalar, y: Scalar)
    requires !x.Bool? && !y.Bool?
    ensures AtMost(x, y) <==> NotAbove(x, y)
  {
    if IsNumeric(x) && IsNumeric(y) {
      assert F.CountsAs(x, AsReal(x)) && F.CountsAs(y, AsReal(y));
    }
  }

  /** A scalar parameter is accepted exactly when its default is a value of its kind and either, where
      choices are given, no bound is, no caption comes twice, every choice is of the kind and the default
      equals one of them; or, without choices, what bounds are given are numbers about a number and the
      default lies within them. */
  lemma ScalarIsAcceptedIff(w: WireSpec)
    requires w.kind in {"int", "float", "str", "bool"} && (w.columns == NoWireColumns || w.columns == WireColumns([]))
    ensures FromJson(w).Ok? <==>
            w.default.One? && Fits(w.kind, w.default.scalar) &&
            if w.choices.Some? && w.choices.value != [] then
              var choices := w.choices.value;
              !IsGiven(w.min) && !IsGiven(w.max) &&
              (forall j, k | 0 <= j < k < |choices| :: choices[j].caption != choices[k].caption) &&
              (forall c | c in choices :: c.value.One? && Fits(w.kind, c.value.scalar)) &&
              exists c :: c in choices && c.value.One? && F.SameCell(w.default.scalar, c.value.scalar)
            else
              (IsGiven(w.min) || IsGiven(w.max) ==> w.kind in {"int", "float"}) &&
              (IsGiven(w.min) ==> NotAbove(w.min.value, w.default.scalar)) &&
              (IsGiven(w.max) ==> NotAbove(w.default.scalar, w.max.value))
  {
    var kind := KindOf(w.kind).value;
    var spec := Described(w, kind, []);
    assert ParamsFromJson([]) == Ok([]);
    assert FromJson(w).Ok? <==> ValidSpec(spec);
    assert KindName(kind) == w.kind;
    assert spec.choices == if w.choices.Some? && w.choices.value != [] then w.choices else None;
    assert spec.default == w.default && spec.kind == kind && spec.columns == NoColumns && spec.widgetHint != Some("");
    assert ValidSpec(spec) <==>
           Accepts(spec, w.default) && (if spec.choices.Some? then ValidChoices(spec, spec.choices.value) else ValidBounds(spec));
    if w.default.One? {
      FitsIff(kind, w.default.scalar);
    }
    assert Accepts(spec, w.default) <==> w.default.One? && Fits(w.kind, w.default.scalar);
    hide *;
    if w.choices.Some? && w.choices.value != [] {
      assert spec.choices == w.choices;
      ChoicesAreValidIff(w, spec, w.choices.value);
    } else {
      BoundsAreValidIff(w, spec);
    }
  }

  lemma ChoicesAreValidIff(w: WireSpec, spec: ParamSpec, choices: seq<Choice>)
    requires !spec.kind.ListKind? && spec.default == w.default && KindName(spec.kind) == w.kind && choices != []
    requires spec.min == NotNull(w.min) && spec.max == NotNull(w.max)
    ensures w.default.One? ==>
              (ValidChoices(spec, choices) <==>
                 !IsGiven(w.min) && !IsGiven(w.max) &&
                 (forall j, k | 0 <= j < k < |choices| :: choices[j].caption != choices[k].caption) &&
                 (forall c | c in choices :: c.value.One? && Fits(w.kind, c.value.scalar)) &&
                 exists c :: c in choices && c.value.One? && F.SameCell(w.default.scalar, c.value.scalar))
  {
    if w.default.One? {
      forall c | c in choices
        ensures Accepts(spec, c.value) <==> c.value.One? && Fits(w.kind, c.value.scalar)
        ensures PyEq(spec.default, c.value) <==> c.value.One? && F.SameCell(w.default.scalar, c.value.scalar)
      {
        if c.value.One? {
          FitsIff(spec.kind, c.value.scalar);
          F.CellsAreEqual(w.default.scalar, c.value.scalar);
        }
      }
      hide Fits, F.SameCell, Accepts, PyEq;
    }
  }

  lemma BoundsAreValidIff(w: WireSpec, spec: ParamSpec)
    requires !spec.kind.ListKind? && spec.default == w.default && KindName(spec.kind) == w.kind
    requires spec.min == NotNull(w.min) && spec.max == NotNull(w.max)
    ensures w.default.One? && Fits(w.kind, w.default.scalar) ==>
              (ValidBounds(spec) <==>
                 (IsGiven(w.min) || IsGiven(w.max) ==> w.kind in {"int", "float"}) &&
                 (IsGiven(w.min) ==> NotAbove(w.min.value, w.default.scalar)) &&
                 (IsGiven(w.max) ==> NotAbove(w.default.scalar, w.max.value)))
  {
    if w.default.One? && Fits(w.kind, w.default.scalar) && w.kind in {"int", "float"} {
      var x := w.default.scalar;
      if IsGiven(w.min) && !w.min.value.Bool? {
        NotAboveIff(w.min.value, x);
      }
      if IsGiven(w.max) && !w.max.value.Bool? {
        NotAboveIff(x, w.max.value);
      }
    }
  }

  // ---- rendering undoes rebuilding, on the canonical wire ----

  /** What rendering produces: every key given, nothing null that reads as missing, no name twice. */
  predicate Canonical(w: WireSpec)
    decreases w, 1
  {
    w.unit.Some? && w.description.Some? && w.min != Some(Null) && w.max != Some(Null) &&
    w.choices != Some([]) && w.structural.Some? && w.widgetHint.Some? &&
    (w.columns.WireColumns? ==> w.columns.list != [] && CanonicalParams(w.columns.list))
  }

  predicate CanonicalParams(wire: seq<WireSpec>)
    decreases wire, 0
  {
    (forall k | 0 <= k < |wire| :: Canonical(wire[k])) &&
    forall j, k | 0 <= j < k < |wire| :: wire[j].name != wire[k].name
  }

  lemma {:induction false} ParamsToJsonAt(params: seq<Param>, k: nat)
    requires k < |params|
    ensures ParamsToJson(params)[k] == ToJson(params[k].name, params[k].spec)
    decreases |params|
  {
    if k < |params| - 1 {
      ParamsToJsonAt(params[..|params| - 1], k);
    }
  }

  lemma {:induction false} RenderedIsCanonical(name: string, spec: ParamSpec)
    requires ValidSpec(spec)
    ensures Canonical(ToJson(name, spec))
    decreases spec
  {
    NothingIsLost(spec);
    if spec.columns.Columns? {
      var columns := spec.columns.list;
      forall k | 0 <= k < |columns|
        ensures Canonical(ParamsToJson(columns)[k]) && ParamsToJson(columns)[k].name == columns[k].name
      {
        ParamsToJsonAt(columns, k);
        RenderedIsCanonical(columns[k].name, columns[k].spec);
      }
    }
  }

  lemma {:induction false} CanonicalIsRendered(w: WireSpec)
    requires Canonical(w) && FromJson(w).Ok?
    ensures ToJson(w.name, FromJson(w).value) == w
    decreases w, 1
  {
    hide ValidSpec, ParamsFromJson, ParamsToJson, CanonicalParams;
    if w.columns.WireColumns? {
      CanonicalParamsAreRendered(w.columns.list);
      EmptyRendersEmpty();
    }
    KindNames(w.kind);
  }

  lemma KindNames(name: string)
    ensures KindOf(name).Some? ==> KindName(KindOf(name).value) == name
  {
  }

  lemma EmptyRendersEmpty()
    ensures ParamsToJson([]) == []
  {
  }

  lemma {:induction false} CanonicalParamsAreRendered(wire: seq<WireSpec>)
    requires CanonicalParams(wire) && ParamsFromJson(wire).Ok?
    ensures ParamsToJson(ParamsFromJson(wire).value) == wire
    decreases wire, 2
  {
    hide Canonical, FromJson, ToJson;
    if wire != [] {
      var n := |wire| - 1;
      CanonicalParamsAreRendered(wire[..n]);
      CanonicalIsRendered(wire[n]);
      var params, spec := ParamsFromJson(wire[..n]).value, FromJson(wire[n]).value;
      forall p | p in params ensures p.name != wire[n].name {
        var k :| 0 <= k < |params| && params[k] == p;
        ParamsToJsonAt(params, k);
        RenderedName(p.name, p.spec);
        assert wire[..n][k] == wire[k];
      }
      SetNewEntry(params, wire[n].name, spec);
      var all := params + [Param(wire[n].name, spec)];
      assert all[..|all| - 1] == params;
      assert wire == wire[..n] + [wire[n]];
    }
  }

  lemma RenderedName(name: string, spec: ParamSpec)
    ensures ToJson(name, spec).name == name
  {
  }

  /** A wire parameter that is accepted rebuilds to a valid declaration, and rendering that gives the
      wire parameter back exactly when it is canonical. */
  lemma RenderingUndoesRebuildingIff(w: WireSpec)
    requires FromJson(w).Ok?
    ensures ValidSpec(FromJson(w).value)
    ensures ToJson(w.name, FromJson(w).value) == w <==> Canonical(w)
  {
    if Canonical(w) {
      CanonicalIsRendered(w);
    } else {
      RenderedIsCanonical(w.name, FromJson(w).value);
    }
  }

  lemma {:induction false} RebuiltFormIsValid(wire: seq<WireBlock>)
    requires BlocksFromJson(wire).Ok?
    ensures forall b | b in BlocksFromJson(wire).value :: ValidBlock(b)
    decreases |wire|
  {
    hide ValidBlock;
    if wire != [] {
      RebuiltFormIsValid(wire[..|wire| - 1]);
      RebuiltBlockIsValid(wire[|wire| - 1]);
      hide BlockFromJson;
    }
  }

  lemma RebuiltBlockIsValid(wire: WireBlock)
    requires BlockFromJson(wire).Ok?
    ensures ValidBlock(BlockFromJson(wire).value)
  {
  }

  /** Whatever form is accepted off the wire, canonical or not, rendered by this client or another: it
      is a valid declaration, and a client it is rendered to rebuilds the very same one. */
  lemma AcceptedFormsAreStable(wire: seq<WireBlock>)
    requires BlocksFromJson(wire).Ok?
    ensures var blocks := BlocksFromJson(wire).value;
            (forall b | b in blocks :: ValidBlock(b)) && BlocksFromJson(BlocksToJson(blocks)) == Ok(blocks)
  {
    RebuiltFormIsValid(wire);
    BlocksRoundTrip(BlocksFromJson(wire).value);
  }
}
