/** Checking one datapoint against the declared layout before it is saved. */
module DataSchemas {
  import opened PyValues
  import opened NestedData
  import opened RunFile

  datatype Problem =
    | MissingKey(name: string)
    | ExtraKey(name: string)
    | WrongShape(name: string)
    | NotReal(name: string)
    | NotWhole(name: string)

  predicate GivenIn(data: seq<Entry>, name: string) {
    exists k :: 0 <= k < |data| && data[k].name == name
  }

  predicate IsReal(cell: Cell) {
    cell.Whole? || cell.Real? || cell.NotANumber?
  }

  predicate FitsDtype(dtype: Dtype, cell: Cell) {
    cell.Whole? || (dtype.FloatColumn? && IsReal(cell))
  }

  /** The value conforms to its column: its nesting matches the column's shape and, where the column
      declares a type, every leaf is a real number of that type. */
  predicate ConformsToColumn(l: Layout, c: Column, value: Nested) {
    var leaves := ShapeLeaves(value, CellShape(l, c));
    leaves.Some? &&
    (c.SweepColumn? || c.ScalarGrid? ==>
      forall k | 0 <= k < |leaves.value| :: leaves.value[k].Leaf? && FitsDtype(c.dtype, leaves.value[k].cell))
  }

  /** A datapoint conforms when it gives every declared column a conforming value and nothing else. */
  predicate Conforms(l: Layout, data: seq<Entry>) {
    (forall name | name in l.columns :: GivenIn(data, name)) &&
    forall k | 0 <= k < |data| :: data[k].name in l.columns && ConformsToColumn(l, l.columns[data[k].name], data[k].value)
  }

  /** What one leaf of a typed column is reported for. */
  predicate LeafProblem(dtype: Dtype, leaf: Nested, p: Problem) {
    match leaf
    case List(_) => p.NotReal?
    case Leaf(Text) => p.NotReal?
    case Leaf(Flag(_)) => p.NotReal?
    case Leaf(Whole(_)) => false
    case Leaf(_) => p.NotWhole? && dtype.IntColumn?
  }

  /** What the value of a column is reported for: its nesting, or a leaf where leaves are checked. */
  ghost predicate ColumnProblem(l: Layout, c: Column, value: Nested, p: Problem) {
    var leaves := ShapeLeaves(value, CellShape(l, c));
    if leaves.None? then p.WrongShape?
    else
      (c.SweepColumn? || c.ScalarGrid?) &&
      exists k :: 0 <= k < |leaves.value| && LeafProblem(c.dtype, leaves.value[k], p)
  }

  /** Everything a datapoint is reported for. */
  ghost predicate IsProblem(l: Layout, data: seq<Entry>, p: Problem) {
    match p
    case MissingKey(name) => name in l.columns && !GivenIn(data, name)
    case ExtraKey(name) => name !in l.columns && GivenIn(data, name)
    case _ =>
      p.name in l.columns &&
      exists k :: 0 <= k < |data| && data[k].name == p.name && ColumnProblem(l, l.columns[p.name], data[k].value, p)
  }

  function LeafReport(name: string, dtype: Dtype, leaf: Nested): (r: Option<Problem>)
    ensures forall p: Problem :: LeafProblem(dtype, leaf, p) && p.name == name <==> r == Some(p)
  {
    if leaf.List? || !IsReal(leaf.cell) then Some(NotReal(name))
    else if dtype.IntColumn? && !leaf.cell.Whole? then Some(NotWhole(name))
    else None
  }

  /** Every problem of one value, leaf by leaf where leaves are checked. */
  method ColumnProblems(l: Layout, name: string, c: Column, value: Nested) returns (problems: seq<Problem>)
    ensures forall p :: p in problems <==> p.name == name && ColumnProblem(l, c, value, p)
    ensures problems == [] <==> ConformsToColumn(l, c, value)
  {
    problems := [];
    if c.SweepColumn? {
      var problem := LeafReport(name, c.dtype, value);
      assert ShapeLeaves(value, []).value[0] == value;
      if problem.Some? {
        problems := [problem.value];
      }
      return;
    }
    var leaves := ShapeLeaves(value, CellShape(l, c));
    if leaves.None? {
      return [WrongShape(name)];
    }
    if c.ScalarGrid? {
      for k := 0 to |leaves.value|
        invariant forall p :: p in problems <==> p.name == name && exists j :: 0 <= j < k && LeafProblem(c.dtype, leaves.value[j], p)
        invariant problems == [] <==> forall j | 0 <= j < k :: leaves.value[j].Leaf? && FitsDtype(c.dtype, leaves.value[j].cell)
      {
        var problem := LeafReport(name, c.dtype, leaves.value[k]);
        ghost var was := problems;
        if problem.Some? {
          problems := problems + [problem.value];
          assert forall p :: p in problems <==> p in was || p == problem.value;
        }
        hide LeafProblem;
      }
    }
  }

  /** Every problem of a datapoint at once; none exactly when it conforms. */
  method Validate(l: Layout, data: seq<Entry>) returns (problems: seq<Problem>)
    requires DistinctEntries(data)
    ensures forall p :: p in problems <==> IsProblem(l, data, p)
    ensures problems == [] <==> Conforms(l, data)
  {
    var missing := MissingKeys(l, data);
    var extra := ExtraKeys(l, data);
    var wrong := WrongValues(l, data);
    problems := missing + extra + wrong;
    assert forall p :: p in problems <==> p in missing || p in extra || p in wrong;
    assert extra != [] ==> extra[0] in extra;
    if problems == [] {
      forall k | 0 <= k < |data|
        ensures data[k].name in l.columns && ConformsToColumn(l, l.columns[data[k].name], data[k].value)
      {
        assert ExtraKey(data[k].name) !in extra;
        assert ColumnOk(l, data, data[k].name);
      }
    }
  }

  /** The value given for one column, if any, conforms. */
  predicate ColumnOk(l: Layout, data: seq<Entry>, name: string)
    requires name in l.columns
  {
    forall k | 0 <= k < |data| && data[k].name == name :: ConformsToColumn(l, l.columns[name], data[k].value)
  }

  ghost predicate IsWrongValue(l: Layout, data: seq<Entry>, p: Problem) {
    IsProblem(l, data, p) && !p.MissingKey? && !p.ExtraKey?
  }

  lemma ProblemsOfAColumn(l: Layout, data: seq<Entry>, k: nat, p: Problem)
    requires DistinctEntries(data) && k < |data| && data[k].name == p.name && p.name in l.columns
    ensures IsWrongValue(l, data, p) <==> ColumnProblem(l, l.columns[p.name], data[k].value, p)
  {
  }

  method WrongValues(l: Layout, data: seq<Entry>) returns (problems: seq<Problem>)
    requires DistinctEntries(data)
    ensures forall p :: p in problems <==> IsWrongValue(l, data, p)
    ensures problems == [] <==> forall name | name in l.columns :: ColumnOk(l, data, name)
  {
    problems := [];
    var todo := l.columns.Keys;
    while todo != {}
      invariant todo <= l.columns.Keys
      invariant forall p :: p in problems <==> p.name !in todo && IsWrongValue(l, data, p)
      invariant problems == [] <==> forall name | name in l.columns && name !in todo :: ColumnOk(l, data, name)
      decreases todo
    {
      var name :| name in todo;
      ghost var was := problems;
      if GivenIn(data, name) {
        var k: nat :| k < |data| && data[k].name == name;
        var more := ColumnProblems(l, name, l.columns[name], data[k].value);
        forall p: Problem | p.name == name
          ensures IsWrongValue(l, data, p) <==> ColumnProblem(l, l.columns[name], data[k].value, p)
        {
          ProblemsOfAColumn(l, data, k, p);
        }
        assert ColumnOk(l, data, name) <==> more == [] by {
          hide ConformsToColumn;
        }
        hide ConformsToColumn, ColumnProblem, IsWrongValue;
        problems := problems + more;
        assert forall p :: p in problems <==> p in was || p in more;
      } else {
        assert forall p :: IsWrongValue(l, data, p) ==> p.name != name;
      }
      todo := todo - {name};
    }
  }

  method ExtraKeys(l: Layout, data: seq<Entry>) returns (problems: seq<Problem>)
    ensures forall p :: p in problems <==> (p.ExtraKey? && p.name !in l.columns && GivenIn(data, p.name))
  {
    problems := [];
    for k := 0 to |data|
      invariant forall p :: p in problems <==>
                  (p.ExtraKey? && p.name !in l.columns && exists j :: 0 <= j < k && data[j].name == p.name)
    {
      ghost var was := problems;
      if data[k].name !in l.columns {
        problems := problems + [ExtraKey(data[k].name)];
        assert forall p :: p in problems <==> p in was || p == ExtraKey(data[k].name);
      }
    }
  }

  method MissingKeys(l: Layout, data: seq<Entry>) returns (problems: seq<Problem>)
    ensures forall p :: p in problems <==> (p.MissingKey? && p.name in l.columns && !GivenIn(data, p.name))
    ensures problems == [] <==> forall name | name in l.columns :: GivenIn(data, name)
  {
    problems := [];
    var todo := l.columns.Keys;
    while todo != {}
      invariant todo <= l.columns.Keys
      invariant forall p :: p in problems <==> (p.MissingKey? && p.name in l.columns && p.name !in todo && !GivenIn(data, p.name))
      decreases todo
    {
      var name :| name in todo;
      ghost var was := problems;
      if !GivenIn(data, name) {
        problems := problems + [MissingKey(name)];
        assert forall p :: p in problems <==> p in was || p == MissingKey(name);
      }
      todo := todo - {name};
    }
    if problems == [] {
      forall name | name in l.columns
        ensures GivenIn(data, name)
      {
        assert MissingKey(name) !in problems;
      }
    } else {
      assert problems[0] in problems;
    }
  }

  /** The leaves of every array and block are numbers; the check looks at their nesting only. */
  predicate NumericArrays(l: Layout, data: seq<Entry>) {
    forall k | 0 <= k < |data| && data[k].name in l.columns ::
      var leaves := ShapeLeaves(data[k].value, CellShape(l, l.columns[data[k].name]));
      leaves.Some? ==> NumericLeaves(leaves.value)
  }

  /** The write of a column whose value is stored verbatim: its leaves in row-major order. */
  function Verbatim(l: Layout, e: Entry): Option<Write> {
    if e.name !in l.columns then None
    else
      var leaves := ShapeLeaves(e.value, CellShape(l, l.columns[e.name]));
      if leaves.None? || !NumericLeaves(leaves.value) then None else Some(Write(e.name, Samples(leaves.value)))
  }

  lemma OneStoredVerbatim(l: Layout, data: seq<Entry>, k: nat)
    requires ValidLayout(l) && Conforms(l, data) && NumericArrays(l, data) && k < |data| && FirstError(l, data[..k]).None?
    ensures FirstError(l, data[..k + 1]).None?
    ensures Verbatim(l, data[k]).Some? && Writes(l, data[..k + 1]) == Writes(l, data[..k]) + [Verbatim(l, data[k]).value]
  {
    MatchingValueIsStoredVerbatim(l, l.columns[data[k].name], data[k].value);
    OneMoreEntry(l, data, k);
    hide StoredRow, Writes, FirstError, ShapeLeaves, Samples;
  }

  lemma NothingStoredYet(l: Layout, data: seq<Entry>)
    ensures FirstError(l, data[..0]).None? && Writes(l, data[..0]) == []
  {
  }

  /** A datapoint that passes the check and has numeric leaves is saved without error, every declared
      column stored verbatim: nothing is padded, refused or skipped. */
  lemma {:induction false} ValidDatapointIsStoredVerbatim(l: Layout, data: seq<Entry>, k: nat)
    requires ValidLayout(l) && Conforms(l, data) && NumericArrays(l, data) && k <= |data|
    ensures FirstError(l, data[..k]).None? && |Writes(l, data[..k])| == k
    ensures forall j | 0 <= j < k :: Verbatim(l, data[j]) == Some(Writes(l, data[..k])[j])
  {
    hide *;
    if k == 0 {
      NothingStoredYet(l, data);
    } else {
      ValidDatapointIsStoredVerbatim(l, data, k - 1);
      OneStoredVerbatim(l, data, k - 1);
      var before, after := Writes(l, data[..k - 1]), Writes(l, data[..k]);
      assert after == before + [Verbatim(l, data[k - 1]).value];
    }
  }
}
