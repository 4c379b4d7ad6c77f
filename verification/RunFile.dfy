/** The run file: what saving one datapoint writes, write by write, and what closing trims. */
module RunFile {
  import opened PyValues
  import opened NestedData

  datatype Dtype = IntColumn | FloatColumn

  datatype Column =
    | SweepColumn(dtype: Dtype)
    | ScalarGrid(dtype: Dtype)
    | SampleGrid(length: nat)
    | BlockGrid(height: nat, width: nat)

  /** The declared layout of one run. Names are unique across the four kinds of column. */
  datatype Layout = Layout(columns: map<string, Column>, loop1: nat, loop2: nat, points: nat)

  const TIMESTAMP := "timestamp"

  predicate ValidLayout(l: Layout) {
    l.loop1 > 0 && l.loop2 > 0 && TIMESTAMP !in l.columns &&
    forall c | c in l.columns :: Positive(CellShape(l, l.columns[c]))
  }

  /** A raw block carries the reading-loop axes only when a loop is configured. */
  function BlockPrefix(l: Layout): seq<nat> {
    if l.loop1 == 1 && l.loop2 == 1 then [] else [l.loop1, l.loop2]
  }

  /** The shape of one sweep point's cell of a column. */
  function CellShape(l: Layout, c: Column): seq<nat> {
    match c
    case SweepColumn(_) => []
    case ScalarGrid(_) => [l.loop1, l.loop2]
    case SampleGrid(length) => [l.loop1, l.loop2, length]
    case BlockGrid(height, width) => BlockPrefix(l) + [height, width]
  }

  type Row = seq<Sample>

  function NaNs(n: nat): (row: Row)
    ensures |row| == n && forall k | 0 <= k < n :: row[k] == Missing
  {
    seq(n, _ => Missing)
  }

  function BlankRow(l: Layout, c: Column): Row {
    NaNs(Product(CellShape(l, c)))
  }

  // ---- the row one value is stored as ----

  datatype SaveError =
    | ClosedFile | IndexOutOfRange | BadValue | BadShape | BadAxis | UnserialisableSnapshot | SnapshotExists

  /** Where group `g` starts when every group has `each` samples. */
  function Start(g: nat, each: nat): nat {
    if g == 0 then 0 else each + Start(g - 1, each)
  }

  lemma {:induction false} StartIsProduct(g: nat, each: nat)
    ensures Start(g, each) == g * each
  {
    if g > 0 {
      StartIsProduct(g - 1, each);
    }
  }

  /** One group, cut or filled with NaN to `want` samples. */
  function Fitted(flat: seq<Sample>, have: nat, want: nat): (row: Row)
    requires have <= |flat|
    ensures |row| == want
  {
    flat[..if have < want then have else want] + NaNs(if have < want then want - have else 0)
  }

  /** Each of `groups` runs of `have` samples, cut or filled to `want` samples. */
  function Padded(flat: seq<Sample>, groups: nat, have: nat, want: nat): (row: Row)
    requires |flat| == Start(groups, have)
    ensures |row| == Start(groups, want)
    decreases groups
  {
    if groups == 0 then []
    else Fitted(flat, have, want) + Padded(flat[have..], groups - 1, have, want)
  }

  /** The stored row of a column's value, or the refusal the save raises. A sample grid is padded on
      its innermost axis and a block on its row axis; every other difference of shape is refused. */
  function StoredRow(l: Layout, c: Column, value: Nested): Result<Row, SaveError> {
    if c.SweepColumn? then
      if value.Leaf? && !value.cell.Text? then Ok([ToSample(value.cell)]) else Err(BadValue)
    else if !Numeric(value) || ArrayShape(value).None? then Err(BadValue)
    else
      FlatLength(value);
      var shape, flat := ArrayShape(value).value, Flat(value);
      if shape == CellShape(l, c) then Ok(flat)
      else if c.ScalarGrid? then Err(BadShape)
      else if c.SampleGrid? then
        if |shape| == 3 && shape[..2] == [l.loop1, l.loop2] then
          GroupsOf(shape, 2);
          Ok(Padded(flat, Product(shape[..2]), Product(shape[2..]), c.length))
        else Err(BadShape)
      else
        var prefix := BlockPrefix(l);
        if |shape| == |prefix| + 2 && shape[..|prefix|] == prefix && shape[|shape| - 1] == c.width then
          GroupsOf(shape, |prefix|);
          Ok(Padded(flat, Product(prefix), Product(shape[|prefix|..]), c.height * c.width))
        else if prefix == [] && (|shape| == 0 || (|shape| == 1 && shape[0] == c.width)) then Err(BadAxis)
        else Err(BadShape)
  }

  lemma {:induction false} ProductSplit(shape: seq<nat>, k: nat)
    requires k <= |shape|
    ensures Product(shape) == Product(shape[..k]) * Product(shape[k..])
  {
    if k == 0 {
      assert shape[0..] == shape;
    } else {
      ProductSplit(shape[1..], k - 1);
      assert shape[..k][1..] == shape[1..][..k - 1];
      assert shape[1..][k - 1..] == shape[k..];
      TimesAssociative(shape[0], Product(shape[1..][..k - 1]), Product(shape[k..]));
    }
  }

  /** A shape's leading axes count the groups, its other axes the samples of a group. */
  lemma GroupsOf(shape: seq<nat>, k: nat)
    requires k <= |shape|
    ensures Start(Product(shape[..k]), Product(shape[k..])) == Product(shape)
  {
    ProductSplit(shape, k);
    StartIsProduct(Product(shape[..k]), Product(shape[k..]));
  }

  lemma TimesAssociative(a: nat, b: nat, c: nat)
    ensures a * (b * c) == (a * b) * c
  {
  }

  lemma PaddedSplits(flat: seq<Sample>, groups: nat, have: nat, want: nat, m: nat)
    requires |flat| == Start(groups, have) && groups > 0 && m < Start(groups, want)
    ensures |flat[have..]| == Start(groups - 1, have) && |Fitted(flat, have, want)| == want
    ensures Padded(flat, groups, have, want)[m] ==
            if m < want then Fitted(flat, have, want)[m] else Padded(flat[have..], groups - 1, have, want)[m - want]
  {
  }

  /** Padding keeps the first samples of every group and fills the rest of the group with NaN. */
  lemma {:induction false} PaddedAt(flat: seq<Sample>, groups: nat, have: nat, want: nat, g: nat, k: nat)
    requires |flat| == Start(groups, have) && g < groups && k < want
    ensures Start(g, want) + k < Start(groups, want) && (k < have ==> Start(g, have) + k < |flat|)
    ensures Padded(flat, groups, have, want)[Start(g, want) + k] == if k < have then flat[Start(g, have) + k] else Missing
    decreases groups
  {
    hide Padded, Fitted;
    if g == 0 {
      PaddedSplits(flat, groups, have, want, k);
      FittedAt(flat, have, want, k);
    } else {
      var rest := flat[have..];
      PaddedAt(rest, groups - 1, have, want, g - 1, k);
      PaddedSplits(flat, groups, have, want, Start(g, want) + k);
      if k < have {
        assert flat[have + (Start(g - 1, have) + k)] == rest[Start(g - 1, have) + k];
      }
    }
  }

  lemma FittedAt(flat: seq<Sample>, have: nat, want: nat, k: nat)
    requires have <= |flat| && k < want
    ensures Fitted(flat, have, want)[k] == if k < have then flat[k] else Missing
  {
  }

  /** Every stored row fills its column's cell exactly. */
  lemma StoredRowFits(l: Layout, c: Column, value: Nested)
    requires StoredRow(l, c, value).Ok?
    ensures |StoredRow(l, c, value).value| == Product(CellShape(l, c))
  {
    hide Product, Padded, Start, Numeric, Flat;
    if c.SweepColumn? {
      OneSample();
    } else {
      FlatLength(value);
      var shape := ArrayShape(value).value;
      if shape != CellShape(l, c) {
        if c.SampleGrid? { GroupsOf(CellShape(l, c), 2); } else { GroupsOf(CellShape(l, c), |BlockPrefix(l)|); }
        CellTail(l, c);
      }
    }
  }

  lemma OneSample()
    ensures Product([]) == 1
  {
  }

  /** The cell of a padded column is its groups and then what one group holds. */
  lemma CellTail(l: Layout, c: Column)
    requires c.SampleGrid? || c.BlockGrid?
    ensures c.SampleGrid? ==> CellShape(l, c)[..2] == [l.loop1, l.loop2] && Product(CellShape(l, c)[2..]) == c.length
    ensures c.BlockGrid? ==>
              var n := |BlockPrefix(l)|; CellShape(l, c)[..n] == BlockPrefix(l) && Product(CellShape(l, c)[n..]) == c.height * c.width
  {
    if c.SampleGrid? {
      assert CellShape(l, c)[2..] == [c.length];
      assert Product([c.length]) == c.length;
    } else {
      assert CellShape(l, c)[|BlockPrefix(l)|..] == [c.height, c.width];
      assert [c.height, c.width][1..] == [c.width];
      assert Product([c.width]) == c.width;
    }
  }

  /** A value of exactly the declared shape with numeric leaves is stored verbatim. */
  lemma MatchingValueIsStoredVerbatim(l: Layout, c: Column, value: Nested)
    requires Positive(CellShape(l, c))
    requires ShapeLeaves(value, CellShape(l, c)).Some? && NumericLeaves(ShapeLeaves(value, CellShape(l, c)).value)
    ensures StoredRow(l, c, value) == Ok(Samples(ShapeLeaves(value, CellShape(l, c)).value))
  {
    var shape := CellShape(l, c);
    MatchingValueIsTheArray(value, shape);
    if c.SweepColumn? {
      assert ShapeLeaves(value, shape).value == [value];
      assert [value][0] == value;
      assert Samples([value]) == [ToSample(value.cell)];
    }
  }

  /** A value lacking the axes a block column looks at is refused with the wrong error exactly when no
      loop is configured and it is a number, or a single row as wide as the block. */
  lemma MissingAxisIff(l: Layout, c: Column, value: Nested)
    ensures StoredRow(l, c, value) == Err(BadAxis) <==>
            c.BlockGrid? && l.loop1 == 1 && l.loop2 == 1 && Numeric(value) &&
            (ArrayShape(value) == Some([]) || ArrayShape(value) == Some([c.width]))
  {
    hide Numeric, Flat, Padded, ArrayShape;
    if Numeric(value) && ArrayShape(value).Some? && c.BlockGrid? {
      var shape := ArrayShape(value).value;
      assert |shape| == 1 ==> (shape == [c.width] <==> shape[0] == c.width);
    }
  }

  // ---- the file and the writes of one save ----

  /** One entry of a datapoint, a mapping given in order. */
  datatype Entry = Entry(name: string, value: Nested)

  predicate DistinctEntries(data: seq<Entry>) {
    forall j, k | 0 <= j < k < |data| :: data[j].name != data[k].name
  }

  datatype Snapshot = Serialisable(json: string) | Unserialisable

  datatype FileState = FileState(rows: map<string, seq<Row>>, stamps: seq<bool>, snapshots: map<int, string>)

  datatype Write = Write(column: string, row: Row)

  function Blank(l: Layout): FileState {
    FileState(map c | c in l.columns :: seq(l.points, _ => BlankRow(l, l.columns[c])), seq(l.points, _ => false), map[])
  }

  /** Every dataset of the layout is there and as long as the timestamps. */
  predicate Allocated(l: Layout, f: FileState) {
    f.rows.Keys == l.columns.Keys && |f.stamps| == l.points && forall c | c in f.rows :: |f.rows[c]| == l.points
  }

  /** The column writes of a save, up to the first value that cannot be stored. */
  function Writes(l: Layout, data: seq<Entry>): seq<Write> {
    if data == [] then []
    else if data[0].name !in l.columns then Writes(l, data[1..])
    else
      match StoredRow(l, l.columns[data[0].name], data[0].value)
      case Ok(row) => [Write(data[0].name, row)] + Writes(l, data[1..])
      case Err(_) => []
  }

  function FirstError(l: Layout, data: seq<Entry>): Option<SaveError> {
    if data == [] then None
    else if data[0].name in l.columns && StoredRow(l, l.columns[data[0].name], data[0].value).Err? then
      Some(StoredRow(l, l.columns[data[0].name], data[0].value).error)
    else FirstError(l, data[1..])
  }

  /** Going on to one more entry after a prefix without error. */
  lemma {:induction false} OneMoreEntry(l: Layout, data: seq<Entry>, k: nat)
    requires k < |data| && FirstError(l, data[..k]).None?
    ensures data[k].name !in l.columns ==> FirstError(l, data[..k + 1]).None? && Writes(l, data[..k + 1]) == Writes(l, data[..k])
    ensures data[k].name in l.columns ==>
              var stored := StoredRow(l, l.columns[data[k].name], data[k].value);
              if stored.Ok? then
                FirstError(l, data[..k + 1]).None? &&
                Writes(l, data[..k + 1]) == Writes(l, data[..k]) + [Write(data[k].name, stored.value)]
              else FirstError(l, data) == Some(stored.error) && Writes(l, data) == Writes(l, data[..k])
    decreases k
  {
    hide StoredRow;
    if k == 0 {
      assert data[..1] == [data[0]];
    } else {
      assert data[..k][0] == data[0] && data[..k][1..] == data[1..][..k - 1];
      assert data[..k + 1][0] == data[0] && data[..k + 1][1..] == data[1..][..k];
      OneMoreEntry(l, data[1..], k - 1);
    }
  }

  function Put(f: FileState, index: nat, w: Write): FileState
    requires w.column in f.rows && index < |f.rows[w.column]|
  {
    f.(rows := f.rows[w.column := f.rows[w.column][index := w.row]])
  }

  predicate Writable(f: FileState, index: nat, writes: seq<Write>) {
    forall w | w in writes :: w.column in f.rows && index < |f.rows[w.column]|
  }

  function PutAll(f: FileState, index: nat, writes: seq<Write>): (g: FileState)
    requires Writable(f, index, writes)
    ensures g.rows.Keys == f.rows.Keys && forall c | c in f.rows :: |g.rows[c]| == |f.rows[c]|
    ensures g.stamps == f.stamps && g.snapshots == f.snapshots
    decreases |writes|
  {
    if writes == [] then f
    else Put(PutAll(f, index, writes[..|writes| - 1]), index, writes[|writes| - 1])
  }

  function Stamped(f: FileState, index: nat): FileState
    requires index < |f.stamps|
  {
    f.(stamps := f.stamps[index := true])
  }

  lemma {:induction false} WritesAreWritable(l: Layout, data: seq<Entry>, f: FileState, index: nat)
    requires Allocated(l, f) && index < l.points
    ensures Writable(f, index, Writes(l, data))
  {
    if data != [] {
      WritesAreWritable(l, data[1..], f, index);
    }
  }

  /** The contents of the file after each column write of a save. */
  function ColumnInstants(l: Layout, f: FileState, index: nat, data: seq<Entry>): seq<FileState>
    requires Allocated(l, f) && index < l.points
  {
    WritesAreWritable(l, data, f, index);
    var writes := Writes(l, data);
    seq(|writes|, k requires 0 <= k < |writes| => PutAll(f, index, writes[..k + 1]))
  }

  lemma NothingWrittenYet(l: Layout, f: FileState, index: nat)
    requires Allocated(l, f) && index < l.points
    ensures FirstError(l, []).None? && Writes(l, []) == [] && PutAll(f, index, []) == f && ColumnInstants(l, f, index, []) == []
  {
  }

  lemma SameInstants(l: Layout, f: FileState, index: nat, data: seq<Entry>, next: seq<Entry>)
    requires Allocated(l, f) && index < l.points && Writes(l, next) == Writes(l, data)
    ensures ColumnInstants(l, f, index, next) == ColumnInstants(l, f, index, data)
  {
  }

  /** A further write adds one instant: the write done on top of the ones before. */
  lemma OneMoreInstant(l: Layout, f: FileState, index: nat, data: seq<Entry>, next: seq<Entry>, w: Write)
    requires Allocated(l, f) && index < l.points && Writes(l, next) == Writes(l, data) + [w]
    ensures Writable(f, index, Writes(l, data)) && Writable(f, index, Writes(l, next)) && w.column in f.rows && index < |f.rows[w.column]|
    ensures PutAll(f, index, Writes(l, next)) == Put(PutAll(f, index, Writes(l, data)), index, w)
    ensures ColumnInstants(l, f, index, next) == ColumnInstants(l, f, index, data) + [PutAll(f, index, Writes(l, next))]
  {
    hide StoredRow, Writes, Put;
    WritesAreWritable(l, data, f, index);
    WritesAreWritable(l, next, f, index);
    var was, now := Writes(l, data), Writes(l, next);
    assert w in now && now[..|now| - 1] == was && now[..|now|] == now;
    InstantsOfPrefix(l, f, index, data, next);
    hide PutAll, Writable;
    var before, after := ColumnInstants(l, f, index, data), ColumnInstants(l, f, index, next);
    assert after == before + [after[|was|]];
  }

  lemma InstantsOfPrefix(l: Layout, f: FileState, index: nat, data: seq<Entry>, next: seq<Entry>)
    requires Allocated(l, f) && index < l.points && Writes(l, data) <= Writes(l, next)
    ensures var before, after := ColumnInstants(l, f, index, data), ColumnInstants(l, f, index, next);
            |before| == |Writes(l, data)| <= |after| == |Writes(l, next)| && forall k | 0 <= k < |before| :: after[k] == before[k]
  {
    hide StoredRow, Writes, PutAll;
    WritesAreWritable(l, data, f, index);
    WritesAreWritable(l, next, f, index);
    var was, now := Writes(l, data), Writes(l, next);
    forall k | 0 <= k < |was| ensures ColumnInstants(l, f, index, next)[k] == ColumnInstants(l, f, index, data)[k] {
      assert now[..k + 1] == was[..k + 1];
    }
  }

  /** Every content the file has while one save runs, in order: one per column write, then the
      timestamp, then the snapshot. */
  function SaveInstants(l: Layout, f: FileState, index: nat, data: seq<Entry>, snapshot: Snapshot): seq<FileState>
    requires Allocated(l, f) && index < l.points
  {
    WritesAreWritable(l, data, f, index);
    var columns := ColumnInstants(l, f, index, data);
    if FirstError(l, data).Some? then columns
    else
      var stamped := Stamped(PutAll(f, index, Writes(l, data)), index);
      if snapshot.Serialisable? && index !in f.snapshots then
        columns + [stamped, stamped.(snapshots := stamped.snapshots[index := snapshot.json])]
      else columns + [stamped]
  }

  /** The content of the file once a save has returned or raised. */
  function AfterSave(l: Layout, f: FileState, index: nat, data: seq<Entry>, snapshot: Snapshot): (g: FileState)
    requires Allocated(l, f) && index < l.points
    ensures Allocated(l, g)
  {
    WritesAreWritable(l, data, f, index);
    var written := PutAll(f, index, Writes(l, data));
    if FirstError(l, data).Some? then written
    else if snapshot.Serialisable? && index !in f.snapshots then
      Stamped(written, index).(snapshots := f.snapshots[index := snapshot.json])
    else Stamped(written, index)
  }

  function SaveResult(l: Layout, f: FileState, index: int, data: seq<Entry>, snapshot: Snapshot): Result<(), SaveError> {
    match FirstError(l, data)
    case Some(e) => Err(e)
    case None =>
      if snapshot.Unserialisable? then Err(UnserialisableSnapshot)
      else if index in f.snapshots then Err(SnapshotExists)
      else Ok(())
  }

  /** Such a save: one reading, or one row of readings, where a block of two rows is declared. */
  lemma AFlatBlockLacksAnAxis(snapshot: Snapshot)
    ensures var l := Layout(map["raw" := BlockGrid(2, 3)], 1, 1, 1);
            var one := Leaf(Whole(5));
            ValidLayout(l) &&
            SaveResult(l, Blank(l), 0, [Entry("raw", one)], snapshot) == Err(BadAxis) &&
            SaveResult(l, Blank(l), 0, [Entry("raw", List([one, one, one]))], snapshot) == Err(BadAxis)
  {
    var l := Layout(map["raw" := BlockGrid(2, 3)], 1, 1, 1);
    var one := Leaf(Whole(5));
    var row := List([one, one, one]);
    assert ArrayShape(one) == Some([]) && Numeric(one);
    assert Numeric(row) && ArrayShape(row) == Some([3] + []);
    MissingAxisIff(l, BlockGrid(2, 3), one);
    MissingAxisIff(l, BlockGrid(2, 3), row);
    hide StoredRow;
    assert FirstError(l, [Entry("raw", one)]) == Some(BadAxis);
    assert FirstError(l, [Entry("raw", row)]) == Some(BadAxis);
  }

  // ---- closing ----

  function Cut<T>(s: seq<T>, n: nat): seq<T> {
    if n <= |s| then s[..n] else s
  }

  function Trimmed(f: FileState, n: nat): FileState {
    FileState(map c | c in f.rows :: Cut(f.rows[c], n), Cut(f.stamps, n), f.snapshots)
  }

  /** What closing leaves: the file cut to the point after the last saved one, unless nothing was
      saved or nothing is left to cut. */
  function Closed(l: Layout, f: FileState, lastSaved: int): FileState {
    if 0 < lastSaved + 1 < l.points then Trimmed(f, lastSaved + 1) else f
  }

  /** Some datasets are cut to `n` points and the others are whole: the file while it is trimmed. */
  predicate PartlyTrimmed(f: FileState, n: nat, g: FileState) {
    g.rows.Keys == f.rows.Keys && g.snapshots == f.snapshots &&
    (forall c | c in f.rows :: g.rows[c] == f.rows[c] || g.rows[c] == Cut(f.rows[c], n)) &&
    (g.stamps == f.stamps || g.stamps == Cut(f.stamps, n))
  }

  /** Cut one dataset, the timestamps among them. */
  function TrimDataset(f: FileState, name: string, n: nat): FileState
    requires name in f.rows || name == TIMESTAMP
  {
    if name == TIMESTAMP then f.(stamps := Cut(f.stamps, n)) else f.(rows := f.rows[name := Cut(f.rows[name], n)])
  }

  /** Every dataset not named in `left` is cut, and those named are whole. */
  predicate TrimmedExcept(f: FileState, n: nat, left: set<string>, g: FileState) {
    g.rows.Keys == f.rows.Keys && g.snapshots == f.snapshots &&
    (forall c | c in f.rows :: g.rows[c] == if c in left then f.rows[c] else Cut(f.rows[c], n)) &&
    g.stamps == if TIMESTAMP in left then f.stamps else Cut(f.stamps, n)
  }

  lemma TrimOneMore(f: FileState, n: nat, left: set<string>, g: FileState, name: string)
    requires TrimmedExcept(f, n, left, g) && name in left && (name in f.rows || name == TIMESTAMP) && TIMESTAMP !in f.rows
    ensures TrimmedExcept(f, n, left - {name}, TrimDataset(g, name, n)) && PartlyTrimmed(f, n, TrimDataset(g, name, n))
  {
  }

  // ---- the objects ----

  /** The file on disk, with every content it has had. */
  class H5File {
    var content: FileState
    ghost var instants: seq<FileState>

    constructor (initial: FileState)
      ensures content == initial && instants == [initial]
    {
      content, instants := initial, [initial];
    }

    method Become(next: FileState)
      modifies this
      ensures content == next && instants == old(instants) + [next]
    {
      content := next;
      instants := instants + [next];
    }
  }

  class DataManager {
    const layout: Layout
    const file: H5File
    var lastSaved: int
    var closed: bool

    ghost predicate Valid()
      reads this, file
    {
      ValidLayout(layout) && -1 <= lastSaved < layout.points && (!closed ==> Allocated(layout, file.content))
    }

    constructor (layout: Layout)
      requires ValidLayout(layout)
      ensures Valid() && fresh(file) && this.layout == layout && !closed && lastSaved == -1
      ensures file.content == Blank(layout) && file.instants == [Blank(layout)]
    {
      this.layout := layout;
      this.file := new H5File(Blank(layout));
      lastSaved, closed := -1, false;
    }

    /** Save one point: its columns one by one, then its timestamp, then its snapshot. */
    method SaveDatapoint(index: int, data: seq<Entry>, snapshot: Snapshot) returns (r: Result<(), SaveError>)
      requires Valid()
      modifies this`lastSaved, file
      ensures Valid()
      ensures old(closed) ==> r == Err(ClosedFile)
      ensures !old(closed) && !(0 <= index < layout.points) ==> r == Err(IndexOutOfRange)
      ensures old(closed) || !(0 <= index < layout.points) ==>
                file.content == old(file.content) && file.instants == old(file.instants)
      ensures !old(closed) && 0 <= index < layout.points ==>
                file.content == AfterSave(layout, old(file.content), index, data, snapshot)
      ensures !old(closed) && 0 <= index < layout.points ==>
                r == SaveResult(layout, old(file.content), index, data, snapshot) &&
                file.instants == old(file.instants) + SaveInstants(layout, old(file.content), index, data, snapshot)
      ensures lastSaved == if r.Ok? then index else old(lastSaved)
    {
      if closed {
        return Err(ClosedFile);
      }
      if !(0 <= index < layout.points) {
        return Err(IndexOutOfRange);
      }
      WritesAreWritable(layout, data, file.content, index);
      r := SaveColumns(index, data);
      if r.Err? {
        return;
      }
      file.Become(Stamped(file.content, index));
      if snapshot.Unserialisable? {
        return Err(UnserialisableSnapshot);
      }
      if index in file.content.snapshots {
        return Err(SnapshotExists);
      }
      file.Become(file.content.(snapshots := file.content.snapshots[index := snapshot.json]));
      lastSaved := index;
      r := Ok(());
    }

    /** Write the columns one by one, stopping at the first value that cannot be stored. */
    method SaveColumns(index: nat, data: seq<Entry>) returns (r: Result<(), SaveError>)
      requires Allocated(layout, file.content) && index < layout.points
      modifies file
      ensures r == (match FirstError(layout, data) case None => Ok(()) case Some(e) => Err(e))
      ensures file.instants == old(file.instants) + ColumnInstants(layout, old(file.content), index, data)
      ensures Writable(old(file.content), index, Writes(layout, data)) &&
              file.content == PutAll(old(file.content), index, Writes(layout, data))
    {
      hide StoredRow, Writes, FirstError, ColumnInstants, PutAll;
      ghost var before := file.content;
      NothingWrittenYet(layout, before, index);
      assert data[..0] == [];
      for k := 0 to |data|
        invariant FirstError(layout, data[..k]).None? && Allocated(layout, file.content)
        invariant Writable(before, index, Writes(layout, data[..k])) &&
                  file.content == PutAll(before, index, Writes(layout, data[..k]))
        invariant file.instants == old(file.instants) + ColumnInstants(layout, before, index, data[..k])
      {
        var entry := data[k];
        OneMoreEntry(layout, data, k);
        if entry.name in layout.columns {
          var stored := StoredRow(layout, layout.columns[entry.name], entry.value);
          if stored.Err? {
            SameInstants(layout, before, index, data[..k], data);
            return Err(stored.error);
          }
          OneMoreInstant(layout, before, index, data[..k], data[..k + 1], Write(entry.name, stored.value));
          file.Become(Put(file.content, index, Write(entry.name, stored.value)));
        } else {
          SameInstants(layout, before, index, data[..k], data[..k + 1]);
        }
      }
      assert data[..|data|] == data;
      r := Ok(());
    }

    /** Close the file, trimming every dataset to the points saved. */
    method Close()
      requires Valid()
      modifies this`closed, file
      ensures Valid() && closed
      ensures old(closed) ==> file.content == old(file.content) && file.instants == old(file.instants)
      ensures !old(closed) ==>
                file.content == Closed(layout, old(file.content), lastSaved)
      ensures !old(closed) ==>
                old(file.instants) <= file.instants &&
                forall k | |old(file.instants)| <= k < |file.instants| ::
                  lastSaved >= 0 && PartlyTrimmed(old(file.content), lastSaved + 1, file.instants[k])
    {
      if closed {
        return;
      }
      closed := true;
      var actual := lastSaved + 1;
      if !(0 < actual < layout.points) {
        return;
      }
      ghost var before := file.content;
      var names := layout.columns.Keys + {TIMESTAMP};
      while names != {}
        invariant closed && names <= layout.columns.Keys + {TIMESTAMP}
        invariant TrimmedExcept(before, actual, names, file.content) && old(file.instants) <= file.instants
        invariant forall k | |old(file.instants)| <= k < |file.instants| :: PartlyTrimmed(before, actual, file.instants[k])
        decreases names
      {
        var name :| name in names;
        var next := TrimDataset(file.content, name, actual);
        TrimOneMore(before, actual, names, file.content, name);
        file.Become(next);
        names := names - {name};
      }
      assert file.content == Trimmed(before, actual);
    }
  }
}
