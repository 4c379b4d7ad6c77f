/** What is on disk for a measured value, sample by sample, and which values are refused: said through
    positions in the value and in its cell, apart from how a row is made. */
module StoredValues {
  import opened PyValues
  import opened NestedData
  import opened RunFile

  /** The stored sample of one reading. A flag counts as 1 or 0. */
  ghost predicate IsReadingOf(sample: Sample, cell: Cell) {
    match cell
    case Whole(i) => sample == Num(i as real)
    case Real(r) => sample == Num(r)
    case NotANumber => sample == Missing
    case Flag(b) => sample == Num(if b then 1.0 else 0.0)
    case Text => false
  }

  ghost predicate NumberAt(value: Nested, index: seq<nat>) {
    var there := At(value, index);
    there.Some? && there.value.Leaf? && !there.value.cell.Text?
  }

  /** The value is a regular nesting of the shape with a number at every position. */
  ghost predicate IsNumericArray(value: Nested, shape: seq<nat>) {
    MatchesShape(value, shape) && forall index: seq<nat> | |index| == |shape| && Within(index, shape) :: NumberAt(value, index)
  }

  /** The sample stored where the value has, or has no, reading. */
  ghost predicate Shows(sample: Sample, value: Nested, index: seq<nat>) {
    NumberAt(value, index) && IsReadingOf(sample, At(value, index).value.cell)
  }

  // ---- arrays by position ----

  lemma ItemIsArray(value: Nested, shape: seq<nat>, k: nat)
    requires shape != [] && value.List? && |value.items| == shape[0] && k < |value.items| && IsNumericArray(value, shape)
    ensures IsNumericArray(value.items[k], shape[1..])
  {
    ItemMatches(value, shape, k);
    forall index: seq<nat> | |index| == |shape[1..]| && Within(index, shape[1..])
      ensures NumberAt(value.items[k], index)
    {
      var full := [k] + index;
      assert full[1..] == index && Within(full, shape);
      assert NumberAt(value, full);
    }
  }

  lemma ListOfArrays(value: Nested, shape: seq<nat>)
    requires shape != [] && value.List? && |value.items| == shape[0]
    requires forall k | 0 <= k < |value.items| :: IsNumericArray(value.items[k], shape[1..])
    ensures IsNumericArray(value, shape)
  {
    ListOfMatching(value, shape);
    forall index: seq<nat> | |index| == |shape| && Within(index, shape)
      ensures NumberAt(value, index)
    {
      assert Within(index[1..], shape[1..]);
      assert NumberAt(value.items[index[0]], index[1..]);
    }
  }

  lemma ArrayIsAList(value: Nested, shape: seq<nat>)
    requires shape != [] && IsNumericArray(value, shape)
    ensures value.List? && |value.items| == shape[0]
  {
    assert ListAt(value, shape, []);
  }

  lemma ScalarIsAnArray(value: Nested)
    ensures IsNumericArray(value, []) <==> value.Leaf? && !value.cell.Text?
  {
    assert NumberAt(value, []) <==> value.Leaf? && !value.cell.Text?;
  }

  /** Only the innermost axis may be empty: an empty list has no axes inside it. */
  predicate ProperShape(shape: seq<nat>) {
    forall k | 0 <= k < |shape| - 1 :: shape[k] > 0
  }

  /** The array numpy makes of a value has a shape exactly when the value is regular and numeric so. */
  lemma {:induction false} ArrayShapeIff(value: Nested, shape: seq<nat>)
    requires ProperShape(shape)
    ensures Numeric(value) && ArrayShape(value) == Some(shape) <==> IsNumericArray(value, shape)
    decreases |shape|
  {
    if shape == [] {
      ScalarIsAnArray(value);
    } else if value.Leaf? || |value.items| != shape[0] {
      NotThatLong(value, shape);
    } else {
      var items, rest := value.items, shape[1..];
      assert ProperShape(rest) && shape == [shape[0]] + rest;
      forall k: nat | k < |items|
        ensures Numeric(items[k]) && ArrayShape(items[k]) == Some(rest) <==> IsNumericArray(items[k], rest)
        ensures IsNumericArray(value, shape) ==> IsNumericArray(items[k], rest)
      {
        ArrayShapeIff(items[k], rest);
        if IsNumericArray(value, shape) {
          ItemIsArray(value, shape, k);
        }
      }
      hide IsNumericArray;
      if forall k | 0 <= k < |items| :: IsNumericArray(items[k], rest) {
        ListOfArrays(value, shape);
      }
      ShapeOfItems(items, rest);
    }
  }

  lemma NotThatLong(value: Nested, shape: seq<nat>)
    requires shape != [] && (value.Leaf? || |value.items| != shape[0])
    ensures !IsNumericArray(value, shape) && ArrayShape(value) != Some(shape)
  {
    if IsNumericArray(value, shape) {
      ArrayIsAList(value, shape);
    }
  }

  lemma ShapeOfItems(items: seq<Nested>, rest: seq<nat>)
    requires items == [] ==> rest == []
    ensures Numeric(List(items)) && ArrayShape(List(items)) == Some([|items|] + rest) <==>
            forall k | 0 <= k < |items| :: Numeric(items[k]) && ArrayShape(items[k]) == Some(rest)
  {
    var value := List(items);
    if items == [] {
      assert [|items|] + rest == [0];
    } else if ArrayShape(value).Some? {
      assert ArrayShape(value).value[1..] == ArrayShape(items[0]).value;
      assert ([|items|] + rest)[1..] == rest;
    }
  }

  lemma {:induction false} LeavesOfAnArray(value: Nested, shape: seq<nat>)
    requires IsNumericArray(value, shape)
    ensures ShapeLeaves(value, shape).Some? && NumericLeaves(ShapeLeaves(value, shape).value)
    decreases |shape|, 0
  {
    LeavesIffMatching(value, shape);
    if shape == [] {
      ScalarIsAnArray(value);
    } else {
      ArrayIsAList(value, shape);
      forall k | 0 <= k < |value.items| ensures IsNumericArray(value.items[k], shape[1..]) {
        ItemIsArray(value, shape, k);
      }
      hide IsNumericArray;
      LeavesOfArrays(value.items, shape[1..]);
    }
  }

  lemma {:induction false} LeavesOfArrays(items: seq<Nested>, shape: seq<nat>)
    requires forall k | 0 <= k < |items| :: IsNumericArray(items[k], shape)
    ensures ItemLeaves(items, shape).Some? && NumericLeaves(ItemLeaves(items, shape).value)
    decreases |shape|, |items| + 1
  {
    hide IsNumericArray;
    if items != [] {
      LeavesOfAnArray(items[0], shape);
      LeavesOfArrays(items[1..], shape);
    }
  }

  lemma WithinIsPositive(index: seq<nat>, shape: seq<nat>)
    requires |index| == |shape| && Within(index, shape)
    ensures Positive(shape)
  {
    forall k | 0 <= k < |shape| ensures shape[k] > 0 {
      assert index[k] < shape[k];
    }
  }

  /** Flattening puts the reading at a position at its row-major offset. */
  lemma FlatShows(value: Nested, shape: seq<nat>, index: seq<nat>)
    requires IsNumericArray(value, shape) && |index| == |shape| && Within(index, shape)
    ensures Numeric(value) && ArrayShape(value) == Some(shape) && Offset(index, shape) < |Flat(value)| == Product(shape)
    ensures Shows(Flat(value)[Offset(index, shape)], value, index)
  {
    WithinIsPositive(index, shape);
    LeavesOfAnArray(value, shape);
    MatchingValueIsTheArray(value, shape);
    LeavesAreRowMajor(value, shape, index);
    assert NumberAt(value, index);
    hide IsNumericArray, Flat, ArrayShape, Numeric, ShapeLeaves, Offset, Product;
  }

  // ---- offsets of a cell and of its groups ----

  lemma {:induction false} OffsetSplits(p: seq<nat>, prefix: seq<nat>, q: seq<nat>, inner: seq<nat>)
    requires |p| == |prefix| && |q| == |inner|
    ensures Offset(p + q, prefix + inner) == Offset(p, prefix) * Product(inner) + Offset(q, inner)
    decreases |p|
  {
    if p == [] {
      assert p + q == q && prefix + inner == inner;
    } else {
      assert (p + q)[1..] == p[1..] + q && (prefix + inner)[1..] == prefix[1..] + inner;
      OffsetSplits(p[1..], prefix[1..], q, inner);
      ProductOfBoth(prefix[1..], inner);
      OffsetArithmetic(p[0], Product(prefix[1..]), Product(inner), Offset(p[1..], prefix[1..]), Offset(q, inner));
    }
  }

  lemma OffsetArithmetic(first: nat, each: nat, inner: nat, rest: nat, last: nat)
    ensures first * (each * inner) + (rest * inner + last) == (first * each + rest) * inner + last
  {
    assert (first * each + rest) * inner == (first * each) * inner + rest * inner;
    assert first * (each * inner) == (first * each) * inner;
  }

  lemma ProductOfBoth(prefix: seq<nat>, inner: seq<nat>)
    ensures Product(prefix + inner) == Product(prefix) * Product(inner)
  {
    ProductSplit(prefix + inner, |prefix|);
    assert (prefix + inner)[..|prefix|] == prefix && (prefix + inner)[|prefix|..] == inner;
  }

  lemma {:induction false} OffsetFits(index: seq<nat>, shape: seq<nat>)
    requires |index| == |shape| && Within(index, shape)
    ensures Offset(index, shape) < Product(shape)
    decreases |index|
  {
    if index != [] {
      assert Within(index[1..], shape[1..]);
      OffsetFits(index[1..], shape[1..]);
      RoomFor(index[0], shape[0], Product(shape[1..]), Offset(index[1..], shape[1..]));
    }
  }

  lemma RoomFor(first: nat, many: nat, each: nat, rest: nat)
    requires first < many && rest < each
    ensures first * each + rest < many * each
  {
    assert many * each == first * each + (many - first) * each;
    assert (many - first) * each >= each by {
      assert (many - first) * each == each + (many - first - 1) * each;
    }
  }

  /** Where a position inside a group stands in the whole cell, and how large the cell is. */
  function CellAt(p: seq<nat>, prefix: seq<nat>, q: seq<nat>, inner: seq<nat>): nat
    requires |p| == |prefix| && |q| == |inner|
  {
    Offset(p, prefix) * Product(inner) + Offset(q, inner)
  }

  function CellSize(prefix: seq<nat>, inner: seq<nat>): nat {
    Product(prefix) * Product(inner)
  }

  lemma CellByGroups(p: seq<nat>, prefix: seq<nat>, q: seq<nat>, inner: seq<nat>)
    requires |p| == |prefix| && |q| == |inner|
    ensures CellAt(p, prefix, q, inner) == Start(Offset(p, prefix), Product(inner)) + Offset(q, inner)
    ensures CellSize(prefix, inner) == Start(Product(prefix), Product(inner))
  {
    StartIsProduct(Offset(p, prefix), Product(inner));
    StartIsProduct(Product(prefix), Product(inner));
  }

  /** A row cut or filled group by group on the first inner axis: every position both hold is kept where
      it belongs, and every position only the cell has is NaN. */
  lemma PaddedShows(value: Nested, p: seq<nat>, prefix: seq<nat>, q: seq<nat>, given: seq<nat>, declared: seq<nat>)
    requires IsNumericArray(value, prefix + given) && ProperShape(prefix + given) && |p| == |prefix| && Within(p, prefix)
    requires given != [] && |q| == |given| == |declared| && given[1..] == declared[1..] && Within(q, declared)
    ensures Numeric(value) && ArrayShape(value) == Some(prefix + given)
    ensures |Flat(value)| == Start(Product(prefix), Product(given))
    ensures var row := Padded(Flat(value), Product(prefix), Product(given), Product(declared));
            var at := CellAt(p, prefix, q, declared);
            |row| == CellSize(prefix, declared) && at < |row| && if q[0] < given[0] then Shows(row[at], value, p + q) else row[at] == Missing
  {
    hide *;
    SizeOfGroups(value, prefix, given);
    OffsetFits(p, prefix);
    OffsetFits(q, declared);
    var g, k, have, want := Offset(p, prefix), Offset(q, declared), Product(given), Product(declared);
    CellByGroups(p, prefix, q, declared);
    CellByGroups(p, prefix, q, given);
    FirstAxisDecides(q, given, declared);
    PaddedAt(Flat(value), Product(prefix), have, want, g, k);
    if q[0] < given[0] {
      WithinBoth(p, prefix, q, given, declared);
      CellIsOffset(p, prefix, q, given);
      FlatShows(value, prefix + given, p + q);
    }
  }

  lemma CellIsOffset(p: seq<nat>, prefix: seq<nat>, q: seq<nat>, inner: seq<nat>)
    requires |p| == |prefix| && |q| == |inner|
    ensures Offset(p + q, prefix + inner) == CellAt(p, prefix, q, inner)
  {
    OffsetSplits(p, prefix, q, inner);
  }

  lemma SizeOfGroups(value: Nested, prefix: seq<nat>, given: seq<nat>)
    requires IsNumericArray(value, prefix + given) && ProperShape(prefix + given)
    ensures Numeric(value) && ArrayShape(value) == Some(prefix + given)
    ensures |Flat(value)| == Start(Product(prefix), Product(given))
  {
    hide *;
    ArrayShapeIff(value, prefix + given);
    FlatLength(value);
    ProductOfBoth(prefix, given);
    StartIsProduct(Product(prefix), Product(given));
  }

  lemma WithinBoth(p: seq<nat>, prefix: seq<nat>, q: seq<nat>, given: seq<nat>, declared: seq<nat>)
    requires |p| == |prefix| && Within(p, prefix) && q != [] && |q| == |given| == |declared| && given[1..] == declared[1..]
    requires Within(q, declared) && q[0] < given[0]
    ensures |p + q| == |prefix + given| && Within(p + q, prefix + given)
  {
    var index, shape := p + q, prefix + given;
    forall k | 0 <= k < |index| ensures index[k] < shape[k] {
      if k > |p| {
        assert given[k - |p|] == given[1..][k - |p| - 1] == declared[1..][k - |p| - 1] == declared[k - |p|];
      }
    }
  }

  /** Where only the first inner axis differs, a position is among those given exactly when its first
      coordinate is. */
  lemma FirstAxisDecides(q: seq<nat>, given: seq<nat>, declared: seq<nat>)
    requires q != [] && |q| == |given| == |declared| && given[1..] == declared[1..] && Within(q, declared)
    ensures Offset(q, given) == Offset(q, declared) && (Offset(q, declared) < Product(given) <==> q[0] < given[0])
  {
    var each, rest := Product(declared[1..]), Offset(q[1..], declared[1..]);
    assert Within(q[1..], declared[1..]);
    OffsetFits(q[1..], declared[1..]);
    if q[0] < given[0] {
      RoomFor(q[0], given[0], each, rest);
    } else {
      AtLeast(given[0], q[0], each);
    }
  }

  lemma AtLeast(a: nat, b: nat, each: nat)
    requires a <= b
    ensures a * each <= b * each
  {
    assert b * each == a * each + (b - a) * each;
  }

  // ---- what is stored ----

  lemma OffsetOfTwo(i: nat, j: nat, rows: nat, width: nat)
    ensures Offset([i, j], [rows, width]) == i * width + j
    ensures Product([width]) == width && Product([rows, width]) == rows * width
    ensures Offset([j], [width]) == j
  {
    assert [i, j][1..] == [j] && [rows, width][1..] == [width] && [j][1..] == [] && [width][1..] == [];
    assert Product([]) == 1 && Offset([], []) == 0;
    assert Product([width]) == width * 1 == width;
    assert Offset([j], [width]) == j * 1 + 0 == j;
  }

  /** The value is stored in a row of so many samples, and the one at `at` is the reading at `index`
      where the value has it, and NaN where it has not. */
  ghost predicate StoresAt(l: Layout, c: Column, value: Nested, size: nat, at: nat, has: bool, index: seq<nat>) {
    var stored := StoredRow(l, c, value);
    stored.Ok? && |stored.value| == size && at < size &&
    if has then Shows(stored.value[at], value, index) else stored.value[at] == Missing
  }

  lemma PaddedColumnStores(l: Layout, c: Column, value: Nested, p: seq<nat>, prefix: seq<nat>,
                           q: seq<nat>, given: seq<nat>, declared: seq<nat>)
    requires IsPaddedColumn(l, c, prefix, given, declared) && IsNumericArray(value, prefix + given) && ProperShape(prefix + given)
    requires given != [] && |q| == |given| == |declared| && given[1..] == declared[1..]
    requires |p| == |prefix| && Within(p, prefix) && Within(q, declared)
    ensures StoresAt(l, c, value, CellSize(prefix, declared), CellAt(p, prefix, q, declared), q[0] < given[0], p + q)
  {
    hide *;
    StoredAsPadded(l, c, value, prefix, given, declared);
    PaddedShows(value, p, prefix, q, given, declared);
    var row := Padded(Flat(value), Product(prefix), Product(given), Product(declared));
    RowStoresAt(l, c, value, row, CellAt(p, prefix, q, declared), q[0] < given[0], p + q);
  }

  lemma RowStoresAt(l: Layout, c: Column, value: Nested, row: Row, at: nat, has: bool, index: seq<nat>)
    requires StoredRow(l, c, value) == Ok(row) && at < |row|
    requires if has then Shows(row[at], value, index) else row[at] == Missing
    ensures StoresAt(l, c, value, |row|, at, has, index)
  {
    hide StoredRow, Shows;
  }

  /** Where (i, j, k) stands in a row of samples. */
  function GridAt(l: Layout, i: nat, j: nat, each: nat, k: nat): nat {
    (i * l.loop2 + j) * each + k
  }

  function GridSize(l: Layout, each: nat): nat {
    l.loop1 * l.loop2 * each
  }

  lemma CellInGrid(l: Layout, i: nat, j: nat, q: seq<nat>, inner: seq<nat>)
    requires |q| == |inner|
    ensures CellSize([l.loop1, l.loop2], inner) == GridSize(l, Product(inner))
    ensures CellAt([i, j], [l.loop1, l.loop2], q, inner) == GridAt(l, i, j, Product(inner), Offset(q, inner))
  {
    OffsetOfTwo(i, j, l.loop1, l.loop2);
    hide Offset, Product;
  }

  lemma LoopShapes(l: Layout, i: nat, j: nat, q: seq<nat>, given: seq<nat>)
    requires i < l.loop1 && j < l.loop2 && (forall k | 0 <= k < |given| - 1 :: given[k] > 0)
    ensures Within([i, j], [l.loop1, l.loop2]) && ProperShape([l.loop1, l.loop2] + given)
  {
  }

  /** A grid of sample arrays: the reading at (i, j, k) is stored at (i, j, k) as far as the cell reaches,
      and where the instrument delivered fewer readings the rest of their place is NaN. */
  lemma SampleGridStores(l: Layout, length: nat, value: Nested, n: nat, i: nat, j: nat, k: nat)
    requires IsNumericArray(value, [l.loop1, l.loop2, n]) && i < l.loop1 && j < l.loop2 && k < length
    ensures StoresAt(l, SampleGrid(length), value, GridSize(l, length), GridAt(l, i, j, length, k), k < n, [i, j, k])
  {
    SampleGridIsPadded(l, length, n);
    hide *;
    var prefix: seq<nat> := [l.loop1, l.loop2];
    assert [l.loop1, l.loop2, n] == prefix + [n] && [i, j, k] == [i, j] + [k];
    assert [n][1..] == [] == [length][1..];
    LoopShapes(l, i, j, [k], [n]);
    OneAxis(k, length);
    CellInGrid(l, i, j, [k], [length]);
    PaddedColumnStores(l, SampleGrid(length), value, [i, j], prefix, [k], [n], [length]);
  }

  lemma OneAxis(k: nat, length: nat)
    ensures Product([length]) == length && Offset([k], [length]) == k && (k < length ==> Within([k], [length]))
  {
    OffsetOfTwo(0, k, 0, length);
  }

  lemma SampleGridIsPadded(l: Layout, length: nat, n: nat)
    ensures IsPaddedColumn(l, SampleGrid(length), [l.loop1, l.loop2], [n], [length])
  {
    assert [l.loop1, l.loop2] + [length] == [l.loop1, l.loop2, length];
  }

  lemma BlockIsPadded(l: Layout, height: nat, width: nat, rows: nat, prefix: seq<nat>)
    requires prefix == BlockPrefix(l)
    ensures IsPaddedColumn(l, BlockGrid(height, width), prefix, [rows, width], [height, width])
  {
    assert [rows, width][1..] == [width] == [height, width][1..];
  }

  lemma NoAxes(none: seq<nat>, q: seq<nat>, inner: seq<nat>)
    requires none == [] && |q| == |inner|
    ensures CellAt(none, none, q, inner) == Offset(q, inner) && CellSize(none, inner) == Product(inner)
  {
  }

  lemma TwoAxes(r: nat, col: nat, height: nat, width: nat)
    ensures Product([height, width]) == height * width && Offset([r, col], [height, width]) == r * width + col
    ensures r < height && col < width ==> Within([r, col], [height, width])
  {
    OffsetOfTwo(r, col, height, width);
  }

  /** A raw block without a reading loop, of any number of rows: row r is stored as row r as far as the
      cell has rows, and the rows that were not delivered are NaN. */
  lemma BlockStores(l: Layout, height: nat, width: nat, value: Nested, rows: nat, r: nat, col: nat)
    requires l.loop1 == 1 && l.loop2 == 1 && rows > 0 && IsNumericArray(value, [rows, width]) && r < height && col < width
    ensures StoresAt(l, BlockGrid(height, width), value, height * width, r * width + col, r < rows, [r, col])
  {
    var none: seq<nat> := [];
    BlockIsPadded(l, height, width, rows, none);
    NoAxes(none, [r, col], [height, width]);
    assert Within(none, none) && ProperShape([rows, width]);
    hide *;
    assert none + [rows, width] == [rows, width] && none + [r, col] == [r, col];
    assert [rows, width][1..] == [width] == [height, width][1..];
    TwoAxes(r, col, height, width);
    PaddedColumnStores(l, BlockGrid(height, width), value, none, none, [r, col], [rows, width], [height, width]);
  }

  /** A raw block inside a reading loop: the same at every point of the loop. */
  lemma LoopedBlockStores(l: Layout, height: nat, width: nat, value: Nested, rows: nat, i: nat, j: nat, r: nat, col: nat)
    requires !(l.loop1 == 1 && l.loop2 == 1) && rows > 0 && IsNumericArray(value, [l.loop1, l.loop2, rows, width])
    requires i < l.loop1 && j < l.loop2 && r < height && col < width
    ensures StoresAt(l, BlockGrid(height, width), value, GridSize(l, height * width),
                     GridAt(l, i, j, height * width, r * width + col), r < rows, [i, j, r, col])
  {
    var prefix: seq<nat> := [l.loop1, l.loop2];
    BlockIsPadded(l, height, width, rows, prefix);
    hide *;
    FourAxes(prefix, [rows, width]);
    FourAxes([i, j], [r, col]);
    LoopShapes(l, i, j, [r, col], [rows, width]);
    LoopedBlockPlaces(l, height, width, i, j, r, col);
    PaddedColumnStores(l, BlockGrid(height, width), value, [i, j], prefix, [r, col], [rows, width], [height, width]);
  }

  lemma FourAxes(a: seq<nat>, b: seq<nat>)
    requires |a| == 2 && |b| == 2
    ensures a + b == [a[0], a[1], b[0], b[1]] && b[1..] == [b[1]]
  {
  }

  lemma LoopedBlockPlaces(l: Layout, height: nat, width: nat, i: nat, j: nat, r: nat, col: nat)
    ensures CellSize([l.loop1, l.loop2], [height, width]) == GridSize(l, height * width)
    ensures CellAt([i, j], [l.loop1, l.loop2], [r, col], [height, width]) == GridAt(l, i, j, height * width, r * width + col)
    ensures r < height && col < width ==> Within([r, col], [height, width])
    ensures [height, width][1..] == [width]
  {
    hide *;
    TwoAxes(r, col, height, width);
    CellInGrid(l, i, j, [r, col], [height, width]);
  }

  /** A grid of single readings, which is never cut or filled. */
  lemma ScalarGridStores(l: Layout, dtype: Dtype, value: Nested, i: nat, j: nat)
    requires IsNumericArray(value, [l.loop1, l.loop2]) && i < l.loop1 && j < l.loop2
    ensures StoresAt(l, ScalarGrid(dtype), value, GridSize(l, 1), GridAt(l, i, j, 1, 0), true, [i, j])
  {
    assert Within([i, j], [l.loop1, l.loop2]);
    FlatShows(value, [l.loop1, l.loop2], [i, j]);
    ScalarGridIsFlat(l, dtype, value);
    OffsetOfTwo(i, j, l.loop1, l.loop2);
    OneEach(l, i, j);
    hide *;
    RowStoresAt(l, ScalarGrid(dtype), value, Flat(value), Offset([i, j], [l.loop1, l.loop2]), true, [i, j]);
  }

  lemma OneEach(l: Layout, i: nat, j: nat)
    ensures GridAt(l, i, j, 1, 0) == i * l.loop2 + j && GridSize(l, 1) == l.loop1 * l.loop2
  {
  }

  lemma ScalarGridIsFlat(l: Layout, dtype: Dtype, value: Nested)
    requires Numeric(value) && ArrayShape(value) == Some([l.loop1, l.loop2])
    ensures StoredRow(l, ScalarGrid(dtype), value) == Ok(Flat(value))
  {
    hide Flat, Numeric, ArrayShape, Product;
  }

  /** A sweep value is one reading. */
  lemma SweepStores(l: Layout, dtype: Dtype, value: Nested)
    requires value.Leaf? && !value.cell.Text?
    ensures var stored := StoredRow(l, SweepColumn(dtype), value);
            stored.Ok? && |stored.value| == 1 && IsReadingOf(stored.value[0], value.cell)
  {
  }

  predicate IsPaddedColumn(l: Layout, c: Column, prefix: seq<nat>, given: seq<nat>, declared: seq<nat>) {
    given != [] && |given| == |declared| && given[1..] == declared[1..] && CellShape(l, c) == prefix + declared &&
    ((c.SampleGrid? && prefix == [l.loop1, l.loop2] && |given| == 1) || (c.BlockGrid? && prefix == BlockPrefix(l) && |given| == 2))
  }

  lemma StoredAsPadded(l: Layout, c: Column, value: Nested, prefix: seq<nat>, given: seq<nat>, declared: seq<nat>)
    requires IsPaddedColumn(l, c, prefix, given, declared) && IsNumericArray(value, prefix + given) && ProperShape(prefix + given)
    ensures Numeric(value) && |Flat(value)| == Start(Product(prefix), Product(given))
    ensures StoredRow(l, c, value) == Ok(Padded(Flat(value), Product(prefix), Product(given), Product(declared)))
  {
    hide *;
    SizeOfGroups(value, prefix, given);
    if prefix + given == CellShape(l, c) {
      SameInner(l, c, prefix, given, declared);
      NothingToPad(Flat(value), Product(prefix), Product(given));
      ExactIsFlat(l, c, value);
    } else {
      DeclaredSizes(l, c, prefix, given, declared);
      OtherIsPadded(l, c, value, prefix, given, declared);
    }
  }

  lemma SameInner(l: Layout, c: Column, prefix: seq<nat>, given: seq<nat>, declared: seq<nat>)
    requires IsPaddedColumn(l, c, prefix, given, declared) && prefix + given == CellShape(l, c)
    ensures given == declared && !c.SweepColumn?
  {
    assert given == (prefix + given)[|prefix|..] == (prefix + declared)[|prefix|..] == declared;
  }

  lemma ExactIsFlat(l: Layout, c: Column, value: Nested)
    requires !c.SweepColumn? && Numeric(value) && ArrayShape(value) == Some(CellShape(l, c))
    ensures StoredRow(l, c, value) == Ok(Flat(value))
  {
    hide Flat, Numeric, ArrayShape, Product, CellShape;
  }

  lemma OtherIsPadded(l: Layout, c: Column, value: Nested, prefix: seq<nat>, given: seq<nat>, declared: seq<nat>)
    requires IsPaddedColumn(l, c, prefix, given, declared) && Numeric(value) && ArrayShape(value) == Some(prefix + given)
    requires prefix + given != CellShape(l, c) && |Flat(value)| == Start(Product(prefix), Product(given))
    requires c.SampleGrid? ==> Product(declared) == c.length
    requires c.BlockGrid? ==> Product(declared) == c.height * c.width && given[1] == c.width
    ensures StoredRow(l, c, value) == Ok(Padded(Flat(value), Product(prefix), Product(given), Product(declared)))
  {
    var shape := prefix + given;
    assert shape[..|prefix|] == prefix && shape[|prefix|..] == given;
    if c.SampleGrid? {
      OtherSamplesArePadded(l, c, value, shape);
    } else {
      assert shape[|shape| - 1] == given[1];
      OtherRowsArePadded(l, c, value, shape);
    }
    hide *;
  }

  lemma OtherSamplesArePadded(l: Layout, c: Column, value: Nested, shape: seq<nat>)
    requires c.SampleGrid? && Numeric(value) && ArrayShape(value) == Some(shape) && shape != CellShape(l, c)
    requires |shape| == 3 && shape[..2] == [l.loop1, l.loop2] && |Flat(value)| == Start(Product(shape[..2]), Product(shape[2..]))
    ensures StoredRow(l, c, value) == Ok(Padded(Flat(value), Product(shape[..2]), Product(shape[2..]), c.length))
  {
    hide Flat, Numeric, ArrayShape, Product, Padded, Start, CellShape;
  }

  lemma OtherRowsArePadded(l: Layout, c: Column, value: Nested, shape: seq<nat>)
    requires c.BlockGrid? && Numeric(value) && ArrayShape(value) == Some(shape) && shape != CellShape(l, c)
    requires var n := |BlockPrefix(l)|;
             |shape| == n + 2 && shape[..n] == BlockPrefix(l) && shape[|shape| - 1] == c.width &&
             |Flat(value)| == Start(Product(BlockPrefix(l)), Product(shape[n..]))
    ensures var n := |BlockPrefix(l)|;
            StoredRow(l, c, value) == Ok(Padded(Flat(value), Product(BlockPrefix(l)), Product(shape[n..]), c.height * c.width))
  {
    hide Flat, Numeric, ArrayShape, Product, Padded, Start, CellShape, BlockPrefix;
  }

  lemma DeclaredSizes(l: Layout, c: Column, prefix: seq<nat>, given: seq<nat>, declared: seq<nat>)
    requires IsPaddedColumn(l, c, prefix, given, declared)
    ensures c.SampleGrid? ==> Product(declared) == c.length
    ensures c.BlockGrid? ==> Product(declared) == c.height * c.width && given[1] == c.width
  {
    CellTail(l, c);
    assert CellShape(l, c)[|prefix|..] == declared;
  }

  lemma {:induction false} NothingToPad(flat: seq<Sample>, groups: nat, each: nat)
    requires |flat| == Start(groups, each)
    ensures Padded(flat, groups, each, each) == flat
    decreases groups
  {
    if groups > 0 {
      NothingToPad(flat[each..], groups - 1, each);
      assert Fitted(flat, each, each) == flat[..each];
      assert flat == flat[..each] + flat[each..];
    }
  }

  // ---- what is refused ----

  /** A value is stored, and not refused, exactly when it is a number for a sweep column, and for the
      others a regular nesting of numbers whose every axis is the declared one, but for the number of
      samples of a grid of arrays, and the number of rows, at least one, of a block. */
  lemma StoredIff(l: Layout, c: Column, value: Nested)
    requires l.loop1 > 0 && l.loop2 > 0
    ensures StoredRow(l, c, value).Ok? <==>
            match c
            case SweepColumn(_) => value.Leaf? && !value.cell.Text?
            case ScalarGrid(_) => IsNumericArray(value, [l.loop1, l.loop2])
            case SampleGrid(_) => exists n: nat :: IsNumericArray(value, [l.loop1, l.loop2, n])
            case BlockGrid(_, width) =>
              exists rows: nat :: rows > 0 &&
                IsNumericArray(value, if l.loop1 == 1 && l.loop2 == 1 then [rows, width] else [l.loop1, l.loop2, rows, width])
  {
    match c
    case SweepColumn(_) =>
    case ScalarGrid(_) => ArrayShapeIff(value, [l.loop1, l.loop2]);
    case SampleGrid(_) => SampleGridStoredIff(l, c, value);
    case BlockGrid(_, _) => BlockStoredIff(l, c, value);
  }

  lemma SampleGridStoredIff(l: Layout, c: Column, value: Nested)
    requires l.loop1 > 0 && l.loop2 > 0 && c.SampleGrid?
    ensures StoredRow(l, c, value).Ok? <==> exists n: nat :: IsNumericArray(value, [l.loop1, l.loop2, n])
  {
    hide IsNumericArray;
    if n: nat :| IsNumericArray(value, [l.loop1, l.loop2, n]) {
      assert [l.loop1, l.loop2, n] == [l.loop1, l.loop2] + [n];
      SampleGridIsPadded(l, c.length, n);
      StoredAsPadded(l, c, value, [l.loop1, l.loop2], [n], [c.length]);
    }
    if StoredRow(l, c, value).Ok? {
      var shape := ArrayShape(value).value;
      assert |shape| == 3 && shape[..2] == [l.loop1, l.loop2];
      assert shape == shape[..2] + [shape[2]] == [l.loop1, l.loop2, shape[2]];
      ArrayShapeIff(value, shape);
    }
  }

  lemma BlockStoredIff(l: Layout, c: Column, value: Nested)
    requires l.loop1 > 0 && l.loop2 > 0 && c.BlockGrid?
    ensures StoredRow(l, c, value).Ok? <==>
            exists rows: nat :: rows > 0 &&
              IsNumericArray(value, if l.loop1 == 1 && l.loop2 == 1 then [rows, c.width] else [l.loop1, l.loop2, rows, c.width])
  {
    hide IsNumericArray;
    var prefix := BlockPrefix(l);
    forall rows: nat
      ensures prefix + [rows, c.width] == if l.loop1 == 1 && l.loop2 == 1 then [rows, c.width] else [l.loop1, l.loop2, rows, c.width]
    {
    }
    if rows: nat :| rows > 0 && IsNumericArray(value, prefix + [rows, c.width]) {
      BlockIsPadded(l, c.height, c.width, rows, prefix);
      StoredAsPadded(l, c, value, prefix, [rows, c.width], [c.height, c.width]);
    }
    if StoredRow(l, c, value).Ok? {
      var shape := ArrayShape(value).value;
      assert |shape| == |prefix| + 2 && shape[..|prefix|] == prefix && shape[|prefix| + 1] == c.width;
      assert shape == prefix + [shape[|prefix|], c.width];
      OnlyTheLastAxisIsEmpty(value);
      ArrayShapeIff(value, shape);
    }
  }

  lemma {:induction false} OnlyTheLastAxisIsEmpty(value: Nested)
    requires ArrayShape(value).Some?
    ensures ProperShape(ArrayShape(value).value)
    decreases value
  {
    if value.List? && value.items != [] {
      OnlyTheLastAxisIsEmpty(value.items[0]);
      var inner, shape := ArrayShape(value.items[0]).value, ArrayShape(value).value;
      assert shape == [|value.items|] + inner;
      forall k | 0 <= k < |shape| - 1 ensures shape[k] > 0 {
        assert k > 0 ==> shape[k] == inner[k - 1];
      }
    }
  }
}
