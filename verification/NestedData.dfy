/** Nested measurement values: their leaves, their array shape, and row-major order. */
module NestedData {
  import opened PyValues

  /** A leaf as Python holds it. Text stands for any value that is not convertible to a float. */
  datatype Cell = Whole(i: int) | Real(r: real) | NotANumber | Flag(b: bool) | Text

  datatype Nested = Leaf(cell: Cell) | List(items: seq<Nested>)

  /** One stored float64: a number, or the NaN that fills what was never written. */
  datatype Sample = Missing | Num(r: real)

  function Product(shape: seq<nat>): nat {
    if shape == [] then 1 else shape[0] * Product(shape[1..])
  }

  /** The leaves of `value` when its nesting matches `shape`, one dimension at a time. */
  function ShapeLeaves(value: Nested, shape: seq<nat>): Option<seq<Nested>>
    decreases |shape|, 0
  {
    if shape == [] then Some([value])
    else if value.Leaf? || |value.items| != shape[0] then None
    else ItemLeaves(value.items, shape[1..])
  }

  function ItemLeaves(items: seq<Nested>, shape: seq<nat>): Option<seq<Nested>>
    decreases |shape|, |items|
  {
    if items == [] then Some([])
    else
      match (ShapeLeaves(items[0], shape), ItemLeaves(items[1..], shape))
      case (Some(first), Some(rest)) => Some(first + rest)
      case _ => None
  }

  // ---- matching a shape, stated through positions ----

  /** The element at a multi-index, outermost dimension first. */
  function At(value: Nested, index: seq<nat>): Option<Nested>
    decreases |index|
  {
    if index == [] then Some(value)
    else if value.Leaf? || index[0] >= |value.items| then None
    else At(value.items[index[0]], index[1..])
  }

  predicate Within(index: seq<nat>, shape: seq<nat>) {
    |index| <= |shape| && forall k | 0 <= k < |index| :: index[k] < shape[k]
  }

  /** At `index` there is a list as long as the next dimension. */
  predicate ListAt(value: Nested, shape: seq<nat>, index: seq<nat>)
    requires |index| < |shape|
  {
    var there := At(value, index);
    there.Some? && there.value.List? && |there.value.items| == shape[|index|]
  }

  /** Every position of every dimension but the last holds a list of the next dimension's length. */
  ghost predicate MatchesShape(value: Nested, shape: seq<nat>) {
    forall index: seq<nat> | |index| < |shape| && Within(index, shape) :: ListAt(value, shape, index)
  }

  lemma {:induction false} ItemsHaveLeaves(items: seq<Nested>, shape: seq<nat>)
    ensures ItemLeaves(items, shape).Some? <==> forall k | 0 <= k < |items| :: ShapeLeaves(items[k], shape).Some?
  {
    if items != [] {
      ItemsHaveLeaves(items[1..], shape);
      assert forall k | 0 <= k < |items[1..]| :: items[1..][k] == items[k + 1];
      assert forall k | 0 < k < |items| :: items[k] == items[1..][k - 1];
    }
  }

  lemma ItemMatches(value: Nested, shape: seq<nat>, k: nat)
    requires shape != [] && value.List? && |value.items| == shape[0] && k < |value.items|
    requires MatchesShape(value, shape)
    ensures MatchesShape(value.items[k], shape[1..])
  {
    forall index: seq<nat> | |index| < |shape[1..]| && Within(index, shape[1..])
      ensures ListAt(value.items[k], shape[1..], index)
    {
      var full := [k] + index;
      assert full[1..] == index;
      assert Within(full, shape);
      assert ListAt(value, shape, full);
    }
  }

  lemma ListOfMatching(value: Nested, shape: seq<nat>)
    requires shape != [] && value.List? && |value.items| == shape[0]
    requires forall k | 0 <= k < |value.items| :: MatchesShape(value.items[k], shape[1..])
    ensures MatchesShape(value, shape)
  {
    forall index: seq<nat> | |index| < |shape| && Within(index, shape)
      ensures ListAt(value, shape, index)
    {
      if index != [] {
        assert Within(index[1..], shape[1..]);
        assert ListAt(value.items[index[0]], shape[1..], index[1..]);
      }
    }
  }

  /** The leaves are found exactly when the nesting matches the shape. */
  lemma {:induction false} LeavesIffMatching(value: Nested, shape: seq<nat>)
    ensures ShapeLeaves(value, shape).Some? <==> MatchesShape(value, shape)
    decreases |shape|
  {
    if shape != [] {
      if MatchesShape(value, shape) {
        assert ListAt(value, shape, []);
      }
      if value.List? && |value.items| == shape[0] {
        ItemsHaveLeaves(value.items, shape[1..]);
        forall k: nat | k < |value.items|
          ensures ShapeLeaves(value.items[k], shape[1..]).Some? <==> MatchesShape(value.items[k], shape[1..])
          ensures MatchesShape(value, shape) ==> MatchesShape(value.items[k], shape[1..])
        {
          LeavesIffMatching(value.items[k], shape[1..]);
          if MatchesShape(value, shape) {
            ItemMatches(value, shape, k);
          }
        }
        if ShapeLeaves(value, shape).Some? {
          ListOfMatching(value, shape);
        }
      }
    }
  }

  // ---- how many leaves, and in which order ----

  lemma {:induction false} LeavesCount(value: Nested, shape: seq<nat>)
    requires ShapeLeaves(value, shape).Some?
    ensures |ShapeLeaves(value, shape).value| == Product(shape)
    decreases |shape|, 0
  {
    if shape != [] {
      ItemLeavesCount(value.items, shape[1..]);
    }
  }

  lemma {:induction false} ItemLeavesCount(items: seq<Nested>, shape: seq<nat>)
    requires ItemLeaves(items, shape).Some?
    ensures |ItemLeaves(items, shape).value| == |items| * Product(shape)
    decreases |shape|, |items|
  {
    if items != [] {
      LeavesCount(items[0], shape);
      ItemLeavesCount(items[1..], shape);
    }
  }

  /** The position of a full multi-index in row-major order. */
  function Offset(index: seq<nat>, shape: seq<nat>): nat
    requires |index| == |shape|
  {
    if index == [] then 0 else index[0] * Product(shape[1..]) + Offset(index[1..], shape[1..])
  }

  lemma {:induction false} ItemLeavesAt(items: seq<Nested>, shape: seq<nat>, k: nat, m: nat)
    requires ItemLeaves(items, shape).Some? && k < |items| && m < Product(shape)
    ensures ShapeLeaves(items[k], shape).Some? && |ShapeLeaves(items[k], shape).value| == Product(shape)
    ensures k * Product(shape) + m < |ItemLeaves(items, shape).value|
    ensures ItemLeaves(items, shape).value[k * Product(shape) + m] == ShapeLeaves(items[k], shape).value[m]
    decreases k
  {
    ItemLeavesCount(items, shape);
    LeavesCount(items[0], shape);
    if k > 0 {
      ItemLeavesAt(items[1..], shape, k - 1, m);
      assert items[1..][k - 1] == items[k];
      assert k * Product(shape) == Product(shape) + (k - 1) * Product(shape);
    }
  }

  /** The leaf at a multi-index stands at its row-major offset. */
  lemma {:induction false} LeavesAreRowMajor(value: Nested, shape: seq<nat>, index: seq<nat>)
    requires ShapeLeaves(value, shape).Some? && |index| == |shape| && Within(index, shape)
    ensures Offset(index, shape) < Product(shape) == |ShapeLeaves(value, shape).value|
    ensures At(value, index) == Some(ShapeLeaves(value, shape).value[Offset(index, shape)])
    decreases |shape|
  {
    LeavesCount(value, shape);
    if shape != [] {
      var k, rest := index[0], shape[1..];
      ItemsHaveLeaves(value.items, rest);
      LeavesAreRowMajor(value.items[k], rest, index[1..]);
      ItemLeavesAt(value.items, rest, k, Offset(index[1..], rest));
    }
  }

  // ---- the array numpy makes of a nested value ----

  function ToSample(cell: Cell): Sample
    requires !cell.Text?
  {
    match cell
    case Whole(i) => Num(i as real)
    case Real(r) => Num(r)
    case NotANumber => Missing
    case Flag(b) => Num(if b then 1.0 else 0.0)
  }

  predicate Numeric(value: Nested) {
    match value
    case Leaf(cell) => !cell.Text?
    case List(items) => forall k | 0 <= k < |items| :: Numeric(items[k])
  }

  /** The shape of a regular nesting; a ragged one has none. */
  function ArrayShape(value: Nested): Option<seq<nat>> {
    match value
    case Leaf(_) => Some([])
    case List(items) =>
      if items == [] then Some([0])
      else
        var inner := ArrayShape(items[0]);
        if inner.Some? && forall k | 0 <= k < |items| :: ArrayShape(items[k]) == inner then Some([|items|] + inner.value)
        else None
  }

  /** The samples of a nested value, row-major. */
  function Flat(value: Nested): seq<Sample>
    requires Numeric(value)
    decreases value
  {
    match value
    case Leaf(cell) => [ToSample(cell)]
    case List(items) => FlatItems(value, 0)
  }

  function FlatItems(value: Nested, k: nat): seq<Sample>
    requires value.List? && Numeric(value) && k <= |value.items|
    decreases value, |value.items| - k + 1
  {
    if k == |value.items| then []
    else Flat(value.items[k]) + FlatItems(value, k + 1)
  }

  predicate NumericLeaves(leaves: seq<Nested>) {
    forall k | 0 <= k < |leaves| :: leaves[k].Leaf? && !leaves[k].cell.Text?
  }

  function Samples(leaves: seq<Nested>): (samples: seq<Sample>)
    requires NumericLeaves(leaves)
  {
    seq(|leaves|, k requires 0 <= k < |leaves| => ToSample(leaves[k].cell))
  }

  predicate Positive(shape: seq<nat>) {
    forall k | 0 <= k < |shape| :: shape[k] > 0
  }

  /** A value whose leaves match the shape and are numbers makes an array of exactly that shape,
      holding exactly those leaves. */
  lemma {:induction false} MatchingValueIsTheArray(value: Nested, shape: seq<nat>)
    requires ShapeLeaves(value, shape).Some? && NumericLeaves(ShapeLeaves(value, shape).value) && Positive(shape)
    ensures Numeric(value) && ArrayShape(value) == Some(shape)
    ensures Flat(value) == Samples(ShapeLeaves(value, shape).value)
    decreases |shape|
  {
    if shape == [] {
      assert ShapeLeaves(value, shape).value[0] == value;
    } else {
      var items, rest := value.items, shape[1..];
      ItemsHaveLeaves(items, rest);
      forall k: nat | k < |items|
        ensures Numeric(items[k]) && ArrayShape(items[k]) == Some(rest)
        ensures NumericLeaves(ShapeLeaves(items[k], rest).value)
        ensures Flat(items[k]) == Samples(ShapeLeaves(items[k], rest).value)
      {
        ItemLeavesNumeric(items, rest, k);
        MatchingValueIsTheArray(items[k], rest);
      }
      assert value == List(items) && items != [];
      assert Numeric(value);
      assert ArrayShape(value) == Some([|items|] + rest);
      assert [|items|] + rest == shape;
      FlatItemsAreTheLeaves(value, rest, 0);
      assert items[0..] == items;
    }
  }

  lemma {:induction false} ItemLeavesNumeric(items: seq<Nested>, shape: seq<nat>, k: nat)
    requires ItemLeaves(items, shape).Some? && NumericLeaves(ItemLeaves(items, shape).value) && k < |items|
    ensures ShapeLeaves(items[k], shape).Some? && NumericLeaves(ShapeLeaves(items[k], shape).value)
    decreases k
  {
    var first, later := ShapeLeaves(items[0], shape).value, ItemLeaves(items[1..], shape).value;
    var all := ItemLeaves(items, shape).value;
    assert all == first + later;
    if k == 0 {
      assert forall j | 0 <= j < |first| :: first[j] == all[j];
    } else {
      assert forall j | 0 <= j < |later| :: later[j] == all[|first| + j];
      ItemLeavesNumeric(items[1..], shape, k - 1);
    }
  }

  lemma {:induction false} FlatItemsAreTheLeaves(value: Nested, shape: seq<nat>, k: nat)
    requires value.List? && Numeric(value) && k <= |value.items|
    requires forall j: nat | j < |value.items| ::
               ShapeLeaves(value.items[j], shape).Some? && NumericLeaves(ShapeLeaves(value.items[j], shape).value) &&
               Flat(value.items[j]) == Samples(ShapeLeaves(value.items[j], shape).value)
    ensures ItemLeaves(value.items[k..], shape).Some? && NumericLeaves(ItemLeaves(value.items[k..], shape).value)
    ensures FlatItems(value, k) == Samples(ItemLeaves(value.items[k..], shape).value)
    decreases |value.items| - k
  {
    if k < |value.items| {
      FlatItemsAreTheLeaves(value, shape, k + 1);
      var tail := value.items[k..];
      assert tail[0] == value.items[k] && tail[1..] == value.items[k + 1..];
    }
  }

  /** A numeric regular nesting has as many samples as its shape says. */
  lemma {:induction false} FlatLength(value: Nested)
    requires Numeric(value) && ArrayShape(value).Some?
    ensures |Flat(value)| == Product(ArrayShape(value).value)
  {
    match value
    case Leaf(_) =>
    case List(items) =>
      if items != [] {
        forall k | 0 <= k < |items|
          ensures |Flat(items[k])| == Product(ArrayShape(items[0]).value)
        {
          FlatLength(items[k]);
        }
        FlatItemsLength(value, 0, Product(ArrayShape(items[0]).value));
        var shape := ArrayShape(value).value;
        assert shape[1..] == ArrayShape(items[0]).value;
      }
  }

  lemma OneLess(n: nat, each: nat)
    requires n > 0
    ensures n * each == each + (n - 1) * each
  {
  }

  lemma {:induction false} FlatItemsLength(value: Nested, k: nat, each: nat)
    requires value.List? && Numeric(value) && k <= |value.items|
    requires forall j | 0 <= j < |value.items| :: |Flat(value.items[j])| == each
    ensures |FlatItems(value, k)| == (|value.items| - k) * each
    decreases |value.items| - k
  {
    if k < |value.items| {
      FlatItemsLength(value, k + 1, each);
      OneLess(|value.items| - k, each);
      hide Flat;
    }
  }
}
