/** Reading a run file: the written prefix, and slices of a column that never leave it. */
module RunReader {
  import opened PyValues
  import opened NestedData
  import opened RunFile

  /** How many timestamps are set. */
  function CountStamps(stamps: seq<bool>): (n: nat)
    ensures n <= |stamps|
  {
    if stamps == [] then 0
    else CountStamps(stamps[..|stamps| - 1]) + if stamps[|stamps| - 1] then 1 else 0
  }

  /** Exactly the first `k` timestamps are set. */
  ghost predicate IsPrefix(stamps: seq<bool>, k: nat) {
    k <= |stamps| && forall i | 0 <= i < |stamps| :: stamps[i] <==> i < k
  }

  lemma {:induction false} PrefixCount(stamps: seq<bool>, k: nat)
    requires IsPrefix(stamps, k)
    ensures CountStamps(stamps) == k
  {
    if stamps != [] {
      var n := |stamps| - 1;
      PrefixCount(stamps[..n], if k <= n then k else n);
    }
  }

  // ---- slices ----

  /** One bound of a slice as a position: -1 is the last element, and what lies outside is clamped. */
  function Bound(bound: Option<int>, missing: nat, length: nat): (b: nat)
    requires missing <= length
    ensures b <= length
  {
    match bound
    case None => missing
    case Some(x) => if x < 0 then (if x + length < 0 then 0 else x + length) else if x < length then x else length
  }

  datatype Slice = Slice(first: nat, last: nat, stride: nat)

  datatype ReadError = NoSuchColumn | StepNotPositive

  function ResolveSlice(length: nat, start: Option<int>, stop: Option<int>, step: Option<int>): (r: Result<Slice, ReadError>)
    ensures r.Err? <==> step.Some? && step.value <= 0
    ensures r.Ok? ==> r.value.stride > 0 && r.value.first <= length && r.value.last <= length
  {
    if step.Some? && step.value <= 0 then Err(StepNotPositive)
    else Ok(Slice(Bound(start, 0, length), Bound(stop, length, length), if step.Some? then step.value else 1))
  }

  /** The elements a strided selection reads. */
  function Selected<T>(s: seq<T>, first: nat, last: nat, stride: nat): seq<T>
    requires stride > 0 && last <= |s|
    decreases |s| - first
  {
    if first >= last then [] else [s[first]] + Selected(s, first + stride, last, stride)
  }

  predicate IsMultiple(d: nat, step: nat)
    requires step > 0
  {
    d == 0 || (d >= step && IsMultiple(d - step, step))
  }

  predicate IsTimes(d: nat, m: nat, step: nat) {
    d == m * step
  }

  ghost predicate IsMultipleOf(d: nat, step: nat) {
    exists m: nat :: IsTimes(d, m, step)
  }

  lemma {:induction false} MultipleIsTimes(d: nat, step: nat)
    requires step > 0
    ensures IsMultiple(d, step) <==> IsMultipleOf(d, step)
  {
    if d == 0 {
      assert IsTimes(d, 0, step);
    } else if d >= step {
      MultipleIsTimes(d - step, step);
      if IsMultipleOf(d - step, step) {
        var less := d - step;
        var m: nat :| IsTimes(less, m, step);
        assert (m + 1) * step == m * step + step;
        assert IsTimes(d, m + 1, step);
      }
      if m: nat :| IsTimes(d, m, step) {
        assert m > 0 && (m - 1) * step == m * step - step;
        assert IsTimes(d - step, m - 1, step);
      }
    } else if m: nat :| IsTimes(d, m, step) {
      TimesReaches(m, step);
    }
  }

  lemma TimesReaches(m: nat, step: nat)
    ensures m == 0 || m * step >= step
  {
    if m > 0 {
      assert m * step == (m - 1) * step + step;
    }
  }

  // ---- Python's slice, said without resolving its bounds ----

  /** Not before the lower bound: x from the start, or counted back from the end when negative. */
  predicate NotBefore(length: nat, start: Option<int>, i: nat) {
    match start
    case None => true
    case Some(x) => if x >= 0 then i >= x else i >= length + x
  }

  predicate BeforeStop(length: nat, stop: Option<int>, i: nat) {
    match stop
    case None => true
    case Some(x) => if x >= 0 then i < x else i < length + x
  }

  predicate Between(length: nat, start: Option<int>, stop: Option<int>, i: nat) {
    i < length && NotBefore(length, start, i) && BeforeStop(length, stop, i)
  }

  /** The slice takes the first position between its bounds, and from there every step-th one. */
  ghost predicate InSlice(length: nat, start: Option<int>, stop: Option<int>, step: nat, i: nat)
    requires step > 0
  {
    Between(length, start, stop, i) &&
    exists f: nat :: IsFirstBetween(length, start, stop, f) && f <= i && IsMultipleOf(i - f, step)
  }

  ghost predicate IsFirstBetween(length: nat, start: Option<int>, stop: Option<int>, f: nat) {
    Between(length, start, stop, f) && forall e: nat | Between(length, start, stop, e) :: f <= e
  }

  lemma BoundsMean(length: nat, start: Option<int>, stop: Option<int>, i: nat)
    ensures Between(length, start, stop, i) <==> Bound(start, 0, length) <= i < Bound(stop, length, length)
  {
  }

  /** The resolved bounds and the stride take exactly those positions. */
  lemma InSliceByBounds(length: nat, start: Option<int>, stop: Option<int>, step: nat, i: nat)
    requires step > 0
    ensures InSlice(length, start, stop, step, i) <==>
            Bound(start, 0, length) <= i < Bound(stop, length, length) && IsMultiple(i - Bound(start, 0, length), step)
  {
    var lower := Bound(start, 0, length);
    BoundsMean(length, start, stop, i);
    if Between(length, start, stop, i) {
      forall e: nat ensures Between(length, start, stop, e) <==> lower <= e < Bound(stop, length, length) {
        BoundsMean(length, start, stop, e);
      }
      hide Bound, Between;
      assert IsFirstBetween(length, start, stop, lower);
      MultipleIsTimes(i - lower, step);
    }
  }

  /** Python's slice, position by position. */
  ghost function PythonSlice<T>(s: seq<T>, start: Option<int>, stop: Option<int>, step: nat, i: nat): seq<T>
    requires step > 0 && i <= |s|
    decreases |s| - i
  {
    if i == |s| then []
    else (if InSlice(|s|, start, stop, step, i) then [s[i]] else []) + PythonSlice(s, start, stop, step, i + 1)
  }

  /** `next` is the first position from `i` on that the slice may take. */
  predicate IsNext(lower: nat, step: nat, i: nat, next: nat)
    requires step > 0
  {
    i <= next && lower <= next && IsMultiple(next - lower, step) &&
    (i < next ==> i < lower || next < i + step) && (lower <= i || next == lower)
  }

  lemma NextAfter(lower: nat, step: nat, i: nat, next: nat)
    requires step > 0 && IsNext(lower, step, i, next)
    ensures IsNext(lower, step, i + 1, if i == next then next + step else next)
    ensures lower <= i && IsMultiple(i - lower, step) <==> i == next
  {
    if lower <= i < next {
      NotAMultiple(i - lower, next - lower, step);
    }
  }

  lemma SelectedOneMore<T>(s: seq<T>, next: nat, last: nat, step: nat)
    requires step > 0 && last <= |s|
    ensures Selected(s, next, last, step) == (if next < last then [s[next]] else []) + Selected(s, next + step, last, step)
  {
    if next >= last {
      assert Selected(s, next + step, last, step) == [];
    }
  }

  lemma PythonSliceOneMore<T>(s: seq<T>, start: Option<int>, stop: Option<int>, step: nat, i: nat)
    requires step > 0 && i < |s|
    ensures PythonSlice(s, start, stop, step, i) ==
            (if InSlice(|s|, start, stop, step, i) then [s[i]] else []) + PythonSlice(s, start, stop, step, i + 1)
  {
    hide InSlice;
  }

  lemma NothingPastTheEnd<T>(s: seq<T>, start: Option<int>, stop: Option<int>, step: nat, next: nat, last: nat)
    requires step > 0 && next >= |s| >= last
    ensures Selected(s, next, last, step) == [] == PythonSlice(s, start, stop, step, |s|)
  {
    hide InSlice;
  }

  lemma {:induction false} SelectedIsPythonSliceFrom<T>(s: seq<T>, start: Option<int>, stop: Option<int>, step: nat, i: nat, next: nat)
    requires step > 0 && i <= |s| && IsNext(Bound(start, 0, |s|), step, i, next)
    ensures Selected(s, next, Bound(stop, |s|, |s|), step) == PythonSlice(s, start, stop, step, i)
    decreases |s| - i
  {
    NextAfter(Bound(start, 0, |s|), step, i, next);
    assert next >= i;
    hide *;
    var upper := Bound(stop, |s|, |s|);
    if i == |s| {
      NothingPastTheEnd(s, start, stop, step, next, upper);
    } else {
      InSliceByBounds(|s|, start, stop, step, i);
      PythonSliceOneMore(s, start, stop, step, i);
      SelectedIsPythonSliceFrom(s, start, stop, step, i + 1, if i == next then next + step else next);
      if i == next {
        SelectedOneMore(s, next, upper, step);
      } else {
        assert [] + PythonSlice(s, start, stop, step, i + 1) == PythonSlice(s, start, stop, step, i + 1);
      }
    }
  }

  lemma {:induction false} NotAMultiple(d: nat, m: nat, step: nat)
    requires step > 0 && d < m < d + step && IsMultiple(m, step)
    ensures !IsMultiple(d, step)
  {
    if d >= step {
      NotAMultiple(d - step, m - step, step);
    }
  }

  /** The strided selection is Python's slice, for every bound and every positive step. */
  lemma SelectedIsPythonSlice<T>(s: seq<T>, start: Option<int>, stop: Option<int>, step: nat)
    requires step > 0
    ensures Selected(s, Bound(start, 0, |s|), Bound(stop, |s|, |s|), step) == PythonSlice(s, start, stop, step, 0)
  {
    assert IsNext(Bound(start, 0, |s|), step, 0, Bound(start, 0, |s|));
    SelectedIsPythonSliceFrom(s, start, stop, step, 0, Bound(start, 0, |s|));
  }

  /** Resolving the bounds a caller gives, for any length, selects what Python's slice selects. */
  lemma ResolvedIsPythonSlice<T>(s: seq<T>, start: Option<int>, stop: Option<int>, step: Option<int>)
    ensures match ResolveSlice(|s|, start, stop, step)
            case Err(_) => step.Some? && step.value <= 0
            case Ok(slice) =>
              (step.Some? ==> step.value > 0) &&
              Selected(s, slice.first, slice.last, slice.stride) ==
              PythonSlice(s, start, stop, if step.Some? then step.value else 1, 0)
  {
    if step.None? || step.value > 0 {
      SelectedIsPythonSlice(s, start, stop, if step.Some? then step.value else 1);
    }
  }

  // ---- reading a file ----

  /** What a slice of a column reads when `points` sweep points count as written. */
  function ReadSliceOf(f: FileState, points: nat, column: string, start: Option<int>, stop: Option<int>, step: Option<int>): Result<seq<Row>, ReadError> {
    if column !in f.rows then Err(NoSuchColumn)
    else
      var rows := f.rows[column];
      var length := if points < |rows| then points else |rows|;
      match ResolveSlice(length, start, stop, step)
      case Err(e) => Err(e)
      case Ok(slice) => Ok(Selected(rows, slice.first, slice.last, slice.stride))
  }

  lemma {:induction false} SelectedFromPrefix<T>(s: seq<T>, t: seq<T>, first: nat, last: nat, stride: nat)
    requires stride > 0 && last <= |s| && last <= |t| && forall i | 0 <= i < last :: s[i] == t[i]
    ensures Selected(s, first, last, stride) == Selected(t, first, last, stride)
    decreases if first < last then last - first else 0
  {
    if first < last {
      assert s[first] == t[first];
      SelectedFromPrefix(s, t, first + stride, last, stride);
    }
  }

  /** A read sees only the written prefix, and sees it as Python would slice it. */
  lemma ReadIsPythonSlice(f: FileState, points: nat, column: string, start: Option<int>, stop: Option<int>, step: Option<int>)
    requires column in f.rows && points <= |f.rows[column]| && (step.Some? ==> step.value > 0)
    ensures ReadSliceOf(f, points, column, start, stop, step) ==
            Ok(PythonSlice(f.rows[column][..points], start, stop, if step.Some? then step.value else 1, 0))
  {
    var written := f.rows[column][..points];
    var stride := if step.Some? then step.value else 1;
    SelectedIsPythonSlice(written, start, stop, stride);
    SelectedFromPrefix(f.rows[column], written, Bound(start, 0, points), Bound(stop, points, points), stride);
  }

  // ---- what the bounds of a read mean ----

  lemma {:induction false} SelectedWhole<T>(s: seq<T>, first: nat, last: nat)
    requires first <= last <= |s|
    ensures Selected(s, first, last, 1) == s[first..last]
    decreases last - first
  {
    if first < last {
      SelectedWhole(s, first + 1, last);
      assert s[first..last] == [s[first]] + s[first + 1..last];
    }
  }

  /** A negative start reads that many of the last counted points, a negative stop all but that many; a
      positive start leaves so many out and a positive stop reads so many. */
  lemma OneBoundReads(f: FileState, points: nat, column: string, n: int)
    requires column in f.rows && points <= |f.rows[column]| && 0 < n <= points
    ensures var rows := f.rows[column][..points];
            ReadSliceOf(f, points, column, Some(-n), None, None) == Ok(rows[points - n..]) &&
            ReadSliceOf(f, points, column, None, Some(-n), None) == Ok(rows[..points - n]) &&
            ReadSliceOf(f, points, column, Some(n), None, None) == Ok(rows[n..]) &&
            ReadSliceOf(f, points, column, None, Some(n), None) == Ok(rows[..n])
  {
    var all, rows := f.rows[column], f.rows[column][..points];
    SelectedWhole(all, points - n, points);
    SelectedWhole(all, 0, points - n);
    SelectedWhole(all, n, points);
    SelectedWhole(all, 0, n);
    assert rows[points - n..] == all[points - n..points] && rows[..points - n] == all[0..points - n];
    assert rows[n..] == all[n..points] && rows[..n] == all[0..n];
  }

  /** Bounds beyond either end reach no further than the end. */
  lemma BoundsBeyondTheEndsClamp(f: FileState, points: nat, column: string, n: int, start: Option<int>, stop: Option<int>, step: Option<int>)
    requires column in f.rows && points <= |f.rows[column]| && n >= points && n >= 0
    ensures n > 0 ==> ReadSliceOf(f, points, column, Some(-n), stop, step) == ReadSliceOf(f, points, column, None, stop, step)
    ensures ReadSliceOf(f, points, column, start, Some(n), step) == ReadSliceOf(f, points, column, start, None, step)
    ensures step.None? ==> ReadSliceOf(f, points, column, Some(n), stop, step) == Ok([])
    ensures step.None? && n > 0 ==> ReadSliceOf(f, points, column, start, Some(-n), step) == Ok([])
  {
  }

  /** A reader's handle: the file, and the count once there can be no more points. */
  class RunHandle {
    const file: H5File
    var completePoints: Option<nat>

    constructor (file: H5File)
      ensures this.file == file && completePoints == None
    {
      this.file := file;
      completePoints := None;
    }

    /** A remembered count is the count a fresh look would give. */
    ghost predicate Honest()
      reads this, file
    {
      completePoints.Some? ==> completePoints.value == CountStamps(file.content.stamps) == |file.content.stamps|
    }

    method NPoints() returns (n: nat)
      modifies this
      ensures n == if old(completePoints).Some? then old(completePoints).value else CountStamps(file.content.stamps)
      ensures completePoints == if old(completePoints).Some? || n < |file.content.stamps| then old(completePoints) else Some(n)
      ensures old(Honest()) ==> Honest() && n == CountStamps(file.content.stamps)
    {
      if completePoints.Some? {
        return completePoints.value;
      }
      var stamps := file.content.stamps;
      n := 0;
      for i := 0 to |stamps|
        invariant n == CountStamps(stamps[..i])
      {
        assert stamps[..i + 1][..i] == stamps[..i];
        if stamps[i] {
          n := n + 1;
        }
      }
      assert stamps[..|stamps|] == stamps;
      if n >= |stamps| {
        completePoints := Some(|stamps|);
      }
    }

    method ReadSlice(column: string, start: Option<int>, stop: Option<int>, step: Option<int>) returns (r: Result<seq<Row>, ReadError>)
      modifies this
      ensures old(Honest()) ==>
                Honest() && r == ReadSliceOf(file.content, CountStamps(file.content.stamps), column, start, stop, step)
    {
      if column !in file.content.rows {
        return Err(NoSuchColumn);
      }
      var rows := file.content.rows[column];
      var points := NPoints();
      var length := if points < |rows| then points else |rows|;
      match ResolveSlice(length, start, stop, step) {
        case Err(e) =>
          return Err(e);
        case Ok(slice) =>
          return Ok(Selected(rows, slice.first, slice.last, slice.stride));
      }
    }
  }
}
