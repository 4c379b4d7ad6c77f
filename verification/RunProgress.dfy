/** Whole runs of the writer, and what a reader sees at every instant of them. */
module RunProgress {
  import opened PyValues
  import opened NestedData
  import opened RunFile
  import opened RunReader

  /** A datapoint is a mapping: no column is given twice. */
  type Datapoint = data: seq<Entry> | DistinctEntries(data) witness []

  /** One call of the save method; the writer's discipline is to save the point after the last
      saved one, and to try that point again when a save failed. */
  datatype Attempt = Attempt(data: Datapoint, snapshot: Snapshot)

  datatype Writer = Writer(file: FileState, lastSaved: int)

  /** One attempt in index order; beyond the allocation it is refused and changes nothing. */
  function Attempted(l: Layout, w: Writer, a: Attempt): (next: Writer)
    requires Allocated(l, w.file) && -1 <= w.lastSaved < l.points
    ensures Allocated(l, next.file) && -1 <= next.lastSaved < l.points
  {
    var index := w.lastSaved + 1;
    if index == l.points then w
    else
      Writer(AfterSave(l, w.file, index, a.data, a.snapshot),
             if SaveResult(l, w.file, index, a.data, a.snapshot).Ok? then index else w.lastSaved)
  }

  function WriterAfter(l: Layout, attempts: seq<Attempt>): (w: Writer)
    ensures Allocated(l, w.file) && -1 <= w.lastSaved < l.points
    decreases |attempts|
  {
    if attempts == [] then Writer(Blank(l), -1)
    else Attempted(l, WriterAfter(l, attempts[..|attempts| - 1]), attempts[|attempts| - 1])
  }

  // ---- the file as a function of what was saved ----

  type Rows = map<string, Row>

  /** What a run has achieved: the rows of every saved point, the rows failed attempts left at the
      next point, whether that point's timestamp is set all the same, and the snapshots. */
  datatype Progress = Progress(saved: seq<Rows>, leftover: Rows, orphanStamp: bool, snapshots: seq<string>)

  ghost predicate ValidProgress(l: Layout, p: Progress) {
    |p.saved| == |p.snapshots| <= l.points && (|p.saved| == l.points ==> p.leftover == map[] && !p.orphanStamp)
  }

  function RowIn(l: Layout, p: Progress, c: string, i: nat): Row
    requires c in l.columns
  {
    if i < |p.saved| && c in p.saved[i] then p.saved[i][c]
    else if i == |p.saved| && c in p.leftover then p.leftover[c]
    else BlankRow(l, l.columns[c])
  }

  function Render(l: Layout, p: Progress): (f: FileState)
    ensures Allocated(l, f)
  {
    FileState(
      map c | c in l.columns :: seq(l.points, i requires i >= 0 => RowIn(l, p, c, i)),
      seq(l.points, i => i < |p.saved| || (i == |p.saved| && p.orphanStamp)),
      map i: int | 0 <= i < |p.snapshots| :: p.snapshots[i])
  }

  function AsMap(writes: seq<Write>): Rows
    decreases |writes|
  {
    if writes == [] then map[]
    else
      var last := writes[|writes| - 1];
      AsMap(writes[..|writes| - 1])[last.column := last.row]
  }

  function Filled(p: Progress, writes: seq<Write>): Progress {
    p.(leftover := p.leftover + AsMap(writes))
  }

  /** The progress an attempt makes. */
  function Advance(l: Layout, p: Progress, a: Attempt): Progress {
    if |p.saved| == l.points then p
    else
      var filled := Filled(p, Writes(l, a.data));
      if FirstError(l, a.data).Some? then filled
      else
        match a.snapshot
        case Unserialisable => filled.(orphanStamp := true)
        case Serialisable(json) => Progress(p.saved + [filled.leftover], map[], false, p.snapshots + [json])
  }

  const Begin := Progress([], map[], false, [])

  function ProgressAfter(l: Layout, attempts: seq<Attempt>): Progress
    decreases |attempts|
  {
    if attempts == [] then Begin
    else Advance(l, ProgressAfter(l, attempts[..|attempts| - 1]), attempts[|attempts| - 1])
  }

  lemma PutRenders(l: Layout, p: Progress, w: Write)
    requires |p.saved| < l.points && w.column in l.columns
    ensures Put(Render(l, p), |p.saved|, w) == Render(l, p.(leftover := p.leftover[w.column := w.row]))
  {
    var q := p.(leftover := p.leftover[w.column := w.row]);
    var put, rendered := Put(Render(l, p), |p.saved|, w), Render(l, q);
    forall c | c in l.columns
      ensures put.rows[c] == rendered.rows[c]
    {
      assert forall i | 0 <= i < l.points :: put.rows[c][i] == rendered.rows[c][i];
    }
    assert put.rows == rendered.rows;
  }

  lemma FilledOneMore(p: Progress, writes: seq<Write>)
    requires writes != []
    ensures var init, last := writes[..|writes| - 1], writes[|writes| - 1];
            Filled(p, writes) == Filled(p, init).(leftover := Filled(p, init).leftover[last.column := last.row])
  {
    var init, last := writes[..|writes| - 1], writes[|writes| - 1];
    assert p.leftover + AsMap(writes) == (p.leftover + AsMap(init))[last.column := last.row];
  }

  lemma {:induction false} PutAllRenders(l: Layout, p: Progress, writes: seq<Write>)
    requires |p.saved| < l.points && Writable(Render(l, p), |p.saved|, writes)
    ensures PutAll(Render(l, p), |p.saved|, writes) == Render(l, Filled(p, writes))
    decreases |writes|
  {
    if writes == [] {
      assert p.leftover + AsMap([]) == p.leftover;
      assert Filled(p, []) == p;
    } else {
      var init, last := writes[..|writes| - 1], writes[|writes| - 1];
      assert forall w | w in init :: w in writes;
      PutAllRenders(l, p, init);
      FilledOneMore(p, writes);
      assert last in writes && last.column in l.columns && |Filled(p, init).saved| == |p.saved|;
      hide Render, Filled, AsMap;
      PutRenders(l, Filled(p, init), last);
    }
  }

  /** The progress the file shows at the k-th instant of an attempt. */
  function ProgressAt(l: Layout, p: Progress, a: Attempt, k: nat): Progress {
    var writes := Writes(l, a.data);
    if k < |writes| then Filled(p, writes[..k + 1])
    else if k == |writes| then Filled(p, writes).(orphanStamp := true)
    else Advance(l, p, a)
  }

  lemma StampRenders(l: Layout, p: Progress)
    requires |p.saved| < l.points
    ensures Stamped(Render(l, p), |p.saved|) == Render(l, p.(orphanStamp := true))
  {
    var f, g := Render(l, p), Render(l, p.(orphanStamp := true));
    forall c | c in l.columns
      ensures f.rows[c] == g.rows[c]
    {
      assert forall i | 0 <= i < l.points :: f.rows[c][i] == g.rows[c][i];
    }
    assert f.rows == g.rows && Stamped(f, |p.saved|).stamps == g.stamps;
  }

  lemma SnapshotRenders(l: Layout, p: Progress, json: string)
    requires |p.saved| == |p.snapshots| < l.points && p.orphanStamp
    ensures var f := Render(l, p);
            f.(snapshots := f.snapshots[|p.saved| := json]) ==
            Render(l, Progress(p.saved + [p.leftover], map[], false, p.snapshots + [json]))
  {
    var f, q := Render(l, p), Progress(p.saved + [p.leftover], map[], false, p.snapshots + [json]);
    var g := Render(l, q);
    forall c | c in l.columns
      ensures f.rows[c] == g.rows[c]
    {
      assert forall i | 0 <= i < l.points :: f.rows[c][i] == g.rows[c][i];
    }
    assert f.rows == g.rows && f.stamps == g.stamps;
    assert f.snapshots[|p.saved| := json] == g.snapshots;
  }

  lemma NextSnapshotIsFree(l: Layout, p: Progress)
    requires |p.saved| == |p.snapshots|
    ensures |p.saved| !in Render(l, p).snapshots
  {
  }

  /** An attempt leaves the file rendering the progress it makes. */
  lemma AttemptEndRenders(l: Layout, p: Progress, a: Attempt)
    requires ValidProgress(l, p) && |p.saved| < l.points
    ensures AfterSave(l, Render(l, p), |p.saved|, a.data, a.snapshot) == Render(l, Advance(l, p, a))
    ensures SaveResult(l, Render(l, p), |p.saved|, a.data, a.snapshot).Ok? <==> |Advance(l, p, a).saved| == |p.saved| + 1
    ensures ValidProgress(l, Advance(l, p, a))
    ensures FirstError(l, a.data).None? ==>
              Writable(Render(l, p), |p.saved|, Writes(l, a.data)) &&
              Stamped(PutAll(Render(l, p), |p.saved|, Writes(l, a.data)), |p.saved|) ==
              Render(l, Filled(p, Writes(l, a.data)).(orphanStamp := true))
  {
    var f, index, writes := Render(l, p), |p.saved|, Writes(l, a.data);
    WritesAreWritable(l, a.data, f, index);
    NextSnapshotIsFree(l, p);
    PutAllRenders(l, p, writes);
    var filled := Filled(p, writes);
    StampRenders(l, filled);
    if a.snapshot.Serialisable? {
      SnapshotRenders(l, filled.(orphanStamp := true), a.snapshot.json);
    }
    hide Render, PutAll, Writes, FirstError, Stamped;
  }

  /** An attempt's file contents, instant by instant and at its end, are those of the progress it makes. */
  lemma AttemptRenders(l: Layout, p: Progress, a: Attempt)
    requires ValidProgress(l, p) && |p.saved| < l.points
    ensures var instants := SaveInstants(l, Render(l, p), |p.saved|, a.data, a.snapshot);
            forall k | 0 <= k < |instants| :: instants[k] == Render(l, ProgressAt(l, p, a, k))
    ensures AfterSave(l, Render(l, p), |p.saved|, a.data, a.snapshot) == Render(l, Advance(l, p, a))
    ensures SaveResult(l, Render(l, p), |p.saved|, a.data, a.snapshot).Ok? <==> |Advance(l, p, a).saved| == |p.saved| + 1
    ensures ValidProgress(l, Advance(l, p, a))
  {
    AttemptEndRenders(l, p, a);
    var instants := SaveInstants(l, Render(l, p), |p.saved|, a.data, a.snapshot);
    forall k | 0 <= k < |instants| ensures instants[k] == Render(l, ProgressAt(l, p, a, k)) {
      InstantRenders(l, p, a, k);
    }
    hide *;
  }

  /** The instants of a save: each column's, then the stamped file, then the one with its snapshot. */
  lemma InstantAt(l: Layout, f: FileState, index: nat, a: Attempt, k: nat)
    requires Allocated(l, f) && index < l.points && k < |SaveInstants(l, f, index, a.data, a.snapshot)|
    ensures var instant, writes := SaveInstants(l, f, index, a.data, a.snapshot)[k], Writes(l, a.data);
            if k < |writes| then Writable(f, index, writes[..k + 1]) && instant == PutAll(f, index, writes[..k + 1])
            else if k == |writes| then
              FirstError(l, a.data).None? && Writable(f, index, writes) && instant == Stamped(PutAll(f, index, writes), index)
            else instant == AfterSave(l, f, index, a.data, a.snapshot)
  {
    WritesAreWritable(l, a.data, f, index);
    hide PutAll, Writes, FirstError;
    var columns := ColumnInstants(l, f, index, a.data);
    assert k < |columns| ==> SaveInstants(l, f, index, a.data, a.snapshot)[k] == columns[k];
  }

  lemma InstantRenders(l: Layout, p: Progress, a: Attempt, k: nat)
    requires ValidProgress(l, p) && |p.saved| < l.points
    requires k < |SaveInstants(l, Render(l, p), |p.saved|, a.data, a.snapshot)|
    ensures SaveInstants(l, Render(l, p), |p.saved|, a.data, a.snapshot)[k] == Render(l, ProgressAt(l, p, a, k))
  {
    var writes := Writes(l, a.data);
    InstantAt(l, Render(l, p), |p.saved|, a, k);
    AttemptEndRenders(l, p, a);
    if k < |writes| {
      PutAllRenders(l, p, writes[..k + 1]);
    }
    hide Render, PutAll, Writes, FirstError, Stamped, Advance, Filled, SaveInstants, AfterSave, SaveResult, Writable, ValidProgress;
  }

  /** The writer's file after any run is the rendering of the run's progress, and the last saved
      index counts the saved points. */
  lemma {:induction false} RunRenders(l: Layout, attempts: seq<Attempt>)
    ensures ValidProgress(l, ProgressAfter(l, attempts))
    ensures WriterAfter(l, attempts).file == Render(l, ProgressAfter(l, attempts))
    ensures WriterAfter(l, attempts).lastSaved == |ProgressAfter(l, attempts).saved| - 1
    decreases |attempts|
  {
    if attempts == [] {
      BlankRenders(l);
    } else {
      var init := attempts[..|attempts| - 1];
      RunRenders(l, init);
      if |ProgressAfter(l, init).saved| < l.points {
        AttemptRenders(l, ProgressAfter(l, init), attempts[|attempts| - 1]);
        var p, q := ProgressAfter(l, init), ProgressAfter(l, attempts);
        assert |q.saved| == |p.saved| || |q.saved| == |p.saved| + 1;
      }
    }
  }

  lemma BlankRenders(l: Layout)
    ensures Render(l, Begin) == Blank(l)
  {
    var f, g := Render(l, Begin), Blank(l);
    forall c | c in l.columns
      ensures f.rows[c] == g.rows[c]
    {
      assert forall i | 0 <= i < l.points :: f.rows[c][i] == g.rows[c][i];
    }
    assert f.rows == g.rows && f.stamps == g.stamps;
    assert f.snapshots == g.snapshots;
  }

  // ---- the counted prefix is complete, at every instant ----

  /** The last attempt that got as far as its timestamp could not encode its snapshot: the next point
      is stamped although no save of it succeeded. */
  predicate Orphaned(l: Layout, attempts: seq<Attempt>)
    decreases |attempts|
  {
    attempts != [] &&
    var init, last := attempts[..|attempts| - 1], attempts[|attempts| - 1];
    if WriterAfter(l, init).lastSaved + 1 == l.points || FirstError(l, last.data).Some? then Orphaned(l, init)
    else last.snapshot.Unserialisable?
  }

  lemma {:induction false} OrphanedIsTheStamp(l: Layout, attempts: seq<Attempt>)
    ensures ProgressAfter(l, attempts).orphanStamp <==> Orphaned(l, attempts)
    decreases |attempts|
  {
    if attempts != [] {
      var init := attempts[..|attempts| - 1];
      OrphanedIsTheStamp(l, init);
      RunRenders(l, init);
      hide Render, Writes, FirstError, WriterAfter;
    }
  }

  /** The data of the attempts that saved their point, in order. */
  function SavedData(l: Layout, attempts: seq<Attempt>): seq<Datapoint>
    decreases |attempts|
  {
    if attempts == [] then []
    else
      var init, last := attempts[..|attempts| - 1], attempts[|attempts| - 1];
      var before := SavedData(l, init);
      if |ProgressAfter(l, attempts).saved| > |ProgressAfter(l, init).saved| then before + [last.data] else before
  }

  /** Every declared column of `data` is stored in row `i`. */
  ghost predicate StoredAt(l: Layout, f: FileState, data: seq<Entry>, i: nat) {
    forall e | e in data && e.name in l.columns ::
      var stored := StoredRow(l, l.columns[e.name], e.value);
      stored.Ok? && e.name in f.rows && i < |f.rows[e.name]| && f.rows[e.name][i] == stored.value
  }

  /** The saved rows hold what each save's data is stored as. */
  ghost predicate Keeps(l: Layout, rows: Rows, data: seq<Entry>) {
    forall e | e in data && e.name in l.columns ::
      var stored := StoredRow(l, l.columns[e.name], e.value);
      stored.Ok? && e.name in rows && rows[e.name] == stored.value
  }

  lemma {:induction false} WritesKeepTheData(l: Layout, data: seq<Entry>)
    requires DistinctEntries(data) && FirstError(l, data).None?
    ensures Keeps(l, AsMap(Writes(l, data)), data)
    ensures forall c | c in AsMap(Writes(l, data)) :: exists e :: e in data && e.name == c && c in l.columns
    decreases |data|
  {
    hide StoredRow;
    if data != [] {
      var n := |data| - 1;
      var init, last := data[..n], data[n];
      PrefixHasNoError(l, data, n);
      OneMoreEntry(l, data, n);
      assert data[..n + 1] == data;
      WritesKeepTheData(l, init);
      var before, after := Writes(l, init), Writes(l, data);
      if last.name in l.columns {
        assert after[..|after| - 1] == before;
        forall e | e in data && e.name in l.columns
          ensures var stored := StoredRow(l, l.columns[e.name], e.value);
                  stored.Ok? && e.name in AsMap(after) && AsMap(after)[e.name] == stored.value
        {
          var k :| 0 <= k < |data| && data[k] == e;
          if k < n {
            assert init[k] == e;
          }
        }
      }
      forall c | c in AsMap(after)
        ensures exists e :: e in data && e.name == c && c in l.columns
      {
        if c in AsMap(before) {
          var e :| e in init && e.name == c && c in l.columns;
          assert e in data;
        } else {
          assert last in data;
        }
      }
    }
  }

  lemma {:induction false} PrefixHasNoError(l: Layout, data: seq<Entry>, k: nat)
    requires k <= |data| && FirstError(l, data).None?
    ensures FirstError(l, data[..k]).None?
    decreases |data|
  {
    if data != [] && k > 0 {
      assert data[..k][0] == data[0] && data[..k][1..] == data[1..][..k - 1];
      PrefixHasNoError(l, data[1..], k - 1);
    }
  }

  /** A run's saved rows keep the data of the saves, point by point. */
  lemma {:induction false} SavesAreKept(l: Layout, attempts: seq<Attempt>)
    ensures var p := ProgressAfter(l, attempts); var saves := SavedData(l, attempts);
            |p.saved| == |saves| && forall i | 0 <= i < |saves| :: Keeps(l, p.saved[i], saves[i])
    decreases |attempts|
  {
    if attempts != [] {
      var init, last := attempts[..|attempts| - 1], attempts[|attempts| - 1];
      SavesAreKept(l, init);
      var p, q := ProgressAfter(l, init), ProgressAfter(l, attempts);
      assert q == Advance(l, p, last);
      if |q.saved| > |p.saved| {
        WritesKeepTheData(l, last.data);
        KeepsInUnion(l, p.leftover, AsMap(Writes(l, last.data)), last.data);
        assert q.saved[|p.saved|] == p.leftover + AsMap(Writes(l, last.data));
        assert forall i | 0 <= i < |p.saved| :: q.saved[i] == p.saved[i];
      }
    }
  }

  lemma KeepsInUnion(l: Layout, under: Rows, over: Rows, data: seq<Entry>)
    requires Keeps(l, over, data)
    ensures Keeps(l, under + over, data)
  {
    hide StoredRow;
  }

  /** A point whose rows keep its data is on disk in the rendered file. */
  lemma RowsAreStored(l: Layout, p: Progress, data: seq<Entry>, i: nat)
    requires i <= |p.saved| && i < l.points
    requires Keeps(l, if i < |p.saved| then p.saved[i] else p.leftover, data)
    ensures StoredAt(l, Render(l, p), data, i)
  {
    hide StoredRow;
    var f := Render(l, p);
    forall e | e in data && e.name in l.columns
      ensures f.rows[e.name][i] == RowIn(l, p, e.name, i)
    {
    }
  }

  /** What the file shows at an instant of an attempt of its own: the stamps, and whether the
      attempt's point is complete. */
  lemma InstantKeeps(l: Layout, p: Progress, saves: seq<Datapoint>, a: Attempt, k: nat)
    requires ValidProgress(l, p) && |p.saved| < l.points
    requires |saves| == |p.saved| && forall i | 0 <= i < |saves| :: Keeps(l, p.saved[i], saves[i])
    requires k < |SaveInstants(l, Render(l, p), |p.saved|, a.data, a.snapshot)|
    ensures var own := k >= |Writes(l, a.data)|;
            var f := Render(l, ProgressAt(l, p, a, k));
            IsPrefix(f.stamps, |saves| + if own || p.orphanStamp then 1 else 0) &&
            (forall i: nat | i < |saves| :: StoredAt(l, f, saves[i], i)) && (own ==> StoredAt(l, f, a.data, |saves|))
  {
    var q := ProgressAt(l, p, a, k);
    if k >= |Writes(l, a.data)| {
      InstantsPastTheColumns(l, Render(l, p), |p.saved|, a, k);
      WritesKeepTheData(l, a.data);
      KeepsInUnion(l, p.leftover, AsMap(Writes(l, a.data)), a.data);
    }
    hide Keeps, Writes, AsMap, SaveInstants, FirstError, DistinctEntries, StoredAt;
    forall i: nat | i < |saves| ensures StoredAt(l, Render(l, q), saves[i], i) {
      assert q.saved[i] == p.saved[i];
      RowsAreStored(l, q, saves[i], i);
    }
    if k >= |Writes(l, a.data)| {
      RowsAreStored(l, q, a.data, |saves|);
    }
  }

  /** Every content the file has while attempt `a` runs after the others. */
  function InstantsAfter(l: Layout, attempts: seq<Attempt>, a: Attempt): seq<FileState>
    requires WriterAfter(l, attempts).lastSaved + 1 < l.points
  {
    var w := WriterAfter(l, attempts);
    SaveInstants(l, w.file, w.lastSaved + 1, a.data, a.snapshot)
  }

  /** At every instant of every attempt of any run, the set timestamps are a prefix and the count is
      its length. Every save that succeeded has all its columns on disk, and so has the attempt
      itself once it is stamped; only a point counted by an orphaned stamp is rewritten under it. */
  lemma EveryInstantIsACompletePrefix(l: Layout, attempts: seq<Attempt>, a: Attempt, k: nat)
    requires WriterAfter(l, attempts).lastSaved + 1 < l.points && k < |InstantsAfter(l, attempts, a)|
    ensures var f, saves := InstantsAfter(l, attempts, a)[k], SavedData(l, attempts);
            var own := k >= |Writes(l, a.data)|;
            var counted := |saves| + if own || Orphaned(l, attempts) then 1 else 0;
            IsPrefix(f.stamps, counted) && CountStamps(f.stamps) == counted &&
            (forall i: nat | i < |saves| :: StoredAt(l, f, saves[i], i)) && (own ==> StoredAt(l, f, a.data, |saves|))
  {
    hide *;
    var p := ProgressAfter(l, attempts);
    InstantsRender(l, attempts, a, k);
    SavedAreKept(l, attempts);
    OrphanedIsTheStamp(l, attempts);
    InstantIsCounted(l, p, SavedData(l, attempts), a, k);
  }

  ghost predicate KeepsAll(l: Layout, p: Progress, saves: seq<Datapoint>) {
    |saves| == |p.saved| && forall i | 0 <= i < |saves| :: Keeps(l, p.saved[i], saves[i])
  }

  lemma SavedAreKept(l: Layout, attempts: seq<Attempt>)
    ensures KeepsAll(l, ProgressAfter(l, attempts), SavedData(l, attempts))
  {
    SavesAreKept(l, attempts);
    hide ProgressAfter, SavedData, Keeps;
  }

  lemma InstantIsCounted(l: Layout, p: Progress, saves: seq<Datapoint>, a: Attempt, k: nat)
    requires ValidProgress(l, p) && |p.saved| < l.points && KeepsAll(l, p, saves)
    requires k < |SaveInstants(l, Render(l, p), |p.saved|, a.data, a.snapshot)|
    ensures var f := Render(l, ProgressAt(l, p, a, k));
            var own := k >= |Writes(l, a.data)|;
            var counted := |saves| + if own || p.orphanStamp then 1 else 0;
            IsPrefix(f.stamps, counted) && CountStamps(f.stamps) == counted &&
            (forall i: nat | i < |saves| :: StoredAt(l, f, saves[i], i)) && (own ==> StoredAt(l, f, a.data, |saves|))
  {
    assert |saves| == |p.saved| && forall i | 0 <= i < |saves| :: Keeps(l, p.saved[i], saves[i]);
    hide *;
    InstantKeeps(l, p, saves, a, k);
    PrefixCount(Render(l, ProgressAt(l, p, a, k)).stamps, |saves| + if k >= |Writes(l, a.data)| || p.orphanStamp then 1 else 0);
  }

  lemma InstantsRender(l: Layout, attempts: seq<Attempt>, a: Attempt, k: nat)
    requires WriterAfter(l, attempts).lastSaved + 1 < l.points && k < |InstantsAfter(l, attempts, a)|
    ensures var p := ProgressAfter(l, attempts);
            ValidProgress(l, p) && |p.saved| < l.points &&
            k < |SaveInstants(l, Render(l, p), |p.saved|, a.data, a.snapshot)| &&
            InstantsAfter(l, attempts, a)[k] == Render(l, ProgressAt(l, p, a, k))
  {
    RunRenders(l, attempts);
    AttemptRenders(l, ProgressAfter(l, attempts), a);
    hide WriterAfter, ProgressAfter, Render, SaveInstants, ProgressAt, ValidProgress, Advance;
  }

  /** Past the columns a save has written every column, and past its stamp it has encoded its snapshot. */
  lemma InstantsPastTheColumns(l: Layout, f: FileState, index: nat, a: Attempt, k: nat)
    requires Allocated(l, f) && index < l.points
    requires |Writes(l, a.data)| <= k < |SaveInstants(l, f, index, a.data, a.snapshot)|
    ensures FirstError(l, a.data).None? && (k > |Writes(l, a.data)| ==> a.snapshot.Serialisable?)
  {
  }

  // ---- the count, while the run is open and after closing ----

  function Counted(p: Progress): nat {
    |p.saved| + if p.orphanStamp then 1 else 0
  }

  lemma CountOfProgress(l: Layout, p: Progress)
    requires ValidProgress(l, p)
    ensures CountStamps(Render(l, p).stamps) == Counted(p) <= l.points == |Render(l, p).stamps|
  {
    PrefixCount(Render(l, p).stamps, Counted(p));
  }

  /** After any run the count is the number of saved points exactly unless the run left an orphaned
      stamp: the timestamp is set before the snapshot is encoded. */
  lemma CountIsSavedIffNotOrphaned(l: Layout, attempts: seq<Attempt>)
    ensures var w := WriterAfter(l, attempts);
            CountStamps(w.file.stamps) == w.lastSaved + 1 <==> !Orphaned(l, attempts)
  {
    RunRenders(l, attempts);
    OrphanedIsTheStamp(l, attempts);
    CountOfProgress(l, ProgressAfter(l, attempts));
  }

  /** A retry that fails earlier, on a column, leaves the stamp of the attempt before it. */
  lemma AColumnErrorKeepsTheOrphan()
    ensures var l := Layout(map["x" := SweepColumn(FloatColumn)], 1, 1, 3);
            var attempts := [Attempt([], Unserialisable), Attempt([Entry("x", Leaf(Text))], Serialisable("s"))];
            var w := WriterAfter(l, attempts);
            w.lastSaved == -1 && CountStamps(w.file.stamps) == 1
  {
    var l := Layout(map["x" := SweepColumn(FloatColumn)], 1, 1, 3);
    var first: Attempt, last: Attempt := Attempt([], Unserialisable), Attempt([Entry("x", Leaf(Text))], Serialisable("s"));
    var attempts := [first, last];
    assert attempts[..1] == [first] && [first][..0] == [];
    assert WriterAfter(l, []).lastSaved == -1;
    assert FirstError(l, []).None?;
    assert SaveResult(l, WriterAfter(l, []).file, 0, first.data, first.snapshot).Err?;
    assert WriterAfter(l, [first]).lastSaved == -1;
    assert FirstError(l, last.data) == Some(BadValue);
    assert Orphaned(l, [first]) && Orphaned(l, attempts);
    RunRenders(l, attempts);
    OrphanedIsTheStamp(l, attempts);
    CountOfProgress(l, ProgressAfter(l, attempts));
  }

  /** The instants of an attempt never count fewer points than an earlier one did. */
  lemma CountGrowsThroughAnAttempt(l: Layout, p: Progress, a: Attempt, j: nat, k: nat)
    requires ValidProgress(l, p) && |p.saved| < l.points && j <= k < |SaveInstants(l, Render(l, p), |p.saved|, a.data, a.snapshot)|
    ensures ValidProgress(l, ProgressAt(l, p, a, k)) && ValidProgress(l, Advance(l, p, a))
    ensures Counted(p) <= Counted(ProgressAt(l, p, a, j)) <= Counted(ProgressAt(l, p, a, k)) <= Counted(Advance(l, p, a))
  {
    if j >= |Writes(l, a.data)| {
      InstantsPastTheColumns(l, Render(l, p), |p.saved|, a, j);
    }
    if k >= |Writes(l, a.data)| {
      InstantsPastTheColumns(l, Render(l, p), |p.saved|, a, k);
    }
    hide Writes, FirstError, SaveInstants, Render, AsMap;
  }

  lemma {:induction false} CountGrowsThroughARun(l: Layout, attempts: seq<Attempt>, more: seq<Attempt>)
    ensures Counted(ProgressAfter(l, attempts)) <= Counted(ProgressAfter(l, attempts + more))
    decreases |more|
  {
    if more == [] {
      assert attempts + more == attempts;
    } else {
      var init, last := more[..|more| - 1], more[|more| - 1];
      assert (attempts + more)[..|attempts + more| - 1] == attempts + init;
      CountGrowsThroughARun(l, attempts, init);
      RunRenders(l, attempts + init);
      AdvanceCountsOn(l, ProgressAfter(l, attempts + init), last);
    }
  }

  lemma AdvanceCountsOn(l: Layout, p: Progress, a: Attempt)
    requires ValidProgress(l, p)
    ensures Counted(p) <= Counted(Advance(l, p, a))
  {
  }

  /** What a reader remembers: every allocated point counted. */
  ghost predicate Full(l: Layout, f: FileState) {
    CountStamps(f.stamps) == |f.stamps| == l.points
  }

  lemma InstantCount(l: Layout, attempts: seq<Attempt>, a: Attempt, k: nat)
    requires WriterAfter(l, attempts).lastSaved + 1 < l.points && k < |InstantsAfter(l, attempts, a)|
    ensures Full(l, InstantsAfter(l, attempts, a)[k]) <==> Counted(ProgressAt(l, ProgressAfter(l, attempts), a, k)) == l.points
  {
    InstantsRender(l, attempts, a, k);
    hide WriterAfter, ProgressAfter, Render, SaveInstants, InstantsAfter, ProgressAt, Counted;
    CountGrowsThroughAnAttempt(l, ProgressAfter(l, attempts), a, k, k);
    CountOfProgress(l, ProgressAt(l, ProgressAfter(l, attempts), a, k));
  }

  lemma RunCount(l: Layout, attempts: seq<Attempt>)
    ensures Full(l, WriterAfter(l, attempts).file) <==> Counted(ProgressAfter(l, attempts)) == l.points
    ensures Counted(ProgressAfter(l, attempts)) <= l.points
  {
    RunRenders(l, attempts);
    CountOfProgress(l, ProgressAfter(l, attempts));
    hide WriterAfter, ProgressAfter, Render, Counted;
  }

  lemma ProgressOneMore(l: Layout, attempts: seq<Attempt>, a: Attempt)
    ensures ProgressAfter(l, attempts + [a]) == Advance(l, ProgressAfter(l, attempts), a)
  {
    assert (attempts + [a])[..|attempts + [a]| - 1] == attempts;
    hide Advance;
  }

  /** A count that reached the allocation at any instant of any attempt is right ever after: at the
      later instants, through every later attempt, and past the close exactly unless the run ends
      orphaned with something saved, where closing trims below it. */
  lemma FullCountStaysRight(l: Layout, attempts: seq<Attempt>, a: Attempt, k: nat, j: nat, more: seq<Attempt>)
    requires WriterAfter(l, attempts).lastSaved + 1 < l.points && k <= j < |InstantsAfter(l, attempts, a)|
    requires Full(l, InstantsAfter(l, attempts, a)[k])
    ensures Full(l, InstantsAfter(l, attempts, a)[j])
    ensures var v := WriterAfter(l, attempts + [a] + more);
            Full(l, v.file) &&
            (Full(l, Closed(l, v.file, v.lastSaved)) <==> !(Orphaned(l, attempts + [a] + more) && l.points > 1))
  {
    InstantsRender(l, attempts, a, j);
    InstantCount(l, attempts, a, k);
    InstantCount(l, attempts, a, j);
    CountGrowsThroughAnAttempt(l, ProgressAfter(l, attempts), a, k, j);
    ProgressOneMore(l, attempts, a);
    CountGrowsThroughARun(l, attempts + [a], more);
    RunCount(l, attempts + [a]);
    RunCount(l, attempts + [a] + more);
    hide *;
    InstantFits(l, attempts, a, j);
    CloseOfAFullRun(l, attempts + [a] + more);
  }

  lemma InstantFits(l: Layout, attempts: seq<Attempt>, a: Attempt, k: nat)
    requires WriterAfter(l, attempts).lastSaved + 1 < l.points && k < |InstantsAfter(l, attempts, a)|
    ensures Counted(ProgressAt(l, ProgressAfter(l, attempts), a, k)) <= l.points && l.points > 0
  {
    InstantsRender(l, attempts, a, k);
    CountGrowsThroughAnAttempt(l, ProgressAfter(l, attempts), a, k, k);
    hide ProgressAt, ProgressAfter, WriterAfter, InstantsAfter, SaveInstants, Render;
  }

  lemma CloseOfAFullRun(l: Layout, attempts: seq<Attempt>)
    requires l.points > 0 && Full(l, WriterAfter(l, attempts).file)
    ensures var w := WriterAfter(l, attempts);
            Full(l, Closed(l, w.file, w.lastSaved)) <==> !(Orphaned(l, attempts) && l.points > 1)
  {
    RunRenders(l, attempts);
    OrphanedIsTheStamp(l, attempts);
    CountOfProgress(l, ProgressAfter(l, attempts));
  }

  /** Closing leaves exactly the saved points counted, unless nothing was saved and a stamp is
      orphaned: then nothing is trimmed. */
  lemma CloseCountsTheSaved(l: Layout, attempts: seq<Attempt>)
    ensures var w := WriterAfter(l, attempts);
            CountStamps(Closed(l, w.file, w.lastSaved).stamps) == w.lastSaved + 1 <==>
            !(Orphaned(l, attempts) && w.lastSaved == -1)
  {
    var w, p := WriterAfter(l, attempts), ProgressAfter(l, attempts);
    RunRenders(l, attempts);
    OrphanedIsTheStamp(l, attempts);
    CountOfProgress(l, p);
    if 0 < |p.saved| < l.points {
      PrefixCount(Closed(l, w.file, w.lastSaved).stamps, |p.saved|);
    }
  }

  // ---- what is read, from the data alone ----

  /** The row a save's data puts into a column: none when it leaves the column out or fails before it. */
  function RowWritten(l: Layout, data: seq<Entry>, c: string): Option<Row> {
    if data == [] then None
    else if data[0].name !in l.columns then RowWritten(l, data[1..], c)
    else
      match StoredRow(l, l.columns[data[0].name], data[0].value)
      case Err(_) => None
      case Ok(row) => if data[0].name == c then Some(row) else RowWritten(l, data[1..], c)
  }

  /** The row of the latest attempt at point `i` that wrote the column, whether or not it succeeded. */
  function LatestRow(l: Layout, attempts: seq<Attempt>, c: string, i: nat): Option<Row>
    decreases |attempts|
  {
    if attempts == [] then None
    else
      var init, last := attempts[..|attempts| - 1], attempts[|attempts| - 1];
      var written := if WriterAfter(l, init).lastSaved + 1 == i < l.points then RowWritten(l, last.data, c) else None;
      if written.Some? then written else LatestRow(l, init, c, i)
  }

  /** The values a run leaves in one column of its saved points: each the row of the latest attempt that
      wrote it, and NaN where none did. */
  function SavedColumn(l: Layout, attempts: seq<Attempt>, c: string): (rows: seq<Row>)
    requires c in l.columns
    ensures |rows| == WriterAfter(l, attempts).lastSaved + 1
  {
    seq(WriterAfter(l, attempts).lastSaved + 1, i requires i >= 0 =>
      var latest := LatestRow(l, attempts, c, i);
      if latest.Some? then latest.value else BlankRow(l, l.columns[c]))
  }

  function RowOf(rows: Rows, c: string): Option<Row> {
    if c in rows then Some(rows[c]) else None
  }

  lemma {:induction false} AsMapFront(w: Write, writes: seq<Write>)
    ensures AsMap([w] + writes) == map[w.column := w.row] + AsMap(writes)
    decreases |writes|
  {
    var all := [w] + writes;
    if writes == [] {
      assert all == [w] && all[..0] == [];
      assert AsMap([]) == map[];
    } else {
      var n := |writes| - 1;
      assert all[..|all| - 1] == [w] + writes[..n] && all[|all| - 1] == writes[n];
      AsMapFront(w, writes[..n]);
    }
  }

  lemma {:induction false} WritesAreNamed(l: Layout, data: seq<Entry>, c: string)
    requires forall e | e in data :: e.name != c
    ensures c !in AsMap(Writes(l, data))
    decreases |data|
  {
    hide StoredRow;
    if data != [] {
      assert data[0] in data;
      WritesAreNamed(l, data[1..], c);
      if data[0].name in l.columns && StoredRow(l, l.columns[data[0].name], data[0].value).Ok? {
        AsMapFront(Write(data[0].name, StoredRow(l, l.columns[data[0].name], data[0].value).value), Writes(l, data[1..]));
      }
    }
  }

  lemma {:induction false} WrittenIsInTheMap(l: Layout, data: seq<Entry>, c: string)
    requires DistinctEntries(data)
    ensures RowOf(AsMap(Writes(l, data)), c) == RowWritten(l, data, c)
    decreases |data|
  {
    hide StoredRow;
    if data != [] {
      var rest := data[1..];
      assert DistinctEntries(rest);
      WrittenIsInTheMap(l, rest, c);
      if data[0].name in l.columns && StoredRow(l, l.columns[data[0].name], data[0].value).Ok? {
        AsMapFront(Write(data[0].name, StoredRow(l, l.columns[data[0].name], data[0].value).value), Writes(l, rest));
        if data[0].name == c {
          forall e | e in rest ensures e.name != c {
            var k :| 0 <= k < |rest| && rest[k] == e;
            assert data[k + 1] == e;
          }
          WritesAreNamed(l, rest, c);
        }
      }
    }
  }

  /** The row a run's progress keeps for a column of point `i`. */
  function RowKept(p: Progress, c: string, i: nat): Option<Row> {
    if i < |p.saved| then RowOf(p.saved[i], c) else if i == |p.saved| then RowOf(p.leftover, c) else None
  }

  lemma AdvanceKeepsRows(l: Layout, p: Progress, a: Attempt, c: string, i: nat)
    ensures RowKept(Advance(l, p, a), c, i) ==
            var written := if |p.saved| == i && |p.saved| != l.points then RowWritten(l, a.data, c) else None;
            if written.Some? then written else RowKept(p, c, i)
  {
    WrittenIsInTheMap(l, a.data, c);
    hide Writes, AsMap, FirstError, RowWritten;
  }

  lemma {:induction false} KeptIsLatest(l: Layout, attempts: seq<Attempt>, c: string, i: nat)
    ensures RowKept(ProgressAfter(l, attempts), c, i) == LatestRow(l, attempts, c, i)
    decreases |attempts|
  {
    if attempts != [] {
      var init, last := attempts[..|attempts| - 1], attempts[|attempts| - 1];
      KeptIsLatest(l, init, c, i);
      RunRenders(l, init);
      AdvanceKeepsRows(l, ProgressAfter(l, init), last, c, i);
      hide Advance, RowKept, RowWritten, Render, WriterAfter;
    }
  }

  /** The file, at rest after any run, holds in every row what the latest attempt put there. */
  lemma FileHoldsTheLatestRows(l: Layout, attempts: seq<Attempt>, c: string, i: nat)
    requires c in l.columns && i < l.points
    ensures var f, latest := WriterAfter(l, attempts).file, LatestRow(l, attempts, c, i);
            f.rows[c][i] == if latest.Some? then latest.value else BlankRow(l, l.columns[c])
  {
    RunRenders(l, attempts);
    KeptIsLatest(l, attempts, c, i);
    var p := ProgressAfter(l, attempts);
    assert RowIn(l, p, c, i) == if RowKept(p, c, i).Some? then RowKept(p, c, i).value else BlankRow(l, l.columns[c]);
    hide WriterAfter, ProgressAfter, LatestRow, RowKept, RowIn, BlankRow;
  }

  lemma SavedColumnIsKept(l: Layout, attempts: seq<Attempt>, c: string)
    requires c in l.columns
    ensures var p := ProgressAfter(l, attempts);
            SavedColumn(l, attempts, c) == seq(|p.saved|, i requires 0 <= i < |p.saved| => RowIn(l, p, c, i))
  {
    var p := ProgressAfter(l, attempts);
    RunRenders(l, attempts);
    var kept := seq(|p.saved|, i requires 0 <= i < |p.saved| => RowIn(l, p, c, i));
    hide WriterAfter, ProgressAfter, LatestRow, BlankRow, Render;
    forall i: nat | i < |p.saved| ensures SavedColumn(l, attempts, c)[i] == kept[i] {
      KeptIsLatest(l, attempts, c, i);
    }
  }

  /** In any run, failed attempts included, a saved column holds each save's own value of the column. */
  lemma SavesAreRead(l: Layout, attempts: seq<Attempt>, c: string, i: nat)
    requires c in l.columns && i < |SavedData(l, attempts)|
    ensures i < |SavedColumn(l, attempts, c)|
    ensures forall e | e in SavedData(l, attempts)[i] && e.name == c ::
              StoredRow(l, l.columns[c], e.value) == Ok(SavedColumn(l, attempts, c)[i])
  {
    SavedColumnIsKept(l, attempts, c);
    SavesAreKept(l, attempts);
    hide SavedColumn, StoredRow, SavedData, ProgressAfter, BlankRow;
  }

  lemma ClosedShowsTheSaved(l: Layout, p: Progress, c: string)
    requires ValidProgress(l, p) && !(p.orphanStamp && |p.saved| == 0) && c in l.columns
    ensures var f := Closed(l, Render(l, p), |p.saved| - 1);
            IsPrefix(f.stamps, |p.saved|) && c in f.rows && |f.rows[c]| == (if |p.saved| == 0 then l.points else |p.saved|) &&
            f.rows[c][..|p.saved|] == seq(|p.saved|, i requires 0 <= i < |p.saved| => RowIn(l, p, c, i))
  {
    hide RowIn;
  }

  /** After any run and its close, reading a column is slicing, as Python would, the values saved; with
      nothing saved it is empty although the table keeps its allocation. */
  lemma ReadingAClosedRun(l: Layout, attempts: seq<Attempt>, c: string, start: Option<int>, stop: Option<int>, step: Option<int>)
    requires !(Orphaned(l, attempts) && WriterAfter(l, attempts).lastSaved == -1)
    requires c in l.columns && (step.Some? ==> step.value > 0)
    ensures var w := WriterAfter(l, attempts);
            var f := Closed(l, w.file, w.lastSaved);
            var n := CountStamps(f.stamps);
            n == |SavedData(l, attempts)| && c in f.rows &&
            |f.rows[c]| == (if n == 0 then l.points else n) &&
            ReadSliceOf(f, n, c, start, stop, step) ==
            Ok(PythonSlice(SavedColumn(l, attempts, c), start, stop, if step.Some? then step.value else 1, 0))
  {
    var w, p := WriterAfter(l, attempts), ProgressAfter(l, attempts);
    var f := Closed(l, w.file, w.lastSaved);
    RunRenders(l, attempts);
    SavesAreKept(l, attempts);
    OrphanedIsTheStamp(l, attempts);
    ClosedShowsTheSaved(l, p, c);
    SavedColumnIsKept(l, attempts, c);
    hide *;
    PrefixCount(f.stamps, |p.saved|);
    ReadIsPythonSlice(f, |p.saved|, c, start, stop, step);
  }

  /** The save was a success: every column stored and the snapshot encoded. */
  predicate Succeeds(l: Layout, a: Attempt) {
    FirstError(l, a.data).None? && a.snapshot.Serialisable?
  }

  /** One more attempt: the point it tries, and what it adds to the saves. */
  lemma AttemptOneMore(l: Layout, attempts: seq<Attempt>, a: Attempt)
    ensures var w, v := WriterAfter(l, attempts), WriterAfter(l, attempts + [a]);
            (v.lastSaved == w.lastSaved || v.lastSaved == w.lastSaved + 1) &&
            (FirstError(l, a.data).Some? ==> v.lastSaved == w.lastSaved) &&
            (Succeeds(l, a) && w.lastSaved + 1 < l.points ==> v.lastSaved == w.lastSaved + 1) &&
            SavedData(l, attempts + [a]) == SavedData(l, attempts) + if v.lastSaved > w.lastSaved then [a.data] else []
  {
    ProgressOneMore(l, attempts, a);
    RunRenders(l, attempts);
    RunRenders(l, attempts + [a]);
    AdvanceByOutcome(l, ProgressAfter(l, attempts), a);
    assert (attempts + [a])[..|attempts + [a]| - 1] == attempts;
    hide ProgressAfter, WriterAfter, Advance, Render, ValidProgress, FirstError, Succeeds;
  }

  lemma AdvanceByOutcome(l: Layout, p: Progress, a: Attempt)
    ensures |Advance(l, p, a).saved| == |p.saved| + if |p.saved| != l.points && Succeeds(l, a) then 1 else 0
  {
  }

  lemma LatestOneMore(l: Layout, attempts: seq<Attempt>, a: Attempt, c: string, i: nat)
    ensures LatestRow(l, attempts + [a], c, i) ==
            var written := if WriterAfter(l, attempts).lastSaved + 1 == i < l.points then RowWritten(l, a.data, c) else None;
            if written.Some? then written else LatestRow(l, attempts, c, i)
  {
    assert (attempts + [a])[..|attempts + [a]| - 1] == attempts;
    hide WriterAfter, RowWritten;
  }

  lemma NothingAttempted(l: Layout, c: string, i: nat)
    ensures WriterAfter(l, []).lastSaved == -1 && SavedData(l, []) == [] && LatestRow(l, [], c, i) == None
  {
  }

  /** When every attempt succeeds, each saves its own point. */
  lemma {:induction false} CleanRunSavesAll(l: Layout, attempts: seq<Attempt>)
    requires |attempts| <= l.points && forall a | a in attempts :: Succeeds(l, a)
    ensures WriterAfter(l, attempts).lastSaved == |attempts| - 1 && |SavedData(l, attempts)| == |attempts|
    ensures forall i | 0 <= i < |attempts| :: SavedData(l, attempts)[i] == attempts[i].data
    decreases |attempts|
  {
    hide *;
    if attempts == [] {
      NothingAttempted(l, "", 0);
    } else {
      var init, last := attempts[..|attempts| - 1], attempts[|attempts| - 1];
      assert last in attempts && init + [last] == attempts;
      CleanRunSavesAll(l, init);
      AttemptOneMore(l, init, last);
    }
  }

  /** Each point of such a run has one attempt, so nothing else can have written its rows. */
  lemma {:induction false} LatestOfACleanRun(l: Layout, attempts: seq<Attempt>, c: string, i: nat)
    requires |attempts| <= l.points && forall a | a in attempts :: Succeeds(l, a)
    ensures LatestRow(l, attempts, c, i) == if i < |attempts| then RowWritten(l, attempts[i].data, c) else None
    decreases |attempts|
  {
    hide *;
    if attempts == [] {
      NothingAttempted(l, c, i);
    } else {
      var init, last := attempts[..|attempts| - 1], attempts[|attempts| - 1];
      assert init + [last] == attempts;
      CleanRunSavesAll(l, init);
      LatestOfACleanRun(l, init, c, i);
      LatestOneMore(l, init, last, c, i);
    }
  }

  lemma {:induction false} NothingWrittenWhereOmitted(l: Layout, data: seq<Entry>, c: string)
    requires forall e | e in data :: e.name != c
    ensures RowWritten(l, data, c) == None
    decreases |data|
  {
    hide StoredRow;
    if data != [] {
      assert data[0] in data;
      NothingWrittenWhereOmitted(l, data[1..], c);
    }
  }

  /** When every attempt of a run succeeds, a saved column holds each save's own stored value, and NaN
      where the save omitted the column. */
  lemma CleanRunsSaveWhatTheyAreGiven(l: Layout, attempts: seq<Attempt>, c: string, i: nat)
    requires i < |attempts| <= l.points && c in l.columns
    requires forall a | a in attempts :: Succeeds(l, a)
    ensures |SavedColumn(l, attempts, c)| == |attempts|
    ensures forall e | e in attempts[i].data && e.name == c ::
              StoredRow(l, l.columns[c], e.value) == Ok(SavedColumn(l, attempts, c)[i])
    ensures (forall e | e in attempts[i].data :: e.name != c) ==> SavedColumn(l, attempts, c)[i] == BlankRow(l, l.columns[c])
  {
    hide *;
    CleanRunSavesAll(l, attempts);
    SavesAreRead(l, attempts, c, i);
    LatestOfACleanRun(l, attempts, c, i);
    SavedColumnAt(l, attempts, c, i);
    if forall e | e in attempts[i].data :: e.name != c {
      NothingWrittenWhereOmitted(l, attempts[i].data, c);
    }
  }

  /** A save can leave a column out and yet be read with a value in it: the failed attempt before it
      wrote that. */
  lemma AFailedAttemptIsReadThrough()
    ensures var l := Layout(map["x" := SweepColumn(FloatColumn), "y" := SweepColumn(FloatColumn)], 1, 1, 1);
            var failed := Attempt([Entry("x", Leaf(Whole(5))), Entry("y", Leaf(Text))], Serialisable("s"));
            var retry := Attempt([Entry("y", Leaf(Whole(6)))], Serialisable("s"));
            SavedData(l, [failed, retry]) == [retry.data] && SavedColumn(l, [failed, retry], "x") == [[Num(5.0)]]
  {
    var l := Layout(map["x" := SweepColumn(FloatColumn), "y" := SweepColumn(FloatColumn)], 1, 1, 1);
    var failed: Attempt := Attempt([Entry("x", Leaf(Whole(5))), Entry("y", Leaf(Text))], Serialisable("s"));
    var retry: Attempt := Attempt([Entry("y", Leaf(Whole(6)))], Serialisable("s"));
    AttemptsOfTheWitness(l, failed, retry);
    hide *;
    RetriedOnce(l, failed, retry, "x");
    assert SavedColumn(l, [failed, retry], "x") == [SavedColumn(l, [failed, retry], "x")[0]];
  }

  /** A first attempt that fails on a column and a retry that succeeds. */
  lemma RetriedOnce(l: Layout, failed: Attempt, retry: Attempt, c: string)
    requires l.points > 0 && FirstError(l, failed.data).Some? && Succeeds(l, retry) && c in l.columns
    ensures var both := [failed, retry];
            SavedData(l, both) == [retry.data] && |SavedColumn(l, both, c)| == 1 &&
            SavedColumn(l, both, c)[0] ==
            if RowWritten(l, retry.data, c).Some? then RowWritten(l, retry.data, c).value
            else if RowWritten(l, failed.data, c).Some? then RowWritten(l, failed.data, c).value
            else BlankRow(l, l.columns[c])
  {
    hide *;
    assert [] + [failed] == [failed] && [failed] + [retry] == [failed, retry];
    NothingAttempted(l, c, 0);
    AttemptOneMore(l, [], failed);
    AttemptOneMore(l, [failed], retry);
    LatestOneMore(l, [], failed, c, 0);
    LatestOneMore(l, [failed], retry, c, 0);
    SavedColumnAt(l, [failed, retry], c, 0);
  }

  lemma SavedColumnAt(l: Layout, attempts: seq<Attempt>, c: string, i: nat)
    requires c in l.columns
    ensures |SavedColumn(l, attempts, c)| == WriterAfter(l, attempts).lastSaved + 1
    ensures var rows, latest := SavedColumn(l, attempts, c), LatestRow(l, attempts, c, i);
            i < |rows| ==> rows[i] == (if latest.Some? then latest.value else BlankRow(l, l.columns[c]))
  {
    hide WriterAfter, LatestRow, BlankRow;
  }

  lemma AttemptsOfTheWitness(l: Layout, failed: Attempt, retry: Attempt)
    requires l == Layout(map["x" := SweepColumn(FloatColumn), "y" := SweepColumn(FloatColumn)], 1, 1, 1)
    requires failed.data == [Entry("x", Leaf(Whole(5))), Entry("y", Leaf(Text))]
    requires retry.data == [Entry("y", Leaf(Whole(6)))]
    ensures FirstError(l, failed.data).Some? && RowWritten(l, failed.data, "x") == Some([Num(5.0)])
    ensures FirstError(l, retry.data).None? && RowWritten(l, retry.data, "x") == None
    ensures retry.snapshot.Serialisable? ==> Succeeds(l, retry)
  {
    assert failed.data[1..] == [Entry("y", Leaf(Text))];
    assert retry.data[1..] == [];
    assert RowWritten(l, [], "x") == None;
    assert FirstError(l, []).None?;
  }

  lemma TrimmingKeepsTheRead(f: FileState, n: nat, g: FileState, c: string, start: Option<int>, stop: Option<int>, step: Option<int>)
    requires IsPrefix(f.stamps, n) && PartlyTrimmed(f, n, g) && c in f.rows && n <= |f.rows[c]|
    ensures CountStamps(g.stamps) == n && ReadSliceOf(g, n, c, start, stop, step) == ReadSliceOf(f, n, c, start, stop, step)
  {
    PrefixCount(g.stamps, n);
    if step.None? || step.value > 0 {
      ReadIsPythonSlice(g, n, c, start, stop, step);
      ReadIsPythonSlice(f, n, c, start, stop, step);
      assert g.rows[c][..n] == f.rows[c][..n];
    }
  }

  /** While closing trims the datasets one by one, a reader counts the same points and reads the same
      slices as after the close, when no stamp is orphaned. */
  lemma ReadingWhileTrimming(l: Layout, attempts: seq<Attempt>, g: FileState, c: string, start: Option<int>, stop: Option<int>, step: Option<int>)
    requires !Orphaned(l, attempts) && c in l.columns
    requires var w := WriterAfter(l, attempts); w.lastSaved >= 0 && PartlyTrimmed(w.file, w.lastSaved + 1, g)
    ensures var w := WriterAfter(l, attempts); var f := Closed(l, w.file, w.lastSaved); var n := w.lastSaved + 1;
            CountStamps(g.stamps) == n == CountStamps(f.stamps) &&
            ReadSliceOf(g, n, c, start, stop, step) == ReadSliceOf(f, n, c, start, stop, step)
  {
    hide *;
    var w := WriterAfter(l, attempts);
    StampsOfTheSaved(l, attempts);
    ClosedIsTrimmed(l, w.file, w.lastSaved);
    TrimmingKeepsTheRead(w.file, w.lastSaved + 1, g, c, start, stop, step);
    TrimmingKeepsTheRead(w.file, w.lastSaved + 1, Closed(l, w.file, w.lastSaved), c, start, stop, step);
  }

  lemma StampsOfTheSaved(l: Layout, attempts: seq<Attempt>)
    requires !Orphaned(l, attempts)
    ensures var w := WriterAfter(l, attempts);
            IsPrefix(w.file.stamps, w.lastSaved + 1) && w.file.rows.Keys == l.columns.Keys &&
            forall c | c in w.file.rows :: w.lastSaved + 1 <= |w.file.rows[c]|
  {
    RunRenders(l, attempts);
    OrphanedIsTheStamp(l, attempts);
    hide WriterAfter, ProgressAfter, Orphaned;
  }

  lemma ClosedIsTrimmed(l: Layout, f: FileState, lastSaved: int)
    requires lastSaved >= 0
    ensures PartlyTrimmed(f, lastSaved + 1, Closed(l, f, lastSaved))
  {
  }

  // ---- counting first and reading later ----

  /** How many points are saved for good at an instant of attempt `a`: those saved before it, and its
      own once it is stamped, if it goes on to succeed. */
  function SavedForGood(l: Layout, attempts: seq<Attempt>, a: Attempt, j: nat): nat {
    |SavedData(l, if j >= |Writes(l, a.data)| then attempts + [a] else attempts)|
  }

  /** The two files have the same rows of a column below `n`. */
  ghost predicate AgreeBelow(f: FileState, g: FileState, c: string, n: nat) {
    c in f.rows && c in g.rows && n <= |f.rows[c]| && n <= |g.rows[c]| && f.rows[c][..n] == g.rows[c][..n]
  }

  lemma AgreeingFilesReadAlike(f: FileState, g: FileState, c: string, n: nat, start: Option<int>, stop: Option<int>, step: Option<int>)
    requires AgreeBelow(f, g, c, n)
    ensures ReadSliceOf(f, n, c, start, stop, step) == ReadSliceOf(g, n, c, start, stop, step)
  {
    if step.None? || step.value > 0 {
      ReadIsPythonSlice(f, n, c, start, stop, step);
      ReadIsPythonSlice(g, n, c, start, stop, step);
    }
  }

  /** The later progress kept the first `n` points' rows of the earlier one. */
  ghost predicate KeepsRows(l: Layout, p: Progress, q: Progress, c: string, n: nat)
    requires c in l.columns
  {
    n <= l.points && forall i: nat | i < n :: RowIn(l, p, c, i) == RowIn(l, q, c, i)
  }

  lemma KeptRowsAgree(l: Layout, p: Progress, q: Progress, c: string, n: nat)
    requires c in l.columns && KeepsRows(l, p, q, c, n)
    ensures AgreeBelow(Render(l, p), Render(l, q), c, n)
  {
    var f, g := Render(l, p), Render(l, q);
    hide RowIn;
    assert forall i: nat | i < n :: f.rows[c][i] == RowIn(l, p, c, i) == RowIn(l, q, c, i) == g.rows[c][i];
  }

  lemma {:induction false} SavedPointsStay(l: Layout, attempts: seq<Attempt>, more: seq<Attempt>)
    ensures ProgressAfter(l, attempts).saved <= ProgressAfter(l, attempts + more).saved
    decreases |more|
  {
    if more == [] {
      assert attempts + more == attempts;
    } else {
      var init, last := more[..|more| - 1], more[|more| - 1];
      assert (attempts + init) + [last] == attempts + more;
      SavedPointsStay(l, attempts, init);
      ProgressOneMore(l, attempts + init, last);
      AdvanceKeepsSaved(l, ProgressAfter(l, attempts + init), last);
      hide ProgressAfter, Advance;
    }
  }

  lemma AdvanceKeepsSaved(l: Layout, p: Progress, a: Attempt)
    ensures p.saved <= Advance(l, p, a).saved
  {
  }

  lemma InstantHasSaved(l: Layout, p: Progress, a: Attempt, k: nat, c: string)
    requires c in l.columns && |p.saved| < l.points
    ensures p.saved <= ProgressAt(l, p, a, k).saved
    ensures k >= |Writes(l, a.data)| && |Advance(l, p, a).saved| > |p.saved| ==>
              RowIn(l, ProgressAt(l, p, a, k), c, |p.saved|) == RowIn(l, Advance(l, p, a), c, |p.saved|)
  {
    hide Writes, AsMap, FirstError;
  }

  /** The rows of the points saved for good at an instant are those of every later progress. */
  lemma SavedForGoodStay(l: Layout, attempts: seq<Attempt>, a: Attempt, j: nat, q: Progress, c: string, n: nat)
    requires c in l.columns && |ProgressAfter(l, attempts).saved| < l.points && n <= SavedForGood(l, attempts, a, j)
    requires ProgressAfter(l, attempts + [a]).saved <= q.saved
    ensures KeepsRows(l, ProgressAt(l, ProgressAfter(l, attempts), a, j), q, c, n)
  {
    var p, next := ProgressAfter(l, attempts), ProgressAfter(l, attempts + [a]);
    hide *;
    var at := ProgressAt(l, p, a, j);
    SavedForGoodIs(l, attempts, a, j);
    ProgressOneMore(l, attempts, a);
    AdvanceKeepsSaved(l, p, a);
    AdvanceAddsOne(l, p, a);
    InstantHasSaved(l, p, a, j, c);
    forall i: nat | i < n ensures RowIn(l, at, c, i) == RowIn(l, q, c, i) {
      SavedRowsAgree(l, next, q, c, i);
      if i < |p.saved| {
        SavedRowsAgree(l, p, next, c, i);
        SavedRowsAgree(l, p, at, c, i);
      } else {
        assert i == |p.saved|;
      }
    }
    RowsAreKept(l, at, q, c, n);
  }

  lemma SavedForGoodIs(l: Layout, attempts: seq<Attempt>, a: Attempt, j: nat)
    ensures SavedForGood(l, attempts, a, j) ==
            |ProgressAfter(l, if j >= |Writes(l, a.data)| then attempts + [a] else attempts).saved|
  {
    SavesAreKept(l, attempts);
    SavesAreKept(l, attempts + [a]);
    hide ProgressAfter, SavedData, Writes, Keeps;
  }

  lemma SavedRowsAgree(l: Layout, p: Progress, q: Progress, c: string, i: nat)
    requires c in l.columns && p.saved <= q.saved
    ensures i < |p.saved| ==> RowIn(l, p, c, i) == RowIn(l, q, c, i)
  {
    hide BlankRow;
    assert i < |p.saved| ==> p.saved[i] == q.saved[i];
  }

  lemma RowsAreKept(l: Layout, p: Progress, q: Progress, c: string, n: nat)
    requires c in l.columns && n <= l.points && forall i: nat | i < n :: RowIn(l, p, c, i) == RowIn(l, q, c, i)
    ensures KeepsRows(l, p, q, c, n)
  {
  }

  lemma AdvanceAddsOne(l: Layout, p: Progress, a: Attempt)
    requires |p.saved| < l.points
    ensures |Advance(l, p, a).saved| <= |p.saved| + 1 <= l.points
  {
  }

  /** Counting at one instant and reading at another: a read of no more points than were saved for good
      when they were counted gives the same at that instant, at every later instant of that attempt, at
      every instant of every later one, at rest after any later run, and after the close. */
  lemma ReadingAfterCounting(l: Layout, attempts: seq<Attempt>, a: Attempt, j: nat, m: nat, more: seq<Attempt>, b: Attempt, k: nat, n: nat,
                             c: string, start: Option<int>, stop: Option<int>, step: Option<int>)
    requires WriterAfter(l, attempts).lastSaved + 1 < l.points && j <= m < |InstantsAfter(l, attempts, a)|
    requires c in l.columns && n <= SavedForGood(l, attempts, a, j)
    ensures var w := WriterAfter(l, attempts + [a] + more);
            var first := ReadSliceOf(InstantsAfter(l, attempts, a)[j], n, c, start, stop, step);
            ReadSliceOf(InstantsAfter(l, attempts, a)[m], n, c, start, stop, step) == first &&
            ReadSliceOf(w.file, n, c, start, stop, step) == first &&
            ReadSliceOf(Closed(l, w.file, w.lastSaved), n, c, start, stop, step) == first &&
            (w.lastSaved + 1 < l.points && k < |InstantsAfter(l, attempts + [a] + more, b)| ==>
               ReadSliceOf(InstantsAfter(l, attempts + [a] + more, b)[k], n, c, start, stop, step) == first)
  {
    var all := attempts + [a] + more;
    var q, w := ProgressAfter(l, all), WriterAfter(l, all);
    hide *;
    InstantsRender(l, attempts, a, j);
    InstantsRender(l, attempts, a, m);
    MoreSavedLater(l, attempts, a, j, m);
    SavedPointsStay(l, attempts + [a], more);
    ReadAlikeLater(l, attempts, a, m, q, n, c, start, stop, step);
    ReadAlikeLater(l, attempts, a, j, q, n, c, start, stop, step);
    RunRenders(l, all);
    SavedForGoodFit(l, attempts, a, j, more);
    ClosedReadsAlike(l, q, n, c, start, stop, step);
    if w.lastSaved + 1 < l.points && k < |InstantsAfter(l, all, b)| {
      InstantsRender(l, all, b, k);
      InstantHasSaved(l, q, b, k, c);
      ReadAlikeLater(l, attempts, a, j, ProgressAt(l, q, b, k), n, c, start, stop, step);
    }
  }

  lemma MoreSavedLater(l: Layout, attempts: seq<Attempt>, a: Attempt, j: nat, m: nat)
    requires j <= m
    ensures SavedForGood(l, attempts, a, j) <= SavedForGood(l, attempts, a, m)
  {
    SavedForGoodIs(l, attempts, a, j);
    SavedForGoodIs(l, attempts, a, m);
    ProgressOneMore(l, attempts, a);
    AdvanceKeepsSaved(l, ProgressAfter(l, attempts), a);
    hide ProgressAfter, SavedForGood, Advance, Writes;
  }

  lemma ReadAlikeLater(l: Layout, attempts: seq<Attempt>, a: Attempt, j: nat, q: Progress, n: nat,
                       c: string, start: Option<int>, stop: Option<int>, step: Option<int>)
    requires c in l.columns && |ProgressAfter(l, attempts).saved| < l.points && n <= SavedForGood(l, attempts, a, j)
    requires ProgressAfter(l, attempts + [a]).saved <= q.saved
    ensures ReadSliceOf(Render(l, q), n, c, start, stop, step) ==
            ReadSliceOf(Render(l, ProgressAt(l, ProgressAfter(l, attempts), a, j)), n, c, start, stop, step)
  {
    hide *;
    var p := ProgressAt(l, ProgressAfter(l, attempts), a, j);
    SavedForGoodStay(l, attempts, a, j, q, c, n);
    KeptRowsAgree(l, p, q, c, n);
    AgreeingFilesReadAlike(Render(l, p), Render(l, q), c, n, start, stop, step);
  }

  lemma SavedForGoodFit(l: Layout, attempts: seq<Attempt>, a: Attempt, j: nat, more: seq<Attempt>)
    requires ProgressAfter(l, attempts + [a]).saved <= ProgressAfter(l, attempts + [a] + more).saved
    ensures SavedForGood(l, attempts, a, j) <= |ProgressAfter(l, attempts + [a] + more).saved|
  {
    SavedForGoodIs(l, attempts, a, j);
    ProgressOneMore(l, attempts, a);
    AdvanceKeepsSaved(l, ProgressAfter(l, attempts), a);
    hide ProgressAfter, SavedForGood, Advance, Writes;
  }

  lemma ClosedReadsAlike(l: Layout, q: Progress, n: nat, c: string, start: Option<int>, stop: Option<int>, step: Option<int>)
    requires ValidProgress(l, q) && n <= |q.saved| && c in l.columns
    ensures ReadSliceOf(Closed(l, Render(l, q), |q.saved| - 1), n, c, start, stop, step) == ReadSliceOf(Render(l, q), n, c, start, stop, step)
  {
    var f, g := Render(l, q), Closed(l, Render(l, q), |q.saved| - 1);
    assert AgreeBelow(f, g, c, n) by {
      hide RowIn;
      assert g.rows[c][..n] == f.rows[c][..n];
    }
    hide *;
    AgreeingFilesReadAlike(f, g, c, n, start, stop, step);
  }
}
