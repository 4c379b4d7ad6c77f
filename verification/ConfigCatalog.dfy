/** Editable copies of the shipped configs, with every save kept as a named version. */
module ConfigCatalog {
  import opened PyValues

  /** The files of one config: `devices.yaml`, and `monitor.yaml` where there is one. */
  datatype Files = Files(devices: string, monitor: Option<string>)

  datatype Snapshot = Snapshot(files: Files, title: string, timestamp: string)

  /** A user config directory: its active files and the snapshots under `.versions`. */
  datatype UserConfig = UserConfig(devices: Option<string>, monitor: Option<string>, versions: map<string, Snapshot>)

  const NoConfig := UserConfig(None, None, map[])

  datatype CatalogError = NotFound | AlreadyExists

  /** The active files are these. */
  predicate IsActive(c: UserConfig, files: Files) {
    c.devices == Some(files.devices) && c.monitor == files.monitor
  }

  // ---- version ids ----

  function Digit(d: nat): char
    requires d < 10
  {
    ('0' as int + d) as char
  }

  function Decimal(n: nat): string {
    if n < 10 then [Digit(n)] else Decimal(n / 10) + [Digit(n % 10)]
  }

  function ReadDecimal(s: string): int {
    if s == [] then 0 else ReadDecimal(s[..|s| - 1]) * 10 + (s[|s| - 1] as int - '0' as int)
  }

  lemma {:induction false} DecimalIsRead(n: nat)
    ensures ReadDecimal(Decimal(n)) == n
  {
    if n < 10 {
      assert [Digit(n)][..0] == [];
    } else {
      DecimalIsRead(n / 10);
      var s := Decimal(n / 10) + [Digit(n % 10)];
      assert s[..|s| - 1] == Decimal(n / 10);
    }
  }

  /** The id of the `k`-th try: the base id itself, then the base id with a counter from 2 on. */
  function Candidate(base: string, k: nat): string {
    if k <= 1 then base else base + "-" + Decimal(k)
  }

  lemma CandidatesDiffer(base: string, j: nat, k: nat)
    requires 1 <= j < k
    ensures Candidate(base, j) != Candidate(base, k)
  {
    if j > 1 {
      DecimalIsRead(j);
      DecimalIsRead(k);
      assert Candidate(base, j)[|base| + 1..] == Decimal(j);
      assert Candidate(base, k)[|base| + 1..] == Decimal(k);
    }
  }

  predicate TriedInVain(base: string, taken: set<string>, k: nat) {
    forall j | 1 <= j < k :: Candidate(base, j) in taken
  }

  /** Every try in vain met an id of its own, so there are at most as many as ids taken. */
  lemma {:induction false} TriesAreBounded(base: string, taken: set<string>, k: nat)
    requires k >= 1 && TriedInVain(base, taken, k)
    ensures k <= |taken| + 1
    decreases k
  {
    if k > 1 {
      var last := Candidate(base, k - 1);
      forall j | 1 <= j < k - 1 ensures Candidate(base, j) in taken - {last} {
        CandidatesDiffer(base, j, k - 1);
      }
      TriesAreBounded(base, taken - {last}, k - 1);
    }
  }

  /** Which try, from the `k`-th on, first meets a free id. */
  function FirstFree(base: string, taken: set<string>, k: nat): (free: nat)
    requires k >= 1 && TriedInVain(base, taken, k)
    ensures k <= free <= |taken| + 1
    ensures Candidate(base, free) !in taken && TriedInVain(base, taken, free)
    decreases |taken| + 1 - k
  {
    TriesAreBounded(base, taken, k);
    if Candidate(base, k) !in taken then k
    else
      assert TriedInVain(base, taken, k + 1);
      TriesAreBounded(base, taken, k + 1);
      FirstFree(base, taken, k + 1)
  }

  function FreshId(base: string, taken: set<string>): (id: string)
    ensures id !in taken
  {
    Candidate(base, FirstFree(base, taken, 1))
  }

  // ---- what the operations do ----

  datatype Op =
    | Fork(shippedName: string, newName: Option<string>, now: string, timestamp: string)
    | Save(name: string, devices: string, monitor: Option<string>, title: string, id: Option<string>, now: string, timestamp: string)
    | Restore(name: string, version: string)

  type Shipped = map<string, Files>

  type User = map<string, UserConfig>

  /** An optional name, where the empty one counts as missing. */
  function GivenOr(given: Option<string>, otherwise: string): string {
    if given.Some? && given.value != "" then given.value else otherwise
  }

  function ConfigOf(user: User, name: string): UserConfig {
    if name in user then user[name] else NoConfig
  }

  function IdOf(user: User, name: string, id: Option<string>, now: string): string {
    FreshId(GivenOr(id, now), ConfigOf(user, name).versions.Keys)
  }

  function AfterSave(user: User, name: string, devices: string, monitor: Option<string>, title: string, id: Option<string>,
                     now: string, timestamp: string): User
  {
    var before := ConfigOf(user, name);
    var kept := if monitor.Some? then monitor else before.monitor;
    var snapshot := Snapshot(Files(devices, kept), title, timestamp);
    user[name := UserConfig(Some(devices), kept, before.versions[IdOf(user, name, id, now) := snapshot])]
  }

  function ForkTarget(shippedName: string, newName: Option<string>): string {
    GivenOr(newName, shippedName)
  }

  /** A fork fails, changing nothing, without its source or with its target in place. */
  function AfterFork(shipped: Shipped, user: User, shippedName: string, newName: Option<string>, now: string, timestamp: string): User {
    var name := ForkTarget(shippedName, newName);
    if shippedName !in shipped || name in user then user
    else AfterSave(user, name, shipped[shippedName].devices, shipped[shippedName].monitor, "forked from " + shippedName, None, now, timestamp)
  }

  predicate HasVersion(user: User, name: string, id: string) {
    name in user && id in user[name].versions
  }

  /** Restoring copies the snapshot's files; an active monitor file that it lacks stays. */
  function AfterRestore(user: User, name: string, id: string): User {
    if !HasVersion(user, name, id) then user
    else
      var files := user[name].versions[id].files;
      user[name := user[name].(devices := Some(files.devices), monitor := if files.monitor.Some? then files.monitor else user[name].monitor)]
  }

  function Apply(shipped: Shipped, user: User, op: Op): User {
    match op
    case Fork(shippedName, newName, now, timestamp) => AfterFork(shipped, user, shippedName, newName, now, timestamp)
    case Save(name, devices, monitor, title, id, now, timestamp) => AfterSave(user, name, devices, monitor, title, id, now, timestamp)
    case Restore(name, id) => AfterRestore(user, name, id)
  }

  function Run(shipped: Shipped, user: User, ops: seq<Op>): User
    decreases |ops|
  {
    if ops == [] then user else Run(shipped, Apply(shipped, user, ops[0]), ops[1..])
  }

  // ---- the catalog ----

  class Catalog {
    const shipped: Shipped
    var user: User

    constructor (shipped: Shipped, user: User)
      ensures this.shipped == shipped && this.user == user
    {
      this.shipped, this.user := shipped, user;
    }

    /** Writes the active files, then copies them under an id no version has. */
    method SaveVersion(name: string, devices: string, monitor: Option<string>, title: string, id: Option<string>, now: string, timestamp: string)
      returns (version: string)
      modifies this
      ensures user == AfterSave(old(user), name, devices, monitor, title, id, now, timestamp)
      ensures version == IdOf(old(user), name, id, now)
    {
      var config := ConfigOf(user, name).(devices := Some(devices));
      if monitor.Some? {
        config := config.(monitor := monitor);
      }
      user := user[name := config];
      var base := GivenOr(id, now);
      version := base;
      var counter := 2;
      while version in config.versions
        invariant user == old(user)[name := config]
        invariant counter >= 2 && version == Candidate(base, counter - 1)
        invariant TriedInVain(base, config.versions.Keys, counter - 1)
        invariant FirstFree(base, config.versions.Keys, counter - 1) == FirstFree(base, config.versions.Keys, 1)
        decreases |config.versions.Keys| + 2 - counter
      {
        assert TriedInVain(base, config.versions.Keys, counter);
        TriesAreBounded(base, config.versions.Keys, counter);
        version := base + "-" + Decimal(counter);
        counter := counter + 1;
      }
      var snapshot := Snapshot(Files(devices, config.monitor), title, timestamp);
      var versioned := config.(versions := config.versions[version := snapshot]);
      assert version == IdOf(old(user), name, id, now);
      user := user[name := versioned];
      assert user == old(user)[name := versioned];
    }

    method ForkShipped(shippedName: string, newName: Option<string>, now: string, timestamp: string) returns (r: Result<string, CatalogError>)
      modifies this
      ensures user == AfterFork(shipped, old(user), shippedName, newName, now, timestamp)
      ensures r == if shippedName !in shipped then Err(NotFound)
                   else if ForkTarget(shippedName, newName) in old(user) then Err(AlreadyExists)
                   else Ok(ForkTarget(shippedName, newName))
    {
      if shippedName !in shipped {
        return Err(NotFound);
      }
      var name := GivenOr(newName, shippedName);
      if name in user {
        return Err(AlreadyExists);
      }
      var files := shipped[shippedName];
      user := user[name := UserConfig(Some(files.devices), files.monitor, map[])];
      var _ := SaveVersion(name, files.devices, files.monitor, "forked from " + shippedName, None, now, timestamp);
      r := Ok(name);
    }

    method RestoreVersion(name: string, id: string) returns (r: Result<(), CatalogError>)
      modifies this
      ensures user == AfterRestore(old(user), name, id)
      ensures r == if HasVersion(old(user), name, id) then Ok(()) else Err(NotFound)
    {
      if name !in user || id !in user[name].versions {
        return Err(NotFound);
      }
      var snapshot := user[name].versions[id];
      user := user[name := user[name].(devices := Some(snapshot.files.devices))];
      if snapshot.files.monitor.Some? {
        user := user[name := user[name].(monitor := snapshot.files.monitor)];
      }
      r := Ok(());
    }
  }

  // ---- over whole runs ----

  lemma {:induction false} DecimalIsDigits(n: nat)
    ensures Decimal(n) != [] && forall c | c in Decimal(n) :: '0' <= c <= '9'
  {
    if n >= 10 {
      DecimalIsDigits(n / 10);
    }
  }

  /** The ids tried are the base itself and then the base, a hyphen and the number of the try in digits. */
  lemma CandidatesAreNumbered(base: string, k: nat)
    requires k >= 1
    ensures k == 1 ==> Candidate(base, k) == base
    ensures k > 1 ==> |Candidate(base, k)| > |base| + 1 && Candidate(base, k)[..|base|] == base && Candidate(base, k)[|base|] == '-'
    ensures k > 1 ==> var digits := Candidate(base, k)[|base| + 1..];
                      (forall c | c in digits :: '0' <= c <= '9') && ReadDecimal(digits) == k
  {
    DecimalIsDigits(k);
    DecimalIsRead(k);
    if k > 1 {
      assert Candidate(base, k)[|base| + 1..] == Decimal(k);
    }
  }

  /** A save takes the first id free of those tried for the id given, or for the time when none is, so
      within as many tries as there are versions, plus one; the new snapshot is what is active, under
      the label and time given; every other version and every other config stays as it was. */
  lemma SaveAddsWhatIsActive(user: User, name: string, devices: string, monitor: Option<string>, title: string, id: Option<string>,
                             now: string, timestamp: string)
    ensures var after := AfterSave(user, name, devices, monitor, title, id, now, timestamp);
      var version := IdOf(user, name, id, now);
      var base := if id.Some? && id.value != "" then id.value else now;
      && !HasVersion(user, name, version) && HasVersion(after, name, version)
      && (exists k :: 1 <= k <= |ConfigOf(user, name).versions| + 1 && version == Candidate(base, k) &&
                      forall j | 1 <= j < k :: HasVersion(user, name, Candidate(base, j)))
      && after[name].versions[version].title == title && after[name].versions[version].timestamp == timestamp
      && IsActive(after[name], after[name].versions[version].files)
      && after[name].devices == Some(devices) && (monitor.Some? ==> after[name].monitor == monitor)
      && after[name].versions - {version} == ConfigOf(user, name).versions
      && after - {name} == user - {name}
  {
    var versions := ConfigOf(user, name).versions;
    var k := FirstFree(GivenOr(id, now), versions.Keys, 1);
    assert |versions.Keys| == |versions|;
    assert IdOf(user, name, id, now) == Candidate(GivenOr(id, now), k);
  }

  lemma StepKeepsSnapshots(shipped: Shipped, user: User, op: Op, name: string, id: string)
    requires HasVersion(user, name, id)
    ensures var after := Apply(shipped, user, op);
            HasVersion(after, name, id) && after[name].versions[id] == user[name].versions[id]
  {
    match op
    case Save(saved, devices, monitor, title, given, now, timestamp) =>
      SaveAddsWhatIsActive(user, saved, devices, monitor, title, given, now, timestamp);
    case Fork(_, _, _, _) =>
    case Restore(_, _) =>
  }

  /** No sequence of forks, saves and restores ever changes or loses a version. */
  lemma {:induction false} SnapshotsNeverChange(shipped: Shipped, user: User, ops: seq<Op>, name: string, id: string)
    requires HasVersion(user, name, id)
    ensures var after := Run(shipped, user, ops);
            HasVersion(after, name, id) && after[name].versions[id] == user[name].versions[id]
    decreases |ops|
  {
    if ops != [] {
      StepKeepsSnapshots(shipped, user, ops[0], name, id);
      SnapshotsNeverChange(shipped, Apply(shipped, user, ops[0]), ops[1..], name, id);
    }
  }

  /** A version saved at any time can be brought back at any later time: restoring it makes the active
      files what they were right after that save exactly when it holds a monitor file or none is active. */
  lemma SavedFilesComeBackIff(shipped: Shipped, user: User, save: Op, later: seq<Op>)
    requires save.Save?
    ensures var saved := Apply(shipped, user, save);
      var version := IdOf(user, save.name, save.id, save.now);
      var files := saved[save.name].versions[version].files;
      var current := Run(shipped, saved, later);
      && IsActive(saved[save.name], files)
      && HasVersion(current, save.name, version)
      && (IsActive(Apply(shipped, current, Restore(save.name, version))[save.name], files) <==>
          files.monitor.Some? || current[save.name].monitor.None?)
  {
    var saved := Apply(shipped, user, save);
    var version := IdOf(user, save.name, save.id, save.now);
    SaveAddsWhatIsActive(user, save.name, save.devices, save.monitor, save.title, save.id, save.now, save.timestamp);
    SnapshotsNeverChange(shipped, saved, later, save.name, version);
  }

  /** A fork onto a name not in use, the new one given or else the shipped one's own, makes the shipped
      files active under it and its only version. */
  lemma ForkStartsTheHistory(shipped: Shipped, user: User, shippedName: string, newName: Option<string>, now: string, timestamp: string)
    requires shippedName in shipped && (if newName.Some? && newName.value != "" then newName.value else shippedName) !in user
    ensures var name := if newName.Some? && newName.value != "" then newName.value else shippedName;
      var after := AfterFork(shipped, user, shippedName, newName, now, timestamp);
      && name in after && IsActive(after[name], shipped[shippedName]) && after - {name} == user
      && exists id :: after[name].versions == map[id := Snapshot(shipped[shippedName], "forked from " + shippedName, timestamp)]
  {
    var name, files := ForkTarget(shippedName, newName), shipped[shippedName];
    SaveAddsWhatIsActive(user, name, files.devices, files.monitor, "forked from " + shippedName, None, now, timestamp);
    var after := AfterFork(shipped, user, shippedName, newName, now, timestamp);
    var id := IdOf(user, name, None, now);
    assert after[name].versions == map[id := Snapshot(files, "forked from " + shippedName, timestamp)];
  }

  predicate Restores(op: Op, name: string, versions: map<string, Snapshot>) {
    op.Restore? && op.name == name && op.version in versions
  }

  /** The version of `name` that was restored last, if one was. */
  function LastRestored(ops: seq<Op>, name: string, versions: map<string, Snapshot>): (id: Option<string>)
    ensures id.Some? ==> id.value in versions
    decreases |ops|
  {
    if ops == [] then None
    else
      var last := ops[|ops| - 1];
      if Restores(last, name, versions) then Some(last.version) else LastRestored(ops[..|ops| - 1], name, versions)
  }

  /** The one restored last among those that hold a monitor file. */
  function LastMonitor(ops: seq<Op>, name: string, versions: map<string, Snapshot>): (id: Option<string>)
    ensures id.Some? ==> id.value in versions && versions[id.value].files.monitor.Some?
    decreases |ops|
  {
    if ops == [] then None
    else
      var last := ops[|ops| - 1];
      if Restores(last, name, versions) && versions[last.version].files.monitor.Some? then Some(last.version)
      else LastMonitor(ops[..|ops| - 1], name, versions)
  }

  lemma {:induction false} RunOneMore(shipped: Shipped, user: User, ops: seq<Op>, op: Op)
    ensures Run(shipped, user, ops + [op]) == Apply(shipped, Run(shipped, user, ops), op)
    decreases |ops|
  {
    if ops == [] {
      assert [op][1..] == [];
    } else {
      assert (ops + [op])[1..] == ops[1..] + [op];
      RunOneMore(shipped, Apply(shipped, user, ops[0]), ops[1..], op);
    }
  }

  lemma OnlyRestoresChange(shipped: Shipped, user: User, op: Op, name: string)
    requires name in user && !(op.Save? && op.name == name)
    ensures var before, after := user[name], Apply(shipped, user, op);
      name in after && after[name] ==
      if !Restores(op, name, before.versions) then before
      else
        var files := before.versions[op.version].files;
        before.(devices := Some(files.devices), monitor := if files.monitor.Some? then files.monitor else before.monitor)
  {
    hide IdOf;
  }

  /** Without a further save of it, a config holds the devices of the version restored last and the
      monitor file of the last restored one that has any. */
  lemma {:induction false} ActiveAfterRestores(shipped: Shipped, user: User, name: string, later: seq<Op>)
    requires name in user && forall op | op in later :: !(op.Save? && op.name == name)
    ensures var before, after := user[name], Run(shipped, user, later);
      var last, monitored := LastRestored(later, name, before.versions), LastMonitor(later, name, before.versions);
      && name in after && after[name].versions == before.versions
      && after[name].devices == (if last.Some? then Some(before.versions[last.value].files.devices) else before.devices)
      && after[name].monitor == if monitored.Some? then before.versions[monitored.value].files.monitor else before.monitor
    decreases |later|
  {
    if later != [] {
      var init, op := later[..|later| - 1], later[|later| - 1];
      assert later == init + [op];
      RunOneMore(shipped, user, init, op);
      ActiveAfterRestores(shipped, user, name, init);
      OnlyRestoresChange(shipped, Run(shipped, user, init), op, name);
      hide Run, Apply;
    }
  }

  /** From a state where version `newest` is active, as any save or fork leaves it, and through
      everything but a further save of that config: the newest version is active exactly when the
      version restored last has its devices, and the last restored monitor file is its own. */
  lemma NewestIsActiveIff(shipped: Shipped, user: User, name: string, newest: string, later: seq<Op>)
    requires HasVersion(user, name, newest) && IsActive(user[name], user[name].versions[newest].files)
    requires forall op | op in later :: !(op.Save? && op.name == name)
    ensures var versions, after := user[name].versions, Run(shipped, user, later);
      var n := versions[newest].files;
      var last, monitored := LastRestored(later, name, versions), LastMonitor(later, name, versions);
      && HasVersion(after, name, newest) && after[name].versions == versions
      && (IsActive(after[name], n) <==>
          && (last.Some? ==> versions[last.value].files.devices == n.devices)
          && (monitored.Some? ==> versions[monitored.value].files.monitor == n.monitor))
  {
    ActiveAfterRestores(shipped, user, name, later);
    hide Run;
  }

  /** The newest version matches the active files after a save, but not after this restore. */
  lemma NewestNeedNotBeActive()
    ensures var ops := [Save("c", "one", None, "", Some("v1"), "", ""), Save("c", "two", None, "", Some("v2"), "", ""), Restore("c", "v1")];
            var after := Run(map[], map[], ops);
            HasVersion(after, "c", "v2") && !IsActive(after["c"], after["c"].versions["v2"].files)
  {
    var first := Save("c", "one", None, "", Some("v1"), "", "");
    var second := Save("c", "two", None, "", Some("v2"), "", "");
    var one := Apply(map[], map[], first);
    var two := Apply(map[], one, second);
    assert FirstFree("v1", {}, 1) == 1 && FirstFree("v2", one["c"].versions.Keys, 1) == 1;
    UnrollThree(map[], map[], first, second, Restore("c", "v1"));
  }

  lemma UnrollThree(shipped: Shipped, user: User, a: Op, b: Op, c: Op)
    ensures Run(shipped, user, [a, b, c]) == Apply(shipped, Apply(shipped, Apply(shipped, user, a), b), c)
  {
    var one := Apply(shipped, user, a);
    var two := Apply(shipped, one, b);
    assert [a, b, c][1..] == [b, c] && [b, c][1..] == [c] && [c][1..] == [];
    assert Run(shipped, one, [b, c]) == Run(shipped, two, [c]);
    assert Run(shipped, two, [c]) == Run(shipped, Apply(shipped, two, c), []);
  }

  /** Restoring a version without a monitor file can leave a mix that was never saved. */
  lemma RestoreCanMixVersions()
    ensures var ops := [Save("c", "one", None, "", Some("v1"), "", ""), Save("c", "two", Some("m"), "", Some("v2"), "", ""), Restore("c", "v1")];
            var after := Run(map[], map[], ops);
            "c" in after && after["c"].devices == Some("one") && after["c"].monitor == Some("m") &&
            forall id | id in after["c"].versions :: !IsActive(after["c"], after["c"].versions[id].files)
  {
    var first := Save("c", "one", None, "", Some("v1"), "", "");
    var second := Save("c", "two", Some("m"), "", Some("v2"), "", "");
    var one := Apply(map[], map[], first);
    var two := Apply(map[], one, second);
    assert FirstFree("v1", {}, 1) == 1 && FirstFree("v2", one["c"].versions.Keys, 1) == 1;
    UnrollThree(map[], map[], first, second, Restore("c", "v1"));
  }
}
