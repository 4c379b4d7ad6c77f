/** The control contract: the seventeen message classes, and reading an event back from its JSON. */
module Contract {
  import opened Messages
  import opened PyValues

  const NoText := Is(PyStr(""))
  const NoItems := Is(PyTuple([]))
  const NoEntries := Is(PyDict([]))
  const Nothing := Is(PyNull)
  const No := Is(PyBool(false))
  const Yes := Is(PyBool(true))
  const Zero := Is(PyInt(0))

  const ActorKinds := {"operator", "agent", "system"}
  const Gates := {"active", "read_only", "revoked"}
  const VerdictCodes := {"OK", "BLOCKED_STATE", "BLOCKED_CLAIM", "BLOCKED_FAULT", "BLOCKED_LIMIT", "BLOCKED_ENVELOPE", "BLOCKED_ROLE", "FAILED"}
  const CommandNames := {
    "run_procedure", "queue_procedure", "run_queue", "pause_procedure", "resume_procedure", "abort_procedure",
    "submit_vi_action", "submit_global_action", "stop_ramp", "connect_instrument", "disconnect_instrument", "ping_instrument",
    "emergency_standby", "acknowledge", "acknowledge_fault", "retry_fault", "recover_from_error",
    "start_monitoring", "stop_monitoring", "set_experiment_envelope", "set_attendance", "set_run_folder", "set_agent_gate"}

  const Actor := Class("Actor", None, [
      FieldDecl("kind", OneOf(ActorKinds), Required), FieldDecl("id", Text, Required), FieldDecl("role", Text, NoText)])

  const Operator := Message(Actor, [Entry("kind", PyStr("operator")), Entry("id", PyStr("operator")), Entry("role", PyStr("operator"))])
  const ByOperator := Is(PyMessage(Operator))

  const SeqField := FieldDecl("seq", Unchecked, Zero)
  const TsField := FieldDecl("ts", Unchecked, Now)
  const ActorField := FieldDecl("actor", Nested(Actor), ByOperator)
  const RequestField := FieldDecl("request_id", Unchecked, NoText)

  const Command := Class("Command", None, [
      FieldDecl("name", OneOf(CommandNames), Required), ActorField, FieldDecl("args", Mapping, NoEntries),
      FieldDecl("request_id", Text, NewId), FieldDecl("issued_at", Number, Now)])

  const Verdict := Class("Verdict", None, [
      FieldDecl("request_id", Text, Required), FieldDecl("command", OneOf(CommandNames), Required),
      FieldDecl("code", OneOf(VerdictCodes), Required), ActorField, FieldDecl("args", Mapping, NoEntries),
      FieldDecl("reason", Text, NoText), FieldDecl("detail", OptionalMapping, Nothing), FieldDecl("result", AnyJson, Nothing),
      FieldDecl("seq", WholeNumber, Zero), TsField])

  const MonitoredInfo := Class("MonitoredInfo", None, [
      FieldDecl("name", NonEmptyText, Required), FieldDecl("unit", Text, NoText), FieldDecl("description", Text, NoText),
      FieldDecl("group", Text, NoText), FieldDecl("returns", Text, NoText)])

  const ControlInfo := Class("ControlInfo", None, [
      FieldDecl("name", NonEmptyText, Required), FieldDecl("scope", Text, Is(PyStr("measurement"))),
      FieldDecl("action_class", NonEmptyText, Is(PyStr("run_control"))), FieldDecl("panel", Flag, Yes),
      FieldDecl("group", Text, NoText), FieldDecl("params", Mappings, NoItems)])

  const GroupInfo := Class("GroupInfo", None, [
      FieldDecl("key", NonEmptyText, Required), FieldDecl("title", NonEmptyText, Required),
      FieldDecl("description", Text, NoText), FieldDecl("members", Texts, NoItems)])

  const InstrumentInfo := Class("InstrumentInfo", None, [
      FieldDecl("name", NonEmptyText, Required), FieldDecl("vi_class", Text, NoText), FieldDecl("role", Text, NoText),
      FieldDecl("kind", Text, NoText), FieldDecl("availability", Texts, NoItems),
      FieldDecl("monitored", NestedMany(MonitoredInfo), NoItems), FieldDecl("controls", NestedMany(ControlInfo), NoItems),
      FieldDecl("limits", Mapping, NoEntries), FieldDecl("ui_groups", NestedMany(GroupInfo), NoItems),
      FieldDecl("safety_flags", TextMapping, NoEntries)])

  const ProcedureFormBlock := Class("ProcedureFormBlock", None, [
      FieldDecl("key", NonEmptyText, Required), FieldDecl("title", Text, NoText), FieldDecl("params", Mappings, NoItems),
      FieldDecl("when", Guard, NoEntries)])

  const ProcedureInfo := Class("ProcedureInfo", None, [
      FieldDecl("class_name", NonEmptyText, Required), FieldDecl("name", Text, NoText), FieldDecl("description", Text, NoText),
      FieldDecl("run_kind", Text, Is(PyStr("run"))), FieldDecl("availability", SortedTexts, NoItems),
      FieldDecl("sweep_axis", PlainMapping, NoEntries), FieldDecl("roles", PlainMapping, NoEntries),
      FieldDecl("data_keys", PlainMapping, NoEntries), FieldDecl("form", NestedMany(ProcedureFormBlock), NoItems)])

  const StateChange := Class("StateChange", Some("state_change"), [
      FieldDecl("state", Unchecked, Required), FieldDecl("previous", Unchecked, NoText), FieldDecl("cause", Unchecked, NoText),
      ActorField, RequestField, SeqField, TsField])

  const StatusSnapshot := Class("StatusSnapshot", Some("status_snapshot"), [
      FieldDecl("state", Unchecked, Required), FieldDecl("run", OptionalMapping, Nothing), FieldDecl("instruments", Mapping, NoEntries),
      FieldDecl("is_monitoring", Flag, No), FieldDecl("pause_pending", Flag, No), FieldDecl("active_run_kind", OptionalText, Nothing),
      FieldDecl("override_active", Flag, No), FieldDecl("manual_override_expires_at", OptionalNumber, Nothing),
      FieldDecl("held_vi_names", Texts, NoItems), FieldDecl("active_ramps", Mappings, NoItems),
      FieldDecl("availabilities", Mapping, NoEntries), FieldDecl("vi_faults", Mapping, NoEntries),
      FieldDecl("offline_reason", Mapping, NoEntries), FieldDecl("envelope_variables", Mapping, NoEntries),
      FieldDecl("attended", Flag, Yes), FieldDecl("agent_gate", OneOf(Gates), Is(PyStr("active"))), SeqField, TsField])

  const StationInfo := Class("StationInfo", Some("station_info"), [
      FieldDecl("setup", Text, NoText), FieldDecl("tick_interval_s", RealNumber, Is(PyFloat(0.0))),
      FieldDecl("instruments", NestedMany(InstrumentInfo), NoItems), FieldDecl("procedures", NestedMany(ProcedureInfo), NoItems),
      SeqField, TsField])

  const Readings := Class("Readings", Some("readings"), [FieldDecl("values", Mapping, NoEntries), SeqField, TsField])

  const Datapoint := Class("Datapoint", Some("datapoint"), [
      FieldDecl("run_id", Unchecked, Required), FieldDecl("index", Unchecked, Zero), FieldDecl("values", Mapping, NoEntries),
      SeqField, TsField])

  const RunStarted := Class("RunStarted", Some("run_started"), [
      FieldDecl("run_id", Unchecked, Required), FieldDecl("manifest", Mapping, NoEntries), ActorField, RequestField, SeqField, TsField])

  const RunFinished := Class("RunFinished", Some("run_finished"), [
      FieldDecl("run_id", Unchecked, Required), FieldDecl("status", Unchecked, NoText), FieldDecl("reason", Unchecked, NoText),
      FieldDecl("manifest", Mapping, NoEntries), ActorField, FieldDecl("overridden_owner", OptionalMapping, Nothing), SeqField, TsField])

  const QueueChanged := Class("QueueChanged", Some("queue_changed"), [FieldDecl("entries", Mappings, NoItems), ActorField, RequestField, SeqField, TsField])

  // ---- every class is sane ----

  lemma EmptyMappingFits(kind: FieldKind)
    requires kind in {Mapping, PlainMapping, TextMapping, Guard}
    ensures Stable(kind, PyDict([]))
  {
    EntriesUnchanged([]);
  }

  lemma EmptyTupleFits(kind: FieldKind)
    requires kind in {Mappings, Texts, SortedTexts} || kind.NestedMany?
    ensures Stable(kind, PyTuple([]))
  {
    if kind == Mappings {
      var coerced := CoerceFlat(kind, PyTuple([])).value.items;
      assert coerced == [];
    } else {
      TextsAgain([]);
      assert TextsOf([]).value == [];
    }
  }

  /** The defaults the classes declare, by the kind of the field. */
  predicate IsUsualDefault(d: FieldDecl) {
    match d.default
    case Required => true
    case Now => d.kind == Unchecked || d.kind == Number
    case NewId => d.kind == Text
    case Is(PyStr(s)) => d.kind in {Unchecked, Text} || (d.kind == NonEmptyText && s != "") || (d.kind.OneOf? && s in d.kind.values)
    case Is(PyDict(entries)) => entries == [] && d.kind in {Mapping, PlainMapping, TextMapping, Guard}
    case Is(PyTuple(items)) => items == [] && (d.kind in {Mappings, Texts, SortedTexts} || d.kind.NestedMany?)
    case Is(PyNull) => d.kind in {OptionalText, OptionalNumber, OptionalMapping, AnyJson}
    case Is(PyBool(_)) => d.kind == Flag
    case Is(PyInt(_)) => d.kind == Unchecked || d.kind == WholeNumber
    case Is(PyFloat(_)) => d.kind == RealNumber
    case Is(PyMessage(m)) => m == Operator && d.kind == Nested(Actor)
    case _ => false
  }

  lemma UsualDefaultIsSane(d: FieldDecl)
    requires IsUsualDefault(d) && (d.kind.Nested? || d.kind.NestedMany? ==> Sane(d.kind.cls)) && WellTyped(Operator) && Native(Operator)
    ensures SaneDecl(d)
  {
    hide IsGuard, WellTyped, Native, Sane;
    if d.default.Is? {
      var v := d.default.value;
      if v.PyDict? {
        EmptyMappingFits(d.kind);
      } else if v.PyTuple? {
        EmptyTupleFits(d.kind);
      }
    }
  }

  lemma ActorIsSane()
    ensures Sane(Actor) && WellTyped(Operator) && Native(Operator)
  {
    assert forall k | 0 <= k < |Actor.decls| :: SaneDecl(Actor.decls[k]);
  }

  /** A class is sane when its names differ, its defaults are the usual ones and its nested classes are sane. */
  lemma UsualClassIsSane(cls: Class)
    requires DistinctDecls(cls.decls)
    requires forall k | 0 <= k < |cls.decls| ::
      var d := cls.decls[k]; IsUsualDefault(d) && (d.kind.Nested? || d.kind.NestedMany? ==> Sane(d.kind.cls))
    ensures Sane(cls)
  {
    ActorIsSane();
    hide WellTyped, Native, IsUsualDefault;
    forall k | 0 <= k < |cls.decls| ensures SaneDecl(cls.decls[k]) {
      UsualDefaultIsSane(cls.decls[k]);
    }
    hide SaneDecl;
  }

  lemma CapabilitiesAreSane()
    ensures Sane(MonitoredInfo) && Sane(ControlInfo) && Sane(GroupInfo)
  {
    hide Sane;
    UsualClassIsSane(MonitoredInfo);
    UsualClassIsSane(ControlInfo);
    UsualClassIsSane(GroupInfo);
  }

  lemma InstrumentsAreSane()
    ensures Sane(InstrumentInfo)
  {
    InstrumentNames();
    InstrumentDefaults();
    CapabilitiesAreSane();
    hide *;
    UsualClassIsSane(InstrumentInfo);
  }

  lemma InstrumentNames()
    ensures DistinctDecls(InstrumentInfo.decls)
  {
  }

  lemma InstrumentDefaults()
    ensures forall k | 0 <= k < |InstrumentInfo.decls| ::
              var d := InstrumentInfo.decls[k];
              IsUsualDefault(d) && (d.kind.Nested? || d.kind.NestedMany? ==>
                d.kind.cls == MonitoredInfo || d.kind.cls == ControlInfo || d.kind.cls == GroupInfo)
  {
  }

  lemma ProceduresAreSane()
    ensures Sane(ProcedureFormBlock) && Sane(ProcedureInfo)
  {
    CapabilitiesAreSane();
    hide Sane;
    UsualClassIsSane(ProcedureFormBlock);
    UsualClassIsSane(ProcedureInfo);
  }

  lemma DeclarationsAreSane()
    ensures Sane(InstrumentInfo) && Sane(ProcedureFormBlock) && Sane(ProcedureInfo)
  {
    InstrumentsAreSane();
    ProceduresAreSane();
  }

  lemma VerdictIsSane()
    ensures Sane(Verdict)
  {
    ActorIsSane();
    hide Sane;
    UsualClassIsSane(Verdict);
  }

  lemma CommandsAreSane()
    ensures Sane(Command) && Sane(Verdict)
  {
    ActorIsSane();
    VerdictIsSane();
    hide Sane;
    UsualClassIsSane(Command);
  }

  lemma StateChangeIsSane()
    ensures Sane(StateChange)
  {
    ActorIsSane();
    hide Sane;
    UsualClassIsSane(StateChange);
  }

  lemma StationsAreSane()
    ensures Sane(StateChange) && Sane(StationInfo)
  {
    StateChangeIsSane();
    DeclarationsAreSane();
    hide Sane;
    UsualClassIsSane(StationInfo);
  }

  lemma ReportsAreSane()
    ensures Sane(StateChange) && Sane(StationInfo) && Sane(Readings) && Sane(Datapoint)
  {
    StationsAreSane();
    hide Sane;
    UsualClassIsSane(Readings);
    UsualClassIsSane(Datapoint);
  }

  lemma RunStartIsSane()
    ensures Sane(RunStarted) && Sane(QueueChanged)
  {
    ActorIsSane();
    hide Sane;
    UsualClassIsSane(RunStarted);
    UsualClassIsSane(QueueChanged);
  }

  lemma RunsAreSane()
    ensures Sane(RunStarted) && Sane(RunFinished) && Sane(QueueChanged)
  {
    RunStartIsSane();
    RunFinishedIsSane();
    hide *;
  }

  lemma RunFinishedNames()
    ensures DistinctDecls(RunFinished.decls)
  {
  }

  lemma RunFinishedDefaults()
    ensures forall k | 0 <= k < |RunFinished.decls| ::
              var d := RunFinished.decls[k]; IsUsualDefault(d) && (d.kind.Nested? || d.kind.NestedMany? ==> d.kind.cls == Actor)
  {
  }

  lemma RunFinishedIsSane()
    ensures Sane(RunFinished)
  {
    RunFinishedNames();
    RunFinishedDefaults();
    ActorIsSane();
    hide *;
    UsualClassIsSane(RunFinished);
  }

  /** No name from `low` on and below `high` comes again later. */
  predicate DistinctFrom(decls: seq<FieldDecl>, low: nat, high: nat) {
    forall j, k | low <= j < high && j < k < |decls| :: decls[j].name != decls[k].name
  }

  lemma SnapshotNames0()
    ensures DistinctFrom(StatusSnapshot.decls, 0, 3)
  {
  }

  lemma SnapshotNames3()
    ensures DistinctFrom(StatusSnapshot.decls, 3, 7)
  {
  }

  lemma SnapshotNames7()
    ensures DistinctFrom(StatusSnapshot.decls, 7, 11)
  {
  }

  lemma SnapshotNames11()
    ensures DistinctFrom(StatusSnapshot.decls, 11, 18)
  {
  }

  lemma SnapshotNames()
    ensures DistinctDecls(StatusSnapshot.decls)
  {
    SnapshotNames0();
    SnapshotNames3();
    SnapshotNames7();
    SnapshotNames11();
    DistinctTogether(StatusSnapshot.decls);
  }

  lemma DistinctTogether(decls: seq<FieldDecl>)
    requires DistinctFrom(decls, 0, 3) && DistinctFrom(decls, 3, 7) && DistinctFrom(decls, 7, 11) && DistinctFrom(decls, 11, 18)
    requires |decls| == 18
    ensures DistinctDecls(decls)
  {
  }

  /** The declarations from `low` on and below `high` have usual defaults and hold no message. */
  predicate UsualFrom(decls: seq<FieldDecl>, low: nat, high: nat) {
    forall k | low <= k < high && k < |decls| :: IsUsualDefault(decls[k]) && !decls[k].kind.Nested? && !decls[k].kind.NestedMany?
  }

  lemma SnapshotDefaults0()
    ensures UsualFrom(StatusSnapshot.decls, 0, 9)
  {
  }

  lemma SnapshotDefaults9()
    ensures UsualFrom(StatusSnapshot.decls, 9, 18)
  {
  }

  lemma SnapshotDefaults()
    ensures forall k | 0 <= k < |StatusSnapshot.decls| ::
              var d := StatusSnapshot.decls[k]; IsUsualDefault(d) && !d.kind.Nested? && !d.kind.NestedMany?
  {
    SnapshotDefaults0();
    SnapshotDefaults9();
    hide IsUsualDefault;
  }

  lemma StatusSnapshotIsSane()
    ensures Sane(StatusSnapshot)
  {
    SnapshotNames();
    SnapshotDefaults();
    hide *;
    UsualClassIsSane(StatusSnapshot);
  }

  /** The seventeen classes of the contract. */
  function Classes(): set<Class> {
    {Actor, Command, Verdict, MonitoredInfo, ControlInfo, GroupInfo, InstrumentInfo, ProcedureFormBlock, ProcedureInfo} + Events()
  }

  function Events(): set<Class> {
    {StateChange, StatusSnapshot, StationInfo, Readings, Datapoint, RunStarted, RunFinished, QueueChanged}
  }

  /** Every class of the contract declares each field once, with a default that coercion keeps and JSON
      carries, so what holds of messages of sane classes holds of all its messages. */
  lemma ContractIsSane(cls: Class)
    requires cls in Classes()
    ensures Sane(cls)
  {
    ActorIsSane();
    CommandsAreSane();
    CapabilitiesAreSane();
    DeclarationsAreSane();
    ReportsAreSane();
    StatusSnapshotIsSane();
    RunsAreSane();
    hide Sane;
  }

  /** Actors, commands and the declarations of instruments and procedures check every field they declare. */
  lemma DeclarationsCheckEverything(cls: Class)
    requires cls in {Actor, Command, MonitoredInfo, ControlInfo, GroupInfo, InstrumentInfo, ProcedureFormBlock, ProcedureInfo}
    ensures ChecksEverything(cls)
  {
    assert ChecksEverything(Actor) && ChecksEverything(MonitoredInfo) && ChecksEverything(ControlInfo);
    assert ChecksEverything(GroupInfo) && ChecksEverything(ProcedureFormBlock);
  }

  /** They always survive their JSON round trip. */
  lemma DeclarationsAlwaysSurvive(m: Message, clock: Clock)
    requires WellTyped(m)
    requires m.cls in {Actor, Command, MonitoredInfo, ControlInfo, GroupInfo, InstrumentInfo, ProcedureFormBlock, ProcedureInfo}
    ensures Survives(m, clock)
  {
    DeclarationsCheckEverything(m.cls);
    CheckedMessagesAlwaysSurvive(m, clock);
  }

  // ---- events ----

  datatype Fault = NoKind | UnknownKind | Refused

  function EventClass(kind: string): Option<Class> {
    if kind == "state_change" then Some(StateChange)
    else if kind == "status_snapshot" then Some(StatusSnapshot)
    else if kind == "station_info" then Some(StationInfo)
    else if kind == "readings" then Some(Readings)
    else if kind == "datapoint" then Some(Datapoint)
    else if kind == "run_started" then Some(RunStarted)
    else if kind == "run_finished" then Some(RunFinished)
    else if kind == "queue_changed" then Some(QueueChanged)
    else None
  }

  /** Whichever event the payload's discriminator names. */
  function EventFromJson(entries: seq<Entry>, clock: Clock): Result<Message, Fault> {
    var k := Find(entries, "kind");
    if k == |entries| then Err(NoKind)
    else if entries[k].value.PyList? || entries[k].value.PyDict? then Err(Refused)
    else if !entries[k].value.PyStr? || EventClass(entries[k].value.s).None? then Err(UnknownKind)
    else
      match FromJson(EventClass(entries[k].value.s).value, entries, clock)
      case None => Err(Refused)
      case Some(m) => Ok(m)
  }

  lemma EventClassesMatch(cls: Class)
    requires cls in Events()
    ensures cls.kind.Some? && EventClass(cls.kind.value) == Some(cls)
  {
  }

  lemma NoEventDeclaresKind(cls: Class, k: nat)
    requires cls in Events() && k < |cls.decls|
    ensures cls.decls[k].name != "kind"
  {
  }

  /** An event's own JSON is read as its own class. */
  lemma EventIsDispatched(m: Message, clock: Clock)
    requires m.cls in Events() && NamesItsFields(m) && ToJson(m).Some?
    ensures EventFromJson(ToJson(m).value, clock) ==
            match FromJson(m.cls, ToJson(m).value, clock) case None => Err(Refused) case Some(read) => Ok(read)
  {
    EventClassesMatch(m.cls);
    forall k | 0 <= k < |m.cls.decls| ensures m.cls.decls[k].name != "kind" {
      NoEventDeclaresKind(m.cls, k);
    }
    hide Events, EventClass, FromJson, Find, ToJson, NamesItsFields;
    TagIsFound(m);
  }

  /** An event comes back, as the right type, from its own JSON exactly when its unchecked fields hold JSON. */
  lemma EventsComeBackIff(m: Message, clock: Clock)
    requires WellTyped(m) && m.cls in Events()
    ensures ToJson(m).Some? && EventFromJson(ToJson(m).value, clock) == Ok(m) <==> Native(m)
  {
    SurvivesIff(m, clock);
    hide FromJson, Events, EventFromJson, ToJson, Native;
    if ToJson(m).Some? {
      EventIsDispatched(m, clock);
    }
  }

  /** An unchecked field may hold what JSON cannot tell apart: a tuple comes back as a list. */
  lemma ATupleComesBackAsAList(clock: Clock)
    ensures var m := Message(Readings, [Entry("values", PyDict([])), Entry("seq", PyTuple([])), Entry("ts", PyInt(0))]);
            WellTyped(m) && !Survives(m, clock)
  {
    var m := Message(Readings, [Entry("values", PyDict([])), Entry("seq", PyTuple([])), Entry("ts", PyInt(0))]);
    ReportsAreSane();
    EmptyMappingFits(Mapping);
    hide Sane;
    assert WellTyped(m);
    assert !NativeField(Readings.decls[1].kind, m.fields[1].value);
    SurvivesIff(m, clock);
  }
}
