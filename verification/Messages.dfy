/** Messages of declared classes and their JSON round trip. */
module Messages {
  import opened PyStrings
  import opened PyValues

  /** A Python value as far as the contract can tell values apart. A `str` enum's member is its string;
      `PyOther` is anything the contract cannot carry. */
  datatype Py =
    | PyNull
    | PyBool(b: bool)
    | PyInt(i: int)
    | PyFloat(r: real)
    | PyStr(s: string)
    | PyList(items: seq<Py>)
    | PyTuple(items: seq<Py>)
    | PyDict(entries: seq<Entry>)
    | PyMessage(m: Message)
    | PyOther

  datatype Entry = Entry(key: string, value: Py)

  /** A message: its declared fields, in order. */
  datatype Message = Message(cls: Class, fields: seq<Entry>)

  // ---- the declared fields ----

  /** How construction coerces and checks one field. */
  datatype FieldKind =
    | Unchecked
    | Text
    | NonEmptyText
    | OptionalText
    | Flag
    | Number
    | OptionalNumber
    | WholeNumber
    | RealNumber
    | OneOf(values: set<string>)
    | Mapping
    | OptionalMapping
    | PlainMapping
    | TextMapping
    | Mappings
    | Texts
    | SortedTexts
    | Guard
    | AnyJson
    | Nested(cls: Class)
    | NestedMany(cls: Class)

  /** What a missing field gets. */
  datatype Default = Required | Is(value: Py) | Now | NewId

  datatype FieldDecl = FieldDecl(name: string, kind: FieldKind, default: Default)

  /** A message class: the discriminator of an event class, and the fields it declares. */
  datatype Class = Class(name: string, kind: Option<string>, decls: seq<FieldDecl>)

  /** The time and the identifier drawn for a message that is given none. */
  datatype Clock = Clock(now: real, id: string)

  // ---- rendering ----

  /** A field's JSON-safe rendering; None where the contract cannot carry the value. */
  function Jsonable(v: Py): Option<Py>
    decreases v, 0
  {
    match v
    case PyOther => None
    case PyMessage(m) => (match ToJson(m) case None => None case Some(entries) => Some(PyDict(entries)))
    case PyDict(entries) => (match JsonableEntries(entries) case None => None case Some(rendered) => Some(PyDict(rendered)))
    case PyList(items) => JsonableItems(items)
    case PyTuple(items) => JsonableItems(items)
    case _ => Some(v)
  }

  function JsonableItems(items: seq<Py>): Option<Py>
    decreases items, 1
  {
    if forall k | 0 <= k < |items| :: Jsonable(items[k]).Some? then
      Some(PyList(seq(|items|, k requires 0 <= k < |items| && Jsonable(items[k]).Some? => Jsonable(items[k]).value)))
    else None
  }

  function JsonableEntries(entries: seq<Entry>): Option<seq<Entry>>
    decreases entries, 1
  {
    if forall k | 0 <= k < |entries| :: Jsonable(entries[k].value).Some? then
      Some(seq(|entries|, k requires 0 <= k < |entries| && Jsonable(entries[k].value).Some? =>
        Entry(entries[k].key, Jsonable(entries[k].value).value)))
    else None
  }

  /** The discriminator entry of an event. */
  function Tag(cls: Class): seq<Entry> {
    if cls.kind.Some? then [Entry("kind", PyStr(cls.kind.value))] else []
  }

  function ToJson(m: Message): Option<seq<Entry>>
    decreases m, 0
  {
    match JsonableEntries(m.fields)
    case None => None
    case Some(rendered) => Some(rendered + Tag(m.cls))
  }

  // ---- building ----

  /** Where a key stands in a dictionary; its size when it is missing. */
  function Find(entries: seq<Entry>, key: string): (k: nat)
    ensures k <= |entries| && (k < |entries| ==> entries[k].key == key)
    ensures forall j | 0 <= j < k :: entries[j].key != key
  {
    if entries == [] || entries[0].key == key then 0 else 1 + Find(entries[1..], key)
  }

  function SortedInsert(text: string, texts: seq<string>): seq<string> {
    if texts == [] || AtMost(text, texts[0]) then [text] + texts else [texts[0]] + SortedInsert(text, texts[1..])
  }

  function Sort(texts: seq<string>): seq<string> {
    if texts == [] then [] else SortedInsert(texts[0], Sort(texts[1..]))
  }

  function ItemsOf(v: Py): Option<seq<Py>> {
    if v.PyList? || v.PyTuple? then Some(v.items) else None
  }

  function CheckedMapping(v: Py): Option<Py> {
    if v.PyNull? then Some(PyDict([])) else if v.PyDict? then Jsonable(v) else None
  }

  function TextsOf(items: seq<Py>): Option<seq<string>> {
    if forall k | 0 <= k < |items| :: items[k].PyStr? then
      Some(seq(|items|, k requires 0 <= k < |items| && items[k].PyStr? => items[k].s))
    else None
  }

  function TupleOfTexts(texts: seq<string>): Py {
    PyTuple(seq(|texts|, k requires 0 <= k < |texts| => PyStr(texts[k])))
  }

  predicate IsGuard(entries: seq<Entry>) {
    forall k | 0 <= k < |entries| :: entries[k].key != "" && ItemsOf(entries[k].value).Some?
  }

  /** The coercion of a field that holds no message; None where construction raises. */
  function CoerceFlat(kind: FieldKind, v: Py): Option<Py> {
    match kind
    case Unchecked => Some(v)
    case Text => if v.PyStr? then Some(v) else None
    case NonEmptyText => if v.PyStr? && v.s != "" then Some(v) else None
    case OptionalText => if v.PyNull? || v.PyStr? then Some(v) else None
    case Flag => if v.PyBool? then Some(v) else None
    case Number => if v.PyInt? || v.PyFloat? || v.PyBool? then Some(v) else None
    case OptionalNumber => if v.PyNull? || v.PyInt? || v.PyFloat? || v.PyBool? then Some(v) else None
    case WholeNumber => if v.PyInt? then Some(v) else None
    case RealNumber => if v.PyFloat? then Some(v) else if v.PyInt? then Some(PyFloat(v.i as real)) else None
    case OneOf(values) => if v.PyStr? && v.s in values then Some(v) else None
    case Mapping => CheckedMapping(v)
    case OptionalMapping => if v.PyNull? then Some(v) else CheckedMapping(v)
    case PlainMapping => if v.PyDict? then Jsonable(v) else None
    case TextMapping =>
      var checked := CheckedMapping(v);
      if checked.Some? && checked.value.PyDict? && forall e | e in checked.value.entries :: e.value.PyStr? then checked else None
    case Mappings =>
      var items := ItemsOf(v);
      if items.Some? && forall k | 0 <= k < |items.value| :: CheckedMapping(items.value[k]).Some? then
        Some(PyTuple(seq(|items.value|, k requires 0 <= k < |items.value| && CheckedMapping(items.value[k]).Some? =>
          CheckedMapping(items.value[k]).value)))
      else None
    case Texts =>
      var items := ItemsOf(v);
      if items.Some? && TextsOf(items.value).Some? then Some(TupleOfTexts(TextsOf(items.value).value)) else None
    case SortedTexts =>
      var items := ItemsOf(v);
      if items.Some? && TextsOf(items.value).Some? then Some(TupleOfTexts(Sort(TextsOf(items.value).value))) else None
    case Guard => if v.PyDict? && IsGuard(v.entries) then Jsonable(v) else None
    case AnyJson => Jsonable(v)
    case Nested(_) => None
    case NestedMany(_) => None
  }

  function CoerceOne(cls: Class, v: Py, clock: Clock): Option<Py>
    decreases v, 2
  {
    match v
    case PyMessage(m) => if m.cls == cls then Some(v) else None
    case PyDict(entries) => (match FromJson(cls, entries, clock) case None => None case Some(m) => Some(PyMessage(m)))
    case _ => None
  }

  function Coerce(kind: FieldKind, v: Py, clock: Clock): Option<Py>
    decreases v, 3
  {
    match kind
    case Nested(cls) => CoerceOne(cls, v, clock)
    case NestedMany(cls) =>
      if (v.PyList? || v.PyTuple?) && forall k | 0 <= k < |v.items| :: CoerceOne(cls, v.items[k], clock).Some? then
        Some(PyTuple(seq(|v.items|, k requires 0 <= k < |v.items| && CoerceOne(cls, v.items[k], clock).Some? =>
          CoerceOne(cls, v.items[k], clock).value)))
      else None
    case _ => CoerceFlat(kind, v)
  }

  function FieldOf(d: FieldDecl, entries: seq<Entry>, clock: Clock): Option<Py>
    decreases entries, 4
  {
    var k := Find(entries, d.name);
    if k < |entries| then Coerce(d.kind, entries[k].value, clock)
    else
      match d.default
      case Required => None
      case Is(value) => Some(value)
      case Now => Some(PyFloat(clock.now))
      case NewId => Some(PyStr(clock.id))
  }

  /** Builds a message from a dictionary of its fields, where a key that names no field counts for nothing. */
  function FromJson(cls: Class, entries: seq<Entry>, clock: Clock): Option<Message>
    decreases entries, 5
  {
    var decls := cls.decls;
    if forall k | 0 <= k < |decls| :: FieldOf(decls[k], entries, clock).Some? then
      Some(Message(cls, seq(|decls|, k requires 0 <= k < |decls| && FieldOf(decls[k], entries, clock).Some? =>
        Entry(decls[k].name, FieldOf(decls[k], entries, clock).value))))
    else None
  }

  // ---- which values JSON carries as they are ----

  predicate IsJson(v: Py) {
    match v
    case PyOther => false
    case PyMessage(_) => false
    case PyTuple(_) => false
    case PyList(items) => forall k | 0 <= k < |items| :: IsJson(items[k])
    case PyDict(entries) => forall k | 0 <= k < |entries| :: IsJson(entries[k].value)
    case _ => true
  }

  /** What rendering gives is JSON. */
  lemma {:induction false} RenderedIsJson(v: Py)
    ensures Jsonable(v).Some? ==> IsJson(Jsonable(v).value)
    decreases v, 0
  {
    match v
    case PyMessage(m) => RenderedEntriesAreJson(m.fields);
    case PyDict(entries) => RenderedEntriesAreJson(entries);
    case PyList(items) => RenderedItemsAreJson(items);
    case PyTuple(items) => RenderedItemsAreJson(items);
    case _ =>
  }

  lemma {:induction false} RenderedItemsAreJson(items: seq<Py>)
    ensures JsonableItems(items).Some? ==> IsJson(JsonableItems(items).value)
    decreases items, 1
  {
    forall k | 0 <= k < |items| ensures Jsonable(items[k]).Some? ==> IsJson(Jsonable(items[k]).value) {
      RenderedIsJson(items[k]);
    }
  }

  lemma {:induction false} RenderedEntriesAreJson(entries: seq<Entry>)
    ensures JsonableEntries(entries).Some? ==> IsJson(PyDict(JsonableEntries(entries).value))
    decreases entries, 1
  {
    forall k | 0 <= k < |entries| ensures Jsonable(entries[k].value).Some? ==> IsJson(Jsonable(entries[k].value).value) {
      RenderedIsJson(entries[k].value);
    }
  }

  lemma ItemsUnchanged(items: seq<Py>)
    requires forall k | 0 <= k < |items| :: Jsonable(items[k]) == Some(items[k])
    ensures JsonableItems(items) == Some(PyList(items))
  {
    var rendered := JsonableItems(items).value.items;
    assert rendered == items;
  }

  lemma EntriesUnchanged(entries: seq<Entry>)
    requires forall k | 0 <= k < |entries| :: Jsonable(entries[k].value) == Some(entries[k].value)
    ensures JsonableEntries(entries) == Some(entries)
  {
    var rendered := JsonableEntries(entries).value;
    assert rendered == entries;
  }

  /** A value is rendered as itself exactly when it is JSON already. */
  lemma {:induction false} RenderedAsItselfIffJson(v: Py)
    ensures Jsonable(v) == Some(v) <==> IsJson(v)
    decreases v
  {
    RenderedIsJson(v);
    if IsJson(v) {
      match v
      case PyList(items) =>
        forall k | 0 <= k < |items| ensures Jsonable(items[k]) == Some(items[k]) {
          RenderedAsItselfIffJson(items[k]);
        }
        ItemsUnchanged(items);
      case PyDict(entries) =>
        forall k | 0 <= k < |entries| ensures Jsonable(entries[k].value) == Some(entries[k].value) {
          RenderedAsItselfIffJson(entries[k].value);
        }
        EntriesUnchanged(entries);
      case _ =>
    }
  }

  /** Rendering is idempotent. */
  lemma RenderingAgainChangesNothing(v: Py)
    requires Jsonable(v).Some?
    ensures Jsonable(Jsonable(v).value) == Jsonable(v)
  {
    RenderedIsJson(v);
    RenderedAsItselfIffJson(Jsonable(v).value);
  }

  // ---- what rendering gives and what construction takes, case by case ----

  /** The contract cannot carry the value: something it has no rendering for stands in it somewhere. */
  predicate HoldsOther(v: Py) {
    match v
    case PyOther => true
    case PyMessage(m) => exists k :: 0 <= k < |m.fields| && HoldsOther(m.fields[k].value)
    case PyDict(entries) => exists k :: 0 <= k < |entries| && HoldsOther(entries[k].value)
    case PyList(items) => exists k :: 0 <= k < |items| && HoldsOther(items[k])
    case PyTuple(items) => exists k :: 0 <= k < |items| && HoldsOther(items[k])
    case _ => false
  }

  /** The rendering of a value: lists and tuples become lists, dictionaries stay dictionaries with their
      keys, a message becomes the dictionary of its fields and, last, its discriminator, and everything
      else is as it was. */
  ghost predicate IsRenderingOf(r: Py, v: Py)
    decreases v
  {
    match v
    case PyList(items) => r.PyList? && |r.items| == |items| && forall k | 0 <= k < |items| :: IsRenderingOf(r.items[k], items[k])
    case PyTuple(items) => r.PyList? && |r.items| == |items| && forall k | 0 <= k < |items| :: IsRenderingOf(r.items[k], items[k])
    case PyDict(entries) =>
      r.PyDict? && |r.entries| == |entries| &&
      forall k | 0 <= k < |entries| :: r.entries[k].key == entries[k].key && IsRenderingOf(r.entries[k].value, entries[k].value)
    case PyMessage(m) =>
      r.PyDict? && |r.entries| == |m.fields| + (if m.cls.kind.Some? then 1 else 0) &&
      (m.cls.kind.Some? ==> r.entries[|m.fields|] == Entry("kind", PyStr(m.cls.kind.value))) &&
      forall k | 0 <= k < |m.fields| :: r.entries[k].key == m.fields[k].key && IsRenderingOf(r.entries[k].value, m.fields[k].value)
    case PyOther => false
    case _ => r == v
  }

  /** A value is rendered so exactly when nothing in it is beyond the contract. */
  lemma {:induction false} RenderingMeans(v: Py)
    ensures Jsonable(v).Some? <==> !HoldsOther(v)
    ensures Jsonable(v).Some? ==> IsRenderingOf(Jsonable(v).value, v)
    decreases v
  {
    match v
    case PyList(items) => ItemsRendered(items);
    case PyTuple(items) => ItemsRendered(items);
    case PyDict(entries) => EntriesRendered(entries);
    case PyMessage(m) => EntriesRendered(m.fields);
    case _ =>
  }

  lemma {:induction false} ItemsRendered(items: seq<Py>)
    ensures JsonableItems(items).Some? <==> forall k | 0 <= k < |items| :: !HoldsOther(items[k])
    ensures JsonableItems(items).Some? ==>
              var r := JsonableItems(items).value;
              r.PyList? && |r.items| == |items| && forall k | 0 <= k < |items| :: IsRenderingOf(r.items[k], items[k])
    decreases items, 0
  {
    forall k | 0 <= k < |items|
      ensures Jsonable(items[k]).Some? <==> !HoldsOther(items[k])
      ensures Jsonable(items[k]).Some? ==> IsRenderingOf(Jsonable(items[k]).value, items[k])
    {
      RenderingMeans(items[k]);
    }
    hide Jsonable, HoldsOther, IsRenderingOf;
  }

  lemma {:induction false} EntriesRendered(entries: seq<Entry>)
    ensures JsonableEntries(entries).Some? <==> forall k | 0 <= k < |entries| :: !HoldsOther(entries[k].value)
    ensures JsonableEntries(entries).Some? ==>
              var r := JsonableEntries(entries).value;
              |r| == |entries| &&
              forall k | 0 <= k < |entries| :: r[k].key == entries[k].key && IsRenderingOf(r[k].value, entries[k].value)
    decreases entries, 0
  {
    forall k | 0 <= k < |entries|
      ensures Jsonable(entries[k].value).Some? <==> !HoldsOther(entries[k].value)
      ensures Jsonable(entries[k].value).Some? ==> IsRenderingOf(Jsonable(entries[k].value).value, entries[k].value)
    {
      RenderingMeans(entries[k].value);
    }
    hide Jsonable, HoldsOther, IsRenderingOf;
  }

  /** A field of one text, number or flag takes the values of its type, unchanged, and no others; only a
      field of reals turns an integer into the float of that value. */
  lemma ScalarFieldsMean(v: Py)
    ensures CoerceFlat(Text, v) == (match v case PyStr(s) => Some(PyStr(s)) case _ => None)
    ensures CoerceFlat(NonEmptyText, v).Some? <==> exists s :: v == PyStr(s) && s != ""
    ensures CoerceFlat(OptionalText, v).Some? <==> v == PyNull || exists s :: v == PyStr(s)
    ensures CoerceFlat(Flag, v).Some? <==> v == PyBool(true) || v == PyBool(false)
    ensures CoerceFlat(Number, v).Some? <==> (exists i :: v == PyInt(i)) || (exists r :: v == PyFloat(r)) || exists b :: v == PyBool(b)
    ensures CoerceFlat(OptionalNumber, v).Some? <==> v == PyNull || CoerceFlat(Number, v).Some?
    ensures CoerceFlat(WholeNumber, v).Some? <==> exists i :: v == PyInt(i)
    ensures forall values :: CoerceFlat(OneOf(values), v).Some? <==> exists s :: v == PyStr(s) && s in values
    ensures forall kind | kind in {NonEmptyText, OptionalText, Flag, Number, OptionalNumber, WholeNumber} || kind.OneOf? ::
              CoerceFlat(kind, v).Some? ==> CoerceFlat(kind, v) == Some(v)
    ensures CoerceFlat(RealNumber, v) == (match v case PyInt(i) => Some(PyFloat(i as real)) case PyFloat(r) => Some(PyFloat(r)) case _ => None)
  {
    match v
    case PyStr(s) => assert v == PyStr(s);
    case PyBool(b) => assert v == PyBool(b);
    case PyInt(i) => assert v == PyInt(i);
    case PyFloat(r) => assert v == PyFloat(r);
    case _ =>
  }

  /** A field of names takes a list or tuple of texts and nothing else, and keeps them as a tuple: in
      order, or, where it is declared sorted, the same texts in Python's order. */
  lemma NameFieldsMean(v: Py)
    ensures CoerceFlat(Texts, v).Some? <==> (v.PyList? || v.PyTuple?) && forall k | 0 <= k < |v.items| :: v.items[k].PyStr?
    ensures CoerceFlat(Texts, v).Some? ==> CoerceFlat(Texts, v) == Some(PyTuple(v.items))
    ensures CoerceFlat(SortedTexts, v).Some? <==> CoerceFlat(Texts, v).Some?
    ensures CoerceFlat(SortedTexts, v).Some? ==>
              var r := CoerceFlat(SortedTexts, v).value;
              r.PyTuple? && multiset(r.items) == multiset(v.items) && (forall k | 0 <= k < |r.items| :: r.items[k].PyStr?) &&
              forall j, k | 0 <= j < k < |r.items| :: r.items[j].s == r.items[k].s || ComesFirst(r.items[j].s, r.items[k].s)
  {
    if CoerceFlat(Texts, v).Some? {
      var texts := TextsOf(v.items).value;
      assert TupleOfTexts(texts).items == v.items;
      SortSorts(texts);
      var sorted := Sort(texts);
      SameTextsSamePys(texts, sorted);
      forall j, k | 0 <= j < k < |sorted| ensures sorted[j] == sorted[k] || ComesFirst(sorted[j], sorted[k]) {
        BeforeIff(sorted[j], sorted[k]);
      }
      hide Sort, Before;
    }
  }

  lemma {:induction false} CountOfTexts(texts: seq<string>, v: Py)
    ensures multiset(TupleOfTexts(texts).items)[v] == if v.PyStr? then multiset(texts)[v.s] else 0
    decreases |texts|
  {
    var items := TupleOfTexts(texts).items;
    if texts != [] {
      CountOfTexts(texts[1..], v);
      assert texts == [texts[0]] + texts[1..];
      assert items == [PyStr(texts[0])] + TupleOfTexts(texts[1..]).items;
    }
  }

  lemma SameTextsSamePys(a: seq<string>, b: seq<string>)
    requires multiset(a) == multiset(b)
    ensures multiset(TupleOfTexts(a).items) == multiset(TupleOfTexts(b).items)
  {
    forall v: Py ensures multiset(TupleOfTexts(a).items)[v] == multiset(TupleOfTexts(b).items)[v] {
      CountOfTexts(a, v);
      CountOfTexts(b, v);
    }
  }

  /** A field of a mapping takes a dictionary the contract can carry, rendered, and, except where it is
      declared plain, null for the empty one; an optional one leaves null as it is. */
  lemma MappingFieldsMean(v: Py)
    ensures CoerceFlat(PlainMapping, v).Some? <==> v.PyDict? && !HoldsOther(v)
    ensures CoerceFlat(Mapping, v).Some? <==> v == PyNull || (v.PyDict? && !HoldsOther(v))
    ensures CoerceFlat(OptionalMapping, v).Some? <==> v == PyNull || (v.PyDict? && !HoldsOther(v))
    ensures v == PyNull ==> CoerceFlat(Mapping, v) == Some(PyDict([])) && CoerceFlat(OptionalMapping, v) == Some(PyNull)
    ensures v.PyDict? && !HoldsOther(v) ==>
              CoerceFlat(Mapping, v) == CoerceFlat(OptionalMapping, v) == CoerceFlat(PlainMapping, v) &&
              CoerceFlat(Mapping, v).Some? && IsRenderingOf(CoerceFlat(Mapping, v).value, v)
    ensures CoerceFlat(AnyJson, v).Some? <==> !HoldsOther(v)
    ensures CoerceFlat(AnyJson, v).Some? ==> IsRenderingOf(CoerceFlat(AnyJson, v).value, v)
  {
    RenderingMeans(v);
    hide Jsonable, HoldsOther, IsRenderingOf;
  }

  // ---- well-typed messages ----

  predicate DistinctDecls(decls: seq<FieldDecl>) {
    forall j, k | 0 <= j < k < |decls| :: decls[j].name != decls[k].name
  }

  /** The class declares no field twice, and each default is a value coercion leaves as it is and JSON
      carries; so do the classes of its nested messages. */
  predicate Sane(cls: Class)
    decreases cls, 0
  {
    DistinctDecls(cls.decls) && forall k | 0 <= k < |cls.decls| :: SaneDecl(cls.decls[k])
  }

  predicate SaneDecl(d: FieldDecl)
    decreases d, 0
  {
    (d.kind.Nested? || d.kind.NestedMany? ==> Sane(d.kind.cls)) &&
    match d.default
    case Required => true
    case Is(value) => Stable(d.kind, value) && NativeField(d.kind, value)
    case Now => d.kind == Unchecked || d.kind == Number
    case NewId => d.kind == Text
  }

  /** The message is one construction leaves as it is. */
  predicate WellTyped(m: Message)
    decreases m, 0
  {
    var decls := m.cls.decls;
    Sane(m.cls) && |m.fields| == |decls| &&
    forall k | 0 <= k < |m.fields| :: m.fields[k].key == decls[k].name && Stable(decls[k].kind, m.fields[k].value)
  }

  predicate Stable(kind: FieldKind, v: Py)
    decreases v, 1
  {
    match kind
    case Nested(cls) => v.PyMessage? && v.m.cls == cls && WellTyped(v.m)
    case NestedMany(cls) => v.PyTuple? && forall k | 0 <= k < |v.items| :: StableOne(cls, v.items[k])
    case _ => CoerceFlat(kind, v) == Some(v)
  }

  predicate StableOne(cls: Class, v: Py)
    decreases v, 1
  {
    v.PyMessage? && v.m.cls == cls && WellTyped(v.m)
  }

  /** Every field that construction does not check holds JSON, in the message and the messages in it. */
  predicate Native(m: Message)
    decreases m, 0
  {
    var decls := m.cls.decls;
    forall k | 0 <= k < |m.fields| && k < |decls| :: NativeField(decls[k].kind, m.fields[k].value)
  }

  predicate NativeField(kind: FieldKind, v: Py)
    decreases v, 1
  {
    match kind
    case Unchecked => IsJson(v)
    case Nested(_) => v.PyMessage? ==> Native(v.m)
    case NestedMany(_) => v.PyTuple? ==> forall k | 0 <= k < |v.items| :: v.items[k].PyMessage? ==> Native(v.items[k].m)
    case _ => true
  }

  predicate Survives(m: Message, clock: Clock) {
    ToJson(m).Some? && FromJson(m.cls, ToJson(m).value, clock) == Some(m)
  }

  // ---- one field ----

  lemma MappingsSurvive(v: Py)
    requires CoerceFlat(Mappings, v) == Some(v)
    ensures Jsonable(v).Some? && CoerceFlat(Mappings, Jsonable(v).value) == Some(v)
  {
    forall k | 0 <= k < |v.items| ensures Jsonable(v.items[k]) == Some(v.items[k]) {
      assert CheckedMapping(v.items[k]) == Some(v.items[k]);
    }
    ItemsUnchanged(v.items);
    hide Jsonable, CheckedMapping;
    assert ItemsOf(PyList(v.items)) == ItemsOf(v);
  }

  lemma TextsSurvive(kind: FieldKind, v: Py)
    requires kind == Texts || kind == SortedTexts
    requires CoerceFlat(kind, v) == Some(v)
    ensures Jsonable(v).Some? && CoerceFlat(kind, Jsonable(v).value) == Some(v)
  {
    assert TextsOf(v.items).Some?;
    forall k | 0 <= k < |v.items| ensures Jsonable(v.items[k]) == Some(v.items[k]) {
      assert v.items[k].PyStr?;
    }
    ItemsUnchanged(v.items);
    hide Jsonable, TextsOf, Sort;
    assert ItemsOf(PyList(v.items)) == ItemsOf(v);
  }

  /** A checked field that holds no message survives rendering and coercion. */
  lemma CheckedFieldSurvives(kind: FieldKind, v: Py)
    requires !kind.Unchecked? && CoerceFlat(kind, v) == Some(v)
    ensures Jsonable(v).Some? && CoerceFlat(kind, Jsonable(v).value) == Some(v)
  {
    hide TextsOf, Sort, IsGuard;
    match kind
    case Mappings => MappingsSurvive(v);
    case Texts => TextsSurvive(kind, v);
    case SortedTexts => TextsSurvive(kind, v);
    case _ =>
  }

  /** Whether a field's value comes back from its own rendering. */
  predicate FieldSurvives(kind: FieldKind, v: Py, clock: Clock) {
    Jsonable(v).Some? && Coerce(kind, Jsonable(v).value, clock) == Some(v)
  }

  lemma {:induction false} FieldSurvivesIff(kind: FieldKind, v: Py, clock: Clock)
    requires Stable(kind, v)
    ensures FieldSurvives(kind, v, clock) <==> NativeField(kind, v)
    decreases v, 2
  {
    match kind
    case Unchecked => RenderedAsItselfIffJson(v);
    case Nested(cls) => OneSurvivesIff(cls, v, clock);
    case NestedMany(cls) => ManySurviveIff(cls, v, clock);
    case _ => CheckedFieldSurvives(kind, v);
  }

  lemma {:induction false} OneSurvivesIff(cls: Class, v: Py, clock: Clock)
    requires StableOne(cls, v)
    ensures Jsonable(v).Some? && CoerceOne(cls, Jsonable(v).value, clock) == Some(v) <==> Native(v.m)
    decreases v, 1
  {
    SurvivesIff(v.m, clock);
    hide ToJson, FromJson, Native, WellTyped;
  }

  lemma {:induction false} ManySurviveIff(cls: Class, v: Py, clock: Clock)
    requires v.PyTuple? && forall k | 0 <= k < |v.items| :: StableOne(cls, v.items[k])
    ensures FieldSurvives(NestedMany(cls), v, clock) <==> NativeField(NestedMany(cls), v)
    decreases v, 1
  {
    forall k | 0 <= k < |v.items|
      ensures Jsonable(v.items[k]).Some? && CoerceOne(cls, Jsonable(v.items[k]).value, clock) == Some(v.items[k]) <==> Native(v.items[k].m)
    {
      OneSurvivesIff(cls, v.items[k], clock);
    }
    hide Jsonable, Coerce, CoerceOne, Native, StableOne, FieldSurvives;
    ManySurviveTogether(cls, v, clock);
    AllAreMessages(cls, v.items);
  }

  lemma AllAreMessages(cls: Class, items: seq<Py>)
    requires forall k | 0 <= k < |items| :: StableOne(cls, items[k])
    ensures forall k | 0 <= k < |items| :: items[k].PyMessage?
  {
  }

  /** A tuple of messages survives exactly when each of them does. */
  lemma ManySurviveTogether(cls: Class, v: Py, clock: Clock)
    requires v.PyTuple?
    ensures FieldSurvives(NestedMany(cls), v, clock) <==>
            forall k | 0 <= k < |v.items| :: Jsonable(v.items[k]).Some? && CoerceOne(cls, Jsonable(v.items[k]).value, clock) == Some(v.items[k])
  {
    var rendered := Jsonable(v);
    assert rendered == JsonableItems(v.items);
    if rendered.Some? {
      var items := rendered.value.items;
      assert |items| == |v.items| && forall k | 0 <= k < |items| :: Jsonable(v.items[k]) == Some(items[k]);
      hide Jsonable, CoerceOne;
      var back := Coerce(NestedMany(cls), rendered.value, clock);
      if back == Some(v) {
        forall k | 0 <= k < |items| ensures CoerceOne(cls, items[k], clock) == Some(v.items[k]) {
          assert back.value.items[k] == v.items[k];
        }
      }
      if forall k | 0 <= k < |items| :: CoerceOne(cls, items[k], clock) == Some(v.items[k]) {
        var coerced := back.value.items;
        assert coerced == v.items;
      }
    }
  }

  // ---- a whole message ----

  /** The message names its class's fields, in order. */
  predicate NamesItsFields(m: Message) {
    var decls := m.cls.decls;
    |m.fields| == |decls| && forall k | 0 <= k < |decls| :: m.fields[k].key == decls[k].name
  }

  lemma FindsItsOwn(decls: seq<FieldDecl>, rendered: seq<Entry>, tag: seq<Entry>, k: nat)
    requires DistinctDecls(decls) && |rendered| == |decls| && k < |decls|
    requires forall j | 0 <= j < |decls| :: rendered[j].key == decls[j].name
    ensures Find(rendered + tag, decls[k].name) == k
  {
    var entries := rendered + tag;
    var found := Find(entries, decls[k].name);
    assert entries[k].key == decls[k].name && found <= k;
    assert entries[found].key == decls[found].name;
  }

  /** Reading a rendered field back coerces its rendering. */
  lemma FieldReadBack(m: Message, k: nat, clock: Clock)
    requires Sane(m.cls) && NamesItsFields(m) && k < |m.fields| && ToJson(m).Some?
    ensures Jsonable(m.fields[k].value).Some?
    ensures FieldOf(m.cls.decls[k], ToJson(m).value, clock) ==
            Coerce(m.cls.decls[k].kind, Jsonable(m.fields[k].value).value, clock)
  {
    var decls, rendered := m.cls.decls, JsonableEntries(m.fields).value;
    hide Coerce, Find, SaneDecl;
    FindsItsOwn(decls, rendered, Tag(m.cls), k);
    assert (rendered + Tag(m.cls))[k] == rendered[k];
  }

  lemma FieldsComeBack(m: Message, clock: Clock)
    requires Sane(m.cls) && NamesItsFields(m)
    requires forall k | 0 <= k < |m.fields| :: FieldSurvives(m.cls.decls[k].kind, m.fields[k].value, clock)
    ensures Survives(m, clock)
  {
    hide Coerce, Jsonable, FieldOf;
    assert ToJson(m).Some?;
    var decls, entries := m.cls.decls, ToJson(m).value;
    forall k | 0 <= k < |decls| ensures FieldOf(decls[k], entries, clock) == Some(m.fields[k].value) {
      FieldReadBack(m, k, clock);
    }
    var back := FromJson(m.cls, entries, clock).value;
    assert back.fields == m.fields;
  }

  lemma EachFieldComesBack(m: Message, k: nat, clock: Clock)
    requires Sane(m.cls) && NamesItsFields(m) && Survives(m, clock) && k < |m.fields|
    ensures FieldSurvives(m.cls.decls[k].kind, m.fields[k].value, clock)
  {
    FieldReadBack(m, k, clock);
    hide Coerce, Jsonable, FieldOf;
    var back := FromJson(m.cls, ToJson(m).value, clock).value;
    assert back.fields[k] == m.fields[k];
  }

  /** A well-typed message comes back from its own JSON unchanged exactly when every field that
      construction leaves unchecked, in it and in the messages inside it, holds JSON. */
  lemma {:induction false} SurvivesIff(m: Message, clock: Clock)
    requires WellTyped(m)
    ensures Survives(m, clock) <==> Native(m)
    decreases m, 3
  {
    var decls := m.cls.decls;
    forall k | 0 <= k < |m.fields|
      ensures FieldSurvives(decls[k].kind, m.fields[k].value, clock) <==> NativeField(decls[k].kind, m.fields[k].value)
    {
      FieldSurvivesIff(decls[k].kind, m.fields[k].value, clock);
    }
    hide FieldSurvives, NativeField, Survives;
    if Native(m) {
      FieldsComeBack(m, clock);
    }
    if Survives(m, clock) {
      forall k | 0 <= k < |m.fields| ensures FieldSurvives(decls[k].kind, m.fields[k].value, clock) {
        EachFieldComesBack(m, k, clock);
      }
    }
  }

  /** The class, and every class of a message inside its messages, checks each field it declares. */
  predicate ChecksEverything(cls: Class) {
    forall k | 0 <= k < |cls.decls| ::
      var kind := cls.decls[k].kind;
      !kind.Unchecked? && (kind.Nested? || kind.NestedMany? ==> ChecksEverything(kind.cls))
  }

  lemma {:induction false} CheckedIsNative(m: Message)
    requires WellTyped(m) && ChecksEverything(m.cls)
    ensures Native(m)
    decreases m
  {
    var decls := m.cls.decls;
    forall k | 0 <= k < |m.fields| ensures NativeField(decls[k].kind, m.fields[k].value) {
      var kind, v := decls[k].kind, m.fields[k].value;
      if kind.Nested? {
        CheckedIsNative(v.m);
      } else if kind.NestedMany? {
        forall j | 0 <= j < |v.items| ensures v.items[j].PyMessage? ==> Native(v.items[j].m) {
          assert StableOne(kind.cls, v.items[j]);
          CheckedIsNative(v.items[j].m);
        }
      }
    }
  }

  /** A message of a class that checks everything always survives. */
  lemma CheckedMessagesAlwaysSurvive(m: Message, clock: Clock)
    requires WellTyped(m) && ChecksEverything(m.cls)
    ensures Survives(m, clock)
  {
    CheckedIsNative(m);
    SurvivesIff(m, clock);
  }

  // ---- what construction gives is well typed ----

  /** Every message inside the value is well typed. */
  predicate Sound(v: Py) {
    match v
    case PyMessage(m) => WellTyped(m)
    case PyList(items) => forall k | 0 <= k < |items| :: Sound(items[k])
    case PyTuple(items) => forall k | 0 <= k < |items| :: Sound(items[k])
    case PyDict(entries) => forall k | 0 <= k < |entries| :: Sound(entries[k].value)
    case _ => true
  }

  predicate IsSorted(texts: seq<string>) {
    forall j, k | 0 <= j < k < |texts| :: AtMost(texts[j], texts[k])
  }

  lemma {:induction false} InsertSorts(text: string, texts: seq<string>)
    requires IsSorted(texts)
    ensures IsSorted(SortedInsert(text, texts)) && multiset(SortedInsert(text, texts)) == multiset{text} + multiset(texts)
    decreases |texts|
  {
    if texts == [] || AtMost(text, texts[0]) {
      forall k | 0 <= k < |texts| ensures AtMost(text, texts[k]) {
        BeforeIsTransitive(text, texts[0], texts[k]);
      }
    } else {
      BeforeIsTotal(text, texts[0]);
      InsertSorts(text, texts[1..]);
      StillFirst(text, texts, SortedInsert(text, texts[1..]));
      hide AtMost;
      assert texts == [texts[0]] + texts[1..];
    }
  }

  lemma StillFirst(text: string, texts: seq<string>, rest: seq<string>)
    requires texts != [] && IsSorted(texts) && AtMost(texts[0], text)
    requires multiset(rest) == multiset{text} + multiset(texts[1..])
    ensures forall k | 0 <= k < |rest| :: AtMost(texts[0], rest[k])
  {
    hide AtMost;
    forall k | 0 <= k < |rest| ensures AtMost(texts[0], rest[k]) {
      assert rest[k] in multiset(rest);
      assert rest[k] == text || rest[k] in texts[1..];
    }
  }

  lemma {:induction false} SortSorts(texts: seq<string>)
    ensures IsSorted(Sort(texts)) && multiset(Sort(texts)) == multiset(texts)
    decreases |texts|
  {
    if texts != [] {
      SortSorts(texts[1..]);
      InsertSorts(texts[0], Sort(texts[1..]));
      assert texts == [texts[0]] + texts[1..];
    }
  }

  lemma {:induction false} SortedStays(texts: seq<string>)
    requires IsSorted(texts)
    ensures Sort(texts) == texts
    decreases |texts|
  {
    if texts != [] {
      SortedStays(texts[1..]);
      assert texts == [texts[0]] + texts[1..];
    }
  }

  lemma TextsAgain(texts: seq<string>)
    ensures ItemsOf(TupleOfTexts(texts)).Some? && TextsOf(ItemsOf(TupleOfTexts(texts)).value) == Some(texts)
  {
    var read := TextsOf(TupleOfTexts(texts).items).value;
    assert read == texts;
  }

  lemma MappingsAgain(v: Py)
    requires CoerceFlat(Mappings, v).Some?
    ensures var r := CoerceFlat(Mappings, v).value; CoerceFlat(Mappings, r) == Some(r)
  {
    var items, r := ItemsOf(v).value, CoerceFlat(Mappings, v).value;
    forall k | 0 <= k < |items| ensures CheckedMapping(r.items[k]) == Some(r.items[k]) {
      CheckedAgain(items[k]);
    }
    hide CheckedMapping;
    var again := CoerceFlat(Mappings, r).value;
    assert again.items == r.items;
  }

  lemma CheckedAgain(v: Py)
    requires CheckedMapping(v).Some?
    ensures var r := CheckedMapping(v).value; r.PyDict? && CheckedMapping(r) == Some(r)
  {
    EntriesUnchanged([]);
    if v.PyDict? {
      RenderingAgainChangesNothing(v);
    }
  }

  lemma GuardAgain(v: Py)
    requires CoerceFlat(Guard, v).Some?
    ensures var r := CoerceFlat(Guard, v).value; CoerceFlat(Guard, r) == Some(r)
  {
    RenderingAgainChangesNothing(v);
    var r := Jsonable(v).value;
    forall k | 0 <= k < |r.entries| ensures r.entries[k].key != "" && ItemsOf(r.entries[k].value).Some? {
      assert r.entries[k] == Entry(v.entries[k].key, Jsonable(v.entries[k].value).value);
      var w := v.entries[k].value;
      assert ItemsOf(w).Some?;
      assert Jsonable(w) == JsonableItems(w.items);
    }
  }

  /** Coercing what coercion gave changes nothing. */
  lemma CoercedAgain(kind: FieldKind, v: Py)
    requires CoerceFlat(kind, v).Some?
    ensures var r := CoerceFlat(kind, v).value; CoerceFlat(kind, r) == Some(r)
  {
    match kind
    case Mapping => CheckedAgain(v);
    case OptionalMapping => if !v.PyNull? { CheckedAgain(v); }
    case PlainMapping => RenderingAgainChangesNothing(v);
    case TextMapping => CheckedAgain(v);
    case Mappings => MappingsAgain(v);
    case Texts => TextsAgain(TextsOf(ItemsOf(v).value).value);
    case SortedTexts =>
      var texts := TextsOf(ItemsOf(v).value).value;
      SortSorts(texts);
      SortedStays(Sort(texts));
      TextsAgain(Sort(texts));
    case Guard => GuardAgain(v);
    case AnyJson => RenderingAgainChangesNothing(v);
    case _ =>
  }

  lemma DefaultFits(d: FieldDecl, clock: Clock)
    requires SaneDecl(d) && !d.default.Required?
    ensures var v := match d.default case Is(value) => value case Now => PyFloat(clock.now) case NewId => PyStr(clock.id);
            Stable(d.kind, v) && NativeField(d.kind, v)
  {
  }

  lemma {:induction false} CoercedIsStable(kind: FieldKind, v: Py, clock: Clock)
    requires Sound(v) && Coerce(kind, v, clock).Some? && (kind.Nested? || kind.NestedMany? ==> Sane(kind.cls))
    ensures Stable(kind, Coerce(kind, v, clock).value)
    decreases v, 3
  {
    match kind
    case Nested(cls) => CoercedOneIsStable(cls, v, clock);
    case NestedMany(cls) =>
      forall k | 0 <= k < |v.items| ensures StableOne(cls, CoerceOne(cls, v.items[k], clock).value) {
        CoercedOneIsStable(cls, v.items[k], clock);
      }
      hide CoerceOne, StableOne;
    case _ => CoercedAgain(kind, v);
  }

  lemma {:induction false} CoercedOneIsStable(cls: Class, v: Py, clock: Clock)
    requires Sane(cls) && Sound(v) && CoerceOne(cls, v, clock).Some?
    ensures StableOne(cls, CoerceOne(cls, v, clock).value)
    decreases v, 2
  {
    if v.PyDict? {
      BuiltIsWellTyped(cls, v.entries, clock);
      hide FromJson;
    }
  }

  lemma {:induction false} FieldIsStable(d: FieldDecl, entries: seq<Entry>, clock: Clock)
    requires SaneDecl(d)
    requires FieldOf(d, entries, clock).Some? && forall k | 0 <= k < |entries| :: Sound(entries[k].value)
    ensures Stable(d.kind, FieldOf(d, entries, clock).value)
    decreases entries, 4
  {
    var k := Find(entries, d.name);
    if k < |entries| {
      CoercedIsStable(d.kind, entries[k].value, clock);
    } else {
      DefaultFits(d, clock);
    }
    hide Coerce, Stable, SaneDecl;
  }

  /** What construction accepts, given well-typed messages and anything else, is a well-typed message. */
  lemma {:induction false} BuiltIsWellTyped(cls: Class, entries: seq<Entry>, clock: Clock)
    requires Sane(cls) && FromJson(cls, entries, clock).Some? && forall k | 0 <= k < |entries| :: Sound(entries[k].value)
    ensures WellTyped(FromJson(cls, entries, clock).value) && FromJson(cls, entries, clock).value.cls == cls
    decreases entries, 5
  {
    var decls, m := cls.decls, FromJson(cls, entries, clock).value;
    forall k | 0 <= k < |decls| ensures Stable(decls[k].kind, m.fields[k].value) {
      FieldIsStable(decls[k], entries, clock);
    }
    hide FieldOf, Stable;
  }

  // ---- what is read off the wire ----

  lemma {:induction false} JsonIsSound(v: Py)
    requires IsJson(v)
    ensures Sound(v)
  {
    match v
    case PyList(items) =>
      forall k | 0 <= k < |items| ensures Sound(items[k]) {
        JsonIsSound(items[k]);
      }
    case PyDict(entries) =>
      forall k | 0 <= k < |entries| ensures Sound(entries[k].value) {
        JsonIsSound(entries[k].value);
      }
    case _ =>
  }

  lemma {:induction false} ReadFieldIsNative(kind: FieldKind, v: Py, clock: Clock)
    requires IsJson(v) && Coerce(kind, v, clock).Some? && (kind.Nested? || kind.NestedMany? ==> Sane(kind.cls))
    ensures NativeField(kind, Coerce(kind, v, clock).value)
    decreases v, 3
  {
    match kind
    case Nested(cls) => ReadOneIsNative(cls, v, clock);
    case NestedMany(cls) =>
      forall k | 0 <= k < |v.items| ensures CoerceOne(cls, v.items[k], clock).value.PyMessage? && Native(CoerceOne(cls, v.items[k], clock).value.m) {
        ReadOneIsNative(cls, v.items[k], clock);
      }
      hide CoerceOne, Native;
    case _ =>
  }

  lemma {:induction false} ReadOneIsNative(cls: Class, v: Py, clock: Clock)
    requires Sane(cls) && IsJson(v) && CoerceOne(cls, v, clock).Some?
    ensures CoerceOne(cls, v, clock).value.PyMessage? && Native(CoerceOne(cls, v, clock).value.m)
    decreases v, 2
  {
    ReadIsNative(cls, v.entries, clock);
    hide FromJson, Native;
  }

  lemma {:induction false} ReadIsNative(cls: Class, entries: seq<Entry>, clock: Clock)
    requires Sane(cls) && FromJson(cls, entries, clock).Some? && forall k | 0 <= k < |entries| :: IsJson(entries[k].value)
    ensures Native(FromJson(cls, entries, clock).value)
    decreases entries, 5
  {
    var decls, m := cls.decls, FromJson(cls, entries, clock).value;
    forall k | 0 <= k < |decls| ensures NativeField(decls[k].kind, m.fields[k].value) {
      var at := Find(entries, decls[k].name);
      if at < |entries| {
        ReadFieldIsNative(decls[k].kind, entries[at].value, clock);
      } else {
        DefaultFits(decls[k], clock);
      }
    }
    hide FieldOf, NativeField;
  }

  /** A message read off the wire is well typed and survives being written and read again, whenever. */
  lemma WhatIsReadSurvives(cls: Class, entries: seq<Entry>, clock: Clock, later: Clock)
    requires Sane(cls) && FromJson(cls, entries, clock).Some? && forall k | 0 <= k < |entries| :: IsJson(entries[k].value)
    ensures WellTyped(FromJson(cls, entries, clock).value) && Survives(FromJson(cls, entries, clock).value, later)
  {
    forall k | 0 <= k < |entries| ensures Sound(entries[k].value) {
      JsonIsSound(entries[k].value);
    }
    BuiltIsWellTyped(cls, entries, clock);
    ReadIsNative(cls, entries, clock);
    SurvivesIff(FromJson(cls, entries, clock).value, later);
  }

  // ---- the discriminator ----

  /** An event's discriminator is found in its JSON, where no field of its own is called `kind`. */
  lemma TagIsFound(m: Message)
    requires NamesItsFields(m) && m.cls.kind.Some? && ToJson(m).Some?
    requires forall k | 0 <= k < |m.cls.decls| :: m.cls.decls[k].name != "kind"
    ensures var entries := ToJson(m).value; var k := Find(entries, "kind");
            k < |entries| && entries[k].value == PyStr(m.cls.kind.value)
  {
    var decls, rendered := m.cls.decls, JsonableEntries(m.fields).value;
    var entries := rendered + Tag(m.cls);
    assert entries[|rendered|] == Tag(m.cls)[0];
    forall j | 0 <= j < |rendered| ensures entries[j].key != "kind" {
      assert rendered[j].key == decls[j].name;
    }
  }
}
