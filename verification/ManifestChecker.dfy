/** Checking a document against the JSON Schema keywords that the capability manifest uses. */
module ManifestChecker {
  import opened PyValues

  /** A document. An object is its members in insertion order; no two have the same key. */
  datatype Json =
    | JNull
    | JBool(b: bool)
    | JInt(i: int)
    | JFloat(r: real)
    | JStr(s: string)
    | JArray(items: seq<Json>)
    | JObject(members: seq<Member>)

  datatype Member = Member(key: string, value: Json)

  /** What a schema says about the keys it does not name. */
  datatype Extra = Anything | Forbidden | Matching(schema: Schema)

  datatype Schema = Schema(
    ref: Option<string>,
    types: Option<seq<string>>,
    values: Option<seq<Json>>,
    properties: map<string, Schema>,
    required: seq<string>,
    extra: Extra,
    items: Option<Schema>)

  /** A schema that says nothing. */
  const AnySchema := Schema(None, None, None, map[], [], Anything, None)

  /** The named schemas of the root document. */
  type Definitions = map<string, Schema>

  datatype PathStep = Key(name: string) | Index(position: nat)

  datatype Problem = Unresolved(ref: string) | WrongType | NotListed | MissingKey(key: string) | UnexpectedKey(key: string)

  datatype Error = Error(path: seq<PathStep>, problem: Problem)

  const RefPrefix := "#/$defs/"

  /** The name a local reference points at. */
  function DefName(ref: string): Option<string> {
    if RefPrefix <= ref then Some(ref[|RefPrefix|..]) else None
  }

  function Resolve(ref: string, defs: Definitions): (name: Option<string>)
    ensures name.Some? ==> name.value in defs
  {
    var name := DefName(ref);
    if name.Some? && name.value in defs then name else None
  }

  predicate HasKey(members: seq<Member>, key: string) {
    exists k :: 0 <= k < |members| && members[k].key == key
  }

  // ---- the two readings of a keyword ----

  /** How a keyword is read: as the checker does, or as draft 2020-12 of JSON Schema does. */
  datatype Reading = Checker | Standard

  function Number(v: Json): Option<real> {
    match v
    case JBool(b) => Some(if b then 1.0 else 0.0)
    case JInt(i) => Some(i as real)
    case JFloat(r) => Some(r)
    case _ => None
  }

  /** Equality of two documents. The checker's is Python's, where `True` equals 1; in the standard
      a boolean equals only itself. */
  predicate Equal(reading: Reading, a: Json, b: Json) {
    match a
    case JNull => b.JNull?
    case JStr(s) => b == a
    case JArray(items) =>
      b.JArray? && |items| == |b.items| && forall k | 0 <= k < |items| :: Equal(reading, items[k], b.items[k])
    case JObject(members) =>
      b.JObject? && |members| == |b.members| &&
      forall k | 0 <= k < |members| ::
        exists j :: 0 <= j < |b.members| && b.members[j].key == members[k].key && Equal(reading, members[k].value, b.members[j].value)
    case _ =>
      Number(a) == Number(b) && (reading.Standard? ==> a.JBool? == b.JBool?)
  }

  predicate IsWhole(r: real) {
    r == r.Floor as real
  }

  /** Whether a document has a named type. A boolean is never a number; to the standard, though not
      to the checker, a float without a fraction is an integer. */
  predicate HasType(reading: Reading, v: Json, name: string) {
    match v
    case JNull => name == "null"
    case JBool(_) => name == "boolean"
    case JInt(_) => name == "integer" || name == "number"
    case JFloat(r) => name == "number" || (name == "integer" && reading.Standard? && IsWhole(r))
    case JStr(_) => name == "string"
    case JArray(_) => name == "array"
    case JObject(_) => name == "object"
  }

  predicate TypeMatches(reading: Reading, v: Json, s: Schema) {
    s.types.Some? ==> exists k :: 0 <= k < |s.types.value| && HasType(reading, v, s.types.value[k])
  }

  predicate IsListed(reading: Reading, v: Json, s: Schema) {
    s.values.Some? ==> exists k :: 0 <= k < |s.values.value| && Equal(reading, v, s.values.value[k])
  }

  // ---- what a schema means ----

  /** The value satisfies the schema. A reference means what it points at; one that points nowhere, or
      only ever at further references, is satisfied by nothing. To the checker the other keywords
      beside a reference mean nothing, to the standard they still hold. */
  predicate Satisfies(reading: Reading, v: Json, s: Schema, defs: Definitions, followed: set<string>)
    decreases v, 2 + |defs.Keys - followed|
  {
    (s.ref.Some? ==>
       var name := Resolve(s.ref.value, defs);
       name.Some? && name.value !in followed &&
       (Fewer(defs, followed, name.value);
        Satisfies(reading, v, defs[name.value], defs, followed + {name.value}))) &&
    (s.ref.None? || reading.Standard? ==> SatisfiesKeywords(reading, v, s, defs))
  }

  /** The value satisfies every keyword of the schema but `$ref`. */
  predicate SatisfiesKeywords(reading: Reading, v: Json, s: Schema, defs: Definitions)
    decreases v, 1
  {
    TypeMatches(reading, v, s) && IsListed(reading, v, s) &&
    match v
    case JObject(members) =>
      (forall key | key in s.required :: HasKey(members, key)) &&
      (forall k | 0 <= k < |members| :: SatisfiesMember(reading, members[k], s, defs))
    case JArray(items) =>
      s.items.Some? ==> forall k | 0 <= k < |items| :: Satisfies(reading, items[k], s.items.value, defs, {})
    case _ => true
  }

  /** A member satisfies the schema of its own key, or else what the schema asks of other keys. */
  predicate SatisfiesMember(reading: Reading, m: Member, s: Schema, defs: Definitions)
    decreases m, 0
  {
    if m.key in s.properties then Satisfies(reading, m.value, s.properties[m.key], defs, {})
    else
      match s.extra
      case Anything => true
      case Forbidden => false
      case Matching(schema) => Satisfies(reading, m.value, schema, defs, {})
  }

  lemma Fewer(defs: Definitions, followed: set<string>, name: string)
    requires name in defs && name !in followed
    ensures |defs.Keys - (followed + {name})| < |defs.Keys - followed|
  {
    assert defs.Keys - followed == (defs.Keys - (followed + {name})) + {name};
  }

  // ---- when checking ends ----

  /** Following references from a schema reaches one that is not a reference, or that does not resolve. */
  predicate ChainEnds(s: Schema, defs: Definitions, followed: set<string>)
    decreases |defs.Keys - followed|
  {
    s.ref.Some? ==>
      var name := Resolve(s.ref.value, defs);
      name.Some? ==>
        name.value !in followed && (Fewer(defs, followed, name.value); ChainEnds(defs[name.value], defs, followed + {name.value}))
  }

  /** Checking the value ends: no chain of references that it follows comes back on itself. */
  predicate Ends(v: Json, s: Schema, defs: Definitions, followed: set<string>)
    decreases v, 2 + |defs.Keys - followed|
  {
    if s.ref.Some? then
      var name := Resolve(s.ref.value, defs);
      name.Some? ==>
        name.value !in followed && (Fewer(defs, followed, name.value); Ends(v, defs[name.value], defs, followed + {name.value}))
    else
      TypeMatches(Checker, v, s) ==>
        match v
        case JObject(members) => forall k | 0 <= k < |members| :: MemberEnds(members[k], s, defs)
        case JArray(items) => s.items.Some? ==> forall k | 0 <= k < |items| :: Ends(items[k], s.items.value, defs, {})
        case _ => true
  }

  predicate MemberEnds(m: Member, s: Schema, defs: Definitions)
    decreases m, 0
  {
    if m.key in s.properties then Ends(m.value, s.properties[m.key], defs, {})
    else s.extra.Matching? ==> Ends(m.value, s.extra.schema, defs, {})
  }

  // ---- the errors of a document ----

  /** The error is one of those that checking the value at `path` finds. */
  ghost predicate Reports(e: Error, path: seq<PathStep>, v: Json, s: Schema, defs: Definitions, followed: set<string>)
    decreases v, 2 + |defs.Keys - followed|
  {
    if s.ref.Some? then
      var name := Resolve(s.ref.value, defs);
      if name.None? then e == Error(path, Unresolved(s.ref.value))
      else
        name.value !in followed &&
        (Fewer(defs, followed, name.value); Reports(e, path, v, defs[name.value], defs, followed + {name.value}))
    else if !TypeMatches(Checker, v, s) then e == Error(path, WrongType)
    else
      (e == Error(path, NotListed) && !IsListed(Checker, v, s)) ||
      match v
      case JObject(members) => ReportsObject(e, path, v, s, defs)
      case JArray(items) => s.items.Some? && ReportsItems(e, path, v, s.items.value, defs)
      case _ => false
  }

  ghost predicate ReportsItems(e: Error, path: seq<PathStep>, v: Json, s: Schema, defs: Definitions)
    requires v.JArray?
    decreases v, 1
  {
    exists k :: 0 <= k < |v.items| && Reports(e, path + [Index(k)], v.items[k], s, defs, {})
  }

  ghost predicate ReportsObject(e: Error, path: seq<PathStep>, v: Json, s: Schema, defs: Definitions)
    requires v.JObject?
    decreases v, 1
  {
    (e.path == path && e.problem.MissingKey? && e.problem.key in s.required && !HasKey(v.members, e.problem.key)) ||
    exists k :: 0 <= k < |v.members| && ReportsMember(e, path, v.members[k], s, defs)
  }

  ghost predicate ReportsMember(e: Error, path: seq<PathStep>, m: Member, s: Schema, defs: Definitions)
    decreases m, 0
  {
    if m.key in s.properties then Reports(e, path + [Key(m.key)], m.value, s.properties[m.key], defs, {})
    else
      match s.extra
      case Anything => false
      case Forbidden => e == Error(path, UnexpectedKey(m.key))
      case Matching(schema) => Reports(e, path + [Key(m.key)], m.value, schema, defs, {})
  }

  // ---- the checker ----

  /** The error list every call appends to. */
  class ErrorList {
    var list: seq<Error>

    constructor ()
      ensures list == []
    {
      list := [];
    }

    method Append(path: seq<PathStep>, problem: Problem)
      modifies this
      ensures list == old(list) + [Error(path, problem)]
      ensures forall e :: New(old(list), list, e) <==> e == Error(path, problem)
    {
      NewestIsNew(list, Error(path, problem));
      list := list + [Error(path, problem)];
    }
  }

  /** The error was appended after `before`. */
  ghost predicate New(before: seq<Error>, after: seq<Error>, e: Error) {
    exists k :: |before| <= k < |after| && after[k] == e
  }

  lemma NewInSteps(first: seq<Error>, second: seq<Error>, third: seq<Error>)
    requires first <= second <= third
    ensures forall e :: New(first, third, e) <==> New(first, second, e) || New(second, third, e)
  {
    forall e ensures New(first, third, e) <==> New(first, second, e) || New(second, third, e) {
      if New(first, second, e) {
        var k :| |first| <= k < |second| && second[k] == e;
        assert third[k] == e;
      }
      if New(first, third, e) {
        var k :| |first| <= k < |third| && third[k] == e;
        assert k < |second| ==> second[k] == e;
      }
    }
  }

  lemma NothingNew(list: seq<Error>)
    ensures forall e :: !New(list, list, e)
  {
  }

  lemma NewestIsNew(before: seq<Error>, last: Error)
    ensures forall e :: New(before, before + [last], e) <==> e == last
  {
    assert (before + [last])[|before|] == last;
  }

  /** Appends exactly the errors of the value. `ended` is false when following references never ends,
      which the source meets as a recursion error. */
  method Check(value: Json, schema: Schema, defs: Definitions, followed: set<string>, path: seq<PathStep>, errors: ErrorList)
    returns (ended: bool)
    modifies errors
    ensures old(errors.list) <= errors.list
    ensures ended <==> Ends(value, schema, defs, followed)
    ensures ended ==> forall e :: New(old(errors.list), errors.list, e) <==> Reports(e, path, value, schema, defs, followed)
    decreases value, 2 + |defs.Keys - followed|
  {
    hide TypeMatches, IsListed, ReportsObject, ReportsItems, MemberEnds, Resolve, New;
    if schema.ref.Some? {
      var name := Resolve(schema.ref.value, defs);
      if name.None? {
        errors.Append(path, Unresolved(schema.ref.value));
        return true;
      }
      if name.value in followed {
        return false;
      }
      Fewer(defs, followed, name.value);
      ended := Check(value, defs[name.value], defs, followed + {name.value}, path, errors);
      return;
    }
    if !TypeMatches(Checker, value, schema) {
      errors.Append(path, WrongType);
      return true;
    }
    NothingNew(errors.list);
    if !IsListed(Checker, value, schema) {
      errors.Append(path, NotListed);
    }
    ghost var listed := errors.list;
    NothingNew(listed);
    ended := true;
    if value.JObject? {
      ended := CheckObject(value, schema, defs, path, errors);
    } else if value.JArray? && schema.items.Some? {
      ended := CheckItems(value, schema.items.value, defs, path, errors);
    }
    NewInSteps(old(errors.list), listed, errors.list);
  }

  method CheckItems(value: Json, schema: Schema, defs: Definitions, path: seq<PathStep>, errors: ErrorList)
    returns (ended: bool)
    requires value.JArray?
    modifies errors
    ensures old(errors.list) <= errors.list
    ensures ended <==> forall k | 0 <= k < |value.items| :: Ends(value.items[k], schema, defs, {})
    ensures ended ==> forall e :: New(old(errors.list), errors.list, e) <==> ReportsItems(e, path, value, schema, defs)
    decreases value, 1
  {
    hide Reports, Ends, New;
    NothingNew(errors.list);
    for k := 0 to |value.items|
      invariant old(errors.list) <= errors.list
      invariant forall j | 0 <= j < k :: Ends(value.items[j], schema, defs, {})
      invariant forall e :: New(old(errors.list), errors.list, e) <==>
        exists j :: 0 <= j < k && Reports(e, path + [Index(j)], value.items[j], schema, defs, {})
    {
      ghost var before := errors.list;
      ended := Check(value.items[k], schema, defs, {}, path + [Index(k)], errors);
      NewInSteps(old(errors.list), before, errors.list);
      if !ended {
        return;
      }
    }
    ended := true;
  }

  method CheckObject(value: Json, schema: Schema, defs: Definitions, path: seq<PathStep>, errors: ErrorList)
    returns (ended: bool)
    requires value.JObject?
    modifies errors
    ensures old(errors.list) <= errors.list
    ensures ended <==> forall k | 0 <= k < |value.members| :: MemberEnds(value.members[k], schema, defs)
    ensures ended ==> forall e :: New(old(errors.list), errors.list, e) <==> ReportsObject(e, path, value, schema, defs)
    decreases value, 1
  {
    hide Reports, ReportsMember, Ends, MemberEnds, New;
    CheckRequired(value, schema, path, errors);
    ghost var complete := errors.list;
    NothingNew(complete);
    for k := 0 to |value.members|
      invariant old(errors.list) <= complete <= errors.list
      invariant forall j | 0 <= j < k :: MemberEnds(value.members[j], schema, defs)
      invariant forall e :: New(complete, errors.list, e) <==>
        exists j :: 0 <= j < k && ReportsMember(e, path, value.members[j], schema, defs)
    {
      ghost var before := errors.list;
      ended := CheckMember(value.members[k], schema, defs, path, errors);
      NewInSteps(complete, before, errors.list);
      if !ended {
        return;
      }
    }
    NewInSteps(old(errors.list), complete, errors.list);
    ended := true;
  }

  method CheckRequired(value: Json, schema: Schema, path: seq<PathStep>, errors: ErrorList)
    requires value.JObject?
    modifies errors
    ensures old(errors.list) <= errors.list
    ensures forall e :: New(old(errors.list), errors.list, e) <==>
              e.path == path && e.problem.MissingKey? && e.problem.key in schema.required && !HasKey(value.members, e.problem.key)
  {
    hide New, HasKey;
    NothingNew(errors.list);
    for k := 0 to |schema.required|
      invariant old(errors.list) <= errors.list
      invariant forall e :: New(old(errors.list), errors.list, e) <==>
        e.path == path && e.problem.MissingKey? && e.problem.key in schema.required[..k] && !HasKey(value.members, e.problem.key)
    {
      ghost var before := errors.list;
      if !HasKey(value.members, schema.required[k]) {
        errors.Append(path, MissingKey(schema.required[k]));
      }
      NewInSteps(old(errors.list), before, errors.list);
      NothingNew(before);
      assert schema.required[..k + 1] == schema.required[..k] + [schema.required[k]];
    }
    assert schema.required[..|schema.required|] == schema.required;
  }

  method CheckMember(m: Member, schema: Schema, defs: Definitions, path: seq<PathStep>, errors: ErrorList)
    returns (ended: bool)
    modifies errors
    ensures old(errors.list) <= errors.list
    ensures ended <==> MemberEnds(m, schema, defs)
    ensures ended ==> forall e :: New(old(errors.list), errors.list, e) <==> ReportsMember(e, path, m, schema, defs)
    decreases m, 0
  {
    hide Reports, Ends, New;
    NothingNew(errors.list);
    ended := true;
    if m.key in schema.properties {
      ended := Check(m.value, schema.properties[m.key], defs, {}, path + [Key(m.key)], errors);
    } else if schema.extra.Forbidden? {
      errors.Append(path, UnexpectedKey(m.key));
    } else if schema.extra.Matching? {
      ended := Check(m.value, schema.extra.schema, defs, {}, path + [Key(m.key)], errors);
    }
  }

  /** A value that satisfies its schema has no error. */
  lemma {:induction false} NothingReportedIfSatisfied(e: Error, path: seq<PathStep>, v: Json, s: Schema, defs: Definitions, followed: set<string>)
    requires Satisfies(Checker, v, s, defs, followed)
    ensures !Reports(e, path, v, s, defs, followed)
    decreases v, 2 + |defs.Keys - followed|
  {
    hide TypeMatches, IsListed, Resolve, HasKey;
    if s.ref.Some? {
      var name := Resolve(s.ref.value, defs);
      Fewer(defs, followed, name.value);
      NothingReportedIfSatisfied(e, path, v, defs[name.value], defs, followed + {name.value});
    } else {
      assert SatisfiesKeywords(Checker, v, s, defs);
      match v
      case JObject(members) =>
        forall k | 0 <= k < |members| ensures !ReportsMember(e, path, members[k], s, defs) {
          NoMemberErrorIfSatisfied(e, path, members[k], s, defs);
        }
      case JArray(items) =>
        if s.items.Some? {
          forall k | 0 <= k < |items| ensures !Reports(e, path + [Index(k)], items[k], s.items.value, defs, {}) {
            NothingReportedIfSatisfied(e, path + [Index(k)], items[k], s.items.value, defs, {});
          }
        }
      case _ =>
    }
  }

  lemma {:induction false} NoMemberErrorIfSatisfied(e: Error, path: seq<PathStep>, m: Member, s: Schema, defs: Definitions)
    requires SatisfiesMember(Checker, m, s, defs)
    ensures !ReportsMember(e, path, m, s, defs)
    decreases m, 0
  {
    if m.key in s.properties {
      NothingReportedIfSatisfied(e, path + [Key(m.key)], m.value, s.properties[m.key], defs, {});
    } else if s.extra.Matching? {
      NothingReportedIfSatisfied(e, path + [Key(m.key)], m.value, s.extra.schema, defs, {});
    }
  }

  /** A value that does not satisfy its schema has an error, where checking ends. */
  lemma {:induction false} SomethingReportedUnlessSatisfied(path: seq<PathStep>, v: Json, s: Schema, defs: Definitions, followed: set<string>)
    returns (e: Error)
    requires Ends(v, s, defs, followed) && !Satisfies(Checker, v, s, defs, followed)
    ensures Reports(e, path, v, s, defs, followed)
    decreases v, 3 + |defs.Keys - followed|
  {
    hide TypeMatches, IsListed, Resolve, HasKey, ReportsObject, ReportsItems, MemberEnds, SatisfiesMember;
    if s.ref.Some? {
      var name := Resolve(s.ref.value, defs);
      if name.None? {
        return Error(path, Unresolved(s.ref.value));
      }
      Fewer(defs, followed, name.value);
      e := SomethingReportedUnlessSatisfied(path, v, defs[name.value], defs, followed + {name.value});
    } else {
      e := KeywordErrorUnlessSatisfied(path, v, s, defs, followed);
    }
  }

  lemma {:induction false} KeywordErrorUnlessSatisfied(path: seq<PathStep>, v: Json, s: Schema, defs: Definitions, followed: set<string>)
    returns (e: Error)
    requires s.ref.None? && Ends(v, s, defs, followed) && !SatisfiesKeywords(Checker, v, s, defs)
    ensures Reports(e, path, v, s, defs, followed)
    decreases v, 2
  {
    hide TypeMatches, IsListed, HasKey, ReportsObject, ReportsItems, MemberEnds, SatisfiesMember;
    if !TypeMatches(Checker, v, s) {
      e := Error(path, WrongType);
    } else if !IsListed(Checker, v, s) {
      e := Error(path, NotListed);
    } else if v.JObject? {
      e := ObjectErrorUnlessSatisfied(path, v, s, defs);
    } else {
      e := ItemErrorUnlessSatisfied(path, v, s.items.value, defs);
    }
  }

  lemma {:induction false} ItemErrorUnlessSatisfied(path: seq<PathStep>, v: Json, s: Schema, defs: Definitions) returns (e: Error)
    requires v.JArray? && forall k | 0 <= k < |v.items| :: Ends(v.items[k], s, defs, {})
    requires exists k | 0 <= k < |v.items| :: !Satisfies(Checker, v.items[k], s, defs, {})
    ensures ReportsItems(e, path, v, s, defs)
    decreases v, 1
  {
    hide Satisfies, Ends, Reports;
    var k :| 0 <= k < |v.items| && !Satisfies(Checker, v.items[k], s, defs, {});
    e := SomethingReportedUnlessSatisfied(path + [Index(k)], v.items[k], s, defs, {});
  }

  lemma {:induction false} ObjectErrorUnlessSatisfied(path: seq<PathStep>, v: Json, s: Schema, defs: Definitions) returns (e: Error)
    requires v.JObject? && forall k | 0 <= k < |v.members| :: MemberEnds(v.members[k], s, defs)
    requires (exists key | key in s.required :: !HasKey(v.members, key)) ||
             exists k | 0 <= k < |v.members| :: !SatisfiesMember(Checker, v.members[k], s, defs)
    ensures ReportsObject(e, path, v, s, defs)
    decreases v, 1
  {
    hide SatisfiesMember, MemberEnds, ReportsMember, HasKey;
    if key :| key in s.required && !HasKey(v.members, key) {
      e := Error(path, MissingKey(key));
    } else {
      var k :| 0 <= k < |v.members| && !SatisfiesMember(Checker, v.members[k], s, defs);
      e := MemberErrorUnlessSatisfied(path, v.members[k], s, defs);
    }
  }

  lemma {:induction false} MemberErrorUnlessSatisfied(path: seq<PathStep>, m: Member, s: Schema, defs: Definitions) returns (e: Error)
    requires MemberEnds(m, s, defs) && !SatisfiesMember(Checker, m, s, defs)
    ensures ReportsMember(e, path, m, s, defs)
    decreases m, 0
  {
    if m.key in s.properties {
      e := SomethingReportedUnlessSatisfied(path + [Key(m.key)], m.value, s.properties[m.key], defs, {});
    } else if s.extra.Forbidden? {
      e := Error(path, UnexpectedKey(m.key));
    } else {
      e := SomethingReportedUnlessSatisfied(path + [Key(m.key)], m.value, s.extra.schema, defs, {});
    }
  }

  /** Checking a value, where it ends, finds no error exactly when the value satisfies its schema. */
  lemma NothingReportedIffSatisfied(path: seq<PathStep>, v: Json, s: Schema, defs: Definitions)
    requires Ends(v, s, defs, {})
    ensures Satisfies(Checker, v, s, defs, {}) <==> forall e :: !Reports(e, path, v, s, defs, {})
  {
    if Satisfies(Checker, v, s, defs, {}) {
      forall e ensures !Reports(e, path, v, s, defs, {}) {
        NothingReportedIfSatisfied(e, path, v, s, defs, {});
      }
    } else {
      var e := SomethingReportedUnlessSatisfied(path, v, s, defs, {});
    }
  }

  /** Every error of a document; none when following references never ends. */
  method Validate(manifest: Json, schema: Schema, defs: Definitions) returns (errors: Option<seq<Error>>)
    ensures errors.Some? <==> Ends(manifest, schema, defs, {})
    ensures errors.Some? ==> forall e :: e in errors.value <==> Reports(e, [], manifest, schema, defs, {})
    ensures errors.Some? ==> (errors.value == [] <==> Satisfies(Checker, manifest, schema, defs, {}))
  {
    var found := new ErrorList();
    var ended := Check(manifest, schema, defs, {}, [], found);
    if ended {
      assert forall e :: e in found.list <==> New([], found.list, e);
      NothingReportedIffSatisfied([], manifest, schema, defs);
      assert found.list != [] ==> found.list[0] in found.list;
    }
    errors := if ended then Some(found.list) else None;
  }

  // ---- what the checker takes each keyword to mean, case by case ----

  /** A boolean is not a number, an integer is one, and a float without a fraction is no integer. */
  lemma TypesMean(v: Json)
    ensures HasType(Checker, v, "null") <==> v == JNull
    ensures HasType(Checker, v, "boolean") <==> v == JBool(true) || v == JBool(false)
    ensures HasType(Checker, v, "integer") <==> exists i :: v == JInt(i)
    ensures HasType(Checker, v, "number") <==> (exists i :: v == JInt(i)) || exists r :: v == JFloat(r)
    ensures HasType(Checker, v, "string") <==> exists s :: v == JStr(s)
    ensures HasType(Checker, v, "array") <==> exists items :: v == JArray(items)
    ensures HasType(Checker, v, "object") <==> exists members :: v == JObject(members)
    ensures forall name | name !in {"null", "boolean", "integer", "number", "string", "array", "object"} :: !HasType(Checker, v, name)
  {
    match v
    case JNull =>
    case JBool(_) =>
    case JInt(i) => assert v == JInt(i);
    case JFloat(r) => assert v == JFloat(r);
    case JStr(s) => assert v == JStr(s);
    case JArray(items) => assert v == JArray(items);
    case JObject(members) => assert v == JObject(members);
  }

  /** Listed values are compared as Python does: texts and null equal only themselves, numbers compare by
      value, and `true` and `false` are the numbers 1 and 0. */
  lemma ListedValuesMean(v: Json, listed: Json)
    ensures listed.JNull? || listed.JStr? ==> (Equal(Checker, v, listed) <==> v == listed)
    ensures listed.JInt? ==>
              (Equal(Checker, v, listed) <==>
                 v == listed || v == JFloat(listed.i as real) || (v == JBool(true) && listed.i == 1) || (v == JBool(false) && listed.i == 0))
    ensures listed.JBool? ==>
              (Equal(Checker, v, listed) <==>
                 v == listed || v == JInt(if listed.b then 1 else 0) || v == JFloat(if listed.b then 1.0 else 0.0))
  {
  }

  /** An object without a reference, a type or a list of values is accepted exactly when it has a member
      for each required key, and each member satisfies the schema of its key or, where no property has
      that key, what is said of other keys. */
  lemma ObjectIsAcceptedIff(members: seq<Member>, s: Schema, defs: Definitions)
    requires s.ref.None? && s.types.None? && s.values.None?
    ensures Satisfies(Checker, JObject(members), s, defs, {}) <==>
            (forall key | key in s.required :: exists k :: 0 <= k < |members| && members[k].key == key) &&
            forall k | 0 <= k < |members| ::
              var m := members[k];
              if m.key in s.properties then Satisfies(Checker, m.value, s.properties[m.key], defs, {})
              else !s.extra.Forbidden? && (s.extra.Matching? ==> Satisfies(Checker, m.value, s.extra.schema, defs, {}))
  {
    hide Satisfies;
    assert Satisfies(Checker, JObject(members), s, defs, {}) <==> SatisfiesKeywords(Checker, JObject(members), s, defs) by {
      NoReference(JObject(members), s, defs);
    }
  }

  lemma NoReference(v: Json, s: Schema, defs: Definitions)
    requires s.ref.None?
    ensures Satisfies(Checker, v, s, defs, {}) <==> SatisfiesKeywords(Checker, v, s, defs)
  {
    hide SatisfiesKeywords;
  }

  /** Every error is at the path of the value checked or inside it. */
  lemma {:induction false} ErrorsAreInside(e: Error, path: seq<PathStep>, v: Json, s: Schema, defs: Definitions, followed: set<string>)
    requires Reports(e, path, v, s, defs, followed)
    ensures path <= e.path
    decreases v, 2 + |defs.Keys - followed|
  {
    hide TypeMatches, IsListed, Resolve, HasKey;
    if s.ref.Some? {
      var name := Resolve(s.ref.value, defs);
      if name.Some? {
        Fewer(defs, followed, name.value);
        ErrorsAreInside(e, path, v, defs[name.value], defs, followed + {name.value});
      }
    } else if e.path != path {
      if v.JArray? {
        var k :| 0 <= k < |v.items| && Reports(e, path + [Index(k)], v.items[k], s.items.value, defs, {});
        ErrorsAreInside(e, path + [Index(k)], v.items[k], s.items.value, defs, {});
      } else {
        var k :| 0 <= k < |v.members| && ReportsMember(e, path, v.members[k], s, defs);
        MemberErrorsAreInside(e, path, v.members[k], s, defs);
      }
    }
  }

  lemma {:induction false} MemberErrorsAreInside(e: Error, path: seq<PathStep>, m: Member, s: Schema, defs: Definitions)
    requires ReportsMember(e, path, m, s, defs)
    ensures path <= e.path && (e.path == path ==> e.problem.UnexpectedKey?)
    decreases m, 0
  {
    if m.key in s.properties {
      ErrorsAreInside(e, path + [Key(m.key)], m.value, s.properties[m.key], defs, {});
    } else if s.extra.Matching? {
      ErrorsAreInside(e, path + [Key(m.key)], m.value, s.extra.schema, defs, {});
    }
  }

  /** An object is reported to lack a key exactly when the key is required and no member has it. */
  lemma MissingKeyIsReportedIff(path: seq<PathStep>, members: seq<Member>, s: Schema, defs: Definitions, key: string)
    requires s.ref.None? && TypeMatches(Checker, JObject(members), s)
    ensures Reports(Error(path, MissingKey(key)), path, JObject(members), s, defs, {}) <==>
            key in s.required && forall k | 0 <= k < |members| :: members[k].key != key
  {
    var e := Error(path, MissingKey(key));
    forall k | 0 <= k < |members| ensures !ReportsMember(e, path, members[k], s, defs) {
      if ReportsMember(e, path, members[k], s, defs) {
        MemberErrorsAreInside(e, path, members[k], s, defs);
      }
    }
    hide ReportsMember, IsListed, TypeMatches;
  }

  /** A reference means the definition of the name after the prefix, and anything else points nowhere. */
  lemma ReferencesMean(v: Json, name: string, other: string, defs: Definitions)
    requires !(RefPrefix <= other)
    ensures Satisfies(Checker, v, AnySchema.(ref := Some("#/$defs/" + name)), defs, {}) <==>
            name in defs && Satisfies(Checker, v, defs[name], defs, {name})
    ensures !Satisfies(Checker, v, AnySchema.(ref := Some(other)), defs, {})
  {
    assert ("#/$defs/" + name)[|RefPrefix|..] == name;
    assert {} + {name} == {name};
    hide SatisfiesKeywords;
  }

  // ---- checking always ends exactly when no definition refers to itself ----

  predicate NoReferenceLoops(defs: Definitions) {
    forall name | name in defs :: ChainEnds(defs[name], defs, {name})
  }

  lemma ChainFromAnywhereEnds(s: Schema, defs: Definitions)
    requires NoReferenceLoops(defs)
    ensures ChainEnds(s, defs, {})
  {
    if s.ref.Some? {
      var name := Resolve(s.ref.value, defs);
      if name.Some? {
        assert {} + {name.value} == {name.value};
      }
    }
  }

  lemma {:induction false} CheckingEnds(v: Json, s: Schema, defs: Definitions, followed: set<string>)
    requires NoReferenceLoops(defs) && ChainEnds(s, defs, followed)
    ensures Ends(v, s, defs, followed)
    decreases v, 2 + |defs.Keys - followed|
  {
    hide NoReferenceLoops, TypeMatches;
    if s.ref.Some? {
      var name := Resolve(s.ref.value, defs);
      if name.Some? {
        Fewer(defs, followed, name.value);
        CheckingEnds(v, defs[name.value], defs, followed + {name.value});
      }
    } else {
      match v
      case JObject(members) =>
        forall k | 0 <= k < |members| ensures MemberEnds(members[k], s, defs) {
          MemberCheckEnds(members[k], s, defs);
        }
      case JArray(items) =>
        if s.items.Some? {
          forall k | 0 <= k < |items| ensures Ends(items[k], s.items.value, defs, {}) {
            ChainFromAnywhereEnds(s.items.value, defs);
            CheckingEnds(items[k], s.items.value, defs, {});
          }
        }
      case _ =>
    }
  }

  lemma {:induction false} MemberCheckEnds(m: Member, s: Schema, defs: Definitions)
    requires NoReferenceLoops(defs)
    ensures MemberEnds(m, s, defs)
    decreases m, 0
  {
    hide NoReferenceLoops, Ends;
    if m.key in s.properties {
      ChainFromAnywhereEnds(s.properties[m.key], defs);
      CheckingEnds(m.value, s.properties[m.key], defs, {});
    } else if s.extra.Matching? {
      ChainFromAnywhereEnds(s.extra.schema, defs);
      CheckingEnds(m.value, s.extra.schema, defs, {});
    }
  }

  lemma {:induction false} AnEndlessChainNeverEnds(v: Json, s: Schema, defs: Definitions, followed: set<string>)
    requires !ChainEnds(s, defs, followed)
    ensures !Ends(v, s, defs, followed)
    decreases |defs.Keys - followed|
  {
    var name := Resolve(s.ref.value, defs);
    if name.value !in followed {
      Fewer(defs, followed, name.value);
      AnEndlessChainNeverEnds(v, defs[name.value], defs, followed + {name.value});
    }
  }

  /** Checking ends for every document and every schema exactly when no definition refers back to itself. */
  lemma CheckingAlwaysEndsIffNoReferenceLoops(defs: Definitions)
    ensures (forall v, s :: Ends(v, s, defs, {})) <==> NoReferenceLoops(defs)
  {
    if NoReferenceLoops(defs) {
      forall v, s ensures Ends(v, s, defs, {}) {
        ChainFromAnywhereEnds(s, defs);
        CheckingEnds(v, s, defs, {});
      }
    } else {
      var name :| name in defs && !ChainEnds(defs[name], defs, {name});
      var s := AnySchema.(ref := Some(RefPrefix + name));
      assert (RefPrefix + name)[|RefPrefix|..] == name;
      assert {} + {name} == {name};
      AnEndlessChainNeverEnds(JNull, s, defs, {});
    }
  }

  /** When no definition is itself a reference, as in the manifest's own schema, checking always ends. */
  lemma DirectDefinitionsAlwaysEnd(v: Json, s: Schema, defs: Definitions)
    requires forall name | name in defs :: defs[name].ref.None?
    ensures Ends(v, s, defs, {})
  {
    ChainFromAnywhereEnds(s, defs);
    CheckingEnds(v, s, defs, {});
  }

  // ---- the checker against the standard ----

  predicate IsScalar(v: Json) {
    !v.JArray? && !v.JObject?
  }

  /** The boolean and the number Python takes it for are listed together, or neither is. */
  ghost predicate ListedTogether(values: seq<Json>, b: bool) {
    (JBool(b) in values) <==> exists k :: 0 <= k < |values| && !values[k].JBool? && Number(values[k]) == Number(JBool(b))
  }

  /** Listed scalars are read alike on every document exactly when 1 and `true` are listed together,
      and 0 and `false`. */
  lemma ListsAgreeIff(s: Schema)
    requires s.values.Some? && forall e | e in s.values.value :: IsScalar(e)
    ensures (forall v :: IsListed(Checker, v, s) == IsListed(Standard, v, s)) <==>
            ListedTogether(s.values.value, true) && ListedTogether(s.values.value, false)
  {
    var values := s.values.value;
    if ListedTogether(values, true) && ListedTogether(values, false) {
      forall v ensures IsListed(Checker, v, s) == IsListed(Standard, v, s) {
        ListedTogetherIsAlike(v, s);
      }
    }
    if b: bool :| !ListedTogether(values, b) {
      var number := JInt(if b then 1 else 0);
      assert Number(number) == Number(JBool(b));
      if JBool(b) in values {
        var k :| 0 <= k < |values| && values[k] == JBool(b);
        assert Equal(Checker, number, values[k]);
        assert !IsListed(Standard, number, s);
      } else {
        var k :| 0 <= k < |values| && !values[k].JBool? && Number(values[k]) == Number(JBool(b));
        assert Equal(Checker, JBool(b), values[k]);
        assert !IsListed(Standard, JBool(b), s);
      }
    }
  }

  lemma ListedTogetherIsAlike(v: Json, s: Schema)
    requires s.values.Some? && forall e | e in s.values.value :: IsScalar(e)
    requires ListedTogether(s.values.value, true) && ListedTogether(s.values.value, false)
    ensures IsListed(Checker, v, s) == IsListed(Standard, v, s)
  {
    var values := s.values.value;
    forall k | 0 <= k < |values| && Equal(Checker, v, values[k])
      ensures IsListed(Standard, v, s)
    {
      assert IsScalar(values[k]);
      if Equal(Standard, v, values[k]) {
      } else if v.JBool? {
        assert ListedTogether(values, v.b);
        var j :| 0 <= j < |values| && values[j] == v;
        assert Equal(Standard, v, values[j]);
      } else {
        assert ListedTogether(values, values[k].b);
        assert values[k] in values;
        var j :| 0 <= j < |values| && !values[j].JBool? && Number(values[j]) == Number(values[k]);
        assert Equal(Standard, v, values[j]);
      }
    }
    forall k | 0 <= k < |values| && Equal(Standard, v, values[k])
      ensures Equal(Checker, v, values[k])
    {
      assert IsScalar(values[k]);
    }
  }

  /** Nothing beside a reference, and lists of scalars that both readings read alike: the form of the
      manifest's own schema, which lists only strings. */
  ghost predicate Plain(s: Schema) {
    (s.ref.Some? ==> s == AnySchema.(ref := s.ref)) &&
    (s.values.Some? ==>
       (forall e | e in s.values.value :: IsScalar(e)) && ListedTogether(s.values.value, true) && ListedTogether(s.values.value, false)) &&
    (forall key | key in s.properties :: Plain(s.properties[key])) &&
    (s.extra.Matching? ==> Plain(s.extra.schema)) &&
    (s.items.Some? ==> Plain(s.items.value))
  }

  /** The value is a float without a fraction where integers are asked for and other numbers are not. */
  predicate IsWholeFloatForInteger(v: Json, s: Schema) {
    v.JFloat? && IsWhole(v.r) && s.types.Some? && "integer" in s.types.value && "number" !in s.types.value
  }

  /** Going through the value as the checker does meets no such float. */
  predicate Clean(v: Json, s: Schema, defs: Definitions, followed: set<string>)
    decreases v, 2 + |defs.Keys - followed|
  {
    if s.ref.Some? then
      var name := Resolve(s.ref.value, defs);
      name.Some? && name.value !in followed ==>
        (Fewer(defs, followed, name.value); Clean(v, defs[name.value], defs, followed + {name.value}))
    else
      !IsWholeFloatForInteger(v, s) &&
      match v
      case JObject(members) => forall k | 0 <= k < |members| :: CleanMember(members[k], s, defs)
      case JArray(items) => s.items.Some? ==> forall k | 0 <= k < |items| :: Clean(items[k], s.items.value, defs, {})
      case _ => true
  }

  predicate CleanMember(m: Member, s: Schema, defs: Definitions)
    decreases m, 0
  {
    if m.key in s.properties then Clean(m.value, s.properties[m.key], defs, {})
    else s.extra.Matching? ==> Clean(m.value, s.extra.schema, defs, {})
  }

  lemma TypeReadings(v: Json, s: Schema)
    ensures TypeMatches(Checker, v, s) <==> TypeMatches(Standard, v, s) && !IsWholeFloatForInteger(v, s)
  {
    if s.types.Some? {
      var types := s.types.value;
      forall k | 0 <= k < |types|
        ensures HasType(Checker, v, types[k]) ==> HasType(Standard, v, types[k]) && (v.JFloat? ==> types[k] == "number")
        ensures HasType(Standard, v, types[k]) ==>
                  HasType(Checker, v, types[k]) || (types[k] == "integer" && v.JFloat? && IsWhole(v.r))
      {
        assert types[k] in types;
      }
      if v.JFloat? && "number" in types {
        var n :| 0 <= n < |types| && types[n] == "number";
        assert HasType(Checker, v, types[n]) && HasType(Standard, v, types[n]);
      }
    }
  }

  lemma KeywordReadings(v: Json, s: Schema)
    requires Plain(s)
    ensures TypeMatches(Checker, v, s) <==> TypeMatches(Standard, v, s) && !IsWholeFloatForInteger(v, s)
    ensures IsListed(Checker, v, s) == IsListed(Standard, v, s)
  {
    TypeReadings(v, s);
    if s.values.Some? {
      ListedTogetherIsAlike(v, s);
    }
  }

  lemma {:induction false} ReadingsAgree(v: Json, s: Schema, defs: Definitions, followed: set<string>)
    requires Plain(s) && forall name | name in defs :: Plain(defs[name])
    ensures Satisfies(Checker, v, s, defs, followed) <==> Satisfies(Standard, v, s, defs, followed) && Clean(v, s, defs, followed)
    decreases v, 2 + |defs.Keys - followed|
  {
    hide SatisfiesKeywords, SatisfiesMember, CleanMember, Resolve, IsWholeFloatForInteger;
    if s.ref.Some? {
      var name := Resolve(s.ref.value, defs);
      if name.Some? && name.value !in followed {
        Fewer(defs, followed, name.value);
        ReadingsAgree(v, defs[name.value], defs, followed + {name.value});
      }
      NothingBesideAReference(v, s, defs);
    } else {
      KeywordsAgree(v, s, defs, followed);
    }
  }

  lemma NothingBesideAReference(v: Json, s: Schema, defs: Definitions)
    requires s == AnySchema.(ref := s.ref)
    ensures SatisfiesKeywords(Standard, v, s, defs)
  {
  }

  lemma {:induction false} KeywordsAgree(v: Json, s: Schema, defs: Definitions, followed: set<string>)
    requires s.ref.None? && Plain(s) && forall name | name in defs :: Plain(defs[name])
    ensures SatisfiesKeywords(Checker, v, s, defs) <==> SatisfiesKeywords(Standard, v, s, defs) && Clean(v, s, defs, followed)
    decreases v, 1
  {
    KeywordReadings(v, s);
    hide TypeMatches, IsListed, Satisfies;
    match v
    case JObject(members) =>
      forall k | 0 <= k < |members|
        ensures SatisfiesMember(Checker, members[k], s, defs) <==>
                SatisfiesMember(Standard, members[k], s, defs) && CleanMember(members[k], s, defs)
      {
        MemberReadingsAgree(members[k], s, defs);
      }
    case JArray(items) =>
      if s.items.Some? {
        forall k | 0 <= k < |items|
          ensures Satisfies(Checker, items[k], s.items.value, defs, {}) <==>
                  Satisfies(Standard, items[k], s.items.value, defs, {}) && Clean(items[k], s.items.value, defs, {})
        {
          ReadingsAgree(items[k], s.items.value, defs, {});
        }
      }
    case _ =>
  }

  lemma {:induction false} MemberReadingsAgree(m: Member, s: Schema, defs: Definitions)
    requires Plain(s) && forall name | name in defs :: Plain(defs[name])
    ensures SatisfiesMember(Checker, m, s, defs) <==> SatisfiesMember(Standard, m, s, defs) && CleanMember(m, s, defs)
    decreases m, 0
  {
    hide Satisfies, Clean;
    if m.key in s.properties {
      ReadingsAgree(m.value, s.properties[m.key], defs, {});
    } else if s.extra.Matching? {
      ReadingsAgree(m.value, s.extra.schema, defs, {});
    }
  }

  /** For schemas of the manifest's form a document is accepted exactly when it is valid by the standard
      and nowhere puts a float without a fraction where integers are asked for and numbers are not. */
  lemma AcceptedIffValidAndClean(v: Json, s: Schema, defs: Definitions)
    requires Plain(s) && forall name | name in defs :: Plain(defs[name])
    ensures Satisfies(Checker, v, s, defs, {}) <==> Satisfies(Standard, v, s, defs, {}) && Clean(v, s, defs, {})
  {
    ReadingsAgree(v, s, defs, {});
  }

  /** The type keyword is read alike on every document exactly when "integer" never stands without "number". */
  lemma TypesAgreeIff(s: Schema)
    ensures (forall v :: TypeMatches(Checker, v, s) == TypeMatches(Standard, v, s)) <==>
            (s.types.Some? && "integer" in s.types.value ==> "number" in s.types.value)
  {
    if s.types.Some? && "integer" in s.types.value {
      var types := s.types.value;
      var i :| 0 <= i < |types| && types[i] == "integer";
      if "number" in types {
        var n :| 0 <= n < |types| && types[n] == "number";
        forall v ensures TypeMatches(Checker, v, s) == TypeMatches(Standard, v, s) {
          assert v.JFloat? ==> HasType(Checker, v, types[n]);
          if !v.JFloat? {
            forall k | 0 <= k < |types| ensures HasType(Checker, v, types[k]) == HasType(Standard, v, types[k]) {
            }
          }
        }
      } else {
        assert HasType(Standard, JFloat(1.0), types[i]);
        assert !TypeMatches(Checker, JFloat(1.0), s);
      }
    } else if s.types.Some? {
      var types := s.types.value;
      forall v ensures TypeMatches(Checker, v, s) == TypeMatches(Standard, v, s) {
        forall k | 0 <= k < |types| ensures HasType(Checker, v, types[k]) == HasType(Standard, v, types[k]) {
          assert types[k] in types;
        }
      }
    }
  }

  /** Beside a reference the checker reads nothing: two schemas with the same reference report the same
      errors, end alike and accept the same values, and the standard accepts of those exactly the ones
      that also satisfy the keywords beside it, where it reads the reference alone as the checker does. */
  lemma KeywordsBesideAReferenceAreIgnored(v: Json, s: Schema, defs: Definitions)
    requires s.ref.Some?
    ensures var bare := AnySchema.(ref := s.ref);
            (forall e, path :: Reports(e, path, v, s, defs, {}) == Reports(e, path, v, bare, defs, {})) &&
            Ends(v, s, defs, {}) == Ends(v, bare, defs, {}) &&
            Satisfies(Checker, v, s, defs, {}) == Satisfies(Checker, v, bare, defs, {}) &&
            (Satisfies(Checker, v, bare, defs, {}) == Satisfies(Standard, v, bare, defs, {}) ==>
               (Satisfies(Standard, v, s, defs, {}) <==> Satisfies(Checker, v, s, defs, {}) && SatisfiesKeywords(Standard, v, s, defs)))
  {
    NothingBesideAReference(v, AnySchema.(ref := s.ref), defs);
    hide SatisfiesKeywords;
  }

  /** So a string is accepted beside "type": "integer", which the standard refuses. */
  lemma ATypeBesideAReferenceIsIgnored()
    ensures var s := AnySchema.(ref := Some(RefPrefix + "any"), types := Some(["integer"]));
            var defs := map["any" := AnySchema];
            Satisfies(Checker, JStr("x"), s, defs, {}) && !Satisfies(Standard, JStr("x"), s, defs, {})
  {
    var s := AnySchema.(ref := Some(RefPrefix + "any"), types := Some(["integer"]));
    var defs := map["any" := AnySchema];
    assert (RefPrefix + "any")[|RefPrefix|..] == "any";
    assert Satisfies(Checker, JStr("x"), AnySchema, defs, {"any"});
    assert {} + {"any"} == {"any"};
    assert !TypeMatches(Standard, JStr("x"), s);
  }
}
