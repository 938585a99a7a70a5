/** The projection of a raw entity onto its two planes: the facts, which cover every declared
    field, and the knowledge, which is all a compile task ever sees. */
module SourceProjection {
  import opened Wrappers
  import opened Sequences
  import opened Orders
  import Text
  import opened CanonicalJson

  datatype FieldType = TNumeric | TText | TBoolean | TRefList | TTimestamp

  datatype Field = Field(name: string, fieldType: FieldType, filterable: bool)

  type Schema = seq<Field>

  datatype Policy = Policy(knowledgeFields: seq<string>, sensitiveFields: seq<string>)

  datatype RawEntity = RawEntity(id: string, fields: map<string, Json>, sourceRevision: nat)

  datatype FactValue =
    | Numeric(value: real)
    | PlainText(utf8: Bytes)
    | Boolean(truth: bool)
    | RefList(refs: seq<Bytes>)
    | Timestamp(seconds: int)

  datatype Facts = Facts(entityId: string, fields: map<string, FactValue>, sourceRevision: nat)

  datatype Prepared = Prepared(full: RawEntity, knowledge: RawEntity, facts: Facts, snapshotHash: string)

  datatype Error =
    | PolicyInvalid
    | RevisionOutOfRange
    | EmptyEntry
    | DuplicateEntry(name: string)
    | NotDeclared(name: string)
    | Filterable(name: string)
    | WrongType(name: string)
    | Sensitive(name: string)
    | MissingField(name: string)
    | WrongValue(name: string)
    | NotHashable

  const MAX_REVISION: nat := 0x7FFF_FFFF_FFFF_FFFF

  /** What the projection takes from elsewhere: the remaining policy checks, the reading of a
      number's text as a float and as an integer, and the hash of the original. */
  datatype Environment = Environment(
    policyOk: Policy -> bool, asFloat: Bytes -> Option<real>, asInteger: Bytes -> Option<int>,
    snapshotHash: RawEntity -> Option<string>)

  // ----- The knowledge fields -----

  function NameOf(f: Field): string { f.name }

  function IsDefault(sensitive: seq<string>): Field -> bool {
    (f: Field) => f.fieldType == TText && !f.filterable && f.name !in sensitive
  }

  /** The first declaration of a name. */
  function Find(schema: Schema, name: string): (r: Option<Field>)
    ensures r.Some? ==> r.value in schema && r.value.name == name
    ensures r.None? <==> forall f :: f in schema ==> f.name != name
  {
    if schema == [] then None
    else
      var earlier := Find(schema[..|schema| - 1], name);
      if earlier.Some? then earlier
      else if schema[|schema| - 1].name == name then Some(schema[|schema| - 1])
      else None
  }

  /** Why an entry of an explicit list is refused, given the entries before it. */
  function EntryError(policy: Policy, schema: Schema, i: nat): Option<Error>
    requires i < |policy.knowledgeFields|
  {
    var name := policy.knowledgeFields[i];
    var declared := Find(schema, name);
    if Text.Trim(name) == "" then Some(EmptyEntry)
    else if name in policy.knowledgeFields[..i] then Some(DuplicateEntry(name))
    else if declared.None? then Some(NotDeclared(name))
    else if declared.value.filterable then Some(Filterable(name))
    else if !declared.value.fieldType.TText? && !declared.value.fieldType.TRefList? then Some(WrongType(name))
    else if name in policy.sensitiveFields then Some(Sensitive(name))
    else None
  }

  /** What each entry of an explicit list is refused for, if at all. */
  function EntryErrors(policy: Policy, schema: Schema): (r: seq<Option<Error>>)
    ensures |r| == |policy.knowledgeFields| && forall i :: 0 <= i < |r| ==> r[i] == EntryError(policy, schema, i)
  {
    seq(|policy.knowledgeFields|, i requires 0 <= i < |policy.knowledgeFields| => EntryError(policy, schema, i))
  }

  function FirstSome<E>(s: seq<Option<E>>): (r: Option<E>)
    ensures r.None? <==> forall i :: 0 <= i < |s| ==> s[i].None?
  {
    if s == [] then None
    else
      var earlier := FirstSome(s[..|s| - 1]);
      if earlier.Some? then earlier else s[|s| - 1]
  }

  lemma {:induction false} FirstSomeIs<E>(s: seq<Option<E>>, i: nat)
    requires i < |s| && s[i].Some? && forall j :: 0 <= j < i ==> s[j].None?
    ensures FirstSome(s) == s[i]
  {
    if i < |s| - 1 {
      FirstSomeIs(s[..|s| - 1], i);
    }
  }

  function Resolved(policy: Policy, schema: Schema): Result<seq<string>, Error> {
    if policy.knowledgeFields == [] then Success(Map(NameOf, Filter(IsDefault(policy.sensitiveFields), schema)))
    else
      var refusal := FirstSome(EntryErrors(policy, schema));
      if refusal.Some? then Failure(refusal.value) else Success(policy.knowledgeFields)
  }

  method ResolveKnowledgeFields(policy: Policy, schema: Schema) returns (outcome: Result<seq<string>, Error>)
    ensures outcome == Resolved(policy, schema)
  {
    if policy.knowledgeFields == [] {
      return Success(Map(NameOf, Filter(IsDefault(policy.sensitiveFields), schema)));
    }
    var names := policy.knowledgeFields;
    var seen: set<string> := {};
    for i := 0 to |names|
      invariant forall j :: 0 <= j < i ==> EntryErrors(policy, schema)[j].None?
      invariant seen == Elements(names[..i])
    {
      var name := names[i];
      TakeStep(names, i);
      if EntryError(policy, schema, i).Some? {
        FirstSomeIs(EntryErrors(policy, schema), i);
      }
      if Text.Trim(name) == "" {
        return Failure(EmptyEntry);
      }
      if name in seen {
        return Failure(DuplicateEntry(name));
      }
      seen := seen + {name};
      var declared := Find(schema, name);
      if declared.None? {
        return Failure(NotDeclared(name));
      }
      if declared.value.filterable {
        return Failure(Filterable(name));
      }
      if !declared.value.fieldType.TText? && !declared.value.fieldType.TRefList? {
        return Failure(WrongType(name));
      }
      if name in policy.sensitiveFields {
        return Failure(Sensitive(name));
      }
    }
    return Success(names);
  }

  // ----- The projection -----

  /** The texts of an array of strings; any other element fails the whole. */
  function Texts(items: seq<Json>): Option<seq<Bytes>> {
    if items == [] then Some([])
    else
      var earlier, last := Texts(items[..|items| - 1]), items[|items| - 1];
      if earlier.Some? && last.JString? then Some(earlier.value + [last.utf8]) else None
  }

  /** The typed reading of a value, if the value has the declared type. */
  function ToFact(env: Environment, t: FieldType, v: Json): Option<FactValue> {
    match t
    case TNumeric =>
      var x := if v.JNumber? then env.asFloat(v.text) else None;
      if x.Some? then Some(Numeric(x.value)) else None
    case TText => if v.JString? then Some(PlainText(v.utf8)) else None
    case TBoolean => if v.JBool? then Some(Boolean(v.value)) else None
    case TRefList =>
      var refs := if v.JArray? then Texts(v.items) else None;
      if refs.Some? then Some(RefList(refs.value)) else None
    case TTimestamp =>
      var n := if v.JNumber? then env.asInteger(v.text) else None;
      if n.Some? then Some(Timestamp(n.value)) else None
  }

  predicate HasType(t: FieldType, x: FactValue) {
    match t
    case TNumeric => x.Numeric?
    case TText => x.PlainText?
    case TBoolean => x.Boolean?
    case TRefList => x.RefList?
    case TTimestamp => x.Timestamp?
  }

  lemma {:induction false} TextsInjective(a: seq<Json>, b: seq<Json>)
    requires Texts(a).Some? && Texts(a) == Texts(b)
    ensures a == b
  {
    TextsLength(a);
    TextsLength(b);
    if a != [] {
      var m := |a| - 1;
      var x, y := Texts(a).value, Texts(b).value;
      assert x[..m] == Texts(a[..m]).value && y[..m] == Texts(b[..m]).value;
      assert x[m] == y[m];
      TextsInjective(a[..m], b[..m]);
      FrontLast(a);
      FrontLast(b);
    }
  }

  lemma {:induction false} TextsLength(items: seq<Json>)
    ensures Texts(items).Some? ==> |Texts(items).value| == |items|
  {
    if items != [] {
      TextsLength(items[..|items| - 1]);
    }
  }

  /** A fact has its declared type, and a text, boolean or reference list gives back the very
      value it was read from. */
  lemma FactsKeepValues(env: Environment, t: FieldType, v: Json, w: Json)
    ensures ToFact(env, t, v).Some? ==> HasType(t, ToFact(env, t, v).value)
    ensures ToFact(env, t, v).Some? && ToFact(env, t, v) == ToFact(env, t, w) && !t.TNumeric? && !t.TTimestamp? ==> v == w
  {
    if t.TRefList? && ToFact(env, t, v).Some? && ToFact(env, t, v) == ToFact(env, t, w) {
      TextsInjective(v.items, w.items);
    }
  }

  /** The facts of the first fields of a schema; a missing or ill-typed value fails. */
  function FactFields(env: Environment, raw: RawEntity, schema: Schema): Result<map<string, FactValue>, Error> {
    if schema == [] then Success(map[])
    else
      var earlier, f := FactFields(env, raw, schema[..|schema| - 1]), schema[|schema| - 1];
      if earlier.Failure? then earlier
      else if f.name !in raw.fields then Failure(MissingField(f.name))
      else
        var x := ToFact(env, f.fieldType, raw.fields[f.name]);
        if x.None? then Failure(WrongValue(f.name)) else Success(earlier.value[f.name := x.value])
  }

  lemma {:induction false} FactFieldsFail(env: Environment, raw: RawEntity, schema: Schema, n: nat)
    requires n <= |schema| && FactFields(env, raw, schema[..n]).Failure?
    ensures FactFields(env, raw, schema) == FactFields(env, raw, schema[..n])
    decreases |schema|
  {
    if n < |schema| {
      assert schema[..|schema| - 1][..n] == schema[..n];
      FactFieldsFail(env, raw, schema[..|schema| - 1], n);
    } else {
      TakeAll(schema);
    }
  }

  method RawToFacts(env: Environment, raw: RawEntity, schema: Schema) returns (outcome: Result<map<string, FactValue>, Error>)
    ensures outcome == FactFields(env, raw, schema)
  {
    var fields: map<string, FactValue> := map[];
    for i := 0 to |schema|
      invariant FactFields(env, raw, schema[..i]) == Success(fields)
    {
      var f := schema[i];
      TakeStep(schema, i);
      if f.name !in raw.fields {
        FactFieldsFail(env, raw, schema, i + 1);
        return Failure(MissingField(f.name));
      }
      var x := ToFact(env, f.fieldType, raw.fields[f.name]);
      if x.None? {
        FactFieldsFail(env, raw, schema, i + 1);
        return Failure(WrongValue(f.name));
      }
      fields := fields[f.name := x.value];
    }
    TakeAll(schema);
    return Success(fields);
  }

  /** The part of the fields with the given names. */
  function Restrict(fields: map<string, Json>, names: set<string>): map<string, Json> {
    map name | name in names && name in fields :: fields[name]
  }

  function Projection(env: Environment, raw: RawEntity, schema: Schema, policy: Policy): Result<Prepared, Error> {
    if !env.policyOk(policy) then Failure(PolicyInvalid)
    else if raw.sourceRevision == 0 || raw.sourceRevision > MAX_REVISION then Failure(RevisionOutOfRange)
    else
      var allowed, facts, hash := Resolved(policy, schema), FactFields(env, raw, schema), env.snapshotHash(raw);
      if allowed.Failure? then Failure(allowed.error)
      else if facts.Failure? then Failure(facts.error)
      else if hash.None? then Failure(NotHashable)
      else Success(Prepared(raw, raw.(fields := Restrict(raw.fields, Elements(allowed.value))),
                            Facts(raw.id, facts.value, raw.sourceRevision), hash.value))
  }

  method PrepareSource(env: Environment, raw: RawEntity, schema: Schema, policy: Policy)
    returns (outcome: Result<Prepared, Error>)
    ensures outcome == Projection(env, raw, schema, policy)
  {
    if !env.policyOk(policy) {
      return Failure(PolicyInvalid);
    }
    if raw.sourceRevision == 0 || raw.sourceRevision > MAX_REVISION {
      return Failure(RevisionOutOfRange);
    }
    var allowed := ResolveKnowledgeFields(policy, schema);
    if allowed.Failure? {
      return Failure(allowed.error);
    }
    var facts := RawToFacts(env, raw, schema);
    if facts.Failure? {
      return Failure(facts.error);
    }
    var names := allowed.value;
    var fields: map<string, Json> := map[];
    for i := 0 to |names|
      invariant fields == Restrict(raw.fields, Elements(names[..i]))
    {
      TakeStep(names, i);
      RestrictPush(raw.fields, names[..i], names[i]);
      if names[i] in raw.fields {
        fields := fields[names[i] := raw.fields[names[i]]];
      }
    }
    TakeAll(names);
    var hash := env.snapshotHash(raw);
    if hash.None? {
      return Failure(NotHashable);
    }
    return Success(Prepared(raw, raw.(fields := fields), Facts(raw.id, facts.value, raw.sourceRevision), hash.value));
  }

  lemma RestrictPush(fields: map<string, Json>, names: seq<string>, name: string)
    ensures Restrict(fields, Elements(names + [name])) ==
            var before := Restrict(fields, Elements(names));
            if name in fields then before[name := fields[name]] else before
  {
    assert Elements(names + [name]) == Elements(names) + {name};
  }

  // ----- What the knowledge plane may hold -----

  /** In both modes a resolved field is declared, not filterable, text or a reference list,
      and not sensitive. */
  lemma ResolvedAreSafe(policy: Policy, schema: Schema, name: string)
    requires Resolved(policy, schema).Success? && name in Resolved(policy, schema).value
    ensures exists f :: f in schema && f.name == name && !f.filterable && (f.fieldType.TText? || f.fieldType.TRefList?)
    ensures name !in policy.sensitiveFields
  {
    if policy.knowledgeFields == [] {
      var fields := Filter(IsDefault(policy.sensitiveFields), schema);
      var i :| 0 <= i < |fields| && Map(NameOf, fields)[i] == name;
      assert fields[i] in fields;
    } else {
      var i :| 0 <= i < |policy.knowledgeFields| && policy.knowledgeFields[i] == name;
      assert EntryError(policy, schema, i).None?;
      assert Find(schema, name).value in schema;
    }
  }

  predicate MayKnow(schema: Schema, sensitive: seq<string>, name: string) {
    var f := Find(schema, name);
    && Text.Trim(name) != "" && f.Some? && !f.value.filterable && (f.value.fieldType.TText? || f.value.fieldType.TRefList?)
    && name !in sensitive
  }

  /** An explicit list is accepted, as it stands, exactly when it has no repetition and every
      entry may enter the knowledge. */
  lemma ExplicitIff(policy: Policy, schema: Schema)
    requires policy.knowledgeFields != []
    ensures Resolved(policy, schema) == Success(policy.knowledgeFields) <==>
            && Distinct(policy.knowledgeFields)
            && forall name :: name in policy.knowledgeFields ==> MayKnow(schema, policy.sensitiveFields, name)
    ensures Resolved(policy, schema).Success? ==> Resolved(policy, schema) == Success(policy.knowledgeFields)
  {
    var names := policy.knowledgeFields;
    DistinctByPrefix(names);
    if Resolved(policy, schema).Success? {
      forall i | 0 <= i < |names| ensures MayKnow(schema, policy.sensitiveFields, names[i]) && names[i] !in names[..i] {
        assert EntryError(policy, schema, i).None?;
      }
    } else if Distinct(names) && forall name :: name in names ==> MayKnow(schema, policy.sensitiveFields, name) {
      forall i | 0 <= i < |names| ensures EntryError(policy, schema, i).None? {
        assert names[i] in names;
      }
      assert false;
    }
  }

  lemma DistinctByPrefix(names: seq<string>)
    ensures Distinct(names) <==> forall i :: 0 <= i < |names| ==> names[i] !in names[..i]
  {
    if forall i :: 0 <= i < |names| ==> names[i] !in names[..i] {
      forall i, j | 0 <= i < j < |names| ensures names[i] != names[j] {
        assert names[..j][i] == names[i];
      }
    }
  }

  /** Without a list of its own a policy gets exactly the plain text fields. */
  lemma DefaultIsExact(policy: Policy, schema: Schema, name: string)
    requires policy.knowledgeFields == []
    ensures name in Resolved(policy, schema).value <==>
            && name !in policy.sensitiveFields
            && exists f :: f in schema && f.name == name && f.fieldType == TText && !f.filterable
  {
    var fields := Filter(IsDefault(policy.sensitiveFields), schema);
    if exists f :: f in schema && f.name == name && IsDefault(policy.sensitiveFields)(f) {
      var f :| f in schema && f.name == name && IsDefault(policy.sensitiveFields)(f);
      assert f in fields;
      var i :| 0 <= i < |fields| && fields[i] == f;
      assert Map(NameOf, fields)[i] == name;
    }
    if name in Map(NameOf, fields) {
      var i :| 0 <= i < |fields| && Map(NameOf, fields)[i] == name;
      assert fields[i] in fields;
    }
  }

  /** The facts cover exactly the declared fields, each read by a declaration of its name;
      success means that all were there. */
  lemma {:induction false} FactsCoverSchema(env: Environment, raw: RawEntity, schema: Schema, name: string)
    requires FactFields(env, raw, schema).Success?
    ensures name in FactFields(env, raw, schema).value <==> exists f :: f in schema && f.name == name
    ensures name in FactFields(env, raw, schema).value ==>
              && name in raw.fields
              && exists f :: f in schema && f.name == name
                   && ToFact(env, f.fieldType, raw.fields[name]) == Some(FactFields(env, raw, schema).value[name])
  {
    if schema != [] {
      FactsCoverSchema(env, raw, schema[..|schema| - 1], name);
      FrontLast(schema);
    }
  }

  /** The knowledge of a prepared source has exactly the resolved fields. */
  lemma KnowledgeIsResolved(env: Environment, raw: RawEntity, schema: Schema, policy: Policy)
    requires Projection(env, raw, schema, policy).Success?
    ensures Resolved(policy, schema).Success?
    ensures Projection(env, raw, schema, policy).value.knowledge.fields.Keys == Elements(Resolved(policy, schema).value)
    ensures Elements(Resolved(policy, schema).value) <= raw.fields.Keys
  {
    var names := Resolved(policy, schema).value;
    forall name | name in names ensures name in raw.fields {
      ResolvedAreSafe(policy, schema, name);
      FactsCoverSchema(env, raw, schema, name);
    }
  }

  ghost predicate AgreeOn(a: RawEntity, b: RawEntity, names: seq<string>) {
    a.id == b.id && a.sourceRevision == b.sourceRevision
    && forall name :: name in names && name in a.fields && name in b.fields ==> a.fields[name] == b.fields[name]
  }

  /** Noninterference, exactly: two entities have the same knowledge when and only when they
      agree on id, revision and the resolved fields, whatever else they hold. */
  lemma KnowledgeReveals(env: Environment, a: RawEntity, b: RawEntity, schema: Schema, policy: Policy)
    requires Projection(env, a, schema, policy).Success? && Projection(env, b, schema, policy).Success?
    ensures Projection(env, a, schema, policy).value.knowledge == Projection(env, b, schema, policy).value.knowledge <==>
            AgreeOn(a, b, Resolved(policy, schema).value)
  {
    KnowledgeIsResolved(env, a, schema, policy);
    KnowledgeIsResolved(env, b, schema, policy);
    RestrictAgrees(a.fields, b.fields, Resolved(policy, schema).value);
  }

  lemma RestrictAgrees(a: map<string, Json>, b: map<string, Json>, names: seq<string>)
    requires Elements(names) <= a.Keys && Elements(names) <= b.Keys
    ensures Restrict(a, Elements(names)) == Restrict(b, Elements(names)) <==>
            forall name :: name in names ==> a[name] == b[name]
  {
    var x, y := Restrict(a, Elements(names)), Restrict(b, Elements(names));
    assert x.Keys == y.Keys == Elements(names);
    if x == y {
      forall name | name in names ensures a[name] == b[name] {
        assert name in Elements(names);
        assert x[name] == y[name];
      }
    }
  }

  /** Changing a sensitive value never shows in the knowledge. */
  lemma SensitiveNeverShows(env: Environment, raw: RawEntity, schema: Schema, policy: Policy, name: string, value: Json)
    requires name in policy.sensitiveFields
    requires Projection(env, raw, schema, policy).Success?
    requires Projection(env, raw.(fields := raw.fields[name := value]), schema, policy).Success?
    ensures Projection(env, raw.(fields := raw.fields[name := value]), schema, policy).value.knowledge
            == Projection(env, raw, schema, policy).value.knowledge
  {
    var changed := raw.(fields := raw.fields[name := value]);
    if name in Resolved(policy, schema).value {
      ResolvedAreSafe(policy, schema, name);
      assert false;
    }
    KnowledgeReveals(env, raw, changed, schema, policy);
  }
}
