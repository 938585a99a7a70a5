/** What a prepared source holds, value by value, and which fault of policy, schema or entity
    it is refused for. */
module SourceFacts {
  import opened Wrappers
  import opened Sequences
  import Text
  import opened CanonicalJson
  import opened SourceProjection

  // ----- Facts -----

  /** The fact that a value of the declared type stands for. */
  ghost predicate Reads(env: Environment, t: FieldType, v: Json, x: FactValue) {
    match t
    case TNumeric => v.JNumber? && x.Numeric? && env.asFloat(v.text) == Some(x.value)
    case TText => v.JString? && x == PlainText(v.utf8)
    case TBoolean => v.JBool? && x == Boolean(v.value)
    case TRefList =>
      v.JArray? && x.RefList? && |x.refs| == |v.items|
      && forall i :: 0 <= i < |v.items| ==> v.items[i] == JString(x.refs[i])
    case TTimestamp => v.JNumber? && x.Timestamp? && env.asInteger(v.text) == Some(x.seconds)
  }

  lemma {:induction false} TextsAre(items: seq<Json>, refs: seq<Bytes>)
    ensures Texts(items) == Some(refs) <==>
            |refs| == |items| && forall i :: 0 <= i < |items| ==> items[i] == JString(refs[i])
  {
    if items != [] {
      var m := |items| - 1;
      TextsLength(items);
      if |refs| == |items| {
        TextsAre(items[..m], refs[..m]);
        FrontLast(refs);
        assert forall i :: 0 <= i < m ==> items[..m][i] == items[i];
      }
    }
  }

  /** A value of each type is read as what it holds, and a value of another type is refused. */
  lemma FactIs(env: Environment, t: FieldType, v: Json, x: FactValue)
    ensures ToFact(env, t, v) == Some(x) <==> Reads(env, t, v, x)
  {
    if t.TRefList? && v.JArray? && x.RefList? {
      TextsAre(v.items, x.refs);
    }
  }

  ghost predicate Readable(env: Environment, raw: RawEntity, f: Field) {
    f.name in raw.fields && exists x :: Reads(env, f.fieldType, raw.fields[f.name], x)
  }

  lemma ReadableIff(env: Environment, raw: RawEntity, f: Field)
    ensures Readable(env, raw, f) <==> f.name in raw.fields && ToFact(env, f.fieldType, raw.fields[f.name]).Some?
  {
    if f.name in raw.fields {
      var r := ToFact(env, f.fieldType, raw.fields[f.name]);
      if r.Some? {
        FactIs(env, f.fieldType, raw.fields[f.name], r.value);
      } else {
        forall x ensures !Reads(env, f.fieldType, raw.fields[f.name], x) {
          FactIs(env, f.fieldType, raw.fields[f.name], x);
        }
      }
    }
  }

  ghost predicate AllReadable(env: Environment, raw: RawEntity, schema: Schema) {
    forall i :: 0 <= i < |schema| ==> Readable(env, raw, schema[i])
  }

  lemma {:induction false} FactsExistIff(env: Environment, raw: RawEntity, schema: Schema)
    ensures FactFields(env, raw, schema).Success? <==> AllReadable(env, raw, schema)
  {
    if schema != [] {
      var front, last := schema[..|schema| - 1], schema[|schema| - 1];
      FactsExistIff(env, raw, front);
      ReadableIff(env, raw, last);
      assert forall i :: 0 <= i < |front| ==> front[i] == schema[i];
    }
  }

  /** The first field of the schema that the entity cannot fill decides: it is missing, or its
      value has another type. */
  lemma FirstUnreadableDecides(env: Environment, raw: RawEntity, schema: Schema, i: nat)
    requires i < |schema| && AllReadable(env, raw, schema[..i]) && !Readable(env, raw, schema[i])
    ensures FactFields(env, raw, schema) ==
            Failure(if schema[i].name in raw.fields then WrongValue(schema[i].name) else MissingField(schema[i].name))
  {
    FactsExistIff(env, raw, schema[..i]);
    ReadableIff(env, raw, schema[i]);
    TakeStep(schema, i);
    FactFieldsFail(env, raw, schema, i + 1);
  }

  /** The last declaration of a name. */
  ghost predicate LastDeclares(schema: Schema, i: int, name: string) {
    0 <= i < |schema| && schema[i].name == name && forall j :: i < j < |schema| ==> schema[j].name != name
  }

  /** The fact of a name is what the entity's value stands for under its last declaration. */
  lemma {:induction false} FactsAreRead(env: Environment, raw: RawEntity, schema: Schema, i: int, name: string)
    requires FactFields(env, raw, schema).Success? && LastDeclares(schema, i, name)
    ensures var facts := FactFields(env, raw, schema).value;
            name in facts && name in raw.fields && Reads(env, schema[i].fieldType, raw.fields[name], facts[name])
  {
    var front, last := schema[..|schema| - 1], schema[|schema| - 1];
    FactIs(env, last.fieldType, raw.fields[last.name], FactFields(env, raw, schema).value[last.name]);
    if i < |front| {
      assert LastDeclares(front, i, name);
      FactsAreRead(env, raw, front, i, name);
    }
  }

  // ----- Explicit lists -----

  /** The first declaration of a name. */
  ghost predicate FirstDeclares(schema: Schema, k: int, name: string) {
    0 <= k < |schema| && schema[k].name == name && forall j :: 0 <= j < k ==> schema[j].name != name
  }

  lemma {:induction false} FindIsFirst(schema: Schema, k: int, name: string)
    requires FirstDeclares(schema, k, name)
    ensures Find(schema, name) == Some(schema[k])
  {
    var front := schema[..|schema| - 1];
    if k < |front| {
      assert FirstDeclares(front, k, name);
      FindIsFirst(front, k, name);
    }
  }

  ghost predicate Declared(schema: Schema, name: string) { exists f :: f in schema && f.name == name }

  lemma {:induction false} FirstDeclarationExists(schema: Schema, name: string) returns (k: int)
    requires Declared(schema, name)
    ensures FirstDeclares(schema, k, name)
  {
    var front, last := schema[..|schema| - 1], schema[|schema| - 1];
    FrontLast(schema);
    if Declared(front, name) {
      k := FirstDeclarationExists(front, name);
    } else {
      k := |schema| - 1;
      forall j | 0 <= j < k ensures schema[j].name != name {
        assert front[j] in front;
      }
    }
  }

  /** What an entry of an explicit list is refused for, the first of these that holds. */
  ghost predicate RefusedFor(policy: Policy, schema: Schema, i: nat, e: Error)
    requires i < |policy.knowledgeFields|
  {
    var name := policy.knowledgeFields[i];
    var blank, again := Text.Trim(name) == "", exists j :: 0 <= j < i && policy.knowledgeFields[j] == name;
    || (e == EmptyEntry && blank)
    || (e == DuplicateEntry(name) && !blank && again)
    || (e == NotDeclared(name) && !blank && !again && !Declared(schema, name))
    || (!blank && !again && exists k :: FirstDeclares(schema, k, name) && UnfitFor(policy, schema[k], e))
  }

  predicate UnfitFor(policy: Policy, f: Field, e: Error) {
    || (e == Filterable(f.name) && f.filterable)
    || (e == WrongType(f.name) && !f.filterable && f.fieldType != TText && f.fieldType != TRefList)
    || (e == Sensitive(f.name) && !f.filterable && (f.fieldType == TText || f.fieldType == TRefList)
        && f.name in policy.sensitiveFields)
  }

  lemma EntryErrorIs(policy: Policy, schema: Schema, i: nat, e: Error)
    requires i < |policy.knowledgeFields|
    ensures EntryError(policy, schema, i) == Some(e) <==> RefusedFor(policy, schema, i, e)
  {
    var name := policy.knowledgeFields[i];
    PrefixMembers(policy.knowledgeFields, i, name);
    if Declared(schema, name) {
      var k := FirstDeclarationExists(schema, name);
      FindIsFirst(schema, k, name);
      forall j | FirstDeclares(schema, j, name) ensures j == k {
      }
    } else {
      forall k ensures !FirstDeclares(schema, k, name) {
        assert 0 <= k < |schema| ==> schema[k] in schema;
      }
    }
  }

  lemma PrefixMembers(names: seq<string>, i: nat, name: string)
    requires i <= |names|
    ensures name in names[..i] <==> exists j :: 0 <= j < i && names[j] == name
  {
    if name in names[..i] {
      var j :| 0 <= j < i && names[..i][j] == name;
    }
    if j :| 0 <= j < i && names[j] == name {
      assert names[..i][j] == name;
    }
  }

  /** Nothing speaks against the entry. */
  ghost predicate Unrefused(policy: Policy, schema: Schema, i: nat)
    requires i < |policy.knowledgeFields|
  {
    forall e :: !RefusedFor(policy, schema, i, e)
  }

  lemma UnrefusedIff(policy: Policy, schema: Schema, i: nat)
    requires i < |policy.knowledgeFields|
    ensures Unrefused(policy, schema, i) <==> EntryError(policy, schema, i).None?
  {
    var r := EntryError(policy, schema, i);
    if r.Some? {
      EntryErrorIs(policy, schema, i, r.value);
    }
    forall e ensures r == Some(e) <==> RefusedFor(policy, schema, i, e) {
      EntryErrorIs(policy, schema, i, e);
    }
  }

  /** The first entry that is refused decides, and with what. */
  lemma FirstRefusalDecides(policy: Policy, schema: Schema, i: nat, e: Error)
    requires i < |policy.knowledgeFields| && RefusedFor(policy, schema, i, e)
    requires forall j :: 0 <= j < i ==> Unrefused(policy, schema, j)
    ensures Resolved(policy, schema) == Failure(e)
  {
    EntryErrorIs(policy, schema, i, e);
    forall j | 0 <= j < i ensures EntryErrors(policy, schema)[j].None? {
      UnrefusedIff(policy, schema, j);
    }
    FirstSomeIs(EntryErrors(policy, schema), i);
  }

  // ----- The projection -----

  /** A source is prepared exactly when the policy passes its own checks, the revision is a
      positive 63-bit number, the knowledge fields resolve, every field can be read, and the
      original can be hashed. */
  lemma PreparedIff(env: Environment, raw: RawEntity, schema: Schema, policy: Policy)
    ensures Projection(env, raw, schema, policy).Success? <==>
            && env.policyOk(policy) && 1 <= raw.sourceRevision <= 9223372036854775807
            && Resolved(policy, schema).Success? && AllReadable(env, raw, schema) && env.snapshotHash(raw).Some?
  {
    FactsExistIff(env, raw, schema);
  }

  /** What a prepared source is made of: the untouched original and its hash, knowledge and
      facts under its id and revision, and in the knowledge the original values. */
  lemma PreparedHolds(env: Environment, raw: RawEntity, schema: Schema, policy: Policy)
    requires Projection(env, raw, schema, policy).Success?
    ensures var p := Projection(env, raw, schema, policy).value;
            && p.full == raw && Some(p.snapshotHash) == env.snapshotHash(raw)
            && p.knowledge.id == raw.id && p.knowledge.sourceRevision == raw.sourceRevision
            && p.facts.entityId == raw.id && p.facts.sourceRevision == raw.sourceRevision
            && FactFields(env, raw, schema) == Success(p.facts.fields)
            && forall name :: name in p.knowledge.fields ==>
                 name in raw.fields && p.knowledge.fields[name] == raw.fields[name]
  {
  }

  /** Of several faults the earliest check is reported: policy, revision, knowledge fields,
      facts, hash. */
  lemma FaultsInOrder(env: Environment, raw: RawEntity, schema: Schema, policy: Policy)
    ensures var r := Projection(env, raw, schema, policy);
            var ranged := 1 <= raw.sourceRevision <= 9223372036854775807;
            var fields, facts := Resolved(policy, schema), FactFields(env, raw, schema);
            && (!env.policyOk(policy) ==> r == Failure(PolicyInvalid))
            && (env.policyOk(policy) && !ranged ==> r == Failure(RevisionOutOfRange))
            && (env.policyOk(policy) && ranged && fields.Failure? ==> r == Failure(fields.error))
            && (env.policyOk(policy) && ranged && fields.Success? && facts.Failure? ==> r == Failure(facts.error))
            && (env.policyOk(policy) && ranged && fields.Success? && facts.Success? && env.snapshotHash(raw).None? ==>
                  r == Failure(NotHashable))
  {
  }
}
