/** The entry point that refuses or rewrites a schema, and the merging of a task schema into the child
    protocol. */
module StrictProvider {
  import opened JsonSchema
  import opened Options
  import opened StrictSchema

  /******* The provider entry point *******/

  /** `_reject_unsupported_keywords`; a schema under `additionalProperties` is not looked at. */
  ghost predicate Supported(s: Schema)
    decreases s, 1
  {
    && s.local.unknown == {}
    && PropertiesSupported(s)
    && (s.items.Some? ==> Supported(s.items.value))
    && EachSupported(s, s.anyOf)
    && EachSupported(s, s.oneOf)
    && EachSupported(s, s.allOf)
  }

  ghost predicate PropertiesSupported(s: Schema)
    decreases s, 0
  {
    forall k | k in s.properties :: Supported(s.properties[k])
  }

  ghost predicate EachSupported(parent: Schema, variants: seq<Schema>)
    requires forall i | 0 <= i < |variants| :: variants[i] < parent
    decreases parent, 0
  {
    forall i | 0 <= i < |variants| :: Supported(variants[i])
  }

  ghost predicate KindValid(kind: TypeKeyword) {
    kind.Union? ==> kind.names != [] && Distinct(kind.names)
  }

  /** The part of the metaschema the data model leaves open: a `type` list is non-empty and has no
      repetition. */
  ghost predicate MetaValid(s: Schema)
    decreases s, 1
  {
    && KindValid(s.kind)
    && PropertiesMetaValid(s)
    && (s.additional.Matching? ==> MetaValid(s.additional.schema))
    && (s.items.Some? ==> MetaValid(s.items.value))
    && EachMetaValid(s, s.anyOf)
    && EachMetaValid(s, s.oneOf)
    && EachMetaValid(s, s.allOf)
  }

  ghost predicate PropertiesMetaValid(s: Schema)
    decreases s, 0
  {
    forall k | k in s.properties :: MetaValid(s.properties[k])
  }

  ghost predicate EachMetaValid(parent: Schema, variants: seq<Schema>)
    requires forall i | 0 <= i < |variants| :: variants[i] < parent
    decreases parent, 0
  {
    forall i | 0 <= i < |variants| :: MetaValid(variants[i])
  }

  datatype Result = Ok(schema: Schema) | StrictSchemaError

  ghost function StrictProvider(s: Schema): Result {
    if !MetaValid(s) || !Supported(s) || !MetaValid(Strict(s)) then StrictSchemaError else Ok(Strict(s))
  }

  /** No optional property that the rewriting reaches has the single type `null`. */
  ghost predicate NoOptionalNull(s: Schema)
    decreases s, 1
  {
    && (s.kind == Single(TObject) ==> OptionalsNotNull(s))
    && (s.items.Some? ==> NoOptionalNull(s.items.value))
    && NoneOptionalNull(s, s.anyOf)
    && NoneOptionalNull(s, s.oneOf)
    && NoneOptionalNull(s, s.allOf)
  }

  ghost predicate OptionalsNotNull(s: Schema)
    decreases s, 0, 1
  {
    forall k | k in s.properties :: NoNullIfOptional(s, k)
  }

  ghost predicate NoNullIfOptional(s: Schema, k: string)
    requires k in s.properties
    decreases s, 0, 0
  {
    NoOptionalNull(s.properties[k]) && (k in s.required || s.properties[k].kind != Single(TNull))
  }

  ghost predicate NoneOptionalNull(parent: Schema, variants: seq<Schema>)
    requires forall i | 0 <= i < |variants| :: variants[i] < parent
    decreases parent, 0
  {
    forall i | 0 <= i < |variants| :: NoOptionalNull(variants[i])
  }

  lemma NullableKindValid(s: Schema)
    requires KindValid(s.kind)
    ensures KindValid(Nullable(s).kind) <==> s.kind != Single(TNull)
  {
    var t := Nullable(s);
    if s.kind.Single? {
      assert Distinct(t.kind.names) <==> t.kind.names[0] != t.kind.names[1];
    }
  }

  lemma EachMetaValidSame(s: Schema, t: Schema)
    requires t.anyOf == s.anyOf || t.anyOf == s.anyOf + [NULL_SCHEMA]
    ensures EachMetaValid(t, t.anyOf) <==> EachMetaValid(s, s.anyOf)
  {
    assert MetaValid(NULL_SCHEMA);
    assert forall i | 0 <= i < |s.anyOf| :: t.anyOf[i] == s.anyOf[i];
  }

  lemma NullableMetaValid(s: Schema)
    requires KindValid(s.kind)
    ensures MetaValid(Nullable(s)) <==> MetaValid(s) && s.kind != Single(TNull)
  {
    NullableKindValid(s);
    EachMetaValidSame(s, Nullable(s));
    MetaValidSame(s, Nullable(s));
  }

  /** The metaschema check reads the subschemas only through these parts. */
  lemma MetaValidSame(s: Schema, t: Schema)
    requires t == s.(kind := t.kind, anyOf := t.anyOf)
    requires EachMetaValid(t, t.anyOf) <==> EachMetaValid(s, s.anyOf)
    requires KindValid(s.kind)
    ensures MetaValid(t) <==> MetaValid(s) && KindValid(t.kind)
  {
  }

  lemma {:induction false} EachMetaValidIff(parent: Schema, t: Schema, variants: seq<Schema>)
    requires forall i | 0 <= i < |variants| :: variants[i] < parent
    requires EachMetaValid(parent, variants)
    requires var r := StrictEach(parent, variants); forall i | 0 <= i < |r| :: r[i] < t
    ensures EachMetaValid(t, StrictEach(parent, variants)) <==> NoneOptionalNull(parent, variants)
    decreases parent, 0
  {
    var r := StrictEach(parent, variants);
    forall i | 0 <= i < |variants| ensures MetaValid(r[i]) <==> NoOptionalNull(variants[i]) {
      StrictMetaValidIff(variants[i]);
    }
  }

  lemma {:induction false} PropertyMetaValidIff(s: Schema, k: string)
    requires k in s.properties && MetaValid(s.properties[k])
    ensures MetaValid(StrictProperty(s, k)) <==> NoNullIfOptional(s, k)
    decreases s, 0, 0
  {
    StrictMetaValidIff(s.properties[k]);
    NullableMetaValid(Strict(s.properties[k]));
  }

  lemma {:induction false} PropertiesMetaValidIff(s: Schema)
    requires MetaValid(s) && s.kind == Single(TObject)
    ensures PropertiesMetaValid(Strict(s)) <==> OptionalsNotNull(s)
    decreases s, 0, 1
  {
    var r := StrictProperties(s);
    forall k | k in s.properties ensures MetaValid(r[k]) <==> NoNullIfOptional(s, k) {
      PropertyMetaValidIff(s, k);
    }
  }

  lemma {:induction false} PropertiesPartIff(s: Schema)
    requires MetaValid(s)
    ensures PropertiesMetaValid(Strict(s)) <==> (s.kind == Single(TObject) ==> OptionalsNotNull(s))
    decreases s, 1
  {
    if s.kind == Single(TObject) {
      PropertiesMetaValidIff(s);
    } else {
      PropertiesMetaValidFrom(s, Strict(s));
    }
  }

  lemma {:induction false} AnyOfPartIff(s: Schema)
    requires EachMetaValid(s, s.anyOf)
    ensures EachMetaValid(Strict(s), Strict(s).anyOf) <==> NoneOptionalNull(s, s.anyOf)
    decreases s, 1
  {
    EachMetaValidIff(s, Strict(s), s.anyOf);
  }

  lemma {:induction false} OneOfPartIff(s: Schema)
    requires EachMetaValid(s, s.oneOf)
    ensures EachMetaValid(Strict(s), Strict(s).oneOf) <==> NoneOptionalNull(s, s.oneOf)
    decreases s, 1
  {
    EachMetaValidIff(s, Strict(s), s.oneOf);
  }

  lemma {:induction false} AllOfPartIff(s: Schema)
    requires EachMetaValid(s, s.allOf)
    ensures EachMetaValid(Strict(s), Strict(s).allOf) <==> NoneOptionalNull(s, s.allOf)
    decreases s, 1
  {
    EachMetaValidIff(s, Strict(s), s.allOf);
  }

  /** The second metaschema check fails exactly for an optional property of type `null`, whose type list
      would name `null` twice. */
  lemma {:induction false} StrictMetaValidIff(s: Schema)
    requires MetaValid(s)
    ensures MetaValid(Strict(s)) <==> NoOptionalNull(s)
    decreases s, 2
  {
    if s.items.Some? {
      StrictMetaValidIff(s.items.value);
    }
    PropertiesPartIff(s);
    AnyOfPartIff(s);
    OneOfPartIff(s);
    AllOfPartIff(s);
    var t := Strict(s);
    assert t.kind == s.kind && (t.additional == s.additional || t.additional == Nothing);
  }

  lemma PropertiesMetaValidFrom(s: Schema, t: Schema)
    requires s.properties == t.properties
    ensures PropertiesMetaValid(t) <==> PropertiesMetaValid(s)
  {
  }

  lemma StrictProviderSucceedsIff(s: Schema)
    ensures StrictProvider(s).Ok? <==> MetaValid(s) && Supported(s) && NoOptionalNull(s)
  {
    if MetaValid(s) {
      StrictMetaValidIff(s);
    }
  }

  lemma {:induction false} EachStaysSupported(parent: Schema, t: Schema, variants: seq<Schema>)
    requires forall i | 0 <= i < |variants| :: variants[i] < parent
    requires EachSupported(parent, variants)
    requires var r := StrictEach(parent, variants); forall i | 0 <= i < |r| :: r[i] < t
    ensures EachSupported(t, StrictEach(parent, variants))
    decreases parent, 0
  {
    forall i | 0 <= i < |variants| ensures Supported(StrictEach(parent, variants)[i]) {
      StrictSupported(variants[i]);
    }
  }

  lemma NullableSupported(s: Schema)
    requires Supported(s)
    ensures Supported(Nullable(s))
  {
  }

  lemma {:induction false} PropertiesStaySupported(s: Schema)
    requires PropertiesSupported(s)
    ensures forall k | k in s.properties :: Supported(StrictProperty(s, k))
    decreases s, 0
  {
    forall k | k in s.properties ensures Supported(StrictProperty(s, k)) {
      StrictSupported(s.properties[k]);
      NullableSupported(Strict(s.properties[k]));
    }
  }

  lemma {:induction false} VariantsStaySupported(s: Schema)
    requires EachSupported(s, s.anyOf) && EachSupported(s, s.oneOf) && EachSupported(s, s.allOf)
    ensures var t := Strict(s);
      EachSupported(t, t.anyOf) && EachSupported(t, t.oneOf) && EachSupported(t, t.allOf)
    decreases s, 1
  {
    var t := Strict(s);
    EachStaysSupported(s, t, s.anyOf);
    EachStaysSupported(s, t, s.oneOf);
    EachStaysSupported(s, t, s.allOf);
  }

  /** The rewriting introduces no keyword outside the grammar. */
  lemma {:induction false} StrictSupported(s: Schema)
    requires Supported(s)
    ensures Supported(Strict(s))
    decreases s, 2
  {
    if s.items.Some? {
      StrictSupported(s.items.value);
    }
    VariantsStaySupported(s);
    PropertiesStaySupported(s);
  }

  /******* Merging a task schema into the child protocol *******/

  /** A task property redeclares a protocol property differently. */
  ghost predicate Conflicts(protocol: Schema, custom: Schema, name: string) {
    && name in custom.properties
    && name in protocol.properties
    && StrictProvider(protocol.properties[name]) != Ok(custom.properties[name])
  }

  ghost function Merged(protocol: Schema, custom: Schema): Schema {
    protocol.(
      properties := protocol.properties + custom.properties,
      required := protocol.required + custom.required)
  }

  ghost function ChildResultSchema(protocol: Schema, contract: Option<Schema>): Result {
    if contract.None? || contract.value == EMPTY_SCHEMA then
      StrictProvider(protocol)
    else
      match StrictProvider(contract.value)
      case StrictSchemaError => StrictSchemaError
      case Ok(custom) =>
        if custom.kind != Single(TObject) || exists name :: Conflicts(protocol, custom, name) then StrictSchemaError
        else StrictProvider(Merged(protocol, custom))
  }

  /** The value with only the given keys. */
  function Project(v: Json, keys: set<string>): Json
    requires v.Object?
  {
    Object(map k | k in v.fields && k in keys :: v.fields[k])
  }

  lemma NullableWeaker(s: Schema, v: Json)
    requires Accepts(s, v)
    ensures Accepts(Nullable(s), v)
  {
    NullableParts(s, v);
    NullableVariants(s, v);
  }

  /** A merged property is the task's strict property, or else the protocol's. */
  lemma MergedProperty(protocol: Schema, task: Schema, k: string)
    requires task.kind == Single(TObject)
    requires k in protocol.properties || k in task.properties
    ensures StrictProperty(Merged(protocol, Strict(task)), k) ==
      if k in task.properties then StrictProperty(task, k) else StrictProperty(protocol, k)
  {
    if k in task.properties {
      PropertyBecomesFixed(task, k);
      assert Strict(task).properties[k] == StrictProperty(task, k);
    }
  }

  lemma MergedChecked(protocol: Schema, custom: Schema)
    requires MetaValid(protocol) && MetaValid(custom) && Supported(protocol) && Supported(custom)
    ensures MetaValid(Merged(protocol, custom)) && Supported(Merged(protocol, custom))
  {
  }

  lemma MergedNoOptionalNull(protocol: Schema, task: Schema)
    requires protocol.kind == task.kind == Single(TObject)
    requires NoOptionalNull(protocol) && MetaValid(task) && MetaValid(Strict(task))
    requires MetaValid(Merged(protocol, Strict(task)))
    ensures NoOptionalNull(Merged(protocol, Strict(task)))
  {
    var custom := Strict(task);
    var m := Merged(protocol, custom);
    forall k | k in m.properties ensures NoNullIfOptional(m, k) {
      if k in task.properties {
        assert custom.properties[k] == StrictProperty(task, k) && MetaValid(custom.properties[k]);
        MergedProperty(protocol, task, k);
        PropertyMetaValidIff(m, k);
      } else {
        assert NoNullIfOptional(protocol, k);
      }
    }
    NoneOptionalNullFrom(protocol, m, protocol.anyOf);
    NoneOptionalNullFrom(protocol, m, protocol.oneOf);
    NoneOptionalNullFrom(protocol, m, protocol.allOf);
  }

  lemma NoneOptionalNullFrom(s: Schema, t: Schema, variants: seq<Schema>)
    requires forall i | 0 <= i < |variants| :: variants[i] < s
    requires forall i | 0 <= i < |variants| :: variants[i] < t
    ensures NoneOptionalNull(t, variants) <==> NoneOptionalNull(s, variants)
  {
  }

  lemma MergedProvides(protocol: Schema, task: Schema)
    requires protocol.kind == task.kind == Single(TObject)
    requires StrictProvider(protocol).Ok? && StrictProvider(task).Ok?
    ensures StrictProvider(Merged(protocol, Strict(task))).Ok?
  {
    StrictSupported(task);
    MergedChecked(protocol, Strict(task));
    StrictMetaValidIff(protocol);
    MergedNoOptionalNull(protocol, task);
    StrictMetaValidIff(Merged(protocol, Strict(task)));
  }

  lemma MergeRefuses(protocol: Schema, task: Schema)
    requires task != EMPTY_SCHEMA && (StrictProvider(task).StrictSchemaError? || task.kind != Single(TObject))
    ensures ChildResultSchema(protocol, Some(task)).StrictSchemaError?
  {
  }

  lemma MergeProceeds(protocol: Schema, task: Schema)
    requires task != EMPTY_SCHEMA && StrictProvider(task).Ok? && task.kind == Single(TObject)
    ensures ChildResultSchema(protocol, Some(task)) ==
      if exists name :: Conflicts(protocol, Strict(task), name) then StrictSchemaError
      else StrictProvider(Merged(protocol, Strict(task)))
  {
  }

  lemma PropertyChecked(s: Schema, k: string)
    requires k in s.properties && PropertiesMetaValid(s) && PropertiesSupported(s) && OptionalsNotNull(s)
    ensures MetaValid(s.properties[k]) && Supported(s.properties[k]) && NoOptionalNull(s.properties[k])
  {
    assert NoNullIfOptional(s, k);
  }

  /** The properties of an object the entry point accepts are accepted by themselves. */
  lemma PropertyProvides(s: Schema, k: string)
    requires s.kind == Single(TObject) && StrictProvider(s).Ok? && k in s.properties
    ensures StrictProvider(s.properties[k]) == Ok(Strict(s.properties[k]))
  {
    StrictProviderSucceedsIff(s);
    PropertyChecked(s, k);
    StrictProviderSucceedsIff(s.properties[k]);
  }

  /** Redeclared properties have the same strict form on both sides. */
  ghost predicate Agree(protocol: Schema, task: Schema) {
    forall k | k in protocol.properties && k in task.properties ::
      StrictProperty(task, k) == Strict(protocol.properties[k])
  }

  lemma ConflictIff(protocol: Schema, task: Schema, k: string)
    requires protocol.kind == task.kind == Single(TObject) && StrictProvider(protocol).Ok?
    requires k in protocol.properties && k in task.properties
    ensures Conflicts(protocol, Strict(task), k) <==> StrictProperty(task, k) != Strict(protocol.properties[k])
  {
    PropertyProvides(protocol, k);
    assert Strict(task).properties[k] == StrictProperty(task, k);
  }

  lemma ConflictsIff(protocol: Schema, task: Schema)
    requires protocol.kind == task.kind == Single(TObject) && StrictProvider(protocol).Ok?
    ensures Agree(protocol, task) <==> !exists name :: Conflicts(protocol, Strict(task), name)
  {
    if Agree(protocol, task) {
      forall name ensures !Conflicts(protocol, Strict(task), name) {
        if name in protocol.properties && name in task.properties {
          ConflictIff(protocol, task, name);
        }
      }
    } else {
      var k :| k in protocol.properties && k in task.properties
        && StrictProperty(task, k) != Strict(protocol.properties[k]);
      ConflictIff(protocol, task, k);
    }
  }

  /** Without a task schema, or with an empty one, the strict protocol is returned. */
  lemma NothingToMerge(protocol: Schema)
    requires StrictProvider(protocol).Ok?
    ensures ChildResultSchema(protocol, None) == ChildResultSchema(protocol, Some(EMPTY_SCHEMA)) == Ok(Strict(protocol))
  {
  }

  /** Merging fails only for a bad task schema, a task schema that is no object, or a protocol property that the
      task redeclares with another strict form. */
  lemma MergeSucceedsIff(protocol: Schema, task: Schema)
    requires protocol.kind == Single(TObject) && StrictProvider(protocol).Ok? && task != EMPTY_SCHEMA
    ensures ChildResultSchema(protocol, Some(task)).Ok? <==>
      && StrictProvider(task).Ok?
      && task.kind == Single(TObject)
      && forall k | k in protocol.properties && k in task.properties ::
           var t := Strict(task.properties[k]);
           (if k in task.required then t else Nullable(t)) == Strict(protocol.properties[k])
  {
    if StrictProvider(task).Ok? && task.kind == Single(TObject) {
      MergedProvides(protocol, task);
      MergeProceeds(protocol, task);
      ConflictsIff(protocol, task);
    } else {
      MergeRefuses(protocol, task);
    }
  }

  lemma NoConflictAgrees(protocol: Schema, task: Schema)
    requires task.kind == Single(TObject)
    requires !exists name :: Conflicts(protocol, Strict(task), name)
    ensures Agree(protocol, task)
  {
    forall k | k in protocol.properties && k in task.properties
      ensures StrictProperty(task, k) == Strict(protocol.properties[k])
    {
      assert !Conflicts(protocol, Strict(task), k);
      assert Strict(task).properties[k] == StrictProperty(task, k);
    }
  }

  /** One field of the merged object, in terms of the two strict schemas. */
  lemma MergedField(protocol: Schema, task: Schema, k: string, v: Json)
    requires task.kind == Single(TObject) && (k in protocol.properties || k in task.properties)
    requires Agree(protocol, task)
    ensures Accepts(StrictProperty(Merged(protocol, Strict(task)), k), v) <==>
      && (k in task.properties ==> Accepts(StrictProperty(task, k), v))
      && (k in protocol.properties ==> Accepts(StrictProperty(protocol, k), v))
  {
    MergedProperty(protocol, task, k);
    if k in task.properties && k in protocol.properties {
      if Accepts(StrictProperty(task, k), v) {
        NullableWeaker(Strict(protocol.properties[k]), v);
      }
    }
  }

  /** The object has the declared keys of the schema, each with a value its strict property accepts. */
  ghost predicate Fills(s: Schema, v: Json) {
    && v.Object?
    && s.properties.Keys <= v.fields.Keys
    && forall k | k in s.properties :: Accepts(StrictProperty(s, k), v.fields[k])
  }

  lemma ProjectionAccepts(s: Schema, v: Json)
    requires BareObject(s) && v.Object?
    ensures Accepts(Strict(s), Project(v, s.properties.Keys)) <==> Fills(s, v)
  {
    var p := Project(v, s.properties.Keys);
    StrictObjectAccepts(s, p);
    if Accepts(Strict(s), p) {
      forall k | k in s.properties ensures k in v.fields && Accepts(StrictProperty(s, k), v.fields[k]) {
        assert k in p.fields;
      }
    }
    if Fills(s, v) {
      assert p.fields.Keys == s.properties.Keys;
    }
  }

  lemma MergedFillsBoth(protocol: Schema, task: Schema, v: Json)
    requires task.kind == Single(TObject) && Agree(protocol, task)
    requires Fills(Merged(protocol, Strict(task)), v)
    ensures Fills(protocol, v) && Fills(task, v)
  {
    forall k | k in protocol.properties ensures Accepts(StrictProperty(protocol, k), v.fields[k]) {
      MergedField(protocol, task, k, v.fields[k]);
    }
    forall k | k in task.properties ensures Accepts(StrictProperty(task, k), v.fields[k]) {
      MergedField(protocol, task, k, v.fields[k]);
    }
  }

  lemma BothFillMerged(protocol: Schema, task: Schema, v: Json)
    requires task.kind == Single(TObject) && Agree(protocol, task)
    requires Fills(protocol, v) && Fills(task, v)
    ensures Fills(Merged(protocol, Strict(task)), v)
  {
    var m := Merged(protocol, Strict(task));
    forall k | k in m.properties ensures Accepts(StrictProperty(m, k), v.fields[k]) {
      MergedField(protocol, task, k, v.fields[k]);
    }
  }

  lemma StrictAcceptsIff(s: Schema, v: Json)
    requires BareObject(s)
    ensures Accepts(Strict(s), v) <==> Fills(s, v) && v.fields.Keys <= s.properties.Keys
  {
    StrictObjectAccepts(s, v);
  }

  /** A value satisfies the merged schema exactly when its two projections satisfy the two strict schemas
      and it has no other key, redeclared protocol fields included. */
  lemma MergeAccepts(protocol: Schema, task: Schema, merged: Schema, v: Json)
    requires BareObject(protocol) && BareObject(task)
    requires ChildResultSchema(protocol, Some(task)) == Ok(merged)
    ensures Accepts(merged, v) <==>
      && v.Object?
      && v.fields.Keys <= protocol.properties.Keys + task.properties.Keys
      && Accepts(Strict(protocol), Project(v, protocol.properties.Keys))
      && Accepts(Strict(task), Project(v, task.properties.Keys))
  {
    if StrictProvider(task).StrictSchemaError? {
      MergeRefuses(protocol, task);
    }
    MergeProceeds(protocol, task);
    NoConflictAgrees(protocol, task);
    StrictAcceptsIff(Merged(protocol, Strict(task)), v);
    if Fills(Merged(protocol, Strict(task)), v) {
      MergedFillsBoth(protocol, task, v);
    } else if Fills(protocol, v) && Fills(task, v) {
      BothFillMerged(protocol, task, v);
    }
    if v.Object? {
      ProjectionAccepts(protocol, v);
      ProjectionAccepts(task, v);
    }
  }
}
