/** JSON values and JSON Schema documents (draft 2020-12), with acceptance of a value by a schema. */
module JsonSchema {
  import opened Options

  datatype Json =
    | Null
    | Bool(b: bool)
    | Number(n: real)
    | String(s: string)
    | Array(elements: seq<Json>)
    | Object(fields: map<string, Json>)

  datatype JsonType = TNull | TBoolean | TNumber | TInteger | TString | TArray | TObject

  /** The `type` keyword: absent, one name, or a list of names. */
  datatype TypeKeyword = Untyped | Single(name: JsonType) | Union(names: seq<JsonType>)

  /** `additionalProperties`: absent or true, false, or a schema. */
  datatype Additional = Anything | Nothing | Matching(schema: Schema)

  /** Keywords that look at numbers and strings only. A pattern is the set of strings it matches. */
  datatype Check =
    | Minimum(bound: real)
    | Maximum(bound: real)
    | ExclusiveMinimum(bound: real)
    | ExclusiveMaximum(bound: real)
    | MinLength(length: nat)
    | MaxLength(length: nat)
    | Pattern(language: iset<string>)

  /** The keywords that hold no subschema. `unknown` names those outside the supported grammar. */
  datatype Local = Local(
    enumeration: Option<seq<Json>>,
    constant: Option<Json>,
    minItems: nat,
    maxItems: Option<nat>,
    uniqueItems: bool,
    checks: seq<Check>,
    unknown: set<string>)

  const UNCONSTRAINED := Local(None, None, 0, None, false, [], {})

  /** Absent `properties` and `required` are the empty map and set, an absent combinator is the empty
      list. */
  datatype Schema = Schema(
    kind: TypeKeyword,
    properties: map<string, Schema>,
    required: set<string>,
    additional: Additional,
    items: Option<Schema>,
    anyOf: seq<Schema>,
    oneOf: seq<Schema>,
    allOf: seq<Schema>,
    local: Local)

  /** The schema that constrains nothing, `{}`. */
  const EMPTY_SCHEMA := Schema(Untyped, map[], {}, Anything, None, [], [], [], UNCONSTRAINED)

  const NULL_SCHEMA := EMPTY_SCHEMA.(kind := Single(TNull))

  /******* Acceptance *******/

  // Validation section 6.1.1: an integer is a number with a zero fractional part.
  predicate HasType(v: Json, t: JsonType) {
    match t
    case TNull => v.Null?
    case TBoolean => v.Bool?
    case TNumber => v.Number?
    case TInteger => v.Number? && v.n.Floor as real == v.n
    case TString => v.String?
    case TArray => v.Array?
    case TObject => v.Object?
  }

  predicate HasKind(v: Json, kind: TypeKeyword) {
    match kind
    case Untyped => true
    case Single(t) => HasType(v, t)
    case Union(ts) => exists t | t in ts :: HasType(v, t)
  }

  ghost predicate Passes(v: Json, check: Check) {
    match check
    case Minimum(m) => v.Number? ==> m <= v.n
    case Maximum(m) => v.Number? ==> v.n <= m
    case ExclusiveMinimum(m) => v.Number? ==> m < v.n
    case ExclusiveMaximum(m) => v.Number? ==> v.n < m
    case MinLength(k) => v.String? ==> k <= |v.s|
    case MaxLength(k) => v.String? ==> |v.s| <= k
    case Pattern(language) => v.String? ==> v.s in language
  }

  ghost predicate Distinct<T>(xs: seq<T>) {
    forall i, j | 0 <= i < j < |xs| :: xs[i] != xs[j]
  }

  // Validation sections 6.1.2, 6.1.3, 6.2 and 6.3.
  ghost predicate AcceptsScalar(l: Local, v: Json) {
    && (l.enumeration.Some? ==> v in l.enumeration.value)
    && (l.constant.Some? ==> v == l.constant.value)
    && (forall c | c in l.checks :: Passes(v, c))
  }

  // Validation section 6.4: the array keywords say nothing about other values.
  ghost predicate AcceptsLength(l: Local, v: Json) {
    v.Array? ==>
      && l.minItems <= |v.elements|
      && (l.maxItems.Some? ==> |v.elements| <= l.maxItems.value)
      && (l.uniqueItems ==> Distinct(v.elements))
  }

  // Core section 10.3.1.2.
  ghost predicate AcceptsItems(s: Schema, v: Json)
    decreases s, 0
  {
    v.Array? && s.items.Some? ==>
      forall i | 0 <= i < |v.elements| :: Accepts(s.items.value, v.elements[i])
  }

  // Validation section 6.5.3, core sections 10.3.2.1 and 10.3.2.3.
  ghost predicate AcceptsFields(s: Schema, v: Json)
    decreases s, 0
  {
    v.Object? ==>
      && s.required <= v.fields.Keys
      && (forall k | k in v.fields && k in s.properties :: Accepts(s.properties[k], v.fields[k]))
      && (forall k | k in v.fields && k !in s.properties :: s.additional != Nothing)
      && (s.additional.Matching? ==>
            forall k | k in v.fields && k !in s.properties :: Accepts(s.additional.schema, v.fields[k]))
  }

  /** How many of the variants of a combinator accept the value. */
  ghost function Accepting(parent: Schema, variants: seq<Schema>, v: Json): (n: nat)
    requires forall i | 0 <= i < |variants| :: variants[i] < parent
    ensures n <= |variants|
    decreases parent, 0, |variants|
  {
    if variants == [] then 0
    else (if Accepts(variants[0], v) then 1 else 0) + Accepting(parent, variants[1..], v)
  }

  // Core section 10.2.1: allOf, anyOf and oneOf.
  ghost predicate AcceptsVariants(s: Schema, v: Json)
    decreases s, 1
  {
    && Accepting(s, s.allOf, v) == |s.allOf|
    && Enough(s.anyOf == [], Accepting(s, s.anyOf, v))
    && (s.oneOf != [] ==> Accepting(s, s.oneOf, v) == 1)
  }

  predicate Enough(none: bool, accepting: nat) {
    none || accepting >= 1
  }

  ghost predicate Accepts(s: Schema, v: Json)
    decreases s, 2
  {
    && HasKind(v, s.kind)
    && AcceptsScalar(s.local, v)
    && AcceptsLength(s.local, v)
    && AcceptsItems(s, v)
    && AcceptsFields(s, v)
    && AcceptsVariants(s, v)
  }
}
