/** The strict form of a schema, the stripping of padded nulls, and what the pair preserves. */
module StrictSchema {
  import opened JsonSchema
  import opened Options

  /******* The transformation *******/

  /** Every object closed, every declared property required, optional ones nullable. */
  function Strict(s: Schema): Schema
    decreases s, 1
  {
    var inner := s.(
      items := if s.items.Some? then Some(Strict(s.items.value)) else None,
      anyOf := StrictEach(s, s.anyOf),
      oneOf := StrictEach(s, s.oneOf),
      allOf := StrictEach(s, s.allOf));
    if s.kind == Single(TObject) then
      inner.(additional := Nothing, required := s.properties.Keys, properties := StrictProperties(s))
    else
      inner
  }

  function StrictEach(ghost parent: Schema, variants: seq<Schema>): (r: seq<Schema>)
    requires forall i | 0 <= i < |variants| :: variants[i] < parent
    ensures |r| == |variants|
    ensures forall i | 0 <= i < |r| :: r[i] == Strict(variants[i])
    decreases parent, 0, |variants|
  {
    if variants == [] then [] else [Strict(variants[0])] + StrictEach(parent, variants[1..])
  }

  function StrictProperties(s: Schema): (r: map<string, Schema>)
    ensures r.Keys == s.properties.Keys
    ensures forall k | k in r :: r[k] == StrictProperty(s, k)
    decreases s, 0, 2
  {
    map k | k in s.properties :: StrictProperty(s, k)
  }

  function StrictProperty(s: Schema, name: string): Schema
    requires name in s.properties
    decreases s, 0, 1
  {
    if name in s.required then Strict(s.properties[name]) else Nullable(Strict(s.properties[name]))
  }

  function Nullable(s: Schema): Schema {
    match s.kind
    case Single(t) => s.(kind := Union([t, TNull]))
    case Union(ts) =>
      if TNull !in ts then s.(kind := Union(ts + [TNull]))
      else if s.anyOf != [] then s.(anyOf := s.anyOf + [NULL_SCHEMA])
      else s
    case Untyped => if s.anyOf != [] then s.(anyOf := s.anyOf + [NULL_SCHEMA]) else s
  }

  /** Drops the null of every optional key, at every level the schema describes. */
  function Strip(v: Json, s: Schema): Json
    decreases v, 1
  {
    if v.Array? && s.kind == Single(TArray) && s.items.Some? then
      Array(StripElements(v, s.items.value))
    else if v.Object? && s.kind == Single(TObject) then
      Object(StripFields(v, s))
    else
      v
  }

  function StripElements(v: Json, items: Schema): (r: seq<Json>)
    requires v.Array?
    ensures |r| == |v.elements|
    ensures forall i | 0 <= i < |r| :: r[i] == Strip(v.elements[i], items)
    decreases v, 0
  {
    seq(|v.elements|, i requires 0 <= i < |v.elements| => Strip(v.elements[i], items))
  }

  function StripFields(v: Json, s: Schema): (r: map<string, Json>)
    requires v.Object?
    ensures forall k :: k in r <==> k in v.fields && (k in s.required || !v.fields[k].Null?)
    ensures forall k | k in r :: r[k] == if k in s.properties then Strip(v.fields[k], s.properties[k]) else v.fields[k]
    decreases v, 0
  {
    map k | k in v.fields && !(v.fields[k].Null? && k !in s.required) ::
      if k in s.properties then Strip(v.fields[k], s.properties[k]) else v.fields[k]
  }

  /** The inverse direction: a null for every declared key that is missing. */
  function Pad(v: Json, s: Schema): Json
    decreases v, 1
  {
    if v.Array? && s.kind == Single(TArray) && s.items.Some? then
      Array(PadElements(v, s.items.value))
    else if v.Object? && s.kind == Single(TObject) then
      Object(PadFields(v, s))
    else
      v
  }

  function PadElements(v: Json, items: Schema): (r: seq<Json>)
    requires v.Array?
    ensures |r| == |v.elements|
    ensures forall i | 0 <= i < |r| :: r[i] == Pad(v.elements[i], items)
    decreases v, 0
  {
    seq(|v.elements|, i requires 0 <= i < |v.elements| => Pad(v.elements[i], items))
  }

  function PadFields(v: Json, s: Schema): (r: map<string, Json>)
    requires v.Object?
    ensures r.Keys == s.properties.Keys
    ensures forall k | k in r :: r[k] == if k in v.fields then Pad(v.fields[k], s.properties[k]) else Null
    decreases v, 0
  {
    map k | k in s.properties :: if k in v.fields then Pad(v.fields[k], s.properties[k]) else Null
  }

  /******* Idempotence *******/

  /** What it takes for a schema to be left alone by `Strict`. */
  ghost predicate Fixed(s: Schema) {
    Strict(s) == s
  }

  ghost predicate ChildrenFixed(s: Schema) {
    && (s.items.Some? ==> Fixed(s.items.value))
    && (forall x | x in s.anyOf :: Fixed(x))
    && (forall x | x in s.oneOf :: Fixed(x))
    && (forall x | x in s.allOf :: Fixed(x))
    && (s.kind == Single(TObject) ==>
          && s.additional == Nothing
          && s.required == s.properties.Keys
          && forall k | k in s.properties :: Fixed(s.properties[k]))
  }

  lemma EachFixed(parent: Schema, variants: seq<Schema>)
    requires forall i | 0 <= i < |variants| :: variants[i] < parent
    ensures StrictEach(parent, variants) == variants <==> forall x | x in variants :: Fixed(x)
  {
    var r := StrictEach(parent, variants);
    if r == variants {
      forall i | 0 <= i < |variants| ensures Fixed(variants[i]) {
        assert r[i] == Strict(variants[i]);
      }
    } else {
      var i :| 0 <= i < |variants| && r[i] != variants[i];
      assert !Fixed(variants[i]);
    }
  }

  lemma PropertiesFixed(s: Schema)
    requires s.required == s.properties.Keys
    ensures StrictProperties(s) == s.properties <==> forall k | k in s.properties :: Fixed(s.properties[k])
  {
    var r := StrictProperties(s);
    if r == s.properties {
      forall k | k in s.properties ensures Fixed(s.properties[k]) {
        assert r[k] == StrictProperty(s, k);
      }
    } else {
      var k :| k in s.properties && r[k] != s.properties[k];
      assert !Fixed(s.properties[k]);
    }
  }

  lemma FixedIff(s: Schema)
    ensures Fixed(s) <==> ChildrenFixed(s)
  {
    EachFixed(s, s.anyOf);
    EachFixed(s, s.oneOf);
    EachFixed(s, s.allOf);
    if s.kind == Single(TObject) && s.required == s.properties.Keys {
      PropertiesFixed(s);
    }
  }

  lemma NullableFixed(s: Schema)
    requires ChildrenFixed(s)
    ensures ChildrenFixed(Nullable(s))
  {
    FixedIff(NULL_SCHEMA);
  }

  lemma {:induction false} EachBecomesFixed(parent: Schema, variants: seq<Schema>)
    requires forall i | 0 <= i < |variants| :: variants[i] < parent
    ensures forall x | x in StrictEach(parent, variants) :: Fixed(x)
    decreases parent, 0
  {
    var r := StrictEach(parent, variants);
    forall i | 0 <= i < |r| ensures Fixed(r[i]) {
      StrictFixed(variants[i]);
    }
  }

  lemma {:induction false} PropertyBecomesFixed(s: Schema, name: string)
    requires name in s.properties
    ensures Fixed(StrictProperty(s, name))
    decreases s, 0
  {
    var child := Strict(s.properties[name]);
    StrictFixed(s.properties[name]);
    FixedIff(child);
    NullableFixed(child);
    FixedIff(Nullable(child));
  }

  lemma {:induction false} StrictFixed(s: Schema)
    ensures Fixed(Strict(s))
    decreases s, 1
  {
    var t := Strict(s);
    if s.items.Some? {
      StrictFixed(s.items.value);
    }
    EachBecomesFixed(s, s.anyOf);
    EachBecomesFixed(s, s.oneOf);
    EachBecomesFixed(s, s.allOf);
    if s.kind == Single(TObject) {
      forall k | k in s.properties ensures Fixed(t.properties[k]) {
        PropertyBecomesFixed(s, k);
      }
    }
    assert ChildrenFixed(t);
    FixedIff(t);
  }

  /******* Values: the fragment in which stripping mirrors the rewriting *******/

  /** Objects and arrays are rewritten and stripped along the same paths; any other schema must already
      be strict, because nothing below it is stripped. */
  ghost predicate Coherent(s: Schema)
    decreases s
  {
    if s.kind == Single(TObject) || s.kind == Single(TArray) then
      && s.anyOf == [] && s.oneOf == [] && s.allOf == []
      && s.local.enumeration.None? && s.local.constant.None?
      && (s.kind == Single(TObject) ==>
            s.required <= s.properties.Keys && forall k | k in s.properties :: Coherent(s.properties[k]))
      && (s.kind == Single(TArray) && s.items.Some? ==> Coherent(s.items.value))
    else
      Fixed(s)
  }

  lemma NullSchemaAccepts(v: Json)
    ensures Accepts(NULL_SCHEMA, v) <==> v.Null?
  {
  }

  lemma SameItems(s: Schema, t: Schema, v: Json)
    requires s.items == t.items
    ensures AcceptsItems(t, v) <==> AcceptsItems(s, v)
  {
  }

  lemma SameFields(s: Schema, t: Schema, v: Json)
    requires s.properties == t.properties && s.required == t.required && s.additional == t.additional
    ensures AcceptsFields(t, v) <==> AcceptsFields(s, v)
  {
  }

  lemma {:induction false} AcceptingFrom(s: Schema, t: Schema, variants: seq<Schema>, v: Json)
    requires forall i | 0 <= i < |variants| :: variants[i] < s && variants[i] < t
    ensures Accepting(t, variants, v) == Accepting(s, variants, v)
    decreases |variants|
  {
    if variants != [] {
      AcceptingFrom(s, t, variants[1..], v);
    }
  }

  /** One more variant, which accepts null only. */
  lemma {:induction false} AcceptingAppend(s: Schema, t: Schema, variants: seq<Schema>, v: Json)
    requires forall i | 0 <= i < |variants| :: variants[i] < s && variants[i] < t
    requires NULL_SCHEMA < t
    ensures Accepting(t, variants + [NULL_SCHEMA], v) == Accepting(s, variants, v) + if v.Null? then 1 else 0
    decreases |variants|
  {
    NullSchemaAccepts(v);
    if variants == [] {
      assert Accepting(t, [NULL_SCHEMA][1..], v) == 0;
    } else {
      AcceptingAppend(s, t, variants[1..], v);
      assert (variants + [NULL_SCHEMA])[1..] == variants[1..] + [NULL_SCHEMA];
    }
  }

  /** Only the type and `anyOf` differ between a schema and its nullable form. */
  lemma NullableParts(s: Schema, v: Json)
    ensures var t := Nullable(s);
      && t.local == s.local
      && (AcceptsItems(t, v) <==> AcceptsItems(s, v))
      && (AcceptsFields(t, v) <==> AcceptsFields(s, v))
  {
    var t := Nullable(s);
    SameItems(s, t, v);
    SameFields(s, t, v);
  }

  lemma NullableAnyOf(s: Schema, v: Json)
    ensures var t := Nullable(s);
      && (Enough(s.anyOf == [], Accepting(s, s.anyOf, v)) ==> Enough(t.anyOf == [], Accepting(t, t.anyOf, v)))
      && (Enough(t.anyOf == [], Accepting(t, t.anyOf, v)) && !v.Null? ==>
            Enough(s.anyOf == [], Accepting(s, s.anyOf, v)))
  {
    var t := Nullable(s);
    assert forall i | 0 <= i < |s.anyOf| :: t.anyOf[i] == s.anyOf[i];
    if t.anyOf == s.anyOf {
      AcceptingFrom(s, t, s.anyOf, v);
    } else {
      assert t.anyOf[|s.anyOf|] == NULL_SCHEMA;
      AcceptingAppend(s, t, s.anyOf, v);
    }
  }

  lemma NullableVariants(s: Schema, v: Json)
    ensures AcceptsVariants(s, v) ==> AcceptsVariants(Nullable(s), v)
    ensures AcceptsVariants(Nullable(s), v) && !v.Null? ==> AcceptsVariants(s, v)
  {
    var t := Nullable(s);
    assert t.allOf == s.allOf && t.oneOf == s.oneOf;
    AcceptingFrom(s, t, s.allOf, v);
    AcceptingFrom(s, t, s.oneOf, v);
    NullableAnyOf(s, v);
  }

  lemma NullableAccepts(s: Schema, v: Json)
    requires !v.Null?
    ensures Accepts(Nullable(s), v) <==> Accepts(s, v)
  {
    NullableParts(s, v);
    NullableVariants(s, v);
    assert HasKind(v, Nullable(s).kind) <==> HasKind(v, s.kind);
  }

  /** An object schema in which only the properties matter. */
  ghost predicate BareObject(s: Schema) {
    && s.kind == Single(TObject)
    && s.anyOf == s.oneOf == s.allOf == []
    && s.local.enumeration.None? && s.local.constant.None?
  }

  lemma ObjectAccepts(s: Schema, v: Json)
    requires BareObject(s)
    ensures Accepts(s, v) <==> v.Object? && AcceptsFields(s, v)
  {
  }

  lemma ArrayAccepts(s: Schema, v: Json)
    requires s.kind == Single(TArray) && s.anyOf == s.oneOf == s.allOf == []
    requires s.local.enumeration.None? && s.local.constant.None?
    ensures Accepts(s, v) <==> v.Array? && AcceptsLength(s.local, v) && AcceptsItems(s, v)
  {
  }

  /** What the strict form of an object schema demands, read off the original schema. */
  lemma StrictObjectAccepts(s: Schema, v: Json)
    requires BareObject(s)
    ensures Accepts(Strict(s), v) <==>
      && v.Object?
      && v.fields.Keys == s.properties.Keys
      && forall k | k in s.properties :: Accepts(StrictProperty(s, k), v.fields[k])
  {
    var t := Strict(s);
    ObjectAccepts(t, v);
    assert t.properties == StrictProperties(s);
    if v.Object? && AcceptsFields(t, v) {
      forall k | k in s.properties ensures Accepts(StrictProperty(s, k), v.fields[k]) {
        assert t.properties[k] == StrictProperty(s, k);
      }
    }
  }

  lemma StrictArrayAccepts(s: Schema, v: Json)
    requires Coherent(s) && s.kind == Single(TArray)
    ensures Accepts(Strict(s), v) <==>
      && v.Array?
      && AcceptsLength(s.local, v)
      && (s.items.Some? ==> forall i | 0 <= i < |v.elements| :: Accepts(Strict(s.items.value), v.elements[i]))
  {
    ArrayAccepts(Strict(s), v);
  }

  lemma StrictPropertyAccepts(s: Schema, k: string, v: Json)
    requires k in s.properties && (k in s.required || !v.Null?)
    ensures Accepts(StrictProperty(s, k), v) <==> Accepts(Strict(s.properties[k]), v)
  {
    if k !in s.required {
      NullableAccepts(Strict(s.properties[k]), v);
    }
  }

  /** One level of padding after stripping, given that the kept fields come back. */
  lemma FieldsComeBack(s: Schema, v: Json)
    requires v.Object? && v.fields.Keys == s.properties.Keys
    requires forall k | k in v.fields && (k in s.required || !v.fields[k].Null?) ::
               Pad(Strip(v.fields[k], s.properties[k]), s.properties[k]) == v.fields[k]
    ensures PadFields(Object(StripFields(v, s)), s) == v.fields
  {
  }

  lemma ElementsComeBack(items: Schema, v: Json)
    requires v.Array?
    requires forall i | 0 <= i < |v.elements| :: Pad(Strip(v.elements[i], items), items) == v.elements[i]
    ensures PadElements(Array(StripElements(v, items)), items) == v.elements
  {
  }

  /** Stripping loses nothing: padding brings every accepted value back. */
  lemma {:induction false} PadUndoesStrip(s: Schema, v: Json)
    requires Coherent(s) && Accepts(Strict(s), v)
    ensures Pad(Strip(v, s), s) == v
    decreases s
  {
    if s.kind == Single(TObject) {
      StrictObjectAccepts(s, v);
      forall k | k in v.fields && (k in s.required || !v.fields[k].Null?)
        ensures Pad(Strip(v.fields[k], s.properties[k]), s.properties[k]) == v.fields[k]
      {
        StrictPropertyAccepts(s, k, v.fields[k]);
        PadUndoesStrip(s.properties[k], v.fields[k]);
      }
      FieldsComeBack(s, v);
    } else if s.kind == Single(TArray) && s.items.Some? {
      StrictArrayAccepts(s, v);
      forall i | 0 <= i < |v.elements|
        ensures Pad(Strip(v.elements[i], s.items.value), s.items.value) == v.elements[i]
      {
        PadUndoesStrip(s.items.value, v.elements[i]);
      }
      ElementsComeBack(s.items.value, v);
    }
  }

  lemma StripInjective(s: Schema, v: Json, w: Json)
    requires Coherent(s) && Accepts(Strict(s), v) && Accepts(Strict(s), w)
    requires Strip(v, s) == Strip(w, s)
    ensures v == w
  {
    PadUndoesStrip(s, v);
    PadUndoesStrip(s, w);
  }

  lemma {:induction false} StrictSoundFields(s: Schema, v: Json)
    requires Coherent(s) && s.kind == Single(TObject) && Accepts(Strict(s), v)
    ensures v.Object? && AcceptsFields(s, Object(StripFields(v, s)))
    decreases s, 0
  {
    StrictObjectAccepts(s, v);
    var u := StripFields(v, s);
    forall k | k in u ensures Accepts(s.properties[k], u[k]) {
      StrictPropertyAccepts(s, k, v.fields[k]);
      StrictSound(s.properties[k], v.fields[k]);
    }
  }

  lemma {:induction false} StrictSoundElements(s: Schema, v: Json)
    requires Coherent(s) && s.kind == Single(TArray) && s.items.Some? && Accepts(Strict(s), v)
    ensures v.Array?
    ensures var u := Array(StripElements(v, s.items.value)); AcceptsItems(s, u) && AcceptsLength(s.local, u)
    decreases s, 0
  {
    StrictArrayAccepts(s, v);
    var u := StripElements(v, s.items.value);
    forall i | 0 <= i < |u| ensures Accepts(s.items.value, u[i]) {
      StrictSound(s.items.value, v.elements[i]);
    }
    forall i, j | 0 <= i < j < |u| && v.elements[i] != v.elements[j] ensures u[i] != u[j] {
      if u[i] == u[j] {
        StripInjective(s.items.value, v.elements[i], v.elements[j]);
      }
    }
  }

  /** Soundness: what the provider may answer becomes a value of the original schema. */
  lemma {:induction false} StrictSound(s: Schema, v: Json)
    requires Coherent(s) && Accepts(Strict(s), v)
    ensures Accepts(s, Strip(v, s))
    decreases s, 1
  {
    if s.kind == Single(TObject) {
      StrictSoundFields(s, v);
      ObjectAccepts(s, Strip(v, s));
    } else if s.kind == Single(TArray) {
      StrictArrayAccepts(s, v);
      if s.items.Some? {
        StrictSoundElements(s, v);
      }
      ArrayAccepts(s, Strip(v, s));
    }
  }

  /******* Completeness: exactly which values of the original schema have a strict counterpart *******/

  /** The nullable form of a property accepts null. */
  ghost predicate AdmitsNull(child: Schema) {
    Accepts(Nullable(Strict(child)), Null)
  }

  /** Every declared key is either present, and not a null that stripping would drop, or may be null. */
  ghost predicate Expressible(s: Schema, u: Json)
    decreases s
  {
    if s.kind == Single(TObject) && u.Object? then
      && u.fields.Keys <= s.properties.Keys
      && forall k | k in s.properties ::
           if k in u.fields then (k in s.required || !u.fields[k].Null?) && Expressible(s.properties[k], u.fields[k])
           else AdmitsNull(s.properties[k])
    else if s.kind == Single(TArray) && s.items.Some? && u.Array? then
      forall i | 0 <= i < |u.elements| :: Expressible(s.items.value, u.elements[i])
    else
      true
  }

  /** Padding an object, or a value that is not null, gives no null. */
  lemma PadKeepsNull(v: Json, s: Schema)
    ensures Pad(v, s).Null? <==> v.Null?
  {
  }

  lemma PaddedFieldKept(s: Schema, u: Json, k: string)
    requires u.Object? && k in u.fields && k in s.properties && (k in s.required || !u.fields[k].Null?)
    ensures k in StripFields(Object(PadFields(u, s)), s)
  {
    PadKeepsNull(u.fields[k], s.properties[k]);
  }

  lemma PaddedFieldsComeBack(s: Schema, u: Json)
    requires u.Object? && s.required <= u.fields.Keys <= s.properties.Keys
    requires forall k | k in u.fields :: k in s.required || !u.fields[k].Null?
    requires forall k | k in u.fields :: Strip(Pad(u.fields[k], s.properties[k]), s.properties[k]) == u.fields[k]
    ensures StripFields(Object(PadFields(u, s)), s) == u.fields
  {
    var w := StripFields(Object(PadFields(u, s)), s);
    forall k ensures k in w <==> k in u.fields {
      if k in u.fields {
        PaddedFieldKept(s, u, k);
      }
    }
  }

  lemma PaddedElementsComeBack(items: Schema, u: Json)
    requires u.Array?
    requires forall i | 0 <= i < |u.elements| :: Strip(Pad(u.elements[i], items), items) == u.elements[i]
    ensures StripElements(Array(PadElements(u, items)), items) == u.elements
  {
  }

  lemma {:induction false} StripUndoesPad(s: Schema, u: Json)
    requires Coherent(s) && Accepts(s, u) && Expressible(s, u)
    ensures Strip(Pad(u, s), s) == u
    decreases s
  {
    if s.kind == Single(TObject) {
      ObjectAccepts(s, u);
      forall k | k in u.fields ensures Strip(Pad(u.fields[k], s.properties[k]), s.properties[k]) == u.fields[k] {
        StripUndoesPad(s.properties[k], u.fields[k]);
      }
      PaddedFieldsComeBack(s, u);
    } else if s.kind == Single(TArray) && s.items.Some? {
      ArrayAccepts(s, u);
      forall i | 0 <= i < |u.elements|
        ensures Strip(Pad(u.elements[i], s.items.value), s.items.value) == u.elements[i]
      {
        StripUndoesPad(s.items.value, u.elements[i]);
      }
      PaddedElementsComeBack(s.items.value, u);
    }
  }

  lemma {:induction false} PadAccepted(s: Schema, u: Json)
    requires Coherent(s) && Accepts(s, u) && Expressible(s, u)
    ensures Accepts(Strict(s), Pad(u, s))
    decreases s
  {
    var w := Pad(u, s);
    if s.kind == Single(TObject) {
      ObjectAccepts(s, u);
      forall k | k in s.properties ensures Accepts(StrictProperty(s, k), w.fields[k]) {
        if k in u.fields {
          PadAccepted(s.properties[k], u.fields[k]);
          StrictPropertyAccepts(s, k, w.fields[k]);
        }
      }
      StrictObjectAccepts(s, w);
    } else if s.kind == Single(TArray) {
      ArrayAccepts(s, u);
      if s.items.Some? {
        forall i | 0 <= i < |u.elements| ensures Accepts(Strict(s.items.value), w.elements[i]) {
          PadAccepted(s.items.value, u.elements[i]);
        }
        forall i, j | 0 <= i < j < |u.elements| && u.elements[i] != u.elements[j]
          ensures w.elements[i] != w.elements[j]
        {
          StripUndoesPad(s.items.value, u.elements[i]);
          StripUndoesPad(s.items.value, u.elements[j]);
        }
      }
      StrictArrayAccepts(s, w);
    }
  }

  lemma {:induction false} StripExpressible(s: Schema, v: Json)
    requires Coherent(s) && Accepts(Strict(s), v)
    ensures Expressible(s, Strip(v, s))
    decreases s
  {
    var u := Strip(v, s);
    if s.kind == Single(TObject) {
      StrictObjectAccepts(s, v);
      forall k | k in u.fields ensures Expressible(s.properties[k], u.fields[k]) {
        StrictPropertyAccepts(s, k, v.fields[k]);
        StripExpressible(s.properties[k], v.fields[k]);
      }
    } else if s.kind == Single(TArray) && s.items.Some? {
      StrictArrayAccepts(s, v);
      forall i | 0 <= i < |u.elements| ensures Expressible(s.items.value, u.elements[i]) {
        StripExpressible(s.items.value, v.elements[i]);
      }
    }
  }

  /** Stripping is a bijection from the values of the strict schema onto the expressible values of the
      original one, and padding is its inverse. */
  lemma StrictCounterpartIff(s: Schema, u: Json)
    requires Coherent(s) && Accepts(s, u)
    ensures (exists v :: Accepts(Strict(s), v) && Strip(v, s) == u) <==> Expressible(s, u)
    ensures forall v | Accepts(Strict(s), v) && Strip(v, s) == u :: v == Pad(u, s)
  {
    if Expressible(s, u) {
      PadAccepted(s, u);
      StripUndoesPad(s, u);
    }
    forall v | Accepts(Strict(s), v) && Strip(v, s) == u ensures v == Pad(u, s) && Expressible(s, u) {
      PadUndoesStrip(s, v);
      StripExpressible(s, v);
    }
  }

  lemma NullAccepts(t: Schema)
    requires t.oneOf == t.allOf == t.anyOf == []
    ensures Accepts(t, Null) <==> HasKind(Null, t.kind) && AcceptsScalar(t.local, Null)
  {
  }

  lemma {:induction false} AllAccept(parent: Schema, variants: seq<Schema>, v: Json)
    requires forall i | 0 <= i < |variants| :: variants[i] < parent
    ensures Accepting(parent, variants, v) == |variants| <==> forall x | x in variants :: Accepts(x, v)
    decreases |variants|
  {
    if variants != [] {
      var first, rest := variants[0], variants[1..];
      AllAccept(parent, rest, v);
      assert variants == [first] + rest;
      assert (forall x | x in variants :: Accepts(x, v)) <==>
        Accepts(first, v) && forall x | x in rest :: Accepts(x, v);
    }
  }

  lemma {:induction false} SomeAccepts(parent: Schema, variants: seq<Schema>, v: Json)
    requires forall i | 0 <= i < |variants| :: variants[i] < parent
    ensures Accepting(parent, variants, v) >= 1 <==> exists x :: x in variants && Accepts(x, v)
    decreases |variants|
  {
    if variants != [] {
      var first, rest := variants[0], variants[1..];
      SomeAccepts(parent, rest, v);
      assert variants == [first] + rest;
      assert (exists x :: x in variants && Accepts(x, v)) <==>
        Accepts(first, v) || exists x :: x in rest && Accepts(x, v);
    }
  }

  lemma NullScalars(l: Local)
    ensures AcceptsScalar(l, Null) <==>
      && (l.enumeration.Some? ==> Null in l.enumeration.value)
      && (l.constant.Some? ==> l.constant.value == Null)
  {
  }

  lemma NullKind(s: Schema)
    ensures HasKind(Null, Nullable(s).kind)
  {
    var t := Nullable(s);
    if t.kind.Union? {
      assert TNull in t.kind.names && HasType(Null, TNull);
    }
  }

  lemma NullAnyOf(s: Schema)
    ensures var t := Nullable(s);
      Enough(t.anyOf == [], Accepting(t, t.anyOf, Null)) <==>
        (|| s.anyOf == []
         || s.kind.Untyped?
         || (s.kind.Union? && TNull in s.kind.names)
         || exists x :: x in s.anyOf && Accepts(x, Null))
  {
    var t := Nullable(s);
    SomeAccepts(t, t.anyOf, Null);
    if t.anyOf != s.anyOf {
      NullSchemaAccepts(Null);
      assert t.anyOf[|s.anyOf|] == NULL_SCHEMA && NULL_SCHEMA in t.anyOf;
    }
  }

  /** Null is accepted by the nullable form of a schema if and only if `enum` and `const` allow it, `allOf` and `oneOf`
      do, and `anyOf` does: a variant for null is only added where the type is absent or names null already. */
  lemma NullableNullIff(s: Schema)
    ensures Accepts(Nullable(s), Null) <==>
      && (s.local.enumeration.Some? ==> Null in s.local.enumeration.value)
      && (s.local.constant.Some? ==> s.local.constant.value == Null)
      && (forall x | x in s.allOf :: Accepts(x, Null))
      && (s.oneOf != [] ==> Accepting(s, s.oneOf, Null) == 1)
      && (|| s.anyOf == []
          || s.kind.Untyped?
          || (s.kind.Union? && TNull in s.kind.names)
          || exists x :: x in s.anyOf && Accepts(x, Null))
  {
    var t := Nullable(s);
    NullKind(s);
    NullScalars(s.local);
    NullAnyOf(s);
    AcceptingFrom(s, t, s.allOf, Null);
    AcceptingFrom(s, t, s.oneOf, Null);
    AllAccept(s, s.allOf, Null);
    assert t.local == s.local && t.allOf == s.allOf && t.oneOf == s.oneOf;
    assert Accepts(t, Null) <==> AcceptsScalar(t.local, Null) && AcceptsVariants(t, Null);
  }

  lemma StrictMembers(parent: Schema, variants: seq<Schema>, v: Json)
    requires forall i | 0 <= i < |variants| :: variants[i] < parent
    ensures (forall y | y in StrictEach(parent, variants) :: Accepts(y, v)) <==>
      forall x | x in variants :: Accepts(Strict(x), v)
    ensures (exists y :: y in StrictEach(parent, variants) && Accepts(y, v)) <==>
      exists x :: x in variants && Accepts(Strict(x), v)
  {
    var r := StrictEach(parent, variants);
    forall x | x in variants ensures Strict(x) in r {
      var i :| 0 <= i < |variants| && variants[i] == x;
      assert r[i] == Strict(x);
    }
    forall y | y in r ensures exists x :: x in variants && y == Strict(x) {
      var i :| 0 <= i < |r| && r[i] == y;
      assert variants[i] in variants;
    }
  }

  /** What the rewriting leaves as it is, and its variants. */
  lemma StrictKeeps(s: Schema)
    ensures var t := Strict(s);
      && t.local == s.local && t.kind == s.kind
      && t.anyOf == StrictEach(s, s.anyOf) && t.oneOf == StrictEach(s, s.oneOf) && t.allOf == StrictEach(s, s.allOf)
  {
  }

  /** The same of an optional property, before the rewriting: `anyOf` without a type, too, admits null. */
  lemma AdmitsNullIff(child: Schema)
    ensures AdmitsNull(child) <==>
      && (child.local.enumeration.Some? ==> Null in child.local.enumeration.value)
      && (child.local.constant.Some? ==> child.local.constant.value == Null)
      && (forall x | x in child.allOf :: Accepts(Strict(x), Null))
      && (child.oneOf != [] ==> Accepting(Strict(child), Strict(child).oneOf, Null) == 1)
      && (|| child.anyOf == []
          || child.kind.Untyped?
          || (child.kind.Union? && TNull in child.kind.names)
          || exists x :: x in child.anyOf && Accepts(Strict(x), Null))
  {
    StrictKeeps(child);
    NullableNullIff(Strict(child));
    StrictMembers(child, child.anyOf, Null);
    StrictMembers(child, child.allOf, Null);
  }
}
