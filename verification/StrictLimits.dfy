/** Where the rewriting and the stripping part company: each condition of the coherent fragment is needed. */
module StrictLimits {
  import opened JsonSchema
  import opened Options
  import opened StrictSchema

  const STRING_SCHEMA := EMPTY_SCHEMA.(kind := Single(TString))

  /** An object with one optional string. */
  const OPTIONAL_A := EMPTY_SCHEMA.(kind := Single(TObject), properties := map["a" := STRING_SCHEMA])

  const NULL_A := Object(map["a" := Null])

  /** A required key that is not declared is dropped by the rewriting, so that the stripped value is refused:
      for objects that are coherent otherwise, soundness holds exactly when every required key is declared. */
  lemma SoundIffRequiredDeclared(s: Schema, v: Json)
    requires BareObject(s) && (forall k | k in s.properties :: Coherent(s.properties[k])) && Accepts(Strict(s), v)
    ensures Accepts(s, Strip(v, s)) <==> s.required <= s.properties.Keys
  {
    StrictObjectAccepts(s, v);
    if s.required <= s.properties.Keys {
      StrictSound(s, v);
    } else {
      ObjectAccepts(s, Strip(v, s));
    }
  }

  lemma NullableString()
    ensures StrictProperty(OPTIONAL_A, "a") == Nullable(Strict(STRING_SCHEMA))
    ensures Accepts(Nullable(Strict(STRING_SCHEMA)), Null)
  {
    var t := Nullable(Strict(STRING_SCHEMA));
    NullAccepts(t);
    assert TNull in t.kind.names && HasType(Null, TNull);
  }

  lemma OptionalANeedsNull()
    ensures Accepts(Strict(OPTIONAL_A), NULL_A) && !Accepts(OPTIONAL_A, NULL_A)
  {
    NullableString();
    StrictObjectAccepts(OPTIONAL_A, NULL_A);
    assert "a" in NULL_A.fields && !Accepts(STRING_SCHEMA, Null);
    assert !AcceptsFields(OPTIONAL_A, NULL_A);
  }

  /** An `enum` on an object is compared with the padded value, and later with the stripped one. */
  lemma EnumOnObject()
    ensures var s := OPTIONAL_A.(local := UNCONSTRAINED.(enumeration := Some([NULL_A])));
      Accepts(Strict(s), NULL_A) && !Accepts(s, Strip(NULL_A, s))
  {
    var s := OPTIONAL_A.(local := UNCONSTRAINED.(enumeration := Some([NULL_A])));
    OptionalANeedsNull();
    var t := Strict(OPTIONAL_A);
    assert Strict(s) == t.(local := s.local);
    OtherLocal(t, s.local, NULL_A);
    assert Strip(NULL_A, s).fields.Keys == {};
    assert Strip(NULL_A, s) != NULL_A;
  }

  /** Exchanging the keywords that hold no subschema. */
  lemma OtherLocal(t: Schema, l: Local, v: Json)
    requires Accepts(t, v) && AcceptsScalar(l, v) && AcceptsLength(l, v) && t.anyOf == t.oneOf == t.allOf == []
    ensures Accepts(t.(local := l), v)
  {
  }

  /** The variants of a combinator are rewritten, but nothing is stripped below them. */
  lemma VariantsAreNotStripped()
    ensures var s := EMPTY_SCHEMA.(anyOf := [OPTIONAL_A]);
      Accepts(Strict(s), NULL_A) && !Accepts(s, Strip(NULL_A, s))
  {
    var s := EMPTY_SCHEMA.(anyOf := [OPTIONAL_A]);
    OptionalANeedsNull();
    assert Strict(s).anyOf == [Strict(OPTIONAL_A)];
    assert Accepting(Strict(s), Strict(s).anyOf, NULL_A) == 1;
    assert Accepting(s, s.anyOf, NULL_A) == 0;
    assert !AcceptsVariants(s, NULL_A);
  }

  /** `items` is rewritten under any type, but stripped only under the single type `array`. */
  lemma ItemsUnderAListOfTypes()
    ensures var s := EMPTY_SCHEMA.(kind := Union([TArray, TNull]), items := Some(OPTIONAL_A));
      Accepts(Strict(s), Array([NULL_A])) && !Accepts(s, Strip(Array([NULL_A]), s))
  {
    var s := EMPTY_SCHEMA.(kind := Union([TArray, TNull]), items := Some(OPTIONAL_A));
    var v := Array([NULL_A]);
    OptionalANeedsNull();
    assert HasKind(v, s.kind) by { assert TArray in s.kind.names && HasType(v, TArray); }
    var t := Strict(s);
    assert t.items == Some(Strict(OPTIONAL_A)) && t.kind == s.kind && t.anyOf == t.oneOf == t.allOf == [];
    assert AcceptsItems(t, v);
    assert AcceptsVariants(t, v);
    assert v.elements[0] == NULL_A;
    assert !AcceptsItems(s, v);
  }

  /******* Exactly when an enumeration is harmless *******/

  /** Every value of the strict schema strips to a value of the original one. */
  ghost predicate Sound(s: Schema) {
    forall v | Accepts(Strict(s), v) :: Accepts(s, Strip(v, s))
  }

  ghost predicate Listed(l: Local, v: Json) {
    && (l.enumeration.Some? ==> v in l.enumeration.value)
    && (l.constant.Some? ==> v == l.constant.value)
  }

  /** The schema without its own `enum` and `const`. */
  function Unlisted(s: Schema): Schema {
    s.(local := s.local.(enumeration := None, constant := None))
  }

  /** An object or an array whose own `enum` and `const` are all that keeps it from being coherent. */
  ghost predicate CoherentButListed(s: Schema) {
    (s.kind == Single(TObject) || s.kind == Single(TArray)) && Coherent(Unlisted(s))
  }

  lemma AcceptsUnlisted(s: Schema, v: Json)
    requires s.anyOf == s.oneOf == s.allOf == []
    ensures Accepts(s, v) <==> Accepts(Unlisted(s), v) && Listed(s.local, v)
  {
    var t := Unlisted(s);
    SameItems(s, t, v);
    SameFields(s, t, v);
    assert AcceptsScalar(s.local, v) <==> AcceptsScalar(t.local, v) && Listed(s.local, v);
    assert AcceptsVariants(s, v) && AcceptsVariants(t, v);
  }

  lemma StrictUnlisted(s: Schema)
    requires s.anyOf == s.oneOf == s.allOf == []
    ensures Strict(Unlisted(s)) == Unlisted(Strict(s)) && Strict(s).local == s.local
  {
    var t := Unlisted(s);
    assert StrictProperties(t) == StrictProperties(s) by {
      forall k | k in s.properties ensures StrictProperty(t, k) == StrictProperty(s, k) {
      }
    }
    StrictParts(s);
    StrictParts(t);
  }

  lemma StrictParts(s: Schema)
    requires s.anyOf == s.oneOf == s.allOf == []
    ensures Strict(s) == s.(
      items := if s.items.Some? then Some(Strict(s.items.value)) else None,
      additional := if s.kind == Single(TObject) then Nothing else s.additional,
      required := if s.kind == Single(TObject) then s.properties.Keys else s.required,
      properties := if s.kind == Single(TObject) then StrictProperties(s) else s.properties)
  {
  }

  lemma StripUnlisted(s: Schema, v: Json)
    ensures Strip(v, Unlisted(s)) == Strip(v, s)
  {
  }

  /** For objects and arrays that are coherent otherwise, soundness for all values holds if and only if every listed
      value that the rest of the strict schema accepts is listed after stripping too. */
  lemma SoundIffListedStripped(s: Schema)
    requires CoherentButListed(s)
    ensures Sound(s) <==>
      forall v | Listed(s.local, v) && Accepts(Strict(Unlisted(s)), v) :: Listed(s.local, Strip(v, s))
  {
    forall v ensures Accepts(Strict(s), v) <==> Listed(s.local, v) && Accepts(Strict(Unlisted(s)), v) {
      StrictUnlisted(s);
      AcceptsUnlisted(Strict(s), v);
    }
    forall v | Accepts(Strict(s), v) ensures Accepts(s, Strip(v, s)) <==> Listed(s.local, Strip(v, s)) {
      ListedDecides(s, v);
    }
    if !Sound(s) {
      var v :| Accepts(Strict(s), v) && !Accepts(s, Strip(v, s));
      assert Listed(s.local, v) && Accepts(Strict(Unlisted(s)), v) && !Listed(s.local, Strip(v, s));
    }
  }

  lemma ListedDecides(s: Schema, v: Json)
    requires CoherentButListed(s) && Accepts(Strict(s), v)
    ensures Accepts(s, Strip(v, s)) <==> Listed(s.local, Strip(v, s))
  {
    StrictUnlisted(s);
    AcceptsUnlisted(Strict(s), v);
    StripUnlisted(s, v);
    StrictSound(Unlisted(s), v);
    AcceptsUnlisted(s, Strip(v, s));
  }

  /******* Where nothing is stripped *******/

  /** The rewriting, without any stripping, only narrows the schema. */
  ghost predicate Narrows(s: Schema) {
    forall v | Accepts(Strict(s), v) :: Accepts(s, v)
  }

  /** Every object the rewriting reaches declares and requires the same keys, and there is no `oneOf`: then closing
      is all that the rewriting does. */
  ghost predicate OnlyCloses(s: Schema)
    decreases s
  {
    && s.oneOf == []
    && (s.items.Some? ==> OnlyCloses(s.items.value))
    && (forall i | 0 <= i < |s.anyOf| :: OnlyCloses(s.anyOf[i]))
    && (forall i | 0 <= i < |s.allOf| :: OnlyCloses(s.allOf[i]))
    && (s.kind == Single(TObject) ==>
        s.required == s.properties.Keys && forall k | k in s.properties :: OnlyCloses(s.properties[k]))
  }

  /** A combinator whose variants are rewritten accepts no more often than before. */
  lemma {:induction false} FewerAccept(s: Schema, t: Schema, variants: seq<Schema>, strict: seq<Schema>, v: Json)
    requires |strict| == |variants| && forall i | 0 <= i < |variants| :: variants[i] < s && strict[i] < t
    requires forall i | 0 <= i < |variants| :: Accepts(strict[i], v) ==> Accepts(variants[i], v)
    ensures Accepting(t, strict, v) <= Accepting(s, variants, v)
    decreases |variants|
  {
    if variants != [] {
      FewerAccept(s, t, variants[1..], strict[1..], v);
    }
  }

  lemma {:induction false} EachNarrows(parent: Schema, variants: seq<Schema>, strict: seq<Schema>, t: Schema, v: Json)
    requires forall i | 0 <= i < |variants| :: variants[i] < parent && OnlyCloses(variants[i])
    requires strict == StrictEach(parent, variants) && forall i | 0 <= i < |strict| :: strict[i] < t
    ensures Accepting(t, strict, v) <= Accepting(parent, variants, v)
    decreases parent, 0
  {
    forall i | 0 <= i < |variants| ensures Accepts(strict[i], v) ==> Accepts(variants[i], v) {
      if Accepts(strict[i], v) {
        StrictNarrower(variants[i], v);
      }
    }
    FewerAccept(parent, t, variants, strict, v);
  }

  lemma {:induction false} VariantsNarrow(s: Schema, v: Json)
    requires OnlyCloses(s) && AcceptsVariants(Strict(s), v)
    ensures AcceptsVariants(s, v)
    decreases s, 1
  {
    var t := Strict(s);
    EachNarrows(s, s.anyOf, t.anyOf, t, v);
    EachNarrows(s, s.allOf, t.allOf, t, v);
  }

  lemma {:induction false} FieldsNarrow(s: Schema, v: Json)
    requires OnlyCloses(s) && AcceptsFields(Strict(s), v)
    ensures AcceptsFields(s, v)
    decreases s, 0
  {
    var t := Strict(s);
    if s.kind == Single(TObject) {
      if v.Object? {
        forall k | k in v.fields && k in s.properties ensures Accepts(s.properties[k], v.fields[k]) {
          assert t.properties[k] == StrictProperty(s, k);
          StrictNarrower(s.properties[k], v.fields[k]);
        }
      }
    } else {
      SameFields(s, t, v);
    }
  }

  /** Such a rewriting only narrows a schema. */
  lemma {:induction false} StrictNarrower(s: Schema, v: Json)
    requires OnlyCloses(s) && Accepts(Strict(s), v)
    ensures Accepts(s, v)
    decreases s, 2
  {
    if v.Array? && s.items.Some? {
      forall i | 0 <= i < |v.elements| ensures Accepts(s.items.value, v.elements[i]) {
        StrictNarrower(s.items.value, v.elements[i]);
      }
    }
    FieldsNarrow(s, v);
    VariantsNarrow(s, v);
  }

  ghost predicate NeverStripped(s: Schema) {
    s.kind != Single(TObject) && s.kind != Single(TArray)
  }

  /** Combinators, and `items` under a list of types, are sound where the rewriting only closes objects. */
  lemma UnstrippedSound(s: Schema, v: Json)
    requires NeverStripped(s) && OnlyCloses(s) && Accepts(Strict(s), v)
    ensures Accepts(s, Strip(v, s))
  {
    StrictNarrower(s, v);
  }

  /** `items` and nothing else, under a list of types with `array` in it. */
  ghost predicate ItemsOnly(s: Schema) {
    && s.kind.Union? && TArray in s.kind.names && s.items.Some?
    && s.anyOf == s.oneOf == s.allOf == [] && s.local == UNCONSTRAINED
  }

  lemma SingleElement(s: Schema, w: Json)
    requires ItemsOnly(s) && Accepts(s.items.value, w)
    ensures Accepts(s, Array([w]))
  {
    assert HasType(Array([w]), TArray);
  }

  lemma SingleElementOf(s: Schema, w: Json)
    requires s.items.Some? && Accepts(s, Array([w]))
    ensures Accepts(s.items.value, w)
  {
    assert Array([w]).elements[0] == w;
  }

  lemma ElementsNarrow(s: Schema, v: Json)
    requires ItemsOnly(s) && Accepts(Strict(s), v)
    requires Narrows(s.items.value)
    ensures Accepts(s, v) && Strip(v, s) == v
  {
    StrictParts(s);
    SameFields(s, Strict(s), v);
    assert AcceptsItems(s, v);
    assert AcceptsVariants(s, v);
  }

  /** `items` under a list of types is sound if and only if the rewriting only narrows the schema of the elements:
      nothing below it is stripped. */
  lemma ItemsSoundIff(s: Schema)
    requires ItemsOnly(s)
    ensures Sound(s) <==> Narrows(s.items.value)
  {
    if Sound(s) {
      forall w | Accepts(Strict(s.items.value), w) ensures Accepts(s.items.value, w) {
        SingleElement(Strict(s), w);
        assert Strip(Array([w]), s) == Array([w]);
        SingleElementOf(s, w);
      }
    }
    if Narrows(s.items.value) {
      forall v | Accepts(Strict(s), v) ensures Accepts(s, Strip(v, s)) {
        ElementsNarrow(s, v);
      }
    }
  }

  lemma OneVariant(x: Schema, v: Json)
    ensures Accepts(EMPTY_SCHEMA.(anyOf := [x]), v) <==> Accepts(x, v)
  {
    var s := EMPTY_SCHEMA.(anyOf := [x]);
    assert Accepting(s, s.anyOf, v) == if Accepts(x, v) then 1 else 0;
    assert Accepts(s, v) <==> AcceptsVariants(s, v);
  }

  /** A single variant is sound under the same condition. */
  lemma OneVariantSoundIff(x: Schema)
    ensures Sound(EMPTY_SCHEMA.(anyOf := [x])) <==> Narrows(x)
  {
    var s := EMPTY_SCHEMA.(anyOf := [x]);
    assert Strict(s) == EMPTY_SCHEMA.(anyOf := [Strict(x)]);
    forall v
      ensures Strip(v, s) == v
      ensures (Accepts(s, v) <==> Accepts(x, v)) && (Accepts(Strict(s), v) <==> Accepts(Strict(x), v))
    {
      OneVariant(x, v);
      OneVariant(Strict(x), v);
    }
  }

  /** Every property of the strict object can be filled. */
  ghost predicate Fillable(s: Schema) {
    forall k | k in s.properties :: exists w :: Accepts(StrictProperty(s, k), w)
  }

  /** Where the nullable form of an optional property accepts null, the property itself does. */
  ghost predicate NullsWelcome(s: Schema) {
    forall k | k in s.properties && k !in s.required && Accepts(StrictProperty(s, k), Null) ::
      Accepts(s.properties[k], Null)
  }

  lemma NullableWider(s: Schema, v: Json)
    requires Accepts(s, v)
    ensures Accepts(Nullable(s), v)
  {
    NullableParts(s, v);
    NullableVariants(s, v);
    assert HasKind(v, s.kind) ==> HasKind(v, Nullable(s).kind);
  }

  /** What a property is rewritten to only narrows it. */
  ghost predicate PropertyNarrows(s: Schema, k: string)
    requires k in s.properties
  {
    forall w | Accepts(StrictProperty(s, k), w) :: Accepts(s.properties[k], w)
  }

  lemma PropertyNarrowsIff(s: Schema, k: string)
    requires k in s.properties
    ensures PropertyNarrows(s, k) <==>
      && Narrows(s.properties[k])
      && (k !in s.required && Accepts(StrictProperty(s, k), Null) ==> Accepts(s.properties[k], Null))
  {
    var x := s.properties[k];
    forall w | Accepts(Strict(x), w) ensures Accepts(StrictProperty(s, k), w) {
      NullableWider(Strict(x), w);
    }
    forall w: Json | !w.Null? || k in s.required ensures Accepts(StrictProperty(s, k), w) <==> Accepts(Strict(x), w) {
      StrictPropertyAccepts(s, k, w);
    }
  }

  lemma NarrowsFields(s: Schema, v: Json)
    requires BareObject(s) && s.required <= s.properties.Keys && Accepts(Strict(s), v)
    requires forall k | k in s.properties :: PropertyNarrows(s, k)
    ensures Accepts(s, v)
  {
    StrictObjectAccepts(s, v);
    forall k | k in s.properties ensures Accepts(s.properties[k], v.fields[k]) {
      assert PropertyNarrows(s, k) && Accepts(StrictProperty(s, k), v.fields[k]);
    }
    ObjectAccepts(s, v);
  }

  lemma FillsWith(s: Schema, k: string, w: Json) returns (v: Json)
    requires BareObject(s) && Fillable(s) && (k in s.properties ==> Accepts(StrictProperty(s, k), w))
    ensures Accepts(Strict(s), v) && v.Object? && v.fields.Keys == s.properties.Keys
    ensures k in s.properties ==> v.fields[k] == w
  {
    v := Object(map p | p in s.properties :: if p == k then w else var x :| Accepts(StrictProperty(s, p), x); x);
    StrictObjectAccepts(s, v);
  }

  lemma FillableFrom(s: Schema, v: Json)
    requires BareObject(s) && Accepts(Strict(s), v)
    ensures Fillable(s)
  {
    StrictObjectAccepts(s, v);
  }

  lemma NarrowsOnly(s: Schema)
    requires BareObject(s) && Fillable(s) && Narrows(s)
    ensures s.required <= s.properties.Keys && forall k | k in s.properties :: PropertyNarrows(s, k)
  {
    forall k | k in s.required ensures k in s.properties {
      if k !in s.properties {
        var v := FillsWith(s, k, Null);
        ObjectAccepts(s, v);
      }
    }
    forall k, w | k in s.properties && Accepts(StrictProperty(s, k), w) ensures Accepts(s.properties[k], w) {
      var v := FillsWith(s, k, w);
      ObjectAccepts(s, v);
      assert k in v.fields && v.fields[k] == w;
    }
  }

  lemma ObjectNarrows(s: Schema)
    requires BareObject(s)
    ensures Narrows(s) <==>
      (Fillable(s) ==> s.required <= s.properties.Keys && forall k | k in s.properties :: PropertyNarrows(s, k))
  {
    if Fillable(s) && s.required <= s.properties.Keys && forall k | k in s.properties :: PropertyNarrows(s, k) {
      forall v | Accepts(Strict(s), v) ensures Accepts(s, v) {
        NarrowsFields(s, v);
      }
    }
    if !Fillable(s) {
      forall v ensures !Accepts(Strict(s), v) {
        if Accepts(Strict(s), v) {
          FillableFrom(s, v);
        }
      }
    }
    if Fillable(s) && Narrows(s) {
      NarrowsOnly(s);
    }
  }

  /** For an object, unstripped use is sound if and only if it can never be filled, or every required key is declared,
      null is welcome wherever it is let in, and the same holds of each property: the condition goes down the schema. */
  lemma ObjectNarrowsIff(s: Schema)
    requires BareObject(s)
    ensures Narrows(s) <==>
      (Fillable(s) ==>
        && s.required <= s.properties.Keys && NullsWelcome(s)
        && forall k | k in s.properties :: Narrows(s.properties[k]))
  {
    ObjectNarrows(s);
    forall k | k in s.properties
      ensures PropertyNarrows(s, k) <==>
        && Narrows(s.properties[k])
        && (k !in s.required && Accepts(StrictProperty(s, k), Null) ==> Accepts(s.properties[k], Null))
    {
      PropertyNarrowsIff(s, k);
    }
  }
}
