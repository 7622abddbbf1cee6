/** The strict schema and the checks of the entry point, said of every subschema a path leads to. */
module StrictPaths {
  import opened JsonSchema
  import opened SchemaTree
  import opened StrictProvider
  import opened StrictSchema

  datatype Step = Below(p: Position) | UnderAdditional

  /** How far a walk goes: into every subschema as the metaschema does, not under `additionalProperties` as
      `_reject_unsupported_keywords`, or where `_make_strict` goes. */
  datatype Reach = Everywhere | Keywords | Rewriting

  ghost predicate Leads(reach: Reach, s: Schema, step: Step) {
    match step
    case UnderAdditional => reach == Everywhere && s.additional.Matching?
    case Below(p) => HasPosition(s, p) && (reach == Rewriting && p.Property? ==> s.kind == Single(TObject))
  }

  ghost function Child(reach: Reach, s: Schema, step: Step): (c: Schema)
    requires Leads(reach, s, step)
    ensures c < s
  {
    match step
    case UnderAdditional => s.additional.schema
    case Below(p) => ModelAt(s, p)
  }

  ghost predicate Path(reach: Reach, s: Schema, path: seq<Step>)
    decreases |path|
  {
    path == [] || (Leads(reach, s, path[0]) && Path(reach, Child(reach, s, path[0]), path[1..]))
  }

  /** The subschema at the end of a path. */
  ghost function End(reach: Reach, s: Schema, path: seq<Step>): Schema
    requires Path(reach, s, path)
    decreases |path|
  {
    if path == [] then s else End(reach, Child(reach, s, path[0]), path[1..])
  }

  /******* The checks of the entry point *******/

  /** What each walk asks of a single subschema: a `type` list with at least one name and none twice, no keyword
      outside the grammar, and no optional property of the single type `null`. */
  ghost predicate Good(reach: Reach, s: Schema) {
    match reach
    case Everywhere =>
      s.kind.Union? ==>
        s.kind.names != [] && forall i, j | 0 <= i < j < |s.kind.names| :: s.kind.names[i] != s.kind.names[j]
    case Keywords => s.local.unknown == {}
    case Rewriting =>
      s.kind == Single(TObject) ==>
        forall k | k in s.properties && k !in s.required :: s.properties[k].kind != Single(TNull)
  }

  ghost predicate GoodAt(reach: Reach, s: Schema, path: seq<Step>) {
    Path(reach, s, path) ==> Good(reach, End(reach, s, path))
  }

  ghost predicate GoodThroughout(reach: Reach, s: Schema) {
    forall path :: GoodAt(reach, s, path)
  }

  lemma GoodBelow(reach: Reach, s: Schema, step: Step)
    requires GoodThroughout(reach, s) && Leads(reach, s, step)
    ensures GoodThroughout(reach, Child(reach, s, step))
  {
    var c := Child(reach, s, step);
    forall path ensures GoodAt(reach, c, path) {
      var longer := [step] + path;
      assert longer[1..] == path;
      assert GoodAt(reach, s, longer);
    }
  }

  lemma GoodThroughoutIff(reach: Reach, s: Schema)
    ensures GoodThroughout(reach, s) <==>
      Good(reach, s) && forall step | Leads(reach, s, step) :: GoodThroughout(reach, Child(reach, s, step))
  {
    if GoodThroughout(reach, s) {
      assert GoodAt(reach, s, []);
      forall step | Leads(reach, s, step) ensures GoodThroughout(reach, Child(reach, s, step)) {
        GoodBelow(reach, s, step);
      }
    } else {
      var path :| !GoodAt(reach, s, path);
      assert path != [] ==> !GoodAt(reach, Child(reach, s, path[0]), path[1..]);
    }
  }

  /** The steps of a walk, keyword by keyword. */
  lemma ByPosition(reach: Reach, s: Schema)
    ensures reach != Rewriting || s.kind == Single(TObject) ==>
      forall k | k in s.properties ::
        Leads(reach, s, Below(Property(k))) && Child(reach, s, Below(Property(k))) == s.properties[k]
    ensures s.items.Some? ==> Leads(reach, s, Below(Items)) && Child(reach, s, Below(Items)) == s.items.value
    ensures forall i: nat | i < |s.anyOf| ::
      Leads(reach, s, Below(AnyOf(i))) && Child(reach, s, Below(AnyOf(i))) == s.anyOf[i]
    ensures forall i: nat | i < |s.oneOf| ::
      Leads(reach, s, Below(OneOf(i))) && Child(reach, s, Below(OneOf(i))) == s.oneOf[i]
    ensures forall i: nat | i < |s.allOf| ::
      Leads(reach, s, Below(AllOf(i))) && Child(reach, s, Below(AllOf(i))) == s.allOf[i]
    ensures reach == Everywhere && s.additional.Matching? ==>
      Leads(reach, s, UnderAdditional) && Child(reach, s, UnderAdditional) == s.additional.schema
  {
  }

  lemma {:induction false} SupportedThroughout(s: Schema)
    ensures Supported(s) <==> GoodThroughout(Keywords, s)
    decreases s
  {
    GoodThroughoutIff(Keywords, s);
    forall step | Leads(Keywords, s, step)
      ensures Supported(Child(Keywords, s, step)) <==> GoodThroughout(Keywords, Child(Keywords, s, step))
    {
      SupportedThroughout(Child(Keywords, s, step));
    }
    ByPosition(Keywords, s);
  }

  lemma {:induction false} MetaValidThroughout(s: Schema)
    ensures MetaValid(s) <==> GoodThroughout(Everywhere, s)
    decreases s
  {
    GoodThroughoutIff(Everywhere, s);
    forall step | Leads(Everywhere, s, step)
      ensures MetaValid(Child(Everywhere, s, step)) <==> GoodThroughout(Everywhere, Child(Everywhere, s, step))
    {
      MetaValidThroughout(Child(Everywhere, s, step));
    }
    ByPosition(Everywhere, s);
  }

  lemma {:induction false} NoOptionalNullThroughout(s: Schema)
    ensures NoOptionalNull(s) <==> GoodThroughout(Rewriting, s)
    decreases s
  {
    GoodThroughoutIff(Rewriting, s);
    forall step | Leads(Rewriting, s, step)
      ensures NoOptionalNull(Child(Rewriting, s, step)) <==> GoodThroughout(Rewriting, Child(Rewriting, s, step))
    {
      NoOptionalNullThroughout(Child(Rewriting, s, step));
    }
    ByPosition(Rewriting, s);
    if s.kind == Single(TObject) {
      assert OptionalsNotNull(s) <==>
        Good(Rewriting, s) && forall k | k in s.properties :: NoOptionalNull(s.properties[k]);
    }
  }

  /** The entry point returns a schema exactly when every subschema the metaschema reaches has a valid `type`, every
      one the keyword check reaches is inside the grammar, and no object the rewriting reaches has an optional
      property of the single type `null`. */
  lemma ProvidedIff(s: Schema)
    ensures StrictProvider.StrictProvider(s).Ok? <==>
      forall reach, path :: GoodAt(reach, s, path)
    ensures StrictProvider.StrictProvider(s).Ok? ==> StrictProvider.StrictProvider(s).schema == Strict(s)
  {
    StrictProviderSucceedsIff(s);
    MetaValidThroughout(s);
    SupportedThroughout(s);
    NoOptionalNullThroughout(s);
    if StrictProvider.StrictProvider(s).Ok? {
      forall reach, path ensures GoodAt(reach, s, path) {
        assert GoodThroughout(reach, s);
      }
    } else {
      var reach :| !GoodThroughout(reach, s);
    }
  }

  /******* The strict schema *******/

  /** Whether the path ends in an optional property. */
  ghost predicate EndsOptional(s: Schema, path: seq<Step>)
    requires Path(Rewriting, s, path)
    decreases |path|
  {
    path != [] &&
    if |path| == 1 then
      path[0].p.Property? && path[0].p.name !in s.required
    else
      EndsOptional(Child(Rewriting, s, path[0]), path[1..])
  }

  /** Making a schema nullable changes nothing below it. */
  lemma NullableBelow(s: Schema, path: seq<Step>)
    requires path != [] && Path(Keywords, s, path)
    ensures Path(Keywords, Nullable(s), path) && End(Keywords, Nullable(s), path) == End(Keywords, s, path)
  {
    assert Leads(Keywords, Nullable(s), path[0]);
    assert Child(Keywords, Nullable(s), path[0]) == Child(Keywords, s, path[0]);
  }

  /** Wherever the rewriting goes, the strict schema has the strict form of the subschema, in its nullable form
      exactly where the path ends in an optional property. */
  lemma {:induction false} StrictAt(s: Schema, path: seq<Step>)
    requires Path(Rewriting, s, path)
    ensures Path(Keywords, Strict(s), path)
    ensures End(Keywords, Strict(s), path) ==
      if EndsOptional(s, path) then Nullable(Strict(End(Rewriting, s, path))) else Strict(End(Rewriting, s, path))
    decreases |path|
  {
    if path != [] {
      var p, rest := path[0].p, path[1..];
      var c := Child(Rewriting, s, path[0]);
      StrictAtPosition(s, p);
      StrictAt(c, rest);
      if p.Property? && p.name !in s.required && rest != [] {
        NullableBelow(Strict(c), rest);
      }
    }
  }

  /** Every object the rewriting reaches, at any depth and under any combinator, is closed and requires all of its
      properties, and takes null exactly if it was optional. */
  lemma EveryObjectStrict(s: Schema, path: seq<Step>)
    requires Path(Rewriting, s, path) && End(Rewriting, s, path).kind == Single(TObject)
    ensures Path(Keywords, Strict(s), path)
    ensures var o, t := End(Rewriting, s, path), End(Keywords, Strict(s), path);
      && t.additional == Nothing && t.required == t.properties.Keys == o.properties.Keys
      && t.kind == if EndsOptional(s, path) then Union([TObject, TNull]) else Single(TObject)
  {
    StrictAt(s, path);
  }

  lemma StrictOwn(o: Schema)
    ensures var t := Strict(o);
      && t.kind == o.kind && t.local == o.local && (t.items.Some? <==> o.items.Some?)
      && |t.anyOf| == |o.anyOf| && |t.oneOf| == |o.oneOf| && |t.allOf| == |o.allOf|
      && (o.kind != Single(TObject) ==>
            t.properties == o.properties && t.required == o.required && t.additional == o.additional)
  {
  }

  lemma NullableOwn(o: Schema)
    ensures var t := Nullable(o);
      && t == o.(kind := t.kind, anyOf := t.anyOf)
      && (t.kind == o.kind || t.anyOf == o.anyOf) && |t.anyOf| <= |o.anyOf| + 1
  {
  }

  /** Nothing else changes where the rewriting goes: not the other keywords of a schema, and nothing of one that is no
      object but its variants, its elements and, if it was optional, its type or one variant more. */
  lemma OthersKept(s: Schema, path: seq<Step>)
    requires Path(Rewriting, s, path)
    ensures Path(Keywords, Strict(s), path)
    ensures var o, t := End(Rewriting, s, path), End(Keywords, Strict(s), path);
      && t.local == o.local && (t.items.Some? <==> o.items.Some?)
      && |t.oneOf| == |o.oneOf| && |t.allOf| == |o.allOf|
      && (o.kind != Single(TObject) ==>
            t.properties == o.properties && t.required == o.required && t.additional == o.additional)
      && (!EndsOptional(s, path) ==> t.kind == o.kind && |t.anyOf| == |o.anyOf|)
      && (EndsOptional(s, path) ==> t.kind == o.kind || |t.anyOf| == |o.anyOf|)
      && |t.anyOf| <= |o.anyOf| + 1
  {
    StrictAt(s, path);
    StrictOwn(End(Rewriting, s, path));
    NullableOwn(Strict(End(Rewriting, s, path)));
  }
}
