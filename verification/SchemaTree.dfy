/** The in-place form of the rewriting: a schema document as a tree of mutable nodes. */
module SchemaTree {
  import opened JsonSchema
  import opened StrictSchema

  /** Where a node hangs below its parent. */
  datatype Position = Property(name: string) | Items | AnyOf(i: nat) | OneOf(i: nat) | AllOf(i: nat)

  class SchemaNode {
    var kind: TypeKeyword
    var properties: map<string, SchemaNode>
    var required: set<string>
    var additional: Additional
    var items: SchemaNode?
    var anyOf: seq<SchemaNode>
    var oneOf: seq<SchemaNode>
    var allOf: seq<SchemaNode>
    var local: Local
    /** The document below this node, and the nodes it consists of. */
    ghost var model: Schema
    ghost var Repr: set<object>

    /** `{"type": "null"}`. */
    constructor OfNull()
      ensures Valid() && fresh(Repr) && model == NULL_SCHEMA
    {
      kind, properties, required, additional, items := Single(TNull), map[], {}, Anything, null;
      anyOf, oneOf, allOf, local := [], [], [], UNCONSTRAINED;
      model, Repr := NULL_SCHEMA, {this};
    }

    ghost predicate Has(p: Position)
      reads this
    {
      match p
      case Property(name) => name in properties
      case Items => items != null
      case AnyOf(i) => i < |anyOf|
      case OneOf(i) => i < |oneOf|
      case AllOf(i) => i < |allOf|
    }

    ghost function At(p: Position): SchemaNode
      requires Has(p)
      reads this
    {
      match p
      case Property(name) => properties[name]
      case Items => items
      case AnyOf(i) => anyOf[i]
      case OneOf(i) => oneOf[i]
      case AllOf(i) => allOf[i]
    }

    /** The children are whole trees with no node in common. */
    ghost predicate Shape()
      reads this, Repr
      decreases Repr, 0
    {
      && this in Repr
      && (forall p | Has(p) :: At(p) in Repr && At(p).Repr <= Repr && this !in At(p).Repr && At(p).Valid())
      && (forall p, q | Has(p) && Has(q) && p != q :: At(p).Repr !! At(q).Repr)
    }

    /** The document is put together from the fields and the documents of the children. */
    ghost predicate Assembles(m: Schema)
      requires forall p | Has(p) :: At(p) in Repr
      reads this, Repr
    {
      && m.kind == kind && m.required == required && m.additional == additional && m.local == local
      && m.properties.Keys == properties.Keys
      && (m.items.Some? <==> items != null)
      && |m.anyOf| == |anyOf| && |m.oneOf| == |oneOf| && |m.allOf| == |allOf|
      && forall p | Has(p) :: ModelAt(m, p) == At(p).model
    }

    ghost predicate Valid()
      reads this, Repr
      ensures Valid() ==> this in Repr
      decreases Repr, 1
    {
      Shape() && Assembles(model)
    }

    /** `_make_nullable`. */
    method MakeNullable()
      requires Valid()
      modifies this
      ensures Valid() && fresh(Repr - old(Repr)) && model == Nullable(old(model))
    {
      match kind
      case Single(t) => SetKind(Union([t, TNull]));
      case Union(ts) =>
        if TNull !in ts {
          SetKind(Union(ts + [TNull]));
        } else if anyOf != [] {
          AddNullVariant();
        }
      case Untyped =>
        if anyOf != [] {
          AddNullVariant();
        }
    }

    /** Records the document the fields now stand for. */
    ghost method Remodel(m: Schema)
      requires Shape() && Assembles(m)
      modifies this`model
      ensures Valid() && model == m
    {
      model := m;
      assert forall p | Has(p) :: old(Has(p)) && At(p) == old(At(p)) && At(p).Valid();
    }

    method SetKind(k: TypeKeyword)
      requires Valid()
      modifies this`kind, this`model
      ensures Valid() && model == old(model).(kind := k)
    {
      kind := k;
      assert forall p | Has(p) :: old(Has(p)) && At(p) == old(At(p)) && At(p).Valid();
      Remodel(model.(kind := k));
    }

    /** One more variant that shares no node with the tree. */
    method Attach(variant: SchemaNode)
      requires Valid() && variant.Valid() && variant.Repr !! Repr
      modifies this`anyOf, this`Repr
      ensures Shape() && anyOf == old(anyOf) + [variant] && Repr == old(Repr) + variant.Repr
      ensures forall p | p != AnyOf(|old(anyOf)|) ::
        Has(p) == old(Has(p)) && (Has(p) ==> At(p) == old(At(p)) && At(p).model == old(At(p).model))
    {
      ghost var last := AnyOf(|anyOf|);
      anyOf := anyOf + [variant];
      Repr := Repr + variant.Repr;
      assert At(last) == variant;
      assert forall p | Has(p) && p != last :: old(Has(p)) && At(p) == old(At(p));
      assert forall p | Has(p) && p != last :: At(p).Valid();
    }

    method AddNullVariant()
      requires Valid()
      modifies this`anyOf, this`Repr, this`model
      ensures Valid() && fresh(Repr - old(Repr)) && model == old(model).(anyOf := old(model).anyOf + [NULL_SCHEMA])
    {
      var variant := new SchemaNode.OfNull();
      ghost var before, last := model, AnyOf(|anyOf|);
      Attach(variant);
      Remodel(before.(anyOf := before.anyOf + [NULL_SCHEMA]));
    }

    /** Everything but the set of nodes fits together, with one child possibly grown. */
    ghost predicate Fits(p: Position)
      reads this, Repr, if Has(p) then {At(p)} + At(p).Repr else {}
    {
      && this in Repr && Has(p) && this !in At(p).Repr && At(p).Valid()
      && (forall q | Has(q) && q != p ::
            At(q) in Repr && At(q).Repr <= Repr && this !in At(q).Repr && At(q).Valid() && At(p).Repr !! At(q).Repr)
      && (forall q, r | Has(q) && Has(r) && q != r && q != p && r != p ::
          At(q) in Repr && At(r) in Repr && At(q).Repr !! At(r).Repr)
    }

    ghost method Grow(p: Position, child: SchemaNode)
      requires Fits(p) && At(p) == child
      modifies this`Repr
      ensures Shape() && Repr == old(Repr) + child.Repr && child.model == old(child.model)
      ensures forall q | Has(q) :: At(q) == old(At(q)) && At(q).model == old(At(q).model)
    {
      Repr := Repr + child.Repr;
      assert forall q | Has(q) :: old(Has(q)) && At(q) == old(At(q)) && At(q).Valid();
    }

    method RewriteAt(ghost p: Position, child: SchemaNode, optional: bool, ghost bound: Schema)
      requires Shape() && Has(p) && At(p) == child && child.model < bound
      modifies child.Repr
      ensures Fits(p) && At(p) == child && Repr == old(Repr) && fresh(child.Repr - old(child.Repr))
      ensures child.model == if optional then Nullable(Strict(old(child.model))) else Strict(old(child.model))
      ensures forall q | Has(q) && q != p :: At(q) == old(At(q)) && At(q).model == old(At(q).model)
      decreases bound, 0
    {
      child.Rewrite(optional);
      assert forall q | Has(q) && q != p :: old(Has(q)) && At(q) == old(At(q)) && At(q).Valid();
    }

    /** Rewrites one child, as a required or as an optional one; the others keep their documents. */
    method StrictAt(ghost p: Position, child: SchemaNode, optional: bool, ghost bound: Schema)
      requires Shape() && Has(p) && At(p) == child && child.model < bound
      modifies child.Repr, this`Repr
      ensures Shape() && fresh(Repr - old(Repr))
      ensures child.model == if optional then Nullable(Strict(old(child.model))) else Strict(old(child.model))
      ensures forall q | Has(q) && q != p :: At(q).model == old(At(q).model)
      decreases bound, 1
    {
      RewriteAt(p, child, optional, bound);
      Grow(p, child);
    }

    method Rewrite(optional: bool)
      requires Valid()
      modifies Repr
      ensures Valid() && fresh(Repr - old(Repr))
      ensures model == if optional then Nullable(Strict(old(model))) else Strict(old(model))
      decreases model, 7
    {
      MakeStrict();
      if optional {
        MakeNullable();
      }
    }

    /** What the document of a child is once the properties outside `todo` are rewritten. */
    static ghost function Expected(m: Schema, originally: set<string>, todo: set<string>, p: Position): Schema
      requires HasPosition(m, p)
    {
      if p.Property? && p.name !in todo then
        if p.name in originally then Strict(ModelAt(m, p)) else Nullable(Strict(ModelAt(m, p)))
      else ModelAt(m, p)
    }

    ghost predicate PropertiesDone(m: Schema, originally: set<string>, todo: set<string>)
      requires forall p | Has(p) :: At(p) in Repr
      reads this, Repr
    {
      forall p | Has(p) :: HasPosition(m, p) && At(p).model == Expected(m, originally, todo, p)
    }

    /** One property more. */
    method StrictProperty(name: string, originally: set<string>, ghost todo: set<string>, ghost m: Schema)
      requires Shape() && name in properties && name in todo && PropertiesDone(m, originally, todo)
      modifies properties[name].Repr, this`Repr
      ensures Shape() && fresh(Repr - old(Repr)) && PropertiesDone(m, originally, todo - {name})
      decreases m, 2
    {
      ghost var p := Property(name);
      assert Has(p) && ModelAt(m, p) < m;
      StrictAt(p, properties[name], name !in originally, m);
      forall q | Has(q) ensures HasPosition(m, q) && At(q).model == Expected(m, originally, todo - {name}, q) {
        assert old(Has(q));
      }
    }

    /** The loop over the properties. */
    method StrictAllProperties(originally: set<string>, ghost m: Schema)
      requires Shape() && PropertiesDone(m, originally, properties.Keys)
      modifies Repr - {this}, this`Repr
      ensures Shape() && fresh(Repr - old(Repr)) && PropertiesDone(m, originally, {})
      decreases m, 3
    {
      var todo := properties.Keys;
      while todo != {}
        invariant Shape() && fresh(Repr - old(Repr)) && todo <= properties.Keys && PropertiesDone(m, originally, todo)
      {
        var name :| name in todo;
        assert Has(Property(name));
        StrictProperty(name, originally, todo, m);
        todo := todo - {name};
      }
    }

    /** The variants of one combinator up to `i` are rewritten, the others are not. */
    ghost predicate VariantsDone(children: seq<SchemaNode>, c: Combinator, m: Schema, i: nat)
      reads this, Repr
      requires forall p | Has(p) :: At(p) in Repr
    {
      forall k: nat | k < |children| :: var p := Place(c, k);
        Has(p) && At(p) == children[k] && HasPosition(m, p)
        && children[k].model == if k < i then Strict(ModelAt(m, p)) else ModelAt(m, p)
    }

    method StrictVariant(children: seq<SchemaNode>, ghost c: Combinator, ghost m: Schema, i: nat)
      requires Shape() && i < |children| && VariantsDone(children, c, m, i)
      modifies children[i].Repr, this`Repr
      ensures Shape() && fresh(Repr - old(Repr)) && VariantsDone(children, c, m, i + 1)
      ensures forall q | Has(q) && !OfCombinator(c, q) :: At(q).model == old(At(q).model)
      decreases m, 2
    {
      ghost var p := Place(c, i);
      assert Has(p) && ModelAt(m, p) < m;
      StrictAt(p, children[i], false, m);
      forall k: nat | k < |children|
        ensures var p := Place(c, k);
          Has(p) && At(p) == children[k] && HasPosition(m, p)
          && children[k].model == if k < i + 1 then Strict(ModelAt(m, p)) else ModelAt(m, p)
      {
        assert old(Has(Place(c, k)));
      }
    }

    /** The loop over the variants of one combinator. */
    method StrictVariants(children: seq<SchemaNode>, ghost c: Combinator, ghost m: Schema)
      requires Shape() && VariantsDone(children, c, m, 0)
      modifies Repr - {this}, this`Repr
      ensures Shape() && fresh(Repr - old(Repr)) && VariantsDone(children, c, m, |children|)
      ensures forall q | Has(q) && !OfCombinator(c, q) :: At(q).model == old(At(q).model)
      decreases m, 3
    {
      for i := 0 to |children|
        invariant Shape() && fresh(Repr - old(Repr)) && VariantsDone(children, c, m, i)
        invariant forall q | Has(q) && !OfCombinator(c, q) :: At(q).model == old(At(q).model)
      {
        assert Has(Place(c, i));
        StrictVariant(children, c, m, i);
      }
    }

    /** The children in the places below `stage` have their documents of `target`, the others those of `m`. */
    ghost predicate Progress(m: Schema, target: Schema, stage: nat)
      reads this, Repr
      requires forall p | Has(p) :: At(p) in Repr
    {
      forall p | Has(p) :: HasPosition(m, p) && HasPosition(target, p)
                           && At(p).model == if Rank(p) < stage then ModelAt(target, p) else ModelAt(m, p)
    }

    /** The fields other than the documents of the children. */
    ghost predicate OwnFields(m: Schema)
      reads this
    {
      && m.kind == kind && m.required == required && m.additional == additional && m.local == local
      && m.properties.Keys == properties.Keys
      && (m.items.Some? <==> items != null)
      && |m.anyOf| == |anyOf| && |m.oneOf| == |oneOf| && |m.allOf| == |allOf|
    }

    /** Every declared property required, and no other allowed. */
    method Close()
      requires Shape()
      modifies this`required, this`additional
      ensures Shape() && required == properties.Keys && additional == Nothing
      ensures forall p | Has(p) :: At(p).model == old(At(p).model)
    {
      additional, required := Nothing, properties.Keys;
      assert forall p | Has(p) :: old(Has(p)) && At(p) == old(At(p)) && At(p).Valid();
    }

    method StrictObject(ghost m: Schema, ghost target: Schema)
      requires Shape() && Progress(m, target, 0) && Targets(m, target)
      requires m.kind == Single(TObject) && m.required == required && m.properties.Keys == properties.Keys
      modifies Repr - {this}, this`Repr, this`required, this`additional
      ensures Shape() && fresh(Repr - old(Repr)) && Progress(m, target, 1)
      ensures required == properties.Keys && additional == Nothing
      decreases m, 4
    {
      var originally := required;
      Close();
      assert PropertiesDone(m, originally, properties.Keys);
      StrictAllProperties(originally, m);
      forall p | Has(p) ensures At(p).model == if Rank(p) < 1 then ModelAt(target, p) else ModelAt(m, p) {
        assert HasPosition(m, p) && At(p).model == Expected(m, originally, {}, p);
      }
    }

    /** The part of `_make_strict` that only an object has. */
    method StrictProperties(ghost m: Schema, ghost target: Schema)
      requires Shape() && OwnFields(m) && Progress(m, target, 0) && Targets(m, target) && target == Strict(m)
      modifies Repr - {this}, this`Repr, this`required, this`additional
      ensures Shape() && fresh(Repr - old(Repr)) && OwnFields(target) && Progress(m, target, 1)
      decreases m, 5
    {
      if kind == Single(TObject) {
        StrictObject(m, target);
      }
    }

    method StrictItems(ghost m: Schema, ghost target: Schema)
      requires Shape() && Progress(m, target, 1) && Targets(m, target)
      modifies Repr - {this}, this`Repr
      ensures Shape() && fresh(Repr - old(Repr)) && Progress(m, target, 2)
      decreases m, 4
    {
      if items != null {
        assert Has(Items) && ModelAt(m, Items) < m;
        StrictAt(Items, items, false, m);
        forall p | Has(p) ensures HasPosition(m, p) && HasPosition(target, p)
          && At(p).model == if Rank(p) < 2 then ModelAt(target, p) else ModelAt(m, p)
        {
          assert old(Has(p));
        }
      }
    }

    function Variants(c: Combinator): seq<SchemaNode>
      reads this
    {
      match c case Any => anyOf case One => oneOf case All => allOf
    }

    /** Progress in the places outside one combinator. */
    ghost predicate Others(c: Combinator, m: Schema, target: Schema)
      reads this, Repr
      requires forall p | Has(p) :: At(p) in Repr
    {
      forall p | Has(p) && !OfCombinator(c, p) :: HasPosition(m, p) && HasPosition(target, p)
        && At(p).model == if Rank(p) < Rank(Place(c, 0)) then ModelAt(target, p) else ModelAt(m, p)
    }

    lemma BeginCombinator(c: Combinator, m: Schema, target: Schema)
      requires Shape() && Progress(m, target, Rank(Place(c, 0)))
      ensures VariantsDone(Variants(c), c, m, 0) && Others(c, m, target)
    {
    }

    lemma EndCombinator(c: Combinator, m: Schema, target: Schema)
      requires Shape() && Targets(m, target)
      requires VariantsDone(Variants(c), c, m, |Variants(c)|) && Others(c, m, target)
      ensures Progress(m, target, Rank(Place(c, 0)) + 1)
    {
    }

    method StrictCombinator(c: Combinator, ghost m: Schema, ghost target: Schema)
      requires Shape() && Progress(m, target, Rank(Place(c, 0))) && Targets(m, target)
      modifies Repr - {this}, this`Repr
      ensures Shape() && fresh(Repr - old(Repr)) && Progress(m, target, Rank(Place(c, 0)) + 1)
      decreases m, 4
    {
      BeginCombinator(c, m, target);
      StrictVariants(Variants(c), c, m);
      forall p | Has(p) && !OfCombinator(c, p) ensures HasPosition(m, p) && At(p).model == old(At(p).model) {
        assert old(Has(p)) && At(p) == old(At(p));
      }
      EndCombinator(c, m, target);
    }

    /** The loop over the three combinators. */
    method StrictCombinators(ghost m: Schema, ghost target: Schema)
      requires Shape() && Progress(m, target, 2) && Targets(m, target)
      modifies Repr - {this}, this`Repr
      ensures Shape() && fresh(Repr - old(Repr)) && Progress(m, target, 5)
      decreases m, 5
    {
      var keywords := [Any, One, All];
      for i := 0 to 3
        invariant Shape() && fresh(Repr - old(Repr)) && Progress(m, target, i + 2)
      {
        assert Rank(Place(keywords[i], 0)) == i + 2;
        StrictCombinator(keywords[i], m, target);
      }
    }

    /** `_make_strict`. */
    method MakeStrict()
      requires Valid()
      modifies Repr
      ensures Valid() && fresh(Repr - old(Repr)) && model == Strict(old(model))
      decreases model, 6
    {
      ghost var m, target := model, Strict(model);
      StrictPositions(m);
      StrictProperties(m, target);
      StrictItems(m, target);
      StrictCombinators(m, target);
      Remodel(target);
    }
  }

  /** The order in which `_make_strict` goes through the children. */
  function Rank(p: Position): nat {
    match p
    case Property(_) => 0
    case Items => 1
    case AnyOf(_) => 2
    case OneOf(_) => 3
    case AllOf(_) => 4
  }

  /** What the strict document has in the places of a document. */
  ghost predicate Targets(m: Schema, target: Schema) {
    forall p | HasPosition(m, p) :: HasPosition(target, p) && ModelAt(target, p) ==
      if !p.Property? then Strict(ModelAt(m, p))
      else if m.kind != Single(TObject) then ModelAt(m, p)
      else if p.name in m.required then Strict(ModelAt(m, p))
      else Nullable(Strict(ModelAt(m, p)))
  }

  lemma StrictAtPosition(m: Schema, p: Position)
    requires HasPosition(m, p)
    ensures HasPosition(Strict(m), p)
    ensures ModelAt(Strict(m), p) ==
      if !p.Property? then Strict(ModelAt(m, p))
      else if m.kind == Single(TObject) then StrictSchema.StrictProperty(m, p.name)
      else ModelAt(m, p)
  {
  }

  lemma StrictPositions(m: Schema)
    ensures Targets(m, Strict(m))
  {
    forall p | HasPosition(m, p) ensures HasPosition(Strict(m), p) && ModelAt(Strict(m), p) ==
      if !p.Property? then Strict(ModelAt(m, p))
      else if m.kind != Single(TObject) then ModelAt(m, p)
      else if p.name in m.required then Strict(ModelAt(m, p))
      else Nullable(Strict(ModelAt(m, p)))
    {
      StrictAtPosition(m, p);
    }
  }

  datatype Combinator = Any | One | All

  function Place(c: Combinator, i: nat): Position {
    match c case Any => AnyOf(i) case One => OneOf(i) case All => AllOf(i)
  }

  predicate OfCombinator(c: Combinator, p: Position) {
    match c case Any => p.AnyOf? case One => p.OneOf? case All => p.AllOf?
  }

  ghost predicate HasPosition(s: Schema, p: Position) {
    match p
    case Property(name) => name in s.properties
    case Items => s.items.Some?
    case AnyOf(i) => i < |s.anyOf|
    case OneOf(i) => i < |s.oneOf|
    case AllOf(i) => i < |s.allOf|
  }

  ghost function ModelAt(s: Schema, p: Position): Schema
    requires HasPosition(s, p)
  {
    match p
    case Property(name) => s.properties[name]
    case Items => s.items.value
    case AnyOf(i) => s.anyOf[i]
    case OneOf(i) => s.oneOf[i]
    case AllOf(i) => s.allOf[i]
  }
}
