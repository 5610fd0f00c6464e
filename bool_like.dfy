/**
 The `#[bool_like]` attribute macro as a transformation of declarations.

 `Expand` is the transformation stated as a function: shape validation, then
 the choice of the `false` variant and the removal of its markers, then the
 emitted items. `BoolLike` is the macro body itself, with its nested scan
 loops, and is proved to compute `Expand`.
 */
module BoolLike {
  import opened Syntax
  import opened Markers
  import opened Generated

  /** The two ways the macro aborts compilation. */
  datatype ShapeError =
    | NotAnEnum       // the item is a struct or a union
    | NotTwoVariants  // the enum has fewer or more than two variants

  datatype Result<T> = Ok(value: T) | Err(error: ShapeError)

  /**
   The macro's output: the annotated item as re-emitted, the `Not` impl, and
   the `From` impls when a variant was marked `#[into_false]`.
   */
  datatype Expansion = Expansion(decl: Decl, notImpl: NotImpl, fromImpls: Option<FromImpls>)

  /** The variant at `i` with its `#[into_false]` attributes removed. */
  function StripAt(vs: seq<Variant>, i: nat): (ws: seq<Variant>)
    requires i < |vs|
    ensures |ws| == |vs|
    ensures ws[i].ident == vs[i].ident && ws[i].attrs == RemoveMarkers(vs[i].attrs)
    ensures forall k :: 0 <= k < |vs| && k != i ==> ws[k] == vs[k]
  {
    vs[i := vs[i].(attrs := RemoveMarkers(vs[i].attrs))]
  }

  /** The transformation performed by `#[bool_like]` on one item. */
  function Expand(d: Decl): (r: Result<Expansion>)
    ensures !d.data.Enum? ==> r == Err(NotAnEnum)
    ensures d.data.Enum? && |d.data.variants| != 2 ==> r == Err(NotTwoVariants)
    ensures r.Ok? <==> d.data.Enum? && |d.data.variants| == 2
  {
    match d.data
    case Enum(vs) =>
      if |vs| != 2 then Err(NotTwoVariants)
      else
        var marked := FirstMarked(vs);
        var ws := if marked.Some? then StripAt(vs, marked.value) else vs;
        var fromImpls := if marked.Some? then Some(FromImpls(d.ident, vs[marked.value].ident)) else None;
        Ok(Expansion(d.(data := Enum(ws)), NotImpl(d.ident, ws[0].ident, ws[1].ident), fromImpls))
    case _ => Err(NotAnEnum)
  }

  /**
   The macro body: validate the shape, scan the variants in declaration order
   for the first one carrying `#[into_false]`, strip that variant's markers,
   and build the output.
   */
  method BoolLike(d: Decl) returns (r: Result<Expansion>)
    ensures r == Expand(d)
  {
    if !d.data.Enum? {
      return Err(NotAnEnum);
    }
    var variants := d.data.variants;
    if |variants| != 2 {
      return Err(NotTwoVariants);
    }

    var falseVariant: Option<Ident> := None;
    var i := 0;
    while i < |variants|
      invariant 0 <= i <= |variants|
      invariant variants == d.data.variants
      invariant falseVariant == None
      invariant forall k :: 0 <= k < i ==> !HasMarker(variants[k].attrs)
    {
      var attrs := variants[i].attrs;
      var j := 0;
      while j < |attrs|
        invariant 0 <= j <= |attrs|
        invariant falseVariant == None
        invariant forall k :: 0 <= k < j ==> !IsIntoFalse(attrs[k])
      {
        if IsIntoFalse(attrs[j]) {
          falseVariant := Some(variants[i].ident);
          break;
        }
        j := j + 1;
      }
      if falseVariant.Some? {
        FirstMarkedAt(variants, i);
        variants := StripAt(variants, i);
        break;
      }
      i := i + 1;
    }

    var fromImpls := match falseVariant
      case Some(v) => Some(FromImpls(d.ident, v))
      case None => None;
    r := Ok(Expansion(d.(data := Enum(variants)), NotImpl(d.ident, variants[0].ident, variants[1].ident), fromImpls));
  }

  /**
   A successful expansion re-emits the item under the same name, with the
   same item attributes and the same variant identifiers in the same order,
   and the `Not` impl swaps the two declared variants.
   */
  lemma ExpandKeepsDeclaration(d: Decl)
    requires Expand(d).Ok?
    ensures var e := Expand(d).value;
      && e.decl.ident == d.ident && e.decl.attrs == d.attrs
      && e.decl.data.Enum? && |e.decl.data.variants| == 2
      && e.decl.data.variants[0].ident == d.data.variants[0].ident
      && e.decl.data.variants[1].ident == d.data.variants[1].ident
      && e.notImpl == NotImpl(d.ident, d.data.variants[0].ident, d.data.variants[1].ident)
  {
  }

  /**
   Conversions are emitted exactly when some variant carries `#[into_false]`,
   and they key on the first such variant in declaration order.
   */
  lemma ExpandChoosesFirstMarked(d: Decl)
    requires Expand(d).Ok?
    ensures var vs, e := d.data.variants, Expand(d).value;
      && (e.fromImpls.None? <==> !HasMarker(vs[0].attrs) && !HasMarker(vs[1].attrs))
      && (HasMarker(vs[0].attrs) ==> e.fromImpls == Some(FromImpls(d.ident, vs[0].ident)))
      && (!HasMarker(vs[0].attrs) && HasMarker(vs[1].attrs) ==> e.fromImpls == Some(FromImpls(d.ident, vs[1].ident)))
  {
    var vs := d.data.variants;
    if HasMarker(vs[0].attrs) {
      FirstMarkedAt(vs, 0);
    } else if HasMarker(vs[1].attrs) {
      FirstMarkedAt(vs, 1);
    }
  }

  /**
   Only the chosen variant is rewritten: it loses its `#[into_false]`
   attributes and keeps the others in order; the other variant, including a
   second marker it may carry, is re-emitted as declared. With no marker the
   item is re-emitted unchanged.
   */
  lemma ExpandStripsOnlyChosen(d: Decl)
    requires Expand(d).Ok?
    ensures var vs, ws := d.data.variants, Expand(d).value.decl.data.variants;
      && (HasMarker(vs[0].attrs) ==>
            ws[0].attrs == RemoveMarkers(vs[0].attrs) && ws[1] == vs[1])
      && (!HasMarker(vs[0].attrs) && HasMarker(vs[1].attrs) ==>
            ws[0] == vs[0] && ws[1].attrs == RemoveMarkers(vs[1].attrs))
      && (!HasMarker(vs[0].attrs) && !HasMarker(vs[1].attrs) ==> Expand(d).value.decl == d)
  {
    var vs := d.data.variants;
    if HasMarker(vs[0].attrs) {
      FirstMarkedAt(vs, 0);
    } else if HasMarker(vs[1].attrs) {
      FirstMarkedAt(vs, 1);
    }
  }

  /**
   The emitted impls fit together: the conversions are for the same type and
   key on one of its two variants, so `Enum::from(true)` can negate it.
   */
  lemma ExpandWellFormed(d: Decl)
    requires Expand(d).Ok?
    ensures var e := Expand(d).value;
      e.fromImpls.Some? ==> Compatible(e.notImpl, e.fromImpls.value)
  {
  }

  /**
   The impls emitted for an accepted enum with a marker obey the laws of
   `Generated`: `bool::from(!x) == !bool::from(x)` and
   `Enum::from(bool::from(x)) == x` for both variants.
   */
  lemma ExpandConversionsConsistent(d: Decl)
    requires Expand(d).Ok? && Expand(d).value.fromImpls.Some?
    requires d.data.variants[0].ident != d.data.variants[1].ident
    ensures var e := Expand(d).value;
      forall x :: IsValue(e.notImpl, x) ==>
        && ToBool(e.fromImpls.value, Not(e.notImpl, x)) == !ToBool(e.fromImpls.value, x)
        && FromBool(e.notImpl, e.fromImpls.value, ToBool(e.fromImpls.value, x)) == x
  {
    var e := Expand(d).value;
    ExpandKeepsDeclaration(d);
    ExpandWellFormed(d);
    forall x | IsValue(e.notImpl, x)
      ensures ToBool(e.fromImpls.value, Not(e.notImpl, x)) == !ToBool(e.fromImpls.value, x)
      ensures FromBool(e.notImpl, e.fromImpls.value, ToBool(e.fromImpls.value, x)) == x
    {
      ToBoolNot(e.notImpl, e.fromImpls.value, x);
      FromBoolToBool(e.notImpl, e.fromImpls.value, x);
    }
  }

  /** The two variants of `d`, listed in the opposite order. */
  function Reordered(d: Decl): (d': Decl)
    requires d.data.Enum? && |d.data.variants| == 2
    ensures d'.data.Enum? && multiset(d'.data.variants) == multiset(d.data.variants)
  {
    var vs := d.data.variants;
    assert vs == [vs[0], vs[1]];
    d.(data := Enum([vs[1], vs[0]]))
  }

  /**
   Declaration order does not decide the meaning: when exactly one variant
   carries `#[into_false]`, listing the two variants in the other order gives
   the same negation and the same conversions.
   */
  lemma MarkerPositionIrrelevant(d: Decl)
    requires d.data.Enum? && |d.data.variants| == 2
    requires d.data.variants[0].ident != d.data.variants[1].ident
    requires HasMarker(d.data.variants[0].attrs) != HasMarker(d.data.variants[1].attrs)
    ensures var e, e' := Expand(d).value, Expand(Reordered(d)).value;
      && e.fromImpls == e'.fromImpls && e.fromImpls.Some?
      && (forall x :: IsValue(e.notImpl, x) ==> IsValue(e'.notImpl, x) && Not(e'.notImpl, x) == Not(e.notImpl, x))
      && (forall x :: ToBool(e'.fromImpls.value, x) == ToBool(e.fromImpls.value, x))
      && (forall b :: FromBool(e'.notImpl, e'.fromImpls.value, b) == FromBool(e.notImpl, e.fromImpls.value, b))
  {
    var d' := Reordered(d);
    ExpandKeepsDeclaration(d);
    ExpandKeepsDeclaration(d');
    ExpandChoosesFirstMarked(d);
    ExpandChoosesFirstMarked(d');
    ExpandWellFormed(d);
    OrderIrrelevant(Expand(d).value.notImpl, Expand(d).value.fromImpls.value);
  }
}

/** The usage examples of the crate, stated against the model. */
module Examples {
  import opened Syntax
  import opened Markers
  import opened Generated
  import opened BoolLike

  const IntoFalse: Attr := Attr(Path(false, [INTO_FALSE]), "")
  const Derive: Attr := Attr(Path(false, ["derive"]), "(Debug, PartialEq)")

  /** `enum Player { Black, White }`: only negation is emitted. */
  lemma PlayerExample()
    ensures var d := Decl([Derive], "Player", Enum([Variant([], "Black"), Variant([], "White")]));
      && Expand(d) == Ok(Expansion(d, NotImpl("Player", "Black", "White"), None))
      && Not(NotImpl("Player", "Black", "White"), "Black") == "White"
      && Not(NotImpl("Player", "Black", "White"), "White") == "Black"
  {
  }

  /** `enum Answer { Yes, #[into_false] No }`: the marker on the second variant is honoured and removed. */
  lemma AnswerExample()
    ensures Expand(Decl([Derive], "Answer", Enum([Variant([], "Yes"), Variant([IntoFalse], "No")])))
         == Ok(Expansion(Decl([Derive], "Answer", Enum([Variant([], "Yes"), Variant([], "No")])),
                         NotImpl("Answer", "Yes", "No"), Some(FromImpls("Answer", "No"))))
    ensures Not(NotImpl("Answer", "Yes", "No"), "Yes") == "No"
    ensures Not(NotImpl("Answer", "Yes", "No"), "No") == "Yes"
    ensures ToBool(FromImpls("Answer", "No"), "No") == false
    ensures ToBool(FromImpls("Answer", "No"), "Yes") == true
    ensures FromBool(NotImpl("Answer", "Yes", "No"), FromImpls("Answer", "No"), false) == "No"
    ensures FromBool(NotImpl("Answer", "Yes", "No"), FromImpls("Answer", "No"), true) == "Yes"
  {
    var vs := [Variant([], "Yes"), Variant([IntoFalse], "No")];
    assert !HasMarker(vs[0].attrs);
    assert IsIntoFalse(vs[1].attrs[0]);
    FirstMarkedAt(vs, 1);
    assert RemoveMarkers([IntoFalse]) == [];
    assert StripAt(vs, 1) == [Variant([], "Yes"), Variant([], "No")];
  }

  /** `enum Answer { #[into_false] No, Yes }`: the marker on the first variant is honoured and removed. */
  lemma AnswerDocExample()
    ensures Expand(Decl([Derive], "Answer", Enum([Variant([IntoFalse], "No"), Variant([], "Yes")])))
         == Ok(Expansion(Decl([Derive], "Answer", Enum([Variant([], "No"), Variant([], "Yes")])),
                         NotImpl("Answer", "No", "Yes"), Some(FromImpls("Answer", "No"))))
    ensures Not(NotImpl("Answer", "No", "Yes"), "No") == "Yes"
    ensures Not(NotImpl("Answer", "No", "Yes"), "Yes") == "No"
    ensures ToBool(FromImpls("Answer", "No"), "No") == false
    ensures ToBool(FromImpls("Answer", "No"), "Yes") == true
    ensures FromBool(NotImpl("Answer", "No", "Yes"), FromImpls("Answer", "No"), false) == "No"
    ensures FromBool(NotImpl("Answer", "No", "Yes"), FromImpls("Answer", "No"), true) == "Yes"
  {
    var vs := [Variant([IntoFalse], "No"), Variant([], "Yes")];
    assert IsIntoFalse(vs[0].attrs[0]);
    FirstMarkedAt(vs, 0);
    assert RemoveMarkers([IntoFalse]) == [];
    assert StripAt(vs, 0) == [Variant([], "No"), Variant([], "Yes")];
  }

  /** A struct, and an enum with three variants, are both rejected and nothing is emitted. */
  lemma RejectedExamples()
    ensures Expand(Decl([], "Point", Struct)) == Err(NotAnEnum)
    ensures Expand(Decl([], "Tri", Enum([Variant([], "A"), Variant([], "B"), Variant([IntoFalse], "C")]))) == Err(NotTwoVariants)
  {
  }
}
