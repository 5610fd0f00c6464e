/**
 What the code emitted by `bool_like` does at run time.

 The macro emits an `impl Not` whose `not` maps the first variant to the
 second and the second to the first, and, when a variant was marked
 `#[into_false]`, an `impl From<Enum> for bool` and an `impl From<bool> for
 Enum`. A value of the annotated enum is named here by its variant's
 identifier.
 */
module Generated {
  import opened Syntax

  /** The emitted `impl Not for ty`, over the enum's two variants in declaration order. */
  datatype NotImpl = NotImpl(ty: Ident, first: Ident, second: Ident)

  /** The emitted pair of `From` impls, keyed on the variant that means `false`. */
  datatype FromImpls = FromImpls(ty: Ident, falseVariant: Ident)

  /** `x` names one of the enum's two variants, that is, a value of the enum. */
  predicate IsValue(n: NotImpl, x: Ident)
  {
    x == n.first || x == n.second
  }

  /** The two variants have different names, as Rust requires of any enum. */
  predicate Distinct(n: NotImpl)
  {
    n.first != n.second
  }

  /** The conversions belong to the same enum and key on one of its variants. */
  predicate Compatible(n: NotImpl, f: FromImpls)
  {
    f.ty == n.ty && IsValue(n, f.falseVariant)
  }

  /** `!x`: the emitted `match` sends each variant to the other one. */
  function Not(n: NotImpl, x: Ident): (y: Ident)
    requires IsValue(n, x)
    ensures IsValue(n, y)
    ensures Distinct(n) ==> y != x
  {
    if x == n.first then n.second else n.first
  }

  /** `bool::from(x)`: `false` when `x` is the marked variant, `true` otherwise. */
  function ToBool(f: FromImpls, x: Ident): bool
  {
    if x == f.falseVariant then false else true
  }

  /** `Enum::from(b)`: the marked variant for `false`, its negation for `true`. */
  function FromBool(n: NotImpl, f: FromImpls, b: bool): (x: Ident)
    requires Compatible(n, f)
    ensures IsValue(n, x)
  {
    if b == false then f.falseVariant else Not(n, f.falseVariant)
  }

  /** Negation swaps the first and the second variant. */
  lemma NotSwaps(n: NotImpl)
    ensures Not(n, n.first) == n.second
    ensures Not(n, n.second) == n.first
  {
  }

  /** Negation is an involution: `!!x == x`. */
  lemma NotInvolution(n: NotImpl, x: Ident)
    requires IsValue(n, x)
    ensures Not(n, Not(n, x)) == x
  {
  }

  /** `bool::from` gives `false` for exactly the marked variant and `true` for the other. */
  lemma ToBoolMarked(n: NotImpl, f: FromImpls, x: Ident)
    requires Compatible(n, f) && Distinct(n) && IsValue(n, x)
    ensures !ToBool(f, x) <==> x == f.falseVariant
    ensures ToBool(f, Not(n, f.falseVariant))
  {
  }

  /** `Enum::from(false)` is the marked variant and `Enum::from(true)` is its negation. */
  lemma FromBoolValues(n: NotImpl, f: FromImpls)
    requires Compatible(n, f)
    ensures FromBool(n, f, false) == f.falseVariant
    ensures FromBool(n, f, true) == Not(n, f.falseVariant)
  {
  }

  /** Converting to `bool` and back gives the original value. */
  lemma FromBoolToBool(n: NotImpl, f: FromImpls, x: Ident)
    requires Compatible(n, f) && Distinct(n) && IsValue(n, x)
    ensures FromBool(n, f, ToBool(f, x)) == x
  {
  }

  /** Converting from `bool` and back gives the original `bool`. */
  lemma ToBoolFromBool(n: NotImpl, f: FromImpls, b: bool)
    requires Compatible(n, f) && Distinct(n)
    ensures ToBool(f, FromBool(n, f, b)) == b
  {
  }

  /** Negation and the conversion to `bool` agree: `bool::from(!x) == !bool::from(x)`. */
  lemma ToBoolNot(n: NotImpl, f: FromImpls, x: Ident)
    requires Compatible(n, f) && Distinct(n) && IsValue(n, x)
    ensures ToBool(f, Not(n, x)) == !ToBool(f, x)
  {
  }

  /** Negation and the conversion from `bool` agree: `Enum::from(!b) == !Enum::from(b)`. */
  lemma FromBoolNot(n: NotImpl, f: FromImpls, b: bool)
    requires Compatible(n, f) && Distinct(n)
    ensures FromBool(n, f, !b) == Not(n, FromBool(n, f, b))
  {
  }

  /**
   Which variant is declared first does not matter: with the two variants in
   the other order, negation and both conversions are the same functions.
   */
  lemma OrderIrrelevant(n: NotImpl, f: FromImpls)
    requires Compatible(n, f) && Distinct(n)
    ensures var m := NotImpl(n.ty, n.second, n.first);
      && Compatible(m, f)
      && (forall x :: IsValue(n, x) ==> IsValue(m, x) && Not(m, x) == Not(n, x))
      && (forall b :: FromBool(m, f, b) == FromBool(n, f, b))
  {
  }
}
