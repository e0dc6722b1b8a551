/** The unit hierarchy. Every unit reduces, through ToBase, to a converter
    from the unit into an implicit base representation; the converter between
    two units is read off their two reductions.

    The model takes every unit graph to be acyclic, with definitions fixed
    once built, so that each unit is a finite tree of definitions. The library's
    fundamental units are distinct objects; here each carries a name so that
    distinct fundamental units are distinct values.
 */
module Units {
  import opened Powers
  import opened Converters

  datatype Unit =
    | Fundamental(name: string)
      // a unit defined as toReference applied on top of reference
    | Transformed(toReference: Converter, reference: Unit)
      // a product of powers of other units, in definition order
    | Derived(definition: seq<Factor>)

  /** One term of a derived unit: dim raised to numerator / denominator. */
  datatype Factor = Factor(dim: Unit, numerator: int, denominator: int)

  /** The exponent numerator / denominator is a whole number. */
  predicate IntegralPower(f: Factor)
  {
    f.denominator != 0 && f.numerator % f.denominator == 0
  }

  /** Every factor anywhere in u has a whole-number exponent. */
  predicate WellFormed(u: Unit)
  {
    match u
    case Fundamental(_) => true
    case Transformed(_, reference) => WellFormed(reference)
    case Derived(definition) =>
      forall i | 0 <= i < |definition| :: FactorWellFormed(definition[i])
  }

  predicate FactorWellFormed(f: Factor)
  {
    IntegralPower(f) && WellFormed(f.dim)
  }

  /** The exponent of a factor: the numerator itself when the denominator is
      1, their quotient otherwise. */
  function Power(f: Factor): (p: int)
    requires IntegralPower(f)
    ensures p * f.denominator == f.numerator
  {
    if f.denominator == 1 then f.numerator else f.numerator / f.denominator
  }

  /** A unit used directly as a factor of a derived unit: the unit itself to
      the power 1. */
  function AsFactor(u: Unit): (f: Factor)
    ensures f.dim == u && IntegralPower(f) && Power(f) == 1
    ensures WellFormed(u) ==> FactorWellFormed(f)
  {
    Factor(u, 1, 1)
  }

  /** The factor u^(numerator / denominator); the denominator defaults to 1. */
  function FactorOf(u: Unit, numerator: int, denominator: int := 1): (f: Factor)
    ensures f.dim == u
    ensures IntegralPower(f) <==> denominator != 0 && numerator % denominator == 0
    ensures IntegralPower(f) ==> Power(f) * denominator == numerator
    ensures denominator == 1 ==> IntegralPower(f) && Power(f) == numerator
    ensures WellFormed(u) && denominator == 1 ==> FactorWellFormed(f)
  {
    Factor(u, numerator, denominator)
  }

  /** The converter from u into the base representation. A derived unit is
      always linear: each factor's own offset is dropped before its scale is
      folded in. */
  function ToBase(u: Unit): (r: Converter)
    requires WellFormed(u)
    ensures u.Derived? ==> r.offset == 0.0
    decreases u, if u.Derived? then |u.definition| + 1 else 0
  {
    match u
    case Fundamental(_) => Identity()
    case Transformed(toReference, reference) =>
      Concatenate(ToBase(reference), toReference)
    case Derived(definition) => DerivedPrefix(u, |definition|)
  }

  /** The converter a factor contributes to a derived unit: its unit's
      reduction raised to the factor's power, without offset. */
  function FactorToBase(f: Factor): (r: Converter)
    requires FactorWellFormed(f)
    ensures r.offset == 0.0
    decreases f, 0
  {
    LinearPow(ToBase(f.dim), Power(f))
  }

  /** The fold over a derived unit's definition after its first n factors:
      starting from the identity, each factor's converter is composed on top
      of the running result. */
  function DerivedPrefix(u: Unit, n: nat): (r: Converter)
    requires u.Derived? && WellFormed(u) && n <= |u.definition|
    ensures r.offset == 0.0
    decreases u, n
  {
    if n == 0 then
      Identity()
    else
      var f := u.definition[n - 1];
      assert FactorWellFormed(f);
      Concatenate(FactorToBase(f), DerivedPrefix(u, n - 1))
  }

  /** The converter from source to target: into the base representation from
      source, then out of it into target, so that a converted value denotes
      the same base quantity as the original. Nothing checks that the two
      units measure the same quantity. */
  function Affine(source: Unit, target: Unit): (r: Converter)
    requires WellFormed(source) && WellFormed(target)
    ensures forall x {:trigger Convert(r, x)} :: Convert(ToBase(target), Convert(r, x)) == Convert(ToBase(source), x)
  {
    var t, s := ToBase(target), ToBase(source);
    var r := Concatenate(Inverse(t), s);
    forall x ensures Convert(t, Convert(r, x)) == Convert(s, x) {
      assert Convert(r, x) == Convert(Inverse(t), Convert(s, x));
    }
    r
  }

  /** The converter from source to target. */
  function GetConverterTo(source: Unit, target: Unit): (r: Converter)
    requires WellFormed(source) && WellFormed(target)
    ensures r == Affine(source, target)
    ensures forall x :: Convert(ToBase(target), Convert(r, x)) == Convert(ToBase(source), x)
  {
    Affine(source, target)
  }

  /** The unit whose values read `value` less than u's at the same point: a
      value x of the new unit is x + value of u. */
  function Shift(u: Unit, value: real): (r: Unit)
    ensures WellFormed(r) <==> WellFormed(u)
  {
    Transformed(Of(1.0, value), u)
  }

  /** The unit worth `value` of u. */
  function ScaleMultiply(u: Unit, value: NonZeroReal): (r: Unit)
    ensures WellFormed(r) <==> WellFormed(u)
  {
    Transformed(Of(value), u)
  }

  /** The unit worth 1 / `value` of u. */
  function ScaleDivide(u: Unit, value: NonZeroReal): (r: Unit)
    ensures WellFormed(r) <==> WellFormed(u)
  {
    ScaleMultiply(u, 1.0 / value)
  }

  // ---------------------------------------------------------------------
  // Reductions to base

  /** A fundamental unit is its own base. */
  lemma {:induction false} FundamentalToBase(name: string)
    ensures ToBase(Fundamental(name)) == Identity()
  {
  }

  /** A transformed unit converts into its reference first, then into base. */
  lemma {:induction false} TransformedToBase(toReference: Converter, reference: Unit, x: real)
    requires WellFormed(reference)
    ensures Convert(ToBase(Transformed(toReference, reference)), x)
         == Convert(ToBase(reference), Convert(toReference, x))
  {
  }

  /** The scale a factor contributes: its unit's base scale to its power. */
  function FactorScale(f: Factor): NonZeroReal
    requires FactorWellFormed(f)
  {
    IPow(ToBase(f.dim).scale, Power(f))
  }

  /** The product of the factors' scales, taken from the front. */
  function ScaleProduct(fs: seq<Factor>): NonZeroReal
    requires forall i | 0 <= i < |fs| :: FactorWellFormed(fs[i])
  {
    if |fs| == 0 then 1.0 else FactorScale(fs[0]) * ScaleProduct(fs[1..])
  }

  lemma {:induction false} ScaleProductAppend(fs: seq<Factor>, f: Factor)
    requires forall i | 0 <= i < |fs| :: FactorWellFormed(fs[i])
    requires FactorWellFormed(f)
    ensures ScaleProduct(fs + [f]) == ScaleProduct(fs) * FactorScale(f)
  {
    if |fs| > 0 {
      assert (fs + [f])[1..] == fs[1..] + [f];
      ScaleProductAppend(fs[1..], f);
    }
  }

  lemma {:induction false} DerivedPrefixIsScaleProduct(u: Unit, n: nat)
    requires u.Derived? && WellFormed(u) && n <= |u.definition|
    ensures forall i | 0 <= i < n :: FactorWellFormed(u.definition[i])
    ensures DerivedPrefix(u, n) == Converter(ScaleProduct(u.definition[..n]), 0.0)
  {
    var defs := u.definition;
    if n > 0 {
      DerivedPrefixIsScaleProduct(u, n - 1);
      var f := defs[n - 1];
      assert FactorWellFormed(f);
      assert defs[..n] == defs[..n - 1] + [f];
      ScaleProductAppend(defs[..n - 1], f);
    }
  }

  /** A derived unit reduces to a pure scale, with no offset: the product over
      its factors of each unit's base scale raised to the factor's power. */
  lemma {:induction false} DerivedToBase(definition: seq<Factor>)
    requires WellFormed(Derived(definition))
    ensures forall i | 0 <= i < |definition| :: FactorWellFormed(definition[i])
    ensures ToBase(Derived(definition)) == Converter(ScaleProduct(definition), 0.0)
  {
    DerivedPrefixIsScaleProduct(Derived(definition), |definition|);
    assert definition[..|definition|] == definition;
  }

  lemma {:induction false} ScaleProductCongruent(d1: seq<Factor>, d2: seq<Factor>)
    requires |d1| == |d2|
    requires forall i | 0 <= i < |d1| :: FactorWellFormed(d1[i]) && FactorWellFormed(d2[i])
    requires forall i | 0 <= i < |d1| :: FactorScale(d1[i]) == FactorScale(d2[i])
    ensures ScaleProduct(d1) == ScaleProduct(d2)
  {
    if |d1| > 0 {
      ScaleProductCongruent(d1[1..], d2[1..]);
    }
  }

  /** A derived unit depends only on the base scales and powers of its
      factors: offsets of the constituent units play no part. */
  lemma {:induction false} DerivedDependsOnlyOnScales(d1: seq<Factor>, d2: seq<Factor>)
    requires WellFormed(Derived(d1)) && WellFormed(Derived(d2))
    requires |d1| == |d2|
    requires forall i | 0 <= i < |d1| :: FactorWellFormed(d1[i]) && FactorWellFormed(d2[i])
    requires forall i | 0 <= i < |d1| :: FactorScale(d1[i]) == FactorScale(d2[i])
    ensures ToBase(Derived(d1)) == ToBase(Derived(d2))
  {
    DerivedToBase(d1);
    DerivedToBase(d2);
    ScaleProductCongruent(d1, d2);
  }

  // ---------------------------------------------------------------------
  // Conversions between units

  /** The converter between two units is the only one that preserves the base
      quantity. */
  lemma {:induction false} AffineUnique(source: Unit, target: Unit, c: Converter)
    requires WellFormed(source) && WellFormed(target)
    ensures Factors(ToBase(target), ToBase(source), c) <==> c == Affine(source, target)
  {
    FactorThrough(ToBase(target), ToBase(source), c);
  }

  /** Units with the same reduction convert into each other as the identity. */
  lemma {:induction false} SameBaseConversion(source: Unit, target: Unit)
    requires WellFormed(source) && WellFormed(target)
    requires ToBase(source) == ToBase(target)
    ensures Affine(source, target) == Identity()
  {
    InverseCancels(ToBase(source));
  }

  /** Converting a unit to itself is the identity. */
  lemma {:induction false} AffineSelf(u: Unit)
    requires WellFormed(u)
    ensures Affine(u, u) == Identity()
    ensures forall x :: Convert(Affine(u, u), x) == x
  {
    SameBaseConversion(u, u);
  }

  /** The converter back from target to source is the inverse converter. */
  lemma {:induction false} AffineSwap(source: Unit, target: Unit)
    requires WellFormed(source) && WellFormed(target)
    ensures Affine(target, source) == Inverse(Affine(source, target))
  {
    var s, t := ToBase(source), ToBase(target);
    InverseConcatenate(Inverse(t), s);
    InverseInverse(t);
  }

  /** Converting through an intermediate unit is converting directly. */
  lemma {:induction false} AffineChain(a: Unit, b: Unit, c: Unit)
    requires WellFormed(a) && WellFormed(b) && WellFormed(c)
    ensures Concatenate(Affine(b, c), Affine(a, b)) == Affine(a, c)
  {
    var ta, tb, tc := ToBase(a), ToBase(b), ToBase(c);
    var r := Concatenate(Affine(b, c), Affine(a, b));
    forall x ensures Convert(tc, Convert(r, x)) == Convert(ta, x) {
      var y := Convert(Affine(a, b), x);
      assert Convert(tc, Convert(Affine(b, c), y)) == Convert(tb, y);
      assert Convert(tb, y) == Convert(ta, x);
    }
    AffineUnique(a, c, r);
  }

  /** Between two units that reduce without offset, the converter is the
      ratio of their base scales. */
  lemma {:induction false} LinearAffine(source: Unit, target: Unit)
    requires WellFormed(source) && WellFormed(target)
    requires ToBase(source).offset == 0.0 && ToBase(target).offset == 0.0
    ensures Affine(source, target) == Of(ToBase(source).scale / ToBase(target).scale)
  {
    LinearRatio(ToBase(target), ToBase(source));
  }

  /** Converting between two derived units never adds an offset: it is the
      ratio of their scale products. */
  lemma {:induction false} DerivedConversion(d1: seq<Factor>, d2: seq<Factor>)
    requires WellFormed(Derived(d1)) && WellFormed(Derived(d2))
    ensures forall i | 0 <= i < |d1| :: FactorWellFormed(d1[i])
    ensures forall i | 0 <= i < |d2| :: FactorWellFormed(d2[i])
    ensures Affine(Derived(d1), Derived(d2)).offset == 0.0
    ensures Affine(Derived(d1), Derived(d2)) == Of(ScaleProduct(d1) / ScaleProduct(d2))
  {
    DerivedToBase(d1);
    DerivedToBase(d2);
    LinearAffine(Derived(d1), Derived(d2));
  }

  // ---------------------------------------------------------------------
  // The combinators

  /** Shifting keeps the base scale and adds the shift, in base terms, to the
      offset; a shifted fundamental unit reduces to x ↦ x + value. */
  lemma {:induction false} ShiftToBase(u: Unit, value: real)
    requires WellFormed(u)
    ensures ToBase(Shift(u, value)).scale == ToBase(u).scale
    ensures ToBase(Shift(u, value)).offset == Convert(ToBase(u), value)
    ensures u.Fundamental? ==> ToBase(Shift(u, value)) == Of(1.0, value)
  {
  }

  /** A shifted unit reads `value` less than the original: x converts to
      x - value, and back to x + value. */
  lemma {:induction false} ShiftConversion(u: Unit, value: real)
    requires WellFormed(u)
    ensures Affine(u, Shift(u, value)) == Of(1.0, -value)
    ensures Affine(Shift(u, value), u) == Of(1.0, value)
  {
    var b := ToBase(u);
    var sh := Shift(u, value);
    forall x ensures Convert(ToBase(sh), Convert(Of(1.0, -value), x)) == Convert(b, x) {
      TransformedToBase(Of(1.0, value), u, Convert(Of(1.0, -value), x));
    }
    AffineUnique(u, sh, Of(1.0, -value));
    forall x ensures Convert(b, Convert(Of(1.0, value), x)) == Convert(ToBase(sh), x) {
      TransformedToBase(Of(1.0, value), u, x);
    }
    AffineUnique(sh, u, Of(1.0, value));
  }

  /** Scaling multiplies the base scale and adds no offset of its own. */
  lemma {:induction false} ScaleMultiplyToBase(u: Unit, value: NonZeroReal)
    requires WellFormed(u)
    ensures ToBase(ScaleMultiply(u, value)) == Converter(value * ToBase(u).scale, ToBase(u).offset)
  {
  }

  /** One of the scaled unit is `value` of the original. */
  lemma {:induction false} ScaleMultiplyConversion(u: Unit, value: NonZeroReal)
    requires WellFormed(u)
    ensures Affine(ScaleMultiply(u, value), u) == Of(value)
  {
    var sc := ScaleMultiply(u, value);
    forall x ensures Convert(ToBase(u), Convert(Of(value), x)) == Convert(ToBase(sc), x) {
      TransformedToBase(Of(value), u, x);
    }
    AffineUnique(sc, u, Of(value));
  }

  /** One of the original unit is `value` of the divided unit. */
  lemma {:induction false} ScaleDivideConversion(u: Unit, value: NonZeroReal)
    requires WellFormed(u)
    ensures Affine(u, ScaleDivide(u, value)) == Of(value)
  {
    ScaleMultiplyConversion(u, 1.0 / value);
    AffineSwap(ScaleDivide(u, value), u);
    InverseOfScaling(value);
  }

  /** In a derived unit, replacing a factor's unit by a shifted copy of it
      changes nothing: the converter between the two derived units is the
      identity. Kelvin per metre and degree Celsius per metre are one unit. */
  lemma {:induction false} ShiftedFactorConversion(definition: seq<Factor>, i: nat, value: real)
    requires WellFormed(Derived(definition))
    requires i < |definition|
    ensures WellFormed(Derived(definition[i := Factor(Shift(definition[i].dim, value), definition[i].numerator, definition[i].denominator)]))
    ensures Affine(Derived(definition),
                   Derived(definition[i := Factor(Shift(definition[i].dim, value), definition[i].numerator, definition[i].denominator)]))
         == Identity()
  {
    var f := definition[i];
    assert FactorWellFormed(f);
    var g := Factor(Shift(f.dim, value), f.numerator, f.denominator);
    var d2 := definition[i := g];
    assert FactorWellFormed(g);
    assert forall j | 0 <= j < |d2| :: FactorWellFormed(d2[j]);
    ShiftToBase(f.dim, value);
    assert FactorScale(g) == FactorScale(f);
    DerivedDependsOnlyOnScales(definition, d2);
    SameBaseConversion(Derived(definition), Derived(d2));
  }
}
