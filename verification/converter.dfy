/** The affine converter algebra: a converter is the map x ↦ x * scale + offset.

    The library pairs every converter with its inverse object when it is
    built and shares one identity object; here both are values, so the
    inverse is computed on demand and "the same object" becomes value
    equality, which the lemmas below establish over exact reals.
 */
module Converters {
  import opened Powers

  /** An invertible affine map. The scale is never zero, so every converter
      has an inverse. */
  datatype Converter = Converter(scale: NonZeroReal, offset: real)

  /** Applies the converter to a value. The value can always be recovered
      from the result, since the scale is not zero. */
  function Convert(c: Converter, x: real): (y: real)
    ensures x == (y - c.offset) / c.scale
  {
    x * c.scale + c.offset
  }

  /** The converter of the given scale and offset; the offset defaults to 0,
      which gives a purely linear converter. */
  function Of(scale: NonZeroReal, offset: real := 0.0): (c: Converter)
    ensures forall x :: Convert(c, x) == x * scale + offset
  {
    Converter(scale, offset)
  }

  /** The identity converter: every value converts to itself. */
  function Identity(): (c: Converter)
    ensures forall x :: Convert(c, x) == x
  {
    Of(1.0)
  }

  /** The inverse converter, undoing c from either side. */
  function Inverse(c: Converter): (r: Converter)
    ensures r.scale == 1.0 / c.scale && r.offset == -c.offset / c.scale
    ensures forall x {:trigger Convert(r, Convert(c, x))} :: Convert(r, Convert(c, x)) == x
    ensures forall x {:trigger Convert(c, Convert(r, x))} :: Convert(c, Convert(r, x)) == x
  {
    var r := Converter(1.0 / c.scale, -c.offset / c.scale);
    assert forall x :: Convert(r, Convert(c, x)) == x by {
      forall x ensures Convert(r, Convert(c, x)) == x {
        calc {
          Convert(r, Convert(c, x));
          (x * c.scale + c.offset) * (1.0 / c.scale) - c.offset / c.scale;
          x * (c.scale / c.scale) + c.offset / c.scale - c.offset / c.scale;
        }
      }
    }
    assert forall x :: Convert(c, Convert(r, x)) == x by {
      forall x ensures Convert(c, Convert(r, x)) == x {
        calc {
          Convert(c, Convert(r, x));
          (x * (1.0 / c.scale) - c.offset / c.scale) * c.scale + c.offset;
          x * (c.scale / c.scale) - c.offset * (c.scale / c.scale) + c.offset;
        }
      }
    }
    r
  }

  /** c with its offset dropped. The exact test against 0 decides whether c
      itself is returned. */
  function Linear(c: Converter): (r: Converter)
    ensures r.scale == c.scale && r.offset == 0.0
    ensures forall x :: Convert(r, x) == x * c.scale
    ensures c.offset == 0.0 ==> r == c
  {
    if c.offset == 0.0 then c else Of(c.scale)
  }

  /** c raised to an integer power with its offset dropped; a converter with
      no offset raised to the power 1 is returned unchanged. */
  function LinearPow(c: Converter, pow: int): (r: Converter)
    ensures r.scale == IPow(c.scale, pow) && r.offset == 0.0
    ensures c.offset == 0.0 && pow == 1 ==> r == c
  {
    if c.offset == 0.0 && pow == 1 then
      IPowOne(c.scale);
      c
    else
      Of(IPow(c.scale, pow))
  }

  /** The composition "first other, then c". */
  function Concatenate(c: Converter, other: Converter): (r: Converter)
    ensures r.scale == other.scale * c.scale
    ensures forall x {:trigger Convert(c, Convert(other, x))} :: Convert(r, x) == Convert(c, Convert(other, x))
  {
    Converter(other.scale * c.scale, other.offset * c.scale + c.offset)
  }

  /** A converter is determined by what it does to 0 and to 1. */
  lemma Extensionality(c: Converter, d: Converter)
    requires Convert(c, 0.0) == Convert(d, 0.0)
    requires Convert(c, 1.0) == Convert(d, 1.0)
    ensures c == d
  {
  }

  /** Distinct values convert to distinct values. */
  lemma ConvertInjective(c: Converter, x: real, y: real)
    requires Convert(c, x) == Convert(c, y)
    ensures x == y
  {
    assert (x - y) * c.scale == 0.0;
  }

  /** Two converters that agree on every value are the same converter. */
  lemma SameConversion(c: Converter, d: Converter)
    requires forall x :: Convert(c, x) == Convert(d, x)
    ensures c == d
  {
    Extensionality(c, d);
  }

  /** "First c, then t" converts every value as s does. */
  ghost predicate Factors(t: Converter, s: Converter, c: Converter)
  {
    forall x :: Convert(t, Convert(c, x)) == Convert(s, x)
  }

  /** The converter c for which "first c, then t" is s is exactly "first s,
      then the inverse of t". */
  lemma FactorThrough(t: Converter, s: Converter, c: Converter)
    ensures Factors(t, s, c) <==> c == Concatenate(Inverse(t), s)
  {
    var a := Concatenate(Inverse(t), s);
    if Factors(t, s, c) {
      forall x ensures Convert(c, x) == Convert(a, x) {
        assert Convert(t, Convert(Inverse(t), Convert(s, x))) == Convert(s, x);
        ConvertInjective(t, Convert(c, x), Convert(a, x));
      }
      SameConversion(c, a);
    }
    if c == a {
      forall x ensures Convert(t, Convert(c, x)) == Convert(s, x) {
        assert Convert(t, Convert(Inverse(t), Convert(s, x))) == Convert(s, x);
      }
    }
  }

  /** Inverting twice gives back the original converter. */
  lemma InverseInverse(c: Converter)
    ensures Inverse(Inverse(c)) == c
  {
    var d := Inverse(c);
    var e := Inverse(d);
    forall y ensures Convert(e, y) == Convert(c, y) {
      assert Convert(d, Convert(c, y)) == y;
      assert Convert(e, Convert(d, Convert(c, y))) == Convert(c, y);
    }
    SameConversion(e, c);
  }

  /** Undoing a scaling by v is scaling by 1 / v, and the other way round. */
  lemma InverseOfScaling(v: NonZeroReal)
    ensures Inverse(Of(v)) == Of(1.0 / v)
    ensures Inverse(Of(1.0 / v)) == Of(v)
  {
    InverseInverse(Of(v));
  }

  /** Undoing a shift by v is shifting by -v. */
  lemma InverseOfShift(v: real)
    ensures Inverse(Of(1.0, v)) == Of(1.0, -v)
  {
  }

  /** Two pure scalings compose, after inverting one, into the ratio of
      their scales. */
  lemma LinearRatio(t: Converter, s: Converter)
    requires t.offset == 0.0 && s.offset == 0.0
    ensures Concatenate(Inverse(t), s) == Of(s.scale / t.scale)
  {
    var it := Inverse(t);
    assert it.offset == 0.0;
    assert s.scale * it.scale == s.scale / t.scale;
  }

  /** Composing a converter with its inverse, in either order, is the identity. */
  lemma InverseCancels(c: Converter)
    ensures Concatenate(Inverse(c), c) == Identity()
    ensures Concatenate(c, Inverse(c)) == Identity()
  {
    SameConversion(Concatenate(Inverse(c), c), Identity());
    SameConversion(Concatenate(c, Inverse(c)), Identity());
  }

  /** The identity is a left and a right unit of composition. */
  lemma IdentityNeutral(c: Converter)
    ensures Concatenate(Identity(), c) == c
    ensures Concatenate(c, Identity()) == c
  {
    SameConversion(Concatenate(Identity(), c), c);
    SameConversion(Concatenate(c, Identity()), c);
  }

  /** Composition is associative. */
  lemma ConcatenateAssociative(a: Converter, b: Converter, c: Converter)
    ensures Concatenate(a, Concatenate(b, c)) == Concatenate(Concatenate(a, b), c)
  {
    SameConversion(Concatenate(a, Concatenate(b, c)), Concatenate(Concatenate(a, b), c));
  }

  /** The inverse of a composition composes the inverses in reverse order. */
  lemma InverseConcatenate(a: Converter, b: Converter)
    ensures Inverse(Concatenate(a, b)) == Concatenate(Inverse(b), Inverse(a))
  {
    var ab := Concatenate(a, b);
    var r := Concatenate(Inverse(b), Inverse(a));
    forall y ensures Convert(Inverse(ab), y) == Convert(r, y) {
      var x := Convert(r, y);
      assert Convert(ab, x) == Convert(a, Convert(b, Convert(Inverse(b), Convert(Inverse(a), y))));
      assert Convert(ab, x) == y;
      assert Convert(Inverse(ab), Convert(ab, x)) == x;
    }
    SameConversion(Inverse(ab), r);
  }

  /** Dropping the offset twice is the same as dropping it once. */
  lemma LinearIdempotent(c: Converter)
    ensures Linear(Linear(c)) == Linear(c)
  {
  }

  /** At power 1, LinearPow is Linear. */
  lemma LinearPowOne(c: Converter)
    ensures LinearPow(c, 1) == Linear(c)
  {
    IPowOne(c.scale);
  }

  /** LinearPow forgets the offset: it gives the same converter for c as for
      c without its offset. */
  lemma LinearPowIgnoresOffset(c: Converter, pow: int)
    ensures LinearPow(Linear(c), pow) == LinearPow(c, pow)
  {
  }

  /** LinearPow converts x to x * scale^pow, whatever the offset of c. */
  lemma LinearPowConvert(c: Converter, pow: int, x: real)
    ensures Convert(LinearPow(c, pow), x) == x * IPow(c.scale, pow)
  {
  }
}
