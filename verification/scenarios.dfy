/** Concrete unit graphs (lengths, areas, masses per area, temperatures and
    speeds) and the conversions between them, computed exactly over reals.
    Each scenario holds for any choice of fundamental units; the general
    facts come first and the scenarios instantiate them with the numbers. */
module UnitScenarios {
  import opened Powers
  import opened Converters
  import opened Units

  /** A pure scaling by v and its inverse, applied to a value. */
  lemma {:induction false} ScalingRoundTrip(c: Converter, v: NonZeroReal, x: real)
    requires c == Of(v)
    ensures Convert(c, x) == x * v
    ensures Convert(Inverse(c), x * v) == x
  {
  }

  /** A pure shift by v and its inverse, applied to a value. */
  lemma {:induction false} ShiftRoundTrip(c: Converter, v: real, x: real)
    requires c == Of(1.0, v)
    ensures Convert(c, x) == x + v
    ensures Convert(Inverse(c), x + v) == x
  {
  }

  /** A unit scaled from a fundamental unit reduces to the pure scale. */
  lemma {:induction false} ScaledFundamentalToBase(u: Unit, value: NonZeroReal)
    requires u.Fundamental?
    ensures ToBase(ScaleMultiply(u, value)) == Of(value)
    ensures ToBase(ScaleDivide(u, value)) == Of(1.0 / value)
  {
    ScaleMultiplyToBase(u, value);
    ScaleMultiplyToBase(u, 1.0 / value);
  }

  /** The scale a factor of a well-formed unit contributes. */
  lemma {:induction false} FactorScaleOf(u: Unit, n: int)
    requires WellFormed(u)
    ensures FactorWellFormed(FactorOf(u, n)) && FactorScale(FactorOf(u, n)) == IPow(ToBase(u).scale, n)
    ensures FactorWellFormed(AsFactor(u)) && FactorScale(AsFactor(u)) == ToBase(u).scale
  {
    IPowOne(ToBase(u).scale);
  }

  /** A derived unit of one factor reduces to that factor's scale. */
  lemma {:induction false} OneFactorToBase(f: Factor)
    requires FactorWellFormed(f)
    ensures WellFormed(Derived([f]))
    ensures ToBase(Derived([f])) == Of(FactorScale(f))
  {
    DerivedToBase([f]);
    assert [f][1..] == [];
  }

  /** A derived unit of two factors reduces to the product of their scales. */
  lemma {:induction false} TwoFactorsToBase(f: Factor, g: Factor)
    requires FactorWellFormed(f) && FactorWellFormed(g)
    ensures WellFormed(Derived([f, g]))
    ensures ToBase(Derived([f, g])) == Of(FactorScale(f) * FactorScale(g))
  {
    assert WellFormed(Derived([f, g]));
    DerivedToBase([f, g]);
    assert [f, g][1..] == [g];
    assert [g][1..] == [];
    assert ScaleProduct([g]) == FactorScale(g);
  }

  /** Two scalings of one unit convert by the ratio of the scales; any offset
      of the unit itself cancels out. */
  lemma {:induction false} ScaledUnitsConversion(u: Unit, a: NonZeroReal, b: NonZeroReal)
    requires WellFormed(u)
    ensures Affine(ScaleMultiply(u, a), ScaleMultiply(u, b)) == Of(a / b)
  {
    var base := ToBase(u);
    ScaleMultiplyToBase(u, a);
    ScaleMultiplyToBase(u, b);
    forall x ensures Convert(ToBase(ScaleMultiply(u, b)), Convert(Of(a / b), x)) == Convert(ToBase(ScaleMultiply(u, a)), x) {
      calc {
        Convert(ToBase(ScaleMultiply(u, b)), Convert(Of(a / b), x));
        (x * (a / b)) * (b * base.scale) + base.offset;
        { assert (x * (a / b)) * (b * base.scale) == x * (a * base.scale) * (b / b); }
        x * (a * base.scale) + base.offset;
        Convert(ToBase(ScaleMultiply(u, a)), x);
      }
    }
    AffineUnique(ScaleMultiply(u, a), ScaleMultiply(u, b), Of(a / b));
  }

  /** The squares of two scalings of one fundamental unit convert by the
      ratio of the squared scales. */
  lemma {:induction false} SquaredUnitsConversion(u: Unit, a: NonZeroReal, b: NonZeroReal)
    requires u.Fundamental?
    ensures WellFormed(Derived([FactorOf(ScaleMultiply(u, a), 2)]))
    ensures WellFormed(Derived([FactorOf(ScaleMultiply(u, b), 2)]))
    ensures Affine(Derived([FactorOf(ScaleMultiply(u, a), 2)]), Derived([FactorOf(ScaleMultiply(u, b), 2)]))
         == Of(IPow(a, 2) / IPow(b, 2))
  {
    ScaledFundamentalToBase(u, a);
    ScaledFundamentalToBase(u, b);
    FactorScaleOf(ScaleMultiply(u, a), 2);
    FactorScaleOf(ScaleMultiply(u, b), 2);
    OneFactorToBase(FactorOf(ScaleMultiply(u, a), 2));
    OneFactorToBase(FactorOf(ScaleMultiply(u, b), 2));
    LinearAffine(Derived([FactorOf(ScaleMultiply(u, a), 2)]), Derived([FactorOf(ScaleMultiply(u, b), 2)]));
  }

  /** A rate, u / v, reduces to u's scale times the reciprocal of v's. */
  lemma {:induction false} PerUnitToBase(u: Unit, v: Unit)
    requires WellFormed(u) && WellFormed(v)
    ensures WellFormed(Derived([AsFactor(u), FactorOf(v, -1)]))
    ensures ToBase(Derived([AsFactor(u), FactorOf(v, -1)])) == Of(ToBase(u).scale * IPow(ToBase(v).scale, -1))
  {
    FactorScaleOf(u, 1);
    FactorScaleOf(v, -1);
    TwoFactorsToBase(AsFactor(u), FactorOf(v, -1));
    assert FactorScale(AsFactor(u)) * FactorScale(FactorOf(v, -1)) == ToBase(u).scale * IPow(ToBase(v).scale, -1);
  }

  /** Mass per area with the mass scaled by a and the length by b, in base
      terms: a / b^2. */
  lemma {:induction false} ScaledPerAreaToBase(mass: Unit, length: Unit, a: NonZeroReal, b: NonZeroReal)
    requires mass.Fundamental? && length.Fundamental?
    ensures WellFormed(Derived([AsFactor(ScaleMultiply(mass, a)), FactorOf(ScaleMultiply(length, b), -2)]))
    ensures ToBase(Derived([AsFactor(ScaleMultiply(mass, a)), FactorOf(ScaleMultiply(length, b), -2)]))
         == Of(a * IPow(b, -2))
  {
    ScaledFundamentalToBase(mass, a);
    ScaledFundamentalToBase(length, b);
    FactorScaleOf(ScaleMultiply(mass, a), 1);
    FactorScaleOf(ScaleMultiply(length, b), -2);
    TwoFactorsToBase(AsFactor(ScaleMultiply(mass, a)), FactorOf(ScaleMultiply(length, b), -2));
  }

  /** Mass per area with only the mass scaled, by a: a in base terms. */
  lemma {:induction false} ScaledMassPerAreaToBase(mass: Unit, length: Unit, a: NonZeroReal)
    requires mass.Fundamental? && length.Fundamental?
    ensures WellFormed(Derived([AsFactor(ScaleMultiply(mass, a)), FactorOf(length, -2)]))
    ensures ToBase(Derived([AsFactor(ScaleMultiply(mass, a)), FactorOf(length, -2)])) == Of(a)
  {
    ScaledFundamentalToBase(mass, a);
    FactorScaleOf(ScaleMultiply(mass, a), 1);
    FactorScaleOf(length, -2);
    TwoFactorsToBase(AsFactor(ScaleMultiply(mass, a)), FactorOf(length, -2));
  }

  /** A rate with both units scaled, by a and b: a / b in base terms. */
  lemma {:induction false} ScaledRateToBase(u: Unit, v: Unit, a: NonZeroReal, b: NonZeroReal)
    requires u.Fundamental? && v.Fundamental?
    ensures WellFormed(Derived([AsFactor(ScaleMultiply(u, a)), FactorOf(ScaleMultiply(v, b), -1)]))
    ensures ToBase(Derived([AsFactor(ScaleMultiply(u, a)), FactorOf(ScaleMultiply(v, b), -1)])) == Of(a * IPow(b, -1))
  {
    ScaledFundamentalToBase(u, a);
    ScaledFundamentalToBase(v, b);
    FactorScaleOf(ScaleMultiply(u, a), 1);
    FactorScaleOf(ScaleMultiply(v, b), -1);
    TwoFactorsToBase(AsFactor(ScaleMultiply(u, a)), FactorOf(ScaleMultiply(v, b), -1));
  }

  /** A rate over a shifted unit is the same unit as the rate over the
      original: the converter between them is the identity. */
  lemma {:induction false} ShiftedRateConversion(u: Unit, v: Unit, value: real)
    requires WellFormed(u) && WellFormed(v)
    ensures WellFormed(Derived([AsFactor(u), FactorOf(v, -1)]))
    ensures WellFormed(Derived([AsFactor(Shift(u, value)), FactorOf(v, -1)]))
    ensures Affine(Derived([AsFactor(u), FactorOf(v, -1)]), Derived([AsFactor(Shift(u, value)), FactorOf(v, -1)]))
         == Identity()
  {
    var rate := [AsFactor(u), FactorOf(v, -1)];
    PerUnitToBase(u, v);
    ShiftedFactorConversion(rate, 0, value);
    assert rate[0 := Factor(Shift(rate[0].dim, value), rate[0].numerator, rate[0].denominator)]
        == [AsFactor(Shift(u, value)), FactorOf(v, -1)];
  }

  // ---------------------------------------------------------------------
  // The units of the scenarios, each built from fundamental units

  function Km(metre: Unit): Unit { ScaleMultiply(metre, 1000.0) }
  function Cm(metre: Unit): Unit { ScaleDivide(metre, 100.0) }
  function Gram(kilogram: Unit): Unit { ScaleDivide(kilogram, 1000.0) }
  function Ton(kilogram: Unit): Unit { ScaleMultiply(kilogram, 1000.0) }
  function Hour(second: Unit): Unit { ScaleMultiply(second, 3600.0) }
  function Celsius(kelvin: Unit): Unit { Shift(kelvin, 273.15) }

  function Km2(metre: Unit): Unit { Derived([FactorOf(Km(metre), 2)]) }
  function Cm2(metre: Unit): Unit { Derived([FactorOf(Cm(metre), 2)]) }

  function GPerM2(kilogram: Unit, metre: Unit): Unit
  {
    Derived([AsFactor(Gram(kilogram)), FactorOf(metre, -2)])
  }

  function TonPerKm2(kilogram: Unit, metre: Unit): Unit
  {
    Derived([AsFactor(Ton(kilogram)), FactorOf(Km(metre), -2)])
  }

  function TonPerCm2(kilogram: Unit, metre: Unit): Unit
  {
    Derived([AsFactor(Ton(kilogram)), FactorOf(Cm(metre), -2)])
  }

  function KPerM(kelvin: Unit, metre: Unit): Unit
  {
    Derived([AsFactor(kelvin), FactorOf(metre, -1)])
  }

  function CPerM(kelvin: Unit, metre: Unit): Unit
  {
    Derived([AsFactor(Celsius(kelvin)), FactorOf(metre, -1)])
  }

  function MPerS(metre: Unit, second: Unit): Unit
  {
    Derived([AsFactor(metre), FactorOf(second, -1)])
  }

  function KmPerH(metre: Unit, second: Unit): Unit
  {
    Derived([AsFactor(Km(metre)), FactorOf(Hour(second), -1)])
  }

  // ---------------------------------------------------------------------
  // The scenarios

  /** Centimetres to kilometres divides by 100000, and back. */
  lemma {:induction false} CentimetreToKilometre(metre: Unit)
    requires metre.Fundamental?
    ensures Affine(Cm(metre), Km(metre)) == Of(0.00001)
    ensures Convert(Affine(Cm(metre), Km(metre)), 3.0) == 0.00003
    ensures Convert(Inverse(Affine(Cm(metre), Km(metre))), 0.00003) == 3.0
  {
    ScaledUnitsConversion(metre, 1.0 / 100.0, 1000.0);
    ScalingRoundTrip(Affine(Cm(metre), Km(metre)), 0.00001, 3.0);
  }

  /** Square kilometres to square centimetres multiplies by 10^10, and back. */
  lemma {:induction false} SquareKilometreToSquareCentimetre(metre: Unit)
    requires metre.Fundamental?
    ensures WellFormed(Km2(metre)) && WellFormed(Cm2(metre))
    ensures Affine(Km2(metre), Cm2(metre)) == Of(10000000000.0)
    ensures Convert(Affine(Km2(metre), Cm2(metre)), 3.0) == 30000000000.0
    ensures Convert(Inverse(Affine(Km2(metre), Cm2(metre))), 30000000000.0) == 3.0
  {
    SquaredUnitsConversion(metre, 1000.0, 1.0 / 100.0);
    IPowSmall(1000.0);
    IPowSmall(0.01);
    ScalingRoundTrip(Affine(Km2(metre), Cm2(metre)), 10000000000.0, 3.0);
  }

  /** Grams per square metre to tons per square kilometre is the identity. */
  lemma {:induction false} GramPerSquareMetreToTonPerSquareKilometre(metre: Unit, kilogram: Unit)
    requires metre.Fundamental? && kilogram.Fundamental?
    ensures WellFormed(GPerM2(kilogram, metre)) && WellFormed(TonPerKm2(kilogram, metre))
    ensures Affine(GPerM2(kilogram, metre), TonPerKm2(kilogram, metre)) == Identity()
  {
    ScaledMassPerAreaToBase(kilogram, metre, 1.0 / 1000.0);
    ScaledPerAreaToBase(kilogram, metre, 1000.0, 1000.0);
    IPowSmall(1000.0);
    SameBaseConversion(GPerM2(kilogram, metre), TonPerKm2(kilogram, metre));
  }

  /** Grams per square metre to tons per square centimetre is the pure scale
      10^-10. */
  lemma {:induction false} GramPerSquareMetreToTonPerSquareCentimetre(metre: Unit, kilogram: Unit)
    requires metre.Fundamental? && kilogram.Fundamental?
    ensures WellFormed(GPerM2(kilogram, metre)) && WellFormed(TonPerCm2(kilogram, metre))
    ensures Affine(GPerM2(kilogram, metre), TonPerCm2(kilogram, metre)) == Of(0.0000000001)
  {
    ScaledMassPerAreaToBase(kilogram, metre, 1.0 / 1000.0);
    ScaledPerAreaToBase(kilogram, metre, 1000.0, 1.0 / 100.0);
    IPowSmall(0.01);
    LinearAffine(GPerM2(kilogram, metre), TonPerCm2(kilogram, metre));
  }

  /** Grams per square metre to tons per square kilometre is the identity,
      and to tons per square centimetre the pure scale 10^-10. */
  lemma {:induction false} MassPerAreaConversion(metre: Unit, kilogram: Unit)
    requires metre.Fundamental? && kilogram.Fundamental?
    ensures WellFormed(GPerM2(kilogram, metre))
    ensures WellFormed(TonPerKm2(kilogram, metre)) && WellFormed(TonPerCm2(kilogram, metre))
    ensures Affine(GPerM2(kilogram, metre), TonPerKm2(kilogram, metre)) == Identity()
    ensures Affine(GPerM2(kilogram, metre), TonPerCm2(kilogram, metre)) == Of(0.0000000001)
    ensures Convert(Affine(GPerM2(kilogram, metre), TonPerCm2(kilogram, metre)), 3.0) == 0.0000000003
    ensures Convert(Inverse(Affine(GPerM2(kilogram, metre), TonPerCm2(kilogram, metre))), 0.0000000003) == 3.0
  {
    GramPerSquareMetreToTonPerSquareKilometre(metre, kilogram);
    GramPerSquareMetreToTonPerSquareCentimetre(metre, kilogram);
    ScalingRoundTrip(Affine(GPerM2(kilogram, metre), TonPerCm2(kilogram, metre)), 0.0000000001, 3.0);
  }

  /** Kelvin to degrees Celsius subtracts 273.15, and back adds it. */
  lemma {:induction false} KelvinToCelsius(kelvin: Unit)
    requires kelvin.Fundamental?
    ensures Affine(kelvin, Celsius(kelvin)) == Of(1.0, -273.15)
    ensures Convert(Affine(kelvin, Celsius(kelvin)), 0.0) == -273.15
    ensures Convert(Affine(kelvin, Celsius(kelvin)), 1.0) == -272.15
    ensures Convert(Affine(kelvin, Celsius(kelvin)), 2.0) == -271.15
    ensures Convert(Inverse(Affine(kelvin, Celsius(kelvin))), 0.0) == 273.15
    ensures Convert(Inverse(Affine(kelvin, Celsius(kelvin))), 1.0) == 274.15
    ensures Convert(Inverse(Affine(kelvin, Celsius(kelvin))), 2.0) == 275.15
  {
    ShiftConversion(kelvin, 273.15);
    var toCelsius := Affine(kelvin, Celsius(kelvin));
    ShiftRoundTrip(toCelsius, -273.15, 0.0);
    ShiftRoundTrip(toCelsius, -273.15, 1.0);
    ShiftRoundTrip(toCelsius, -273.15, 2.0);
    ShiftRoundTrip(toCelsius, -273.15, 273.15);
    ShiftRoundTrip(toCelsius, -273.15, 274.15);
    ShiftRoundTrip(toCelsius, -273.15, 275.15);
  }

  /** Within a derived unit the temperature offset is gone: kelvin per metre
      to degrees Celsius per metre is the identity. */
  lemma {:induction false} TemperaturePerMetre(kelvin: Unit, metre: Unit)
    requires kelvin.Fundamental? && metre.Fundamental?
    ensures WellFormed(KPerM(kelvin, metre)) && WellFormed(CPerM(kelvin, metre))
    ensures Affine(KPerM(kelvin, metre), CPerM(kelvin, metre)) == Identity()
  {
    ShiftedRateConversion(kelvin, metre, 273.15);
  }

  /** One metre per second is 3.6 kilometres per hour. */
  lemma {:induction false} MetrePerSecondToKilometrePerHour(metre: Unit, second: Unit)
    requires metre.Fundamental? && second.Fundamental?
    ensures WellFormed(MPerS(metre, second)) && WellFormed(KmPerH(metre, second))
    ensures Affine(MPerS(metre, second), KmPerH(metre, second)) == Of(3.6)
    ensures Convert(Affine(MPerS(metre, second), KmPerH(metre, second)), 100.0) == 360.0
    ensures Convert(Inverse(Affine(MPerS(metre, second), KmPerH(metre, second))), 18.0) == 5.0
  {
    PerUnitToBase(metre, second);
    ScaledRateToBase(metre, second, 1000.0, 3600.0);
    IPowSmall(3600.0);
    LinearAffine(MPerS(metre, second), KmPerH(metre, second));
    ScalingRoundTrip(Affine(MPerS(metre, second), KmPerH(metre, second)), 3.6, 100.0);
    ScalingRoundTrip(Affine(MPerS(metre, second), KmPerH(metre, second)), 3.6, 5.0);
  }
}
