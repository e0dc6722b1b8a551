# Unit conversion algebra

This project is a Dafny model of the unit-of-measurement algebra in the
`unit-simple` package (`Unit.ts`).

## Converters

A `UnitConverter` is an affine map `x ↦ x * scale + offset`. It comes with:

- `convert`;
- an inverse, paired with the converter when it is built;
- `concatenate`: composition, with `other` applied first;
- `linear` and `linearPow`: both drop the offset, using an exact test of the offset against 0;
- the factory `of` and the shared `identity`.

## Units

A unit is one of three kinds:

- a `FundamentalUnit`;
- a `TransformedUnit`: a converter applied on top of a reference unit;
- a `DerivedUnit`: a product of powers of other units.

Every unit reduces through `toBase` to a converter into an implicit base representation:

- a fundamental unit reduces to the identity;
- a transformed unit reduces to its reference's reduction composed with its own converter;
- a derived unit folds its factors from the identity, each factor contributing its unit's reduction raised to its power with the offset dropped.

`affine(source, target)` / `getConverterTo` is then the inverse of the target's reduction composed with the source's reduction. The combinators `shift`, `scaleMultiply`, `scaleDivide` and `factor` build new units from existing ones.

## How the model is organised

The model works over exact reals. It has three modules:

- `Powers` (`powers.dfy`): integer powers of reals.
- `Converters` (`converter.dfy`): the `Converter(scale, offset)` datatype, its operations, and the algebraic laws:
  - round trips through the inverse;
  - the inverse of the inverse is the original;
  - composition semantics, associativity and identity;
  - offset dropping.
- `Units` (`unit.dfy`): the `Unit`/`Factor` datatypes, `ToBase`, `Affine` and the combinators, with lemmas on:
  - reductions;
  - uniqueness of the converter between two units;
  - self-conversion, symmetry and chaining;
  - the combinators;
  - offsets vanishing inside derived units.

A fourth module, `UnitScenarios` (`scenarios.dfy`), states the library's worked conversions as lemmas:

- centimetre to kilometre;
- square kilometre to square centimetre;
- gram per square metre to ton per square kilometre or square centimetre;
- kelvin to degree Celsius;
- kelvin per metre to Celsius per metre;
- metre per second to kilometre per hour.

Each is stated for any fundamental units. The exact values are proved over reals, where the library's tests compare floating-point results within a tolerance.

A converter's scale has type `NonZeroReal`. The source inverts every converter with `1 / scale` when it builds it, so a zero scale has no meaningful inverse. Making the invariant part of the type is what makes every law hold exactly.

`shift(v)` builds a unit whose value `x` stands for `x + v` of the original, so converting into the shifted unit subtracts `v`. Kelvin shifted by 273.15 is the Celsius scale.

## Model

| member | source | states |
|---|---|---|
| Converters.Convert | unit-simple/src/Unit.ts:52-54 | the input can always be recovered from the converted value, by subtracting the offset and dividing by the scale |
| Converters.Of | unit-simple/src/Unit.ts:60-66 | the converter maps x to x * scale + offset; an omitted offset is 0 |
| Converters.Identity | unit-simple/src/Unit.ts:68-72 | the shared identity converts every value to itself |
| Converters.Inverse | unit-simple/src/Unit.ts:15-19 | the inverse has scale 1 / scale and offset -offset / scale, and undoes the converter from either side for every value |
| Converters.Linear | unit-simple/src/Unit.ts:34-41 | the result keeps the scale, has offset 0 and converts x to x * scale; a converter whose offset is exactly 0 is returned unchanged |
| Converters.LinearPow | unit-simple/src/Unit.ts:43-50 | the result has scale scale^pow and offset 0; a converter with offset 0 raised to the power 1 is returned unchanged |
| Converters.Concatenate | unit-simple/src/Unit.ts:56-58 | the composite multiplies the scales and converts every x as the receiver applied to the argument's conversion of x |
| Converters.InverseInverse | unit-simple/src/Unit.ts:18 | the inverse of the inverse equals the original converter |
| Converters.FactorThrough | unit-simple/src/Unit.ts:56-58 | c satisfies t(c(x)) = s(x) for all x if and only if c is the inverse of t composed with s |
| Converters.InverseCancels | unit-simple/src/Unit.ts:15-19 | composing a converter with its inverse, in either order, gives the identity |
| Converters.IdentityNeutral | unit-simple/src/Unit.ts:56-72 | the identity is a left and a right unit of composition |
| Converters.ConcatenateAssociative | unit-simple/src/Unit.ts:56-58 | composition is associative |
| Converters.InverseConcatenate | unit-simple/src/Unit.ts:15-19 | the inverse of a composition composes the inverses in reverse order |
| Converters.InverseOfScaling | unit-simple/src/Unit.ts:60-66 | the inverse of scaling by v is scaling by 1 / v, and the other way round |
| Converters.InverseOfShift | unit-simple/src/Unit.ts:60-66 | the inverse of shifting by v is shifting by -v |
| Converters.LinearRatio | unit-simple/src/Unit.ts:56-58 | two converters with offset 0 compose, after inverting one, into the pure scale that is the ratio of their scales |
| Converters.LinearIdempotent | unit-simple/src/Unit.ts:34-41 | dropping the offset twice is the same as dropping it once |
| Converters.LinearPowOne | unit-simple/src/Unit.ts:43-50 | at power 1, linearPow agrees with linear |
| Converters.LinearPowIgnoresOffset | unit-simple/src/Unit.ts:43-50 | linearPow gives the same result for a converter as for the converter without its offset |
| Converters.LinearPowConvert | unit-simple/src/Unit.ts:43-54 | for every converter, linearPow converts x to x * scale^pow, whatever its offset |
| Units.Power | unit-simple/src/Unit.ts:146-148 | a factor's power, multiplied by its denominator, gives back its numerator |
| Units.AsFactor | unit-simple/src/Unit.ts:104-118 | a unit used as a factor is itself to the power 1 |
| Units.FactorOf | unit-simple/src/Unit.ts:100-102 | the factor of a unit has that unit as dimension; its power is a whole number exactly when the denominator is non-zero and divides the numerator, and then power times denominator is the numerator, so the default denominator 1 gives the numerator as the power |
| Units.ToBase | unit-simple/src/Unit.ts:152-208 | a derived unit's reduction never has an offset |
| Units.FactorToBase | unit-simple/src/Unit.ts:180 | the converter a factor contributes to a derived unit has no offset |
| Units.DerivedPrefix | unit-simple/src/Unit.ts:178-182 | the running result of the derived-unit fold never has an offset |
| Units.Affine | unit-simple/src/Unit.ts:78-80 | every source value converts to the target value that denotes the same base quantity; AffineUnique shows no other converter does this |
| Units.GetConverterTo | unit-simple/src/Unit.ts:82-84 | the converter from a unit to a target is affine(unit, target), and so maps every source value to the target value denoting the same base quantity |
| Units.Shift | unit-simple/src/Unit.ts:88-90 | a shifted unit is well formed exactly when the original is |
| Units.ScaleMultiply | unit-simple/src/Unit.ts:92-94 | a scaled unit is well formed exactly when the original is |
| Units.ScaleDivide | unit-simple/src/Unit.ts:96-98 | a divided unit is well formed exactly when the original is |
| Units.FundamentalToBase | unit-simple/src/Unit.ts:154-156 | a fundamental unit reduces to the identity |
| Units.TransformedToBase | unit-simple/src/Unit.ts:206-208 | a transformed unit converts into its reference first, then into base |
| Units.ScaleProductAppend | unit-simple/src/Unit.ts:178-182 | the scale product over a definition with one more factor multiplies in that factor's scale |
| Units.DerivedPrefixIsScaleProduct | unit-simple/src/Unit.ts:178-182 | after n factors the fold is the pure scale given by the product of those factors' base scales to their powers |
| Units.DerivedToBase | unit-simple/src/Unit.ts:173-183 | a derived unit reduces to offset 0 and to the scale given by the product over its factors of base scale to the power |
| Units.ScaleProductCongruent | unit-simple/src/Unit.ts:178-182 | definitions whose factors contribute equal scales, position by position, have equal scale products |
| Units.DerivedDependsOnlyOnScales | unit-simple/src/Unit.ts:173-183 | two derived units whose factors contribute equal scales reduce to the same converter |
| Units.AffineUnique | unit-simple/src/Unit.ts:78-80 | a converter preserves the base quantity from source to target if and only if it is affine(source, target) |
| Units.SameBaseConversion | unit-simple/src/Unit.ts:78-80 | units with equal reductions convert into each other as the identity |
| Units.AffineSelf | unit-simple/src/Unit.ts:78-84 | converting any unit to itself is the identity and maps every x to x |
| Units.AffineSwap | unit-simple/src/Unit.ts:78-80 | the converter from target back to source is the inverse of the converter from source to target |
| Units.AffineChain | unit-simple/src/Unit.ts:78-80 | converting through an intermediate unit equals converting directly |
| Units.LinearAffine | unit-simple/src/Unit.ts:78-80 | between units whose reductions have no offset, the converter is the ratio of their base scales |
| Units.DerivedConversion | unit-simple/src/Unit.ts:173-183 | the converter between two derived units has no offset and is the ratio of their scale products |
| Units.ShiftToBase | unit-simple/src/Unit.ts:88-90 | shifting keeps the base scale and moves the base offset to the original's conversion of the shift; a shifted fundamental unit reduces to x ↦ x + value |
| Units.ShiftConversion | unit-simple/src/Unit.ts:88-90 | converting into a unit shifted by v maps x to x - v, and converting back maps x to x + v |
| Units.ScaleMultiplyToBase | unit-simple/src/Unit.ts:92-94 | scaling by v multiplies the base scale by v and leaves the base offset as it was |
| Units.ScaleMultiplyConversion | unit-simple/src/Unit.ts:92-94 | converting from u scaled by v into u is the pure scaling by v |
| Units.ScaleDivideConversion | unit-simple/src/Unit.ts:96-98 | converting from u into u divided by v is the pure scaling by v, as for scaleMultiply by 1 / v |
| Units.ShiftedFactorConversion | unit-simple/src/Unit.ts:173-183 | replacing a factor's unit in a derived unit by a shifted copy of it gives a unit that converts to the original as the identity |
| UnitScenarios.PerUnitToBase | unit-simple/src/Unit.ts:173-183 | a derived unit u / v reduces to u's base scale times the reciprocal of v's |
| UnitScenarios.ShiftedRateConversion | unit-simple/src/Unit.ts:173-183 | a rate over a shifted unit converts to the rate over the original unit as the identity |
| UnitScenarios.ScaledUnitsConversion | unit-simple/src/Unit.ts:78-98 | two scalings a and b of any one unit convert by a / b, whatever offset the unit itself has |
| UnitScenarios.SquaredUnitsConversion | unit-simple/src/Unit.ts:173-183 | the squares of two scalings a and b of one fundamental unit convert by a^2 / b^2 |
| UnitScenarios.CentimetreToKilometre | unit-simple/src/Unit.spec.ts:4-12 | centimetres to kilometres is the scaling by 0.00001: 3 becomes 0.00003, and the inverse gives back 3 |
| UnitScenarios.SquareKilometreToSquareCentimetre | unit-simple/src/Unit.spec.ts:14-24 | square kilometres to square centimetres is the scaling by 10^10: 3 becomes 3 * 10^10, and the inverse gives back 3 |
| UnitScenarios.GramPerSquareMetreToTonPerSquareKilometre | unit-simple/src/Unit.spec.ts:36-40 | grams per square metre to tons per square kilometre is the identity |
| UnitScenarios.GramPerSquareMetreToTonPerSquareCentimetre | unit-simple/src/Unit.spec.ts:37-44 | grams per square metre to tons per square centimetre is the pure scale 10^-10, with offset 0 |
| UnitScenarios.MassPerAreaConversion | unit-simple/src/Unit.spec.ts:26-47 | grams per square metre to tons per square kilometre is the identity; to tons per square centimetre it is the pure scale 10^-10, which the inverse undoes |
| UnitScenarios.KelvinToCelsius | unit-simple/src/Unit.spec.ts:49-59 | kelvin to Celsius subtracts 273.15 (0, 1 and 2 become -273.15, -272.15 and -271.15), and the inverse adds it back |
| UnitScenarios.TemperaturePerMetre | unit-simple/src/Unit.spec.ts:61-67 | kelvin per metre to Celsius per metre is the identity: the temperature offset vanishes inside the derived unit |
| UnitScenarios.MetrePerSecondToKilometrePerHour | unit-simple/src/Unit.spec.ts:70-84 | metres per second to kilometres per hour is the scaling by 3.6: 100 becomes 360, and the inverse takes 18 to 5 |

## Left out

- Powers with a fractional exponent are not modelled. A factor's power must be a whole number (`Units.IntegralPower`), and scales are raised by repeated multiplication. The source's floating-point `Math.pow` and its `numerator / denominator` division have no exact counterpart over reals.
- IEEE-754 doubles are not modelled: the model has no rounding, no signed zero and no NaN or infinities. The scenarios prove exact values where the library's tests compare within a tolerance. The `-0.0` offset of an inverse is 0 here.
- A converter with scale 0 cannot be built: the scale's type excludes it. The source would compute `1 / 0` when it builds the inverse.
- Object identity is not modelled. The inverse is computed on demand rather than stored as a back-reference. The shared `IDENTITY` object is a value, and "the same object" becomes value equality.
- `Factor.ts` is an interface without behaviour. It is folded into the `Factor` datatype.
- Nothing checks that two units measure the same quantity, in the model as in the source.
- A derived unit's definition changed after construction through `definition()`, and custom `Factor` objects whose `dim()` refers back to the unit, are not modelled. Units here are finite trees. On such a cycle the source's `toBase` does not terminate.
- Fundamental units carry a name, so that distinct fundamental units are distinct values. In the source they are distinct objects.
