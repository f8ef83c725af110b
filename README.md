# ecc.py in Dafny

This project models `ecc.py`, which provides:

- arithmetic in a prime field (`FieldElement`);
- points of a short Weierstrass curve y^2 = x^3 + a*x + b over such a
  field (`Point`), with the addition rule of section 2.2.1 of SEC 1 and
  double-and-add scalar multiplication;
- the constant `P` and the field `S256Field`, whose modulus is pinned to `P`.

Each Python exception is modelled as an `Err` value of a `Result`. The
error kinds are:

- `OutOfRange`: ValueError from the range check;
- `DifferentFields`: TypeError on operands with different primes;
- `DivisionByZero`: ValueError on a zero divisor;
- `ModuloByZero`: ZeroDivisionError from `% (prime - 1)`;
- `MissingCoordinate`: TypeError on `None ** n`;
- `NotOnCurve`: ValueError from the curve check;
- `DifferentCurves`: TypeError when `a` or `b` differ.

Modules:

- `Wrappers`: `Option`, `Result` and the error kinds.
- `Arith`: Python's `%` with a positive divisor, powers, the builtin
  `pow(b, n, m)` as square-and-multiply, and bit lengths.
- `Field`: `FieldElement` as a datatype `(num, prime)` with the validity
  predicate its constructor guarantees, the operators as functions, and
  their algebraic laws.
- `S256`: `P` and `S256Field`.
- `Curve`: `Point` as a datatype with a separate `Identity` variant (the
  Python point whose coordinates are both `None`). The constructor and the
  five-way `__add__` are functions. `__rmul__`'s loop is the method
  `ScalarMultiply`, proved equal to the recursive definition `DoubleAndAdd`.
- `Vectors`: the concrete cases of the test classes, evaluated in the model,
  and one doubling vector, (192, 105) + (192, 105) == (49, 71) on the test
  curve, which no test of ecc.py exercises.

Where the behaviour of the code differs from what its design intends, the
model follows the code:

- `FieldElement.__eq__` compares `self.prime` with itself (ecc.py:30). Two
  elements with the same `num` therefore compare equal even when their primes
  differ. Point equality, the same-curve test of `__add__` and the curve check
  of the constructor inherit this.
- `**` with prime 1 raises ZeroDivisionError (`exponent % 0`).
- `0 ** (k * (prime - 1))` is 1, because `pow(0, 0, prime)` is 1.
- A point with exactly one `None` coordinate raises TypeError inside
  `_on_curve`. When only x is missing, `y ** 2` is evaluated first and can
  raise ZeroDivisionError instead.
- Over primes 2 and 3, `**` reduces the exponents 2 and 3 modulo prime - 1 as well. Over the field of two elements every power is 1, so for example (0, 1) satisfies `_on_curve` for y^2 = x^3.
- `P` is 2^255 + 2^32 - 977, exactly as written. This is not the secp256k1
  modulus, and nothing in the model assumes it is prime.

## Model

| member | source | states |
|---|---|---|
| Field.New | ecc.py:11-21 | construction fails with OutOfRange exactly when num < 0 or num >= prime; otherwise the element is (num, prime) and valid |
| Field.Equal | ecc.py:26-30 | `==` holds exactly when the nums agree; the primes are not compared |
| Field.NotEqual | ecc.py:32-33 | `!=` is the exact negation of `==`, i.e. the nums differ |
| Field.EqualIgnoresPrime | ecc.py:30 | elements with equal num and different primes compare equal and not unequal |
| Field.Add | ecc.py:35-41 | fails with DifferentFields exactly when the primes differ; otherwise a valid element of the same field congruent to a.num + b.num |
| Field.Sub | ecc.py:43-49 | fails exactly when the primes differ; otherwise a valid element congruent to a.num - b.num |
| Field.Mul | ecc.py:51-57 | fails exactly when the primes differ; otherwise a valid element congruent to a.num * b.num |
| Field.AddCommutes | ecc.py:35-41 | a + b == b + a, errors included |
| Field.AddAssociates | ecc.py:35-41 | (a + b) + c == a + (b + c) within one field |
| Field.AddZero | ecc.py:35-41 | 0 is neutral for + |
| Field.MulCommutes | ecc.py:51-57 | a * b == b * a, errors included |
| Field.MulAssociates | ecc.py:51-57 | (a * b) * c == a * (b * c) within one field |
| Field.MulOne | ecc.py:51-57 | 1 is neutral for * when prime >= 2 |
| Field.MulDistributes | ecc.py:35-57 | a * (b + c) == a * b + a * c |
| Field.SubUndoesAdd | ecc.py:35-49 | (a + b) - b == a |
| Field.AddUndoesSub | ecc.py:35-49 | (a - b) + b == a |
| Field.SubZero | ecc.py:43-49 | a - b has num 0 exactly when a and b are the same residue |
| Field.Pow | ecc.py:59-64 | fails with ModuloByZero exactly when prime == 1; otherwise a valid element of the same field whose num is num^(e mod (prime - 1)) mod prime, for every integer e |
| Arith.ModPow | ecc.py:62 | `pow(b, n, m)` returns a value in [0, m) |
| Arith.ModPowIsPower | ecc.py:62 | square-and-multiply computes b^n mod m |
| Field.PowPeriodic | ecc.py:60 | a ** e == a ** (e + k * (prime - 1)) for every integer k, so negative exponents are accepted |
| Field.PowMultipleOfOrder | ecc.py:60-62 | a ** (k * (prime - 1)) is 1 for every a, the element 0 included |
| Field.Square | ecc.py:59-64 | a ** 2 is a.num * a.num mod prime once prime >= 4 |
| Field.Div | ecc.py:66-75 | DifferentFields when the primes differ, DivisionByZero when the divisor is 0, and a valid element of the same field otherwise |
| Field.DivValue | ecc.py:73 | a / b is a.num * b.num^(prime - 2) mod prime |
| Field.DivIsMulByInverse | ecc.py:59-75 | a / b == a * b ** -1 |
| Field.MulThenDiv | ecc.py:51-75 | (a * b) / b == a whenever b^(prime - 1) is 1 modulo prime |
| Field.DivThenMul | ecc.py:66-75 | (a / b) * b == a whenever b^(prime - 1) is 1 modulo prime (Fermat's little theorem for b) |
| Field.Scale | ecc.py:77-80 | k * a is a valid element of a's field congruent to a.num * k, for any integer k |
| Field.ScaleByZero | ecc.py:77-80 | 0 * a is the zero of a's field |
| Field.ScaleByTwo | ecc.py:77-80 | 2 * a == a + a |
| Field.ScaleSucc | ecc.py:77-80 | (k + 1) * a == k * a + a for every integer k |
| S256.S256Field | ecc.py:281-285 | fails exactly when num is outside [0, P); otherwise the element (num, P), whatever prime is passed |
| S256.S256FieldIgnoresPrime | ecc.py:283-285 | any two prime arguments give the same result as FieldElement(num, P) |
| Curve.OnCurve | ecc.py:148-149 | the curve check raises ModuloByZero or DifferentFields exactly when the primes of x, y, a and b do not allow evaluating the equation |
| Curve.OnCurveEquation | ecc.py:148-149 | over one field of at least 5 elements, `_on_curve` decides y^2 == x^3 + a*x + b modulo prime |
| Curve.NewPoint | ecc.py:136-149 | two `None`s give the identity unchecked; one `None` raises; otherwise the point is built exactly when `_on_curve` holds, NotOnCurve or the error `_on_curve` raises otherwise; every built point is valid |
| Curve.CoordinateEqual | ecc.py:158 | `None == None`, `None` equals no element, elements compare by num |
| Curve.PointEqual | ecc.py:154-159 | equal exactly when both are the identity or both affine with equal coordinate nums, and a and b compare equal |
| Curve.PointNotEqual | ecc.py:161-162 | `!=` holds exactly when a or b differ, or one point is the identity and the other is not, or both are affine and a coordinate num differs |
| Curve.Chord | ecc.py:177-182 | the chord branch fails only with DifferentFields or NotOnCurve (never DivisionByZero), only NotOnCurve when everything is over one prime, and any point it returns is on the curve |
| Curve.Tangent | ecc.py:187-192 | the doubling branch fails only with DifferentFields, DivisionByZero or NotOnCurve, and any point it returns is on the curve |
| Curve.ChordValue | ecc.py:177-182 | over one prime m >= 4, the chord branch builds, through the validating constructor, x3 = s^2 - x1 - x2 and y3 = s * (x1 - x3) - y1 modulo m with the slope s = (y2 - y1) * (x2 - x1)^(m - 2) |
| Curve.TangentValue | ecc.py:187-192 | over one prime m >= 4, doubling raises DivisionByZero exactly when 2 * y1 is 0 modulo m, and otherwise builds x3 = s^2 - 2 * x1 and y3 = s * (x1 - x3) - y1 with the slope s = (3 * x1^2 + a) * (2 * y1)^(m - 2) |
| Curve.Add | ecc.py:164-192 | DifferentCurves exactly when a or b differ; the identity is neutral on both sides; equal x with unequal y, and doubling with y == 0, give the identity; every result is on the same curve; no case falls through |
| Curve.AddIsChord | ecc.py:164-182 | affine points whose a and b agree by num, with distinct x, are added by the chord |
| Curve.AddIsTangent | ecc.py:164-192 | an affine point with nonzero y is added to itself by the tangent |
| Curve.AddNegation | ecc.py:174-175 | over a field of odd order, a point plus its negation is the identity |
| Curve.TangentAtPrimeTwo | ecc.py:187-188 | over the field of two elements, the tangent slope of a point with y == 1 divides by zero and raises DivisionByZero |
| Curve.DoublingAtPrimeTwo | ecc.py:188 | over the field of two elements, doubling a point with y == 1 raises DivisionByZero |
| Curve.DoubleAndAdd | ecc.py:204-215 | the double-and-add recursion returns valid points only |
| Curve.ScalarMultiply | ecc.py:204-215 | the loop computes DoubleAndAdd(coefficient, p, identity) and, when it returns a point, runs once per bit of the coefficient |
| Arith.BitLengthBounds | ecc.py:208-213 | the iteration count BitLength(k) is the number of binary digits of k |
| Curve.NaiveMultiply | ecc.py:196-201 | n-fold repeated addition returns valid points only |
| Curve.MultiplyByZeroAndOne | ecc.py:196-215 | 0 * p is the identity; 1 * p is p unless the loop's final doubling raises; the naive loop gives the identity and p |
| Curve.MultiplyByOneRaisesOnlyFast | ecc.py:196-215 | over the field of two elements, (0, 1) on y^2 = x^3 is a valid point for which repeated addition gives 1 * p == p while double-and-add raises DivisionByZero |
| Curve.MultiplyByTwo | ecc.py:196-215 | 2 * p by double-and-add equals the naive p + p, errors included, unless p + p succeeds and the loop's second doubling raises |
| Vectors.FieldEqualityVectors | ecc.py:84-90 | 2 == 2, 2 != 15 and not 2 != 2, modulo 31 |
| Vectors.FieldAddVectors | ecc.py:92-98 | 2 + 15 == 17 and 17 + 21 == 7, modulo 31 |
| Vectors.FieldSubVectors | ecc.py:100-106 | 29 - 4 == 25 and 15 - 30 == 16, modulo 31 |
| Vectors.FieldMulVector | ecc.py:108-111 | 24 * 19 == 22, modulo 31 |
| Vectors.FieldScaleVector | ecc.py:113-116 | 2 * 24 == 24 + 24, modulo 31 |
| Vectors.FieldPowVectors | ecc.py:118-123 | 17 ** 3 == 15 and 5 ** 5 * 18 == 16, modulo 31 |
| Vectors.FieldDivVector | ecc.py:125-128 | 3 / 24 == 4, modulo 31 |
| Vectors.FieldNegativePowVector | ecc.py:129-130 | 17 ** -3 == 29, modulo 31 |
| Vectors.FieldNegativePowProductVector | ecc.py:131-133 | 4 ** -4 * 11 == 13, modulo 31 |
| Vectors.PointAccepted192_105 | ecc.py:218-231 | (192, 105) is on y^2 = x^3 + 7 over F_223 |
| Vectors.PointAccepted17_56 | ecc.py:218-231 | (17, 56) is on the curve |
| Vectors.PointAccepted1_193 | ecc.py:218-231 | (1, 193) is on the curve |
| Vectors.PointRejected200_119 | ecc.py:225-238 | (200, 119) is rejected with NotOnCurve |
| Vectors.PointRejected42_99 | ecc.py:225-238 | (42, 99) is rejected with NotOnCurve |
| Vectors.PointAccepted170_142 | ecc.py:250 | (170, 142) is on the curve |
| Vectors.PointAccepted47_71 | ecc.py:253 | (47, 71) is on the curve |
| Vectors.PointAccepted117_141 | ecc.py:254 | (117, 141) is on the curve |
| Vectors.PointAccepted60_139 | ecc.py:255 | (60, 139) is on the curve |
| Vectors.PointAccepted143_98 | ecc.py:258 | (143, 98) is on the curve |
| Vectors.PointAccepted76_66 | ecc.py:259 | (76, 66) is on the curve |
| Vectors.PointAccepted49_71 | ecc.py:136-149 | (49, 71) is on the curve |
| Vectors.ChordVector1 | ecc.py:247-251 | the chord through (192, 105) and (17, 56) gives (170, 142) |
| Vectors.ChordVector2 | ecc.py:252-256 | the chord through (47, 71) and (117, 141) gives (60, 139) |
| Vectors.ChordVector3 | ecc.py:257-261 | the chord through (143, 98) and (76, 66) gives (47, 71) |
| Vectors.PointAddVector1 | ecc.py:247-265 | (192, 105) + (17, 56) == (170, 142) |
| Vectors.PointAddVector2 | ecc.py:252-265 | (47, 71) + (117, 141) == (60, 139) |
| Vectors.PointAddVector3 | ecc.py:257-265 | (143, 98) + (76, 66) == (47, 71) |
| Vectors.TangentDoubleVector | ecc.py:187-192 | the tangent at (192, 105) gives (49, 71) |
| Vectors.PointDoubleVector | ecc.py:164-192 | (192, 105) + (192, 105) == (49, 71) |

## Left out

- `__repr__` of both classes and of `S256Field` (ecc.py:23-24, 151-152, 287-291): these only format strings for display.
- The Python-version guard and the `unittest` import (ecc.py:1-8): runtime plumbing. The test classes appear only as the concrete vectors in `Vectors`.
- `test_mul` (ecc.py:267-279): its `assertTrue(7 * p, result)` always passes, so nothing establishes that 7 * (15, 86) is the identity, and the model does not evaluate it.
- Comparisons with `None` (`other is None`, ecc.py:27-28 and 155-156) are modelled only for coordinates, in `CoordinateEqual`. A whole `FieldElement` or `Point` is never `None` in the model.
- Operands that are not `FieldElement`s (for example integer curve coefficients a and b) are not modelled. `a` and `b` are always field elements.
- Curve.ScalarMultiply: requires coefficient >= 0, because for a negative coefficient `coef >>= 1` reaches -1 and stays there, so the loop never returns a value: it runs forever unless one of its additions raises (for a point with y == 1 over the field of two elements, for instance, the first doubling raises, as DoublingAtPrimeTwo states).
- Curve.NaiveMultiply: related to double-and-add only for n <= 2. The two agree outright for n = 0. For n = 1 they disagree exactly when p + p raises (MultiplyByZeroAndOne). For n = 2 they disagree only when p + p succeeds and the loop's second doubling raises; when p + p raises, both raise that error (MultiplyByTwo). The fast loop doubles once more than it needs, and that doubling can raise where repeated addition does not (MultiplyByOneRaisesOnlyFast). No general equivalence is stated: it would need associativity of point addition, which is not proved.
- Curve.Chord: ChordValue gives the coordinates the chord builds, but it is not proved that they always pass the curve check, i.e. that NotOnCurve never happens over one prime. That is the algebraic closure of the group law. The same holds for Curve.Tangent and TangentValue.
- Curve.ChordValue: stated for primes of at least 4. For primes 2 and 3, `s ** 2` is itself reduced modulo prime - 1. The same holds for Curve.TangentValue; TangentAtPrimeTwo covers doubling at prime 2.
- Field.DivThenMul: takes Fermat's little theorem for the divisor as a hypothesis instead of proving it for every prime.
- Field.MulThenDiv: takes Fermat's little theorem for the divisor as a hypothesis (b.num^(prime - 1) mod prime == 1) instead of proving it for every prime, so `(a * b) / b == a` is established only for divisors where that holds.
- Primality of `P`, and the cost and side-channel behaviour of big-number arithmetic: the code expresses neither.
