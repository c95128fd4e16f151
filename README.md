# Point and Vector algebra of mathy-stuff

A Dafny model of the 2D point and vector algebra in `mathystuff/vectors.py`. It covers
the module-level magnitude helpers, the `Point` class with its arithmetic operators, and the
`Vector` class with its derived magnitude, `copy` and the operators `*`, `*=`, `+` and `-`.

- `points.dfy`, module `Points`:
  - `Pt` is the value of a point.
  - `Plus`, `Minus`, `Times`, `Scaled`, `Quotient`, `PowScalar` and `PowByPoint` are what the operators compute on values.
  - `Point` is a class with mutable `x` and `y`. `+`, `-`, `*`, `/` and `**` return fresh points. `*=` and `**=` overwrite the receiver's fields and return the receiver.
  - An operand is either a number or another point (`Operand`).
- `vectors.dfy`, module `Vectors`:
  - The magnitude helpers.
  - `Vector` is a class with a mutable `initial` point and a possibly absent (`null`) `terminal` point.
  - Lemmas prove that the magnitude checks in `__add__` and `__sub__` always hold.
  - The `Outcome` type stands for an operator that returns `NotImplemented`.

Coordinates are `real`. Exponents are natural numbers. `math.sqrt` is not modelled. Each
magnitude is represented by the radicand handed to `math.sqrt`, and its contracts are
stated on that radicand. The square root is a function of its argument, so equal radicands
give equal magnitudes. For exact reals, a radicand that is never negative means `math.sqrt` never raises a domain error.

The model follows the code, not the textbook meaning:
- Scalar `**=` sets `x` first. It then computes `y` from the new `x`. So `p ** e` is `(x^e, x^(e*e))`.
- As a result, `Vector.magnitude` squares `dx` in place. Its radicand is `dx^2 + dx^4`, and it ignores `dy`.
- `u - w` maps each end `e` of a copy of `w` to `u.terminal - e` (negation, then translation by `u.terminal`). It is not vector subtraction.

The class methods (`Point.PowAssign`, `Vector.Magnitude`, `Vector.Add`, `Vector.Sub`)
keep the behaviour as written. The corrected componentwise power and magnitude sit beside
them. Translation and the map `e` to `s - e` are proved to preserve the magnitude under both
definitions, so the checks in `+` and `-` hold either way.

## Model

| member | source | states |
|---|---|---|
| Points.PlusMinusCancel | mathystuff/vectors.py:23-26 | `(a + b) - b == a` and `(a - b) + b == a`, componentwise |
| Points.TimesQuotientCancel | mathystuff/vectors.py:27-38 | dividing by a point with no zero component undoes componentwise multiplication by it, in both orders |
| Points.ScaledIsTimes | mathystuff/vectors.py:29-36 | `*=` by a number `k` equals `*=` by the point `(k, k)`; two scalings compose by multiplying factors; scaling by 1 is the identity |
| Points.PowScalarComponents | mathystuff/vectors.py:48-53 | scalar `**= e` gives `x^e` and `x^(e*e)`; the old `y` plays no part |
| Points.PowByPointComponentwise | mathystuff/vectors.py:54-58 | with a point exponent `(e, e)`, `**=` raises each component independently, which is what the corrected scalar power computes |
| Points.PowScalarAgreesWithPointIff | mathystuff/vectors.py:48-58 | the scalar power as written equals the point power `(e, e)` if and only if `x^(e*e) == y^e` |
| Points.PowScalarAsWrittenCounterexample | mathystuff/vectors.py:52-53 | `(3, 4) ** 2` gives `(9, 81)` as written; the componentwise result is `(9, 16)` |
| Points.Point.constructor | mathystuff/vectors.py:18-20 | the new point has the given coordinates |
| Points.Point.Copy | mathystuff/vectors.py:21-22 | a fresh point with equal coordinates |
| Points.Point.Add | mathystuff/vectors.py:23-24 | a fresh point that is the componentwise sum; the operands are not changed |
| Points.Point.Sub | mathystuff/vectors.py:25-26 | a fresh point that is the componentwise difference; the operands are not changed |
| Points.Point.Mul | mathystuff/vectors.py:27-28 | a fresh point that is the componentwise product |
| Points.Point.Div | mathystuff/vectors.py:37-38 | a fresh point that is the componentwise quotient; the divisor must have no zero component |
| Points.Point.MulAssign | mathystuff/vectors.py:29-36 | in place: with a number, both coordinates are scaled; with a point, they are multiplied componentwise by that point's original coordinates (also when it is the receiver); returns the receiver |
| Points.Point.PowAssign | mathystuff/vectors.py:48-59 | in place: with a number, the new value is `PowScalar`, where `y` is computed from the already raised `x`; with a point, each component is raised to its own exponent; returns the receiver |
| Points.Point.Pow | mathystuff/vectors.py:39-47 | `**=` applied to a fresh copy, so the result is `PowScalar` or `PowByPoint` of the receiver, and the receiver is unchanged |
| Vectors.RadicandFromDelta | mathystuff/vectors.py:7-8 | the radicand `dx^2 + dy^2` is never negative, so for exact reals `math.sqrt` never raises a domain error, and it is zero exactly when both deltas are zero |
| Vectors.RadicandFromPoints | mathystuff/vectors.py:10-15 | the radicand is never negative and is zero exactly when the two points coincide |
| Vectors.RadicandFromPointsTranslationInvariant | mathystuff/vectors.py:10-15 | moving both points by one offset leaves `magnitude_from_points` unchanged |
| Vectors.MagnitudeRadicandFormula | mathystuff/vectors.py:74-78 | `Vector.magnitude`'s radicand is `dx^2 + dx^4` with `dx = terminal.x - initial.x`; it is never negative and depends on nothing but `dx` |
| Vectors.TranslationPreservesMagnitude | mathystuff/vectors.py:94-100 | moving both ends of a vector by the same point leaves its magnitude unchanged, so the check at line 100 always holds |
| Vectors.NegationTranslationPreservesMagnitude | mathystuff/vectors.py:102-108 | mapping both ends `e` to `s - e` (negation, then translation by `s`) leaves the magnitude unchanged, so the check at line 108 always holds |
| Vectors.MagnitudeAsWrittenCounterexample | mathystuff/vectors.py:75-78 | for `(0, 0)` to `(3, 4)`, `Vector.magnitude`'s radicand is 90, while `magnitude_from_points` gives 25 |
| Vectors.CorrectedMagnitudeMatchesPoints | mathystuff/vectors.py:75-78 | with a componentwise `**= 2`, the magnitude equals `magnitude_from_points` on the same ends, and translation and the map `e` to `s - e` preserve it |
| Vectors.ScalingTerminalScalesDelta | mathystuff/vectors.py:88-93 | scaling only `terminal` scales `terminal - initial` if and only if the factor is 1 or `initial` is the origin |
| Vectors.Vector.constructor | mathystuff/vectors.py:66-73 | `initial` defaults to a fresh `(0, 0)`; given points are stored as they are, and `terminal` may be absent |
| Vectors.Vector.Magnitude | mathystuff/vectors.py:74-78 | returns `MagnitudeRadicand(initial, terminal)`, which is never negative; the vector is unchanged |
| Vectors.Vector.Copy | mathystuff/vectors.py:79-80 | a fresh vector over fresh, distinct copies of both points |
| Vectors.Vector.MulAssign | mathystuff/vectors.py:88-93 | with a number, only the terminal point is scaled, in place, and the receiver is returned; with a point operand, the result is `NotImplemented` and nothing changes; when `initial` is the same object as `terminal`, it is scaled with it |
| Vectors.Vector.Mul | mathystuff/vectors.py:81-87 | with a number, a fresh vector with the same initial point and a scaled terminal point; the receiver is unchanged; with a point operand, `NotImplemented` |
| Vectors.Vector.Add | mathystuff/vectors.py:94-101 | a fresh vector from a copy of `u.initial` to `w.terminal + u.terminal`; the magnitude check inside is proved; neither operand is changed |
| Vectors.Vector.Sub | mathystuff/vectors.py:102-109 | a fresh vector from a copy of `u.initial` to `u.terminal - w.terminal`; the magnitude check after mapping each end `e` of a copy of `w` to `u.terminal - e` is proved; neither operand is changed |

## Left out

- `plot_vector`, the module-level `axes` and `main` (mathystuff/vectors.py:111-154) are left out. They are matplotlib rendering and a demo script.
- `color_iter` and the global `color` generator are left out. They only pick colours for the plot.
- The `print` calls in `__add__` and `__sub__` are left out. They are console output.
- `__repr__` and `__str__` are left out. They only format text.
- `math.sqrt` is not modelled. Magnitudes are their radicands (see above).
- Floating-point rounding and overflow are not modelled. In the source, float `**` and `math.sqrt` can raise `OverflowError` on very large coordinates; the model has no such failure.
- Rounding aside, coordinates are exact reals, so the equality checks in `+` and `-` are proved for exact arithmetic.
- Points.Point.PowAssign: covers only natural-number exponents: a number that is a natural, or a point whose coordinates are both naturals. Python's `pow` also accepts negative and fractional exponents, which this model does not cover.
- Points.Point.Pow: has the same natural-exponent restriction as `PowAssign`.
- Points.Point.Div: models the method `__div__` as written, with a requires clause in place of the `ZeroDivisionError`. Because of `from __future__ import division`, the `/` operator dispatches to `__truediv__`, which `Point` does not define. The model does not capture that dispatch.
- Vectors.Vector.constructor: takes points only. The conversion of tuples and lists into `Point`s in `Vector.__init__` is left out.
- The operators that need `terminal` (`magnitude`, `copy`, `*`, `*=`, `+`, `-`) require it to be present. In the source, an absent terminal fails with a `TypeError` or an `AttributeError` instead.
- Python's follow-up after `NotImplemented` is left out. That follow-up is trying the reflected operator and raising `TypeError`. The model stops at the `NotImplemented` outcome.

## Findings

| source | as written | input that shows it | evidently intended | confidence | as-written member | corrected member |
|---|---|---|---|---|---|---|
| mathystuff/vectors.py:52-53 | scalar `**=` computes `y` as `pow(x, e)` from the already updated `x` | `Point(3, 4) ** 2` gives `(9, 81)` | `y = pow(y, e)`, as in the commented-out lines 50-51 and the point branch, giving `(9, 16)` | high, not executed | Points.PowScalarAsWrittenCounterexample | Points.PowByPointComponentwise |
| mathystuff/vectors.py:76-78 | `Vector.magnitude` squares with that scalar `**=`, so its radicand is `dx^2 + dx^4` | `Vector(terminal=[3, 4]).magnitude` is `sqrt(90)` | `sqrt(dx^2 + dy^2)`, which is `magnitude_from_points` on the same ends, giving 5 | high, not executed | Vectors.MagnitudeAsWrittenCounterexample | Vectors.CorrectedMagnitudeMatchesPoints |
