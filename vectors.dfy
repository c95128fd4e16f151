/** The vector of mathystuff/vectors.py: a pair of points `initial` and `terminal`, its
    derived magnitude, and the operators `*`, `*=`, `+` and `-`. Magnitudes are carried as
    the radicand handed to `math.sqrt`: since the square root is a function of its
    argument, two equal radicands are two equal magnitudes. */
module Vectors {
  import opened Points

  // ---------------------------------------------------------------------------
  // Module-level helpers

  /** `magnitude_from_delta(dx, dy)` is the square root of this value. It is never
      negative, so the square root never fails, and it is zero only for a zero delta. */
  function RadicandFromDelta(dx: real, dy: real): (r: real)
    ensures r >= 0.0
    ensures r == 0.0 <==> dx == 0.0 && dy == 0.0
  {
    PowerSquare(dx);
    PowerSquare(dy);
    Power(dx, 2) + Power(dy, 2)
  }

  /** `magnitude_from_points(ix, iy, tx, ty)` is the square root of this value: the
      squared distance between the two points, zero only when they coincide. */
  function RadicandFromPoints(ix: real, iy: real, tx: real, ty: real): (r: real)
    ensures r >= 0.0
    ensures r == 0.0 <==> ix == tx && iy == ty
  {
    RadicandFromDelta(tx - ix, ty - iy)
  }

  /** Moving both points by the same offset leaves `magnitude_from_points` unchanged. */
  lemma RadicandFromPointsTranslationInvariant(ix: real, iy: real, tx: real, ty: real, sx: real, sy: real)
    ensures RadicandFromPoints(ix + sx, iy + sy, tx + sx, ty + sy)
         == RadicandFromPoints(ix, iy, tx, ty)
  {
    assert (tx + sx) - (ix + sx) == tx - ix;
    assert (ty + sy) - (iy + sy) == ty - iy;
  }

  // ---------------------------------------------------------------------------
  // Vector.magnitude

  /** The radicand `Vector.magnitude` hands to `math.sqrt`: the sum of the components of
      `(terminal - initial) ** 2`, with the scalar power as written. */
  function MagnitudeRadicand(initial: Pt, terminal: Pt): real
  {
    var dt := PowScalar(Minus(terminal, initial), 2);
    dt.x + dt.y
  }

  /** The radicand is `dx^2 + dx^4` for `dx = terminal.x - initial.x`: it is never
      negative, and it depends on nothing but `dx`. */
  lemma {:induction false} MagnitudeRadicandFormula(initial: Pt, terminal: Pt, initial': Pt, terminal': Pt)
    ensures var dx := terminal.x - initial.x;
      MagnitudeRadicand(initial, terminal) == dx * dx + (dx * dx) * (dx * dx)
    ensures MagnitudeRadicand(initial, terminal) >= 0.0
    ensures terminal'.x - initial'.x == terminal.x - initial.x
        ==> MagnitudeRadicand(initial', terminal') == MagnitudeRadicand(initial, terminal)
  {
    var dx := terminal.x - initial.x;
    PowScalarComponents(Minus(terminal, initial), Minus(terminal, initial), 2);
    PowScalarComponents(Minus(terminal', initial'), Minus(terminal', initial'), 2);
    PowerSquare(dx);
    assert Power(dx, 4) == (dx * dx) * (dx * dx) by {
      PowerAdd(dx, 2, 2);
    }
  }

  /** Moving both ends by the same offset `s` leaves the magnitude unchanged: the check
      after the translation in `__add__` always holds. */
  lemma TranslationPreservesMagnitude(initial: Pt, terminal: Pt, s: Pt)
    ensures MagnitudeRadicand(Plus(initial, s), Plus(terminal, s))
         == MagnitudeRadicand(initial, terminal)
  {
    MagnitudeRadicandFormula(initial, terminal, Plus(initial, s), Plus(terminal, s));
  }

  /** Mapping each end `e` to `s - e` (negation, then translation by `s`) leaves the
      magnitude unchanged: the check after that map in `__sub__` always holds. */
  lemma {:induction false} NegationTranslationPreservesMagnitude(initial: Pt, terminal: Pt, s: Pt)
    ensures MagnitudeRadicand(Minus(s, initial), Minus(s, terminal))
         == MagnitudeRadicand(initial, terminal)
  {
    var dx := terminal.x - initial.x;
    MagnitudeRadicandFormula(initial, terminal, initial, terminal);
    MagnitudeRadicandFormula(Minus(s, initial), Minus(s, terminal), Minus(s, initial), Minus(s, terminal));
    assert Minus(s, terminal).x - Minus(s, initial).x == -dx;
    assert (-dx) * (-dx) == dx * dx;
  }

  /** The magnitude as written differs from `magnitude_from_points` on the same ends:
      (0, 0) to (3, 4) gives 90, not 25. */
  lemma MagnitudeAsWrittenCounterexample()
    ensures MagnitudeRadicand(Pt(0.0, 0.0), Pt(3.0, 4.0)) == 90.0
    ensures RadicandFromPoints(0.0, 0.0, 3.0, 4.0) == 25.0
  {
    MagnitudeRadicandFormula(Pt(0.0, 0.0), Pt(3.0, 4.0), Pt(0.0, 0.0), Pt(3.0, 4.0));
  }

  /** The magnitude with the scalar power componentwise, as the commented-out lines of
      `__ipow__` describe. */
  function CorrectedMagnitudeRadicand(initial: Pt, terminal: Pt): real
  {
    var dt := PowScalarComponentwise(Minus(terminal, initial), 2);
    dt.x + dt.y
  }

  /** The corrected magnitude is `magnitude_from_points` of the two ends, and translation
      and the map `e` to `s - e` preserve it just as they preserve the one as written. */
  lemma CorrectedMagnitudeMatchesPoints(initial: Pt, terminal: Pt, s: Pt)
    ensures CorrectedMagnitudeRadicand(initial, terminal)
         == RadicandFromPoints(initial.x, initial.y, terminal.x, terminal.y)
    ensures CorrectedMagnitudeRadicand(Plus(initial, s), Plus(terminal, s))
         == CorrectedMagnitudeRadicand(initial, terminal)
    ensures CorrectedMagnitudeRadicand(Minus(s, initial), Minus(s, terminal))
         == CorrectedMagnitudeRadicand(initial, terminal)
  {
    var d := Minus(terminal, initial);
    PowerSquare(-d.x);
    PowerSquare(-d.y);
    PowerSquare(d.x);
    PowerSquare(d.y);
    assert Minus(Plus(terminal, s), Plus(initial, s)) == d;
    assert Minus(Minus(s, terminal), Minus(s, initial)) == Pt(-d.x, -d.y);
  }

  /** Scaling only the terminal point, as `*=` does, scales the vector's delta
      `terminal - initial` exactly when the factor is 1 or the initial point is the
      origin. */
  lemma ScalingTerminalScalesDelta(initial: Pt, terminal: Pt, k: real)
    ensures Minus(Scaled(terminal, k), initial) == Scaled(Minus(terminal, initial), k)
        <==> k == 1.0 || initial == Pt(0.0, 0.0)
  {
    var lhs, rhs := Minus(Scaled(terminal, k), initial), Scaled(Minus(terminal, initial), k);
    assert lhs.x - rhs.x == initial.x * (k - 1.0);
    assert lhs.y - rhs.y == initial.y * (k - 1.0);
    if k != 1.0 && initial != Pt(0.0, 0.0) {
      if initial.x != 0.0 {
        assert initial.x * (k - 1.0) != 0.0;
      } else {
        assert initial.y * (k - 1.0) != 0.0;
      }
    }
  }

  // ---------------------------------------------------------------------------
  // The mutable vector

  /** The result of an operator that returns `NotImplemented` for an operand it does not
      accept. */
  datatype Outcome<T> = Done(value: T) | NotImplemented

  class Vector {
    var initial: Point
    /** Absent (null) when the vector was built without a terminal point. */
    var terminal: Point?

    /** `Vector(initial=..., terminal=...)` with points: `initial` defaults to a fresh
        (0, 0); given points are kept, not copied. */
    constructor (initial0: Point?, terminal0: Point?)
      ensures initial0 != null ==> initial == initial0
      ensures initial0 == null ==> fresh(initial) && initial.Value() == Pt(0.0, 0.0)
      ensures terminal == terminal0
    {
      if initial0 != null {
        initial := initial0;
      } else {
        initial := new Point(0.0, 0.0);
      }
      terminal := terminal0;
    }

    /** `magnitude`: `terminal - initial` squared in place with `**= 2`, its components
        summed; the receiver is not changed. */
    method Magnitude() returns (r: real)
      requires terminal != null
      ensures r == MagnitudeRadicand(initial.Value(), terminal.Value())
      ensures r >= 0.0
    {
      var dt := terminal.Sub(initial);
      dt := dt.PowAssign(Number(2.0));
      r := dt.x + dt.y;
      MagnitudeRadicandFormula(initial.Value(), terminal.Value(), initial.Value(), terminal.Value());
    }

    /** `copy`: a vector over fresh copies of both points. */
    method Copy() returns (v: Vector)
      requires terminal != null
      ensures fresh(v) && fresh(v.initial) && v.terminal != null && fresh(v.terminal)
      ensures v.initial != v.terminal
      ensures v.initial.Value() == initial.Value() && v.terminal.Value() == terminal.Value()
    {
      var i := initial.Copy();
      var t := terminal.Copy();
      v := new Vector(i, t);
    }

    /** `__imul__`: a number scales the terminal point in place (the initial point stays
        where it is) and the receiver is returned; any other operand is not accepted. */
    method MulAssign(other: Operand) returns (r: Outcome<Vector>)
      requires terminal != null
      modifies terminal
      ensures other.PointOperand? ==> r == NotImplemented && unchanged(terminal)
      ensures other.Number? ==> r == Done(this)
      ensures other.Number? ==> terminal.Value() == Scaled(old(terminal.Value()), other.n)
      ensures initial != terminal ==> initial.Value() == old(initial.Value())
    {
      if !other.Number? {
        return NotImplemented;
      }
      var t := terminal.MulAssign(other);
      r := Done(this);
    }

    /** `__mul__`: with a number, `*=` applied to a copy, so the result has the same
        initial point and a scaled terminal point and the receiver is unchanged; any other
        operand is not accepted. */
    method Mul(other: Operand) returns (r: Outcome<Vector>)
      requires terminal != null
      ensures other.PointOperand? ==> r == NotImplemented
      ensures other.Number? ==> r.Done? && fresh(r.value) && fresh(r.value.initial)
      ensures other.Number? ==> r.value.terminal != null && fresh(r.value.terminal)
      ensures other.Number? ==> r.value.initial.Value() == initial.Value()
      ensures other.Number? ==> r.value.terminal.Value() == Scaled(terminal.Value(), other.n)
    {
      if !other.Number? {
        return NotImplemented;
      }
      var v := Copy();
      r := v.MulAssign(other);
    }

    /** `__add__`: a copy of `other` is moved so that it starts at this vector's terminal
        point, its magnitude is checked to be unchanged, and the result runs from this
        vector's initial point to the end of the moved copy. Neither operand changes. */
    method Add(other: Vector) returns (r: Vector)
      requires terminal != null && other.terminal != null
      ensures fresh(r) && fresh(r.initial) && r.terminal != null && fresh(r.terminal)
      ensures r.initial.Value() == initial.Value()
      ensures r.terminal.Value() == Plus(other.terminal.Value(), terminal.Value())
    {
      var mag := other.Magnitude();
      var moved := other.Copy();
      moved.initial := moved.initial.Add(terminal);
      moved.terminal := moved.terminal.Add(terminal);
      var movedMag := moved.Magnitude();
      TranslationPreservesMagnitude(other.initial.Value(), other.terminal.Value(), terminal.Value());
      assert movedMag == mag;
      var i := initial.Copy();
      r := new Vector(i, moved.terminal);
    }

    /** `__sub__`: each end `e` of a copy of `other` is mapped to `terminal - e` (negation,
        then translation by this vector's terminal point),
        its magnitude is checked to be unchanged, and the result runs from this vector's
        initial point to the end of the mapped copy. Neither operand changes. */
    method Sub(other: Vector) returns (r: Vector)
      requires terminal != null && other.terminal != null
      ensures fresh(r) && fresh(r.initial) && r.terminal != null && fresh(r.terminal)
      ensures r.initial.Value() == initial.Value()
      ensures r.terminal.Value() == Minus(terminal.Value(), other.terminal.Value())
    {
      var mag := other.Magnitude();
      var mapped := other.Copy();
      mapped.initial := terminal.Sub(mapped.initial);
      mapped.terminal := terminal.Sub(mapped.terminal);
      var mappedMag := mapped.Magnitude();
      NegationTranslationPreservesMagnitude(other.initial.Value(), other.terminal.Value(), terminal.Value());
      assert mappedMag == mag;
      var i := initial.Copy();
      r := new Vector(i, mapped.terminal);
    }
  }
}
