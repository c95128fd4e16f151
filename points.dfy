/** The 2D point of mathystuff/vectors.py: a value view `Pt` with the arithmetic the
    operators compute, and a class `Point` whose operators build fresh points or, for the
    in-place forms `*=` and `**=`, overwrite `x` and `y` in the order the source does. */
module Points {

  /** The coordinates of a point, as a value. */
  datatype Pt = Pt(x: real, y: real)

  /** Python's `pow(b, e)` for a natural exponent; `pow(0, 0)` is 1. */
  function Power(b: real, e: nat): real
  {
    if e == 0 then 1.0 else b * Power(b, e - 1)
  }

  /** A real that is a natural number, the only exponents this model raises to. */
  predicate IsNat(r: real)
  {
    0.0 <= r && r == r.Floor as real
  }

  function AsNat(r: real): (n: nat)
    requires IsNat(r)
    ensures n as real == r
  {
    r.Floor
  }

  // ---------------------------------------------------------------------------
  // What the operators compute

  /** `a + b` */
  function Plus(a: Pt, b: Pt): Pt
  {
    Pt(a.x + b.x, a.y + b.y)
  }

  /** `a - b` */
  function Minus(a: Pt, b: Pt): Pt
  {
    Pt(a.x - b.x, a.y - b.y)
  }

  /** `a * b`, componentwise; also `a *= b` with a point `b`. */
  function Times(a: Pt, b: Pt): Pt
  {
    Pt(a.x * b.x, a.y * b.y)
  }

  /** `a *= k` with a number `k`. */
  function Scaled(a: Pt, k: real): Pt
  {
    Pt(a.x * k, a.y * k)
  }

  /** `a / b`, componentwise; the source raises on a zero component of `b`. */
  function Quotient(a: Pt, b: Pt): Pt
    requires b.x != 0.0 && b.y != 0.0
  {
    Pt(a.x / b.x, a.y / b.y)
  }

  /** `a **= e` with a number `e`, as written: `x` is raised first and `y` is then
      set from the already raised `x`. */
  function PowScalar(a: Pt, e: nat): Pt
  {
    var x := Power(a.x, e);
    Pt(x, Power(x, e))
  }

  /** `a **= q` with a point `q`: each component raised to its own exponent. */
  function PowByPoint(a: Pt, q: Pt): Pt
    requires IsNat(q.x) && IsNat(q.y)
  {
    Pt(Power(a.x, AsNat(q.x)), Power(a.y, AsNat(q.y)))
  }

  /** The scalar power the commented-out lines beside it describe: both components
      raised independently. */
  function PowScalarComponentwise(a: Pt, e: nat): Pt
  {
    Pt(Power(a.x, e), Power(a.y, e))
  }

  // ---------------------------------------------------------------------------
  // Properties of the operators

  lemma PowerSquare(b: real)
    ensures Power(b, 2) == b * b
    ensures Power(b, 2) >= 0.0
    ensures Power(b, 2) == 0.0 <==> b == 0.0
  {
    assert Power(b, 2) == b * Power(b, 1);
  }

  lemma {:induction false} PowerAdd(b: real, m: nat, n: nat)
    ensures Power(b, m + n) == Power(b, m) * Power(b, n)
    decreases m
  {
    if m > 0 {
      PowerAdd(b, m - 1, n);
      assert Power(b, m + n) == b * Power(b, (m - 1) + n);
    }
  }

  lemma {:induction false} PowerPower(b: real, m: nat, n: nat)
    ensures Power(Power(b, m), n) == Power(b, m * n)
    decreases n
  {
    if n > 0 {
      PowerPower(b, m, n - 1);
      PowerAdd(b, m, m * (n - 1));
      assert m * n == m + m * (n - 1);
    }
  }

  /** Subtracting what was added gives the point back, and the other way round. */
  lemma PlusMinusCancel(a: Pt, b: Pt)
    ensures Minus(Plus(a, b), b) == a
    ensures Plus(Minus(a, b), b) == a
  {
  }

  /** Dividing by a point with no zero component undoes multiplying by it. */
  lemma TimesQuotientCancel(a: Pt, b: Pt)
    requires b.x != 0.0 && b.y != 0.0
    ensures Quotient(Times(a, b), b) == a
    ensures Times(Quotient(a, b), b) == a
  {
  }

  /** Scaling by a number is multiplying by the point with that number twice, and two
      scalings compose by multiplying their factors. */
  lemma ScaledIsTimes(a: Pt, k: real, m: real)
    ensures Scaled(a, k) == Times(a, Pt(k, k))
    ensures Scaled(Scaled(a, k), m) == Scaled(a, k * m)
    ensures Scaled(a, 1.0) == a
  {
  }

  /** The scalar power as written: `x` becomes `x^e`, `y` becomes `x^(e*e)`; the old `y`
      plays no part. */
  lemma {:induction false} PowScalarComponents(a: Pt, b: Pt, e: nat)
    ensures PowScalar(a, e).x == Power(a.x, e)
    ensures PowScalar(a, e).y == Power(a.x, e * e)
    ensures a.x == b.x ==> PowScalar(a, e) == PowScalar(b, e)
  {
    PowerPower(a.x, e, e);
  }

  /** With a point exponent `**=` is componentwise, and the independent scalar power is the
      point power with the same exponent twice. */
  lemma PowByPointComponentwise(a: Pt, e: nat)
    ensures PowByPoint(a, Pt(e as real, e as real)) == PowScalarComponentwise(a, e)
  {
    assert AsNat(e as real) == e;
  }

  /** The scalar power as written agrees with the point power `(e, e)` exactly when the
      new `y`, `x^(e*e)`, equals `y^e`. */
  lemma PowScalarAgreesWithPointIff(a: Pt, e: nat)
    ensures PowScalar(a, e) == PowByPoint(a, Pt(e as real, e as real))
        <==> Power(a.x, e * e) == Power(a.y, e)
  {
    PowScalarComponents(a, a, e);
    PowByPointComponentwise(a, e);
  }

  /** The scalar `**` as written, on (3, 4) with exponent 2, gives (9, 81) and not the
      componentwise (9, 16). */
  lemma PowScalarAsWrittenCounterexample()
    ensures PowScalar(Pt(3.0, 4.0), 2) == Pt(9.0, 81.0)
    ensures PowScalarComponentwise(Pt(3.0, 4.0), 2) == Pt(9.0, 16.0)
  {
    assert Power(3.0, 2) == 9.0;
    assert Power(9.0, 2) == 81.0;
    assert Power(4.0, 2) == 16.0;
  }

  // ---------------------------------------------------------------------------
  // The mutable point

  /** An operand of `*`, `*=`, `**` and `**=`: a number or another point. */
  datatype Operand = Number(n: real) | PointOperand(p: Point)

  class Point {
    var x: real
    var y: real

    /** The coordinates as a value. */
    function Value(): Pt
      reads this
    {
      Pt(x, y)
    }

    constructor (x0: real, y0: real)
      ensures Value() == Pt(x0, y0)
    {
      x := x0;
      y := y0;
    }

    /** `copy`: an independent point with the same coordinates. */
    method Copy() returns (p: Point)
      ensures fresh(p) && p.Value() == Value()
    {
      p := new Point(x, y);
    }

    /** `__add__`: a fresh point; neither operand changes. */
    method Add(other: Point) returns (p: Point)
      ensures fresh(p) && p.Value() == Plus(Value(), other.Value())
    {
      p := new Point(x + other.x, y + other.y);
    }

    /** `__sub__`: a fresh point; neither operand changes. */
    method Sub(other: Point) returns (p: Point)
      ensures fresh(p) && p.Value() == Minus(Value(), other.Value())
    {
      p := new Point(x - other.x, y - other.y);
    }

    /** `__mul__`: componentwise with another point. */
    method Mul(other: Point) returns (p: Point)
      ensures fresh(p) && p.Value() == Times(Value(), other.Value())
    {
      p := new Point(x * other.x, y * other.y);
    }

    /** `__div__`: componentwise; a zero component of `other` is a division error in the
        source, which its callers must avoid. */
    method Div(other: Point) returns (p: Point)
      requires other.x != 0.0 && other.y != 0.0
      ensures fresh(p) && p.Value() == Quotient(Value(), other.Value())
    {
      p := new Point(x / other.x, y / other.y);
    }

    /** `__imul__`: scales by a number or multiplies componentwise by a point, in place,
        and returns the receiver. `p *= p` squares both components. */
    method MulAssign(other: Operand) returns (r: Point)
      modifies this
      ensures r == this
      ensures other.Number? ==> Value() == Scaled(old(Value()), other.n)
      ensures other.PointOperand? ==> Value() == Times(old(Value()), old(other.p.Value()))
    {
      match other {
        case Number(k) =>
          x := x * k;
          y := y * k;
        case PointOperand(q) =>
          x := x * q.x;
          y := y * q.y;
      }
      r := this;
    }

    /** `__ipow__`: raises in place and returns the receiver. With a number the second
        assignment reads the `x` the first one wrote. */
    method PowAssign(other: Operand) returns (r: Point)
      requires other.Number? ==> IsNat(other.n)
      requires other.PointOperand? ==> IsNat(other.p.x) && IsNat(other.p.y)
      modifies this
      ensures r == this
      ensures other.Number? ==> Value() == PowScalar(old(Value()), AsNat(other.n))
      ensures other.PointOperand? ==> Value() == PowByPoint(old(Value()), old(other.p.Value()))
    {
      match other {
        case Number(k) =>
          x := Power(x, AsNat(k));
          y := Power(x, AsNat(k));
        case PointOperand(q) =>
          x := Power(x, AsNat(q.x));
          y := Power(y, AsNat(q.y));
      }
      r := this;
    }

    /** `__pow__`: `**=` applied to a copy, so the receiver keeps its coordinates. */
    method Pow(other: Operand) returns (p: Point)
      requires other.Number? ==> IsNat(other.n)
      requires other.PointOperand? ==> IsNat(other.p.x) && IsNat(other.p.y)
      ensures fresh(p)
      ensures other.Number? ==> p.Value() == PowScalar(Value(), AsNat(other.n))
      ensures other.PointOperand? ==> p.Value() == PowByPoint(Value(), other.p.Value())
    {
      p := Copy();
      p := p.PowAssign(other);
    }
  }
}
