/** Points of a short Weierstrass curve y^2 = x^3 + a*x + b over a prime
    field, as in ecc.py's `Point`: the group law of section 2.2.1 of SEC 1
    (identity, vertical line, chord, vertical tangent, tangent) and scalar
    multiplication by double-and-add. The point at infinity, which the
    Python code represents by two `None` coordinates, is its own variant. */
module Curve {
  import opened Wrappers
  import opened Arith
  import opened Field

  datatype Point =
    | Identity(a: FieldElement, b: FieldElement)
    | Affine(x: FieldElement, y: FieldElement, a: FieldElement, b: FieldElement)

  /** `_on_curve`: `y**2 == x**3 + a*x + b`, evaluated left to right with the
      field operators (so it can raise) and compared with the field `==`
      (so the prime of y is not compared). */
  function OnCurve(x: FieldElement, y: FieldElement, a: FieldElement, b: FieldElement): (r: Result<bool>)
    requires Valid(x) && Valid(y) && Valid(a) && Valid(b)
    ensures r.Ok? <==> y.prime >= 2 && x.prime >= 2 && a.prime == x.prime && b.prime == x.prime
    ensures r.Err? ==> r.error == (if y.prime < 2 || x.prime < 2 then ModuloByZero else DifferentFields)
  {
    var y2 :- Pow(y, 2);
    var x3 :- Pow(x, 3);
    var ax :- Mul(a, x);
    var t := Field.Add(x3, ax).value;
    var rhs :- Field.Add(t, b);
    Ok(Equal(y2, rhs))
  }

  /** The invariant every constructed point satisfies. */
  predicate ValidPoint(p: Point) {
    && Valid(p.a) && Valid(p.b)
    && (p.Affine? ==> Valid(p.x) && Valid(p.y) && OnCurve(p.x, p.y, p.a, p.b) == Ok(true))
  }

  /** `Point(x, y, a, b)` where `None` stands for a missing coordinate. Both
      `None` is the identity, unchecked. Exactly one `None` raises
      TypeError inside `_on_curve` (`None ** n`), after `y ** 2` has been
      evaluated when only x is missing. Otherwise the curve equation decides. */
  function NewPoint(x: Option<FieldElement>, y: Option<FieldElement>, a: FieldElement, b: FieldElement): (r: Result<Point>)
    requires Valid(a) && Valid(b)
    requires x.Some? ==> Valid(x.value)
    requires y.Some? ==> Valid(y.value)
    ensures x.None? && y.None? ==> r == Ok(Identity(a, b))
    ensures x.Some? && y.None? ==> r == Err(MissingCoordinate)
    ensures x.None? && y.Some? ==> r == Err(if y.value.prime < 2 then ModuloByZero else MissingCoordinate)
    ensures x.Some? && y.Some? ==> (r.Ok? <==> OnCurve(x.value, y.value, a, b) == Ok(true))
    ensures x.Some? && y.Some? && OnCurve(x.value, y.value, a, b) == Ok(false) ==> r == Err(NotOnCurve)
    ensures x.Some? && y.Some? && OnCurve(x.value, y.value, a, b).Err?
            ==> r == Err(OnCurve(x.value, y.value, a, b).error)
    ensures r.Ok? ==> ValidPoint(r.value) && r.value.a == a && r.value.b == b
    ensures r.Ok? && r.value.Affine? ==> r.value.x == x.value && r.value.y == y.value
  {
    if x.None? && y.None? then Ok(Identity(a, b))
    else if y.None? then Err(MissingCoordinate)
    else if x.None? then
      var _ :- Pow(y.value, 2);
      Err(MissingCoordinate)
    else
      var ok :- OnCurve(x.value, y.value, a, b);
      if !ok then Err(NotOnCurve) else Ok(Affine(x.value, y.value, a, b))
  }

  /** A coordinate as the Python object holds it: `None` for the identity. */
  function X(p: Point): Option<FieldElement> {
    if p.Identity? then None else Some(p.x)
  }

  function Y(p: Point): Option<FieldElement> {
    if p.Identity? then None else Some(p.y)
  }

  /** Python's `==` between coordinates that may be `None`: `None == None`,
      `None` equals no element, and elements compare with the field `==`. */
  function CoordinateEqual(u: Option<FieldElement>, v: Option<FieldElement>): (r: bool)
    ensures r <==> (u.None? && v.None?) || (u.Some? && v.Some? && u.value.num == v.value.num)
  {
    match (u, v)
    case (None, None) => true
    case (Some(e), Some(f)) => Equal(e, f)
    case _ => false
  }

  /** Points lie on the same curve when `a` and `b` compare equal, which as
      written compares only their residues. */
  predicate SameCurve(p: Point, q: Point) {
    Equal(p.a, q.a) && Equal(p.b, q.b)
  }

  /** `Point.__eq__`: coordinates, then a and b. */
  function PointEqual(p: Point, q: Point): (r: bool)
    ensures r <==> SameCurve(p, q) &&
                   ((p.Identity? && q.Identity?) ||
                    (p.Affine? && q.Affine? && p.x.num == q.x.num && p.y.num == q.y.num))
  {
    CoordinateEqual(X(p), X(q)) && CoordinateEqual(Y(p), Y(q)) && Equal(p.a, q.a) && Equal(p.b, q.b)
  }

  /** `Point.__ne__`. */
  function PointNotEqual(p: Point, q: Point): (r: bool)
    ensures r <==> !SameCurve(p, q) ||
                   !((p.Identity? && q.Identity?) ||
                     (p.Affine? && q.Affine? && p.x.num == q.x.num && p.y.num == q.y.num))
  {
    !PointEqual(p, q)
  }

  /** Every coordinate and coefficient of both points has the same prime. */
  predicate OverOnePrime(p: Point, q: Point)
    requires p.Affine? && q.Affine?
  {
    var m := p.x.prime;
    p.y.prime == m && p.a.prime == m && p.b.prime == m &&
    q.x.prime == m && q.y.prime == m && q.a.prime == m && q.b.prime == m
  }

  /** The chord branch of `__add__` (distinct x). */
  function Chord(p: Point, q: Point): (r: Result<Point>)
    requires ValidPoint(p) && ValidPoint(q) && p.Affine? && q.Affine?
    requires NotEqual(p.x, q.x)
    ensures r.Ok? ==> ValidPoint(r.value) && r.value.Affine? && r.value.a == p.a && r.value.b == p.b
    ensures r.Err? ==> r.error == DifferentFields || r.error == NotOnCurve
    ensures OverOnePrime(p, q) ==> r.Ok? || r.error == NotOnCurve
  {
    var dy :- Sub(q.y, p.y);
    var dx :- Sub(q.x, p.x);
    SubZero(q.x, p.x);
    var s :- Div(dy, dx);
    var s2 := Pow(s, 2).value;
    var t := Sub(s2, p.x).value;
    var x3 := Sub(t, q.x).value;
    var u := Sub(p.x, x3).value;
    var v := Mul(s, u).value;
    var y3 := Sub(v, p.y).value;
    NewPoint(Some(x3), Some(y3), p.a, p.b)
  }

  /** The tangent (doubling) branch of `__add__`. */
  function Tangent(p: Point): (r: Result<Point>)
    requires ValidPoint(p) && p.Affine?
    ensures r.Ok? ==> ValidPoint(r.value) && r.value.Affine? && r.value.a == p.a && r.value.b == p.b
    ensures r.Err? ==> r.error == DifferentFields || r.error == DivisionByZero || r.error == NotOnCurve
  {
    var x2 := Pow(p.x, 2).value;
    var n := Field.Add(Scale(3, x2), p.a).value;
    var s :- Div(n, Scale(2, p.y));
    var s2 := Pow(s, 2).value;
    var x3 := Sub(s2, Scale(2, p.x)).value;
    var u := Sub(p.x, x3).value;
    var v := Mul(s, u).value;
    var y3 := Sub(v, p.y).value;
    NewPoint(Some(x3), Some(y3), p.a, p.b)
  }

  /** `p + q`: the five-way case analysis, in the order the code tests it.
      The final fall-through cannot be reached. */
  function Add(p: Point, q: Point): (r: Result<Point>)
    requires ValidPoint(p) && ValidPoint(q)
    ensures r == Err(DifferentCurves) <==> !SameCurve(p, q)
    ensures SameCurve(p, q) && p.Identity? ==> r == Ok(q)
    ensures SameCurve(p, q) && p.Affine? && q.Identity? ==> r == Ok(p)
    ensures (SameCurve(p, q) && p.Affine? && q.Affine? && p.x.num == q.x.num && p.y.num != q.y.num)
            ==> r == Ok(Identity(p.a, p.b))
    ensures (SameCurve(p, q) && p.Affine? && q.Affine? && p.x.num == q.x.num && p.y.num == q.y.num == 0)
            ==> r == Ok(Identity(p.a, p.b))
    ensures r.Ok? ==> ValidPoint(r.value) && SameCurve(r.value, p)
    ensures (r.Err? && r.error != DifferentCurves)
            ==> p.Affine? && q.Affine? && (p.x.num != q.x.num || p.y.num == q.y.num != 0)
  {
    if NotEqual(p.a, q.a) || NotEqual(p.b, q.b) then Err(DifferentCurves)
    else if p.Identity? then Ok(q)
    else if q.Identity? then Ok(p)
    else if Equal(p.x, q.x) && NotEqual(p.y, q.y) then NewPoint(None, None, p.a, p.b)
    else if NotEqual(p.x, q.x) then Chord(p, q)
    else
      ScaleByZero(p.x);
      if PointEqual(p, q) && Equal(p.y, Scale(0, p.x)) then NewPoint(None, None, p.a, p.b)
      else if PointEqual(p, q) then Tangent(p)
      else assert false; Err(DifferentCurves)
  }

  // ---------------------------------------------------------------------
  // Laws of the group operation

  /** Two affine points on one curve (a and b equal by num) with distinct x
      are added by the chord. */
  lemma AddIsChord(p: Point, q: Point)
    requires ValidPoint(p) && ValidPoint(q) && p.Affine? && q.Affine?
    requires SameCurve(p, q) && p.x.num != q.x.num
    ensures Add(p, q) == Chord(p, q)
  {
  }

  /** An affine point with nonzero y is added to itself by the tangent. */
  lemma AddIsTangent(p: Point)
    requires ValidPoint(p) && p.Affine? && p.y.num != 0
    ensures Add(p, p) == Tangent(p)
  {
    ScaleByZero(p.x);
    assert SameCurve(p, p) && PointEqual(p, p);
    assert !Equal(p.y, Scale(0, p.x));
  }

  /** Over a field of at least five elements, `_on_curve` decides the curve
      equation y^2 = x^3 + a*x + b modulo the prime. (For primes 2 and 3 the
      exponents 2 and 3 are themselves reduced modulo prime - 1.) */
  lemma OnCurveEquation(x: FieldElement, y: FieldElement, a: FieldElement, b: FieldElement)
    requires Valid(x) && Valid(y) && Valid(a) && Valid(b)
    requires x.prime >= 5 && y.prime == x.prime && a.prime == x.prime && b.prime == x.prime
    ensures OnCurve(x, y, a, b)
            == Ok(Congruent(y.num * y.num, x.num * x.num * x.num + a.num * x.num + b.num, x.prime))
  {
    var m := x.prime;
    DivModUnique(2, 0, 2, m - 1);
    DivModUnique(3, 0, 3, m - 1);
    assert Power(y.num, 2) == y.num * y.num;
    assert Power(x.num, 3) == x.num * x.num * x.num;
    var y2 := Pow(y, 2).value;
    var x3 := Pow(x, 3).value;
    var ax := Mul(a, x).value;
    var t := Field.Add(x3, ax).value;
    var rhs := Field.Add(t, b).value;
    CongruentMod(y.num * y.num, m);
    CongruentMod(x.num * x.num * x.num, m);
    CongruentAdd(x3.num, x.num * x.num * x.num, ax.num, a.num * x.num, m);
    CongruentTransitive(t.num, x3.num + ax.num, x.num * x.num * x.num + a.num * x.num, m);
    CongruentAdd(t.num, x.num * x.num * x.num + a.num * x.num, b.num, b.num, m);
    CongruentTransitive(rhs.num, t.num + b.num, x.num * x.num * x.num + a.num * x.num + b.num, m);
    CongruentResidues(y2.num, y.num * y.num, rhs.num, x.num * x.num * x.num + a.num * x.num + b.num, m);
  }

  /** A point plus its negation (same x, y values adding up to 0 modulo the
      prime) is the identity, over a field of odd order. */
  lemma AddNegation(p: Point, q: Point)
    requires ValidPoint(p) && ValidPoint(q) && p.Affine? && q.Affine?
    requires SameCurve(p, q) && p.x.num == q.x.num
    requires p.y.prime == q.y.prime && p.y.prime % 2 == 1
    requires (p.y.num + q.y.num) % p.y.prime == 0
    ensures Add(p, q) == Ok(Identity(p.a, p.b))
  {
    if p.y.num == q.y.num {
      OddHalf(p.y.num, p.y.prime);
    }
  }

  /** The tangent slope over the field of two elements divides by
      2 * y == 0. */
  lemma TangentAtPrimeTwo(p: Point)
    requires ValidPoint(p) && p.Affine?
    requires p.x.prime == 2 && p.y.prime == 2 && p.a.prime == 2 && p.y.num == 1
    ensures Tangent(p) == Err(DivisionByZero)
  {
    var x2 := Pow(p.x, 2).value;
    var n := Field.Add(Scale(3, x2), p.a).value;
    assert n.prime == 2;
    assert Scale(2, p.y) == FieldElement(0, 2);
  }

  /** Over the field of two elements, doubling a point whose y is 1 divides
      by 2 * y == 0 and raises. */
  lemma DoublingAtPrimeTwo(p: Point)
    requires ValidPoint(p) && p.Affine?
    requires p.x.prime == 2 && p.y.prime == 2 && p.a.prime == 2 && p.y.num == 1
    ensures Add(p, p) == Err(DivisionByZero)
  {
    ScaleByZero(p.x);
    assert Add(p, p) == Tangent(p);
    TangentAtPrimeTwo(p);
  }

  // ---------------------------------------------------------------------
  // The coordinates computed by the chord and the tangent, as residues

  /** The slope the chord branch computes modulo m for the chord through
      (x1, y1) and (x2, y2): (y2 - y1) * (x2 - x1)^(m - 2). */
  function ChordSlope(x1: int, y1: int, x2: int, y2: int, m: int): int
    requires m >= 2
  {
    (((y2 - y1) % m) * Power((x2 - x1) % m, m - 2)) % m
  }

  /** The x coordinate of the chord sum: s^2 - x1 - x2. */
  function ChordX3(x1: int, y1: int, x2: int, y2: int, m: int): int
    requires m >= 2
  {
    var s := ChordSlope(x1, y1, x2, y2, m);
    (s * s - x1 - x2) % m
  }

  /** The y coordinate of the chord sum: s * (x1 - x3) - y1. */
  function ChordY3(x1: int, y1: int, x2: int, y2: int, m: int): int
    requires m >= 2
  {
    (ChordSlope(x1, y1, x2, y2, m) * (x1 - ChordX3(x1, y1, x2, y2, m)) - y1) % m
  }

  /** The slope the tangent branch computes modulo m at (x1, y1) on a curve
      with coefficient a: (3 * x1^2 + a) * (2 * y1)^(m - 2). */
  function TangentSlope(x1: int, y1: int, a: int, m: int): int
    requires m >= 2
  {
    (((3 * x1 * x1 + a) % m) * Power((2 * y1) % m, m - 2)) % m
  }

  /** The x coordinate of the doubled point: s^2 - 2 * x1. */
  function TangentX3(x1: int, y1: int, a: int, m: int): int
    requires m >= 2
  {
    var s := TangentSlope(x1, y1, a, m);
    (s * s - 2 * x1) % m
  }

  /** The y coordinate of the doubled point: s * (x1 - x3) - y1. */
  function TangentY3(x1: int, y1: int, a: int, m: int): int
    requires m >= 2
  {
    (TangentSlope(x1, y1, a, m) * (x1 - TangentX3(x1, y1, a, m)) - y1) % m
  }

  /** The x-coordinate of the chord branch, s^2 - x1 - x2. */
  lemma ChordX(s: FieldElement, x1: FieldElement, x2: FieldElement)
    requires Valid(s) && Valid(x1) && Valid(x2)
    requires s.prime >= 4 && x1.prime == s.prime && x2.prime == s.prime
    ensures Congruent(Sub(Sub(Pow(s, 2).value, x1).value, x2).value.num,
                      s.num * s.num - x1.num - x2.num, s.prime)
  {
    var m := s.prime;
    Square(s);
    var s2 := Pow(s, 2).value;
    CongruentMod(s.num * s.num, m);
    var t := Sub(s2, x1).value;
    CongruentSub(s2.num, s.num * s.num, x1.num, x1.num, m);
    CongruentTransitive(t.num, s2.num - x1.num, s.num * s.num - x1.num, m);
    var x3 := Sub(t, x2).value;
    CongruentSub(t.num, s.num * s.num - x1.num, x2.num, x2.num, m);
    CongruentTransitive(x3.num, t.num - x2.num, s.num * s.num - x1.num - x2.num, m);
  }

  /** The x-coordinate of the tangent branch, s^2 - 2 * x1. */
  lemma TangentX(s: FieldElement, x1: FieldElement)
    requires Valid(s) && Valid(x1) && s.prime >= 4 && x1.prime == s.prime
    ensures Congruent(Sub(Pow(s, 2).value, Scale(2, x1)).value.num,
                      s.num * s.num - 2 * x1.num, s.prime)
  {
    var m := s.prime;
    Square(s);
    var s2 := Pow(s, 2).value;
    CongruentMod(s.num * s.num, m);
    var c2 := Scale(2, x1);
    CongruentSub(s2.num, s.num * s.num, c2.num, x1.num * 2, m);
    CongruentTransitive(Sub(s2, c2).value.num, s2.num - c2.num, s.num * s.num - x1.num * 2, m);
  }

  /** The y-coordinate both branches compute, s * (x1 - x3) - y1. */
  lemma LineY(s: FieldElement, x1: FieldElement, x3: FieldElement, y1: FieldElement)
    requires Valid(s) && Valid(x1) && Valid(x3) && Valid(y1)
    requires x1.prime == s.prime && x3.prime == s.prime && y1.prime == s.prime
    ensures Congruent(Sub(Mul(s, Sub(x1, x3).value).value, y1).value.num,
                      s.num * (x1.num - x3.num) - y1.num, s.prime)
  {
    var m := s.prime;
    var u := Sub(x1, x3).value;
    var v := Mul(s, u).value;
    CongruentMulLeft(s.num, u.num, x1.num - x3.num, m);
    CongruentTransitive(v.num, s.num * u.num, s.num * (x1.num - x3.num), m);
    CongruentSub(v.num, s.num * (x1.num - x3.num), y1.num, y1.num, m);
    CongruentTransitive(Sub(v, y1).value.num, v.num - y1.num, s.num * (x1.num - x3.num) - y1.num, m);
  }

  /** The numerator of the tangent slope, 3 * x1^2 + a. */
  lemma TangentNumerator(x1: FieldElement, a: FieldElement)
    requires Valid(x1) && Valid(a) && x1.prime >= 4 && a.prime == x1.prime
    ensures Field.Add(Scale(3, Pow(x1, 2).value), a).value.num
            == (3 * x1.num * x1.num + a.num) % x1.prime
  {
    var m := x1.prime;
    var sq := x1.num * x1.num;
    assert 3 * sq == 3 * x1.num * x1.num;
    Square(x1);
    var x2 := FieldElement(sq % m, m);
    CongruentMod(sq, m);
    var sc := Scale(3, x2);
    CongruentMulLeft(3, x2.num, sq, m);
    CongruentTransitive(sc.num, 3 * x2.num, 3 * sq, m);
    var n := Field.Add(sc, a).value;
    CongruentAdd(sc.num, 3 * sq, a.num, a.num, m);
    CongruentTransitive(n.num, sc.num + a.num, 3 * sq + a.num, m);
    ResidueOf(n.num, 3 * sq + a.num, m);
  }

  /** The slope of the chord branch, from its difference quotient. */
  lemma ChordSlopeValue(x1: FieldElement, y1: FieldElement, x2: FieldElement, y2: FieldElement,
                        dy: FieldElement, dx: FieldElement, s: FieldElement)
    requires Valid(x1) && Valid(y1) && Valid(x2) && Valid(y2)
    requires x1.prime >= 4 && y1.prime == x1.prime && x2.prime == x1.prime && y2.prime == x1.prime
    requires Sub(y2, y1) == Ok(dy) && Sub(x2, x1) == Ok(dx) && Div(dy, dx) == Ok(s)
    ensures s.num == ChordSlope(x1.num, y1.num, x2.num, y2.num, x1.prime)
  {
    DivValue(dy, dx);
  }

  /** The slope of the tangent branch, from its difference quotient. */
  lemma TangentSlopeValue(x1: FieldElement, y1: FieldElement, a: FieldElement, x2: FieldElement,
                          n: FieldElement, s: FieldElement)
    requires Valid(x1) && Valid(y1) && Valid(a)
    requires x1.prime >= 4 && y1.prime == x1.prime && a.prime == x1.prime
    requires Pow(x1, 2) == Ok(x2) && Field.Add(Scale(3, x2), a) == Ok(n) && Div(n, Scale(2, y1)) == Ok(s)
    ensures s.num == TangentSlope(x1.num, y1.num, a.num, x1.prime)
  {
    TangentNumerator(x1, a);
    assert Scale(2, y1).num == (2 * y1.num) % x1.prime;
    DivValue(n, Scale(2, y1));
  }

  /** The coordinates of the chord branch for a slope of residue sn. */
  lemma ChordThird(x1: FieldElement, y1: FieldElement, x2: FieldElement, s: FieldElement, s2: FieldElement,
                   t: FieldElement, x3: FieldElement, u: FieldElement, v: FieldElement, y3: FieldElement, sn: int)
    requires Valid(x1) && Valid(y1) && Valid(x2) && Valid(s) && s.num == sn
    requires s.prime >= 4 && x1.prime == s.prime && y1.prime == s.prime && x2.prime == s.prime
    requires Pow(s, 2) == Ok(s2) && Sub(s2, x1) == Ok(t) && Sub(t, x2) == Ok(x3)
    requires Sub(x1, x3) == Ok(u) && Mul(s, u) == Ok(v) && Sub(v, y1) == Ok(y3)
    ensures x3.num == (sn * sn - x1.num - x2.num) % s.prime
    ensures y3.num == (sn * (x1.num - x3.num) - y1.num) % s.prime
  {
    ChordX(s, x1, x2);
    ResidueOf(x3.num, s.num * s.num - x1.num - x2.num, s.prime);
    LineY(s, x1, x3, y1);
    ResidueOf(y3.num, s.num * (x1.num - x3.num) - y1.num, s.prime);
  }

  /** The coordinates of the tangent branch for a slope of residue sn. */
  lemma TangentThird(x1: FieldElement, y1: FieldElement, s: FieldElement, s2: FieldElement,
                     x3: FieldElement, u: FieldElement, v: FieldElement, y3: FieldElement, sn: int)
    requires Valid(x1) && Valid(y1) && Valid(s) && s.num == sn
    requires s.prime >= 4 && x1.prime == s.prime && y1.prime == s.prime
    requires Pow(s, 2) == Ok(s2) && Sub(s2, Scale(2, x1)) == Ok(x3)
    requires Sub(x1, x3) == Ok(u) && Mul(s, u) == Ok(v) && Sub(v, y1) == Ok(y3)
    ensures x3.num == (sn * sn - 2 * x1.num) % s.prime
    ensures y3.num == (sn * (x1.num - x3.num) - y1.num) % s.prime
  {
    TangentX(s, x1);
    ResidueOf(x3.num, s.num * s.num - 2 * x1.num, s.prime);
    LineY(s, x1, x3, y1);
    ResidueOf(y3.num, s.num * (x1.num - x3.num) - y1.num, s.prime);
  }

  /** The intermediate values of the chord branch through (x1, y1) and
      (x2, y2), in the order the code computes them. */
  predicate ChordSteps(x1: FieldElement, y1: FieldElement, x2: FieldElement, y2: FieldElement,
                       dy: FieldElement, dx: FieldElement, s: FieldElement, s2: FieldElement,
                       t: FieldElement, x3: FieldElement, u: FieldElement, v: FieldElement, y3: FieldElement)
  {
    && Valid(x1) && Valid(y1) && Valid(x2) && Valid(y2)
    && Sub(y2, y1) == Ok(dy) && Sub(x2, x1) == Ok(dx) && Div(dy, dx) == Ok(s)
    && Pow(s, 2) == Ok(s2) && Sub(s2, x1) == Ok(t) && Sub(t, x2) == Ok(x3)
    && Sub(x1, x3) == Ok(u) && Mul(s, u) == Ok(v) && Sub(v, y1) == Ok(y3)
  }

  /** The intermediate values of the tangent branch at (x1, y1) on a curve
      with coefficient a, in the order the code computes them. */
  predicate TangentSteps(x1: FieldElement, y1: FieldElement, a: FieldElement, x2: FieldElement,
                         n: FieldElement, s: FieldElement, s2: FieldElement, x3: FieldElement,
                         u: FieldElement, v: FieldElement, y3: FieldElement)
  {
    && Valid(x1) && Valid(y1) && Valid(a)
    && Pow(x1, 2) == Ok(x2) && Field.Add(Scale(3, x2), a) == Ok(n)
    && Div(n, Scale(2, y1)) == Ok(s) && Pow(s, 2) == Ok(s2) && Sub(s2, Scale(2, x1)) == Ok(x3)
    && Sub(x1, x3) == Ok(u) && Mul(s, u) == Ok(v) && Sub(v, y1) == Ok(y3)
  }

  /** The chord coordinates computed from the intermediate values of the
      chord branch through (x1, y1) and (x2, y2). */
  lemma ChordCoordinates(x1: FieldElement, y1: FieldElement, x2: FieldElement, y2: FieldElement,
                         dy: FieldElement, dx: FieldElement, s: FieldElement, s2: FieldElement,
                         t: FieldElement, x3: FieldElement, u: FieldElement, v: FieldElement, y3: FieldElement)
    requires ChordSteps(x1, y1, x2, y2, dy, dx, s, s2, t, x3, u, v, y3)
    requires x1.prime >= 4 && y1.prime == x1.prime && x2.prime == x1.prime && y2.prime == x1.prime
    ensures x3 == FieldElement(ChordX3(x1.num, y1.num, x2.num, y2.num, x1.prime), x1.prime)
    ensures y3 == FieldElement(ChordY3(x1.num, y1.num, x2.num, y2.num, x1.prime), x1.prime)
  {
    ChordSlopeValue(x1, y1, x2, y2, dy, dx, s);
    ChordThird(x1, y1, x2, s, s2, t, x3, u, v, y3, ChordSlope(x1.num, y1.num, x2.num, y2.num, x1.prime));
  }

  /** The doubling coordinates computed from the intermediate values of the
      tangent branch at (x1, y1) on a curve with coefficient a. */
  lemma TangentCoordinates(x1: FieldElement, y1: FieldElement, a: FieldElement, x2: FieldElement,
                           n: FieldElement, s: FieldElement, s2: FieldElement, x3: FieldElement,
                           u: FieldElement, v: FieldElement, y3: FieldElement)
    requires TangentSteps(x1, y1, a, x2, n, s, s2, x3, u, v, y3)
    requires x1.prime >= 4 && y1.prime == x1.prime && a.prime == x1.prime
    ensures x3 == FieldElement(TangentX3(x1.num, y1.num, a.num, x1.prime), x1.prime)
    ensures y3 == FieldElement(TangentY3(x1.num, y1.num, a.num, x1.prime), x1.prime)
  {
    TangentSlopeValue(x1, y1, a, x2, n, s);
    TangentThird(x1, y1, s, s2, x3, u, v, y3, TangentSlope(x1.num, y1.num, a.num, x1.prime));
  }

  /** The chord branch evaluated from the values of its intermediate terms. */
  lemma ChordOf(p: Point, q: Point, dy: FieldElement, dx: FieldElement, s: FieldElement,
                s2: FieldElement, t: FieldElement, x3: FieldElement, u: FieldElement,
                v: FieldElement, y3: FieldElement)
    requires ValidPoint(p) && ValidPoint(q) && p.Affine? && q.Affine? && NotEqual(p.x, q.x)
    requires Sub(q.y, p.y) == Ok(dy) && Sub(q.x, p.x) == Ok(dx) && Div(dy, dx) == Ok(s)
    requires Pow(s, 2) == Ok(s2) && Sub(s2, p.x) == Ok(t) && Sub(t, q.x) == Ok(x3)
    requires Sub(p.x, x3) == Ok(u) && Mul(s, u) == Ok(v) && Sub(v, p.y) == Ok(y3)
    ensures Chord(p, q) == NewPoint(Some(x3), Some(y3), p.a, p.b)
  {
  }

  /** The tangent branch evaluated from the values of its intermediate terms. */
  lemma TangentOf(p: Point, x2: FieldElement, n: FieldElement, s: FieldElement, s2: FieldElement,
                  x3: FieldElement, u: FieldElement, v: FieldElement, y3: FieldElement)
    requires ValidPoint(p) && p.Affine?
    requires TangentSteps(p.x, p.y, p.a, x2, n, s, s2, x3, u, v, y3)
    ensures Tangent(p) == NewPoint(Some(x3), Some(y3), p.a, p.b)
  {
  }

  /** A point built from the chord intermediates has the chord coordinates. */
  lemma ChordResult(r: Result<Point>, a: FieldElement, b: FieldElement,
                    x1: FieldElement, y1: FieldElement, x2: FieldElement, y2: FieldElement,
                    dy: FieldElement, dx: FieldElement, s: FieldElement, s2: FieldElement,
                    t: FieldElement, x3: FieldElement, u: FieldElement, v: FieldElement, y3: FieldElement)
    requires Valid(a) && Valid(b) && ChordSteps(x1, y1, x2, y2, dy, dx, s, s2, t, x3, u, v, y3)
    requires x1.prime >= 4 && y1.prime == x1.prime && x2.prime == x1.prime && y2.prime == x1.prime
    requires r == NewPoint(Some(x3), Some(y3), a, b)
    ensures r == NewPoint(Some(FieldElement(ChordX3(x1.num, y1.num, x2.num, y2.num, x1.prime), x1.prime)),
                          Some(FieldElement(ChordY3(x1.num, y1.num, x2.num, y2.num, x1.prime), x1.prime)), a, b)
  {
    ChordCoordinates(x1, y1, x2, y2, dy, dx, s, s2, t, x3, u, v, y3);
  }

  /** Over one field of at least four elements, the chord branch builds the
      point of section 2.2.1 of SEC 1, x3 = s^2 - x1 - x2 and
      y3 = s * (x1 - x3) - y1, through the validating constructor, with the
      slope s the code computes, (y2 - y1) * (x2 - x1)^(prime - 2). */
  lemma ChordValue(p: Point, q: Point)
    requires ValidPoint(p) && ValidPoint(q) && p.Affine? && q.Affine? && NotEqual(p.x, q.x)
    requires OverOnePrime(p, q) && p.x.prime >= 4
    ensures Chord(p, q) == NewPoint(Some(FieldElement(ChordX3(p.x.num, p.y.num, q.x.num, q.y.num, p.x.prime), p.x.prime)),
                                    Some(FieldElement(ChordY3(p.x.num, p.y.num, q.x.num, q.y.num, p.x.prime), p.x.prime)),
                                    p.a, p.b)
  {
    var dy := Sub(q.y, p.y).value;
    var dx := Sub(q.x, p.x).value;
    SubZero(q.x, p.x);
    var s := Div(dy, dx).value;
    var s2 := Pow(s, 2).value;
    var t := Sub(s2, p.x).value;
    var x3 := Sub(t, q.x).value;
    var u := Sub(p.x, x3).value;
    var v := Mul(s, u).value;
    var y3 := Sub(v, p.y).value;
    assert ChordSteps(p.x, p.y, q.x, q.y, dy, dx, s, s2, t, x3, u, v, y3);
    ChordOf(p, q, dy, dx, s, s2, t, x3, u, v, y3);
    ChordResult(Chord(p, q), p.a, p.b, p.x, p.y, q.x, q.y, dy, dx, s, s2, t, x3, u, v, y3);
  }

  /** A point built from the tangent intermediates has the doubling coordinates. */
  lemma TangentResult(r: Result<Point>, b: FieldElement, x1: FieldElement, y1: FieldElement,
                      a: FieldElement, x2: FieldElement, n: FieldElement, s: FieldElement,
                      s2: FieldElement, x3: FieldElement, u: FieldElement, v: FieldElement, y3: FieldElement)
    requires Valid(b) && TangentSteps(x1, y1, a, x2, n, s, s2, x3, u, v, y3)
    requires x1.prime >= 4 && y1.prime == x1.prime && a.prime == x1.prime
    requires r == NewPoint(Some(x3), Some(y3), a, b)
    ensures r == NewPoint(Some(FieldElement(TangentX3(x1.num, y1.num, a.num, x1.prime), x1.prime)),
                          Some(FieldElement(TangentY3(x1.num, y1.num, a.num, x1.prime), x1.prime)), a, b)
  {
    TangentCoordinates(x1, y1, a, x2, n, s, s2, x3, u, v, y3);
  }

  /** Over one field of at least four elements, the tangent branch raises
      DivisionByZero when 2 * y1 is 0, and otherwise builds the doubled point
      of section 2.2.1 of SEC 1, x3 = s^2 - 2 * x1 and y3 = s * (x1 - x3) - y1,
      through the validating constructor, with the slope s the code computes,
      (3 * x1^2 + a) * (2 * y1)^(prime - 2). */
  lemma TangentValue(p: Point)
    requires ValidPoint(p) && p.Affine? && OverOnePrime(p, p) && p.x.prime >= 4
    ensures (2 * p.y.num) % p.x.prime == 0 ==> Tangent(p) == Err(DivisionByZero)
    ensures (2 * p.y.num) % p.x.prime != 0 ==>
            Tangent(p) == NewPoint(Some(FieldElement(TangentX3(p.x.num, p.y.num, p.a.num, p.x.prime), p.x.prime)),
                                   Some(FieldElement(TangentY3(p.x.num, p.y.num, p.a.num, p.x.prime), p.x.prime)),
                                   p.a, p.b)
  {
    var x2 := Pow(p.x, 2).value;
    var n := Field.Add(Scale(3, x2), p.a).value;
    var d := Scale(2, p.y);
    assert d.num == (2 * p.y.num) % p.x.prime;
    if d.num != 0 {
      var s := Div(n, d).value;
      var s2 := Pow(s, 2).value;
      var x3 := Sub(s2, Scale(2, p.x)).value;
      var u := Sub(p.x, x3).value;
      var v := Mul(s, u).value;
      var y3 := Sub(v, p.y).value;
      assert TangentSteps(p.x, p.y, p.a, x2, n, s, s2, x3, u, v, y3);
      TangentOf(p, x2, n, s, s2, x3, u, v, y3);
      TangentResult(Tangent(p), p.b, p.x, p.y, p.a, x2, n, s, s2, x3, u, v, y3);
    }
  }

  // ---------------------------------------------------------------------
  // Scalar multiplication

  /** The double-and-add loop of `__rmul__` as a recursive definition: with
      `result` accumulated so far and `current` the point for the lowest
      remaining bit of k. An exception in any addition ends the computation. */
  function DoubleAndAdd(k: nat, current: Point, result: Point): (r: Result<Point>)
    requires ValidPoint(current) && ValidPoint(result)
    ensures r.Ok? ==> ValidPoint(r.value)
    decreases k
  {
    if k == 0 then Ok(result)
    else
      var result' :- if k % 2 == 1 then Add(result, current) else Ok(result);
      var current' :- Add(current, current);
      DoubleAndAdd(k / 2, current', result')
  }

  /** `coefficient * p` by the loop of ecc.py, which runs once per bit of
      the coefficient. */
  method ScalarMultiply(coefficient: int, p: Point) returns (r: Result<Point>, ghost iterations: nat)
    requires coefficient >= 0
    requires ValidPoint(p)
    ensures r == DoubleAndAdd(coefficient, p, Identity(p.a, p.b))
    ensures r.Ok? ==> ValidPoint(r.value) && iterations == BitLength(coefficient)
    ensures iterations <= BitLength(coefficient)
  {
    var coef := coefficient;
    var current := p;
    var result := Identity(p.a, p.b);
    iterations := 0;
    while coef != 0
      invariant coef >= 0
      invariant ValidPoint(current) && ValidPoint(result)
      invariant DoubleAndAdd(coef, current, result) == DoubleAndAdd(coefficient, p, Identity(p.a, p.b))
      invariant iterations + BitLength(coef) == BitLength(coefficient)
      decreases coef
    {
      if coef % 2 == 1 {
        var sum := Add(result, current);
        if sum.Err? {
          r := Err(sum.error);
          return;
        }
        result := sum.value;
      }
      var twice := Add(current, current);
      if twice.Err? {
        r := Err(twice.error);
        return;
      }
      current := twice.value;
      coef := coef / 2;
      iterations := iterations + 1;
    }
    r := Ok(result);
  }

  /** The commented-out loop of `__rmul__`: n-fold repeated addition. */
  function NaiveMultiply(n: nat, p: Point): (r: Result<Point>)
    requires ValidPoint(p)
    ensures r.Ok? ==> ValidPoint(r.value)
    decreases n
  {
    if n == 0 then Ok(Identity(p.a, p.b))
    else
      var product :- NaiveMultiply(n - 1, p);
      Add(product, p)
  }

  /** `0 * p` is the identity and `1 * p` is p, except that the loop also
      doubles p once more and so raises whatever that doubling raises. The
      repeated addition gives the identity and p unconditionally. */
  lemma MultiplyByZeroAndOne(p: Point)
    requires ValidPoint(p)
    ensures DoubleAndAdd(0, p, Identity(p.a, p.b)) == Ok(Identity(p.a, p.b))
    ensures DoubleAndAdd(1, p, Identity(p.a, p.b))
            == (if Add(p, p).Ok? then Ok(p) else Err(Add(p, p).error))
    ensures NaiveMultiply(0, p) == Ok(Identity(p.a, p.b))
    ensures NaiveMultiply(1, p) == Ok(p)
  {
  }

  /** The two loops disagree already for 1 * p. Over the field of two
      elements `__pow__` reduces every exponent to 0, so (0, 1) passes the
      check of y^2 = x^3; repeated addition returns it, while the
      double-and-add loop doubles it once more and raises. */
  lemma MultiplyByOneRaisesOnlyFast()
    ensures var p := Affine(FieldElement(0, 2), FieldElement(1, 2), FieldElement(0, 2), FieldElement(0, 2));
            && ValidPoint(p)
            && NaiveMultiply(1, p) == Ok(p)
            && DoubleAndAdd(1, p, Identity(p.a, p.b)) == Err(DivisionByZero)
  {
    var p := Affine(FieldElement(0, 2), FieldElement(1, 2), FieldElement(0, 2), FieldElement(0, 2));
    assert 2 % 1 == 0 && 3 % 1 == 0;
    assert OnCurve(p.x, p.y, p.a, p.b) == Ok(true);
    DoublingAtPrimeTwo(p);
    MultiplyByZeroAndOne(p);
  }

  /** `2 * p` agrees with repeated addition p + p unless p + p succeeds and
      the loop's second doubling raises. When p + p itself raises, both
      raise that error. */
  lemma MultiplyByTwo(p: Point)
    requires ValidPoint(p)
    requires Add(p, p).Ok? ==> Add(Add(p, p).value, Add(p, p).value).Ok?
    ensures DoubleAndAdd(2, p, Identity(p.a, p.b)) == NaiveMultiply(2, p) == Add(p, p)
  {
    assert Add(Identity(p.a, p.b), p) == Ok(p);
    if Add(p, p).Ok? {
      var twice := Add(p, p).value;
      assert SameCurve(twice, p);
      assert DoubleAndAdd(2, p, Identity(p.a, p.b)) == DoubleAndAdd(1, twice, Identity(p.a, p.b));
      assert Add(Identity(p.a, p.b), twice) == Ok(twice);
    }
  }
}
