/** Integer facts behind the field arithmetic: Python's `%` with a positive
    divisor (which is Dafny's Euclidean `%`), the mathematical power b^n and
    the three-argument builtin `pow(b, n, m)`, computed by repeated squaring. */
module Arith {

  /** x and y leave the same remainder modulo m. */
  predicate Congruent(x: int, y: int, m: int)
    requires m > 0
  {
    (x - y) % m == 0
  }

  /** b raised to the n-th power, with b^0 == 1 (also for b == 0). */
  function Power(b: int, n: nat): int
    decreases n
  {
    if n == 0 then 1 else b * Power(b, n - 1)
  }

  /** Python's `pow(b, n, m)` for n >= 0 and m >= 1, by square-and-multiply. */
  function ModPow(b: int, n: nat, m: int): (r: int)
    requires m >= 1
    ensures 0 <= r < m
    decreases n
  {
    if n == 0 then 1 % m
    else if n % 2 == 0 then
      var h := ModPow(b, n / 2, m);
      (h * h) % m
    else
      (b % m * ModPow(b, n - 1, m)) % m
  }

  /** Square-and-multiply computes b^n mod m. */
  lemma {:induction false} ModPowIsPower(b: int, n: nat, m: int)
    requires m >= 1
    ensures ModPow(b, n, m) == Power(b, n) % m
    decreases n
  {
    if n == 0 {
    } else if n % 2 == 0 {
      ModPowIsPower(b, n / 2, m);
      PowerAdd(b, n / 2, n / 2);
      MulMod(Power(b, n / 2), Power(b, n / 2), m);
    } else {
      ModPowIsPower(b, n - 1, m);
      MulMod(b, Power(b, n - 1), m);
      ModOfMod(b, m);
    }
  }

  /** The quotient and remainder of Euclidean division are unique. */
  lemma DivModUnique(x: int, q: int, r: int, m: int)
    requires m > 0 && 0 <= r < m && x == q * m + r
    ensures x % m == r && x / m == q
  {
    var q0, r0 := x / m, x % m;
    assert (q - q0) * m == r0 - r;
    if q > q0 {
      MulAtLeast(q - q0, m);
    } else if q < q0 {
      MulAtLeast(q0 - q, m);
    }
  }

  lemma MulAtLeast(d: int, m: int)
    requires d >= 1 && m > 0
    ensures d * m >= m
  {
    assert d * m == (d - 1) * m + m;
    assert (d - 1) * m >= 0;
  }

  /** Adding a multiple of m does not change the remainder. */
  lemma ModAddMultiple(k: int, x: int, m: int)
    requires m > 0
    ensures (k * m + x) % m == x % m
  {
    assert k * m + x == (k + x / m) * m + x % m;
    DivModUnique(k * m + x, k + x / m, x % m, m);
  }

  lemma ModOfMod(x: int, m: int)
    requires m > 0
    ensures (x % m) % m == x % m
  {
    DivModUnique(x % m, 0, x % m, m);
  }

  /** Reducing the left summand first does not change the remainder. */
  lemma ModAddLeft(a: int, z: int, m: int)
    requires m > 0
    ensures (a % m + z) % m == (a + z) % m
  {
    var q := a / m;
    assert a % m + z == (-q) * m + (a + z);
    ModAddMultiple(-q, a + z, m);
  }

  /** (x + y) % m only depends on the remainders of x and y. */
  lemma AddMod(x: int, y: int, m: int)
    requires m > 0
    ensures (x + y) % m == (x % m + y % m) % m
  {
    ModAddLeft(x, y % m, m);
    ModAddLeft(y, x, m);
  }

  /** (x - y) % m only depends on the remainders of x and y. */
  lemma SubMod(x: int, y: int, m: int)
    requires m > 0
    ensures (x - y) % m == (x % m - y % m) % m
  {
    ModAddLeft(x, -(y % m), m);
    var q := y / m;
    assert x - y % m == q * m + (x - y);
    ModAddMultiple(q, x - y, m);
  }

  /** (x * y) % m only depends on the remainder of x. */
  lemma MulModLeft(x: int, y: int, m: int)
    requires m > 0
    ensures (x * y) % m == ((x % m) * y) % m
  {
    assert x * y == ((x / m) * y) * m + (x % m) * y;
    ModAddMultiple((x / m) * y, (x % m) * y, m);
  }

  /** (x * y) % m only depends on the remainders of x and y. */
  lemma MulMod(x: int, y: int, m: int)
    requires m > 0
    ensures (x * y) % m == ((x % m) * (y % m)) % m
  {
    MulModLeft(x, y, m);
    MulModLeft(y, x % m, m);
  }

  /** (x * (y % m)) % m == (x * y) % m. */
  lemma MulModRight(x: int, y: int, m: int)
    requires m > 0
    ensures (x * (y % m)) % m == (x * y) % m
  {
    MulModLeft(y, x, m);
    assert x * (y % m) == (y % m) * x;
    assert x * y == y * x;
  }

  /** Addition of residues is associative. */
  lemma AddModAssociates(x: int, y: int, z: int, m: int)
    requires m > 0
    ensures ((x + y) % m + z) % m == (x + (y + z) % m) % m
  {
    calc {
      ((x + y) % m + z) % m;
      { ModAddLeft(x + y, z, m); }
      ((y + z) + x) % m;
      { ModAddLeft(y + z, x, m); }
      ((y + z) % m + x) % m;
    }
  }

  /** Multiplication of residues is associative. */
  lemma MulModAssociates(x: int, y: int, z: int, m: int)
    requires m > 0
    ensures ((x * y) % m * z) % m == (x * ((y * z) % m)) % m
  {
    assert (x * y) * z == x * (y * z);
    MulModLeft(x * y, z, m);
    MulModRight(x, y * z, m);
  }

  /** Multiplication of residues distributes over addition. */
  lemma MulModDistributes(x: int, y: int, z: int, m: int)
    requires m > 0
    ensures (x * ((y + z) % m)) % m == ((x * y) % m + (x * z) % m) % m
  {
    MulModRight(x, y + z, m);
    assert x * (y + z) == x * y + x * z;
    AddMod(x * y, x * z, m);
  }

  /** Multiplying by y (reduced) and then by z cancels out when y * z is
      1 modulo m. */
  lemma CancelInverse(x: int, y: int, z: int, m: int)
    requires m > 0 && 0 <= x < m && (y * z) % m == 1
    ensures ((x * (y % m)) % m * z) % m == x
  {
    calc {
      ((x * (y % m)) % m * z) % m;
      { MulModLeft(x * (y % m), z, m); }
      (x * (y % m) * z) % m;
      { assert x * (y % m) * z == (y % m) * (x * z); }
      ((y % m) * (x * z)) % m;
      { MulModLeft(y, x * z, m); }
      (y * (x * z)) % m;
      { assert y * (x * z) == (y * z) * x; }
      ((y * z) * x) % m;
      { MulModLeft(y * z, x, m); }
      (1 * x) % m;
      { DivModUnique(x, 0, x, m); }
      x;
    }
  }

  /** A value is congruent to its remainder. */
  lemma CongruentMod(x: int, m: int)
    requires m > 0
    ensures Congruent(x % m, x, m)
  {
    assert x % m - x == (-(x / m)) * m + 0;
    DivModUnique(x % m - x, -(x / m), 0, m);
  }

  /** Two values in [0, m) that are congruent modulo m are equal. */
  lemma CongruentInRange(x: int, y: int, m: int)
    requires m > 0 && 0 <= x < m && 0 <= y < m
    requires Congruent(x, y, m)
    ensures x == y
  {
    var k := (x - y) / m;
    assert x - y == k * m;
    if k > 0 {
      MulAtLeast(k, m);
    } else if k < 0 {
      MulAtLeast(-k, m);
    }
  }

  lemma CongruentSymmetric(x: int, y: int, m: int)
    requires m > 0 && Congruent(x, y, m)
    ensures Congruent(y, x, m)
  {
    var k := (x - y) / m;
    assert x - y == k * m;
    assert y - x == (-k) * m + 0;
    ModAddMultiple(-k, 0, m);
  }

  lemma CongruentAdd(x: int, x2: int, y: int, y2: int, m: int)
    requires m > 0 && Congruent(x, x2, m) && Congruent(y, y2, m)
    ensures Congruent(x + y, x2 + y2, m)
  {
    AddMod(x - x2, y - y2, m);
    assert (x + y) - (x2 + y2) == (x - x2) + (y - y2);
  }

  lemma CongruentTransitive(x: int, y: int, z: int, m: int)
    requires m > 0 && Congruent(x, y, m) && Congruent(y, z, m)
    ensures Congruent(x, z, m)
  {
    CongruentAdd(x, y, y, z, m);
    assert (x + y) - (y + z) == x - z;
  }

  lemma CongruentSub(x: int, x2: int, y: int, y2: int, m: int)
    requires m > 0 && Congruent(x, x2, m) && Congruent(y, y2, m)
    ensures Congruent(x - y, x2 - y2, m)
  {
    SubMod(x - x2, y - y2, m);
    assert (x - y) - (x2 - y2) == (x - x2) - (y - y2);
  }

  lemma CongruentMulLeft(c: int, x: int, y: int, m: int)
    requires m > 0 && Congruent(x, y, m)
    ensures Congruent(c * x, c * y, m)
  {
    var k := (x - y) / m;
    assert x - y == k * m;
    assert c * x - c * y == (c * k) * m + 0 by {
      assert c * x - c * y == c * (x - y);
    }
    ModAddMultiple(c * k, 0, m);
  }

  /** A value in [0, m) congruent to x is the remainder of x. */
  lemma ResidueOf(r: int, x: int, m: int)
    requires m > 0 && 0 <= r < m && Congruent(r, x, m)
    ensures r == x % m
  {
    CongruentMod(x, m);
    CongruentSymmetric(x % m, x, m);
    CongruentTransitive(r, x, x % m, m);
    CongruentInRange(r, x % m, m);
  }

  /** Residues r and s of u and v are equal exactly when u and v are
      congruent. */
  lemma CongruentResidues(r: int, u: int, s: int, v: int, m: int)
    requires m > 0 && 0 <= r < m && 0 <= s < m
    requires Congruent(r, u, m) && Congruent(s, v, m)
    ensures r == s <==> Congruent(u, v, m)
  {
    CongruentSymmetric(r, u, m);
    if r == s {
      CongruentTransitive(u, r, v, m);
    }
    if Congruent(u, v, m) {
      CongruentTransitive(r, u, v, m);
      CongruentSymmetric(s, v, m);
      CongruentTransitive(r, v, s, m);
      CongruentInRange(r, s, m);
    }
  }

  /** Modulo an odd m, y + y == 0 only for y == 0. */
  lemma OddHalf(y: int, m: int)
    requires m > 0 && m % 2 == 1 && 0 <= y < m && (y + y) % m == 0
    ensures y == 0
  {
    var k := (y + y) / m;
    assert y + y == k * m;
    if k >= 2 {
      MulAtLeast(k - 1, m);
    } else if k < 0 {
      MulAtLeast(-k, m);
    }
  }

  lemma {:induction false} PowerAdd(b: int, i: nat, j: nat)
    ensures Power(b, i + j) == Power(b, i) * Power(b, j)
    decreases i
  {
    if i > 0 {
      PowerAdd(b, i - 1, j);
    }
  }

  /** 2^n, used for bit lengths. */
  function Pow2(n: nat): nat
    decreases n
  {
    if n == 0 then 1 else 2 * Pow2(n - 1)
  }

  /** The number of iterations of `while k: k >>= 1`, i.e. the number of
      bits of k. */
  function BitLength(k: nat): nat
    decreases k
  {
    if k == 0 then 0 else 1 + BitLength(k / 2)
  }

  /** k has exactly BitLength(k) binary digits. */
  lemma {:induction false} BitLengthBounds(k: nat)
    ensures k < Pow2(BitLength(k))
    ensures k > 0 ==> Pow2(BitLength(k) - 1) <= k
    decreases k
  {
    if k > 0 {
      BitLengthBounds(k / 2);
    }
  }
}
