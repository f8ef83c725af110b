/** Elements of the prime field F_prime, as in ecc.py's `FieldElement`:
    immutable pairs (num, prime) whose operators check that both operands
    share a prime, compute on the residues and build the result through the
    range-checked constructor again. */
module Field {
  import opened Wrappers
  import opened Arith

  datatype FieldElement = FieldElement(num: int, prime: int)

  /** What the constructor guarantees of every element it returns. */
  predicate Valid(e: FieldElement) {
    0 <= e.num < e.prime
  }

  /** `FieldElement(num, prime)`: fails exactly when num is outside [0, prime). */
  function New(num: int, prime: int): (r: Result<FieldElement>)
    ensures r.Ok? <==> 0 <= num < prime
    ensures r.Ok? ==> Valid(r.value) && r.value.num == num && r.value.prime == prime
    ensures r.Err? ==> r.error == OutOfRange(num, prime)
  {
    if num >= prime || num < 0 then Err(OutOfRange(num, prime))
    else Ok(FieldElement(num, prime))
  }

  /** `==` as written: it compares `self.prime` with itself, so the primes of
      the two operands are never compared. */
  function Equal(a: FieldElement, b: FieldElement): (r: bool)
    ensures r <==> a.num == b.num
  {
    a.num == b.num && a.prime == a.prime
  }

  /** `!=` is the negation of `==`. */
  function NotEqual(a: FieldElement, b: FieldElement): (r: bool)
    ensures r <==> !Equal(a, b)
    ensures r <==> a.num != b.num
  {
    !Equal(a, b)
  }

  /** `a + b`. */
  function Add(a: FieldElement, b: FieldElement): (r: Result<FieldElement>)
    requires Valid(a) && Valid(b)
    ensures r.Ok? <==> a.prime == b.prime
    ensures r.Err? ==> r.error == DifferentFields
    ensures r.Ok? ==> Valid(r.value) && r.value.prime == a.prime
    ensures r.Ok? ==> Congruent(r.value.num, a.num + b.num, a.prime)
  {
    if a.prime != b.prime then Err(DifferentFields)
    else
      CongruentMod(a.num + b.num, a.prime);
      New((a.num + b.num) % a.prime, a.prime)
  }

  /** `a - b`. */
  function Sub(a: FieldElement, b: FieldElement): (r: Result<FieldElement>)
    requires Valid(a) && Valid(b)
    ensures r.Ok? <==> a.prime == b.prime
    ensures r.Err? ==> r.error == DifferentFields
    ensures r.Ok? ==> Valid(r.value) && r.value.prime == a.prime
    ensures r.Ok? ==> Congruent(r.value.num, a.num - b.num, a.prime)
  {
    if a.prime != b.prime then Err(DifferentFields)
    else
      CongruentMod(a.num - b.num, a.prime);
      New((a.num - b.num) % a.prime, a.prime)
  }

  /** `a * b`. */
  function Mul(a: FieldElement, b: FieldElement): (r: Result<FieldElement>)
    requires Valid(a) && Valid(b)
    ensures r.Ok? <==> a.prime == b.prime
    ensures r.Err? ==> r.error == DifferentFields
    ensures r.Ok? ==> Valid(r.value) && r.value.prime == a.prime
    ensures r.Ok? ==> Congruent(r.value.num, a.num * b.num, a.prime)
  {
    if a.prime != b.prime then Err(DifferentFields)
    else
      CongruentMod(a.num * b.num, a.prime);
      New(a.num * b.num % a.prime, a.prime)
  }

  /** `a ** exponent`: the exponent, of any sign, is first reduced modulo
      prime - 1, which raises ZeroDivisionError when prime == 1; then
      `pow(num, n, prime)` is taken. */
  function Pow(a: FieldElement, exponent: int): (r: Result<FieldElement>)
    requires Valid(a)
    ensures r.Ok? <==> a.prime >= 2
    ensures r.Err? ==> r.error == ModuloByZero
    ensures r.Ok? ==> Valid(r.value) && r.value.prime == a.prime
    ensures r.Ok? ==> r.value.num == Power(a.num, exponent % (a.prime - 1)) % a.prime
  {
    if a.prime - 1 == 0 then Err(ModuloByZero)
    else
      var n := exponent % (a.prime - 1);
      ModPowIsPower(a.num, n, a.prime);
      New(ModPow(a.num, n, a.prime), a.prime)
  }

  /** `a / b`: multiplies by b^(prime - 2), the inverse of b by Fermat's
      little theorem when prime is prime. */
  function Div(a: FieldElement, b: FieldElement): (r: Result<FieldElement>)
    requires Valid(a) && Valid(b)
    ensures a.prime != b.prime ==> r == Err(DifferentFields)
    ensures a.prime == b.prime && b.num == 0 ==> r == Err(DivisionByZero)
    ensures r.Ok? <==> a.prime == b.prime && b.num != 0
    ensures r.Ok? ==> Valid(r.value) && r.value.prime == a.prime && a.prime >= 2
  {
    if a.prime != b.prime then Err(DifferentFields)
    else if b.num == 0 then Err(DivisionByZero)
    else
      var inv := ModPow(b.num, a.prime - 2, a.prime);
      New((a.num * inv) % a.prime, a.prime)
  }

  /** `coefficient * a` for a plain integer coefficient of any sign. */
  function Scale(coefficient: int, a: FieldElement): (r: FieldElement)
    requires Valid(a)
    ensures Valid(r) && r.prime == a.prime
    ensures Congruent(r.num, a.num * coefficient, a.prime)
  {
    var num := (a.num * coefficient) % a.prime;
    CongruentMod(a.num * coefficient, a.prime);
    New(num, a.prime).value
  }

  // ---------------------------------------------------------------------
  // Laws of the operators

  /** `a / b` is a * b^(prime - 2) reduced modulo prime. */
  lemma DivValue(a: FieldElement, b: FieldElement)
    requires Valid(a) && Valid(b) && a.prime == b.prime && b.num != 0
    ensures Div(a, b).value.num == (a.num * Power(b.num, a.prime - 2)) % a.prime
  {
    var p := a.prime;
    ModPowIsPower(b.num, p - 2, p);
    MulModRight(a.num, Power(b.num, p - 2), p);
  }

  /** Equal residues modulo different primes compare equal. */
  lemma EqualIgnoresPrime(a: FieldElement, b: FieldElement)
    requires a.num == b.num && a.prime != b.prime
    ensures Equal(a, b) && !NotEqual(a, b)
  {
  }

  lemma AddCommutes(a: FieldElement, b: FieldElement)
    requires Valid(a) && Valid(b)
    ensures Add(a, b) == Add(b, a)
  {
  }

  lemma AddAssociates(a: FieldElement, b: FieldElement, c: FieldElement)
    requires Valid(a) && Valid(b) && Valid(c)
    requires a.prime == b.prime == c.prime
    ensures Add(Add(a, b).value, c) == Add(a, Add(b, c).value)
  {
    var p := a.prime;
    var x, y, z := a.num, b.num, c.num;
    var ab, bc := Add(a, b).value, Add(b, c).value;
    assert ab.num == (x + y) % p;
    assert bc.num == (y + z) % p;
    AddModAssociates(x, y, z, p);
    assert (ab.num + z) % p == ((x + y) % p + z) % p;
    assert (x + bc.num) % p == (x + (y + z) % p) % p;
  }

  /** 0 is the neutral element of +. */
  lemma AddZero(a: FieldElement)
    requires Valid(a)
    ensures Add(a, FieldElement(0, a.prime)) == Ok(a)
  {
    DivModUnique(a.num, 0, a.num, a.prime);
  }

  lemma MulCommutes(a: FieldElement, b: FieldElement)
    requires Valid(a) && Valid(b)
    ensures Mul(a, b) == Mul(b, a)
  {
  }

  lemma MulAssociates(a: FieldElement, b: FieldElement, c: FieldElement)
    requires Valid(a) && Valid(b) && Valid(c)
    requires a.prime == b.prime == c.prime
    ensures Mul(Mul(a, b).value, c) == Mul(a, Mul(b, c).value)
  {
    MulModAssociates(a.num, b.num, c.num, a.prime);
  }

  /** 1 is the neutral element of * (for prime >= 2, where 1 is an element). */
  lemma MulOne(a: FieldElement)
    requires Valid(a) && a.prime >= 2
    ensures Mul(a, FieldElement(1, a.prime)) == Ok(a)
  {
    DivModUnique(a.num, 0, a.num, a.prime);
  }

  lemma MulDistributes(a: FieldElement, b: FieldElement, c: FieldElement)
    requires Valid(a) && Valid(b) && Valid(c)
    requires a.prime == b.prime == c.prime
    ensures Mul(a, Add(b, c).value) == Add(Mul(a, b).value, Mul(a, c).value)
  {
    MulModDistributes(a.num, b.num, c.num, a.prime);
  }

  /** - undoes +. */
  lemma SubUndoesAdd(a: FieldElement, b: FieldElement)
    requires Valid(a) && Valid(b) && a.prime == b.prime
    ensures Sub(Add(a, b).value, b) == Ok(a)
  {
    var p := a.prime;
    SubMod(a.num + b.num, b.num, p);
    ModOfMod(b.num, p);
    DivModUnique(b.num, 0, b.num, p);
    DivModUnique(a.num, 0, a.num, p);
    assert ((a.num + b.num) % p - b.num) % p == (a.num + b.num - b.num) % p;
  }

  /** a - b is zero exactly when a and b are the same residue. */
  lemma SubZero(a: FieldElement, b: FieldElement)
    requires Valid(a) && Valid(b) && a.prime == b.prime
    ensures Sub(a, b).value.num == 0 <==> a.num == b.num
  {
    var d := Sub(a, b).value;
    if d.num == 0 {
      assert Congruent(a.num, b.num, a.prime);
      CongruentInRange(a.num, b.num, a.prime);
    }
  }

  /** + undoes -. */
  lemma AddUndoesSub(a: FieldElement, b: FieldElement)
    requires Valid(a) && Valid(b) && a.prime == b.prime
    ensures Add(Sub(a, b).value, b) == Ok(a)
  {
    var p := a.prime;
    AddMod(a.num - b.num, b.num, p);
    DivModUnique(b.num, 0, b.num, p);
    DivModUnique(a.num, 0, a.num, p);
    assert ((a.num - b.num) % p + b.num) % p == (a.num - b.num + b.num) % p;
  }

  /** `0 * a` is the zero of a's field. */
  lemma ScaleByZero(a: FieldElement)
    requires Valid(a)
    ensures Scale(0, a) == FieldElement(0, a.prime)
  {
    assert a.num * 0 == 0;
  }

  /** `2 * a == a + a`. */
  lemma ScaleByTwo(a: FieldElement)
    requires Valid(a)
    ensures Ok(Scale(2, a)) == Add(a, a)
  {
    assert a.num * 2 == a.num + a.num;
  }

  /** Scaling by k + 1 adds one more copy of a, for every integer k; so
      `k * a` is k-fold repeated addition. */
  lemma ScaleSucc(k: int, a: FieldElement)
    requires Valid(a)
    ensures Ok(Scale(k + 1, a)) == Add(Scale(k, a), a)
  {
    var p := a.prime;
    AddMod(a.num * k, a.num, p);
    DivModUnique(a.num, 0, a.num, p);
    ModOfMod(a.num * k, p);
    assert a.num * (k + 1) == a.num * k + a.num;
  }

  /** Exponents that differ by a multiple of prime - 1 give the same power,
      negative exponents included. */
  lemma PowPeriodic(a: FieldElement, e: int, k: int)
    requires Valid(a)
    ensures Pow(a, e) == Pow(a, e + k * (a.prime - 1))
  {
    if a.prime >= 2 {
      var m := a.prime - 1;
      assert e + k * m == k * m + e;
      ModAddMultiple(k, e, m);
      var n := e % m;
      assert (e + k * m) % m == n;
      assert Pow(a, e) == New(ModPow(a.num, n, a.prime), a.prime);
      assert Pow(a, e + k * m) == New(ModPow(a.num, n, a.prime), a.prime);
    }
  }

  /** Squaring through `__pow__` is the product with itself once the field
      has at least four elements (at prime 3 the exponent 2 reduces to 0). */
  lemma Square(a: FieldElement)
    requires Valid(a) && a.prime >= 4
    ensures Pow(a, 2) == Ok(FieldElement((a.num * a.num) % a.prime, a.prime))
  {
    DivModUnique(2, 0, 2, a.prime - 1);
    assert Power(a.num, 2) == a.num * a.num;
  }

  /** Any multiple of prime - 1 as exponent gives 1, even for the element 0
      (as written, since `pow(0, 0, prime)` is 1). */
  lemma PowMultipleOfOrder(a: FieldElement, k: int)
    requires Valid(a) && a.prime >= 2
    ensures Pow(a, k * (a.prime - 1)) == Ok(FieldElement(1, a.prime))
  {
    ModAddMultiple(k, 0, a.prime - 1);
    assert k * (a.prime - 1) == k * (a.prime - 1) + 0;
    DivModUnique(1, 0, 1, a.prime);
  }

  /** `a / b` agrees with `a * b ** -1`. */
  lemma DivIsMulByInverse(a: FieldElement, b: FieldElement)
    requires Valid(a) && Valid(b) && a.prime == b.prime && b.num != 0
    ensures Pow(b, -1).Ok?
    ensures Div(a, b) == Mul(a, Pow(b, -1).value)
  {
    var p := a.prime;
    DivModUnique(-1, -1, p - 2, p - 1);
    ModPowIsPower(b.num, p - 2, p);
    MulMod(a.num, Power(b.num, p - 2), p);
    ModOfMod(Power(b.num, p - 2), p);
    DivModUnique(a.num, 0, a.num, p);
    assert Pow(b, -1).value.num == Power(b.num, p - 2) % p;
  }

  /** Multiplying and dividing back returns the first factor whenever b
      satisfies Fermat's little theorem, b^(prime-1) == 1 (mod prime). */
  lemma MulThenDiv(a: FieldElement, b: FieldElement)
    requires Valid(a) && Valid(b) && a.prime == b.prime && b.num != 0
    requires Power(b.num, a.prime - 1) % a.prime == 1
    ensures Mul(a, b).Ok?
    ensures Div(Mul(a, b).value, b) == Ok(a)
  {
    var p := a.prime;
    var z := Power(b.num, p - 2);
    ModPowIsPower(b.num, p - 2, p);
    PowerAdd(b.num, p - 2, 1);
    assert b.num * z == Power(b.num, p - 1);
    DivModUnique(b.num, 0, b.num, p);
    MulModRight((a.num * b.num) % p, z, p);
    CancelInverse(a.num, b.num, z, p);
  }

  /** Dividing and multiplying back returns the dividend whenever b satisfies
      Fermat's little theorem, b^(prime-1) == 1 (mod prime), as every nonzero
      element does when prime is prime. */
  lemma DivThenMul(a: FieldElement, b: FieldElement)
    requires Valid(a) && Valid(b) && a.prime == b.prime && b.num != 0
    requires Power(b.num, a.prime - 1) % a.prime == 1
    ensures Div(a, b).Ok?
    ensures Mul(Div(a, b).value, b) == Ok(a)
  {
    var p := a.prime;
    ModPowIsPower(b.num, p - 2, p);
    PowerAdd(b.num, p - 2, 1);
    assert Power(b.num, p - 2) * b.num == Power(b.num, p - 1);
    CancelInverse(a.num, Power(b.num, p - 2), b.num, p);
  }
}
