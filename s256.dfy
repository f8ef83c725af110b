/** ecc.py's `S256Field`: a `FieldElement` whose modulus is pinned to the
    module constant `P`, whatever prime the caller passes. */
module S256 {
  import opened Wrappers
  import opened Field

  /** `P = (2 ** 255) + (2 ** 32) - 977`, exactly as written: 2^255 plus
      0xffff_fc2f. (It is not the secp256k1 modulus 2^256 - 2^32 - 977 of
      section 2.4.1 of SEC 2, and nothing here relies on it being prime.) */
  const P: int := 0x8000_0000_0000_0000_0000_0000_0000_0000_0000_0000_0000_0000_0000_0000_ffff_fc2f

  /** `S256Field(num, prime=None)`: the `prime` argument is ignored and the
      element is built modulo P. */
  function S256Field(num: int, prime: Option<int>): (r: Result<FieldElement>)
    ensures r.Ok? <==> 0 <= num < P
    ensures r.Ok? ==> Valid(r.value) && r.value == FieldElement(num, P)
    ensures r.Err? ==> r.error == OutOfRange(num, P)
  {
    New(num, P)
  }

  /** S256Field ignores its prime argument: any two calls with the same num
      agree, and agree with FieldElement(num, P). */
  lemma S256FieldIgnoresPrime(num: int, p1: Option<int>, p2: Option<int>)
    ensures S256Field(num, p1) == S256Field(num, p2) == New(num, P)
  {
  }
}
