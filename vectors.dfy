/** Concrete vectors from the test classes of ecc.py, evaluated in the
    model: field arithmetic modulo 31 and the curve y^2 = x^3 + 7 over the
    field of 223 elements, plus one doubling vector on that curve that no
    test of ecc.py exercises. The step lemmas at the top unfold one
    operation over plain variables; the vectors instantiate them. */
module Vectors {
  import opened Wrappers
  import opened Arith
  import opened Field
  import opened Curve

  // ---------------------------------------------------------------------
  // Step lemmas

  /** `_on_curve` evaluated from the values of its intermediate terms. */
  lemma OnCurveOf(x: FieldElement, y: FieldElement, a: FieldElement, b: FieldElement,
                  y2: FieldElement, x3: FieldElement, ax: FieldElement, t: FieldElement, rhs: FieldElement)
    requires Valid(x) && Valid(y) && Valid(a) && Valid(b)
    requires Pow(y, 2) == Ok(y2) && Pow(x, 3) == Ok(x3) && Mul(a, x) == Ok(ax)
    requires Field.Add(x3, ax) == Ok(t) && Field.Add(t, b) == Ok(rhs)
    ensures OnCurve(x, y, a, b) == Ok(y2.num == rhs.num)
  {
  }

  /** A point whose coordinates satisfy the curve equation is constructed
      as given. */
  lemma NewPointOf(x: FieldElement, y: FieldElement, a: FieldElement, b: FieldElement)
    requires Valid(x) && Valid(y) && Valid(a) && Valid(b)
    requires OnCurve(x, y, a, b) == Ok(true)
    ensures NewPoint(Some(x), Some(y), a, b) == Ok(Affine(x, y, a, b))
  {
  }

  // ---------------------------------------------------------------------
  // FieldElementTest (ecc.py:82-133), modulo 31

  /** `test_ne`: 2 == 2, 2 != 15, and not 2 != 2. */
  lemma FieldEqualityVectors()
    ensures Equal(FieldElement(2, 31), FieldElement(2, 31))
    ensures NotEqual(FieldElement(2, 31), FieldElement(15, 31))
    ensures !NotEqual(FieldElement(2, 31), FieldElement(2, 31))
  {
  }

  /** `test_add`: 2 + 15 == 17 and 17 + 21 == 7. */
  lemma FieldAddVectors()
    ensures Field.Add(FieldElement(2, 31), FieldElement(15, 31)) == Ok(FieldElement(17, 31))
    ensures Field.Add(FieldElement(17, 31), FieldElement(21, 31)) == Ok(FieldElement(7, 31))
  {
  }

  /** `test_sub`: 29 - 4 == 25 and 15 - 30 == 16. */
  lemma FieldSubVectors()
    ensures Sub(FieldElement(29, 31), FieldElement(4, 31)) == Ok(FieldElement(25, 31))
    ensures Sub(FieldElement(15, 31), FieldElement(30, 31)) == Ok(FieldElement(16, 31))
  {
  }

  /** `test_mul`: 24 * 19 == 22. */
  lemma FieldMulVector()
    ensures Mul(FieldElement(24, 31), FieldElement(19, 31)) == Ok(FieldElement(22, 31))
  {
  }

  /** `test_rmul`: 2 * a == a + a for a == 24. */
  lemma FieldScaleVector()
    ensures Field.Add(FieldElement(24, 31), FieldElement(24, 31)) == Ok(Scale(2, FieldElement(24, 31)))
  {
  }

  /** `test_pow`: 17 ** 3 == 15 and 5 ** 5 * 18 == 16. */
  lemma FieldPowVectors()
    ensures Pow(FieldElement(17, 31), 3) == Ok(FieldElement(15, 31))
    ensures Pow(FieldElement(5, 31), 5).Ok? && Mul(Pow(FieldElement(5, 31), 5).value, FieldElement(18, 31)) == Ok(FieldElement(16, 31))
  {
    assert 3 % 30 == 3;
    assert ModPow(17, 1, 31) == 17;
    assert ModPow(17, 2, 31) == 10;
    assert ModPow(17, 3, 31) == 15;
    assert 5 % 30 == 5;
    assert ModPow(5, 1, 31) == 5;
    assert ModPow(5, 2, 31) == 25;
    assert ModPow(5, 4, 31) == 5;
    assert ModPow(5, 5, 31) == 25;
    assert Pow(FieldElement(5, 31), 5) == Ok(FieldElement(25, 31));
  }

  /** `test_div`: 3 / 24 == 4. */
  lemma FieldDivVector()
    ensures Div(FieldElement(3, 31), FieldElement(24, 31)) == Ok(FieldElement(4, 31))
  {
    assert 31 - 2 == 29;
    assert ModPow(24, 1, 31) == 24;
    assert ModPow(24, 2, 31) == 18;
    assert ModPow(24, 3, 31) == 29;
    assert ModPow(24, 6, 31) == 4;
    assert ModPow(24, 7, 31) == 3;
    assert ModPow(24, 14, 31) == 9;
    assert ModPow(24, 28, 31) == 19;
    assert ModPow(24, 29, 31) == 22;
  }

  /** `test_div`: 17 ** -3 == 29, the exponent being reduced to 27. */
  lemma FieldNegativePowVector()
    ensures Pow(FieldElement(17, 31), -3) == Ok(FieldElement(29, 31))
  {
    assert -3 % 30 == 27;
    assert ModPow(17, 1, 31) == 17;
    assert ModPow(17, 2, 31) == 10;
    assert ModPow(17, 3, 31) == 15;
    assert ModPow(17, 6, 31) == 8;
    assert ModPow(17, 12, 31) == 2;
    assert ModPow(17, 13, 31) == 3;
    assert ModPow(17, 26, 31) == 9;
    assert ModPow(17, 27, 31) == 29;
  }

  /** `test_div`: 4 ** -4 * 11 == 13. */
  lemma FieldNegativePowProductVector()
    ensures Pow(FieldElement(4, 31), -4).Ok? && Mul(Pow(FieldElement(4, 31), -4).value, FieldElement(11, 31)) == Ok(FieldElement(13, 31))
  {
    assert -4 % 30 == 26;
    assert ModPow(4, 1, 31) == 4;
    assert ModPow(4, 2, 31) == 16;
    assert ModPow(4, 3, 31) == 2;
    assert ModPow(4, 6, 31) == 4;
    assert ModPow(4, 12, 31) == 16;
    assert ModPow(4, 13, 31) == 2;
    assert ModPow(4, 26, 31) == 4;
    assert Pow(FieldElement(4, 31), -4) == Ok(FieldElement(4, 31));
  }

  // ---------------------------------------------------------------------
  // ECCTest (ecc.py:217-279): y^2 = x^3 + 7 over the field of 223 elements

  /** (192, 105) lies on the curve. */
  lemma PointAccepted192_105()
    ensures NewPoint(Some(FieldElement(192, 223)), Some(FieldElement(105, 223)), FieldElement(0, 223), FieldElement(7, 223)) == Ok(Affine(FieldElement(192, 223), FieldElement(105, 223), FieldElement(0, 223), FieldElement(7, 223)))
    ensures ValidPoint(Affine(FieldElement(192, 223), FieldElement(105, 223), FieldElement(0, 223), FieldElement(7, 223)))
  {
    assert 2 % 222 == 2;
    assert ModPow(105, 1, 223) == 105;
    assert ModPow(105, 2, 223) == 98;
    assert 3 % 222 == 3;
    assert ModPow(192, 1, 223) == 192;
    assert ModPow(192, 2, 223) == 69;
    assert ModPow(192, 3, 223) == 91;
    OnCurveOf(FieldElement(192, 223), FieldElement(105, 223), FieldElement(0, 223), FieldElement(7, 223), FieldElement(98, 223), FieldElement(91, 223), FieldElement(0, 223), FieldElement(91, 223), FieldElement(98, 223));
    NewPointOf(FieldElement(192, 223), FieldElement(105, 223), FieldElement(0, 223), FieldElement(7, 223));
  }

  /** (17, 56) lies on the curve. */
  lemma PointAccepted17_56()
    ensures NewPoint(Some(FieldElement(17, 223)), Some(FieldElement(56, 223)), FieldElement(0, 223), FieldElement(7, 223)) == Ok(Affine(FieldElement(17, 223), FieldElement(56, 223), FieldElement(0, 223), FieldElement(7, 223)))
    ensures ValidPoint(Affine(FieldElement(17, 223), FieldElement(56, 223), FieldElement(0, 223), FieldElement(7, 223)))
  {
    assert 2 % 222 == 2;
    assert ModPow(56, 1, 223) == 56;
    assert ModPow(56, 2, 223) == 14;
    assert 3 % 222 == 3;
    assert ModPow(17, 1, 223) == 17;
    assert ModPow(17, 2, 223) == 66;
    assert ModPow(17, 3, 223) == 7;
    OnCurveOf(FieldElement(17, 223), FieldElement(56, 223), FieldElement(0, 223), FieldElement(7, 223), FieldElement(14, 223), FieldElement(7, 223), FieldElement(0, 223), FieldElement(7, 223), FieldElement(14, 223));
    NewPointOf(FieldElement(17, 223), FieldElement(56, 223), FieldElement(0, 223), FieldElement(7, 223));
  }

  /** (1, 193) lies on the curve. */
  lemma PointAccepted1_193()
    ensures NewPoint(Some(FieldElement(1, 223)), Some(FieldElement(193, 223)), FieldElement(0, 223), FieldElement(7, 223)) == Ok(Affine(FieldElement(1, 223), FieldElement(193, 223), FieldElement(0, 223), FieldElement(7, 223)))
    ensures ValidPoint(Affine(FieldElement(1, 223), FieldElement(193, 223), FieldElement(0, 223), FieldElement(7, 223)))
  {
    assert 2 % 222 == 2;
    assert ModPow(193, 1, 223) == 193;
    assert ModPow(193, 2, 223) == 8;
    assert 3 % 222 == 3;
    assert ModPow(1, 1, 223) == 1;
    assert ModPow(1, 2, 223) == 1;
    assert ModPow(1, 3, 223) == 1;
    OnCurveOf(FieldElement(1, 223), FieldElement(193, 223), FieldElement(0, 223), FieldElement(7, 223), FieldElement(8, 223), FieldElement(1, 223), FieldElement(0, 223), FieldElement(1, 223), FieldElement(8, 223));
    NewPointOf(FieldElement(1, 223), FieldElement(193, 223), FieldElement(0, 223), FieldElement(7, 223));
  }

  /** (200, 119) does not lie on the curve. */
  lemma PointRejected200_119()
    ensures NewPoint(Some(FieldElement(200, 223)), Some(FieldElement(119, 223)), FieldElement(0, 223), FieldElement(7, 223)) == Err(NotOnCurve)
  {
    assert 2 % 222 == 2;
    assert ModPow(119, 1, 223) == 119;
    assert ModPow(119, 2, 223) == 112;
    assert 3 % 222 == 3;
    assert ModPow(200, 1, 223) == 200;
    assert ModPow(200, 2, 223) == 83;
    assert ModPow(200, 3, 223) == 98;
    OnCurveOf(FieldElement(200, 223), FieldElement(119, 223), FieldElement(0, 223), FieldElement(7, 223), FieldElement(112, 223), FieldElement(98, 223), FieldElement(0, 223), FieldElement(98, 223), FieldElement(105, 223));
  }

  /** (42, 99) does not lie on the curve. */
  lemma PointRejected42_99()
    ensures NewPoint(Some(FieldElement(42, 223)), Some(FieldElement(99, 223)), FieldElement(0, 223), FieldElement(7, 223)) == Err(NotOnCurve)
  {
    assert 2 % 222 == 2;
    assert ModPow(99, 1, 223) == 99;
    assert ModPow(99, 2, 223) == 212;
    assert 3 % 222 == 3;
    assert ModPow(42, 1, 223) == 42;
    assert ModPow(42, 2, 223) == 203;
    assert ModPow(42, 3, 223) == 52;
    OnCurveOf(FieldElement(42, 223), FieldElement(99, 223), FieldElement(0, 223), FieldElement(7, 223), FieldElement(212, 223), FieldElement(52, 223), FieldElement(0, 223), FieldElement(52, 223), FieldElement(59, 223));
  }

  /** (170, 142) lies on the curve. */
  lemma PointAccepted170_142()
    ensures NewPoint(Some(FieldElement(170, 223)), Some(FieldElement(142, 223)), FieldElement(0, 223), FieldElement(7, 223)) == Ok(Affine(FieldElement(170, 223), FieldElement(142, 223), FieldElement(0, 223), FieldElement(7, 223)))
    ensures ValidPoint(Affine(FieldElement(170, 223), FieldElement(142, 223), FieldElement(0, 223), FieldElement(7, 223)))
  {
    assert 2 % 222 == 2;
    assert ModPow(142, 1, 223) == 142;
    assert ModPow(142, 2, 223) == 94;
    assert 3 % 222 == 3;
    assert ModPow(170, 1, 223) == 170;
    assert ModPow(170, 2, 223) == 133;
    assert ModPow(170, 3, 223) == 87;
    OnCurveOf(FieldElement(170, 223), FieldElement(142, 223), FieldElement(0, 223), FieldElement(7, 223), FieldElement(94, 223), FieldElement(87, 223), FieldElement(0, 223), FieldElement(87, 223), FieldElement(94, 223));
    NewPointOf(FieldElement(170, 223), FieldElement(142, 223), FieldElement(0, 223), FieldElement(7, 223));
  }

  /** (47, 71) lies on the curve. */
  lemma PointAccepted47_71()
    ensures NewPoint(Some(FieldElement(47, 223)), Some(FieldElement(71, 223)), FieldElement(0, 223), FieldElement(7, 223)) == Ok(Affine(FieldElement(47, 223), FieldElement(71, 223), FieldElement(0, 223), FieldElement(7, 223)))
    ensures ValidPoint(Affine(FieldElement(47, 223), FieldElement(71, 223), FieldElement(0, 223), FieldElement(7, 223)))
  {
    assert 2 % 222 == 2;
    assert ModPow(71, 1, 223) == 71;
    assert ModPow(71, 2, 223) == 135;
    assert 3 % 222 == 3;
    assert ModPow(47, 1, 223) == 47;
    assert ModPow(47, 2, 223) == 202;
    assert ModPow(47, 3, 223) == 128;
    OnCurveOf(FieldElement(47, 223), FieldElement(71, 223), FieldElement(0, 223), FieldElement(7, 223), FieldElement(135, 223), FieldElement(128, 223), FieldElement(0, 223), FieldElement(128, 223), FieldElement(135, 223));
    NewPointOf(FieldElement(47, 223), FieldElement(71, 223), FieldElement(0, 223), FieldElement(7, 223));
  }

  /** (117, 141) lies on the curve. */
  lemma PointAccepted117_141()
    ensures NewPoint(Some(FieldElement(117, 223)), Some(FieldElement(141, 223)), FieldElement(0, 223), FieldElement(7, 223)) == Ok(Affine(FieldElement(117, 223), FieldElement(141, 223), FieldElement(0, 223), FieldElement(7, 223)))
    ensures ValidPoint(Affine(FieldElement(117, 223), FieldElement(141, 223), FieldElement(0, 223), FieldElement(7, 223)))
  {
    assert 2 % 222 == 2;
    assert ModPow(141, 1, 223) == 141;
    assert ModPow(141, 2, 223) == 34;
    assert 3 % 222 == 3;
    assert ModPow(117, 1, 223) == 117;
    assert ModPow(117, 2, 223) == 86;
    assert ModPow(117, 3, 223) == 27;
    OnCurveOf(FieldElement(117, 223), FieldElement(141, 223), FieldElement(0, 223), FieldElement(7, 223), FieldElement(34, 223), FieldElement(27, 223), FieldElement(0, 223), FieldElement(27, 223), FieldElement(34, 223));
    NewPointOf(FieldElement(117, 223), FieldElement(141, 223), FieldElement(0, 223), FieldElement(7, 223));
  }

  /** (60, 139) lies on the curve. */
  lemma PointAccepted60_139()
    ensures NewPoint(Some(FieldElement(60, 223)), Some(FieldElement(139, 223)), FieldElement(0, 223), FieldElement(7, 223)) == Ok(Affine(FieldElement(60, 223), FieldElement(139, 223), FieldElement(0, 223), FieldElement(7, 223)))
    ensures ValidPoint(Affine(FieldElement(60, 223), FieldElement(139, 223), FieldElement(0, 223), FieldElement(7, 223)))
  {
    assert 2 % 222 == 2;
    assert ModPow(139, 1, 223) == 139;
    assert ModPow(139, 2, 223) == 143;
    assert 3 % 222 == 3;
    assert ModPow(60, 1, 223) == 60;
    assert ModPow(60, 2, 223) == 32;
    assert ModPow(60, 3, 223) == 136;
    OnCurveOf(FieldElement(60, 223), FieldElement(139, 223), FieldElement(0, 223), FieldElement(7, 223), FieldElement(143, 223), FieldElement(136, 223), FieldElement(0, 223), FieldElement(136, 223), FieldElement(143, 223));
    NewPointOf(FieldElement(60, 223), FieldElement(139, 223), FieldElement(0, 223), FieldElement(7, 223));
  }

  /** (143, 98) lies on the curve. */
  lemma PointAccepted143_98()
    ensures NewPoint(Some(FieldElement(143, 223)), Some(FieldElement(98, 223)), FieldElement(0, 223), FieldElement(7, 223)) == Ok(Affine(FieldElement(143, 223), FieldElement(98, 223), FieldElement(0, 223), FieldElement(7, 223)))
    ensures ValidPoint(Affine(FieldElement(143, 223), FieldElement(98, 223), FieldElement(0, 223), FieldElement(7, 223)))
  {
    assert 2 % 222 == 2;
    assert ModPow(98, 1, 223) == 98;
    assert ModPow(98, 2, 223) == 15;
    assert 3 % 222 == 3;
    assert ModPow(143, 1, 223) == 143;
    assert ModPow(143, 2, 223) == 156;
    assert ModPow(143, 3, 223) == 8;
    OnCurveOf(FieldElement(143, 223), FieldElement(98, 223), FieldElement(0, 223), FieldElement(7, 223), FieldElement(15, 223), FieldElement(8, 223), FieldElement(0, 223), FieldElement(8, 223), FieldElement(15, 223));
    NewPointOf(FieldElement(143, 223), FieldElement(98, 223), FieldElement(0, 223), FieldElement(7, 223));
  }

  /** (76, 66) lies on the curve. */
  lemma PointAccepted76_66()
    ensures NewPoint(Some(FieldElement(76, 223)), Some(FieldElement(66, 223)), FieldElement(0, 223), FieldElement(7, 223)) == Ok(Affine(FieldElement(76, 223), FieldElement(66, 223), FieldElement(0, 223), FieldElement(7, 223)))
    ensures ValidPoint(Affine(FieldElement(76, 223), FieldElement(66, 223), FieldElement(0, 223), FieldElement(7, 223)))
  {
    assert 2 % 222 == 2;
    assert ModPow(66, 1, 223) == 66;
    assert ModPow(66, 2, 223) == 119;
    assert 3 % 222 == 3;
    assert ModPow(76, 1, 223) == 76;
    assert ModPow(76, 2, 223) == 201;
    assert ModPow(76, 3, 223) == 112;
    OnCurveOf(FieldElement(76, 223), FieldElement(66, 223), FieldElement(0, 223), FieldElement(7, 223), FieldElement(119, 223), FieldElement(112, 223), FieldElement(0, 223), FieldElement(112, 223), FieldElement(119, 223));
    NewPointOf(FieldElement(76, 223), FieldElement(66, 223), FieldElement(0, 223), FieldElement(7, 223));
  }

  /** 174 / 48 == 143, through 48 ** 221. */
  lemma Quotient174_48()
    ensures Div(FieldElement(174, 223), FieldElement(48, 223)) == Ok(FieldElement(143, 223))
  {
    assert 223 - 2 == 221;
    assert ModPow(48, 1, 223) == 48;
    assert ModPow(48, 2, 223) == 74;
    assert ModPow(48, 3, 223) == 207;
    assert ModPow(48, 6, 223) == 33;
    assert ModPow(48, 12, 223) == 197;
    assert ModPow(48, 13, 223) == 90;
    assert ModPow(48, 26, 223) == 72;
    assert ModPow(48, 27, 223) == 111;
    assert ModPow(48, 54, 223) == 56;
    assert ModPow(48, 55, 223) == 12;
    assert ModPow(48, 110, 223) == 144;
    assert ModPow(48, 220, 223) == 220;
    assert ModPow(48, 221, 223) == 79;
    assert (174 * 79) % 223 == 143;
  }

  /** The chord through (192, 105) and (17, 56) gives (170, 142). */
  lemma ChordVector1()
    ensures ValidPoint(Affine(FieldElement(192, 223), FieldElement(105, 223), FieldElement(0, 223), FieldElement(7, 223))) && ValidPoint(Affine(FieldElement(17, 223), FieldElement(56, 223), FieldElement(0, 223), FieldElement(7, 223)))
    ensures Chord(Affine(FieldElement(192, 223), FieldElement(105, 223), FieldElement(0, 223), FieldElement(7, 223)), Affine(FieldElement(17, 223), FieldElement(56, 223), FieldElement(0, 223), FieldElement(7, 223))) == Ok(Affine(FieldElement(170, 223), FieldElement(142, 223), FieldElement(0, 223), FieldElement(7, 223)))
  {
    assert 2 % 222 == 2;
    assert ModPow(105, 1, 223) == 105;
    assert ModPow(105, 2, 223) == 98;
    assert 3 % 222 == 3;
    assert ModPow(192, 1, 223) == 192;
    assert ModPow(192, 2, 223) == 69;
    assert ModPow(192, 3, 223) == 91;
    assert ModPow(56, 1, 223) == 56;
    assert ModPow(56, 2, 223) == 14;
    assert ModPow(17, 1, 223) == 17;
    assert ModPow(17, 2, 223) == 66;
    assert ModPow(17, 3, 223) == 7;
    assert ModPow(142, 1, 223) == 142;
    assert ModPow(142, 2, 223) == 94;
    assert ModPow(170, 1, 223) == 170;
    assert ModPow(170, 2, 223) == 133;
    assert ModPow(170, 3, 223) == 87;
    PointAccepted192_105();
    PointAccepted17_56();
    assert ModPow(143, 1, 223) == 143;
    assert ModPow(143, 2, 223) == 156;
    assert (56 - 105) % 223 == 174;
    assert (17 - 192) % 223 == 48;
    assert (174 * 79) % 223 == 143;
    assert (156 - 192) % 223 == 187;
    assert (187 - 17) % 223 == 170;
    assert (192 - 170) % 223 == 22;
    assert (143 * 22) % 223 == 24;
    assert (24 - 105) % 223 == 142;
    Quotient174_48();
    ChordOf(Affine(FieldElement(192, 223), FieldElement(105, 223), FieldElement(0, 223), FieldElement(7, 223)), Affine(FieldElement(17, 223), FieldElement(56, 223), FieldElement(0, 223), FieldElement(7, 223)), FieldElement(174, 223), FieldElement(48, 223), FieldElement(143, 223), FieldElement(156, 223), FieldElement(187, 223), FieldElement(170, 223), FieldElement(22, 223), FieldElement(24, 223), FieldElement(142, 223));
    PointAccepted170_142();
  }

  /** `test_add`: (192, 105) + (17, 56) == (170, 142). */
  lemma PointAddVector1()
    ensures ValidPoint(Affine(FieldElement(192, 223), FieldElement(105, 223), FieldElement(0, 223), FieldElement(7, 223))) && ValidPoint(Affine(FieldElement(17, 223), FieldElement(56, 223), FieldElement(0, 223), FieldElement(7, 223)))
    ensures Curve.Add(Affine(FieldElement(192, 223), FieldElement(105, 223), FieldElement(0, 223), FieldElement(7, 223)), Affine(FieldElement(17, 223), FieldElement(56, 223), FieldElement(0, 223), FieldElement(7, 223))) == Ok(Affine(FieldElement(170, 223), FieldElement(142, 223), FieldElement(0, 223), FieldElement(7, 223)))
  {
    PointAccepted192_105();
    PointAccepted17_56();
    ChordVector1();
    AddIsChord(Affine(FieldElement(192, 223), FieldElement(105, 223), FieldElement(0, 223), FieldElement(7, 223)), Affine(FieldElement(17, 223), FieldElement(56, 223), FieldElement(0, 223), FieldElement(7, 223)));
  }

  /** 70 / 70 == 1, through 70 ** 221. */
  lemma Quotient70_70()
    ensures Div(FieldElement(70, 223), FieldElement(70, 223)) == Ok(FieldElement(1, 223))
  {
    assert 223 - 2 == 221;
    assert ModPow(70, 1, 223) == 70;
    assert ModPow(70, 2, 223) == 217;
    assert ModPow(70, 3, 223) == 26;
    assert ModPow(70, 6, 223) == 7;
    assert ModPow(70, 12, 223) == 49;
    assert ModPow(70, 13, 223) == 85;
    assert ModPow(70, 26, 223) == 89;
    assert ModPow(70, 27, 223) == 209;
    assert ModPow(70, 54, 223) == 196;
    assert ModPow(70, 55, 223) == 117;
    assert ModPow(70, 110, 223) == 86;
    assert ModPow(70, 220, 223) == 37;
    assert ModPow(70, 221, 223) == 137;
    assert (70 * 137) % 223 == 1;
  }

  /** The chord through (47, 71) and (117, 141) gives (60, 139). */
  lemma ChordVector2()
    ensures ValidPoint(Affine(FieldElement(47, 223), FieldElement(71, 223), FieldElement(0, 223), FieldElement(7, 223))) && ValidPoint(Affine(FieldElement(117, 223), FieldElement(141, 223), FieldElement(0, 223), FieldElement(7, 223)))
    ensures Chord(Affine(FieldElement(47, 223), FieldElement(71, 223), FieldElement(0, 223), FieldElement(7, 223)), Affine(FieldElement(117, 223), FieldElement(141, 223), FieldElement(0, 223), FieldElement(7, 223))) == Ok(Affine(FieldElement(60, 223), FieldElement(139, 223), FieldElement(0, 223), FieldElement(7, 223)))
  {
    assert 2 % 222 == 2;
    assert ModPow(71, 1, 223) == 71;
    assert ModPow(71, 2, 223) == 135;
    assert 3 % 222 == 3;
    assert ModPow(47, 1, 223) == 47;
    assert ModPow(47, 2, 223) == 202;
    assert ModPow(47, 3, 223) == 128;
    assert ModPow(141, 1, 223) == 141;
    assert ModPow(141, 2, 223) == 34;
    assert ModPow(117, 1, 223) == 117;
    assert ModPow(117, 2, 223) == 86;
    assert ModPow(117, 3, 223) == 27;
    assert ModPow(139, 1, 223) == 139;
    assert ModPow(139, 2, 223) == 143;
    assert ModPow(60, 1, 223) == 60;
    assert ModPow(60, 2, 223) == 32;
    assert ModPow(60, 3, 223) == 136;
    PointAccepted47_71();
    PointAccepted117_141();
    assert ModPow(1, 1, 223) == 1;
    assert ModPow(1, 2, 223) == 1;
    assert (141 - 71) % 223 == 70;
    assert (117 - 47) % 223 == 70;
    assert (70 * 137) % 223 == 1;
    assert (1 - 47) % 223 == 177;
    assert (177 - 117) % 223 == 60;
    assert (47 - 60) % 223 == 210;
    assert (1 * 210) % 223 == 210;
    assert (210 - 71) % 223 == 139;
    Quotient70_70();
    ChordOf(Affine(FieldElement(47, 223), FieldElement(71, 223), FieldElement(0, 223), FieldElement(7, 223)), Affine(FieldElement(117, 223), FieldElement(141, 223), FieldElement(0, 223), FieldElement(7, 223)), FieldElement(70, 223), FieldElement(70, 223), FieldElement(1, 223), FieldElement(1, 223), FieldElement(177, 223), FieldElement(60, 223), FieldElement(210, 223), FieldElement(210, 223), FieldElement(139, 223));
    PointAccepted60_139();
  }

  /** `test_add`: (47, 71) + (117, 141) == (60, 139). */
  lemma PointAddVector2()
    ensures ValidPoint(Affine(FieldElement(47, 223), FieldElement(71, 223), FieldElement(0, 223), FieldElement(7, 223))) && ValidPoint(Affine(FieldElement(117, 223), FieldElement(141, 223), FieldElement(0, 223), FieldElement(7, 223)))
    ensures Curve.Add(Affine(FieldElement(47, 223), FieldElement(71, 223), FieldElement(0, 223), FieldElement(7, 223)), Affine(FieldElement(117, 223), FieldElement(141, 223), FieldElement(0, 223), FieldElement(7, 223))) == Ok(Affine(FieldElement(60, 223), FieldElement(139, 223), FieldElement(0, 223), FieldElement(7, 223)))
  {
    PointAccepted47_71();
    PointAccepted117_141();
    ChordVector2();
    AddIsChord(Affine(FieldElement(47, 223), FieldElement(71, 223), FieldElement(0, 223), FieldElement(7, 223)), Affine(FieldElement(117, 223), FieldElement(141, 223), FieldElement(0, 223), FieldElement(7, 223)));
  }

  /** 191 / 156 == 97, through 156 ** 221. */
  lemma Quotient191_156()
    ensures Div(FieldElement(191, 223), FieldElement(156, 223)) == Ok(FieldElement(97, 223))
  {
    assert 223 - 2 == 221;
    assert ModPow(156, 1, 223) == 156;
    assert ModPow(156, 2, 223) == 29;
    assert ModPow(156, 3, 223) == 64;
    assert ModPow(156, 6, 223) == 82;
    assert ModPow(156, 12, 223) == 34;
    assert ModPow(156, 13, 223) == 175;
    assert ModPow(156, 26, 223) == 74;
    assert ModPow(156, 27, 223) == 171;
    assert ModPow(156, 54, 223) == 28;
    assert ModPow(156, 55, 223) == 131;
    assert ModPow(156, 110, 223) == 213;
    assert ModPow(156, 220, 223) == 100;
    assert ModPow(156, 221, 223) == 213;
    assert (191 * 213) % 223 == 97;
  }

  /** The chord through (143, 98) and (76, 66) gives (47, 71). */
  lemma ChordVector3()
    ensures ValidPoint(Affine(FieldElement(143, 223), FieldElement(98, 223), FieldElement(0, 223), FieldElement(7, 223))) && ValidPoint(Affine(FieldElement(76, 223), FieldElement(66, 223), FieldElement(0, 223), FieldElement(7, 223)))
    ensures Chord(Affine(FieldElement(143, 223), FieldElement(98, 223), FieldElement(0, 223), FieldElement(7, 223)), Affine(FieldElement(76, 223), FieldElement(66, 223), FieldElement(0, 223), FieldElement(7, 223))) == Ok(Affine(FieldElement(47, 223), FieldElement(71, 223), FieldElement(0, 223), FieldElement(7, 223)))
  {
    assert 2 % 222 == 2;
    assert ModPow(98, 1, 223) == 98;
    assert ModPow(98, 2, 223) == 15;
    assert 3 % 222 == 3;
    assert ModPow(143, 1, 223) == 143;
    assert ModPow(143, 2, 223) == 156;
    assert ModPow(143, 3, 223) == 8;
    assert ModPow(66, 1, 223) == 66;
    assert ModPow(66, 2, 223) == 119;
    assert ModPow(76, 1, 223) == 76;
    assert ModPow(76, 2, 223) == 201;
    assert ModPow(76, 3, 223) == 112;
    assert ModPow(71, 1, 223) == 71;
    assert ModPow(71, 2, 223) == 135;
    assert ModPow(47, 1, 223) == 47;
    assert ModPow(47, 2, 223) == 202;
    assert ModPow(47, 3, 223) == 128;
    PointAccepted143_98();
    PointAccepted76_66();
    assert ModPow(97, 1, 223) == 97;
    assert ModPow(97, 2, 223) == 43;
    assert (66 - 98) % 223 == 191;
    assert (76 - 143) % 223 == 156;
    assert (191 * 213) % 223 == 97;
    assert (43 - 143) % 223 == 123;
    assert (123 - 76) % 223 == 47;
    assert (143 - 47) % 223 == 96;
    assert (97 * 96) % 223 == 169;
    assert (169 - 98) % 223 == 71;
    Quotient191_156();
    ChordOf(Affine(FieldElement(143, 223), FieldElement(98, 223), FieldElement(0, 223), FieldElement(7, 223)), Affine(FieldElement(76, 223), FieldElement(66, 223), FieldElement(0, 223), FieldElement(7, 223)), FieldElement(191, 223), FieldElement(156, 223), FieldElement(97, 223), FieldElement(43, 223), FieldElement(123, 223), FieldElement(47, 223), FieldElement(96, 223), FieldElement(169, 223), FieldElement(71, 223));
    PointAccepted47_71();
  }

  /** `test_add`: (143, 98) + (76, 66) == (47, 71). */
  lemma PointAddVector3()
    ensures ValidPoint(Affine(FieldElement(143, 223), FieldElement(98, 223), FieldElement(0, 223), FieldElement(7, 223))) && ValidPoint(Affine(FieldElement(76, 223), FieldElement(66, 223), FieldElement(0, 223), FieldElement(7, 223)))
    ensures Curve.Add(Affine(FieldElement(143, 223), FieldElement(98, 223), FieldElement(0, 223), FieldElement(7, 223)), Affine(FieldElement(76, 223), FieldElement(66, 223), FieldElement(0, 223), FieldElement(7, 223))) == Ok(Affine(FieldElement(47, 223), FieldElement(71, 223), FieldElement(0, 223), FieldElement(7, 223)))
  {
    PointAccepted143_98();
    PointAccepted76_66();
    ChordVector3();
    AddIsChord(Affine(FieldElement(143, 223), FieldElement(98, 223), FieldElement(0, 223), FieldElement(7, 223)), Affine(FieldElement(76, 223), FieldElement(66, 223), FieldElement(0, 223), FieldElement(7, 223)));
  }

  // ---------------------------------------------------------------------
  // A doubling vector on the same curve, computed from the tangent formula
  // of `__add__` (ecc.py:187-192); ecc.py itself has no test that doubles a
  // point

  /** (49, 71) lies on the curve. */
  lemma PointAccepted49_71()
    ensures NewPoint(Some(FieldElement(49, 223)), Some(FieldElement(71, 223)), FieldElement(0, 223), FieldElement(7, 223)) == Ok(Affine(FieldElement(49, 223), FieldElement(71, 223), FieldElement(0, 223), FieldElement(7, 223)))
    ensures ValidPoint(Affine(FieldElement(49, 223), FieldElement(71, 223), FieldElement(0, 223), FieldElement(7, 223)))
  {
    assert 2 % 222 == 2;
    assert ModPow(71, 1, 223) == 71;
    assert ModPow(71, 2, 223) == 135;
    assert 3 % 222 == 3;
    assert ModPow(49, 1, 223) == 49;
    assert ModPow(49, 2, 223) == 171;
    assert ModPow(49, 3, 223) == 128;
    OnCurveOf(FieldElement(49, 223), FieldElement(71, 223), FieldElement(0, 223), FieldElement(7, 223), FieldElement(135, 223), FieldElement(128, 223), FieldElement(0, 223), FieldElement(128, 223), FieldElement(135, 223));
    NewPointOf(FieldElement(49, 223), FieldElement(71, 223), FieldElement(0, 223), FieldElement(7, 223));
  }

  /** 207 / 210 == 87, through 210 ** 221. */
  lemma Quotient207_210()
    ensures Div(FieldElement(207, 223), FieldElement(210, 223)) == Ok(FieldElement(87, 223))
  {
    assert 223 - 2 == 221;
    assert ModPow(210, 1, 223) == 210;
    assert ModPow(210, 2, 223) == 169;
    assert ModPow(210, 3, 223) == 33;
    assert ModPow(210, 6, 223) == 197;
    assert ModPow(210, 12, 223) == 7;
    assert ModPow(210, 13, 223) == 132;
    assert ModPow(210, 26, 223) == 30;
    assert ModPow(210, 27, 223) == 56;
    assert ModPow(210, 54, 223) == 14;
    assert ModPow(210, 55, 223) == 41;
    assert ModPow(210, 110, 223) == 120;
    assert ModPow(210, 220, 223) == 128;
    assert ModPow(210, 221, 223) == 120;
    assert (207 * 120) % 223 == 87;
  }

  /** The intermediate values of the tangent at (192, 105). */
  lemma StepsDoubleVector()
    ensures TangentSteps(FieldElement(192, 223), FieldElement(105, 223), FieldElement(0, 223), FieldElement(69, 223), FieldElement(207, 223), FieldElement(87, 223), FieldElement(210, 223), FieldElement(49, 223), FieldElement(143, 223), FieldElement(176, 223), FieldElement(71, 223))
  {
    assert 2 % 222 == 2;
    assert ModPow(192, 1, 223) == 192;
    assert ModPow(192, 2, 223) == 69;
    assert Pow(FieldElement(192, 223), 2) == Ok(FieldElement(69, 223));
    assert Scale(3, FieldElement(69, 223)) == FieldElement(207, 223);
    assert Field.Add(Scale(3, FieldElement(69, 223)), FieldElement(0, 223)) == Ok(FieldElement(207, 223));
    assert Scale(2, FieldElement(105, 223)) == FieldElement(210, 223);
    assert ModPow(87, 1, 223) == 87;
    assert ModPow(87, 2, 223) == 210;
    assert Pow(FieldElement(87, 223), 2) == Ok(FieldElement(210, 223));
    assert Scale(2, FieldElement(192, 223)) == FieldElement(161, 223);
    assert Sub(FieldElement(210, 223), Scale(2, FieldElement(192, 223))) == Ok(FieldElement(49, 223));
    assert Sub(FieldElement(192, 223), FieldElement(49, 223)) == Ok(FieldElement(143, 223));
    assert Mul(FieldElement(87, 223), FieldElement(143, 223)) == Ok(FieldElement(176, 223));
    assert Sub(FieldElement(176, 223), FieldElement(105, 223)) == Ok(FieldElement(71, 223));
    Quotient207_210();
  }

  /** The tangent at (192, 105) gives (49, 71). */
  lemma TangentDoubleVector()
    ensures ValidPoint(Affine(FieldElement(192, 223), FieldElement(105, 223), FieldElement(0, 223), FieldElement(7, 223)))
    ensures Tangent(Affine(FieldElement(192, 223), FieldElement(105, 223), FieldElement(0, 223), FieldElement(7, 223))) == Ok(Affine(FieldElement(49, 223), FieldElement(71, 223), FieldElement(0, 223), FieldElement(7, 223)))
  {
    PointAccepted192_105();
    StepsDoubleVector();
    TangentOf(Affine(FieldElement(192, 223), FieldElement(105, 223), FieldElement(0, 223), FieldElement(7, 223)), FieldElement(69, 223), FieldElement(207, 223), FieldElement(87, 223), FieldElement(210, 223), FieldElement(49, 223), FieldElement(143, 223), FieldElement(176, 223), FieldElement(71, 223));
    PointAccepted49_71();
  }

  /** (192, 105) + (192, 105) == (49, 71). */
  lemma PointDoubleVector()
    ensures ValidPoint(Affine(FieldElement(192, 223), FieldElement(105, 223), FieldElement(0, 223), FieldElement(7, 223)))
    ensures Curve.Add(Affine(FieldElement(192, 223), FieldElement(105, 223), FieldElement(0, 223), FieldElement(7, 223)), Affine(FieldElement(192, 223), FieldElement(105, 223), FieldElement(0, 223), FieldElement(7, 223))) == Ok(Affine(FieldElement(49, 223), FieldElement(71, 223), FieldElement(0, 223), FieldElement(7, 223)))
  {
    PointAccepted192_105();
    TangentDoubleVector();
    AddIsTangent(Affine(FieldElement(192, 223), FieldElement(105, 223), FieldElement(0, 223), FieldElement(7, 223)));
  }
}
