/** What correct rounding entails, and the special-purpose conversions that must agree with it. */
module RoundingLaws {
  import opened BinaryRounding
  import opened Powers

  // ---------------------------------------------------------------- order, common factors, exactness

  /** Being at most as far from `high` as from `low` is being at or above their midpoint. */
  lemma Midpoint(x: nat, d: nat, low: nat, high: nat)
    requires low < high
    ensures Distance(x, high * d) <= Distance(x, low * d) && d > 0 ==> (low + high) * d <= 2 * x
    ensures Distance(x, low * d) <= Distance(x, high * d) && d > 0 ==> 2 * x <= (low + high) * d
    ensures 2 * x == (low + high) * d ==> Distance(x, low * d) == Distance(x, high * d)
  {
    MulLe(low, high, d);
    if d > 0 { MulLt(low, high, d); }
    Distribute(low, high, d);
  }

  /** Nearest encodings are ordered like the ratios they round. */
  lemma NearestMonotone(f: Format, n1: nat, d1: nat, b1: nat, n2: nat, d2: nat, b2: nat)
    requires Scale(f) >= 0 && d1 > 0 && d2 > 0 && n1 * d2 <= n2 * d1
    requires Nearest(f, n1, d1, b1) && Nearest(f, n2, d2, b2)
    ensures b1 <= b2
  {
    if b2 < b1 {
      var x1, x2 := n1 * Pow2(Scale(f)), n2 * Pow2(Scale(f));
      DecodeMonotone(f, b2, b1);
      assert NoNearer(f, x1, d1, b1, b2) && NoNearer(f, x2, d2, b2, b1);
      assert NoNearer(f, x1, d1, b1, b2 + 1);
      assert b2 + 1 < b1 ==> Decode(f, b2) < Decode(f, b2 + 1) < Decode(f, b1) by {
        DecodeNext(f, b2);
        if b2 + 1 < b1 { DecodeMonotone(f, b2 + 1, b1); }
      }
      ScaledOrder(n1, d1, n2, d2, Pow2(Scale(f)));
      hide *;
      Inverted(x1, d1, x2, d2, Decode(f, b2), Decode(f, b1));
      if b2 + 1 < b1 {
        Midpoint(x1, d1, Decode(f, b2 + 1), Decode(f, b1));
        MulLt(Decode(f, b2) + Decode(f, b1), Decode(f, b2 + 1) + Decode(f, b1), d1);
      }
    }
  }

  lemma ScaledOrder(n1: nat, d1: nat, n2: nat, d2: nat, c: nat)
    requires n1 * d2 <= n2 * d1
    ensures (n1 * c) * d2 <= (n2 * c) * d1
  {
    MulLe(n1 * d2, n2 * d1, c);
    Swap(n1, d2, c);
    Swap(n2, d1, c);
  }

  lemma Swap(a: int, b: int, c: int)
    ensures (a * b) * c == (a * c) * b
  {
  }

  /** If the smaller ratio prefers the larger value and conversely, both are the midpoint. */
  lemma Inverted(x1: nat, d1: nat, x2: nat, d2: nat, low: nat, high: nat)
    requires d1 > 0 && d2 > 0 && low < high && x1 * d2 <= x2 * d1
    requires Distance(x1, high * d1) <= Distance(x1, low * d1)
    requires Distance(x2, low * d2) <= Distance(x2, high * d2)
    ensures 2 * x1 == (low + high) * d1 && 2 * x2 == (low + high) * d2
    ensures Distance(x1, low * d1) == Distance(x1, high * d1) && Distance(x2, low * d2) == Distance(x2, high * d2)
  {
    Midpoint(x1, d1, low, high);
    Midpoint(x2, d2, low, high);
    Squeeze(x1, d1, x2, d2, low + high);
  }

  lemma Squeeze(x1: nat, d1: nat, x2: nat, d2: nat, m: nat)
    requires d1 > 0 && d2 > 0 && x1 * d2 <= x2 * d1 && m * d1 <= 2 * x1 && 2 * x2 <= m * d2
    ensures 2 * x1 == m * d1 && 2 * x2 == m * d2
  {
    Swap(m, d1, d2);
    MulAssoc2(x1, d2);
    MulAssoc2(x2, d1);
    if m * d1 < 2 * x1 { MulLt(m * d1, 2 * x1, d2); } else { MulLe(m * d1, 2 * x1, d2); }
    if 2 * x2 < m * d2 { MulLt(2 * x2, m * d2, d1); } else { MulLe(2 * x2, m * d2, d1); }
  }

  /** Larger ratios never round to smaller encodings. */
  lemma RoundingIsMonotone(f: Format, n1: nat, d1: nat, n2: nat, d2: nat)
    requires ValidFormat(f) && d1 > 0 && d2 > 0 && n1 * d2 <= n2 * d1
    ensures RatioToBits(f, n1, d1) <= RatioToBits(f, n2, d2)
  {
    CorrectlyRounded(f, n1, d1);
    CorrectlyRounded(f, n2, d2);
    hide *;
    NearestMonotone(f, n1, d1, RatioToBits(f, n1, d1), n2, d2, RatioToBits(f, n2, d2));
  }

  /** Equal ratios round to the same bits: common factors are irrelevant. */
  lemma RoundingIgnoresCommonFactors(f: Format, n1: nat, d1: nat, n2: nat, d2: nat)
    requires ValidFormat(f) && d1 > 0 && d2 > 0 && n1 * d2 == n2 * d1
    ensures RatioToBits(f, n1, d1) == RatioToBits(f, n2, d2)
  {
    RoundingIsMonotone(f, n1, d1, n2, d2);
    RoundingIsMonotone(f, n2, d2, n1, d1);
  }

  /** Only one encoding is nearest, so the conversion is the reference definition and nothing else. */
  lemma NearestIsTheConversion(f: Format, n: nat, d: nat, bits: nat)
    requires ValidFormat(f) && d > 0 && Scale(f) >= 0
    ensures Nearest(f, n, d, bits) <==> bits == RatioToBits(f, n, d)
  {
    CorrectlyRounded(f, n, d);
    hide *;
    if Nearest(f, n, d, bits) {
      NearestMonotone(f, n, d, bits, n, d, RatioToBits(f, n, d));
      NearestMonotone(f, n, d, RatioToBits(f, n, d), n, d, bits);
    }
  }

  /** A ratio equal to a representable value converts to that value's encoding. */
  lemma ExactOnRepresentable(f: Format, n: nat, d: nat, bits: nat)
    requires ValidFormat(f) && d > 0 && Scale(f) >= 0 && bits <= InfinityBits(f)
    requires n * Pow2(Scale(f)) == Decode(f, bits) * d
    ensures RatioToBits(f, n, d) == bits
  {
    forall other: nat | other <= InfinityBits(f) && other != bits
      ensures Decode(f, other) * d != Decode(f, bits) * d
    {
      if other < bits {
        DecodeMonotone(f, other, bits);
        MulLt(Decode(f, other), Decode(f, bits), d);
      } else {
        DecodeMonotone(f, bits, other);
        MulLt(Decode(f, bits), Decode(f, other), d);
      }
    }
    assert Nearest(f, n, d, bits);
    NearestIsTheConversion(f, n, d, bits);
  }

  /** The two standard formats by numbers: infinity, the smallest subnormal 2^-149 or 2^-1074, and the first binades; a number
      that is one is encoded as the standard has it. */
  lemma StandardEncodings()
    ensures InfinityBits(Binary32()) == 0x7F80_0000 && Scale(Binary32()) == 149
    ensures InfinityBits(Binary64()) == 0x7FF0_0000_0000_0000 && Scale(Binary64()) == 1074
    ensures Decode(Binary32(), 0x00FF_FFFF) == 0x00FF_FFFF && Decode(Binary32(), 0x0100_0001) == 0x0100_0002
    ensures Decode(Binary64(), 0x001F_FFFF_FFFF_FFFF) == 0x001F_FFFF_FFFF_FFFF
    ensures Decode(Binary64(), 0x0020_0000_0000_0001) == 0x0020_0000_0000_0002
    ensures RatioToBits(Binary32(), 1, 1) == 0x3F80_0000 && RatioToBits(Binary64(), 1, 1) == 0x3FF0_0000_0000_0000
  {
    StandardFormats();
    StandardPowers();
    hide Pow2, RatioToBits;
    OneEncoded(Binary32(), 0x3F80_0000);
    OneEncoded(Binary64(), 0x3FF0_0000_0000_0000);
  }

  lemma StandardPowers()
    ensures Pow2(8) == 0x100 && Pow2(11) == 0x800 && Pow2(23) == 0x80_0000 && Pow2(52) == 0x10_0000_0000_0000
  {
    assert Pow2(6) == 64;
    Pow2Add(6, 2);
    Pow2Add(8, 3);
    Pow2Add(11, 12);
    Pow2Add(8, 8);
    Pow2Add(16, 7);
    Pow2Add(23, 23);
    Pow2Add(46, 6);
  }

  lemma OneEncoded(f: Format, bits: nat)
    requires ValidFormat(f) && f.bias >= 1 && Scale(f) >= 0 && bits == f.bias * Pow2(f.fraction)
    ensures RatioToBits(f, 1, 1) == bits
  {
    DecodeFields(f, f.bias, 0);
    Pow2Add(f.fraction, f.bias - 1);
    assert Decode(f, bits) == Pow2(Scale(f));
    assert bits <= InfinityBits(f) by { MulLe(f.bias, Pow2(f.exponentBits) - 1, Pow2(f.fraction)); }
    hide RatioToBits, Decode, Pow2;
    ExactOnRepresentable(f, 1, 1, bits);
  }
}
