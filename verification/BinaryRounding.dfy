/** Rounding an exact positive ratio to an IEEE 754 binary format.

    Every finite value of a format is a whole number of its smallest subnormal.  `Decode` gives that
    number, and reads the infinity encoding as the next value after the largest finite one, so
    "round to nearest, ties to even, overflow to infinity" (IEEE 754-2019, sections 3.4 and 4.3.1) is
    one statement about encodings: see `Nearest`. */
module BinaryRounding {
  import opened Powers

  // ---------------------------------------------------------------- formats and encodings

  /** `fraction` bits after the leading one, exponents from `minExponent` to `1 - minExponent`. */
  datatype Format = Format(precision: nat, minExponent: int, maxExponent: int, bias: int, exponentBits: nat, fraction: nat)

  ghost predicate ValidFormat(f: Format) {
    && f.fraction >= 1 && f.precision == f.fraction + 1
    && f.maxExponent >= 1 && f.minExponent == 1 - f.maxExponent && f.bias == f.maxExponent
    && Pow2(f.exponentBits) == 2 * f.maxExponent + 2
  }

  function Binary32(): Format { Format(24, -126, 127, 127, 8, 23) }

  function Binary64(): Format { Format(53, -1022, 1023, 1023, 11, 52) }

  lemma StandardFormats()
    ensures ValidFormat(Binary32()) && ValidFormat(Binary64())
  {
    assert Pow2(8) == 256;
    Pow2Add(8, 3);
  }

  function InfinityBits(f: Format): nat {
    (Pow2(f.exponentBits) - 1) * Pow2(f.fraction)
  }

  /** The value of an encoding, counted in smallest subnormals: adding one to the exponent field of a
      normal number doubles it.  `DecodeFields` states the same by fields. */
  function Decode(f: Format, bits: nat): nat
    decreases bits
  {
    if bits < 2 * Pow2(f.fraction) then bits else 2 * Decode(f, bits - Pow2(f.fraction))
  }

  /** How many powers of two separate one from the smallest subnormal. */
  function Scale(f: Format): int { f.fraction - f.minExponent }

  function Distance(a: int, b: int): nat { if a <= b then b - a else a - b }

  /** `bits` encodes the value nearest to numerator/denominator, and is even whenever another is as near. */
  ghost predicate Nearest(f: Format, numerator: nat, denominator: nat, bits: nat)
    requires Scale(f) >= 0
  {
    && bits <= InfinityBits(f)
    && forall other: nat :: other <= InfinityBits(f) ==> NoNearer(f, numerator * Pow2(Scale(f)), denominator, bits, other)
  }

  ghost predicate NoNearer(f: Format, scaled: nat, denominator: nat, bits: nat, other: nat) {
    var mine, its := Distance(scaled, Decode(f, bits) * denominator), Distance(scaled, Decode(f, other) * denominator);
    mine <= its && (mine == its && other != bits ==> bits % 2 == 0)
  }

  // ---------------------------------------------------------------- the conversion

  function RoundScaledRatio(numerator: nat, denominator: nat, shift: int): nat
    requires denominator > 0
  {
    if shift >= 0 then RoundQuotient(numerator * Pow2(shift), denominator)
    else RoundQuotient(numerator, denominator * Pow2(-shift))
  }

  function RoundQuotient(n: nat, d: nat): nat
    requires d > 0
  {
    var quotient, remainder := n / d, n % d;
    if 2 * remainder > d || (2 * remainder == d && quotient % 2 == 1) then quotient + 1 else quotient
  }

  function FloorLog2(numerator: nat, denominator: nat): int
    requires numerator > 0 && denominator > 0
  {
    var exponent := BitLength(numerator) - BitLength(denominator);
    if exponent >= 0 then
      if numerator < denominator * Pow2(exponent) then exponent - 1 else exponent
    else
      if numerator * Pow2(-exponent) < denominator then exponent - 1 else exponent
  }

  /** _ratio_to_binary_bits without the sign bit, which is disjoint from the result. */
  function RatioToBits(f: Format, numerator: nat, denominator: nat): int
    requires ValidFormat(f) && denominator > 0
  {
    if numerator == 0 then 0 else
    var exponent := FloorLog2(numerator, denominator);
    if exponent < f.minExponent then
      var significand := RoundScaledRatio(numerator, denominator, f.precision - 1 - f.minExponent);
      if significand == 0 then 0
      else if significand < Pow2(f.precision - 1) then significand
      else Pow2(f.fraction)
    else
      var rounded := RoundScaledRatio(numerator, denominator, f.precision - 1 - exponent);
      var carried := rounded == Pow2(f.precision);
      var significand := if carried then rounded / 2 else rounded;
      var final := if carried then exponent + 1 else exponent;
      if final > f.maxExponent then InfinityBits(f)
      else (final + f.bias) * Pow2(f.fraction) + (significand - Pow2(f.precision - 1))
  }

  // ---------------------------------------------------------------- decoding is strictly monotone

  lemma Distribute(a: int, b: int, c: int)
    ensures (a + b) * c == a * c + b * c
  {
  }

  lemma Double(a: int, b: int)
    ensures a * (2 * b) == (2 * a) * b
    ensures a * (2 * b) == 2 * (a * b)
  {
  }

  /** The encoding with `k` steps of exponent and significand `s`, carries included. */
  lemma {:induction false} DecodeAt(f: Format, k: nat, s: nat)
    requires Pow2(f.fraction) <= s <= 2 * Pow2(f.fraction)
    ensures Decode(f, k * Pow2(f.fraction) + s) == s * Pow2(k)
  {
    if k > 0 {
      var unit := Pow2(f.fraction);
      assert k * unit + s == ((k - 1) * unit + s) + unit by { Distribute(k - 1, 1, unit); }
      DecodeAt(f, k - 1, s);
      Double(s, Pow2(k - 1));
    }
  }

  /** IEEE 754-2019, section 3.4: a zero exponent field is subnormal, any other has an implicit leading one. */
  lemma DecodeFields(f: Format, field: nat, rest: nat)
    requires rest < Pow2(f.fraction)
    ensures Decode(f, field * Pow2(f.fraction) + rest) ==
            if field == 0 then rest else (Pow2(f.fraction) + rest) * Pow2(field - 1)
  {
    if field > 0 {
      Distribute(field - 1, 1, Pow2(f.fraction));
      DecodeAt(f, field - 1, Pow2(f.fraction) + rest);
    }
  }

  lemma {:induction false} DecodeNext(f: Format, bits: nat)
    ensures Decode(f, bits) < Decode(f, bits + 1)
    decreases bits
  {
    if bits >= 2 * Pow2(f.fraction) { DecodeNext(f, bits - Pow2(f.fraction)); }
  }

  lemma {:induction false} DecodeMonotone(f: Format, a: nat, b: nat)
    requires a < b
    ensures Decode(f, a) < Decode(f, b)
    decreases b - a
  {
    DecodeNext(f, b - 1);
    if a < b - 1 { DecodeMonotone(f, a, b - 1); }
  }

  // ---------------------------------------------------------------- nearest is decided by the neighbours

  ghost predicate Between(f: Format, scaled: nat, d: nat, bits: nat) {
    && bits <= InfinityBits(f)
    && (bits < InfinityBits(f) ==>
          var mid := (Decode(f, bits) + Decode(f, bits + 1)) * d;
          2 * scaled <= mid && (2 * scaled == mid ==> bits % 2 == 0))
    && (bits > 0 ==>
          var mid := (Decode(f, bits - 1) + Decode(f, bits)) * d;
          mid <= 2 * scaled && (2 * scaled == mid ==> bits % 2 == 0))
  }

  lemma BetweenIsNearest(f: Format, numerator: nat, d: nat, bits: nat)
    requires Scale(f) >= 0 && d > 0 && Between(f, numerator * Pow2(Scale(f)), d, bits)
    ensures Nearest(f, numerator, d, bits)
  {
    var scaled := numerator * Pow2(Scale(f));
    forall other: nat | other <= InfinityBits(f) ensures NoNearer(f, scaled, d, bits, other) {
      if other > bits {
        DecodeMonotone(f, bits, other);
        DecodeNext(f, bits);
        if other > bits + 1 { DecodeMonotone(f, bits + 1, other); }
        Above(scaled, d, Decode(f, bits), Decode(f, bits + 1), Decode(f, other));
      } else if other < bits {
        DecodeMonotone(f, other, bits);
        DecodeNext(f, bits - 1);
        if other < bits - 1 { DecodeMonotone(f, other, bits - 1); }
        Below(scaled, d, Decode(f, bits), Decode(f, bits - 1), Decode(f, other));
      }
    }
  }

  lemma Above(x: nat, d: nat, a: nat, next: nat, other: nat)
    requires d > 0 && a < next <= other && 2 * x <= (a + next) * d
    ensures Distance(x, a * d) <= Distance(x, other * d)
    ensures Distance(x, a * d) == Distance(x, other * d) ==> 2 * x == (a + next) * d
  {
    MulLt(a, next, d);
    MulLe(next, other, d);
    assert (a + next) * d == a * d + next * d;
  }

  lemma Below(x: nat, d: nat, a: nat, prev: nat, other: nat)
    requires d > 0 && other <= prev < a && (prev + a) * d <= 2 * x
    ensures Distance(x, a * d) <= Distance(x, other * d)
    ensures Distance(x, a * d) == Distance(x, other * d) ==> 2 * x == (prev + a) * d
  {
    MulLt(prev, a, d);
    MulLe(other, prev, d);
    assert (prev + a) * d == prev * d + a * d;
  }

  // ---------------------------------------------------------------- rounding a quotient

  /** `s` is n/d rounded to the nearest integer, ties to even. */
  ghost predicate Rounds(n: nat, d: nat, s: nat) {
    && (2 * s - 1) * d <= 2 * n <= (2 * s + 1) * d
    && (2 * n == (2 * s - 1) * d || 2 * n == (2 * s + 1) * d ==> s % 2 == 0)
  }

  lemma RoundQuotientRounds(n: nat, d: nat)
    requires d > 0
    ensures Rounds(n, d, RoundQuotient(n, d))
  {
    var q, r := n / d, n % d;
    assert n == q * d + r;
    if 2 * r > d || (2 * r == d && q % 2 == 1) {
      RoundedUp(n, d, q, r);
    } else {
      RoundedDown(n, d, q, r);
    }
  }

  lemma RoundedDown(n: nat, d: nat, q: nat, r: nat)
    requires n == q * d + r && 2 * r <= d && (2 * r == d ==> q % 2 == 0)
    ensures Rounds(n, d, q)
  {
    OddMultiple(q, 1, d);
    OddMultiple(q, -1, d);
  }

  lemma RoundedUp(n: nat, d: nat, q: nat, r: nat)
    requires n == q * d + r && r < d <= 2 * r && (2 * r == d ==> q % 2 == 1)
    ensures Rounds(n, d, q + 1)
  {
    OddMultiple(q, 1, d);
    OddMultiple(q, 3, d);
    assert 2 * (q + 1) - 1 == 2 * q + 1 && 2 * (q + 1) + 1 == 2 * q + 3;
  }

  lemma OddMultiple(q: nat, c: int, d: nat)
    ensures (2 * q + c) * d == 2 * (q * d) + c * d
  {
  }

  lemma RoundsScaled(n: nat, d: nat, c: nat, s: nat)
    requires c > 0
    ensures Rounds(n, d, s) <==> Rounds(n * c, d * c, s)
  {
    var lo, hi := (2 * s - 1) * d, (2 * s + 1) * d;
    assert (2 * s - 1) * (d * c) == lo * c && (2 * s + 1) * (d * c) == hi * c && 2 * (n * c) == 2 * n * c;
    if lo <= 2 * n { MulLe(lo, 2 * n, c); } else { MulLt(2 * n, lo, c); }
    if 2 * n <= hi { MulLe(2 * n, hi, c); } else { MulLt(hi, 2 * n, c); }
    if lo < 2 * n { MulLt(lo, 2 * n, c); }
    if 2 * n < hi { MulLt(2 * n, hi, c); }
  }

  /** Rounding lies between any two integers the quotient lies between. */
  lemma RoundsBounds(n: nat, d: nat, s: nat, lo: nat, hi: nat)
    requires d > 0 && Rounds(n, d, s) && lo * d <= n <= hi * d
    ensures lo <= s <= hi
  {
    if s < lo {
      MulLe(2 * s + 1, 2 * lo - 1, d);
      Distribute(2 * lo, -1, d);
      MulAssoc2(lo, d);
    }
    if hi < s {
      MulLe(2 * hi + 1, 2 * s - 1, d);
      Distribute(2 * hi, 1, d);
      MulAssoc2(hi, d);
    }
  }

  lemma MulAssoc2(a: int, b: int)
    ensures 2 * a * b == 2 * (a * b)
  {
  }

  // ---------------------------------------------------------------- the exponent

  /** numerator/denominator is at least 2^e. */
  ghost predicate AtLeast(numerator: nat, denominator: nat, e: int) {
    if e >= 0 then denominator * Pow2(e) <= numerator else denominator <= numerator * Pow2(-e)
  }

  /** The same comparison after scaling both sides by 2^q. */
  lemma AtLeastScaled(n: nat, d: nat, e: int, q: nat)
    requires e + q >= 0
    ensures AtLeast(n, d, e) <==> d * Pow2(e + q) <= n * Pow2(q)
  {
    if e >= 0 {
      Pow2Add(e, q);
      Regroup(d, Pow2(e), Pow2(q));
      if d * Pow2(e) <= n { MulLe(d * Pow2(e), n, Pow2(q)); } else { MulLt(n, d * Pow2(e), Pow2(q)); }
    } else {
      Pow2Add(-e, e + q);
      Regroup(n, Pow2(-e), Pow2(e + q));
      if d <= n * Pow2(-e) { MulLe(d, n * Pow2(-e), Pow2(e + q)); } else { MulLt(n * Pow2(-e), d, Pow2(e + q)); }
    }
  }

  lemma Regroup(a: int, b: int, c: int)
    ensures a * (b * c) == (a * b) * c
  {
  }

  lemma FloorLog2Bounds(n: nat, d: nat)
    requires n > 0 && d > 0
    ensures AtLeast(n, d, FloorLog2(n, d)) && !AtLeast(n, d, FloorLog2(n, d) + 1)
  {
    BitLengthBounds(n);
    BitLengthBounds(d);
    LengthsBelow(n, d, BitLength(n) - 1, BitLength(d));
    LengthsAbove(n, d, BitLength(n), BitLength(d) - 1);
  }

  lemma LengthsBelow(n: nat, d: nat, a: nat, b: nat)
    requires Pow2(a) <= n && d < Pow2(b)
    ensures AtLeast(n, d, a - b)
  {
    hide *;
    CrossLe(d, Pow2(b), Pow2(a), n);
    AtLeastScaled(n, d, a - b, b);
  }

  lemma LengthsAbove(n: nat, d: nat, a: nat, b: nat)
    requires n < Pow2(a) && Pow2(b) <= d
    ensures !AtLeast(n, d, a - b)
  {
    hide *;
    CrossLt(n, Pow2(a), Pow2(b), d);
    AtLeastScaled(n, d, a - b, b);
  }

  lemma CrossLe(a: nat, b: nat, c: nat, d: nat)
    requires a <= b && c <= d
    ensures a * c <= d * b
  {
    MulLe(a, b, c);
    MulLe(c, d, b);
  }

  lemma CrossLt(a: nat, b: nat, c: nat, d: nat)
    requires a < b && 0 < c <= d
    ensures a * c < d * b
  {
    MulLt(a, b, c);
    MulLe(c, d, b);
  }

  // ---------------------------------------------------------------- correct rounding

  lemma RoundsShift(n: nat, d: nat, a: nat, c: nat, ac: nat, s: nat)
    requires c > 0 && ac == a * c
    ensures Rounds(n * a, d, s) ==> Rounds(n * ac, d * c, s)
    ensures Rounds(n, d * a, s) ==> Rounds(n * c, d * ac, s)
  {
    Regroup(n, a, c);
    Regroup(d, a, c);
    RoundsScaled(n * a, d, c, s);
    RoundsScaled(n, d * a, c, s);
  }

  /** Rounding numerator/denominator * 2^shift is rounding the scaled numerator over denominator * 2^k. */
  lemma RoundScaledRounds(n: nat, d: nat, q: nat, k: nat)
    requires d > 0
    ensures Rounds(n * Pow2(q), d * Pow2(k), RoundScaledRatio(n, d, q - k))
  {
    hide *;
    if q >= k {
      RoundScaledUp(n, d, q, k, q - k);
    } else {
      RoundScaledDown(n, d, q, k);
    }
  }

  lemma RoundScaledUp(n: nat, d: nat, q: nat, k: nat, shift: nat)
    requires d > 0 && shift + k == q
    ensures Rounds(n * Pow2(q), d * Pow2(k), RoundScaledRatio(n, d, shift))
  {
    PowerSplit(shift, k, q);
    ShiftNumerator(n, d, Pow2(shift), Pow2(k), Pow2(q));
  }

  lemma RoundScaledDown(n: nat, d: nat, q: nat, k: nat)
    requires d > 0 && q < k
    ensures Rounds(n * Pow2(q), d * Pow2(k), RoundScaledRatio(n, d, q - k))
  {
    PowerSplit(k - q, q, k);
    ShiftDenominator(n, d, Pow2(k - q), Pow2(q), Pow2(k));
    assert -(q - k) == k - q;
  }

  lemma PowerSplit(a: nat, b: nat, c: nat)
    requires a + b == c
    ensures Pow2(c) == Pow2(a) * Pow2(b)
  {
    Pow2Add(a, b);
  }

  lemma ShiftNumerator(n: nat, d: nat, a: nat, c: nat, ac: nat)
    requires d > 0 && c > 0 && ac == a * c
    ensures Rounds(n * ac, d * c, RoundQuotient(n * a, d))
  {
    RoundQuotientRounds(n * a, d);
    RoundsShift(n, d, a, c, ac, RoundQuotient(n * a, d));
  }

  lemma ShiftDenominator(n: nat, d: nat, a: nat, c: nat, ac: nat)
    requires d > 0 && a > 0 && c > 0 && ac == a * c
    ensures d * a > 0 && Rounds(n * c, d * ac, RoundQuotient(n, d * a))
  {
    RoundQuotientRounds(n, d * a);
    RoundsShift(n, d, a, c, ac, RoundQuotient(n, d * a));
  }

  /** A significand rounded at scale `k` is between its neighbours, provided the ratio is not below the binade. */
  lemma RoundedIsBetween(f: Format, x: nat, d: nat, k: nat, s: nat)
    requires f.fraction >= 1 && d > 0 && Pow2(f.fraction) <= s <= 2 * Pow2(f.fraction)
    requires Rounds(x, d * Pow2(k), s) && Pow2(f.fraction) * (d * Pow2(k)) <= x
    requires k * Pow2(f.fraction) + s <= InfinityBits(f)
    ensures Between(f, x, d, k * Pow2(f.fraction) + s)
  {
    var bits := k * Pow2(f.fraction) + s;
    hide *;
    EvenUnit(f, k, s);
    AboveRounded(f, x, d, k, s, bits);
    BelowRounded(f, x, d, k, s, bits);
    IsBetween(f, x, d, bits);
  }

  ghost predicate BelowMid(f: Format, x: nat, d: nat, bits: nat, even: bool) {
    var mid := (Decode(f, bits) + Decode(f, bits + 1)) * d;
    2 * x <= mid && (2 * x == mid ==> even)
  }

  ghost predicate AboveMid(f: Format, x: nat, d: nat, bits: nat, even: bool)
    requires bits > 0
  {
    var mid := (Decode(f, bits - 1) + Decode(f, bits)) * d;
    mid <= 2 * x && (2 * x == mid ==> even)
  }

  lemma IsBetween(f: Format, x: nat, d: nat, bits: nat)
    requires 0 < bits <= InfinityBits(f)
    requires BelowMid(f, x, d, bits, bits % 2 == 0) && AboveMid(f, x, d, bits, bits % 2 == 0)
    ensures Between(f, x, d, bits)
  {
    hide Decode, InfinityBits;
  }

  lemma AboveRounded(f: Format, x: nat, d: nat, k: nat, s: nat, bits: nat)
    requires Pow2(f.fraction) <= s <= 2 * Pow2(f.fraction) && Rounds(x, d * Pow2(k), s) && bits == k * Pow2(f.fraction) + s
    ensures BelowMid(f, x, d, bits, s % 2 == 0)
  {
    UpperNeighbour(f, k, s);
    hide Decode, Pow2, Rounds;
    MidAbove(x, d, Pow2(k), s, Decode(f, bits) + Decode(f, bits + 1));
  }

  lemma BelowRounded(f: Format, x: nat, d: nat, k: nat, s: nat, bits: nat)
    requires d > 0 && Pow2(f.fraction) <= s <= 2 * Pow2(f.fraction) && bits == k * Pow2(f.fraction) + s
    requires Rounds(x, d * Pow2(k), s) && Pow2(f.fraction) * (d * Pow2(k)) <= x
    ensures bits > 0 && AboveMid(f, x, d, bits, s % 2 == 0)
  {
    hide Decode, Rounds;
    if s > Pow2(f.fraction) {
      LowerNeighbour(f, k, s);
      MidBelow(x, d, Pow2(k), s, Decode(f, bits - 1) + Decode(f, bits));
    } else {
      DecodeAt(f, k, s);
      DecodeNext(f, bits - 1);
      MidFarBelow(x, d, Pow2(k), s, Decode(f, bits - 1) + Decode(f, bits));
    }
  }

  lemma MidAbove(x: nat, d: nat, p: nat, s: nat, sum: nat)
    requires Rounds(x, d * p, s) && (2 * s + 1) * p <= sum
    ensures 2 * x <= sum * d && (2 * x == sum * d ==> s % 2 == 0)
  {
    Rearrange(2 * s + 1, d, p);
    MulLe((2 * s + 1) * p, sum, d);
  }

  lemma MidBelow(x: nat, d: nat, p: nat, s: nat, sum: nat)
    requires Rounds(x, d * p, s) && (2 * s - 1) * p == sum
    ensures sum * d <= 2 * x && (2 * x == sum * d ==> s % 2 == 0)
  {
    Rearrange(2 * s - 1, d, p);
  }

  lemma MidFarBelow(x: nat, d: nat, p: nat, s: nat, sum: nat)
    requires d > 0 && s * (d * p) <= x && sum < 2 * (s * p)
    ensures sum * d < 2 * x
  {
    Rearrange(s, d, p);
    MulLt(sum, 2 * (s * p), d);
    MulAssoc2(s * p, d);
  }

  lemma Rearrange(a: int, b: int, c: int)
    ensures a * (b * c) == a * c * b
  {
  }

  lemma EvenUnit(f: Format, k: nat, s: nat)
    requires f.fraction >= 1
    ensures (k * Pow2(f.fraction) + s) % 2 == s % 2
  {
    var half := Pow2(f.fraction - 1);
    Double(k, half);
    MulAssoc2(k, half);
    assert k * Pow2(f.fraction) == 2 * (k * half);
  }

  lemma UpperNeighbour(f: Format, k: nat, s: nat)
    requires Pow2(f.fraction) <= s <= 2 * Pow2(f.fraction)
    ensures (2 * s + 1) * Pow2(k) <= Decode(f, k * Pow2(f.fraction) + s) + Decode(f, k * Pow2(f.fraction) + s + 1)
    ensures s < 2 * Pow2(f.fraction) ==>
              (2 * s + 1) * Pow2(k) == Decode(f, k * Pow2(f.fraction) + s) + Decode(f, k * Pow2(f.fraction) + s + 1)
  {
    var unit := Pow2(f.fraction);
    DecodeAt(f, k, s);
    if s < 2 * unit {
      DecodeAt(f, k, s + 1);
      Distribute(s, s + 1, Pow2(k));
    } else {
      assert k * unit + s + 1 == (k + 1) * unit + (unit + 1) by { Distribute(k, 1, unit); }
      DecodeAt(f, k + 1, unit + 1);
      Carry(unit, s, Pow2(k));
    }
  }

  lemma Carry(unit: nat, s: nat, p: nat)
    requires s == 2 * unit
    ensures (2 * s + 1) * p <= s * p + (unit + 1) * (2 * p)
  {
    Double(unit + 1, p);
    Distribute(s, s + 2, p);
    Distribute(2 * s + 1, 1, p);
  }

  lemma LowerNeighbour(f: Format, k: nat, s: nat)
    requires Pow2(f.fraction) < s <= 2 * Pow2(f.fraction)
    ensures Decode(f, k * Pow2(f.fraction) + s - 1) + Decode(f, k * Pow2(f.fraction) + s) == (2 * s - 1) * Pow2(k)
  {
    DecodeAt(f, k, s);
    DecodeAt(f, k, s - 1);
    assert k * Pow2(f.fraction) + s - 1 == k * Pow2(f.fraction) + (s - 1);
    Distribute(s - 1, s, Pow2(k));
    assert s - 1 + s == 2 * s - 1;
  }

  lemma AtLeastMonotone(n: nat, d: nat, low: int, high: int)
    requires low <= high && AtLeast(n, d, high)
    ensures AtLeast(n, d, low)
  {
    var q := if low < 0 then -low else 0;
    AtLeastScaled(n, d, high, q);
    AtLeastScaled(n, d, low, q);
    Pow2Monotone(low + q, high + q);
    MulLe(Pow2(low + q), Pow2(high + q), d);
  }

  lemma SmallestNormal(f: Format, n: nat, d: nat)
    requires ValidFormat(f)
    ensures Scale(f) >= 0
    ensures AtLeast(n, d, f.minExponent) <==> d * Pow2(f.fraction) <= n * Pow2(Scale(f))
  {
    AtLeastScaled(n, d, f.minExponent, Scale(f));
  }

  lemma SmallIsBetween(f: Format, x: nat, d: nat, s: nat)
    requires f.fraction >= 1 && Rounds(x, d, s) && s <= Pow2(f.fraction) <= InfinityBits(f)
    ensures Between(f, x, d, s)
  {
    assert Decode(f, s) == s && Decode(f, s + 1) == s + 1;
    assert s > 0 ==> Decode(f, s - 1) == s - 1;
  }

  lemma SubnormalSignificand(f: Format, n: nat, d: nat, s: nat)
    requires ValidFormat(f) && n > 0 && d > 0 && FloorLog2(n, d) < f.minExponent
    requires Scale(f) >= 0 && s == RoundScaledRatio(n, d, Scale(f))
    ensures Rounds(n * Pow2(Scale(f)), d, s) && s <= Pow2(f.fraction)
  {
    hide *;
    FloorLog2Bounds(n, d);
    if AtLeast(n, d, f.minExponent) { AtLeastMonotone(n, d, FloorLog2(n, d) + 1, f.minExponent); }
    SmallestNormal(f, n, d);
    RoundScaledRounds(n, d, Scale(f), 0);
    assert d * Pow2(0) == d by { PowZero(d); }
    RoundsBounds(n * Pow2(Scale(f)), d, s, 0, Pow2(f.fraction));
  }

  lemma PowZero(d: nat)
    ensures d * Pow2(0) == d
  {
  }

  lemma SubnormalCase(f: Format, n: nat, d: nat)
    requires ValidFormat(f) && n > 0 && d > 0 && FloorLog2(n, d) < f.minExponent
    ensures Scale(f) >= 0 && 0 <= RatioToBits(f, n, d) && Nearest(f, n, d, RatioToBits(f, n, d))
  {
    var s := RoundScaledRatio(n, d, Scale(f));
    SubnormalSignificand(f, n, d, s);
    assert RatioToBits(f, n, d) == s;
    InfinityAboveUnit(f);
    assert f.fraction >= 1;
    hide *;
    SmallIsBetween(f, n * Pow2(Scale(f)), d, s);
    BetweenIsNearest(f, n, d, s);
  }

  /** Without overflow the fields spell `k * 2^fraction + rounded`, carry or no carry. */
  lemma NormalFields(f: Format, n: nat, d: nat, k: nat, s: nat)
    requires ValidFormat(f) && n > 0 && d > 0 && FloorLog2(n, d) == f.minExponent + k
    requires s == RoundScaledRatio(n, d, Scale(f) - k) && Pow2(f.fraction) <= s <= 2 * Pow2(f.fraction)
    ensures InfinityBits(f) == (f.maxExponent - f.minExponent + 2) * Pow2(f.fraction)
    ensures RatioToBits(f, n, d) ==
            if k * Pow2(f.fraction) + s < InfinityBits(f) then k * Pow2(f.fraction) + s else InfinityBits(f)
  {
    var unit := Pow2(f.fraction);
    var top := f.maxExponent - f.minExponent;
    assert Pow2(f.precision) == 2 * unit;
    Distribute(k, 1, unit);
    Distribute(k, 2, unit);
    Distribute(top, 2, unit);
    if k <= top { MulLe(k, top, unit); }
    if k < top { MulLe(k + 1, top, unit); }
    if k > top { MulLe(top + 1, k, unit); Distribute(top, 1, unit); }
  }

  lemma BinadeBounds(f: Format, n: nat, d: nat, k: nat)
    requires ValidFormat(f) && n > 0 && d > 0 && FloorLog2(n, d) == f.minExponent + k && Scale(f) >= 0
    ensures Pow2(f.fraction) * (d * Pow2(k)) <= n * Pow2(Scale(f)) <= Pow2(f.fraction + 1) * (d * Pow2(k))
  {
    FloorLog2Bounds(n, d);
    AtLeastScaled(n, d, f.minExponent + k, Scale(f));
    AtLeastScaled(n, d, f.minExponent + k + 1, Scale(f));
    Binade(d, f.fraction, k, f.minExponent + k + Scale(f));
    Binade(d, f.fraction + 1, k, f.minExponent + k + 1 + Scale(f));
  }

  lemma NormalSignificand(f: Format, x: nat, d: nat, k: nat, s: nat)
    requires d > 0 && Rounds(x, d * Pow2(k), s)
    requires Pow2(f.fraction) * (d * Pow2(k)) <= x <= Pow2(f.fraction + 1) * (d * Pow2(k))
    ensures Pow2(f.fraction) <= s <= 2 * Pow2(f.fraction)
  {
    MulLe(1, d, Pow2(k));
    RoundsBounds(x, d * Pow2(k), s, Pow2(f.fraction), Pow2(f.fraction + 1));
  }

  lemma Binade(d: nat, a: nat, b: nat, c: nat)
    requires a + b == c
    ensures d * Pow2(c) == Pow2(a) * (d * Pow2(b))
  {
    PowerSplit(a, b, c);
    Reorder(d, Pow2(a), Pow2(b));
  }

  lemma NormalCase(f: Format, n: nat, d: nat)
    requires ValidFormat(f) && n > 0 && d > 0 && FloorLog2(n, d) >= f.minExponent
    ensures Scale(f) >= 0 && 0 <= RatioToBits(f, n, d) && Nearest(f, n, d, RatioToBits(f, n, d))
  {
    var k := FloorLog2(n, d) - f.minExponent;
    var s := RoundScaledRatio(n, d, Scale(f) - k);
    BinadeBounds(f, n, d, k);
    RoundScaledRounds(n, d, Scale(f), k);
    NormalSignificand(f, n * Pow2(Scale(f)), d, k, s);
    NormalFields(f, n, d, k, s);
    hide *;
    FieldsAreBetween(f, n * Pow2(Scale(f)), d, k, s, RatioToBits(f, n, d));
    BetweenIsNearest(f, n, d, RatioToBits(f, n, d));
  }

  lemma FieldsAreBetween(f: Format, x: nat, d: nat, k: nat, s: nat, bits: int)
    requires ValidFormat(f) && f.fraction >= 1 && d > 0
    requires Rounds(x, d * Pow2(k), s) && Pow2(f.fraction) <= s <= 2 * Pow2(f.fraction)
    requires Pow2(f.fraction) * (d * Pow2(k)) <= x
    requires InfinityBits(f) == (f.maxExponent - f.minExponent + 2) * Pow2(f.fraction)
    requires bits == if k * Pow2(f.fraction) + s < InfinityBits(f) then k * Pow2(f.fraction) + s else InfinityBits(f)
    ensures 0 <= bits && Between(f, x, d, bits)
  {
    hide *;
    if k * Pow2(f.fraction) + s <= InfinityBits(f) {
      RoundedIsBetween(f, x, d, k, s);
    } else {
      OverflowIsBetween(f, x, d, k);
    }
  }

  lemma InfinityAboveUnit(f: Format)
    requires ValidFormat(f)
    ensures Pow2(f.fraction) <= InfinityBits(f)
  {
    MulLe(1, Pow2(f.exponentBits) - 1, Pow2(f.fraction));
  }

  lemma OverflowIsBetween(f: Format, x: nat, d: nat, k: nat)
    requires ValidFormat(f) && d > 0 && Pow2(f.fraction) * (d * Pow2(k)) <= x
    requires InfinityBits(f) == (f.maxExponent - f.minExponent + 2) * Pow2(f.fraction)
    requires k * Pow2(f.fraction) + 2 * Pow2(f.fraction) > InfinityBits(f)
    ensures Between(f, x, d, InfinityBits(f))
  {
    var top: nat := f.maxExponent - f.minExponent + 1;
    OverflowExponent(Pow2(f.fraction), k, top, InfinityBits(f));
    DecodeAt(f, top, Pow2(f.fraction));
    DecodeNext(f, InfinityBits(f) - 1);
    Pow2Monotone(top, k);
    FarAbove(x, d, Pow2(top), Pow2(k), Pow2(f.fraction), Decode(f, InfinityBits(f) - 1) + Decode(f, InfinityBits(f)));
  }

  lemma OverflowExponent(unit: nat, k: nat, top: nat, infinity: nat)
    requires infinity == (top + 1) * unit && k * unit + 2 * unit > infinity
    ensures k >= top && infinity == top * unit + unit
  {
    Distribute(k, 2, unit);
    if k < top { MulLe(k + 2, top + 1, unit); }
    Distribute(top, 1, unit);
  }

  lemma Reorder(a: int, b: int, c: int)
    ensures a * (b * c) == b * (a * c)
  {
  }

  lemma FarAbove(x: nat, d: nat, low: nat, high: nat, unit: nat, sum: nat)
    requires d > 0 && low <= high && unit * (d * high) <= x && sum < 2 * (unit * low)
    ensures sum * d < 2 * x
  {
    CrossLe(d, d, low, high);
    MulLe(d * low, d * high, unit);
    MidFarBelow(x, d, low, unit, sum);
  }

  /** The conversion returns the nearest representable value, ties to even, for every ratio and every format. */
  lemma CorrectlyRounded(f: Format, n: nat, d: nat)
    requires ValidFormat(f) && d > 0
    ensures Scale(f) >= 0 && 0 <= RatioToBits(f, n, d) && Nearest(f, n, d, RatioToBits(f, n, d))
  {
    if n == 0 {
      BetweenIsNearest(f, 0, d, 0);
    } else if FloorLog2(n, d) < f.minExponent {
      SubnormalCase(f, n, d);
    } else {
      NormalCase(f, n, d);
    }
  }
}
