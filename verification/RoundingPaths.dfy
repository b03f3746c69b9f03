/** The special-purpose conversions, each proved to agree with the general one. */
module RoundingPaths {
  import opened Options
  import opened BinaryRounding
  import opened Powers
  import opened RoundingLaws

  /** _finite_binary_float_from_bits raises exactly on the infinity encoding (the sign bit left aside). */
  function Finite(f: Format, bits: nat): Option<nat> {
    if bits >= InfinityBits(f) then None else Some(bits)
  }

  /** The general conversion, with overflow reported instead of encoded. */
  function RoundRatio(f: Format, n: nat, d: nat): Option<nat>
    requires ValidFormat(f) && d > 0
  {
    CorrectlyRounded(f, n, d);
    Finite(f, RatioToBits(f, n, d))
  }

  // ---------------------------------------------------------------- powers of two

  function Numerator(e: int): nat { if e >= 0 then Pow2(e) else 1 }

  function Denominator(e: int): nat { if e >= 0 then 1 else Pow2(-e) }

  /** _binary_power_of_two without the sign bit; `None` is the non-finite error. */
  function BinaryPowerOfTwo(f: Format, e: int): Option<int> {
    var minSubnormal := f.minExponent - (f.precision - 1);
    if e > f.maxExponent then None
    else if e >= f.minExponent then Some((e + f.bias) * Pow2(f.fraction))
    else if e >= minSubnormal then Some(Pow2(e - minSubnormal))
    else Some(0)
  }

  lemma PowerScaled(f: Format, e: int)
    requires Scale(f) >= 0 && e + Scale(f) >= 0
    ensures Numerator(e) * Pow2(Scale(f)) == Pow2(e + Scale(f)) * Denominator(e)
  {
    if e >= 0 { Pow2Add(e, Scale(f)); } else { Pow2Add(e + Scale(f), -e); }
  }

  lemma PowerInBinade(f: Format, e: int, k: nat)
    requires ValidFormat(f) && Scale(f) >= 0 && e == f.minExponent + k
    requires (k + 1) * Pow2(f.fraction) <= InfinityBits(f)
    ensures RatioToBits(f, Numerator(e), Denominator(e)) == (k + 1) * Pow2(f.fraction)
  {
    Distribute(k, 1, Pow2(f.fraction));
    DecodeAt(f, k, Pow2(f.fraction));
    Pow2Add(f.fraction, k);
    PowerScaled(f, e);
    hide *;
    ExactOnRepresentable(f, Numerator(e), Denominator(e), (k + 1) * Pow2(f.fraction));
  }

  lemma InfinityField(f: Format)
    requires ValidFormat(f)
    ensures Scale(f) >= 0 && InfinityBits(f) == (f.maxExponent + f.bias + 1) * Pow2(f.fraction)
  {
  }

  lemma PowerAboveRange(f: Format, e: int)
    requires ValidFormat(f) && e > f.maxExponent
    ensures RatioToBits(f, Numerator(e), Denominator(e)) == InfinityBits(f)
  {
    InfinityField(f);
    var top := f.maxExponent + 1;
    PowerInBinade(f, top, top - f.minExponent);
    Pow2Monotone(top, e);
    CorrectlyRounded(f, Pow2(e), 1);
    RoundingIsMonotone(f, Pow2(top), 1, Pow2(e), 1);
  }

  lemma PowerBelowRange(f: Format, e: int)
    requires ValidFormat(f) && Scale(f) >= 0 && e < f.minExponent - (f.precision - 1)
    ensures RatioToBits(f, Numerator(e), Denominator(e)) == 0
  {
    var q := Scale(f);
    Pow2Monotone(q + 1, -e);
    assert 2 * Pow2(q) <= Pow2(-e);
    assert Between(f, Pow2(q), Pow2(-e), 0);
    assert 1 * Pow2(q) == Pow2(q);
    BetweenIsNearest(f, 1, Pow2(-e), 0);
    NearestIsTheConversion(f, 1, Pow2(-e), 0);
  }

  /** The shift-only construction of 2^e is the correctly rounded 2^e, overflow and underflow included. */
  lemma PowerOfTwoIsRounding(f: Format, e: int)
    requires ValidFormat(f)
    ensures BinaryPowerOfTwo(f, e).None? <==> RatioToBits(f, Numerator(e), Denominator(e)) == InfinityBits(f)
    ensures BinaryPowerOfTwo(f, e).Some? ==> BinaryPowerOfTwo(f, e).value == RatioToBits(f, Numerator(e), Denominator(e))
  {
    InfinityField(f);
    if e > f.maxExponent {
      PowerAboveRange(f, e);
    } else if e >= f.minExponent {
      MulLt(e + f.bias, f.maxExponent + f.bias + 1, Pow2(f.fraction));
      PowerInBinade(f, e, e - f.minExponent);
    } else if e >= f.minExponent - (f.precision - 1) {
      Pow2Monotone(e + Scale(f), f.fraction - 1);
      InfinityAboveUnit(f);
      PowerScaled(f, e);
      ExactOnRepresentable(f, Numerator(e), Denominator(e), Pow2(e + Scale(f)));
    } else {
      InfinityAboveUnit(f);
      PowerBelowRange(f, e);
    }
  }

  // ---------------------------------------------------------------- exact integral powers

  function Pow(b: nat, e: nat): nat {
    if e == 0 then 1 else b * Pow(b, e - 1)
  }

  const MAX_EXACT_POWER_BITS := 4096

  predicate OperandFits(value: nat, exponent: nat) {
    if value == 1 then true else BitLength(value) > 0 && exponent <= MAX_EXACT_POWER_BITS / BitLength(value)
  }

  /** _exact_integral_power_result on the positive base numerator/denominator; the outer `None` gives up. */
  function ExactIntegralPower(f: Format, numerator: nat, denominator: nat, exponent: int): Option<Option<nat>>
    requires ValidFormat(f) && numerator > 0 && denominator > 0
  {
    var magnitude := if exponent < 0 then -exponent else exponent;
    var n := if exponent < 0 then denominator else numerator;
    var d := if exponent < 0 then numerator else denominator;
    if !(OperandFits(n, magnitude) && OperandFits(d, magnitude)) then None
    else PowPositive(d, magnitude); Some(RoundRatio(f, Pow(n, magnitude), Pow(d, magnitude)))
  }

  lemma {:induction false} PowPositive(b: nat, e: nat)
    requires b > 0
    ensures Pow(b, e) > 0
  {
    if e > 0 { PowPositive(b, e - 1); MulLe(1, Pow(b, e - 1), b); }
  }

  lemma Pow2Next(bits: nat, e: nat)
    requires e > 0
    ensures 0 <= bits * (e - 1) <= bits * e && Pow2(bits * e) == Pow2(bits) * Pow2(bits * (e - 1))
  {
    hide Pow2;
    NextMultiple(bits, e);
    Pow2Add(bits, bits * (e - 1));
  }

  lemma NextMultiple(a: nat, e: nat)
    requires e > 0
    ensures a * (e - 1) >= 0 && a * e == a + a * (e - 1)
  {
    Distribute(e - 1, 1, a);
  }

  lemma {:induction false} PowBelow(b: nat, bits: nat, e: nat)
    requires 0 < b < Pow2(bits)
    ensures Pow(b, e) <= Pow2(bits * e) && (e > 0 ==> Pow(b, e) < Pow2(bits * e))
  {
    hide *;
    if e > 0 {
      PowBelow(b, bits, e - 1);
      Pow2Next(bits, e);
      PowPositive(b, e - 1);
      PowNext(b, e);
      CrossLt(b, Pow2(bits), Pow(b, e - 1), Pow2(bits * (e - 1)));
    } else {
      PowNone(b, bits);
    }
  }

  lemma PowNext(b: nat, e: nat)
    requires e > 0
    ensures Pow(b, e) == b * Pow(b, e - 1)
  {
  }

  lemma PowNone(b: nat, bits: nat)
    ensures Pow(b, 0) == 1 == Pow2(bits * 0)
  {
  }

  /** The guard keeps both operands of the exact division within 4096 bits. */
  lemma OperandFitsBound(value: nat, exponent: nat)
    requires value > 0 && OperandFits(value, exponent)
    ensures Pow(value, exponent) < Pow2(MAX_EXACT_POWER_BITS) || exponent == 0
  {
    if value == 1 {
      PowOne(exponent);
      Pow2Monotone(1, MAX_EXACT_POWER_BITS);
    } else if exponent > 0 {
      BitLengthBounds(value);
      FitsWithin(value, BitLength(value), exponent, MAX_EXACT_POWER_BITS);
    }
  }

  /** The exact path gives up exactly when exponent times bit length is over 4096 for an operand other than one; otherwise
      it returns the representable value nearest to base ** exponent (non-finite exactly when that is the infinity encoding),
      from operands of at most 4096 bits. */
  lemma IntegralPowerIsNearest(f: Format, numerator: nat, denominator: nat, exponent: int)
    requires ValidFormat(f) && numerator > 0 && denominator > 0 && exponent != 0 && Scale(f) >= 0
    ensures var m: nat := if exponent < 0 then -exponent else exponent;
      var n, d := if exponent < 0 then denominator else numerator, if exponent < 0 then numerator else denominator;
      match ExactIntegralPower(f, numerator, denominator, exponent)
      case None => (n != 1 && m * BitLength(n) > 4096) || (d != 1 && m * BitLength(d) > 4096)
      case Some(r) =>
        && (n == 1 || m * BitLength(n) <= 4096) && (d == 1 || m * BitLength(d) <= 4096)
        && Pow(n, m) < Pow2(MAX_EXACT_POWER_BITS) && 0 < Pow(d, m) < Pow2(MAX_EXACT_POWER_BITS)
        && (match r
            case Some(bits) => bits < InfinityBits(f) && Nearest(f, Pow(n, m), Pow(d, m), bits)
            case None => Nearest(f, Pow(n, m), Pow(d, m), InfinityBits(f)))
  {
    hide Nearest, Pow, RatioToBits, Pow2, OperandFits, InfinityBits;
    var m: nat := if exponent < 0 then -exponent else exponent;
    var n, d := if exponent < 0 then denominator else numerator, if exponent < 0 then numerator else denominator;
    OperandFitsExactly(n, m);
    OperandFitsExactly(d, m);
    if OperandFits(n, m) && OperandFits(d, m) {
      OperandFitsBound(n, m);
      OperandFitsBound(d, m);
      PowPositive(d, m);
      CorrectlyRounded(f, Pow(n, m), Pow(d, m));
      AtMostInfinity(f, Pow(n, m), Pow(d, m), RatioToBits(f, Pow(n, m), Pow(d, m)));
    }
  }

  lemma AtMostInfinity(f: Format, n: nat, d: nat, bits: nat)
    requires Scale(f) >= 0 && Nearest(f, n, d, bits)
    ensures bits <= InfinityBits(f)
  {
  }

  lemma OperandFitsExactly(value: nat, exponent: nat)
    requires value > 0
    ensures OperandFits(value, exponent) <==> value == 1 || exponent * BitLength(value) <= 4096
  {
    BitLengthBounds(value);
    QuotientExactly(exponent, BitLength(value), 4096);
  }

  lemma QuotientExactly(e: nat, b: nat, limit: nat)
    requires b > 0
    ensures e <= limit / b <==> e * b <= limit
  {
    assert limit == limit / b * b + limit % b;
    if e <= limit / b { MulLe(e, limit / b, b); } else { MulLe(limit / b + 1, e, b); }
  }

  lemma FitsWithin(value: nat, bits: nat, exponent: nat, limit: nat)
    requires 0 < value < Pow2(bits) && bits > 0 && 0 < exponent <= limit / bits
    ensures Pow(value, exponent) < Pow2(limit)
  {
    hide *;
    PowBelow(value, bits, exponent);
    QuotientFits(exponent, bits, limit);
    Pow2Monotone(bits * exponent, limit);
  }

  lemma QuotientFits(a: nat, b: nat, limit: nat)
    requires b > 0 && a <= limit / b
    ensures 0 <= b * a <= limit
  {
    MulLe(a, limit / b, b);
    assert limit == limit / b * b + limit % b;
  }

  lemma {:induction false} PowOne(e: nat)
    ensures Pow(1, e) == 1
  {
    if e > 0 { PowOne(e - 1); }
  }

  lemma {:induction false} PowOfPow2(a: nat, m: nat)
    ensures Pow(Pow2(a), m) == Pow2(a * m)
  {
    if m > 0 {
      PowOfPow2(a, m - 1);
      Distribute(m - 1, 1, a);
      Pow2Add(a, a * (m - 1));
    }
  }

  /** _exact_power_of_two_result on the base 2^b and the exponent numerator/denominator: `None` unless the
      result is itself a power of two. */
  function ExactPowerOfTwo(f: Format, b: int, numerator: int, denominator: nat): Option<Option<int>>
    requires denominator > 0
  {
    if b * numerator % denominator != 0 then None else Some(BinaryPowerOfTwo(f, b * numerator / denominator))
  }

  /** Two to the power `e` is the real number (2^b) ^ (numerator/denominator): its `denominator`-th power is the
      `numerator`-th power of 2^b, as ratios. */
  ghost predicate IsPower(e: int, b: int, numerator: int, denominator: nat) {
    var m: nat := if numerator < 0 then -numerator else numerator;
    var n := if numerator < 0 then Denominator(b) else Numerator(b);
    var d := if numerator < 0 then Numerator(b) else Denominator(b);
    Pow(Numerator(e), denominator) * Pow(d, m) == Pow(n, m) * Pow(Denominator(e), denominator)
  }

  lemma PowOfParts(b: int, m: nat)
    ensures Pow(Numerator(b), m) == Numerator(b * m) && Pow(Denominator(b), m) == Denominator(b * m)
  {
    PowOne(m);
    var a: nat := if b < 0 then -b else b;
    PowOfPow2(a, m);
    SignedProduct(b, m, a, m);
    if b * m == 0 { assert Pow2(0) == 1; }
    hide Pow, Pow2;
  }

  lemma PartsOfOpposite(x: int)
    ensures Numerator(-x) == Denominator(x) && Denominator(-x) == Numerator(x)
  {
    assert Pow2(0) == 1;
  }

  lemma Pow2Strict(a: nat, b: nat)
    requires a < b
    ensures Pow2(a) < Pow2(b)
  {
    Pow2Monotone(a + 1, b);
  }

  /** A power of two determines its exponent. */
  lemma PartsDetermine(x: int, y: int)
    ensures Numerator(x) * Denominator(y) == Numerator(y) * Denominator(x) <==> x == y
  {
    var a: nat, b: nat := if x < 0 then -x else x, if y < 0 then -y else y;
    if a < b { Pow2Strict(a, b); }
    if b < a { Pow2Strict(b, a); }
    if a > 0 { Pow2Strict(0, a); }
    if b > 0 { Pow2Strict(0, b); }
    assert Pow2(0) == 1;
    if x >= 0 && y < 0 { ProductAboveOne(Pow2(a), Pow2(b)); }
    if x < 0 && y >= 0 { ProductAboveOne(Pow2(b), Pow2(a)); }
    hide Pow2;
  }

  lemma ProductAboveOne(p: nat, q: nat)
    requires p >= 1 && q > 1
    ensures p * q > 1
  {
    MulLe(1, p, q);
  }

  lemma IsPowerIff(e: int, b: int, numerator: int, denominator: nat)
    ensures IsPower(e, b, numerator, denominator) <==> e * denominator == b * numerator
  {
    var m: nat := if numerator < 0 then -numerator else numerator;
    PowOfParts(e, denominator);
    PowOfParts(b, m);
    PartsOfOpposite(b * m);
    PartsDetermine(e * denominator, b * numerator);
    OppositeProduct(b, numerator, m);
    hide Pow, Numerator, Denominator;
  }

  lemma OppositeProduct(b: int, numerator: int, m: nat)
    requires m == if numerator < 0 then -numerator else numerator
    ensures b * numerator == if numerator < 0 then -(b * m) else b * m
  {
  }

  lemma DivisibleIff(product: int, denominator: nat, e: int)
    requires denominator > 0
    ensures e * denominator == product <==> product % denominator == 0 && product / denominator == e
  {
    var q, r := product / denominator, product % denominator;
    assert product == q * denominator + r;
    if e > q { MulLe(q + 1, e, denominator); }
    if e < q { MulLe(e, q - 1, denominator); }
  }

  /** The power-of-two path, for fractional exponents too: it gives up exactly when the power is not a power of two, and
      otherwise returns that power correctly rounded, non-finite exactly when that is the infinity encoding. */
  lemma ExactPowerIsRounded(f: Format, b: int, numerator: int, denominator: nat)
    requires ValidFormat(f) && denominator > 0
    ensures ExactPowerOfTwo(f, b, numerator, denominator).None? <==> forall e :: !IsPower(e, b, numerator, denominator)
    ensures forall e :: IsPower(e, b, numerator, denominator) ==>
              match ExactPowerOfTwo(f, b, numerator, denominator)
              case Some(None) => RatioToBits(f, Numerator(e), Denominator(e)) == InfinityBits(f)
              case Some(Some(bits)) => bits == RatioToBits(f, Numerator(e), Denominator(e)) && bits != InfinityBits(f)
              case None => false
  {
    hide *;
    var product := b * numerator;
    forall e ensures IsPower(e, b, numerator, denominator) <==>
                       product % denominator == 0 && product / denominator == e
    {
      IsPowerIff(e, b, numerator, denominator);
      DivisibleIff(product, denominator, e);
    }
    if product % denominator == 0 { assert IsPower(product / denominator, b, numerator, denominator); }
    WhenExact(f, b, numerator, denominator);
    PowerOfTwoIsRounding(f, product / denominator);
  }

  lemma WhenExact(f: Format, b: int, numerator: int, denominator: nat)
    requires denominator > 0
    ensures var product := b * numerator;
      ExactPowerOfTwo(f, b, numerator, denominator) ==
        if product % denominator != 0 then None else Some(BinaryPowerOfTwo(f, product / denominator))
  {
  }

  /** On a power-of-two base and an integral exponent both exact paths, when both apply, give the same result. */
  lemma ExactPathsAgree(f: Format, b: int, exponent: int)
    requires ValidFormat(f)
    ensures ExactPowerOfTwo(f, b, exponent, 1).Some?
    ensures var general, special := ExactIntegralPower(f, Numerator(b), Denominator(b), exponent), ExactPowerOfTwo(f, b, exponent, 1).value;
            general.Some? ==>
              (general.value.None? <==> special.None?) && (general.value.Some? ==> special == Some(general.value.value))
  {
    var m: nat := if exponent < 0 then -exponent else exponent;
    var n := if exponent < 0 then Denominator(b) else Numerator(b);
    var d := if exponent < 0 then Numerator(b) else Denominator(b);
    PowPositive(d, m);
    PowerOfTwoIsRounding(f, b * exponent);
    CorrectlyRounded(f, Pow(n, m), Pow(d, m));
    PowersMatch(b, exponent, m);
    RoundingIgnoresCommonFactors(f, Pow(n, m), Pow(d, m), Numerator(b * exponent), Denominator(b * exponent));
  }

  lemma PowersMatch(b: int, exponent: int, m: nat)
    requires m == if exponent < 0 then -exponent else exponent
    ensures var n := if exponent < 0 then Denominator(b) else Numerator(b);
            var d := if exponent < 0 then Numerator(b) else Denominator(b);
            Pow(n, m) * Denominator(b * exponent) == Numerator(b * exponent) * Pow(d, m)
  {
    PowOne(m);
    var a: nat := if b < 0 then -b else b;
    PowOfPow2(a, m);
    SignedProduct(b, exponent, a, m);
  }

  lemma SignedProduct(b: int, e: int, a: nat, m: nat)
    requires a == if b < 0 then -b else b
    requires m == if e < 0 then -e else e
    ensures (b < 0) == (e < 0) ==> b * e == a * m
    ensures (b < 0) != (e < 0) ==> b * e == -(a * m)
    ensures a * m >= 0
  {
  }

  // ---------------------------------------------------------------- integers to binary32

  /** The shifted-out half decides, ties to even: `unit` is two to the number of dropped bits. */
  function RoundDropped(magnitude: nat, unit: nat): nat
    requires unit >= 2
  {
    var truncated := magnitude / unit;
    var remainder := magnitude % unit;
    var halfway := unit / 2;
    if remainder > halfway || (remainder == halfway && truncated % 2 == 1) then truncated + 1 else truncated
  }

  /** Undo a carry into the 25th bit, then restore the dropped zeros. */
  function Restore(rounded: nat, unit: nat): int {
    if rounded == 0x100_0000 then (rounded / 2) * (2 * unit) else rounded * unit
  }

  /** _round_integer_to_f32_input on a magnitude: keep 24 bits, round half to even. */
  function RoundIntegerToF32Input(magnitude: nat): int {
    var shift := BitLength(magnitude) - 24;
    if shift <= 0 then magnitude
    else Restore(RoundDropped(magnitude, Pow2(shift)), Pow2(shift))
  }

  lemma RestoreIsProduct(rounded: nat, unit: nat)
    ensures Restore(rounded, unit) == rounded * unit
  {
    if rounded == 0x100_0000 { Double(rounded / 2, unit); }
  }

  lemma DroppedIsQuotient(magnitude: nat, unit: nat)
    requires unit >= 2 && unit % 2 == 0
    ensures RoundDropped(magnitude, unit) == RoundQuotient(magnitude, unit)
  {
    var remainder := magnitude % unit;
    assert unit == 2 * (unit / 2);
  }

  lemma RoundedInteger(magnitude: nat, shift: nat)
    requires BitLength(magnitude) == shift + 24 && shift > 0
    ensures RoundIntegerToF32Input(magnitude) == RoundQuotient(magnitude, Pow2(shift)) * Pow2(shift)
  {
    assert Pow2(shift) == 2 * Pow2(shift - 1);
    assert BitLength(magnitude) - 24 == shift;
    hide RoundQuotient, RoundDropped;
    RestoreIsProduct(RoundDropped(magnitude, Pow2(shift)), Pow2(shift));
    DroppedIsQuotient(magnitude, Pow2(shift));
  }

  /** The exponent of an integer is its bit length less one. */
  lemma IntegerLog2(n: nat)
    requires n > 0
    ensures FloorLog2(n, 1) == BitLength(n) - 1
  {
    BitLengthBounds(n);
    assert BitLength(1) == 1;
  }

  /** Rounding an integer to 24 bits first does not change its conversion to binary32: no double rounding. */
  lemma IntegerRoundingAgrees(magnitude: nat)
    ensures ValidFormat(Binary32()) && RoundIntegerToF32Input(magnitude) >= 0
    ensures RatioToBits(Binary32(), RoundIntegerToF32Input(magnitude), 1) == RatioToBits(Binary32(), magnitude, 1)
  {
    StandardFormats();
    var shift := BitLength(magnitude) - 24;
    if shift > 0 {
      RoundedInteger(magnitude, shift);
      MulLe(0, RoundQuotient(magnitude, Pow2(shift)), Pow2(shift));
      IntegerCase(Binary32(), magnitude, shift, RoundQuotient(magnitude, Pow2(shift)));
    }
  }

  lemma IntegerCase(f: Format, magnitude: nat, shift: nat, s: nat)
    requires ValidFormat(f) && magnitude > 0 && BitLength(magnitude) == shift + f.precision
    requires s == RoundQuotient(magnitude, Pow2(shift))
    ensures s * Pow2(shift) >= 0
    ensures RatioToBits(f, s * Pow2(shift), 1) == RatioToBits(f, magnitude, 1)
  {
    hide FloorLog2, RoundScaledRatio, RoundQuotient, Pow2, RatioToBits, InfinityBits, BitLength, Decode;
    InfinityField(f);
    var k := shift + Scale(f);
    IntegerLog2(magnitude);
    assert FloorLog2(magnitude, 1) == f.minExponent + k;
    IntegerSignificand(magnitude, shift, s, Scale(f) - k);
    hide *;
    IntegerFields(f, magnitude, k, s);
    DecodeAt(f, k, s);
    ExactInteger(s, shift, Scale(f), k);
    ExactOrInfinite(f, s * Pow2(shift), k * Pow2(f.fraction) + s);
  }

  lemma IntegerFields(f: Format, n: nat, k: nat, s: nat)
    requires ValidFormat(f) && n > 0 && Scale(f) >= 0 && FloorLog2(n, 1) == f.minExponent + k
    requires s == RoundScaledRatio(n, 1, Scale(f) - k)
    ensures Pow2(f.fraction) <= s <= 2 * Pow2(f.fraction)
    ensures RatioToBits(f, n, 1) ==
            if k * Pow2(f.fraction) + s < InfinityBits(f) then k * Pow2(f.fraction) + s else InfinityBits(f)
  {
    hide *;
    BinadeBounds(f, n, 1, k);
    RoundScaledRounds(n, 1, Scale(f), k);
    NormalSignificand(f, n * Pow2(Scale(f)), 1, k, s);
    NormalFields(f, n, 1, k, s);
  }

  lemma IntegerSignificand(magnitude: nat, shift: nat, s: nat, down: int)
    requires s == RoundQuotient(magnitude, Pow2(shift)) && down == 0 - shift
    ensures RoundScaledRatio(magnitude, 1, down) == s
  {
    assert 1 * Pow2(shift) == Pow2(shift);
  }

  lemma ExactInteger(s: nat, shift: nat, scale: nat, k: nat)
    requires k == shift + scale
    ensures s * Pow2(shift) >= 0 && s * Pow2(shift) * Pow2(scale) == s * Pow2(k)
  {
    hide *;
    PowerSplit(shift, scale, k);
    Regroup(s, Pow2(shift), Pow2(scale));
    MulLe(0, s, Pow2(shift));
  }

  lemma ExactOrInfinite(f: Format, n: nat, bits: nat)
    requires ValidFormat(f) && Scale(f) >= 0 && n * Pow2(Scale(f)) == Decode(f, bits)
    ensures RatioToBits(f, n, 1) == if bits < InfinityBits(f) then bits else InfinityBits(f)
  {
    if bits <= InfinityBits(f) {
      ExactOnRepresentable(f, n, 1, bits);
    } else {
      DecodeMonotone(f, InfinityBits(f), bits);
      DecodeNext(f, InfinityBits(f) - 1);
      assert Between(f, n * Pow2(Scale(f)), 1, InfinityBits(f));
      BetweenIsNearest(f, n, 1, InfinityBits(f));
      NearestIsTheConversion(f, n, 1, InfinityBits(f));
    }
  }

  // ---------------------------------------------------------------- decimal text to binary32

  const TEN_38 := 100000000000000000000000000000000000000

  /** _protobuf_f32 after its decimal magnitude check: normal results only. */
  function NormalOnly(f: Format, n: nat, d: nat): Option<int>
    requires n > 0 && d > 0
  {
    var exponent := FloorLog2(n, d);
    if exponent < f.minExponent then
      var significand := RoundScaledRatio(n, d, f.fraction - f.minExponent);
      if significand < Pow2(f.fraction) then None
      else Some((f.minExponent + f.bias) * Pow2(f.fraction) + (significand - Pow2(f.fraction)))
    else if exponent > f.maxExponent then None
    else
      var rounded := RoundScaledRatio(n, d, f.fraction - exponent);
      var carried := rounded == Pow2(f.fraction + 1);
      var significand := if carried then rounded / 2 else rounded;
      var final := if carried then exponent + 1 else exponent;
      if carried && final > f.maxExponent then None
      else Some((final + f.bias) * Pow2(f.fraction) + (significand - Pow2(f.fraction)))
  }

  /** _protobuf_f32 on a nonzero magnitude; Decimal.adjusted() is the floor of the decimal logarithm. */
  function ProtobufF32(n: nat, d: nat): Option<int>
    requires n > 0 && d > 0
  {
    if n * TEN_38 < d || d * (10 * TEN_38) <= n then None else NormalOnly(Binary32(), n, d)
  }

  ghost predicate IsNormal(f: Format, bits: int) {
    Pow2(f.fraction) <= bits < InfinityBits(f)
  }

  /** Without the decimal check: accepted exactly when the general result is normal and finite, with its bits. */
  lemma NormalOnlyIsRounding(f: Format, n: nat, d: nat)
    requires ValidFormat(f) && n > 0 && d > 0
    ensures NormalOnly(f, n, d) ==
            if IsNormal(f, RatioToBits(f, n, d)) then Some(RatioToBits(f, n, d)) else None
  {
    InfinityField(f);
    InfinityAboveUnit(f);
    if FloorLog2(n, d) < f.minExponent {
      SubnormalAgrees(f, n, d, RoundScaledRatio(n, d, Scale(f)));
    } else {
      var k := FloorLog2(n, d) - f.minExponent;
      var s := RoundScaledRatio(n, d, Scale(f) - k);
      BinadeBounds(f, n, d, k);
      RoundScaledRounds(n, d, Scale(f), k);
      NormalSignificand(f, n * Pow2(Scale(f)), d, k, s);
      NormalAgrees(f, n, d, k, s);
    }
  }

  lemma SubnormalAgrees(f: Format, n: nat, d: nat, s: nat)
    requires ValidFormat(f) && n > 0 && d > 0 && FloorLog2(n, d) < f.minExponent && Scale(f) >= 0
    requires s == RoundScaledRatio(n, d, Scale(f)) && Pow2(f.fraction) < InfinityBits(f)
    ensures NormalOnly(f, n, d) ==
            if IsNormal(f, RatioToBits(f, n, d)) then Some(RatioToBits(f, n, d)) else None
  {
    SubnormalSignificand(f, n, d, s);
    SubnormalBits(f, n, d, s);
    SubnormalNormalOnly(f, n, d, s);
    hide *;
    SubnormalIsNormal(f, s);
  }

  lemma SubnormalBits(f: Format, n: nat, d: nat, s: nat)
    requires ValidFormat(f) && n > 0 && d > 0 && FloorLog2(n, d) < f.minExponent
    requires s == RoundScaledRatio(n, d, Scale(f)) && s <= Pow2(f.fraction)
    ensures RatioToBits(f, n, d) == s
  {
    hide FloorLog2, RoundScaledRatio, Pow2;
  }

  lemma SubnormalNormalOnly(f: Format, n: nat, d: nat, s: nat)
    requires ValidFormat(f) && n > 0 && d > 0 && FloorLog2(n, d) < f.minExponent
    requires s == RoundScaledRatio(n, d, Scale(f)) && s <= Pow2(f.fraction)
    ensures NormalOnly(f, n, d) == if s < Pow2(f.fraction) then None else Some(Pow2(f.fraction))
  {
    hide FloorLog2, RoundScaledRatio, Pow2;
    assert f.minExponent + f.bias == 1;
  }

  lemma SubnormalIsNormal(f: Format, s: nat)
    requires ValidFormat(f) && s <= Pow2(f.fraction) < InfinityBits(f)
    ensures IsNormal(f, s) <==> s == Pow2(f.fraction)
  {
    hide Pow2;
  }

  /** The assembled fields of the normal case are one sum. */
  lemma NormalOnlyFields(f: Format, n: nat, d: nat, k: nat, s: nat)
    requires ValidFormat(f) && n > 0 && d > 0 && FloorLog2(n, d) == f.minExponent + k
    requires s == RoundScaledRatio(n, d, Scale(f) - k) && Pow2(f.fraction) <= s <= 2 * Pow2(f.fraction)
    ensures NormalOnly(f, n, d) ==
            if (if s == 2 * Pow2(f.fraction) then k + 1 else k) > f.maxExponent - f.minExponent then None
            else Some(k * Pow2(f.fraction) + s)
  {
    var unit := Pow2(f.fraction);
    assert Pow2(f.fraction + 1) == 2 * unit;
    assert f.fraction - (f.minExponent + k) == Scale(f) - k && f.minExponent + f.bias == 1;
    hide FloorLog2, RoundScaledRatio, Pow2, ValidFormat;
    Distribute(k, 1, unit);
    Distribute(k + 1, 1, unit);
  }

  lemma NormalAgrees(f: Format, n: nat, d: nat, k: nat, s: nat)
    requires ValidFormat(f) && n > 0 && d > 0 && FloorLog2(n, d) == f.minExponent + k
    requires s == RoundScaledRatio(n, d, Scale(f) - k) && Pow2(f.fraction) <= s <= 2 * Pow2(f.fraction)
    ensures NormalOnly(f, n, d) ==
            if IsNormal(f, RatioToBits(f, n, d)) then Some(RatioToBits(f, n, d)) else None
  {
    NormalFields(f, n, d, k, s);
    NormalOnlyFields(f, n, d, k, s);
    assert f.minExponent <= f.maxExponent && 0 < Pow2(f.fraction);
    hide NormalOnly, RatioToBits, RoundScaledRatio, FloorLog2, Pow2, ValidFormat, Scale, InfinityBits;
    CompareWithTop(k, f.maxExponent - f.minExponent, Pow2(f.fraction), s);
    MulLe(0, k, Pow2(f.fraction));
  }

  /** Overflow, seen on the exponent after a carry and on the assembled fields. */
  lemma CompareWithTop(k: nat, top: nat, unit: nat, s: nat)
    requires 0 < unit <= s <= 2 * unit
    ensures (if s == 2 * unit then k + 1 else k) > top <==> k * unit + s >= (top + 2) * unit
  {
    var step := if s == 2 * unit then 2 else 1;
    Distribute(k, step, unit);
    if k + step >= top + 2 {
      MulLe(top + 2, k + step, unit);
    } else {
      MulLe(k + step + 1, top + 2, unit);
      Distribute(k, step + 1, unit);
      Distribute(k + step, 1, unit);
    }
  }

  lemma LargePowers()
    ensures Pow2(128) == 0x1_0000_0000_0000_0000_0000_0000_0000_0000
    ensures Pow2(149) == 0x20_0000_0000_0000_0000_0000_0000_0000_0000_0000
  {
    assert Pow2(8) == 0x100 && Pow2(5) == 0x20;
    hide Pow2;
    Pow2Add(8, 8);
    Pow2Add(16, 16);
    Pow2Add(32, 32);
    Pow2Add(64, 64);
    Pow2Add(16, 5);
    Pow2Add(128, 21);
  }

  /** The decimal magnitude check only rejects what the binary check would reject. */
  lemma DecimalCheckIsRedundant(n: nat, d: nat)
    requires n > 0 && d > 0 && ValidFormat(Binary32())
    requires n * TEN_38 < d || d * (10 * TEN_38) <= n
    ensures !IsNormal(Binary32(), RatioToBits(Binary32(), n, d))
  {
    var f := Binary32();
    LargePowers();
    assert Pow2(f.fraction) == 0x80_0000;
    InfinityField(f);
    InfinityAboveUnit(f);
    if n * TEN_38 < d {
      assert Decode(f, 0x7F_FFFF) == 0x7F_FFFF;
      ExactOnRepresentable(f, 0x7F_FFFF, Pow2(149), 0x7F_FFFF);
      MulLe(n * TEN_38, d, 0x7F_FFFF);
      TinyRatio(n, d);
      RoundingIsMonotone(f, n, d, 0x7F_FFFF, Pow2(149));
    } else {
      PowerAboveRange(f, 128);
      MulLe(Pow2(128), 10 * TEN_38, d);
      RoundingIsMonotone(f, Pow2(128), 1, n, d);
    }
  }

  lemma TinyRatio(n: nat, d: nat)
    requires n * TEN_38 < d && Pow2(149) == 0x20_0000_0000_0000_0000_0000_0000_0000_0000_0000
    ensures n * Pow2(149) <= 0x7F_FFFF * d
  {
    MulLe(Pow2(149), TEN_38 * 0x7F_FFFF, n);
  }

  /** Descriptor text is accepted exactly when it rounds to a normal finite binary32, which it then yields. */
  lemma ProtobufF32IsRounding(n: nat, d: nat)
    requires n > 0 && d > 0
    ensures ValidFormat(Binary32())
    ensures ProtobufF32(n, d) ==
            var bits := RatioToBits(Binary32(), n, d);
            if IsNormal(Binary32(), bits) then Some(bits) else None
  {
    StandardFormats();
    if n * TEN_38 < d || d * (10 * TEN_38) <= n {
      DecimalCheckIsRedundant(n, d);
    } else {
      NormalOnlyIsRounding(Binary32(), n, d);
    }
  }
}
