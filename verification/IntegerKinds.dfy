/** The four integer kinds of constant expressions and their arithmetic, against the rules of C++20
    (ISO/IEC 14882:2020, sections 5.13.2, 7.3.8, 7.4, 7.6.2.1, 7.6.5 to 7.6.7 and 7.6.11 to 7.6.13). */
module IntegerKinds {
  import opened Options
  import opened Powers

  datatype Kind = I32 | U32 | I64 | U64

  function Width(k: Kind): nat { if k.I32? || k.U32? then 32 else 64 }

  predicate Signed(k: Kind) { k.I32? || k.I64? }

  function Modulus(k: Kind): (m: nat)
    ensures m > 0
  {
    Pow2(Width(k))
  }

  function Lowest(k: Kind): int { if Signed(k) then 0 - Pow2(Width(k) - 1) else 0 }

  function Highest(k: Kind): int { if Signed(k) then Pow2(Width(k) - 1) - 1 else Pow2(Width(k)) - 1 }

  predicate InRange(v: int, k: Kind) { Lowest(k) <= v <= Highest(k) }

  /** Integral conversion: the value of the kind that is congruent to `v` modulo two to its width. */
  ghost predicate Converts(v: int, k: Kind, r: int) {
    InRange(r, k) && r % Modulus(k) == v % Modulus(k)
  }

  lemma Halves(k: Kind)
    ensures Modulus(k) == 2 * Pow2(Width(k) - 1)
    ensures Highest(k) - Lowest(k) == Modulus(k) - 1
  {
    assert Pow2(Width(k)) == 2 * Pow2(Width(k) - 1);
  }

  lemma ModShift(a: int, q: int, m: nat)
    requires m > 0
    ensures (a + q * m) % m == a % m
  {
    DivMod(a, m);
    DivMod(a + q * m, m);
    var x, y := a / m, (a + q * m) / m;
    assert a % m - (a + q * m) % m == (y - x - q) * m by { Spread(y, x, q, m); }
    SmallMultiple(y - x - q, m, a % m - (a + q * m) % m);
  }

  lemma DivMod(a: int, m: nat)
    requires m > 0
    ensures a == a / m * m + a % m && 0 <= a % m < m
  {
  }

  lemma Spread(y: int, x: int, q: int, m: int)
    ensures (y - x - q) * m == y * m - x * m - q * m
  {
  }

  lemma SmallMultiple(q: int, m: nat, d: int)
    requires d == q * m && 0 - m < d < m
    ensures d == 0 && q == 0
  {
    if q >= 1 { MulLe(1, q, m); }
    if q <= -1 { MulLe(q, -1, m); }
  }

  /** Two numbers less than a modulus apart and congruent are equal. */
  lemma CongruentClose(a: int, b: int, m: nat)
    requires m > 0 && a % m == b % m && 0 - m < a - b < m
    ensures a == b
  {
    DivMod(a, m);
    DivMod(b, m);
    Spread(a / m, b / m, 0, m);
    SmallMultiple(a / m - b / m, m, a - b);
  }

  lemma ConversionUnique(v: int, k: Kind, r: int, s: int)
    requires Converts(v, k, r) && Converts(v, k, s)
    ensures r == s
  {
    Halves(k);
    hide Pow2;
    CongruentClose(r, s, Modulus(k));
  }

  // ---------------------------------------------------------------- conversions

  /** `value & (2**bits - 1)`. */
  function Mask(v: int, k: Kind): nat { v % Modulus(k) }

  /** _integer_from_bits. */
  function FromBits(v: int, k: Kind): int {
    var m := Mask(v, k);
    if Signed(k) && m >= Pow2(Width(k) - 1) then m - Modulus(k) else m
  }

  lemma FromBitsConverts(v: int, k: Kind)
    ensures Converts(v, k, FromBits(v, k))
  {
    Halves(k);
    hide Pow2;
    var m := Modulus(k);
    DivMod(v, m);
    ModShift(v % m, -1, m);
    SmallMod(v % m, m);
  }

  lemma SmallMod(a: nat, m: nat)
    requires a < m
    ensures a % m == a
  {
  }

  /** _convert_numeric_value from one integer kind to another; `None` is the range error. */
  function Convert(v: int, source: Kind, target: Kind): Option<int> {
    if Signed(source) && !InRange(v, source) then None
    else
      var x := if Signed(source) then v else Mask(v, source);
      if !Signed(target) then Some(Mask(x, target)) else if InRange(x, target) then Some(x) else None
  }

  /** _common_integer_kind. */
  function CommonKind(l: Kind, r: Kind): Kind {
    if l == r then l
    else if Signed(l) == Signed(r) then KindOf(if Width(l) >= Width(r) then Width(l) else Width(r), Signed(l))
    else
      var u, s := if Signed(l) then r else l, if Signed(l) then l else r;
      if Width(u) >= Width(s) then KindOf(Width(u), false) else KindOf(Width(s), true)
  }

  function KindOf(width: nat, signed: bool): Kind {
    if width == 32 then (if signed then I32 else U32) else if signed then I64 else U64
  }

  /** Every value of `a` is a value of `b`. */
  ghost predicate Represents(b: Kind, a: Kind) {
    forall v :: InRange(v, a) ==> InRange(v, b)
  }

  /** The usual arithmetic conversions on promoted types, where rank is width. */
  ghost predicate UsualArithmetic(l: Kind, r: Kind, k: Kind) {
    if l == r then k == l
    else if Signed(l) == Signed(r) then k in {l, r} && Width(k) >= Width(l) && Width(k) >= Width(r)
    else
      var u, s := if Signed(l) then r else l, if Signed(l) then l else r;
      if Width(u) >= Width(s) then k == u
      else if Represents(s, u) then k == s
      else !Signed(k) && Width(k) == Width(s)
  }

  lemma RangesNest()
    ensures Represents(I64, U32) && Represents(I64, I32) && Represents(I64, I64) && Represents(I32, I32)
  {
    hide Pow2;
    Pow2Monotone(31, 63);
    Pow2Monotone(32, 63);
  }

  lemma CommonKindIsUsual(l: Kind, r: Kind)
    ensures UsualArithmetic(l, r, CommonKind(l, r))
  {
    RangesNest();
    hide Represents;
  }

  /** The common kind is the later of the two in the order I32, U32, I64, U64. */
  lemma CommonKindIsLater(l: Kind, r: Kind)
    ensures CommonKind(l, r) ==
            if l.U64? || r.U64? then U64 else if l.I64? || r.I64? then I64 else if l.U32? || r.U32? then U32 else I32
  {
  }

  /** min() and max() fold the kinds of their arguments; any order gives the same kind. */
  lemma CommonKindAssociates(a: Kind, b: Kind, c: Kind)
    ensures CommonKind(a, b) == CommonKind(b, a)
    ensures CommonKind(CommonKind(a, b), c) == CommonKind(a, CommonKind(b, c))
  {
    CommonKindIsLater(a, b);
    CommonKindIsLater(b, a);
    CommonKindIsLater(b, c);
    CommonKindIsLater(CommonKind(a, b), c);
    CommonKindIsLater(a, CommonKind(b, c));
    hide CommonKind;
  }

  lemma SignedCommonContains(source: Kind, other: Kind)
    requires Signed(CommonKind(source, other))
    ensures Represents(CommonKind(source, other), source)
  {
    CommonKindIsLater(source, other);
    RangesNest();
    hide CommonKind, Represents;
  }

  lemma MaskFits(v: int, k: Kind)
    ensures InRange(Mask(v, k), U32) || !k.U32?
    ensures !Signed(k) ==> Converts(v, k, Mask(v, k)) && (InRange(v, k) ==> Mask(v, k) == v)
  {
    hide Pow2;
    DivMod(v, Modulus(k));
    SmallMod(v % Modulus(k), Modulus(k));
    if 0 <= v < Modulus(k) { SmallMod(v, Modulus(k)); }
  }

  /** An operand in its range always converts to a common kind, and as C++ converts it. */
  lemma OperandConverts(v: int, source: Kind, other: Kind)
    requires InRange(v, source)
    ensures Convert(v, source, CommonKind(source, other)).Some?
    ensures Converts(v, CommonKind(source, other), Convert(v, source, CommonKind(source, other)).value)
    ensures Convert(v, source, source) == Some(v)
  {
    var t := CommonKind(source, other);
    if Signed(t) { SignedCommonContains(source, other); }
    MaskFits(v, source);
    MaskFits(v, t);
    hide CommonKind, InRange, Mask, Pow2;
  }

  // ---------------------------------------------------------------- literals

  /** _literal_integer_kind. */
  function LiteralKind(v: nat, hexadecimal: bool): Option<Kind> {
    if hexadecimal then
      if v <= Highest(I32) then Some(I32)
      else if v <= Highest(U32) then Some(U32)
      else if v <= Highest(I64) then Some(I64)
      else if v <= Highest(U64) then Some(U64)
      else None
    else if v <= Highest(I32) then Some(I32)
    else if v <= Highest(I64) then Some(I64)
    else None
  }

  function LiteralKinds(hexadecimal: bool): seq<Kind> { if hexadecimal then [I32, U32, I64, U64] else [I32, I64] }

  /** The first kind of the list for its base in which the literal can be represented, if there is one. */
  lemma LiteralKindIsFirst(v: nat, hexadecimal: bool)
    ensures var kinds := LiteralKinds(hexadecimal);
      match LiteralKind(v, hexadecimal)
      case Some(k) => exists i :: 0 <= i < |kinds| && kinds[i] == k && InRange(v, k) && forall j :: 0 <= j < i ==> !InRange(v, kinds[j])
      case None => forall j :: 0 <= j < |kinds| ==> !InRange(v, kinds[j])
  {
    var kinds := LiteralKinds(hexadecimal);
    hide Pow2;
    assert kinds[0] == I32 && kinds[|kinds| - 1] == if hexadecimal then U64 else I64;
    if hexadecimal { assert kinds[1] == U32 && kinds[2] == I64; }
    var k := LiteralKind(v, hexadecimal);
    if k.Some? { assert kinds[if k.value.I32? then 0 else if k.value.U32? then 1 else if k.value.U64? then 3 else |kinds| / 2] == k.value; }
  }

  // ---------------------------------------------------------------- addition, subtraction, multiplication, negation

  /** _normalize_numeric_result. */
  function Normalize(v: int, k: Kind): Option<int> {
    if !Signed(k) then Some(Mask(v, k)) else if InRange(v, k) then Some(v) else None
  }

  /** Unsigned results wrap; a signed result is exact, and rejected exactly when it does not fit. */
  lemma NormalizeMeans(v: int, k: Kind)
    ensures Normalize(v, k).None? <==> Signed(k) && !InRange(v, k)
    ensures Normalize(v, k).Some? ==> Converts(v, k, Normalize(v, k).value)
    ensures Signed(k) && Normalize(v, k).Some? ==> Normalize(v, k).value == v
  {
    Halves(k);
    hide Pow2;
    DivMod(v, Modulus(k));
    SmallMod(v % Modulus(k), Modulus(k));
  }

  // ---------------------------------------------------------------- division

  function Abs(a: int): nat { if a < 0 then -a else a }

  /** _truncating_integer_divide. */
  function TruncatingDivide(a: int, b: int): int
    requires b != 0
  {
    var q := Abs(a) / Abs(b);
    if (a < 0) != (b < 0) then -q else q
  }

  /** The quotient is truncated towards zero: (a/b)*b + a%b is a, and the remainder is smaller than the divisor and
      never has the opposite sign of the dividend. */
  ghost predicate Divides(a: int, b: int, q: int, r: int) {
    a == q * b + r && Abs(r) < Abs(b) && (a >= 0 ==> r >= 0) && (a <= 0 ==> r <= 0)
  }

  lemma Signs(q: int, b: int)
    ensures (-q) * (-b) == q * b && (-q) * b == -(q * b) && q * (-b) == -(q * b)
  {
  }

  lemma TruncatingDivides(a: int, b: int)
    requires b != 0
    ensures Divides(a, b, TruncatingDivide(a, b), a - TruncatingDivide(a, b) * b)
  {
    var q := Abs(a) / Abs(b);
    DivMod(Abs(a), Abs(b));
    Signs(q, b);
    Signs(q, Abs(b));
  }

  lemma DivisionUnique(a: int, b: int, q: int, r: int, q': int, r': int)
    requires b != 0 && Divides(a, b, q, r) && Divides(a, b, q', r')
    ensures q == q' && r == r'
  {
    Spread(q, q', 0, b);
    Signs(q - q', b);
    SmallMultiple(if b > 0 then q - q' else q' - q, Abs(b), r' - r);
  }

  /** _signed_division_overflows. */
  predicate Overflows(a: int, b: int, k: Kind) { Signed(k) && a == Lowest(k) && b == -1 }

  /** `/` on integers of one kind; `None` is the division by zero or the overflow error. */
  function Divide(a: int, b: int, k: Kind): Option<int> {
    if b == 0 || Overflows(a, b, k) then None
    else Normalize(if Signed(k) then TruncatingDivide(a, b) else a / b, k)
  }

  function Remainder(a: int, b: int, k: Kind): Option<int> {
    if b == 0 || Overflows(a, b, k) then None
    else Normalize(if Signed(k) then a - TruncatingDivide(a, b) * b else a % b, k)
  }

  lemma UnsignedDivides(a: nat, b: nat)
    requires b > 0
    ensures Divides(a, b, a / b, a % b) && 0 <= a / b <= a && a / b == TruncatingDivide(a, b)
    ensures a % b == a - TruncatingDivide(a, b) * b
  {
    DivMod(a, b);
    if a / b > a { MulLt(a, a / b, b); MulLe(1, b, a); }
    Signs(a / b, b);
  }

  lemma QuotientBound(n: nat, d: nat)
    requires d > 0
    ensures n / d <= n && (d >= 2 ==> 2 * (n / d) <= n) && (d == 1 ==> n / d == n)
  {
    DivMod(n, d);
    MulLe(1, d, n / d);
    if d >= 2 { MulLe(2, d, n / d); }
  }

  lemma SignedQuotient(a: int, b: int, h: int)
    requires h >= 2 && 0 - h <= a < h && b != 0
    ensures a == 0 - h && b == -1 <==> !(0 - h <= TruncatingDivide(a, b) < h)
  {
    var n, d, q := Abs(a), Abs(b), Abs(a) / Abs(b);
    QuotientBound(n, d);
    assert TruncatingDivide(a, b) == if (a < 0) != (b < 0) then -q else q;
    hide TruncatingDivide;
  }

  /** The quotient of two operands in range leaves the range only when the lowest value is divided by minus one. */
  lemma QuotientRange(a: int, b: int, k: Kind)
    requires InRange(a, k) && InRange(b, k) && b != 0
    ensures Overflows(a, b, k) <==> !InRange(TruncatingDivide(a, b), k)
  {
    if Signed(k) {
      Pow2Monotone(1, Width(k) - 1);
      SignedQuotient(a, b, Pow2(Width(k) - 1));
      assert Pow2(1) == 2;
    } else {
      UnsignedDivides(a, b);
    }
    hide Pow2, TruncatingDivide;
  }

  lemma RemainderRange(a: int, b: int, k: Kind, q: int, r: int)
    requires InRange(a, k) && InRange(b, k) && Divides(a, b, q, r)
    ensures InRange(r, k)
  {
    hide Pow2;
  }

  /** Division and remainder are rejected exactly when the quotient does not exist or is not representable, and
      otherwise are the quotient and remainder of C++. */
  lemma DivisionMeans(a: int, b: int, k: Kind)
    requires InRange(a, k) && InRange(b, k)
    ensures Divide(a, b, k).None? <==> b == 0 || !InRange(TruncatingDivide(a, b), k)
    ensures Remainder(a, b, k).None? <==> Divide(a, b, k).None?
    ensures Divide(a, b, k).Some? ==>
              && InRange(Divide(a, b, k).value, k) && InRange(Remainder(a, b, k).value, k)
              && Divides(a, b, Divide(a, b, k).value, Remainder(a, b, k).value)
  {
    if b != 0 {
      QuotientRange(a, b, k);
      TruncatingDivides(a, b);
      if !Overflows(a, b, k) {
        var q := TruncatingDivide(a, b);
        if !Signed(k) { UnsignedDivides(a, b); }
        RemainderRange(a, b, k, q, a - q * b);
        NormalizeFits(q, k);
        NormalizeFits(a - q * b, k);
        hide Pow2, TruncatingDivide, InRange, Normalize, Divides;
      }
    }
  }

  lemma NormalizeFits(v: int, k: Kind)
    requires InRange(v, k)
    ensures Normalize(v, k) == Some(v)
  {
    Halves(k);
    hide Pow2;
    if !Signed(k) { SmallMod(v, Modulus(k)); }
  }

  // ---------------------------------------------------------------- bits

  /** Bit `i` of the two's complement representation. */
  function Bit(v: int, i: nat): (b: nat)
    ensures b < 2
  {
    v / Pow2(i) % 2
  }

  datatype BitOp = And | Or | Xor

  function OnBit(op: BitOp, x: nat, y: nat): (b: nat)
    requires x < 2 && y < 2
    ensures b < 2
  {
    match op
    case And => if x == 1 && y == 1 then 1 else 0
    case Or => if x == 1 || y == 1 then 1 else 0
    case Xor => if x != y then 1 else 0
  }

  /** `&`, `|` and `^` on numbers that are not negative. */
  function Bitwise(op: BitOp, a: nat, b: nat): nat
    decreases a + b
  {
    if a == 0 && b == 0 then 0 else OnBit(op, a % 2, b % 2) + 2 * Bitwise(op, a / 2, b / 2)
  }

  lemma DivideTwice(v: int, p: nat)
    requires p > 0
    ensures v / (2 * p) == v / 2 / p
  {
    DivMod(v, 2 * p);
    DivMod(v, 2);
    DivMod(v / 2, p);
    var x, y, r, s := v / (2 * p), v / 2 / p, v % (2 * p), v % 2 + 2 * (v / 2 % p);
    assert x * (2 * p) + r == y * (2 * p) + s && 0 <= s < 2 * p by { Regroup2(y, p); }
    Spread(y, x, 0, 2 * p);
    SmallMultiple(y - x, 2 * p, r - s);
  }

  lemma Regroup2(y: int, p: int)
    ensures 2 * (y * p) == y * (2 * p)
  {
  }

  lemma BitStep(v: int, i: nat)
    requires i > 0
    ensures Bit(v, i) == Bit(v / 2, i - 1) && Bit(v, 0) == v % 2
  {
    DivideTwice(v, Pow2(i - 1));
    assert Pow2(0) == 1;
  }

  lemma {:induction false} BitwiseBits(op: BitOp, a: nat, b: nat, i: nat)
    ensures Bit(Bitwise(op, a, b), i) == OnBit(op, Bit(a, i), Bit(b, i))
    decreases i
  {
    var r := Bitwise(op, a, b);
    assert r / 2 == (if a == 0 && b == 0 then 0 else Bitwise(op, a / 2, b / 2));
    assert r % 2 == OnBit(op, a % 2, b % 2);
    if i == 0 {
      assert Pow2(0) == 1;
    } else {
      BitStep(r, i);
      BitStep(a, i);
      BitStep(b, i);
      BitwiseBits(op, a / 2, b / 2, i - 1);
    }
  }

  /** Congruent numbers have the same bits below the modulus. */
  lemma SameBits(v: int, n: nat, i: nat)
    requires i < n
    ensures Bit(v % Pow2(n), i) == Bit(v, i)
  {
    var m, p, q := Pow2(n), Pow2(i), Pow2(n - i - 1);
    Pow2Add(i, n - i);
    assert Pow2(n - i) == 2 * q && m == p * (2 * q);
    DivMod(v, m);
    DivMod(v % m, p);
    DivMod(v, p);
    var x, k := v % m / p, v / m;
    assert v == (x + k * (2 * q)) * p + v % m % p by { Collect(x, k, 2 * q, p); }
    Spread(v / p, x + k * (2 * q), 0, p);
    SmallMultiple(v / p - (x + k * (2 * q)), p, v % m % p - v % p);
    Even(x, k * q);
    Regroup2(k, q);
  }

  lemma Collect(x: int, k: int, q: int, p: int)
    ensures x * p + k * (p * q) == (x + k * q) * p
  {
  }

  lemma Even(x: int, y: int)
    ensures (x + 2 * y) % 2 == x % 2
  {
  }

  ghost predicate SameUpTo(a: int, b: int, n: nat) { forall i :: 0 <= i < n ==> Bit(a, i) == Bit(b, i) }

  /** The bits of a kind determine a value of the kind. */
  lemma {:induction false} BitsDetermine(a: int, b: int, n: nat)
    requires SameUpTo(a, b, n)
    ensures a % Pow2(n) == b % Pow2(n)
    decreases n
  {
    if n == 0 {
      assert Pow2(0) == 1;
    } else {
      forall i | 0 <= i < n - 1 ensures Bit(a / 2, i) == Bit(b / 2, i) {
        BitStep(a, i + 1);
        BitStep(b, i + 1);
        assert Bit(a, i + 1) == Bit(b, i + 1);
      }
      BitsDetermine(a / 2, b / 2, n - 1);
      assert Bit(a, 0) == Bit(b, 0) && Pow2(0) == 1;
      ModStep(a, Pow2(n - 1));
      ModStep(b, Pow2(n - 1));
    }
  }

  lemma ModStep(a: int, p: nat)
    requires p > 0
    ensures a % (2 * p) == a % 2 + 2 * (a / 2 % p)
  {
    DivideTwice(a, p);
    DivMod(a, 2 * p);
    DivMod(a, 2);
    DivMod(a / 2, p);
    Regroup2(a / 2 / p, p);
  }

  /** _bitwise_binary on converted operands. */
  function BitwiseBinary(op: BitOp, a: int, b: int, k: Kind): int {
    FromBits(Bitwise(op, Mask(a, k), Mask(b, k)), k)
  }

  /** Every bit of the result is the operator on the bits of the operands, in two's complement. */
  lemma BitwiseMeans(op: BitOp, a: int, b: int, k: Kind, i: nat)
    requires i < Width(k)
    ensures InRange(BitwiseBinary(op, a, b, k), k)
    ensures Bit(BitwiseBinary(op, a, b, k), i) == OnBit(op, Bit(a, i), Bit(b, i))
  {
    var x, y := Mask(a, k), Mask(b, k);
    var bits := Bitwise(op, x, y);
    FromBitsConverts(bits, k);
    BitwiseBits(op, x, y, i);
    SameBits(a, Width(k), i);
    SameBits(b, Width(k), i);
    SameBits(bits, Width(k), i);
    SameBits(BitwiseBinary(op, a, b, k), Width(k), i);
    hide Pow2, Bitwise, Bit, FromBits, OnBit;
  }

  /** _bitwise_complement. */
  function Complement(a: int, k: Kind): int { FromBits(0 - Mask(a, k) - 1, k) }

  lemma Flip(v: int, p: nat)
    requires p > 0
    ensures (0 - v - 1) / p == 0 - v / p - 1
  {
    DivMod(v, p);
    DivMod(0 - v - 1, p);
    var x, y := (0 - v - 1) / p, v / p;
    Collect(x, y + 1, 1, p);
    assert (x + y + 1) * p == p - 1 - v % p - (0 - v - 1) % p;
    SmallMultiple(x + y + 1, p, (x + y + 1) * p);
  }

  lemma FlipBit(v: int, i: nat)
    ensures Bit(0 - v - 1, i) == 1 - Bit(v, i)
  {
    Flip(v, Pow2(i));
    Even(0 - v / Pow2(i) - 1, v / Pow2(i));
  }

  /** Every bit is inverted. */
  lemma ComplementMeans(a: int, k: Kind, i: nat)
    requires i < Width(k)
    ensures InRange(Complement(a, k), k) && Bit(Complement(a, k), i) == 1 - Bit(a, i)
  {
    hide Pow2, Bit, FromBits, InRange, Width;
    var flipped := 0 - Mask(a, k) - 1;
    FromBitsConverts(flipped, k);
    FlipBit(Mask(a, k), i);
    SameBits(a, Width(k), i);
    SameBits(flipped, Width(k), i);
    SameBits(Complement(a, k), Width(k), i);
  }

  // ---------------------------------------------------------------- shifts

  /** _shift_value; `None` is the error for a count outside the width. */
  function Shift(left: bool, a: int, count: int, k: Kind): Option<int> {
    if count < 0 || count >= Width(k) then None
    else Some(
      if left then FromBits(Mask(a, k) * Pow2(count), k)
      else if Signed(k) then a / Pow2(count)
      else Mask(a, k) / Pow2(count))
  }

  lemma ProductSplit(q: int, m: int, r: int, p: int)
    ensures (q * m + r) * p == r * p + q * p * m
  {
  }

  lemma ProductMod(a: int, p: int, m: nat)
    requires m > 0
    ensures a % m * p % m == a * p % m
  {
    DivMod(a, m);
    var q, r := a / m, a % m;
    ProductSplit(q, m, r, p);
    ModShift(r * p, q * p, m);
    assert a * p == r * p + q * p * m;
  }

  lemma ProductBounds(q: int, p: nat)
    requires p > 0
    ensures if q >= 0 then q * p >= q else q * p <= q - (p - 1)
  {
    if q >= 0 {
      MulLe(1, p, q);
    } else {
      MulLe(q, -1, p - 1);
      assert q * p == q * (p - 1) + q;
    }
  }

  lemma Shrinks(a: int, p: nat)
    requires p > 0
    ensures if a >= 0 then 0 <= a / p <= a else a <= a / p < 0
  {
    DivMod(a, p);
    ProductBounds(a / p, p);
    LinearShrink(a, p, a / p, a / p * p, a % p);
  }

  lemma LinearShrink(a: int, p: nat, q: int, x: int, r: int)
    requires a == x + r && 0 <= r < p && if q >= 0 then x >= q else x <= q - (p - 1)
    ensures if a >= 0 then 0 <= q <= a else a <= q < 0
  {
  }

  lemma RightShiftRange(a: int, p: nat, k: Kind)
    requires InRange(a, k) && p > 0
    ensures InRange(a / p, k)
  {
    hide Pow2;
    Shrinks(a, p);
    assert Lowest(k) <= 0 && Highest(k) >= -1;
  }

  lemma LeftShiftMeans(a: int, count: nat, k: Kind)
    ensures Converts(a * Pow2(count), k, FromBits(Mask(a, k) * Pow2(count), k))
  {
    FromBitsConverts(Mask(a, k) * Pow2(count), k);
    ProductMod(a, Pow2(count), Modulus(k));
    hide Pow2, FromBits, InRange, Modulus;
  }

  /** A left shift is the value of the kind congruent to a * 2**count; a right shift is a / 2**count rounded down; a
      count that is negative or not less than the width is rejected. */
  lemma ShiftMeans(left: bool, a: int, count: int, k: Kind)
    requires InRange(a, k)
    ensures Shift(left, a, count, k).None? <==> count < 0 || count >= Width(k)
    ensures Shift(left, a, count, k).Some? && left ==> Converts(a * Pow2(count), k, Shift(left, a, count, k).value)
    ensures Shift(left, a, count, k).Some? && !left ==>
              InRange(Shift(left, a, count, k).value, k) && Shift(left, a, count, k).value == a / Pow2(count)
  {
    hide Pow2, FromBits, InRange, Modulus, Mask, Converts, Width;
    if 0 <= count < Width(k) {
      LeftShiftMeans(a, count, k);
      MaskFits(a, k);
      RightShiftRange(a, Pow2(count), k);
    }
  }
}
