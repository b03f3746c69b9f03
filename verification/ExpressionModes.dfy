/** When an operand that is not evaluated may fail: an input on which it does, and a condition on the expression's text and
    kinds under which it does not. */
module ExpressionModes {
  import opened Expressions
  import opened ExpressionLaws
  import opened IntegerKinds
  import opened Options
  import opened Powers

  // ---------------------------------------------------------------- a failure of type-only mode alone

  /** `1 << -(1 == 0)`: the comparison is false, so the count is zero; of two placeholders it is true. */
  const ShiftByComparison: Expr :=
    Binary(ShiftLeft, Literal(Number(Whole(I32), 1)),
           Unary(Minus, Binary(Equal, Literal(Number(Whole(I32), 1)), Literal(Number(Whole(I32), 0)))))

  lemma KnownConversions()
    ensures Convert(0, I32, I32) == Some(0) && Convert(1, I32, I32) == Some(1) && Convert(-1, I32, I32) == Some(-1)
    ensures Normalize(0, I32) == Some(0) && Normalize(-1, I32) == Some(-1)
    ensures CommonKind(I32, I32) == I32
  {
    Pow2Monotone(1, 31);
    assert Pow2(1) == 2;
    hide Pow2;
    OperandConverts(0, I32, I32);
    OperandConverts(1, I32, I32);
    OperandConverts(-1, I32, I32);
  }

  lemma ComparisonCount(fp: FloatUnit, names: string -> Option<Value>, evaluate: bool)
    ensures Eval(fp, names, ShiftByComparison.right, evaluate) == Some(Number(Whole(I32), if evaluate then 0 else -1))
  {
    KnownConversions();
    hide Convert, Normalize, CommonKind;
    var c := ShiftByComparison.right.operand;
    var l := if evaluate then Number(Whole(I32), 1) else Number(Whole(I32), 0);
    assert Eval(fp, names, c.left, evaluate) == Some(l) && Eval(fp, names, c.right, evaluate) == Some(Number(Whole(I32), 0));
    assert Operands(fp, l, Number(Whole(I32), 0)) == Some((l.v, 0, Whole(I32)));
    assert Eval(fp, names, c, evaluate) == Some(Bool(!evaluate));
  }

  /** The shift has a value, and yet `false && (1 << -(1 == 0))` is an error. */
  lemma TypeOnlyCanFail(fp: FloatUnit, names: string -> Option<Value>)
    ensures Eval(fp, names, ShiftByComparison, true).Some?
    ensures Eval(fp, names, ShiftByComparison, false).None?
    ensures Eval(fp, names, Binary(LogicalAnd, Literal(Bool(false)), ShiftByComparison), true).None?
  {
    ComparisonCount(fp, names, true);
    ComparisonCount(fp, names, false);
    KnownConversions();
    RightShifts(1);
    RightShifts(0);
    hide Convert, Shift, CommonKind, InRange, Width, ShiftByComparison;
    ShiftIsShift();
    assert Eval(fp, names, ShiftByComparison, true) == ApplyShift(ShiftLeft, Number(Whole(I32), 1), Number(Whole(I32), 0));
    assert Eval(fp, names, ShiftByComparison, false) == ApplyShift(ShiftLeft, Number(Whole(I32), 0), Number(Whole(I32), -1));
    assert AsBool(fp, Bool(false)) == Some(false);
  }

  lemma ShiftIsShift()
    ensures ShiftByComparison == Binary(ShiftLeft, Literal(Number(Whole(I32), 1)), ShiftByComparison.right)
  {
  }

  lemma RightShifts(x: int)
    ensures Shift(true, x, 0, I32).Some? && Shift(true, x, -1, I32).None?
  {
  }

  // ---------------------------------------------------------------- kinds that fit

  predicate NumberLike(s: Shape) { !s.TextShape? }

  predicate IntegerLike(s: Shape) { NumberLike(s) && NumericOf(s).Whole? }

  predicate UnaryFits(op: UnaryOp, s: Shape) { if op.Invert? then IntegerLike(s) else NumberLike(s) }

  predicate BinaryFits(op: BinaryOp, a: Shape, b: Shape) {
    match op
    case Add => (a.TextShape? && b.TextShape?) || (NumberLike(a) && NumberLike(b))
    case Equal => (a.TextShape? && b.TextShape?) || (NumberLike(a) && NumberLike(b))
    case NotEqual => (a.TextShape? && b.TextShape?) || (NumberLike(a) && NumberLike(b))
    case Modulo => IntegerLike(a) && IntegerLike(b)
    case BitOr => IntegerLike(a) && IntegerLike(b)
    case BitXor => IntegerLike(a) && IntegerLike(b)
    case BitAnd => IntegerLike(a) && IntegerLike(b)
    case ShiftLeft => IntegerLike(a) && IntegerLike(b)
    case ShiftRight => IntegerLike(a) && IntegerLike(b)
    case _ => NumberLike(a) && NumberLike(b)
  }

  predicate FunctionFits(f: Function, ss: seq<Shape>) {
    match f
    case Cast(target) => |ss| == 1 && (target.TextShape? || NumberLike(ss[0]))
    case Len => |ss| == 1 && ss[0].TextShape?
    case Substr => |ss| == 3 && ss[0].TextShape? && ss[1].NumberShape? && ss[2].NumberShape?
    case StartsWith => |ss| == 2 && ss[0].TextShape? && ss[1].TextShape?
    case Pow => |ss| == 2 && NumberLike(ss[0]) && NumberLike(ss[1])
    case AbsOf => |ss| == 1 && NumberLike(ss[0])
    case RealOf(_) => |ss| == 1 && NumberLike(ss[0])
    case _ => |ss| >= 2 && forall i :: 0 <= i < |ss| ==> NumberLike(ss[i])
  }

  /** Every name is known and every operator and function is given kinds it accepts. */
  predicate TypesFit(names: string -> Option<Value>, shapes: string -> Shape, e: Expr)
    decreases e
  {
    match e
    case Literal(_) => true
    case Name(n) => names(n).Some?
    case Unary(op, x) => TypesFit(names, shapes, x) && UnaryFits(op, TypeOf(shapes, x))
    case Binary(op, l, r) =>
      TypesFit(names, shapes, l) && TypesFit(names, shapes, r) && BinaryFits(op, TypeOf(shapes, l), TypeOf(shapes, r))
    case Call(name, args) =>
      && AllTypesFit(names, shapes, args)
      && FunctionNamed(name).Some? && FunctionFits(FunctionNamed(name).value, TypesOf(shapes, args))
  }

  predicate AllTypesFit(names: string -> Option<Value>, shapes: string -> Shape, es: seq<Expr>)
    decreases es
  {
    es != [] ==> AllTypesFit(names, shapes, es[..|es| - 1]) && TypesFit(names, shapes, es[|es| - 1])
  }

  // ---------------------------------------------------------------- operands that stay placeholders

  predicate Comparison(op: BinaryOp) {
    op == Equal || op == NotEqual || op == Less || op == LessEqual || op == Greater || op == GreaterEqual
  }

  /** In type-only mode the expression yields the placeholder of its kind.  Complements, negated booleans and comparisons
      that hold of equal operands yield something else. */
  predicate Zeroed(e: Expr) {
    match e
    case Literal(_) => true
    case Name(_) => true
    case Unary(op, x) => (op.Plus? || op.Minus?) && Zeroed(x)
    case Binary(op, l, r) =>
      op == LogicalOr || op == LogicalAnd ||
      (op != Equal && op != LessEqual && op != GreaterEqual && Zeroed(l) && Zeroed(r))
    case Call(_, _) => true
  }

  /** Negation of the lowest value of a signed kind fails. */
  predicate UnaryNeeds(op: UnaryOp, s: Shape) {
    op.Minus? && s.NumberShape? && s.numeric.Whole? && Signed(s.numeric.kind)
  }

  /** Signed sums may overflow, and floating-point operations and conversions need not be finite. */
  predicate BinaryNeeds(op: BinaryOp, a: Shape, b: Shape) {
    var n := CommonNumeric(NumericOf(a), NumericOf(b));
    match op
    case Add => !n.Whole? || Signed(n.kind)
    case Subtract => !n.Whole? || Signed(n.kind)
    case Multiply => !n.Whole? || Signed(n.kind)
    case _ => !n.Whole?
  }

  predicate FunctionNeeds(f: Function) { f == Substr || f == Cast(NumberShape(F32)) || f == Cast(NumberShape(F64)) }

  predicate AllZeroed(es: seq<Expr>) { forall i :: 0 <= i < |es| ==> Zeroed(es[i]) }

  /** Wherever another placeholder than zero could make an operation fail, the operands stay zero. */
  predicate Steady(shapes: string -> Shape, e: Expr)
    decreases e
  {
    match e
    case Literal(_) => true
    case Name(_) => true
    case Unary(op, x) => Steady(shapes, x) && (UnaryNeeds(op, TypeOf(shapes, x)) ==> Zeroed(x))
    case Binary(op, l, r) =>
      && Steady(shapes, l) && Steady(shapes, r)
      && (op != LogicalOr && op != LogicalAnd && BinaryNeeds(op, TypeOf(shapes, l), TypeOf(shapes, r)) ==> Zeroed(l) && Zeroed(r))
      && (op == ShiftLeft || op == ShiftRight ==> Zeroed(r))
    case Call(name, args) =>
      AllSteady(shapes, args) && (FunctionNamed(name).Some? && FunctionNeeds(FunctionNamed(name).value) ==> AllZeroed(args))
  }

  predicate AllSteady(shapes: string -> Shape, es: seq<Expr>)
    decreases es
  {
    es != [] ==> AllSteady(shapes, es[..|es| - 1]) && Steady(shapes, es[|es| - 1])
  }

  // ---------------------------------------------------------------- the values of type-only mode

  /** Floating-point sums, products, negations and roundings of zeros are zeros, and zeros compare equal. */
  ghost predicate Zeros(fp: FloatUnit, zero: int -> bool) {
    && zero(ZERO)
    && (forall op, x, y :: (op == Add || op == Subtract || op == Multiply) && zero(x) && zero(y) ==> zero(fp.arithmetic(op, x, y)))
    && (forall x :: zero(x) ==> zero(fp.negate(x)) && fp.truncate(x) == 0)
    && (forall n: Numeric, x :: !n.Whole? && zero(x) ==> fp.settle(n, x).Some? && zero(fp.settle(n, x).value))
    && (forall n: Numeric :: !n.Whole? ==> fp.ofInteger(n, 0).Some? && zero(fp.ofInteger(n, 0).value))
    && (forall x, y :: zero(x) && zero(y) ==> fp.same(x, y) && !fp.before(x, y))
  }

  /** Integers are in range and floating-point values are zeros. */
  ghost predicate Tame(zero: int -> bool, v: Value) {
    v.Number? ==> if v.numeric.Whole? then InRange(v.v, v.numeric.kind) else zero(v.v)
  }

  ghost predicate IsZero(zero: int -> bool, v: Value) {
    match v
    case Bool(b) => !b
    case Text(s) => s == ""
    case Number(n, x) => if n.Whole? then x == 0 else zero(x)
  }

  lemma ZeroInRange(k: Kind)
    ensures InRange(0, k)
  {
    Pow2Monotone(0, Width(k) - 1);
    assert Pow2(0) == 1;
    Halves(k);
    hide Pow2;
  }

  lemma PlaceholderTame(fp: FloatUnit, zero: int -> bool, v: Value)
    requires Zeros(fp, zero)
    ensures Tame(zero, Placeholder(v)) && IsZero(zero, Placeholder(v))
  {
    hide InRange;
    if v.Number? && v.numeric.Whole? { ZeroInRange(v.numeric.kind); }
  }

  lemma ZeroTame(fp: FloatUnit, zero: int -> bool, n: Numeric)
    requires Zeros(fp, zero)
    ensures Tame(zero, Number(n, ZERO)) && IsZero(zero, Number(n, ZERO))
  {
    PlaceholderTame(fp, zero, Number(n, ZERO));
  }

  lemma TameNumber(zero: int -> bool, v: Value)
    requires Tame(zero, v) && NumberLike(ShapeOf(v))
    ensures AsNumber(v).Some? && AsNumber(v).value.1 == NumericOf(ShapeOf(v))
    ensures var (x, n) := AsNumber(v).value;
      && (if n.Whole? then InRange(x, n.kind) else zero(x))
      && (IsZero(zero, v) ==> if n.Whole? then x == 0 else zero(x))
  {
    if v.Bool? { BoolRanged(v); }
    hide InRange;
  }

  /** A number converts to its own kind, and to a common kind when integers stay integers or all is zero. */
  lemma TameConverts(fp: FloatUnit, zero: int -> bool, x: int, m: Numeric, n: Numeric)
    requires Zeros(fp, zero) && (if m.Whole? then InRange(x, m.kind) else zero(x))
    requires m == n || (if n.Whole? then m.Whole? && exists k :: n.kind == CommonKind(m.kind, k) else !m.Whole? || x == 0)
    ensures ConvertNumber(fp, x, m, n).Some?
    ensures var y := ConvertNumber(fp, x, m, n).value; if n.Whole? then InRange(y, n.kind) && (x == 0 ==> y == 0) else zero(y)
    ensures m == n && m.Whole? ==> ConvertNumber(fp, x, m, n).value == x
  {
    hide CommonKind, InRange, Converts;
    if m.Whole? {
      OperandConverts(x, m.kind, m.kind);
      CommonKindSame(m.kind);
      if n.Whole? {
        var k :| n.kind == CommonKind(m.kind, k);
        OperandConverts(x, m.kind, k);
        ConvertsInRange(x, n.kind, Convert(x, m.kind, n.kind).value);
        if x == 0 { ZeroConverts(n.kind, Convert(x, m.kind, n.kind).value); }
      }
    }
    hide Convert;
  }

  lemma ConvertsInRange(v: int, k: Kind, r: int)
    requires Converts(v, k, r)
    ensures InRange(r, k)
  {
  }

  lemma ZeroConverts(k: Kind, r: int)
    requires Converts(0, k, r)
    ensures r == 0
  {
    ZeroInRange(k);
    assert Converts(0, k, 0);
    hide Converts;
    ConversionUnique(0, k, r, 0);
  }

  lemma TameOperands(fp: FloatUnit, zero: int -> bool, l: Value, r: Value)
    requires Zeros(fp, zero) && Tame(zero, l) && Tame(zero, r) && NumberLike(ShapeOf(l)) && NumberLike(ShapeOf(r))
    requires var n := CommonNumeric(NumericOf(ShapeOf(l)), NumericOf(ShapeOf(r)));
             !n.Whole? ==> IsZero(zero, l) && IsZero(zero, r)
    ensures Operands(fp, l, r).Some?
    ensures var (x, y, n) := Operands(fp, l, r).value;
      && n == CommonNumeric(NumericOf(ShapeOf(l)), NumericOf(ShapeOf(r)))
      && (if n.Whole? then InRange(x, n.kind) && InRange(y, n.kind) else zero(x) && zero(y))
      && (n.Whole? && IsZero(zero, l) ==> x == 0) && (n.Whole? && IsZero(zero, r) ==> y == 0)
  {
    hide InRange, ConvertNumber, Zeros, IsZero, Tame, CommonKind, CommonNumeric, Operands, AsNumber, NumericOf;
    TameNumber(zero, l);
    TameNumber(zero, r);
    var (x, m) := AsNumber(l).value;
    var (y, n) := AsNumber(r).value;
    var k := CommonNumeric(m, n);
    CommonTarget(m, n);
    TameConverts(fp, zero, x, m, k);
    TameConverts(fp, zero, y, n, k);
    OperandsAre(fp, l, r, x, m, y, n);
  }

  lemma CommonTarget(m: Numeric, n: Numeric)
    ensures var k := CommonNumeric(m, n);
      k.Whole? ==> && m.Whole? && (exists j :: k.kind == CommonKind(m.kind, j))
                   && n.Whole? && (exists j :: k.kind == CommonKind(n.kind, j))
  {
    var k := CommonNumeric(m, n);
    if k.Whole? {
      CommonIsWhole(m, n);
      CommonKindAssociates(m.kind, n.kind, n.kind);
      hide CommonKind;
      assert k.kind == CommonKind(m.kind, n.kind) && k.kind == CommonKind(n.kind, m.kind);
    }
  }

  lemma OperandsAre(fp: FloatUnit, l: Value, r: Value, x: int, m: Numeric, y: int, n: Numeric)
    requires AsNumber(l) == Some((x, m)) && AsNumber(r) == Some((y, n))
    requires var k := CommonNumeric(m, n); ConvertNumber(fp, x, m, k).Some? && ConvertNumber(fp, y, n, k).Some?
    ensures var k := CommonNumeric(m, n);
      Operands(fp, l, r) == Some((ConvertNumber(fp, x, m, k).value, ConvertNumber(fp, y, n, k).value, k))
  {
    hide AsNumber, CommonNumeric, ConvertNumber;
  }

  lemma TameBool(fp: FloatUnit, zero: int -> bool, v: Value)
    requires Zeros(fp, zero) && Tame(zero, v) && NumberLike(ShapeOf(v))
    ensures AsBool(fp, v).Some? && (IsZero(zero, v) ==> !AsBool(fp, v).value)
  {
    if v.Number? { TameConverts(fp, zero, v.v, v.numeric, v.numeric); }
    hide InRange, ConvertNumber;
  }

  lemma TameNormalized(fp: FloatUnit, zero: int -> bool, x: int, n: Numeric)
    requires Zeros(fp, zero) && (if n.Whole? then Signed(n.kind) ==> InRange(x, n.kind) else zero(x))
    ensures Normalized(fp, x, n).Some? && Tame(zero, Normalized(fp, x, n).value)
    ensures n.Whole? && x == 0 ==> Normalized(fp, x, n).value == Number(n, 0)
    ensures ShapeOf(Normalized(fp, x, n).value) == NumberShape(n)
  {
    if n.Whole? {
      NormalizeMeans(x, n.kind);
      var y := Normalize(x, n.kind).value;
      ConvertsInRange(x, n.kind, y);
      if x == 0 { ZeroConverts(n.kind, y); }
      hide Normalize, InRange, Converts;
    }
  }

  lemma UnaryTame(fp: FloatUnit, zero: int -> bool, op: UnaryOp, v: Value)
    requires Zeros(fp, zero) && Tame(zero, v) && UnaryFits(op, ShapeOf(v)) && (UnaryNeeds(op, ShapeOf(v)) ==> IsZero(zero, v))
    ensures ApplyUnary(fp, op, v).Some? && Tame(zero, ApplyUnary(fp, op, v).value)
    ensures (op.Plus? || op.Minus?) && IsZero(zero, v) ==> IsZero(zero, ApplyUnary(fp, op, v).value)
  {
    hide InRange, AsBool, Complement, Normalized, Zeros, Tame, IsZero, AsNumber, NumericOf, UnaryNeeds;
    TameNumber(zero, v);
    TameBool(fp, zero, v);
    var (x, n) := AsNumber(v).value;
    match op
    case Not => TextTame(zero, "");
    case Invert => InvertTame(zero, x, n.kind);
    case Plus => TameNormalized(fp, zero, x, n); ZeroNormalized(fp, zero, v, x, n);
    case Minus => NegationTame(fp, zero, v, x, n);
  }

  lemma InvertTame(zero: int -> bool, x: int, k: Kind)
    ensures Tame(zero, Number(Whole(k), Complement(x, k)))
  {
    ComplementMeans(x, k, 0);
    hide InRange, Complement, Bit;
  }

  lemma ZeroNormalized(fp: FloatUnit, zero: int -> bool, v: Value, x: int, n: Numeric)
    requires Zeros(fp, zero) && AsNumber(v) == Some((x, n)) && Normalized(fp, x, n).Some? && (!n.Whole? ==> zero(x))
    requires n.Whole? && x == 0 ==> Normalized(fp, x, n).value == Number(n, 0)
    requires Tame(zero, Normalized(fp, x, n).value) && ShapeOf(Normalized(fp, x, n).value) == NumberShape(n)
    ensures IsZero(zero, v) ==> IsZero(zero, Normalized(fp, x, n).value)
  {
    hide Normalized, InRange;
  }

  lemma NegationTame(fp: FloatUnit, zero: int -> bool, v: Value, x: int, n: Numeric)
    requires Zeros(fp, zero) && AsNumber(v) == Some((x, n)) && (if n.Whole? then InRange(x, n.kind) else zero(x))
    requires UnaryNeeds(Minus, ShapeOf(v)) ==> IsZero(zero, v)
    ensures var y := if n.Whole? then -x else fp.negate(x);
      && Normalized(fp, y, n).Some? && Tame(zero, Normalized(fp, y, n).value)
      && (IsZero(zero, v) ==> IsZero(zero, Normalized(fp, y, n).value))
  {
    hide Normalized;
    if n.Whole? && Signed(n.kind) {
      if v.Number? { ZeroInRange(n.kind); } else { SmallInRange(); ZeroInRange(I32); }
    }
    TameNormalized(fp, zero, if n.Whole? then -x else fp.negate(x), n);
    hide InRange;
  }

  lemma SmallInRange()
    ensures InRange(-1, I32)
  {
    Pow2Monotone(0, 31);
    assert Pow2(0) == 1;
    hide Pow2;
  }

  lemma NothingExact(op: BinaryOp)
    ensures Exact(op, 0, 0) == 0
  {
  }

  lemma SumTame(fp: FloatUnit, zero: int -> bool, op: BinaryOp, x: int, y: int, n: Numeric)
    requires op == Add || op == Subtract || op == Multiply
    requires Zeros(fp, zero) && if n.Whole? then Signed(n.kind) ==> x == 0 && y == 0 else zero(x) && zero(y)
    ensures var z := if n.Whole? then Exact(op, x, y) else fp.arithmetic(op, x, y);
      && Normalized(fp, z, n).Some? && Tame(zero, Normalized(fp, z, n).value)
      && (!n.Whole? || (x == 0 && y == 0) ==> IsZero(zero, Normalized(fp, z, n).value))
  {
    hide InRange, Normalized, Exact, CommonKind;
    if n.Whole? { ZeroInRange(n.kind); }
    NothingExact(op);
    TameNormalized(fp, zero, if n.Whole? then Exact(op, x, y) else fp.arithmetic(op, x, y), n);
  }

  lemma ArithmeticTame(fp: FloatUnit, zero: int -> bool, op: BinaryOp, l: Value, r: Value)
    requires op == Add || op == Subtract || op == Multiply
    requires Zeros(fp, zero) && Tame(zero, l) && Tame(zero, r) && NumberLike(ShapeOf(l)) && NumberLike(ShapeOf(r))
    requires BinaryNeeds(op, ShapeOf(l), ShapeOf(r)) ==> IsZero(zero, l) && IsZero(zero, r)
    ensures ApplyArithmetic(fp, op, l, r).Some? && Tame(zero, ApplyArithmetic(fp, op, l, r).value)
    ensures IsZero(zero, l) && IsZero(zero, r) ==> IsZero(zero, ApplyArithmetic(fp, op, l, r).value)
  {
    hide InRange, Operands, Normalized, CommonNumeric, Tame, IsZero, Zeros, ShapeOf, NumericOf, NumberLike, Exact;
    TameOperands(fp, zero, l, r);
    var (x, y, n) := Operands(fp, l, r).value;
    SumTame(fp, zero, op, x, y, n);
  }

  lemma DivisionShapes(op: BinaryOp, a: Shape, b: Shape)
    requires (op == Divide_ || op == Modulo) && BinaryFits(op, a, b)
    ensures NumberLike(a) && NumberLike(b) && (op == Modulo ==> CommonNumeric(NumericOf(a), NumericOf(b)).Whole?)
  {
    hide CommonKind;
  }

  lemma DivisionTame(fp: FloatUnit, zero: int -> bool, op: BinaryOp, l: Value, r: Value)
    requires op == Divide_ || op == Modulo
    requires Zeros(fp, zero) && Tame(zero, l) && Tame(zero, r) && BinaryFits(op, ShapeOf(l), ShapeOf(r))
    requires BinaryNeeds(op, ShapeOf(l), ShapeOf(r)) ==> IsZero(zero, l) && IsZero(zero, r)
    ensures ApplyDivision(fp, op, l, r, false).Some? && Tame(zero, ApplyDivision(fp, op, l, r, false).value)
    ensures IsZero(zero, ApplyDivision(fp, op, l, r, false).value)
  {
    hide InRange, Operands, CommonNumeric, Tame, IsZero, Zeros, ShapeOf, NumericOf, NumberLike, BinaryFits;
    DivisionShapes(op, ShapeOf(l), ShapeOf(r));
    TameOperands(fp, zero, l, r);
    ZeroTame(fp, zero, Operands(fp, l, r).value.2);
  }

  lemma ComparesZeros(fp: FloatUnit, zero: int -> bool, op: BinaryOp, x: int, y: int, n: Numeric)
    requires Zeros(fp, zero) && if n.Whole? then x == 0 && y == 0 else zero(x) && zero(y)
    ensures op == Less || op == Greater || op == NotEqual ==> !Compares(fp, op, x, y, n)
  {
  }

  lemma ComparisonShapes(op: BinaryOp, l: Value, r: Value)
    requires Comparison(op) && BinaryFits(op, ShapeOf(l), ShapeOf(r))
    ensures if l.Text? || r.Text? then l.Text? && r.Text? && (op == Equal || op == NotEqual)
            else NumberLike(ShapeOf(l)) && NumberLike(ShapeOf(r))
  {
  }

  lemma ZeroTexts(zero: int -> bool, l: Value, r: Value)
    requires l.Text? && r.Text? && IsZero(zero, l) && IsZero(zero, r)
    ensures l.s == r.s
  {
  }

  lemma ComparisonTame(fp: FloatUnit, zero: int -> bool, op: BinaryOp, l: Value, r: Value)
    requires Comparison(op)
    requires Zeros(fp, zero) && Tame(zero, l) && Tame(zero, r) && BinaryFits(op, ShapeOf(l), ShapeOf(r))
    requires BinaryNeeds(op, ShapeOf(l), ShapeOf(r)) ==> IsZero(zero, l) && IsZero(zero, r)
    ensures ApplyComparison(fp, op, l, r).Some? && ApplyComparison(fp, op, l, r).value.Bool?
    ensures (op == Less || op == Greater || op == NotEqual) && IsZero(zero, l) && IsZero(zero, r) ==>
              !ApplyComparison(fp, op, l, r).value.b
  {
    hide InRange, Operands, CommonNumeric, Tame, IsZero, Zeros, ShapeOf, NumericOf, NumberLike, BinaryFits, Compares;
    ComparisonShapes(op, l, r);
    if l.Text? {
      if IsZero(zero, l) && IsZero(zero, r) { ZeroTexts(zero, l, r); }
    } else {
      TameOperands(fp, zero, l, r);
      var (x, y, n) := Operands(fp, l, r).value;
      if IsZero(zero, l) && IsZero(zero, r) { ComparesZeros(fp, zero, op, x, y, n); }
    }
  }

  lemma IntegerTame(zero: int -> bool, v: Value)
    requires Tame(zero, v) && IntegerLike(ShapeOf(v))
    ensures AsInteger(v).Some? && InRange(AsInteger(v).value.0, AsInteger(v).value.1)
    ensures IsZero(zero, v) ==> AsInteger(v).value.0 == 0
    ensures Whole(AsInteger(v).value.1) == NumericOf(ShapeOf(v))
  {
    TameNumber(zero, v);
    hide InRange;
  }

  lemma CommonTame(x: int, m: Kind, n: Kind)
    requires InRange(x, m)
    ensures Convert(x, m, CommonKind(m, n)).Some? && (x == 0 ==> Convert(x, m, CommonKind(m, n)).value == 0)
    ensures CommonKind(m, n) == CommonKind(n, m)
  {
    OperandConverts(x, m, n);
    CommonKindAssociates(m, n, n);
    hide InRange, Convert, CommonKind, Converts;
    if x == 0 { ZeroConverts(CommonKind(m, n), Convert(x, m, CommonKind(m, n)).value); }
  }

  lemma BitsTame(zero: int -> bool, op: BinaryOp, l: Value, r: Value)
    requires Tame(zero, l) && Tame(zero, r) && IntegerLike(ShapeOf(l)) && IntegerLike(ShapeOf(r))
    ensures ApplyBits(op, l, r).Some? && Tame(zero, ApplyBits(op, l, r).value)
    ensures IsZero(zero, l) && IsZero(zero, r) ==> IsZero(zero, ApplyBits(op, l, r).value)
  {
    hide InRange, Convert, CommonKind, BitwiseBinary, AsInteger, Converts, OnBit, Bit, Tame, IsZero, IntegerLike, BitsOf;
    IntegerTame(zero, l);
    IntegerTame(zero, r);
    var (x, m) := AsInteger(l).value;
    var (y, n) := AsInteger(r).value;
    CommonTame(x, m, n);
    CommonTame(y, n, m);
    var k := CommonKind(m, n);
    var a, b := Convert(x, m, k).value, Convert(y, n, k).value;
    BitsValue(zero, BitsOf(op), a, b, k);
  }

  lemma BitsValue(zero: int -> bool, op: BitOp, a: int, b: int, k: Kind)
    ensures Tame(zero, Number(Whole(k), BitwiseBinary(op, a, b, k)))
    ensures a == 0 && b == 0 ==> IsZero(zero, Number(Whole(k), BitwiseBinary(op, a, b, k)))
  {
    BitwiseMeans(op, a, b, k, 0);
    ZeroBits(op, k);
    hide InRange, BitwiseBinary, OnBit, Bit;
  }

  lemma ZeroBits(op: BitOp, k: Kind)
    ensures BitwiseBinary(op, 0, 0, k) == 0
  {
    ZeroInRange(k);
    MaskFits(0, k);
    SmallMod(0, Modulus(k));
    FromBitsConverts(0, k);
    hide Pow2, FromBits, InRange, Converts;
    ZeroConverts(k, FromBits(0, k));
  }

  lemma ShiftTame(zero: int -> bool, op: BinaryOp, l: Value, r: Value)
    requires Tame(zero, l) && Tame(zero, r) && IntegerLike(ShapeOf(l)) && IntegerLike(ShapeOf(r)) && IsZero(zero, r)
    ensures ApplyShift(op, l, r).Some? && Tame(zero, ApplyShift(op, l, r).value)
    ensures IsZero(zero, l) ==> IsZero(zero, ApplyShift(op, l, r).value)
  {
    hide InRange, Convert, CommonKind, Shift, AsInteger, Tame, IsZero, IntegerLike;
    IntegerTame(zero, l);
    IntegerTame(zero, r);
    var (x, k) := AsInteger(l).value;
    var (y, n) := AsInteger(r).value;
    OperandConverts(x, k, k);
    OperandConverts(y, n, n);
    NoShift(op == ShiftLeft, x, k);
    WholeTame(zero, x, k);
  }

  lemma WholeTame(zero: int -> bool, x: int, k: Kind)
    requires InRange(x, k)
    ensures Tame(zero, Number(Whole(k), x)) && (x == 0 ==> IsZero(zero, Number(Whole(k), x)))
  {
  }

  /** Shifting by nothing changes nothing. */
  lemma NoShift(left: bool, x: int, k: Kind)
    requires InRange(x, k)
    ensures Shift(left, x, 0, k) == Some(x)
  {
    ShiftMeans(left, x, 0, k);
    assert Pow2(0) == 1 && x * 1 == x && x / 1 == x;
    hide Pow2, Shift, InRange;
    if left {
      assert Converts(x, k, x);
      hide Converts;
      ConversionUnique(x, k, Shift(left, x, 0, k).value, x);
    }
  }

  lemma BinaryTame(fp: FloatUnit, zero: int -> bool, op: BinaryOp, l: Value, r: Value)
    requires op != LogicalOr && op != LogicalAnd
    requires Zeros(fp, zero) && Tame(zero, l) && Tame(zero, r) && BinaryFits(op, ShapeOf(l), ShapeOf(r))
    requires BinaryNeeds(op, ShapeOf(l), ShapeOf(r)) ==> IsZero(zero, l) && IsZero(zero, r)
    requires op == ShiftLeft || op == ShiftRight ==> IsZero(zero, r)
    ensures ApplyBinary(fp, op, l, r, false).Some? && Tame(zero, ApplyBinary(fp, op, l, r, false).value)
    ensures op != Equal && op != LessEqual && op != GreaterEqual && IsZero(zero, l) && IsZero(zero, r) ==>
              IsZero(zero, ApplyBinary(fp, op, l, r, false).value)
  {
    hide ApplyArithmetic, ApplyDivision, ApplyComparison, ApplyBits, ApplyShift, InRange, BinaryNeeds, Zeros;
    if Comparison(op) {
      ComparisonTame(fp, zero, op, l, r);
    } else if op == Divide_ || op == Modulo {
      DivisionTame(fp, zero, op, l, r);
    } else if op == Add || op == Subtract || op == Multiply {
      if NumberLike(ShapeOf(l)) && NumberLike(ShapeOf(r)) { ArithmeticTame(fp, zero, op, l, r); }
    } else if op == ShiftLeft || op == ShiftRight {
      ShiftTame(zero, op, l, r);
    } else {
      BitsTame(zero, op, l, r);
    }
  }

  // ---------------------------------------------------------------- functions

  lemma ArgumentTame(fp: FloatUnit, zero: int -> bool, v: Value)
    requires Tame(zero, v) && NumberLike(ShapeOf(v))
    ensures Argument(v).Some? && Argument(v).value.1 == NumericOf(ShapeOf(v))
  {
    TameNumber(zero, v);
    var (x, n) := AsNumber(v).value;
    if n.Whole? { OperandConverts(x, n.kind, n.kind); }
    hide InRange, Convert, CommonKind;
  }

  lemma {:induction false} KindOfAllTame(fp: FloatUnit, zero: int -> bool, vs: seq<Value>)
    requires vs != [] && forall i :: 0 <= i < |vs| ==> Tame(zero, vs[i]) && NumberLike(ShapeOf(vs[i]))
    ensures KindOfAll(vs).Some?
  {
    hide Tame, Argument;
    var n := |vs| - 1;
    ArgumentTame(fp, zero, vs[n]);
    if n > 0 {
      forall i | 0 <= i < n ensures Tame(zero, vs[..n][i]) && NumberLike(ShapeOf(vs[..n][i])) { assert vs[..n][i] == vs[i]; }
      KindOfAllTame(fp, zero, vs[..n]);
    }
  }

  lemma CountTame(fp: FloatUnit, zero: int -> bool, v: Value)
    requires Zeros(fp, zero) && Tame(zero, v) && v.Number? && IsZero(zero, v)
    ensures AsCount(fp, v).Some?
  {
    ZeroInRange(U32);
    if v.numeric.Whole? { OperandConverts(v.v, v.numeric.kind, v.numeric.kind); }
    hide InRange, Convert, CommonKind;
  }

  lemma CastTame(fp: FloatUnit, zero: int -> bool, target: Shape, v: Value)
    requires Zeros(fp, zero) && Tame(zero, v) && (target.TextShape? || NumberLike(ShapeOf(v)))
    requires target.NumberShape? && !target.numeric.Whole? ==> IsZero(zero, v)
    ensures CastTo(fp, target, v).Some?
  {
    match target
    case TextShape =>
      if v.Number? { TameConverts(fp, zero, v.v, v.numeric, v.numeric); }
      hide ConvertNumber, InRange, Decimal;
    case BoolShape => TameBool(fp, zero, v); hide AsBool, InRange;
    case NumberShape(t) =>
      TameNumber(zero, v);
      var (x, n) := AsNumber(v).value;
      TameConverts(fp, zero, x, n, n);
      if t.Whole? { ZeroInRange(t.kind); }
      hide ConvertNumber, InRange, FromBits;
  }

  lemma FunctionTame(fp: FloatUnit, zero: int -> bool, f: Function, vs: seq<Value>)
    requires Zeros(fp, zero) && FunctionFits(f, ShapesOf(vs)) && forall i :: 0 <= i < |vs| ==> Tame(zero, vs[i])
    requires FunctionNeeds(f) ==> forall i :: 0 <= i < |vs| ==> IsZero(zero, vs[i])
    ensures TypeFunction(fp, f, vs).Some? && Tame(zero, TypeFunction(fp, f, vs).value) && IsZero(zero, TypeFunction(fp, f, vs).value)
  {
    forall n { ZeroTame(fp, zero, n); }
    hide Tame, Argument, KindOfAll, CastTo, AsCount;
    match f
    case Cast(target) =>
      CastTame(fp, zero, target, vs[0]);
      PlaceholderTame(fp, zero, CastTo(fp, target, vs[0]).value);
    case Len => TextTame(zero, "");
    case Substr =>
      CountTame(fp, zero, vs[1]);
      CountTame(fp, zero, vs[2]);
      TextTame(zero, "");
    case StartsWith => TextTame(zero, "");
    case Pow =>
      ArgumentTame(fp, zero, vs[0]);
      ArgumentTame(fp, zero, vs[1]);
    case AbsOf => ArgumentTame(fp, zero, vs[0]);
    case RealOf(_) => ArgumentTame(fp, zero, vs[0]);
    case _ =>
      forall i | 0 <= i < |vs| ensures NumberLike(ShapeOf(vs[i])) { assert ShapesOf(vs)[i] == ShapeOf(vs[i]); }
      KindOfAllTame(fp, zero, vs);
  }

  lemma TextTame(zero: int -> bool, s: string)
    ensures Tame(zero, Text(s)) && forall b :: Tame(zero, Bool(b))
  {
  }

  // ---------------------------------------------------------------- expressions

  /** An operand that is not evaluated cannot fail if its kinds fit and it is steady, whatever its names stand for. */
  lemma {:induction false} TypeOnlySucceeds(fp: FloatUnit, zero: int -> bool, names: string -> Option<Value>, shapes: string -> Shape, e: Expr)
    requires Zeros(fp, zero) && Named(names, shapes) && TypesFit(names, shapes, e) && Steady(shapes, e)
    ensures Eval(fp, names, e, false).Some? && Tame(zero, Eval(fp, names, e, false).value)
    ensures Zeroed(e) ==> IsZero(zero, Eval(fp, names, e, false).value)
    decreases e
  {
    hide Zeros, Tame, IsZero, UnaryFits, BinaryFits, FunctionFits, UnaryNeeds, BinaryNeeds, FunctionNeeds, ApplyUnary, ApplyBinary,
         TypeFunction, AsBool, FunctionNamed, Named;
    match e
    case Literal(v) => PlaceholderTame(fp, zero, v);
    case Name(n) => PlaceholderTame(fp, zero, names(n).value);
    case Unary(op, x) =>
      TypeOnlySucceeds(fp, zero, names, shapes, x);
      KindsAreStatic(fp, names, shapes, x, false);
      UnaryTame(fp, zero, op, Eval(fp, names, x, false).value);
    case Binary(op, l, r) =>
      TypeOnlySucceeds(fp, zero, names, shapes, l);
      TypeOnlySucceeds(fp, zero, names, shapes, r);
      KindsAreStatic(fp, names, shapes, l, false);
      KindsAreStatic(fp, names, shapes, r, false);
      var x, y := Eval(fp, names, l, false).value, Eval(fp, names, r, false).value;
      if op == LogicalOr || op == LogicalAnd { LogicalTame(fp, zero, op, x, y); } else { BinaryTame(fp, zero, op, x, y); }
    case Call(name, args) =>
      AllSucceed(fp, zero, names, shapes, args);
      AllStatic(fp, names, shapes, args, false);
      FunctionTame(fp, zero, FunctionNamed(name).value, EvalAll(fp, names, args, false).value);
  }

  lemma LogicalTame(fp: FloatUnit, zero: int -> bool, op: BinaryOp, x: Value, y: Value)
    requires op == LogicalOr || op == LogicalAnd
    requires Zeros(fp, zero) && Tame(zero, x) && Tame(zero, y) && BinaryFits(op, ShapeOf(x), ShapeOf(y))
    ensures AsBool(fp, x).Some? && AsBool(fp, y).Some?
    ensures Tame(zero, Bool(false)) && IsZero(zero, Bool(false))
  {
    TameBool(fp, zero, x);
    TameBool(fp, zero, y);
  }

  lemma {:induction false} AllSucceed(fp: FloatUnit, zero: int -> bool, names: string -> Option<Value>, shapes: string -> Shape, es: seq<Expr>)
    requires Zeros(fp, zero) && Named(names, shapes) && AllTypesFit(names, shapes, es) && AllSteady(shapes, es)
    ensures EvalAll(fp, names, es, false).Some?
    ensures var vs := EvalAll(fp, names, es, false).value;
      |vs| == |es| && forall i :: 0 <= i < |vs| ==> Tame(zero, vs[i]) && (Zeroed(es[i]) ==> IsZero(zero, vs[i]))
    decreases es
  {
    hide Zeros, Tame, IsZero, TypesFit, Steady, Named;
    if es != [] {
      AllSucceed(fp, zero, names, shapes, es[..|es| - 1]);
      TypeOnlySucceeds(fp, zero, names, shapes, es[|es| - 1]);
    }
  }

  // ---------------------------------------------------------------- what passing over an operand costs

  /** The value of an expression when an operand of `&&` or `||` that does not decide anything is not looked at. */
  function Lazy(fp: FloatUnit, names: string -> Option<Value>, e: Expr): Option<Value>
    decreases e, 0
  {
    match e
    case Literal(v) => Some(v)
    case Name(n) => names(n)
    case Unary(op, x) => (match Lazy(fp, names, x) case None => None case Some(v) => ApplyUnary(fp, op, v))
    case Binary(op, l, r) => (match Lazy(fp, names, l) case None => None case Some(x) => LazyRight(fp, names, op, x, r))
    case Call(name, args) =>
      (match LazyAll(fp, names, args)
       case None => None
       case Some(vs) => (match FunctionNamed(name) case None => None case Some(f) => ApplyFunction(fp, f, vs)))
  }

  function LazyRight(fp: FloatUnit, names: string -> Option<Value>, op: BinaryOp, x: Value, r: Expr): Option<Value>
    decreases r, 1
  {
    if op == LogicalOr || op == LogicalAnd then
      match AsBool(fp, x)
      case None => None
      case Some(a) =>
        if a == (op == LogicalOr) then Some(Bool(a))
        else
          (match Lazy(fp, names, r)
           case None => None
           case Some(y) => (match AsBool(fp, y) case None => None case Some(b) => Some(Bool(b))))
    else
      match Lazy(fp, names, r) case None => None case Some(y) => ApplyBinary(fp, op, x, y, true)
  }

  function LazyAll(fp: FloatUnit, names: string -> Option<Value>, es: seq<Expr>): Option<seq<Value>>
    decreases es, 0
  {
    if es == [] then Some([])
    else
      match LazyAll(fp, names, es[..|es| - 1])
      case None => None
      case Some(vs) => (match Lazy(fp, names, es[|es| - 1]) case None => None case Some(v) => Some(vs + [v]))
  }

  /** Type-only mode finds fault with an operand of `&&` or `||`. */
  predicate Spoils(fp: FloatUnit, names: string -> Option<Value>, r: Expr) {
    match Eval(fp, names, r, false) case None => true case Some(y) => AsBool(fp, y).None?
  }

  predicate Decides(fp: FloatUnit, op: BinaryOp, x: Value) {
    (op == LogicalOr || op == LogicalAnd) && AsBool(fp, x) == Some(op == LogicalOr)
  }

  /** Evaluation comes to a `&&` or `||` whose left operand decides and whose right operand spoils. */
  predicate Trips(fp: FloatUnit, names: string -> Option<Value>, e: Expr)
    decreases e, 0
  {
    match e
    case Literal(_) => false
    case Name(_) => false
    case Unary(_, x) => Trips(fp, names, x)
    case Binary(op, l, r) =>
      Trips(fp, names, l) || (Lazy(fp, names, l).Some? && TripsRight(fp, names, op, Lazy(fp, names, l).value, r))
    case Call(_, args) => TripsAny(fp, names, args)
  }

  predicate TripsRight(fp: FloatUnit, names: string -> Option<Value>, op: BinaryOp, x: Value, r: Expr)
    decreases r, 1
  {
    if op == LogicalOr || op == LogicalAnd then
      match AsBool(fp, x)
      case None => false
      case Some(a) => if a == (op == LogicalOr) then Spoils(fp, names, r) else Trips(fp, names, r)
    else Trips(fp, names, r)
  }

  predicate TripsAny(fp: FloatUnit, names: string -> Option<Value>, es: seq<Expr>)
    decreases es, 0
  {
    es != [] &&
      (TripsAny(fp, names, es[..|es| - 1]) ||
       (LazyAll(fp, names, es[..|es| - 1]).Some? && Trips(fp, names, es[|es| - 1])))
  }

  /** Evaluation is the lazy value, except that it is an error exactly when it trips. */
  lemma {:induction false} EvaluationIsLazy(fp: FloatUnit, names: string -> Option<Value>, e: Expr)
    ensures Eval(fp, names, e, true) == if Trips(fp, names, e) then None else Lazy(fp, names, e)
    decreases e, 0
  {
    hide ApplyUnary, ApplyBinary, ApplyFunction, AsBool, FunctionNamed, Spoils;
    match e
    case Literal(_) =>
    case Name(_) =>
    case Unary(_, x) => EvaluationIsLazy(fp, names, x);
    case Binary(op, l, r) =>
      EvaluationIsLazy(fp, names, l);
      if Lazy(fp, names, l).Some? { RightIsLazy(fp, names, op, Lazy(fp, names, l).value, r); }
    case Call(_, args) => AllAreLazy(fp, names, args);
  }

  lemma {:induction false} RightIsLazy(fp: FloatUnit, names: string -> Option<Value>, op: BinaryOp, x: Value, r: Expr)
    ensures EvalRight(fp, names, op, x, r, true) ==
              if TripsRight(fp, names, op, x, r) then None else LazyRight(fp, names, op, x, r)
    decreases r, 1
  {
    EvaluationIsLazy(fp, names, r);
    hide Lazy, Trips, Eval, ApplyBinary, AsBool;
  }

  lemma {:induction false} AllAreLazy(fp: FloatUnit, names: string -> Option<Value>, es: seq<Expr>)
    ensures EvalAll(fp, names, es, true) == if TripsAny(fp, names, es) then None else LazyAll(fp, names, es)
    decreases es, 0
  {
    hide Lazy, Trips, Eval;
    if es != [] {
      AllAreLazy(fp, names, es[..|es| - 1]);
      EvaluationIsLazy(fp, names, es[|es| - 1]);
    }
  }

  // ---------------------------------------------------------------- and that it shows before there are values

  /** The same names are known, with values of the same kinds. */
  ghost predicate SameKinds(a: string -> Option<Value>, b: string -> Option<Value>) {
    forall n :: (a(n).Some? <==> b(n).Some?) && (a(n).Some? ==> ShapeOf(a(n).value) == ShapeOf(b(n).value))
  }

  /** Type-only mode depends on no value that a name stands for. */
  lemma {:induction false} TypeOnlyIgnoresValues(fp: FloatUnit, a: string -> Option<Value>, b: string -> Option<Value>, e: Expr)
    requires SameKinds(a, b)
    ensures Eval(fp, a, e, false) == Eval(fp, b, e, false)
    decreases e
  {
    hide ApplyUnary, ApplyBinary, TypeFunction, AsBool, FunctionNamed;
    match e
    case Literal(_) =>
    case Name(n) => assert a(n).Some? ==> Placeholder(a(n).value) == Placeholder(b(n).value);
    case Unary(_, x) => TypeOnlyIgnoresValues(fp, a, b, x);
    case Binary(_, l, r) =>
      TypeOnlyIgnoresValues(fp, a, b, l);
      TypeOnlyIgnoresValues(fp, a, b, r);
    case Call(_, args) => TypesIgnoreValues(fp, a, b, args);
  }

  lemma {:induction false} TypesIgnoreValues(fp: FloatUnit, a: string -> Option<Value>, b: string -> Option<Value>, es: seq<Expr>)
    requires SameKinds(a, b)
    ensures EvalAll(fp, a, es, false) == EvalAll(fp, b, es, false)
    decreases es
  {
    hide SameKinds;
    if es != [] {
      TypesIgnoreValues(fp, a, b, es[..|es| - 1]);
      TypeOnlyIgnoresValues(fp, a, b, es[|es| - 1]);
    }
  }

  /** When the left operand decides, the right one turns the result into an error exactly when it spoils, and whether it does
      is known from the kinds of the names, before any of them has its value. */
  lemma PassedOverExactly(fp: FloatUnit, kinds: string -> Option<Value>, names: string -> Option<Value>, op: BinaryOp, l: Expr, r: Expr)
    requires SameKinds(kinds, names)
    requires Eval(fp, names, l, true).Some? && Decides(fp, op, Eval(fp, names, l, true).value)
    ensures Eval(fp, names, Binary(op, l, r), true) == if Spoils(fp, kinds, r) then None else Some(Bool(op == LogicalOr))
  {
    TypeOnlyIgnoresValues(fp, kinds, names, r);
    hide AsBool;
    var x := Eval(fp, names, l, true).value;
    assert Eval(fp, names, Binary(op, l, r), true) == EvalRight(fp, names, op, x, r, true);
  }

  /** No right operand of `&&` or `||` spoils, wherever it stands. */
  predicate Unspoiled(fp: FloatUnit, names: string -> Option<Value>, e: Expr)
    decreases e
  {
    match e
    case Literal(_) => true
    case Name(_) => true
    case Unary(_, x) => Unspoiled(fp, names, x)
    case Binary(op, l, r) =>
      Unspoiled(fp, names, l) && Unspoiled(fp, names, r) && (op == LogicalOr || op == LogicalAnd ==> !Spoils(fp, names, r))
    case Call(_, args) => AllUnspoiled(fp, names, args)
  }

  predicate AllUnspoiled(fp: FloatUnit, names: string -> Option<Value>, es: seq<Expr>)
    decreases es
  {
    es != [] ==> AllUnspoiled(fp, names, es[..|es| - 1]) && Unspoiled(fp, names, es[|es| - 1])
  }

  /** An expression found unspoiled from the kinds of its names never trips, whatever their values. */
  lemma {:induction false} UnspoiledNeverTrips(fp: FloatUnit, kinds: string -> Option<Value>, names: string -> Option<Value>, e: Expr)
    requires SameKinds(kinds, names) && Unspoiled(fp, kinds, e)
    ensures !Trips(fp, names, e)
    decreases e
  {
    hide SameKinds, Lazy, AsBool;
    match e
    case Literal(_) =>
    case Name(_) =>
    case Unary(_, x) => UnspoiledNeverTrips(fp, kinds, names, x);
    case Binary(_, l, r) =>
      UnspoiledNeverTrips(fp, kinds, names, l);
      UnspoiledNeverTrips(fp, kinds, names, r);
      TypeOnlyIgnoresValues(fp, kinds, names, r);
      hide Eval;
    case Call(_, args) => NoneTrips(fp, kinds, names, args);
  }

  lemma {:induction false} NoneTrips(fp: FloatUnit, kinds: string -> Option<Value>, names: string -> Option<Value>, es: seq<Expr>)
    requires SameKinds(kinds, names) && AllUnspoiled(fp, kinds, es)
    ensures !TripsAny(fp, names, es)
    decreases es
  {
    hide SameKinds, Lazy, LazyAll, Trips, Unspoiled;
    if es != [] {
      NoneTrips(fp, kinds, names, es[..|es| - 1]);
      UnspoiledNeverTrips(fp, kinds, names, es[|es| - 1]);
    }
  }

  /** Every right operand of `&&` and `||` is steady. */
  predicate SteadyRights(shapes: string -> Shape, e: Expr)
    decreases e
  {
    match e
    case Literal(_) => true
    case Name(_) => true
    case Unary(_, x) => SteadyRights(shapes, x)
    case Binary(op, l, r) =>
      SteadyRights(shapes, l) && SteadyRights(shapes, r) && (op == LogicalOr || op == LogicalAnd ==> Steady(shapes, r))
    case Call(_, args) => AllSteadyRights(shapes, args)
  }

  predicate AllSteadyRights(shapes: string -> Shape, es: seq<Expr>)
    decreases es
  {
    es != [] ==> AllSteadyRights(shapes, es[..|es| - 1]) && SteadyRights(shapes, es[|es| - 1])
  }

  /** Steady right operands do not spoil. */
  lemma {:induction false} SteadyIsUnspoiled(fp: FloatUnit, zero: int -> bool, names: string -> Option<Value>, shapes: string -> Shape, e: Expr)
    requires Zeros(fp, zero) && Named(names, shapes) && TypesFit(names, shapes, e) && SteadyRights(shapes, e)
    ensures Unspoiled(fp, names, e)
    decreases e
  {
    hide Zeros, Named, Steady, AsBool, Eval, UnaryFits, FunctionFits, FunctionNamed, TypeOf, TypesOf, Spoils;
    match e
    case Literal(_) =>
    case Name(_) =>
    case Unary(_, x) => SteadyIsUnspoiled(fp, zero, names, shapes, x);
    case Binary(op, l, r) =>
      SteadyIsUnspoiled(fp, zero, names, shapes, l);
      SteadyIsUnspoiled(fp, zero, names, shapes, r);
      if op == LogicalOr || op == LogicalAnd { SteadyDoesNotSpoil(fp, zero, names, shapes, r); }
    case Call(_, args) => SteadyAreUnspoiled(fp, zero, names, shapes, args);
  }

  lemma {:induction false} SteadyAreUnspoiled(fp: FloatUnit, zero: int -> bool, names: string -> Option<Value>, shapes: string -> Shape,
                                              es: seq<Expr>)
    requires Zeros(fp, zero) && Named(names, shapes) && AllTypesFit(names, shapes, es) && AllSteadyRights(shapes, es)
    ensures AllUnspoiled(fp, names, es)
    decreases es
  {
    hide Zeros, Named, TypesFit, SteadyRights, Unspoiled;
    if es != [] {
      SteadyAreUnspoiled(fp, zero, names, shapes, es[..|es| - 1]);
      SteadyIsUnspoiled(fp, zero, names, shapes, es[|es| - 1]);
    }
  }

  lemma SteadyDoesNotSpoil(fp: FloatUnit, zero: int -> bool, names: string -> Option<Value>, shapes: string -> Shape, r: Expr)
    requires Zeros(fp, zero) && Named(names, shapes) && TypesFit(names, shapes, r) && Steady(shapes, r) && NumberLike(TypeOf(shapes, r))
    ensures !Spoils(fp, names, r)
  {
    hide Zeros, Named, TypesFit, Steady, Tame, Eval, TypeOf, AsBool;
    TypeOnlySucceeds(fp, zero, names, shapes, r);
    KindsAreStatic(fp, names, shapes, r, false);
    TameBool(fp, zero, Eval(fp, names, r, false).value);
  }

  /** `Zeros` asks for nothing that cannot be had. */
  lemma ZerosExist() returns (fp: FloatUnit, zero: int -> bool)
    ensures Zeros(fp, zero)
  {
    fp := FloatUnit((op, x, y) => 0, x => 0, (n, x) => Some(0), (n, x) => Some(0), (x, y) => false, (x, y) => true, x => 0,
                    (f, n, xs) => None, (n, x) => "");
    zero := x => x == 0;
  }

  /** So when the left operand of `&&` or `||` decides, the right one cannot spoil the result. */
  lemma ShortCircuitSucceeds(fp: FloatUnit, zero: int -> bool, names: string -> Option<Value>, shapes: string -> Shape,
                             op: BinaryOp, l: Expr, r: Expr)
    requires op == LogicalOr || op == LogicalAnd
    requires Zeros(fp, zero) && Named(names, shapes) && TypesFit(names, shapes, r) && Steady(shapes, r) && NumberLike(TypeOf(shapes, r))
    requires Eval(fp, names, l, true).Some? && AsBool(fp, Eval(fp, names, l, true).value) == Some(op == LogicalOr)
    ensures Eval(fp, names, Binary(op, l, r), true) == Some(Bool(op == LogicalOr))
  {
    SteadyDoesNotSpoil(fp, zero, names, shapes, r);
    PassedOverExactly(fp, names, names, op, l, r);
  }
}
