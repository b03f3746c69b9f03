/** What holds of every constant expression: kinds are static, integers stay in range, and integer
    operators are those of C++20. */
module ExpressionLaws {
  import opened Expressions
  import opened IntegerKinds
  import opened Options
  import opened Powers

  // ---------------------------------------------------------------- kinds are static

  /** The kind in which an operand takes part in arithmetic. */
  function NumericOf(s: Shape): Numeric { if s.NumberShape? then s.numeric else Whole(I32) }

  function UnaryShape(op: UnaryOp, s: Shape): Shape { if op.Not? then BoolShape else NumberShape(NumericOf(s)) }

  function BinaryShape(op: BinaryOp, a: Shape, b: Shape): Shape {
    match op
    case Add => if a.TextShape? && b.TextShape? then TextShape else NumberShape(CommonNumeric(NumericOf(a), NumericOf(b)))
    case Subtract => NumberShape(CommonNumeric(NumericOf(a), NumericOf(b)))
    case Multiply => NumberShape(CommonNumeric(NumericOf(a), NumericOf(b)))
    case Divide_ => NumberShape(CommonNumeric(NumericOf(a), NumericOf(b)))
    case Modulo => NumberShape(CommonNumeric(NumericOf(a), NumericOf(b)))
    case BitOr => NumberShape(CommonNumeric(NumericOf(a), NumericOf(b)))
    case BitXor => NumberShape(CommonNumeric(NumericOf(a), NumericOf(b)))
    case BitAnd => NumberShape(CommonNumeric(NumericOf(a), NumericOf(b)))
    case ShiftLeft => NumberShape(NumericOf(a))
    case ShiftRight => NumberShape(NumericOf(a))
    case _ => BoolShape
  }

  function KindOfShapes(ss: seq<Shape>): Numeric
    requires ss != []
  {
    var n := NumericOf(ss[|ss| - 1]);
    if |ss| == 1 then n else CommonNumeric(KindOfShapes(ss[..|ss| - 1]), n)
  }

  function FunctionShape(f: Function, ss: seq<Shape>): Shape {
    match f
    case Cast(target) => target
    case Len => NumberShape(Whole(U32))
    case Substr => TextShape
    case StartsWith => BoolShape
    case Pow => NumberShape(F64)
    case AbsOf => if ss == [] then BoolShape else NumberShape(NumericOf(ss[0]))
    case RealOf(_) => if ss == [] then BoolShape else NumberShape(RealKind(NumericOf(ss[0])))
    case _ => if ss == [] then BoolShape else NumberShape(KindOfShapes(ss))
  }

  /** The static kind of an expression: no value and no evaluation mode enters it. */
  function TypeOf(shapes: string -> Shape, e: Expr): Shape
    decreases e
  {
    match e
    case Literal(v) => ShapeOf(v)
    case Name(n) => shapes(n)
    case Unary(op, x) => UnaryShape(op, TypeOf(shapes, x))
    case Binary(op, l, r) => if op == LogicalOr || op == LogicalAnd then BoolShape else BinaryShape(op, TypeOf(shapes, l), TypeOf(shapes, r))
    case Call(name, args) =>
      (match FunctionNamed(name) case None => BoolShape case Some(f) => FunctionShape(f, TypesOf(shapes, args)))
  }

  function TypesOf(shapes: string -> Shape, es: seq<Expr>): seq<Shape>
    decreases es
  {
    if es == [] then [] else TypesOf(shapes, es[..|es| - 1]) + [TypeOf(shapes, es[|es| - 1])]
  }

  function ShapesOf(vs: seq<Value>): seq<Shape> { seq(|vs|, i requires 0 <= i < |vs| => ShapeOf(vs[i])) }

  lemma UnaryTyped(fp: FloatUnit, op: UnaryOp, v: Value)
    ensures ApplyUnary(fp, op, v).Some? ==> ShapeOf(ApplyUnary(fp, op, v).value) == UnaryShape(op, ShapeOf(v))
  {
  }

  lemma OperandsTyped(fp: FloatUnit, l: Value, r: Value)
    ensures Operands(fp, l, r).Some? ==>
              Operands(fp, l, r).value.2 == CommonNumeric(NumericOf(ShapeOf(l)), NumericOf(ShapeOf(r)))
  {
  }

  lemma BinaryTyped(fp: FloatUnit, op: BinaryOp, l: Value, r: Value, evaluate: bool)
    requires op != LogicalOr && op != LogicalAnd
    ensures ApplyBinary(fp, op, l, r, evaluate).Some? ==>
              ShapeOf(ApplyBinary(fp, op, l, r, evaluate).value) == BinaryShape(op, ShapeOf(l), ShapeOf(r))
  {
    OperandsTyped(fp, l, r);
    hide Operands, ConvertNumber, Convert, CommonKind, Shift, BitwiseBinary, Normalize, Divide, Remainder, Compares;
  }

  lemma {:induction false} KindOfAllTyped(vs: seq<Value>)
    requires vs != [] && KindOfAll(vs).Some?
    ensures KindOfAll(vs).value == KindOfShapes(ShapesOf(vs))
  {
    var n := |vs| - 1;
    assert ShapesOf(vs)[..n] == ShapesOf(vs[..n]);
    if n > 0 { KindOfAllTyped(vs[..n]); }
  }

  lemma FunctionTyped(fp: FloatUnit, f: Function, vs: seq<Value>)
    ensures ApplyFunction(fp, f, vs).Some? ==> ShapeOf(ApplyFunction(fp, f, vs).value) == FunctionShape(f, ShapesOf(vs))
    ensures TypeFunction(fp, f, vs).Some? ==> ShapeOf(TypeFunction(fp, f, vs).value) == FunctionShape(f, ShapesOf(vs))
  {
    if vs != [] && KindOfAll(vs).Some? { KindOfAllTyped(vs); }
    hide ConvertNumber, Convert, KindOfAll, KindOfShapes, Extreme, FromBits, Slice, Decimal, InRange, Abs, Lowest;
  }

  ghost predicate Named(names: string -> Option<Value>, shapes: string -> Shape) {
    forall n :: names(n).Some? ==> shapes(n) == ShapeOf(names(n).value)
  }

  /** Whatever value an expression yields, in either mode, its family and kind are the static ones. */
  lemma {:induction false} KindsAreStatic(fp: FloatUnit, names: string -> Option<Value>, shapes: string -> Shape, e: Expr, evaluate: bool)
    requires Named(names, shapes) && Eval(fp, names, e, evaluate).Some?
    ensures ShapeOf(Eval(fp, names, e, evaluate).value) == TypeOf(shapes, e)
    decreases e
  {
    hide ApplyUnary, ApplyBinary, ApplyFunction, TypeFunction, AsBool, FunctionNamed, UnaryShape, BinaryShape, FunctionShape;
    match e
    case Literal(v) =>
    case Name(n) =>
    case Unary(op, x) =>
      KindsAreStatic(fp, names, shapes, x, evaluate);
      UnaryTyped(fp, op, Eval(fp, names, x, evaluate).value);
    case Binary(op, l, r) =>
      if op != LogicalOr && op != LogicalAnd {
        KindsAreStatic(fp, names, shapes, l, evaluate);
        KindsAreStatic(fp, names, shapes, r, evaluate);
        BinaryTyped(fp, op, Eval(fp, names, l, evaluate).value, Eval(fp, names, r, evaluate).value, evaluate);
      }
    case Call(name, args) =>
      AllStatic(fp, names, shapes, args, evaluate);
      FunctionTyped(fp, FunctionNamed(name).value, EvalAll(fp, names, args, evaluate).value);
  }

  lemma {:induction false} AllStatic(fp: FloatUnit, names: string -> Option<Value>, shapes: string -> Shape, es: seq<Expr>, evaluate: bool)
    requires Named(names, shapes) && EvalAll(fp, names, es, evaluate).Some?
    ensures ShapesOf(EvalAll(fp, names, es, evaluate).value) == TypesOf(shapes, es)
    decreases es
  {
    if es != [] {
      var n := |es| - 1;
      AllStatic(fp, names, shapes, es[..n], evaluate);
      KindsAreStatic(fp, names, shapes, es[n], evaluate);
      var init := EvalAll(fp, names, es[..n], evaluate).value;
      assert ShapesOf(init + [Eval(fp, names, es[n], evaluate).value]) ==
             ShapesOf(init) + [ShapeOf(Eval(fp, names, es[n], evaluate).value)];
    }
  }

  /** When both modes succeed, they agree on family and kind. */
  lemma ModesAgree(fp: FloatUnit, names: string -> Option<Value>, e: Expr)
    requires Eval(fp, names, e, true).Some? && Eval(fp, names, e, false).Some?
    ensures ShapeOf(Eval(fp, names, e, true).value) == ShapeOf(Eval(fp, names, e, false).value)
  {
    var shapes := n => match names(n) case None => BoolShape case Some(v) => ShapeOf(v);
    KindsAreStatic(fp, names, shapes, e, true);
    KindsAreStatic(fp, names, shapes, e, false);
  }

  // ---------------------------------------------------------------- integers stay in range

  ghost predicate Ranged(v: Value) { v.Number? && v.numeric.Whole? ==> InRange(v.v, v.numeric.kind) }

  ghost predicate RangedNames(names: string -> Option<Value>) { forall n :: names(n).Some? ==> Ranged(names(n).value) }

  /** Literals are in range, and no subexpression yields a string of 2**32 or more characters. */
  ghost predicate Measured(fp: FloatUnit, names: string -> Option<Value>, e: Expr)
    decreases e
  {
    && (forall mode :: match Eval(fp, names, e, mode) case Some(Text(s)) => |s| < 0x1_0000_0000 case _ => true)
    && match e
       case Literal(v) => Ranged(v)
       case Name(_) => true
       case Unary(_, x) => Measured(fp, names, x)
       case Binary(_, l, r) => Measured(fp, names, l) && Measured(fp, names, r)
       case Call(_, args) => forall i :: 0 <= i < |args| ==> Measured(fp, names, args[i])
  }

  lemma ZeroRanged(n: Numeric)
    ensures Ranged(Number(n, ZERO))
  {
  }

  lemma NormalizedRanged(fp: FloatUnit, x: int, n: Numeric)
    ensures Normalized(fp, x, n).Some? ==> Ranged(Normalized(fp, x, n).value)
  {
    hide Normalize, InRange, Pow2;
    if n.Whole? { NormalizeMeans(x, n.kind); }
  }

  lemma UnaryRanged(fp: FloatUnit, op: UnaryOp, v: Value)
    ensures ApplyUnary(fp, op, v).Some? ==> Ranged(ApplyUnary(fp, op, v).value)
  {
    hide Normalized, Complement, InRange, AsBool;
    match AsNumber(v)
    case None =>
    case Some((x, n)) =>
      NormalizedRanged(fp, x, n);
      NormalizedRanged(fp, if n.Whole? then -x else fp.negate(x), n);
      if n.Whole? { ComplementMeans(x, n.kind, 0); }
  }

  lemma WholeOperands(fp: FloatUnit, l: Value, r: Value)
    requires Ranged(l) && Ranged(r) && Operands(fp, l, r).Some? && Operands(fp, l, r).value.2.Whole?
    ensures var (x, y, n) := Operands(fp, l, r).value; InRange(x, n.kind) && InRange(y, n.kind)
    ensures AsInteger(l).Some? && AsInteger(r).Some?
    ensures var (x, y, n) := Operands(fp, l, r).value; var (a, j) := AsInteger(l).value; var (b, k) := AsInteger(r).value;
      n.kind == CommonKind(j, k) && x == FromBits(a, n.kind) && y == FromBits(b, n.kind) && InRange(a, j) && InRange(b, k)
  {
    hide Convert, CommonKind, InRange, FromBits, Pow2, Modulus;
    BoolRanged(l);
    BoolRanged(r);
    var (a, j) := AsInteger(l).value;
    var (b, k) := AsInteger(r).value;
    OperandIs(a, j, k);
    OperandIs(b, k, j);
    CommonKindAssociates(j, k, k);
  }

  lemma BoolRanged(v: Value)
    requires Ranged(v) && AsInteger(v).Some?
    ensures InRange(AsInteger(v).value.0, AsInteger(v).value.1)
  {
    assert InRange(0, I32) && InRange(1, I32) by {
      assert Pow2(31) >= 2 by { Pow2Monotone(1, 31); assert Pow2(1) == 2; hide Pow2; }
      hide Pow2;
    }
    hide InRange;
  }

  lemma OperandIs(a: int, j: Kind, k: Kind)
    requires InRange(a, j)
    ensures Convert(a, j, CommonKind(j, k)) == Some(FromBits(a, CommonKind(j, k)))
    ensures Converts(a, CommonKind(j, k), FromBits(a, CommonKind(j, k)))
  {
    OperandConverts(a, j, k);
    FromBitsConverts(a, CommonKind(j, k));
    hide Convert, CommonKind, FromBits, InRange, Pow2;
    ConversionUnique(a, CommonKind(j, k), Convert(a, j, CommonKind(j, k)).value, FromBits(a, CommonKind(j, k)));
  }

  lemma QuotientsRanged(x: int, y: int, k: Kind)
    requires InRange(x, k) && InRange(y, k)
    ensures Divide(x, y, k).Some? ==> Ranged(Number(Whole(k), Divide(x, y, k).value))
    ensures Remainder(x, y, k).Some? ==> Ranged(Number(Whole(k), Remainder(x, y, k).value))
  {
    DivisionMeans(x, y, k);
    hide Divide, Remainder, InRange, Divides;
  }

  lemma FinishRanged(fp: FloatUnit, x: int, n: Numeric)
    requires !n.Whole?
    ensures Finish(fp, x, n).Some? ==> Ranged(Finish(fp, x, n).value)
  {
  }

  lemma DivisionRanged(fp: FloatUnit, op: BinaryOp, l: Value, r: Value, evaluate: bool)
    requires Ranged(l) && Ranged(r)
    ensures ApplyDivision(fp, op, l, r, evaluate).Some? ==> Ranged(ApplyDivision(fp, op, l, r, evaluate).value)
  {
    hide Operands, Divide, Remainder, InRange, Divides, AsInteger, Ranged, Finish, CommonKind, FromBits, TruncatingDivide;
    if Operands(fp, l, r).Some? {
      var (x, y, n) := Operands(fp, l, r).value;
      ZeroRanged(n);
      if n.Whole? {
        WholeOperands(fp, l, r);
        QuotientsRanged(x, y, n.kind);
      } else {
        FinishRanged(fp, fp.arithmetic(op, x, y), n);
      }
    }
  }

  lemma BitsRanged(op: BinaryOp, l: Value, r: Value)
    ensures ApplyBits(op, l, r).Some? ==> Ranged(ApplyBits(op, l, r).value)
  {
    forall a, b, k: Kind { BitwiseMeans(BitsOf(op), a, b, k, 0); }
    hide BitwiseBinary, InRange, Convert, CommonKind, Bit, OnBit, AsInteger;
  }

  lemma ShiftRanged(op: BinaryOp, l: Value, r: Value)
    requires Ranged(l)
    ensures ApplyShift(op, l, r).Some? ==> Ranged(ApplyShift(op, l, r).value)
  {
    hide Shift, InRange, Convert, CommonKind, Pow2, Modulus, AsInteger, Width;
    if AsInteger(l).Some? && AsInteger(r).Some? {
      var (x, k) := AsInteger(l).value;
      BoolRanged(l);
      OperandConverts(x, k, k);
      var (y, n) := AsInteger(r).value;
      if Convert(y, n, n).Some? { ShiftMeans(op == ShiftLeft, x, Convert(y, n, n).value, k); }
    }
  }

  lemma BinaryRanged(fp: FloatUnit, op: BinaryOp, l: Value, r: Value, evaluate: bool)
    requires op != LogicalOr && op != LogicalAnd && Ranged(l) && Ranged(r)
    ensures ApplyBinary(fp, op, l, r, evaluate).Some? ==> Ranged(ApplyBinary(fp, op, l, r, evaluate).value)
  {
    hide Operands, ApplyDivision, ApplyBits, ApplyShift, Normalized, InRange, Compares;
    DivisionRanged(fp, op, l, r, evaluate);
    BitsRanged(op, l, r);
    ShiftRanged(op, l, r);
    if Operands(fp, l, r).Some? {
      var (x, y, n) := Operands(fp, l, r).value;
      NormalizedRanged(fp, if n.Whole? then Exact(op, x, y) else fp.arithmetic(op, x, y), n);
    }
  }

  lemma ArgumentRanged(v: Value)
    requires Ranged(v) && Argument(v).Some? && Argument(v).value.1.Whole?
    ensures InRange(Argument(v).value.0, Argument(v).value.1.kind)
  {
    hide InRange, Convert, CommonKind;
    BoolRanged(v);
    var (x, k) := AsInteger(v).value;
    OperandConverts(x, k, k);
  }

  lemma CommonIsWhole(m: Numeric, n: Numeric)
    requires CommonNumeric(m, n).Whole?
    ensures m.Whole? && n.Whole? && CommonNumeric(m, n) == Whole(CommonKind(m.kind, n.kind))
  {
  }

  /** Kinds that can be folded into `n` convert to `n` in range. */
  lemma WithinRanged(fp: FloatUnit, x: int, m: Numeric, n: Numeric)
    requires m.Whole? && n.Whole? && InRange(x, m.kind) && CommonKind(m.kind, n.kind) == n.kind
    ensures ConvertNumber(fp, x, m, n).Some? && InRange(ConvertNumber(fp, x, m, n).value, n.kind)
  {
    hide InRange, Convert, CommonKind;
    OperandConverts(x, m.kind, n.kind);
  }

  lemma {:induction false} KindOfAllAbove(vs: seq<Value>, i: nat)
    requires i < |vs| && KindOfAll(vs).Some? && KindOfAll(vs).value.Whole?
    ensures Argument(vs[i]).Some? && Argument(vs[i]).value.1.Whole?
    ensures CommonKind(Argument(vs[i]).value.1.kind, KindOfAll(vs).value.kind) == KindOfAll(vs).value.kind
  {
    var n := |vs| - 1;
    var last := Argument(vs[n]).value.1;
    hide CommonKind, Argument;
    if n == 0 {
      CommonKindSame(last.kind);
    } else {
      var init := KindOfAll(vs[..n]).value;
      CommonIsWhole(init, last);
      if i < n {
        KindOfAllAbove(vs[..n], i);
        var k := Argument(vs[i]).value.1.kind;
        CommonKindAssociates(k, init.kind, last.kind);
      } else {
        CommonKindAssociates(last.kind, init.kind, last.kind);
        CommonKindAssociates(init.kind, last.kind, last.kind);
        CommonKindSame(last.kind);
      }
    }
  }

  lemma CommonKindSame(k: Kind)
    ensures CommonKind(k, k) == k
  {
  }

  lemma {:induction false} ExtremeRanged(fp: FloatUnit, f: Function, vs: seq<Value>, n: Numeric)
    requires vs != [] && n.Whole? && Extreme(fp, f, vs, n).Some? && (forall i :: 0 <= i < |vs| ==> Ranged(vs[i]))
    requires forall i :: 0 <= i < |vs| ==>
               Argument(vs[i]).Some? && Argument(vs[i]).value.1.Whole? && CommonKind(Argument(vs[i]).value.1.kind, n.kind) == n.kind
    ensures InRange(Extreme(fp, f, vs, n).value, n.kind)
  {
    var last := |vs| - 1;
    ArgumentRanged(vs[last]);
    WithinRanged(fp, Argument(vs[last]).value.0, Argument(vs[last]).value.1, n);
    hide InRange, Argument, ConvertNumber, CommonKind, Better, Ranged;
    if last > 0 {
      forall i | 0 <= i < last ensures Ranged(vs[..last][i]) { assert Ranged(vs[i]); }
      ExtremeRanged(fp, f, vs[..last], n);
    }
  }

  lemma MinMaxRanged(fp: FloatUnit, f: Function, vs: seq<Value>)
    requires (forall i :: 0 <= i < |vs| ==> Ranged(vs[i]))
    ensures MinMax(fp, f, vs).Some? ==> Ranged(MinMax(fp, f, vs).value)
  {
    if MinMax(fp, f, vs).Some? && KindOfAll(vs).value.Whole? {
      forall i | 0 <= i < |vs|
        ensures Argument(vs[i]).Some? && Argument(vs[i]).value.1.Whole?
        ensures CommonKind(Argument(vs[i]).value.1.kind, KindOfAll(vs).value.kind) == KindOfAll(vs).value.kind
      {
        KindOfAllAbove(vs, i);
      }
      hide InRange, KindOfAll, Extreme, CommonKind, Argument;
      ExtremeRanged(fp, f, vs, KindOfAll(vs).value);
    }
  }

  /** min and max return one of their arguments, converted to the common kind, and none of the others beats it there. */
  lemma {:induction false} ExtremeIs(fp: FloatUnit, f: Function, vs: seq<Value>, n: Numeric)
    requires (f.MinOf? || f.MaxOf?) && vs != [] && n.Whole? && Extreme(fp, f, vs, n).Some?
    ensures exists i :: 0 <= i < |vs| && ConvertedTo(fp, vs[i], n) == Extreme(fp, f, vs, n)
    ensures forall i :: 0 <= i < |vs| ==>
              && ConvertedTo(fp, vs[i], n).Some?
              && (if f.MinOf? then Extreme(fp, f, vs, n).value <= ConvertedTo(fp, vs[i], n).value
                  else Extreme(fp, f, vs, n).value >= ConvertedTo(fp, vs[i], n).value)
  {
    hide Argument, ConvertNumber;
    var last := |vs| - 1;
    assert ConvertedTo(fp, vs[last], n).Some?;
    if last > 0 {
      ExtremeIs(fp, f, vs[..last], n);
      var i :| 0 <= i < last && ConvertedTo(fp, vs[..last][i], n) == Extreme(fp, f, vs[..last], n);
      assert vs[i] == vs[..last][i];
      forall j | 0 <= j < last ensures ConvertedTo(fp, vs[j], n) == ConvertedTo(fp, vs[..last][j], n) {}
    }
  }

  function ConvertedTo(fp: FloatUnit, v: Value, n: Numeric): Option<int> {
    match Argument(v)
    case None => None
    case Some((x, m)) => ConvertNumber(fp, x, m, n)
  }

  lemma AbsoluteRanged(fp: FloatUnit, v: Value)
    requires Ranged(v)
    ensures AbsoluteValue(fp, v).Some? ==> Ranged(AbsoluteValue(fp, v).value)
  {
    if AbsoluteValue(fp, v).Some? && Argument(v).value.1.Whole? {
      ArgumentRanged(v);
      hide Argument, Pow2;
    }
  }

  lemma CastRanged(fp: FloatUnit, target: Shape, v: Value)
    ensures CastTo(fp, target, v).Some? ==> Ranged(CastTo(fp, target, v).value)
  {
    hide FromBits, InRange, ConvertNumber, AsBool, Decimal, Modulus;
    if target.NumberShape? && target.numeric.Whole? {
      forall y { FromBitsConverts(y, target.numeric.kind); }
    }
  }

  lemma LenRanged(s: string)
    requires |s| < 0x1_0000_0000
    ensures InRange(|s|, U32)
  {
    LargeModulus();
    hide Pow2;
  }

  lemma LargeModulus()
    ensures Pow2(32) == 0x1_0000_0000
  {
    assert Pow2(8) == 256;
    hide Pow2;
    Pow2Add(8, 8);
    Pow2Add(16, 16);
  }

  lemma RealsRanged(fp: FloatUnit, a: Value, b: Value)
    ensures Power(fp, a, b).Some? ==> Ranged(Power(fp, a, b).value)
  {
    hide Argument, ConvertNumber;
  }

  lemma RealRanged(fp: FloatUnit, f: Function, x: int, n: Numeric)
    ensures Real(fp, f, x, n).Some? ==> Ranged(Real(fp, f, x, n).value)
  {
    hide ConvertNumber;
  }

  lemma FunctionRanged(fp: FloatUnit, f: Function, vs: seq<Value>, evaluate: bool)
    requires forall i :: 0 <= i < |vs| ==> Ranged(vs[i]) && (vs[i].Text? ==> |vs[i].s| < 0x1_0000_0000)
    ensures var r := if evaluate then ApplyFunction(fp, f, vs) else TypeFunction(fp, f, vs);
      r.Some? ==> Ranged(r.value)
  {
    hide CastTo, MinMax, AbsoluteValue, InRange, KindOfAll, Argument, ConvertNumber, AsCount, Slice, Real, Power;
    forall n { ZeroRanged(n); }
    match f
    case Cast(target) => if |vs| == 1 { CastRanged(fp, target, vs[0]); }
    case Len => if |vs| == 1 && vs[0].Text? { LenRanged(vs[0].s); }
    case Substr =>
    case StartsWith =>
    case Pow => if |vs| == 2 { RealsRanged(fp, vs[0], vs[1]); }
    case AbsOf => if |vs| == 1 { AbsoluteRanged(fp, vs[0]); }
    case RealOf(_) => if |vs| == 1 && Argument(vs[0]).Some? { RealRanged(fp, f, Argument(vs[0]).value.0, Argument(vs[0]).value.1); }
    case _ => MinMaxRanged(fp, f, vs);
  }

  /** Every integer an expression yields, in either mode, lies in the range of its kind. */
  lemma {:induction false} ResultsInRange(fp: FloatUnit, names: string -> Option<Value>, e: Expr, evaluate: bool)
    requires RangedNames(names) && Measured(fp, names, e) && Eval(fp, names, e, evaluate).Some?
    ensures Ranged(Eval(fp, names, e, evaluate).value)
    decreases e
  {
    hide ApplyUnary, ApplyBinary, ApplyFunction, TypeFunction, AsBool, FunctionNamed, InRange;
    match e
    case Literal(v) => PlaceholderRanged(v);
    case Name(n) => PlaceholderRanged(names(n).value);
    case Unary(op, x) =>
      UnaryRanged(fp, op, Eval(fp, names, x, evaluate).value);
    case Binary(op, l, r) =>
      if op != LogicalOr && op != LogicalAnd {
        ResultsInRange(fp, names, l, evaluate);
        ResultsInRange(fp, names, r, evaluate);
        BinaryRanged(fp, op, Eval(fp, names, l, evaluate).value, Eval(fp, names, r, evaluate).value, evaluate);
      }
    case Call(name, args) =>
      AllInRange(fp, names, args, evaluate);
      FunctionRanged(fp, FunctionNamed(name).value, EvalAll(fp, names, args, evaluate).value, evaluate);
  }

  lemma PlaceholderRanged(v: Value)
    ensures Ranged(Placeholder(v))
  {
    match v
    case Number(n, _) => ZeroRanged(n);
    case _ =>
  }

  lemma {:induction false} AllInRange(fp: FloatUnit, names: string -> Option<Value>, es: seq<Expr>, evaluate: bool)
    requires RangedNames(names) && EvalAll(fp, names, es, evaluate).Some?
    requires forall i :: 0 <= i < |es| ==> Measured(fp, names, es[i])
    ensures var vs := EvalAll(fp, names, es, evaluate).value;
      forall i :: 0 <= i < |vs| ==> Ranged(vs[i]) && (vs[i].Text? ==> |vs[i].s| < 0x1_0000_0000)
    decreases es
  {
    hide InRange;
    if es != [] {
      var n := |es| - 1;
      AllInRange(fp, names, es[..n], evaluate);
      ResultsInRange(fp, names, es[n], evaluate);
    }
  }

  // ---------------------------------------------------------------- integer operators are those of C++

  /** What C++ leaves undefined, for operands `a` of kind `m` and `b` that the usual arithmetic conversions turn into
      `x` and `y` of kind `k`. */
  ghost predicate Undefined(op: BinaryOp, k: Kind, x: int, y: int, m: Kind, b: int) {
    match op
    case Add => Signed(k) && !InRange(x + y, k)
    case Subtract => Signed(k) && !InRange(x - y, k)
    case Multiply => Signed(k) && !InRange(x * y, k)
    case Divide_ => y == 0 || !InRange(TruncatingDivide(x, y), k)
    case Modulo => y == 0 || !InRange(TruncatingDivide(x, y), k)
    case ShiftLeft => b < 0 || b >= Width(m)
    case ShiftRight => b < 0 || b >= Width(m)
    case _ => false
  }

  /** What C++ requires of the result otherwise. */
  ghost predicate Yields(op: BinaryOp, k: Kind, x: int, y: int, m: Kind, a: int, b: int, v: Value) {
    match op
    case Add => v.Number? && v.numeric == Whole(k) && Converts(x + y, k, v.v)
    case Subtract => v.Number? && v.numeric == Whole(k) && Converts(x - y, k, v.v)
    case Multiply => v.Number? && v.numeric == Whole(k) && Converts(x * y, k, v.v)
    case Divide_ => v.Number? && v.numeric == Whole(k) && exists r :: Divides(x, y, v.v, r)
    case Modulo => v.Number? && v.numeric == Whole(k) && exists q :: Divides(x, y, q, v.v)
    case ShiftLeft => v.Number? && v.numeric == Whole(m) && b >= 0 && Converts(a * Pow2(b), m, v.v)
    case ShiftRight => v.Number? && v.numeric == Whole(m) && b >= 0 && v.v == a / Pow2(b)
    case Less => v == Bool(x < y)
    case LessEqual => v == Bool(x <= y)
    case Greater => v == Bool(x > y)
    case GreaterEqual => v == Bool(x >= y)
    case Equal => v == Bool(x == y)
    case NotEqual => v == Bool(x != y)
    case _ =>
      && v.Number? && v.numeric == Whole(k) && InRange(v.v, k)
      && forall i :: 0 <= i < Width(k) ==> Bit(v.v, i) == OnBit(BitsOf(op), Bit(x, i), Bit(y, i))
  }

  ghost predicate CppResult(op: BinaryOp, k: Kind, x: int, y: int, m: Kind, a: int, b: int, r: Option<Value>) {
    if r.None? then Undefined(op, k, x, y, m, b) else !Undefined(op, k, x, y, m, b) && Yields(op, k, x, y, m, a, b, r.value)
  }

  lemma OperandsAre(fp: FloatUnit, l: Value, r: Value, a: int, m: Kind, b: int, n: Kind)
    requires Ranged(l) && Ranged(r) && AsInteger(l) == Some((a, m)) && AsInteger(r) == Some((b, n))
    ensures var k := CommonKind(m, n);
      && Convert(a, m, k) == Some(FromBits(a, k)) && Convert(b, n, k) == Some(FromBits(b, k))
      && InRange(FromBits(a, k), k) && InRange(FromBits(b, k), k)
      && Operands(fp, l, r) == Some((FromBits(a, k), FromBits(b, k), Whole(k)))
      && Convert(a, m, m) == Some(a) && Convert(b, n, n) == Some(b) && InRange(a, m) && InRange(b, n)
  {
    hide Convert, CommonKind, FromBits, InRange, Pow2, Modulus;
    BoolRanged(l);
    BoolRanged(r);
    OperandIs(a, m, n);
    OperandIs(b, n, m);
    CommonKindAssociates(m, n, n);
    OperandConverts(a, m, n);
    OperandConverts(b, n, m);
  }

  lemma AllBits(op: BitOp, x: int, y: int, k: Kind)
    ensures InRange(BitwiseBinary(op, x, y, k), k)
    ensures forall i :: 0 <= i < Width(k) ==> Bit(BitwiseBinary(op, x, y, k), i) == OnBit(op, Bit(x, i), Bit(y, i))
  {
    BitwiseMeans(op, x, y, k, 0);
    forall i | 0 <= i < Width(k) ensures Bit(BitwiseBinary(op, x, y, k), i) == OnBit(op, Bit(x, i), Bit(y, i)) {
      BitwiseMeans(op, x, y, k, i);
    }
  }

  lemma ArithmeticValue(fp: FloatUnit, op: BinaryOp, l: Value, r: Value, x: int, y: int, k: Kind)
    requires op in {Add, Subtract, Multiply} && !l.Text? && !r.Text? && Operands(fp, l, r) == Some((x, y, Whole(k)))
    ensures ApplyBinary(fp, op, l, r, true) == (match Normalize(Exact(op, x, y), k) case None => None case Some(z) => Some(Number(Whole(k), z)))
  {
    hide Operands, Normalize, Divide, Remainder;
  }
  lemma ArithmeticRule(op: BinaryOp, k: Kind, x: int, y: int, m: Kind, a: int, b: int)
    requires op in {Add, Subtract, Multiply} && InRange(x, k) && InRange(y, k) && InRange(a, m)
    ensures CppResult(op, k, x, y, m, a, b, (match Normalize(Exact(op, x, y), k) case None => None case Some(z) => Some(Number(Whole(k), z))))
  {
    hide InRange, Pow2, Converts, Divides, TruncatingDivide, Width, Bit, Normalize, Divide, Remainder, Shift, BitwiseBinary, Signed;
    NormalizeMeans(Exact(op, x, y), k);
  }

  lemma DivisionValue(fp: FloatUnit, op: BinaryOp, l: Value, r: Value, x: int, y: int, k: Kind)
    requires op in {Divide_, Modulo} && !l.Text? && !r.Text? && Operands(fp, l, r) == Some((x, y, Whole(k)))
    ensures ApplyBinary(fp, op, l, r, true) == (match if op == Divide_ then Divide(x, y, k) else Remainder(x, y, k) case None => None case Some(z) => Some(Number(Whole(k), z)))
  {
    hide Operands, Normalize, Divide, Remainder;
  }
  lemma DivisionRule(op: BinaryOp, k: Kind, x: int, y: int, m: Kind, a: int, b: int)
    requires op in {Divide_, Modulo} && InRange(x, k) && InRange(y, k) && InRange(a, m)
    ensures CppResult(op, k, x, y, m, a, b, (match if op == Divide_ then Divide(x, y, k) else Remainder(x, y, k) case None => None case Some(z) => Some(Number(Whole(k), z))))
  {
    hide InRange, Pow2, Converts, Divides, TruncatingDivide, Width, Bit, Normalize, Divide, Remainder, Shift, BitwiseBinary, Signed;
    DivisionMeans(x, y, k);
  }

  lemma BitsValue(fp: FloatUnit, op: BinaryOp, l: Value, r: Value, x: int, y: int, k: Kind, a: int, m: Kind, b: int, n: Kind)
    requires op in {BitOr, BitXor, BitAnd} && AsInteger(l) == Some((a, m)) && AsInteger(r) == Some((b, n))
    requires k == CommonKind(m, n) && Convert(a, m, k) == Some(x) && Convert(b, n, k) == Some(y)
    ensures ApplyBinary(fp, op, l, r, true) == Some(Number(Whole(k), BitwiseBinary(BitsOf(op), x, y, k)))
  {
    hide Convert, CommonKind, AsInteger, Shift, BitwiseBinary;
  }
  lemma BitsRule(op: BinaryOp, k: Kind, x: int, y: int, m: Kind, a: int, b: int)
    requires op in {BitOr, BitXor, BitAnd} && InRange(x, k) && InRange(y, k) && InRange(a, m)
    ensures CppResult(op, k, x, y, m, a, b, Some(Number(Whole(k), BitwiseBinary(BitsOf(op), x, y, k))))
  {
    hide InRange, Pow2, Converts, Divides, TruncatingDivide, Width, Bit, Normalize, Divide, Remainder, Shift, BitwiseBinary, Signed;
    AllBits(BitsOf(op), x, y, k);
  }

  lemma ShiftsValue(fp: FloatUnit, op: BinaryOp, l: Value, r: Value, a: int, m: Kind, b: int, n: Kind)
    requires op in {ShiftLeft, ShiftRight} && AsInteger(l) == Some((a, m)) && AsInteger(r) == Some((b, n))
    requires Convert(a, m, m) == Some(a) && Convert(b, n, n) == Some(b)
    ensures ApplyBinary(fp, op, l, r, true) == (match Shift(op == ShiftLeft, a, b, m) case None => None case Some(z) => Some(Number(Whole(m), z)))
  {
    hide Convert, CommonKind, AsInteger, Shift, BitwiseBinary;
  }
  lemma ShiftsRule(op: BinaryOp, k: Kind, x: int, y: int, m: Kind, a: int, b: int)
    requires op in {ShiftLeft, ShiftRight} && InRange(x, k) && InRange(y, k) && InRange(a, m)
    ensures CppResult(op, k, x, y, m, a, b, (match Shift(op == ShiftLeft, a, b, m) case None => None case Some(z) => Some(Number(Whole(m), z))))
  {
    hide InRange, Pow2, Converts, Divides, TruncatingDivide, Width, Bit, Normalize, Divide, Remainder, Shift, BitwiseBinary, Signed;
    ShiftMeans(op == ShiftLeft, a, b, m);
  }

  lemma ComparisonsValue(fp: FloatUnit, op: BinaryOp, l: Value, r: Value, x: int, y: int, k: Kind)
    requires op in {Less, LessEqual, Greater, GreaterEqual, Equal, NotEqual} && !l.Text? && !r.Text? && Operands(fp, l, r) == Some((x, y, Whole(k)))
    ensures ApplyBinary(fp, op, l, r, true) == Some(Bool(Compares(fp, op, x, y, Whole(k))))
  {
    hide Operands, Normalize, Divide, Remainder;
  }
  lemma ComparisonsRule(fp: FloatUnit, op: BinaryOp, k: Kind, x: int, y: int, m: Kind, a: int, b: int)
    requires op in {Less, LessEqual, Greater, GreaterEqual, Equal, NotEqual} && InRange(x, k) && InRange(y, k) && InRange(a, m)
    ensures CppResult(op, k, x, y, m, a, b, Some(Bool(Compares(fp, op, x, y, Whole(k)))))
  {
    hide InRange, Pow2, Converts, Divides, TruncatingDivide, Width, Bit, Normalize, Divide, Remainder, Shift, BitwiseBinary, Signed;
  }

  /** On integers (a bool counting as an int32) an operator is rejected exactly when C++ leaves it undefined, and
      otherwise yields the value of C++, in its type. */
  lemma OperatorIsCpp(fp: FloatUnit, op: BinaryOp, l: Value, r: Value, a: int, m: Kind, b: int, n: Kind)
    requires op != LogicalOr && op != LogicalAnd
    requires Ranged(l) && Ranged(r) && AsInteger(l) == Some((a, m)) && AsInteger(r) == Some((b, n))
    ensures var k := CommonKind(m, n);
      CppResult(op, k, FromBits(a, k), FromBits(b, k), m, a, b, ApplyBinary(fp, op, l, r, true))
  {
    assert !l.Text? && !r.Text?;
    hide *;
    OperandsAre(fp, l, r, a, m, b, n);
    var k := CommonKind(m, n);
    var x, y := FromBits(a, k), FromBits(b, k);
    if op in {Divide_, Modulo} {
      DivisionValue(fp, op, l, r, x, y, k);
      DivisionRule(op, k, x, y, m, a, b);
    } else if op in {ShiftLeft, ShiftRight} {
      ShiftsValue(fp, op, l, r, a, m, b, n);
      ShiftsRule(op, k, x, y, m, a, b);
    } else if op in {BitOr, BitXor, BitAnd} {
      BitsValue(fp, op, l, r, x, y, k, a, m, b, n);
      BitsRule(op, k, x, y, m, a, b);
    } else if op in {Add, Subtract, Multiply} {
      ArithmeticValue(fp, op, l, r, x, y, k);
      ArithmeticRule(op, k, x, y, m, a, b);
    } else {
      ComparisonsValue(fp, op, l, r, x, y, k);
      ComparisonsRule(fp, op, k, x, y, m, a, b);
    }
  }

  /** The unary operators on integers: `-` is rejected exactly on signed overflow, `~` inverts every bit. */
  lemma UnaryIsCpp(fp: FloatUnit, op: UnaryOp, v: Value, a: int, k: Kind)
    requires op != Not && Ranged(v) && AsInteger(v) == Some((a, k))
    ensures ApplyUnary(fp, op, v).None? <==> op == Minus && Signed(k) && !InRange(-a, k)
    ensures ApplyUnary(fp, op, v).Some? ==>
              var r := ApplyUnary(fp, op, v).value;
              && r.Number? && r.numeric == Whole(k)
              && (op == Plus ==> r.v == a)
              && (op == Minus ==> Converts(-a, k, r.v))
              && (op == Invert ==> InRange(r.v, k) && forall i :: 0 <= i < Width(k) ==> Bit(r.v, i) == 1 - Bit(a, i))
  {
    hide InRange, Normalize, Complement, Bit, Width, Converts, Pow2, Signed, Ranged, Normalized, AsBool;
    assert AsNumber(v) == Some((a, Whole(k)));
    BoolRanged(v);
    match op
    case Plus =>
      NormalizedWhole(fp, a, k);
      NormalizeFits(a, k);
    case Minus =>
      NormalizedWhole(fp, -a, k);
      NormalizeMeans(-a, k);
    case Invert =>
      ComplementRanged(a, k);
      forall i | 0 <= i < Width(k) ensures Bit(Complement(a, k), i) == 1 - Bit(a, i) { ComplementMeans(a, k, i); }
  }

  lemma NormalizedWhole(fp: FloatUnit, x: int, k: Kind)
    ensures Normalized(fp, x, Whole(k)) == match Normalize(x, k) case None => None case Some(y) => Some(Number(Whole(k), y))
  {
    hide Normalize;
  }

  lemma ComplementRanged(a: int, k: Kind)
    ensures InRange(Complement(a, k), k)
  {
    ComplementMeans(a, k, 0);
  }

  /** A cast between integer kinds is the integral conversion and never fails. */
  lemma IntegerCastConverts(fp: FloatUnit, v: Value, a: int, k: Kind, target: Kind)
    requires Ranged(v) && AsInteger(v) == Some((a, k))
    ensures var r := CastTo(fp, NumberShape(Whole(target)), v);
      r.Some? && r.value.Number? && r.value.numeric == Whole(target) && Converts(a, target, r.value.v)
  {
    hide InRange, FromBits, Converts, Convert, CommonKind, Pow2, Modulus, AsBool, Decimal, Ranged;
    assert AsNumber(v) == Some((a, Whole(k)));
    BoolRanged(v);
    OperandConverts(a, k, k);
    FromBitsConverts(a, target);
  }
}
