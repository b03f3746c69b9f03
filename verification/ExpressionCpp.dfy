/** What C++20 makes of a whole integer expression, and that the evaluator agrees with it. */
module ExpressionCpp {
  import opened Expressions
  import opened ExpressionLaws
  import opened ExpressionModes
  import opened IntegerKinds
  import opened Options
  import opened Powers

  predicate IntegerValue(v: Value) { v.Bool? || (v.Number? && v.numeric.Whole?) }

  /** A string that stands in the text or is the value of a name. */
  function TextOf(names: string -> Option<Value>, e: Expr): Option<string> {
    match e
    case Literal(Text(s)) => Some(s)
    case Name(n) => (match names(n) case Some(Text(s)) => Some(s) case _ => None)
    case _ => None
  }

  /** The functions from integers to integers, with their numbers of arguments. */
  predicate IntegerFunction(f: Function, arguments: nat) {
    match f
    case Cast(s) => arguments == 1 && (s.BoolShape? || (s.NumberShape? && s.numeric.Whole?))
    case AbsOf => arguments == 1
    case MinOf => arguments >= 2
    case MaxOf => arguments >= 2
    case _ => false
  }

  predicate IsLen(names: string -> Option<Value>, name: string, args: seq<Expr>) {
    && FunctionNamed(name) == Some(Len) && |args| == 1
    && TextOf(names, args[0]).Some? && |TextOf(names, args[0]).value| < 0x1_0000_0000
  }

  /** Integers, bools, operators, casts, abs, min, max, and len of a string; every name is known, and every literal and name
      is in range. */
  ghost predicate IntegerExpr(names: string -> Option<Value>, e: Expr)
    decreases e
  {
    match e
    case Literal(v) => IntegerValue(v) && Ranged(v)
    case Name(n) => names(n).Some? && IntegerValue(names(n).value) && Ranged(names(n).value)
    case Unary(_, x) => IntegerExpr(names, x)
    case Binary(_, l, r) => IntegerExpr(names, l) && IntegerExpr(names, r)
    case Call(name, args) =>
      IsLen(names, name, args) ||
      (FunctionNamed(name).Some? && IntegerFunction(FunctionNamed(name).value, |args|) && IntegerExprs(names, args))
  }

  ghost predicate IntegerExprs(names: string -> Option<Value>, es: seq<Expr>)
    decreases es
  {
    es != [] ==> IntegerExprs(names, es[..|es| - 1]) && IntegerExpr(names, es[|es| - 1])
  }

  // ---------------------------------------------------------------- the meaning in C++

  /** An operand as the standard sees it: its value and its promoted type. */
  function IntegerOf(v: Value): (int, Kind)
    requires IntegerValue(v)
  {
    AsInteger(v).value
  }

  ghost predicate CppUnary(op: UnaryOp, v: Value, r: Option<Value>)
    requires IntegerValue(v)
  {
    var (a, k) := IntegerOf(v);
    match op
    case Not => r == Some(Bool(a == 0))
    case Plus => r == Some(Number(Whole(k), a))
    case Minus =>
      if Signed(k) && !InRange(-a, k) then r.None?
      else r.Some? && r.value.Number? && r.value.numeric == Whole(k) && Converts(-a, k, r.value.v)
    case Invert =>
      && r.Some? && r.value.Number? && r.value.numeric == Whole(k) && InRange(r.value.v, k)
      && forall i :: 0 <= i < Width(k) ==> Bit(r.value.v, i) == 1 - Bit(a, i)
  }

  /** The usual arithmetic conversions, then the operator. */
  ghost predicate CppBinary(op: BinaryOp, v: Value, w: Value, r: Option<Value>)
    requires IntegerValue(v) && IntegerValue(w)
  {
    var (a, m) := IntegerOf(v);
    var (b, n) := IntegerOf(w);
    var k := CommonKind(m, n);
    exists x, y :: Converts(a, k, x) && Converts(b, k, y) && CppResult(op, k, x, y, m, a, b, r)
  }

  ghost predicate CppCast(s: Shape, v: Value, r: Option<Value>)
    requires IntegerValue(v)
  {
    var (a, k) := IntegerOf(v);
    match s
    case NumberShape(Whole(t)) => r.Some? && r.value.Number? && r.value.numeric == Whole(t) && Converts(a, t, r.value.v)
    case _ => r == Some(Bool(a != 0))
  }

  ghost predicate CppAbs(v: Value, r: Option<Value>)
    requires IntegerValue(v)
  {
    var (a, k) := IntegerOf(v);
    r == if InRange(Abs(a), k) then Some(Number(Whole(k), Abs(a))) else None
  }

  predicate IntegerValues(vs: seq<Value>) { forall i :: 0 <= i < |vs| ==> IntegerValue(vs[i]) }

  /** The common type of all arguments. */
  function CommonOf(vs: seq<Value>): Kind
    requires vs != [] && IntegerValues(vs)
  {
    var k := IntegerOf(vs[|vs| - 1]).1;
    if |vs| == 1 then k else CommonKind(CommonOf(vs[..|vs| - 1]), k)
  }

  /** The least or greatest of the arguments after conversion to their common type. */
  ghost predicate CppExtreme(f: Function, vs: seq<Value>, r: Option<Value>)
    requires vs != [] && IntegerValues(vs)
  {
    var k := CommonOf(vs);
    && r.Some? && r.value.Number? && r.value.numeric == Whole(k)
    && (exists i :: 0 <= i < |vs| && Converts(IntegerOf(vs[i]).0, k, r.value.v))
    && forall i, y :: 0 <= i < |vs| && Converts(IntegerOf(vs[i]).0, k, y) ==> if f.MinOf? then r.value.v <= y else r.value.v >= y
  }

  ghost predicate CppCall(f: Function, vs: seq<Value>, r: Option<Value>)
    requires IntegerFunction(f, |vs|) && IntegerValues(vs)
  {
    match f
    case Cast(s) => CppCast(s, vs[0], r)
    case AbsOf => CppAbs(vs[0], r)
    case _ => CppExtreme(f, vs, r)
  }

  predicate Truth(v: Value)
    requires IntegerValue(v)
  {
    IntegerOf(v).0 != 0
  }

  /** C++ gives the expression the value `r`, or leaves it undefined when `r` is `None`.  The right operand of `&&` and
      `||` is not looked at when the left one decides. */
  ghost predicate Cpp(names: string -> Option<Value>, e: Expr, r: Option<Value>)
    requires IntegerExpr(names, e)
    decreases e, 0
  {
    && (r.Some? ==> IntegerValue(r.value) && Ranged(r.value))
    && match e
       case Literal(v) => r == Some(v)
       case Name(n) => r == names(n)
       case Unary(op, x) =>
         exists s :: Cpp(names, x, s) && (if s.None? then r.None? else CppUnary(op, s.value, r))
       case Binary(op, l, right) =>
         exists s :: Cpp(names, l, s) && (if s.None? then r.None? else CppRight(names, op, s.value, right, r))
       case Call(name, args) =>
         if IsLen(names, name, args) then r == Some(Number(Whole(U32), |TextOf(names, args[0]).value|))
         else exists ss :: CppAll(names, args, ss) && CppCalled(FunctionNamed(name).value, |args|, ss, r)
  }

  ghost predicate CppCalled(f: Function, arguments: nat, ss: Option<seq<Value>>, r: Option<Value>)
    requires IntegerFunction(f, arguments)
  {
    if ss.None? then r.None? else |ss.value| == arguments && IntegerValues(ss.value) && CppCall(f, ss.value, r)
  }

  /** The arguments have these values, or one of them is undefined. */
  ghost predicate CppAll(names: string -> Option<Value>, es: seq<Expr>, ss: Option<seq<Value>>)
    requires IntegerExprs(names, es)
    decreases es, 0
  {
    if es == [] then ss == Some([])
    else
      exists ts :: CppAll(names, es[..|es| - 1], ts) &&
        if ts.None? then ss.None? else exists s :: Cpp(names, es[|es| - 1], s) && ss == Extended(ts.value, s)
  }

  function Extended(ts: seq<Value>, s: Option<Value>): Option<seq<Value>> {
    match s case None => None case Some(v) => Some(ts + [v])
  }

  ghost predicate CppRight(names: string -> Option<Value>, op: BinaryOp, v: Value, right: Expr, r: Option<Value>)
    requires IntegerValue(v) && IntegerExpr(names, right)
    decreases right, 1
  {
    if (op == LogicalOr || op == LogicalAnd) && Truth(v) == (op == LogicalOr) then r == Some(Bool(op == LogicalOr))
    else exists t :: Cpp(names, right, t) && CppBoth(op, v, t, r)
  }

  /** Both operands are evaluated. */
  ghost predicate CppBoth(op: BinaryOp, v: Value, t: Option<Value>, r: Option<Value>)
    requires IntegerValue(v)
  {
    if t.None? then r.None?
    else
      IntegerValue(t.value) &&
        if op == LogicalOr || op == LogicalAnd then r == Some(Bool(Truth(t.value))) else CppBinary(op, v, t.value, r)
  }

  // ---------------------------------------------------------------- the meaning is one

  lemma ResultUnique(op: BinaryOp, k: Kind, x: int, y: int, m: Kind, a: int, b: int, r: Option<Value>, r': Option<Value>)
    requires CppResult(op, k, x, y, m, a, b, r) && CppResult(op, k, x, y, m, a, b, r')
    ensures r == r'
  {
    hide Converts, Divides, Undefined, Bit, OnBit, InRange, Pow2, TruncatingDivide;
    if r.Some? && r'.Some? {
      var v, w := r.value, r'.value;
      match op
      case Add => ConversionUnique(x + y, k, v.v, w.v);
      case Subtract => ConversionUnique(x - y, k, v.v, w.v);
      case Multiply => ConversionUnique(x * y, k, v.v, w.v);
      case Divide_ => QuotientsAgree(op, k, x, y, m, b, v.v, w.v);
      case Modulo => RemaindersAgree(op, k, x, y, m, b, v.v, w.v);
      case ShiftLeft => ConversionUnique(a * Pow2(b), m, v.v, w.v);
      case BitOr => BitsAgree(k, v.v, w.v);
      case BitXor => BitsAgree(k, v.v, w.v);
      case BitAnd => BitsAgree(k, v.v, w.v);
      case LogicalOr => BitsAgree(k, v.v, w.v);
      case LogicalAnd => BitsAgree(k, v.v, w.v);
      case _ =>
    }
  }

  lemma QuotientsAgree(op: BinaryOp, k: Kind, x: int, y: int, m: Kind, b: int, q: int, q': int)
    requires op == Divide_ && !Undefined(op, k, x, y, m, b)
    requires (exists r :: Divides(x, y, q, r)) && (exists r :: Divides(x, y, q', r))
    ensures q == q'
  {
    hide Divides, TruncatingDivide, InRange;
    var r :| Divides(x, y, q, r);
    var r' :| Divides(x, y, q', r');
    DivisionUnique(x, y, q, r, q', r');
  }

  lemma RemaindersAgree(op: BinaryOp, k: Kind, x: int, y: int, m: Kind, b: int, r: int, r': int)
    requires op == Modulo && !Undefined(op, k, x, y, m, b)
    requires (exists q :: Divides(x, y, q, r)) && (exists q :: Divides(x, y, q, r'))
    ensures r == r'
  {
    hide Divides, TruncatingDivide, InRange;
    var q :| Divides(x, y, q, r);
    var q' :| Divides(x, y, q', r');
    DivisionUnique(x, y, q, r, q', r');
  }

  lemma BitsAgree(k: Kind, v: int, w: int)
    requires InRange(v, k) && InRange(w, k) && forall i :: 0 <= i < Width(k) ==> Bit(v, i) == Bit(w, i)
    ensures v == w
  {
    BitsDetermine(v, w, Width(k));
    Halves(k);
    hide Pow2, Bit;
    CongruentClose(v, w, Modulus(k));
  }

  lemma UnaryUnique(op: UnaryOp, v: Value, r: Option<Value>, r': Option<Value>)
    requires IntegerValue(v) && CppUnary(op, v, r) && CppUnary(op, v, r')
    ensures r == r'
  {
    hide Converts, Bit, InRange, Width;
    var (a, k) := IntegerOf(v);
    if op.Minus? && r.Some? && r'.Some? { ConversionUnique(-a, k, r.value.v, r'.value.v); }
    if op.Invert? { BitsAgree(k, r.value.v, r'.value.v); }
  }

  lemma BinaryUnique(op: BinaryOp, v: Value, w: Value, r: Option<Value>, r': Option<Value>)
    requires IntegerValue(v) && IntegerValue(w) && CppBinary(op, v, w, r) && CppBinary(op, v, w, r')
    ensures r == r'
  {
    hide Converts, CppResult, CommonKind;
    var (a, m) := IntegerOf(v);
    var (b, n) := IntegerOf(w);
    var k := CommonKind(m, n);
    var x, y :| Converts(a, k, x) && Converts(b, k, y) && CppResult(op, k, x, y, m, a, b, r);
    var x', y' :| Converts(a, k, x') && Converts(b, k, y') && CppResult(op, k, x', y', m, a, b, r');
    ConversionUnique(a, k, x, x');
    ConversionUnique(b, k, y, y');
    ResultUnique(op, k, x, y, m, a, b, r, r');
  }

  lemma CastUnique(s: Shape, v: Value, r: Option<Value>, r': Option<Value>)
    requires IntegerValue(v) && CppCast(s, v, r) && CppCast(s, v, r')
    ensures r == r'
  {
    hide Converts;
    var (a, k) := IntegerOf(v);
    if s.NumberShape? && s.numeric.Whole? { ConversionUnique(a, s.numeric.kind, r.value.v, r'.value.v); }
  }

  /** An integer expression has at most one meaning in C++. */
  lemma {:induction false} CppUnique(names: string -> Option<Value>, e: Expr, r: Option<Value>, r': Option<Value>)
    requires IntegerExpr(names, e) && Cpp(names, e, r) && Cpp(names, e, r')
    ensures r == r'
    decreases e, 0
  {
    hide CppUnary, CppBinary, CppCall, Ranged, IntegerOf, IntegerFunction;
    match e
    case Literal(_) =>
    case Name(_) =>
    case Unary(op, x) =>
      var s :| Cpp(names, x, s) && (if s.None? then r.None? else CppUnary(op, s.value, r));
      var s' :| Cpp(names, x, s') && (if s'.None? then r'.None? else CppUnary(op, s'.value, r'));
      CppUnique(names, x, s, s');
      if s.Some? { UnaryUnique(op, s.value, r, r'); }
    case Binary(op, l, right) =>
      var s :| Cpp(names, l, s) && (if s.None? then r.None? else CppRight(names, op, s.value, right, r));
      var s' :| Cpp(names, l, s') && (if s'.None? then r'.None? else CppRight(names, op, s'.value, right, r'));
      CppUnique(names, l, s, s');
      if s.Some? { RightUnique(names, op, s.value, right, r, r'); }
    case Call(name, args) =>
      if !IsLen(names, name, args) {
        var ss :| CppAll(names, args, ss) && CppCalled(FunctionNamed(name).value, |args|, ss, r);
        var ss' :| CppAll(names, args, ss') && CppCalled(FunctionNamed(name).value, |args|, ss', r');
        AllUnique(names, args, ss, ss');
        if ss.Some? { CallUnique(FunctionNamed(name).value, ss.value, r, r'); }
      }
  }

  lemma {:induction false} AllUnique(names: string -> Option<Value>, es: seq<Expr>, ss: Option<seq<Value>>, ss': Option<seq<Value>>)
    requires IntegerExprs(names, es) && CppAll(names, es, ss) && CppAll(names, es, ss')
    ensures ss == ss'
    decreases es, 0
  {
    hide Cpp, IntegerExpr;
    if es != [] {
      var init, last := es[..|es| - 1], es[|es| - 1];
      var ts :| CppAll(names, init, ts) && if ts.None? then ss.None? else exists s :: Cpp(names, last, s) && ss == Extended(ts.value, s);
      var ts' :| CppAll(names, init, ts') && if ts'.None? then ss'.None? else exists s :: Cpp(names, last, s) && ss' == Extended(ts'.value, s);
      AllUnique(names, init, ts, ts');
      if ts.Some? {
        var s :| Cpp(names, last, s) && ss == Extended(ts.value, s);
        var s' :| Cpp(names, last, s') && ss' == Extended(ts'.value, s');
        CppUnique(names, last, s, s');
      }
    }
  }

  lemma CallUnique(f: Function, vs: seq<Value>, r: Option<Value>, r': Option<Value>)
    requires IntegerFunction(f, |vs|) && IntegerValues(vs) && CppCall(f, vs, r) && CppCall(f, vs, r')
    ensures r == r'
  {
    hide Converts, CppCast, CppAbs, IntegerOf, CommonOf, Abs, InRange;
    if f.Cast? {
      CastUnique(f.target, vs[0], r, r');
    } else if f.AbsOf? {
      AbsUnique(vs[0], r, r');
    } else {
      var i :| 0 <= i < |vs| && Converts(IntegerOf(vs[i]).0, CommonOf(vs), r.value.v);
      var j :| 0 <= j < |vs| && Converts(IntegerOf(vs[j]).0, CommonOf(vs), r'.value.v);
    }
  }

  lemma AbsUnique(v: Value, r: Option<Value>, r': Option<Value>)
    requires IntegerValue(v) && CppAbs(v, r) && CppAbs(v, r')
    ensures r == r'
  {
  }

  lemma {:induction false} RightUnique(names: string -> Option<Value>, op: BinaryOp, v: Value, right: Expr, r: Option<Value>, r': Option<Value>)
    requires IntegerValue(v) && IntegerExpr(names, right)
    requires CppRight(names, op, v, right, r) && CppRight(names, op, v, right, r')
    ensures r == r'
    decreases right, 1
  {
    hide CppBinary, Ranged, IntegerOf, Cpp, IntegerExpr, IntegerValue, Truth;
    if !((op == LogicalOr || op == LogicalAnd) && Truth(v) == (op == LogicalOr)) {
      var t :| Cpp(names, right, t) && CppBoth(op, v, t, r);
      var t' :| Cpp(names, right, t') && CppBoth(op, v, t', r');
      CppUnique(names, right, t, t');
      if t.Some? && op != LogicalOr && op != LogicalAnd { BinaryUnique(op, v, t.value, r, r'); }
    }
  }

  // ---------------------------------------------------------------- the evaluator

  /** Integer expressions have integer kinds, so their kinds always fit. */
  lemma {:induction false} IntegersFit(names: string -> Option<Value>, shapes: string -> Shape, e: Expr)
    requires IntegerExpr(names, e) && Named(names, shapes)
    ensures TypesFit(names, shapes, e) && IntegerLike(TypeOf(shapes, e))
    decreases e
  {
    hide CommonKind, Ranged, FunctionNamed;
    match e
    case Literal(v) =>
    case Name(n) =>
    case Unary(op, x) => IntegersFit(names, shapes, x);
    case Binary(op, l, r) =>
      IntegersFit(names, shapes, l);
      IntegersFit(names, shapes, r);
      BinaryIntegers(op, TypeOf(shapes, l), TypeOf(shapes, r));
    case Call(name, args) =>
      if IsLen(names, name, args) {
        OneTextFits(names, shapes, args);
      } else {
        AllIntegersFit(names, shapes, args);
        CallIntegers(FunctionNamed(name).value, TypesOf(shapes, args));
      }
  }

  lemma OneTextFits(names: string -> Option<Value>, shapes: string -> Shape, args: seq<Expr>)
    requires Named(names, shapes) && |args| == 1 && TextOf(names, args[0]).Some?
    ensures AllTypesFit(names, shapes, args) && TypesOf(shapes, args) == [TextShape]
  {
    assert args[..0] == [];
    assert AllTypesFit(names, shapes, []) && TypesOf(shapes, []) == [];
  }

  lemma {:induction false} AllIntegersFit(names: string -> Option<Value>, shapes: string -> Shape, es: seq<Expr>)
    requires IntegerExprs(names, es) && Named(names, shapes)
    ensures AllTypesFit(names, shapes, es) && |TypesOf(shapes, es)| == |es|
    ensures forall i :: 0 <= i < |es| ==> IntegerLike(TypesOf(shapes, es)[i])
    decreases es
  {
    hide IntegerExpr, TypesFit, TypeOf, IntegerLike, Named;
    if es != [] {
      AllIntegersFit(names, shapes, es[..|es| - 1]);
      IntegersFit(names, shapes, es[|es| - 1]);
    }
  }

  lemma CallIntegers(f: Function, ss: seq<Shape>)
    requires IntegerFunction(f, |ss|) && forall i :: 0 <= i < |ss| ==> IntegerLike(ss[i])
    ensures FunctionFits(f, ss) && IntegerLike(FunctionShape(f, ss))
  {
    hide CommonKind;
    if f.MinOf? || f.MaxOf? { FoldIntegers(ss); }
    hide KindOfShapes;
  }

  lemma {:induction false} FoldIntegers(ss: seq<Shape>)
    requires ss != [] && forall i :: 0 <= i < |ss| ==> IntegerLike(ss[i])
    ensures KindOfShapes(ss).Whole?
  {
    if |ss| > 1 { FoldIntegers(ss[..|ss| - 1]); }
  }

  lemma BinaryIntegers(op: BinaryOp, a: Shape, b: Shape)
    requires IntegerLike(a) && IntegerLike(b)
    ensures BinaryFits(op, a, b) && (op != LogicalOr && op != LogicalAnd ==> IntegerLike(BinaryShape(op, a, b)))
  {
    hide CommonKind;
  }

  lemma IntegerIs(v: Value)
    requires IntegerValue(v)
    ensures AsInteger(v).Some? && v.Text? == false
    ensures Ranged(v) ==> InRange(IntegerOf(v).0, IntegerOf(v).1)
  {
    if Ranged(v) { BoolRanged(v); }
    hide InRange;
  }

  lemma TruthIs(fp: FloatUnit, v: Value)
    requires IntegerValue(v) && Ranged(v)
    ensures AsBool(fp, v) == Some(Truth(v))
  {
    if v.Number? { OperandConverts(v.v, v.numeric.kind, v.numeric.kind); }
    hide Convert, InRange, CommonKind;
  }

  lemma UnaryAgrees(fp: FloatUnit, op: UnaryOp, v: Value)
    requires IntegerValue(v) && Ranged(v)
    ensures CppUnary(op, v, ApplyUnary(fp, op, v)) && IsIntegerResult(ApplyUnary(fp, op, v))
  {
    IntegerIs(v);
    UnaryRanged(fp, op, v);
    hide Ranged, Converts, Bit, InRange, Width, AsInteger, Signed;
    if op.Not? { TruthIs(fp, v); } else { UnaryIsCpp(fp, op, v, IntegerOf(v).0, IntegerOf(v).1); }
    UnaryKind(fp, op, v);
    hide ApplyUnary;
  }

  ghost predicate IsIntegerResult(r: Option<Value>) { r.Some? ==> IntegerValue(r.value) && Ranged(r.value) }

  lemma UnaryKind(fp: FloatUnit, op: UnaryOp, v: Value)
    requires IntegerValue(v)
    ensures ApplyUnary(fp, op, v).Some? ==> IntegerValue(ApplyUnary(fp, op, v).value)
  {
    hide Normalize, Complement, InRange;
  }

  lemma BinaryAgrees(fp: FloatUnit, op: BinaryOp, v: Value, w: Value)
    requires op != LogicalOr && op != LogicalAnd && IntegerValue(v) && IntegerValue(w) && Ranged(v) && Ranged(w)
    ensures CppBinary(op, v, w, ApplyBinary(fp, op, v, w, true)) && IsIntegerResult(ApplyBinary(fp, op, v, w, true))
  {
    IntegerIs(v);
    IntegerIs(w);
    hide ApplyBinary, Ranged, Converts, InRange, AsInteger, CppResult, CommonKind, FromBits;
    BinaryRanged(fp, op, v, w, true);
    var (a, m) := IntegerOf(v);
    var (b, n) := IntegerOf(w);
    OperatorIsCpp(fp, op, v, w, a, m, b, n);
    FromBitsConverts(a, CommonKind(m, n));
    FromBitsConverts(b, CommonKind(m, n));
    BinaryKind(fp, op, v, w);
  }

  lemma BinaryKind(fp: FloatUnit, op: BinaryOp, v: Value, w: Value)
    requires op != LogicalOr && op != LogicalAnd && IntegerValue(v) && IntegerValue(w)
    ensures ApplyBinary(fp, op, v, w, true).Some? ==> IntegerValue(ApplyBinary(fp, op, v, w, true).value)
  {
    BinaryTyped(fp, op, v, w, true);
    IntegerShape(v);
    IntegerShape(w);
    BinaryIntegers(op, ShapeOf(v), ShapeOf(w));
    hide ApplyBinary, BinaryShape;
    if ApplyBinary(fp, op, v, w, true).Some? { IntegerShape(ApplyBinary(fp, op, v, w, true).value); }
  }

  lemma IntegerShape(v: Value)
    ensures IntegerValue(v) <==> IntegerLike(ShapeOf(v))
  {
  }

  lemma CastAgrees(fp: FloatUnit, s: Shape, v: Value)
    requires IntegerValue(v) && Ranged(v) && (s.BoolShape? || (s.NumberShape? && s.numeric.Whole?))
    ensures CppCast(s, v, CastTo(fp, s, v)) && IsIntegerResult(CastTo(fp, s, v)) && CastTo(fp, s, v).Some?
  {
    IntegerIs(v);
    CastRanged(fp, s, v);
    hide Ranged, Converts, InRange, AsInteger;
    if s.BoolShape? { TruthIs(fp, v); } else { IntegerCastConverts(fp, v, IntegerOf(v).0, IntegerOf(v).1, s.numeric.kind); }
    CastKind(fp, s, v);
    hide CastTo;
  }

  lemma CastKind(fp: FloatUnit, s: Shape, v: Value)
    requires IntegerValue(v) && (s.BoolShape? || (s.NumberShape? && s.numeric.Whole?))
    ensures CastTo(fp, s, v).Some? ==> IntegerValue(CastTo(fp, s, v).value)
    ensures s.BoolShape? ==> CastTo(fp, s, v) == (match AsBool(fp, v) case None => None case Some(b) => Some(Bool(b)))
  {
    hide FromBits, InRange, ConvertNumber, AsBool;
  }

  lemma ArgumentIs(v: Value)
    requires IntegerValue(v) && Ranged(v)
    ensures Argument(v) == Some((IntegerOf(v).0, Whole(IntegerOf(v).1))) && InRange(IntegerOf(v).0, IntegerOf(v).1)
  {
    BoolRanged(v);
    var (a, k) := IntegerOf(v);
    OperandConverts(a, k, k);
    hide Convert, InRange, CommonKind;
  }

  lemma AbsAgrees(fp: FloatUnit, v: Value)
    requires IntegerValue(v) && Ranged(v)
    ensures CppAbs(v, AbsoluteValue(fp, v)) && IsIntegerResult(AbsoluteValue(fp, v))
  {
    ArgumentIs(v);
    AbsoluteFits(IntegerOf(v).0, IntegerOf(v).1);
    hide Argument, InRange, Lowest, Abs, IntegerOf, Signed;
  }

  lemma AbsoluteFits(a: int, k: Kind)
    requires InRange(a, k)
    ensures InRange(Abs(a), k) <==> !(Signed(k) && a == Lowest(k))
  {
    Halves(k);
    hide Pow2;
  }

  ghost predicate RangedIntegers(vs: seq<Value>) { forall i :: 0 <= i < |vs| ==> IntegerValue(vs[i]) && Ranged(vs[i]) }

  lemma {:induction false} KindOfAllIs(vs: seq<Value>)
    requires vs != [] && RangedIntegers(vs) && IntegerValues(vs)
    ensures KindOfAll(vs) == Some(Whole(CommonOf(vs)))
  {
    hide Argument, CommonKind, IntegerOf, Ranged, IntegerValue, InRange;
    var n := |vs| - 1;
    ArgumentIs(vs[n]);
    if n > 0 {
      KindOfAllIs(vs[..n]);
      WholeFold(CommonOf(vs[..n]), IntegerOf(vs[n]).1);
      hide CommonNumeric;
    }
  }

  lemma WholeFold(m: Kind, n: Kind)
    ensures CommonNumeric(Whole(m), Whole(n)) == Whole(CommonKind(m, n))
  {
  }

  /** One argument converts to the common kind, as C++ converts it. */
  lemma ConvertsToCommon(fp: FloatUnit, vs: seq<Value>, i: nat)
    requires i < |vs| && RangedIntegers(vs) && IntegerValues(vs)
    ensures ConvertedTo(fp, vs[i], Whole(CommonOf(vs))).Some?
    ensures Converts(IntegerOf(vs[i]).0, CommonOf(vs), ConvertedTo(fp, vs[i], Whole(CommonOf(vs))).value)
  {
    hide CommonKind, InRange, Converts, Convert, KindOfAll, CommonOf, Argument, Ranged, IntegerValue, IntegerOf;
    KindOfAllIs(vs);
    KindOfAllAbove(vs, i);
    ArgumentIs(vs[i]);
    OperandConverts(IntegerOf(vs[i]).0, IntegerOf(vs[i]).1, CommonOf(vs));
  }

  lemma {:induction false} ExtremeSucceeds(fp: FloatUnit, f: Function, vs: seq<Value>, n: Numeric)
    requires vs != [] && forall i :: 0 <= i < |vs| ==> ConvertedTo(fp, vs[i], n).Some?
    ensures Extreme(fp, f, vs, n).Some?
  {
    hide Argument, ConvertNumber, Better;
    var last := |vs| - 1;
    assert ConvertedTo(fp, vs[last], n).Some?;
    if last > 0 {
      forall i | 0 <= i < last ensures ConvertedTo(fp, vs[..last][i], n).Some? { assert vs[..last][i] == vs[i]; }
      ExtremeSucceeds(fp, f, vs[..last], n);
    }
  }

  lemma ExtremeAgrees(fp: FloatUnit, f: Function, vs: seq<Value>)
    requires (f.MinOf? || f.MaxOf?) && |vs| >= 2 && RangedIntegers(vs) && IntegerValues(vs)
    ensures CppExtreme(f, vs, MinMax(fp, f, vs))
  {
    hide Extreme, KindOfAll, CommonOf, ConvertedTo, Converts, IntegerOf, Ranged, IntegerValue;
    var k := CommonOf(vs);
    KindOfAllIs(vs);
    forall i: nat | i < |vs|
      ensures ConvertedTo(fp, vs[i], Whole(k)).Some? && Converts(IntegerOf(vs[i]).0, k, ConvertedTo(fp, vs[i], Whole(k)).value)
    {
      ConvertsToCommon(fp, vs, i);
    }
    ExtremeSucceeds(fp, f, vs, Whole(k));
    ExtremeIs(fp, f, vs, Whole(k));
    var x := Extreme(fp, f, vs, Whole(k)).value;
    assert MinMax(fp, f, vs) == Some(Number(Whole(k), x));
    forall i: nat, y | i < |vs| && Converts(IntegerOf(vs[i]).0, k, y) ensures if f.MinOf? then x <= y else x >= y {
      ConversionUnique(IntegerOf(vs[i]).0, k, y, ConvertedTo(fp, vs[i], Whole(k)).value);
    }
    var j :| 0 <= j < |vs| && ConvertedTo(fp, vs[j], Whole(k)) == Some(x);
    assert Converts(IntegerOf(vs[j]).0, k, x);
  }

  lemma CallAgrees(fp: FloatUnit, f: Function, vs: seq<Value>)
    requires IntegerFunction(f, |vs|) && RangedIntegers(vs) && IntegerValues(vs)
    ensures CppCall(f, vs, ApplyFunction(fp, f, vs)) && IsIntegerResult(ApplyFunction(fp, f, vs))
  {
    hide CppCast, CppAbs, CppExtreme, CastTo, AbsoluteValue, MinMax, Ranged, IntegerValue;
    if f.Cast? {
      CastAgrees(fp, f.target, vs[0]);
    } else if f.AbsOf? {
      AbsAgrees(fp, vs[0]);
    } else {
      ExtremeAgrees(fp, f, vs);
      MinMaxRanged(fp, f, vs);
      ExtremeIsInteger(f, vs, MinMax(fp, f, vs));
    }
  }

  lemma ExtremeIsInteger(f: Function, vs: seq<Value>, r: Option<Value>)
    requires vs != [] && IntegerValues(vs) && CppExtreme(f, vs, r)
    ensures r.Some? && IntegerValue(r.value)
  {
  }

  // ---------------------------------------------------------------- whole expressions

  /** With short circuits that do not look, evaluation of an integer expression is its meaning in C++.  In particular there
      is one. */
  lemma {:induction false} LazyIsCpp(fp: FloatUnit, names: string -> Option<Value>, e: Expr)
    requires IntegerExpr(names, e)
    ensures Cpp(names, e, Lazy(fp, names, e))
    decreases e, 0
  {
    hide Ranged, ApplyUnary, CppUnary, CppCall, IntegerValue, LazyRight, CppRight, LazyAll, CppAll, FunctionNamed, ApplyFunction,
         IntegerFunction;
    match e
    case Literal(v) =>
    case Name(n) =>
    case Unary(op, x) =>
      LazyIsCpp(fp, names, x);
      var s := Lazy(fp, names, x);
      if s.Some? { UnaryAgrees(fp, op, s.value); }
    case Binary(op, l, r) =>
      LazyIsCpp(fp, names, l);
      var s := Lazy(fp, names, l);
      if s.Some? { RightIsCpp(fp, names, op, s.value, r); }
    case Call(name, args) =>
      if IsLen(names, name, args) { LenAgrees(fp, names, args); } else { CallIsCpp(fp, names, FunctionNamed(name).value, args); }
  }

  lemma LenAgrees(fp: FloatUnit, names: string -> Option<Value>, args: seq<Expr>)
    requires |args| == 1 && TextOf(names, args[0]).Some? && |TextOf(names, args[0]).value| < 0x1_0000_0000
    ensures var s := TextOf(names, args[0]).value;
      && LazyAll(fp, names, args) == Some([Text(s)])
      && ApplyFunction(fp, Len, [Text(s)]) == Some(Number(Whole(U32), |s|))
      && IsIntegerResult(Some(Number(Whole(U32), |s|)))
  {
    assert args[..|args| - 1] == [] && |args| - 1 == 0;
    assert LazyAll(fp, names, args[..|args| - 1]) == Some([]);
    assert Lazy(fp, names, args[0]) == Some(Text(TextOf(names, args[0]).value));
    var none: seq<Value> := [];
    assert none + [Text(TextOf(names, args[0]).value)] == [Text(TextOf(names, args[0]).value)];
    LenRanged(TextOf(names, args[0]).value);
    hide InRange;
  }

  lemma {:induction false} CallIsCpp(fp: FloatUnit, names: string -> Option<Value>, f: Function, args: seq<Expr>)
    requires IntegerFunction(f, |args|) && IntegerExprs(names, args)
    ensures var ss := LazyAll(fp, names, args);
            var r := match ss case None => None case Some(vs) => ApplyFunction(fp, f, vs);
            CppAll(names, args, ss) && CppCalled(f, |args|, ss, r) && IsIntegerResult(r)
    decreases args, 1
  {
    AllAreCpp(fp, names, args);
    hide LazyAll, CppAll, IntegerExprs, ApplyFunction, CppCall, IntegerFunction, IntegerValue, Ranged;
    var ss := LazyAll(fp, names, args);
    if ss.Some? { CallAgrees(fp, f, ss.value); }
  }

  lemma {:induction false} AllAreCpp(fp: FloatUnit, names: string -> Option<Value>, es: seq<Expr>)
    requires IntegerExprs(names, es)
    ensures CppAll(names, es, LazyAll(fp, names, es))
    ensures LazyAll(fp, names, es).Some? ==>
              var vs := LazyAll(fp, names, es).value; |vs| == |es| && RangedIntegers(vs) && IntegerValues(vs)
    decreases es, 0
  {
    hide Cpp, Lazy, IntegerExpr, Ranged, IntegerValue;
    if es != [] {
      var init, last := es[..|es| - 1], es[|es| - 1];
      AllAreCpp(fp, names, init);
      LazyIsCpp(fp, names, last);
      MeansInteger(names, last, Lazy(fp, names, last));
      var ts := LazyAll(fp, names, init);
      if ts.Some? { assert LazyAll(fp, names, es) == Extended(ts.value, Lazy(fp, names, last)); }
    }
  }

  lemma {:induction false} RightIsCpp(fp: FloatUnit, names: string -> Option<Value>, op: BinaryOp, v: Value, right: Expr)
    requires IntegerExpr(names, right) && IntegerValue(v) && Ranged(v)
    ensures CppRight(names, op, v, right, LazyRight(fp, names, op, v, right)) && IsIntegerResult(LazyRight(fp, names, op, v, right))
    decreases right, 1
  {
    LazyIsCpp(fp, names, right);
    hide IntegerExpr, CppRight, LazyRight, Lazy, Cpp, IntegerValue;
    if op == LogicalOr || op == LogicalAnd {
      LogicalAgrees(fp, names, op, v, right);
    } else {
      OperatorAgrees(fp, names, op, v, right);
    }
  }

  lemma MeansInteger(names: string -> Option<Value>, e: Expr, r: Option<Value>)
    requires IntegerExpr(names, e) && Cpp(names, e, r)
    ensures IsIntegerResult(r)
  {
  }

  lemma LogicalAgrees(fp: FloatUnit, names: string -> Option<Value>, op: BinaryOp, v: Value, right: Expr)
    requires (op == LogicalOr || op == LogicalAnd) && IntegerExpr(names, right) && IntegerValue(v) && Ranged(v)
    requires Cpp(names, right, Lazy(fp, names, right))
    ensures CppRight(names, op, v, right, LazyRight(fp, names, op, v, right))
    ensures IsIntegerResult(LazyRight(fp, names, op, v, right))
  {
    var t := Lazy(fp, names, right);
    MeansInteger(names, right, t);
    hide Lazy, AsBool, Truth, Cpp, IntegerExpr, IntegerValue, Ranged;
    TruthIs(fp, v);
    if t.Some? { TruthIs(fp, t.value); }
    BoolsAreIntegers();
  }

  lemma BoolsAreIntegers()
    ensures forall b :: IntegerValue(Bool(b)) && Ranged(Bool(b))
  {
  }

  lemma RightIs(fp: FloatUnit, names: string -> Option<Value>, op: BinaryOp, v: Value, right: Expr)
    requires op != LogicalOr && op != LogicalAnd
    ensures LazyRight(fp, names, op, v, right) ==
              match Lazy(fp, names, right) case None => None case Some(y) => ApplyBinary(fp, op, v, y, true)
  {
    hide Lazy, ApplyBinary;
  }

  lemma IntegerResult(t: Option<Value>)
    requires IsIntegerResult(t) && t.Some?
    ensures IntegerValue(t.value) && Ranged(t.value)
  {
  }

  lemma NoResult()
    ensures IsIntegerResult(None)
  {
  }

  lemma BothAre(names: string -> Option<Value>, op: BinaryOp, v: Value, right: Expr, t: Option<Value>, r: Option<Value>)
    requires op != LogicalOr && op != LogicalAnd && IntegerExpr(names, right) && IntegerValue(v) && Cpp(names, right, t)
    requires if t.None? then r.None? else IntegerValue(t.value) && CppBinary(op, v, t.value, r)
    ensures CppRight(names, op, v, right, r)
  {
    hide Cpp, IntegerExpr, IntegerValue, CppBinary;
    assert CppBoth(op, v, t, r);
  }

  lemma OperatorAgrees(fp: FloatUnit, names: string -> Option<Value>, op: BinaryOp, v: Value, right: Expr)
    requires op != LogicalOr && op != LogicalAnd && IntegerExpr(names, right) && IntegerValue(v) && Ranged(v)
    requires Cpp(names, right, Lazy(fp, names, right))
    ensures CppRight(names, op, v, right, LazyRight(fp, names, op, v, right))
    ensures IsIntegerResult(LazyRight(fp, names, op, v, right))
  {
    var t := Lazy(fp, names, right);
    MeansInteger(names, right, t);
    hide *;
    RightIs(fp, names, op, v, right);
    if t.Some? {
      IntegerResult(t);
      BinaryAgrees(fp, op, v, t.value);
      BothAre(names, op, v, right, t, ApplyBinary(fp, op, v, t.value, true));
    } else {
      BothAre(names, op, v, right, t, None);
      NoResult();
    }
  }

  /** The evaluator returns the meaning in C++ of every integer expression, and an error exactly where that is undefined or
      where evaluation trips over an operand that C++ does not look at. */
  lemma EvaluationIsCpp(fp: FloatUnit, names: string -> Option<Value>, e: Expr, r: Option<Value>)
    requires IntegerExpr(names, e) && Cpp(names, e, r)
    ensures Eval(fp, names, e, true) == if Trips(fp, names, e) then None else r
  {
    hide *;
    LazyIsCpp(fp, names, e);
    CppUnique(names, e, r, Lazy(fp, names, e));
    EvaluationIsLazy(fp, names, e);
  }

  /** Whatever value the evaluator produces is the one of C++. */
  lemma EveryValueIsCpp(fp: FloatUnit, names: string -> Option<Value>, e: Expr)
    requires IntegerExpr(names, e)
    ensures Eval(fp, names, e, true).Some? || !Trips(fp, names, e) ==> Cpp(names, e, Eval(fp, names, e, true))
  {
    hide *;
    LazyIsCpp(fp, names, e);
    EvaluationIsLazy(fp, names, e);
  }

  /** With steady right operands there is nothing to trip over. */
  lemma SteadyEvaluationIsCpp(fp: FloatUnit, zero: int -> bool, names: string -> Option<Value>, shapes: string -> Shape, e: Expr)
    requires Zeros(fp, zero) && Named(names, shapes) && IntegerExpr(names, e) && SteadyRights(shapes, e)
    ensures Cpp(names, e, Eval(fp, names, e, true))
  {
    hide *;
    IntegersFit(names, shapes, e);
    SteadyIsUnspoiled(fp, zero, names, shapes, e);
    SameKindsSame(names);
    UnspoiledNeverTrips(fp, names, names, e);
    EveryValueIsCpp(fp, names, e);
  }

  lemma SameKindsSame(names: string -> Option<Value>)
    ensures SameKinds(names, names)
  {
  }

  // ---------------------------------------------------------------- spoiling an integer expression

  /** An integer operand spoils exactly when it has no value in type-only mode. */
  lemma IntegerSpoils(fp: FloatUnit, names: string -> Option<Value>, r: Expr)
    requires IntegerExpr(names, r)
    ensures Spoils(fp, names, r) <==> Eval(fp, names, r, false).None?
  {
    if Eval(fp, names, r, false).Some? {
      var shapes := n => match names(n) case None => BoolShape case Some(v) => ShapeOf(v);
      KindsAreStatic(fp, names, shapes, r, false);
      IntegersFit(names, shapes, r);
      TypeOnlyRanged(fp, names, r);
      hide IntegerExpr, Eval, TypeOf, TypesFit, Ranged, AsBool;
      IntegerShape(Eval(fp, names, r, false).value);
      TruthIs(fp, Eval(fp, names, r, false).value);
    }
  }

  lemma {:induction false} TypeOnlyRanged(fp: FloatUnit, names: string -> Option<Value>, e: Expr)
    requires IntegerExpr(names, e) && Eval(fp, names, e, false).Some?
    ensures Ranged(Eval(fp, names, e, false).value)
    decreases e
  {
    hide ApplyUnary, ApplyBinary, TypeFunction, AsBool, FunctionNamed, IntegerValue, IntegerFunction, Ranged;
    match e
    case Literal(v) => PlaceholderRanged(v);
    case Name(n) => PlaceholderRanged(names(n).value);
    case Unary(op, x) => UnaryRanged(fp, op, Eval(fp, names, x, false).value);
    case Binary(op, l, r) =>
      if op == LogicalOr || op == LogicalAnd {
        BoolsAreIntegers();
      } else {
        TypeOnlyRanged(fp, names, l);
        TypeOnlyRanged(fp, names, r);
        BinaryRanged(fp, op, Eval(fp, names, l, false).value, Eval(fp, names, r, false).value, false);
      }
    case Call(name, args) =>
      if IsLen(names, name, args) { OneTextTyped(fp, names, args); } else { AllTypeOnlyRanged(fp, names, args); }
      FunctionRanged(fp, FunctionNamed(name).value, EvalAll(fp, names, args, false).value, false);
  }

  lemma PlaceholderRanged(v: Value)
    ensures Ranged(Placeholder(v))
  {
    if v.Number? { ZeroRanged(v.numeric); }
  }

  lemma OneTextTyped(fp: FloatUnit, names: string -> Option<Value>, args: seq<Expr>)
    requires |args| == 1 && TextOf(names, args[0]).Some?
    ensures EvalAll(fp, names, args, false) == Some([Text("")]) && Ranged(Text(""))
  {
    assert args[..|args| - 1] == [] && |args| - 1 == 0;
    assert EvalAll(fp, names, args[..|args| - 1], false) == Some([]);
    assert Eval(fp, names, args[0], false) == Some(Text(""));
    var none: seq<Value> := [];
    assert none + [Text("")] == [Text("")];
  }

  lemma {:induction false} AllTypeOnlyRanged(fp: FloatUnit, names: string -> Option<Value>, es: seq<Expr>)
    requires IntegerExprs(names, es) && EvalAll(fp, names, es, false).Some?
    ensures forall i :: 0 <= i < |EvalAll(fp, names, es, false).value| ==>
              var v := EvalAll(fp, names, es, false).value[i]; Ranged(v) && !v.Text?
    decreases es
  {
    hide Ranged, Eval, IntegerExpr;
    if es != [] {
      AllTypeOnlyRanged(fp, names, es[..|es| - 1]);
      TypeOnlyRanged(fp, names, es[|es| - 1]);
      TypeOnlyNoText(fp, names, es[|es| - 1]);
    }
  }

  lemma TypeOnlyNoText(fp: FloatUnit, names: string -> Option<Value>, e: Expr)
    requires IntegerExpr(names, e) && Eval(fp, names, e, false).Some?
    ensures !Eval(fp, names, e, false).value.Text?
  {
    var shapes := n => match names(n) case None => BoolShape case Some(v) => ShapeOf(v);
    KindsAreStatic(fp, names, shapes, e, false);
    IntegersFit(names, shapes, e);
    hide IntegerExpr, Eval, TypeOf, TypesFit;
    IntegerShape(Eval(fp, names, e, false).value);
  }
}
