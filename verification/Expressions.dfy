/** The typed values of constant expressions and the meaning of every operator and function.

    Floating-point values are opaque codes and their operations are parameters (`FloatUnit`); what is
    modelled exactly is which kind every result has, and every integer operation. */
module Expressions {
  import opened IntegerKinds
  import opened Options
  import opened Powers

  datatype Numeric = Whole(kind: Kind) | F32 | F64

  datatype Value = Bool(b: bool) | Text(s: string) | Number(numeric: Numeric, v: int)

  datatype Shape = BoolShape | TextShape | NumberShape(numeric: Numeric)

  datatype BinaryOp = LogicalOr | LogicalAnd | BitOr | BitXor | BitAnd | Equal | NotEqual | Less | LessEqual | Greater | GreaterEqual |
                      ShiftLeft | ShiftRight | Add | Subtract | Multiply | Divide_ | Modulo

  datatype UnaryOp = Not | Invert | Plus | Minus

  datatype Function = Cast(target: Shape) | Len | Substr | StartsWith | Pow | AbsOf | MinOf | MaxOf | RealOf(name: string)

  datatype Expr =
    | Literal(value: Value)
    | Name(name: string)
    | Unary(uop: UnaryOp, operand: Expr)
    | Binary(bop: BinaryOp, left: Expr, right: Expr)
    | Call(function_: string, args: seq<Expr>)

  /** Binary64 arithmetic.  `settle` rounds to the kind and fails when the result is not finite. */
  datatype FloatUnit = FloatUnit(
    arithmetic: (BinaryOp, int, int) -> int,
    negate: int -> int,
    settle: (Numeric, int) -> Option<int>,
    ofInteger: (Numeric, int) -> Option<int>,
    before: (int, int) -> bool,
    same: (int, int) -> bool,
    truncate: int -> int,
    apply: (Function, Numeric, seq<int>) -> Option<int>,
    text: (Numeric, int) -> string)

  const ZERO := 0

  function ShapeOf(v: Value): Shape {
    match v
    case Bool(_) => BoolShape
    case Text(_) => TextShape
    case Number(n, _) => NumberShape(n)
  }

  /** _type_only_value. */
  function Placeholder(v: Value): Value {
    match v
    case Bool(_) => Bool(false)
    case Text(_) => Text("")
    case Number(n, _) => Number(n, ZERO)
  }

  // ---------------------------------------------------------------- numbers

  /** _expect_numeric with _typed_numeric_kind: a bool counts as an int32. */
  function AsNumber(v: Value): Option<(int, Numeric)> {
    match v
    case Bool(b) => Some((if b then 1 else 0, Whole(I32)))
    case Text(_) => None
    case Number(n, x) => Some((x, n))
  }

  /** _expect_integral. */
  function AsInteger(v: Value): Option<(int, Kind)> {
    match AsNumber(v)
    case Some((x, Whole(k))) => Some((x, k))
    case _ => None
  }

  /** _common_numeric_kind on two kinds. */
  function CommonNumeric(a: Numeric, b: Numeric): Numeric {
    if a.F64? || b.F64? then F64
    else if a.F32? || b.F32? then F32
    else Whole(CommonKind(a.kind, b.kind))
  }

  /** _convert_numeric_value. */
  function ConvertNumber(fp: FloatUnit, x: int, source: Numeric, target: Numeric): Option<int> {
    match source
    case Whole(s) =>
      if target.Whole? then Convert(x, s, target.kind)
      else (match Convert(x, s, s) case None => None case Some(y) => fp.ofInteger(target, y))
    case _ => if target.Whole? then None else if target.F64? then Some(x) else fp.settle(F32, x)
  }

  /** _numeric_value: a finished number of a known kind. */
  function Finish(fp: FloatUnit, x: int, n: Numeric): Option<Value> {
    if n.Whole? then Some(Number(n, x))
    else (match fp.settle(n, x) case None => None case Some(y) => Some(Number(n, y)))
  }

  /** _numeric_operands. */
  function Operands(fp: FloatUnit, l: Value, r: Value): Option<(int, int, Numeric)> {
    match (AsNumber(l), AsNumber(r))
    case (Some((x, m)), Some((y, n))) =>
      var k := CommonNumeric(m, n);
      (match (ConvertNumber(fp, x, m, k), ConvertNumber(fp, y, n, k))
       case (Some(a), Some(b)) => Some((a, b, k))
       case _ => None)
    case _ => None
  }

  /** _expect_bool. */
  function AsBool(fp: FloatUnit, v: Value): Option<bool> {
    match v
    case Bool(b) => Some(b)
    case Text(_) => None
    case Number(n, x) =>
      (match ConvertNumber(fp, x, n, n)
       case None => None
       case Some(y) => Some(if n.Whole? then y != 0 else !fp.same(y, ZERO)))
  }

  /** _normalize_numeric_result followed by _numeric_value. */
  function Normalized(fp: FloatUnit, x: int, n: Numeric): Option<Value> {
    if n.Whole? then (match Normalize(x, n.kind) case None => None case Some(y) => Some(Number(n, y)))
    else Finish(fp, x, n)
  }

  // ---------------------------------------------------------------- operators

  function ApplyUnary(fp: FloatUnit, op: UnaryOp, v: Value): Option<Value> {
    match op
    case Not => (match AsBool(fp, v) case None => None case Some(b) => Some(Bool(!b)))
    case Invert =>
      (match AsInteger(v)
       case None => None
       case Some((x, k)) => if Signed(k) && !InRange(x, k) then None else Some(Number(Whole(k), Complement(x, k))))
    case Plus => (match AsNumber(v) case None => None case Some((x, n)) => Normalized(fp, x, n))
    case Minus =>
      (match AsNumber(v) case None => None case Some((x, n)) => Normalized(fp, if n.Whole? then -x else fp.negate(x), n))
  }

  function Exact(op: BinaryOp, x: int, y: int): int {
    if op == Add then x + y else if op == Subtract then x - y else x * y
  }

  function ApplyArithmetic(fp: FloatUnit, op: BinaryOp, l: Value, r: Value): Option<Value> {
    match Operands(fp, l, r)
    case None => None
    case Some((x, y, n)) => Normalized(fp, if n.Whole? then Exact(op, x, y) else fp.arithmetic(op, x, y), n)
  }

  /** Division and remainder; an operand that is not evaluated only yields its kind. */
  function ApplyDivision(fp: FloatUnit, op: BinaryOp, l: Value, r: Value, evaluate: bool): Option<Value> {
    match Operands(fp, l, r)
    case None => None
    case Some((x, y, n)) =>
      if op == Modulo && !n.Whole? then None
      else if !evaluate then Some(Number(n, ZERO))
      else if n.Whole? then
        (match if op == Divide_ then Divide(x, y, n.kind) else Remainder(x, y, n.kind)
         case None => None
         case Some(q) => Some(Number(n, q)))
      else if fp.same(y, ZERO) then None
      else Finish(fp, fp.arithmetic(op, x, y), n)
  }

  function BitsOf(op: BinaryOp): BitOp { if op == BitOr then Or else if op == BitXor then Xor else And }

  function ApplyBits(op: BinaryOp, l: Value, r: Value): Option<Value> {
    match (AsInteger(l), AsInteger(r))
    case (Some((x, m)), Some((y, n))) =>
      var k := CommonKind(m, n);
      (match (Convert(x, m, k), Convert(y, n, k))
       case (Some(a), Some(b)) => Some(Number(Whole(k), BitwiseBinary(BitsOf(op), a, b, k)))
       case _ => None)
    case _ => None
  }

  function ApplyShift(op: BinaryOp, l: Value, r: Value): Option<Value> {
    match (AsInteger(l), AsInteger(r))
    case (Some((x, k)), Some((y, n))) =>
      (match (Convert(x, k, k), Convert(y, n, n))
       case (Some(a), Some(count)) =>
         (match Shift(op == ShiftLeft, a, count, k) case None => None case Some(s) => Some(Number(Whole(k), s)))
       case _ => None)
    case _ => None
  }

  function Compares(fp: FloatUnit, op: BinaryOp, x: int, y: int, n: Numeric): bool {
    var below, above, same :=
      if n.Whole? then x < y else fp.before(x, y), if n.Whole? then y < x else fp.before(y, x), if n.Whole? then x == y else fp.same(x, y);
    match op
    case Less => below
    case LessEqual => below || same
    case Greater => above
    case GreaterEqual => above || same
    case NotEqual => !same
    case _ => same
  }

  function ApplyComparison(fp: FloatUnit, op: BinaryOp, l: Value, r: Value): Option<Value> {
    if (op == Equal || op == NotEqual) && (l.Text? || r.Text?) then
      if l.Text? && r.Text? then Some(Bool((l.s == r.s) == (op == Equal))) else None
    else
      match Operands(fp, l, r)
      case None => None
      case Some((x, y, n)) => Some(Bool(Compares(fp, op, x, y, n)))
  }

  /** Every binary operator except the two that decide whether their right operand is evaluated. */
  function ApplyBinary(fp: FloatUnit, op: BinaryOp, l: Value, r: Value, evaluate: bool): Option<Value>
    requires op != LogicalOr && op != LogicalAnd
  {
    match op
    case Add => if l.Text? && r.Text? then Some(Text(l.s + r.s)) else ApplyArithmetic(fp, op, l, r)
    case Subtract => ApplyArithmetic(fp, op, l, r)
    case Multiply => ApplyArithmetic(fp, op, l, r)
    case Divide_ => ApplyDivision(fp, op, l, r, evaluate)
    case Modulo => ApplyDivision(fp, op, l, r, evaluate)
    case BitOr => ApplyBits(op, l, r)
    case BitXor => ApplyBits(op, l, r)
    case BitAnd => ApplyBits(op, l, r)
    case ShiftLeft => ApplyShift(op, l, r)
    case ShiftRight => ApplyShift(op, l, r)
    case _ => ApplyComparison(fp, op, l, r)
  }

  // ---------------------------------------------------------------- functions

  function FunctionNamed(name: string): Option<Function> {
    if name == "bool" then Some(Cast(BoolShape))
    else if name == "i32" then Some(Cast(NumberShape(Whole(I32))))
    else if name == "u32" then Some(Cast(NumberShape(Whole(U32))))
    else if name == "i64" then Some(Cast(NumberShape(Whole(I64))))
    else if name == "u64" then Some(Cast(NumberShape(Whole(U64))))
    else if name == "f32" then Some(Cast(NumberShape(F32)))
    else if name == "f64" then Some(Cast(NumberShape(F64)))
    else if name == "str" then Some(Cast(TextShape))
    else if name == "len" then Some(Len)
    else if name == "substr" then Some(Substr)
    else if name == "starts_with" then Some(StartsWith)
    else if name == "pow" then Some(Pow)
    else if name == "abs" then Some(AbsOf)
    else if name == "min" then Some(MinOf)
    else if name == "max" then Some(MaxOf)
    else if name in ["sqrt", "exp", "log", "log2", "log10", "ceil", "floor", "trunc", "round"] then Some(RealOf(name))
    else None
  }

  /** _function_numeric_argument. */
  function Argument(v: Value): Option<(int, Numeric)> {
    match AsNumber(v)
    case None => None
    case Some((x, n)) =>
      if !n.Whole? then Some((x, n))
      else (match Convert(x, n.kind, n.kind) case None => None case Some(y) => Some((y, n)))
  }

  /** The kind in which sqrt, ceil and the like work. */
  function RealKind(n: Numeric): Numeric { if n.F32? then F32 else F64 }

  function Real(fp: FloatUnit, f: Function, x: int, n: Numeric): Option<Value> {
    match ConvertNumber(fp, x, n, RealKind(n))
    case None => None
    case Some(y) => (match fp.apply(f, RealKind(n), [y]) case None => None case Some(z) => Finish(fp, z, RealKind(n)))
  }

  function Power(fp: FloatUnit, a: Value, b: Value): Option<Value> {
    match (Argument(a), Argument(b))
    case (Some((x, m)), Some((y, n))) =>
      (match (ConvertNumber(fp, x, m, F64), ConvertNumber(fp, y, n, F64))
       case (Some(p), Some(q)) => (match fp.apply(Pow, F64, [p, q]) case None => None case Some(z) => Finish(fp, z, F64))
       case _ => None)
    case _ => None
  }

  /** _evaluate_abs. */
  function AbsoluteValue(fp: FloatUnit, v: Value): Option<Value> {
    match Argument(v)
    case None => None
    case Some((x, n)) =>
      if n.Whole? then (if Signed(n.kind) && x == Lowest(n.kind) then None else Some(Number(n, Abs(x))))
      else (match fp.apply(AbsOf, n, [x]) case None => None case Some(y) => Finish(fp, y, n))
  }

  /** The common kind of the arguments, folded from the left. */
  function KindOfAll(vs: seq<Value>): Option<Numeric>
    requires vs != []
  {
    match Argument(vs[|vs| - 1])
    case None => None
    case Some((_, n)) =>
      if |vs| == 1 then Some(n)
      else (match KindOfAll(vs[..|vs| - 1]) case None => None case Some(m) => Some(CommonNumeric(m, n)))
  }

  function Better(fp: FloatUnit, f: Function, n: Numeric, candidate: int, best: int): bool {
    if f.MinOf? then (if n.Whole? then candidate < best else fp.before(candidate, best))
    else if n.Whole? then candidate > best else fp.before(best, candidate)
  }

  function Extreme(fp: FloatUnit, f: Function, vs: seq<Value>, n: Numeric): Option<int>
    requires vs != []
  {
    match Argument(vs[|vs| - 1])
    case None => None
    case Some((x, m)) =>
      (match ConvertNumber(fp, x, m, n)
       case None => None
       case Some(y) =>
         if |vs| == 1 then Some(y)
         else (match Extreme(fp, f, vs[..|vs| - 1], n)
               case None => None
               case Some(best) => Some(if Better(fp, f, n, y, best) then y else best)))
  }

  /** _evaluate_min_max. */
  function MinMax(fp: FloatUnit, f: Function, vs: seq<Value>): Option<Value> {
    if |vs| < 2 then None
    else
      match KindOfAll(vs)
      case None => None
      case Some(n) => (match Extreme(fp, f, vs, n) case None => None case Some(x) => Finish(fp, x, n))
  }

  /** _coerce_expression_value to uint32. */
  function AsCount(fp: FloatUnit, v: Value): Option<nat> {
    match v
    case Number(n, x) =>
      (match if n.Whole? then Convert(x, n.kind, n.kind) else Some(fp.truncate(x))
       case None => None
       case Some(y) => if InRange(y, U32) then Some(if y >= 0 then y else 0) else None)
    case _ => None
  }

  function Slice(s: string, start: nat, count: nat): string {
    var lo := if start < |s| then start else |s|;
    s[lo..if lo + count < |s| then lo + count else |s|]
  }

  function Decimal(x: nat): string
    decreases x
  {
    (if x < 10 then "" else Decimal(x / 10)) + [(x % 10) as char + '0']
  }

  /** _evaluate_scalar_cast. */
  function CastTo(fp: FloatUnit, target: Shape, v: Value): Option<Value> {
    match target
    case TextShape =>
      (match v
       case Text(s) => Some(v)
       case Bool(b) => Some(Text(if b then "true" else "false"))
       case Number(n, x) =>
         (match ConvertNumber(fp, x, n, n)
          case None => None
          case Some(y) => Some(Text(if !n.Whole? then fp.text(n, y) else if y < 0 then "-" + Decimal(-y) else Decimal(y)))))
    case BoolShape => (match AsBool(fp, v) case None => None case Some(b) => Some(Bool(b)))
    case NumberShape(t) =>
      (match AsNumber(v)
       case None => None
       case Some((x, n)) =>
         (match ConvertNumber(fp, x, n, n)
          case None => None
          case Some(y) =>
            if !t.Whole? then
              (match if n.Whole? then fp.ofInteger(t, y) else fp.settle(t, y) case None => None case Some(z) => Finish(fp, z, t))
            else if n.Whole? then Some(Number(t, FromBits(y, t.kind)))
            else if InRange(fp.truncate(y), t.kind) then Some(Number(t, fp.truncate(y)))
            else None))
  }

  /** _evaluate_function. */
  function ApplyFunction(fp: FloatUnit, f: Function, vs: seq<Value>): Option<Value> {
    match f
    case Cast(target) => if |vs| == 1 then CastTo(fp, target, vs[0]) else None
    case Len => if |vs| == 1 && vs[0].Text? then Some(Number(Whole(U32), |vs[0].s|)) else None
    case Substr =>
      if |vs| == 3 && vs[0].Text? then
        (match (AsCount(fp, vs[1]), AsCount(fp, vs[2]))
         case (Some(start), Some(count)) => Some(Text(Slice(vs[0].s, start, count)))
         case _ => None)
      else None
    case StartsWith => if |vs| == 2 && vs[0].Text? && vs[1].Text? then Some(Bool(vs[1].s <= vs[0].s)) else None
    case Pow => if |vs| == 2 then Power(fp, vs[0], vs[1]) else None
    case AbsOf => if |vs| == 1 then AbsoluteValue(fp, vs[0]) else None
    case MinOf => MinMax(fp, f, vs)
    case MaxOf => MinMax(fp, f, vs)
    case RealOf(_) =>
      if |vs| == 1 then (match Argument(vs[0]) case None => None case Some((x, n)) => Real(fp, f, x, n)) else None
  }

  /** _evaluate_function_type: the same functions on arguments that are not evaluated. */
  function TypeFunction(fp: FloatUnit, f: Function, vs: seq<Value>): Option<Value> {
    match f
    case Cast(target) =>
      (match ApplyFunction(fp, f, vs) case None => None case Some(v) => Some(Placeholder(v)))
    case Len => if |vs| == 1 && vs[0].Text? then Some(Number(Whole(U32), ZERO)) else None
    case Substr =>
      if |vs| == 3 && vs[0].Text? && AsCount(fp, vs[1]).Some? && AsCount(fp, vs[2]).Some? then Some(Text("")) else None
    case StartsWith => if |vs| == 2 && vs[0].Text? && vs[1].Text? then Some(Bool(false)) else None
    case Pow => if |vs| == 2 && Argument(vs[0]).Some? && Argument(vs[1]).Some? then Some(Number(F64, ZERO)) else None
    case AbsOf =>
      if |vs| == 1 then (match Argument(vs[0]) case None => None case Some((_, n)) => Some(Number(n, ZERO))) else None
    case MinOf =>
      if |vs| < 2 then None else (match KindOfAll(vs) case None => None case Some(n) => Some(Number(n, ZERO)))
    case MaxOf =>
      if |vs| < 2 then None else (match KindOfAll(vs) case None => None case Some(n) => Some(Number(n, ZERO)))
    case RealOf(_) =>
      if |vs| == 1 then (match Argument(vs[0]) case None => None case Some((_, n)) => Some(Number(RealKind(n), ZERO))) else None
  }

  // ---------------------------------------------------------------- expressions

  /** The value of an expression, or in type-only mode a placeholder of its kind; `None` is an error. */
  function Eval(fp: FloatUnit, names: string -> Option<Value>, e: Expr, evaluate: bool): Option<Value>
    decreases e, 0
  {
    match e
    case Literal(v) => Some(if evaluate then v else Placeholder(v))
    case Name(n) => (match names(n) case None => None case Some(v) => Some(if evaluate then v else Placeholder(v)))
    case Unary(op, x) => (match Eval(fp, names, x, evaluate) case None => None case Some(v) => ApplyUnary(fp, op, v))
    case Binary(op, l, r) =>
      (match Eval(fp, names, l, evaluate) case None => None case Some(x) => EvalRight(fp, names, op, x, r, evaluate))
    case Call(name, args) =>
      (match EvalAll(fp, names, args, evaluate)
       case None => None
       case Some(vs) =>
         (match FunctionNamed(name)
          case None => None
          case Some(f) => if evaluate then ApplyFunction(fp, f, vs) else TypeFunction(fp, f, vs)))
  }

  /** The rest of a binary expression once its left operand has a value: `||` and `&&` may leave the right operand
      unevaluated. */
  function EvalRight(fp: FloatUnit, names: string -> Option<Value>, op: BinaryOp, x: Value, r: Expr, evaluate: bool): Option<Value>
    decreases r, 1
  {
    if op == LogicalOr || op == LogicalAnd then
      match AsBool(fp, x)
      case None => None
      case Some(a) =>
        (match Eval(fp, names, r, evaluate && a == (op == LogicalAnd))
         case None => None
         case Some(y) =>
           (match AsBool(fp, y)
            case None => None
            case Some(b) => Some(Bool(evaluate && if op == LogicalOr then a || b else a && b))))
    else
      match Eval(fp, names, r, evaluate) case None => None case Some(y) => ApplyBinary(fp, op, x, y, evaluate)
  }

  function EvalAll(fp: FloatUnit, names: string -> Option<Value>, es: seq<Expr>, evaluate: bool): Option<seq<Value>>
    decreases es, 0
  {
    if es == [] then Some([])
    else
      match EvalAll(fp, names, es[..|es| - 1], evaluate)
      case None => None
      case Some(vs) =>
        (match Eval(fp, names, es[|es| - 1], evaluate) case None => None case Some(v) => Some(vs + [v]))
  }
}
