/** What every function of constant expressions computes, by the name it is called with. */
module ExpressionFunctions {
  import opened Expressions
  import opened IntegerKinds
  import opened Options
  import opened Powers

  /** The value of calling `name` on the given arguments. */
  ghost function Result(fp: FloatUnit, name: string, vs: seq<Value>): Option<Value> {
    Eval(fp, _ => None, Call(name, Literals(vs)), true)
  }

  ghost function Literals(vs: seq<Value>): seq<Expr> {
    if vs == [] then [] else Literals(vs[..|vs| - 1]) + [Literal(vs[|vs| - 1])]
  }

  lemma {:induction false} LiteralsEvaluate(fp: FloatUnit, names: string -> Option<Value>, vs: seq<Value>)
    ensures EvalAll(fp, names, Literals(vs), true) == Some(vs)
  {
    if vs != [] {
      LiteralsEvaluate(fp, names, vs[..|vs| - 1]);
      assert Literals(vs)[..|vs| - 1] == Literals(vs[..|vs| - 1]) by { LiteralsCount(vs[..|vs| - 1]); }
      assert vs == vs[..|vs| - 1] + [vs[|vs| - 1]];
      LiteralsCount(vs);
    }
  }

  lemma {:induction false} LiteralsCount(vs: seq<Value>)
    ensures |Literals(vs)| == |vs|
  {
    if vs != [] { LiteralsCount(vs[..|vs| - 1]); }
  }

  lemma ResultIs(fp: FloatUnit, name: string, vs: seq<Value>)
    ensures Result(fp, name, vs) ==
            match FunctionNamed(name) case None => None case Some(f) => ApplyFunction(fp, f, vs)
  {
    LiteralsEvaluate(fp, _ => None, vs);
    hide ApplyFunction, TypeFunction, FunctionNamed, Literals;
  }

  lemma ResultOf(fp: FloatUnit, name: string, f: Function, vs: seq<Value>)
    requires FunctionNamed(name) == Some(f)
    ensures Result(fp, name, vs) == ApplyFunction(fp, f, vs)
  {
    ResultIs(fp, name, vs);
  }

  lemma Named()
    ensures FunctionNamed("bool") == Some(Cast(BoolShape)) && FunctionNamed("str") == Some(Cast(TextShape))
    ensures FunctionNamed("i32") == Some(Cast(NumberShape(Whole(I32)))) && FunctionNamed("u32") == Some(Cast(NumberShape(Whole(U32))))
    ensures FunctionNamed("i64") == Some(Cast(NumberShape(Whole(I64)))) && FunctionNamed("u64") == Some(Cast(NumberShape(Whole(U64))))
    ensures FunctionNamed("len") == Some(Len) && FunctionNamed("substr") == Some(Substr) && FunctionNamed("starts_with") == Some(StartsWith)
    ensures FunctionNamed("pow") == Some(Pow) && FunctionNamed("abs") == Some(AbsOf)
    ensures FunctionNamed("min") == Some(MinOf) && FunctionNamed("max") == Some(MaxOf)
  {
    NamedCasts();
    NamedOthers();
    hide FunctionNamed;
  }

  lemma NamedCasts()
    ensures FunctionNamed("bool") == Some(Cast(BoolShape)) && FunctionNamed("str") == Some(Cast(TextShape))
    ensures FunctionNamed("i32") == Some(Cast(NumberShape(Whole(I32)))) && FunctionNamed("u32") == Some(Cast(NumberShape(Whole(U32))))
    ensures FunctionNamed("i64") == Some(Cast(NumberShape(Whole(I64)))) && FunctionNamed("u64") == Some(Cast(NumberShape(Whole(U64))))
  {
  }

  lemma NamedOthers()
    ensures FunctionNamed("len") == Some(Len) && FunctionNamed("substr") == Some(Substr) && FunctionNamed("starts_with") == Some(StartsWith)
    ensures FunctionNamed("pow") == Some(Pow) && FunctionNamed("abs") == Some(AbsOf)
    ensures FunctionNamed("min") == Some(MinOf) && FunctionNamed("max") == Some(MaxOf)
  {
  }

  /** An integer value of kind `k`. */
  function Int(k: Kind, v: int): Value { Number(Whole(k), v) }

  // ---------------------------------------------------------------- the integer kinds by number

  lemma PowersAre()
    ensures Pow2(31) == 0x8000_0000 && Pow2(32) == 0x1_0000_0000
    ensures Pow2(63) == 0x8000_0000_0000_0000 && Pow2(64) == 0x1_0000_0000_0000_0000
  {
    assert Pow2(8) == 256;
    Pow2Add(8, 8);
    Pow2Add(16, 16);
    Pow2Add(32, 32);
  }

  /** The ranges of the four kinds are those of int32_t, uint32_t, int64_t and uint64_t. */
  lemma RangesAre(v: int)
    ensures InRange(v, I32) <==> -0x8000_0000 <= v < 0x8000_0000
    ensures InRange(v, U32) <==> 0 <= v < 0x1_0000_0000
    ensures InRange(v, I64) <==> -0x8000_0000_0000_0000 <= v < 0x8000_0000_0000_0000
    ensures InRange(v, U64) <==> 0 <= v < 0x1_0000_0000_0000_0000
  {
    PowersAre();
    hide Pow2;
  }

  // ---------------------------------------------------------------- strings

  /** `+` puts one string after the other, and `==` and `!=` tell strings apart by their characters. */
  lemma StringOperators(fp: FloatUnit, s: string, t: string)
    ensures var sum := ApplyBinary(fp, Add, Text(s), Text(t), true);
            sum.Some? && sum.value.Text? && |sum.value.s| == |s| + |t| && s <= sum.value.s && sum.value.s[|s|..] == t
    ensures ApplyBinary(fp, Equal, Text(s), Text(t), true) == Some(Bool(s == t))
    ensures ApplyBinary(fp, NotEqual, Text(s), Text(t), true) == Some(Bool(s != t))
  {
    assert (s + t)[|s|..] == t;
  }

  lemma LenMeans(fp: FloatUnit, s: string)
    ensures Result(fp, "len", [Text(s)]) == Some(Int(U32, |s|))
  {
    ResultOf(fp, "len", Len, [Text(s)]);
  }

  lemma StartsWithMeans(fp: FloatUnit, s: string, t: string)
    ensures Result(fp, "starts_with", [Text(s), Text(t)]) == Some(Bool(exists rest :: s == t + rest))
  {
    ResultOf(fp, "starts_with", StartsWith, [Text(s), Text(t)]);
    if t <= s { assert s == t + s[|t|..]; }
  }

  /** substr takes the characters from `start` on, at most `count` of them; positions are uint32 values. */
  lemma SubstrMeans(fp: FloatUnit, s: string, k: Kind, start: int, m: Kind, count: int) returns (part: string)
    requires InRange(start, k) && InRange(count, m)
    ensures 0 <= start < 0x1_0000_0000 && 0 <= count < 0x1_0000_0000 ==>
              && Result(fp, "substr", [Text(s), Int(k, start), Int(m, count)]) == Some(Text(part))
              && |part| == (if start >= |s| then 0 else if count <= |s| - start then count else |s| - start)
              && forall i :: 0 <= i < |part| ==> part[i] == s[start + i]
    ensures !(0 <= start < 0x1_0000_0000 && 0 <= count < 0x1_0000_0000) ==>
              Result(fp, "substr", [Text(s), Int(k, start), Int(m, count)]) == None
  {
    Named();
    hide FunctionNamed, Result, Pow2;
    RangesAre(start);
    RangesAre(count);
    ResultOf(fp, "substr", Substr, [Text(s), Int(k, start), Int(m, count)]);
    OperandConverts(start, k, k);
    OperandConverts(count, m, m);
    hide InRange, Convert;
    part := if start >= 0 && count >= 0 then Slice(s, start, count) else "";
  }

  // ---------------------------------------------------------------- text of a value

  /** The number that a decimal numeral, with or without a minus sign, stands for. */
  function Numeral(t: string): int {
    if t == "" then 0
    else if t[0] == '-' then -Digits(t[1..])
    else Digits(t)
  }

  function Digits(t: string): int {
    if t == "" then 0 else 10 * Digits(t[..|t| - 1]) + (t[|t| - 1] as int - '0' as int)
  }

  lemma LastDigit(x: nat)
    ensures Decimal(x) != "" && Decimal(x)[..|Decimal(x)| - 1] == (if x < 10 then "" else Decimal(x / 10))
    ensures Decimal(x)[|Decimal(x)| - 1] as int == '0' as int + x % 10
  {
    assert (x % 10) as char + '0' == ('0' as int + x % 10) as char;
  }

  lemma {:induction false} DecimalIs(x: nat)
    ensures var t := Decimal(x); t != "" && Digits(t) == x && (forall i :: 0 <= i < |t| ==> '0' <= t[i] <= '9') && (x > 0 ==> t[0] != '0')
  {
    LastDigit(x);
    hide Decimal;
    if x >= 10 { DecimalIs(x / 10); }
    var t := Decimal(x);
    assert forall i :: 0 <= i < |t| - 1 ==> t[i] == t[..|t| - 1][i];
  }

  /** str spells an integer as its shortest numeral, and a bool as the word for it. */
  lemma StrMeans(fp: FloatUnit, k: Kind, v: int, b: bool, s: string) returns (t: string)
    requires InRange(v, k)
    ensures Result(fp, "str", [Int(k, v)]) == Some(Text(t)) && t != "" && Numeral(t) == v
    ensures (v < 0 <==> t[0] == '-') && (t[0] == '0' ==> v == 0 && |t| == 1)
    ensures Result(fp, "str", [Bool(b)]) == Some(Text(if b then "true" else "false"))
    ensures Result(fp, "str", [Text(s)]) == Some(Text(s))
  {
    Named();
    hide *;
    ResultOf(fp, "str", Cast(TextShape), [Int(k, v)]);
    ResultOf(fp, "str", Cast(TextShape), [Bool(b)]);
    ResultOf(fp, "str", Cast(TextShape), [Text(s)]);
    TextOf(fp, k, v, b, s);
    NumeralOf(v);
    t := if v < 0 then "-" + Decimal(-v) else Decimal(v);
  }

  lemma TextOf(fp: FloatUnit, k: Kind, v: int, b: bool, s: string)
    requires InRange(v, k)
    ensures ApplyFunction(fp, Cast(TextShape), [Int(k, v)]) == Some(Text(if v < 0 then "-" + Decimal(-v) else Decimal(v)))
    ensures ApplyFunction(fp, Cast(TextShape), [Bool(b)]) == Some(Text(if b then "true" else "false"))
    ensures ApplyFunction(fp, Cast(TextShape), [Text(s)]) == Some(Text(s))
  {
    OperandConverts(v, k, k);
    hide InRange, Convert, Decimal;
  }

  lemma NumeralOf(v: int)
    ensures var t := if v < 0 then "-" + Decimal(-v) else Decimal(v);
            && t != "" && Numeral(t) == v && (v < 0 <==> t[0] == '-') && (t[0] == '0' ==> v == 0 && |t| == 1)
  {
    DecimalIs(if v < 0 then -v else v);
    assert v < 0 ==> ("-" + Decimal(-v))[1..] == Decimal(-v);
    assert Decimal(0) == "0";
    hide Decimal, Digits;
  }

  // ---------------------------------------------------------------- numbers

  ghost predicate CastsTo(fp: FloatUnit, name: string, k: Kind, v: int, target: Kind) {
    var r := Result(fp, name, [Int(k, v)]);
    r.Some? && r.value.Number? && r.value.numeric == Whole(target) && Converts(v, target, r.value.v)
  }

  lemma IntegerCast(fp: FloatUnit, name: string, k: Kind, v: int, target: Kind)
    requires InRange(v, k) && FunctionNamed(name) == Some(Cast(NumberShape(Whole(target))))
    ensures CastsTo(fp, name, k, v, target)
  {
    ResultOf(fp, name, Cast(NumberShape(Whole(target))), [Int(k, v)]);
    OperandConverts(v, k, k);
    FromBitsConverts(v, target);
    hide FunctionNamed, Result, InRange, Convert, Converts, FromBits;
  }

  /** i32, u32, i64 and u64 convert an integer to the kind they are named after, and bool tells whether it is zero. */
  lemma IntegerCastsMean(fp: FloatUnit, k: Kind, v: int)
    requires InRange(v, k)
    ensures CastsTo(fp, "i32", k, v, I32) && CastsTo(fp, "u32", k, v, U32)
    ensures CastsTo(fp, "i64", k, v, I64) && CastsTo(fp, "u64", k, v, U64)
    ensures Result(fp, "bool", [Int(k, v)]) == Some(Bool(v != 0))
  {
    Named();
    hide FunctionNamed, Result, CastsTo, FromBits;
    ResultOf(fp, "bool", Cast(BoolShape), [Int(k, v)]);
    OperandConverts(v, k, k);
    hide InRange, Convert;
    IntegerCast(fp, "i32", k, v, I32);
    IntegerCast(fp, "u32", k, v, U32);
    IntegerCast(fp, "i64", k, v, I64);
    IntegerCast(fp, "u64", k, v, U64);
  }

  /** A binary64 number is cast to an integer kind by truncation, exactly when the truncated value fits; bool tells whether
      it is zero. */
  lemma RealCastsMean(fp: FloatUnit, x: int)
    ensures forall c :: c in [("i32", I32), ("u32", U32), ("i64", I64), ("u64", U64)] ==>
              Result(fp, c.0, [Number(F64, x)]) ==
                if InRange(fp.truncate(x), c.1) then Some(Int(c.1, fp.truncate(x))) else None
    ensures Result(fp, "bool", [Number(F64, x)]) == Some(Bool(!fp.same(x, 0)))
  {
    Named();
    hide FunctionNamed, Result, Pow2;
    ResultOf(fp, "i32", Cast(NumberShape(Whole(I32))), [Number(F64, x)]);
    ResultOf(fp, "u32", Cast(NumberShape(Whole(U32))), [Number(F64, x)]);
    ResultOf(fp, "i64", Cast(NumberShape(Whole(I64))), [Number(F64, x)]);
    ResultOf(fp, "u64", Cast(NumberShape(Whole(U64))), [Number(F64, x)]);
    ResultOf(fp, "bool", Cast(BoolShape), [Number(F64, x)]);
    hide InRange, Convert, FromBits;
  }

  /** min and max take two arguments or more, and of two integers of one kind give the lesser or the greater; abs leaves out
      the sign and has no value on the least signed integer. */
  lemma ExtremesMean(fp: FloatUnit, k: Kind, x: int, y: int)
    requires InRange(x, k) && InRange(y, k)
    ensures Result(fp, "min", [Int(k, x), Int(k, y)]) == Some(Int(k, if x < y then x else y))
    ensures Result(fp, "max", [Int(k, x), Int(k, y)]) == Some(Int(k, if x < y then y else x))
    ensures forall vs :: |vs| < 2 ==> Result(fp, "min", vs) == None && Result(fp, "max", vs) == None
    ensures Result(fp, "abs", [Int(k, x)]) ==
            if (x == -0x8000_0000 && k.I32?) || (x == -0x8000_0000_0000_0000 && k.I64?) then None else Some(Int(k, if x < 0 then -x else x))
  {
    Named();
    hide FunctionNamed, Result;
    AbsMeans(fp, k, x);
    hide Pow2, InRange, Convert;
    forall vs | |vs| < 2 ensures Result(fp, "min", vs) == None && Result(fp, "max", vs) == None {
      ResultOf(fp, "min", MinOf, vs);
      ResultOf(fp, "max", MaxOf, vs);
    }
    TwoArguments(fp, MinOf, k, x, y);
    TwoArguments(fp, MaxOf, k, x, y);
    ResultOf(fp, "min", MinOf, [Int(k, x), Int(k, y)]);
    ResultOf(fp, "max", MaxOf, [Int(k, x), Int(k, y)]);
    hide MinMax;
  }

  lemma AbsMeans(fp: FloatUnit, k: Kind, x: int)
    requires InRange(x, k)
    ensures Result(fp, "abs", [Int(k, x)]) ==
            if (x == -0x8000_0000 && k.I32?) || (x == -0x8000_0000_0000_0000 && k.I64?) then None else Some(Int(k, if x < 0 then -x else x))
  {
    Named();
    hide FunctionNamed, Result;
    PowersAre();
    OperandConverts(x, k, k);
    ResultOf(fp, "abs", AbsOf, [Int(k, x)]);
    hide Pow2, Convert, InRange;
  }

  lemma TwoArguments(fp: FloatUnit, f: Function, k: Kind, x: int, y: int)
    requires InRange(x, k) && InRange(y, k) && (f == MinOf || f == MaxOf)
    ensures MinMax(fp, f, [Int(k, x), Int(k, y)]) == Some(Int(k, if (x < y) == f.MinOf? then x else y))
  {
    OperandConverts(x, k, k);
    OperandConverts(y, k, k);
    var vs := [Int(k, x), Int(k, y)];
    assert vs[..1] == [Int(k, x)];
    hide InRange, Convert;
    assert CommonKind(k, k) == k;
    assert KindOfAll([Int(k, x)]) == Some(Whole(k)) && KindOfAll(vs) == Some(Whole(k));
    assert Extreme(fp, f, [Int(k, x)], Whole(k)) == Some(x);
  }

  /** A result of the floating-point unit has to settle in its kind. */
  ghost function Settled(fp: FloatUnit, n: Numeric, r: Option<int>): Option<Value> {
    if r.None? || fp.settle(n, r.value).None? then None else Some(Number(n, fp.settle(n, r.value).value))
  }

  /** With a binary64 number among the operands the operators work in binary64; there is no remainder, and no quotient of a
      division by zero. */
  lemma RealOperatorsMean(fp: FloatUnit, x: int, y: int)
    ensures forall op :: op in {Add, Subtract, Multiply} ==>
              && ApplyBinary(fp, op, Number(F64, x), Number(F64, y), true) == Settled(fp, F64, Some(fp.arithmetic(op, x, y)))
              && ApplyBinary(fp, op, Number(F32, x), Number(F64, y), true) == Settled(fp, F64, Some(fp.arithmetic(op, x, y)))
              && ApplyBinary(fp, op, Number(F64, x), Number(F32, y), true) == Settled(fp, F64, Some(fp.arithmetic(op, x, y)))
    ensures ApplyBinary(fp, Divide_, Number(F64, x), Number(F64, y), true) ==
            if fp.same(y, 0) then None else Settled(fp, F64, Some(fp.arithmetic(Divide_, x, y)))
    ensures ApplyBinary(fp, Modulo, Number(F64, x), Number(F64, y), true) == None
    ensures ApplyUnary(fp, Minus, Number(F64, x)) == Settled(fp, F64, Some(fp.negate(x)))
    ensures ApplyUnary(fp, Not, Number(F64, x)) == Some(Bool(fp.same(x, 0)))
  {
    hide Convert, Normalize;
  }

  /** With a binary32 number and no binary64 one, operands and result are binary32. */
  lemma SingleOperatorsMean(fp: FloatUnit, op: BinaryOp, x: int, y: int, k: Kind)
    requires op in {Add, Subtract, Multiply} && InRange(y, k) && fp.settle(F32, x).Some?
    ensures fp.settle(F32, y).Some? ==>
              ApplyBinary(fp, op, Number(F32, x), Number(F32, y), true) ==
                Settled(fp, F32, Some(fp.arithmetic(op, fp.settle(F32, x).value, fp.settle(F32, y).value)))
    ensures fp.ofInteger(F32, y).Some? ==>
              ApplyBinary(fp, op, Number(F32, x), Int(k, y), true) ==
                Settled(fp, F32, Some(fp.arithmetic(op, fp.settle(F32, x).value, fp.ofInteger(F32, y).value)))
  {
    assert op == Add || op == Subtract || op == Multiply;
    hide *;
    SingleOperands(fp, x, y, k);
    if fp.settle(F32, y).Some? {
      SingleArithmetic(fp, op, Number(F32, x), Number(F32, y), fp.settle(F32, x).value, fp.settle(F32, y).value);
    }
    if fp.ofInteger(F32, y).Some? {
      SingleArithmetic(fp, op, Number(F32, x), Int(k, y), fp.settle(F32, x).value, fp.ofInteger(F32, y).value);
    }
  }

  lemma SingleArithmetic(fp: FloatUnit, op: BinaryOp, l: Value, r: Value, a: int, b: int)
    requires op in {Add, Subtract, Multiply} && l.Number? && Operands(fp, l, r) == Some((a, b, F32))
    ensures ApplyBinary(fp, op, l, r, true) == Settled(fp, F32, Some(fp.arithmetic(op, a, b)))
  {
    ArithmeticOf(fp, op, l, r);
    hide ApplyBinary, Operands;
  }

  lemma ArithmeticOf(fp: FloatUnit, op: BinaryOp, l: Value, r: Value)
    requires op in {Add, Subtract, Multiply} && l.Number?
    ensures ApplyBinary(fp, op, l, r, true) == ApplyArithmetic(fp, op, l, r)
  {
    hide ApplyArithmetic;
  }

  lemma SingleOperands(fp: FloatUnit, x: int, y: int, k: Kind)
    requires InRange(y, k) && fp.settle(F32, x).Some?
    ensures fp.settle(F32, y).Some? ==>
              Operands(fp, Number(F32, x), Number(F32, y)) == Some((fp.settle(F32, x).value, fp.settle(F32, y).value, F32))
    ensures fp.ofInteger(F32, y).Some? ==>
              Operands(fp, Number(F32, x), Int(k, y)) == Some((fp.settle(F32, x).value, fp.ofInteger(F32, y).value, F32))
  {
    OperandConverts(y, k, k);
    hide InRange, Convert;
  }

  /** Comparisons of binary64 numbers follow the order of the floating-point unit. */
  lemma RealOrderMeans(fp: FloatUnit, x: int, y: int)
    ensures ApplyBinary(fp, Less, Number(F64, x), Number(F64, y), true) == Some(Bool(fp.before(x, y)))
    ensures ApplyBinary(fp, Greater, Number(F64, x), Number(F64, y), true) == Some(Bool(fp.before(y, x)))
    ensures ApplyBinary(fp, LessEqual, Number(F64, x), Number(F64, y), true) == Some(Bool(fp.before(x, y) || fp.same(x, y)))
    ensures ApplyBinary(fp, GreaterEqual, Number(F64, x), Number(F64, y), true) == Some(Bool(fp.before(y, x) || fp.same(x, y)))
    ensures ApplyBinary(fp, Equal, Number(F64, x), Number(F64, y), true) == Some(Bool(fp.same(x, y)))
    ensures ApplyBinary(fp, NotEqual, Number(F64, x), Number(F64, y), true) == Some(Bool(!fp.same(x, y)))
  {
    hide Convert;
  }

  /** And so do min and max. */
  lemma RealExtremesMean(fp: FloatUnit, x: int, y: int)
    ensures Result(fp, "min", [Number(F64, x), Number(F64, y)]) == Settled(fp, F64, Some(if fp.before(y, x) then y else x))
    ensures Result(fp, "max", [Number(F64, x), Number(F64, y)]) == Settled(fp, F64, Some(if fp.before(x, y) then y else x))
  {
    Named();
    hide FunctionNamed, Result;
    var vs := [Number(F64, x), Number(F64, y)];
    ResultOf(fp, "min", MinOf, vs);
    ResultOf(fp, "max", MaxOf, vs);
    TwoReals(fp, MinOf, x, y);
    TwoReals(fp, MaxOf, x, y);
    hide MinMax;
  }

  lemma TwoReals(fp: FloatUnit, f: Function, x: int, y: int)
    requires f == MinOf || f == MaxOf
    ensures MinMax(fp, f, [Number(F64, x), Number(F64, y)]) ==
              Settled(fp, F64, Some(if (if f.MinOf? then fp.before(y, x) else fp.before(x, y)) then y else x))
  {
    hide Convert;
    var vs := [Number(F64, x), Number(F64, y)];
    assert vs[..1] == [Number(F64, x)];
    assert KindOfAll([Number(F64, x)]) == Some(F64) && KindOfAll(vs) == Some(F64);
    assert Extreme(fp, f, [Number(F64, x)], F64) == Some(x);
    assert Extreme(fp, f, vs, F64) == Some(if Better(fp, f, F64, y, x) then y else x);
  }

  const REAL_FUNCTIONS := ["sqrt", "exp", "log", "log2", "log10", "ceil", "floor", "trunc", "round"]

  /** sqrt and the like work in binary32 on a binary32 argument and in binary64 otherwise. */
  lemma RealFunctionsMean(fp: FloatUnit, name: string, x: int)
    requires name in REAL_FUNCTIONS
    ensures Result(fp, name, [Number(F64, x)]) == Settled(fp, F64, fp.apply(RealOf(name), F64, [x]))
    ensures Result(fp, name, [Number(F32, x)]) ==
            if fp.settle(F32, x).None? then None else Settled(fp, F32, fp.apply(RealOf(name), F32, [fp.settle(F32, x).value]))
    ensures forall k :: InRange(x, k) ==>
              Result(fp, name, [Int(k, x)]) ==
                if fp.ofInteger(F64, x).None? then None
                else Settled(fp, F64, fp.apply(RealOf(name), F64, [fp.ofInteger(F64, x).value]))
  {
    assert FunctionNamed(name) == Some(RealOf(name));
    hide Result, FunctionNamed, InRange, Convert, Settled, ApplyFunction, Pow2;
    ResultOf(fp, name, RealOf(name), [Number(F64, x)]);
    ResultOf(fp, name, RealOf(name), [Number(F32, x)]);
    OnReal(fp, RealOf(name), x);
    forall k | InRange(x, k)
      ensures Result(fp, name, [Int(k, x)]) ==
                if fp.ofInteger(F64, x).None? then None
                else Settled(fp, F64, fp.apply(RealOf(name), F64, [fp.ofInteger(F64, x).value]))
    {
      ResultOf(fp, name, RealOf(name), [Int(k, x)]);
      OnInteger(fp, RealOf(name), k, x);
    }
  }

  lemma OnReal(fp: FloatUnit, f: Function, x: int)
    requires f.RealOf?
    ensures ApplyFunction(fp, f, [Number(F64, x)]) == Settled(fp, F64, fp.apply(f, F64, [x]))
    ensures ApplyFunction(fp, f, [Number(F32, x)]) ==
            if fp.settle(F32, x).None? then None else Settled(fp, F32, fp.apply(f, F32, [fp.settle(F32, x).value]))
  {
    hide Convert;
  }

  lemma OnInteger(fp: FloatUnit, f: Function, k: Kind, x: int)
    requires f.RealOf? && InRange(x, k)
    ensures ApplyFunction(fp, f, [Int(k, x)]) ==
              if fp.ofInteger(F64, x).None? then None else Settled(fp, F64, fp.apply(f, F64, [fp.ofInteger(F64, x).value]))
  {
    OperandConverts(x, k, k);
    hide InRange, Convert;
  }

  /** pow works in binary64, base first. */
  lemma PowMeans(fp: FloatUnit, x: int, y: int)
    ensures Result(fp, "pow", [Number(F64, x), Number(F64, y)]) == Settled(fp, F64, fp.apply(Pow, F64, [x, y]))
  {
    Named();
    hide FunctionNamed, Result, Convert;
    ResultOf(fp, "pow", Pow, [Number(F64, x), Number(F64, y)]);
  }

  /** f32 and f64 round an integer straight to their kind, and a number of the other kind once in its own and once more. */
  lemma RealKindCastsMean(fp: FloatUnit, k: Kind, x: int)
    requires InRange(x, k)
    ensures Result(fp, "f32", [Int(k, x)]) == Settled(fp, F32, fp.ofInteger(F32, x))
    ensures Result(fp, "f64", [Int(k, x)]) == Settled(fp, F64, fp.ofInteger(F64, x))
    ensures Result(fp, "f32", [Number(F64, x)]) == Settled(fp, F32, fp.settle(F32, x))
    ensures Result(fp, "f64", [Number(F64, x)]) == Settled(fp, F64, fp.settle(F64, x))
  {
    assert FunctionNamed("f32") == Some(Cast(NumberShape(F32))) && FunctionNamed("f64") == Some(Cast(NumberShape(F64)));
    hide FunctionNamed, Result;
    OperandConverts(x, k, k);
    hide InRange, Convert;
    ResultOf(fp, "f32", Cast(NumberShape(F32)), [Int(k, x)]);
    ResultOf(fp, "f64", Cast(NumberShape(F64)), [Int(k, x)]);
    ResultOf(fp, "f32", Cast(NumberShape(F32)), [Number(F64, x)]);
    ResultOf(fp, "f64", Cast(NumberShape(F64)), [Number(F64, x)]);
  }

  /** No other name is a function. */
  lemma OtherNamesFail(fp: FloatUnit, name: string, vs: seq<Value>)
    requires name !in REAL_FUNCTIONS
    requires name !in ["bool", "i32", "u32", "i64", "u64", "f32", "f64", "str", "len", "substr", "starts_with", "pow", "abs", "min", "max"]
    ensures Result(fp, name, vs) == None
  {
    ResultIs(fp, name, vs);
  }

  /** The result of a function in either mode. */
  ghost function InMode(fp: FloatUnit, f: Function, vs: seq<Value>, evaluate: bool): Option<Value> {
    if evaluate then ApplyFunction(fp, f, vs) else TypeFunction(fp, f, vs)
  }

  /** An argument of the wrong family is an error, evaluated or not: text where a number is called for, and anything but text
      in the place of a string or but a number in the place of a position. */
  lemma WrongArgumentsFail(fp: FloatUnit, text: string, v: Value, w: Value, evaluate: bool)
    ensures InMode(fp, Pow, [v, Text(text)], evaluate) == None == InMode(fp, Pow, [Text(text), v], evaluate)
    ensures forall f :: f in {AbsOf, Cast(BoolShape), Cast(NumberShape(F64))} || f.RealOf? ==> InMode(fp, f, [Text(text)], evaluate) == None
    ensures forall f :: f in {MinOf, MaxOf} ==> InMode(fp, f, [v, Text(text)], evaluate) == None == InMode(fp, f, [Text(text), v], evaluate)
    ensures !v.Number? ==> InMode(fp, Substr, [Text(text), v, w], evaluate) == None == InMode(fp, Substr, [Text(text), w, v], evaluate)
    ensures !v.Text? ==> InMode(fp, Len, [v], evaluate) == None == InMode(fp, Substr, [v, w, w], evaluate)
    ensures !v.Text? ==> InMode(fp, StartsWith, [v, w], evaluate) == None == InMode(fp, StartsWith, [w, v], evaluate)
  {
    hide Convert;
    assert [Text(text), v][..1] == [Text(text)] && [v, Text(text)][..1] == [v];
    assert KindOfAll([Text(text)]) == None;
    assert KindOfAll([Text(text), v]) == None && KindOfAll([v, Text(text)]) == None;
  }
}
