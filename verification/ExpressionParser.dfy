/** The one-pass evaluator: it computes values while it reads tokens, without ever building a tree. */
module ExpressionParser {
  import opened Expressions
  import opened ExpressionSyntax
  import opened Options

  /** What a reading means in a mode: the value of its tree. */
  function Meaning(fp: FloatUnit, names: string -> Option<Value>, r: Option<(Expr, nat)>, evaluate: bool): Option<Value> {
    match r
    case None => None
    case Some((e, _)) => Eval(fp, names, e, evaluate)
  }

  function ListMeaning(fp: FloatUnit, names: string -> Option<Value>, r: Option<(seq<Expr>, nat)>, evaluate: bool): Option<seq<Value>> {
    match r
    case None => None
    case Some((es, _)) => EvalAll(fp, names, es, evaluate)
  }

  /** The position after the tokens that were read. */
  ghost predicate Next<T>(r: Option<(T, nat)>, index: nat) { r.Some? && index == r.value.1 }

  /** An expression read one nesting deeper. */
  function NestedTree(ts: seq<Token>, i: nat, depth: nat): Option<(Expr, nat)>
    requires i <= |ts|
  {
    if depth >= MAX_NESTING then None else ExpressionSyntax.ParseLevel(ts, i, 0, depth + 1)
  }

  /** What applying an operator to a value and to a tree yet to be read means. */
  function RightMeaning(fp: FloatUnit, names: string -> Option<Value>, op: BinaryOp, left: Value, r: Option<(Expr, nat)>, evaluate: bool):
    Option<Value>
  {
    match r
    case None => None
    case Some((e, _)) => EvalRight(fp, names, op, left, e, evaluate)
  }

  /** An operand that has no value leaves none to the rest of its level. */
  lemma {:induction false} RestFails(fp: FloatUnit, names: string -> Option<Value>, ts: seq<Token>, j: nat, level: nat, depth: nat, e: Expr,
                                     evaluate: bool)
    requires level < UNARY_LEVEL && j <= |ts| && Eval(fp, names, e, evaluate).None?
    ensures Meaning(fp, names, ParseRest(ts, j, level, depth, e), evaluate).None?
    decreases |ts| - j
  {
    hide EvalRight, ExpressionSyntax.ParseLevel;
    if OperatorAt(ts, j, level).Some? {
      var right := ExpressionSyntax.ParseLevel(ts, j + 1, level + 1, depth);
      if right.Some? { RestFails(fp, names, ts, right.value.1, level, depth, Binary(OperatorAt(ts, j, level).value, e, right.value.0), evaluate); }
    }
  }

  lemma LevelStep(fp: FloatUnit, names: string -> Option<Value>, ts: seq<Token>, i: nat, level: nat, depth: nat, evaluate: bool)
    requires level <= UNARY_LEVEL && i <= |ts|
    ensures level == 10 <==> level == UNARY_LEVEL
    ensures level == 10 ==> ExpressionSyntax.ParseLevel(ts, i, level, depth) == ExpressionSyntax.ParseUnary(ts, i, depth)
    ensures level != 10 ==>
              var first := ExpressionSyntax.ParseLevel(ts, i, level + 1, depth);
              && (Meaning(fp, names, first, evaluate).None? ==>
                    Meaning(fp, names, ExpressionSyntax.ParseLevel(ts, i, level, depth), evaluate).None?)
              && (first.Some? ==>
                    ExpressionSyntax.ParseLevel(ts, i, level, depth) == ParseRest(ts, first.value.1, level, depth, first.value.0))
  {
    if level != 10 {
      var first := ExpressionSyntax.ParseLevel(ts, i, level + 1, depth);
      if first.Some? {
        var (e, j) := first.value;
        if Eval(fp, names, e, evaluate).None? { RestFails(fp, names, ts, j, level, depth, e, evaluate); }
      }
    }
    hide Eval, ParseRest;
  }

  lemma FirstRead(fp: FloatUnit, names: string -> Option<Value>, first: Option<(Expr, nat)>, index: nat, evaluate: bool)
    requires Meaning(fp, names, first, evaluate).Some? && Next(first, index)
    ensures first.Some? && first.value.1 == index
    ensures Meaning(fp, names, first, evaluate) == Eval(fp, names, first.value.0, evaluate)
  {
    hide Eval;
  }

  lemma SameNext<T>(r: Option<(T, nat)>, index: nat)
    requires Next(r, index)
    ensures r.Some? && r.value.1 == index
  {
  }

  /** One step along the operators of a level. */
  lemma OperatorStep(fp: FloatUnit, names: string -> Option<Value>, ts: seq<Token>, j: nat, level: nat, depth: nat, e: Expr, evaluate: bool)
    requires level < UNARY_LEVEL && j <= |ts| && Eval(fp, names, e, evaluate).Some?
    ensures var whole := ParseRest(ts, j, level, depth, e);
      match OperatorAt(ts, j, level)
      case None => Next(whole, j) && Meaning(fp, names, whole, evaluate) == Eval(fp, names, e, evaluate)
      case Some(op) =>
        && j < |ts|
        && var right := ExpressionSyntax.ParseLevel(ts, j + 1, level + 1, depth);
           var value := RightMeaning(fp, names, op, Eval(fp, names, e, evaluate).value, right, evaluate);
           && (value.None? ==> Meaning(fp, names, whole, evaluate).None?)
           && (value.Some? ==>
                 && right.Some? && whole == ParseRest(ts, right.value.1, level, depth, Binary(op, e, right.value.0))
                 && Eval(fp, names, Binary(op, e, right.value.0), evaluate) == value)
  {
    if OperatorAt(ts, j, level).Some? {
      var op := OperatorAt(ts, j, level).value;
      var right := ExpressionSyntax.ParseLevel(ts, j + 1, level + 1, depth);
      if right.Some? {
        var (e2, k) := right.value;
        assert Eval(fp, names, Binary(op, e, e2), evaluate) == EvalRight(fp, names, op, Eval(fp, names, e, evaluate).value, e2, evaluate);
        if Eval(fp, names, Binary(op, e, e2), evaluate).None? { RestFails(fp, names, ts, k, level, depth, Binary(op, e, e2), evaluate); }
      }
    }
    hide Eval, EvalRight, ExpressionSyntax.ParseLevel;
  }

  class ExprParser {
    const tokens: seq<Token>
    const fp: FloatUnit
    const names: string -> Option<Value>
    var index: nat
    var evaluateValues: bool
    var nestingDepth: nat

    constructor (tokens: seq<Token>, fp: FloatUnit, names: string -> Option<Value>)
      ensures this.tokens == tokens && this.fp == fp && this.names == names
      ensures index == 0 && evaluateValues && nestingDepth == 0
    {
      this.tokens, this.fp, this.names := tokens, fp, names;
      index, evaluateValues, nestingDepth := 0, true, 0;
    }

    /** parse: one whole expression. */
    method Parse() returns (r: Option<Value>)
      requires index == 0 && evaluateValues && nestingDepth == 0
      modifies this
      ensures r == (match ExpressionSyntax.Parse(tokens) case None => None case Some(e) => Eval(fp, names, e, true))
    {
      r := ParseLevel(0);
      if r.Some? && index != |tokens| { r := None; }
    }

    /** _parse_or, _parse_and and so on down to _parse_mul: the level of operators is a parameter. */
    method ParseLevel(level: nat) returns (r: Option<Value>)
      requires level <= UNARY_LEVEL && index <= |tokens|
      modifies this
      ensures evaluateValues == old(evaluateValues) && nestingDepth == old(nestingDepth) && index <= |tokens|
      ensures r == Meaning(fp, names, old(ExpressionSyntax.ParseLevel(tokens, index, level, nestingDepth)), evaluateValues)
      ensures r.Some? ==> Next(old(ExpressionSyntax.ParseLevel(tokens, index, level, nestingDepth)), index)
      decreases |tokens| - index, 12 - level
    {
      LevelStep(fp, names, tokens, index, level, nestingDepth, evaluateValues);
      hide *;
      if level == 10 {
        r := ParseUnary();
        return;
      }
      ghost var first := ExpressionSyntax.ParseLevel(tokens, index, level + 1, nestingDepth);
      r := ParseLevel(level + 1);
      if r.None? { return; }
      FirstRead(fp, names, first, index, evaluateValues);
      r := ParseOperators(level, r.value, first.value.0);
    }

    /** The loop over the operators of one level, from the value of the first operand. */
    method ParseOperators(level: nat, first: Value, ghost firstTree: Expr) returns (r: Option<Value>)
      requires level < UNARY_LEVEL && index <= |tokens| && Eval(fp, names, firstTree, evaluateValues) == Some(first)
      modifies this
      ensures evaluateValues == old(evaluateValues) && nestingDepth == old(nestingDepth) && index <= |tokens|
      ensures r == Meaning(fp, names, old(ParseRest(tokens, index, level, nestingDepth, firstTree)), evaluateValues)
      ensures r.Some? ==> Next(old(ParseRest(tokens, index, level, nestingDepth, firstTree)), index)
      decreases |tokens| - index, 14
    {
      hide *;
      ghost var start, depth, mode := index, nestingDepth, evaluateValues;
      ghost var e := firstTree;
      r := Some(first);
      while true
        invariant start <= index <= |tokens| && evaluateValues == mode && nestingDepth == depth
        invariant r.Some? && r == Eval(fp, names, e, mode)
        invariant ParseRest(tokens, start, level, depth, firstTree) == ParseRest(tokens, index, level, depth, e)
        decreases |tokens| - index
      {
        OperatorStep(fp, names, tokens, index, level, depth, e, mode);
        var op := OperatorAt(tokens, index, level);
        if op.None? { return; }
        index := index + 1;
        ghost var right := ExpressionSyntax.ParseLevel(tokens, index, level + 1, depth);
        r := ApplyRight(op.value, r.value, level + 1);
        if r.None? { return; }
        SameNext(right, index);
        e := Binary(op.value, e, right.value.0);
      }
    }

    /** The right operand of an operator, read in the mode the left one leaves, and the operator itself. */
    method ApplyRight(op: BinaryOp, left: Value, level: nat) returns (r: Option<Value>)
      requires level <= UNARY_LEVEL && index <= |tokens|
      modifies this
      ensures evaluateValues == old(evaluateValues) && nestingDepth == old(nestingDepth) && index <= |tokens|
      ensures r == RightMeaning(fp, names, op, left, old(ExpressionSyntax.ParseLevel(tokens, index, level, nestingDepth)), evaluateValues)
      ensures r.Some? ==> Next(old(ExpressionSyntax.ParseLevel(tokens, index, level, nestingDepth)), index)
      decreases |tokens| - index, 13
    {
      ghost var tree := ExpressionSyntax.ParseLevel(tokens, index, level, nestingDepth);
      hide Eval, ExpressionSyntax.ParseLevel, AsBool, ApplyBinary;
      if op == LogicalOr || op == LogicalAnd {
        var a := AsBool(fp, left);
        if a.None? { return None; }
        var previous := evaluateValues;
        evaluateValues := previous && a.value == (op == LogicalAnd);
        r := ParseLevel(level);
        evaluateValues := previous;
        if r.None? { return; }
        var b := AsBool(fp, r.value);
        if b.None? { return None; }
        r := Some(Bool(previous && if op == LogicalOr then a.value || b.value else a.value && b.value));
      } else {
        r := ParseLevel(level);
        if r.Some? { r := ApplyBinary(fp, op, left, r.value, evaluateValues); }
      }
    }

    /** _parse_unary. */
    method ParseUnary() returns (r: Option<Value>)
      requires index <= |tokens|
      modifies this
      ensures evaluateValues == old(evaluateValues) && nestingDepth == old(nestingDepth) && index <= |tokens|
      ensures r == Meaning(fp, names, old(ExpressionSyntax.ParseUnary(tokens, index, nestingDepth)), evaluateValues)
      ensures r.Some? ==> Next(old(ExpressionSyntax.ParseUnary(tokens, index, nestingDepth)), index)
      decreases |tokens| - index, 1
    {
      hide ApplyUnary, ExpressionSyntax.ParsePrimary;
      var op := UnaryAt(tokens, index);
      if op.None? {
        r := ParsePrimary();
        return;
      }
      if nestingDepth >= MAX_NESTING { return None; }
      index := index + 1;
      nestingDepth := nestingDepth + 1;
      r := ParseUnary();
      nestingDepth := nestingDepth - 1;
      if r.Some? { r := ApplyUnary(fp, op.value, r.value); }
    }

    /** _parse_primary. */
    method ParsePrimary() returns (r: Option<Value>)
      requires index <= |tokens|
      modifies this
      ensures evaluateValues == old(evaluateValues) && nestingDepth == old(nestingDepth) && index <= |tokens|
      ensures r == Meaning(fp, names, old(ExpressionSyntax.ParsePrimary(tokens, index, nestingDepth)), evaluateValues)
      ensures r.Some? ==> Next(old(ExpressionSyntax.ParsePrimary(tokens, index, nestingDepth)), index)
      decreases |tokens| - index, 0
    {
      hide ExpressionSyntax.ParseLevel, ExpressionSyntax.ParseArguments, FunctionNamed, ApplyFunction, TypeFunction, EvalAll;
      if index == |tokens| { return None; }
      match tokens[index]
      case Constant(v) =>
        if v.None? { return None; }
        index := index + 1;
        r := Some(if evaluateValues then v.value else Placeholder(v.value));
      case Word(name) =>
        index := index + 1;
        if name == "true" {
          r := Some(Bool(evaluateValues));
        } else if name == "false" {
          r := Some(Bool(false));
        } else if SignAt(tokens, index, Open) {
          index := index + 1;
          r := CallFunction(name);
        } else {
          r := names(name);
          if r.Some? && !evaluateValues { r := Some(Placeholder(r.value)); }
        }
      case Sign(s) =>
        if s != Open { return None; }
        index := index + 1;
        r := ParseNested();
        if r.Some? {
          if !SignAt(tokens, index, Close) { return None; }
          index := index + 1;
        }
    }

    /** _parse_nested on a whole expression. */
    method ParseNested() returns (r: Option<Value>)
      requires index <= |tokens|
      modifies this
      ensures evaluateValues == old(evaluateValues) && nestingDepth == old(nestingDepth) && index <= |tokens|
      ensures r == Meaning(fp, names, old(NestedTree(tokens, index, nestingDepth)), evaluateValues)
      ensures r.Some? ==> Next(old(NestedTree(tokens, index, nestingDepth)), index)
      decreases |tokens| - index, 13
    {
      hide Eval, ExpressionSyntax.ParseLevel;
      if nestingDepth >= MAX_NESTING { return None; }
      nestingDepth := nestingDepth + 1;
      r := ParseLevel(0);
      nestingDepth := nestingDepth - 1;
    }

    /** The arguments of a call, and the function on their values. */
    method CallFunction(name: string) returns (r: Option<Value>)
      requires index <= |tokens|
      modifies this
      ensures evaluateValues == old(evaluateValues) && nestingDepth == old(nestingDepth) && index <= |tokens|
      ensures r == CallMeaning(fp, names, name, old(ExpressionSyntax.ParseArguments(tokens, index, nestingDepth)), evaluateValues)
      ensures r.Some? ==> Next(old(ExpressionSyntax.ParseArguments(tokens, index, nestingDepth)), index)
      decreases |tokens| - index, 15
    {
      hide FunctionNamed, ApplyFunction, TypeFunction, EvalAll, ExpressionSyntax.ParseArguments;
      var vs := ParseArguments();
      if vs.None? { return None; }
      var f := FunctionNamed(name);
      if f.None? { return None; }
      r := if evaluateValues then ApplyFunction(fp, f.value, vs.value) else TypeFunction(fp, f.value, vs.value);
    }

    method ParseArguments() returns (r: Option<seq<Value>>)
      requires index <= |tokens|
      modifies this
      ensures evaluateValues == old(evaluateValues) && nestingDepth == old(nestingDepth) && index <= |tokens|
      ensures r == ListMeaning(fp, names, old(ExpressionSyntax.ParseArguments(tokens, index, nestingDepth)), evaluateValues)
      ensures r.Some? ==> Next(old(ExpressionSyntax.ParseArguments(tokens, index, nestingDepth)), index)
      decreases |tokens| - index, 14
    {
      ghost var start, depth, mode := index, nestingDepth, evaluateValues;
      ghost var whole := ExpressionSyntax.ParseArguments(tokens, index, nestingDepth);
      ArgumentsStep(fp, names, tokens, index, depth, mode);
      hide *;
      if SignAt(tokens, index, Close) {
        index := index + 1;
        return Some([]);
      }
      var vs: seq<Value> := [];
      ghost var es: seq<Expr> := [];
      while true
        invariant start <= index <= |tokens| && evaluateValues == mode && nestingDepth == depth
        invariant whole == ParseList(tokens, index, depth, es) && EvalAll(fp, names, es, mode) == Some(vs)
        decreases |tokens| - index
      {
        ArgumentStep(fp, names, tokens, index, depth, es, mode);
        ghost var one := NestedTree(tokens, index, depth);
        var v := ParseNested();
        if v.None? { return None; }
        FirstRead(fp, names, one, index, mode);
        vs := vs + [v.value];
        es := es + [one.value.0];
        if IsSign(tokens, index, Close) {
          index := index + 1;
          return Some(vs);
        }
        if !IsSign(tokens, index, Comma) { return None; }
        index := index + 1;
      }
    }
  }

  /** The value of a call. */
  function CallMeaning(fp: FloatUnit, names: string -> Option<Value>, name: string, r: Option<(seq<Expr>, nat)>, evaluate: bool):
    Option<Value>
  {
    match r
    case None => None
    case Some((es, _)) => Eval(fp, names, Call(name, es), evaluate)
  }

  predicate IsSign(ts: seq<Token>, i: nat, s: Symbol)
    ensures IsSign(ts, i, s) <==> i < |ts| && ts[i] == Sign(s)
  {
    SignAt(ts, i, s)
  }

  lemma {:induction false} ListFails(fp: FloatUnit, names: string -> Option<Value>, ts: seq<Token>, i: nat, depth: nat, es: seq<Expr>, evaluate: bool)
    requires i <= |ts| && EvalAll(fp, names, es, evaluate).None?
    ensures ListMeaning(fp, names, ParseList(ts, i, depth, es), evaluate).None?
    decreases |ts| - i
  {
    hide Eval, ExpressionSyntax.ParseLevel;
    var one := ExpressionSyntax.ParseLevel(ts, i, 0, depth + 1);
    if depth < MAX_NESTING && one.Some? {
      var (e, j) := one.value;
      assert (es + [e])[..|es|] == es;
      if SignAt(ts, j, Comma) { ListFails(fp, names, ts, j + 1, depth, es + [e], evaluate); }
    }
  }

  lemma ArgumentsStep(fp: FloatUnit, names: string -> Option<Value>, ts: seq<Token>, i: nat, depth: nat, evaluate: bool)
    requires i <= |ts|
    ensures var whole := ExpressionSyntax.ParseArguments(ts, i, depth);
      if SignAt(ts, i, Close) then i < |ts| && Next(whole, i + 1) && ListMeaning(fp, names, whole, evaluate) == Some([])
      else whole == ParseList(ts, i, depth, [])
    ensures EvalAll(fp, names, [], evaluate) == Some([])
  {
    hide ParseList;
  }

  /** One argument of a list, and what follows it. */
  lemma ArgumentStep(fp: FloatUnit, names: string -> Option<Value>, ts: seq<Token>, i: nat, depth: nat, es: seq<Expr>, evaluate: bool)
    requires i <= |ts| && EvalAll(fp, names, es, evaluate).Some?
    ensures var whole := ParseList(ts, i, depth, es);
      var one := NestedTree(ts, i, depth);
      match Meaning(fp, names, one, evaluate)
      case None => ListMeaning(fp, names, whole, evaluate).None?
      case Some(v) =>
        && i < one.value.1
        && var j, more := one.value.1, es + [one.value.0];
           && EvalAll(fp, names, more, evaluate) == Some(EvalAll(fp, names, es, evaluate).value + [v])
           && (if j < |ts| && ts[j] == Sign(Close) then Next(whole, j + 1) && ListMeaning(fp, names, whole, evaluate) == EvalAll(fp, names, more, evaluate)
               else if j < |ts| && ts[j] == Sign(Comma) then whole == ParseList(ts, j + 1, depth, more)
               else ListMeaning(fp, names, whole, evaluate).None?)
  {
    hide Eval, ExpressionSyntax.ParseLevel;
    var one := NestedTree(ts, i, depth);
    if one.Some? {
      var (e, j) := one.value;
      assert (es + [e])[..|es|] == es;
      if Eval(fp, names, e, evaluate).None? && SignAt(ts, j, Comma) { ListFails(fp, names, ts, j + 1, depth, es + [e], evaluate); }
    }
  }

  /** Evaluating the tokens of any tree yields the value of the tree. */
  method EvaluateTokens(e: Expr, fp: FloatUnit, names: string -> Option<Value>) returns (r: Option<Value>)
    requires WellNamed(e) && Nesting(e, 0) <= MAX_NESTING
    ensures r == Eval(fp, names, e, true)
  {
    var parser := new ExprParser(Tokens(e, 0), fp, names);
    RoundTrip(e);
    hide Eval, Tokens, WellNamed, Nesting, ExpressionSyntax.ParseLevel;
    r := parser.Parse();
  }
}
