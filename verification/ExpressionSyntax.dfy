/** The tokens and the precedence grammar of constant expressions, and the round trip between trees and tokens. */
module ExpressionSyntax {
  import opened Expressions
  import opened Options

  datatype Symbol = BarBar | AmpAmp | Bar | Caret | Amp | EqualEqual | BangEqual | Lt | LtEqual | Gt | GtEqual | LtLt | GtGt |
                    PlusSign | MinusSign | Star | Slash | Percent | Bang | Tilde | Open | Close | Comma

  /** A constant token without a value is a literal that does not denote one. */
  datatype Token = Sign(symbol: Symbol) | Constant(value: Option<Value>) | Word(name: string)

  const MAX_NESTING: nat := 32
  const UNARY_LEVEL: nat := 10

  /** From `||` to `*`: the higher the level, the tighter the operator binds. */
  function Level(op: BinaryOp): (l: nat)
    ensures l < UNARY_LEVEL
  {
    match op
    case LogicalOr => 0
    case LogicalAnd => 1
    case BitOr => 2
    case BitXor => 3
    case BitAnd => 4
    case Equal => 5
    case NotEqual => 5
    case Less => 6
    case LessEqual => 6
    case Greater => 6
    case GreaterEqual => 6
    case ShiftLeft => 7
    case ShiftRight => 7
    case Add => 8
    case Subtract => 8
    case Multiply => 9
    case Divide_ => 9
    case Modulo => 9
  }

  function BinaryOf(s: Symbol): Option<BinaryOp> {
    match s
    case BarBar => Some(LogicalOr)
    case AmpAmp => Some(LogicalAnd)
    case Bar => Some(BitOr)
    case Caret => Some(BitXor)
    case Amp => Some(BitAnd)
    case EqualEqual => Some(Equal)
    case BangEqual => Some(NotEqual)
    case Lt => Some(Less)
    case LtEqual => Some(LessEqual)
    case Gt => Some(Greater)
    case GtEqual => Some(GreaterEqual)
    case LtLt => Some(ShiftLeft)
    case GtGt => Some(ShiftRight)
    case PlusSign => Some(Add)
    case MinusSign => Some(Subtract)
    case Star => Some(Multiply)
    case Slash => Some(Divide_)
    case Percent => Some(Modulo)
    case _ => None
  }

  function UnaryOf(s: Symbol): Option<UnaryOp> {
    match s
    case Bang => Some(Not)
    case Tilde => Some(Invert)
    case PlusSign => Some(Plus)
    case MinusSign => Some(Minus)
    case _ => None
  }

  function BinarySign(op: BinaryOp): (s: Symbol)
    ensures BinaryOf(s) == Some(op)
  {
    match op
    case LogicalOr => BarBar
    case LogicalAnd => AmpAmp
    case BitOr => Bar
    case BitXor => Caret
    case BitAnd => Amp
    case Equal => EqualEqual
    case NotEqual => BangEqual
    case Less => Lt
    case LessEqual => LtEqual
    case Greater => Gt
    case GreaterEqual => GtEqual
    case ShiftLeft => LtLt
    case ShiftRight => GtGt
    case Add => PlusSign
    case Subtract => MinusSign
    case Multiply => Star
    case Divide_ => Slash
    case Modulo => Percent
  }

  function UnarySign(op: UnaryOp): (s: Symbol)
    ensures UnaryOf(s) == Some(op)
  {
    match op
    case Not => Bang
    case Invert => Tilde
    case Plus => PlusSign
    case Minus => MinusSign
  }

  // ---------------------------------------------------------------- the grammar

  predicate SignAt(ts: seq<Token>, i: nat, s: Symbol) { i < |ts| && ts[i] == Sign(s) }

  /** The operator of exactly this level at position `i`. */
  function OperatorAt(ts: seq<Token>, i: nat, level: nat): Option<BinaryOp> {
    if i < |ts| && ts[i].Sign? && BinaryOf(ts[i].symbol).Some? && Level(BinaryOf(ts[i].symbol).value) == level
    then BinaryOf(ts[i].symbol) else None
  }

  function UnaryAt(ts: seq<Token>, i: nat): Option<UnaryOp> {
    if i < |ts| && ts[i].Sign? then UnaryOf(ts[i].symbol) else None
  }

  /** The tree read from position `i` at a level, and the position after it. */
  function ParseLevel(ts: seq<Token>, i: nat, level: nat, depth: nat): (r: Option<(Expr, nat)>)
    requires level <= UNARY_LEVEL && i <= |ts|
    ensures r.Some? ==> i < r.value.1 <= |ts|
    decreases |ts| - i, 12 - level
  {
    if level == UNARY_LEVEL then ParseUnary(ts, i, depth)
    else
      match ParseLevel(ts, i, level + 1, depth)
      case None => None
      case Some((e, j)) => ParseRest(ts, j, level, depth, e)
  }

  /** Operators of one level associate to the left. */
  function ParseRest(ts: seq<Token>, j: nat, level: nat, depth: nat, left: Expr): (r: Option<(Expr, nat)>)
    requires level < UNARY_LEVEL && j <= |ts|
    ensures r.Some? ==> j <= r.value.1 <= |ts|
    decreases |ts| - j, 0
  {
    match OperatorAt(ts, j, level)
    case None => Some((left, j))
    case Some(op) =>
      (match ParseLevel(ts, j + 1, level + 1, depth)
       case None => None
       case Some((right, k)) => ParseRest(ts, k, level, depth, Binary(op, left, right)))
  }

  function ParseUnary(ts: seq<Token>, i: nat, depth: nat): (r: Option<(Expr, nat)>)
    requires i <= |ts|
    ensures r.Some? ==> i < r.value.1 <= |ts|
    decreases |ts| - i, 1
  {
    match UnaryAt(ts, i)
    case None => ParsePrimary(ts, i, depth)
    case Some(op) =>
      if depth >= MAX_NESTING then None
      else (match ParseUnary(ts, i + 1, depth + 1) case None => None case Some((e, j)) => Some((Unary(op, e), j)))
  }

  function ParsePrimary(ts: seq<Token>, i: nat, depth: nat): (r: Option<(Expr, nat)>)
    requires i <= |ts|
    ensures r.Some? ==> i < r.value.1 <= |ts|
    decreases |ts| - i, 0
  {
    if i == |ts| then None
    else
      match ts[i]
      case Constant(v) => if v.Some? then Some((Literal(v.value), i + 1)) else None
      case Word(name) =>
        if name == "true" then Some((Literal(Bool(true)), i + 1))
        else if name == "false" then Some((Literal(Bool(false)), i + 1))
        else if SignAt(ts, i + 1, Open) then
          (match ParseArguments(ts, i + 2, depth) case None => None case Some((args, j)) => Some((Call(name, args), j)))
        else Some((Name(name), i + 1))
      case Sign(s) =>
        if s != Open || depth >= MAX_NESTING then None
        else
          match ParseLevel(ts, i + 1, 0, depth + 1)
          case None => None
          case Some((e, j)) => if SignAt(ts, j, Close) then Some((e, j + 1)) else None
  }

  /** The arguments after an opening parenthesis. */
  function ParseArguments(ts: seq<Token>, i: nat, depth: nat): (r: Option<(seq<Expr>, nat)>)
    requires i <= |ts|
    ensures r.Some? ==> i < r.value.1 <= |ts|
    decreases |ts| - i, 14
  {
    if SignAt(ts, i, Close) then Some(([], i + 1)) else ParseList(ts, i, depth, [])
  }

  function ParseList(ts: seq<Token>, i: nat, depth: nat, args: seq<Expr>): (r: Option<(seq<Expr>, nat)>)
    requires i <= |ts|
    ensures r.Some? ==> i < r.value.1 <= |ts|
    decreases |ts| - i, 13
  {
    if depth >= MAX_NESTING then None
    else
      match ParseLevel(ts, i, 0, depth + 1)
      case None => None
      case Some((e, j)) =>
        if SignAt(ts, j, Close) then Some((args + [e], j + 1))
        else if SignAt(ts, j, Comma) then ParseList(ts, j + 1, depth, args + [e])
        else None
  }

  /** The tree of a whole token sequence. */
  function Parse(ts: seq<Token>): Option<Expr> {
    match ParseLevel(ts, 0, 0, 0)
    case None => None
    case Some((e, j)) => if j == |ts| then Some(e) else None
  }

  // ---------------------------------------------------------------- writing a tree down

  /** An operand is parenthesised when its operator binds less tightly than its place demands. */
  predicate Wrapped(e: Expr, level: nat) { e.Binary? && Level(e.bop) < level }

  function Tokens(e: Expr, level: nat): seq<Token>
    decreases e, 1
  {
    if Wrapped(e, level) then [Sign(Open)] + Bare(e) + [Sign(Close)] else Bare(e)
  }

  function Bare(e: Expr): seq<Token>
    decreases e, 0
  {
    match e
    case Literal(v) => [if v.Bool? then Word(if v.b then "true" else "false") else Constant(Some(v))]
    case Name(n) => [Word(n)]
    case Unary(op, x) => [Sign(UnarySign(op))] + Tokens(x, UNARY_LEVEL)
    case Binary(op, l, r) => Tokens(l, Level(op)) + [Sign(BinarySign(op))] + Tokens(r, Level(op) + 1)
    case Call(name, args) => [Word(name), Sign(Open)] + ListTokens(args) + [Sign(Close)]
  }

  function ListTokens(es: seq<Expr>): seq<Token>
    decreases es, 0
  {
    if es == [] then []
    else if |es| == 1 then Tokens(es[0], 0)
    else Tokens(es[0], 0) + [Sign(Comma)] + ListTokens(es[1..])
  }

  function Max(a: nat, b: nat): nat { if a < b then b else a }

  /** The nesting that reading the tokens of a tree takes: parentheses, arguments and prefix operators. */
  function Nesting(e: Expr, level: nat): nat
    decreases e, 1
  {
    if Wrapped(e, level) then 1 + BareNesting(e) else BareNesting(e)
  }

  function BareNesting(e: Expr): nat
    decreases e, 0
  {
    match e
    case Literal(_) => 0
    case Name(_) => 0
    case Unary(_, x) => 1 + Nesting(x, UNARY_LEVEL)
    case Binary(op, l, r) => Max(Nesting(l, Level(op)), Nesting(r, Level(op) + 1))
    case Call(_, args) => ListNesting(args)
  }

  function ListNesting(es: seq<Expr>): nat
    decreases es, 0
  {
    if es == [] then 0 else Max(1 + Nesting(es[0], 0), ListNesting(es[1..]))
  }

  /** Names and functions are not spelled like the two literals. */
  predicate WellNamed(e: Expr)
    decreases e
  {
    match e
    case Literal(_) => true
    case Name(n) => n != "true" && n != "false"
    case Unary(_, x) => WellNamed(x)
    case Binary(_, l, r) => WellNamed(l) && WellNamed(r)
    case Call(name, args) => name != "true" && name != "false" && forall i :: 0 <= i < |args| ==> WellNamed(args[i])
  }

  // ---------------------------------------------------------------- the round trip

  /** `ts` reads `part` at position `i`. */
  ghost predicate Reads(ts: seq<Token>, i: nat, part: seq<Token>) { i + |part| <= |ts| && ts[i..i + |part|] == part }

  lemma Split(ts: seq<Token>, i: nat, a: seq<Token>, b: seq<Token>)
    requires Reads(ts, i, a + b)
    ensures Reads(ts, i, a) && Reads(ts, i + |a|, b)
  {
    assert (a + b)[..|a|] == a && (a + b)[|a|..] == b;
    assert ts[i..i + |a + b|][..|a|] == ts[i..i + |a|];
    assert ts[i..i + |a + b|][|a|..] == ts[i + |a|..i + |a| + |b|];
  }

  lemma One(ts: seq<Token>, i: nat, t: Token)
    requires Reads(ts, i, [t])
    ensures i < |ts| && ts[i] == t
  {
    assert ts[i] == ts[i..i + 1][0];
  }

  /** Nothing at `j` extends an expression of this level: no tighter operator, and no call. */
  ghost predicate Ends(ts: seq<Token>, j: nat, level: nat) {
    && (forall l :: level < l < UNARY_LEVEL ==> OperatorAt(ts, j, l).None?)
    && !SignAt(ts, j, Open)
  }

  function Continue(ts: seq<Token>, j: nat, level: nat, depth: nat, e: Expr): Option<(Expr, nat)>
    requires level <= UNARY_LEVEL && j <= |ts|
  {
    if level == UNARY_LEVEL then Some((e, j)) else ParseRest(ts, j, level, depth, e)
  }

  lemma EndsWithOperator(ts: seq<Token>, j: nat, op: BinaryOp)
    requires j < |ts| && ts[j] == Sign(BinarySign(op))
    ensures Ends(ts, j, Level(op)) && OperatorAt(ts, j, Level(op)) == Some(op)
  {
    assert BinaryOf(Open).None?;
  }

  lemma EndsWithSign(ts: seq<Token>, j: nat, s: Symbol)
    requires j < |ts| && ts[j] == Sign(s) && (s == Close || s == Comma)
    ensures Ends(ts, j, 0) && OperatorAt(ts, j, 0).None?
  {
  }

  /** Reading the tokens of a tree at a level yields the tree, whatever follows it. */
  lemma {:induction false} TokensParse(ts: seq<Token>, i: nat, level: nat, depth: nat, e: Expr)
    requires level <= UNARY_LEVEL && Reads(ts, i, Tokens(e, level)) && WellNamed(e)
    requires Ends(ts, i + |Tokens(e, level)|, level) && depth + Nesting(e, level) <= MAX_NESTING
    ensures ParseLevel(ts, i, level, depth) == Continue(ts, i + |Tokens(e, level)|, level, depth, e)
    decreases e, if Wrapped(e, level) then 1 else 0, UNARY_LEVEL - level + 2
  {
    if level < UNARY_LEVEL && !(e.Binary? && Level(e.bop) == level) {
      TokensParse(ts, i, level + 1, depth, e);
    } else if level < UNARY_LEVEL {
      BinaryParses(ts, i, depth, e);
    } else {
      PrimaryParses(ts, i, depth, e);
    }
  }

  lemma BinarySplit(ts: seq<Token>, i: nat, e: Expr)
    requires e.Binary? && Reads(ts, i, Bare(e))
    ensures var a, b := Tokens(e.left, Level(e.bop)), Tokens(e.right, Level(e.bop) + 1);
      && Reads(ts, i, a) && i + |a| < |ts| && ts[i + |a|] == Sign(BinarySign(e.bop)) && Reads(ts, i + |a| + 1, b)
      && |Bare(e)| == |a| + 1 + |b| && i + |Bare(e)| <= |ts|
  {
    var a, s, b := Tokens(e.left, Level(e.bop)), [Sign(BinarySign(e.bop))], Tokens(e.right, Level(e.bop) + 1);
    assert Bare(e) == a + (s + b);
    hide Tokens, Bare, Level, BinarySign;
    Split(ts, i, a, s + b);
    Split(ts, i + |a|, s, b);
    One(ts, i + |a|, s[0]);
  }

  lemma RestStep(ts: seq<Token>, j: nat, k: nat, depth: nat, op: BinaryOp, left: Expr, right: Expr)
    requires j < k <= |ts| && OperatorAt(ts, j, Level(op)) == Some(op) && Ends(ts, k, Level(op))
    requires ParseLevel(ts, j + 1, Level(op) + 1, depth) == Continue(ts, k, Level(op) + 1, depth, right)
    ensures ParseRest(ts, j, Level(op), depth, left) == ParseRest(ts, k, Level(op), depth, Binary(op, left, right))
  {
    hide Level, OperatorAt, ParseLevel;
    assert ParseLevel(ts, j + 1, Level(op) + 1, depth) == Some((right, k));
  }

  lemma ContinueIs(ts: seq<Token>, j: nat, level: nat, depth: nat, e: Expr)
    requires level < UNARY_LEVEL && j <= |ts|
    ensures Continue(ts, j, level, depth, e) == ParseRest(ts, j, level, depth, e)
  {
  }

  lemma EndsHigher(ts: seq<Token>, j: nat, level: nat)
    requires Ends(ts, j, level)
    ensures Ends(ts, j, level + 1)
  {
    hide OperatorAt;
  }

  lemma BinaryFacts(e: Expr)
    requires e.Binary?
    ensures WellNamed(e) ==> WellNamed(e.left) && WellNamed(e.right)
    ensures Nesting(e.left, Level(e.bop)) <= BareNesting(e) && Nesting(e.right, Level(e.bop) + 1) <= BareNesting(e)
    ensures Tokens(e, 0) == Bare(e) && Nesting(e, 0) == BareNesting(e) && !Wrapped(e, 0)
    ensures Tokens(e, UNARY_LEVEL) == [Sign(Open)] + (Bare(e) + [Sign(Close)])
    ensures Nesting(e, UNARY_LEVEL) == 1 + BareNesting(e) && Wrapped(e, UNARY_LEVEL)
  {
  }

  lemma {:induction false} BinaryParses(ts: seq<Token>, i: nat, depth: nat, e: Expr)
    requires e.Binary? && Reads(ts, i, Bare(e)) && WellNamed(e)
    requires Ends(ts, i + |Bare(e)|, Level(e.bop)) && depth + BareNesting(e) <= MAX_NESTING
    ensures ParseLevel(ts, i, Level(e.bop), depth) == ParseRest(ts, i + |Bare(e)|, Level(e.bop), depth, e)
    decreases e, 0, 0
  {
    hide *;
    BinaryFacts(e);
    var level := Level(e.bop);
    var j, k := i + |Tokens(e.left, level)|, i + |Bare(e)|;
    BinarySplit(ts, i, e);
    EndsWithOperator(ts, j, e.bop);
    EndsHigher(ts, k, level);
    TokensParse(ts, i, level, depth, e.left);
    TokensParse(ts, j + 1, level + 1, depth, e.right);
    ContinueIs(ts, j, level, depth, e.left);
    RestStep(ts, j, k, depth, e.bop, e.left, e.right);
  }

  lemma {:induction false} UnaryParses(ts: seq<Token>, i: nat, depth: nat, e: Expr)
    requires e.Unary? && Reads(ts, i, Bare(e)) && WellNamed(e)
    requires Ends(ts, i + |Bare(e)|, UNARY_LEVEL) && depth + BareNesting(e) <= MAX_NESTING
    ensures ParseUnary(ts, i, depth) == Some((e, i + |Bare(e)|))
    decreases e, 0, 0
  {
    assert i + |Bare(e)| <= |ts|;
    hide *;
    UnaryFacts(e);
    var sign, operand := [Sign(UnarySign(e.uop))], Tokens(e.operand, UNARY_LEVEL);
    Split(ts, i, sign, operand);
    One(ts, i, sign[0]);
    TokensParse(ts, i + 1, UNARY_LEVEL, depth + 1, e.operand);
    PrefixStep(ts, i, i + |Bare(e)|, depth, e);
  }

  lemma UnaryFacts(e: Expr)
    requires e.Unary?
    ensures Bare(e) == [Sign(UnarySign(e.uop))] + Tokens(e.operand, UNARY_LEVEL) && BareNesting(e) == 1 + Nesting(e.operand, UNARY_LEVEL)
    ensures WellNamed(e) ==> WellNamed(e.operand)
  {
  }

  lemma PrefixStep(ts: seq<Token>, i: nat, j: nat, depth: nat, e: Expr)
    requires e.Unary? && depth < MAX_NESTING && i + 1 < j <= |ts| && ts[i] == Sign(UnarySign(e.uop))
    requires ParseLevel(ts, i + 1, UNARY_LEVEL, depth + 1) == Continue(ts, j, UNARY_LEVEL, depth + 1, e.operand)
    ensures ParseUnary(ts, i, depth) == Some((e, j))
  {
    hide UnarySign;
    assert UnaryAt(ts, i) == Some(e.uop);
    assert ParseUnary(ts, i + 1, depth + 1) == Some((e.operand, j));
  }

  lemma {:induction false} WrappedParses(ts: seq<Token>, i: nat, depth: nat, e: Expr)
    requires e.Binary? && Reads(ts, i, Tokens(e, UNARY_LEVEL)) && WellNamed(e) && depth + 1 + BareNesting(e) <= MAX_NESTING
    ensures ParseUnary(ts, i, depth) == Some((e, i + |Tokens(e, UNARY_LEVEL)|))
    decreases e, 1, 0
  {
    hide *;
    BinaryFacts(e);
    var n := |Bare(e)|;
    Split(ts, i, [Sign(Open)], Bare(e) + [Sign(Close)]);
    Split(ts, i + 1, Bare(e), [Sign(Close)]);
    One(ts, i, Sign(Open));
    One(ts, i + 1 + n, Sign(Close));
    EndsWithSign(ts, i + 1 + n, Close);
    TokensParse(ts, i + 1, 0, depth + 1, e);
    StopsAt(ts, i + 1 + n, depth + 1, e);
    OpenStep(ts, i, i + 1 + n, depth, e);
  }

  lemma OpenStep(ts: seq<Token>, i: nat, j: nat, depth: nat, e: Expr)
    requires depth < MAX_NESTING && i + 1 < j < |ts| && ts[i] == Sign(Open) && ts[j] == Sign(Close)
    requires ParseLevel(ts, i + 1, 0, depth + 1) == Some((e, j))
    ensures ParseUnary(ts, i, depth) == Some((e, j + 1))
  {
    hide ParseLevel;
    assert UnaryAt(ts, i).None?;
  }

  lemma {:induction false} CallParses(ts: seq<Token>, i: nat, depth: nat, e: Expr)
    requires e.Call? && Reads(ts, i, Bare(e)) && WellNamed(e) && depth + BareNesting(e) <= MAX_NESTING
    ensures ParseUnary(ts, i, depth) == Some((e, i + |Bare(e)|))
    decreases e, 0, 0
  {
    hide *;
    CallFacts(e);
    var name, list := [Word(e.function_)], ListTokens(e.args) + [Sign(Close)];
    Split(ts, i, name, [Sign(Open)] + list);
    Split(ts, i + 1, [Sign(Open)], list);
    One(ts, i, name[0]);
    One(ts, i + 1, Sign(Open));
    ArgumentsParse(ts, i + 2, depth, e.args);
    CallStep(ts, i, i + |Bare(e)|, depth, e);
  }

  lemma CallFacts(e: Expr)
    requires e.Call?
    ensures Bare(e) == [Word(e.function_)] + ([Sign(Open)] + (ListTokens(e.args) + [Sign(Close)])) && BareNesting(e) == ListNesting(e.args)
    ensures WellNamed(e) ==>
              (forall i :: 0 <= i < |e.args| ==> WellNamed(e.args[i])) && e.function_ != "true" && e.function_ != "false"
  {
  }

  lemma CallStep(ts: seq<Token>, i: nat, j: nat, depth: nat, e: Expr)
    requires e.Call? && e.function_ != "true" && e.function_ != "false" && i + 2 <= |ts|
    requires ts[i] == Word(e.function_) && ts[i + 1] == Sign(Open) && ParseArguments(ts, i + 2, depth) == Some((e.args, j))
    ensures ParseUnary(ts, i, depth) == Some((e, j))
  {
    hide ParseArguments;
    assert UnaryAt(ts, i).None? && SignAt(ts, i + 1, Open);
  }

  lemma LeafParses(ts: seq<Token>, i: nat, depth: nat, e: Expr)
    requires (e.Literal? || e.Name?) && Reads(ts, i, Bare(e)) && WellNamed(e) && Ends(ts, i + 1, UNARY_LEVEL)
    ensures ParseUnary(ts, i, depth) == Some((e, i + 1)) && |Bare(e)| == 1
  {
    assert Bare(e) == [Bare(e)[0]];
    One(ts, i, Bare(e)[0]);
    hide Reads, OperatorAt, ParseArguments;
  }

  lemma PlainFacts(e: Expr)
    requires !e.Binary?
    ensures Tokens(e, UNARY_LEVEL) == Bare(e) && Nesting(e, UNARY_LEVEL) == BareNesting(e) && !Wrapped(e, UNARY_LEVEL)
    ensures e.Literal? || e.Name? ==> |Bare(e)| == 1
  {
    hide ListTokens, ListNesting;
  }

  lemma {:induction false} PrimaryParses(ts: seq<Token>, i: nat, depth: nat, e: Expr)
    requires Reads(ts, i, Tokens(e, UNARY_LEVEL)) && WellNamed(e)
    requires Ends(ts, i + |Tokens(e, UNARY_LEVEL)|, UNARY_LEVEL) && depth + Nesting(e, UNARY_LEVEL) <= MAX_NESTING
    ensures ParseUnary(ts, i, depth) == Some((e, i + |Tokens(e, UNARY_LEVEL)|))
    decreases e, if Wrapped(e, UNARY_LEVEL) then 1 else 0, 1
  {
    hide *;
    if e.Binary? { BinaryFacts(e); } else { PlainFacts(e); }
    match e
    case Unary(op, x) => UnaryParses(ts, i, depth, e);
    case Binary(op, l, r) => WrappedParses(ts, i, depth, e);
    case Call(name, args) => CallParses(ts, i, depth, e);
    case _ => LeafParses(ts, i, depth, e);
  }

  lemma {:induction false} ArgumentsParse(ts: seq<Token>, i: nat, depth: nat, args: seq<Expr>)
    requires Reads(ts, i, ListTokens(args) + [Sign(Close)]) && forall k :: 0 <= k < |args| ==> WellNamed(args[k])
    requires depth + ListNesting(args) <= MAX_NESTING
    ensures ParseArguments(ts, i, depth) == Some((args, i + |ListTokens(args)| + 1))
    decreases args, 1
  {
    if args == [] {
      assert ListTokens(args) + [Sign(Close)] == [Sign(Close)];
      One(ts, i, Sign(Close));
    } else {
      Split(ts, i, ListTokens(args), [Sign(Close)]);
      NotClosed(args);
      assert ts[i] == ts[i..i + |ListTokens(args)|][0];
      ListParses(ts, i, depth, [], args);
      assert [] + args == args;
    }
  }

  lemma {:induction false} StartsOpen(e: Expr, level: nat)
    ensures |Tokens(e, level)| > 0 && Tokens(e, level)[0] != Sign(Close)
    decreases e
  {
    if e.Binary? { StartsOpen(e.left, Level(e.bop)); }
    if e.Unary? { assert UnaryOf(Close).None?; }
  }

  lemma NotClosed(es: seq<Expr>)
    requires es != []
    ensures |ListTokens(es)| > 0 && ListTokens(es)[0] != Sign(Close)
  {
    StartsOpen(es[0], 0);
  }

  lemma LastSplit(ts: seq<Token>, i: nat, first: seq<Token>)
    requires Reads(ts, i, first + [Sign(Close)])
    ensures Reads(ts, i, first) && i + |first| < |ts| && ts[i + |first|] == Sign(Close)
  {
    Split(ts, i, first, [Sign(Close)]);
    One(ts, i + |first|, Sign(Close));
  }

  lemma NextSplit(ts: seq<Token>, i: nat, first: seq<Token>, others: seq<Token>)
    requires Reads(ts, i, first + [Sign(Comma)] + others + [Sign(Close)])
    ensures Reads(ts, i, first) && i + |first| < |ts| && ts[i + |first|] == Sign(Comma)
    ensures Reads(ts, i + |first| + 1, others + [Sign(Close)])
  {
    var rest := others + [Sign(Close)];
    assert first + [Sign(Comma)] + others + [Sign(Close)] == first + ([Sign(Comma)] + rest);
    hide Reads;
    Split(ts, i, first, [Sign(Comma)] + rest);
    Split(ts, i + |first|, [Sign(Comma)], rest);
    One(ts, i + |first|, Sign(Comma));
  }

  lemma ListStep(ts: seq<Token>, i: nat, j: nat, depth: nat, done: seq<Expr>, e: Expr)
    requires depth < MAX_NESTING && i < j < |ts| && ParseLevel(ts, i, 0, depth + 1) == Some((e, j))
    ensures ts[j] == Sign(Close) ==> ParseList(ts, i, depth, done) == Some((done + [e], j + 1))
    ensures ts[j] == Sign(Comma) ==> ParseList(ts, i, depth, done) == ParseList(ts, j + 1, depth, done + [e])
  {
    hide ParseLevel;
  }

  lemma ListSplit(ts: seq<Token>, i: nat, es: seq<Expr>)
    requires es != [] && Reads(ts, i, ListTokens(es) + [Sign(Close)])
    ensures var j := i + |Tokens(es[0], 0)|;
      && Reads(ts, i, Tokens(es[0], 0)) && j < |ts|
      && (|es| == 1 ==> ts[j] == Sign(Close) && j == i + |ListTokens(es)|)
      && (|es| > 1 ==> ts[j] == Sign(Comma) && Reads(ts, j + 1, ListTokens(es[1..]) + [Sign(Close)])
                       && j + 1 + |ListTokens(es[1..])| == i + |ListTokens(es)|)
  {
    hide *;
    ListFacts(es);
    if |es| == 1 { LastSplit(ts, i, Tokens(es[0], 0)); } else { NextSplit(ts, i, Tokens(es[0], 0), ListTokens(es[1..])); }
  }

  lemma FirstParses(ts: seq<Token>, i: nat, depth: nat, e: Expr)
    requires Reads(ts, i, Tokens(e, 0)) && WellNamed(e) && depth + Nesting(e, 0) <= MAX_NESTING
    requires i + |Tokens(e, 0)| < |ts| && ts[i + |Tokens(e, 0)|] in {Sign(Close), Sign(Comma)}
    ensures ParseLevel(ts, i, 0, depth) == Some((e, i + |Tokens(e, 0)|))
    decreases e, 2
  {
    hide *;
    var j := i + |Tokens(e, 0)|;
    EndsWithSign(ts, j, ts[j].symbol);
    TokensParse(ts, i, 0, depth, e);
    StopsAt(ts, j, depth, e);
  }

  lemma {:induction false} ListParses(ts: seq<Token>, i: nat, depth: nat, done: seq<Expr>, es: seq<Expr>)
    requires es != [] && Reads(ts, i, ListTokens(es) + [Sign(Close)]) && forall k :: 0 <= k < |es| ==> WellNamed(es[k])
    requires depth + ListNesting(es) <= MAX_NESTING
    ensures ParseList(ts, i, depth, done) == Some((done + es, i + |ListTokens(es)| + 1))
    decreases es, 0
  {
    hide *;
    ListFacts(es);
    ListSplit(ts, i, es);
    FirstParses(ts, i, depth + 1, es[0]);
    ListStep(ts, i, i + |Tokens(es[0], 0)|, depth, done, es[0]);
    FirstAndRest(done, es);
    if |es| > 1 { ListParses(ts, i + |Tokens(es[0], 0)| + 1, depth, done + [es[0]], es[1..]); }
  }

  lemma FirstAndRest(done: seq<Expr>, es: seq<Expr>)
    requires es != []
    ensures done + [es[0]] + es[1..] == done + es && (|es| == 1 ==> done + [es[0]] == done + es)
  {
  }

  lemma ListFacts(es: seq<Expr>)
    requires es != []
    ensures ListTokens(es) == if |es| == 1 then Tokens(es[0], 0) else Tokens(es[0], 0) + [Sign(Comma)] + ListTokens(es[1..])
    ensures 1 + Nesting(es[0], 0) <= ListNesting(es) && ListNesting(es[1..]) <= ListNesting(es)
  {
  }

  lemma StopsAt(ts: seq<Token>, j: nat, depth: nat, e: Expr)
    requires j <= |ts| && OperatorAt(ts, j, 0).None?
    ensures Continue(ts, j, 0, depth, e) == Some((e, j))
  {
  }

  /** Writing a tree with as few parentheses as precedence allows and reading it back yields the tree. */
  lemma RoundTrip(e: Expr)
    requires WellNamed(e) && Nesting(e, 0) <= MAX_NESTING
    ensures Parse(Tokens(e, 0)) == Some(e)
  {
    var ts := Tokens(e, 0);
    assert ts[0..|ts|] == ts;
    TokensParse(ts, 0, 0, 0, e);
  }

  // ---------------------------------------------------------------- precedence, as C++ has it

  /** The binary operators of C++ by precedence, from the loosest class to the tightest. */
  const CLASSES: seq<map<Symbol, BinaryOp>> :=
    [map[BarBar := LogicalOr], map[AmpAmp := LogicalAnd], map[Bar := BitOr], map[Caret := BitXor], map[Amp := BitAnd],
     map[EqualEqual := Equal, BangEqual := NotEqual], map[Lt := Less, LtEqual := LessEqual, Gt := Greater, GtEqual := GreaterEqual],
     map[LtLt := ShiftLeft, GtGt := ShiftRight], map[PlusSign := Add, MinusSign := Subtract],
     map[Star := Multiply, Slash := Divide_, Percent := Modulo]]

  /** The prefix operators of C++. */
  const PREFIXES: map<Symbol, UnaryOp> := map[Bang := Not, Tilde := Invert, PlusSign := Plus, MinusSign := Minus]

  predicate Plain(name: string) { name != "true" && name != "false" }

  lemma ClassIs(a: nat, s: Symbol)
    requires a < |CLASSES| && s in CLASSES[a]
    ensures Level(CLASSES[a][s]) == a && BinarySign(CLASSES[a][s]) == s
  {
    if a < 5 { LooseClass(a, s); } else if a < 7 { ComparingClass(a, s); } else { TightClass(a, s); }
  }

  lemma LooseClass(a: nat, s: Symbol)
    requires a < 5 && s in CLASSES[a]
    ensures Level(CLASSES[a][s]) == a && BinarySign(CLASSES[a][s]) == s
  {
  }

  lemma ComparingClass(a: nat, s: Symbol)
    requires 5 <= a < 7 && s in CLASSES[a]
    ensures Level(CLASSES[a][s]) == a && BinarySign(CLASSES[a][s]) == s
  {
  }

  lemma TightClass(a: nat, s: Symbol)
    requires 7 <= a < |CLASSES| && s in CLASSES[a]
    ensures Level(CLASSES[a][s]) == a && BinarySign(CLASSES[a][s]) == s
  {
  }

  lemma OperandTokens(e: Expr, level: nat)
    requires e.Name? || (e.Unary? && e.operand.Name?)
    ensures Tokens(e, level) == Bare(e) && Nesting(e, level) == BareNesting(e) <= 1
    ensures Bare(e) == if e.Name? then [Word(e.name)] else [Sign(UnarySign(e.uop)), Word(e.operand.name)]
    ensures WellNamed(e) <==> Plain(if e.Name? then e.name else e.operand.name)
  {
  }

  lemma BinaryTokens(e: Expr, level: nat)
    requires e.Binary? && level <= Level(e.bop)
    ensures Tokens(e, level) == Tokens(e.left, Level(e.bop)) + [Sign(BinarySign(e.bop))] + Tokens(e.right, Level(e.bop) + 1)
    ensures Nesting(e.left, Level(e.bop)) <= 1 && Nesting(e.right, Level(e.bop) + 1) <= 1 ==> Nesting(e, level) <= 1
    ensures WellNamed(e.left) && WellNamed(e.right) ==> WellNamed(e)
  {
  }

  /** Of two operators in a row the left one is applied first exactly when its class is the same or tighter. */
  lemma Precedence(x: string, y: string, z: string, a: nat, b: nat, s: Symbol, t: Symbol)
    requires a < |CLASSES| && b < |CLASSES| && s in CLASSES[a] && t in CLASSES[b] && Plain(x) && Plain(y) && Plain(z)
    ensures Parse([Word(x), Sign(s), Word(y), Sign(t), Word(z)]) ==
            Some(if b <= a then Binary(CLASSES[b][t], Binary(CLASSES[a][s], Name(x), Name(y)), Name(z))
                 else Binary(CLASSES[a][s], Name(x), Binary(CLASSES[b][t], Name(y), Name(z))))
  {
    ClassIs(a, s);
    ClassIs(b, t);
    var op, op2 := CLASSES[a][s], CLASSES[b][t];
    var ts := [Word(x), Sign(s), Word(y), Sign(t), Word(z)];
    var e := if b <= a then Binary(op2, Binary(op, Name(x), Name(y)), Name(z)) else Binary(op, Name(x), Binary(op2, Name(y), Name(z)));
    hide Parse, Level, BinarySign, Tokens, Bare, Nesting, WellNamed, CLASSES, Plain;
    forall n, level ensures Tokens(Name(n), level) == [Word(n)] && Nesting(Name(n), level) <= 1 && (Plain(n) ==> WellNamed(Name(n))) {
      OperandTokens(Name(n), level);
    }
    BinaryTokens(e, 0);
    if b <= a { BinaryTokens(e.left, b); } else { BinaryTokens(e.right, a + 1); }
    assert Tokens(e, 0) == ts;
    RoundTrip(e);
  }

  /** A prefix operator applies to the one operand behind it, before any binary operator. */
  lemma PrefixFirst(x: string, y: string, a: nat, s: Symbol, p: Symbol)
    requires a < |CLASSES| && s in CLASSES[a] && p in PREFIXES && Plain(x) && Plain(y)
    ensures Parse([Sign(p), Word(x), Sign(s), Word(y)]) == Some(Binary(CLASSES[a][s], Unary(PREFIXES[p], Name(x)), Name(y)))
    ensures Parse([Word(x), Sign(s), Sign(p), Word(y)]) == Some(Binary(CLASSES[a][s], Name(x), Unary(PREFIXES[p], Name(y))))
  {
    ClassIs(a, s);
    assert UnarySign(PREFIXES[p]) == p;
    PrefixOperand(x, y, CLASSES[a][s], PREFIXES[p]);
  }

  lemma PrefixOperand(x: string, y: string, op: BinaryOp, prefix: UnaryOp)
    requires Plain(x) && Plain(y)
    ensures var (s, p) := (Sign(BinarySign(op)), Sign(UnarySign(prefix)));
            && Parse([p, Word(x), s, Word(y)]) == Some(Binary(op, Unary(prefix, Name(x)), Name(y)))
            && Parse([Word(x), s, p, Word(y)]) == Some(Binary(op, Name(x), Unary(prefix, Name(y))))
  {
    var s, p := Sign(BinarySign(op)), Sign(UnarySign(prefix));
    var e, e' := Binary(op, Unary(prefix, Name(x)), Name(y)), Binary(op, Name(x), Unary(prefix, Name(y)));
    assert 1 <= MAX_NESTING && 0 <= Level(op) < UNARY_LEVEL;
    hide *;
    OperandTokens(e.left, Level(op));
    OperandTokens(e.right, Level(op) + 1);
    OperandTokens(e'.left, Level(op));
    OperandTokens(e'.right, Level(op) + 1);
    BinaryTokens(e, 0);
    BinaryTokens(e', 0);
    assert Tokens(e, 0) == [p, Word(x), s, Word(y)];
    assert Tokens(e', 0) == [Word(x), s, p, Word(y)];
    RoundTrip(e);
    RoundTrip(e');
  }

  /** What every level makes of an operand that nothing extends, or of none. */
  lemma {:induction false} NothingFollows(ts: seq<Token>, i: nat, level: nat, depth: nat)
    requires level <= UNARY_LEVEL && i <= |ts|
    requires var r := ParseUnary(ts, i, depth); r.Some? ==> forall l :: OperatorAt(ts, r.value.1, l).None?
    ensures ParseLevel(ts, i, level, depth) == ParseUnary(ts, i, depth)
    decreases UNARY_LEVEL - level
  {
    if level < UNARY_LEVEL { NothingFollows(ts, i, level + 1, depth); }
  }

  /** No other sign joins two operands, and none stands before one. */
  lemma OtherSigns(x: string, y: string, s: Symbol)
    requires Plain(x) && Plain(y)
    ensures (forall a: nat :: a < |CLASSES| ==> s !in CLASSES[a]) ==> Parse([Word(x), Sign(s), Word(y)]).None?
    ensures s !in PREFIXES ==> Parse([Sign(s), Word(x)]).None?
  {
    if forall a: nat :: a < |CLASSES| ==> s !in CLASSES[a] {
      var ts := [Word(x), Sign(s), Word(y)];
      NoClass(s);
      if s == Open {
        NothingFollows(ts, 2, 0, 1);
        assert ParseList(ts, 2, 0, []).None? && ParseArguments(ts, 2, 0).None?;
      } else {
        assert ParsePrimary(ts, 0, 0) == Some((Name(x), 1)) && forall l :: OperatorAt(ts, 1, l).None?;
      }
      NothingFollows(ts, 0, 0, 0);
    }
    if s !in PREFIXES {
      var ts := [Sign(s), Word(x)];
      if s == Open { NothingFollows(ts, 1, 0, 1); }
      NothingFollows(ts, 0, 0, 0);
    }
  }

  lemma NoClass(s: Symbol)
    requires forall a: nat :: a < |CLASSES| ==> s !in CLASSES[a]
    ensures BinaryOf(s).None?
  {
    if BinaryOf(s).Some? {
      var a := Level(BinaryOf(s).value);
      assert s !in CLASSES[a];
    }
  }

  /** Prefix operators nest up to thirty-two deep and no deeper. */
  lemma {:induction false} PrefixesNest(ts: seq<Token>, i: nat, n: nat, depth: nat)
    requires i + n + 1 == |ts| && ts[i + n].Word? && forall k :: i <= k < i + n ==> ts[k] == Sign(MinusSign)
    ensures ParseUnary(ts, i, depth).Some? <==> n == 0 || depth + n <= 32
    ensures ParseUnary(ts, i, depth).Some? ==> ParseUnary(ts, i, depth).value.1 == |ts|
    decreases n
  {
    if n > 0 && depth < 32 { PrefixesNest(ts, i + 1, n - 1, depth + 1); }
  }

  lemma NestingLimit(n: nat, x: string)
    ensures Parse(seq(n, (_: nat) => Sign(MinusSign)) + [Word(x)]).Some? <==> n <= 32
  {
    var ts := seq(n, (_: nat) => Sign(MinusSign)) + [Word(x)];
    PrefixesNest(ts, 0, n, 0);
    NothingFollows(ts, 0, 0, 0);
  }
}
