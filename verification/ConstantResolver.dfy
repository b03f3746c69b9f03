/** The memoised, depth-limited resolver of constant expressions.

    `eval` stands for the expression evaluator on the values of the references, each expression being
    assumed to evaluate. */
module ConstantResolver {
  import opened ConstantGraph

  const MAX_DEPENDENCY_DEPTH := 32

  datatype State = Visiting | Done

  /** The resolver's tables, as one value. */
  datatype Memo = Memo(states: map<nat, State>, depths: map<nat, nat>, values: map<nat, int>)

  ghost predicate IsDone(m: Memo, c: nat) {
    c in m.states && m.states[c] == Done
  }

  /** A finished constant has its longest chain, its value, and finished references. */
  ghost predicate Settled(deps: Graph, eval: (nat, seq<int>) -> int, m: Memo, c: nat) {
    && c < |deps| && c in m.depths && c in m.values
    && LongestFrom(deps, c, m.depths[c]) && m.depths[c] <= MAX_DEPENDENCY_DEPTH
    && (forall i :: 0 <= i < |deps[c]| ==> IsDone(m, deps[c][i]) && deps[c][i] in m.values)
    && m.values[c] == eval(c, Arguments(m.values, deps[c]))
  }

  ghost predicate Consistent(deps: Graph, eval: (nat, seq<int>) -> int, m: Memo) {
    && (forall c: nat :: IsDone(m, c) ==> Settled(deps, eval, m, c))
    && (forall c: nat :: c in m.values ==> IsDone(m, c))
  }

  /** Finished constants stay finished at their depth; `Consistent` then fixes their values. */
  ghost predicate Keeps(before: Memo, after: Memo) {
    forall c: nat :: IsDone(before, c) ==>
      IsDone(after, c) && (c in before.depths ==> c in after.depths && after.depths[c] == before.depths[c])
  }

  lemma BeginKeeps(deps: Graph, eval: (nat, seq<int>) -> int, m: Memo, c: nat)
    requires Consistent(deps, eval, m) && !IsDone(m, c)
    ensures Consistent(deps, eval, m.(states := m.states[c := Visiting])) && Keeps(m, m.(states := m.states[c := Visiting]))
  {
    var m' := m.(states := m.states[c := Visiting]);
    forall d: nat | IsDone(m', d) ensures Settled(deps, eval, m', d) {
      assert IsDone(m, d) && Settled(deps, eval, m, d);
    }
  }

  /** Giving up on a constant takes it off the tables again. */
  lemma GiveUpKeeps(deps: Graph, eval: (nat, seq<int>) -> int, m: Memo, c: nat)
    requires Consistent(deps, eval, m) && !IsDone(m, c)
    ensures Consistent(deps, eval, m.(states := m.states - {c})) && Keeps(m, m.(states := m.states - {c}))
  {
    var m' := m.(states := m.states - {c});
    forall d: nat | IsDone(m', d) ensures Settled(deps, eval, m', d) {
      assert IsDone(m, d) && Settled(deps, eval, m, d);
    }
  }

  lemma FinishKeeps(deps: Graph, eval: (nat, seq<int>) -> int, m: Memo, c: nat, depth: nat)
    requires Consistent(deps, eval, m) && c < |deps| && !IsDone(m, c)
    requires forall i :: 0 <= i < |deps[c]| ==> IsDone(m, deps[c][i]) && deps[c][i] in m.values
    requires LongestFrom(deps, c, depth) && depth <= MAX_DEPENDENCY_DEPTH
    ensures var m' := Memo(m.states[c := Done], m.depths[c := depth], m.values[c := eval(c, Arguments(m.values, deps[c]))]);
            Consistent(deps, eval, m') && Keeps(m, m')
  {
    var m' := Memo(m.states[c := Done], m.depths[c := depth], m.values[c := eval(c, Arguments(m.values, deps[c]))]);
    forall d: nat | IsDone(m', d) ensures Settled(deps, eval, m', d) {
      if d != c { assert IsDone(m, d) && Settled(deps, eval, m, d); }
      assert Arguments(m'.values, deps[d]) == Arguments(m.values, deps[d]);
    }
  }

  lemma SettledOf(deps: Graph, eval: (nat, seq<int>) -> int, m: Memo, c: nat)
    requires Consistent(deps, eval, m) && IsDone(m, c)
    ensures Settled(deps, eval, m, c)
  {
  }

  lemma Alone(deps: Graph, c: nat)
    requires c < |deps|
    ensures Walk(deps, [c])
  {
  }

  /** Why resolving `c` must fail: some chain from it is longer than the limit (any cycle is one) or ends in an unknown
      name. */
  ghost predicate FaultyFrom(deps: Graph, c: nat) {
    exists w :: Walk(deps, w) && w[0] == c && FaultyChain(deps, w)
  }

  ghost predicate FaultyChain(deps: Graph, w: seq<nat>)
    requires Walk(deps, w)
  {
    |w| > MAX_DEPENDENCY_DEPTH || !KnownReferences(deps, w[|w| - 1])
  }

  predicate KnownReferences(deps: Graph, c: nat)
    requires c < |deps|
  {
    forall i :: 0 <= i < |deps[c]| ==> deps[c][i] < |deps|
  }

  lemma FaultyOverall(deps: Graph, c: nat)
    requires FaultyFrom(deps, c)
    ensures !Known(deps) || !Bounded(deps, MAX_DEPENDENCY_DEPTH)
  {
    var w :| Walk(deps, w) && w[0] == c && FaultyChain(deps, w);
  }

  /** Every chain from a finished constant stays among finished constants. */
  lemma {:induction false} DoneChain(deps: Graph, eval: (nat, seq<int>) -> int, m: Memo, w: seq<nat>)
    requires Consistent(deps, eval, m) && Walk(deps, w) && IsDone(m, w[0])
    ensures IsDone(m, w[|w| - 1])
  {
    hide Consistent, LongestFrom;
    if |w| > 1 {
      SettledOf(deps, eval, m, w[0]);
      var i :| 0 <= i < |deps[w[0]]| && deps[w[0]][i] == w[1];
      Suffix(deps, w, 1);
      DoneChain(deps, eval, m, w[1..]);
    }
  }

  lemma DoneIsNotFaulty(deps: Graph, eval: (nat, seq<int>) -> int, m: Memo, c: nat)
    requires Consistent(deps, eval, m) && IsDone(m, c)
    ensures !FaultyFrom(deps, c)
  {
    forall w | Walk(deps, w) && w[0] == c ensures !FaultyChain(deps, w) {
      DoneChain(deps, eval, m, w);
      SettledOf(deps, eval, m, c);
      SettledOf(deps, eval, m, w[|w| - 1]);
      hide Consistent;
      var last := w[|w| - 1];
      forall i | 0 <= i < |deps[last]| ensures deps[last][i] < |deps| {
        assert IsDone(m, deps[last][i]);
        DoneIsKnown(deps, eval, m, deps[last][i]);
      }
    }
  }

  lemma DoneIsKnown(deps: Graph, eval: (nat, seq<int>) -> int, m: Memo, c: nat)
    requires Consistent(deps, eval, m) && IsDone(m, c)
    ensures c < |deps|
  {
    SettledOf(deps, eval, m, c);
  }

  class Resolver {
    const deps: Graph
    const eval: (nat, seq<int>) -> int
    var states: map<nat, State>
    var depths: map<nat, nat>
    var values: map<nat, int>
    var childDepths: seq<nat>
    var activeDepth: nat

    constructor (deps: Graph, eval: (nat, seq<int>) -> int)
      ensures this.deps == deps && this.eval == eval && Inv([])
    {
      this.deps, this.eval := deps, eval;
      states, depths, values, childDepths, activeDepth := map[], map[], map[], [], 0;
    }

    ghost function Tables(): Memo
      reads this
    {
      Memo(states, depths, values)
    }

    /** `path` is the chain of constants whose expressions are being evaluated. */
    ghost predicate Inv(path: seq<nat>)
      reads this
    {
      && |path| == activeDepth == |childDepths| && activeDepth <= MAX_DEPENDENCY_DEPTH
      && (forall c: nat :: c in states && states[c] == Visiting <==> c in path)
      && Consistent(deps, eval, Tables())
      && (path != [] ==> Walk(deps, path))
    }

    /** resolve_constant / resolve_package_constant, with the references of the expression looked up in turn. */
    method Resolve(c: nat, ghost path: seq<nat>) returns (ok: bool)
      requires Inv(path) && c < |deps| && Walk(deps, path + [c])
      modifies this`states, this`depths, this`values, this`childDepths, this`activeDepth
      ensures !ok ==> FaultyFrom(deps, (path + [c])[0])
      ensures ok ==> !FaultyFrom(deps, c)
      ensures Inv(path) && childDepths == old(childDepths) && Keeps(old(Tables()), Tables()) && (ok ==> IsDone(Tables(), c))
      decreases MAX_DEPENDENCY_DEPTH - |path|, 1
    {
      hide Consistent, LongestFrom, Settled, Keeps, FaultyFrom, Walk;
      if c in states && states[c] == Visiting {
        CycleFound(deps, path, c);
        KeepsSelf(Tables());
        return false;
      }
      if c in states {
        KeepsSelf(Tables());
        DoneIsNotFaulty(deps, eval, Tables(), c);
        return true;
      }
      if activeDepth >= MAX_DEPENDENCY_DEPTH {
        LongWalk(deps, path + [c]);
        KeepsSelf(Tables());
        return false;
      }
      BeginKeeps(deps, eval, Tables(), c);
      ghost var entered := Tables().(states := states[c := Visiting]);
      PathParts(deps, path, c);
      activeDepth := activeDepth + 1;
      childDepths := childDepths + [0];
      states := states[c := Visiting];
      ok := LookUpReferences(c, path + [c]);
      ghost var looked := Tables();
      KeepsTransitive(old(Tables()), entered, looked);
      if !ok {
        GiveUp(c, path);
        KeepsTransitive(old(Tables()), looked, Tables());
        return;
      }
      var depth := childDepths[|childDepths| - 1] + 1;
      if depth > MAX_DEPENDENCY_DEPTH {
        TooDeep(deps, path, c, depth);
        GiveUp(c, path);
        KeepsTransitive(old(Tables()), looked, Tables());
        return false;
      }
      Record(c, path, depth);
      DoneIsNotFaulty(deps, eval, Tables(), c);
      KeepsTransitive(old(Tables()), looked, Tables());
    }

    /** Leave one constant after an error: nothing of it stays behind, so that it may be tried again. */
    method GiveUp(c: nat, ghost path: seq<nat>)
      requires Inv(path + [c]) && c !in path && (path != [] ==> Walk(deps, path))
      modifies this`states, this`childDepths, this`activeDepth
      ensures Inv(path) && Keeps(old(Tables()), Tables()) && c !in states
      ensures childDepths == old(childDepths)[..|path|]
    {
      hide Consistent, Walk, Keeps;
      assert states[c] == Visiting by { assert c in path + [c]; }
      GiveUpKeeps(deps, eval, Tables(), c);
      states := states - {c};
      childDepths := childDepths[..|childDepths| - 1];
      activeDepth := activeDepth - 1;
    }

    /** Leave one constant: store its depth and value, and drop its frame. */
    method Record(c: nat, ghost path: seq<nat>, depth: nat)
      requires Inv(path + [c]) && c < |deps| && c !in path && (path != [] ==> Walk(deps, path))
      requires forall i :: 0 <= i < |deps[c]| ==> IsDone(Tables(), deps[c][i]) && deps[c][i] in values
      requires LongestFrom(deps, c, depth) && depth <= MAX_DEPENDENCY_DEPTH
      modifies this`states, this`depths, this`values, this`childDepths, this`activeDepth
      ensures Inv(path) && IsDone(Tables(), c) && Keeps(old(Tables()), Tables())
      ensures childDepths == old(childDepths)[..|path|]
    {
      hide Consistent, LongestFrom, Walk, Keeps, Settled;
      assert states[c] == Visiting by { assert c in path + [c]; }
      FinishKeeps(deps, eval, Tables(), c, depth);
      values := values[c := eval(c, Arguments(values, deps[c]))];
      depths, states := depths[c := depth], states[c := Done];
      childDepths := childDepths[..|childDepths| - 1];
      activeDepth := activeDepth - 1;
    }

    /** The lookups made while one expression is evaluated, each recording how deep it went. */
    method LookUpReferences(c: nat, ghost path: seq<nat>) returns (ok: bool)
      requires Inv(path) && c < |deps| && path != [] && path[|path| - 1] == c && childDepths[|path| - 1] == 0
      modifies this`states, this`depths, this`values, this`childDepths, this`activeDepth
      ensures !ok ==> FaultyFrom(deps, path[0])
      ensures Inv(path) && childDepths[..|path| - 1] == old(childDepths)[..|path| - 1] && Keeps(old(Tables()), Tables())
      ensures ok ==> forall i :: 0 <= i < |deps[c]| ==> IsDone(Tables(), deps[c][i]) && deps[c][i] in values
      ensures ok ==> LongestFrom(deps, c, childDepths[|path| - 1] + 1)
      decreases MAX_DEPENDENCY_DEPTH - |path|, 2
    {
      hide Consistent, LongestFrom, Walk, FaultyFrom;
      var i := 0;
      while i < |deps[c]|
        invariant i <= |deps[c]| && Inv(path) && childDepths[..|path| - 1] == old(childDepths)[..|path| - 1]
        invariant Keeps(old(Tables()), Tables())
        invariant forall j :: 0 <= j < i ==> IsDone(Tables(), deps[c][j]) && Deep(depths, deps[c][j], childDepths[|path| - 1])
        invariant if i == 0 then childDepths[|path| - 1] == 0
                  else exists j :: 0 <= j < i && deps[c][j] in depths && depths[deps[c][j]] == childDepths[|path| - 1]
      {
        var r := deps[c][i];
        if r >= |deps| {
          UnknownName(deps, path, i);
          return false;
        }
        StepWalk(deps, path, r);
        ghost var before := Tables();
        ok := Resolve(r, path);
        KeepsTransitive(old(Tables()), before, Tables());
        if !ok { return; }
        SettledOf(deps, eval, Tables(), r);
        var top := |childDepths| - 1;
        childDepths := childDepths[top := if childDepths[top] < depths[r] then depths[r] else childDepths[top]];
        i := i + 1;
      }
      forall i | 0 <= i < |deps[c]| ensures Settled(deps, eval, Tables(), deps[c][i]) {
        SettledOf(deps, eval, Tables(), deps[c][i]);
      }
      NewDepth(deps, c, depths, childDepths[|path| - 1] + 1);
      ok := true;
    }

    /** The driver loop: resolve every constant, in the order `order`. */
    method ResolveAll(order: seq<nat>) returns (ok: bool)
      requires Inv([])
      requires forall c: nat :: c in order <==> c < |deps|
      modifies this`states, this`depths, this`values, this`childDepths, this`activeDepth
      ensures ok <==> Known(deps) && Bounded(deps, 32)
      ensures Inv([])
      ensures ok ==> Valuation(deps, eval, values)
      ensures ok ==> forall c: nat :: c < |deps| ==> c in depths && LongestFrom(deps, c, depths[c])
    {
      hide Consistent, Walk, Valuation, LongestFrom, Bounded, FaultyFrom;
      var i := 0;
      while i < |order|
        invariant i <= |order| && Inv([])
        invariant forall j :: 0 <= j < i ==> IsDone(Tables(), order[j])
      {
        assert order[i] in order;
        assert [] + [order[i]] == [order[i]];
        Alone(deps, order[i]);
        ok := Resolve(order[i], []);
        if !ok {
          FaultyOverall(deps, order[i]);
          return;
        }
        i := i + 1;
      }
      forall c: nat | c < |deps| ensures IsDone(Tables(), c) { assert c in order; }
      AllDone(deps, eval, Tables());
      return true;
    }
  }

  lemma LongWalk(deps: Graph, w: seq<nat>)
    requires Walk(deps, w) && |w| > MAX_DEPENDENCY_DEPTH
    ensures FaultyFrom(deps, w[0])
  {
    assert FaultyChain(deps, w);
  }

  lemma UnknownName(deps: Graph, path: seq<nat>, i: nat)
    requires Walk(deps, path) && i < |deps[path[|path| - 1]]| && deps[path[|path| - 1]][i] >= |deps|
    ensures FaultyFrom(deps, path[0])
  {
    assert FaultyChain(deps, path);
  }

  lemma PathParts(deps: Graph, path: seq<nat>, c: nat)
    requires Walk(deps, path + [c])
    ensures path != [] ==> Walk(deps, path) && c in deps[path[|path| - 1]] && (path + [c])[0] == path[0]
  {
    var all := path + [c];
    if path != [] {
      forall i | 0 <= i < |path| ensures path[i] < |deps| { assert all[i] == path[i]; }
      forall i | 0 <= i < |path| - 1 ensures path[i + 1] in deps[path[i]] {
        assert all[i] == path[i] && all[i + 1] == path[i + 1];
        assert all[i + 1] in deps[all[i]];
      }
      assert all[|path| - 1 + 1] in deps[all[|path| - 1]];
    }
  }

  lemma KeepsSelf(m: Memo)
    ensures Keeps(m, m)
  {
  }

  lemma KeepsTransitive(a: Memo, b: Memo, c: Memo)
    requires Keeps(a, b) && Keeps(b, c)
    ensures Keeps(a, c)
  {
  }

  lemma TooDeep(deps: Graph, path: seq<nat>, c: nat, depth: nat)
    requires Walk(deps, path + [c]) && LongestFrom(deps, c, depth) && depth > MAX_DEPENDENCY_DEPTH
    ensures FaultyFrom(deps, (path + [c])[0])
  {
    var w :| Walk(deps, w) && w[0] == c && |w| == depth;
    PathParts(deps, path, c);
    if path == [] {
      LongWalk(deps, w);
    } else {
      Join(deps, path, w);
      LongWalk(deps, path + w);
    }
  }

  ghost predicate Deep(depths: map<nat, nat>, r: nat, bound: nat) {
    r in depths && depths[r] <= bound
  }

  lemma AllDone(deps: Graph, eval: (nat, seq<int>) -> int, m: Memo)
    requires Consistent(deps, eval, m) && forall c: nat :: c < |deps| ==> IsDone(m, c)
    ensures Known(deps) && Bounded(deps, MAX_DEPENDENCY_DEPTH) && Valuation(deps, eval, m.values)
    ensures forall c: nat :: c < |deps| ==> c in m.depths && LongestFrom(deps, c, m.depths[c])
  {
    forall c: nat | c < |deps|
      ensures c in m.depths && LongestFrom(deps, c, m.depths[c]) && m.depths[c] <= MAX_DEPENDENCY_DEPTH
    {
      SettledOf(deps, eval, m, c);
    }
    forall w | Walk(deps, w) ensures |w| <= MAX_DEPENDENCY_DEPTH {
      assert LongestFrom(deps, w[0], m.depths[w[0]]);
    }
    AllKnown(deps, eval, m);
    AllValued(deps, eval, m);
  }

  lemma AllKnown(deps: Graph, eval: (nat, seq<int>) -> int, m: Memo)
    requires Consistent(deps, eval, m) && forall c: nat :: c < |deps| ==> IsDone(m, c)
    ensures Known(deps)
  {
    hide Consistent, LongestFrom;
    forall c: nat, i: nat | c < |deps| && i < |deps[c]| ensures deps[c][i] < |deps| {
      SettledOf(deps, eval, m, c);
      SettledOf(deps, eval, m, deps[c][i]);
    }
  }

  lemma AllValued(deps: Graph, eval: (nat, seq<int>) -> int, m: Memo)
    requires Consistent(deps, eval, m) && Known(deps) && forall c: nat :: c < |deps| ==> IsDone(m, c)
    ensures Valuation(deps, eval, m.values)
  {
    forall c: nat ensures c in m.values <==> c < |deps| {
      if IsDone(m, c) { SettledOf(deps, eval, m, c); }
    }
    forall c: nat | c < |deps| ensures m.values[c] == eval(c, Arguments(m.values, deps[c])) {
      SettledOf(deps, eval, m, c);
    }
  }

  lemma StepWalk(deps: Graph, path: seq<nat>, r: nat)
    requires Walk(deps, path) && r < |deps| && r in deps[path[|path| - 1]]
    ensures Walk(deps, path + [r])
  {
    assert Walk(deps, [r]);
    Join(deps, path, [r]);
  }

  lemma CycleFound(deps: Graph, path: seq<nat>, c: nat)
    requires c in path && Walk(deps, path) && Walk(deps, path + [c])
    ensures FaultyFrom(deps, (path + [c])[0])
  {
    var i :| 0 <= i < |path| && path[i] == c;
    var cycle := path[i..];
    Suffix(deps, path, i);
    PathParts(deps, path, c);
    var w := CycleGivesLongWalk(deps, cycle, MAX_DEPENDENCY_DEPTH);
    if i == 0 {
      LongWalk(deps, w);
    } else {
      Prefix(deps, path, i);
      Join(deps, path[..i], w);
      LongWalk(deps, path[..i] + w);
    }
  }

  lemma Prefix(deps: Graph, w: seq<nat>, i: nat)
    requires Walk(deps, w) && 0 < i < |w|
    ensures Walk(deps, w[..i]) && w[i] in deps[w[..i][i - 1]]
  {
    assert w[i - 1 + 1] in deps[w[i - 1]];
  }

  /** One more than the deepest reference is the length of the longest chain. */
  lemma NewDepth(deps: Graph, c: nat, depths: map<nat, nat>, depth: nat)
    requires c < |deps| && depth > 0
    requires forall i :: 0 <= i < |deps[c]| ==>
               deps[c][i] in depths && LongestFrom(deps, deps[c][i], depths[deps[c][i]]) && depths[deps[c][i]] < depth
    requires if deps[c] == [] then depth == 1 else exists i :: 0 <= i < |deps[c]| && depths[deps[c][i]] == depth - 1
    ensures LongestFrom(deps, c, depth)
  {
    assert Walk(deps, [c]);
    if deps[c] != [] {
      var i :| 0 <= i < |deps[c]| && depths[deps[c][i]] == depth - 1;
      var w :| Walk(deps, w) && w[0] == deps[c][i] && |w| == depth - 1;
      Join(deps, [c], w);
    }
    forall w | Walk(deps, w) && w[0] == c ensures |w| <= depth {
      if |w| > 1 {
        Suffix(deps, w, 1);
        assert w[1..][0] == w[1] && w[1] in deps[c];
      }
    }
  }
}
