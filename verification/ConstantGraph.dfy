/** Constants that refer to each other: walks, longest chains, and what a consistent valuation is. */
module ConstantGraph {

  /** `deps[c]` lists the references of constant `c` in evaluation order. */
  type Graph = seq<seq<nat>>

  predicate Known(deps: Graph) {
    forall c, i :: 0 <= c < |deps| && 0 <= i < |deps[c]| ==> deps[c][i] < |deps|
  }

  /** A chain of constants, each referring to the next. */
  ghost predicate Walk(deps: Graph, w: seq<nat>) {
    && |w| > 0
    && (forall i :: 0 <= i < |w| ==> w[i] < |deps|)
    && (forall i :: 0 <= i < |w| - 1 ==> w[i + 1] in deps[w[i]])
  }

  ghost predicate Bounded(deps: Graph, limit: nat) {
    forall w :: Walk(deps, w) ==> |w| <= limit
  }

  ghost predicate Acyclic(deps: Graph) {
    forall w :: Walk(deps, w) && |w| > 1 ==> w[0] != w[|w| - 1]
  }

  /** `depth` constants are on the longest chain that starts at `c`. */
  ghost predicate LongestFrom(deps: Graph, c: nat, depth: nat) {
    && (exists w :: Walk(deps, w) && w[0] == c && |w| == depth)
    && (forall w :: Walk(deps, w) && w[0] == c ==> |w| <= depth)
  }

  ghost predicate ShortFrom(deps: Graph, c: nat, limit: nat) {
    exists d: nat :: d <= limit && LongestFrom(deps, c, d)
  }

  lemma Join(deps: Graph, a: seq<nat>, b: seq<nat>)
    requires Walk(deps, a) && Walk(deps, b) && b[0] in deps[a[|a| - 1]]
    ensures Walk(deps, a + b)
  {
    var w := a + b;
    forall i | 0 <= i < |w| - 1 ensures w[i + 1] in deps[w[i]] {
      if i < |a| - 1 { assert w[i] == a[i] && w[i + 1] == a[i + 1]; }
      else if i >= |a| { assert w[i] == b[i - |a|] && w[i + 1] == b[i + 1 - |a|]; }
    }
  }

  lemma Suffix(deps: Graph, w: seq<nat>, i: nat)
    requires Walk(deps, w) && i < |w|
    ensures Walk(deps, w[i..])
  {
    var s := w[i..];
    forall j | 0 <= j < |s| - 1 ensures s[j + 1] in deps[s[j]] {
      assert s[j] == w[i + j] && s[j + 1] == w[i + j + 1];
    }
  }

  /** Going round a cycle again and again gives a walk longer than any limit. */
  lemma {:induction false} CycleGivesLongWalk(deps: Graph, cycle: seq<nat>, n: nat) returns (w: seq<nat>)
    requires Walk(deps, cycle) && cycle[0] in deps[cycle[|cycle| - 1]]
    ensures Walk(deps, w) && w[0] == cycle[0] && w[|w| - 1] == cycle[|cycle| - 1] && |w| > n
  {
    if n == 0 {
      w := cycle;
    } else {
      var rest := CycleGivesLongWalk(deps, cycle, n - 1);
      Join(deps, rest, cycle);
      w := rest + cycle;
    }
  }

  /** The single condition "no walk is longer than the limit" is acyclicity together with short chains. */
  lemma BoundedIsAcyclicAndShort(deps: Graph, limit: nat)
    ensures Bounded(deps, limit) <==>
              Acyclic(deps) && forall c: nat :: c < |deps| ==> ShortFrom(deps, c, limit)
  {
    if Bounded(deps, limit) {
      forall w | Walk(deps, w) && |w| > 1 ensures w[0] != w[|w| - 1] {
        if w[0] == w[|w| - 1] {
          var cycle := w[..|w| - 1];
          assert w[|w| - 1] in deps[w[|w| - 2]];
          var long := CycleGivesLongWalk(deps, cycle, limit);
          assert false;
        }
      }
      forall c: nat | c < |deps| ensures ShortFrom(deps, c, limit) {
        assert Walk(deps, [c]);
        var d := Longest(deps, c, limit, 1, [c]);
      }
    }
    if Acyclic(deps) && forall c: nat :: c < |deps| ==> ShortFrom(deps, c, limit) {
      forall w | Walk(deps, w) ensures |w| <= limit {
        assert ShortFrom(deps, w[0], limit);
        var d: nat :| d <= limit && LongestFrom(deps, w[0], d);
      }
    }
  }

  lemma {:induction false} Longest(deps: Graph, c: nat, limit: nat, found: nat, w: seq<nat>) returns (d: nat)
    requires Bounded(deps, limit) && Walk(deps, w) && w[0] == c && |w| == found
    ensures d <= limit && LongestFrom(deps, c, d)
    decreases limit - found
  {
    if longer :| Walk(deps, longer) && longer[0] == c && |longer| > found {
      d := Longest(deps, c, limit, |longer|, longer);
    } else {
      d := found;
    }
  }

  // ---------------------------------------------------------------- values

  function Arguments(values: map<nat, int>, refs: seq<nat>): seq<int>
    requires forall i :: 0 <= i < |refs| ==> refs[i] in values
  {
    seq(|refs|, i requires 0 <= i < |refs| => values[refs[i]])
  }

  /** Every constant has the value its expression computes from the values it refers to. */
  ghost predicate Valuation(deps: Graph, eval: (nat, seq<int>) -> int, values: map<nat, int>) {
    && Known(deps)
    && (forall c: nat :: c in values <==> c < |deps|)
    && (forall c: nat :: c < |deps| ==> values[c] == eval(c, Arguments(values, deps[c])))
  }

  /** There is only one valuation of an acyclic graph, so the visiting order cannot matter. */
  lemma {:induction false} ValuationUnique(deps: Graph, eval: (nat, seq<int>) -> int, a: map<nat, int>, b: map<nat, int>, limit: nat)
    requires Bounded(deps, limit) && Valuation(deps, eval, a) && Valuation(deps, eval, b)
    ensures a == b
  {
    forall c | 0 <= c < |deps| ensures a[c] == b[c] {
      assert Walk(deps, [c]);
      SameValue(deps, eval, a, b, limit, [c]);
    }
  }

  lemma {:induction false} SameValue(deps: Graph, eval: (nat, seq<int>) -> int, a: map<nat, int>, b: map<nat, int>,
                                     limit: nat, w: seq<nat>)
    requires Bounded(deps, limit) && Valuation(deps, eval, a) && Valuation(deps, eval, b) && Walk(deps, w)
    ensures a[w[|w| - 1]] == b[w[|w| - 1]]
    decreases limit - |w|
  {
    var c := w[|w| - 1];
    forall i | 0 <= i < |deps[c]| ensures a[deps[c][i]] == b[deps[c][i]] {
      assert Walk(deps, [deps[c][i]]);
      Join(deps, w, [deps[c][i]]);
      SameValue(deps, eval, a, b, limit, w + [deps[c][i]]);
    }
    assert Arguments(a, deps[c]) == Arguments(b, deps[c]);
  }
}
