/** The iterative depth-first search for cycles of generated headers. */
module TypeCycles {
  import opened Options

  type Name = string

  datatype Edge = Edge(source: Name, target: Name, field: string)

  type Dependencies = map<Name, seq<Edge>>

  function Edges(deps: Dependencies, name: Name): seq<Edge> {
    if name in deps then deps[name] else []
  }

  ghost predicate Genuine(deps: Dependencies, e: Edge) {
    e.source in deps && e in deps[e.source]
  }

  /** Every edge is listed under its own source. */
  ghost predicate WellFormed(deps: Dependencies) {
    forall name, i :: 0 <= i < |Edges(deps, name)| ==> Edges(deps, name)[i].source == name
  }

  /** Dependencies that lead from `from` to `to`, one after the other. */
  ghost predicate Chain(deps: Dependencies, from: Name, path: seq<Edge>, to: Name) {
    && (forall i :: 0 <= i < |path| ==> Genuine(deps, path[i]))
    && (forall i :: 0 <= i < |path| - 1 ==> path[i].target == path[i + 1].source)
    && (if path == [] then from == to else path[0].source == from && path[|path| - 1].target == to)
  }

  ghost predicate CycleAt(deps: Dependencies, v: Name, cycle: seq<Edge>) {
    cycle != [] && Chain(deps, v, cycle, v)
  }

  ghost predicate ReachesCycle(deps: Dependencies, root: Name, path: seq<Edge>, cycle: seq<Edge>) {
    cycle != [] && Chain(deps, root, path, cycle[0].source) && CycleAt(deps, cycle[0].source, cycle)
  }

  function Vertices(deps: Dependencies): set<Name> {
    deps.Keys + set name, i | name in deps && 0 <= i < |deps[name]| :: deps[name][i].target
  }

  // ---------------------------------------------------------------- what a finish order certifies

  /** Every dependency of a finished vertex finished before it. */
  ghost predicate FinishOrder(deps: Dependencies, order: seq<Name>) {
    forall i, e :: 0 <= i < |order| && e in Edges(deps, order[i]) ==> e.target in order[..i]
  }

  lemma {:induction false} ChainGoesDown(deps: Dependencies, order: seq<Name>, from: Name, path: seq<Edge>, to: Name, i: nat)
    returns (j: nat)
    requires FinishOrder(deps, order) && Chain(deps, from, path, to) && i < |order| && order[i] == from
    ensures j <= i && order[j] == to && (path != [] ==> j < i)
    decreases |path|
  {
    if path == [] {
      j := i;
    } else {
      var e := path[0];
      assert Genuine(deps, e);
      assert e.target in order[..i];
      var k :| 0 <= k < i && order[k] == e.target;
      var rest := path[1..];
      assert forall m :: 0 <= m < |rest| ==> rest[m] == path[m + 1];
      j := ChainGoesDown(deps, order, e.target, rest, to, k);
    }
  }

  /** A finish order without repetitions rules out every cycle its vertices could reach. */
  lemma FinishOrderHasNoCycle(deps: Dependencies, order: seq<Name>, root: Name, path: seq<Edge>, cycle: seq<Edge>)
    requires FinishOrder(deps, order) && root in order
    requires EachOnce(order)
    ensures !ReachesCycle(deps, root, path, cycle)
  {
    if ReachesCycle(deps, root, path, cycle) {
      var i :| 0 <= i < |order| && order[i] == root;
      var j := ChainGoesDown(deps, order, root, path, cycle[0].source, i);
      var k := ChainGoesDown(deps, order, cycle[0].source, cycle, cycle[0].source, j);
    }
  }

  // ---------------------------------------------------------------- the search

  type Frame = (Name, nat)

  /** `active` is the inverse of the stack. */
  ghost predicate Indexed(stack: seq<Frame>, active: map<Name, nat>) {
    && (forall name :: name in active ==> active[name] < |stack| && stack[active[name]].0 == name)
    && (forall k :: 0 <= k < |stack| ==> stack[k].0 in active && active[stack[k].0] == k)
  }

  /** The path edge of a frame is the last edge it took, and leads to the next frame. */
  ghost predicate Linked(deps: Dependencies, stack: seq<Frame>, path: seq<Edge>) {
    && |path| == (if stack == [] then 0 else |stack| - 1)
    && (forall k :: 0 <= k < |stack| ==> stack[k].1 <= |Edges(deps, stack[k].0)|)
    && (forall k :: 0 <= k < |path| ==>
          (stack[k].1 > 0 && path[k] == Edges(deps, stack[k].0)[stack[k].1 - 1] && path[k].target == stack[k + 1].0))
  }

  /** How many edges of frame `k` lead to finished vertices. */
  function Passed(stack: seq<Frame>, k: nat): int
    requires k < |stack|
  {
    if k < |stack| - 1 then stack[k].1 as int - 1 else stack[k].1
  }

  ghost predicate Behind(deps: Dependencies, stack: seq<Frame>, visited: set<Name>) {
    forall k, i :: 0 <= k < |stack| && 0 <= i < Passed(stack, k) && i < |Edges(deps, stack[k].0)| ==>
      Edges(deps, stack[k].0)[i].target in visited
  }

  ghost predicate Fresh(stack: seq<Frame>, visited: set<Name>) {
    forall k :: 0 <= k < |stack| ==> stack[k].0 !in visited
  }

  /** The vertices on the stack are distinct and joined by the path edges; finished ones are in order. */
  ghost predicate Searching(deps: Dependencies, stack: seq<Frame>, active: map<Name, nat>, path: seq<Edge>,
                            visited: set<Name>, order: seq<Name>)
  {
    && Indexed(stack, active) && Linked(deps, stack, path) && Behind(deps, stack, visited) && Fresh(stack, visited)
    && Finished(deps, visited, order)
  }

  ghost predicate Finished(deps: Dependencies, visited: set<Name>, order: seq<Name>) {
    && FinishOrder(deps, order)
    && (forall name :: name in visited <==> name in order)
    && EachOnce(order)
  }

  ghost predicate EachOnce(order: seq<Name>) {
    forall i, j :: 0 <= i < j < |order| ==> order[i] != order[j]
  }

  lemma FinishOne(deps: Dependencies, visited: set<Name>, order: seq<Name>, name: Name)
    requires Finished(deps, visited, order) && name !in visited
    requires forall i :: 0 <= i < |Edges(deps, name)| ==> Edges(deps, name)[i].target in visited
    ensures Finished(deps, visited + {name}, order + [name])
  {
    var order' := order + [name];
    forall i, e | 0 <= i < |order'| && e in Edges(deps, order'[i]) ensures e.target in order'[..i] {
      if i < |order| {
        assert order'[..i] == order[..i];
      } else {
        assert order'[..i] == order;
        var j :| 0 <= j < |Edges(deps, name)| && Edges(deps, name)[j] == e;
      }
    }
  }

  /** The stack's path edges lead from the root to any vertex on it. */
  lemma PathIsChain(deps: Dependencies, stack: seq<Frame>, active: map<Name, nat>, path: seq<Edge>,
                    visited: set<Name>, order: seq<Name>, from: nat, to: nat)
    requires WellFormed(deps) && Searching(deps, stack, active, path, visited, order) && from <= to < |stack|
    ensures Chain(deps, stack[from].0, path[from..to], stack[to].0)
  {
    var p := path[from..to];
    forall i | 0 <= i < |p| ensures Genuine(deps, p[i]) && p[i].source == stack[from + i].0 && p[i].target == stack[from + i + 1].0 {
      assert p[i] == path[from + i];
    }
  }

  lemma ChainExtends(deps: Dependencies, from: Name, path: seq<Edge>, mid: Name, e: Edge)
    requires Chain(deps, from, path, mid) && Genuine(deps, e) && e.source == mid
    ensures Chain(deps, from, path + [e], e.target)
  {
    var p := path + [e];
    assert forall i :: 0 <= i < |path| ==> p[i] == path[i];
  }

  ghost predicate Distinct(examined: seq<Frame>) {
    forall i, j :: 0 <= i < j < |examined| ==> examined[i] != examined[j]
  }

  /** The examined edges, each once, are exactly those of finished vertices and those behind a frame's position. */
  ghost predicate Examined(deps: Dependencies, examined: seq<Frame>, visited: set<Name>, stack: seq<Frame>, active: map<Name, nat>) {
    && Distinct(examined)
    && (forall f: Frame :: f in examined <==> Passing(deps, visited, stack, active, f))
  }

  ghost predicate Passing(deps: Dependencies, visited: set<Name>, stack: seq<Frame>, active: map<Name, nat>, f: Frame) {
    || (f.0 in visited && f.1 < |Edges(deps, f.0)|)
    || (f.0 in active && active[f.0] < |stack| && f.1 < stack[active[f.0]].1)
  }

  lemma ExamineNext(deps: Dependencies, examined: seq<Frame>, visited: set<Name>, stack: seq<Frame>, active: map<Name, nat>,
                    stack': seq<Frame>)
    requires Examined(deps, examined, visited, stack, active) && stack != []
    requires var (name, index) := stack[|stack| - 1]; name !in visited && name in active && active[name] == |stack| - 1
    requires forall name :: name in active ==> active[name] < |stack| && stack[active[name]].0 == name
    requires stack' == stack[|stack| - 1 := (stack[|stack| - 1].0, stack[|stack| - 1].1 + 1)]
    ensures Examined(deps, examined + [stack[|stack| - 1]], visited, stack', active)
  {
    var top := stack[|stack| - 1];
    var all := examined + [top];
    assert top !in examined;
    forall f: Frame ensures Passing(deps, visited, stack', active, f) <==> Passing(deps, visited, stack, active, f) || f == top {
      if f.0 == top.0 {
        assert stack'[active[f.0]].1 == top.1 + 1;
      } else if f.0 in active {
        assert active[f.0] != |stack| - 1;
        assert stack'[active[f.0]] == stack[active[f.0]];
      }
    }
  }

  /** The vertices that the search from `root` has finished, beyond the earlier ones, lie on chains from it. */
  ghost predicate Explored(deps: Dependencies, root: Name, order0: seq<Name>, order: seq<Name>) {
    forall v :: v in order ==> v in order0 || ReachedFrom(deps, root, v)
  }

  ghost predicate ReachedFrom(deps: Dependencies, root: Name, v: Name) {
    exists path :: Chain(deps, root, path, v)
  }

  ghost predicate Reached(deps: Dependencies, roots: seq<Name>, v: Name) {
    exists root :: root in roots && ReachedFrom(deps, root, v)
  }

  /** The cycle was found by examining its edges, the closing one last, and only edges there are. */
  ghost predicate FoundBy(deps: Dependencies, examined: seq<Frame>, cycle: seq<Edge>) {
    && cycle != [] && examined != []
    && (forall f :: f in examined ==> f.1 < |Edges(deps, f.0)|)
    && (forall e :: e in cycle ==> exists f :: f in examined && Edges(deps, f.0)[f.1] == e)
    && (var last := examined[|examined| - 1]; Edges(deps, last.0)[last.1] == cycle[|cycle| - 1])
  }

  /** Every vertex with an examined edge was finished before or lies on a chain from the root. */
  ghost predicate FromRoot(deps: Dependencies, root: Name, order0: seq<Name>, examined: seq<Frame>) {
    forall f :: f in examined ==> f.0 in order0 || ReachedFrom(deps, root, f.0)
  }

  lemma StackReached(deps: Dependencies, stack: seq<Frame>, active: map<Name, nat>, path: seq<Edge>,
                     visited: set<Name>, order: seq<Name>, k: nat)
    requires WellFormed(deps) && Searching(deps, stack, active, path, visited, order) && k < |stack|
    ensures ReachedFrom(deps, stack[0].0, stack[k].0)
  {
    PathIsChain(deps, stack, active, path, visited, order, 0, k);
  }

  /** A finish order with the roots in it holds whatever they reach. */
  lemma ReachedIsFinished(deps: Dependencies, order: seq<Name>, roots: seq<Name>, v: Name)
    requires FinishOrder(deps, order) && (forall root :: root in roots ==> root in order) && Reached(deps, roots, v)
    ensures v in order
  {
    var root, path :| root in roots && Chain(deps, root, path, v);
    var i :| 0 <= i < |order| && order[i] == root;
    var j := ChainGoesDown(deps, order, root, path, v, i);
  }

  lemma PathExamined(deps: Dependencies, stack: seq<Frame>, active: map<Name, nat>, path: seq<Edge>, visited: set<Name>,
                     order: seq<Name>, examined: seq<Frame>, k: nat)
    requires Searching(deps, stack, active, path, visited, order) && Examined(deps, examined, visited, stack, active)
    requires k < |path|
    ensures k < |stack| && stack[k].1 > 0 && (stack[k].0, stack[k].1 - 1) in examined
    ensures path[k] == Edges(deps, stack[k].0)[stack[k].1 - 1]
  {
    hide Behind, Finished, Fresh, Distinct;
    assert Passing(deps, visited, stack, active, (stack[k].0, stack[k].1 - 1));
  }

  lemma ExaminedExist(deps: Dependencies, stack: seq<Frame>, active: map<Name, nat>, path: seq<Edge>, visited: set<Name>,
                      order: seq<Name>, examined: seq<Frame>)
    requires Searching(deps, stack, active, path, visited, order) && Examined(deps, examined, visited, stack, active)
    ensures forall f :: f in examined ==> f.1 < |Edges(deps, f.0)|
  {
    hide Behind, Finished, Fresh, Distinct;
    forall f | f in examined ensures f.1 < |Edges(deps, f.0)| { assert Passing(deps, visited, stack, active, f); }
  }

  lemma FoundByPath(deps: Dependencies, stack: seq<Frame>, active: map<Name, nat>, path: seq<Edge>, visited: set<Name>,
                    order: seq<Name>, examined: seq<Frame>, start: nat, name: Name, index: nat)
    requires Searching(deps, stack, active, path, visited, order) && Examined(deps, examined, visited, stack, active)
    requires stack != [] && stack[|stack| - 1] == (name, index) && index < |Edges(deps, name)| && start <= |path|
    ensures FoundBy(deps, examined + [(name, index)], path[start..] + [Edges(deps, name)[index]])
  {
    hide Searching, Examined;
    ExaminedExist(deps, stack, active, path, visited, order, examined);
    var all, edge := examined + [(name, index)], Edges(deps, name)[index];
    assert all[|examined|] == (name, index);
    forall e | e in path[start..] + [edge] ensures exists f :: f in all && Edges(deps, f.0)[f.1] == e {
      if e in path[start..] {
        var k: nat :| start <= k < |path| && path[k] == e;
        PathExamined(deps, stack, active, path, visited, order, examined, k);
        assert (stack[k].0, stack[k].1 - 1) in all;
      } else {
        assert (name, index) in all;
      }
    }
  }

  lemma ExaminedReached(deps: Dependencies, root: Name, stack: seq<Frame>, active: map<Name, nat>, path: seq<Edge>,
                        visited: set<Name>, order0: seq<Name>, order: seq<Name>, examined: seq<Frame>, index: nat)
    requires WellFormed(deps) && Searching(deps, stack, active, path, visited, order) && Explored(deps, root, order0, order)
    requires Examined(deps, examined, visited, stack, active) && (stack != [] ==> stack[0].0 == root)
    ensures FromRoot(deps, root, order0, examined)
    ensures stack != [] ==> FromRoot(deps, root, order0, examined + [(stack[|stack| - 1].0, index)])
  {
    hide ReachedFrom, Distinct;
    forall k | 0 <= k < |stack| ensures ReachedFrom(deps, root, stack[k].0) {
      StackReached(deps, stack, active, path, visited, order, k);
    }
    if stack != [] { assert forall f :: f in examined + [(stack[|stack| - 1].0, index)] ==> f in examined || f.0 == stack[|stack| - 1].0; }
  }

  lemma ExploredGrows(deps: Dependencies, stack: seq<Frame>, active: map<Name, nat>, path: seq<Edge>,
                      visited: set<Name>, order0: seq<Name>, order: seq<Name>)
    requires WellFormed(deps) && Searching(deps, stack, active, path, visited, order) && stack != []
    requires Explored(deps, stack[0].0, order0, order)
    ensures Explored(deps, stack[0].0, order0, order + [stack[|stack| - 1].0])
  {
    hide ReachedFrom;
    StackReached(deps, stack, active, path, visited, order, |stack| - 1);
  }

  /** _raise_cross_file_type_cycle receives a genuine closed chain, reachable from the root. */
  lemma CycleIsGenuine(deps: Dependencies, stack: seq<Frame>, active: map<Name, nat>, path: seq<Edge>,
                       visited: set<Name>, order: seq<Name>, edge: Edge)
    requires WellFormed(deps) && Searching(deps, stack, active, path, visited, order) && stack != []
    requires edge.source == stack[|stack| - 1].0 && Genuine(deps, edge) && edge.target in active
    ensures active[edge.target] <= |path|
    ensures ReachesCycle(deps, stack[0].0, path[..active[edge.target]], path[active[edge.target]..] + [edge])
  {
    var start, top := active[edge.target], |stack| - 1;
    PathIsChain(deps, stack, active, path, visited, order, 0, start);
    PathIsChain(deps, stack, active, path, visited, order, start, top);
    assert path[start..top] == path[start..] && path[0..start] == path[..start];
    ChainExtends(deps, edge.target, path[start..], edge.source, edge);
    var cycle := path[start..] + [edge];
    assert cycle[0].source == edge.target;
  }

  lemma Push(deps: Dependencies, stack: seq<Frame>, active: map<Name, nat>, path: seq<Edge>, visited: set<Name>,
             order: seq<Name>, edge: Edge, name: Name, index: nat)
    requires Searching(deps, stack, active, path, visited, order) && stack != [] && stack[|stack| - 1] == (name, index)
    requires index < |Edges(deps, name)| && edge == Edges(deps, name)[index]
    requires edge.target !in active && edge.target !in visited
    ensures Searching(deps, stack[|stack| - 1 := (name, index + 1)] + [(edge.target, 0)], active[edge.target := |stack|],
                      path + [edge], visited, order)
  {
    PushLinked(deps, stack, path, edge, name, index);
    PushBehind(deps, stack, visited, edge, name, index);
    hide Linked, Behind, Finished;
  }

  lemma PushLinked(deps: Dependencies, stack: seq<Frame>, path: seq<Edge>, edge: Edge, name: Name, index: nat)
    requires Linked(deps, stack, path) && stack != [] && stack[|stack| - 1] == (name, index)
    requires index < |Edges(deps, name)| && edge == Edges(deps, name)[index]
    ensures Linked(deps, stack[|stack| - 1 := (name, index + 1)] + [(edge.target, 0)], path + [edge])
  {
  }

  lemma PushBehind(deps: Dependencies, stack: seq<Frame>, visited: set<Name>, edge: Edge, name: Name, index: nat)
    requires Behind(deps, stack, visited) && stack != [] && stack[|stack| - 1] == (name, index)
    ensures Behind(deps, stack[|stack| - 1 := (name, index + 1)] + [(edge.target, 0)], visited)
  {
    var stack' := stack[|stack| - 1 := (name, index + 1)] + [(edge.target, 0)];
    forall k, i | 0 <= k < |stack'| && 0 <= i < Passed(stack', k) && i < |Edges(deps, stack'[k].0)|
      ensures Edges(deps, stack'[k].0)[i].target in visited
    {
      assert k < |stack| && i < Passed(stack, k) && stack'[k].0 == stack[k].0;
    }
  }

  lemma Advance(deps: Dependencies, stack: seq<Frame>, active: map<Name, nat>, path: seq<Edge>, visited: set<Name>,
                order: seq<Name>, name: Name, index: nat)
    requires Searching(deps, stack, active, path, visited, order) && stack != [] && stack[|stack| - 1] == (name, index)
    requires index < |Edges(deps, name)| && Edges(deps, name)[index].target in visited
    ensures Searching(deps, stack[|stack| - 1 := (name, index + 1)], active, path, visited, order)
  {
    AdvanceBehind(deps, stack, visited, name, index);
    AdvanceLinked(deps, stack, active, path, visited, name, index);
    hide Indexed, Linked, Fresh, Behind, Finished;
  }

  lemma AdvanceLinked(deps: Dependencies, stack: seq<Frame>, active: map<Name, nat>, path: seq<Edge>, visited: set<Name>,
                      name: Name, index: nat)
    requires Indexed(stack, active) && Linked(deps, stack, path) && Fresh(stack, visited)
    requires stack != [] && stack[|stack| - 1] == (name, index) && index < |Edges(deps, name)|
    ensures var stack' := stack[|stack| - 1 := (name, index + 1)];
            Indexed(stack', active) && Linked(deps, stack', path) && Fresh(stack', visited)
  {
  }

  lemma AdvanceBehind(deps: Dependencies, stack: seq<Frame>, visited: set<Name>, name: Name, index: nat)
    requires Behind(deps, stack, visited) && stack != [] && stack[|stack| - 1] == (name, index)
    requires index < |Edges(deps, name)| && Edges(deps, name)[index].target in visited
    ensures Behind(deps, stack[|stack| - 1 := (name, index + 1)], visited)
  {
    var stack' := stack[|stack| - 1 := (name, index + 1)];
    forall k, i | 0 <= k < |stack'| && 0 <= i < Passed(stack', k) && i < |Edges(deps, stack'[k].0)|
      ensures Edges(deps, stack'[k].0)[i].target in visited
    {
      assert stack'[k].0 == stack[k].0 && (i < Passed(stack, k) || i == index);
    }
  }

  lemma Pop(deps: Dependencies, stack: seq<Frame>, active: map<Name, nat>, path: seq<Edge>, visited: set<Name>,
            order: seq<Name>, name: Name)
    requires Searching(deps, stack, active, path, visited, order) && stack != []
    requires stack[|stack| - 1] == (name, |Edges(deps, name)|)
    ensures Searching(deps, stack[..|stack| - 1], active - {name}, if path == [] then [] else path[..|path| - 1],
                      visited + {name}, order + [name])
  {
    PopFinished(deps, stack, visited, order, name);
    PopIndexed(stack, active, visited, name);
    PopLinked(deps, stack, path);
    PopBehind(deps, stack, path, visited, name);
    hide Indexed, Linked, Behind, Fresh, Finished;
  }

  lemma PopFinished(deps: Dependencies, stack: seq<Frame>, visited: set<Name>, order: seq<Name>, name: Name)
    requires Behind(deps, stack, visited) && Fresh(stack, visited) && Finished(deps, visited, order) && stack != []
    requires stack[|stack| - 1] == (name, |Edges(deps, name)|)
    ensures Finished(deps, visited + {name}, order + [name])
  {
    assert Passed(stack, |stack| - 1) == |Edges(deps, name)|;
    hide Finished;
    FinishOne(deps, visited, order, name);
  }

  lemma PopIndexed(stack: seq<Frame>, active: map<Name, nat>, visited: set<Name>, name: Name)
    requires Indexed(stack, active) && Fresh(stack, visited) && stack != [] && stack[|stack| - 1].0 == name
    ensures Indexed(stack[..|stack| - 1], active - {name}) && Fresh(stack[..|stack| - 1], visited + {name})
  {
  }

  lemma PopLinked(deps: Dependencies, stack: seq<Frame>, path: seq<Edge>)
    requires Linked(deps, stack, path) && stack != []
    ensures Linked(deps, stack[..|stack| - 1], if path == [] then [] else path[..|path| - 1])
  {
  }

  lemma PopBehind(deps: Dependencies, stack: seq<Frame>, path: seq<Edge>, visited: set<Name>, name: Name)
    requires Behind(deps, stack, visited) && Linked(deps, stack, path) && stack != [] && stack[|stack| - 1].0 == name
    ensures Behind(deps, stack[..|stack| - 1], visited + {name})
  {
    var stack' := stack[..|stack| - 1];
    forall k, i | 0 <= k < |stack'| && 0 <= i < Passed(stack', k) && i < |Edges(deps, stack'[k].0)|
      ensures Edges(deps, stack'[k].0)[i].target in visited + {name}
    {
      if i == stack[k].1 - 1 { assert path[k].target == stack[k + 1].0; }
    }
  }

  lemma TopFrame(deps: Dependencies, stack: seq<Frame>, active: map<Name, nat>, path: seq<Edge>, visited: set<Name>,
                 order: seq<Name>)
    requires Searching(deps, stack, active, path, visited, order) && stack != []
    ensures var (name, index) := stack[|stack| - 1];
            name in active && active[name] == |stack| - 1 && name !in visited && index <= |Edges(deps, name)|
    ensures forall name :: name in active ==> active[name] < |stack| && stack[active[name]].0 == name && name !in visited
    ensures |path| == |stack| - 1
  {
  }

  /** The loop invariant of one search. */
  ghost predicate Running(deps: Dependencies, universe: set<Name>, stack: seq<Frame>, active: map<Name, nat>, path: seq<Edge>,
                          visited: set<Name>, order: seq<Name>, examined: seq<Frame>)
  {
    && Searching(deps, stack, active, path, visited, order)
    && Examined(deps, examined, visited, stack, active)
    && active.Keys <= universe && Vertices(deps) <= universe
  }

  lemma DoPop(deps: Dependencies, universe: set<Name>, stack: seq<Frame>, active: map<Name, nat>, path: seq<Edge>,
              visited: set<Name>, order: seq<Name>, examined: seq<Frame>, name: Name)
    requires Running(deps, universe, stack, active, path, visited, order, examined) && stack != []
    requires stack[|stack| - 1] == (name, |Edges(deps, name)|)
    ensures Running(deps, universe, stack[..|stack| - 1], active - {name}, if path == [] then [] else path[..|path| - 1],
                    visited + {name}, order + [name], examined)
    ensures universe - (visited + {name}) - (active - {name}).Keys == universe - visited - active.Keys
    ensures forall order0 :: WellFormed(deps) && Explored(deps, stack[0].0, order0, order) ==>
              Explored(deps, stack[0].0, order0, order + [name])
  {
    forall order0 | WellFormed(deps) && Explored(deps, stack[0].0, order0, order)
      ensures Explored(deps, stack[0].0, order0, order + [name])
    {
      ExploredGrows(deps, stack, active, path, visited, order0, order);
    }
    hide Explored;
    TopFrame(deps, stack, active, path, visited, order);
    Pop(deps, stack, active, path, visited, order, name);
    hide Searching;
    PopExamined(deps, examined, visited, stack, active, name);
    SetsAfterPop(universe, visited, active, name);
    hide Examined;
  }

  lemma DoAdvance(deps: Dependencies, universe: set<Name>, stack: seq<Frame>, active: map<Name, nat>, path: seq<Edge>,
                  visited: set<Name>, order: seq<Name>, examined: seq<Frame>, name: Name, index: nat)
    requires Running(deps, universe, stack, active, path, visited, order, examined) && stack != []
    requires stack[|stack| - 1] == (name, index) && index < |Edges(deps, name)| && Edges(deps, name)[index].target in visited
    ensures Running(deps, universe, stack[|stack| - 1 := (name, index + 1)], active, path, visited, order, examined + [(name, index)])
  {
    TopFrame(deps, stack, active, path, visited, order);
    Advance(deps, stack, active, path, visited, order, name, index);
    hide Searching;
    ExamineNext(deps, examined, visited, stack, active, stack[|stack| - 1 := (name, index + 1)]);
  }

  lemma DoPush(deps: Dependencies, universe: set<Name>, stack: seq<Frame>, active: map<Name, nat>, path: seq<Edge>,
               visited: set<Name>, order: seq<Name>, examined: seq<Frame>, name: Name, index: nat, edge: Edge)
    requires Running(deps, universe, stack, active, path, visited, order, examined) && stack != []
    requires stack[|stack| - 1] == (name, index) && index < |Edges(deps, name)| && edge == Edges(deps, name)[index]
    requires edge.target !in active && edge.target !in visited
    ensures Running(deps, universe, stack[|stack| - 1 := (name, index + 1)] + [(edge.target, 0)], active[edge.target := |stack|],
                    path + [edge], visited, order, examined + [(name, index)])
    ensures |universe - visited - active[edge.target := |stack|].Keys| < |universe - visited - active.Keys|
  {
    TopFrame(deps, stack, active, path, visited, order);
    Push(deps, stack, active, path, visited, order, edge, name, index);
    hide Searching;
    var moved := stack[|stack| - 1 := (name, index + 1)];
    ExamineNext(deps, examined, visited, stack, active, moved);
    hide Examined;
    PushExamined(deps, examined + [(name, index)], visited, moved, active, edge.target);
    InVertices(deps, name, index);
    SetsAfterPush(universe, visited, active, edge.target, |stack|);
  }

  lemma DoReport(deps: Dependencies, universe: set<Name>, stack: seq<Frame>, active: map<Name, nat>, path: seq<Edge>,
                 visited: set<Name>, order: seq<Name>, examined: seq<Frame>, name: Name, index: nat, edge: Edge)
    requires WellFormed(deps) && Running(deps, universe, stack, active, path, visited, order, examined) && stack != []
    requires stack[|stack| - 1] == (name, index) && index < |Edges(deps, name)| && edge == Edges(deps, name)[index]
    requires edge.target in active
    ensures active[edge.target] <= |path|
    ensures ReachesCycle(deps, stack[0].0, path[..active[edge.target]], path[active[edge.target]..] + [edge])
    ensures Distinct(examined + [(name, index)])
    ensures FoundBy(deps, examined + [(name, index)], path[active[edge.target]..] + [edge])
    ensures forall order0 :: Explored(deps, stack[0].0, order0, order) ==>
              FromRoot(deps, stack[0].0, order0, examined + [(name, index)])
  {
    hide FoundBy, FromRoot, Explored;
    forall order0 | Explored(deps, stack[0].0, order0, order)
      ensures FromRoot(deps, stack[0].0, order0, examined + [(name, index)])
    {
      ExaminedReached(deps, stack[0].0, stack, active, path, visited, order0, order, examined, index);
    }
    TopFrame(deps, stack, active, path, visited, order);
    CycleIsGenuine(deps, stack, active, path, visited, order, edge);
    FoundByPath(deps, stack, active, path, visited, order, examined, active[edge.target], name, index);
    hide Searching;
    ExamineNext(deps, examined, visited, stack, active, stack[|stack| - 1 := (name, index + 1)]);
  }

  lemma DoStart(deps: Dependencies, root: Name, visited: set<Name>, order: seq<Name>, examined: seq<Frame>)
    requires root !in visited && Finished(deps, visited, order) && Examined(deps, examined, visited, [], map[])
    ensures Running(deps, Vertices(deps) + {root}, [(root, 0)], map[root := 0], [], visited, order, examined)
  {
    hide Finished;
  }

  lemma NothingExplored(deps: Dependencies, root: Name, order: seq<Name>)
    ensures Explored(deps, root, order, order)
  {
  }

  lemma DoEnd(deps: Dependencies, universe: set<Name>, active: map<Name, nat>, path: seq<Edge>,
              visited: set<Name>, order: seq<Name>, examined: seq<Frame>)
    requires Running(deps, universe, [], active, path, visited, order, examined)
    ensures Finished(deps, visited, order) && Examined(deps, examined, visited, [], map[]) && Distinct(examined)
  {
    hide Finished;
  }

  lemma DoTop(deps: Dependencies, universe: set<Name>, stack: seq<Frame>, active: map<Name, nat>, path: seq<Edge>,
              visited: set<Name>, order: seq<Name>, examined: seq<Frame>)
    requires Running(deps, universe, stack, active, path, visited, order, examined) && stack != []
    ensures stack[|stack| - 1].1 <= |Edges(deps, stack[|stack| - 1].0)|
  {
  }

  ghost predicate HasCycle(deps: Dependencies, root: Name) { exists path, closed :: ReachesCycle(deps, root, path, closed) }

  lemma CycleIsThere(deps: Dependencies, root: Name, path: seq<Edge>, closed: seq<Edge>)
    requires ReachesCycle(deps, root, path, closed)
    ensures HasCycle(deps, root)
  {
  }

  lemma FinishedRootIsClean(deps: Dependencies, visited: set<Name>, order: seq<Name>, root: Name)
    requires Finished(deps, visited, order) && root in visited
    ensures !HasCycle(deps, root)
  {
    forall path, closed ensures !ReachesCycle(deps, root, path, closed) {
      if ReachesCycle(deps, root, path, closed) { FinishOrderHasNoCycle(deps, order, root, path, closed); }
    }
  }

  /** One root: its cycle if it reaches one, otherwise everything it reaches is finished.  `examined` lists the
      edges looked at, in order. */
  method SearchRoot(deps: Dependencies, root: Name, visited0: set<Name>, ghost order0: seq<Name>, ghost examined0: seq<Frame>)
    returns (cycle: Option<seq<Edge>>, visited: set<Name>, ghost order: seq<Name>, ghost prefix: seq<Edge>, ghost examined: seq<Frame>)
    requires WellFormed(deps) && root !in visited0 && Finished(deps, visited0, order0) && Examined(deps, examined0, visited0, [], map[])
    ensures cycle.Some? <==> HasCycle(deps, root)
    ensures cycle.Some? ==> ReachesCycle(deps, root, prefix, cycle.value)
    ensures cycle.None? ==> visited0 + {root} <= visited && Finished(deps, visited, order) && Examined(deps, examined, visited, [], map[])
    ensures cycle.None? ==> Explored(deps, root, order0, order)
    ensures cycle.Some? ==> Distinct(examined) && FoundBy(deps, examined, cycle.value) && FromRoot(deps, root, order0, examined)
  {
    hide Finished, ReachesCycle, HasCycle, Examined, Running, Vertices, Distinct, WellFormed, Explored, FoundBy, FromRoot;
    visited, order, examined, prefix := visited0, order0, examined0, [];
    var active: map<Name, nat> := map[root := 0];
    var path: seq<Edge> := [];
    var stack: seq<Frame> := [(root, 0)];
    ghost var universe := Vertices(deps) + {root};
    DoStart(deps, root, visited, order, examined);
    NothingExplored(deps, root, order);
    while stack != []
      invariant Running(deps, universe, stack, active, path, visited, order, examined)
      invariant if stack == [] then root in visited else stack[0].0 == root
      invariant visited0 <= visited && Explored(deps, root, order0, order)
      decreases |universe - visited - active.Keys|, |stack|,
                if stack == [] then 0 else |Edges(deps, stack[|stack| - 1].0)| - stack[|stack| - 1].1
    {
      var top := |stack| - 1;
      var name, index := stack[top].0, stack[top].1;
      var edges := Edges(deps, name);
      DoTop(deps, universe, stack, active, path, visited, order, examined);
      if index == |edges| {
        DoPop(deps, universe, stack, active, path, visited, order, examined, name);
        stack := stack[..top];
        active := active - {name};
        visited, order := visited + {name}, order + [name];
        if path != [] { path := path[..|path| - 1]; }
        continue;
      }
      var edge := edges[index];
      if edge.target in active {
        DoReport(deps, universe, stack, active, path, visited, order, examined, name, index, edge);
        var start := active[edge.target];
        examined, prefix := examined + [(name, index)], path[..start];
        cycle := Some(path[start..] + [edge]);
        CycleIsThere(deps, root, prefix, cycle.value);
        return;
      }
      if edge.target in visited {
        DoAdvance(deps, universe, stack, active, path, visited, order, examined, name, index);
        examined := examined + [(name, index)];
        stack := stack[top := (name, index + 1)];
        continue;
      }
      DoPush(deps, universe, stack, active, path, visited, order, examined, name, index, edge);
      examined := examined + [(name, index)];
      active := active[edge.target := |stack|];
      path := path + [edge];
      stack := stack[top := (name, index + 1)] + [(edge.target, 0)];
    }
    cycle := None;
    DoEnd(deps, universe, active, path, visited, order, examined);
    FinishedRootIsClean(deps, visited, order, root);
  }

  lemma SetsAfterPop(universe: set<Name>, visited: set<Name>, active: map<Name, nat>, name: Name)
    requires name in active && active.Keys <= universe
    ensures universe - (visited + {name}) - (active - {name}).Keys == universe - visited - active.Keys
    ensures (active - {name}).Keys <= universe
  {
  }

  lemma SetsAfterPush(universe: set<Name>, visited: set<Name>, active: map<Name, nat>, name: Name, index: nat)
    requires name !in active && name !in visited && active.Keys <= universe && name in universe
    ensures |universe - visited - active[name := index].Keys| < |universe - visited - active.Keys|
    ensures active[name := index].Keys <= universe
  {
    assert universe - visited - active.Keys == (universe - visited - active[name := index].Keys) + {name};
  }

  lemma InVertices(deps: Dependencies, name: Name, i: nat)
    requires i < |Edges(deps, name)|
    ensures Edges(deps, name)[i].target in Vertices(deps)
  {
    assert name in deps && deps[name][i].target in Vertices(deps);
  }

  lemma PopExamined(deps: Dependencies, examined: seq<Frame>, visited: set<Name>, stack: seq<Frame>, active: map<Name, nat>, name: Name)
    requires Examined(deps, examined, visited, stack, active) && stack != [] && stack[|stack| - 1] == (name, |Edges(deps, name)|)
    requires name in active && active[name] == |stack| - 1
    requires forall other :: other in active ==> active[other] < |stack| && stack[active[other]].0 == other
    ensures Examined(deps, examined, visited + {name}, stack[..|stack| - 1], active - {name})
  {
  }

  lemma PushExamined(deps: Dependencies, examined: seq<Frame>, visited: set<Name>, stack: seq<Frame>, active: map<Name, nat>, target: Name)
    requires Examined(deps, examined, visited, stack, active) && target !in active && target !in visited
    requires forall other :: other in active ==> active[other] < |stack|
    ensures Examined(deps, examined, visited, stack + [(target, 0)], active[target := |stack|])
  {
  }

  /** What all searches so far have finished: nothing but what the first `i` roots reach, those roots included. */
  ghost predicate Swept(deps: Dependencies, roots: seq<Name>, i: nat, visited: set<Name>, order: seq<Name>, examined: seq<Frame>)
    requires i <= |roots|
  {
    && Finished(deps, visited, order) && Examined(deps, examined, visited, [], map[])
    && (forall j :: 0 <= j < i ==> roots[j] in visited)
    && (forall v :: v in order ==> Reached(deps, roots, v))
  }

  lemma SweptSearch(deps: Dependencies, roots: seq<Name>, i: nat, visited: set<Name>, order: seq<Name>, examined: seq<Frame>,
                    visited': set<Name>, order': seq<Name>, examined': seq<Frame>)
    requires i < |roots| && Swept(deps, roots, i, visited, order, examined) && visited + {roots[i]} <= visited'
    requires Finished(deps, visited', order') && Examined(deps, examined', visited', [], map[])
    requires Explored(deps, roots[i], order, order')
    ensures Swept(deps, roots, i + 1, visited', order', examined')
  {
    hide Finished, Examined, ReachedFrom;
  }

  lemma SweptFailed(deps: Dependencies, roots: seq<Name>, i: nat, visited: set<Name>, order: seq<Name>, examined: seq<Frame>,
                    examined': seq<Frame>)
    requires i < |roots| && Swept(deps, roots, i, visited, order, examined) && FromRoot(deps, roots[i], order, examined')
    ensures forall f :: f in examined' ==> Reached(deps, roots, f.0)
  {
    hide Finished, Examined, ReachedFrom;
  }

  lemma SweptAll(deps: Dependencies, roots: seq<Name>, visited: set<Name>, order: seq<Name>, examined: seq<Frame>)
    requires Swept(deps, roots, |roots|, visited, order, examined)
    ensures forall root :: root in roots ==> !HasCycle(deps, root)
    ensures EachOnce(order) && Distinct(examined)
    ensures forall v :: v in order <==> Reached(deps, roots, v)
    ensures forall f :: f in examined <==> f.0 in order && f.1 < |Edges(deps, f.0)|
  {
    hide HasCycle, Reached;
    forall root | root in roots ensures !HasCycle(deps, root) {
      FinishedRootIsClean(deps, visited, order, root);
    }
    forall v | Reached(deps, roots, v) ensures v in order { ReachedIsFinished(deps, order, roots, v); }
  }

  lemma SweptNothing(deps: Dependencies, roots: seq<Name>)
    ensures Swept(deps, roots, 0, {}, [], [])
  {
  }

  lemma RootReaches(deps: Dependencies, roots: seq<Name>, i: nat)
    requires i < |roots|
    ensures roots[i] in roots
  {
  }

  /** _validate_no_cross_file_type_cycles: fails exactly when a root reaches a cycle, and then shows one.  `order` and
      `examined` log the vertices finished and the edges looked at: on success exactly the vertices that the roots reach and
      exactly their edges, each once; on failure no edge twice, and none beyond the closing edge of the cycle shown. */
  method Validate(deps: Dependencies, roots: seq<Name>)
    returns (cycle: Option<seq<Edge>>, ghost order: seq<Name>, ghost examined: seq<Frame>)
    requires WellFormed(deps)
    ensures cycle.Some? <==> exists root :: root in roots && HasCycle(deps, root)
    ensures cycle.Some? ==> cycle.value != [] && CycleAt(deps, cycle.value[0].source, cycle.value)
    ensures cycle.None? ==> EachOnce(order) && forall v :: v in order <==> Reached(deps, roots, v)
    ensures cycle.None? ==> forall f :: f in examined <==> f.0 in order && f.1 < |Edges(deps, f.0)|
    ensures cycle.Some? ==> FoundBy(deps, examined, cycle.value) && forall f :: f in examined ==> Reached(deps, roots, f.0)
    ensures Distinct(examined)
  {
    hide Swept, Reached, EachOnce, Distinct, Finished, Examined, HasCycle, FoundBy, FromRoot, Explored, ReachedFrom, Chain, WellFormed;
    var visited: set<Name> := {};
    order, examined := [], [];
    SweptNothing(deps, roots);
    var i := 0;
    while i < |roots|
      invariant i <= |roots| && Swept(deps, roots, i, visited, order, examined)
    {
      if roots[i] !in visited {
        SweptFacts(deps, roots, i, visited, order, examined);
        ghost var prefix, visited0, order0, examined0 := [], visited, order, examined;
        cycle, visited, order, prefix, examined := SearchRoot(deps, roots[i], visited, order, examined);
        if cycle.Some? {
          SweptFailed(deps, roots, i, visited0, order0, examined0, examined);
          CycleShown(deps, roots[i], prefix, cycle.value);
          RootReaches(deps, roots, i);
          return;
        }
        SweptSearch(deps, roots, i, visited0, order0, examined0, visited, order, examined);
      } else {
        SweptSkip(deps, roots, i, visited, order, examined);
      }
      i := i + 1;
    }
    cycle := None;
    SweptAll(deps, roots, visited, order, examined);
  }

  lemma SweptFacts(deps: Dependencies, roots: seq<Name>, i: nat, visited: set<Name>, order: seq<Name>, examined: seq<Frame>)
    requires i <= |roots| && Swept(deps, roots, i, visited, order, examined)
    ensures Finished(deps, visited, order) && Examined(deps, examined, visited, [], map[])
  {
  }

  lemma SweptSkip(deps: Dependencies, roots: seq<Name>, i: nat, visited: set<Name>, order: seq<Name>, examined: seq<Frame>)
    requires i < |roots| && Swept(deps, roots, i, visited, order, examined) && roots[i] in visited
    ensures Swept(deps, roots, i + 1, visited, order, examined)
  {
    hide Finished, Examined, Reached;
  }

  lemma CycleShown(deps: Dependencies, root: Name, path: seq<Edge>, cycle: seq<Edge>)
    requires ReachesCycle(deps, root, path, cycle)
    ensures cycle != [] && CycleAt(deps, cycle[0].source, cycle)
  {
  }
}
