/** Which singular message fields are boxed, and in what order message definitions are emitted. */
module MessageGraph {
  import opened Options

  type Name = string

  type Graph = map<Name, set<Name>>

  function Next(g: Graph, v: Name): set<Name> {
    if v in g then g[v] else {}
  }

  ghost predicate Path(g: Graph, p: seq<Name>) {
    |p| > 0 && forall i :: 0 <= i < |p| - 1 ==> p[i + 1] in Next(g, p[i])
  }

  ghost predicate Reaches(g: Graph, a: Name, b: Name) {
    exists p :: Path(g, p) && p[0] == a && p[|p| - 1] == b
  }

  lemma Here(g: Graph, a: Name)
    ensures Reaches(g, a, a)
  {
    assert Path(g, [a]);
  }

  lemma PathThenStep(g: Graph, p: seq<Name>, b: Name)
    requires Path(g, p) && b in Next(g, p[|p| - 1])
    ensures Path(g, p + [b])
  {
    var q := p + [b];
    assert forall i :: 0 <= i < |p| ==> q[i] == p[i];
  }

  lemma ReachesThenStep(g: Graph, a: Name, b: Name, c: Name)
    requires Reaches(g, a, b) && c in Next(g, b)
    ensures Reaches(g, a, c)
  {
    var p :| Path(g, p) && p[0] == a && p[|p| - 1] == b;
    PathThenStep(g, p, c);
    assert (p + [c])[0] == a;
  }

  lemma TailOfPath(g: Graph, p: seq<Name>, i: nat)
    requires Path(g, p) && i < |p|
    ensures Path(g, p[i..])
  {
    var q := p[i..];
    assert forall j :: 0 <= j < |q| ==> q[j] == p[i + j];
  }

  /** A set closed under `Next` keeps every path that starts in it. */
  lemma {:induction false} ClosedKeepsPath(g: Graph, s: set<Name>, p: seq<Name>)
    requires Path(g, p) && p[0] in s && forall v :: v in s ==> Next(g, v) <= s
    ensures p[|p| - 1] in s
  {
    if |p| > 1 {
      TailOfPath(g, p, 1);
      assert p[1] in Next(g, p[0]);
      ClosedKeepsPath(g, s, p[1..]);
    }
  }

  function Vertices(g: Graph): set<Name> {
    set v, w | v in g && w in g[v] :: w
  }

  // ---------------------------------------------------------------- reachability

  /** The search invariant: everything met is reachable, and what is not yet expanded is on the stack. */
  ghost predicate Frontier(g: Graph, start: Name, goal: Name, pending: set<Name>, seen: set<Name>) {
    && (forall v :: v in pending ==> v in Vertices(g) + {start} && Reaches(g, start, v))
    && seen <= Vertices(g) + {start} && goal !in seen && start in seen + pending
    && (forall v :: v in seen ==> Next(g, v) <= seen + pending)
  }

  lemma Begun(g: Graph, start: Name, goal: Name)
    ensures Frontier(g, start, goal, Elements([start]), {})
  {
    Here(g, start);
    assert Elements([start]) == {start};
  }

  lemma Expand(g: Graph, start: Name, goal: Name, pending: set<Name>, seen: set<Name>, current: Name)
    requires Frontier(g, start, goal, pending + {current}, seen) && current != goal
    ensures Frontier(g, start, goal, pending + Next(g, current), seen + {current})
  {
    forall w | w in Next(g, current) ensures w in Vertices(g) && Reaches(g, start, w) {
      ReachesThenStep(g, start, current, w);
    }
  }

  lemma Exhausted(g: Graph, start: Name, goal: Name, seen: set<Name>)
    requires Frontier(g, start, goal, {}, seen)
    ensures !Reaches(g, start, goal)
  {
    forall p | Path(g, p) && p[0] == start ensures p[|p| - 1] != goal {
      ClosedKeepsPath(g, seen, p);
    }
  }

  function Elements(s: seq<Name>): set<Name> {
    set v | v in s
  }

  lemma Skip(g: Graph, start: Name, goal: Name, pending: set<Name>, seen: set<Name>, current: Name)
    requires Frontier(g, start, goal, pending + {current}, seen) && current in seen
    ensures Frontier(g, start, goal, pending, seen)
  {
  }

  lemma Met(g: Graph, start: Name, goal: Name, pending: set<Name>, seen: set<Name>, current: Name)
    requires Frontier(g, start, goal, pending + {current}, seen)
    ensures Reaches(g, start, current) && current in Vertices(g) + {start} && seen <= Vertices(g) + {start}
  {
    assert current in pending + {current};
  }

  lemma Popped(stack: seq<Name>)
    requires stack != []
    ensures Elements(stack) == Elements(stack[..|stack| - 1]) + {stack[|stack| - 1]}
  {
    assert stack == stack[..|stack| - 1] + [stack[|stack| - 1]];
  }

  lemma Pushed(stack: seq<Name>, more: seq<Name>, s: set<Name>)
    requires forall v :: v in more <==> v in s
    ensures Elements(stack + more) == Elements(stack) + s
  {
  }

  lemma Shrinks(universe: set<Name>, seen: set<Name>, current: Name)
    requires current in universe && current !in seen
    ensures |universe - (seen + {current})| < |universe - seen|
  {
    assert universe - seen == (universe - (seen + {current})) + {current};
  }

  /** _can_reach: depth-first search with an explicit stack. */
  method CanReach(g: Graph, start: Name, goal: Name) returns (found: bool)
    ensures found <==> Reaches(g, start, goal)
  {
    hide Reaches, Frontier, Elements, Vertices, Path, Next;
    var stack, seen := [start], {};
    Begun(g, start, goal);
    while stack != []
      invariant Frontier(g, start, goal, Elements(stack), seen)
      decreases |Vertices(g) + {start} - seen|, |stack|
    {
      var current := stack[|stack| - 1];
      Popped(stack);
      stack := stack[..|stack| - 1];
      Met(g, start, goal, Elements(stack), seen, current);
      if current == goal { return true; }
      if current in seen {
        Skip(g, start, goal, Elements(stack), seen, current);
        continue;
      }
      Expand(g, start, goal, Elements(stack), seen, current);
      var more := Listed(Next(g, current));
      Pushed(stack, more, Next(g, current));
      Shrinks(Vertices(g) + {start}, seen, current);
      seen := seen + {current};
      stack := stack + more;
    }
    NoElements();
    Exhausted(g, start, goal, seen);
    found := false;
  }

  lemma NoElements()
    ensures Elements([]) == {}
  {
  }

  /** A set's elements in whatever order iteration yields them. */
  method Listed(s: set<Name>) returns (list: seq<Name>)
    ensures forall v :: v in list <==> v in s
  {
    list := [];
    var todo := s;
    while todo != {}
      invariant todo <= s && forall v :: v in list <==> v in s - todo
      decreases todo
    {
      var w :| w in todo;
      todo := todo - {w};
      list := list + [w];
    }
  }

  // ---------------------------------------------------------------- boxing

  /** A singular message field. */
  datatype Direct = Direct(owner: Name, target: Name)

  ghost predicate FieldGraph(g: Graph, fields: seq<Direct>) {
    forall v, w :: w in Next(g, v) <==> Direct(v, w) in fields
  }

  /** The field lies on a cycle of singular fields. */
  ghost predicate OnCycle(fields: seq<Direct>, f: Direct) {
    exists cycle :: Closed(fields, cycle) && f in cycle
  }

  ghost predicate Closed(fields: seq<Direct>, cycle: seq<Direct>) {
    && cycle != [] && (forall i :: 0 <= i < |cycle| ==> cycle[i] in fields)
    && (forall i :: 0 <= i < |cycle| - 1 ==> cycle[i].target == cycle[i + 1].owner)
    && cycle[|cycle| - 1].target == cycle[0].owner
  }

  /** The vertices met when following the cycle once from `i`. */
  function Rotation(cycle: seq<Direct>, i: nat): seq<Name>
    requires i < |cycle|
  {
    seq(|cycle|, k requires 0 <= k < |cycle| =>
      if i + k < |cycle| then cycle[i + k].target else cycle[i + k - |cycle|].target)
  }

  lemma CycleReturns(g: Graph, fields: seq<Direct>, cycle: seq<Direct>, i: nat)
    requires FieldGraph(g, fields) && Closed(fields, cycle) && i < |cycle|
    ensures Reaches(g, cycle[i].target, cycle[i].owner)
  {
    var p := Rotation(cycle, i);
    forall k | 0 <= k < |p| - 1 ensures p[k + 1] in Next(g, p[k]) {
      var j: nat := if i + k + 1 < |cycle| then i + k + 1 else i + k + 1 - |cycle|;
      assert p[k + 1] == cycle[j].target && p[k] == cycle[j].owner && cycle[j] in fields;
      assert Direct(cycle[j].owner, cycle[j].target) in fields;
    }
    assert Path(g, p) && p[0] == cycle[i].target && p[|p| - 1] == cycle[i].owner;
  }

  lemma ReturnIsCycle(g: Graph, fields: seq<Direct>, f: Direct, p: seq<Name>)
    requires FieldGraph(g, fields) && f in fields && Path(g, p) && p[0] == f.target && p[|p| - 1] == f.owner
    ensures OnCycle(fields, f)
  {
    var cycle := [f] + seq(|p| - 1, k requires 0 <= k < |p| - 1 => Direct(p[k], p[k + 1]));
    forall k | 0 <= k < |cycle| ensures cycle[k] in fields {
      if k > 0 { assert p[k] in Next(g, p[k - 1]); }
    }
    assert Closed(fields, cycle) && cycle[0] == f;
  }

  lemma OnCycleIffReturns(g: Graph, fields: seq<Direct>, f: Direct)
    requires FieldGraph(g, fields) && f in fields
    ensures OnCycle(fields, f) <==> Reaches(g, f.target, f.owner)
  {
    if OnCycle(fields, f) {
      var cycle: seq<Direct> :| Closed(fields, cycle) && f in cycle;
      var i :| 0 <= i < |cycle| && cycle[i] == f;
      CycleReturns(g, fields, cycle, i);
    }
    if Reaches(g, f.target, f.owner) {
      var p :| Path(g, p) && p[0] == f.target && p[|p| - 1] == f.owner;
      ReturnIsCycle(g, fields, f, p);
    }
  }

  lemma CycleStartIsOnCycle(fields: seq<Direct>, cycle: seq<Direct>)
    requires Closed(fields, cycle)
    ensures OnCycle(fields, cycle[0])
  {
    assert cycle[0] in cycle;
  }

  /** The loop that collects the singular-field graph. */
  method BuildGraph(fields: seq<Direct>) returns (g: Graph)
    ensures FieldGraph(g, fields)
  {
    g := map[];
    var i := 0;
    while i < |fields|
      invariant i <= |fields| && FieldGraph(g, fields[..i])
    {
      AddField(g, fields, i);
      g := g[fields[i].owner := Next(g, fields[i].owner) + {fields[i].target}];
      i := i + 1;
    }
    assert fields[..i] == fields;
  }

  lemma AddField(g: Graph, fields: seq<Direct>, i: nat)
    requires i < |fields| && FieldGraph(g, fields[..i])
    ensures FieldGraph(g[fields[i].owner := Next(g, fields[i].owner) + {fields[i].target}], fields[..i + 1])
  {
    var f := fields[i];
    var g' := g[f.owner := Next(g, f.owner) + {f.target}];
    assert fields[..i + 1] == fields[..i] + [f];
    forall v, w ensures w in Next(g', v) <==> Direct(v, w) in fields[..i + 1] {
      assert w in Next(g, v) <==> Direct(v, w) in fields[..i];
    }
  }

  /** _mark_recursive_boxes: a field is boxed exactly when it lies on a cycle of singular fields. */
  method MarkRecursiveBoxes(fields: seq<Direct>) returns (boxed: seq<bool>)
    ensures |boxed| == |fields| && forall i :: 0 <= i < |fields| ==> (boxed[i] <==> OnCycle(fields, fields[i]))
  {
    hide OnCycle, Reaches;
    var g := BuildGraph(fields);
    boxed := [];
    var i := 0;
    while i < |fields|
      invariant i <= |fields| && |boxed| == i
      invariant forall j :: 0 <= j < i ==> (boxed[j] <==> OnCycle(fields, fields[j]))
    {
      var found := CanReach(g, fields[i].target, fields[i].owner);
      OnCycleIffReturns(g, fields, fields[i]);
      boxed := boxed + [found];
      i := i + 1;
    }
  }

  function Unboxed(fields: seq<Direct>, boxed: seq<bool>): seq<Direct>
    requires |boxed| == |fields|
  {
    if fields == [] then []
    else (if boxed[0] then [] else [fields[0]]) + Unboxed(fields[1..], boxed[1..])
  }

  lemma {:induction false} UnboxedAre(fields: seq<Direct>, boxed: seq<bool>, f: Direct)
    requires |boxed| == |fields|
    ensures f in Unboxed(fields, boxed) <==> exists i :: 0 <= i < |fields| && fields[i] == f && !boxed[i]
  {
    if fields != [] {
      UnboxedAre(fields[1..], boxed[1..], f);
      if i :| 0 <= i < |fields[1..]| && fields[1..][i] == f && !boxed[1..][i] {
        assert fields[i + 1] == f && !boxed[i + 1];
      }
      if i :| 0 <= i < |fields| && fields[i] == f && !boxed[i] {
        if i > 0 { assert fields[1..][i - 1] == f && !boxed[1..][i - 1]; }
      }
    }
  }

  /** Boxing breaks every cycle: what is stored inline has finite size. */
  lemma UnboxedIsAcyclic(fields: seq<Direct>, boxed: seq<bool>, cycle: seq<Direct>)
    requires |boxed| == |fields| && forall i :: 0 <= i < |fields| ==> (boxed[i] <==> OnCycle(fields, fields[i]))
    ensures !Closed(Unboxed(fields, boxed), cycle)
  {
    if Closed(Unboxed(fields, boxed), cycle) {
      forall i | 0 <= i < |cycle| ensures cycle[i] in fields {
        UnboxedAre(fields, boxed, cycle[i]);
      }
      UnboxedAre(fields, boxed, cycle[0]);
      var i :| 0 <= i < |fields| && fields[i] == cycle[0] && !boxed[i];
      CycleStartIsOnCycle(fields, cycle);
    }
  }

  // ---------------------------------------------------------------- emission order

  /** A message field as _ordered_messages sees it; names absent from the file are not followed.  Whether it is singular
      decides if its message is stored inside the owner, and plays no part in the order. */
  datatype Field = Field(messageType: Option<Name>, recursiveBox: bool, mapValue: Option<Name>, singular: bool)

  type Messages = map<Name, seq<Field>>

  predicate FollowsType(messages: Messages, f: Field) {
    f.messageType.Some? && f.messageType.value in messages && !f.recursiveBox
  }

  predicate FollowsMapValue(messages: Messages, f: Field) {
    f.mapValue.Some? && f.mapValue.value in messages
  }

  function Targets(messages: Messages, f: Field): set<Name> {
    (if FollowsType(messages, f) then {f.messageType.value} else {}) +
    (if FollowsMapValue(messages, f) then {f.mapValue.value} else {})
  }

  /** A `v` is stored with a `w` inside: through a singular field that is not boxed. */
  predicate Contains(messages: Messages, v: Name, w: Name) {
    v in messages &&
    exists i :: 0 <= i < |messages[v]| && messages[v][i].singular && FollowsType(messages, messages[v][i]) &&
                messages[v][i].messageType.value == w
  }

  /** The edges the visitor follows. */
  function Followed(messages: Messages): Graph {
    map v | v in messages :: set i, w | 0 <= i < |messages[v]| && w in Targets(messages, messages[v][i]) :: w
  }

  /** The visitor's invariant; `stack` is the chain of messages being visited. */
  ghost predicate Emitting(messages: Messages, ordered: seq<Name>, visiting: set<Name>, visited: set<Name>, stack: seq<Name>) {
    && (forall v :: v in visiting <==> v in stack) && (stack == [] || Path(Followed(messages), stack))
    && (forall v :: v in visited <==> v in ordered)
    && visiting !! visited && visiting + visited <= messages.Keys
    && Emitted(messages, ordered)
  }

  lemma Unvisit(outer: set<Name>, v: Name)
    requires v !in outer
    ensures outer + {v} - {v} == outer
  {
  }

  lemma VisitUnfolds(messages: Messages, v: Name, visiting: set<Name>, ordered: seq<Name>)
    requires v in messages
    ensures VisitFrom(messages, v, visiting, ordered) ==
              if v in ordered || v in visiting then ordered else FieldsFrom(messages, v, 0, visiting + {v}, ordered) + [v]
  {
  }

  lemma VisitedIsOrdered(messages: Messages, ordered: seq<Name>, visiting: set<Name>, visited: set<Name>, stack: seq<Name>)
    requires Emitting(messages, ordered, visiting, visited, stack)
    ensures forall v :: v in visited <==> v in ordered
  {
  }

  lemma Outer(messages: Messages, ordered: seq<Name>, visiting: set<Name>, visited: set<Name>, stack: seq<Name>)
    requires Emitting(messages, ordered, visiting, visited, stack)
    ensures stack == [] || Path(Followed(messages), stack)
    ensures forall w :: w in visiting <==> w in stack
  {
  }

  lemma Enter(messages: Messages, ordered: seq<Name>, visiting: set<Name>, visited: set<Name>, stack: seq<Name>, v: Name)
    requires Emitting(messages, ordered, visiting, visited, stack) && v in messages && v !in visiting && v !in visited
    requires stack == [] || v in Next(Followed(messages), stack[|stack| - 1])
    ensures Emitting(messages, ordered, visiting + {v}, visited, stack + [v])
  {
    Deeper(Followed(messages), stack, v);
    hide Path, Emitted, Followed;
  }

  lemma Leave(messages: Messages, ordered: seq<Name>, visiting: set<Name>, visited: set<Name>, stack: seq<Name>, v: Name)
    requires Emitting(messages, ordered, visiting + {v}, visited, stack + [v]) && v !in visiting
    requires stack == [] || Path(Followed(messages), stack)
    requires forall w :: w in visiting <==> w in stack
    requires forall w :: w in Next(Followed(messages), v) ==> w in visited || w in visiting + {v}
    ensures Emitting(messages, ordered + [v], visiting, visited + {v}, stack)
  {
    assert v in visiting + {v};
    EmitOne(messages, ordered, v, stack + [v]);
    hide Path, Emitted, Followed;
  }

  /** What is listed after one visit, and after the fields of one message from the `i`-th on. */
  function VisitFrom(messages: Messages, v: Name, visiting: set<Name>, ordered: seq<Name>): seq<Name>
    requires v in messages
    decreases |messages.Keys - visiting|, 0, 0
  {
    if v in ordered || v in visiting then ordered
    else
      Shrinks(messages.Keys, visiting, v);
      FieldsFrom(messages, v, 0, visiting + {v}, ordered) + [v]
  }

  function FieldsFrom(messages: Messages, v: Name, i: nat, visiting: set<Name>, ordered: seq<Name>): seq<Name>
    requires v in messages && i <= |messages[v]|
    decreases |messages.Keys - visiting|, 1, |messages[v]| - i
  {
    if i == |messages[v]| then ordered
    else FieldsFrom(messages, v, i + 1, visiting, AfterField(messages, messages[v][i], visiting, ordered))
  }

  function AfterField(messages: Messages, f: Field, visiting: set<Name>, ordered: seq<Name>): seq<Name>
    decreases |messages.Keys - visiting|, 0, 1
  {
    var typed := if FollowsType(messages, f) then VisitFrom(messages, f.messageType.value, visiting, ordered) else ordered;
    if FollowsMapValue(messages, f) then VisitFrom(messages, f.mapValue.value, visiting, typed) else typed
  }

  /** The order in which the messages of the file are listed. */
  function Order(messages: Messages, all: seq<Name>): seq<Name>
    requires forall v :: v in all ==> v in messages
  {
    if all == [] then []
    else VisitFrom(messages, all[|all| - 1], {}, Order(messages, all[..|all| - 1]))
  }

  class Emitter {
    const messages: Messages
    var ordered: seq<Name>
    var visiting: set<Name>
    var visited: set<Name>

    constructor (messages: Messages)
      ensures this.messages == messages && ordered == [] && visiting == {} && visited == {}
    {
      this.messages := messages;
      ordered, visiting, visited := [], {}, {};
    }

    ghost predicate Valid(stack: seq<Name>)
      reads this
    {
      Emitting(messages, ordered, visiting, visited, stack)
    }

    method Visit(v: Name, ghost stack: seq<Name>)
      requires Valid(stack) && v in messages
      requires stack == [] || v in Next(Followed(messages), stack[|stack| - 1])
      modifies this`ordered, this`visiting, this`visited
      ensures Valid(stack) && visiting == old(visiting) && old(ordered) <= ordered && old(visited) <= visited
      ensures v in visited || v in visiting
      ensures ordered == VisitFrom(messages, v, visiting, old(ordered))
      decreases |messages.Keys - visiting|, 0
    {
      hide Emitting, Path, Followed, VisitFrom, FieldsFrom, Next, Emitted, Reaches, FollowsType, FollowsMapValue, Targets;
      VisitUnfolds(messages, v, visiting, ordered);
      VisitedIsOrdered(messages, ordered, visiting, visited, stack);
      if v in visited || v in visiting { return; }
      Outer(messages, ordered, visiting, visited, stack);
      Enter(messages, ordered, visiting, visited, stack, v);
      Shrinks(messages.Keys, visiting, v);
      ghost var outer := visiting;
      visiting := visiting + {v};
      VisitFields(v, stack + [v]);
      Leave(messages, ordered, outer, visited, stack, v);
      Unvisit(outer, v);
      visiting := visiting - {v};
      visited := visited + {v};
      ordered := ordered + [v];
    }

    method VisitFields(v: Name, ghost stack: seq<Name>)
      requires Valid(stack) && v in messages && stack != [] && stack[|stack| - 1] == v
      modifies this`ordered, this`visiting, this`visited
      ensures Valid(stack) && visiting == old(visiting) && old(ordered) <= ordered && old(visited) <= visited
      ensures forall w :: w in Next(Followed(messages), v) ==> w in visited || w in visiting
      ensures ordered == FieldsFrom(messages, v, 0, visiting, old(ordered))
      decreases |messages.Keys - visiting|, 1
    {
      hide Emitting, Followed, Next, FollowsType, FollowsMapValue, VisitFrom;
      var i := 0;
      while i < |messages[v]|
        invariant i <= |messages[v]| && Valid(stack) && visiting == old(visiting) && old(ordered) <= ordered && old(visited) <= visited
        invariant forall j :: 0 <= j < i ==> Targets(messages, messages[v][j]) <= visited + visiting
        invariant FieldsFrom(messages, v, i, visiting, ordered) == FieldsFrom(messages, v, 0, visiting, old(ordered))
      {
        var f := messages[v][i];
        TargetsAreFollowed(messages, v, i);
        if FollowsType(messages, f) {
          Visit(f.messageType.value, stack);
        }
        if FollowsMapValue(messages, f) {
          Visit(f.mapValue.value, stack);
        }
        i := i + 1;
      }
      FollowedAreTargets(messages, v);
    }
  }

  /** What is listed is listed once, and each followed target comes first unless it can reach the owner. */
  ghost predicate Emitted(messages: Messages, ordered: seq<Name>) {
    && (forall i, j :: 0 <= i < j < |ordered| ==> ordered[i] != ordered[j])
    && (forall i, w :: 0 <= i < |ordered| && w in Next(Followed(messages), ordered[i]) ==>
          w in ordered[..i] || Reaches(Followed(messages), w, ordered[i]))
  }

  lemma TargetsAreFollowed(messages: Messages, v: Name, i: nat)
    requires v in messages && i < |messages[v]|
    ensures var f := messages[v][i];
            && (FollowsType(messages, f) ==> f.messageType.Some? && f.messageType.value in messages
                                             && f.messageType.value in Next(Followed(messages), v))
            && (FollowsMapValue(messages, f) ==> f.mapValue.Some? && f.mapValue.value in messages
                                                 && f.mapValue.value in Next(Followed(messages), v))
            && forall w :: w in Targets(messages, f) <==>
                 (FollowsType(messages, f) && w == f.messageType.value) || (FollowsMapValue(messages, f) && w == f.mapValue.value)
  {
    var f := messages[v][i];
    assert forall w :: w in Targets(messages, f) ==> w in Next(Followed(messages), v);
  }

  lemma FollowedAreTargets(messages: Messages, v: Name)
    requires v in messages
    ensures forall w :: w in Next(Followed(messages), v) ==>
              exists i :: 0 <= i < |messages[v]| && w in Targets(messages, messages[v][i])
  {
  }

  /** What is followed: every message of the file that a field stores without a recursion box or has as its map value. */
  lemma FollowedExactly(messages: Messages, v: Name, w: Name)
    ensures w in Next(Followed(messages), v) <==>
              && v in messages && w in messages
              && exists i :: && 0 <= i < |messages[v]|
                             && ((messages[v][i].messageType == Some(w) && !messages[v][i].recursiveBox)
                                 || messages[v][i].mapValue == Some(w))
  {
    if v in messages {
      FollowedAreTargets(messages, v);
      forall i | 0 <= i < |messages[v]| ensures Targets(messages, messages[v][i]) <= Next(Followed(messages), v) {
        TargetsAreFollowed(messages, v, i);
      }
      hide Next, Followed;
    }
  }

  lemma Deeper(g: Graph, stack: seq<Name>, v: Name)
    requires stack == [] || (Path(g, stack) && v in Next(g, stack[|stack| - 1]))
    ensures Path(g, stack + [v])
  {
    if stack != [] { PathThenStep(g, stack, v); }
  }

  lemma EmitOne(messages: Messages, ordered: seq<Name>, v: Name, stack: seq<Name>)
    requires Emitted(messages, ordered) && v !in ordered
    requires stack != [] && stack[|stack| - 1] == v && Path(Followed(messages), stack)
    requires forall w :: w in Next(Followed(messages), v) ==> w in ordered || w in stack
    ensures Emitted(messages, ordered + [v])
  {
    var g := Followed(messages);
    var all := ordered + [v];
    forall i, w | 0 <= i < |all| && w in Next(g, all[i]) ensures w in all[..i] || Reaches(g, w, all[i]) {
      if i < |ordered| {
        assert all[..i] == ordered[..i];
      } else if w in ordered {
        assert all[..i] == ordered;
      } else {
        var k :| 0 <= k < |stack| && stack[k] == w;
        TailOfPath(g, stack, k);
        assert stack[k..][0] == w && stack[k..][|stack| - k - 1] == v;
      }
    }
  }

  /** _ordered_messages: every message of the file, once; definitions before uses wherever that is possible. */
  method OrderedMessages(messages: Messages, all: seq<Name>) returns (ordered: seq<Name>)
    requires forall v :: v in all <==> v in messages
    ensures (forall v :: v in ordered <==> v in messages) && Emitted(messages, ordered)
    ensures ordered == Order(messages, all)
  {
    var e := new Emitter(messages);
    var i := 0;
    while i < |all|
      invariant i <= |all| && e.Valid([]) && e.messages == messages
      invariant forall j :: 0 <= j < i ==> all[j] in e.visited
      invariant e.ordered == Order(messages, all[..i]) && e.visiting == {}
    {
      assert all[..i + 1][..i] == all[..i];
      e.Visit(all[i], []);
      i := i + 1;
    }
    ordered := e.ordered;
    assert all[..|all|] == all;
  }

  // ---------------------------------------------------------------- when the order is topological

  /** Every followed target comes before its owner. */
  ghost predicate TargetsFirst(messages: Messages, ordered: seq<Name>) {
    forall i, w :: 0 <= i < |ordered| && w in Next(Followed(messages), ordered[i]) ==> w in ordered[..i]
  }

  /** Some followed edge leads to a message that reaches its owner again. */
  ghost predicate Entangled(messages: Messages) {
    exists v, w :: w in Next(Followed(messages), v) && Reaches(Followed(messages), w, v)
  }

  lemma {:induction false} PathGoesBack(messages: Messages, ordered: seq<Name>, p: seq<Name>, i: nat) returns (j: nat)
    requires TargetsFirst(messages, ordered) && Path(Followed(messages), p) && i < |ordered| && ordered[i] == p[0]
    ensures j <= i && ordered[j] == p[|p| - 1]
    decreases |p|
  {
    if |p| == 1 {
      j := i;
    } else {
      TailOfPath(Followed(messages), p, 1);
      assert p[1] in Next(Followed(messages), ordered[i]);
      var k :| 0 <= k < i && ordered[k] == p[1];
      j := PathGoesBack(messages, ordered, p[1..], k);
    }
  }

  /** The order is topological exactly when no followed target reaches its owner again. */
  lemma TargetsFirstIff(messages: Messages, ordered: seq<Name>)
    requires Emitted(messages, ordered) && forall v :: v in ordered <==> v in messages
    ensures TargetsFirst(messages, ordered) <==> !Entangled(messages)
  {
    var g := Followed(messages);
    if TargetsFirst(messages, ordered) {
      forall v, w | w in Next(g, v) ensures !Reaches(g, w, v) {
        var i :| 0 <= i < |ordered| && ordered[i] == v;
        var k :| 0 <= k < i && ordered[k] == w;
        if Reaches(g, w, v) {
          var p :| Path(g, p) && p[0] == w && p[|p| - 1] == v;
          var j := PathGoesBack(messages, ordered, p, k);
        }
      }
    }
  }

  /** Message B has a repeated A, and A a singular B that no cycle of singular fields boxes. */
  const RepeatedAndSingular: Messages :=
    map["A" := [Field(Some("B"), false, None, true)], "B" := [Field(Some("A"), false, None, false)]]

  /** Listed as B, A they are emitted as A, B: A comes before the B it contains, though the other order has it after. */
  lemma ContainedAfterOwner()
    ensures !OnCycle([Direct("A", "B")], Direct("A", "B"))
    ensures Order(RepeatedAndSingular, ["B", "A"]) == ["A", "B"]
    ensures Contains(RepeatedAndSingular, "A", "B")
  {
    var fields := [Direct("A", "B")];
    assert forall d :: d in fields ==> d.target == "B" && d.owner == "A";
    var m := RepeatedAndSingular;
    assert m["A"][0] == Field(Some("B"), false, None, true) && m["B"][0] == Field(Some("A"), false, None, false);
    assert "B" in Targets(m, m["A"][0]);
    assert VisitFrom(m, "B", {"B"} + {"A"}, []) == [];
    assert FieldsFrom(m, "A", 0, {"B"} + {"A"}, []) == [];
    assert VisitFrom(m, "A", {"B"}, []) == ["A"];
    assert {} + {"B"} == {"B"};
    assert AfterField(m, m["B"][0], {"B"}, []) == ["A"];
    assert FieldsFrom(m, "B", 0, {"B"}, []) == ["A"];
    assert VisitFrom(m, "B", {}, []) == ["A", "B"];
    assert ["B", "A"][..1] == ["B"] && ["B"][..0] == [];
    assert Order(m, ["B"]) == ["A", "B"];
    assert VisitFrom(m, "A", {}, ["A", "B"]) == ["A", "B"];
  }
}
