/** When a message definition comes after those it contains, in whatever order the messages are listed. */
module EmissionOrder {
  import opened MessageGraph

  // ---------------------------------------------------------------- what one visit leaves

  ghost function Names(ordered: seq<Name>): set<Name> { set v | v in ordered }

  /** Whatever is listed has its followed targets listed or being visited. */
  ghost predicate Closed(messages: Messages, ordered: seq<Name>, visiting: set<Name>) {
    forall v, w :: v in ordered && w in Next(Followed(messages), v) ==> w in ordered || w in visiting
  }

  ghost predicate Sound(messages: Messages, ordered: seq<Name>, visiting: set<Name>, stack: seq<Name>) {
    Emitting(messages, ordered, visiting, Names(ordered), stack) && Closed(messages, ordered, visiting)
  }

  lemma SoundStack(messages: Messages, ordered: seq<Name>, visiting: set<Name>, stack: seq<Name>)
    requires Sound(messages, ordered, visiting, stack)
    ensures stack == [] || Path(Followed(messages), stack)
    ensures forall w :: w in visiting <==> w in stack
  {
  }

  lemma SoundEnter(messages: Messages, ordered: seq<Name>, visiting: set<Name>, stack: seq<Name>, v: Name)
    requires Sound(messages, ordered, visiting, stack) && v in messages && v !in visiting && v !in ordered
    requires stack == [] || v in Next(Followed(messages), stack[|stack| - 1])
    ensures Sound(messages, ordered, visiting + {v}, stack + [v])
  {
    hide Emitting, Path, Followed;
    Enter(messages, ordered, visiting, Names(ordered), stack, v);
  }

  lemma SoundLeave(messages: Messages, ordered: seq<Name>, visiting: set<Name>, stack: seq<Name>, v: Name)
    requires Sound(messages, ordered, visiting + {v}, stack + [v]) && v !in visiting
    requires stack == [] || Path(Followed(messages), stack)
    requires forall w :: w in visiting <==> w in stack
    requires forall w :: w in Next(Followed(messages), v) ==> w in ordered || w in visiting + {v}
    ensures Sound(messages, ordered + [v], visiting, stack)
  {
    hide Emitting, Path, Followed;
    Leave(messages, ordered, visiting, Names(ordered), stack, v);
    assert Names(ordered + [v]) == Names(ordered) + {v};
  }

  /** A visit only lists more, lists the visited message unless it is being visited, and keeps all of the above. */
  lemma {:induction false} VisitKeeps(messages: Messages, v: Name, visiting: set<Name>, ordered: seq<Name>, stack: seq<Name>)
    requires Sound(messages, ordered, visiting, stack) && v in messages
    requires stack == [] || v in Next(Followed(messages), stack[|stack| - 1])
    ensures var now := VisitFrom(messages, v, visiting, ordered);
      Sound(messages, now, visiting, stack) && ordered <= now && (v in now || v in visiting)
    decreases |messages.Keys - visiting|, 0, 0
  {
    hide Sound, VisitFrom, FieldsFrom, Next, Followed, Targets, FollowsType, FollowsMapValue, Path;
    VisitUnfolds(messages, v, visiting, ordered);
    if v !in ordered && v !in visiting {
      SoundStack(messages, ordered, visiting, stack);
      SoundEnter(messages, ordered, visiting, stack, v);
      Shrinks(messages.Keys, visiting, v);
      FieldsKeep(messages, v, 0, visiting + {v}, ordered, stack + [v]);
      AllFollowed(messages, v, FieldsFrom(messages, v, 0, visiting + {v}, ordered), visiting + {v});
      SoundLeave(messages, FieldsFrom(messages, v, 0, visiting + {v}, ordered), visiting, stack, v);
    }
  }

  lemma AllFollowed(messages: Messages, v: Name, now: seq<Name>, visiting: set<Name>)
    requires v in messages
    requires forall j, w :: 0 <= j < |messages[v]| && w in Targets(messages, messages[v][j]) ==> w in now || w in visiting
    ensures forall w :: w in Next(Followed(messages), v) ==> w in now || w in visiting
  {
    hide Targets, Next, Followed;
    FollowedAreTargets(messages, v);
  }

  lemma {:induction false} FieldsKeep(messages: Messages, v: Name, i: nat, visiting: set<Name>, ordered: seq<Name>, stack: seq<Name>)
    requires Sound(messages, ordered, visiting, stack) && v in messages && i <= |messages[v]|
    requires stack != [] && stack[|stack| - 1] == v
    ensures var now := FieldsFrom(messages, v, i, visiting, ordered);
      && Sound(messages, now, visiting, stack) && ordered <= now
      && forall j, w :: i <= j < |messages[v]| && w in Targets(messages, messages[v][j]) ==> w in now || w in visiting
    decreases |messages.Keys - visiting|, 1, |messages[v]| - i
  {
    hide Sound, VisitFrom, Next, Followed, Targets, AfterField;
    if i < |messages[v]| {
      FieldKeeps(messages, v, i, visiting, ordered, stack);
      FieldsKeep(messages, v, i + 1, visiting, AfterField(messages, messages[v][i], visiting, ordered), stack);
    }
  }

  lemma {:induction false} FieldKeeps(messages: Messages, v: Name, i: nat, visiting: set<Name>, ordered: seq<Name>, stack: seq<Name>)
    requires Sound(messages, ordered, visiting, stack) && v in messages && i < |messages[v]|
    requires stack != [] && stack[|stack| - 1] == v
    ensures var now := AfterField(messages, messages[v][i], visiting, ordered);
      && Sound(messages, now, visiting, stack) && ordered <= now
      && forall w :: w in Targets(messages, messages[v][i]) ==> w in now || w in visiting
    decreases |messages.Keys - visiting|, 0, 1
  {
    hide Sound, VisitFrom, Next, Followed, Targets, FollowsType, FollowsMapValue;
    TargetsAreFollowed(messages, v, i);
    var f := messages[v][i];
    var typed := if FollowsType(messages, f) then VisitFrom(messages, f.messageType.value, visiting, ordered) else ordered;
    if FollowsType(messages, f) { VisitKeeps(messages, f.messageType.value, visiting, ordered, stack); }
    if FollowsMapValue(messages, f) { VisitKeeps(messages, f.mapValue.value, visiting, typed, stack); }
  }

  // ---------------------------------------------------------------- whole listings

  /** The messages of the file in some order. */
  ghost predicate Listing(messages: Messages, all: seq<Name>) {
    forall v :: v in all <==> v in messages
  }

  lemma OrderUnfolds(messages: Messages, all: seq<Name>)
    requires forall v :: v in all ==> v in messages
    ensures all == [] ==> Order(messages, all) == []
    ensures all != [] ==>
              var init, last := all[..|all| - 1], all[|all| - 1];
              && last in messages && (forall v :: v in all <==> v in init || v == last) && (forall v :: v in init ==> v in messages)
              && Order(messages, all) == VisitFrom(messages, last, {}, Order(messages, init))
  {
    hide VisitFrom;
    if all != [] { assert all == all[..|all| - 1] + [all[|all| - 1]]; }
  }

  lemma {:induction false} OrderKeeps(messages: Messages, all: seq<Name>)
    requires forall v :: v in all ==> v in messages
    ensures Sound(messages, Order(messages, all), {}, []) && forall v :: v in all ==> v in Order(messages, all)
    ensures all != [] ==> VisitFrom(messages, all[0], {}, []) <= Order(messages, all)
  {
    hide VisitFrom, Next, Order, Sound;
    OrderUnfolds(messages, all);
    if all == [] {
      NothingListed(messages);
    } else {
      var init, last := all[..|all| - 1], all[|all| - 1];
      OrderKeeps(messages, init);
      VisitKeeps(messages, last, {}, Order(messages, init), []);
      if init == [] { OrderUnfolds(messages, init); }
    }
  }

  lemma NothingListed(messages: Messages)
    ensures Sound(messages, [], {}, [])
  {
  }

  /** Containing is following. */
  lemma ContainedIsFollowed(messages: Messages, v: Name, w: Name)
    requires Contains(messages, v, w)
    ensures w in Next(Followed(messages), v) && w in messages
  {
    var i :| 0 <= i < |messages[v]| && messages[v][i].singular && FollowsType(messages, messages[v][i]) && messages[v][i].messageType.value == w;
    TargetsAreFollowed(messages, v, i);
  }

  /** Visited first, a message comes after everything it reaches. */
  lemma ReachedComesBefore(messages: Messages, w: Name, v: Name)
    requires w in messages && Reaches(Followed(messages), w, v)
    ensures var now := VisitFrom(messages, w, {}, []); now != [] && now[|now| - 1] == w && v in now
  {
    var g, now := Followed(messages), VisitFrom(messages, w, {}, []);
    NothingListed(messages);
    VisitKeeps(messages, w, {}, [], []);
    VisitUnfolds(messages, w, {}, []);
    var p :| Path(g, p) && p[0] == w && p[|p| - 1] == v;
    forall x | x in Names(now) ensures Next(g, x) <= Names(now) {}
    hide Followed, Path;
    ClosedKeepsPath(g, Names(now), p);
  }

  /** Every contained message is listed before its owner. */
  ghost predicate ContainedFirst(messages: Messages, ordered: seq<Name>) {
    forall i, w :: 0 <= i < |ordered| && Contains(messages, ordered[i], w) ==> w in ordered[..i]
  }

  /** Some message contains one that reaches it. */
  ghost predicate Tangled(messages: Messages) {
    exists v, w :: Contains(messages, v, w) && Reaches(Followed(messages), w, v)
  }

  lemma SoundOrder(messages: Messages, ordered: seq<Name>)
    requires Sound(messages, ordered, {}, [])
    ensures Emitted(messages, ordered)
  {
  }

  lemma UntangledFirst(messages: Messages, all: seq<Name>)
    requires !Tangled(messages) && Listing(messages, all)
    ensures ContainedFirst(messages, Order(messages, all))
  {
    OrderKeeps(messages, all);
    var ordered := Order(messages, all);
    SoundOrder(messages, ordered);
    hide Order, Sound, Contains;
    forall i, w | 0 <= i < |ordered| && Contains(messages, ordered[i], w) ensures w in ordered[..i] {
      ContainedIsFollowed(messages, ordered[i], w);
    }
  }

  lemma {:induction false} Listed(s: set<Name>) returns (all: seq<Name>)
    ensures forall v :: v in all <==> v in s
  {
    if s == {} {
      all := [];
    } else {
      var v :| v in s;
      all := Listed(s - {v});
      all := [v] + all;
    }
  }

  /** With a contained message that reaches its owner, the listing that starts with the contained one fails. */
  lemma TangledFails(messages: Messages) returns (all: seq<Name>)
    requires Tangled(messages)
    ensures Listing(messages, all) && !ContainedFirst(messages, Order(messages, all))
  {
    var v, w :| Contains(messages, v, w) && Reaches(Followed(messages), w, v);
    ContainedIsFollowed(messages, v, w);
    var rest := Listed(messages.Keys);
    all := [w] + rest;
    OrderKeeps(messages, all);
    ReachedComesBefore(messages, w, v);
    var first, ordered := VisitFrom(messages, w, {}, []), Order(messages, all);
    SoundOrder(messages, ordered);
    hide Order, VisitFrom, Sound, Contains, Reaches;
    var i :| 0 <= i < |first| && first[i] == v;
    assert ordered[i] == v && ordered[|first| - 1] == w;
    assert forall k :: 0 <= k < i ==> ordered[k] != ordered[|first| - 1];
    assert w !in ordered[..i];
  }

  /** Definitions come after those they contain, whatever order the messages are listed in, if and only if no contained
      message reaches its owner. */
  lemma ContainedFirstIff(messages: Messages)
    ensures (forall all :: Listing(messages, all) ==> ContainedFirst(messages, Order(messages, all))) <==> !Tangled(messages)
  {
    hide ContainedFirst, Tangled, Order;
    if Tangled(messages) {
      var all := TangledFails(messages);
    } else {
      forall all | Listing(messages, all) ensures ContainedFirst(messages, Order(messages, all)) { UntangledFirst(messages, all); }
    }
  }

  // ---------------------------------------------------------------- when nothing is followed

  /** The message type of every field is boxed or foreign, and so is every map value foreign or missing. */
  ghost predicate NothingFollowed(messages: Messages) {
    forall v, i :: v in messages && 0 <= i < |messages[v]| ==>
      && (messages[v][i].messageType.None? || messages[v][i].messageType.value !in messages || messages[v][i].recursiveBox)
      && (messages[v][i].mapValue.None? || messages[v][i].mapValue.value !in messages)
  }

  lemma {:induction false} PassesFields(messages: Messages, v: Name, i: nat, visiting: set<Name>, ordered: seq<Name>)
    requires NothingFollowed(messages) && v in messages && i <= |messages[v]|
    ensures FieldsFrom(messages, v, i, visiting, ordered) == ordered
    decreases |messages[v]| - i
  {
    hide VisitFrom;
    if i < |messages[v]| {
      assert AfterField(messages, messages[v][i], visiting, ordered) == ordered;
      PassesFields(messages, v, i + 1, visiting, ordered);
    }
  }

  /** Then the messages are emitted in the very order in which they are listed. */
  lemma {:induction false} OrderIsListing(messages: Messages, all: seq<Name>)
    requires NothingFollowed(messages) && forall v :: v in all ==> v in messages
    requires forall i, j :: 0 <= i < j < |all| ==> all[i] != all[j]
    ensures Order(messages, all) == all
  {
    hide VisitFrom, NothingFollowed;
    OrderUnfolds(messages, all);
    if all != [] {
      var init, last := all[..|all| - 1], all[|all| - 1];
      OrderIsListing(messages, init);
      VisitUnfolds(messages, last, {}, init);
      PassesFields(messages, last, 0, {} + {last}, init);
    }
  }
}
