/** What the validation of a transaction accepts, said about the committed entries and the plan alone. */
module OutputAcceptance {
  import opened Options
  import opened OutputModel

  /** A change that leads on from the committed entries: a publication of a planned output with its own payload, or the
      retirement of an unplanned one, which may hand its record to an unrecorded planned path. */
  ghost predicate Legitimate(planned: map<Path, Target>, entries: map<Path, Entry>, c: Change, index: nat) {
    && (match c.before
        case None => c.path !in entries
        case Some(b) => c.path in entries && entries[c.path].sha256 == b)
    && (c.after.Some? ==> c.payload == Some(index) && c.transfer.None? && c.path in planned && c.target == planned[c.path])
    && (c.after.None? ==> c.payload.None? && c.path !in planned)
    && (c.after.None? && c.transfer.None? && c.path in entries ==> c.target == entries[c.path].target)
    && (c.after.None? && c.transfer.Some? ==>
          var dest := c.transfer.value.path;
          c.path in entries && dest !in entries && dest in planned && c.target == planned[dest])
  }

  ghost predicate HandsTo(c: Change, dest: Path) { c.transfer.Some? && c.transfer.value.path == dest }

  /** No two changes from the `i`-th on hand over to one path. */
  ghost predicate HeirsDiffer(changes: seq<Change>, i: nat) {
    forall j, k, dest :: i <= j < k < |changes| && HandsTo(changes[j], dest) ==> !HandsTo(changes[k], dest)
  }

  /** What the changes from the `i`-th on make of the entry at `p`. */
  ghost predicate EntryMade(entries: map<Path, Entry>, changes: seq<Change>, i: nat, goal: map<Path, Entry>, p: Path) {
    && (forall k :: i <= k < |changes| && changes[k].path == p ==>
          At(goal, p) == if changes[k].after.Some? then Some(Entry(changes[k].after.value, changes[k].target)) else None)
    && (forall k :: i <= k < |changes| && HandsTo(changes[k], p) && changes[k].before.Some? ==>
          At(goal, p) == Some(Entry(changes[k].before.value, changes[k].target)))
    && ((forall k :: i <= k < |changes| ==> changes[k].path != p && !HandsTo(changes[k], p)) ==> At(goal, p) == At(entries, p))
  }

  ghost predicate Leads(planned: map<Path, Target>, entries: map<Path, Entry>, changes: seq<Change>, i: nat, goal: map<Path, Entry>)
    requires i <= |changes|
  {
    && (forall k :: i <= k < |changes| ==> Legitimate(planned, entries, changes[k], k))
    && HeirsDiffer(changes, i) && forall p :: EntryMade(entries, changes, i, goal, p)
  }

  ghost predicate SeenBefore(changes: seq<Change>, i: nat, seen: set<Path>) {
    forall p :: p in seen <==> exists j :: 0 <= j < i && j < |changes| && changes[j].path == p
  }

  lemma {:induction false} ReplaysExactly(planned: map<Path, Target>, expected: map<Path, Entry>, seen: set<Path>,
                                          changes: seq<Change>, i: nat, goal: map<Path, Entry>)
    requires i <= |changes| && DistinctPaths(changes) && TransfersUntouched(changes) && SeenBefore(changes, i, seen)
    ensures Replays(planned, expected, seen, changes, i, goal) <==> Leads(planned, expected, changes, i, goal)
    decreases |changes| - i
  {
    if i == |changes| {
      if Leads(planned, expected, changes, i, goal) {
        forall p ensures At(goal, p) == At(expected, p) { assert EntryMade(expected, changes, i, goal, p); }
        SameEntries(goal, expected);
      }
    } else {
      NotSeen(changes, i, seen);
      AcceptedIffLegitimate(planned, expected, seen, changes[i], i);
      if Legitimate(planned, expected, changes[i], i) {
        ReplaysExactly(planned, Absorb(expected, changes[i]), seen + {changes[i].path}, changes, i + 1, goal);
        LeadsStep(planned, expected, changes, i, goal);
      }
      hide ChangeAccepted, Legitimate, HeirsDiffer, EntryMade, SeenBefore, DistinctPaths, TransfersUntouched;
    }
  }

  lemma SameEntries(a: map<Path, Entry>, b: map<Path, Entry>)
    requires forall p :: At(a, p) == At(b, p)
    ensures a == b
  {
    forall p ensures p in a <==> p in b
    ensures p in a ==> a[p] == b[p]
    {
      assert At(a, p) == At(b, p);
    }
  }

  lemma NotSeen(changes: seq<Change>, i: nat, seen: set<Path>)
    requires i < |changes| && DistinctPaths(changes) && SeenBefore(changes, i, seen)
    ensures changes[i].path !in seen && SeenBefore(changes, i + 1, seen + {changes[i].path})
  {
  }

  lemma AcceptedIffLegitimate(planned: map<Path, Target>, expected: map<Path, Entry>, seen: set<Path>, c: Change, index: nat)
    requires c.path !in seen
    ensures ChangeAccepted(planned, expected, seen, c, index) && (c.transfer.Some? ==> c.before.Some?) <==>
              Legitimate(planned, expected, c, index)
    ensures ChangeAccepted(planned, expected, seen, c, index) ==> (c.transfer.Some? ==> c.before.Some?)
  {
  }

  /** One legitimate change leaves the later ones as legitimate as they were, but for a second transfer to its heir. */
  lemma LeadsStep(planned: map<Path, Target>, entries: map<Path, Entry>, changes: seq<Change>, i: nat, goal: map<Path, Entry>)
    requires i < |changes| && DistinctPaths(changes) && TransfersUntouched(changes) && Legitimate(planned, entries, changes[i], i)
    ensures Leads(planned, entries, changes, i, goal) <==> Leads(planned, Absorb(entries, changes[i]), changes, i + 1, goal)
  {
    var c, next, n := changes[i], Absorb(entries, changes[i]), i + 1;
    forall k | i < k < |changes|
      ensures Legitimate(planned, next, changes[k], k) <==>
                Legitimate(planned, entries, changes[k], k) && forall dest :: HandsTo(c, dest) ==> !HandsTo(changes[k], dest)
    {
      LaterLegitimate(planned, entries, changes, i, k);
    }
    if Leads(planned, entries, changes, i, goal) {
      forall p ensures EntryMade(next, changes, n, goal, p) {
        assert EntryMade(entries, changes, i, goal, p);
        MadeAfter(planned, entries, changes, i, goal, p);
      }
    }
    if Leads(planned, next, changes, i + 1, goal) {
      forall p ensures EntryMade(entries, changes, i, goal, p) {
        assert EntryMade(next, changes, n, goal, p);
        MadeBefore(planned, entries, changes, i, goal, p);
      }
    }
    hide Legitimate, EntryMade;
  }

  lemma LaterLegitimate(planned: map<Path, Target>, entries: map<Path, Entry>, changes: seq<Change>, i: nat, k: nat)
    requires i < k < |changes| && DistinctPaths(changes) && TransfersUntouched(changes) && Legitimate(planned, entries, changes[i], i)
    ensures Legitimate(planned, Absorb(entries, changes[i]), changes[k], k) <==>
              Legitimate(planned, entries, changes[k], k) && forall dest :: HandsTo(changes[i], dest) ==> !HandsTo(changes[k], dest)
  {
    var c, d := changes[i], changes[k];
    assert c.path != d.path;
    assert Touches(changes, d.path) && Touches(changes, c.path);
    assert c.transfer.Some? ==> c.transfer.value.path != d.path;
    assert d.transfer.Some? ==> d.transfer.value.path != c.path;
    hide DistinctPaths, TransfersUntouched, Touches;
    var next := Absorb(entries, c);
    assert At(next, d.path) == At(entries, d.path);
    if d.transfer.Some? {
      var dest := d.transfer.value.path;
      assert HandsTo(d, dest);
      assert dest !in next <==> dest !in entries && !HandsTo(c, dest);
      if forall x :: HandsTo(c, x) ==> !HandsTo(d, x) { assert !HandsTo(c, dest); }
    }
  }

  lemma MadeAfter(planned: map<Path, Target>, entries: map<Path, Entry>, changes: seq<Change>, i: nat, goal: map<Path, Entry>, p: Path)
    requires i < |changes| && DistinctPaths(changes) && TransfersUntouched(changes) && Legitimate(planned, entries, changes[i], i)
    requires EntryMade(entries, changes, i, goal, p)
    ensures EntryMade(Absorb(entries, changes[i]), changes, i + 1, goal, p)
  {
    assert Touches(changes, changes[i].path);
  }

  lemma MadeBefore(planned: map<Path, Target>, entries: map<Path, Entry>, changes: seq<Change>, i: nat, goal: map<Path, Entry>, p: Path)
    requires i < |changes| && DistinctPaths(changes) && TransfersUntouched(changes) && Legitimate(planned, entries, changes[i], i)
    requires EntryMade(Absorb(entries, changes[i]), changes, i + 1, goal, p)
    requires forall k, dest :: i < k < |changes| && HandsTo(changes[i], dest) ==> !HandsTo(changes[k], dest)
    ensures EntryMade(entries, changes, i, goal, p)
  {
    assert Touches(changes, changes[i].path);
    if changes[i].path == p {
      forall k | i < k < |changes| ensures changes[k].path != p && !HandsTo(changes[k], p) {}
    }
    if HandsTo(changes[i], p) {
      forall k | i < k < |changes| ensures changes[k].path != p && !HandsTo(changes[k], p) {
        assert Touches(changes, changes[k].path);
      }
    }
  }

  /** Changes to distinct paths, none of which is another's heir, are accepted exactly when each leads on from the committed
      entries, no two have one heir, and the proposed entries are what they make of the committed ones. */
  lemma AcceptedExactly(planned: map<Path, Target>, entries: map<Path, Entry>, changes: seq<Change>, goal: map<Path, Entry>)
    requires TransfersUntouched(changes)
    ensures Replays(planned, entries, {}, changes, 0, goal) <==> DistinctPaths(changes) && Leads(planned, entries, changes, 0, goal)
  {
    if Replays(planned, entries, {}, changes, 0, goal) { AcceptedPathsDistinct(planned, entries, {}, changes, 0, goal); }
    if DistinctPaths(changes) { ReplaysExactly(planned, entries, {}, changes, 0, goal); }
  }
}
