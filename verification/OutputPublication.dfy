/** What publish builds: the drafted changes, why validation accepts them, and what they mean. */
module OutputPublication {
  import opened Options
  import opened OutputModel

  /** `after` is `before` with exactly the outputs of one target replaced, one generation later. */
  ghost predicate Published(before: Committed, after: Committed, plan: Plan, target: Target, staged: map<Path, Digest>) {
    && after.snapshot.generation == before.snapshot.generation + 1
    && after.snapshot.token == before.snapshot.token
    && (forall p :: PublishedAt(before, after, p, PlanOutput(target, p) in plan.outputs, target, staged))
  }

  ghost predicate PublishedAt(before: Committed, after: Committed, p: Path, mine: bool, target: Target,
                              staged: map<Path, Digest>)
  {
    if mine then
      && p in staged
      && At(after.contents, p) == Some(staged[p])
      && At(after.snapshot.entries, p) == Some(Entry(staged[p], target))
    else
      && At(after.contents, p) == At(before.contents, p)
      && At(after.snapshot.entries, p) == At(before.snapshot.entries, p)
  }

  function Select(outputs: seq<PlanOutput>, target: Target): seq<PlanOutput> {
    if outputs == [] then []
    else
      var init := Select(outputs[..|outputs| - 1], target);
      if outputs[|outputs| - 1].target == target then init + [outputs[|outputs| - 1]] else init
  }

  lemma {:induction false} SelectProperties(outputs: seq<PlanOutput>, target: Target)
    requires ValidPlan(Plan(outputs))
    ensures forall o :: o in Select(outputs, target) <==> o in outputs && o.target == target
    ensures ValidPlan(Plan(Select(outputs, target)))
  {
    if outputs != [] {
      var n := |outputs| - 1;
      var init := outputs[..n];
      assert outputs == init + [outputs[n]];
      forall i, j | 0 <= i < j < |init| ensures init[i].path != init[j].path {
        assert outputs[i].path != outputs[j].path;
      }
      SelectProperties(init, target);
      var s := Select(init, target);
      forall i | 0 <= i < |s| ensures s[i].path != outputs[n].path {
        assert s[i] in init;
      }
    }
  }

  function PublicationOf(o: PlanOutput, prior: map<Path, Entry>, digest: Digest, index: nat): Change {
    Change(o.path, if o.path in prior then Some(prior[o.path].sha256) else None, Some(digest), Some(index), o.target, None)
  }

  /** The first `|changes|` selected outputs have been turned into changes, and `entries` are the result. */
  ghost predicate Drafted(prior: map<Path, Entry>, outs: seq<PlanOutput>, staged: map<Path, Digest>,
                          changes: seq<Change>, entries: map<Path, Entry>)
  {
    && |changes| <= |outs|
    && (forall j :: 0 <= j < |changes| ==>
          outs[j].path in staged && changes[j] == PublicationOf(outs[j], prior, staged[outs[j].path], j))
    && (forall j :: 0 <= j < |changes| ==>
          At(entries, outs[j].path) == Some(Entry(staged[outs[j].path], outs[j].target)))
    && (forall p :: !Touches(changes, p) ==> At(entries, p) == At(prior, p))
  }

  lemma DraftOne(plan: Plan, prior: map<Path, Entry>, outs: seq<PlanOutput>, target: Target, staged: map<Path, Digest>,
                 changes: seq<Change>, entries: map<Path, Entry>, c: Change, entries': map<Path, Entry>)
    requires ValidPlan(plan) && outs == Select(plan.outputs, target)
    requires Drafted(prior, outs, staged, changes, entries) && |changes| < |outs| && outs[|changes|].path in staged
    requires Replays(Planned(plan.outputs), prior, {}, changes, 0, entries)
    requires c == PublicationOf(outs[|changes|], prior, staged[outs[|changes|].path], |changes|)
    requires entries' == entries[c.path := Entry(staged[c.path], c.target)]
    ensures Drafted(prior, outs, staged, changes + [c], entries')
    ensures Replays(Planned(plan.outputs), prior, {}, changes + [c], 0, entries')
  {
    DraftExtends(plan, prior, outs, target, staged, changes, entries, c, entries');
    DraftAccepted(plan, prior, outs, target, staged, changes, entries, c);
    assert Absorb(entries, c) == entries';
  }

  lemma DraftAccepted(plan: Plan, prior: map<Path, Entry>, outs: seq<PlanOutput>, target: Target, staged: map<Path, Digest>,
                      changes: seq<Change>, entries: map<Path, Entry>, c: Change)
    requires ValidPlan(plan) && outs == Select(plan.outputs, target)
    requires Drafted(prior, outs, staged, changes, entries) && |changes| < |outs| && outs[|changes|].path in staged
    requires Replays(Planned(plan.outputs), prior, {}, changes, 0, entries)
    requires c == PublicationOf(outs[|changes|], prior, staged[outs[|changes|].path], |changes|)
    ensures Replays(Planned(plan.outputs), prior, {}, changes + [c], 0, Absorb(entries, c))
  {
    var k := |changes|;
    SelectProperties(plan.outputs, target);
    assert outs[k] in plan.outputs;
    forall j | 0 <= j < k ensures changes[j].path != c.path { assert outs[j].path != outs[k].path; }
    assert At(entries, c.path) == At(prior, c.path);
    assert c.path in Planned(plan.outputs) && Planned(plan.outputs)[c.path] == c.target by {
      PlannedLookup(plan.outputs);
    }
    ReplaysAppend(Planned(plan.outputs), prior, {}, changes, 0, entries, c);
  }

  lemma DraftExtends(plan: Plan, prior: map<Path, Entry>, outs: seq<PlanOutput>, target: Target, staged: map<Path, Digest>,
                     changes: seq<Change>, entries: map<Path, Entry>, c: Change, entries': map<Path, Entry>)
    requires ValidPlan(plan) && outs == Select(plan.outputs, target)
    requires Drafted(prior, outs, staged, changes, entries) && |changes| < |outs| && outs[|changes|].path in staged
    requires c == PublicationOf(outs[|changes|], prior, staged[outs[|changes|].path], |changes|)
    requires entries' == entries[c.path := Entry(staged[c.path], c.target)]
    ensures Drafted(prior, outs, staged, changes + [c], entries')
  {
    var k := |changes|;
    SelectProperties(plan.outputs, target);
    var all := changes + [c];
    forall p | !Touches(all, p) ensures At(entries', p) == At(prior, p) {
      assert all[k].path == c.path && forall j :: 0 <= j < k ==> all[j] == changes[j];
    }
    forall j | 0 <= j < |all|
      ensures At(entries', outs[j].path) == Some(Entry(staged[outs[j].path], outs[j].target))
    {
      if j < k {
        assert outs[j].path != outs[k].path;
        assert At(entries, outs[j].path) == Some(Entry(staged[outs[j].path], outs[j].target));
      }
    }
  }

  lemma DraftedMeaning(plan: Plan, target: Target, staged: map<Path, Digest>, d: Disk, p: Pending)
    requires ValidPlan(plan) && p.plan == plan
    requires Drafted(d.snapshot.entries, Select(plan.outputs, target), staged, p.changes, p.newSnapshot.entries)
    requires |p.changes| == |Select(plan.outputs, target)|
    requires p.newSnapshot.generation == d.snapshot.generation + 1 && p.newSnapshot.token == d.snapshot.token
    ensures DistinctPaths(p.changes) && TransfersUntouched(p.changes)
    ensures Published(Committed(Contents(d.outputs), d.snapshot), Rolled(d, p), plan, target, staged)
  {
    var outs := Select(plan.outputs, target);
    SelectProperties(plan.outputs, target);
    forall i, j | 0 <= i < j < |p.changes| ensures p.changes[i].path != p.changes[j].path {
      assert outs[i].path != outs[j].path;
    }
    forall q ensures PublishedAt(Committed(Contents(d.outputs), d.snapshot), Rolled(d, p), q,
                                 PlanOutput(target, q) in plan.outputs, target, staged)
    {
      DraftedAt(outs, target, staged, d, p, q);
      assert PlanOutput(target, q) in plan.outputs <==> PlanOutput(target, q) in outs;
    }
  }

  lemma DraftedAt(outs: seq<PlanOutput>, target: Target, staged: map<Path, Digest>, d: Disk, p: Pending, q: Path)
    requires Drafted(d.snapshot.entries, outs, staged, p.changes, p.newSnapshot.entries)
    requires |p.changes| == |outs| && DistinctPaths(p.changes)
    requires forall o :: o in outs ==> o.target == target
    ensures PublishedAt(Committed(Contents(d.outputs), d.snapshot), Rolled(d, p), q, PlanOutput(target, q) in outs, target, staged)
  {
    DeltaLookup(p.changes);
    if PlanOutput(target, q) in outs {
      var j :| 0 <= j < |outs| && outs[j] == PlanOutput(target, q);
      assert p.changes[j].path == q;
    } else {
      forall j | 0 <= j < |p.changes| ensures p.changes[j].path != q {
        assert outs[j] in outs;
      }
      assert !Touches(p.changes, q);
    }
  }

  /** The invariant of the copying loop; `guarded` says that no other program touches the outputs. */
  ghost predicate Drafting(vis: Disk, guarded: bool, t: TxId, plan: Plan, target: Target, staged: map<Path, Digest>,
                           changes: seq<Change>, entries: map<Path, Entry>)
  {
    && Drafted(vis.snapshot.entries, Select(plan.outputs, target), staged, changes, entries)
    && Replays(Planned(plan.outputs), vis.snapshot.entries, {}, changes, 0, entries)
    && PayloadsPresent(vis, t, changes)
    && (guarded ==> Guards(vis.outputs, changes))
  }

  lemma DraftGrows(a: Disk, b: Disk, guarded: bool, t: TxId, plan: Plan, target: Target, staged: map<Path, Digest>,
                   changes: seq<Change>, entries: map<Path, Entry>, c: Change, entries': map<Path, Entry>)
    requires ValidPlan(plan) && Drafting(a, guarded, t, plan, target, staged, changes, entries)
    requires var outs := Select(plan.outputs, target);
             && |changes| < |outs| && outs[|changes|].path in staged
             && c == PublicationOf(outs[|changes|], a.snapshot.entries, staged[outs[|changes|].path], |changes|)
             && entries' == entries[c.path := Entry(staged[outs[|changes|].path], c.target)]
    requires b.snapshot == a.snapshot && b.payloads == a.payloads[(t, |changes|) := c.after.value]
    requires guarded ==> b.outputs == a.outputs && Guard(b.outputs, c)
    ensures Drafting(b, guarded, t, plan, target, staged, changes + [c], entries')
  {
    hide Drafted, Replays, ValidPlan, Select, Planned;
    DraftOne(plan, a.snapshot.entries, Select(plan.outputs, target), target, staged, changes, entries, c, entries');
    forall i | 0 <= i < |changes + [c]| && (changes + [c])[i].after.Some?
      ensures At(b.payloads, (t, i)) == (changes + [c])[i].after
    {
      if i < |changes| { assert At(a.payloads, (t, i)) == changes[i].after; }
    }
  }

  lemma DraftedPriors(prior: map<Path, Entry>, outs: seq<PlanOutput>, staged: map<Path, Digest>,
                      changes: seq<Change>, entries: map<Path, Entry>)
    requires Drafted(prior, outs, staged, changes, entries)
    ensures PriorsIn(changes, prior)
  {
    forall x | PriorOf(changes, x) ensures x.0 in prior && prior[x.0].sha256 == x.1 {
      var i :| 0 <= i < |changes| && changes[i].path == x.0 && changes[i].before == Some(x.1);
      assert changes[i] == PublicationOf(outs[i], prior, staged[outs[i].path], i);
    }
  }
}
