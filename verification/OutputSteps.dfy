/** What the coordinator's methods rely on from one step to the next, one fact at a time. */
module OutputSteps {
  import opened Options
  import opened OutputModel
  import opened OutputLedger
  import opened OutputPublication
  import opened OutputHistory
  import Retirement = OutputRetirement

  lemma CleanableSafe(dur: Disk, vis: Disk)
    ensures Cleanable(dur, vis) ==> Safe(dur, vis)
  {
  }

  lemma CleanFacts(dur: Disk, vis: Disk, owned: set<Path>)
    ensures Cleanable(dur, vis) ==> Safe(dur, vis) && (Owning(vis, owned) ==> Owning(dur, owned))
  {
    hide Owning, Safe;
    CleanableSafe(dur, vis);
    if Cleanable(dur, vis) && Owning(vis, owned) { CleanNames(dur, vis, owned); }
  }

  lemma ClutterSame(a: Disk, b: Disk)
    requires b.dirs == a.dirs && b.pending == a.pending && b.payloads == a.payloads
    ensures Clutter(b) == Clutter(a)
  {
  }

  /** What a method synchronises is a mixture of the durable and the visible disk. */
  lemma PartsMix(dur: Disk, vis: Disk, t: TxId)
    ensures Mix(dur.(dirs := vis.dirs), dur, vis)
    ensures t in vis.pending ==> Mix(dur.(pending := Put(dur.pending, t, Some(vis.pending[t]))), dur, vis)
  {
  }

  // ---------------------------------------------------------------- one change

  lemma GuardCases(outputs: map<Path, File>, c: Change)
    ensures Guard(outputs, c) <==>
              c.path !in outputs || Some(outputs[c.path].digest) == c.before || Some(outputs[c.path].digest) == c.after
  {
  }

  lemma RollingStays(dur: Disk, vis: Disk, t: TxId, p: Pending, k: nat)
    requires k < |p.changes|
    ensures Rolling(dur, vis, t, p, k) ==> Guard(vis.outputs, p.changes[k]) && TransferHolds(vis.outputs, p.changes[k])
  {
  }

  /** One output, and nothing else, moved to what the change wants or stayed. */
  lemma RollingMoves(dur: Disk, vis: Disk, dur': Disk, vis': Disk, t: TxId, p: Pending, k: nat, done: bool)
    requires k < |p.changes| && vis' == vis.(outputs := vis'.outputs) && dur' == dur.(outputs := dur'.outputs)
    requires var c := p.changes[k];
             && (forall q :: q != c.path ==> At(vis'.outputs, q) == At(vis.outputs, q) && At(dur'.outputs, q) == At(dur.outputs, q))
             && (vis' == vis || DoneAt(vis'.outputs, c)) && (dur' == dur || DoneAt(dur'.outputs, c))
             && (done ==> Landed(dur', vis', c))
    ensures Rolling(dur, vis, t, p, k) ==>
              && Rolling(dur', vis', t, p, k) && Rolled(vis', p) == Rolled(vis, p)
              && (done ==> Rolling(dur', vis', t, p, k + 1))
  {
    if Rolling(dur, vis, t, p, k) {
      RollingGuard(dur, vis, t, p, k);
      hide Rolling, Rolled;
      RollingStep(dur, vis, dur', vis', t, p, k);
    }
  }

  /** What landing one change, durably or not yet or not at all, means for its transaction. */
  lemma LandMoves(dur: Disk, vis: Disk, dur': Disk, vis': Disk, t: TxId, p: Pending, k: nat, f: Option<File>, done: bool)
    requires k < |p.changes| && (if f.Some? then p.changes[k].after == Some(f.value.digest) else p.changes[k].after.None?)
    requires var q := p.changes[k].path;
             && (vis' == SetOutput(vis, q, f) || (vis' == vis && !done))
             && ((dur' == SetOutput(dur, q, f) && vis' == SetOutput(vis, q, f)) || (dur' == dur && !done))
    ensures vis' == vis.(outputs := vis'.outputs) && dur' == dur.(outputs := dur'.outputs)
    ensures forall q :: q != p.changes[k].path ==> At(vis'.outputs, q) == At(vis.outputs, q)
    ensures Rolling(dur, vis, t, p, k) ==>
              && Rolling(dur', vis', t, p, k) && Rolled(vis', p) == Rolled(vis, p)
              && (done ==> Rolling(dur', vis', t, p, k + 1))
  {
    hide Rolling, Rolled;
    assert At(Put(vis.outputs, p.changes[k].path, f), p.changes[k].path) == f;
    assert At(Put(dur.outputs, p.changes[k].path, f), p.changes[k].path) == f;
    RollingMoves(dur, vis, dur', vis', t, p, k, done);
  }

  lemma SyncMoves(dur: Disk, vis: Disk, dur': Disk, t: TxId, p: Pending, k: nat, done: bool)
    requires k < |p.changes| && DoneAt(vis.outputs, p.changes[k])
    requires var q := p.changes[k].path; dur' == SetOutput(dur, q, At(vis.outputs, q)) || (dur' == dur && !done)
    ensures dur' == dur.(outputs := dur'.outputs)
    ensures Rolling(dur, vis, t, p, k) ==>
              Rolling(dur', vis, t, p, k) && (done ==> Rolling(dur', vis, t, p, k + 1))
  {
    hide Rolling, Rolled;
    RollingMoves(dur, vis, dur', vis, t, p, k, done);
  }

  lemma RollingLess(dur: Disk, vis: Disk, t: TxId, p: Pending, k: nat)
    requires k <= |p.changes| && Rolling(dur, vis, t, p, k)
    ensures Rolling(dur, vis, t, p, 0)
  {
  }

  lemma ExtendsSame(l: Ledger)
    ensures Extends(l, l)
  {
  }

  lemma ExtendsTwice(l: Ledger, m: Ledger, n: Ledger)
    requires Extends(l, m) && Extends(m, n)
    ensures Extends(l, n)
  {
  }

  lemma OnlyEditedOwned(l: Ledger, m: Ledger)
    requires OnlyEdited(l, m)
    ensures m.owned == l.owned && m.lost == l.lost && Extends(l, m)
  {
  }

  lemma NothingEdited(l: Ledger)
    ensures OnlyEdited(l, l)
  {
  }

  lemma LandingBooked(c: Change, l: Ledger, outputs: map<Path, File>, f: Option<File>, m: Ledger, done: bool)
    requires f.Some? <==> c.after.Some?
    requires c.path in outputs ==> c.before == Some(outputs[c.path].digest)
    requires m == Landing(l, outputs, c.path, f) || (m == l && !done)
    ensures Booked(c, l, m, done)
  {
  }

  lemma AffirmingBooked(c: Change, l: Ledger, done: bool)
    ensures Booked(c, l, Affirming(l, c.path, c.after.Some?), done)
  {
  }

  lemma BookedNothing(c: Change, l: Ledger)
    ensures Booked(c, l, l, false)
  {
  }

  lemma BookedBlamesNobody(c: Change, l: Ledger, m: Ledger, done: bool)
    requires Booked(c, l, m, done)
    ensures m.edits == l.edits && Extends(l, m)
  {
  }

  lemma BookedLess(changes: seq<Change>, k: nat, l: Ledger, m: Ledger)
    requires k <= |changes| && BookedAll(changes, k, l, m)
    ensures BookedAll(changes, 0, l, m)
  {
  }

  lemma BookedLosses(changes: seq<Change>, k: nat, l: Ledger, m: Ledger)
    requires k <= |changes| && BookedAll(changes, k, l, m)
    ensures forall x :: x in m.lost - l.lost ==> PriorOf(changes, x.1)
  {
  }

  lemma LandedAccounted(d: Disk, l: Ledger, q: Path, f: Option<File>)
    ensures Accounted(d.outputs, l) ==> Accounted(SetOutput(d, q, f).outputs, Landing(l, d.outputs, q, f))
    ensures var m := Landing(l, d.outputs, q, f); Extends(l, m) && m.script == l.script && m.edits == l.edits
  {
    if Accounted(d.outputs, l) { LandingAccounted(l, d.outputs, q, f); }
  }

  // ---------------------------------------------------------------- one transaction

  lemma AcceptedAreDistinct(d: Disk, p: Pending)
    requires Replays(Planned(p.plan.outputs), d.snapshot.entries, {}, p.changes, 0, p.newSnapshot.entries)
    ensures DistinctPaths(p.changes)
  {
    AcceptedPathsDistinct(Planned(p.plan.outputs), d.snapshot.entries, {}, p.changes, 0, p.newSnapshot.entries);
  }

  lemma BecomesReady(dur: Disk, vis: Disk, t: TxId, p: Pending)
    requires Safe(dur, vis) && Active(vis, t) && vis.pending[t] == p && t in dur.pending
    ensures Ready(dur, vis, t, p)
  {
  }

  /** Nothing that _apply_pending checks can be wrong with a transaction whose intent is durable. */
  lemma ReadyFacts(dur: Disk, vis: Disk, t: TxId, p: Pending)
    requires Ready(dur, vis, t, p)
    ensures Safe(dur, vis) && Active(vis, t) && vis.pending[t] == p && Exclusive(dur, vis, t, p) && WellFormed(p)
    ensures t in dur.pending && forall u :: Active(vis, u) ==> u == t
    ensures p.newSnapshot.token == vis.snapshot.token && p.newSnapshot.generation == p.base + 1
    ensures vis.snapshot == p.newSnapshot ==> vis.outputs == dur.outputs
    ensures vis.snapshot != p.newSnapshot ==>
              && vis.snapshot.generation == p.base
              && Replays(Planned(p.plan.outputs), vis.snapshot.entries, {}, p.changes, 0, p.newSnapshot.entries)
              && PayloadsPresent(vis, t, p.changes) && TransfersHold(vis.outputs, p.changes)
              && Rolling(dur, vis, t, p, 0) && Logical(vis) == Logical(dur) == Rolled(vis, p)
  {
    ReadyCases(dur, vis, t, p);
    forall u | Active(vis, u) ensures u == t { assert Possible(dur, vis, u, vis.pending[u]); }
    if vis.snapshot != p.newSnapshot { RollingIsSafe(dur, vis, t, p, 0); }
  }

  lemma SubmittableFacts(dur: Disk, vis: Disk, t: TxId, p: Pending)
    requires Submittable(dur, vis, t, p)
    ensures Safe(dur, vis) && Logical(dur) == Logical(vis)
    ensures var vis' := vis.(pending := vis.pending[t := p]); Safe(dur, vis') && Logical(vis') == Rolled(vis, p)
  {
    hide Safe, Logical, Rolled;
    CleanableSafe(dur, vis);
    CleanableLogical(dur, vis);
    IntentWritten(dur, vis, vis.(pending := vis.pending[t := p]), t, p);
  }

  /** Replacing the snapshot and clearing one transaction touch no other transaction. */
  lemma OnlyThat(a: Disk, b: Disk, c: Disk, t: TxId)
    requires b.dirs == a.dirs && b.pending == a.pending && (c == b || OnlyTransaction(b, c, t))
    ensures OnlyTransaction(a, c, t)
  {
  }

  lemma RolledSame(a: Disk, b: Disk, p: Pending)
    requires b.outputs == a.outputs
    ensures Rolled(b, p) == Rolled(a, p)
  {
  }

  // ---------------------------------------------------------------- recovery

  lemma OneRecord(dur: Disk, vis: Disk)
    requires Safe(dur, vis)
    ensures forall t, u :: Active(vis, t) && Active(vis, u) ==> t == u
    ensures forall t :: Active(vis, t) ==> ValidPlan(vis.pending[t].plan)
  {
    forall t, u | Active(vis, t) && Active(vis, u) ensures t == u && ValidPlan(vis.pending[t].plan) {
      assert Possible(dur, vis, t, vis.pending[t]) && Possible(dur, vis, u, vis.pending[u]);
    }
    forall t | Active(vis, t) ensures ValidPlan(vis.pending[t].plan) {
      assert Possible(dur, vis, t, vis.pending[t]);
    }
  }

  lemma NothingToRoll(d: Disk)
    requires forall t :: !Active(d, t)
    ensures |d.snapshot.entries| <= EntryCount(d) && KeptElsewhere(d, d)
  {
  }

  lemma AppliedElsewhere(v: Disk, d: Disk, t: TxId)
    requires Active(v, t) && AgreeUntouched(v.outputs, d.outputs, v.pending[t].changes)
    ensures KeptElsewhere(v, d)
  {
  }

  lemma IsRecovered(v: Disk, mid: Disk, d: Disk)
    requires KeptElsewhere(v, mid) && d.outputs == mid.outputs && Logical(v) == Committed(Contents(d.outputs), d.snapshot)
    ensures RecoveredFrom(d, v)
  {
  }

  // ---------------------------------------------------------------- what is lost was recorded

  lemma BookedIsRecorded(d: Disk, t: TxId, p: Pending, l: Ledger, m: Ledger)
    requires Active(d, t) && d.pending[t] == p && BookedAll(p.changes, 0, l, m)
    ensures forall x :: x in m.lost - l.lost ==> Recorded(d, x.1)
    ensures forall q :: q in l.owned - m.owned ==> GivenUp(d, q)
  {
    forall x | x in m.lost - l.lost ensures Recorded(d, x.1) { assert RecordedBy(d.pending[t], x.1); }
  }

  lemma PriorsAreRecorded(d: Disk, recovered: Snapshot, changes: seq<Change>)
    requires recovered == d.snapshot || exists t :: Active(d, t) && recovered == d.pending[t].newSnapshot
    requires PriorsIn(changes, recovered.entries)
    ensures forall x :: PriorOf(changes, x) ==> Recorded(d, x)
  {
    forall x | PriorOf(changes, x) ensures Recorded(d, x) { RecoveredIsRecorded(d, recovered, x); }
  }

  lemma PriorsLost(changes: seq<Change>, entries: map<Path, Entry>, k: nat, l: Ledger, m: Ledger)
    requires k <= |changes| && BookedAll(changes, k, l, m) && PriorsIn(changes, entries)
    ensures forall x :: x in m.lost - l.lost ==> x.1.0 in entries && entries[x.1.0].sha256 == x.1.1
  {
  }

  lemma EntriesAreRecorded(d: Disk, recovered: Snapshot, l: Ledger, m: Ledger)
    requires recovered == d.snapshot || exists t :: Active(d, t) && recovered == d.pending[t].newSnapshot
    requires forall x :: x in m.lost - l.lost ==> x.1.0 in recovered.entries && recovered.entries[x.1.0].sha256 == x.1.1
    ensures forall x :: x in m.lost - l.lost ==> Recorded(d, x.1)
  {
    forall x | x in m.lost - l.lost ensures Recorded(d, x.1) { RecoveredIsRecorded(d, recovered, x.1); }
  }

  lemma OnlyRetired(d: Disk, planned: map<Path, Target>, done: set<Path>, claimed: set<Path>, changes: seq<Change>,
                    entries: map<Path, Entry>, k: nat, l: Ledger, m: Ledger)
    requires Retirement.Drafting(d, planned, done, claimed, changes, entries) && k <= |changes| && BookedAll(changes, k, l, m)
    ensures forall q :: q in l.owned - m.owned ==> q !in planned
  {
    forall q | q in l.owned - m.owned ensures q !in planned {
      var j :| 0 <= j < |changes| && changes[j].path == q && changes[j].after.None?;
      assert Retirement.RetirementOf(d, planned, changes[j]);
    }
  }

  // ---------------------------------------------------------------- one publication

  /** The changes land something at exactly the given outputs, in their order. */
  ghost predicate Covers(changes: seq<Change>, outs: seq<PlanOutput>) {
    |changes| == |outs| && forall j :: 0 <= j < |outs| ==> changes[j].path == outs[j].path && changes[j].after.Some?
  }

  lemma CoversCount(changes: seq<Change>, outs: seq<PlanOutput>)
    requires Covers(changes, outs)
    ensures |changes| == |outs|
  {
  }

  lemma CoveredOwned(changes: seq<Change>, outs: seq<PlanOutput>, l: Ledger, m: Ledger)
    requires Covers(changes, outs) && BookedAll(changes, |changes|, l, m)
    ensures forall out :: out in outs ==> out.path in m.owned
  {
    forall out | out in outs ensures out.path in m.owned {
      var j :| 0 <= j < |outs| && outs[j] == out;
      assert changes[j].path in m.owned;
    }
  }

  lemma CoveredKept(changes: seq<Change>, outs: seq<PlanOutput>, k: nat, l: Ledger, m: Ledger)
    requires k <= |changes| && Covers(changes, outs) && BookedAll(changes, k, l, m)
    ensures l.owned <= m.owned
  {
    forall q | q in l.owned ensures q in m.owned { assert !GivesUp(changes, q); }
  }

  lemma NothingDrafted(vis: Disk, guarded: bool, t: TxId, plan: Plan, target: Target, staged: map<Path, Digest>)
    ensures Drafting(vis, guarded, t, plan, target, staged, [], vis.snapshot.entries)
  {
  }

  /** Why an output cannot be drafted, seen before it is copied. */
  lemma StagedCases(here: Committed, d: Disk, out: PlanOutput, staged: map<Path, Digest>, k: nat)
    requires here == Committed(Contents(d.outputs), d.snapshot)
    ensures Unstaged(here, out, staged) <==>
              || out.path !in staged
              || (out.path in d.outputs &&
                  Some(d.outputs[out.path].digest) != PublicationOf(out, d.snapshot.entries, staged[out.path], k).before)
  {
  }

  lemma DraftComplete(guarded: bool, vis: Disk, t: TxId, plan: Plan, target: Target, staged: map<Path, Digest>, p: Pending)
    requires Drafting(vis, guarded, t, plan, target, staged, p.changes, p.newSnapshot.entries)
    requires |p.changes| == |Select(plan.outputs, target)|
    ensures PriorsIn(p.changes, vis.snapshot.entries) && Covers(p.changes, Select(plan.outputs, target))
  {
    DraftedPriors(vis.snapshot.entries, Select(plan.outputs, target), staged, p.changes, p.newSnapshot.entries);
  }

  lemma DraftReady(dur: Disk, vis: Disk, t: TxId, plan: Plan, target: Target, staged: map<Path, Digest>, p: Pending)
    requires ValidPlan(plan) && Drafting(vis, true, t, plan, target, staged, p.changes, p.newSnapshot.entries)
    requires |p.changes| == |Select(plan.outputs, target)|
    requires p.base == vis.snapshot.generation && p.plan == plan
    requires p.newSnapshot.token == vis.snapshot.token && p.newSnapshot.generation == vis.snapshot.generation + 1
    requires Cleanable(dur, vis) && vis.dirs == {t} == dur.dirs && t !in vis.pending && t !in dur.pending
    requires dur.payloads == vis.payloads
    ensures Submittable(dur, vis, t, p) && Published(Logical(vis), Rolled(vis, p), plan, target, staged)
  {
    hide Cleanable, Submittable, Published, Logical;
    DraftedMeaning(plan, target, staged, vis, p);
    CleanableLogical(dur, vis);
    forall i | 0 <= i < |p.changes| ensures TransferHolds(vis.outputs, p.changes[i]) {
      assert p.changes[i].after.Some?;
    }
    DraftSubmittable(dur, vis, t, p);
  }

  /** The outputs hold what was staged for them. */
  /** What the checks of _apply_pending ask of a record: the claim's token, the next generation, and either that it is what
      has been committed already or that it leads on from the committed snapshot with payloads and transfers intact. */
  ghost predicate Applicable(d: Disk, t: TxId, p: Pending) {
    && p.newSnapshot.token == d.snapshot.token && p.newSnapshot.generation == p.base + 1
    && if d.snapshot.generation == p.base + 1 then d.snapshot == p.newSnapshot
       else
         && d.snapshot.generation == p.base
         && Replays(Planned(p.plan.outputs), d.snapshot.entries, {}, p.changes, 0, p.newSnapshot.entries)
         && PayloadsPresent(d, t, p.changes) && TransfersHold(d.outputs, p.changes)
  }

  ghost predicate Confirmed(contents: map<Path, Digest>, outs: seq<PlanOutput>, staged: map<Path, Digest>) {
    forall o :: o in outs ==> At(contents, o.path) == At(staged, o.path)
  }

  lemma ConfirmedMeans(contents: map<Path, Digest>, outs: seq<PlanOutput>, staged: map<Path, Digest>)
    ensures Confirmed(contents, outs, staged) <==> forall o :: o in outs ==> At(contents, o.path) == At(staged, o.path)
  {
  }

  lemma PublishedConfirms(a: Committed, b: Committed, plan: Plan, target: Target, staged: map<Path, Digest>)
    requires ValidPlan(plan) && Published(a, b, plan, target, staged)
    ensures Confirmed(b.contents, Select(plan.outputs, target), staged)
  {
    SelectProperties(plan.outputs, target);
    forall o | o in Select(plan.outputs, target) ensures At(b.contents, o.path) == At(staged, o.path) {
      assert o == PlanOutput(target, o.path);
      assert PublishedAt(a, b, o.path, PlanOutput(target, o.path) in plan.outputs, target, staged);
    }
  }
}
