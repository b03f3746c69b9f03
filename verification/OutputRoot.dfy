/** The output coordinator on one claimed root, one durable operation at a time.

    `vis` is what every process sees, `dur` what power loss would leave.  `steps` counts the durable
    operations the running process still performs before it is killed, so every contract below speaks
    about every kill point.  When `quiet` is false other programs may rewrite outputs between changes. */
module OutputRoot {
  import opened Options
  import opened OutputModel
  import opened OutputLedger
  import opened OutputPublication
  import opened OutputHistory
  import opened OutputSteps
  import Retirement = OutputRetirement

  class Root {
    var vis: Disk
    var dur: Disk
    var steps: nat
    const quiet: bool
    /** What other programs make of the outputs, edit by edit, and how many edits they have made. */
    const script: nat -> map<Path, File>
    var turn: nat
    /** Every change of the outputs so far, and which paths the coordinator owns. */
    ghost var ledger: Ledger

    ghost predicate Valid()
      reads this
    {
      && (quiet ==> Safe(dur, vis) && Owning(dur, ledger.owned))
      && Kept() && Owning(vis, ledger.owned)
    }

    /** The ledger is right about the outputs, and about what other programs are going to do. */
    ghost predicate Kept()
      reads this
    {
      Accounted(vis.outputs, ledger) && ledger.script == script && ledger.edits == turn
    }

    ghost function Now(): State
      reads this
    {
      State(dur, vis, ledger)
    }

    /** Durable operations left, less those that clearing the transactions directory would need. */
    ghost function Reserve(): int
      reads this
    {
      steps - Clutter(vis)
    }

    constructor (quiet: bool, script: nat -> map<Path, File>, disk: Disk)
      requires disk.dirs == {} && disk.pending == map[] && disk.payloads == map[]
      ensures this.quiet == quiet && this.script == script && vis == dur == disk && Valid()
      ensures ledger == Ledger(disk.outputs, script, [], {}, 0, {})
    {
      this.quiet, this.script, turn := quiet, script, 0;
      vis, dur, steps, ledger := disk, disk, 0, Ledger(disk.outputs, script, [], {}, 0, {});
    }

    method Alive() returns (alive: bool)
      modifies this`steps
      ensures alive <==> old(steps) > 0
      ensures steps == if alive then old(steps) - 1 else 0
    {
      if steps == 0 { alive := false; } else { steps := steps - 1; alive := true; }
    }

    /** Other programs may make their next edit of the output files between two changes, unless the root is quiet. */
    method OutsideEdit()
      modifies this`vis, this`turn, this`ledger
      ensures vis == old(vis).(outputs := vis.outputs)
      ensures if ledger == old(ledger) then vis == old(vis) && turn == old(turn)
              else !quiet && ledger == Editing(old(ledger)) && vis.outputs == script(old(turn)) && turn == old(turn) + 1
      ensures OnlyEdited(old(ledger), ledger)
      ensures old(Kept()) ==> Kept()
    {
      var now: bool := *;
      if !quiet && now {
        if Kept() { EditingAccounted(ledger, vis.outputs); }
        ledger := Editing(ledger);
        vis := vis.(outputs := script(turn));
        turn := turn + 1;
      }
    }

    /** os.replace or unlink of one output, then the directory sync. */
    method Land(c: Change, f: Option<File>) returns (o: Outcome)
      modifies this`vis, this`dur, this`steps, this`ledger
      ensures o != Failed && (o == Killed ==> steps == 0) && old(steps) <= steps + 2
      ensures || (vis == old(vis) && ledger == old(ledger))
              || (vis == SetOutput(old(vis), c.path, f) && ledger == Landing(old(ledger), old(vis.outputs), c.path, f))
      ensures dur == old(dur) || (dur == SetOutput(old(dur), c.path, f) && vis == SetOutput(old(vis), c.path, f))
      ensures o == Done ==> && vis == SetOutput(old(vis), c.path, f) && dur == SetOutput(old(dur), c.path, f)
                            && ledger == Landing(old(ledger), old(vis.outputs), c.path, f)
      ensures o == (if old(steps) >= 2 then Done else Killed)
      ensures old(steps) == 0 ==> vis == old(vis) && dur == old(dur) && ledger == old(ledger)
      ensures old(steps) == 1 ==> vis == SetOutput(old(vis), c.path, f) && dur == old(dur)
      ensures old(Kept()) ==> Kept()
    {
      hide Accounted, Landing, SetOutput;
      var alive := Alive();
      if !alive { return Killed; }
      LandedAccounted(vis, ledger, c.path, f);
      ledger := Landing(ledger, vis.outputs, c.path, f);
      vis := SetOutput(vis, c.path, f);
      alive := Alive();
      if !alive { return Killed; }
      dur := SetOutput(dur, c.path, f);
      return Done;
    }

    /** Synchronise the parent of an output that is already as wanted. */
    method SyncOutput(p: Path) returns (o: Outcome)
      modifies this`dur, this`steps, this`ledger
      ensures o != Failed && (o == Killed ==> steps == 0) && old(steps) <= steps + 1
      ensures dur == old(dur) || dur == SetOutput(old(dur), p, At(vis.outputs, p))
      ensures ledger == Affirming(old(ledger), p, p in vis.outputs)
      ensures o == Done ==> dur == SetOutput(old(dur), p, At(vis.outputs, p))
      ensures o == if old(steps) >= 1 then Done else Killed
      ensures old(Kept()) ==> Kept()
    {
      ledger := Affirming(ledger, p, p in vis.outputs);
      var alive := Alive();
      if !alive { return Killed; }
      dur := SetOutput(dur, p, At(vis.outputs, p));
      return Done;
    }

    /** _publish_one: put the payload in place unless the output holds something neither old nor new. */
    method PublishOne(ghost t: TxId, ghost p: Pending, ghost k: nat, c: Change, payload: Digest) returns (o: Outcome)
      requires k < |p.changes| && p.changes[k] == c && c.after == Some(payload)
      modifies this`vis, this`dur, this`steps, this`ledger
      ensures (o == Killed ==> steps == 0) && old(steps) <= steps + 2
      ensures vis == old(vis).(outputs := vis.outputs) && dur == old(dur).(outputs := dur.outputs)
      ensures o == Failed ==> vis == old(vis)
      ensures o == Failed <==> !Guard(old(vis.outputs), c)
      ensures forall q :: q != c.path ==> At(vis.outputs, q) == At(old(vis.outputs), q)
      ensures Booked(c, old(ledger), ledger, o == Done)
      ensures old(Kept()) ==> Kept()
      ensures old(Rolling(dur, vis, t, p, k)) ==>
                && o != Failed && Rolling(dur, vis, t, p, k) && Rolled(vis, p) == old(Rolled(vis, p))
                && (o == Done ==> Rolling(dur, vis, t, p, k + 1))
    {
      hide Rolling, Rolled, Accounted, Guard, TransferHolds, Booked, Landing, Affirming, SetOutput, Landed;
      GuardCases(vis.outputs, c);
      RollingStays(dur, vis, t, p, k);
      BookedNothing(c, ledger);
      if c.path in vis.outputs {
        if vis.outputs[c.path].digest == payload {
          o := SyncOutput(c.path);
          AffirmingBooked(c, old(ledger), o == Done);
          SyncMoves(old(dur), vis, dur, t, p, k, o == Done);
          return;
        }
        if Some(vis.outputs[c.path].digest) != c.before { return Failed; }
      }
      FreshId(set q | q in vis.outputs :: vis.outputs[q].inode);
      var inode: nat :| inode !in set q | q in vis.outputs :: vis.outputs[q].inode;
      o := Land(c, Some(File(inode, payload)));
      LandingBooked(c, old(ledger), old(vis.outputs), Some(File(inode, payload)), ledger, o == Done);
      LandMoves(old(dur), old(vis), dur, vis, t, p, k, Some(File(inode, payload)), o == Done);
    }

    /** _delete_if_state: remove an output that still holds what was recorded. */
    method DeleteIfState(ghost t: TxId, ghost p: Pending, ghost k: nat, c: Change) returns (o: Outcome)
      requires k < |p.changes| && p.changes[k] == c && c.after == None
      modifies this`vis, this`dur, this`steps, this`ledger
      ensures (o == Killed ==> steps == 0) && old(steps) <= steps + 2
      ensures vis == old(vis).(outputs := vis.outputs) && dur == old(dur).(outputs := dur.outputs)
      ensures o == Failed ==> vis == old(vis)
      ensures o == Failed <==> !Guard(old(vis.outputs), c)
      ensures forall q :: q != c.path ==> At(vis.outputs, q) == At(old(vis.outputs), q)
      ensures Booked(c, old(ledger), ledger, o == Done)
      ensures old(Kept()) ==> Kept()
      ensures old(Rolling(dur, vis, t, p, k)) ==>
                && o != Failed && Rolling(dur, vis, t, p, k) && Rolled(vis, p) == old(Rolled(vis, p))
                && (o == Done ==> Rolling(dur, vis, t, p, k + 1))
    {
      hide Rolling, Rolled, Accounted, Guard, TransferHolds, Booked, Landing, Affirming, SetOutput, Landed;
      GuardCases(vis.outputs, c);
      RollingStays(dur, vis, t, p, k);
      BookedNothing(c, ledger);
      if c.path !in vis.outputs {
        o := SyncOutput(c.path);
        AffirmingBooked(c, old(ledger), o == Done);
        SyncMoves(old(dur), vis, dur, t, p, k, o == Done);
      } else {
        if Some(vis.outputs[c.path].digest) != c.before { return Failed; }
        o := Land(c, None);
        LandingBooked(c, old(ledger), old(vis.outputs), None, ledger, o == Done);
        LandMoves(old(dur), old(vis), dur, vis, t, p, k, None, o == Done);
      }
    }

    /** The validation loop of _apply_pending: the changes must lead from the committed entries to the
        proposed ones, every payload must be intact and every transfer destination unchanged. */
    method Accepts(t: TxId, p: Pending) returns (ok: bool)
      requires ValidPlan(p.plan)
      ensures ok <==> && Replays(Planned(p.plan.outputs), vis.snapshot.entries, {}, p.changes, 0, p.newSnapshot.entries)
                      && PayloadsPresent(vis, t, p.changes)
                      && TransfersHold(vis.outputs, p.changes)
      ensures ok ==> forall i :: 0 <= i < |p.changes| && p.changes[i].after.None? && p.changes[i].transfer.Some? ==>
                var tr := p.changes[i].transfer.value;
                && tr.path in vis.outputs && vis.outputs[tr.path].inode == tr.inode
                && Some(vis.outputs[tr.path].digest) == p.changes[i].before
    {
      var planned := Planned(p.plan.outputs);
      ghost var goal := p.newSnapshot.entries;
      var expected, seen := vis.snapshot.entries, {};
      var i := 0;
      while i < |p.changes|
        invariant i <= |p.changes|
        invariant Replays(planned, vis.snapshot.entries, {}, p.changes, 0, goal) <==>
                  Replays(planned, expected, seen, p.changes, i, goal)
        invariant forall j :: 0 <= j < i ==> TransferHolds(vis.outputs, p.changes[j])
        invariant forall j :: 0 <= j < i && p.changes[j].after.Some? ==> At(vis.payloads, (t, j)) == p.changes[j].after
      {
        var c := p.changes[i];
        if !ChangeAccepted(planned, expected, seen, c, i) { return false; }
        if !TransferHolds(vis.outputs, c) { return false; }
        if c.after.Some? && At(vis.payloads, (t, i)) != c.after { return false; }
        expected, seen := Absorb(expected, c), seen + {c.path};
        i := i + 1;
      }
      ok := expected == p.newSnapshot.entries;
    }

    /** Make `synced`, in which some entries already have their visible value, the durable disk. */
    method Sync(synced: Disk) returns (o: Outcome)
      requires Mix(synced, dur, vis)
      modifies this`dur, this`steps
      ensures o != Failed && (o == Killed ==> steps == 0) && old(steps) <= steps + 1
      ensures dur == old(dur) || dur == synced
      ensures o == Done ==> dur == synced
      ensures o == if old(steps) >= 1 then Done else Killed
      ensures old(Safe(dur, vis)) ==> Safe(dur, vis) && (Logical(dur) == old(Logical(dur)) || Logical(dur) == Logical(vis))
      ensures forall owned :: old(Safe(dur, vis)) && Owning(old(dur), owned) && Owning(vis, owned) ==> Owning(dur, owned)
    {
      var alive := Alive();
      if !alive { return Killed; }
      ghost var safe := Safe(dur, vis);
      if safe { SyncIsSafe(synced, dur, vis); }
      forall owned | safe && Owning(dur, owned) && Owning(vis, owned) ensures Owning(synced, owned) {
        MixNames(synced, dur, vis, owned);
      }
      dur := synced;
      return Done;
    }

    /** shutil.rmtree of one transaction directory, in any order, then the sync of its parent. */
    method RemoveTree(t: TxId) returns (o: Outcome)
      modifies this`vis, this`dur, this`steps
      ensures o != Failed && (o == Killed ==> steps == 0)
      ensures old(steps) == 0 ==> o == Killed && vis == old(vis) && dur == old(dur)
      ensures old(Reserve()) <= Reserve() + (if o == Done && t in old(vis.dirs) then 0 else 2)
      ensures vis == old(vis).(dirs := vis.dirs, pending := vis.pending, payloads := vis.payloads)
      ensures dur == old(dur).(dirs := dur.dirs)
      ensures OnlyTransaction(old(vis), vis, t) && (forall u :: Active(vis, u) ==> Active(old(vis), u))
      ensures o == Done ==> vis.dirs == old(vis).dirs - {t} && dur.dirs == vis.dirs
      ensures old(Cleanable(dur, vis)) ==> Cleanable(dur, vis) && Logical(dur) == Logical(vis) == old(Logical(vis))
    {
      hide Cleanable, Logical, Clutter, Safe;
      ghost var vis0, dur0 := vis, dur;
      o := EmptyTree(t);
      if o != Done {
        if Cleanable(dur0, vis0) { CleanStep(dur0, vis0, dur, vis); }
        return;
      }
      var alive := Alive();
      if !alive {
        if Cleanable(dur0, vis0) { CleanStep(dur0, vis0, dur, vis); }
        return Killed;
      }
      DirectoryDropped(vis, t);
      vis := vis.(dirs := vis.dirs - {t});
      o := Sync(dur.(dirs := vis.dirs));
      if Cleanable(dur0, vis0) { CleanStep(dur0, vis0, dur, vis); }
    }

    /** The entries of the directory go one at a time. */
    method EmptyTree(t: TxId) returns (o: Outcome)
      modifies this`vis, this`steps
      ensures o != Failed && (o == Killed ==> steps == 0)
      ensures old(Reserve()) == Reserve()
      ensures steps <= old(steps) && (steps == old(steps) ==> vis == old(vis))
      ensures vis == old(vis).(pending := vis.pending, payloads := vis.payloads)
      ensures forall u :: u in vis.pending ==> u in old(vis).pending && vis.pending[u] == old(vis).pending[u]
      ensures forall u :: u != t ==> At(vis.pending, u) == At(old(vis).pending, u)
    {
      hide Clutter;
      ghost var vis0 := vis;
      while t in vis.dirs && (t in vis.pending || exists k :: k in vis.payloads && k.0 == t)
        invariant vis == vis0.(pending := vis.pending, payloads := vis.payloads)
        invariant old(Reserve()) == Reserve()
        invariant steps <= old(steps) && (steps == old(steps) ==> vis == vis0)
        invariant forall u :: u in vis.pending ==> u in vis0.pending && vis.pending[u] == vis0.pending[u]
        invariant forall u :: u != t ==> At(vis.pending, u) == At(vis0.pending, u)
        decreases |vis.payloads| + |vis.pending|
      {
        var alive := Alive();
        if !alive { return Killed; }
        var recordFirst: bool := *;
        if t in vis.pending && (recordFirst || !exists k :: k in vis.payloads && k.0 == t) {
          PendingDropped(vis, t);
          vis := vis.(pending := vis.pending - {t});
        } else {
          var k :| k in vis.payloads && k.0 == t;
          PayloadDropped(vis, k);
          vis := vis.(payloads := vis.payloads - {k});
        }
      }
      return Done;
    }

    /** One change of the loop in _apply_pending, after whatever happened since the last one. */
    method ApplyChange(ghost t: TxId, ghost p: Pending, ghost k: nat, c: Change, payload: Option<Digest>)
      returns (o: Outcome, ghost mid: Ledger)
      requires k < |p.changes| && p.changes[k] == c && (c.after.Some? ==> payload == c.after)
      modifies this`vis, this`dur, this`steps, this`ledger, this`turn
      ensures (o == Killed ==> steps == 0) && old(steps) <= steps + 2
      ensures vis == old(vis).(outputs := vis.outputs) && dur == old(dur).(outputs := dur.outputs)
      ensures quiet ==> forall q :: q != c.path ==> At(vis.outputs, q) == At(old(vis.outputs), q)
      ensures o != Killed ==>
                var found := if mid == old(ledger) then old(vis.outputs) else script(old(turn));
                (o == Failed <==> !Guard(found, c) || !TransferHolds(found, c)) && (o == Failed ==> vis.outputs == found)
      ensures OnlyEdited(old(ledger), mid) && (quiet ==> mid == old(ledger)) && Booked(c, mid, ledger, o == Done)
      ensures old(Kept()) ==> Kept()
      ensures quiet && old(Rolling(dur, vis, t, p, k)) ==>
                && o != Failed && Rolling(dur, vis, t, p, k) && Rolled(vis, p) == old(Rolled(vis, p))
                && (o == Done ==> Rolling(dur, vis, t, p, k + 1))
    {
      hide Rolled, Accounted, Guard, Rolling, Booked, OnlyEdited;
      RollingStays(dur, vis, t, p, k);
      OutsideEdit();
      mid := ledger;
      BookedNothing(c, ledger);
      if c.after.None? {
        if !TransferHolds(vis.outputs, c) { o := Failed; return; }
        o := DeleteIfState(t, p, k, c);
      } else {
        o := PublishOne(t, p, k, c, payload.value);
      }
    }

    /** The loop of _apply_pending over the accepted changes. */
    method ApplyChanges(t: TxId, p: Pending, ghost ready: bool) returns (o: Outcome)
      requires DistinctPaths(p.changes) && PayloadsPresent(vis, t, p.changes)
      requires ready ==> quiet && Rolling(dur, vis, t, p, 0)
      modifies this`vis, this`dur, this`steps, this`ledger, this`turn
      ensures (o == Killed ==> steps == 0) && old(steps) <= steps + 2 * |p.changes|
      ensures vis == old(vis).(outputs := vis.outputs) && dur == old(dur).(outputs := dur.outputs)
      ensures quiet ==> AgreeUntouched(old(vis.outputs), vis.outputs, p.changes)
      ensures BookedAll(p.changes, if o == Done then |p.changes| else 0, old(ledger), ledger)
      ensures Extends(old(ledger), ledger) && (quiet ==> ledger.edits == old(ledger.edits))
      ensures old(Kept()) ==> Kept()
      ensures ready ==> && o != Failed && Rolled(vis, p) == old(Rolled(vis, p))
                        && Rolling(dur, vis, t, p, if o == Done then |p.changes| else 0)
    {
      hide Rolling, Rolled, Accounted, Booked, BookedAll;
      var k := 0;
      ghost var vis0, dur0, ledger0 := vis, dur, ledger;
      BookedNone(p.changes, ledger);
      while k < |p.changes|
        invariant k <= |p.changes| && old(steps) <= steps + 2 * k
        invariant vis == vis0.(outputs := vis.outputs) && dur == dur0.(outputs := dur.outputs)
        invariant quiet ==> AgreeUntouched(vis0.outputs, vis.outputs, p.changes)
        invariant BookedAll(p.changes, k, ledger0, ledger)
        invariant old(Kept()) ==> Kept()
        invariant Extends(ledger0, ledger) && (quiet ==> ledger.edits == ledger0.edits)
        invariant ready ==> Rolling(dur, vis, t, p, k) && Rolled(vis, p) == Rolled(vis0, p)
      {
        ghost var before := ledger;
        ghost var mid;
        o, mid := ApplyChange(t, p, k, p.changes[k], At(vis.payloads, (t, k)));
        BookedStep(p.changes, k, ledger0, before, mid, ledger, o == Done);
        BookedBlamesNobody(p.changes[k], mid, ledger, o == Done);
        if o != Done {
          BookedLess(p.changes, k, ledger0, ledger);
          if ready { RollingLess(dur, vis, t, p, k); }
          return;
        }
        k := k + 1;
      }
      return Done;
    }

    /** _apply_pending: validate, land every change, replace the snapshot, remove the transaction. */
    method ApplyPending(t: TxId, p: Pending) returns (o: Outcome)
      requires ValidPlan(p.plan) && t in vis.dirs
      modifies this`vis, this`dur, this`steps, this`ledger, this`turn
      ensures dur.pending == old(dur).pending
      ensures !Applicable(old(vis), t, p) ==> o == Failed && vis == old(vis) && dur == old(dur) && ledger == old(ledger)
      ensures (o == Killed ==> steps == 0) && old(Reserve()) <= Reserve() + 2 * |p.changes| + 4
      ensures vis.plan == old(vis).plan && (forall u :: Active(vis, u) ==> Active(old(vis), u))
      ensures o == Done ==> vis.dirs == old(vis).dirs - {t} && dur.dirs == vis.dirs && vis.snapshot == p.newSnapshot
      ensures quiet ==> AgreeUntouched(old(vis.outputs), vis.outputs, p.changes)
      ensures BookedAll(p.changes, 0, old(ledger), ledger)
      ensures o == Done && old(vis).snapshot.generation != p.newSnapshot.generation ==>
                BookedAll(p.changes, |p.changes|, old(ledger), ledger)
      ensures Extends(old(ledger), ledger) && (quiet ==> ledger.edits == old(ledger.edits))
      ensures old(Kept()) ==> Kept()
      ensures old(Active(vis, t) && vis.pending[t] == p && Owning(vis, ledger.owned)) ==> Owning(vis, ledger.owned)
      ensures quiet && old(Ready(dur, vis, t, p) && Owning(vis, ledger.owned)) ==> Owning(dur, ledger.owned)
      ensures quiet && old(Ready(dur, vis, t, p)) ==>
                && o != Failed && Safe(dur, vis) && Logical(vis) == old(Logical(vis))
                && (Logical(dur) == old(Logical(dur)) || Logical(dur) == Logical(vis))
                && (o == Done ==> Cleanable(dur, vis))
    {
      hide Rolling, Rolled, Accounted, BookedAll, Owning, Ready, Safe, Logical, Cleanable, Clutter, ValidPlan,
           PayloadsPresent, TransfersHold, WellFormed, Exclusive, Replays;
      ghost var ready := quiet && Ready(dur, vis, t, p);
      BookedNone(p.changes, ledger);
      if ready { ReadyFacts(dur, vis, t, p); }
      if p.newSnapshot.token != vis.snapshot.token || p.newSnapshot.generation != p.base + 1 { return Failed; }
      if vis.snapshot.generation == p.newSnapshot.generation {
        if vis.snapshot != p.newSnapshot { return Failed; }
        o := FinishCommitted(t, p, ready);
        if ready && Owning(vis, ledger.owned) { DurableNames(dur, vis, ledger.owned); }
        return;
      }
      var ok := Accepts(t, p);
      if !ok || vis.snapshot.generation != p.base { return Failed; }
      ghost var ledger0 := ledger;
      o := RollOut(t, p, ready);
      BookedLess(p.changes, if o == Done then |p.changes| else 0, ledger0, ledger);
      if ready && Owning(vis, ledger.owned) { DurableNames(dur, vis, ledger.owned); }
    }

    /** _apply_pending after its checks. */
    method RollOut(t: TxId, p: Pending, ghost ready: bool) returns (o: Outcome)
      requires t in vis.dirs && vis.snapshot != p.newSnapshot
      requires Replays(Planned(p.plan.outputs), vis.snapshot.entries, {}, p.changes, 0, p.newSnapshot.entries)
      requires PayloadsPresent(vis, t, p.changes)
      requires ready ==> quiet && Rolling(dur, vis, t, p, 0)
      modifies this`vis, this`dur, this`steps, this`ledger, this`turn
      ensures dur.pending == old(dur).pending
      ensures (o == Killed ==> steps == 0) && old(Reserve()) <= Reserve() + 2 * |p.changes| + 4
      ensures vis.plan == old(vis).plan && (forall u :: Active(vis, u) ==> Active(old(vis), u))
      ensures o == Done ==> vis.dirs == old(vis).dirs - {t} && dur.dirs == vis.dirs && vis.snapshot == p.newSnapshot
      ensures quiet ==> AgreeUntouched(old(vis.outputs), vis.outputs, p.changes)
      ensures BookedAll(p.changes, if o == Done then |p.changes| else 0, old(ledger), ledger)
      ensures Extends(old(ledger), ledger) && (quiet ==> ledger.edits == old(ledger.edits))
      ensures old(Kept()) ==> Kept()
      ensures old(Active(vis, t) && vis.pending[t] == p && Owning(vis, ledger.owned)) ==> Owning(vis, ledger.owned)
      ensures ready ==>
                && o != Failed && Safe(dur, vis)
                && Logical(vis) == Logical(dur) == old(Rolled(vis, p))
                && (o == Done ==> Cleanable(dur, vis))
    {
      hide Rolling, Rolled, Accounted, BookedAll, Owning, Safe, Logical, Cleanable, Clutter, OnlyTransaction, WellFormed,
           PayloadsPresent, Replays, DistinctPaths;
      ghost var vis0, ledger0 := vis, ledger;
      AcceptedAreDistinct(vis, p);
      o := ApplyChanges(t, p, ready);
      ClutterSame(vis0, vis);
      ghost var named := Active(vis0, t) && vis0.pending[t] == p && Owning(vis0, ledger0.owned);
      if named { LandingNamed(vis0, t, p, if o == Done then |p.changes| else 0, ledger0, ledger, vis); }
      if o != Done {
        if ready { RollingIsSafe(dur, vis, t, p, 0); }
        return;
      }
      ghost var vis1 := vis;
      BookedLess(p.changes, |p.changes|, ledger0, ledger);
      o := CommitSnapshot(t, p, ready);
      ClutterSame(vis1, vis);
      ghost var vis2 := vis;
      if o == Done { o := RemoveTree(t); if ready { CleanableSafe(dur, vis); } }
      if named && vis.snapshot == p.newSnapshot {
        OnlyThat(vis1, vis2, vis, t);
        CommittedNamed(vis1, t, p, ledger0, ledger, vis);
      }
    }

    /** The rest of _apply_pending when the snapshot has been replaced already. */
    method FinishCommitted(t: TxId, p: Pending, ghost ready: bool) returns (o: Outcome)
      requires t in vis.dirs && vis.snapshot == p.newSnapshot
      requires ready ==> Exclusive(dur, vis, t, p) && WellFormed(p) && Active(vis, t) && vis.pending[t] == p
      requires ready ==> Safe(dur, vis) && vis.outputs == dur.outputs
      modifies this`vis, this`dur, this`steps
      ensures dur.pending == old(dur).pending
      ensures o != Failed && (o == Killed ==> steps == 0) && old(Reserve()) <= Reserve() + 3
      ensures vis == old(vis).(dirs := vis.dirs, pending := vis.pending, payloads := vis.payloads)
      ensures forall u :: Active(vis, u) ==> Active(old(vis), u)
      ensures o == Done ==> vis.dirs == old(vis).dirs - {t} && dur.dirs == vis.dirs
      ensures forall owned :: old(Active(vis, t) && vis.pending[t] == p) && Owning(old(vis), owned) ==> Owning(vis, owned)
      ensures ready ==>
                && Safe(dur, vis) && Logical(vis) == old(Logical(vis))
                && (Logical(dur) == old(Logical(dur)) || Logical(dur) == Logical(vis))
                && (o == Done ==> Cleanable(dur, vis))
    {
      hide Safe, Logical, Cleanable, Clutter, Owning, Exclusive, WellFormed, OnlyTransaction;
      o := Sync(dur.(snapshot := vis.snapshot, plan := vis.plan));
      if o != Done { return; }
      if ready { SnapshotSynced(old(dur), vis, dur, t, p); CleanableSafe(dur, vis); }
      o := RemoveTree(t);
      if ready { CleanableSafe(dur, vis); }
      forall owned | old(Active(vis, t) && vis.pending[t] == p) && Owning(old(vis), owned) ensures Owning(vis, owned) {
        ClearingNamed(old(vis), vis, t, owned);
      }
    }

    /** Atomically replace snapshot.json, then synchronise the state directory. */
    method CommitSnapshot(ghost t: TxId, p: Pending, ghost ready: bool) returns (o: Outcome)
      requires ready ==> Rolling(dur, vis, t, p, |p.changes|)
      modifies this`vis, this`dur, this`steps
      ensures dur.pending == old(dur).pending
      ensures o != Failed && (o == Killed ==> steps == 0) && old(steps) <= steps + 2
      ensures o == (if old(steps) >= 2 then Done else Killed) && (old(steps) == 0 ==> vis == old(vis) && dur == old(dur))
      ensures vis == old(vis) || vis == old(vis).(snapshot := p.newSnapshot)
      ensures o == Done ==> vis == old(vis).(snapshot := p.newSnapshot) && dur.dirs == old(dur).dirs
      ensures ready ==> Safe(dur, vis) && Logical(vis) == Logical(dur) == old(Rolled(vis, p))
      ensures ready && o == Done ==> Cleanable(dur, vis)
    {
      if ready { RollingIsSafe(dur, vis, t, p, |p.changes|); }
      var alive := Alive();
      if !alive { return Killed; }
      if ready { SnapshotReplaced(dur, vis, vis.(snapshot := p.newSnapshot), t, p); }
      vis := vis.(snapshot := p.newSnapshot);
      o := Sync(dur.(snapshot := vis.snapshot, plan := vis.plan));
      if ready && o == Done { SnapshotSynced(old(dur), vis, dur, t, p); }
    }

    /** _recover: roll the one visible transaction forward, then clear the transactions directory. */
    method Recover() returns (o: Outcome)
      modifies this`vis, this`dur, this`steps, this`ledger, this`turn
      ensures (o == Killed ==> steps == 0) && old(Reserve()) <= Reserve() + 2 * Unfinished(old(vis)) + 8
      ensures vis.plan == old(vis).plan
      ensures o == Done ==> vis.dirs == {} && |vis.snapshot.entries| <= EntryCount(old(vis))
      ensures o == Done && vis.snapshot != old(vis).snapshot ==>
                exists t :: Active(old(vis), t) && vis.snapshot == old(vis).pending[t].newSnapshot
      ensures forall x :: x in ledger.lost - old(ledger.lost) ==> Recorded(old(vis), x.1)
      ensures forall q :: q in old(ledger.owned) - ledger.owned ==> GivenUp(old(vis), q)
      ensures Extends(old(ledger), ledger) && (quiet ==> ledger.edits == old(ledger.edits))
      ensures old(Kept()) ==> Kept()
      ensures old(Owning(vis, ledger.owned)) ==> Owning(vis, ledger.owned)
      ensures quiet && old(Safe(dur, vis)) ==>
                && (old(Owning(dur, ledger.owned) && Owning(vis, ledger.owned)) ==> Owning(dur, ledger.owned))
                && o != Failed && Safe(dur, vis) && Logical(vis) == old(Logical(vis))
                && (Logical(dur) == old(Logical(dur)) || Logical(dur) == Logical(vis))
                && (o == Done ==> Cleanable(dur, vis) && RecoveredFrom(vis, old(vis)))
    {
      hide Safe, Logical, Cleanable, Clutter, Owning, Accounted, GivenUp, Recorded, RecoveredFrom, EntryCount, Unfinished, Active;
      o := RollForward();
      if o != Done { return; }
      ghost var before := vis;
      o := ClearTransactions();
      if quiet && old(Safe(dur, vis)) {
        CleanFacts(dur, vis, ledger.owned);
        if o == Done { CleanableLogical(dur, vis); IsRecovered(old(vis), before, vis); }
      }
    }

    /** The first half of _recover: there must be at most one transaction record, and it is applied. */
    method RollForward() returns (o: Outcome)
      modifies this`vis, this`dur, this`steps, this`ledger, this`turn
      ensures (o == Killed ==> steps == 0) && old(Reserve()) <= Reserve() + 2 * Unfinished(old(vis)) + 6
      ensures vis.plan == old(vis).plan
      ensures o == Done ==> (forall t :: !Active(vis, t)) && |vis.snapshot.entries| <= EntryCount(old(vis))
      ensures o == Done && vis.snapshot != old(vis).snapshot ==>
                exists t :: Active(old(vis), t) && vis.snapshot == old(vis).pending[t].newSnapshot
      ensures forall x :: x in ledger.lost - old(ledger.lost) ==> Recorded(old(vis), x.1)
      ensures forall q :: q in old(ledger.owned) - ledger.owned ==> GivenUp(old(vis), q)
      ensures Extends(old(ledger), ledger) && (quiet ==> ledger.edits == old(ledger.edits))
      ensures old(Kept()) ==> Kept()
      ensures old(Owning(vis, ledger.owned)) ==> Owning(vis, ledger.owned)
      ensures quiet && o == Done ==> KeptElsewhere(old(vis), vis)
      ensures quiet && old(Safe(dur, vis)) ==>
                && (old(Owning(dur, ledger.owned) && Owning(vis, ledger.owned)) ==> Owning(dur, ledger.owned))
                && o != Failed && Safe(dur, vis) && Logical(vis) == old(Logical(vis))
                && (Logical(dur) == old(Logical(dur)) || Logical(dur) == Logical(vis))
                && (o == Done ==> Cleanable(dur, vis))
    {
      hide Safe, Logical, Cleanable, Clutter, Owning, Accounted, GivenUp, Recorded, KeptElsewhere, EntryCount, Unfinished, ValidPlan,
           Ready, BookedAll, OnlyEdited, PriorOf, WellFormed, AgreeUntouched, Touches, Possible, Exclusive, GivesUp, Mix, RecordedBy;
      ghost var safe := quiet && Safe(dur, vis);
      var active := set t | t in vis.dirs && t in vis.pending;
      if exists t, u :: t in active && u in active && t != u {
        if safe {
          OneRecord(dur, vis);
          assert forall t, u :: t in active && u in active ==> Active(vis, t) && Active(vis, u);
        }
        return Failed;
      }
      if active == {} {
        forall t ensures !Active(vis, t) { assert t !in active; }
        NothingToRoll(vis);
        if safe { NothingActive(dur, vis); }
        return Done;
      }
      var t :| t in active;
      var p := vis.pending[t];
      forall u | Active(vis, u) ensures u == t { assert u in active; }
      OneActive(vis, t);
      o := RollOne(t, p);
    }

    /** Make the one record durable before applying it. */
    method RollOne(t: TxId, p: Pending) returns (o: Outcome)
      requires Active(vis, t) && vis.pending[t] == p && forall u :: Active(vis, u) ==> u == t
      modifies this`vis, this`dur, this`steps, this`ledger, this`turn
      ensures (o == Killed ==> steps == 0) && old(Reserve()) <= Reserve() + 2 * |p.changes| + 6
      ensures vis.plan == old(vis).plan
      ensures o == Done ==> (forall u :: !Active(vis, u)) && vis.snapshot == p.newSnapshot
      ensures forall x :: x in ledger.lost - old(ledger.lost) ==> Recorded(old(vis), x.1)
      ensures forall q :: q in old(ledger.owned) - ledger.owned ==> GivenUp(old(vis), q)
      ensures Extends(old(ledger), ledger) && (quiet ==> ledger.edits == old(ledger.edits))
      ensures old(Kept()) ==> Kept()
      ensures old(Owning(vis, ledger.owned)) ==> Owning(vis, ledger.owned)
      ensures quiet && o == Done ==> KeptElsewhere(old(vis), vis)
      ensures quiet && old(Safe(dur, vis)) ==>
                && (old(Owning(dur, ledger.owned) && Owning(vis, ledger.owned)) ==> Owning(dur, ledger.owned))
                && o != Failed && Safe(dur, vis) && Logical(vis) == old(Logical(vis))
                && (Logical(dur) == old(Logical(dur)) || Logical(dur) == Logical(vis))
                && (o == Done ==> Cleanable(dur, vis))
    {
      hide Safe, Logical, Cleanable, Clutter, Owning, Accounted, GivenUp, Recorded, KeptElsewhere, ValidPlan, Ready, BookedAll,
           OnlyEdited, PriorOf, WellFormed, AgreeUntouched, Touches, Possible, Exclusive, GivesUp, Mix, RecordedBy;
      ghost var safe := quiet && Safe(dur, vis);
      ghost var vis0, ledger0 := vis, ledger;
      if safe { OneRecord(dur, vis); }
      PartsMix(dur, vis, t);
      o := Sync(dur.(dirs := vis.dirs));
      if o != Done { return; }
      PartsMix(dur, vis, t);
      o := Sync(dur.(pending := Put(dur.pending, t, Some(p))));
      if o != Done { return; }
      if !ValidPlan(p.plan) { return Failed; }
      if safe { BecomesReady(dur, vis, t, p); }
      o := ApplyPending(t, p);
      BookedIsRecorded(vis0, t, p, ledger0, ledger);
      if quiet { AppliedElsewhere(vis0, vis, t); }
    }

    /** The second half of _recover: every directory left goes. */
    method ClearTransactions() returns (o: Outcome)
      requires forall t :: !Active(vis, t)
      modifies this`vis, this`dur, this`steps
      ensures o != Failed && (o == Killed ==> steps == 0) && old(Reserve()) <= Reserve() + 2
      ensures vis == old(vis).(dirs := vis.dirs, pending := vis.pending, payloads := vis.payloads)
      ensures o == Done ==> vis.dirs == {}
      ensures forall owned :: Owning(old(vis), owned) ==> Owning(vis, owned)
      ensures old(Cleanable(dur, vis)) ==> Cleanable(dur, vis) && Logical(dur) == Logical(vis) == old(Logical(vis))
    {
      hide Cleanable, Logical, Owning, Clutter, OnlyTransaction;
      ghost var vis0 := vis;
      if Cleanable(dur, vis) { CleanableLogical(dur, vis); }
      while vis.dirs != {}
        invariant vis == vis0.(dirs := vis.dirs, pending := vis.pending, payloads := vis.payloads)
        invariant old(Reserve()) <= Reserve() && forall t :: !Active(vis, t)
        invariant forall owned :: Owning(vis0, owned) ==> Owning(vis, owned)
        invariant old(Cleanable(dur, vis)) ==> Cleanable(dur, vis) && Logical(dur) == Logical(vis) == Logical(vis0)
        decreases vis.dirs
      {
        var t :| t in vis.dirs;
        ghost var before := vis;
        o := RemoveTree(t);
        forall owned | Owning(before, owned) ensures Owning(vis, owned) { ClearingNamed(before, vis, t, owned); }
        if o != Done { return; }
      }
      return Done;
    }

    /** Write pending.json atomically, which commits to the transaction, and apply it. */
    method Submit(t: TxId, p: Pending) returns (o: Outcome)
      requires ValidPlan(p.plan) && t in vis.dirs && t !in vis.pending
      requires vis.snapshot.generation != p.newSnapshot.generation
      modifies this`vis, this`dur, this`steps, this`ledger, this`turn
      ensures (o == Killed ==> steps == 0) && old(Reserve()) <= Reserve() + 2 * |p.changes| + 7
      ensures vis.plan == old(vis).plan
      ensures old(steps) == 0 ==> o == Killed && vis == old(vis) && dur == old(dur)
      ensures BookedAll(p.changes, if o == Done then |p.changes| else 0, old(ledger), ledger)
      ensures Extends(old(ledger), ledger) && (quiet ==> ledger.edits == old(ledger.edits))
      ensures old(Kept()) ==> Kept()
      ensures old(Owning(vis, ledger.owned)) ==> Owning(vis, ledger.owned)
      ensures o == Done ==> vis.dirs == old(vis).dirs - {t} && dur.dirs == vis.dirs && vis.snapshot == p.newSnapshot
      ensures quiet && old(Submittable(dur, vis, t, p)) ==>
                && (old(Owning(dur, ledger.owned) && Owning(vis, ledger.owned)) ==> Owning(dur, ledger.owned))
                && o != Failed && Safe(dur, vis)
                && (Logical(vis) == old(Logical(vis)) || Logical(vis) == old(Rolled(vis, p)))
                && (Logical(dur) == old(Logical(vis)) || Logical(dur) == Logical(vis))
                && (o == Done ==> Cleanable(dur, vis) && Logical(vis) == old(Rolled(vis, p)))
    {
      hide Safe, Logical, Rolled, Cleanable, Clutter, Owning, Accounted, BookedAll, Submittable, Ready, Possible, ValidPlan, Mix, PayloadsPresent, WellFormed, PriorOf, OnlyEdited;
      ghost var ready := quiet && Submittable(dur, vis, t, p);
      BookedNone(p.changes, ledger);
      if ready { SubmittableFacts(dur, vis, t, p); }
      var alive := Alive();
      if !alive { return Killed; }
      if Owning(vis, ledger.owned) { IntentNamed(vis, t, p, ledger.owned); }
      EntryAdded(vis, t, (t, 0), p, 0);
      vis := vis.(pending := vis.pending[t := p]);
      PartsMix(dur, vis, t);
      o := Sync(dur.(pending := Put(dur.pending, t, Some(p))));
      if o != Done { return; }
      if ready { BecomesReady(dur, vis, t, p); }
      o := ApplyPending(t, p);
    }

    /** _durable_mkdir of a new transaction directory; its random name is unused. */
    method NewTransaction() returns (o: Outcome, t: TxId)
      modifies this`vis, this`dur, this`steps
      ensures o != Failed && (o == Killed ==> steps == 0) && old(Reserve()) <= Reserve() + 4
      ensures vis == old(vis).(dirs := vis.dirs)
      ensures old(steps) == 0 ==> o == Killed && vis == old(vis) && dur == old(dur)
      ensures t !in old(vis).dirs && t !in vis.pending && t !in dur.pending
      ensures o == Done ==> vis.dirs == old(vis).dirs + {t} && dur == old(dur).(dirs := vis.dirs)
      ensures forall owned :: Owning(old(vis), owned) ==> Owning(vis, owned)
      ensures old(Cleanable(dur, vis)) ==> Cleanable(dur, vis) && Logical(dur) == Logical(vis) == old(Logical(vis))
    {
      hide Cleanable, Logical, Safe, Owning, Clutter;
      FreshId(vis.dirs + vis.pending.Keys + dur.dirs + dur.pending.Keys);
      t :| t !in vis.dirs + vis.pending.Keys + dur.dirs + dur.pending.Keys;
      ghost var vis0, dur0 := vis, dur;
      if Cleanable(dur0, vis0) { CleanStep(dur0, vis0, dur0, vis0); }
      var alive := Alive();
      if !alive { return Killed, t; }
      EntryAdded(vis, t, (t, 0), Pending(0, [], vis.snapshot, Plan([])), 0);
      vis := vis.(dirs := vis.dirs + {t});
      forall owned | Owning(vis0, owned) ensures Owning(vis, owned) { ClearingNamed(vis0, vis, t, owned); }
      if Cleanable(dur0, vis0) { CleanStep(dur0, vis0, dur, vis); }
      o := Sync(dur.(dirs := vis.dirs));
      if Cleanable(dur0, vis0) { CleanStep(dur0, vis0, dur, vis); }
    }

    /** The cleanup of a transaction that never got a pending.json. */
    method Abandon(t: TxId) returns (o: Outcome)
      requires !Active(vis, t)
      modifies this`vis, this`dur, this`steps
      ensures o != Done && (o == Killed ==> steps == 0) && old(Reserve()) <= Reserve() + 2
      ensures vis == old(vis).(dirs := vis.dirs, pending := vis.pending, payloads := vis.payloads)
      ensures o == Failed ==> vis.dirs == old(vis).dirs - {t} && dur.dirs == vis.dirs
      ensures forall owned :: Owning(old(vis), owned) ==> Owning(vis, owned)
      ensures old(Cleanable(dur, vis)) ==> Cleanable(dur, vis) && Logical(dur) == Logical(vis) == old(Logical(vis))
    {
      hide Cleanable, Logical, Owning, Clutter, OnlyTransaction;
      o := RemoveTree(t);
      forall owned | Owning(old(vis), owned) ensures Owning(vis, owned) { ClearingNamed(old(vis), vis, t, owned); }
      if o == Done { o := Failed; }
    }

    /** Copy one staged file into a durable payload, provided the output may be replaced. */
    method CopyPayload(t: TxId, c: Change) returns (o: Outcome)
      requires c.payload.Some? && c.after.Some?
      modifies this`vis, this`steps, this`ledger, this`turn
      ensures (o == Killed ==> steps == 0) && old(Reserve()) <= Reserve() + 2
      ensures vis == old(vis).(outputs := vis.outputs, payloads := vis.payloads) && (quiet ==> vis.outputs == old(vis).outputs)
      ensures o == Done ==> vis.payloads == old(vis).payloads[(t, c.payload.value) := c.after.value]
      ensures (o == Done ==> steps < old(steps)) && (o != Done ==> vis.payloads == old(vis).payloads)
      ensures o == Failed <==> c.path in vis.outputs && Some(vis.outputs[c.path].digest) != c.before
      ensures OnlyEdited(old(ledger), ledger)
      ensures Extends(old(ledger), ledger) && (quiet ==> ledger.edits == old(ledger.edits))
      ensures old(Kept()) ==> Kept()
      ensures quiet && old(Cleanable(dur, vis)) ==> Cleanable(dur, vis) && Logical(dur) == Logical(vis) == old(Logical(vis))
    {
      hide Cleanable, Logical, Safe, Accounted;
      OutsideEdit();
      ghost var clean := quiet && Cleanable(dur, vis);
      ghost var vis0 := vis;
      if clean { CleanStep(dur, vis, dur, vis); }
      if c.path in vis.outputs && Some(vis.outputs[c.path].digest) != c.before { return Failed; }
      var alive := Alive();
      if !alive { return Killed; }
      EntryAdded(vis, t, (t, c.payload.value), Pending(0, [], vis.snapshot, Plan([])), c.after.value);
      vis := vis.(payloads := vis.payloads[(t, c.payload.value) := c.after.value]);
      if clean { CleanStep(dur, vis0, dur, vis); }
      return Done;
    }

    /** The copying loop of publish: one durable payload and one change for each output of the target. */
    method DraftPublication(plan: Plan, target: Target, staged: map<Path, Digest>, t: TxId)
      returns (o: Outcome, changes: seq<Change>, entries: map<Path, Entry>)
      requires ValidPlan(plan)
      modifies this`vis, this`steps, this`ledger, this`turn
      ensures (o == Killed ==> steps == 0) && old(Reserve()) <= Reserve() + 2 * |Select(plan.outputs, target)|
      ensures vis == old(vis).(outputs := vis.outputs, payloads := vis.payloads)
      ensures OnlyEdited(old(ledger), ledger)
      ensures Extends(old(ledger), ledger) && (quiet ==> ledger.edits == old(ledger.edits))
      ensures old(Kept()) ==> Kept()
      ensures quiet && old(Cleanable(dur, vis)) ==> Cleanable(dur, vis) && Logical(dur) == Logical(vis) == old(Logical(vis))
      ensures quiet && o != Killed ==>
                (o == Done <==> AllStaged(Committed(Contents(old(vis.outputs)), old(vis.snapshot)), Select(plan.outputs, target), staged))
      ensures o == Done ==> |changes| == |Select(plan.outputs, target)|
      ensures o == Done ==> Drafting(vis, quiet, t, plan, target, staged, changes, entries)
    {
      hide Cleanable, Logical, Safe, Accounted, Drafting, ValidPlan, Clutter, Unstaged;
      ghost var vis0 := vis;
      ghost var here := Committed(Contents(vis.outputs), vis.snapshot);
      ghost var clean := quiet && Cleanable(dur, vis);
      if clean { CleanableLogical(dur, vis); }
      var outs := Select(plan.outputs, target);
      changes, entries := [], vis.snapshot.entries;
      NothingDrafted(vis, quiet, t, plan, target, staged);
      while |changes| < |outs|
        invariant |changes| <= |outs| && old(Reserve()) <= Reserve() + 2 * |changes|
        invariant vis == vis0.(outputs := vis.outputs, payloads := vis.payloads) && (quiet ==> vis.outputs == vis0.outputs)
        invariant OnlyEdited(old(ledger), ledger) && (old(Kept()) ==> Kept())
        invariant Extends(old(ledger), ledger) && (quiet ==> ledger.edits == old(ledger.edits))
        invariant Drafting(vis, quiet, t, plan, target, staged, changes, entries)
        invariant clean ==> Cleanable(dur, vis) && Logical(dur) == Logical(vis) == Logical(vis0)
        invariant quiet ==> forall j :: 0 <= j < |changes| ==> !Unstaged(here, outs[j], staged)
      {
        var k := |changes|;
        var path := outs[k].path;
        StagedCases(here, vis0, outs[k], staged, k);
        if path !in staged { return Failed, changes, entries; }
        var c := PublicationOf(outs[k], vis.snapshot.entries, staged[path], k);
        ghost var before := vis;
        o := CopyPayload(t, c);
        if o != Done { return o, changes, entries; }
        var entries' := entries[path := Entry(staged[path], outs[k].target)];
        DraftGrows(before, vis, quiet, t, plan, target, staged, changes, entries, c, entries');
        changes, entries := changes + [c], entries';
      }
      return Done, changes, entries;
    }

    /** Draft the transaction in its new directory and make the payloads durable. */
    method FillTransaction(plan: Plan, target: Target, staged: map<Path, Digest>, t: TxId) returns (o: Outcome, p: Pending)
      requires ValidPlan(plan) && t in vis.dirs && t !in vis.pending
      modifies this`vis, this`dur, this`steps, this`ledger, this`turn
      ensures (o == Killed ==> steps == 0) && old(Reserve()) <= Reserve() + 2 * |Select(plan.outputs, target)| + 2
      ensures vis.plan == old(vis).plan && p.plan == plan
      ensures o == Failed ==> vis.dirs == old(vis).dirs - {t} && dur.dirs == vis.dirs
      ensures o == Done ==> && t in vis.dirs && t !in vis.pending && vis.snapshot.generation != p.newSnapshot.generation
                            && PriorsIn(p.changes, old(vis).snapshot.entries) && Covers(p.changes, Select(plan.outputs, target))
      ensures OnlyEdited(old(ledger), ledger)
      ensures Extends(old(ledger), ledger) && (quiet ==> ledger.edits == old(ledger.edits))
      ensures old(Kept()) ==> Kept()
      ensures forall owned :: Owning(old(vis), owned) ==> Owning(vis, owned)
      ensures quiet && o != Killed ==>
                (o == Done <==> AllStaged(Committed(Contents(old(vis.outputs)), old(vis.snapshot)), Select(plan.outputs, target), staged))
      ensures quiet && old(Cleanable(dur, vis) && vis.dirs == {t} == dur.dirs && t !in dur.pending) ==>
                && Cleanable(dur, vis) && Logical(dur) == Logical(vis) == old(Logical(vis))
                && (o == Done ==> Submittable(dur, vis, t, p) && Published(Logical(vis), Rolled(vis, p), plan, target, staged))
    {
      hide Cleanable, Logical, Rolled, Published, Submittable, ValidPlan, PriorsIn, Select, Covers, Owning, Accounted,
           AllStaged, Drafting, Safe, Clutter;
      ghost var clean := quiet && Cleanable(dur, vis) && vis.dirs == {t} == dur.dirs && t !in dur.pending;
      p := Pending(0, [], vis.snapshot, plan);
      var changes, entries;
      o, changes, entries := DraftPublication(plan, target, staged, t);
      forall owned | Owning(old(vis), owned) ensures Owning(vis, owned) { SameNames(old(vis), vis, owned); }
      if o == Failed { o := Abandon(t); return; }
      if o != Done { return; }
      ghost var dur0 := dur;
      if clean { CleanStep(dur, vis, dur, vis); }
      o := Sync(dur.(payloads := vis.payloads));
      if clean { CleanStep(dur0, vis, dur, vis); }
      if o != Done { return; }
      p := Pending(vis.snapshot.generation, changes, Snapshot(vis.snapshot.token, entries, vis.snapshot.generation + 1), plan);
      DraftComplete(quiet, vis, t, plan, target, staged, p);
      if clean { DraftReady(dur, vis, t, plan, target, staged, p); }
    }

    /** A new transaction directory and the drafted transaction in it. */
    method Draft(plan: Plan, target: Target, staged: map<Path, Digest>) returns (o: Outcome, t: TxId, p: Pending)
      requires ValidPlan(plan) && vis.dirs == {}
      modifies this`vis, this`dur, this`steps, this`ledger, this`turn
      ensures (o == Killed ==> steps == 0) && old(Reserve()) <= Reserve() + 2 * |Select(plan.outputs, target)| + 6
      ensures vis.plan == old(vis).plan && p.plan == plan
      ensures o == Failed ==> vis.dirs == {}
      ensures o == Done ==> && t in vis.dirs && t !in vis.pending && vis.snapshot.generation != p.newSnapshot.generation
                            && PriorsIn(p.changes, old(vis).snapshot.entries) && Covers(p.changes, Select(plan.outputs, target))
      ensures OnlyEdited(old(ledger), ledger)
      ensures Extends(old(ledger), ledger) && (quiet ==> ledger.edits == old(ledger.edits))
      ensures old(Kept()) ==> Kept()
      ensures forall owned :: Owning(old(vis), owned) ==> Owning(vis, owned)
      ensures quiet && o != Killed ==>
                (o == Done <==> AllStaged(Committed(Contents(old(vis.outputs)), old(vis.snapshot)), Select(plan.outputs, target), staged))
      ensures quiet && old(Cleanable(dur, vis)) ==>
                && Cleanable(dur, vis) && Logical(dur) == Logical(vis) == old(Logical(vis))
                && (o == Done ==> Submittable(dur, vis, t, p) && Published(Logical(vis), Rolled(vis, p), plan, target, staged))
    {
      hide Logical, Rolled, Cleanable, Clutter, Owning, Accounted, Submittable, Published, Covers, PriorsIn, AllStaged, ValidPlan,
           Select, OnlyEdited, Contents, Safe;
      p := Pending(0, [], vis.snapshot, plan);
      NothingEdited(ledger);
      o, t := NewTransaction();
      if o != Done { return; }
      o, p := FillTransaction(plan, target, staged, t);
    }

    /** publish up to, but not including, the write of pending.json. */
    method Prepare(plan: Plan, target: Target, staged: map<Path, Digest>) returns (o: Outcome, t: TxId, p: Pending)
      requires ValidPlan(plan)
      modifies this`vis, this`dur, this`steps, this`ledger, this`turn
      ensures o == Killed ==> steps == 0
      ensures old(Reserve()) <= Reserve() + 2 * Unfinished(old(vis)) + 2 * |Select(plan.outputs, target)| + 14
      ensures vis.plan == old(vis).plan && p.plan == plan
      ensures quiet && old(Safe(dur, vis)) && o == Failed ==> vis.dirs == {}
      ensures o == Done ==> && t in vis.dirs && t !in vis.pending && vis.snapshot.generation != p.newSnapshot.generation
                            && Covers(p.changes, Select(plan.outputs, target))
      ensures forall x :: x in ledger.lost - old(ledger.lost) ==> Recorded(old(vis), x.1)
      ensures forall x :: o == Done && PriorOf(p.changes, x) ==> Recorded(old(vis), x)
      ensures forall q :: q in old(ledger.owned) - ledger.owned ==> GivenUp(old(vis), q)
      ensures Extends(old(ledger), ledger) && (quiet ==> ledger.edits == old(ledger.edits))
      ensures old(Kept()) ==> Kept()
      ensures old(Owning(vis, ledger.owned)) ==> Owning(vis, ledger.owned)
      ensures quiet && old(Safe(dur, vis)) ==>
                && (old(Owning(dur, ledger.owned) && Owning(vis, ledger.owned)) ==> Owning(dur, ledger.owned))
                && Safe(dur, vis) && Logical(vis) == old(Logical(vis))
                && (Logical(dur) == old(Logical(dur)) || Logical(dur) == Logical(vis))
                && (o != Killed ==> (o == Failed <==> Unpublishable(old(vis).plan, old(Logical(vis)), plan, target, staged)))
                && (o == Done ==> && Submittable(dur, vis, t, p)
                                  && Published(Logical(vis), Rolled(vis, p), plan, target, staged))
    {
      hide Safe, Logical, Rolled, Cleanable, Clutter, Owning, Accounted, Submittable, Published, GivenUp, Recorded, RecoveredFrom,
           Covers, PriorsIn, AllStaged, ValidPlan, Select, PriorOf, OnlyEdited, Unstaged, Possible, Contents;
      t, p := 0, Pending(0, [], vis.snapshot, plan);
      o := Recover();
      if o != Done { return; }
      if quiet && old(Safe(dur, vis)) { CleanableLogical(dur, vis); }
      if vis.plan != Some(plan) || Select(plan.outputs, target) == [] { return Failed, t, p; }
      ghost var recovered, ledger1 := vis, ledger;
      o, t, p := Draft(plan, target, staged);
      OnlyEditedOwned(ledger1, ledger);
      if o == Done { PriorsAreRecorded(old(vis), recovered.snapshot, p.changes); }
      if quiet && old(Safe(dur, vis)) { CleanFacts(dur, vis, ledger.owned); }
    }

    /** publish: replace exactly the outputs of one target by the staged files, atomically. */
    method Publish(plan: Plan, target: Target, staged: map<Path, Digest>) returns (o: Outcome)
      requires ValidPlan(plan)
      modifies this`vis, this`dur, this`steps, this`ledger, this`turn
      ensures o == Killed ==> steps == 0 && old(steps) <= Work(old(vis), |Select(plan.outputs, target)|)
      ensures vis.plan == old(vis).plan
      ensures forall x :: x in ledger.lost - old(ledger.lost) ==> Recorded(old(vis), x.1)
      ensures forall q :: q in old(ledger.owned) - ledger.owned ==> GivenUp(old(vis), q)
      ensures Extends(old(ledger), ledger) && (quiet ==> ledger.edits == old(ledger.edits))
      ensures old(Kept()) ==> Kept()
      ensures old(Owning(vis, ledger.owned)) ==> Owning(vis, ledger.owned)
      ensures o == Done ==> forall out :: out in Select(plan.outputs, target) ==> out.path in ledger.owned
      ensures o == Done ==> forall out :: out in Select(plan.outputs, target) ==>
                At(Contents(vis.outputs), out.path) == At(staged, out.path)
      ensures quiet && old(Safe(dur, vis)) ==>
                && (old(Owning(dur, ledger.owned) && Owning(vis, ledger.owned)) ==> Owning(dur, ledger.owned))
                && Safe(dur, vis)
                && (Logical(vis) == old(Logical(vis)) || Published(old(Logical(vis)), Logical(vis), plan, target, staged))
                && (Logical(dur) == old(Logical(vis)) || Logical(dur) == Logical(vis) ||
                    (Logical(dur) == old(Logical(dur)) && Logical(vis) == old(Logical(vis))))
                && (if Unpublishable(old(vis).plan, old(Logical(vis)), plan, target, staged)
                    then o != Done && Logical(vis) == old(Logical(vis)) else o != Failed)
                && (o == Done ==> && Published(old(Logical(vis)), Logical(vis), plan, target, staged)
                                  && Logical(dur) == Logical(vis) == Committed(Contents(vis.outputs), vis.snapshot))
    {
      hide Safe, Logical, Rolled, Cleanable, Clutter, Owning, Accounted, Submittable, Published, GivenUp, Recorded, Unpublishable,
           Covers, BookedAll, ValidPlan, Select, Contents, Confirmed;
      ghost var safe := quiet && Safe(dur, vis);
      var t, p;
      o, t, p := Prepare(plan, target, staged);
      if o != Done { return; }
      ghost var ledger0 := ledger;
      CoversCount(p.changes, Select(plan.outputs, target));
      o := Submit(t, p);
      BookedLosses(p.changes, if o == Done then |p.changes| else 0, ledger0, ledger);
      CoveredKept(p.changes, Select(plan.outputs, target), if o == Done then |p.changes| else 0, ledger0, ledger);
      if o != Done { return; }
      CoveredOwned(p.changes, Select(plan.outputs, target), ledger0, ledger);
      ghost var vis1 := vis;
      OutsideEdit();
      if Owning(vis1, ledger.owned) { SameNames(vis1, vis, ledger.owned); }
      if safe { CleanableLogical(dur, vis); CleanFacts(dur, vis, ledger.owned); }
      o := Confirm(plan, target, staged);
      ConfirmedMeans(Contents(vis.outputs), Select(plan.outputs, target), staged);
      if safe {
        PublishedConfirms(old(Logical(vis)), Logical(vis), plan, target, staged);
      }
    }

    /** The last loop of publish: every output of the target must be what was staged. */
    method Confirm(plan: Plan, target: Target, staged: map<Path, Digest>) returns (o: Outcome)
      ensures o == if Confirmed(Contents(vis.outputs), Select(plan.outputs, target), staged) then Done else Failed
    {
      var outs := Select(plan.outputs, target);
      var k := 0;
      while k < |outs|
        invariant k <= |outs|
        invariant forall j :: 0 <= j < k ==> At(Contents(vis.outputs), outs[j].path) == At(staged, outs[j].path)
      {
        assert outs[k] in outs;
        if At(Contents(vis.outputs), outs[k].path) != At(staged, outs[k].path) { return Failed; }
        k := k + 1;
      }
      return Done;
    }

    /** The loop of _retire_unplanned over the snapshot entries, in any order. */
    method DraftRetirement(plan: Plan) returns (ok: bool, ghost claimed: set<Path>, changes: seq<Change>, entries: map<Path, Entry>)
      requires ValidPlan(plan)
      ensures ok ==> Retirement.Drafting(vis, Planned(plan.outputs), vis.snapshot.entries.Keys, claimed, changes, entries)
      ensures ok ==> |changes| <= |vis.snapshot.entries|
      ensures ok <==> !Retirement.Ambiguous(vis, Planned(plan.outputs))
    {
      hide Retirement.Drafting, Retirement.Retires, Retirement.Linked, Retirement.OneHeir, Retirement.Ambiguous, Planned,
           ValidPlan;
      var planned := Planned(plan.outputs);
      var taken := {};
      changes, entries, claimed := [], vis.snapshot.entries, {};
      var rest := vis.snapshot.entries.Keys;
      Retirement.NoneDone(vis, planned);
      while rest != {}
        invariant rest <= vis.snapshot.entries.Keys && claimed == taken
        invariant |changes| + |rest| <= |vis.snapshot.entries.Keys|
        invariant Retirement.Drafting(vis, planned, vis.snapshot.entries.Keys - rest, taken, changes, entries)
        invariant forall q :: q in vis.snapshot.entries && q !in rest && Retirement.Retires(vis, planned, q) ==>
                    Retirement.OneHeir(vis, planned, q)
        decreases rest
      {
        var q :| q in rest;
        ghost var done := vis.snapshot.entries.Keys - rest;
        rest := rest - {q};
        assert vis.snapshot.entries.Keys - rest == done + {q};
        if !Retirement.Retires(vis, planned, q) {
          Retirement.Skip(vis, planned, done, taken, changes, entries, q);
          continue;
        }
        var c;
        ok, taken, c := RetireOne(planned, done, taken, changes, entries, q);
        claimed := taken;
        if !ok { return; }
        changes, entries := changes + [c], Absorb(entries, c);
      }
      ok := true;
      Retirement.OneHeirEach(vis, planned);
      assert vis.snapshot.entries.Keys - rest == vis.snapshot.entries.Keys;
    }

    /** One retiring path: its change, which hands the path over when exactly one planned path still can inherit. */
    method RetireOne(planned: map<Path, Target>, ghost done: set<Path>, taken: set<Path>, changes: seq<Change>,
                     entries: map<Path, Entry>, q: Path)
      returns (ok: bool, taken': set<Path>, c: Change)
      requires Retirement.Drafting(vis, planned, done, taken, changes, entries)
      requires q !in done && Retirement.Retires(vis, planned, q)
      ensures c.transfer.Some? ==> c.before.Some?
      ensures if ok then Retirement.Drafting(vis, planned, done + {q}, taken', changes + [c], Absorb(entries, c)) &&
                         Retirement.OneHeir(vis, planned, q)
              else Retirement.Ambiguous(vis, planned)
    {
      hide Retirement.Drafting, Retirement.Linked, Retirement.OneHeir, Retirement.Ambiguous;
      var heirs := Retirement.Heirs(vis, planned, q);
      taken', c := taken, Change(q, Some(vis.snapshot.entries[q].sha256), None, None, vis.snapshot.entries[q].target, None);
      if exists a, b :: a in heirs && b in heirs && a != b {
        ghost var a, b :| a in heirs && b in heirs && a != b;
        Retirement.SeveralHeirs(vis, planned, q, a, b);
        return false, taken', c;
      }
      Retirement.NoSecondHeir(vis, planned, q);
      if heirs - taken == {} {
        assert forall dest :: dest in heirs && dest !in taken ==> dest in heirs - taken;
        Retirement.AppendPlain(vis, planned, done, taken, changes, entries, q);
      } else {
        var dest :| dest in heirs - taken;
        assert heirs == {dest};
        Retirement.AppendTransfer(vis, planned, done, taken, changes, entries, q, dest);
        taken', c := taken + {dest}, c.(target := planned[dest], transfer := Some(Transfer(vis.outputs[dest].inode, dest)));
      }
      ok := true;
    }

    /** _retire_unplanned: give up every recorded output the plan no longer names, unless it was edited. */
    method RetireUnplanned(plan: Plan) returns (o: Outcome)
      requires ValidPlan(plan) && vis.dirs == {}
      modifies this`vis, this`dur, this`steps, this`ledger, this`turn
      ensures (o == Killed ==> steps == 0) && old(Reserve()) <= Reserve() + 2 * |old(vis).snapshot.entries| + 11
      ensures vis.plan == old(vis).plan
      ensures forall x :: x in ledger.lost - old(ledger.lost) ==>
                x.1.0 in old(vis).snapshot.entries && old(vis).snapshot.entries[x.1.0].sha256 == x.1.1
      ensures forall q :: q in old(ledger.owned) - ledger.owned ==> q !in Planned(plan.outputs)
      ensures Extends(old(ledger), ledger) && (quiet ==> ledger.edits == old(ledger.edits))
      ensures old(Kept()) ==> Kept()
      ensures old(Owning(vis, ledger.owned)) ==> Owning(vis, ledger.owned)
      ensures quiet && Retirement.Ambiguous(old(vis), Planned(plan.outputs)) ==> o == Failed && vis == old(vis) && dur == old(dur)
      ensures quiet && old(Cleanable(dur, vis)) ==>
                && (old(Owning(dur, ledger.owned) && Owning(vis, ledger.owned)) ==> Owning(dur, ledger.owned))
                && Safe(dur, vis)
                && (Logical(vis) == old(Logical(vis)) || Retirement.Retired(old(vis), Planned(plan.outputs), Logical(vis)))
                && (Logical(dur) == old(Logical(vis)) || Logical(dur) == Logical(vis))
                && (o == Failed <==> Retirement.Ambiguous(old(vis), Planned(plan.outputs)))
                && (o == Done ==> Cleanable(dur, vis) && Retirement.Retired(old(vis), Planned(plan.outputs), Logical(vis)))
    {
      hide Safe, Logical, Cleanable, Clutter, Owning, Accounted, Retirement.Drafting, Retirement.Ambiguous, Retirement.Retired,
           BookedAll, ValidPlan, Planned, Contents, WellFormed, Follows, TransfersHold, Guards, Rolled, DistinctPaths, TransfersUntouched, Replays, PriorOf, PriorsIn, OnlyEdited, Retirement.Retires, Retirement.Linked, Extends;
      ghost var start := ledger;
      ExtendsSame(start);
      OutsideEdit();
      OnlyEditedOwned(start, ledger);
      if Owning(old(vis), ledger.owned) { SameNames(old(vis), vis, ledger.owned); }
      ClutterSame(old(vis), vis);
      ghost var vis0, ledger0 := vis, ledger;
      ghost var clean := quiet && Cleanable(dur, vis);
      if clean { CleanableLogical(dur, vis); CleanFacts(dur, vis, ledger.owned); }
      var ok, claimed, changes, entries := DraftRetirement(plan);
      if !ok { return Failed; }
      if changes == [] {
        Retirement.NothingRetired(vis, Planned(plan.outputs), claimed, entries);
        return Done;
      }
      var p := Pending(vis.snapshot.generation, changes, Snapshot(vis.snapshot.token, entries, vis.snapshot.generation + 1), plan);
      Retirement.DraftMeaning(vis, plan, claimed, changes, entries, p);
      o := SubmitRetirement(p);
      ExtendsTwice(start, ledger0, ledger);
      OnlyRetired(vis0, Planned(plan.outputs), vis0.snapshot.entries.Keys, claimed, changes, entries,
                  if o == Done then |changes| else 0, ledger0, ledger);
      PriorsLost(p.changes, vis0.snapshot.entries, if o == Done then |p.changes| else 0, ledger0, ledger);
    }

    method SubmitRetirement(p: Pending) returns (o: Outcome)
      requires vis.dirs == {} && WellFormed(p) && Follows(p, vis.snapshot)
      requires forall i :: 0 <= i < |p.changes| ==> p.changes[i].after.None?
      requires quiet ==> TransfersHold(vis.outputs, p.changes) && Guards(vis.outputs, p.changes)
      modifies this`vis, this`dur, this`steps, this`ledger, this`turn
      ensures (o == Killed ==> steps == 0) && old(Reserve()) <= Reserve() + 2 * |p.changes| + 11
      ensures vis.plan == old(vis).plan
      ensures BookedAll(p.changes, if o == Done then |p.changes| else 0, old(ledger), ledger)
      ensures Extends(old(ledger), ledger) && (quiet ==> ledger.edits == old(ledger.edits))
      ensures old(Kept()) ==> Kept()
      ensures old(Owning(vis, ledger.owned)) ==> Owning(vis, ledger.owned)
      ensures quiet && old(Cleanable(dur, vis)) ==>
                && (old(Owning(dur, ledger.owned) && Owning(vis, ledger.owned)) ==> Owning(dur, ledger.owned))
                && o != Failed && Safe(dur, vis)
                && (Logical(vis) == old(Logical(vis)) || Logical(vis) == old(Rolled(vis, p)))
                && (Logical(dur) == old(Logical(vis)) || Logical(dur) == Logical(vis))
                && (o == Done ==> Cleanable(dur, vis) && Logical(vis) == old(Rolled(vis, p)))
    {
      hide Safe, Logical, Rolled, Cleanable, Clutter, Owning, Accounted, BookedAll, Submittable, Replays, TransfersHold, Guards,
           DistinctPaths, TransfersUntouched;
      ghost var clean := quiet && Cleanable(dur, vis);
      ghost var before := vis;
      if clean { CleanableLogical(dur, vis); }
      BookedNone(p.changes, ledger);
      var t;
      o, t := NewTransaction();
      if clean { CleanFacts(dur, vis, ledger.owned); }
      if o != Done { return; }
      RolledSame(before, vis, p);
      if clean { RetirementSubmittable(dur, vis, t, p); }
      o := Submit(t, p);
    }

    /** _reconcile_locked: recover, retire what the plan no longer names, then record the plan.
        `recovered` is the disk the retirement was decided on. */
    method Reconcile(plan: Plan) returns (o: Outcome, ghost recovered: Disk)
      requires ValidPlan(plan)
      modifies this`vis, this`dur, this`steps, this`ledger, this`turn
      ensures o == Killed ==> steps == 0 && old(steps) <= Work(old(vis), EntryCount(old(vis)))
      ensures forall x :: x in ledger.lost - old(ledger.lost) ==> Recorded(old(vis), x.1)
      ensures forall q :: q in old(ledger.owned) - ledger.owned ==> GivenUp(old(vis), q) || q !in Planned(plan.outputs)
      ensures Extends(old(ledger), ledger) && (quiet ==> ledger.edits == old(ledger.edits))
      ensures old(Kept()) ==> Kept()
      ensures old(Owning(vis, ledger.owned)) ==> Owning(vis, ledger.owned)
      ensures o == Done ==> vis.plan == dur.plan == Some(plan)
      ensures quiet && old(Safe(dur, vis)) ==>
                && (old(Owning(dur, ledger.owned) && Owning(vis, ledger.owned)) ==> Owning(dur, ledger.owned))
                && Safe(dur, vis)
                && (Logical(vis) == old(Logical(vis)) ||
                    (RecoveredFrom(recovered, old(vis)) && Retirement.Reconciled(old(Logical(vis)), recovered, plan, Logical(vis))))
                && (Logical(dur) == old(Logical(vis)) || Logical(dur) == Logical(vis) ||
                    (Logical(dur) == old(Logical(dur)) && Logical(vis) == old(Logical(vis))))
                && (o != Killed ==> && RecoveredFrom(recovered, old(vis))
                                    && (o == Failed <==> Retirement.Ambiguous(recovered, Planned(plan.outputs))))
                && (o == Failed ==> Logical(vis) == old(Logical(vis)))
                && (o == Done ==> && Retirement.Reconciled(old(Logical(vis)), recovered, plan, Logical(vis))
                                  && Logical(dur) == Logical(vis) == Committed(Contents(vis.outputs), vis.snapshot))
    {
      hide Safe, Logical, Cleanable, Clutter, Owning, Accounted, GivenUp, Recorded, RecoveredFrom, Retirement.Ambiguous,
           Retirement.Retired, ValidPlan, Planned, Contents, Unfinished, EntryCount, Active;
      ghost var safe := quiet && Safe(dur, vis);
      recovered := vis;
      o := Recover();
      if o != Done { return; }
      if safe { CleanableLogical(dur, vis); }
      recovered := vis;
      ghost var ledger1 := ledger;
      o := RetireUnplanned(plan);
      EntriesAreRecorded(old(vis), recovered.snapshot, ledger1, ledger);
      if o != Done { return; }
      if safe { CleanableLogical(dur, vis); }
      ghost var vis1 := vis;
      o := RecordPlan(plan);
      if safe { CleanFacts(dur, vis, ledger.owned); }
      if Owning(vis1, ledger.owned) { SameNames(vis1, vis, ledger.owned); }
    }

    method RecordPlan(plan: Plan) returns (o: Outcome)
      modifies this`vis, this`dur, this`steps
      ensures o != Failed && (o == Killed ==> steps == 0) && old(Reserve()) <= Reserve() + 2
      ensures o == (if old(steps) >= 2 then Done else Killed) && (old(steps) == 0 ==> vis == old(vis) && dur == old(dur))
      ensures vis == old(vis).(plan := vis.plan)
      ensures o == Done ==> vis.plan == dur.plan == Some(plan)
      ensures old(Cleanable(dur, vis)) ==>
                Cleanable(dur, vis) && Logical(dur) == Logical(vis) == old(Logical(vis)) == Committed(Contents(vis.outputs), vis.snapshot)
    {
      hide Cleanable, Logical, Safe, Contents;
      ghost var vis0, dur0 := vis, dur;
      if Cleanable(dur0, vis0) { CleanableLogical(dur0, vis0); }
      var alive := Alive();
      if !alive { return Killed; }
      vis := vis.(plan := Some(plan));
      if Cleanable(dur0, vis0) { CleanStep(dur0, vis0, dur, vis); }
      o := Sync(dur.(plan := vis.plan, snapshot := vis.snapshot));
      if Cleanable(dur0, vis0) { CleanStep(dur0, vis0, dur, vis); }
    }

    /** Power loss keeps or loses every unsynchronised entry on its own. */
    method PowerLoss(m: Disk)
      requires Mix(m, dur, vis)
      modifies this`vis, this`dur, this`ledger
      ensures vis == dur == m
      ensures ledger == Reverting(old(ledger), m.outputs)
      ensures OnlyEdited(old(ledger), ledger)
      ensures old(Kept()) ==> Kept()
      ensures forall owned :: old(Safe(dur, vis)) && Owning(old(dur), owned) && Owning(old(vis), owned) ==> Owning(vis, owned)
      ensures old(Safe(dur, vis)) ==> Safe(dur, vis) && (Logical(vis) == old(Logical(dur)) || Logical(vis) == old(Logical(vis)))
    {
      if Safe(dur, vis) { PowerLossIsAtomic(m, dur, vis); }
      forall owned | Safe(dur, vis) && Owning(dur, owned) && Owning(vis, owned) ensures Owning(m, owned) {
        MixNames(m, dur, vis, owned);
      }
      if Kept() { RevertingAccounted(ledger, vis.outputs, m.outputs); }
      ledger := Reverting(ledger, m.outputs);
      vis, dur := m, m;
    }
  }
}
