/** The durable state of one claimed output root and the meaning of its write-ahead transactions.

    Digests stand for file contents (the hash is taken to be injective).  A `Disk` holds every
    directory entry the protocol relies on; power loss may keep or lose each unsynchronised
    entry independently, which is what `Mix` says. */
module OutputModel {
  import opened Options

  type Path = string
  type Target = string
  type Digest = nat
  type TxId = nat

  datatype File = File(inode: nat, digest: Digest)
  datatype Entry = Entry(sha256: Digest, target: Target)
  datatype Snapshot = Snapshot(token: nat, entries: map<Path, Entry>, generation: nat)
  datatype PlanOutput = PlanOutput(target: Target, path: Path)
  datatype Plan = Plan(outputs: seq<PlanOutput>)
  datatype Transfer = Transfer(inode: nat, path: Path)

  /** One entry of pending.json: a publication (`after.Some?`) or a retirement (`after.None?`). */
  datatype Change = Change(path: Path, before: Option<Digest>, after: Option<Digest>,
                           payload: Option<nat>, target: Target, transfer: Option<Transfer>)

  datatype Pending = Pending(base: nat, changes: seq<Change>, newSnapshot: Snapshot, plan: Plan)

  datatype Disk = Disk(outputs: map<Path, File>, snapshot: Snapshot, plan: Option<Plan>,
                       dirs: set<TxId>, pending: map<TxId, Pending>, payloads: map<(TxId, nat), Digest>)

  /** What a reader of the output root is promised: file contents and the committed snapshot. */
  datatype Committed = Committed(contents: map<Path, Digest>, snapshot: Snapshot)

  /** Plan.read and Plan.from_payload reject a plan that repeats a path. */
  predicate ValidPlan(plan: Plan) {
    forall i, j :: 0 <= i < j < |plan.outputs| ==> plan.outputs[i].path != plan.outputs[j].path
  }

  function Planned(outputs: seq<PlanOutput>): map<Path, Target> {
    if outputs == [] then map[]
    else Planned(outputs[..|outputs| - 1])[outputs[|outputs| - 1].path := outputs[|outputs| - 1].target]
  }

  lemma {:induction false} PlannedLookup(outputs: seq<PlanOutput>)
    requires ValidPlan(Plan(outputs))
    ensures forall i :: 0 <= i < |outputs| ==>
              outputs[i].path in Planned(outputs) && Planned(outputs)[outputs[i].path] == outputs[i].target
    ensures forall p :: p in Planned(outputs) ==> exists i :: 0 <= i < |outputs| && outputs[i].path == p
  {
    if outputs != [] {
      var n := |outputs| - 1;
      var init := outputs[..n];
      forall i, j | 0 <= i < j < |init| ensures init[i].path != init[j].path {
        assert outputs[i].path != outputs[j].path;
      }
      PlannedLookup(init);
      forall i | 0 <= i < |outputs|
        ensures outputs[i].path in Planned(outputs) && Planned(outputs)[outputs[i].path] == outputs[i].target
      {
        if i < n { assert init[i] == outputs[i]; }
      }
      forall p | p in Planned(outputs) ensures exists i :: 0 <= i < |outputs| && outputs[i].path == p {
        if p in Planned(init) {
          var i :| 0 <= i < |init| && init[i].path == p;
          assert outputs[i].path == p;
        } else {
          assert outputs[n].path == p;
        }
      }
    }
  }

  // ---------------------------------------------------------------- meaning of a transaction

  ghost predicate DistinctPaths(changes: seq<Change>) {
    forall i, j :: 0 <= i < j < |changes| ==> changes[i].path != changes[j].path
  }

  ghost predicate Touches(changes: seq<Change>, p: Path) {
    exists i :: 0 <= i < |changes| && changes[i].path == p
  }

  /** The final content each change leaves at its own path. */
  ghost function Delta(changes: seq<Change>): map<Path, Option<Digest>> {
    if changes == [] then map[]
    else Delta(changes[..|changes| - 1])[changes[|changes| - 1].path := changes[|changes| - 1].after]
  }

  function Contents(outputs: map<Path, File>): map<Path, Digest> {
    map p | p in outputs :: outputs[p].digest
  }

  /** The contents after the whole transaction; it reads nothing at the paths it decides. */
  ghost function Effect(contents: map<Path, Digest>, delta: map<Path, Option<Digest>>): map<Path, Digest> {
    map p | p in contents.Keys + delta.Keys && (p in delta ==> delta[p].Some?)
      :: if p in delta then delta[p].value else contents[p]
  }

  lemma {:induction false} DeltaLookup(changes: seq<Change>)
    ensures forall p :: p in Delta(changes) <==> Touches(changes, p)
    ensures DistinctPaths(changes) ==>
              forall i :: 0 <= i < |changes| ==>
                changes[i].path in Delta(changes) && Delta(changes)[changes[i].path] == changes[i].after
  {
    if changes != [] {
      var n := |changes| - 1;
      var init := changes[..n];
      DeltaLookup(init);
      forall p ensures p in Delta(changes) <==> Touches(changes, p) {
        if Touches(init, p) {
          var i :| 0 <= i < |init| && init[i].path == p;
          assert changes[i].path == p;
        }
        if Touches(changes, p) && p != changes[n].path {
          var i :| 0 <= i < |changes| && changes[i].path == p;
          assert init[i].path == p;
        }
      }
      if DistinctPaths(changes) {
        forall i, j | 0 <= i < j < |init| ensures init[i].path != init[j].path {
          assert changes[i].path != changes[j].path;
        }
        forall i | 0 <= i < |changes|
          ensures changes[i].path in Delta(changes) && Delta(changes)[changes[i].path] == changes[i].after
        {
          if i < n { assert init[i] == changes[i]; }
        }
      }
    }
  }

  /** Outputs that agree away from the touched paths recover to the same contents. */
  ghost predicate AgreeUntouched(a: map<Path, File>, b: map<Path, File>, changes: seq<Change>) {
    forall p :: !Touches(changes, p) ==> At(a, p) == At(b, p)
  }

  lemma EffectIgnoresTouched(a: map<Path, File>, b: map<Path, File>, changes: seq<Change>)
    requires AgreeUntouched(a, b, changes)
    ensures Effect(Contents(a), Delta(changes)) == Effect(Contents(b), Delta(changes))
  {
    DeltaLookup(changes);
    var x, y := Effect(Contents(a), Delta(changes)), Effect(Contents(b), Delta(changes));
    forall p ensures p in x <==> p in y
    ensures p in x ==> x[p] == y[p]
    {
      if !Touches(changes, p) { assert At(a, p) == At(b, p); }
    }
  }

  /** Every path already holds what its change leaves there. */
  ghost predicate Settled(outputs: map<Path, File>, changes: seq<Change>) {
    forall i :: 0 <= i < |changes| ==> DoneAt(outputs, changes[i])
  }

  ghost predicate DoneAt(outputs: map<Path, File>, c: Change) {
    match c.after
    case None => c.path !in outputs
    case Some(d) => c.path in outputs && outputs[c.path].digest == d
  }

  lemma SettledIsEffect(outputs: map<Path, File>, changes: seq<Change>)
    requires DistinctPaths(changes) && Settled(outputs, changes)
    ensures Effect(Contents(outputs), Delta(changes)) == Contents(outputs)
  {
    DeltaLookup(changes);
    var x := Effect(Contents(outputs), Delta(changes));
    forall p ensures p in x <==> p in Contents(outputs)
    ensures p in x ==> x[p] == Contents(outputs)[p]
    {
      if Touches(changes, p) {
        var i :| 0 <= i < |changes| && changes[i].path == p;
        assert DoneAt(outputs, changes[i]);
      }
    }
  }

  // ---------------------------------------------------------------- what _apply_pending checks

  /** The checks on one change that read only the plan and the entries recomputed so far. */
  predicate ChangeAccepted(planned: map<Path, Target>, expected: map<Path, Entry>, seen: set<Path>,
                           c: Change, index: nat)
  {
    && c.path !in seen
    && match c.before {
         case None => c.path !in expected
         case Some(b) => c.path in expected && expected[c.path].sha256 == b
       }
    && match c.after {
         case None =>
           && c.payload.None?
           && c.path !in planned
           && match c.transfer {
                case Some(tr) =>
                  && c.path in expected
                  && (tr.path == c.path || tr.path !in expected)
                  && tr.path in planned && planned[tr.path] == c.target
                case None => c.path in expected ==> expected[c.path].target == c.target
              }
         case Some(a) =>
           && c.transfer.None?
           && c.path in planned && planned[c.path] == c.target
           && c.payload == Some(index)
       }
  }

  /** The recomputed entries after one change. */
  function Absorb(expected: map<Path, Entry>, c: Change): (r: map<Path, Entry>)
    requires c.transfer.Some? ==> c.before.Some?
  {
    var rest := expected - {c.path};
    if c.after.Some? then rest[c.path := Entry(c.after.value, c.target)]
    else if c.transfer.Some? then rest[c.transfer.value.path := Entry(c.before.value, c.target)]
    else rest
  }

  /** All changes from `i` on pass, and the entries they recompute are `goal`. */
  ghost predicate Replays(planned: map<Path, Target>, expected: map<Path, Entry>, seen: set<Path>,
                          changes: seq<Change>, i: nat, goal: map<Path, Entry>)
    requires i <= |changes|
    decreases |changes| - i
  {
    if i == |changes| then expected == goal
    else
      && ChangeAccepted(planned, expected, seen, changes[i], i)
      && Replays(planned, Absorb(expected, changes[i]), seen + {changes[i].path}, changes, i + 1, goal)
  }

  ghost predicate PayloadsPresent(d: Disk, t: TxId, changes: seq<Change>) {
    forall i :: 0 <= i < |changes| && changes[i].after.Some? ==> At(d.payloads, (t, i)) == changes[i].after
  }

  /** The destination of an ownership transfer is still the recorded file with the prior bytes. */
  predicate TransferHolds(outputs: map<Path, File>, c: Change) {
    c.after.None? && c.transfer.Some? ==>
      && c.transfer.value.path in outputs
      && outputs[c.transfer.value.path].inode == c.transfer.value.inode
      && Some(outputs[c.transfer.value.path].digest) == c.before
  }

  ghost predicate TransfersHold(outputs: map<Path, File>, changes: seq<Change>) {
    forall i :: 0 <= i < |changes| ==> TransferHolds(outputs, changes[i])
  }

  /** The guard of _publish_one and _delete_if_state: the file is absent, or is what the change expects. */
  predicate Guard(outputs: map<Path, File>, c: Change) {
    c.path in outputs ==>
      || Some(outputs[c.path].digest) == c.before
      || Some(outputs[c.path].digest) == c.after
  }

  ghost predicate Guards(outputs: map<Path, File>, changes: seq<Change>) {
    forall i :: 0 <= i < |changes| ==> Guard(outputs, changes[i])
  }

  ghost predicate TransfersUntouched(changes: seq<Change>) {
    forall i :: 0 <= i < |changes| && changes[i].transfer.Some? ==>
      !Touches(changes, changes[i].transfer.value.path)
  }

  /** A pending record whose changes lead from snapshot `s` to its own replacement snapshot. */
  ghost predicate Follows(p: Pending, s: Snapshot) {
    && s.generation == p.base
    && s.token == p.newSnapshot.token
    && Replays(Planned(p.plan.outputs), s.entries, {}, p.changes, 0, p.newSnapshot.entries)
  }

  ghost predicate WellFormed(p: Pending) {
    && p.newSnapshot.generation == p.base + 1
    && ValidPlan(p.plan)
    && DistinctPaths(p.changes)
    && TransfersUntouched(p.changes)
  }

  // ---------------------------------------------------------------- abstraction and recoverability

  ghost predicate Active(d: Disk, t: TxId) {
    t in d.dirs && t in d.pending
  }

  /** The transaction can still be rolled forward from `d`. */
  ghost predicate Resumable(d: Disk, t: TxId, p: Pending) {
    && Follows(p, d.snapshot)
    && PayloadsPresent(d, t, p.changes)
    && TransfersHold(d.outputs, p.changes)
    && Guards(d.outputs, p.changes)
  }

  ghost predicate Recoverable(d: Disk) {
    && (forall t, u :: Active(d, t) && Active(d, u) ==> t == u)
    && (forall t :: Active(d, t) ==>
          && WellFormed(d.pending[t])
          && (d.snapshot == d.pending[t].newSnapshot || Resumable(d, t, d.pending[t])))
  }

  /** The state recovery must produce from `d`: rolled forward exactly when intent is visible. */
  ghost function Logical(d: Disk): Committed {
    if exists t :: Active(d, t) && d.snapshot != d.pending[t].newSnapshot then
      var t :| Active(d, t) && d.snapshot != d.pending[t].newSnapshot;
      Rolled(d, d.pending[t])
    else Committed(Contents(d.outputs), d.snapshot)
  }

  ghost function Rolled(d: Disk, p: Pending): Committed {
    Committed(Effect(Contents(d.outputs), Delta(p.changes)), p.newSnapshot)
  }

  /** `m` keeps, entry by entry, either the durable or the visible value. */
  ghost predicate Mix(m: Disk, dur: Disk, vis: Disk) {
    && (m.snapshot == dur.snapshot || m.snapshot == vis.snapshot)
    && (m.plan == dur.plan || m.plan == vis.plan)
    && (forall p :: At(m.outputs, p) == At(dur.outputs, p) || At(m.outputs, p) == At(vis.outputs, p))
    && (forall t :: (t in m.dirs) == (t in dur.dirs) || (t in m.dirs) == (t in vis.dirs))
    && (forall t :: At(m.pending, t) == At(dur.pending, t) || At(m.pending, t) == At(vis.pending, t))
    && (forall k :: At(m.payloads, k) == At(dur.payloads, k) || At(m.payloads, k) == At(vis.payloads, k))
  }

  predicate KeepsEach<K(!new, ==), V(==)>(m: map<K, V>, dur: map<K, V>, vis: map<K, V>) {
    && m.Keys <= dur.Keys + vis.Keys
    && forall k :: k in dur.Keys + vis.Keys ==> At(m, k) == At(dur, k) || At(m, k) == At(vis, k)
  }

  /** `Mix`, decided by looking at finitely many entries. */
  predicate IsMix(m: Disk, dur: Disk, vis: Disk)
    ensures IsMix(m, dur, vis) <==> Mix(m, dur, vis)
  {
    assert Mix(m, dur, vis) ==> m.outputs.Keys <= dur.outputs.Keys + vis.outputs.Keys by {
      if Mix(m, dur, vis) {
        forall p | p in m.outputs ensures p in dur.outputs.Keys + vis.outputs.Keys { assert At(m.outputs, p).Some?; }
      }
    }
    assert Mix(m, dur, vis) ==> m.pending.Keys <= dur.pending.Keys + vis.pending.Keys by {
      if Mix(m, dur, vis) {
        forall t | t in m.pending ensures t in dur.pending.Keys + vis.pending.Keys { assert At(m.pending, t).Some?; }
      }
    }
    assert Mix(m, dur, vis) ==> m.payloads.Keys <= dur.payloads.Keys + vis.payloads.Keys by {
      if Mix(m, dur, vis) {
        forall k | k in m.payloads ensures k in dur.payloads.Keys + vis.payloads.Keys { assert At(m.payloads, k).Some?; }
      }
    }
    && (m.snapshot == dur.snapshot || m.snapshot == vis.snapshot)
    && (m.plan == dur.plan || m.plan == vis.plan)
    && dur.dirs * vis.dirs <= m.dirs <= dur.dirs + vis.dirs
    && KeepsEach(m.outputs, dur.outputs, vis.outputs)
    && KeepsEach(m.pending, dur.pending, vis.pending)
    && KeepsEach(m.payloads, dur.payloads, vis.payloads)
  }

  /** A transaction some mixture could find active, with its record. */
  ghost predicate Possible(dur: Disk, vis: Disk, t: TxId, p: Pending) {
    && (t in dur.dirs || t in vis.dirs)
    && (At(dur.pending, t) == Some(p) || At(vis.pending, t) == Some(p))
  }

  /** No change of this transaction has reached the durable or the visible snapshot and outputs may differ
      only where the durable intent already decides them. */
  ghost predicate InFlight(dur: Disk, vis: Disk, t: TxId, p: Pending) {
    && t in dur.dirs && Active(vis, t) && vis.pending[t] == p
    && Resumable(dur, t, p)
    && PayloadsPresent(vis, t, p.changes)
    && TransfersHold(vis.outputs, p.changes)
    && Guards(vis.outputs, p.changes)
    && AgreeUntouched(dur.outputs, vis.outputs, p.changes)
    && (t !in dur.pending ==> vis.outputs == dur.outputs && vis.snapshot == dur.snapshot)
    && (t in dur.pending ==> dur.pending[t] == p)
    && (vis.snapshot == dur.snapshot ||
        (vis.snapshot == p.newSnapshot && vis.outputs == dur.outputs && Settled(vis.outputs, p.changes)))
  }

  ghost predicate Finished(dur: Disk, vis: Disk, p: Pending) {
    vis.snapshot == dur.snapshot == p.newSnapshot && vis.outputs == dur.outputs
  }

  /** The invariant of the protocol over the durable and the visible disk. */
  ghost predicate Safe(dur: Disk, vis: Disk) {
    && (forall t, p, u, q :: Possible(dur, vis, t, p) && Possible(dur, vis, u, q) ==> t == u && p == q)
    && (forall t, p :: Possible(dur, vis, t, p) ==>
          WellFormed(p) && (Finished(dur, vis, p) || InFlight(dur, vis, t, p)))
    && ((forall t, p :: !Possible(dur, vis, t, p)) ==> vis.snapshot == dur.snapshot && vis.outputs == dur.outputs)
  }

  lemma SameOutputs(a: map<Path, File>, b: map<Path, File>)
    requires forall p :: At(a, p) == At(b, p)
    ensures a == b
  {
    forall p ensures p in a <==> p in b
    ensures p in a ==> a[p] == b[p]
    {
      assert At(a, p) == At(b, p);
    }
  }

  /** Power loss at any point leaves a disk that recovery can finish, and it finishes in the durable
      or in the visible logical state: there is no third outcome. */
  lemma PowerLossIsAtomic(m: Disk, dur: Disk, vis: Disk)
    requires Safe(dur, vis) && Mix(m, dur, vis)
    ensures Safe(m, m) && Recoverable(m)
    ensures Logical(m) == Logical(dur) || Logical(m) == Logical(vis)
  {
    forall t, p | Possible(m, m, t, p) ensures Possible(dur, vis, t, p) {
      assert At(m.pending, t) == At(dur.pending, t) || At(m.pending, t) == At(vis.pending, t);
    }
    if t, p :| Possible(dur, vis, t, p) {
      MixOne(m, dur, vis, t, p);
    } else {
      forall q ensures At(m.outputs, q) == At(dur.outputs, q) {}
      SameOutputs(m.outputs, dur.outputs);
      forall t ensures !Active(m, t) && !Active(dur, t) && !Active(vis, t) {
        if Active(m, t) { assert Possible(m, m, t, m.pending[t]); }
        if Active(dur, t) { assert Possible(dur, vis, t, dur.pending[t]); }
        if Active(vis, t) { assert Possible(dur, vis, t, vis.pending[t]); }
      }
    }
  }

  /** Synchronising any entries at any moment is safe, and moves the durable state at most forward. */
  lemma SyncIsSafe(m: Disk, dur: Disk, vis: Disk)
    requires Safe(dur, vis) && Mix(m, dur, vis)
    ensures Safe(m, vis)
    ensures Logical(m) == Logical(dur) || Logical(m) == Logical(vis)
  {
    hide Logical, WellFormed, Rolled, Resumable;
    PowerLossIsAtomic(m, dur, vis);
    forall t, p | Possible(m, vis, t, p) ensures Possible(dur, vis, t, p) {
      assert At(m.pending, t) == At(dur.pending, t) || At(m.pending, t) == At(vis.pending, t);
    }
    if t, p :| Possible(dur, vis, t, p) {
      if InFlight(dur, vis, t, p) {
        MixResumable(m, dur, vis, t, p);
        assert Possible(m, vis, t, p);
      }
    }
    if vis.outputs == dur.outputs {
      forall q ensures At(m.outputs, q) == At(vis.outputs, q) {}
      SameOutputs(m.outputs, vis.outputs);
    }
  }

  lemma OnlyOne(d: Disk, dur: Disk, vis: Disk, t: TxId, p: Pending)
    requires Safe(dur, vis) && Possible(dur, vis, t, p)
    requires forall u, q :: Possible(d, d, u, q) ==> Possible(dur, vis, u, q)
    ensures forall u :: Active(d, u) ==> u == t && d.pending[u] == p
  {
    forall u | Active(d, u) ensures u == t && d.pending[u] == p {
      assert Possible(d, d, u, d.pending[u]);
    }
  }

  lemma LogicalOf(d: Disk, t: TxId, p: Pending)
    requires forall u :: Active(d, u) ==> u == t && d.pending[u] == p
    ensures Logical(d) == if Active(d, t) && d.snapshot != p.newSnapshot then Rolled(d, p)
                          else Committed(Contents(d.outputs), d.snapshot)
  {
  }

  lemma MixOne(m: Disk, dur: Disk, vis: Disk, t: TxId, p: Pending)
    requires Safe(dur, vis) && Mix(m, dur, vis) && Possible(dur, vis, t, p)
    requires forall u, q :: Possible(m, m, u, q) ==> Possible(dur, vis, u, q)
    ensures Safe(m, m) && Recoverable(m)
    ensures Logical(m) == Logical(dur) || Logical(m) == Logical(vis)
  {
    OnlyOne(m, dur, vis, t, p);
    OnlyOne(dur, dur, vis, t, p);
    OnlyOne(vis, dur, vis, t, p);
    LogicalOf(m, t, p);
    LogicalOf(dur, t, p);
    LogicalOf(vis, t, p);
    if Finished(dur, vis, p) {
      forall q ensures At(m.outputs, q) == At(dur.outputs, q) {}
      SameOutputs(m.outputs, dur.outputs);
    } else {
      MixInFlight(m, dur, vis, t, p);
    }
  }

  lemma MixInFlight(m: Disk, dur: Disk, vis: Disk, t: TxId, p: Pending)
    requires WellFormed(p) && InFlight(dur, vis, t, p) && Mix(m, dur, vis)
    requires forall u, q :: Possible(m, m, u, q) ==> u == t && q == p
    requires Logical(m) == if Active(m, t) && m.snapshot != p.newSnapshot then Rolled(m, p)
                           else Committed(Contents(m.outputs), m.snapshot)
    requires Logical(dur) == if Active(dur, t) && dur.snapshot != p.newSnapshot then Rolled(dur, p)
                             else Committed(Contents(dur.outputs), dur.snapshot)
    requires Logical(vis) == if Active(vis, t) && vis.snapshot != p.newSnapshot then Rolled(vis, p)
                             else Committed(Contents(vis.outputs), vis.snapshot)
    ensures Safe(m, m) && Recoverable(m)
    ensures Logical(m) == Logical(dur) || Logical(m) == Logical(vis)
  {
    MixResumable(m, dur, vis, t, p);
    EffectIgnoresTouched(m.outputs, vis.outputs, p.changes);
    if Settled(vis.outputs, p.changes) {
      SettledIsEffect(vis.outputs, p.changes);
    }
    forall u | Active(m, u) ensures u == t && m.pending[u] == p {
      assert Possible(m, m, u, m.pending[u]);
    }
    if Active(m, t) {
      assert m.snapshot == p.newSnapshot || Resumable(m, t, p);
      assert Finished(m, m, p) || InFlight(m, m, t, p);
    } else {
      assert At(m.pending, t) == None && At(vis.pending, t) == Some(p);
      assert At(dur.pending, t) == None;
    }
  }

  lemma MixResumable(m: Disk, dur: Disk, vis: Disk, t: TxId, p: Pending)
    requires WellFormed(p) && InFlight(dur, vis, t, p) && Mix(m, dur, vis)
    ensures AgreeUntouched(m.outputs, vis.outputs, p.changes)
    ensures vis.outputs == dur.outputs ==> m.outputs == dur.outputs
    ensures PayloadsPresent(m, t, p.changes) && TransfersHold(m.outputs, p.changes) && Guards(m.outputs, p.changes)
    ensures m.snapshot == dur.snapshot ==> Resumable(m, t, p)
  {
    forall q | !Touches(p.changes, q) ensures At(m.outputs, q) == At(vis.outputs, q) {}
    if vis.outputs == dur.outputs {
      forall q ensures At(m.outputs, q) == At(dur.outputs, q) {}
      SameOutputs(m.outputs, dur.outputs);
    }
    forall i | 0 <= i < |p.changes| ensures Guard(m.outputs, p.changes[i]) && TransferHolds(m.outputs, p.changes[i]) {
      var q := p.changes[i].path;
      assert Guard(dur.outputs, p.changes[i]) && Guard(vis.outputs, p.changes[i]);
      assert At(m.outputs, q) == At(dur.outputs, q) || At(m.outputs, q) == At(vis.outputs, q);
      assert TransferHolds(vis.outputs, p.changes[i]);
      if p.changes[i].transfer.Some? {
        var r := p.changes[i].transfer.value.path;
        assert At(m.outputs, r) == At(vis.outputs, r);
      }
    }
    forall i | 0 <= i < |p.changes| && p.changes[i].after.Some?
      ensures At(m.payloads, (t, i)) == p.changes[i].after
    {
      assert At(m.payloads, (t, i)) == At(dur.payloads, (t, i)) || At(m.payloads, (t, i)) == At(vis.payloads, (t, i));
    }
  }

  // ---------------------------------------------------------------- one durable step at a time

  function Put<K(!new), V>(m: map<K, V>, k: K, v: Option<V>): (r: map<K, V>)
    ensures At(r, k) == v && forall j :: j != k ==> At(r, j) == At(m, j)
  {
    match v
    case None => m - {k}
    case Some(x) => m[k := x]
  }

  function SetOutput(d: Disk, q: Path, f: Option<File>): Disk {
    d.(outputs := Put(d.outputs, q, f))
  }

  ghost predicate Exclusive(dur: Disk, vis: Disk, t: TxId, p: Pending) {
    forall u, q :: Possible(dur, vis, u, q) ==> u == t && q == p
  }

  /** The change is in place and synchronised. */
  ghost predicate Landed(dur: Disk, vis: Disk, c: Change) {
    DoneAt(vis.outputs, c) && At(dur.outputs, c.path) == At(vis.outputs, c.path)
  }

  /** Intent is durable, the snapshot is not replaced, and the first `k` changes are durably in place. */
  ghost predicate Rolling(dur: Disk, vis: Disk, t: TxId, p: Pending, k: nat)
    requires k <= |p.changes|
  {
    && Exclusive(dur, vis, t, p) && WellFormed(p) && InFlight(dur, vis, t, p)
    && t in dur.pending && vis.snapshot == dur.snapshot
    && (forall j :: 0 <= j < k ==> Landed(dur, vis, p.changes[j]))
  }

  lemma RollingIsSafe(dur: Disk, vis: Disk, t: TxId, p: Pending, k: nat)
    requires k <= |p.changes| && Rolling(dur, vis, t, p, k)
    ensures Safe(dur, vis) && Logical(vis) == Logical(dur) == Rolled(vis, p)
  {
    assert Possible(dur, vis, t, p);
    forall u | Active(vis, u) || Active(dur, u) ensures u == t {
      if Active(vis, u) { assert Possible(dur, vis, u, vis.pending[u]); }
      if Active(dur, u) { assert Possible(dur, vis, u, dur.pending[u]); }
    }
    assert vis.snapshot != p.newSnapshot;
    LogicalOf(vis, t, p);
    LogicalOf(dur, t, p);
    EffectIgnoresTouched(dur.outputs, vis.outputs, p.changes);
  }

  ghost predicate OutputStep(a: Disk, b: Disk, c: Change) {
    && b == a.(outputs := b.outputs)
    && (forall q :: q != c.path ==> At(b.outputs, q) == At(a.outputs, q))
    && Guard(b.outputs, c)
  }

  lemma StepPreserves(a: Disk, b: Disk, t: TxId, p: Pending, k: nat)
    requires k < |p.changes| && WellFormed(p) && OutputStep(a, b, p.changes[k])
    requires TransfersHold(a.outputs, p.changes) && Guards(a.outputs, p.changes)
    ensures TransfersHold(b.outputs, p.changes) && Guards(b.outputs, p.changes)
    ensures AgreeUntouched(a.outputs, b.outputs, p.changes)
    ensures forall j :: 0 <= j < |p.changes| && j != k ==> At(b.outputs, p.changes[j].path) == At(a.outputs, p.changes[j].path)
  {
    var c := p.changes[k];
    forall j | 0 <= j < |p.changes|
      ensures Guard(b.outputs, p.changes[j]) && TransferHolds(b.outputs, p.changes[j])
      ensures j != k ==> At(b.outputs, p.changes[j].path) == At(a.outputs, p.changes[j].path)
    {
      assert Guard(a.outputs, p.changes[j]) && TransferHolds(a.outputs, p.changes[j]);
      if j != k {
        assert p.changes[j].path != c.path;
        assert At(b.outputs, p.changes[j].path) == At(a.outputs, p.changes[j].path);
      }
      if p.changes[j].transfer.Some? {
        assert !Touches(p.changes, p.changes[j].transfer.value.path);
        assert At(b.outputs, p.changes[j].transfer.value.path) == At(a.outputs, p.changes[j].transfer.value.path);
      }
    }
    forall q | !Touches(p.changes, q) ensures At(a.outputs, q) == At(b.outputs, q) {}
  }

  lemma RollingStep(dur: Disk, vis: Disk, dur': Disk, vis': Disk, t: TxId, p: Pending, k: nat)
    requires k < |p.changes| && Rolling(dur, vis, t, p, k)
    requires OutputStep(vis, vis', p.changes[k]) && OutputStep(dur, dur', p.changes[k])
    ensures Rolling(dur', vis', t, p, k)
    ensures Landed(dur', vis', p.changes[k]) ==> Rolling(dur', vis', t, p, k + 1)
    ensures Rolled(vis', p) == Rolled(vis, p)
  {
    StepPreserves(vis, vis', t, p, k);
    StepPreserves(dur, dur', t, p, k);
    EffectIgnoresTouched(vis.outputs, vis'.outputs, p.changes);
    forall u, q | Possible(dur', vis', u, q) ensures u == t && q == p {
      assert Possible(dur, vis, u, q);
    }
    forall j | 0 <= j < k ensures Landed(dur', vis', p.changes[j]) {
      assert Landed(dur, vis, p.changes[j]);
      assert At(vis'.outputs, p.changes[j].path) == At(vis.outputs, p.changes[j].path);
      assert At(dur'.outputs, p.changes[j].path) == At(dur.outputs, p.changes[j].path);
    }
  }

  lemma RollingGuard(dur: Disk, vis: Disk, t: TxId, p: Pending, k: nat)
    requires k < |p.changes| && Rolling(dur, vis, t, p, k)
    ensures OutputStep(vis, vis, p.changes[k]) && OutputStep(dur, dur, p.changes[k])
    ensures TransferHolds(vis.outputs, p.changes[k])
    ensures p.changes[k].after.Some? ==> At(vis.payloads, (t, k)) == p.changes[k].after
  {
  }

  /** Every transaction record still on disk, durable or visible, is already reflected everywhere. */
  ghost predicate Cleanable(dur: Disk, vis: Disk) {
    && Safe(dur, vis)
    && (forall t, p :: Possible(dur, vis, t, p) ==> Finished(dur, vis, p))
  }

  lemma CleanableLogical(dur: Disk, vis: Disk)
    requires Cleanable(dur, vis)
    ensures vis.outputs == dur.outputs && vis.snapshot == dur.snapshot
    ensures Logical(dur) == Logical(vis) == Committed(Contents(vis.outputs), vis.snapshot)
  {
    if t, p :| Possible(dur, vis, t, p) {
      OnlyOne(dur, dur, vis, t, p);
      OnlyOne(vis, dur, vis, t, p);
      LogicalOf(dur, t, p);
      LogicalOf(vis, t, p);
    } else {
      forall t ensures !Active(dur, t) && !Active(vis, t) {
        if Active(dur, t) { assert Possible(dur, vis, t, dur.pending[t]); }
        if Active(vis, t) { assert Possible(dur, vis, t, vis.pending[t]); }
      }
    }
  }

  lemma CleanStep(dur: Disk, vis: Disk, dur': Disk, vis': Disk)
    requires Cleanable(dur, vis)
    requires dur'.outputs == dur.outputs && vis'.outputs == vis.outputs
    requires dur'.snapshot == dur.snapshot && vis'.snapshot == vis.snapshot
    requires forall t, p :: Possible(dur', vis', t, p) ==> Possible(dur, vis, t, p)
    ensures Cleanable(dur', vis') && Logical(dur') == Logical(vis') == Logical(vis)
  {
    CleanableLogical(dur, vis);
    CleanableLogical(dur', vis');
  }

  /** With no record anywhere and the transaction directory durable, writing pending.json is the commit point. */
  lemma IntentWritten(dur: Disk, vis: Disk, vis': Disk, t: TxId, p: Pending)
    requires Cleanable(dur, vis) && (forall u, q :: !Possible(dur, vis, u, q))
    requires t in dur.dirs && t in vis.dirs && t !in dur.pending && vis' == vis.(pending := vis.pending[t := p])
    requires WellFormed(p) && Resumable(dur, t, p) && PayloadsPresent(vis, t, p.changes)
    ensures Exclusive(dur, vis', t, p) && InFlight(dur, vis', t, p) && Safe(dur, vis')
    ensures Logical(vis') == Rolled(vis, p) && Logical(dur) == Logical(vis)
  {
    CleanableLogical(dur, vis);
    assert forall u, q :: Possible(dur, vis', u, q) && u != t ==> Possible(dur, vis, u, q);
    assert Possible(dur, vis', t, p);
    OnlyOne(vis', dur, vis', t, p);
    LogicalOf(vis', t, p);
  }

  /** All outputs landed: the snapshot may be replaced, then synchronised. */
  lemma SnapshotReplaced(dur: Disk, vis: Disk, vis': Disk, t: TxId, p: Pending)
    requires Rolling(dur, vis, t, p, |p.changes|) && vis' == vis.(snapshot := p.newSnapshot)
    ensures Safe(dur, vis') && Exclusive(dur, vis', t, p) && InFlight(dur, vis', t, p)
    ensures Logical(vis') == Logical(dur) == Rolled(vis, p) == Committed(Contents(vis.outputs), p.newSnapshot)
  {
    RollingIsSafe(dur, vis, t, p, |p.changes|);
    forall q ensures At(dur.outputs, q) == At(vis.outputs, q) {
      if Touches(p.changes, q) {
        var i :| 0 <= i < |p.changes| && p.changes[i].path == q;
        assert Landed(dur, vis, p.changes[i]);
      }
    }
    SameOutputs(dur.outputs, vis.outputs);
    forall i | 0 <= i < |p.changes| ensures DoneAt(vis.outputs, p.changes[i]) {
      assert Landed(dur, vis, p.changes[i]);
    }
    SettledIsEffect(vis.outputs, p.changes);
    forall u, q | Possible(dur, vis', u, q) ensures u == t && q == p { assert Possible(dur, vis, u, q); }
    assert Possible(dur, vis', t, p);
    OnlyOne(vis', dur, vis', t, p);
    LogicalOf(vis', t, p);
  }

  lemma SnapshotSynced(dur: Disk, vis: Disk, dur': Disk, t: TxId, p: Pending)
    requires Exclusive(dur, vis, t, p) && WellFormed(p) && Active(vis, t) && vis.pending[t] == p
    requires vis.snapshot == p.newSnapshot && vis.outputs == dur.outputs
    requires dur' == dur.(snapshot := vis.snapshot, plan := vis.plan)
    ensures Cleanable(dur', vis)
  {
    forall u, q | Possible(dur', vis, u, q) ensures u == t && q == p { assert Possible(dur, vis, u, q); }
    assert Possible(dur', vis, t, p);
  }

  /** Accepted changes never repeat a path. */
  lemma {:induction false} AcceptedPathsDistinct(planned: map<Path, Target>, expected: map<Path, Entry>, seen: set<Path>,
                                                 changes: seq<Change>, i: nat, goal: map<Path, Entry>)
    requires i <= |changes| && Replays(planned, expected, seen, changes, i, goal)
    ensures forall j :: i <= j < |changes| ==> changes[j].path !in seen
    ensures forall j, k :: i <= j < k < |changes| ==> changes[j].path != changes[k].path
    decreases |changes| - i
  {
    if i < |changes| {
      AcceptedPathsDistinct(planned, Absorb(expected, changes[i]), seen + {changes[i].path}, changes, i + 1, goal);
    }
  }

  /** The prior hash of every accepted change is the one the committed snapshot records for that path. */
  lemma {:induction false} PriorHashIsCommitted(planned: map<Path, Target>, expected: map<Path, Entry>, seen: set<Path>,
                                                changes: seq<Change>, i: nat, goal: map<Path, Entry>)
    requires i <= |changes| && Replays(planned, expected, seen, changes, i, goal)
    requires DistinctPaths(changes) && TransfersUntouched(changes)
    ensures forall j :: i <= j < |changes| ==>
              match changes[j].before {
                case None => changes[j].path !in expected
                case Some(b) => changes[j].path in expected && expected[changes[j].path].sha256 == b
              }
    decreases |changes| - i
  {
    if i < |changes| {
      var c := changes[i];
      PriorHashIsCommitted(planned, Absorb(expected, c), seen + {c.path}, changes, i + 1, goal);
      forall j | i < j < |changes|
        ensures At(Absorb(expected, c), changes[j].path) == At(expected, changes[j].path)
      {
        assert changes[j].path != c.path;
        if c.transfer.Some? { assert !Touches(changes, c.transfer.value.path); }
      }
    }
  }

  /** The intent of `t` is durable, so it may be applied. */
  ghost predicate Ready(dur: Disk, vis: Disk, t: TxId, p: Pending) {
    Safe(dur, vis) && Active(vis, t) && vis.pending[t] == p && t in dur.pending
  }

  lemma ReadyCases(dur: Disk, vis: Disk, t: TxId, p: Pending)
    requires Ready(dur, vis, t, p)
    ensures Exclusive(dur, vis, t, p) && WellFormed(p)
    ensures vis.snapshot != p.newSnapshot ==> Rolling(dur, vis, t, p, 0)
    ensures vis.snapshot == p.newSnapshot ==> vis.outputs == dur.outputs
    ensures vis.snapshot.generation == p.newSnapshot.generation ==> vis.snapshot == p.newSnapshot
  {
    assert Possible(dur, vis, t, p);
  }

  lemma NothingActive(dur: Disk, vis: Disk)
    requires Safe(dur, vis) && forall t :: !Active(vis, t)
    ensures Cleanable(dur, vis)
  {
  }

  // ---------------------------------------------------------------- building a transaction

  lemma {:induction false} ReplaysAppend(planned: map<Path, Target>, expected: map<Path, Entry>, seen: set<Path>,
                                         changes: seq<Change>, i: nat, mid: map<Path, Entry>, c: Change)
    requires i <= |changes| && Replays(planned, expected, seen, changes, i, mid)
    requires forall j :: i <= j < |changes| ==> changes[j].path != c.path
    requires c.path !in seen && ChangeAccepted(planned, mid, {}, c, |changes|)
    ensures Replays(planned, expected, seen, changes + [c], i, Absorb(mid, c))
    decreases |changes| - i
  {
    if i < |changes| {
      assert (changes + [c])[i] == changes[i];
      ReplaysAppend(planned, Absorb(expected, changes[i]), seen + {changes[i].path}, changes, i + 1, mid, c);
    } else {
      var all := changes + [c];
      assert all[i] == c;
      assert Replays(planned, Absorb(mid, c), seen + {c.path}, all, i + 1, Absorb(mid, c));
    }
  }

  lemma FreshId(used: set<TxId>)
    ensures exists t: TxId :: t !in used
  {
    if used == {} {
      assert 0 !in used;
    } else {
      var bound := Bound(used);
      assert bound !in used;
    }
  }

  lemma {:induction false} Bound(used: set<TxId>) returns (bound: TxId)
    ensures forall t :: t in used ==> t < bound
  {
    bound := 0;
    var rest := used;
    while rest != {}
      invariant forall t :: t in used ==> t in rest || t < bound
      decreases rest
    {
      var t :| t in rest;
      rest := rest - {t};
      if bound <= t { bound := t + 1; }
    }
  }

  /** Some committed or pending record names exactly these bytes for this path. */
  ghost predicate Recorded(d: Disk, x: (Path, Digest)) {
    || (x.0 in d.snapshot.entries && d.snapshot.entries[x.0].sha256 == x.1)
    || exists t :: Active(d, t) && RecordedBy(d.pending[t], x)
  }

  ghost predicate PriorOf(changes: seq<Change>, x: (Path, Digest)) {
    exists i :: 0 <= i < |changes| && changes[i].path == x.0 && changes[i].before == Some(x.1)
  }

  /** Every prior hash is the one `entries` records for the path. */
  ghost predicate PriorsIn(changes: seq<Change>, entries: map<Path, Entry>) {
    forall x :: PriorOf(changes, x) ==> x.0 in entries && entries[x.0].sha256 == x.1
  }

  ghost predicate RecordedBy(p: Pending, x: (Path, Digest)) {
    || PriorOf(p.changes, x)
    || (x.0 in p.newSnapshot.entries && p.newSnapshot.entries[x.0].sha256 == x.1)
  }

  /** Everything but pending.json is durable, and nothing else is recorded. */
  ghost predicate Submittable(dur: Disk, vis: Disk, t: TxId, p: Pending) {
    && Cleanable(dur, vis) && (forall u, q :: !Possible(dur, vis, u, q))
    && t in dur.dirs && t in vis.dirs && t !in dur.pending
    && WellFormed(p) && Resumable(dur, t, p) && PayloadsPresent(vis, t, p.changes)
  }

  lemma DraftSubmittable(dur: Disk, vis: Disk, t: TxId, p: Pending)
    requires Cleanable(dur, vis) && vis.dirs == {t} == dur.dirs && t !in vis.pending && t !in dur.pending
    requires dur.payloads == vis.payloads && WellFormed(p) && Follows(p, vis.snapshot)
    requires PayloadsPresent(vis, t, p.changes) && TransfersHold(vis.outputs, p.changes) && Guards(vis.outputs, p.changes)
    ensures Submittable(dur, vis, t, p)
  {
    CleanableLogical(dur, vis);
  }

  lemma RetirementSubmittable(dur: Disk, vis: Disk, t: TxId, p: Pending)
    requires Cleanable(dur, vis) && vis.dirs == {t} == dur.dirs && t !in vis.pending && t !in dur.pending
    requires WellFormed(p) && Follows(p, vis.snapshot)
    requires forall i :: 0 <= i < |p.changes| ==> p.changes[i].after.None?
    requires TransfersHold(vis.outputs, p.changes) && Guards(vis.outputs, p.changes)
    ensures Submittable(dur, vis, t, p)
  {
    CleanableLogical(dur, vis);
  }

  lemma RecoveredIsRecorded(d: Disk, recovered: Snapshot, x: (Path, Digest))
    requires recovered == d.snapshot || exists t :: Active(d, t) && recovered == d.pending[t].newSnapshot
    requires x.0 in recovered.entries && recovered.entries[x.0].sha256 == x.1
    ensures Recorded(d, x)
  {
    if recovered != d.snapshot {
      var t :| Active(d, t) && recovered == d.pending[t].newSnapshot;
      assert RecordedBy(d.pending[t], x);
    }
  }
}
