/** What has become of every byte string that was ever visible at an output path, which paths the coordinator
    owns, and how many durable operations a call may need. */
module OutputLedger {
  import opened Options
  import opened OutputModel

  /** One change of the output files: the coordinator's own replacement or removal of one of them, whatever other programs
      made of all of them, or what a power failure left of them. */
  datatype Move = Placed(path: Path, file: Option<File>) | Edited(outputs: map<Path, File>) | Reverted(outputs: map<Path, File>)

  /** The account of one root: the outputs at the beginning and every move since, in order.  `script` is what other programs
      will do, edit by edit, and `edits` how many of them were done; `lost` lists what the coordinator's own moves took away,
      each with the number of the move; `owned` the paths it landed with content and has not removed since. */
  datatype Ledger = Ledger(start: map<Path, File>, script: nat -> map<Path, File>, moves: seq<Move>,
                           lost: set<(nat, (Path, Digest))>, edits: nat, owned: set<Path>)

  ghost predicate Present(outputs: map<Path, File>, x: (Path, Digest)) {
    x.0 in outputs && outputs[x.0].digest == x.1
  }

  function After(outputs: map<Path, File>, m: Move): map<Path, File> {
    match m
    case Placed(p, f) => Put(outputs, p, f)
    case Edited(now) => now
    case Reverted(now) => now
  }

  function Replay(start: map<Path, File>, moves: seq<Move>): map<Path, File> {
    if moves == [] then start else After(Replay(start, moves[..|moves| - 1]), moves[|moves| - 1])
  }

  /** What move number `n` of the coordinator takes away. */
  function TakenBy(outputs: map<Path, File>, m: Move, n: nat): set<(nat, (Path, Digest))> {
    if m.Placed? && m.path in outputs then {(n, (m.path, outputs[m.path].digest))} else {}
  }

  function Taken(start: map<Path, File>, moves: seq<Move>): set<(nat, (Path, Digest))> {
    if moves == [] then {}
    else
      var init := moves[..|moves| - 1];
      Taken(start, init) + TakenBy(Replay(start, init), moves[|moves| - 1], |init|)
  }

  function Edits(moves: seq<Move>): nat {
    if moves == [] then 0 else Edits(moves[..|moves| - 1]) + if moves[|moves| - 1].Edited? then 1 else 0
  }

  /** The edits among the moves are those of the script, in its order. */
  ghost predicate Scripted(script: nat -> map<Path, File>, moves: seq<Move>) {
    moves != [] ==>
      var init, last := moves[..|moves| - 1], moves[|moves| - 1];
      Scripted(script, init) && (last.Edited? ==> last.outputs == script(Edits(init)))
  }

  /** The outputs are what the recorded moves made of the first ones, no edit is blamed on others that is not theirs, and all
      that the coordinator took away is on record. */
  ghost predicate Accounted(outputs: map<Path, File>, l: Ledger) {
    && Replay(l.start, l.moves) == outputs
    && l.lost == Taken(l.start, l.moves)
    && l.edits == Edits(l.moves) && Scripted(l.script, l.moves)
  }

  /** The account is continued, not rewritten. */
  ghost predicate Extends(l: Ledger, m: Ledger) {
    && m.start == l.start && m.script == l.script && l.moves <= m.moves && l.edits <= m.edits && l.lost <= m.lost
  }

  /** The entry for the coordinator's own replacement or removal of one output. */
  ghost function Landing(l: Ledger, outputs: map<Path, File>, p: Path, f: Option<File>): Ledger {
    l.(moves := l.moves + [Placed(p, f)],
       lost := l.lost + TakenBy(outputs, Placed(p, f), |l.moves|),
       owned := if f.Some? then l.owned + {p} else l.owned - {p})
  }

  /** The entry for finding an output as it is wanted already. */
  ghost function Affirming(l: Ledger, p: Path, wanted: bool): Ledger {
    l.(owned := if wanted then l.owned + {p} else l.owned - {p})
  }

  /** Only what others did was entered. */
  ghost predicate OnlyEdited(l: Ledger, m: Ledger) {
    m == l.(moves := m.moves, edits := m.edits) && Extends(l, m)
  }

  /** The entry for the next edit of other programs. */
  ghost function Editing(l: Ledger): Ledger {
    l.(moves := l.moves + [Edited(l.script(l.edits))], edits := l.edits + 1)
  }

  /** The entry for a power failure. */
  ghost function Reverting(l: Ledger, outputs: map<Path, File>): Ledger {
    l.(moves := l.moves + [Reverted(outputs)])
  }

  lemma Appended(moves: seq<Move>, m: Move)
    ensures (moves + [m])[..|moves + [m]| - 1] == moves && (moves + [m])[|moves + [m]| - 1] == m
  {
  }

  lemma LandingAccounted(l: Ledger, outputs: map<Path, File>, p: Path, f: Option<File>)
    requires Accounted(outputs, l)
    ensures Accounted(Put(outputs, p, f), Landing(l, outputs, p, f)) && Extends(l, Landing(l, outputs, p, f))
  {
    Appended(l.moves, Placed(p, f));
  }

  lemma EditingAccounted(l: Ledger, outputs: map<Path, File>)
    requires Accounted(outputs, l)
    ensures Accounted(l.script(l.edits), Editing(l)) && OnlyEdited(l, Editing(l))
  {
    Appended(l.moves, Edited(l.script(l.edits)));
  }

  lemma RevertingAccounted(l: Ledger, before: map<Path, File>, after: map<Path, File>)
    requires Accounted(before, l)
    ensures Accounted(after, Reverting(l, after)) && OnlyEdited(l, Reverting(l, after))
  {
    Appended(l.moves, Reverted(after));
  }

  /** What the coordinator's moves took away, move by move. */
  lemma {:induction false} TakenIs(start: map<Path, File>, moves: seq<Move>, k: nat, x: (Path, Digest))
    ensures (k, x) in Taken(start, moves) <==>
              k < |moves| && moves[k].Placed? && moves[k].path == x.0 && Present(Replay(start, moves[..k]), x)
  {
    if moves != [] {
      var n := |moves| - 1;
      TakenIs(start, moves[..n], k, x);
      if k < n { assert moves[..n][k] == moves[k] && moves[..n][..k] == moves[..k]; }
    }
  }

  /** Move `k` took the content `x` away. */
  ghost predicate TookAway(l: Ledger, k: nat, x: (Path, Digest))
    requires k < |l.moves|
  {
    match l.moves[k]
    case Placed(p, _) => (k, x) in l.lost
    case Edited(outputs) => !Present(outputs, x)
    case Reverted(outputs) => !Present(outputs, x)
  }

  /** Whatever is visible at one moment and not at a later one was taken away by a move in between: by the coordinator, which
      is then on record with that move, by an edit of the script, or by a power failure. */
  lemma {:induction false} Vanished(outputs: map<Path, File>, l: Ledger, x: (Path, Digest), i: nat, j: nat) returns (k: nat)
    requires Accounted(outputs, l) && i <= j <= |l.moves|
    requires Present(Replay(l.start, l.moves[..i]), x) && !Present(Replay(l.start, l.moves[..j]), x)
    ensures i <= k < j && TookAway(l, k, x)
  {
    var before := Replay(l.start, l.moves[..j - 1]);
    assert l.moves[..j][..j - 1] == l.moves[..j - 1] && l.moves[..j][j - 1] == l.moves[j - 1];
    if Present(before, x) {
      k := j - 1;
      TakenIs(l.start, l.moves, k, x);
    } else {
      k := Vanished(outputs, l, x, i, j - 1);
    }
  }

  /** What one change may enter: it blames nobody else, loses only the recorded prior bytes, and owns or gives up only
      its own path. */
  ghost predicate Booked(c: Change, l: Ledger, m: Ledger, done: bool) {
    && Extends(l, m) && m.edits == l.edits
    && (forall x :: x in m.lost - l.lost ==> x.1.0 == c.path && c.before == Some(x.1.1))
    && (if c.after.Some? then l.owned <= m.owned <= l.owned + {c.path} && (done ==> c.path in m.owned)
        else l.owned - {c.path} <= m.owned <= l.owned && (done ==> c.path !in m.owned))
  }

  /** What the first `k` changes of a transaction entered. */
  ghost predicate BookedAll(changes: seq<Change>, k: nat, l: Ledger, m: Ledger)
    requires k <= |changes|
  {
    && Extends(l, m)
    && (forall x :: x in m.lost - l.lost ==> PriorOf(changes, x.1))
    && (forall q :: q in m.owned ==> q in l.owned || Lands(changes, q))
    && (forall q :: q in l.owned ==> q in m.owned || GivesUp(changes, q))
    && (forall j :: 0 <= j < k ==> (changes[j].path in m.owned <==> changes[j].after.Some?))
  }

  ghost predicate Lands(changes: seq<Change>, q: Path) {
    exists j :: 0 <= j < |changes| && changes[j].path == q && changes[j].after.Some?
  }

  ghost predicate GivesUp(changes: seq<Change>, q: Path) {
    exists j :: 0 <= j < |changes| && changes[j].path == q && changes[j].after.None?
  }

  /** A pending transaction gives the path up. */
  ghost predicate GivenUp(d: Disk, q: Path) {
    exists t :: Active(d, t) && GivesUp(d.pending[t].changes, q)
  }

  lemma BookedNone(changes: seq<Change>, l: Ledger)
    ensures BookedAll(changes, 0, l, l)
  {
  }

  /** What happens between two changes, from `m` to `mid`, is outside editing only. */
  lemma BookedStep(changes: seq<Change>, k: nat, l: Ledger, m: Ledger, mid: Ledger, n: Ledger, done: bool)
    requires k < |changes| && DistinctPaths(changes) && BookedAll(changes, k, l, m)
    requires OnlyEdited(m, mid) && Booked(changes[k], mid, n, done)
    ensures BookedAll(changes, k, l, n)
    ensures done ==> BookedAll(changes, k + 1, l, n)
  {
    var c := changes[k];
    forall x | x in n.lost - l.lost ensures PriorOf(changes, x.1) {
      if x !in m.lost { assert changes[k].path == x.1.0; }
    }
    forall q | q in n.owned ensures q in l.owned || Lands(changes, q) {
      if q !in m.owned { assert changes[k].path == q; }
    }
    forall q | q in l.owned ensures q in n.owned || GivesUp(changes, q) {
      if q in m.owned && q !in n.owned { assert changes[k].path == q; }
    }
    forall j | 0 <= j < k ensures changes[j].path in n.owned <==> changes[j].after.Some? {
      assert changes[j].path != changes[k].path;
    }
  }

  // ---------------------------------------------------------------- no generated file is orphaned

  /** Some snapshot, committed or about to be, has an entry for the path. */
  ghost predicate Named(d: Disk, q: Path) {
    q in d.snapshot.entries || exists t :: Active(d, t) && q in d.pending[t].newSnapshot.entries
  }

  ghost predicate Owning(d: Disk, owned: set<Path>) {
    forall q :: q in owned ==> Named(d, q)
  }

  lemma SameNames(d: Disk, d': Disk, owned: set<Path>)
    requires Owning(d, owned) && d'.snapshot == d.snapshot && d'.dirs == d.dirs && d'.pending == d.pending
    ensures Owning(d', owned)
  {
    forall q | q in owned ensures Named(d', q) {
      assert Named(d, q);
      if q !in d.snapshot.entries {
        var u :| Active(d, u) && q in d.pending[u].newSnapshot.entries;
        assert Active(d', u);
      }
    }
  }

  /** A new record leaves everything named. */
  lemma IntentNamed(d: Disk, t: TxId, p: Pending, owned: set<Path>)
    requires Owning(d, owned) && t !in d.pending
    ensures Owning(d.(pending := d.pending[t := p]), owned)
  {
    var d' := d.(pending := d.pending[t := p]);
    forall q | q in owned ensures Named(d', q) {
      assert Named(d, q);
      if q !in d.snapshot.entries {
        var u :| Active(d, u) && q in d.pending[u].newSnapshot.entries;
        assert Active(d', u) && d'.pending[u] == d.pending[u];
      }
    }
  }

  /** Accepted changes keep the entries they do not retire and add one for everything they land. */
  lemma {:induction false} ReplayKeepsEntries(planned: map<Path, Target>, expected: map<Path, Entry>, seen: set<Path>,
                                              changes: seq<Change>, i: nat, goal: map<Path, Entry>, q: Path)
    requires i <= |changes| && Replays(planned, expected, seen, changes, i, goal)
    ensures q in expected ==> q in goal || exists j :: i <= j < |changes| && changes[j].path == q && changes[j].after.None?
    ensures forall j :: i <= j < |changes| && changes[j].path == q && changes[j].after.Some? ==> q in goal
    decreases |changes| - i
  {
    if i < |changes| {
      var c := changes[i];
      AcceptedPathsDistinct(planned, expected, seen, changes, i, goal);
      ReplayKeepsEntries(planned, Absorb(expected, c), seen + {c.path}, changes, i + 1, goal, q);
      if c.path == q && c.after.Some? { assert q in Absorb(expected, c); }
      if q in expected && c.path != q { assert q in Absorb(expected, c); }
    }
  }

  /** Once all its changes are entered, a transaction's snapshot names everything that the old one and the
      transaction itself named and that is still owned. */
  lemma CommitNames(d: Disk, p: Pending, l: Ledger, m: Ledger, q: Path)
    requires Replays(Planned(p.plan.outputs), d.snapshot.entries, {}, p.changes, 0, p.newSnapshot.entries)
    requires BookedAll(p.changes, |p.changes|, l, m) && q in m.owned && q in d.snapshot.entries
    ensures q in p.newSnapshot.entries
  {
    ReplayKeepsEntries(Planned(p.plan.outputs), d.snapshot.entries, {}, p.changes, 0, p.newSnapshot.entries, q);
  }

  /** While a transaction is applied, what it lands is named by its own snapshot. */
  lemma LandingNamed(d: Disk, t: TxId, p: Pending, k: nat, l: Ledger, m: Ledger, d': Disk)
    requires Active(d, t) && d.pending[t] == p && k <= |p.changes| && BookedAll(p.changes, k, l, m) && Owning(d, l.owned)
    requires Replays(Planned(p.plan.outputs), d.snapshot.entries, {}, p.changes, 0, p.newSnapshot.entries)
    requires d'.snapshot == d.snapshot && d'.dirs == d.dirs && d'.pending == d.pending
    ensures Owning(d', m.owned)
  {
    forall q | q in m.owned ensures Named(d', q) {
      if q in l.owned {
        assert Named(d, q);
        if t' :| Active(d, t') && q in d.pending[t'].newSnapshot.entries { assert Active(d', t'); }
      } else {
        ReplayKeepsEntries(Planned(p.plan.outputs), d.snapshot.entries, {}, p.changes, 0, p.newSnapshot.entries, q);
        assert Active(d', t);
      }
    }
  }

  /** The replaced snapshot names all that is owned, with or without the transaction's own record. */
  lemma CommittedNamed(d: Disk, t: TxId, p: Pending, l: Ledger, m: Ledger, d': Disk)
    requires Active(d, t) && d.pending[t] == p && BookedAll(p.changes, |p.changes|, l, m) && Owning(d, m.owned)
    requires Replays(Planned(p.plan.outputs), d.snapshot.entries, {}, p.changes, 0, p.newSnapshot.entries)
    requires d'.snapshot == p.newSnapshot && OnlyTransaction(d, d', t)
    ensures Owning(d', m.owned)
  {
    forall q | q in m.owned ensures Named(d', q) {
      assert Named(d, q);
      if q in d.snapshot.entries {
        CommitNames(d, p, l, m, q);
      } else {
        var u :| Active(d, u) && q in d.pending[u].newSnapshot.entries;
        if u != t { StillActive(d, d', t, u); }
      }
    }
  }

  /** Nothing but the record and the directory of transaction `t` differs. */
  ghost predicate OnlyTransaction(d: Disk, d': Disk, t: TxId) {
    forall u :: u != t ==> (u in d.dirs <==> u in d'.dirs) && At(d.pending, u) == At(d'.pending, u)
  }

  lemma StillActive(d: Disk, d': Disk, t: TxId, u: TxId)
    requires OnlyTransaction(d, d', t) && u != t && Active(d, u)
    ensures Active(d', u) && d'.pending[u] == d.pending[u]
  {
    assert At(d.pending, u) == At(d'.pending, u);
  }

  /** Removing or adding a transaction whose record names nothing new keeps everything named. */
  lemma ClearingNamed(d: Disk, d': Disk, t: TxId, owned: set<Path>)
    requires Owning(d, owned) && d'.snapshot == d.snapshot && OnlyTransaction(d, d', t)
    requires Active(d, t) ==> d.pending[t].newSnapshot == d.snapshot
    ensures Owning(d', owned)
  {
    forall q | q in owned ensures Named(d', q) {
      assert Named(d, q);
      if q !in d.snapshot.entries {
        var u :| Active(d, u) && q in d.pending[u].newSnapshot.entries;
        StillActive(d, d', t, u);
      }
    }
  }

  /** What the visible disk names, the durable one names too once every visible record is durable. */
  lemma DurableNames(dur: Disk, vis: Disk, owned: set<Path>)
    requires Safe(dur, vis) && Owning(vis, owned) && forall t :: Active(vis, t) ==> t in dur.pending
    ensures Owning(dur, owned)
  {
    forall q | q in owned ensures Named(dur, q) {
      assert Named(vis, q);
      if t, p :| Possible(dur, vis, t, p) {
        forall u | Active(vis, u) ensures u == t && vis.pending[u] == p { assert Possible(dur, vis, u, vis.pending[u]); }
        if !Finished(dur, vis, p) { assert Active(dur, t) && dur.pending[t] == p; }
      } else {
        forall u ensures !Active(vis, u) { if Active(vis, u) { assert Possible(dur, vis, u, vis.pending[u]); } }
      }
    }
  }

  lemma CleanNames(dur: Disk, vis: Disk, owned: set<Path>)
    requires Cleanable(dur, vis) && Owning(vis, owned)
    ensures Owning(dur, owned)
  {
    CleanableLogical(dur, vis);
    forall q | q in owned ensures Named(dur, q) {
      assert Named(vis, q);
      if u :| Active(vis, u) && q in vis.pending[u].newSnapshot.entries { assert Possible(dur, vis, u, vis.pending[u]); }
    }
  }

  /** Neither power loss nor synchronising orphans a generated file. */
  lemma MixNames(m: Disk, dur: Disk, vis: Disk, owned: set<Path>)
    requires Safe(dur, vis) && Mix(m, dur, vis) && Owning(dur, owned) && Owning(vis, owned)
    ensures Owning(m, owned)
  {
    hide Resumable, WellFormed;
    forall q | q in owned ensures Named(m, q) {
      assert Named(dur, q) && Named(vis, q);
      if t :| Active(vis, t) {
        var p := vis.pending[t];
        assert Possible(dur, vis, t, p);
        forall u | Active(vis, u) ensures u == t { assert Possible(dur, vis, u, vis.pending[u]); }
        forall u | Active(dur, u) ensures u == t && dur.pending[u] == p { assert Possible(dur, vis, u, dur.pending[u]); }
        if InFlight(dur, vis, t, p) && t in dur.pending {
          assert At(m.pending, t) == Some(p);
          assert Active(m, t);
        }
      } else {
        if u :| Active(dur, u) { assert Possible(dur, vis, u, dur.pending[u]); }
      }
    }
  }

  // ---------------------------------------------------------------- how long a call may take

  /** Directory entries that clearing the transactions directory may have to remove. */
  function Clutter(d: Disk): nat { |d.payloads| + |d.pending| + 2 * |d.dirs| }

  /** The changes of the transaction that recovery would roll forward. */
  ghost function Unfinished(d: Disk): nat {
    if t :| Active(d, t) then |d.pending[t].changes| else 0
  }

  /** The entries of the snapshot that recovery leaves. */
  ghost function EntryCount(d: Disk): nat {
    if t :| Active(d, t) && |d.pending[t].newSnapshot.entries| > |d.snapshot.entries| then |d.pending[t].newSnapshot.entries|
    else |d.snapshot.entries|
  }

  /** Enough durable operations for a call that handles `extra` outputs of its own. */
  ghost function Work(d: Disk, extra: nat): nat { Clutter(d) + 2 * Unfinished(d) + 4 * extra + 24 }

  lemma OneActive(d: Disk, t: TxId)
    requires Active(d, t) && forall u :: Active(d, u) ==> u == t
    ensures Unfinished(d) == |d.pending[t].changes|
    ensures |d.pending[t].newSnapshot.entries| <= EntryCount(d)
    ensures |d.snapshot.entries| <= EntryCount(d)
  {
  }

  lemma PendingDropped(d: Disk, t: TxId)
    requires t in d.pending
    ensures Clutter(d.(pending := d.pending - {t})) == Clutter(d) - 1
  {
    FewerKeys(d.pending, t);
  }

  lemma PayloadDropped(d: Disk, k: (TxId, nat))
    requires k in d.payloads
    ensures Clutter(d.(payloads := d.payloads - {k})) == Clutter(d) - 1
  {
    FewerKeys(d.payloads, k);
  }

  lemma DirectoryDropped(d: Disk, t: TxId)
    ensures Clutter(d.(dirs := d.dirs - {t})) == Clutter(d) - (if t in d.dirs then 2 else 0)
  {
    if t !in d.dirs { assert d.dirs - {t} == d.dirs; }
  }

  lemma EntryAdded(d: Disk, t: TxId, k: (TxId, nat), p: Pending, x: Digest)
    ensures Clutter(d.(dirs := d.dirs + {t})) <= Clutter(d) + 2
    ensures Clutter(d.(pending := d.pending[t := p])) <= Clutter(d) + 1
    ensures Clutter(d.(payloads := d.payloads[k := x])) <= Clutter(d) + 1
  {
    OneMoreKey(d.pending, t, p);
    OneMoreKey(d.payloads, k, x);
  }
}
