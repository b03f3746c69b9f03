/** Runs of the coordinator on one root as traces of states, and the history of durable states a trace contains. */
module OutputHistory {
  import opened Options
  import opened OutputModel
  import opened OutputLedger
  import opened OutputPublication
  import Retirement = OutputRetirement

  datatype Outcome = Done | Failed | Killed

  datatype Command = Publish(plan: Plan, target: Target, staged: map<Path, Digest>) | Reconcile(plan: Plan) | Recover

  /** A command, the durable operation before which its process is killed, and whether power fails then. */
  datatype Event = Event(command: Command, steps: nat, powerFails: bool)

  datatype State = State(dur: Disk, vis: Disk, ledger: Ledger)

  /** Every file of `v` that no pending transaction decides is the very same file in `d`. */
  ghost predicate KeptElsewhere(v: Disk, d: Disk) {
    forall q :: (forall t :: Active(v, t) ==> !Touches(v.pending[t].changes, q)) ==> At(d.outputs, q) == At(v.outputs, q)
  }

  /** `d` is a disk that recovery may have made of `v`: it holds what was promised. */
  ghost predicate RecoveredFrom(d: Disk, v: Disk) {
    Committed(Contents(d.outputs), d.snapshot) == Logical(v) && KeptElsewhere(v, d)
  }

  /** A planned output of the target was not staged, or the file in its place is not the recorded one. */
  predicate Unstaged(a: Committed, o: PlanOutput, staged: map<Path, Digest>) {
    || o.path !in staged
    || (o.path in a.contents &&
        (o.path !in a.snapshot.entries || a.contents[o.path] != a.snapshot.entries[o.path].sha256))
  }

  ghost predicate AllStaged(a: Committed, outs: seq<PlanOutput>, staged: map<Path, Digest>) {
    forall o :: o in outs ==> !Unstaged(a, o, staged)
  }

  /** When publish must refuse. */
  ghost predicate Unpublishable(recorded: Option<Plan>, a: Committed, plan: Plan, target: Target, staged: map<Path, Digest>) {
    || recorded != Some(plan)
    || Select(plan.outputs, target) == []
    || !AllStaged(a, Select(plan.outputs, target), staged)
  }

  /** What the command does to the promised state `a` when it takes effect on the disk `v`.  Which files share an inode is
      read off the disk that recovery makes of `v`. */
  ghost predicate Transacts(c: Command, v: Disk, a: Committed, b: Committed) {
    match c
    case Publish(plan, target, staged) => Published(a, b, plan, target, staged)
    case Reconcile(plan) => exists d :: RecoveredFrom(d, v) && Retirement.Reconciled(a, d, plan, b)
    case Recover => a == b
  }

  ghost function Allowance(c: Command, v: Disk): nat {
    match c
    case Publish(plan, target, _) => Work(v, |Select(plan.outputs, target)|)
    case Reconcile(_) => Work(v, EntryCount(v))
    case Recover => Work(v, 0)
  }

  /** What one process may do on a root that nobody else edits: nothing, or its command as a whole, on the visible
      promise; the durable promise lags behind by at most that.  Done means done and durable, failure means refused
      for cause, and a process is killed only if it was given too few durable operations. */
  ghost predicate Executes(e: Event, o: Outcome, s: State, m: State) {
    var a, b := Logical(s.vis), Logical(m.vis);
    && (b == a || Transacts(e.command, s.vis, a, b))
    && (Logical(m.dur) == a || Logical(m.dur) == b || (Logical(m.dur) == Logical(s.dur) && b == a))
    && (o == Done ==> Transacts(e.command, s.vis, a, b) && Logical(m.dur) == b == Committed(Contents(m.vis.outputs), m.vis.snapshot))
    && (o == Failed ==> b == a)
    && m.ledger.edits == s.ledger.edits
    && (o == Killed ==> e.steps <= Allowance(e.command, s.vis))
    && Decides(e.command, o, s.vis, b)
  }

  /** Refusal and effect by cause. */
  ghost predicate Decides(c: Command, o: Outcome, v: Disk, b: Committed) {
    match c
    case Publish(plan, target, staged) =>
      if Unpublishable(v.plan, Logical(v), plan, target, staged) then o != Done && b == Logical(v) else o != Failed
    case Reconcile(plan) => exists d :: DecidedOn(d, plan, o, v, b)
    case Recover => o != Failed
  }

  /** Reconciliation was decided on the recovered disk `d`. */
  ghost predicate DecidedOn(d: Disk, plan: Plan, o: Outcome, v: Disk, b: Committed) {
    && (o != Killed ==> RecoveredFrom(d, v) && (o == Failed <==> Retirement.Ambiguous(d, Planned(plan.outputs))))
    && (b != Logical(v) || o == Done ==> RecoveredFrom(d, v) && Retirement.Reconciled(Logical(v), d, plan, b))
  }

  /** Power loss keeps or loses every unsynchronised entry on its own, and yet what is promised is old or new. */
  ghost predicate PowerFails(m: State, s: State) {
    && s.vis == s.dur && Mix(s.vis, m.dur, m.vis) && s.ledger == Reverting(m.ledger, s.vis.outputs)
    && (Logical(s.vis) == Logical(m.dur) || Logical(s.vis) == Logical(m.vis))
  }

  /** What the ledger may say about one process, whoever else edits the outputs: it takes away only recorded bytes, it
      gives up a path only to retire it, and it owns what it has published. */
  ghost predicate Keeps(e: Event, o: Outcome, s: State, s': State) {
    && Extends(s.ledger, s'.ledger)
    && (forall x :: x in s'.ledger.lost - s.ledger.lost ==> Recorded(s.vis, x.1))
    && (forall q :: q in s.ledger.owned - s'.ledger.owned ==>
          GivenUp(s.vis, q) || (e.command.Reconcile? && q !in Planned(e.command.plan.outputs)))
    && (o == Done && e.command.Publish? ==>
          forall out :: out in Select(e.command.plan.outputs, e.command.target) ==> out.path in s'.ledger.owned)
    && (o == Killed ==> e.steps <= Allowance(e.command, s.vis))
  }

  /** Nothing visible is unaccounted for, and every owned path is named by a snapshot. */
  ghost predicate Upheld(s: State) {
    Accounted(s.vis.outputs, s.ledger) && Owning(s.vis, s.ledger.owned)
  }

  ghost predicate KeptTrace(events: seq<Event>, outcomes: seq<Outcome>, trace: seq<State>) {
    && |outcomes| == |events| && |trace| == |events| + 1
    && (forall i :: 0 <= i < |events| ==> Keeps(events[i], outcomes[i], trace[i], trace[i + 1]))
    && (forall i :: 0 <= i < |trace| ==> Upheld(trace[i]))
  }

  ghost predicate Step(e: Event, o: Outcome, s: State, s': State) {
    exists m :: Executes(e, o, s, m) && (s' == m || (e.powerFails && PowerFails(m, s')))
  }

  ghost predicate Trace(events: seq<Event>, outcomes: seq<Outcome>, trace: seq<State>) {
    && |outcomes| == |events| && |trace| == |events| + 1
    && forall i :: 0 <= i < |events| ==> Step(events[i], outcomes[i], trace[i], trace[i + 1])
  }

  // ---------------------------------------------------------------- the history of durable states

  /** `log[k]` is the durable state that event `origin[k - 1]` made of `log[k - 1]`. */
  ghost predicate History(events: seq<Event>, trace: seq<State>, log: seq<Committed>, origin: seq<nat>) {
    && |log| == |origin| + 1 && |trace| == |events| + 1
    && (forall k :: 0 <= k < |origin| ==> origin[k] < |events| && Transacts(events[origin[k]].command, trace[origin[k]].vis, log[k], log[k + 1]))
    && (forall j, k :: 0 <= j < k < |origin| ==> origin[j] < origin[k])
  }

  /** Event `i` has its place in the history. */
  ghost predicate Entered(log: seq<Committed>, origin: seq<nat>, i: nat) {
    exists k :: 0 <= k < |origin| && origin[k] == i
  }

  /** The visible promise is the durable one, or one transaction of a recorded-to-be event ahead of it. */
  ghost predicate Ahead(events: seq<Event>, trace: seq<State>, log: seq<Committed>, origin: seq<nat>, s: State, n: nat, j: nat) {
    && |log| > 0 && log[|log| - 1] == Logical(s.dur) && (forall k :: 0 <= k < |origin| ==> origin[k] < n)
    && (Logical(s.vis) == Logical(s.dur) ||
        (j < n && n <= |events| && j < |trace| && Transacts(events[j].command, trace[j].vis, Logical(s.dur), Logical(s.vis)) &&
         forall k :: 0 <= k < |origin| ==> origin[k] < j))
  }

  lemma Longer(events: seq<Event>, trace: seq<State>, log: seq<Committed>, origin: seq<nat>, i: nat, b: Committed)
    requires History(events, trace, log, origin) && i < |events| && Transacts(events[i].command, trace[i].vis, log[|log| - 1], b)
    requires forall k :: 0 <= k < |origin| ==> origin[k] < i
    ensures History(events, trace, log + [b], origin + [i])
    ensures forall k :: Entered(log, origin, k) ==> Entered(log + [b], origin + [i], k)
    ensures Entered(log + [b], origin + [i], i)
  {
    hide Transacts;
    var l, o := log + [b], origin + [i];
    assert o[|origin|] == i;
    forall k | Entered(log, origin, k) ensures Entered(l, o, k) {
      var m :| 0 <= m < |origin| && origin[m] == k;
      assert o[m] == k;
    }
    forall k | 0 <= k < |o| ensures o[k] < |events| && Transacts(events[o[k]].command, trace[o[k]].vis, l[k], l[k + 1]) {
      if k < |origin| { assert l[k] == log[k] && l[k + 1] == log[k + 1]; }
    }
  }

  /** Record how the durable promise moved to the visible one. */
  lemma CatchUp(events: seq<Event>, trace: seq<State>, log: seq<Committed>, origin: seq<nat>, s: State, n: nat, j: nat)
    returns (log': seq<Committed>, origin': seq<nat>)
    requires History(events, trace, log, origin) && Ahead(events, trace, log, origin, s, n, j)
    ensures History(events, trace, log', origin') && log'[0] == log[0] && log'[|log'| - 1] == Logical(s.vis)
    ensures forall k :: 0 <= k < |origin'| ==> origin'[k] < n
    ensures (forall k :: Entered(log, origin, k) ==> Entered(log', origin', k)) && log <= log'
  {
    hide Transacts;
    if Logical(s.vis) == Logical(s.dur) {
      log', origin' := log, origin;
    } else {
      Longer(events, trace, log, origin, j, Logical(s.vis));
      log', origin' := log + [Logical(s.vis)], origin + [j];
    }
  }

  /** One process run, and what it adds to the history. */
  lemma Executed(events: seq<Event>, trace: seq<State>, log: seq<Committed>, origin: seq<nat>, i: nat, o: Outcome, s: State, m: State, j: nat)
    returns (log': seq<Committed>, origin': seq<nat>, j': nat)
    requires History(events, trace, log, origin) && i < |events| && Ahead(events, trace, log, origin, s, i, j)
    requires Executes(events[i], o, s, m) && s == trace[i]
    ensures History(events, trace, log', origin') && log'[0] == log[0] && Ahead(events, trace, log', origin', m, i + 1, j')
    ensures (forall k :: Entered(log, origin, k) ==> Entered(log', origin', k)) && log <= log'
    ensures o == Done && events[i].command.Publish? ==> Entered(log', origin', i)
  {
    var a, b := Logical(s.vis), Logical(m.vis);
    if o == Done && events[i].command.Publish? { assert a != b; }
    hide Transacts, Decides;
    if Logical(m.dur) == Logical(s.dur) && b == a && !(o == Done && events[i].command.Publish?) {
      log', origin', j' := log, origin, j;
    } else {
      log', origin' := CatchUp(events, trace, log, origin, s, i, j);
      j' := i;
      if b != a && Logical(m.dur) == b {
        Longer(events, trace, log', origin', i, b);
        log', origin' := log' + [b], origin' + [i];
      }
    }
  }

  /** One event, and what it adds to the history. */
  lemma Stepped(events: seq<Event>, trace: seq<State>, log: seq<Committed>, origin: seq<nat>, i: nat, o: Outcome, s: State, s': State, j: nat)
    returns (log': seq<Committed>, origin': seq<nat>, j': nat)
    requires History(events, trace, log, origin) && i < |events| && Ahead(events, trace, log, origin, s, i, j) && Step(events[i], o, s, s') && s == trace[i]
    ensures History(events, trace, log', origin') && log'[0] == log[0] && Ahead(events, trace, log', origin', s', i + 1, j')
    ensures (forall k :: Entered(log, origin, k) ==> Entered(log', origin', k)) && log <= log'
    ensures o == Done && events[i].command.Publish? ==> Entered(log', origin', i)
  {
    hide Executes, PowerFails, History, Ahead, Entered;
    var m :| Executes(events[i], o, s, m) && (s' == m || (events[i].powerFails && PowerFails(m, s')));
    log', origin', j' := Executed(events, trace, log, origin, i, o, s, m, j);
    if s' != m { log', origin', j' := Failing(events, trace, log', origin', m, s', i + 1, j'); }
  }

  lemma FirstAhead(events: seq<Event>, trace: seq<State>, s: State)
    requires |trace| == |events| + 1 && Logical(s.vis) == Logical(s.dur)
    ensures History(events, trace, [Logical(s.dur)], []) && Ahead(events, trace, [Logical(s.dur)], [], s, 0, 0)
  {
  }

  lemma AheadDurable(events: seq<Event>, trace: seq<State>, log: seq<Committed>, origin: seq<nat>, s: State, n: nat, j: nat)
    requires Ahead(events, trace, log, origin, s, n, j)
    ensures Logical(s.dur) in log
  {
    assert log[|log| - 1] in log;
  }

  /** The durable history of a whole trace: every durable state comes from the one before by the whole transaction of
      one event, in the order of the events, and every acknowledged publication is in it. */
  lemma {:induction false} DurableHistory(events: seq<Event>, outcomes: seq<Outcome>, trace: seq<State>, n: nat)
    returns (log: seq<Committed>, origin: seq<nat>, j: nat)
    requires Trace(events, outcomes, trace) && Logical(trace[0].vis) == Logical(trace[0].dur) && n <= |events|
    ensures History(events, trace, log, origin) && log[0] == Logical(trace[0].dur) && Ahead(events, trace, log, origin, trace[n], n, j)
    ensures forall i :: 0 <= i < n && outcomes[i] == Done && events[i].command.Publish? ==> Entered(log, origin, i)
    ensures forall i :: 0 <= i <= n ==> Logical(trace[i].dur) in log
  {
    hide Step, History, Ahead, Entered, Logical;
    if n == 0 {
      log, origin, j := [Logical(trace[0].dur)], [], 0;
      FirstAhead(events, trace, trace[0]);
    } else {
      var earlier;
      earlier, origin, j := DurableHistory(events, outcomes, trace, n - 1);
      log, origin, j := Stepped(events, trace, earlier, origin, n - 1, outcomes[n - 1], trace[n - 1], trace[n], j);
      AheadDurable(events, trace, log, origin, trace[n], n, j);
      forall i | 0 <= i <= n ensures Logical(trace[i].dur) in log {
        if i < n { assert Logical(trace[i].dur) in earlier; }
      }
    }
  }

  lemma Failing(events: seq<Event>, trace: seq<State>, log: seq<Committed>, origin: seq<nat>, m: State, s: State, n: nat, j: nat)
    returns (log': seq<Committed>, origin': seq<nat>, j': nat)
    requires History(events, trace, log, origin) && Ahead(events, trace, log, origin, m, n, j) && PowerFails(m, s)
    ensures History(events, trace, log', origin') && log'[0] == log[0] && Ahead(events, trace, log', origin', s, n, j')
    ensures (forall k :: Entered(log, origin, k) ==> Entered(log', origin', k)) && log <= log'
  {
    hide Transacts, Mix;
    j' := j;
    if Logical(s.vis) == Logical(m.dur) {
      log', origin' := log, origin;
    } else {
      log', origin' := CatchUp(events, trace, log, origin, m, n, j);
    }
  }

  // ---------------------------------------------------------------- what acknowledgement is worth

  /** The command neither publishes the path nor retires it. */
  predicate Spares(c: Command, q: Path) {
    match c
    case Publish(plan, target, _) => PlanOutput(target, q) !in plan.outputs
    case Reconcile(plan) => q in Planned(plan.outputs)
    case Recover => true
  }

  ghost predicate Holds(a: Committed, q: Path, e: Entry) {
    At(a.snapshot.entries, q) == Some(e) && At(a.contents, q) == Some(e.sha256)
  }

  lemma Spared(c: Command, v: Disk, a: Committed, b: Committed, q: Path, e: Entry)
    requires Transacts(c, v, a, b) && Spares(c, q) && Holds(a, q, e)
    ensures Holds(b, q, e)
  {
    hide RecoveredFrom, Retirement.Reconciled, Planned;
    match c
    case Publish(plan, target, staged) =>
      assert PublishedAt(a, b, q, PlanOutput(target, q) in plan.outputs, target, staged);
    case Reconcile(plan) =>
      var d :| RecoveredFrom(d, v) && Retirement.Reconciled(a, d, plan, b);
      SparedByReconcile(plan, d, a, b, q, e);
    case Recover =>
  }

  lemma SparedByReconcile(plan: Plan, d: Disk, a: Committed, b: Committed, q: Path, e: Entry)
    requires Retirement.Reconciled(a, d, plan, b) && q in Planned(plan.outputs) && Holds(a, q, e)
    ensures Holds(b, q, e)
  {
    hide Planned;
    assert Retirement.Retained(d, Planned(plan.outputs), b, q);
  }

  lemma {:induction false} SparedSince(events: seq<Event>, trace: seq<State>, log: seq<Committed>, origin: seq<nat>, k: nat, n: nat, q: Path, e: Entry)
    requires History(events, trace, log, origin) && k <= n < |log| && Holds(log[k], q, e)
    requires forall j :: k <= j < |origin| ==> Spares(events[origin[j]].command, q)
    ensures Holds(log[n], q, e)
  {
    if k < n {
      SparedSince(events, trace, log, origin, k, n - 1, q, e);
      Spared(events[origin[n - 1]].command, trace[origin[n - 1]].vis, log[n - 1], log[n], q, e);
    }
  }

  /** What an acknowledged publication put at a path is durably there until a later event publishes that path again or
      reconciles it away, whatever was killed and whenever power failed. */
  lemma AcknowledgedSurvives(events: seq<Event>, trace: seq<State>, log: seq<Committed>, origin: seq<nat>, i: nat, q: Path)
    requires History(events, trace, log, origin) && i < |events| && events[i].command.Publish? && Entered(log, origin, i)
    requires PlanOutput(events[i].command.target, q) in events[i].command.plan.outputs
    requires forall j :: i < j < |events| ==> Spares(events[j].command, q)
    ensures q in events[i].command.staged
    ensures Holds(log[|log| - 1], q, Entry(events[i].command.staged[q], events[i].command.target))
  {
    var c := events[i].command;
    var k :| 0 <= k < |origin| && origin[k] == i;
    assert Transacts(events[origin[k]].command, trace[origin[k]].vis, log[k], log[k + 1]);
    assert PublishedAt(log[k], log[k + 1], q, PlanOutput(c.target, q) in c.plan.outputs, c.target, c.staged);
    forall j | k + 1 <= j < |origin| ensures Spares(events[origin[j]].command, q) { assert origin[k] < origin[j]; }
    SparedSince(events, trace, log, origin, k + 1, |log| - 1, q, Entry(c.staged[q], c.target));
  }

  /** Durable snapshots never go back: each publication raises the generation. */
  lemma {:induction false} GenerationsGrow(events: seq<Event>, trace: seq<State>, log: seq<Committed>, origin: seq<nat>, j: nat, k: nat)
    requires History(events, trace, log, origin) && j <= k < |log|
    ensures log[j].snapshot.generation <= log[k].snapshot.generation
    ensures (exists m :: j <= m < k && events[origin[m]].command.Publish?) ==>
              log[j].snapshot.generation < log[k].snapshot.generation
  {
    if j < k {
      GenerationsGrow(events, trace, log, origin, j, k - 1);
      assert Transacts(events[origin[k - 1]].command, trace[origin[k - 1]].vis, log[k - 1], log[k]);
    }
  }
}
