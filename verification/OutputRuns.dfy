/** Whole runs of commands on one root, with kills anywhere, power failures and other programs. */
module OutputRuns {
  import opened OutputModel
  import opened OutputLedger
  import opened OutputPublication
  import opened OutputHistory
  import opened OutputSteps
  import opened OutputRoot
  import Retirement = OutputRetirement

  ghost predicate PlansValid(events: seq<Event>) {
    forall i :: 0 <= i < |events| && !events[i].command.Recover? ==> ValidPlan(events[i].command.plan)
  }

  lemma EventPlan(events: seq<Event>, i: nat)
    requires PlansValid(events) && i < |events|
    ensures !events[i].command.Recover? ==> ValidPlan(events[i].command.plan)
  {
  }

  /** One process: the command runs until it returns or is killed. */
  method Execute(root: Root, e: Event) returns (o: Outcome)
    requires root.Valid() && (!e.command.Recover? ==> ValidPlan(e.command.plan))
    modifies root
    ensures root.Valid()
    ensures Keeps(e, o, old(root.Now()), root.Now())
    ensures root.quiet ==> Executes(e, o, old(root.Now()), root.Now())
  {
    match e.command
    case Publish(plan, target, staged) => o := ExecutePublish(root, e);
    case Reconcile(plan) => o := ExecuteReconcile(root, e);
    case Recover => o := ExecuteRecover(root, e);
  }

  method ExecutePublish(root: Root, e: Event) returns (o: Outcome)
    requires root.Valid() && e.command.Publish? && ValidPlan(e.command.plan)
    modifies root
    ensures root.Valid()
    ensures Keeps(e, o, old(root.Now()), root.Now())
    ensures root.quiet ==> Executes(e, o, old(root.Now()), root.Now())
  {
    hide Safe, Logical, Owning, Accounted, Published, Recorded, GivenUp, Unpublishable, Contents, Select, ValidPlan, Work;
    root.steps := e.steps;
    o := root.Publish(e.command.plan, e.command.target, e.command.staged);
  }

  method ExecuteReconcile(root: Root, e: Event) returns (o: Outcome)
    requires root.Valid() && e.command.Reconcile? && ValidPlan(e.command.plan)
    modifies root
    ensures root.Valid()
    ensures Keeps(e, o, old(root.Now()), root.Now())
    ensures root.quiet ==> Executes(e, o, old(root.Now()), root.Now())
  {
    hide Safe, Logical, Owning, Accounted, Recorded, GivenUp, Contents, ValidPlan, Work, EntryCount, RecoveredFrom, Planned,
         Retirement.Reconciled, Retirement.Ambiguous, Executes;
    root.steps := e.steps;
    ghost var recovered;
    o, recovered := root.Reconcile(e.command.plan);
    if root.quiet { Reconciles(e, o, old(root.Now()), root.Now(), recovered); }
  }

  lemma Reconciles(e: Event, o: Outcome, s: State, m: State, d: Disk)
    requires e.command.Reconcile? && (o == Killed ==> e.steps <= Allowance(e.command, s.vis))
    requires var a, b, plan := Logical(s.vis), Logical(m.vis), e.command.plan;
             && (b == a || (RecoveredFrom(d, s.vis) && Retirement.Reconciled(a, d, plan, b)))
             && (Logical(m.dur) == a || Logical(m.dur) == b || (Logical(m.dur) == Logical(s.dur) && b == a))
             && (o != Killed ==> && RecoveredFrom(d, s.vis)
                                 && (o == Failed <==> Retirement.Ambiguous(d, Planned(plan.outputs))))
             && (o == Failed ==> b == a)
             && (o == Done ==> Retirement.Reconciled(a, d, plan, b) && Logical(m.dur) == b == Committed(Contents(m.vis.outputs), m.vis.snapshot))
    requires m.ledger.edits == s.ledger.edits
    ensures Executes(e, o, s, m)
  {
    hide Logical, RecoveredFrom, Retirement.Reconciled, Retirement.Ambiguous, Allowance, Contents, Planned;
    assert Logical(m.vis) != Logical(s.vis) || o == Done ==> Transacts(e.command, s.vis, Logical(s.vis), Logical(m.vis));
    assert DecidedOn(d, e.command.plan, o, s.vis, Logical(m.vis));
  }

  method ExecuteRecover(root: Root, e: Event) returns (o: Outcome)
    requires root.Valid() && e.command.Recover?
    modifies root
    ensures root.Valid()
    ensures Keeps(e, o, old(root.Now()), root.Now())
    ensures root.quiet ==> Executes(e, o, old(root.Now()), root.Now())
  {
    hide Safe, Logical, Owning, Accounted, Recorded, GivenUp, Contents, Unfinished, Clutter, Cleanable, RecoveredFrom;
    root.steps := e.steps;
    o := root.Recover();
    if root.quiet && o == Done { CleanableLogical(root.dur, root.vis); }
  }

  /** Power may fail once the process has ended. */
  method Fail(root: Root, e: Event)
    requires root.quiet && root.Valid()
    modifies root
    ensures root.Valid()
    ensures root.Now() == old(root.Now()) || (e.powerFails && PowerFails(old(root.Now()), root.Now()))
    ensures OnlyEdited(old(root.ledger), root.ledger)
  {
    hide Safe, Logical, Owning, Accounted, Mix;
    var m: Disk := *;
    if e.powerFails && IsMix(m, root.dur, root.vis) { root.PowerLoss(m); }
  }

  lemma KeepsEdited(e: Event, o: Outcome, s: State, m: State, s': State)
    requires Keeps(e, o, s, m) && OnlyEdited(m.ledger, s'.ledger)
    ensures Keeps(e, o, s, s')
  {
  }

  lemma StepOf(e: Event, o: Outcome, s: State, m: State, s': State)
    requires Executes(e, o, s, m) && (s' == m || (e.powerFails && PowerFails(m, s')))
    ensures Step(e, o, s, s')
  {
  }

  /** One event on a root that nobody else edits. */
  method Observe(root: Root, e: Event) returns (o: Outcome)
    requires root.quiet && root.Valid() && (!e.command.Recover? ==> ValidPlan(e.command.plan))
    modifies root
    ensures root.Valid()
    ensures Keeps(e, o, old(root.Now()), root.Now()) && Step(e, o, old(root.Now()), root.Now())
  {
    hide Keeps, Step, Executes, PowerFails, OnlyEdited, ValidPlan;
    o := Execute(root, e);
    ghost var m := root.Now();
    Fail(root, e);
    KeepsEdited(e, o, old(root.Now()), m, root.Now());
    StepOf(e, o, old(root.Now()), m, root.Now());
  }

  lemma TraceGrows(events: seq<Event>, outcomes: seq<Outcome>, trace: seq<State>, e: Event, o: Outcome, s: State)
    requires Trace(events, outcomes, trace) && Step(e, o, trace[|trace| - 1], s)
    ensures Trace(events + [e], outcomes + [o], trace + [s])
  {
    hide Step;
    var all := trace + [s];
    assert forall i :: 0 <= i < |trace| ==> all[i] == trace[i];
  }

  lemma KeptTraceGrows(events: seq<Event>, outcomes: seq<Outcome>, trace: seq<State>, e: Event, o: Outcome, s: State)
    requires KeptTrace(events, outcomes, trace) && Keeps(e, o, trace[|trace| - 1], s) && Upheld(s)
    ensures KeptTrace(events + [e], outcomes + [o], trace + [s])
  {
    hide Keeps, Upheld;
    var all := trace + [s];
    assert forall i :: 0 <= i < |trace| ==> all[i] == trace[i];
  }

  /** Whole runs on a root that nobody else edits, kills and power failures included: every durable promise ever reached
      comes from the one before by the whole transaction of one event, in the order of the events; every acknowledged
      publication is among them; nothing unrecorded is taken away, and nothing owned is orphaned. */
  method Run(root: Root, events: seq<Event>)
    returns (outcomes: seq<Outcome>, ghost trace: seq<State>, ghost log: seq<Committed>, ghost origin: seq<nat>)
    requires root.quiet && root.Valid() && PlansValid(events) && Logical(root.dur) == Logical(root.vis)
    modifies root
    ensures root.Valid()
    ensures Trace(events, outcomes, trace) && KeptTrace(events, outcomes, trace)
    ensures trace[0] == old(root.Now()) && trace[|events|] == root.Now()
    ensures History(events, trace, log, origin)
    ensures log[0] == old(Logical(root.dur)) && log[|log| - 1] == Logical(root.dur)
    ensures forall i :: 0 <= i < |trace| ==> Logical(trace[i].dur) in log
    ensures forall i :: 0 <= i < |events| && outcomes[i] == Done && events[i].command.Publish? ==> Entered(log, origin, i)
  {
    hide Trace, KeptTrace, Keeps, Step, Upheld, Logical, ValidPlan, PlansValid, History, Entered;
    outcomes, trace := [], [root.Now()];
    NoEvents(root.Now());
    for i := 0 to |events|
      invariant root.Valid()
      invariant |outcomes| == i && |trace| == i + 1 && trace[0] == old(root.Now()) && trace[i] == root.Now()
      invariant Trace(events[..i], outcomes, trace) && KeptTrace(events[..i], outcomes, trace)
    {
      EventPlan(events, i);
      var o := Observe(root, events[i]);
      ValidUpholds(root);
      TraceGrows(events[..i], outcomes, trace, events[i], o, root.Now());
      KeptTraceGrows(events[..i], outcomes, trace, events[i], o, root.Now());
      assert events[..i + 1] == events[..i] + [events[i]];
      outcomes, trace := outcomes + [o], trace + [root.Now()];
    }
    assert events[..|events|] == events;
    ghost var j;
    log, origin, j := DurableHistory(events, outcomes, trace, |events|);
    AheadEnds(events, trace, log, origin, root.Now(), |events|, j);
  }

  lemma NoEvents(s: State)
    requires Upheld(s)
    ensures Trace([], [], [s]) && KeptTrace([], [], [s])
  {
  }

  lemma AheadEnds(events: seq<Event>, trace: seq<State>, log: seq<Committed>, origin: seq<nat>, s: State, n: nat, j: nat)
    requires Ahead(events, trace, log, origin, s, n, j)
    ensures |log| > 0 && log[|log| - 1] == Logical(s.dur)
  {
  }

  lemma ValidUpholds(root: Root)
    requires root.Valid()
    ensures Upheld(root.Now())
  {
  }

  /** Whole runs while other programs rewrite and remove outputs at any moment: whatever was visible is still there or on
      record as taken away; the coordinator takes away only recorded bytes; and no generated file is orphaned. */
  method RunWithEdits(root: Root, events: seq<Event>) returns (outcomes: seq<Outcome>, ghost trace: seq<State>)
    requires root.Valid() && PlansValid(events)
    modifies root
    ensures root.Valid()
    ensures KeptTrace(events, outcomes, trace) && trace[0] == old(root.Now()) && trace[|events|] == root.Now()
  {
    hide KeptTrace, Keeps, Upheld, ValidPlan, PlansValid, Executes;
    outcomes, trace := [], [root.Now()];
    ValidUpholds(root);
    NoEvents(root.Now());
    for i := 0 to |events|
      invariant root.Valid()
      invariant |outcomes| == i && |trace| == i + 1 && trace[0] == old(root.Now()) && trace[i] == root.Now()
      invariant KeptTrace(events[..i], outcomes, trace)
    {
      EventPlan(events, i);
      var o := Execute(root, events[i]);
      ghost var m := root.Now();
      Interfere(root);
      ValidUpholds(root);
      KeepsEdited(events[i], o, trace[i], m, root.Now());
      KeptTraceGrows(events[..i], outcomes, trace, events[i], o, root.Now());
      assert events[..i + 1] == events[..i] + [events[i]];
      outcomes, trace := outcomes + [o], trace + [root.Now()];
    }
    assert events[..|events|] == events;
  }

  /** In any such run a content visible at one moment and not at a later one was taken away by a move of a process in between:
      by an edit of the script or a power failure, or by the coordinator, and then it was recorded when that process began. */
  lemma {:induction false} NothingElseVanishes(events: seq<Event>, outcomes: seq<Outcome>, trace: seq<State>, i: nat, j: nat,
                                               x: (Path, Digest))
    returns (n: nat, k: nat)
    requires KeptTrace(events, outcomes, trace) && i <= j < |trace|
    requires Present(trace[i].vis.outputs, x) && !Present(trace[j].vis.outputs, x)
    ensures i <= n < j && |trace[n].ledger.moves| <= k < |trace[n + 1].ledger.moves|
    ensures var l := trace[n + 1].ledger;
            match l.moves[k]
            case Placed(p, _) => p == x.0 && Recorded(trace[n].vis, x)
            case Edited(outputs) => !Present(outputs, x) && outputs == l.script(Edits(l.moves[..k]))
            case Reverted(outputs) => !Present(outputs, x)
  {
    hide Accounted, Recorded, Owning, Replay, Taken;
    n := j - 1;
    if Present(trace[n].vis.outputs, x) {
      assert Keeps(events[n], outcomes[n], trace[n], trace[j]) && Upheld(trace[n]) && Upheld(trace[j]);
      k := TakenDuring(events[n], outcomes[n], trace[n], trace[j], x);
    } else {
      n, k := NothingElseVanishes(events, outcomes, trace, i, n, x);
    }
  }

  lemma TakenDuring(e: Event, o: Outcome, s: State, s': State, x: (Path, Digest)) returns (k: nat)
    requires Keeps(e, o, s, s') && Upheld(s) && Upheld(s') && Present(s.vis.outputs, x) && !Present(s'.vis.outputs, x)
    ensures |s.ledger.moves| <= k < |s'.ledger.moves|
    ensures match s'.ledger.moves[k]
            case Placed(p, _) => p == x.0 && Recorded(s.vis, x)
            case Edited(outputs) => !Present(outputs, x) && outputs == s'.ledger.script(Edits(s'.ledger.moves[..k]))
            case Reverted(outputs) => !Present(outputs, x)
  {
    hide Recorded, Owning, Replay, Taken, GivenUp;
    var l, m := s.ledger, s'.ledger;
    assert m.moves[..|l.moves|] == l.moves && m.moves[..|m.moves|] == m.moves;
    k := Vanished(s'.vis.outputs, m, x, |l.moves|, |m.moves|);
    if m.moves[k].Placed? {
      TakenIs(m.start, m.moves, k, x);
      TakenIs(l.start, l.moves, k, x);
      assert (k, x) in m.lost - l.lost;
    }
    if m.moves[k].Edited? { EditsFollow(m.script, m.moves, k); }
  }

  /** The edits on record are those of the script, in its order. */
  lemma {:induction false} EditsFollow(script: nat -> map<Path, File>, moves: seq<Move>, k: nat)
    requires Scripted(script, moves) && k < |moves| && moves[k].Edited?
    ensures moves[k].outputs == script(Edits(moves[..k]))
  {
    var n := |moves| - 1;
    if k < n {
      assert moves[..n][k] == moves[k] && moves[..n][..k] == moves[..k];
      EditsFollow(script, moves[..n], k);
    }
  }

  method Interfere(root: Root)
    requires root.Valid()
    modifies root
    ensures root.Valid() && OnlyEdited(old(root.ledger), root.ledger)
  {
    hide Safe, Owning, Accounted, OnlyEdited;
    ghost var vis := root.vis;
    root.OutsideEdit();
    OnlyEditedOwned(old(root.ledger), root.ledger);
    SameNames(vis, root.vis, root.ledger.owned);
  }
}
