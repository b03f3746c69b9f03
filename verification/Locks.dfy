/** The coordinator's lock discipline as a system of any number of processes. */
module Locks {
  import opened CodePoints
  import opened Options

  /** A root is named by its identity, which both orders the locks and names the lock files. */
  datatype Lock = Registry | Generation(root: string) | Publication(root: string)

  /** `Publish` stands for publish and validate alike: they take the same one lock. */
  datatype Job =
    | Reconcile(retired: seq<string>, current: seq<string>)
    | Publish(root: string)
    | Reset(root: string)
    | RunGeneration(root: string)

  // ---------------------------------------------------------------- the order of acquisition

  function InsertRoot(r: string, rs: seq<string>): seq<string> {
    if rs == [] then [r] else if r == rs[0] then rs else if Less(rs[0], r) then [rs[0]] + InsertRoot(r, rs[1..]) else [r] + rs
  }

  /** The distinct roots, sorted. */
  function SortedRoots(rs: seq<string>): seq<string> {
    if rs == [] then [] else InsertRoot(rs[0], SortedRoots(rs[1..]))
  }

  function GenerationLocks(rs: seq<string>): seq<Lock> { seq(|rs|, i requires 0 <= i < |rs| => Generation(rs[i])) }

  function PublicationLocks(rs: seq<string>): seq<Lock> { seq(|rs|, i requires 0 <= i < |rs| => Publication(rs[i])) }

  function AllLocks(roots: seq<string>): seq<Lock> { [Registry] + GenerationLocks(roots) + PublicationLocks(roots) }

  /** The locks a job takes, one after the other, before it does its work. */
  function Needed(job: Job): seq<Lock> {
    match job
    case Reconcile(retired, current) =>
      AllLocks(SortedRoots(retired + current))
    case Publish(root) => [Publication(root)]
    case Reset(root) => [Registry, Generation(root), Publication(root)]
    case RunGeneration(root) => [Generation(root)]
  }

  /** A place in the order of waiting: registry, generation locks, a child process, publication locks, nothing. */
  type Rank = (nat, string)

  function RankOf(l: Lock): Rank {
    match l
    case Registry => (0, "")
    case Generation(root) => (1, root)
    case Publication(root) => (3, root)
  }

  const FOR_CHILD: Rank := (2, "")
  const RUNNING: Rank := (4, "")

  predicate Lower(a: Rank, b: Rank) { a.0 < b.0 || (a.0 == b.0 && Less(a.1, b.1)) }

  lemma LowerTransitive(a: Rank, b: Rank, c: Rank)
    requires Lower(a, b) && Lower(b, c)
    ensures Lower(a, c)
  {
    if a.0 == b.0 == c.0 { LessTransitive(a.1, b.1, c.1); }
  }

  lemma LowerTotal(a: Rank, b: Rank)
    ensures Lower(a, b) || Lower(b, a) || a == b
    ensures !(Lower(a, b) && Lower(b, a)) && !Lower(a, a)
  {
    LessTotal(a.1, b.1);
    LessTotal(a.1, a.1);
  }

  ghost predicate Sorted(rs: seq<string>) { forall i, j :: 0 <= i < j < |rs| ==> Less(rs[i], rs[j]) }

  lemma {:induction false} InsertSorted(r: string, rs: seq<string>)
    requires Sorted(rs)
    ensures Sorted(InsertRoot(r, rs)) && forall x :: x in InsertRoot(r, rs) <==> x == r || x in rs
  {
    if rs != [] && r != rs[0] {
      LessTotal(r, rs[0]);
      var out := InsertRoot(r, rs);
      if Less(rs[0], r) {
        InsertSorted(r, rs[1..]);
        forall j | 0 < j < |out| ensures Less(out[0], out[j]) { assert out[j] in InsertRoot(r, rs[1..]); }
        assert forall x :: x in rs <==> x == rs[0] || x in rs[1..];
      } else {
        forall j | 1 < j < |out| ensures Less(out[0], out[j]) { LessTransitive(r, rs[0], out[j]); }
      }
    }
  }

  lemma {:induction false} RootsSorted(rs: seq<string>)
    ensures Sorted(SortedRoots(rs)) && forall x :: x in SortedRoots(rs) <==> x in rs
  {
    if rs != [] {
      RootsSorted(rs[1..]);
      InsertSorted(rs[0], SortedRoots(rs[1..]));
    }
  }

  ghost predicate Ascending(locks: seq<Lock>) {
    forall i, j :: 0 <= i < j < |locks| ==> Lower(RankOf(locks[i]), RankOf(locks[j]))
  }

  /** Every job climbs strictly, so it never asks for one lock twice; and reconcile-set locks exactly the roots its plans
      name, however often they name them. */
  lemma LocksAscend(job: Job)
    ensures Ascending(Needed(job)) && |Needed(job)| > 0
    ensures forall i, j :: 0 <= i < j < |Needed(job)| ==> Needed(job)[i] != Needed(job)[j]
    ensures job.Reconcile? ==> forall r ::
              (Generation(r) in Needed(job) <==> r in job.retired || r in job.current) &&
              (Publication(r) in Needed(job) <==> r in job.retired || r in job.current)
  {
    var locks := Needed(job);
    if job.Reconcile? { ReconcileAscends(job.retired, job.current); }
    forall i, j | 0 <= i < j < |locks| ensures locks[i] != locks[j] {
      LowerTotal(RankOf(locks[i]), RankOf(locks[j]));
    }
  }

  lemma Places(roots: seq<string>)
    ensures var locks, n := AllLocks(roots), |roots|;
      && |locks| == 1 + 2 * n && locks[0] == Registry
      && (forall i :: 1 <= i <= n ==> locks[i] == Generation(roots[i - 1]))
      && (forall i :: n < i <= 2 * n ==> locks[i] == Publication(roots[i - 1 - n]))
  {
  }

  lemma AllAscend(roots: seq<string>)
    requires Sorted(roots)
    ensures Ascending(AllLocks(roots))
  {
    Places(roots);
    hide AllLocks, Less;
    var locks, n := AllLocks(roots), |roots|;
    forall i, j | 0 <= i < j < |locks| ensures Lower(RankOf(locks[i]), RankOf(locks[j])) {
      if 1 <= i && j <= n { assert Less(roots[i - 1], roots[j - 1]); }
      if n < i { assert Less(roots[i - 1 - n], roots[j - 1 - n]); }
    }
  }

  lemma AllContain(roots: seq<string>, r: string)
    ensures (Generation(r) in AllLocks(roots) <==> r in roots) && (Publication(r) in AllLocks(roots) <==> r in roots)
  {
    Places(roots);
    hide AllLocks;
    var locks, n := AllLocks(roots), |roots|;
    if r in roots {
      var i :| 0 <= i < n && roots[i] == r;
      assert locks[1 + i] == Generation(r) && locks[1 + n + i] == Publication(r);
    }
    if Generation(r) in locks {
      var i :| 0 <= i < |locks| && locks[i] == Generation(r);
      assert i <= n;
    }
  }

  lemma ReconcileAscends(retired: seq<string>, current: seq<string>)
    ensures Ascending(Needed(Reconcile(retired, current))) && |Needed(Reconcile(retired, current))| > 0
    ensures forall r ::
              (Generation(r) in Needed(Reconcile(retired, current)) <==> r in retired || r in current) &&
              (Publication(r) in Needed(Reconcile(retired, current)) <==> r in retired || r in current)
  {
    var roots := SortedRoots(retired + current);
    RootsSorted(retired + current);
    AllAscend(roots);
    Places(roots);
    hide AllLocks, SortedRoots;
    forall r { AllContain(roots, r); }
  }

  // ---------------------------------------------------------------- processes

  type Pid = nat

  /** A process has taken the first `held` locks of its job; run-generation may have a child running. */
  datatype Process = Process(job: Job, held: nat, child: Option<Pid>)

  type System = map<Pid, Process>

  predicate Holds(s: System, p: Pid, l: Lock) {
    p in s && s[p].held <= |Needed(s[p].job)| && l in Needed(s[p].job)[..s[p].held]
  }

  predicate Waiting(s: System, p: Pid) { p in s && s[p].held < |Needed(s[p].job)| }

  /** The lock that `p` asks for. */
  function Wanted(s: System, p: Pid): Lock
    requires Waiting(s, p)
  {
    Needed(s[p].job)[s[p].held]
  }

  ghost predicate Fresh(s: System, p: Pid) { p !in s && forall q :: q in s ==> s[q].child != Some(p) }

  datatype Action = Start(p: Pid, job: Job) | Acquire(p: Pid) | Spawn(p: Pid, c: Pid, root: string) | Reap(p: Pid) | Exit(p: Pid) | Kill(p: Pid)

  ghost predicate Step(s: System, a: Action, t: System) {
    match a
    case Start(p, job) => Fresh(s, p) && t == s[p := Process(job, 0, None)]
    case Acquire(p) =>
      && Waiting(s, p) && (forall q :: !Holds(s, q, Wanted(s, p)))
      && t == s[p := s[p].(held := s[p].held + 1)]
    // The command that run-generation executes under its lock only publishes or validates.
    case Spawn(p, c, root) =>
      && p in s && s[p].job.RunGeneration? && !Waiting(s, p) && s[p].child.None? && Fresh(s, c)
      && t == s[p := s[p].(child := Some(c))][c := Process(Publish(root), 0, None)]
    case Reap(p) => p in s && s[p].child.Some? && s[p].child.value !in s && t == s[p := s[p].(child := None)]
    // A finished process releases everything; so does a killed one, whose child lives on.
    case Exit(p) => p in s && !Waiting(s, p) && s[p].child.None? && t == s - {p}
    case Kill(p) => p in s && t == s - {p}
  }

  /** No lock has two holders. */
  ghost predicate Exclusive(s: System) {
    && (forall p :: p in s ==> s[p].held <= |Needed(s[p].job)|)
    && (forall p, q, l :: Holds(s, p, l) && Holds(s, q, l) ==> p == q)
  }

  ghost predicate Families(s: System) {
    forall p :: p in s && s[p].child.Some? ==>
      s[p].job.RunGeneration? && s[p].held == 1 && (s[p].child.value in s ==> s[s[p].child.value].job.Publish?)
  }

  ghost predicate Invariant(s: System) { Exclusive(s) && Families(s) }

  lemma AcquireHolds(s: System, p: Pid, t: System, q: Pid, l: Lock)
    requires Exclusive(s) && Step(s, Acquire(p), t)
    ensures Holds(t, q, l) <==> Holds(s, q, l) || (q == p && l == Wanted(s, p))
  {
    hide Needed;
    if q == p {
      var locks := Needed(s[p].job);
      assert locks[..s[p].held + 1] == locks[..s[p].held] + [locks[s[p].held]];
    }
  }

  lemma AcquireExclusive(s: System, p: Pid, t: System)
    requires Exclusive(s) && Step(s, Acquire(p), t)
    ensures Exclusive(t)
  {
    forall q, l { AcquireHolds(s, p, t, q, l); }
    hide Needed, Holds;
  }

  lemma AcquireFamilies(s: System, p: Pid, t: System)
    requires Families(s) && Step(s, Acquire(p), t)
    ensures Families(t)
  {
    assert forall root :: |Needed(RunGeneration(root))| == 1;
    hide Needed, Holds, Wanted;
  }

  /** A step that takes no lock leaves the holders a subset of what they were. */
  lemma OthersExclusive(s: System, a: Action, t: System)
    requires Exclusive(s) && Step(s, a, t) && !a.Acquire?
    ensures Exclusive(t)
  {
    forall q | q in t ensures (q in s && t[q].job == s[q].job && t[q].held == s[q].held) || t[q].held == 0 {
    }
    hide Needed, Step, Families;
    assert forall q, l :: Holds(t, q, l) ==> Holds(s, q, l);
  }

  lemma OthersFamilies(s: System, a: Action, t: System)
    requires Families(s) && Exclusive(s) && Step(s, a, t) && !a.Acquire?
    ensures Families(t)
  {
    assert forall root :: |Needed(RunGeneration(root))| == 1;
    assert forall p :: p in s ==> s[p].held <= |Needed(s[p].job)|;
    hide Needed, Exclusive;
  }

  lemma StepKeeps(s: System, a: Action, t: System)
    requires Invariant(s) && Step(s, a, t)
    ensures Invariant(t)
  {
    if a.Acquire? {
      AcquireExclusive(s, a.p, t);
      AcquireFamilies(s, a.p, t);
    } else {
      OthersExclusive(s, a, t);
      OthersFamilies(s, a, t);
    }
  }

  // ---------------------------------------------------------------- waiting

  /** `p` cannot go on before `q` has moved. */
  predicate Waits(s: System, p: Pid, q: Pid) {
    && p in s && q in s
    && ((Waiting(s, p) && Holds(s, q, Wanted(s, p))) || s[p].child == Some(q))
  }

  function Level(s: System, p: Pid): Rank
    requires p in s
  {
    if Waiting(s, p) then RankOf(Wanted(s, p))
    else if s[p].child.Some? && s[p].child.value in s then FOR_CHILD
    else RUNNING
  }

  /** Waiting only ever goes up: whoever holds a lock is waiting, if at all, for something higher. */
  lemma WaitsGoUp(s: System, p: Pid, q: Pid)
    requires Invariant(s) && Waits(s, p, q)
    ensures Lower(Level(s, p), Level(s, q))
  {
    LocksAscend(s[q].job);
    if s[p].child == Some(q) && !Waiting(s, p) {
    } else {
      var l := Wanted(s, p);
      var i :| 0 <= i < s[q].held && Needed(s[q].job)[i] == l;
      if Waiting(s, q) { assert Lower(RankOf(Needed(s[q].job)[i]), RankOf(Needed(s[q].job)[s[q].held])); }
    }
  }

  ghost predicate Chain(s: System, ps: seq<Pid>) {
    forall i :: 0 <= i < |ps| - 1 ==> Waits(s, ps[i], ps[i + 1])
  }

  lemma {:induction false} ChainGoesUp(s: System, ps: seq<Pid>)
    requires Invariant(s) && Chain(s, ps) && |ps| >= 2
    ensures ps[0] in s && ps[|ps| - 1] in s && Lower(Level(s, ps[0]), Level(s, ps[|ps| - 1]))
  {
    var n := |ps| - 1;
    assert Waits(s, ps[n - 1], ps[n]);
    WaitsGoUp(s, ps[n - 1], ps[n]);
    if n > 1 {
      ChainGoesUp(s, ps[..n]);
      LowerTransitive(Level(s, ps[0]), Level(s, ps[n - 1]), Level(s, ps[n]));
    }
  }

  /** No process waits for itself, directly or round a cycle of any length. */
  lemma NoWaitCycle(s: System, ps: seq<Pid>)
    requires Invariant(s) && Chain(s, ps) && |ps| >= 2
    ensures ps[0] != ps[|ps| - 1]
  {
    ChainGoesUp(s, ps);
    LowerTotal(Level(s, ps[0]), Level(s, ps[0]));
  }

  ghost predicate Highest(s: System, ps: set<Pid>, p: Pid)
    requires ps <= s.Keys
  {
    p in ps && forall q :: q in ps ==> !Lower(Level(s, p), Level(s, q))
  }

  lemma {:induction false} SomeHighest(s: System, ps: set<Pid>) returns (p: Pid)
    requires ps != {} && ps <= s.Keys
    ensures Highest(s, ps, p)
    decreases |ps|
  {
    p :| p in ps;
    LowerTotal(Level(s, p), Level(s, p));
    if ps != {p} {
      var rest := ps - {p};
      var q := SomeHighest(s, rest);
      LowerTotal(Level(s, p), Level(s, q));
      if Lower(Level(s, p), Level(s, q)) {
        p := q;
      } else {
        forall r | r in ps && Lower(Level(s, p), Level(s, r)) ensures false {
          if r != p && Lower(Level(s, q), Level(s, p)) { LowerTransitive(Level(s, q), Level(s, p), Level(s, r)); }
        }
      }
    }
  }

  /** Deadlock freedom: as long as there are processes, one of them can take or release a lock by itself. */
  lemma SomeoneProceeds(s: System) returns (a: Action, t: System)
    requires Invariant(s) && s != map[]
    ensures (a.Acquire? || a.Reap? || a.Exit?) && Step(s, a, t)
  {
    assert s.Keys != {};
    var p := SomeHighest(s, s.Keys);
    if Waiting(s, p) {
      forall q ensures !Holds(s, q, Wanted(s, p)) {
        if Holds(s, q, Wanted(s, p)) { WaitsGoUp(s, p, q); }
      }
      a, t := Acquire(p), s[p := s[p].(held := s[p].held + 1)];
    } else if s[p].child.Some? {
      if s[p].child.value in s { WaitsGoUp(s, p, s[p].child.value); }
      a, t := Reap(p), s[p := s[p].(child := None)];
    } else {
      a, t := Exit(p), s - {p};
    }
  }

  /** A run of any number of processes, from none. */
  ghost predicate Run(states: seq<System>, actions: seq<Action>) {
    && |states| == |actions| + 1 && states[0] == map[]
    && forall i :: 0 <= i < |actions| ==> Step(states[i], actions[i], states[i + 1])
  }

  lemma {:induction false} RunKeeps(states: seq<System>, actions: seq<Action>)
    requires Run(states, actions)
    ensures Invariant(states[|actions|])
  {
    var n := |actions|;
    if n > 0 {
      RunKeeps(states[..n], actions[..n - 1]);
      StepKeeps(states[n - 1], actions[n - 1], states[n]);
    }
  }

  /** In every state of every run locks have one holder, nobody waits in a circle, and while anybody is left somebody
      can go on. */
  lemma NoDeadlock(states: seq<System>, actions: seq<Action>, ps: seq<Pid>)
    requires Run(states, actions)
    ensures var s := states[|actions|];
      && (forall p, q, l :: Holds(s, p, l) && Holds(s, q, l) ==> p == q)
      && (|ps| >= 2 && Chain(s, ps) ==> ps[0] != ps[|ps| - 1])
      && (s != map[] ==> exists a: Action, t: System :: (a.Acquire? || a.Reap? || a.Exit?) && Step(s, a, t))
  {
    var s := states[|actions|];
    RunKeeps(states, actions);
    if |ps| >= 2 && Chain(s, ps) { NoWaitCycle(s, ps); }
    if s != map[] { var a, t := SomeoneProceeds(s); }
  }

  // ---------------------------------------------------------------- what the locks are for

  /** The job changes outputs below the root. */
  ghost predicate Rewrites(job: Job, r: string) {
    match job
    case Reconcile(retired, current) => r in retired || r in current
    case Publish(root) => r == root
    case Reset(root) => r == root
    case RunGeneration(_) => false
  }

  /** The job generates for the root or decides who may. */
  ghost predicate Governs(job: Job, r: string) {
    match job
    case Reconcile(retired, current) => r in retired || r in current
    case Publish(_) => false
    case Reset(root) => r == root
    case RunGeneration(root) => r == root
  }

  ghost predicate Registers(job: Job) { job.Reconcile? || job.Reset? }

  lemma LocksAre(job: Job, l: Lock)
    ensures l in Needed(job) <==>
              match l case Registry => Registers(job) case Generation(r) => Governs(job, r) case Publication(r) => Rewrites(job, r)
  {
    LocksAscend(job);
    if job.Reconcile? {
      var roots := SortedRoots(job.retired + job.current);
      Places(roots);
      assert AllLocks(roots)[0] == Registry;
      hide AllLocks, SortedRoots;
    }
  }

  /** Two processes that hold all they need never rewrite one root, never govern one root, and never both change the registry;
      so a root has one writer at a time, in every state of every run. */
  lemma MutualExclusion(states: seq<System>, actions: seq<Action>, p: Pid, q: Pid, r: string)
    requires Run(states, actions)
    requires var s := states[|actions|]; p != q && p in s && q in s && !Waiting(s, p) && !Waiting(s, q)
    ensures var s := states[|actions|];
      && !(Rewrites(s[p].job, r) && Rewrites(s[q].job, r))
      && !(Governs(s[p].job, r) && Governs(s[q].job, r))
      && !(Registers(s[p].job) && Registers(s[q].job))
  {
    var s := states[|actions|];
    RunKeeps(states, actions);
    NotShared(s, p, q, Registry);
    NotShared(s, p, q, Generation(r));
    NotShared(s, p, q, Publication(r));
    hide Needed, Holds, Waiting, Run, Invariant, Rewrites, Governs;
    LocksAre(s[p].job, Registry);
    LocksAre(s[q].job, Registry);
    LocksAre(s[p].job, Generation(r));
    LocksAre(s[q].job, Generation(r));
    LocksAre(s[p].job, Publication(r));
    LocksAre(s[q].job, Publication(r));
  }

  lemma NotShared(s: System, p: Pid, q: Pid, l: Lock)
    requires Exclusive(s) && p != q && p in s && q in s && !Waiting(s, p) && !Waiting(s, q)
    ensures !(l in Needed(s[p].job) && l in Needed(s[q].job))
  {
    HoldsAll(s, p, l);
    HoldsAll(s, q, l);
    hide Needed, Holds, Waiting;
  }

  lemma HoldsAll(s: System, p: Pid, l: Lock)
    requires Exclusive(s) && p in s && !Waiting(s, p)
    ensures l in Needed(s[p].job) ==> Holds(s, p, l)
  {
    assert Needed(s[p].job)[..s[p].held] == Needed(s[p].job);
    hide Needed;
  }

  /** A process only ever waits for a lock of one whose job conflicts with its own: jobs on different roots go on side by
      side, and so do a publication and a generation of one root. */
  lemma OnlyConflictsWait(s: System, p: Pid, q: Pid)
    requires Waiting(s, p) && Holds(s, q, Wanted(s, p))
    ensures || (Registers(s[p].job) && Registers(s[q].job))
            || exists r :: (Rewrites(s[p].job, r) && Rewrites(s[q].job, r)) || (Governs(s[p].job, r) && Governs(s[q].job, r))
  {
    var l := Wanted(s, p);
    assert l in Needed(s[p].job) && l in Needed(s[q].job);
    LocksAre(s[p].job, l);
    LocksAre(s[q].job, l);
    hide Needed;
    match l
    case Registry =>
    case Generation(r) => assert Governs(s[p].job, r) && Governs(s[q].job, r);
    case Publication(r) => assert Rewrites(s[p].job, r) && Rewrites(s[q].job, r);
  }
}
