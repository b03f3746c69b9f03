/** The geometry of the output registry: which roots are claimed, which staging directories their
    recorded plans reserve, and when a new plan fits beside them.

    A path is the sequence of its components, so that containment is the prefix order. */
module RegistryModel {
  import opened Options

  type Path = seq<string>

  const MARKER := ".protocyte-generation-staging-"

  predicate Overlap(a: Path, b: Path) { a <= b || b <= a }

  /** Plan.read accepts exactly this staging directory for a target, so a plan need only list identities. */
  function Staging(root: Path, id: string): Path {
    if root == [] then [MARKER + id] else root[..|root| - 1] + [MARKER + id]
  }

  datatype Plan = Plan(root: Path, build: Path, targets: set<string>)

  predicate ValidPlan(plan: Plan) {
    plan.root != [] && forall id :: id in plan.targets ==> !Overlap(Staging(plan.root, id), plan.root)
  }

  /** A claimed root: its build, and the targets of its recorded plan. */
  datatype Holding = Holding(build: Path, targets: set<string>)
  type Holdings = map<Path, Holding>

  ghost predicate RootsApart(h: Holdings) {
    forall r, s :: r in h && s in h && r != s ==> !Overlap(r, s)
  }

  ghost predicate Reserved(h: Holdings, r: Path, id: string) { r in h && id in h[r].targets }

  /** Recorded staging directories keep clear of every claimed root and of one another. */
  ghost predicate StagingApart(h: Holdings) {
    && (forall r, id, s :: Reserved(h, r, id) && s in h ==> !Overlap(Staging(r, id), s))
    && (forall r, id, s, other :: Reserved(h, r, id) && Reserved(h, s, other) && (r, id) != (s, other) ==>
          !Overlap(Staging(r, id), Staging(s, other)))
  }

  // ---------------------------------------------------------------- what reconcile_set checks

  /** _validate_plan_set on one pair. */
  predicate Apart(p: Plan, q: Plan) {
    && !Overlap(p.root, q.root)
    && (forall id :: id in p.targets ==> !Overlap(Staging(p.root, id), q.root))
    && (forall id :: id in q.targets ==> !Overlap(Staging(q.root, id), p.root))
    && (forall id, other :: id in p.targets && other in q.targets ==> !Overlap(Staging(p.root, id), Staging(q.root, other)))
  }

  predicate PlansApart(plans: seq<Plan>) {
    forall i, j :: 0 <= i < j < |plans| ==> Apart(plans[i], plans[j])
  }

  /** A reserved target that a new plan may take over. */
  predicate Exempt(r: Path, held: Holding, id: string, plan: Plan, other: string, retiring: set<Path>) {
    id == other && (r == plan.root || (r in retiring && held.build == plan.build))
  }

  /** _validate_registry on one claim and one plan. */
  predicate FitsClaim(r: Path, held: Holding, plan: Plan, retiring: set<Path>) {
    && (Overlap(r, plan.root) ==> r == plan.root)
    && (forall id :: id in held.targets ==> !Overlap(Staging(r, id), plan.root))
    && (forall other :: other in plan.targets ==> !Overlap(r, Staging(plan.root, other)))
    && (forall id, other :: id in held.targets && other in plan.targets ==>
          Exempt(r, held, id, plan, other, retiring) || !Overlap(Staging(r, id), Staging(plan.root, other)))
  }

  ghost predicate Fits(h: Holdings, plan: Plan, retiring: set<Path>) {
    forall r :: r in h ==> FitsClaim(r, h[r], plan, retiring)
  }

  /** No output root and no staging directory may touch the coordinator's own files. */
  predicate ClearOf(lockRoot: Path, plan: Plan) {
    !Overlap(plan.root, lockRoot) && forall id :: id in plan.targets ==> !(Staging(plan.root, id) <= lockRoot)
  }

  // ---------------------------------------------------------------- where staging directories can meet

  /** Two staging directories that keep clear of each other's roots meet only if they are the same directory:
      sibling roots and the same target. */
  lemma SharedStaging(r: Path, id: string, s: Path, other: string)
    requires r != [] && s != [] && !Overlap(Staging(r, id), s) && !Overlap(Staging(s, other), r)
    ensures Overlap(Staging(r, id), Staging(s, other)) <==> r[..|r| - 1] == s[..|s| - 1] && id == other
  {
    var a, b := Staging(r, id), Staging(s, other);
    if Overlap(a, b) {
      assert a == b && a[|a| - 1] == b[|b| - 1];
      assert id == a[|a| - 1][|MARKER|..] && other == b[|b| - 1][|MARKER|..];
      assert r[..|r| - 1] == a[..|a| - 1] && s[..|s| - 1] == b[..|b| - 1];
    }
  }

  /** A staging directory lies beside the root and carries its target's identity in its name. */
  lemma StagingIs(parent: Path, name: string, id: string)
    ensures Staging(parent + [name], id) == parent + [".protocyte-generation-staging-" + id]
  {
  }

  /** The staging directories of one plan are distinct siblings. */
  lemma OwnStagingApart(r: Path, id: string, other: string)
    requires id != other
    ensures !Overlap(Staging(r, id), Staging(r, other))
  {
    var a, b := Staging(r, id), Staging(r, other);
    assert a[|a| - 1] == MARKER + id && b[|b| - 1] == MARKER + other && |a| == |b|;
    assert (MARKER + id)[|MARKER|..] == id && (MARKER + other)[|MARKER|..] == other;
  }

  /** An accepted plan's staging directories lie outside the coordinator's own directory too, so that removing one
      can never remove a claim. */
  lemma StagingClearOf(lockRoot: Path, plan: Plan)
    requires ValidPlan(plan)
    ensures ClearOf(lockRoot, plan) <==>
              && !(plan.root <= lockRoot) && !(lockRoot <= plan.root)
              && forall id :: id in plan.targets ==> !Overlap(Staging(plan.root, id), lockRoot)
  {
    forall id | id in plan.targets && ClearOf(lockRoot, plan) ensures !Overlap(Staging(plan.root, id), lockRoot) {
      assert |Staging(plan.root, id)| == |plan.root|;
    }
  }

  // ---------------------------------------------------------------- what each durable step keeps

  function Claiming(h: Holdings, plan: Plan): Holdings { h[plan.root := Holding(plan.build, {})] }

  function Recording(h: Holdings, plan: Plan): Holdings
    requires plan.root in h
  {
    h[plan.root := h[plan.root].(targets := plan.targets)]
  }

  /** A new claim keeps roots and staging apart. */
  lemma ClaimKeeps(h: Holdings, plan: Plan, retiring: set<Path>)
    requires Fits(h, plan, retiring) && plan.root !in h
    ensures RootsApart(h) ==> RootsApart(Claiming(h, plan))
    ensures StagingApart(h) ==> StagingApart(Claiming(h, plan))
  {
    var g := Claiming(h, plan);
    assert forall r :: r in h ==> FitsClaim(r, h[r], plan, retiring);
    if StagingApart(h) {
      assert forall r, id :: Reserved(g, r, id) ==> Reserved(h, r, id);
      forall r, id, s | Reserved(g, r, id) && s in g ensures !Overlap(Staging(r, id), s) {
        if s == plan.root { assert FitsClaim(r, h[r], plan, retiring); } else { assert Reserved(h, r, id) && s in h; }
      }
    }
  }

  /** Recording a plan that fits without exemptions keeps staging apart. */
  lemma RecordKeeps(h: Holdings, plan: Plan)
    requires plan.root in h && ValidPlan(plan) && Fits(h, plan, {}) && StagingApart(h)
    ensures StagingApart(Recording(h, plan))
  {
    var g := Recording(h, plan);
    forall r, id, s | Reserved(g, r, id) && s in g ensures !Overlap(Staging(r, id), s) {
      if r != plan.root {
        assert Reserved(h, r, id);
      } else {
        assert FitsClaim(s, h[s], plan, {});
      }
    }
    forall r, id, s, other | Reserved(g, r, id) && Reserved(g, s, other) && (r, id) != (s, other)
      ensures !Overlap(Staging(r, id), Staging(s, other))
    {
      if r == s {
        OwnStagingApart(r, id, other);
      } else if r == plan.root {
        assert FitsClaim(s, h[s], plan, {}) && !Exempt(s, h[s], other, plan, id, {});
      } else if s == plan.root {
        assert FitsClaim(r, h[r], plan, {}) && !Exempt(r, h[r], id, plan, other, {});
      } else {
        assert Reserved(h, r, id) && Reserved(h, s, other);
      }
    }
  }

  /** A plan without targets frees what its root had reserved. */
  lemma FreeKeeps(h: Holdings, plan: Plan)
    requires plan.root in h && plan.targets == {}
    ensures StagingApart(h) ==> StagingApart(Recording(h, plan))
  {
    var g := Recording(h, plan);
    assert forall r, id :: Reserved(g, r, id) ==> Reserved(h, r, id);
  }

  lemma ReleaseKeeps(h: Holdings, r: Path)
    ensures RootsApart(h) ==> RootsApart(h - {r})
    ensures StagingApart(h) ==> StagingApart(h - {r})
  {
    assert forall s, id :: Reserved(h - {r}, s, id) ==> Reserved(h, s, id);
  }

  /** What one plan does leaves room for the other plans of the set. */
  lemma FitsStays(h: Holdings, plan: Plan, other: Plan, retiring: set<Path>)
    requires Fits(h, other, retiring) && Apart(plan, other)
    ensures Fits(Claiming(h, plan), other, retiring)
    ensures plan.root in h ==> Fits(Recording(h, plan), other, retiring)
  {
    assert FitsClaim(plan.root, Holding(plan.build, {}), other, retiring);
    if plan.root in h {
      var held := h[plan.root].(targets := plan.targets);
      assert FitsClaim(plan.root, held, other, retiring);
      assert Recording(h, plan)[plan.root] == held;
    }
  }

  lemma ApartSymmetric(p: Plan, q: Plan)
    requires Apart(p, q)
    ensures Apart(q, p)
  {
  }

  /** Once a retiring root has given up its targets, nobody needs its exemption. */
  lemma FitsAfterFree(h: Holdings, plan: Plan, other: Plan, retiring: set<Path>)
    requires Fits(h, other, retiring) && plan.root in h && plan.targets == {}
    ensures Fits(Recording(h, plan), other, retiring)
  {
    var g := Recording(h, plan);
    assert FitsClaim(plan.root, h[plan.root], other, retiring);
    forall r | r in g ensures FitsClaim(r, g[r], other, retiring) {
      if r != plan.root { assert FitsClaim(r, h[r], other, retiring); }
    }
  }

  /** More retiring roots never take room away. */
  lemma FitsMore(h: Holdings, plan: Plan, retiring: set<Path>, more: set<Path>)
    requires Fits(h, plan, retiring) && retiring <= more
    ensures Fits(h, plan, more)
  {
    hide Overlap, Staging;
    forall r | r in h ensures FitsClaim(r, h[r], plan, more) { assert FitsClaim(r, h[r], plan, retiring); }
  }

  lemma ExemptionGone(r: Path, held: Holding, plan: Plan, retiring: set<Path>)
    requires FitsClaim(r, held, plan, retiring)
    requires r in retiring && held.build == plan.build ==> held.targets == {}
    ensures FitsClaim(r, held, plan, {})
  {
    hide Overlap, Staging;
  }

  lemma ExemptionsGone(h: Holdings, plan: Plan, retiring: set<Path>)
    requires Fits(h, plan, retiring)
    requires forall r :: r in h && r in retiring && h[r].build == plan.build ==> h[r].targets == {}
    ensures Fits(h, plan, {})
  {
    hide FitsClaim;
    forall r | r in h ensures FitsClaim(r, h[r], plan, {}) {
      ExemptionGone(r, h[r], plan, retiring);
    }
  }

  // ---------------------------------------------------------------- the checks are exact

  /** The reservations that are left when the retiring roots of the plan's build yield the plan's targets. */
  ghost function Yielded(h: Holdings, plan: Plan, retiring: set<Path>): Holdings {
    map r | r in h ::
      if r in retiring && h[r].build == plan.build then Holding(h[r].build, h[r].targets - plan.targets) else h[r]
  }

  /** The plan's root, with all the plan reserves, among the given holdings. */
  ghost function HoldingToo(h: Holdings, plan: Plan): Holdings { h[plan.root := Holding(plan.build, plan.targets)] }

  /** A plan fits exactly when holding it, beside what retiring roots of its build do not yield to it, keeps roots and
      staging apart, and no reserved staging directory touches its root. */
  lemma FitsExactly(h: Holdings, plan: Plan, retiring: set<Path>)
    requires RootsApart(h) && StagingApart(h) && ValidPlan(plan)
    ensures Fits(h, plan, retiring) <==>
              && RootsApart(HoldingToo(h, plan)) && StagingApart(HoldingToo(Yielded(h, plan, retiring), plan))
              && forall r, id :: Reserved(h, r, id) ==> !Overlap(Staging(r, id), plan.root)
  {
    if Fits(h, plan, retiring) { FitsKeepsApart(h, plan, retiring); }
    if && RootsApart(HoldingToo(h, plan)) && StagingApart(HoldingToo(Yielded(h, plan, retiring), plan))
       && forall r, id :: Reserved(h, r, id) ==> !Overlap(Staging(r, id), plan.root)
    {
      forall r | r in h ensures FitsClaim(r, h[r], plan, retiring) { ApartFits(h, plan, retiring, r); }
    }
  }

  lemma FitsKeepsApart(h: Holdings, plan: Plan, retiring: set<Path>)
    requires RootsApart(h) && StagingApart(h) && ValidPlan(plan) && Fits(h, plan, retiring)
    ensures RootsApart(HoldingToo(h, plan)) && StagingApart(HoldingToo(Yielded(h, plan, retiring), plan))
    ensures forall r, id :: Reserved(h, r, id) ==> !Overlap(Staging(r, id), plan.root)
  {
    hide Overlap, Staging, FitsClaim;
    forall r | r in h
      ensures r != plan.root ==> !Overlap(r, plan.root) && !Overlap(plan.root, r)
      ensures forall id :: id in h[r].targets ==> !Overlap(Staging(r, id), plan.root)
      ensures forall other :: other in plan.targets ==> !Overlap(Staging(plan.root, other), r)
    {
      FitsRoots(r, h[r], plan, retiring);
    }
    var y := Yielded(h, plan, retiring);
    var g := HoldingToo(y, plan);
    forall r, id | Reserved(g, r, id) ensures r == plan.root || Reserved(h, r, id) {}
    forall r, id, s | Reserved(g, r, id) && s in g ensures !Overlap(Staging(r, id), s) {
      if r == plan.root && s == plan.root { assert !Overlap(Staging(plan.root, id), plan.root); }
    }
    forall r, id, s, other | Reserved(g, r, id) && Reserved(g, s, other) && (r, id) != (s, other)
      ensures !Overlap(Staging(r, id), Staging(s, other))
    {
      if r == plan.root && s == plan.root {
        OwnStagingApart(r, id, other);
      } else if s == plan.root {
        FitsStaging(r, h[r], plan, retiring, id, other);
      } else if r == plan.root {
        FitsStaging(s, h[s], plan, retiring, other, id);
        Symmetric(Staging(r, id), Staging(s, other));
      } else {
        assert Reserved(h, r, id) && Reserved(h, s, other);
      }
    }
  }

  lemma Symmetric(a: Path, b: Path)
    ensures Overlap(a, b) <==> Overlap(b, a)
  {
  }

  lemma FitsRoots(r: Path, held: Holding, plan: Plan, retiring: set<Path>)
    requires FitsClaim(r, held, plan, retiring)
    ensures r != plan.root ==> !Overlap(r, plan.root) && !Overlap(plan.root, r)
    ensures forall id :: id in held.targets ==> !Overlap(Staging(r, id), plan.root)
    ensures forall other :: other in plan.targets ==> !Overlap(Staging(plan.root, other), r)
  {
    hide Staging;
  }

  lemma FitsStaging(r: Path, held: Holding, plan: Plan, retiring: set<Path>, id: string, other: string)
    requires FitsClaim(r, held, plan, retiring) && r != plan.root && id in held.targets && other in plan.targets
    requires r in retiring && held.build == plan.build ==> id !in plan.targets
    ensures !Overlap(Staging(r, id), Staging(plan.root, other))
  {
    hide Staging, Overlap;
  }

  lemma ApartFits(h: Holdings, plan: Plan, retiring: set<Path>, r: Path)
    requires StagingApart(h) && r in h
    requires RootsApart(HoldingToo(h, plan)) && StagingApart(HoldingToo(Yielded(h, plan, retiring), plan))
    requires forall r, id :: Reserved(h, r, id) ==> !Overlap(Staging(r, id), plan.root)
    ensures FitsClaim(r, h[r], plan, retiring)
  {
    var g, g' := HoldingToo(h, plan), HoldingToo(Yielded(h, plan, retiring), plan);
    assert r in g && plan.root in g && r in g';
    if r != plan.root { assert !Overlap(r, plan.root); }
    forall id | id in h[r].targets ensures !Overlap(Staging(r, id), plan.root) { assert Reserved(h, r, id); }
    forall other | other in plan.targets ensures !Overlap(r, Staging(plan.root, other)) {
      assert Reserved(g', plan.root, other);
      Symmetric(r, Staging(plan.root, other));
    }
    hide Overlap, Staging;
    forall id, other | id in h[r].targets && other in plan.targets && !Exempt(r, h[r], id, plan, other, retiring)
      ensures !Overlap(Staging(r, id), Staging(plan.root, other))
    {
      assert Reserved(g', plan.root, other);
      if r == plan.root {
        OwnStagingApart(r, id, other);
      } else if r in retiring && h[r].build == plan.build && id in plan.targets {
        OtherTarget(h, g', plan, r, id, other);
      } else {
        assert Reserved(g', r, id);
      }
    }
  }

  /** Two targets of one plan are apart, and so are a held target and another target at whatever roots. */
  lemma OtherTarget(h: Holdings, g: Holdings, plan: Plan, r: Path, id: string, other: string)
    requires r != [] && plan.root != [] && id != other
    requires !Overlap(Staging(r, id), plan.root) && !Overlap(Staging(plan.root, other), r)
    ensures !Overlap(Staging(r, id), Staging(plan.root, other))
  {
    SharedStaging(r, id, plan.root, other);
  }

  /** Recording over a claimed root fits exactly when the result is disjoint: recording the same plan again always does. */
  lemma RecordExactly(h: Holdings, plan: Plan)
    requires RootsApart(h) && StagingApart(h) && ValidPlan(plan) && plan.root in h
    ensures Fits(h, plan, {}) <==> StagingApart(h[plan.root := Holding(h[plan.root].build, plan.targets)])
    ensures h[plan.root].targets == plan.targets ==> Fits(h, plan, {})
  {
    FitsExactly(h, plan, {});
    assert Yielded(h, plan, {}) == h;
    var g := h[plan.root := Holding(h[plan.root].build, plan.targets)];
    SameReservations(HoldingToo(h, plan), g);
    assert RootsApart(HoldingToo(h, plan)) by { assert HoldingToo(h, plan).Keys == h.Keys; }
    if h[plan.root].targets == plan.targets { SameReservations(h, g); }
    forall r, id | Reserved(h, r, id) ensures !Overlap(Staging(r, id), plan.root) {}
    hide Fits, StagingApart, RootsApart, Overlap;
  }

  lemma SameReservations(a: Holdings, b: Holdings)
    requires a.Keys == b.Keys && forall r :: r in a ==> a[r].targets == b[r].targets
    ensures StagingApart(a) <==> StagingApart(b)
  {
    forall r, id ensures Reserved(a, r, id) <==> Reserved(b, r, id) {}
    hide Overlap, Staging, Reserved;
  }

  /** A plan for a new root fits exactly when claiming and recording it keeps roots and staging apart. */
  lemma ClaimExactly(h: Holdings, plan: Plan)
    requires RootsApart(h) && StagingApart(h) && ValidPlan(plan) && plan.root !in h
    ensures Fits(h, plan, {}) <==>
              var g := h[plan.root := Holding(plan.build, plan.targets)]; RootsApart(g) && StagingApart(g)
  {
    FitsExactly(h, plan, {});
    assert Yielded(h, plan, {}) == h;
    var g := HoldingToo(h, plan);
    if StagingApart(g) {
      forall r, id | Reserved(h, r, id) ensures !Overlap(Staging(r, id), plan.root) { assert Reserved(g, r, id); }
    }
    hide Fits, Overlap, Staging, Reserved;
  }

  /** The plans of one set are checked exactly as if they were held side by side. */
  lemma ApartExactly(p: Plan, q: Plan)
    requires ValidPlan(p) && ValidPlan(q) && p.root != q.root
    ensures Apart(p, q) <==>
              var h: Holdings := map[p.root := Holding(p.build, p.targets), q.root := Holding(q.build, q.targets)];
              RootsApart(h) && StagingApart(h)
  {
    var h: Holdings := map[p.root := Holding(p.build, p.targets), q.root := Holding(q.build, q.targets)];
    Symmetric(p.root, q.root);
    forall r, id ensures Reserved(h, r, id) <==> (r == p.root && id in p.targets) || (r == q.root && id in q.targets) {}
    hide Overlap, Staging, Reserved;
    if Apart(p, q) { ApartHeld(p, q, h); }
    if RootsApart(h) && StagingApart(h) { HeldApart(p, q, h); }
  }

  lemma ApartHeld(p: Plan, q: Plan, h: Holdings)
    requires ValidPlan(p) && ValidPlan(q) && p.root != q.root && Apart(p, q) && h.Keys == {p.root, q.root}
    requires forall r, id :: Reserved(h, r, id) <==> (r == p.root && id in p.targets) || (r == q.root && id in q.targets)
    ensures RootsApart(h) && StagingApart(h)
  {
    Symmetric(p.root, q.root);
    hide Overlap, Staging, Reserved;
    forall r, id, s, other | Reserved(h, r, id) && Reserved(h, s, other) && (r, id) != (s, other)
      ensures !Overlap(Staging(r, id), Staging(s, other))
    {
      if r == s { OwnStagingApart(r, id, other); } else { Symmetric(Staging(r, id), Staging(s, other)); }
    }
  }

  lemma HeldApart(p: Plan, q: Plan, h: Holdings)
    requires p.root != q.root && h.Keys == {p.root, q.root} && RootsApart(h) && StagingApart(h)
    requires forall r, id :: Reserved(h, r, id) <==> (r == p.root && id in p.targets) || (r == q.root && id in q.targets)
    ensures Apart(p, q)
  {
    hide Overlap, Staging;
    assert p.root in h && q.root in h;
    forall id | id in p.targets ensures !Overlap(Staging(p.root, id), q.root) { assert Reserved(h, p.root, id); }
    forall id | id in q.targets ensures !Overlap(Staging(q.root, id), p.root) { assert Reserved(h, q.root, id); }
    forall id, other | id in p.targets && other in q.targets ensures !Overlap(Staging(p.root, id), Staging(q.root, other)) {
      assert Reserved(h, p.root, id) && Reserved(h, q.root, other);
    }
  }
}
