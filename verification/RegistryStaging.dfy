/** What a whole reconcile-set leaves reserved, and exactly when that is disjoint. */
module RegistryStaging {
  import opened Options
  import opened RegistryModel
  import opened RegistryState

  /** What is held after every claim is made and the retired plans that are owned have been recorded. */
  ghost function RetiredPass(reg: map<Path, State>, retired: seq<Plan>, current: seq<Plan>): Holdings {
    RecordedAll(ClaimingAll(Held(reg), current), OwnedOf(reg, retired))
  }

  /** What is held once the whole set is done. */
  ghost function Reconciled(reg: map<Path, State>, retired: seq<Plan>, current: seq<Plan>): Holdings {
    RecordedAll(RetiredPass(reg, retired, current), current)
  }

  predicate Siblings(r: Path, s: Path) {
    r != [] && s != [] && r[..|r| - 1] == s[..|s| - 1]
  }

  /** A target that a root outside the current plans still reserves after the retired pass. */
  ghost predicate Leftover(g: Holdings, current: seq<Plan>, r: Path, id: string) {
    Reserved(g, r, id) && r !in Roots(current)
  }

  /** The leftovers keep clear of every root, of one another, and of what the current plans reserve beside them. */
  ghost predicate LeftoversClear(g: Holdings, current: seq<Plan>) {
    && (forall r, id, s :: Leftover(g, current, r, id) && s in g ==> !Overlap(Staging(r, id), s))
    && (forall r, id, s, other :: Leftover(g, current, r, id) && Leftover(g, current, s, other) && (r, id) != (s, other) ==>
          !Overlap(Staging(r, id), Staging(s, other)))
    && (forall r, id, q :: Leftover(g, current, r, id) && q in current && id in q.targets ==> !Siblings(r, q.root))
  }

  /** A retired root, held by the build of a current plan at a sibling root, still reserves a target of that plan. */
  ghost predicate TakenOver(g: Holdings, retired: seq<Plan>, current: seq<Plan>) {
    exists r, id, q :: Shared(g, retired, current, r, id, q)
  }

  ghost predicate Shared(g: Holdings, retired: seq<Plan>, current: seq<Plan>, r: Path, id: string, q: Plan) {
    && r in Roots(retired) && Leftover(g, current, r, id)
    && q in current && g[r].build == q.build && id in q.targets && Siblings(r, q.root)
  }

  /** Retired plans list nothing that their claims do not reserve already. */
  ghost predicate Listed(reg: map<Path, State>, retired: seq<Plan>) {
    forall p :: p in retired && Owned(reg, p) ==> p.targets <= Targets(reg[p.root])
  }

  // ---------------------------------------------------------------- what is held, root by root

  lemma {:induction false} RecordedAt(g: Holdings, plans: seq<Plan>)
    requires DistinctRoots(plans) && forall p :: p in plans ==> p.root in g
    ensures RecordedOf(g, RecordedAll(g, plans), plans)
  {
    if plans != [] {
      var n := |plans| - 1;
      var init, plan := plans[..n], plans[n];
      assert plans == init + [plan] && plan in plans;
      assert forall p :: p in init ==> p in plans && p.root != plan.root;
      RecordedAt(g, init);
      RecordedNext(g, RecordedAll(g, init), init, plan);
    }
  }

  /** `f` is `g` with every plan of the list recorded. */
  ghost predicate RecordedOf(g: Holdings, f: Holdings, plans: seq<Plan>) {
    && f.Keys == g.Keys
    && (forall r :: r in g && r !in Roots(plans) ==> f[r] == g[r])
    && (forall p :: p in plans && p.root in f ==> f[p.root].targets == p.targets)
  }

  lemma RecordedNext(g: Holdings, f: Holdings, init: seq<Plan>, plan: Plan)
    requires RecordedOf(g, f, init) && plan.root in f && forall p :: p in init ==> p.root != plan.root
    ensures RecordedOf(g, Recording(f, plan), init + [plan])
  {
    RootsNext(init, plan);
    hide Roots;
  }

  /** Recording changes neither the roots nor the builds, and every new reservation is one of a listed plan. */
  lemma {:induction false} RecordedFrom(h: Holdings, plans: seq<Plan>)
    ensures RecordedAll(h, plans).Keys == h.Keys
    ensures forall r :: r in h ==> RecordedAll(h, plans)[r].build == h[r].build
    ensures forall r :: r in h ==> RecordedAll(h, plans)[r].targets == h[r].targets ||
                                   exists p :: p in plans && p.root == r && p.targets == RecordedAll(h, plans)[r].targets
  {
    if plans != [] {
      var n := |plans| - 1;
      var init, plan := plans[..n], plans[n];
      RecordedFrom(h, init);
      assert plans == init + [plan] && plan in plans;
      forall r | r in h && RecordedAll(h, plans)[r].targets != h[r].targets
        ensures exists p :: p in plans && p.root == r && p.targets == RecordedAll(h, plans)[r].targets
      {
        if r != plan.root {
          var p :| p in init && p.root == r && p.targets == RecordedAll(h, init)[r].targets;
          assert p in plans;
        }
      }
    }
  }

  /** `g` is `h` with the roots of the plans claimed. */
  ghost predicate ClaimedOf(h: Holdings, g: Holdings, plans: seq<Plan>) {
    g.Keys == h.Keys + Roots(plans) && forall r :: r in g ==> if r in h then g[r] == h[r] else g[r].targets == {}
  }

  lemma ClaimedNext(h: Holdings, g: Holdings, init: seq<Plan>, plan: Plan)
    requires ClaimedOf(h, g, init)
    ensures ClaimedOf(h, if plan.root in g then g else Claiming(g, plan), init + [plan])
  {
    RootsNext(init, plan);
    hide Roots;
  }

  lemma RootsNext(init: seq<Plan>, plan: Plan)
    ensures Roots(init + [plan]) == Roots(init) + {plan.root}
  {
  }

  /** Claiming the current roots adds roots that reserve nothing, and keeps room for every current plan. */
  lemma {:induction false} ClaimedAll(h: Holdings, current: seq<Plan>, n: nat, retiring: set<Path>)
    requires n <= |current| && PlansApart(current) && Fitting(h, current, retiring) && forall p :: p in current ==> ValidPlan(p)
    ensures Fitting(ClaimingAll(h, current[..n]), current, retiring) && ClaimedOf(h, ClaimingAll(h, current[..n]), current[..n])
  {
    hide Fitting, PlansApart, ValidPlan, Claiming;
    if n == 0 {
      assert current[..n] == [];
      assert ClaimedOf(h, h, []);
    } else {
      hide ClaimedOf;
      var init := current[..n - 1];
      assert current[..n][..n - 1] == init && current[..n] == init + [current[n - 1]];
      ClaimedAll(h, current, n - 1, retiring);
      ClaimedOne(ClaimingAll(h, init), current, n - 1, retiring);
      ClaimedNext(h, ClaimingAll(h, init), init, current[n - 1]);
    }
  }

  lemma ClaimedOne(h: Holdings, current: seq<Plan>, i: nat, retiring: set<Path>)
    requires i < |current| && PlansApart(current) && Fitting(h, current, retiring) && ValidPlan(current[i])
    ensures Fitting(Claiming(h, current[i]), current, retiring)
  {
    hide Fits, Apart, Claiming;
    forall j | 0 <= j < |current| ensures Fits(Claiming(h, current[i]), current[j], retiring) {
      FittingOne(h, current, retiring, j);
      if j == i { FitsOwn(h, current[i], retiring); } else { PairApart(current, i, j); FitsStays(h, current[i], current[j], retiring); }
    }
  }

  // ---------------------------------------------------------------- exactly when staging ends disjoint

  lemma ClearOfHeld(h: Holdings, current: seq<Plan>, retiring: set<Path>, q: Plan, r: Path, other: string)
    requires Fitting(h, current, retiring) && q in current && r in h && other in q.targets
    ensures !Overlap(Staging(q.root, other), r)
  {
    var i :| 0 <= i < |current| && current[i] == q;
    FittingOne(h, current, retiring, i);
    assert FitsClaim(r, h[r], q, retiring);
  }

  lemma CurrentApart(current: seq<Plan>, p: Plan, q: Plan, id: string, other: string)
    requires PlansApart(current) && p in current && q in current && id in p.targets && other in q.targets
    requires (p.root, id) != (q.root, other)
    ensures !Overlap(Staging(p.root, id), Staging(q.root, other))
  {
    if p == q {
      OwnStagingApart(p.root, id, other);
    } else {
      var i :| 0 <= i < |current| && current[i] == p;
      var j :| 0 <= j < |current| && current[j] == q;
      PairApart(current, i, j);
    }
  }

  lemma PlanOfRoot(current: seq<Plan>, r: Path) returns (q: Plan)
    requires r in Roots(current)
    ensures q in current && q.root == r
  {
    q :| q in current && q.root == r;
  }

  /** What the final holdings reserve: the leftovers, and what the current plans list. */
  lemma FinalReserved(g: Holdings, current: seq<Plan>, r: Path, id: string)
    requires DistinctRoots(current) && forall q :: q in current ==> q.root in g
    ensures Reserved(RecordedAll(g, current), r, id) <==>
              Leftover(g, current, r, id) || exists q :: q in current && q.root == r && id in q.targets
    ensures RecordedAll(g, current).Keys == g.Keys
  {
    RecordedAt(g, current);
    if r in Roots(current) { var q := PlanOfRoot(current, r); }
    if q :| q in current && q.root == r && id in q.targets { assert r in Roots(current); }
  }

  lemma MixedApart(h: Holdings, g: Holdings, current: seq<Plan>, retiring: set<Path>, r: Path, id: string, q: Plan, other: string)
    requires Fitting(h, current, retiring) && g.Keys == h.Keys && r != [] && q.root != []
    requires LeftoversClear(g, current) && Leftover(g, current, r, id) && q in current && other in q.targets && q.root in g
    ensures !Overlap(Staging(r, id), Staging(q.root, other))
  {
    ClearOfHeld(h, current, retiring, q, r, other);
    assert !Overlap(Staging(r, id), q.root);
    SharedStaging(r, id, q.root, other);
  }

  lemma FinalApart(h: Holdings, g: Holdings, current: seq<Plan>, retiring: set<Path>)
    requires PlansApart(current) && DistinctRoots(current) && Fitting(h, current, retiring) && g.Keys == h.Keys
    requires (forall q :: q in current ==> q.root in g) && forall r :: r in g ==> r != []
    ensures StagingApart(RecordedAll(g, current)) <==> LeftoversClear(g, current)
  {
    hide PlansApart, Fitting, Overlap, Staging, RecordedAll, DistinctRoots, Roots;
    var f := RecordedAll(g, current);
    forall r, id ensures Reserved(f, r, id) <==>
                           Leftover(g, current, r, id) || exists q :: q in current && q.root == r && id in q.targets
    {
      FinalReserved(g, current, r, id);
    }
    FinalReserved(g, current, [], "");
    if StagingApart(f) { FinalClear(g, current, f); }
    if LeftoversClear(g, current) { ClearFinal(h, g, current, retiring, f); }
  }

  lemma FinalClear(g: Holdings, current: seq<Plan>, f: Holdings)
    requires StagingApart(f) && f.Keys == g.Keys
    requires forall r, id :: Reserved(f, r, id) <==>
               Leftover(g, current, r, id) || exists q :: q in current && q.root == r && id in q.targets
    ensures LeftoversClear(g, current)
  {
    hide Overlap, Leftover, Reserved, Staging;
    forall r, id, q | Leftover(g, current, r, id) && q in current && id in q.targets ensures !Siblings(r, q.root) {
      assert Reserved(f, r, id) && Reserved(f, q.root, id);
      NotItsRoot(g, current, r, id, q);
      SiblingsShare(r, q.root, id);
    }
  }

  lemma NotItsRoot(g: Holdings, current: seq<Plan>, r: Path, id: string, q: Plan)
    requires Leftover(g, current, r, id) && q in current
    ensures r != q.root
  {
  }

  lemma SiblingsShare(r: Path, s: Path, id: string)
    ensures Siblings(r, s) ==> Overlap(Staging(r, id), Staging(s, id))
  {
  }

  lemma ClearFinal(h: Holdings, g: Holdings, current: seq<Plan>, retiring: set<Path>, f: Holdings)
    requires LeftoversClear(g, current) && f.Keys == g.Keys == h.Keys && PlansApart(current) && Fitting(h, current, retiring)
    requires (forall q :: q in current ==> q.root in g) && forall r :: r in g ==> r != []
    requires forall r, id :: Reserved(f, r, id) <==>
               Leftover(g, current, r, id) || exists q :: q in current && q.root == r && id in q.targets
    ensures StagingApart(f)
  {
    hide Overlap, Leftover, Reserved, Staging, LeftoversClear, Fitting, PlansApart;
    forall r, id, s | Reserved(f, r, id) && s in f ensures !Overlap(Staging(r, id), s) {
      if q :| q in current && q.root == r && id in q.targets {
        ClearOfHeld(h, current, retiring, q, s, id);
      } else {
        ClearOfRoot(g, current, r, id, s);
      }
    }
    forall r, id, s, other | Reserved(f, r, id) && Reserved(f, s, other) && (r, id) != (s, other)
      ensures !Overlap(Staging(r, id), Staging(s, other))
    {
      if p :| p in current && p.root == r && id in p.targets {
        if q :| q in current && q.root == s && other in q.targets {
          CurrentApart(current, p, q, id, other);
        } else {
          IsRoot(g, current, s, other);
          MixedApart(h, g, current, retiring, s, other, p, id);
          OverlapSymmetric(Staging(r, id), Staging(s, other));
        }
      } else if q :| q in current && q.root == s && other in q.targets {
        IsRoot(g, current, r, id);
        MixedApart(h, g, current, retiring, r, id, q, other);
      } else {
        ClearOfOther(g, current, r, id, s, other);
      }
    }
  }

  lemma IsRoot(g: Holdings, current: seq<Plan>, r: Path, id: string)
    requires Leftover(g, current, r, id)
    ensures r in g
  {
  }

  lemma OverlapSymmetric(a: Path, b: Path)
    ensures Overlap(a, b) <==> Overlap(b, a)
  {
  }

  lemma ClearOfRoot(g: Holdings, current: seq<Plan>, r: Path, id: string, s: Path)
    requires LeftoversClear(g, current) && Leftover(g, current, r, id) && s in g
    ensures !Overlap(Staging(r, id), s)
  {
  }

  lemma ClearOfOther(g: Holdings, current: seq<Plan>, r: Path, id: string, s: Path, other: string)
    requires LeftoversClear(g, current) && Leftover(g, current, r, id) && Leftover(g, current, s, other) && (r, id) != (s, other)
    ensures !Overlap(Staging(r, id), Staging(s, other))
  {
  }

  ghost predicate AllValid(plans: seq<Plan>) { forall p :: p in plans ==> ValidPlan(p) }

  lemma AreValid(retired: seq<Plan>, current: seq<Plan>)
    requires forall p :: p in retired || p in current ==> ValidPlan(p)
    ensures AllValid(current)
  {
  }

  /** What an accepted set leads to, so far. */
  lemma AcceptedFacts(reg: map<Path, State>, retired: seq<Plan>, current: seq<Plan>, lockRoot: Path)
    requires Consistent(reg) && Acceptable(reg, retired, current, lockRoot) && AllValid(current)
    ensures var h, g := ClaimingAll(Held(reg), current), RetiredPass(reg, retired, current);
      && PlansApart(current) && DistinctRoots(current) && Fitting(Held(reg), current, Roots(retired))
      && Fitting(h, current, Roots(retired)) && g.Keys == h.Keys == Held(reg).Keys + Roots(current)
      && (forall q :: q in current ==> q.root in g) && (forall r :: r in g ==> r != [])
  {
    var retiring := Roots(retired);
    forall i | 0 <= i < |current| ensures Fits(Held(reg), current[i], retiring) {}
    forall i, j | 0 <= i < j < |current| ensures current[i].root != current[j].root { RootsDiffer(current[i], current[j]); }
    assert Fitting(Held(reg), current, retiring);
    ClaimedAll(Held(reg), current, |current|, retiring);
    assert current[..|current|] == current;
    RecordedFrom(ClaimingAll(Held(reg), current), OwnedOf(reg, retired));
    forall r | r in Held(reg) ensures r != [] { assert WellFormed(r, reg[r]); }
  }

  /** For every acceptable set: the staging it ends with is disjoint exactly when what other roots still reserve after the
      retired pass is clear of everything. */
  lemma ReconciledApart(reg: map<Path, State>, retired: seq<Plan>, current: seq<Plan>, lockRoot: Path)
    requires Consistent(reg) && Acceptable(reg, retired, current, lockRoot) && AllValid(current)
    ensures StagingApart(Reconciled(reg, retired, current)) <==> LeftoversClear(RetiredPass(reg, retired, current), current)
  {
    AcceptedFacts(reg, retired, current, lockRoot);
    hide *;
    FinalApart(ClaimingAll(Held(reg), current), RetiredPass(reg, retired, current), current, Roots(retired));
    IsReconciled(reg, retired, current);
  }

  lemma IsReconciled(reg: map<Path, State>, retired: seq<Plan>, current: seq<Plan>)
    ensures Reconciled(reg, retired, current) == RecordedAll(RetiredPass(reg, retired, current), current)
  {
  }

  /** Leftovers of retired plans that list nothing new were reserved before. */
  lemma LeftoverWasHeld(reg: map<Path, State>, retired: seq<Plan>, current: seq<Plan>, lockRoot: Path, r: Path, id: string)
    requires Consistent(reg) && Acceptable(reg, retired, current, lockRoot) && AllValid(current) && Listed(reg, retired)
    requires Leftover(RetiredPass(reg, retired, current), current, r, id)
    ensures Reserved(Held(reg), r, id) && RetiredPass(reg, retired, current)[r].build == Held(reg)[r].build
  {
    var h, h', g := Held(reg), ClaimingAll(Held(reg), current), RetiredPass(reg, retired, current);
    AcceptedFacts(reg, retired, current, lockRoot);
    ClaimedAll(h, current, |current|, Roots(retired));
    assert current[..|current|] == current;
    RecordedFrom(h', OwnedOf(reg, retired));
    hide Acceptable, Fitting, PlansApart, DistinctRoots, Consistent;
    if g[r].targets != h'[r].targets {
      var p :| p in OwnedOf(reg, retired) && p.root == r && p.targets == g[r].targets;
      assert p.targets <= Targets(reg[r]) == h[r].targets;
    }
  }

  /** The exact condition when the retired plans list nothing new: no retired root still reserves a target that a current
      plan of its build has taken over beside it. */
  lemma TakenOverCollides(reg: map<Path, State>, retired: seq<Plan>, current: seq<Plan>, lockRoot: Path)
    requires Consistent(reg) && Acceptable(reg, retired, current, lockRoot) && AllValid(current)
    requires StagingApart(Held(reg)) && Listed(reg, retired)
    ensures StagingApart(Reconciled(reg, retired, current)) <==> !TakenOver(RetiredPass(reg, retired, current), retired, current)
  {
    ReconciledApart(reg, retired, current, lockRoot);
    var g := RetiredPass(reg, retired, current);
    AcceptedFacts(reg, retired, current, lockRoot);
    hide *;
    forall r, id | Leftover(g, current, r, id) ensures Reserved(Held(reg), r, id) && g[r].build == Held(reg)[r].build {
      LeftoverWasHeld(reg, retired, current, lockRoot, r, id);
    }
    if TakenOver(g, retired, current) { TakenOverUnclear(g, retired, current); }
    if !TakenOver(g, retired, current) { NotTakenOverClear(Held(reg), g, retired, current); }
  }

  lemma TakenOverUnclear(g: Holdings, retired: seq<Plan>, current: seq<Plan>)
    requires TakenOver(g, retired, current)
    ensures !LeftoversClear(g, current)
  {
  }

  lemma NotTakenOverClear(h: Holdings, g: Holdings, retired: seq<Plan>, current: seq<Plan>)
    requires !TakenOver(g, retired, current) && StagingApart(h) && Fitting(h, current, Roots(retired))
    requires g.Keys == h.Keys + Roots(current)
    requires forall r, id :: Leftover(g, current, r, id) ==> Reserved(h, r, id) && g[r].build == h[r].build
    ensures LeftoversClear(g, current)
  {
    hide Overlap, Staging, Siblings, Fitting, Fits;
    forall r, id, s | Leftover(g, current, r, id) && s in g ensures !Overlap(Staging(r, id), s) {
      if s !in h {
        var q := PlanOfRoot(current, s);
        LeftoverFits(h, current, Roots(retired), r, id, q);
      }
    }
    forall r, id, q | Leftover(g, current, r, id) && q in current && id in q.targets ensures !Siblings(r, q.root) {
      assert !Shared(g, retired, current, r, id, q);
      SiblingsShare(r, q.root, id);
      LeftoverFits(h, current, Roots(retired), r, id, q);
      NotItsRoot(g, current, r, id, q);
    }
  }

  lemma LeftoverFits(h: Holdings, current: seq<Plan>, retiring: set<Path>, r: Path, id: string, q: Plan)
    requires Fitting(h, current, retiring) && q in current && Reserved(h, r, id)
    ensures !Overlap(Staging(r, id), q.root)
    ensures id in q.targets && Overlap(Staging(r, id), Staging(q.root, id)) ==>
              r == q.root || (r in retiring && h[r].build == q.build)
  {
    hide Overlap, Staging;
    var i :| 0 <= i < |current| && current[i] == q;
    FittingOne(h, current, retiring, i);
    assert FitsClaim(r, h[r], q, retiring);
  }

  lemma {:induction false} RecordedEmpty(h: Holdings, plans: seq<Plan>, p: Plan)
    requires (forall q :: q in plans ==> q.targets == {}) && p in plans && p.root in h
    ensures p.root in RecordedAll(h, plans) && RecordedAll(h, plans)[p.root].targets == {}
  {
    var n := |plans| - 1;
    assert plans == plans[..n] + [plans[n]] && plans[n] in plans;
    RecordedFrom(h, plans[..n]);
    if p != plans[n] { RecordedEmpty(h, plans[..n], p); }
  }

  /** Retired plans as the build's own configure step passes them list nothing new and leave nothing to take over. */
  lemma OneBuildIsClear(reg: map<Path, State>, retired: seq<Plan>, current: seq<Plan>, lockRoot: Path)
    requires Consistent(reg) && Acceptable(reg, retired, current, lockRoot) && AllValid(current) && OfOneBuild(retired, current)
    ensures Listed(reg, retired) && !TakenOver(RetiredPass(reg, retired, current), retired, current)
  {
    var h', owned, g := ClaimingAll(Held(reg), current), OwnedOf(reg, retired), RetiredPass(reg, retired, current);
    forall r, id, q ensures !Shared(g, retired, current, r, id, q) {
      if Shared(g, retired, current, r, id, q) {
        LeftoverWasHeld(reg, retired, current, lockRoot, r, id);
        AcceptedFacts(reg, retired, current, lockRoot);
        hide RecordedAll, ClaimingAll, Consistent, Acceptable, Fitting, PlansApart, DistinctRoots;
        var p := PlanOfRoot(retired, r);
        assert p.build == q.build;
        assert Owned(reg, p);
        RecordedEmpty(h', owned, p);
      }
    }
  }

  // ---------------------------------------------------------------- two families of sets that collide

  lemma SiblingsApart(parent: Path, x: string, y: string)
    requires x != y
    ensures !Overlap(parent + [x], parent + [y])
  {
    assert (parent + [x])[|parent|] != (parent + [y])[|parent|];
  }

  lemma StagingOf(parent: Path, x: string, id: string)
    ensures Staging(parent + [x], id) == parent + [MARKER + id]
  {
    assert (parent + [x])[..|parent + [x]| - 1] == parent;
  }

  /** One root of `build`, whose recorded plan reserves one target. */
  ghost function OneRoot(r: Path, build: Path, id: string): map<Path, State> {
    map[r := State(Some(Claim(r, build, 0)), Some(Snapshot(0, map[])), Some(Plan(r, build, {id})), None, {})]
  }

  lemma OneRootIsApart(r: Path, build: Path, id: string)
    requires ValidPlan(Plan(r, build, {id}))
    ensures Consistent(OneRoot(r, build, id)) && Held(OneRoot(r, build, id)) == map[r := Holding(build, {id})]
    ensures StagingApart(Held(OneRoot(r, build, id)))
  {
    hide Overlap, Staging;
    var h := Held(OneRoot(r, build, id));
    assert h == map[r := Holding(build, {id})];
    assert forall k, other :: Reserved(h, k, other) ==> k == r && other == id;
    assert !Overlap(Staging(r, id), r);
  }

  lemma SiblingAccepted(r: Path, s: Path, build: Path, id: string, retired: Plan, lockRoot: Path)
    requires var current := Plan(s, build, {id});
             ValidPlan(Plan(r, build, {id})) && ValidPlan(current) && ClearOf(lockRoot, current) && retired.root == r && r != s
    requires !Overlap(r, s) && !Overlap(Staging(r, id), s) && !Overlap(r, Staging(s, id))
    ensures Acceptable(OneRoot(r, build, id), [retired], [Plan(s, build, {id})], lockRoot)
  {
    hide Overlap, Staging, ClearOf;
    var reg, current := OneRoot(r, build, id), Plan(s, build, {id});
    OneRootIsApart(r, build, id);
    assert retired in [retired];
    assert Roots([retired]) == {r};
    assert FitsClaim(r, Held(reg)[r], current, {r});
    assert Fits(Held(reg), current, {r});
  }

  lemma OnePlan(reg: map<Path, State>, h: Holdings, plan: Plan)
    ensures RecordedAll(h, [plan]) == if plan.root in h then Recording(h, plan) else h
    ensures ClaimingAll(h, [plan]) == if plan.root in h then h else Claiming(h, plan)
    ensures OwnedOf(reg, [plan]) == if Owned(reg, plan) then [plan] else []
  {
    assert [plan][..0] == [];
  }

  lemma NoPlan(h: Holdings)
    ensures RecordedAll(h, []) == h
  {
  }

  lemma SiblingKept(r: Path, s: Path, build: Path, id: string, retired: Plan)
    requires retired.root == r && r != s && (retired == Plan(r, build, {id}) || retired.build != build)
    ensures var g := RetiredPass(OneRoot(r, build, id), [retired], [Plan(s, build, {id})]); r in g && g[r] == Holding(build, {id})
  {
    hide RecordedAll, ClaimingAll, OwnedOf, Held;
    var reg, current := OneRoot(r, build, id), Plan(s, build, {id});
    HeldOne(r, build, id);
    OnePlan(reg, Held(reg), current);
    OnePlan(reg, Claiming(Held(reg), current), retired);
    NoPlan(Claiming(Held(reg), current));
  }

  lemma HeldOne(r: Path, build: Path, id: string)
    ensures Held(OneRoot(r, build, id)) == map[r := Holding(build, {id})]
  {
  }

  lemma SiblingCollides(r: Path, s: Path, build: Path, id: string, retired: Plan, lockRoot: Path)
    requires var reg, current := OneRoot(r, build, id), Plan(s, build, {id});
             && Consistent(reg) && StagingApart(Held(reg)) && Acceptable(reg, [retired], [current], lockRoot) && ValidPlan(current)
    requires retired.root == r && r != s && Siblings(r, s)
    requires retired == Plan(r, build, {id}) || (retired.build != build && retired.targets == {})
    ensures !StagingApart(Reconciled(OneRoot(r, build, id), [retired], [Plan(s, build, {id})]))
  {
    hide Overlap, Staging, Acceptable, Consistent, StagingApart, RetiredPass, Reconciled, Held, Siblings, ValidPlan;
    var reg, current := OneRoot(r, build, id), Plan(s, build, {id});
    assert forall q :: q in [current] ==> q == current;
    assert forall q :: q in [retired] ==> q == retired;
    assert current in [current] && retired in [retired];
    TakenOverCollides(reg, [retired], [current], lockRoot);
    SiblingKept(r, s, build, id, retired);
    assert r !in Roots([current]) && r in Roots([retired]);
    assert Shared(RetiredPass(reg, [retired], [current]), [retired], [current], r, id, current);
  }

  /** The ways in which the set is passed: the retired plan still lists the target, or it is of another build, so that it is
      passed over and yet its root grants the exemption. */
  lemma RetiredTargetsCollide(parent: Path, former: string, later: string, build: Path, id: string, retired: Plan, lockRoot: Path)
    requires former != later && former != MARKER + id && later != MARKER + id
    requires retired == Plan(parent + [former], build, {id}) ||
             (retired.root == parent + [former] && retired.build != build && retired.targets == {})
    requires ClearOf(lockRoot, Plan(parent + [later], build, {id}))
    ensures var reg, current := OneRoot(parent + [former], build, id), Plan(parent + [later], build, {id});
      && Consistent(reg) && StagingApart(Held(reg)) && ValidPlan(retired) && ValidPlan(current)
      && Acceptable(reg, [retired], [current], lockRoot)
      && !StagingApart(Reconciled(reg, [retired], [current]))
  {
    var r, s := parent + [former], parent + [later];
    hide Consistent, Held, StagingApart, Acceptable, ClearOf, Reconciled, OneRoot;
    StagingOf(parent, former, id);
    StagingOf(parent, later, id);
    SiblingsApart(parent, former, later);
    SiblingsApart(parent, MARKER + id, former);
    SiblingsApart(parent, MARKER + id, later);
    SiblingsApart(parent, former, MARKER + id);
    OneRootIsApart(r, build, id);
    SiblingAccepted(r, s, build, id, retired, lockRoot);
    assert r[..|r| - 1] == parent == s[..|s| - 1];
    SiblingCollides(r, s, build, id, retired, lockRoot);
  }
}
