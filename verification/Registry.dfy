/** The coordinator's operations on the registry of claimed output roots: reconcile-set, the claim lifecycle and
    reset, one durable mutation at a time.  A process is killed when its `steps` run out. */
module Registry {
  import opened Options
  import opened RegistryModel
  import opened RegistryState
  import opened RegistryStaging

  class Coordinator {
    const lockRoot: Path
    var registry: map<Path, State>
    var files: map<Path, Digest>
    var steps: nat

    constructor (lockRoot: Path)
      ensures Consistent(registry) && StagingApart(Held(registry))
    {
      this.lockRoot := lockRoot;
      registry := map[];
    }

    method Alive() returns (alive: bool)
      modifies this`steps
      ensures alive <==> old(steps) > 0
      ensures steps == if alive then old(steps) - 1 else 0
    {
      if steps == 0 { alive := false; } else { steps := steps - 1; alive := true; }
    }

    /** _durable_rmtree on a directory of the file tree. */
    method RemoveTree(dir: Path) returns (o: Outcome)
      modifies this`files, this`steps
      ensures o != Refused
      ensures forall p :: p in files ==> p in old(files) && files[p] == old(files)[p]
      ensures forall p :: p in old(files) && p !in files ==> dir <= p
      ensures o == Done ==> forall p :: p in files ==> !(dir <= p)
      ensures steps + |old(files)| >= old(steps) + |files| && (o == Killed ==> steps == 0)
    {
      ghost var before, start := files, steps;
      var inside := set p | p in files && dir <= p;
      while inside != {}
        invariant inside == set p | p in files && dir <= p
        invariant forall p :: p in files ==> p in before && files[p] == before[p]
        invariant forall p :: p in before && p !in files ==> dir <= p
        invariant steps + |before| == start + |files|
      {
        var alive := Alive();
        if !alive { return Killed; }
        var p :| p in inside;
        FewerKeys(files, p);
        files := files - {p};
        inside := inside - {p};
      }
      assert forall p :: p in files && dir <= p ==> p in inside;
      o := Done;
    }

    /** One durable write inside a state directory. */
    method Store(r: Path, s: State) returns (alive: bool)
      modifies this`registry, this`steps
      ensures alive <==> old(steps) > 0
      ensures steps == if alive then old(steps) - 1 else 0
      ensures registry == if alive then old(registry)[r := s] else old(registry)
      ensures registry - {r} == old(registry) - {r} && (alive ==> r in registry && registry[r] == s)
    {
      alive := Alive();
      if alive { registry := registry[r := s]; }
    }

    /** The removal of an emptied state directory. */
    method RemoveState(r: Path) returns (alive: bool)
      modifies this`registry, this`steps
      ensures alive <==> old(steps) > 0
      ensures steps == if alive then old(steps) - 1 else 0
      ensures registry == if alive then old(registry) - {r} else old(registry)
    {
      alive := Alive();
      if alive { registry := registry - {r}; }
    }

    /** _durable_rmtree on a state directory without a claim. */
    method DropUnclaimed(r: Path) returns (o: Outcome)
      requires r in registry && registry[r].claim.None?
      modifies this`registry, this`steps
      ensures o != Refused
      ensures o == (if old(steps) >= 5 then Done else Killed) && steps == if old(steps) >= 5 then old(steps) - 5 else 0
      ensures registry - {r} == old(registry) - {r}
      ensures if o == Done then r !in registry else r in registry && registry[r].claim.None?
    {
      var s := registry[r];
      var alive := Store(r, s.(other := {}));
      if !alive { return Killed; }
      alive := Store(r, s.(other := {}, plan := None));
      if !alive { return Killed; }
      alive := Store(r, s.(other := {}, plan := None, reset := None));
      if !alive { return Killed; }
      alive := Store(r, State(None, None, None, None, {}));
      if !alive { return Killed; }
      alive := RemoveState(r);
      o := if alive then Done else Killed;
    }

    /** _validate_plan_set: every pair of current plans. */
    method ValidatePlanSet(plans: seq<Plan>) returns (ok: bool)
      ensures ok <==> PlansApart(plans)
    {
      hide Apart;
      for i := 0 to |plans|
        invariant forall k, j :: 0 <= k < j < |plans| && k < i ==> Apart(plans[k], plans[j])
      {
        for j := i + 1 to |plans|
          invariant forall k :: i < k < j ==> Apart(plans[i], plans[k])
        {
          if !Apart(plans[i], plans[j]) { return false; }
        }
      }
      ok := true;
    }

    /** _validate_registry: drop the state directories that were never claimed or already released, and check every
        claim against every plan. */
    method ValidateRegistry(plans: seq<Plan>, retiring: set<Path>) returns (o: Outcome)
      requires Consistent(registry)
      modifies this`registry, this`steps
      ensures Swept(old(registry), registry)
      ensures (o == Killed ==> steps == 0) && steps <= old(steps) && (plans == [] ==> o == Done && registry == old(registry))
      ensures o == Done ==> Allowed(Held(registry), plans, retiring, lockRoot)
      ensures o == Done && plans != [] ==> forall r :: r in registry ==> Claimed(registry, r)
      ensures o == Refused ==> !Allowed(old(Held(registry)), plans, retiring, lockRoot)
    {
      if plans == [] { return Done; }
      if exists i :: 0 <= i < |plans| && !ClearOf(lockRoot, plans[i]) { return Refused; }
      var todo := registry.Keys;
      ghost var start := registry;
      NothingSwept(start);
      hide *;
      while todo != {}
        invariant Swept(start, registry) && todo <= registry.Keys
        invariant steps <= old(steps)
        invariant forall r :: r in registry && r !in todo ==> Inspected(registry[r], r, plans, retiring)
        decreases |todo|
      {
        var r :| r in todo;
        todo := todo - {r};
        if registry[r].claim.None? {
          ghost var before := registry;
          o := DropUnclaimed(r);
          DropSweeps(start, before, registry, r);
          if o != Done { return; }
        } else if !FitsAll(r, HoldingOf(registry[r]), plans, retiring) {
          NotAllowed(start, registry, r, plans, retiring, lockRoot);
          return Refused;
        } else {
          IsInspected(registry[r], r, plans, retiring);
        }
      }
      AllAllowed(start, registry, plans, retiring, lockRoot);
      o := Done;
    }

    /** _initialize_claim_locked: the snapshot first, the claim last. */
    method Initialize(plan: Plan, token: nat, ghost retiring: set<Path>) returns (o: Outcome)
      requires Consistent(registry) && ValidPlan(plan) && plan.root !in registry
      requires Fits(Held(registry), plan, retiring)
      modifies this`registry, this`steps
      ensures o != Refused && Consistent(registry) && registry - {plan.root} == old(registry)
      ensures o == (if old(steps) >= 3 then Done else Killed) && steps == if old(steps) >= 3 then old(steps) - 3 else 0
      ensures old(steps) == 2 ==> plan.root in registry && registry[plan.root] == State(None, Some(Snapshot(token, map[])), None, None, {})
      ensures o == Killed ==> Held(registry) == old(Held(registry))
      ensures o == Done ==> Held(registry) == Claiming(old(Held(registry)), plan)
      ensures o == Done ==> plan.root in registry && registry[plan.root].claim == Some(Claim(plan.root, plan.build, token))
    {
      ghost var before := registry;
      var r, snapshot := plan.root, Some(Snapshot(token, map[]));
      NothingSwept(before);
      hide *;
      var alive := Store(r, State(None, None, None, None, {}));
      UnclaimedStep(before, before, registry, r);
      if !alive { return Killed; }
      ghost var next := registry;
      alive := Store(r, State(None, snapshot, None, None, {}));
      UnclaimedStep(before, next, registry, r);
      if !alive { return Killed; }
      next := registry;
      alive := Store(r, State(Some(Claim(r, plan.build, token)), snapshot, None, None, {}));
      if !alive { return Killed; }
      ClaimStep(before, next, registry, plan, token, retiring);
      o := Done;
    }

    /** _recover, publication or retirement of outputs: they act below one claimed root and on its snapshot only. */
    method Settle(r: Path, effect: Effect) returns (o: Outcome)
      requires Consistent(registry) && Claimed(registry, r)
      modifies this`registry, this`files, this`steps
      ensures Consistent(registry) && Held(registry) == old(Held(registry))
      ensures o == Killed <==> old(steps) == 0
      ensures r in registry && registry - {r} == old(registry) - {r}
      ensures registry[r] == old(registry[r]).(snapshot := registry[r].snapshot)
      ensures o != Killed ==> registry[r].snapshot == Some(Snapshot(registry[r].claim.value.token, Below(effect.entries, r)))
      ensures o != Killed ==> files == Beside(old(files), r) + Below(effect.files, r) && (o == Refused <==> effect.refuses)
      ensures o == Killed ==> registry == old(registry) && files == old(files)
      ensures (o == Killed ==> steps == 0 && old(steps) == 0) && old(steps) <= steps + 1
      ensures forall s :: !Overlap(r, s) ==> Untouched(old(files), files, s)
    {
      hide Consistent, Held, Below, Beside, Untouched, Overlap, WellFormed;
      UntouchedSame(files);
      var alive := Alive();
      if !alive { return Killed; }
      var s := registry[r];
      var t := s.(snapshot := Some(Snapshot(s.claim.value.token, Below(effect.entries, r))));
      SettledRecord(registry, r, t, effect);
      BelowOnly(files, effect.files, r);
      registry := registry[r := t];
      files := Beside(files, r) + Below(effect.files, r);
      o := if effect.refuses then Refused else Done;
    }

    /** _retire_staging: remove the staging directory of every target the new plan no longer has. */
    method RetireStaging(root: Path, previous: set<string>, current: set<string>) returns (o: Outcome)
      modifies this`files, this`steps
      ensures o != Refused
      ensures forall s :: StagingClear(root, previous, s) ==> Untouched(old(files), files, s)
      ensures o == Done ==> Unstaged(files, root, previous - current)
      ensures Shrunk(old(files), files)
      ensures steps + |old(files)| >= old(steps) + |files| && (o == Killed ==> steps == 0)
    {
      ghost var start, budget := files, steps;
      var todo := previous - current;
      UntouchedSame(files);
      hide Untouched, StagingClear, Staging, Overlap;
      while todo != {}
        invariant todo <= previous - current
        invariant forall s :: StagingClear(root, previous, s) ==> Untouched(start, files, s)
        invariant forall id, p :: id in previous - current && id !in todo && p in files ==> !(Staging(root, id) <= p)
        invariant Shrunk(start, files) && steps + |start| >= budget + |files|
        decreases |todo|
      {
        var id :| id in todo;
        todo := todo - {id};
        ghost var before := files;
        o := RemoveTree(Staging(root, id));
        TreeOnly(start, before, files, root, id, previous);
        if o != Done { return; }
      }
      o := Done;
    }

    /** _reconcile_locked: settle the outputs, retire staging, and only then record the plan. */
    method ReconcileLocked(plan: Plan, effect: Effect) returns (o: Outcome)
      requires Consistent(registry) && ValidPlan(plan)
      requires Claimed(registry, plan.root) && registry[plan.root].claim.value.build == plan.build
      modifies this`registry, this`files, this`steps
      ensures (o == Refused ==> effect.refuses) && (o == Done ==> !effect.refuses) && Consistent(registry)
      ensures plan.root in registry && registry[plan.root].claim == old(registry[plan.root].claim)
      ensures registry - {plan.root} == old(registry) - {plan.root}
      ensures Held(registry) == if o == Done then Recording(old(Held(registry)), plan) else old(Held(registry))
      ensures o == Done ==> registry[plan.root].plan == Some(plan)
      ensures o == Killed ==> steps == 0
      ensures o == Done ==> Unstaged(files, plan.root, old(Targets(registry[plan.root])) - plan.targets)
      ensures forall s :: !Overlap(plan.root, s) && StagingClear(plan.root, old(Targets(registry[plan.root])), s) ==>
                Untouched(old(files), files, s)
    {
      var r := plan.root;
      var previous := Targets(registry[r]);
      hide Overlap, Staging, Untouched, StagingClear, WellFormed, RootsApart, Consistent, Held, ValidPlan, Recording, Below, Beside, Unstaged;
      o := Settle(r, effect);
      if o != Done { return; }
      ghost var mid := files;
      o := RetireStaging(r, previous, plan.targets);
      LockedUntouched(old(files), mid, files, r, previous);
      if o != Done { return; }
      o := RecordPlan(plan);
    }

    /** The write of plan.json. */
    method RecordPlan(plan: Plan) returns (o: Outcome)
      requires Consistent(registry) && ValidPlan(plan)
      requires Claimed(registry, plan.root) && registry[plan.root].claim.value.build == plan.build
      modifies this`registry, this`steps
      ensures o == (if old(steps) > 0 then Done else Killed) && (o == Killed ==> steps == 0) && Consistent(registry)
      ensures plan.root in registry && registry - {plan.root} == old(registry) - {plan.root}
      ensures registry[plan.root] == if o == Done then old(registry[plan.root]).(plan := Some(plan)) else old(registry[plan.root])
      ensures Held(registry) == if o == Done then Recording(old(Held(registry)), plan) else old(Held(registry))
    {
      hide Staging, WellFormed, RootsApart, Consistent, Held, ValidPlan, Recording;
      PlanRecorded(registry, plan.root, plan);
      var alive := Store(plan.root, registry[plan.root].(plan := Some(plan)));
      o := if alive then Done else Killed;
    }

    /** The plans that own a claim: retired plans without one are passed over, current plans without one are new. */
    method SelectOwned(plans: seq<Plan>) returns (owned: seq<Plan>)
      ensures owned == OwnedOf(registry, plans)
    {
      hide Owned;
      owned := [];
      for i := 0 to |plans|
        invariant owned == OwnedOf(registry, plans[..i])
      {
        assert plans[..i + 1][..i] == plans[..i];
        if Owned(registry, plans[i]) { owned := owned + [plans[i]]; }
      }
      assert plans[..|plans|] == plans;
    }

    /** _recover for every plan that already has a claim. */
    method SettleAll(plans: seq<Plan>, effects: nat -> Effect) returns (o: Outcome)
      requires Consistent(registry) && forall i :: 0 <= i < |plans| ==> Claimed(registry, plans[i].root)
      modifies this`registry, this`files, this`steps
      ensures Consistent(registry) && SameRecords(old(registry), registry)
      ensures o == Killed ==> steps == 0
      ensures o == Refused ==> exists i: nat :: i < |plans| && effects(i).refuses
      ensures o == Done ==> forall i: nat :: i < |plans| ==> !effects(i).refuses
      ensures forall s :: Claimed(registry, s) && s !in Roots(plans) ==> Untouched(old(files), files, s)
    {
      ghost var before, start := registry, files;
      UntouchedSame(files);
      SameRecordsSame(before);
      hide Consistent, Untouched, Overlap, Roots;
      for i := 0 to |plans|
        invariant Consistent(registry) && SameRecords(before, registry)
        invariant forall s :: Claimed(registry, s) && s !in Roots(plans) ==> Untouched(start, files, s)
        invariant forall j: nat :: j < i ==> !effects(j).refuses
      {
        ghost var prior, had := registry, files;
        SameRecordsClaimed(before, registry, plans[i].root);
        o := Settle(plans[i].root, effects(i));
        SettledRecords(before, prior, registry, plans[i].root);
        SettledFiles(registry, prior, plans, i, start, had, files);
        if o != Done { return; }
      }
      o := Done;
    }

    /** Claim every root of the set that has no claim yet. */
    method InitializeAll(current: seq<Plan>, tokens: nat -> nat, ghost retiring: set<Path>) returns (o: Outcome)
      requires Consistent(registry) && PlansApart(current) && Fitting(Held(registry), current, retiring)
      requires OwnedIfClaimed(registry, current) && forall i :: 0 <= i < |current| ==> ValidPlan(current[i])
      requires current == [] || forall r :: r in registry ==> Claimed(registry, r)
      modifies this`registry, this`steps
      ensures o != Refused && Consistent(registry) && ClaimsKept(old(registry), registry)
      ensures o == Killed ==> steps == 0
      ensures old(StagingApart(Held(registry))) ==> StagingApart(Held(registry))
      ensures o == Done ==> Fitting(Held(registry), current, retiring) && AllOwned(registry, current)
      ensures o == Done ==> Grown(old(Held(registry)), Held(registry))
      ensures o == Done ==> Held(registry) == ClaimingAll(old(Held(registry)), current)
    {
      ghost var before := registry;
      ClaimsKeptSame(before);
      GrownSame(Held(before));
      NoneOwnedYet(before, current);
      if current == [] { return Done; }
      hide *;
      for i := 0 to |current|
        invariant Consistent(registry) && ClaimsKept(before, registry) && Grown(Held(before), Held(registry))
        invariant StagingApart(Held(before)) ==> StagingApart(Held(registry))
        invariant Fitting(Held(registry), current, retiring)
        invariant AllClaimed(registry) && OwnedIfClaimed(registry, current) && OwnedUpTo(registry, current, i)
        invariant Held(registry) == ClaimingAll(Held(before), current[..i])
      {
        ClaimingNext(registry, Held(before), current, i);
        AlreadyOwned(registry, current, i);
        if !Claimed(registry, current[i].root) {
          ghost var prior := registry;
          FittingOne(Held(registry), current, retiring, i);
          o := Initialize(current[i], tokens(i), retiring);
          InitializedClaims(before, prior, registry, current, i);
          if o != Done { return; }
          InitializedRoom(prior, registry, current, i, retiring);
          GrownOne(Held(before), Held(prior), current[i]);
        }
      }
      AllAreOwned(registry, current);
      assert current[..|current|] == current;
      o := Done;
    }

    /** _reconcile_locked for one plan after the other. */
    method ReconcileAll(plans: seq<Plan>, effects: nat -> Effect) returns (o: Outcome)
      requires Consistent(registry) && AllOwned(registry, plans) && forall i :: 0 <= i < |plans| ==> ValidPlan(plans[i])
      modifies this`registry, this`files, this`steps
      ensures Consistent(registry) && SameClaims(old(registry), registry)
      ensures o == Killed ==> steps == 0
      ensures o == Refused ==> exists i: nat :: i < |plans| && effects(i).refuses
      ensures o == Done ==> forall i: nat :: i < |plans| ==> !effects(i).refuses
      ensures o == Done ==> Held(registry) == RecordedAll(old(Held(registry)), plans)
      ensures o == Done && DistinctRoots(plans) ==> forall i :: 0 <= i < |plans| ==> PlanIs(registry, plans[i])
      ensures old(Orderly(Held(registry), plans)) ==> StagingApart(Held(registry))
      ensures old(Orderly(Held(registry), plans)) ==>
                forall s :: Claimed(registry, s) && s !in Roots(plans) ==> Untouched(old(files), files, s)
    {
      ghost var before, start := registry, files;
      ghost var orderly := Orderly(Held(registry), plans);
      ReconcileNone(before, start, plans);
      hide Consistent, StagingApart, SameClaims, Room, Untouched, Owned, PlanIs, ValidPlan, Roots, DistinctRoots, Held, RecordedAll,
           Orderly, AllOwned;
      for i := 0 to |plans|
        invariant Consistent(registry) && SameClaims(before, registry)
        invariant forall j: nat :: j < i ==> !effects(j).refuses
        invariant Held(registry) == RecordedAll(Held(before), plans[..i])
        invariant DistinctRoots(plans) ==> forall j :: 0 <= j < i ==> PlanIs(registry, plans[j])
        invariant orderly ==> StagingApart(Held(registry)) && Room(Held(registry), plans, i)
        invariant orderly ==> forall s :: Claimed(registry, s) && s !in Roots(plans) ==> Untouched(start, files, s)
      {
        ghost var prior, had := registry, files;
        StillOwned(before, registry, plans, i);
        assert ValidPlan(plans[i]);
        o := ReconcileLocked(plans[i], effects(i));
        LockedClaims(before, prior, registry, plans[i].root);
        if orderly { LockedFiles(prior, registry, plans, i, start, had, files); }
        if o != Done { return; }
        LockedRecords(before, prior, registry, plans, i);
        if orderly { RecordStep(Held(prior), plans, i); }
      }
      assert plans[..|plans|] == plans;
      o := Done;
    }

    /** The checks of reconcile_set: the plans of the set, the registry, and the builds of the claims. */
    method CheckSet(retired: seq<Plan>, current: seq<Plan>) returns (o: Outcome)
      requires Consistent(registry)
      modifies this`registry, this`steps
      ensures Swept(old(registry), registry) && Consistent(registry)
      ensures o == Killed ==> steps == 0
      ensures o == Done ==> Acceptable(old(registry), retired, current, lockRoot)
      ensures o == Refused ==> !Acceptable(old(registry), retired, current, lockRoot)
      ensures o == Done && current != [] ==> forall r :: r in registry ==> Claimed(registry, r)
    {
      hide Consistent, Held, PlansApart, Allowed, Swept;
      NothingSwept(registry);
      if retired == [] && current == [] { return Refused; }
      var ok := ValidatePlanSet(current);
      if !ok { return Refused; }
      var retiring := set p | p in retired :: p.root;
      assert retiring == Roots(retired);
      o := ValidateRegistry(current, retiring);
      SweptKeeps(old(registry), registry);
      if o != Done { return; }
      SweptOwners(old(registry), registry, current);
      if exists i :: 0 <= i < |current| && Claimed(registry, current[i].root) && !Owned(registry, current[i]) { return Refused; }
    }

    /** The first half of reconcile_set: check everything, recover what is claimed, claim what is not. */
    method Admit(retired: seq<Plan>, current: seq<Plan>, tokens: nat -> nat, effects: nat -> Effect)
      returns (o: Outcome, active: seq<Plan>)
      requires Consistent(registry) && forall p :: p in retired || p in current ==> ValidPlan(p)
      modifies this`registry, this`files, this`steps
      ensures Consistent(registry) && ClaimsKept(old(registry), registry)
      ensures o == Killed ==> steps == 0
      ensures o == Refused ==> Held(registry) == old(Held(registry))
      ensures o == Refused && !Acceptable(old(registry), retired, current, lockRoot) ==> files == old(files)
      ensures o == Refused && Acceptable(old(registry), retired, current, lockRoot) ==> exists i: nat :: effects(i).refuses
      ensures o == Done ==> Acceptable(old(registry), retired, current, lockRoot) && Admitted(registry, retired, current, active)
      ensures o == Done ==> Held(registry) == ClaimingAll(old(Held(registry)), current) && active == OwnedOf(old(registry), retired)
      ensures o == Done ==> forall i: nat :: i < |active| + |OwnedOf(old(registry), current)| ==> !effects(i).refuses
      ensures old(StagingApart(Held(registry))) ==> StagingApart(Held(registry))
      ensures forall s :: old(Claimed(registry, s)) && s !in Roots(retired) && s !in Roots(current) ==> Untouched(old(files), files, s)
    {
      ghost var before, start := registry, files;
      hide Consistent, Held, Swept, StagingApart, ClaimsKept, Acceptable, Untouched, SameRecords, Roots, Fitting, PlansApart,
           Owned, AllOwned, Admitted, Grown, ValidPlan, ClaimingAll, OwnedOf;
      active := [];
      o := CheckSet(retired, current);
      UntouchedSame(files);
      CheckedSet(before, registry, retired, current, lockRoot);
      if o != Done { return; }
      active := SelectOwned(retired);
      SweptOwned(before, registry, retired);
      var existing := SelectOwned(current);
      SweptOwned(before, registry, current);
      ghost var checked := registry;
      OwnedClaimed(registry, active + existing);
      o := SettleAll(active + existing, effects);
      SettledSet(before, checked, registry, retired, current, active, existing, start, files);
      if o != Done { return; }
      ghost var settled := registry;
      o := InitializeAll(current, tokens, Roots(retired));
      ClaimsKeptTwice(before, settled, registry);
      if o == Done { NowAdmitted(settled, registry, retired, current, active); }
    }

    /** reconcile_set, under the registry lock and the locks of every root it names. */
    method ReconcileSet(retired: seq<Plan>, current: seq<Plan>, tokens: nat -> nat, effects: (nat, nat) -> Effect)
      returns (o: Outcome)
      requires Consistent(registry) && forall p :: p in retired || p in current ==> ValidPlan(p)
      modifies this`registry, this`files, this`steps
      ensures Consistent(registry) && ClaimsKept(old(registry), registry)
      ensures o == Killed ==> steps == 0
      ensures o == Done ==> Acceptable(old(registry), retired, current, lockRoot)
      ensures o == Refused && !Acceptable(old(registry), retired, current, lockRoot) ==>
                files == old(files) && Held(registry) == old(Held(registry))
      ensures o == Refused && Acceptable(old(registry), retired, current, lockRoot) ==> exists k: nat, i: nat :: effects(k, i).refuses
      ensures o == Done ==> forall p :: p in current ==> PlanIs(registry, p)
      ensures o == Done ==>
                && (forall i: nat :: i < |OwnedOf(old(registry), retired)| + |OwnedOf(old(registry), current)| ==> !effects(0, i).refuses)
                && (forall i: nat :: i < |OwnedOf(old(registry), retired)| ==> !effects(1, i).refuses)
                && (forall i: nat :: i < |current| ==> !effects(2, i).refuses)
      ensures o == Done ==> Held(registry) == Reconciled(old(registry), retired, current)
      ensures o == Done && current != [] && StagingApart(Held(registry)) ==>
                forall again :: Acceptable(registry, again, current, lockRoot)
      ensures o == Done ==>
                (StagingApart(Held(registry)) <==> LeftoversClear(RetiredPass(old(registry), retired, current), current))
      ensures OfOneBuild(retired, current) && old(StagingApart(Held(registry))) ==>
                && StagingApart(Held(registry))
                && forall s :: old(Claimed(registry, s)) && s !in Roots(retired) && s !in Roots(current) ==>
                     Untouched(old(files), files, s)
    {
      ghost var before, start := registry, files;
      ghost var orderly := OfOneBuild(retired, current) && StagingApart(Held(registry));
      hide Consistent, Held, StagingApart, ClaimsKept, Acceptable, OfOneBuild, Untouched, PlanIs, AllOwned, SameClaims,
           Roots, Fitting, PlansApart, DistinctRoots, Orderly, Admitted, ValidPlan, RecordedAll, Grown, ClaimingAll, OwnedOf, LeftoversClear;
      var active;
      var checking, retiring, recording := (i: nat) => effects(0, i), (i: nat) => effects(1, i), (i: nat) => effects(2, i);
      o, active := Admit(retired, current, tokens, checking);
      if o != Done { return; }
      ghost var admitted, had := registry, files;
      RetiredOrderly(registry, retired, current, active);
      o := ReconcileAll(active, retiring);
      ClaimsStay(before, admitted, registry);
      if orderly { FilesStay(before, registry, start, had, files, retired, current, active); }
      if o != Done { return; }
      ghost var freed, kept := registry, files;
      CurrentOrderly(admitted, registry, retired, current, active);
      o := ReconcileAll(current, recording);
      ClaimsStay(before, freed, registry);
      if orderly { FilesStay(before, registry, start, kept, files, retired, current, current); }
      forall i: nat | i < |active| + |OwnedOf(before, current)| ensures !effects(0, i).refuses { assert !checking(i).refuses; }
      forall i: nat | i < |active| ensures !effects(1, i).refuses { assert !retiring(i).refuses; }
      forall i: nat | o == Done && i < |current| ensures !effects(2, i).refuses { assert !recording(i).refuses; }
      AllPlansAre(registry, current);
      AreValid(retired, current);
      ReconciledApart(before, retired, current, lockRoot);
      if o == Done && current != [] && StagingApart(Held(registry)) {
        forall again ensures Acceptable(registry, again, current, lockRoot) {
          AcceptableAgain(before, registry, retired, current, lockRoot, again);
        }
      }
    }

    /** _delete_if_state on one recorded output. */
    method DeleteIfState(p: Path, expected: Digest) returns (o: Outcome)
      modifies this`files, this`steps
      ensures o == Refused <==> p in old(files) && old(files)[p] != expected
      ensures files == if o == Done then old(files) - {p} else old(files)
      ensures o == Killed <==> old(steps) == 0 && p in old(files) && old(files)[p] == expected
      ensures steps + |old(files)| >= old(steps) + |files| && (o == Killed ==> steps == 0)
    {
      if p !in files { return Done; }
      if files[p] != expected { return Refused; }
      var alive := Alive();
      if !alive { return Killed; }
      FewerKeys(files, p);
      files := files - {p};
      o := Done;
    }

    method DeleteOutputs(entries: map<Path, Digest>) returns (o: Outcome)
      modifies this`files, this`steps
      ensures o == Done ==> Matching(old(files), entries) && forall p :: p in entries ==> p !in files
      ensures o == Refused ==> !Matching(old(files), entries)
      ensures Shrunk(old(files), files)
      ensures forall p :: p in old(files) && p !in files ==> p in entries && old(files)[p] == entries[p]
      ensures steps + |old(files)| >= old(steps) + |files| && (o == Killed ==> steps == 0)
    {
      ghost var start, budget := files, steps;
      var todo := entries.Keys;
      while todo != {}
        invariant todo <= entries.Keys && Shrunk(start, files)
        invariant forall p :: p in start && p !in files ==> p in entries && start[p] == entries[p]
        invariant forall p :: p in entries && p !in todo ==> p !in files
        invariant steps + |start| >= budget + |files|
        decreases |todo|
      {
        var p :| p in todo;
        todo := todo - {p};
        o := DeleteIfState(p, entries[p]);
        if o != Done { return; }
      }
      o := Done;
    }

    /** _release_claim: disposable entries, then the claim, and only then the records beside it. */
    method ReleaseClaim(r: Path) returns (o: Outcome)
      requires Claimed(registry, r)
      modifies this`registry, this`steps
      ensures o != Refused && registry - {r} == old(registry) - {r}
      ensures Claimed(registry, r) ==> registry[r] == old(registry[r]).(other := registry[r].other)
      ensures Claimed(registry, r) ==> registry[r].other <= old(registry[r].other)
      ensures o == Done ==> r !in registry
      ensures o == Killed ==> steps == 0 && old(steps) < |old(registry[r].other)| + 5
      ensures o == Done ==> steps == old(steps) - |old(registry[r].other)| - 5
      ensures o == Killed && old(steps) >= |old(registry[r].other)| ==>
                r in registry && registry[r] == Released(old(registry[r]), old(steps) - |old(registry[r].other)|)
    {
      var s, budget := registry[r], steps;
      var left := s.other;
      while left != {}
        invariant left <= s.other && r in registry && registry[r] == s.(other := left) && registry - {r} == old(registry) - {r}
        invariant steps + |s.other| == budget + |left|
      {
        var e :| e in left;
        left := left - {e};
        var alive := Store(r, s.(other := left));
        if !alive { return Killed; }
      }
      var bare := s.(other := {});
      var alive := Store(r, bare.(claim := None));
      if !alive { return Killed; }
      alive := Store(r, bare.(claim := None, plan := None));
      if !alive { return Killed; }
      alive := Store(r, bare.(claim := None, plan := None, snapshot := None));
      if !alive { return Killed; }
      alive := Store(r, State(None, None, None, None, {}));
      if !alive { return Killed; }
      alive := RemoveState(r);
      o := if alive then Done else Killed;
    }

    /** Accept the intent of an earlier attempt, or check the inventory and record one. */
    method RecordIntent(r: Path) returns (o: Outcome)
      requires Consistent(registry) && Claimed(registry, r)
      modifies this`registry, this`steps
      ensures Consistent(registry) && registry - {r} == old(registry) - {r} && r in registry
      ensures o != Done ==> registry == old(registry)
      ensures o == Refused ==> !Resumable(registry[r], files, r)
      ensures o == Killed ==> steps == 0 && old(steps) == 0
      ensures o == Done ==> old(registry[r]).snapshot.Some? && registry[r] == old(registry[r]).(reset := Some(IntentOf(old(registry[r]))))
      ensures o == Done && Matching(files, registry[r].snapshot.value.entries) ==> old(Resumable(registry[r], files, r))
      ensures o == Done ==> steps + 1 >= old(steps)
    {
      ghost var before := registry;
      var s := registry[r];
      assert WellFormed(r, s);
      hide Consistent, WellFormed;
      if s.reset.None? {
        if !Inventory(files, r, s.snapshot.value.entries) { return Refused; }
        var alive := Store(r, s.(reset := Some(IntentOf(s))));
        IntentRecorded(before, registry, r);
        if !alive { return Killed; }
      } else if s.reset.value != IntentOf(s) {
        return Refused;
      }
      o := Done;
    }

    /** Delete the recorded outputs, then the staging directories of the recorded plan. */
    method Vacate(r: Path) returns (o: Outcome)
      requires Consistent(registry) && Claimed(registry, r)
      modifies this`files, this`steps
      ensures o == Done ==> Matching(old(files), registry[r].snapshot.value.entries) && Vacated(registry[r], files, r)
      ensures o == Refused ==> !Matching(old(files), registry[r].snapshot.value.entries)
      ensures Shrunk(old(files), files)
      ensures steps + |old(files)| >= old(steps) + |files| && (o == Killed ==> steps == 0)
      ensures StagingApart(Held(registry)) ==>
                forall s :: s != r && Claimed(registry, s) ==> Untouched(old(files), files, s)
    {
      var s := registry[r];
      ghost var start := files;
      assert WellFormed(r, s);
      var entries, staging := s.snapshot.value.entries, Targets(s);
      hide Consistent, StagingApart, Held, Untouched, StagingClear, Staging, Overlap, WellFormed, Vacated, Matching;
      o := DeleteOutputs(entries);
      ghost var mid := files;
      DiscardFiles(registry, r, start, mid, mid);
      if o != Done { return; }
      o := RetireStaging(r, staging, {});
      DiscardFiles(registry, r, start, mid, files);
      if o == Done { NowVacated(s, mid, files, r); }
    }

    /** reset on a recovered root: record the intent, delete the outputs, remove the staging, release the claim.  A
        reset killed before the release can be carried on by the next one. */
    method Discard(r: Path) returns (o: Outcome)
      requires Consistent(registry) && Claimed(registry, r)
      modifies this`registry, this`files, this`steps
      ensures Consistent(registry) && registry - {r} == old(registry) - {r}
      ensures o == Done ==> old(Resumable(registry[r], files, r)) && r !in registry
      ensures o == Refused ==> !old(Resumable(registry[r], files, r))
      ensures o == Killed ==> steps == 0 && old(steps) <= |old(files)| + |old(registry[r].other)| + 5
      ensures !Claimed(registry, r) ==> Vacated(old(registry[r]), files, r)
      ensures Claimed(registry, r) ==> SameClaim(old(registry[r]), registry[r]) && registry[r].snapshot == old(registry[r].snapshot)
      ensures Claimed(registry, r) ==> registry[r].other <= old(registry[r].other)
      ensures Claimed(registry, r) && old(Resumable(registry[r], files, r)) ==> Resumable(registry[r], files, r)
      ensures Claimed(registry, r) && registry[r].reset.None? ==> registry[r] == old(registry[r]) && files == old(files)
      ensures Shrunk(old(files), files)
      ensures old(StagingApart(Held(registry))) ==>
                forall s :: s != r && Claimed(old(registry), s) ==> Untouched(old(files), files, s)
    {
      ghost var before, start, s := registry, files, registry[r];
      hide *;
      UntouchedElsewhere(before, r, start);
      o := RecordIntent(r);
      ShrunkSame(start);
      if o != Done { return; }
      ghost var intended := registry;
      o := Vacate(r);
      DiscardedFiles(before, intended, r, start, files);
      if Resumable(s, start, r) { ResumableMatches(s, start, r); ResumableStays(s, registry[r], start, files, r); }
      if o != Done { return; }
      IntendedVacated(s, intended[r], files, r);
      o := ReleaseClaim(r);
      ReleasedClaim(before, intended, registry, r);
      if Resumable(s, start, r) && Claimed(registry, r) { ResumableStays(s, registry[r], start, files, r); }
    }

    /** reset: the live claim must carry the expected token; without an intent the root is recovered first. */
    method Reset(plan: Plan, token: nat, recovered: Effect) returns (o: Outcome)
      requires Consistent(registry)
      modifies this`registry, this`files, this`steps
      ensures Consistent(registry) && registry - {plan.root} == old(registry) - {plan.root}
      ensures old(!Claims(registry, plan, token)) ==> o == Refused && registry == old(registry) && files == old(files)
      ensures o == Done ==> plan.root !in registry
      ensures old(Claims(registry, plan, token)) && o == Done ==> old(Resettable(registry[plan.root], files, recovered, plan.root))
      ensures old(Claims(registry, plan, token)) && o == Refused ==> !old(Resettable(registry[plan.root], files, recovered, plan.root))
      ensures old(Claims(registry, plan, token)) && o == Killed ==>
                && steps == 0
                && old(steps) <= |old(FilesAfterRecovery(registry[plan.root], files, recovered, plan.root))| +
                                 |old(registry[plan.root].other)| + 6
      ensures old(Claims(registry, plan, token)) && Claimed(registry, plan.root) ==>
                CarriesOn(old(registry[plan.root]), old(files), registry[plan.root], files, recovered, plan.root)
      ensures Claimed(registry, plan.root) ==>
                Claimed(old(registry), plan.root) && SameClaim(old(registry[plan.root]), registry[plan.root])
      ensures Claimed(old(registry), plan.root) && !Claimed(registry, plan.root) ==>
                Vacated(AfterRecovery(old(registry[plan.root]), recovered), files, plan.root)
      ensures old(StagingApart(Held(registry))) ==> StagingApart(Held(registry))
      ensures old(StagingApart(Held(registry))) ==>
                forall s :: s != plan.root && Claimed(old(registry), s) ==> Untouched(old(files), files, s)
    {
      var r := plan.root;
      ghost var before, start := registry, files;
      UntouchedSame(files);
      if !Claims(registry, plan, token) { return Refused; }
      assert WellFormed(r, registry[r]);
      hide Consistent, StagingApart, Held, Untouched, WellFormed, Vacated, Below, Beside, Resumable, Shrunk, CarriesOn;
      KilledBefore(before[r], start, recovered, r);
      if registry[r].reset.None? {
        o := Settle(r, recovered);
        SettledBeside(before, r, start, files);
        if o == Refused { RecoveryCarriesOn(before[r], start, registry[r], files, recovered, r); }
        if o != Done { return; }
      }
      ghost var settled, had := registry, files;
      o := Discard(r);
      if Claimed(registry, r) { DiscardCarriesOn(before[r], start, registry[r], files, recovered, r); }
      DiscardedStaging(before, settled, registry, r);
      BothUntouched(before, settled, r, start, had, files);
    }
  }

  /** The reset command killed any number of times anywhere, before or after recovery, completes once a rerun is left alone,
      and then everything the claim owned is gone. */
  method ResetCompletes(c: Coordinator, plan: Plan, token: nat, recovered: Effect, kills: seq<nat>, enough: nat)
    requires Consistent(c.registry) && Claims(c.registry, plan, token)
    requires Resettable(c.registry[plan.root], c.files, recovered, plan.root)
    requires enough > |FilesAfterRecovery(c.registry[plan.root], c.files, recovered, plan.root)| + |c.registry[plan.root].other| + 6
    modifies c
    ensures Consistent(c.registry) && !Claimed(c.registry, plan.root)
    ensures Vacated(AfterRecovery(old(c.registry[plan.root]), recovered), c.files, plan.root)
  {
    var r := plan.root;
    ghost var before, start := c.registry[r], c.files;
    hide Consistent, Resettable, StagingApart, Held, Untouched, Shrunk, Staging, CarriesOn, Vacated, AfterRecovery, FilesAfterRecovery;
    KilledBefore(before, start, recovered, r);
    for i := 0 to |kills| + 1
      invariant Consistent(c.registry)
      invariant if Claimed(c.registry, r) then CarriesOn(before, start, c.registry[r], c.files, recovered, r) && i <= |kills|
                else Vacated(AfterRecovery(before, recovered), c.files, r)
    {
      if !Claimed(c.registry, r) { return; }
      ghost var s, had := c.registry[r], c.files;
      c.steps := if i < |kills| then kills[i] else enough;
      CarriesOnBound(before, start, s, had, recovered, r);
      CarriesOnVacated(before, start, s, had, recovered, r, had);
      var o := c.Reset(plan, token, recovered);
      CarriesOnVacated(before, start, s, had, recovered, r, c.files);
      if Claimed(c.registry, r) { CarriesOnTwice(before, start, s, had, c.registry[r], c.files, recovered, r); }
    }
  }

  datatype Command =
    | Reconcile(retired: seq<Plan>, current: seq<Plan>, tokens: nat -> nat, effects: (nat, nat) -> Effect)
    | Publish(root: Path, effect: Effect)
    | Reset(plan: Plan, token: nat, recovered: Effect)

  /** One process under the registry's locks, and how many durable mutations it lives for. */
  datatype Event = Event(command: Command, steps: nat)

  ghost predicate Readable(e: Event) {
    e.command.Reconcile? ==> forall p :: p in e.command.retired || p in e.command.current ==> ValidPlan(p)
  }

  ghost predicate Driven(events: seq<Event>) {
    forall i :: 0 <= i < |events| && events[i].command.Reconcile? ==>
      OfOneBuild(events[i].command.retired, events[i].command.current)
  }

  ghost predicate NeverReset(events: seq<Event>, r: Path) {
    forall i :: 0 <= i < |events| ==> !(events[i].command.Reset? && events[i].command.plan.root == r)
  }

  /** Any run, every process of which may be killed anywhere: claimed roots stay apart, every visible claim has its
      snapshot, a claim never changes unless its root is reset, and staging stays apart when reconcile-set is called as
      the build calls it. */
  method Run(c: Coordinator, events: seq<Event>)
    requires Consistent(c.registry) && forall i :: 0 <= i < |events| ==> Readable(events[i])
    modifies c
    ensures Consistent(c.registry)
    ensures forall r :: old(Claimed(c.registry, r)) && NeverReset(events, r) ==>
              Claimed(c.registry, r) && c.registry[r].claim == old(c.registry)[r].claim
    ensures Driven(events) && old(StagingApart(Held(c.registry))) ==> StagingApart(Held(c.registry))
  {
    ghost var before := c.registry;
    ghost var driven := Driven(events) && StagingApart(Held(c.registry));
    hide Consistent, StagingApart, Held, OfOneBuild, Acceptable, PlanIs, Untouched, Roots, ValidPlan, Vacated, Claims;
    for i := 0 to |events|
      invariant Consistent(c.registry)
      invariant forall r :: Claimed(before, r) && NeverReset(events, r) ==>
                  Claimed(c.registry, r) && c.registry[r].claim == before[r].claim
      invariant driven ==> StagingApart(Held(c.registry))
    {
      assert Readable(events[i]);
      ghost var prior := c.registry;
      c.steps := events[i].steps;
      match events[i].command
      case Reconcile(retired, current, tokens, effects) =>
        var _ := c.ReconcileSet(retired, current, tokens, effects);
      case Publish(root, effect) =>
        if Claimed(c.registry, root) {
          var _ := c.Settle(root, effect);
          OneChanged(prior, c.registry, root);
        }
      case Reset(plan, token, recovered) =>
        var _ := c.Reset(plan, token, recovered);
        OneChanged(prior, c.registry, plan.root);
    }
  }
}
