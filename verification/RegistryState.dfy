/** The state of the output registry: claims, snapshots, recorded plans and reset intents, and how one durable
    step after the other keeps them consistent. */
module RegistryState {
  import opened Options
  import opened RegistryModel

  type Digest = nat

  datatype Claim = Claim(root: Path, build: Path, token: nat)

  datatype Snapshot = Snapshot(token: nat, entries: map<Path, Digest>)

  datatype Intent = Intent(token: nat, entries: map<Path, Digest>, staging: set<string>)

  /** One state directory: its four records and whatever else lies in it. */
  datatype State = State(claim: Option<Claim>, snapshot: Option<Snapshot>, plan: Option<Plan>,
                         reset: Option<Intent>, other: set<string>)

  /** What recovery, publication or retirement leaves below one claimed root, and whether it refused to go on. */
  datatype Effect = Effect(entries: map<Path, Digest>, files: map<Path, Digest>, refuses: bool)

  datatype Outcome = Done | Refused | Killed

  predicate Claimed(reg: map<Path, State>, r: Path) { r in reg && reg[r].claim.Some? }

  function Targets(s: State): set<string> { if s.plan.Some? then s.plan.value.targets else {} }

  function HoldingOf(s: State): Holding
    requires s.claim.Some?
  {
    Holding(s.claim.value.build, Targets(s))
  }

  function Held(reg: map<Path, State>): Holdings {
    map r | r in reg && reg[r].claim.Some? :: HoldingOf(reg[r])
  }

  function Below(m: map<Path, Digest>, r: Path): map<Path, Digest> { map p | p in m && r < p :: m[p] }

  function Beside(m: map<Path, Digest>, r: Path): map<Path, Digest> { map p | p in m && !(r < p) :: m[p] }

  /** A visible claim names its own root and always has a snapshot with its token. */
  ghost predicate WellFormed(r: Path, s: State) {
    s.claim.Some? ==>
      && r != [] && s.claim.value.root == r
      && s.snapshot.Some? && s.snapshot.value.token == s.claim.value.token
      && (forall p :: p in s.snapshot.value.entries ==> r < p)
      && (s.plan.Some? ==> ValidPlan(s.plan.value) && s.plan.value.root == r && s.plan.value.build == s.claim.value.build)
  }

  ghost predicate Consistent(reg: map<Path, State>) {
    (forall r :: r in reg ==> WellFormed(r, reg[r])) && RootsApart(Held(reg))
  }

  /** Files were only removed. */
  ghost predicate Shrunk(a: map<Path, Digest>, b: map<Path, Digest>) {
    forall p :: p in b ==> p in a && b[p] == a[p]
  }

  /** Every recorded output is absent or still has its recorded bytes. */
  ghost predicate Matching(files: map<Path, Digest>, entries: map<Path, Digest>) {
    forall p :: p in entries && p in files ==> files[p] == entries[p]
  }

  predicate EndsWith(s: string, suffix: string) {
    |s| >= |suffix| && s[|s| - |suffix|..] == suffix
  }

  /** A file below `r` whose name says that the generator wrote it. */
  predicate GeneratedLooking(r: Path, p: Path) {
    && r < p
    && (EndsWith(p[|p| - 1], ".protocyte.cpp") || EndsWith(p[|p| - 1], ".protocyte.hpp") ||
        (p[|p| - 1] == "runtime.hpp" && |p| > |r| + 1))
  }

  /** _validate_reset_inventory. */
  predicate Inventory(files: map<Path, Digest>, r: Path, entries: map<Path, Digest>) {
    && (forall p :: p in entries && p in files ==> files[p] == entries[p])
    && (forall p :: p in files && GeneratedLooking(r, p) ==> p in entries)
  }

  function IntentOf(s: State): Intent
    requires s.claim.Some? && s.snapshot.Some?
  {
    Intent(s.claim.value.token, s.snapshot.value.entries, Targets(s))
  }

  /** A reset that can be carried to its end: nothing it must delete was modified, and it either has a valid
      intent or may still write one. */
  ghost predicate Resumable(s: State, files: map<Path, Digest>, r: Path) {
    && s.claim.Some? && s.snapshot.Some?
    && (if s.reset.Some? then s.reset.value == IntentOf(s) && Matching(files, s.snapshot.value.entries)
        else Inventory(files, r, s.snapshot.value.entries))
  }

  /** Everything the claim owned is gone. */
  ghost predicate Vacated(s: State, files: map<Path, Digest>, r: Path) {
    && s.snapshot.Some?
    && (forall p :: p in s.snapshot.value.entries ==> p !in files)
    && (forall id, p :: id in Targets(s) && p in files ==> !(Staging(r, id) <= p))
  }

  /** No file is left in the staging directories of these targets. */
  ghost predicate Unstaged(files: map<Path, Digest>, root: Path, ids: set<string>) {
    forall id, p :: id in ids && p in files ==> !(Staging(root, id) <= p)
  }

  ghost predicate ClaimsKept(a: map<Path, State>, b: map<Path, State>) {
    forall r :: Claimed(a, r) ==> Claimed(b, r) && b[r].claim == a[r].claim
  }

  ghost predicate Untouched(a: map<Path, Digest>, b: map<Path, Digest>, r: Path) {
    forall p :: r <= p ==> At(a, p) == At(b, p)
  }

  /** Only unclaimed state directories went away. */
  ghost predicate Swept(a: map<Path, State>, b: map<Path, State>) {
    forall r :: if Claimed(a, r) then r in b && b[r] == a[r] else !Claimed(b, r)
  }

  lemma SweptKeeps(a: map<Path, State>, b: map<Path, State>)
    requires Consistent(a) && Swept(a, b)
    ensures Consistent(b) && Held(b) == Held(a)
  {
    hide RootsApart;
    assert Held(b) == Held(a);
    forall r | r in b ensures WellFormed(r, b[r]) {
      if Claimed(b, r) { assert Claimed(a, r); }
    }
  }

  lemma HeldUpdate(reg: map<Path, State>, r: Path, s: State)
    ensures s.claim.Some? ==> Held(reg[r := s]) == Held(reg)[r := HoldingOf(s)]
    ensures s.claim.None? ==> Held(reg[r := s]) == Held(reg) - {r}
    ensures Held(reg - {r}) == Held(reg) - {r}
  {
  }

  /** Replacing one state directory by a well-formed one that holds the same root. */
  lemma UpdateConsistent(reg: map<Path, State>, r: Path, s: State)
    requires Consistent(reg) && WellFormed(r, s) && (s.claim.Some? ==> Claimed(reg, r))
    ensures Consistent(reg[r := s])
  {
    HeldUpdate(reg, r, s);
  }

  lemma DropConsistent(reg: map<Path, State>, r: Path)
    requires Consistent(reg)
    ensures Consistent(reg - {r})
  {
    HeldUpdate(reg, r, State(None, None, None, None, {}));
  }

  ghost predicate Allowed(h: Holdings, plans: seq<Plan>, retiring: set<Path>, lockRoot: Path) {
    forall i :: 0 <= i < |plans| ==> ClearOf(lockRoot, plans[i]) && Fits(h, plans[i], retiring)
  }

  /** The state directory that reset works on: as recovered, unless an intent was recorded before. */
  ghost function AfterRecovery(s: State, recovered: Effect): State
    requires s.claim.Some?
  {
    if s.reset.Some? then s
    else s.(snapshot := Some(Snapshot(s.claim.value.token, Below(recovered.entries, s.claim.value.root))))
  }

  /** The files that reset works on. */
  ghost function FilesAfterRecovery(s: State, files: map<Path, Digest>, recovered: Effect, r: Path): map<Path, Digest> {
    if s.reset.Some? then files else Beside(files, r) + Below(recovered.files, r)
  }

  /** A reset can be carried to its end once recovery has done its part. */
  ghost predicate Resettable(s: State, files: map<Path, Digest>, recovered: Effect, r: Path) {
    && s.claim.Some? && (s.reset.Some? || !recovered.refuses)
    && Resumable(AfterRecovery(s, recovered), FilesAfterRecovery(s, files, recovered, r), r)
  }

  ghost predicate Named(p: Path, suffix: string) { p != [] && exists stem :: p[|p| - 1] == stem + suffix }

  lemma EndsWithMeans(p: Path, suffix: string)
    requires p != []
    ensures EndsWith(p[|p| - 1], suffix) <==> Named(p, suffix)
  {
    var name := p[|p| - 1];
    if EndsWith(name, suffix) { assert name == name[..|name| - |suffix|] + suffix; }
    if Named(p, suffix) {
      var stem :| name == stem + suffix;
      assert name[|stem|..] == suffix;
    }
  }

  /** A reset without an intent from before is carried to its end exactly when recovery goes through, no recorded output
      was modified, and no file that looks generated is unrecorded. */
  lemma ResettableExactly(reg: map<Path, State>, files: map<Path, Digest>, recovered: Effect, r: Path)
    requires Consistent(reg) && Claimed(reg, r) && reg[r].reset.None?
    ensures Resettable(reg[r], files, recovered, r) <==>
              && !recovered.refuses
              && (forall p :: r < p && p in recovered.entries && p in recovered.files ==> recovered.files[p] == recovered.entries[p])
              && (forall p :: r < p && p in recovered.files && p !in recovered.entries ==>
                    && !Named(p, ".protocyte.cpp") && !Named(p, ".protocyte.hpp")
                    && (p[|p| - 1] == "runtime.hpp" ==> |p| == |r| + 1))
  {
    assert WellFormed(r, reg[r]);
    hide Consistent, RootsApart, WellFormed;
    var entries, present := Below(recovered.entries, r), FilesAfterRecovery(reg[r], files, recovered, r);
    forall p | r < p ensures At(present, p) == At(recovered.files, p) && At(entries, p) == At(recovered.entries, p) {}
    forall p | p in entries ensures r < p {}
    assert Resettable(reg[r], files, recovered, r) <==> !recovered.refuses && Inventory(present, r, entries);
    InventoryExactly(present, r, entries, recovered);
  }

  lemma InventoryExactly(present: map<Path, Digest>, r: Path, entries: map<Path, Digest>, recovered: Effect)
    requires forall p :: r < p ==> At(present, p) == At(recovered.files, p) && At(entries, p) == At(recovered.entries, p)
    requires forall p :: p in entries ==> r < p
    ensures Inventory(present, r, entries) <==>
              && (forall p :: r < p && p in recovered.entries && p in recovered.files ==> recovered.files[p] == recovered.entries[p])
              && (forall p :: r < p && p in recovered.files && p !in recovered.entries ==>
                    && !Named(p, ".protocyte.cpp") && !Named(p, ".protocyte.hpp")
                    && (p[|p| - 1] == "runtime.hpp" ==> |p| == |r| + 1))
  {
    forall p | r < p
      ensures GeneratedLooking(r, p) <==>
                Named(p, ".protocyte.cpp") || Named(p, ".protocyte.hpp") || (p[|p| - 1] == "runtime.hpp" && |p| != |r| + 1)
    {
      EndsWithMeans(p, ".protocyte.cpp");
      EndsWithMeans(p, ".protocyte.hpp");
    }
    forall p | r < p
      ensures p in present <==> p in recovered.files
      ensures p in entries <==> p in recovered.entries
      ensures p in present ==> present[p] == recovered.files[p]
      ensures p in entries ==> entries[p] == recovered.entries[p]
    {
      assert At(present, p) == At(recovered.files, p) && At(entries, p) == At(recovered.entries, p);
    }
    hide EndsWith, Named, GeneratedLooking;
    forall p | GeneratedLooking(r, p) ensures r < p { LooksBelow(r, p); }
  }

  lemma LooksBelow(r: Path, p: Path)
    requires GeneratedLooking(r, p)
    ensures r < p
  {
  }

  /** With an intent from before, exactly when that is still what is recorded and no recorded output was modified. */
  lemma IntendedExactly(reg: map<Path, State>, files: map<Path, Digest>, recovered: Effect, r: Path)
    requires Consistent(reg) && Claimed(reg, r) && reg[r].reset.Some?
    ensures Resettable(reg[r], files, recovered, r) <==>
              var (s, intent) := (reg[r], reg[r].reset.value);
              && intent.token == s.claim.value.token && s.snapshot.Some? && intent.entries == s.snapshot.value.entries
              && intent.staging == (if s.plan.Some? then s.plan.value.targets else {})
              && forall p :: p in intent.entries && p in files ==> files[p] == intent.entries[p]
  {
    assert WellFormed(r, reg[r]);
    hide Consistent, RootsApart, WellFormed;
  }

  /** A killed reset leaves less to do, and can still be carried on. */
  ghost predicate CarriesOn(s: State, files: map<Path, Digest>, s': State, files': map<Path, Digest>, recovered: Effect, r: Path) {
    && s.claim.Some? && s'.claim.Some? && SameClaim(s, s')
    && Reduced(AfterRecovery(s', recovered), AfterRecovery(s, recovered))
    && Shrunk(FilesAfterRecovery(s, files, recovered, r), FilesAfterRecovery(s', files', recovered, r))
    && (Resettable(s, files, recovered, r) ==> Resettable(s', files', recovered, r))
  }

  /** Recovering a recovered root changes nothing. */
  lemma RecoveryRepeats(s: State, files: map<Path, Digest>, recovered: Effect, r: Path)
    requires s.claim.Some? && s.claim.value.root == r
    ensures var t, had := AfterRecovery(s, recovered), FilesAfterRecovery(s, files, recovered, r);
      && t.claim.Some? && AfterRecovery(t, recovered) == t && FilesAfterRecovery(t, had, recovered, r) == had
  {
    var had := Beside(files, r) + Below(recovered.files, r);
    assert Beside(had, r) + Below(recovered.files, r) == had;
  }

  /** What a killed discard leaves of a recovered root. */
  lemma DiscardCarriesOn(s: State, files: map<Path, Digest>, s': State, files': map<Path, Digest>, recovered: Effect, r: Path)
    requires s.claim.Some? && s.claim.value.root == r
    requires var t, had := AfterRecovery(s, recovered), FilesAfterRecovery(s, files, recovered, r);
             && SameClaim(t, s') && s'.snapshot == t.snapshot && s'.other <= t.other && Shrunk(had, files')
             && (s'.reset.None? ==> s' == t && files' == had) && (Resumable(t, had, r) ==> Resumable(s', files', r))
    ensures CarriesOn(s, files, s', files', recovered, r)
  {
    hide Resumable;
    RecoveryRepeats(s, files, recovered, r);
    ShrunkSame(FilesAfterRecovery(s, files, recovered, r));
  }

  /** A recovery that refused can be repeated. */
  lemma RecoveryCarriesOn(s: State, files: map<Path, Digest>, s': State, files': map<Path, Digest>, recovered: Effect, r: Path)
    requires s.claim.Some? && s.claim.value.root == r && s.reset.None? && recovered.refuses
    requires s' == AfterRecovery(s, recovered) && files' == FilesAfterRecovery(s, files, recovered, r)
    ensures CarriesOn(s, files, s', files', recovered, r) && !Resettable(s, files, recovered, r)
  {
    RecoveryRepeats(s, files, recovered, r);
    ShrunkSame(files');
  }

  lemma KilledBefore(s: State, files: map<Path, Digest>, recovered: Effect, r: Path)
    requires s.claim.Some?
    ensures CarriesOn(s, files, s, files, recovered, r)
  {
    hide Resumable;
    ShrunkSame(FilesAfterRecovery(s, files, recovered, r));
  }

  lemma CarriesOnTwice(s: State, files: map<Path, Digest>, s': State, files': map<Path, Digest>, s'': State,
                       files'': map<Path, Digest>, recovered: Effect, r: Path)
    requires CarriesOn(s, files, s', files', recovered, r) && CarriesOn(s', files', s'', files'', recovered, r)
    ensures CarriesOn(s, files, s'', files'', recovered, r)
  {
    hide Resettable;
    ShrunkTwice(FilesAfterRecovery(s, files, recovered, r), FilesAfterRecovery(s', files', recovered, r),
                FilesAfterRecovery(s'', files'', recovered, r));
  }

  /** The bound on the durable mutations does not grow from one rerun to the next. */
  lemma CarriesOnBound(s: State, files: map<Path, Digest>, s': State, files': map<Path, Digest>, recovered: Effect, r: Path)
    requires CarriesOn(s, files, s', files', recovered, r)
    ensures |FilesAfterRecovery(s', files', recovered, r)| + |s'.other| <= |FilesAfterRecovery(s, files, recovered, r)| + |s.other|
  {
    SmallerFiles(FilesAfterRecovery(s, files, recovered, r), FilesAfterRecovery(s', files', recovered, r));
    Subset(s'.other, s.other);
  }

  lemma CarriesOnVacated(s: State, files: map<Path, Digest>, s': State, files': map<Path, Digest>, recovered: Effect, r: Path,
                         last: map<Path, Digest>)
    requires CarriesOn(s, files, s', files', recovered, r)
    ensures Vacated(AfterRecovery(s', recovered), last, r) <==> Vacated(AfterRecovery(s, recovered), last, r)
    ensures Resettable(s, files, recovered, r) ==> Resettable(s', files', recovered, r)
    ensures SameClaim(s, s')
  {
    ReducedVacated(AfterRecovery(s', recovered), AfterRecovery(s, recovered), last, r);
  }

  lemma SettledBeside(reg: map<Path, State>, r: Path, a: map<Path, Digest>, b: map<Path, Digest>)
    requires Consistent(reg) && Claimed(reg, r) && forall s :: !Overlap(r, s) ==> Untouched(a, b, s)
    ensures forall s :: s != r && Claimed(reg, s) ==> Untouched(a, b, s)
  {
    forall s | s != r && Claimed(reg, s) ensures Untouched(a, b, s) { assert s in Held(reg) && r in Held(reg); }
  }

  /** The same claim and the same recorded plan. */
  ghost predicate SameClaim(a: State, b: State) { b.claim == a.claim && b.plan == a.plan }

  lemma HeldOfRest(b: map<Path, State>, c: map<Path, State>, r: Path)
    requires c - {r} == b - {r} && Claimed(b, r) && (Claimed(c, r) ==> SameClaim(b[r], c[r]))
    ensures Held(c) == if Claimed(c, r) then Held(b) else Held(b) - {r}
  {
    forall s | s != r ensures (s in b <==> s in c) && (s in b ==> b[s] == c[s]) {
      assert (s in b <==> s in b - {r}) && (s in c <==> s in c - {r});
    }
  }

  lemma DiscardedStaging(a: map<Path, State>, b: map<Path, State>, c: map<Path, State>, r: Path)
    requires Held(b) == Held(a) && Claimed(b, r) && c - {r} == b - {r} && (Claimed(c, r) ==> SameClaim(b[r], c[r]))
    ensures StagingApart(Held(a)) ==> StagingApart(Held(c))
  {
    hide StagingApart, RootsApart;
    ReleaseKeeps(Held(b), r);
    HeldOfRest(b, c, r);
  }

  lemma UntouchedTwice(a: map<Path, Digest>, b: map<Path, Digest>, c: map<Path, Digest>)
    ensures forall s :: Untouched(a, b, s) && Untouched(b, c, s) ==> Untouched(a, c, s)
  {
  }

  lemma LockedUntouched(a: map<Path, Digest>, b: map<Path, Digest>, c: map<Path, Digest>, root: Path, ids: set<string>)
    requires forall s :: !Overlap(root, s) ==> Untouched(a, b, s)
    requires forall s :: StagingClear(root, ids, s) ==> Untouched(b, c, s)
    ensures forall s :: !Overlap(root, s) && StagingClear(root, ids, s) ==> Untouched(a, c, s)
  {
    UntouchedTwice(a, b, c);
    hide Overlap, StagingClear, Untouched;
  }

  lemma BothUntouched(a: map<Path, State>, b: map<Path, State>, r: Path, start: map<Path, Digest>, had: map<Path, Digest>, files: map<Path, Digest>)
    requires b - {r} == a - {r} && forall s :: s != r && Claimed(a, s) ==> Untouched(start, had, s)
    requires StagingApart(Held(b)) ==> forall s :: s != r && Claimed(b, s) ==> Untouched(had, files, s)
    ensures StagingApart(Held(b)) ==> forall s :: s != r && Claimed(a, s) ==> Untouched(start, files, s)
  {
    hide StagingApart, Held;
    UntouchedTwice(start, had, files);
    forall s | s != r && Claimed(a, s) ensures Claimed(b, s) { assert s in a - {r}; }
    hide Untouched;
  }

  /** The plan's root is claimed by the plan's build. */
  predicate Owned(reg: map<Path, State>, plan: Plan) {
    plan.root in reg && reg[plan.root].claim.Some? && reg[plan.root].claim.value.build == plan.build
  }

  predicate Claims(reg: map<Path, State>, plan: Plan, token: nat) {
    Owned(reg, plan) && reg[plan.root].claim.value.token == token
  }

  /** The claim that reset acts on is the one of the plan's root, by the plan's build, with the expected token. */
  lemma ClaimsExactly(reg: map<Path, State>, plan: Plan, token: nat)
    requires Consistent(reg)
    ensures Claims(reg, plan, token) <==>
              plan.root in reg && reg[plan.root].claim == Some(Claim(plan.root, plan.build, token))
  {
    hide RootsApart;
    if plan.root in reg { assert WellFormed(plan.root, reg[plan.root]); }
  }

  lemma IntentRecorded(a: map<Path, State>, b: map<Path, State>, r: Path)
    requires Consistent(a) && Claimed(a, r) && r in b && b - {r} == a - {r}
    requires b[r] == a[r] || (exists reset :: b[r] == a[r].(reset := reset))
    ensures Consistent(b)
  {
    assert b == a[r := b[r]] by {
      assert b == (b - {r})[r := b[r]] && a[r := b[r]] == (a - {r})[r := b[r]];
    }
    assert WellFormed(r, a[r]);
    UpdateConsistent(a, r, b[r]);
  }

  /** `s` keeps clear of the listed staging directories of `root`. */
  ghost predicate StagingClear(root: Path, ids: set<string>, s: Path) {
    forall id :: id in ids ==> !Overlap(Staging(root, id), s)
  }

  lemma PrefixesMeet(a: Path, b: Path, p: Path)
    requires a <= p && b <= p
    ensures Overlap(a, b)
  {
    if |a| <= |b| { assert a == p[..|a|] == b[..|a|]; } else { assert b == p[..|b|] == a[..|b|]; }
  }

  lemma UntouchedSame(a: map<Path, Digest>)
    ensures forall s :: Untouched(a, a, s)
  {
  }

  /** What a reset removes lies below its own root or in its own staging directories. */
  lemma DiscardFiles(reg: map<Path, State>, r: Path, a: map<Path, Digest>, b: map<Path, Digest>, c: map<Path, Digest>)
    requires Consistent(reg) && Claimed(reg, r) && Shrunk(a, b)
    requires forall p :: p in a && p !in b ==> p in reg[r].snapshot.value.entries
    requires b == c || forall s :: StagingClear(r, Targets(reg[r]), s) ==> Untouched(b, c, s)
    ensures StagingApart(Held(reg)) ==> forall s :: s != r && Claimed(reg, s) ==> Untouched(a, c, s)
  {
    var h := Held(reg);
    assert WellFormed(r, reg[r]);
    if StagingApart(h) {
      UntouchedTwice(a, b, c);
      forall s | s != r && Claimed(reg, s) ensures Untouched(a, c, s) {
        assert s in h && r in h && !Overlap(r, s);
        forall p | s <= p ensures At(a, p) == At(b, p) {
          if p in a && p !in b { PrefixesMeet(r, s, p); }
        }
        forall id | id in Targets(reg[r]) ensures !Overlap(Staging(r, id), s) { assert Reserved(h, r, id); }
        assert StagingClear(r, Targets(reg[r]), s);
        if b == c { UntouchedSame(b); }
      }
    }
  }

  lemma UntouchedElsewhere(reg: map<Path, State>, r: Path, files: map<Path, Digest>)
    ensures forall s :: s != r && Claimed(reg, s) ==> Untouched(files, files, s)
  {
  }

  /** Recording the intent changes no claim and no recorded plan. */
  lemma DiscardedFiles(a: map<Path, State>, b: map<Path, State>, r: Path, start: map<Path, Digest>, files: map<Path, Digest>)
    requires r in a && r in b && b - {r} == a - {r} && SameClaim(a[r], b[r])
    requires StagingApart(Held(b)) ==> forall s :: s != r && Claimed(b, s) ==> Untouched(start, files, s)
    ensures StagingApart(Held(a)) ==> forall s :: s != r && Claimed(a, s) ==> Untouched(start, files, s)
  {
    assert a == (a - {r})[r := a[r]] && b == (a - {r})[r := b[r]];
    hide StagingApart, Untouched;
    assert Held(b) == Held(a);
  }

  lemma IntendedVacated(s: State, t: State, files: map<Path, Digest>, r: Path)
    requires SameClaim(s, t) && t.snapshot == s.snapshot && Vacated(t, files, r)
    ensures Vacated(s, files, r)
  {
  }

  lemma ResumableMatches(s: State, files: map<Path, Digest>, r: Path)
    requires Resumable(s, files, r)
    ensures Matching(files, s.snapshot.value.entries)
  {
  }

  /** Once the intent is recorded, removing files cannot make a reset fail. */
  lemma ResumableStays(s: State, t: State, a: map<Path, Digest>, b: map<Path, Digest>, r: Path)
    requires Resumable(s, a, r) && Shrunk(a, b) && SameClaim(s, t) && t.snapshot == s.snapshot && t.reset == Some(IntentOf(s))
    ensures Resumable(t, b, r)
  {
  }

  lemma NowVacated(s: State, mid: map<Path, Digest>, files: map<Path, Digest>, r: Path)
    requires s.snapshot.Some? && (forall p :: p in s.snapshot.value.entries ==> p !in mid) && Shrunk(mid, files)
    requires forall id, p :: id in Targets(s) && p in files ==> !(Staging(r, id) <= p)
    ensures Vacated(s, files, r)
  {
  }

  /** What is left of a state directory after the first steps of its removal: the claim goes first. */
  function Released(s: State, n: nat): State {
    State(if n >= 1 then None else s.claim, if n >= 3 then None else s.snapshot, if n >= 2 then None else s.plan,
          if n >= 4 then None else s.reset, {})
  }

  lemma ReleasedClaim(a: map<Path, State>, b: map<Path, State>, c: map<Path, State>, r: Path)
    requires Consistent(b) && Claimed(b, r) && c - {r} == b - {r}
    requires Claimed(c, r) ==> c[r] == b[r].(other := c[r].other)
    ensures Consistent(c)
  {
    assert WellFormed(r, b[r]);
    if r in c {
      assert c == b[r := c[r]] by {
        assert c == (c - {r})[r := c[r]] && b[r := c[r]] == (b - {r})[r := c[r]];
      }
      UpdateConsistent(b, r, c[r]);
    } else {
      assert c == b - {r} by { assert c == c - {r}; }
      DropConsistent(b, r);
    }
  }

  /** What the build's own configure step passes: retired plans list no targets and come from the build of the
      current plans.  A set without retired plans always qualifies. */
  ghost predicate OfOneBuild(retired: seq<Plan>, current: seq<Plan>) {
    forall p :: p in retired ==> p.targets == {} && forall q :: q in current ==> q.build == p.build
  }

  ghost predicate SameClaims(a: map<Path, State>, b: map<Path, State>) {
    forall r :: (Claimed(a, r) <==> Claimed(b, r)) && (Claimed(a, r) ==> b[r].claim == a[r].claim)
  }

  lemma ClaimsStay(a: map<Path, State>, b: map<Path, State>, c: map<Path, State>)
    requires ClaimsKept(a, b) && SameClaims(b, c)
    ensures ClaimsKept(a, c)
  {
  }

  ghost function Roots(plans: seq<Plan>): set<Path> { set p | p in plans :: p.root }

  lemma FilesStay(a: map<Path, State>, c: map<Path, State>, start: map<Path, Digest>, had: map<Path, Digest>, files: map<Path, Digest>,
                  retired: seq<Plan>, current: seq<Plan>, plans: seq<Plan>)
    requires ClaimsKept(a, c) && forall p :: p in plans ==> p in retired || p in current
    requires forall s :: Claimed(a, s) && s !in Roots(retired) && s !in Roots(current) ==> Untouched(start, had, s)
    requires forall s :: Claimed(c, s) && s !in Roots(plans) ==> Untouched(had, files, s)
    ensures forall s :: Claimed(a, s) && s !in Roots(retired) && s !in Roots(current) ==> Untouched(start, files, s)
  {
    UntouchedTwice(start, had, files);
    assert Roots(plans) <= Roots(retired) + Roots(current);
    hide Untouched, Roots;
  }

  ghost predicate PlanIs(reg: map<Path, State>, plan: Plan) { Owned(reg, plan) && reg[plan.root].plan == Some(plan) }

  lemma AllPlansAre(reg: map<Path, State>, plans: seq<Plan>)
    ensures (forall i :: 0 <= i < |plans| ==> PlanIs(reg, plans[i])) ==> forall p :: p in plans ==> PlanIs(reg, p)
  {
  }

  ghost predicate AllOwned(reg: map<Path, State>, plans: seq<Plan>) {
    forall i :: 0 <= i < |plans| ==> Owned(reg, plans[i])
  }

  ghost predicate Fitting(h: Holdings, plans: seq<Plan>, retiring: set<Path>) {
    forall i :: 0 <= i < |plans| ==> Fits(h, plans[i], retiring)
  }

  /** Every plan has its claim, and every current plan has room beside the others. */
  ghost predicate Admitted(reg: map<Path, State>, retired: seq<Plan>, current: seq<Plan>, active: seq<Plan>) {
    && AllOwned(reg, active) && AllOwned(reg, current) && PlansApart(current)
    && Fitting(Held(reg), current, Roots(retired))
    && (forall p :: p in active ==> p in retired)
    && (forall p :: p in retired && p.root in Held(reg) && Held(reg)[p.root].build == p.build && Held(reg)[p.root].targets != {} ==>
          p in active)
  }

  /** The plans from `k` on can be recorded one after the other. */
  ghost predicate Room(h: Holdings, plans: seq<Plan>, k: nat) {
    forall j :: k <= j < |plans| ==> plans[j].targets == {} || Fits(h, plans[j], {})
  }

  ghost predicate Orderly(h: Holdings, plans: seq<Plan>) {
    && StagingApart(h) && Room(h, plans, 0)
    && forall i, j :: 0 <= i < j < |plans| ==> plans[i].targets == {} || Apart(plans[i], plans[j])
  }

  lemma RetiredOrderly(reg: map<Path, State>, retired: seq<Plan>, current: seq<Plan>, active: seq<Plan>)
    requires Admitted(reg, retired, current, active)
    ensures AllOwned(reg, active) && forall p :: p in active ==> p in retired
    ensures OfOneBuild(retired, current) && StagingApart(Held(reg)) ==> Orderly(Held(reg), active)
  {
    hide PlansApart, StagingApart, Held, Fits, Apart, AllOwned, Fitting;
  }

  /** What is held once every plan of the list is recorded. */
  ghost function RecordedAll(h: Holdings, plans: seq<Plan>): Holdings {
    if plans == [] then h
    else
      var init, plan := RecordedAll(h, plans[..|plans| - 1]), plans[|plans| - 1];
      if plan.root in init then Recording(init, plan) else init
  }

  /** The plans of the list whose root is claimed by their own build. */
  function OwnedOf(reg: map<Path, State>, plans: seq<Plan>): (r: seq<Plan>)
    ensures forall p :: p in r <==> p in plans && Owned(reg, p)
  {
    if plans == [] then []
    else
      var init, plan := OwnedOf(reg, plans[..|plans| - 1]), plans[|plans| - 1];
      assert plans == plans[..|plans| - 1] + [plan];
      if Owned(reg, plan) then init + [plan] else init
  }

  lemma {:induction false} SameOwned(a: map<Path, State>, b: map<Path, State>, plans: seq<Plan>)
    requires forall p: Plan :: Owned(a, p) <==> Owned(b, p)
    ensures OwnedOf(a, plans) == OwnedOf(b, plans)
  {
    if plans != [] { SameOwned(a, b, plans[..|plans| - 1]); }
  }

  /** What is held once every root of the list has a claim. */
  ghost function ClaimingAll(h: Holdings, plans: seq<Plan>): Holdings {
    if plans == [] then h
    else
      var init, plan := ClaimingAll(h, plans[..|plans| - 1]), plans[|plans| - 1];
      if plan.root in init then init else Claiming(init, plan)
  }

  ghost predicate DistinctRoots(plans: seq<Plan>) { forall i, j :: 0 <= i < j < |plans| ==> plans[i].root != plans[j].root }

  lemma RootsDiffer(p: Plan, q: Plan)
    requires Apart(p, q)
    ensures p.root != q.root
  {
  }

  lemma FittingOne(h: Holdings, plans: seq<Plan>, retiring: set<Path>, i: nat)
    requires Fitting(h, plans, retiring) && i < |plans|
    ensures Fits(h, plans[i], retiring)
  {
  }

  /** Recording plans without targets only ever gives targets up, and those of every listed root. */
  lemma {:induction false} AfterRetired(h: Holdings, plans: seq<Plan>, q: Plan, retiring: set<Path>)
    requires Fits(h, q, retiring) && forall p :: p in plans ==> p.targets == {}
    ensures Fits(RecordedAll(h, plans), q, retiring)
    ensures RecordedAll(h, plans).Keys == h.Keys
    ensures forall r :: r in h ==> RecordedAll(h, plans)[r] == h[r] || RecordedAll(h, plans)[r] == Holding(h[r].build, {})
    ensures forall p :: p in plans && p.root in h ==> RecordedAll(h, plans)[p.root].targets == {}
  {
    if plans != [] {
      var n := |plans| - 1;
      AfterRetired(h, plans[..n], q, retiring);
      assert plans[n] in plans;
      if plans[n].root in h { FitsAfterFree(RecordedAll(h, plans[..n]), plans[n], q, retiring); }
      hide Fits;
    }
  }

  lemma RetiredGone(reg: map<Path, State>, retired: seq<Plan>, current: seq<Plan>, active: seq<Plan>, q: Plan)
    requires Admitted(reg, retired, current, active) && OfOneBuild(retired, current) && q in current
    requires RecordedAll(Held(reg), active).Keys == Held(reg).Keys
    requires forall p :: p in active && p.root in Held(reg) ==> RecordedAll(Held(reg), active)[p.root].targets == {}
    requires forall r :: r in Held(reg) ==> RecordedAll(Held(reg), active)[r] == Held(reg)[r] ||
                                            RecordedAll(Held(reg), active)[r] == Holding(Held(reg)[r].build, {})
    ensures forall r :: r in RecordedAll(Held(reg), active) && r in Roots(retired) && RecordedAll(Held(reg), active)[r].build == q.build ==>
              RecordedAll(Held(reg), active)[r].targets == {}
  {
    hide RecordedAll, Held, PlansApart, Fitting, AllOwned;
    var h, g := Held(reg), RecordedAll(Held(reg), active);
    forall r | r in g && r in Roots(retired) && g[r].build == q.build ensures g[r].targets == {} {
      var p :| p in retired && p.root == r;
      assert p in retired + current && q in retired + current;
      if h[r].targets != {} { assert p in active; }
    }
  }

  lemma CurrentOrderly(a: map<Path, State>, b: map<Path, State>, retired: seq<Plan>, current: seq<Plan>, active: seq<Plan>)
    requires Admitted(a, retired, current, active) && SameClaims(a, b) && Held(b) == RecordedAll(Held(a), active)
    ensures AllOwned(b, current) && DistinctRoots(current)
    ensures OfOneBuild(retired, current) && StagingApart(Held(b)) ==> Orderly(Held(b), current)
  {
    forall i | 0 <= i < |current| ensures Owned(b, current[i]) {
      assert Owned(a, current[i]) && Claimed(a, current[i].root);
    }
    forall i, j | 0 <= i < j < |current| ensures current[i].root != current[j].root {
      RootsDiffer(current[i], current[j]);
    }
    if OfOneBuild(retired, current) && StagingApart(Held(b)) {
      forall j | 0 <= j < |current| ensures Fits(Held(b), current[j], {}) {
        FittingOne(Held(a), current, Roots(retired), j);
        AfterRetired(Held(a), active, current[j], Roots(retired));
        RetiredGone(a, retired, current, active, current[j]);
        ExemptionsGone(Held(b), current[j], Roots(retired));
      }
    }
  }

  ghost predicate OwnedIfClaimed(reg: map<Path, State>, plans: seq<Plan>) {
    forall i :: 0 <= i < |plans| ==> (Claimed(reg, plans[i].root) ==> Owned(reg, plans[i]))
  }

  ghost predicate Acceptable(reg: map<Path, State>, retired: seq<Plan>, current: seq<Plan>, lockRoot: Path) {
    && (retired != [] || current != []) && PlansApart(current)
    && Allowed(Held(reg), current, Roots(retired), lockRoot) && OwnedIfClaimed(reg, current)
  }

  /** The plans of an accepted set, once they are all recorded and nothing meets, are accepted again and again, with
      whatever retired plans beside them. */
  lemma AcceptableAgain(a: map<Path, State>, b: map<Path, State>, retired: seq<Plan>, current: seq<Plan>, lockRoot: Path,
                        again: seq<Plan>)
    requires Acceptable(a, retired, current, lockRoot) && current != []
    requires Consistent(b) && StagingApart(Held(b)) && forall p :: p in current ==> ValidPlan(p) && PlanIs(b, p)
    ensures Acceptable(b, again, current, lockRoot)
  {
    hide ClearOf, StagingApart, RootsApart, WellFormed, PlansApart, FitsClaim, ValidPlan;
    forall i | 0 <= i < |current| ensures Fits(Held(b), current[i], Roots(again)) {
      assert current[i] in current;
      assert PlanIs(b, current[i]) && ValidPlan(current[i]);
      RecordExactly(Held(b), current[i]);
      FitsMore(Held(b), current[i], {}, Roots(again));
    }
    forall i | 0 <= i < |current| ensures Owned(b, current[i]) { assert PlanIs(b, current[i]); }
  }

  lemma SweptOwners(a: map<Path, State>, b: map<Path, State>, plans: seq<Plan>)
    requires Swept(a, b)
    ensures OwnedIfClaimed(a, plans) <==>
              forall i :: 0 <= i < |plans| ==> (Claimed(b, plans[i].root) ==> Owned(b, plans[i]))
    ensures ClaimsKept(a, b)
  {
    forall i | 0 <= i < |plans|
      ensures (Claimed(a, plans[i].root) <==> Claimed(b, plans[i].root)) && (Owned(a, plans[i]) <==> Owned(b, plans[i]))
    {
      assert if Claimed(a, plans[i].root) then b[plans[i].root] == a[plans[i].root] else !Claimed(b, plans[i].root);
    }
  }

  lemma CheckedSet(a: map<Path, State>, b: map<Path, State>, retired: seq<Plan>, current: seq<Plan>, lockRoot: Path)
    requires Consistent(a) && Swept(a, b)
    ensures Held(b) == Held(a) && ClaimsKept(a, b)
    ensures Acceptable(a, retired, current, lockRoot) ==>
              PlansApart(current) && Fitting(Held(b), current, Roots(retired)) && OwnedIfClaimed(b, current)
  {
    SweptKeeps(a, b);
    SweptOwners(a, b, current);
    hide Consistent, Swept, PlansApart, Fits, ClearOf, Owned, Held, Roots;
  }

  lemma OwnedClaimed(reg: map<Path, State>, plans: seq<Plan>)
    requires forall p :: p in plans ==> Owned(reg, p)
    ensures forall i :: 0 <= i < |plans| ==> Claimed(reg, plans[i].root)
  {
    forall i | 0 <= i < |plans| ensures Claimed(reg, plans[i].root) { assert plans[i] in plans; }
  }

  /** The same claims with the same recorded plans. */
  ghost predicate SameRecords(a: map<Path, State>, b: map<Path, State>) {
    a.Keys == b.Keys && forall r :: r in a ==> b[r].claim == a[r].claim && b[r].plan == a[r].plan
  }

  lemma SameRecordsClaimed(a: map<Path, State>, b: map<Path, State>, r: Path)
    requires SameRecords(a, b)
    ensures Claimed(a, r) <==> Claimed(b, r)
    ensures Held(a) == Held(b)
  {
  }

  lemma SettledSet(a: map<Path, State>, b: map<Path, State>, c: map<Path, State>, retired: seq<Plan>, current: seq<Plan>,
                   active: seq<Plan>, existing: seq<Plan>, start: map<Path, Digest>, files: map<Path, Digest>)
    requires ClaimsKept(a, b) && SameRecords(b, c) && OwnedIfClaimed(b, current)
    requires forall p :: p in active <==> p in retired && Owned(b, p)
    requires forall p :: p in existing <==> p in current && Owned(b, p)
    requires forall s :: Claimed(c, s) && s !in Roots(active + existing) ==> Untouched(start, files, s)
    ensures Held(c) == Held(b) && ClaimsKept(a, c) && OwnedIfClaimed(c, current)
    ensures (forall r :: r in b ==> Claimed(b, r)) ==> forall r :: r in c ==> Claimed(c, r)
    ensures forall s :: Claimed(a, s) && s !in Roots(retired) && s !in Roots(current) ==> Untouched(start, files, s)
    ensures forall p :: p in active <==> p in retired && Owned(c, p)
  {
    SameRecordsClaimed(b, c, []);
    forall p: Plan ensures Owned(b, p) <==> Owned(c, p) {
    }
    assert Roots(active + existing) <= Roots(retired) + Roots(current);
    forall s | Claimed(a, s) && s !in Roots(retired) && s !in Roots(current) ensures Untouched(start, files, s) {
      assert Claimed(b, s) && Claimed(c, s);
    }
  }

  lemma ClaimsKeptTwice(a: map<Path, State>, b: map<Path, State>, c: map<Path, State>)
    requires ClaimsKept(a, b) && ClaimsKept(b, c)
    ensures ClaimsKept(a, c)
  {
  }

  /** Holdings were only added, and the new ones reserve nothing yet. */
  ghost predicate Grown(a: Holdings, b: Holdings) {
    forall r :: r in b ==> (r in a && b[r] == a[r]) || b[r].targets == {}
  }

  lemma NowAdmitted(b: map<Path, State>, c: map<Path, State>, retired: seq<Plan>, current: seq<Plan>, active: seq<Plan>)
    requires ClaimsKept(b, c) && Grown(Held(b), Held(c)) && AllOwned(c, current) && PlansApart(current)
    requires Fitting(Held(c), current, Roots(retired)) && forall p :: p in active <==> p in retired && Owned(b, p)
    ensures Admitted(c, retired, current, active)
  {
    hide PlansApart, Fitting;
    forall i | 0 <= i < |active| ensures Owned(c, active[i]) {
      assert active[i] in active && Claimed(b, active[i].root);
    }
    forall p | p in retired && p.root in Held(c) && Held(c)[p.root].build == p.build && Held(c)[p.root].targets != {}
      ensures p in active
    {
      assert p.root in Held(b) && Held(b)[p.root] == Held(c)[p.root];
      assert Owned(b, p);
    }
  }

  lemma RecordStep(h: Holdings, plans: seq<Plan>, i: nat)
    requires i < |plans| && StagingApart(h) && Room(h, plans, i) && plans[i].root in h && ValidPlan(plans[i])
    requires forall j, k :: 0 <= j < k < |plans| ==> plans[j].targets == {} || Apart(plans[j], plans[k])
    ensures StagingApart(Recording(h, plans[i])) && Room(Recording(h, plans[i]), plans, i + 1)
  {
    hide StagingApart, Fits, Apart, Recording;
    if plans[i].targets == {} { FreeKeeps(h, plans[i]); } else { RecordKeeps(h, plans[i]); }
    forall j | i + 1 <= j < |plans| && plans[j].targets != {} ensures Fits(Recording(h, plans[i]), plans[j], {}) {
      if plans[i].targets == {} { FitsAfterFree(h, plans[i], plans[j], {}); } else { FitsStays(h, plans[i], plans[j], {}); }
    }
  }

  lemma ReconcileNone(a: map<Path, State>, files: map<Path, Digest>, plans: seq<Plan>)
    ensures SameClaims(a, a) && Held(a) == RecordedAll(Held(a), plans[..0])
    ensures Orderly(Held(a), plans) ==>
              && StagingApart(Held(a)) && Room(Held(a), plans, 0)
              && forall i, j :: 0 <= i < j < |plans| ==> plans[i].targets == {} || Apart(plans[i], plans[j])
    ensures forall s :: Untouched(files, files, s)
  {
    UntouchedSame(files);
  }

  lemma StillOwned(a: map<Path, State>, b: map<Path, State>, plans: seq<Plan>, i: nat)
    requires AllOwned(a, plans) && SameClaims(a, b) && i < |plans|
    ensures Owned(b, plans[i]) && Claimed(b, plans[i].root) && b[plans[i].root].claim.value.build == plans[i].build
    ensures plans[i].root in Held(b)
  {
    assert Owned(a, plans[i]) && Claimed(a, plans[i].root);
  }

  lemma LockedClaims(a: map<Path, State>, b: map<Path, State>, c: map<Path, State>, r: Path)
    requires SameClaims(a, b) && r in b && r in c && c[r].claim == b[r].claim && c - {r} == b - {r}
    ensures SameClaims(a, c) && SameClaims(b, c)
  {
    forall s ensures (Claimed(b, s) <==> Claimed(c, s)) && (Claimed(b, s) ==> c[s].claim == b[s].claim) {
      if s != r { assert (s in c <==> s in c - {r}) && (s in b <==> s in b - {r}); }
    }
  }

  lemma LockedFiles(b: map<Path, State>, c: map<Path, State>, plans: seq<Plan>, i: nat, start: map<Path, Digest>,
                    had: map<Path, Digest>, files: map<Path, Digest>)
    requires Consistent(b) && SameClaims(b, c) && i < |plans| && Claimed(b, plans[i].root) && StagingApart(Held(b))
    requires forall s :: Claimed(b, s) && s !in Roots(plans) ==> Untouched(start, had, s)
    requires forall s :: !Overlap(plans[i].root, s) && StagingClear(plans[i].root, Targets(b[plans[i].root]), s) ==> Untouched(had, files, s)
    ensures forall s :: Claimed(c, s) && s !in Roots(plans) ==> Untouched(start, files, s)
  {
    hide Overlap, Staging;
    var r, h := plans[i].root, Held(b);
    UntouchedTwice(start, had, files);
    forall s | Claimed(c, s) && s !in Roots(plans) ensures Untouched(start, files, s) {
      assert r in Roots(plans);
      assert s in h && r in h && s != r;
      forall id | id in Targets(b[r]) ensures !Overlap(Staging(r, id), s) { assert Reserved(h, r, id); }
      assert StagingClear(r, Targets(b[r]), s);
    }
  }

  lemma LockedRecords(a: map<Path, State>, b: map<Path, State>, c: map<Path, State>, plans: seq<Plan>, i: nat)
    requires i < |plans| && plans[i].root in b && plans[i].root in c && c - {plans[i].root} == b - {plans[i].root}
    requires c[plans[i].root].plan == Some(plans[i]) && Owned(b, plans[i]) && SameClaims(b, c)
    requires Held(b) == RecordedAll(Held(a), plans[..i]) && Held(c) == Recording(Held(b), plans[i])
    requires DistinctRoots(plans) ==> forall j :: 0 <= j < i ==> PlanIs(b, plans[j])
    ensures Held(c) == RecordedAll(Held(a), plans[..i + 1])
    ensures DistinctRoots(plans) ==> forall j :: 0 <= j < i + 1 ==> PlanIs(c, plans[j])
  {
    assert Claimed(b, plans[i].root) && plans[i].root in Held(b);
    hide Held, Recording;
    assert plans[..i + 1][..i] == plans[..i] && plans[..i + 1][i] == plans[i];
    if DistinctRoots(plans) {
      forall j | 0 <= j < i ensures PlanIs(c, plans[j]) {
        var s := plans[j].root;
        assert s in b - {plans[i].root} && (b - {plans[i].root})[s] == (c - {plans[i].root})[s];
      }
    }
  }

  lemma GrownSame(a: Holdings)
    ensures Grown(a, a)
  {
  }

  lemma GrownOne(a: Holdings, b: Holdings, plan: Plan)
    requires Grown(a, b)
    ensures Grown(a, Claiming(b, plan))
  {
  }

  lemma ClaimingNext(reg: map<Path, State>, h: Holdings, plans: seq<Plan>, i: nat)
    requires i < |plans| && Held(reg) == ClaimingAll(h, plans[..i])
    ensures ClaimingAll(h, plans[..i + 1]) == if Claimed(reg, plans[i].root) then Held(reg) else Claiming(Held(reg), plans[i])
  {
    assert plans[..i + 1][..i] == plans[..i];
  }

  lemma SweptOwned(a: map<Path, State>, b: map<Path, State>, plans: seq<Plan>)
    requires Swept(a, b)
    ensures OwnedOf(b, plans) == OwnedOf(a, plans)
  {
    forall p: Plan ensures Owned(a, p) <==> Owned(b, p) {
      assert if Claimed(a, p.root) then p.root in b && b[p.root] == a[p.root] else !Claimed(b, p.root);
    }
    SameOwned(a, b, plans);
  }

  lemma AllAreOwned(reg: map<Path, State>, plans: seq<Plan>)
    requires OwnedUpTo(reg, plans, |plans|)
    ensures AllOwned(reg, plans)
  {
  }

  lemma ClaimsKeptSame(a: map<Path, State>)
    ensures ClaimsKept(a, a)
  {
  }

  lemma InitializedClaims(a: map<Path, State>, b: map<Path, State>, c: map<Path, State>, plans: seq<Plan>, i: nat)
    requires ClaimsKept(a, b) && i < |plans| && plans[i].root !in b && c - {plans[i].root} == b
    ensures ClaimsKept(a, c)
  {
    forall r | Claimed(b, r) ensures Claimed(c, r) && c[r].claim == b[r].claim {
      assert r in c - {plans[i].root};
    }
  }

  /** A freshly claimed root leaves room for its own plan. */
  lemma FitsOwn(h: Holdings, plan: Plan, retiring: set<Path>)
    requires Fits(h, plan, retiring) && ValidPlan(plan)
    ensures Fits(Claiming(h, plan), plan, retiring)
  {
    assert FitsClaim(plan.root, Holding(plan.build, {}), plan, retiring);
  }

  lemma PairApart(plans: seq<Plan>, i: nat, j: nat)
    requires PlansApart(plans) && i < |plans| && j < |plans| && i != j
    ensures Apart(plans[i], plans[j])
  {
    if i > j { ApartSymmetric(plans[j], plans[i]); }
    hide Apart;
  }

  ghost predicate AllClaimed(reg: map<Path, State>) { forall r :: r in reg ==> Claimed(reg, r) }

  ghost predicate OwnedUpTo(reg: map<Path, State>, plans: seq<Plan>, n: nat)
    requires n <= |plans|
  {
    forall i :: 0 <= i < n ==> Owned(reg, plans[i])
  }

  lemma NoneOwnedYet(reg: map<Path, State>, plans: seq<Plan>)
    ensures OwnedUpTo(reg, plans, 0)
    ensures plans != [] && (forall r :: r in reg ==> Claimed(reg, r)) ==> AllClaimed(reg)
  {
  }

  lemma AlreadyOwned(reg: map<Path, State>, plans: seq<Plan>, i: nat)
    requires AllClaimed(reg) && OwnedIfClaimed(reg, plans) && i < |plans| && OwnedUpTo(reg, plans, i)
    ensures if Claimed(reg, plans[i].root) then OwnedUpTo(reg, plans, i + 1) else plans[i].root !in reg
  {
  }

  lemma InitializedRoom(b: map<Path, State>, c: map<Path, State>, plans: seq<Plan>, i: nat, retiring: set<Path>)
    requires PlansApart(plans) && i < |plans| && ValidPlan(plans[i]) && plans[i].root !in b && c - {plans[i].root} == b && plans[i].root in c
    requires AllClaimed(b) && OwnedIfClaimed(b, plans) && OwnedUpTo(b, plans, i)
    requires exists token :: c[plans[i].root].claim == Some(Claim(plans[i].root, plans[i].build, token))
    requires Fitting(Held(b), plans, retiring) && Held(c) == Claiming(Held(b), plans[i])
    ensures StagingApart(Held(b)) ==> StagingApart(Held(c))
    ensures Fitting(Held(c), plans, retiring)
    ensures AllClaimed(c) && OwnedIfClaimed(c, plans) && OwnedUpTo(c, plans, i + 1)
  {
    var p := plans[i];
    FittingOne(Held(b), plans, retiring, i);
    ClaimKeeps(Held(b), p, retiring);
    forall j | 0 <= j < |plans| ensures Fits(Held(c), plans[j], retiring) {
      FittingOne(Held(b), plans, retiring, j);
      if j == i { FitsOwn(Held(b), p, retiring); } else { PairApart(plans, i, j); FitsStays(Held(b), p, plans[j], retiring); }
    }
    forall j | 0 <= j < |plans| && j != i ensures plans[j].root != p.root {
      PairApart(plans, i, j);
      RootsDiffer(p, plans[j]);
    }
    hide Fits, FitsClaim, StagingApart, Apart;
    forall r | r in c ensures Claimed(c, r) {
      if r != p.root { assert r in c - {p.root}; }
    }
    forall j | 0 <= j < |plans| ensures (Claimed(c, plans[j].root) ==> Owned(c, plans[j])) && (Owned(b, plans[j]) ==> Owned(c, plans[j])) {
      var r := plans[j].root;
      if j != i { assert r in c <==> r in c - {p.root}; }
    }
  }

  lemma SameRecordsSame(a: map<Path, State>)
    ensures SameRecords(a, a)
  {
  }

  lemma SettledRecords(a: map<Path, State>, b: map<Path, State>, c: map<Path, State>, r: Path)
    requires SameRecords(a, b) && r in b && r in c && c - {r} == b - {r} && c[r].claim == b[r].claim && c[r].plan == b[r].plan
    ensures SameRecords(a, c) && SameRecords(b, c)
  {
    assert c.Keys == (c - {r}).Keys + {r} && b.Keys == (b - {r}).Keys + {r};
    forall s | s in b ensures c[s].claim == b[s].claim && c[s].plan == b[s].plan {
      if s != r { assert (c - {r})[s] == (b - {r})[s]; }
    }
  }

  lemma SettledFiles(reg: map<Path, State>, earlier: map<Path, State>, plans: seq<Plan>, i: nat, start: map<Path, Digest>,
                     had: map<Path, Digest>, files: map<Path, Digest>)
    requires Consistent(reg) && i < |plans| && Claimed(reg, plans[i].root) && SameRecords(earlier, reg)
    requires forall s :: Claimed(earlier, s) && s !in Roots(plans) ==> Untouched(start, had, s)
    requires forall s :: !Overlap(plans[i].root, s) ==> Untouched(had, files, s)
    ensures forall s :: Claimed(reg, s) && s !in Roots(plans) ==> Untouched(start, files, s)
  {
    UntouchedTwice(start, had, files);
    forall s | Claimed(reg, s) && s !in Roots(plans) ensures Untouched(start, files, s) {
      SameRecordsClaimed(earlier, reg, s);
      assert plans[i].root in Roots(plans);
      assert plans[i].root in Held(reg) && s in Held(reg);
    }
  }

  lemma TreeOnly(a: map<Path, Digest>, b: map<Path, Digest>, c: map<Path, Digest>, root: Path, id: string, ids: set<string>)
    requires forall p :: p in c ==> p in b && c[p] == b[p]
    requires forall p :: p in b && p !in c ==> Staging(root, id) <= p
    requires id in ids && forall s :: StagingClear(root, ids, s) ==> Untouched(a, b, s)
    ensures forall s :: StagingClear(root, ids, s) ==> Untouched(a, c, s)
  {
    forall s, p | StagingClear(root, ids, s) && s <= p ensures At(a, p) == At(c, p) {
      assert Untouched(a, b, s);
      if p in b && p !in c { PrefixesMeet(Staging(root, id), s, p); }
    }
  }

  lemma PlanRecorded(reg: map<Path, State>, r: Path, plan: Plan)
    requires Consistent(reg) && Claimed(reg, r) && ValidPlan(plan) && plan.root == r && reg[r].claim.value.build == plan.build
    ensures var s := reg[r].(plan := Some(plan));
      Consistent(reg[r := s]) && Held(reg[r := s]) == Recording(Held(reg), plan)
  {
    var s := reg[r].(plan := Some(plan));
    HeldUpdate(reg, r, s);
    assert WellFormed(r, reg[r]) && WellFormed(r, s);
    UpdateConsistent(reg, r, s);
  }

  lemma DropSweeps(a: map<Path, State>, b: map<Path, State>, c: map<Path, State>, r: Path)
    requires Swept(a, b) && !Claimed(b, r) && !Claimed(c, r) && b - {r} == c - {r}
    ensures Swept(a, c)
    ensures forall s :: s != r ==> (s in b <==> s in c) && (s in b ==> b[s] == c[s])
  {
    forall s | s != r ensures (s in b <==> s in c) && (s in b ==> b[s] == c[s]) {
      assert s in b <==> s in b - {r};
      assert s in c <==> s in c - {r};
    }
  }

  lemma UnclaimedStep(a: map<Path, State>, b: map<Path, State>, c: map<Path, State>, r: Path)
    requires Consistent(a) && Swept(a, b) && b - {r} == a && c - {r} == b - {r}
    requires (r in b ==> b[r].claim.None?) && (r in c ==> c[r].claim.None?)
    ensures Swept(a, c) && Consistent(c) && Held(c) == Held(a) && c - {r} == a
  {
    DropSweeps(a, b, c, r);
    SweptKeeps(a, c);
  }

  lemma ClaimStep(a: map<Path, State>, b: map<Path, State>, c: map<Path, State>, plan: Plan, token: nat, retiring: set<Path>)
    requires Consistent(a) && ValidPlan(plan) && plan.root !in a && b - {plan.root} == a && Fits(Held(a), plan, retiring)
    requires c == b[plan.root := State(Some(Claim(plan.root, plan.build, token)), Some(Snapshot(token, map[])), None, None, {})]
    ensures Consistent(c) && Held(c) == Claiming(Held(a), plan) && c - {plan.root} == a
  {
    var s := State(Some(Claim(plan.root, plan.build, token)), Some(Snapshot(token, map[])), None, None, {});
    assert c == a[plan.root := s];
    HeldUpdate(a, plan.root, s);
    ClaimKeeps(Held(a), plan, retiring);
    hide RootsApart, StagingApart, Fits;
  }

  lemma SettledRecord(reg: map<Path, State>, r: Path, t: State, effect: Effect)
    requires Consistent(reg) && Claimed(reg, r)
    requires t == reg[r].(snapshot := Some(Snapshot(reg[r].claim.value.token, Below(effect.entries, r))))
    ensures Consistent(reg[r := t]) && Held(reg[r := t]) == Held(reg) && reg[r := t] - {r} == reg - {r}
  {
    assert WellFormed(r, reg[r]);
    UpdateConsistent(reg, r, t);
    HeldUpdate(reg, r, t);
    hide Consistent;
    assert Held(reg)[r := HoldingOf(t)] == Held(reg);
  }

  lemma BelowOnly(files: map<Path, Digest>, more: map<Path, Digest>, r: Path)
    ensures forall s :: !Overlap(r, s) ==> Untouched(files, Beside(files, r) + Below(more, r), s)
  {
    forall s, p | !Overlap(r, s) && s <= p ensures At(files, p) == At(Beside(files, r) + Below(more, r), p) {
      if r < p { PrefixesMeet(r, s, p); }
    }
  }

  predicate FitsAll(r: Path, held: Holding, plans: seq<Plan>, retiring: set<Path>) {
    forall i :: 0 <= i < |plans| ==> FitsClaim(r, held, plans[i], retiring)
  }

  ghost predicate Inspected(s: State, r: Path, plans: seq<Plan>, retiring: set<Path>) {
    s.claim.Some? && FitsAll(r, HoldingOf(s), plans, retiring)
  }

  lemma IsInspected(s: State, r: Path, plans: seq<Plan>, retiring: set<Path>)
    requires s.claim.Some? && FitsAll(r, HoldingOf(s), plans, retiring)
    ensures Inspected(s, r, plans, retiring)
  {
  }

  lemma NothingSwept(a: map<Path, State>)
    ensures Swept(a, a)
  {
  }

  lemma NotAllowed(a: map<Path, State>, b: map<Path, State>, r: Path, plans: seq<Plan>, retiring: set<Path>, lockRoot: Path)
    requires Swept(a, b) && r in b && b[r].claim.Some? && !FitsAll(r, HoldingOf(b[r]), plans, retiring)
    ensures !Allowed(Held(a), plans, retiring, lockRoot)
  {
    hide FitsClaim, ClearOf;
    assert Claimed(a, r) && Held(a)[r] == HoldingOf(b[r]);
  }

  lemma AllAllowed(a: map<Path, State>, b: map<Path, State>, plans: seq<Plan>, retiring: set<Path>, lockRoot: Path)
    requires Swept(a, b) && forall r :: r in b ==> Inspected(b[r], r, plans, retiring)
    requires forall i :: 0 <= i < |plans| ==> ClearOf(lockRoot, plans[i])
    ensures Allowed(Held(b), plans, retiring, lockRoot) && forall r :: r in b ==> Claimed(b, r)
  {
    hide FitsClaim, ClearOf;
  }

  lemma Subset<T>(a: set<T>, b: set<T>)
    requires a <= b
    ensures |a| <= |b|
  {
    assert b == a + (b - a);
  }

  lemma SmallerFiles(a: map<Path, Digest>, b: map<Path, Digest>)
    requires Shrunk(a, b)
    ensures |b| <= |a|
  {
    assert |a| == |a.Keys| && |b| == |b.Keys|;
    Subset(b.Keys, a.Keys);
  }

  ghost predicate Reduced(a: State, b: State) {
    SameClaim(b, a) && a.snapshot == b.snapshot && a.other <= b.other
  }

  lemma ShrunkSame(a: map<Path, Digest>)
    ensures Shrunk(a, a)
  {
  }

  lemma ShrunkTwice(a: map<Path, Digest>, b: map<Path, Digest>, c: map<Path, Digest>)
    requires Shrunk(a, b) && Shrunk(b, c)
    ensures Shrunk(a, c)
  {
  }

  lemma ReducedVacated(a: State, b: State, files: map<Path, Digest>, r: Path)
    requires Reduced(a, b)
    ensures Vacated(a, files, r) <==> Vacated(b, files, r)
  {
  }

  lemma OneChanged(a: map<Path, State>, b: map<Path, State>, r: Path)
    requires b - {r} == a - {r}
    ensures forall s :: s != r && Claimed(a, s) ==> Claimed(b, s) && b[s] == a[s]
  {
    forall s | s != r && Claimed(a, s) ensures Claimed(b, s) && b[s] == a[s] { assert s in a - {r}; }
  }
}
