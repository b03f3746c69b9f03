/** The managed-environment transaction, one durable mutation at a time: every action may be killed
    before any of its mutations, and recovery may be killed as often as one likes. */
module Environment {
  import opened Options
  import opened EnvironmentModel

  datatype Outcome = Done | Failed | Killed

  class Managed {
    var destination: Option<Dir>
    var owner: Option<Owner>
    var steps: nat
    /** What the destination held when the live transaction began. */
    ghost var rollback: Option<Dir>
    /** Identities of directories that were removed for good. */
    ghost var destroyed: set<nat>

    ghost predicate Valid()
      reads this
    {
      Consistent(owner, destination, rollback)
    }

    ghost function Owed(): Option<Dir>
      reads this
    {
      Goal(owner, destination, rollback)
    }

    ghost predicate Committed()
      reads this
    {
      owner.Some? && owner.value.committed.Some?
    }

    method Alive() returns (alive: bool)
      modifies this`steps
      ensures alive <==> old(steps) > 0
      ensures steps == if alive then old(steps) - 1 else 0
    {
      if steps == 0 { alive := false; } else { steps := steps - 1; alive := true; }
    }

    /** remove_tree: the children go one at a time, in any order. */
    method RemoveContents() returns (o: Outcome)
      requires Valid() && owner.Some? && owner.value.location == Cleanup && owner.value.place == AtCleanupPath
      modifies this`owner, this`steps, this`destroyed
      ensures o != Failed && Valid() && owner.Some? && owner.value.location == Cleanup && Owed() == old(Owed())
      ensures Committed() == old(Committed()) && owner.value.place == AtCleanupPath
      ensures forall id :: id in destroyed - old(destroyed) ==> old(Kept(owner.value, id))
      ensures old(destroyed) <= destroyed
      ensures forall id :: old(Kept(owner.value, id)) ==> id in destroyed || Kept(owner.value, id)
      ensures o == Done ==> owner.value.backup.None? && owner.value.staging.None? && owner.value.discarded.None?
      ensures steps + 3 >= old(steps) && (o == Killed ==> steps == 0)
      ensures Cleared(old(owner), owner, old(steps), steps)
    {
      hide Cleared;
      ClearedNone(owner, steps);
      while owner.value.backup.Some? || owner.value.staging.Some? || owner.value.discarded.Some?
        invariant Valid() && owner.Some? && owner.value.location == Cleanup && Owed() == old(Owed())
        invariant Committed() == old(Committed()) && steps + 3 >= old(steps) + Count(owner.value)
        invariant forall id :: id in destroyed - old(destroyed) ==> old(Kept(owner.value, id))
        invariant forall id :: Kept(owner.value, id) ==> old(Kept(owner.value, id))
        invariant forall id :: old(Kept(owner.value, id)) ==> id in destroyed || Kept(owner.value, id)
        invariant old(destroyed) <= destroyed && owner.value.place == AtCleanupPath
        invariant Cleared(old(owner), owner, old(steps), steps)
        decreases Count(owner.value)
      {
        var alive := Alive();
        if !alive { return Killed; }
        var w := owner.value;
        if {
          case w.backup.Some? =>
            destroyed := destroyed + {w.backup.value.id};
            owner := Some(w.(backup := None));
          case w.staging.Some? =>
            destroyed := destroyed + {w.staging.value.id};
            owner := Some(w.(staging := None));
          case w.discarded.Some? =>
            destroyed := destroyed + {w.discarded.value.id};
            owner := Some(w.(discarded := None));
        }
        ClearedOnce(old(owner), Some(w), owner, old(steps), steps + 1);
      }
      return Done;
    }

    /** OwnedSibling.cleanup: mark, detach, mark again, remove, and only then drop the owner record. */
    method OwnerCleanup() returns (o: Outcome)
      requires Valid() && owner.Some?
      requires owner.value.location == Original ==> Closing(owner.value.(location := Detaching), destination, rollback)
      modifies this`owner, this`steps, this`destroyed
      ensures Valid() && Owed() == old(Owed())
      ensures o == Failed <==> old(Unattributable(owner))
      ensures o == Failed ==> owner == old(owner)
      ensures o == Done ==> owner.None? && destination == old(Owed())
      ensures owner.Some? ==> Committed() == old(Committed())
      ensures old(Owed()).Some? ==> old(Owed()).value.id !in destroyed - old(destroyed)
      ensures forall id :: old(Kept(owner.value, id)) ==> id in destroyed || (owner.Some? && Kept(owner.value, id))
      ensures steps + 8 >= old(steps) && (o == Killed ==> steps == 0)
      ensures Cleared(old(owner), owner, old(steps), steps)
    {
      hide Cleared;
      assert Owed().Some? ==> !Kept(owner.value, Owed().value.id);
      ClearedNone(owner, steps);
      if owner.value.location == Creating {
        if owner.value.place != Absent { return Failed; }
      } else {
        o := Detach();
        if o != Done { return; }
        if owner.value.place == AtCleanupPath {
          ghost var detached, left := owner, steps;
          o := RemoveContents();
          ClearedThen(old(owner), detached, owner, old(steps), left, steps);
          if o != Done { return; }
          var alive := Alive();
          if !alive { return Killed; }
          ghost var emptied := owner;
          owner := Some(owner.value.(place := Absent));
          ClearedOnce(old(owner), emptied, owner, old(steps), steps + 1);
        }
      }
      var alive := Alive();
      if !alive { return Killed; }
      ClearedOnce(old(owner), owner, None, old(steps), steps + 1);
      owner := None;
      return Done;
    }

    /** The first half of OwnedSibling.cleanup: mark, move the directory to its cleanup path, mark again. */
    method Detach() returns (o: Outcome)
      requires Valid() && owner.Some? && owner.value.location != Creating
      requires owner.value.location == Original ==> Closing(owner.value.(location := Detaching), destination, rollback)
      modifies this`owner, this`steps
      ensures o != Failed && Valid() && owner.Some? && Owed() == old(Owed()) && Committed() == old(Committed())
      ensures owner.value.location != Creating && (o == Done ==> owner.value.location == Cleanup)
      ensures forall id :: Kept(owner.value, id) <==> old(Kept(owner.value, id))
      ensures steps + 3 >= old(steps) && (o == Killed ==> steps == 0)
      ensures Cleared(old(owner), owner, old(steps), steps)
    {
      var w := owner.value;
      hide Cleared;
      ClearedNone(owner, steps);
      if w.place == AtPath {
        if w.location == Original {
          var alive := Alive();
          if !alive { return Killed; }
          ClearedOnce(old(owner), owner, Some(w.(location := Detaching)), old(steps), steps + 1);
          w := w.(location := Detaching);
          owner := Some(w);
        }
        var alive := Alive();
        if !alive { return Killed; }
        ClearedOnce(old(owner), owner, Some(w.(place := AtCleanupPath)), old(steps), steps + 1);
        w := w.(place := AtCleanupPath);
        owner := Some(w);
      }
      if w.location != Cleanup {
        var alive := Alive();
        if !alive { return Killed; }
        ClearedOnce(old(owner), owner, Some(w.(location := Cleanup)), old(steps), steps + 1);
        w := w.(location := Cleanup);
        owner := Some(w);
      }
      o := Done;
    }

    /** _move_owned_directory(destination, transaction/discarded, candidate). */
    method DiscardDestination(id: nat) returns (o: Outcome)
      requires owner.Some? && destination.Some?
      modifies this`destination, this`owner, this`steps
      ensures o == Failed <==> old(!(Holds(destination, id) && owner.value.discarded.None?))
      ensures o != Done ==> owner == old(owner) && destination == old(destination)
      ensures o == Done ==> destination == None && owner == Some(old(owner.value).(discarded := old(destination)))
      ensures old(Valid() && owner.value.location == Original && owner.value.candidate == Some(id) && !Committed()) ==>
                Valid() && !Committed() && Owed() == old(Owed())
      ensures steps + 1 >= old(steps) && (o == Killed ==> steps == 0)
      ensures o != Failed ==> o == if old(steps) >= 1 then Done else Killed
    {
      if !Holds(destination, id) || owner.value.discarded.Some? { return Failed; }
      var alive := Alive();
      if !alive { return Killed; }
      owner := Some(owner.value.(discarded := destination));
      destination := None;
      return Done;
    }

    /** _move_owned_directory(transaction/previous, destination, previous). */
    method RestoreBackup(id: nat) returns (o: Outcome)
      requires owner.Some?
      modifies this`destination, this`owner, this`steps
      ensures o != Done ==> owner == old(owner) && destination == old(destination)
      ensures o == Done ==> destination == old(owner.value.backup) && owner == Some(old(owner.value).(backup := None))
      ensures old(Valid() && owner.value.location == Original && owner.value.previous == Some(id)) ==>
                Valid() && Owed() == old(Owed()) && (o == Done ==> !Committed() && destination == Owed())
      ensures o == Failed <==> old(!(Holds(owner.value.backup, id) && destination.None?))
      ensures steps + 1 >= old(steps) && (o == Killed ==> steps == 0)
      ensures o != Failed ==> o == if old(steps) >= 1 then Done else Killed
    {
      if !Holds(owner.value.backup, id) || destination.Some? { return Failed; }
      var alive := Alive();
      if !alive { return Killed; }
      destination := owner.value.backup;
      owner := Some(owner.value.(backup := None));
      return Done;
    }

    /** The decision of _recover_owner, carried out on whatever labels and directories are found: it fails exactly when they
        do not belong together. */
    method CarryOut() returns (o: Outcome)
      requires owner.Some?
      modifies this`destination, this`owner, this`steps
      ensures o != Killed ==> (o == Failed <==> Decide(old(owner.value), old(destination)) == Refuse)
      ensures o == Done ==> owner.Some? && (owner.value, destination) == Carry(Decide(old(owner.value), old(destination)), old(owner.value), old(destination))
      ensures old(Valid() && owner.value.location == Original) ==>
                Valid() && owner.Some? && owner.value.location == Original && Owed() == old(Owed()) && Committed() == old(Committed())
      ensures steps + 2 >= old(steps) && (o == Killed ==> steps == 0)
    {
      var w := owner.value;
      if w.previous.None? {
        if destination.Some? && w.candidate.Some? {
          if w.committed.None? {
            o := DiscardDestination(w.candidate.value);
            return;
          } else if !Holds(destination, w.committed.value) {
            return Failed;
          }
        }
      } else if w.backup.Some? {
        if destination.None? {
          o := RestoreBackup(w.previous.value);
          return;
        } else if w.candidate.Some? && Holds(destination, w.candidate.value) {
          if w.committed.None? {
            o := DiscardDestination(w.candidate.value);
            if o != Done { return; }
            o := RestoreBackup(w.previous.value);
            return;
          } else if !Holds(destination, w.committed.value) {
            return Failed;
          }
        } else {
          return Failed;
        }
      } else if !Holds(destination, w.previous.value) {
        return Failed;
      }
      o := Done;
    }

    /** _recover_owner on a claimed transaction. */
    method RecoverOwner() returns (o: Outcome)
      requires Valid() && owner.Some? && owner.value.location == Original
      modifies this`destination, this`owner, this`steps, this`destroyed
      ensures o != Failed && Valid() && Owed() == old(Owed())
      ensures o == Done ==> owner.None? && destination == old(Owed())
      ensures owner.Some? ==> Committed() == old(Committed())
      ensures old(Owed()).Some? ==> old(Owed()).value.id !in destroyed - old(destroyed)
      ensures steps + 10 >= old(steps) && (o == Killed ==> steps == 0)
    {
      DecisionReachesGoal(owner.value, destination, rollback);
      hide Decide, Carry, Live;
      o := CarryOut();
      if o != Done { return; }
      o := OwnerCleanup();
    }

    /** recover: finish or undo whatever an interrupted run left. */
    method Recover(fingerprint: nat) returns (o: Outcome)
      requires Valid()
      modifies this`destination, this`owner, this`steps, this`destroyed
      ensures Valid() && Owed() == old(Owed())
      ensures o == Done ==> owner.None? && destination == old(Owed())
      ensures o == Killed ==> old(steps) <= 10
      ensures o == Failed <==> old(Unattributable(owner) || Foreign(owner, fingerprint))
      ensures o == Failed ==> owner == old(owner) && destination == old(destination)
      ensures owner.Some? ==> Committed() == old(Committed())
      ensures old(Owed()).Some? ==> old(Owed()).value.id !in destroyed - old(destroyed)
      ensures steps + 10 >= old(steps) && (o == Killed ==> steps == 0)
    {
      if owner.None? { return Done; }
      var w := owner.value;
      if w.location != Original || w.fingerprint.None? {
        if w.location == Original && (w.previous.Some? || w.candidate.Some? || w.committed.Some?) { return Failed; }
        o := OwnerCleanup();
        return;
      }
      if w.fingerprint != Some(fingerprint) { return Failed; }
      o := RecoverOwner();
    }

    /** create: an owner record, its directory, the recorded identity, and the fingerprint label, in this order. */
    method Create(fingerprint: nat) returns (o: Outcome)
      requires Valid() && owner.None?
      modifies this`owner, this`steps, this`rollback
      ensures o != Failed && Valid() && Owed() == old(destination) && !Committed()
      ensures owner.Some? ==> rollback == old(destination)
      ensures o == Done ==> owner == Some(NEW_OWNER.(location := Original, place := AtPath, fingerprint := Some(fingerprint)))
      ensures steps + 4 >= old(steps) && (o == Killed ==> steps == 0)
      ensures o == if old(steps) >= 4 then Done else Killed
      ensures o == Killed ==> owner == CreatedIn(old(steps))
    {
      rollback := destination;
      var alive := Alive();
      if !alive { return Killed; }
      owner := Some(NEW_OWNER);
      alive := Alive();
      if !alive { return Killed; }
      owner := Some(NEW_OWNER.(place := AtPath));
      alive := Alive();
      if !alive { return Killed; }
      owner := Some(NEW_OWNER.(location := Original, place := AtPath));
      alive := Alive();
      if !alive { return Killed; }
      owner := Some(NEW_OWNER.(location := Original, place := AtPath, fingerprint := Some(fingerprint)));
      return Done;
    }

    /** A transaction this fingerprint may act on: _claim_transaction succeeds. */
    ghost predicate Claimed(fingerprint: nat)
      reads this
    {
      owner.Some? && owner.value.location == Original && owner.value.fingerprint == Some(fingerprint)
    }

    /** backup: bind `previous`, then move the live environment into the transaction. */
    method Backup(fingerprint: nat) returns (o: Outcome)
      requires Valid() && Claimed(fingerprint) && owner.value.previous.None? && owner.value.candidate.None?
      requires destination.Some?
      modifies this`destination, this`owner, this`steps
      ensures Valid() && Owed() == old(Owed()) && Claimed(fingerprint) && !Committed()
      ensures o == Failed <==> old(destination).value.ready != Some(fingerprint)
      ensures o == Failed ==> owner == old(owner) && destination == old(destination)
      ensures o == Done ==> destination.None? && owner == Some(old(owner.value).(previous := Some(old(destination).value.id), backup := old(destination)))
      ensures steps + 2 >= old(steps) && (o == Killed ==> steps == 0)
      ensures o != Failed ==> o == if old(steps) >= 2 then Done else Killed
      ensures o == Killed ==> destination == old(destination) && owner == if old(steps) == 0 then old(owner)
                else Some(old(owner.value).(previous := Some(destination.value.id)))
    {
      if destination.value.ready != Some(fingerprint) { return Failed; }
      var alive := Alive();
      if !alive { return Killed; }
      owner := Some(owner.value.(previous := Some(destination.value.id)));
      alive := Alive();
      if !alive { return Killed; }
      owner := Some(owner.value.(backup := destination));
      destination := None;
      return Done;
    }

    /** The driver builds the replacement in transaction/staging and marks it ready last. */
    method Stage(fingerprint: nat, id: nat) returns (o: Outcome)
      requires Valid() && Claimed(fingerprint) && owner.value.candidate.None? && owner.value.staging.None?
      requires rollback.Some? ==> rollback.value.id != id
      modifies this`owner, this`steps
      ensures o != Failed && Valid() && Owed() == old(Owed()) && Claimed(fingerprint) && !Committed()
      ensures o == Done ==> owner == Some(old(owner.value).(staging := Some(Dir(id, Some(fingerprint)))))
      ensures steps + 2 >= old(steps) && (o == Killed ==> steps == 0)
      ensures o == if old(steps) >= 2 then Done else Killed
      ensures o == Killed ==> owner == if old(steps) == 0 then old(owner) else Some(old(owner.value).(staging := Some(Dir(id, None))))
    {
      var alive := Alive();
      if !alive { return Killed; }
      owner := Some(owner.value.(staging := Some(Dir(id, None))));
      alive := Alive();
      if !alive { return Killed; }
      owner := Some(owner.value.(staging := Some(Dir(id, Some(fingerprint)))));
      return Done;
    }

    /** prepare: record the ready replacement.  The driver has moved any live environment away before. */
    method Prepare(fingerprint: nat) returns (o: Outcome)
      requires Valid() && Claimed(fingerprint) && owner.value.candidate.None? && destination.None?
      modifies this`owner, this`steps
      ensures Valid() && Owed() == old(Owed()) && Claimed(fingerprint) && !Committed()
      ensures o == Failed <==> old(owner.value.staging.None? || owner.value.staging.value.ready != Some(fingerprint))
      ensures o != Done ==> owner == old(owner)
      ensures o == Done ==> owner == Some(old(owner.value).(candidate := Some(old(owner.value.staging).value.id)))
      ensures steps + 1 >= old(steps) && (o == Killed ==> steps == 0)
      ensures o != Failed ==> o == if old(steps) >= 1 then Done else Killed
    {
      if owner.value.staging.None? || owner.value.staging.value.ready != Some(fingerprint) { return Failed; }
      var alive := Alive();
      if !alive { return Killed; }
      owner := Some(owner.value.(candidate := Some(owner.value.staging.value.id)));
      return Done;
    }

    /** promote: move the recorded replacement to the destination. */
    method Promote(fingerprint: nat) returns (o: Outcome)
      requires Valid() && Claimed(fingerprint) && !Committed()
      modifies this`destination, this`owner, this`steps
      ensures Valid() && Owed() == old(Owed()) && Claimed(fingerprint) && !Committed()
      ensures o == Failed <==> old(owner.value.candidate.None? || !Holds(owner.value.staging, owner.value.candidate.value) || destination.Some?)
      ensures o != Done ==> owner == old(owner) && destination == old(destination)
      ensures o == Done ==> destination == old(owner.value.staging) && owner == Some(old(owner.value).(staging := None))
      ensures steps + 1 >= old(steps) && (o == Killed ==> steps == 0)
      ensures o != Failed ==> o == if old(steps) >= 1 then Done else Killed
    {
      if owner.value.candidate.None? || !Holds(owner.value.staging, owner.value.candidate.value) || destination.Some? {
        return Failed;
      }
      var alive := Alive();
      if !alive { return Killed; }
      destination := owner.value.staging;
      owner := Some(owner.value.(staging := None));
      return Done;
    }

    /** commit: the one mutation that moves what recovery owes from the old environment to the new one. */
    method Commit(fingerprint: nat) returns (o: Outcome)
      requires Valid() && Claimed(fingerprint) && !Committed()
      modifies this`owner, this`steps
      ensures Valid() && Claimed(fingerprint)
      ensures o == Failed <==> old(destination.None? || destination.value.ready != Some(fingerprint) ||
                                   owner.value.candidate != Some(destination.value.id))
      ensures o != Done ==> owner == old(owner)
      ensures o == Done ==> Committed() && Owed() == destination && owner == Some(old(owner.value).(committed := old(owner.value.candidate)))
      ensures steps + 1 >= old(steps) && (o == Killed ==> steps == 0)
      ensures o != Failed ==> o == if old(steps) >= 1 then Done else Killed
    {
      if destination.None? || destination.value.ready != Some(fingerprint) { return Failed; }
      if owner.value.candidate.None? || destination.value.id != owner.value.candidate.value { return Failed; }
      var alive := Alive();
      if !alive { return Killed; }
      owner := Some(owner.value.(committed := Some(destination.value.id)));
      return Done;
    }

    /** restore: the driver's own rollback after a failed step. */
    method Restore(fingerprint: nat) returns (o: Outcome)
      requires Valid() && Claimed(fingerprint) && !Committed()
      modifies this`destination, this`owner, this`steps, this`destroyed
      ensures Valid() && Owed() == old(Owed())
      ensures o == Done ==> owner.None? && destination == old(Owed())
      ensures o != Killed ==>
                (o == Failed <==>
                   old(|| (destination.Some? && (|| owner.value.candidate.None? || !Holds(destination, owner.value.candidate.value)
                                                 || owner.value.discarded.Some?))
                       || (owner.value.previous.Some? && !Holds(owner.value.backup, owner.value.previous.value))))
      ensures o == Failed ==> owner == old(owner) && destination == old(destination)
      ensures owner.Some? ==> !Committed()
      ensures old(Owed()).Some? ==> old(Owed()).value.id !in destroyed - old(destroyed)
      ensures steps + 10 >= old(steps) && (o == Killed ==> steps == 0)
    {
      var w := owner.value;
      if destination.Some? {
        if w.candidate.None? { return Failed; }
        o := DiscardDestination(w.candidate.value);
        if o != Done { return; }
      }
      if w.previous.Some? {
        o := RestoreBackup(w.previous.value);
        if o != Done { return; }
      }
      o := OwnerCleanup();
    }

    /** The whole provisioning run of the build driver.  `verifies` says whether the promoted environment passes
        its checks; if not, the driver restores.  `id` is the identity of the environment it built. */
    method Provision(fingerprint: nat, verifies: bool) returns (o: Outcome, id: nat)
      requires Valid()
      modifies this
      ensures Valid()
      ensures Owed() == old(Owed()) || (verifies && Owed() == Some(Dir(id, Some(fingerprint))))
      ensures Owed() == old(Owed()) && Owed().Some? ==> Owed().value.id !in destroyed - old(destroyed)
      ensures o == Done ==> owner.None? && destination == (if verifies then Some(Dir(id, Some(fingerprint))) else old(Owed()))
      ensures o != Killed ==>
                (o == Failed <==>
                   old(|| Unattributable(owner) || Foreign(owner, fingerprint)
                       || (Owed().Some? && Owed().value.ready != Some(fingerprint))))
      ensures steps + 30 >= old(steps) && (o == Killed ==> steps == 0)
    {
      id := 0;
      o := Recover(fingerprint);
      if o != Done { return; }
      id := *;
      if Holds(destination, id) { id := id + 1; }
      o := Install(fingerprint, id);
      if o != Done { return; }
      if !verifies {
        o := Restore(fingerprint);
        return;
      }
      o := Commit(fingerprint);
      if o != Done { return; }
      o := OwnerCleanup();
    }

    /** The driver's steps up to the promotion of the environment it built. */
    method Install(fingerprint: nat, id: nat) returns (o: Outcome)
      requires Valid() && owner.None? && !Holds(destination, id)
      modifies this`destination, this`owner, this`steps, this`rollback
      ensures Valid() && Owed() == old(Owed()) && !Committed()
      ensures o == Done ==> Claimed(fingerprint) && destination == Some(Dir(id, Some(fingerprint))) && owner.value.candidate == Some(id)
      ensures o == Done ==> rollback == old(destination)
      ensures o != Killed ==> (o == Failed <==> old(destination).Some? && old(destination).value.ready != Some(fingerprint))
      ensures o == Failed ==> destination == old(destination)
      ensures steps + 10 >= old(steps) && (o == Killed ==> steps == 0)
    {
      o := Create(fingerprint);
      if o != Done { return; }
      if destination.Some? {
        o := Backup(fingerprint);
        if o != Done { return; }
      }
      o := Stage(fingerprint, id);
      if o != Done { return; }
      o := Prepare(fingerprint);
      if o != Done { return; }
      o := Promote(fingerprint);
    }
  }

  /** One configure run: its fingerprint, whether the new environment verifies, and when it is killed. */
  datatype Configure = Configure(fingerprint: nat, verifies: bool, steps: nat)

  /** What a configure run may change the owed environment to. */
  ghost predicate Step(a: Option<Dir>, b: Option<Dir>, c: Configure) {
    a == b || (c.verifies && b.Some? && b.value.ready == Some(c.fingerprint))
  }

  /** The directory owed before and after a run is not among those removed in it. */
  ghost predicate Spared(a: Option<Dir>, b: Option<Dir>, before: set<nat>, after: set<nat>) {
    a == b && a.Some? ==> a.value.id !in after - before
  }

  /** Any number of configure runs, each killed anywhere: the environment owed to the user is only ever replaced
      by one that verified, it is never removed or lost, recovery stays possible, and a run is killed only if it was given
      no more than a fixed number of steps. */
  method Run(env: Managed, runs: seq<Configure>)
    returns (outcomes: seq<Outcome>, ghost log: seq<Option<Dir>>, ghost removed: seq<set<nat>>)
    requires env.Valid()
    modifies env
    ensures env.Valid()
    ensures |log| == |runs| + 1 && log[0] == old(env.Owed()) && log[|runs|] == env.Owed()
    ensures forall i :: 0 <= i < |runs| ==> Step(log[i], log[i + 1], runs[i])
    ensures |removed| == |runs| + 1 && removed[0] == old(env.destroyed) && removed[|runs|] == env.destroyed
    ensures forall i :: 0 <= i < |runs| ==> Spared(log[i], log[i + 1], removed[i], removed[i + 1])
    ensures |outcomes| == |runs| && forall i :: 0 <= i < |runs| ==> outcomes[i] == Killed ==> runs[i].steps <= 30
    ensures old(env.Owed()).Some? ==> env.Owed().Some?
  {
    outcomes, log, removed := [], [env.Owed()], [env.destroyed];
    for i := 0 to |runs|
      invariant env.Valid()
      invariant |log| == i + 1 && log[0] == old(env.Owed()) && log[i] == env.Owed()
      invariant forall j :: 0 <= j < i ==> Step(log[j], log[j + 1], runs[j])
      invariant |removed| == i + 1 && removed[0] == old(env.destroyed) && removed[i] == env.destroyed
      invariant forall j :: 0 <= j < i ==> Spared(log[j], log[j + 1], removed[j], removed[j + 1])
      invariant |outcomes| == i && forall j :: 0 <= j < i ==> outcomes[j] == Killed ==> runs[j].steps <= 30
      invariant old(env.Owed()).Some? ==> env.Owed().Some?
    {
      env.steps := runs[i].steps;
      var o, _ := env.Provision(runs[i].fingerprint, runs[i].verifies);
      outcomes, log, removed := outcomes + [o], log + [env.Owed()], removed + [env.destroyed];
    }
  }
}
