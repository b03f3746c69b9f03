/** The durable state of one managed-environment transaction.

    Directories are told apart by identity.  An owner record carries the labels bound so far, its
    location, and the transaction directory with its three possible children. */
module EnvironmentModel {
  import opened Options

  /** `ready` is the fingerprint in the .protocyte-ready marker, if there is one. */
  datatype Dir = Dir(id: nat, ready: Option<nat>)

  datatype Location = Creating | Original | Detaching | Cleanup

  datatype Place = Absent | AtPath | AtCleanupPath

  datatype Owner = Owner(location: Location, place: Place, fingerprint: Option<nat>,
                         previous: Option<nat>, candidate: Option<nat>, committed: Option<nat>,
                         backup: Option<Dir>, staging: Option<Dir>, discarded: Option<Dir>)

  const NEW_OWNER := Owner(Creating, Absent, None, None, None, None, None, None, None)

  predicate Holds(slot: Option<Dir>, id: nat) { slot.Some? && slot.value.id == id }

  /** Exactly one of the three places holds the prepared environment `c`. */
  predicate HeldOnce(dest: Option<Dir>, staging: Option<Dir>, discarded: Option<Dir>, c: nat) {
    || (Holds(dest, c) && staging.None? && discarded.None?)
    || (dest.None? && Holds(staging, c) && discarded.None?)
    || (dest.None? && staging.None? && Holds(discarded, c))
  }

  /** The states of a live transaction that began when the destination held `rollback`. */
  predicate Live(o: Owner, dest: Option<Dir>, rollback: Option<Dir>) {
    && o.place == AtPath
    && (o.fingerprint.None? ==> o.previous.None? && o.candidate.None? && o.committed.None?)
    && match o.previous {
         case None =>
           && o.backup.None?
           && match o.candidate {
                case None => dest == rollback && o.discarded.None? && o.committed.None? &&
                             (o.staging.Some? && rollback.Some? ==> o.staging.value.id != rollback.value.id)
                case Some(c) => rollback.None? && HeldOnce(dest, o.staging, o.discarded, c)
                                && (o.committed.Some? ==> o.committed == Some(c) && dest.Some?)
              }
         case Some(prior) =>
           && Holds(rollback, prior)
           && match o.candidate {
                case None =>
                  && o.discarded.None? && o.committed.None? && !Holds(o.staging, prior)
                  && ((dest == rollback && o.backup.None?) || (dest.None? && o.backup == rollback))
                case Some(c) =>
                  && c != prior
                  && (o.committed.Some? ==> o.committed == Some(c) && Holds(dest, c))
                  && (if o.backup.Some? then o.backup == rollback && HeldOnce(dest, o.staging, o.discarded, c)
                      else dest == rollback && HeldOnce(None, o.staging, o.discarded, c))
              }
       }
  }

  /** Cleanup has begun: the destination already is what the transaction decided. */
  predicate Closing(o: Owner, dest: Option<Dir>, rollback: Option<Dir>) {
    && (o.location == Detaching ==> o.place != Absent)
    && (o.location == Cleanup ==> o.place != AtPath) && (o.place == Absent ==> Count(o) == 0)
    && if o.committed.Some? then Holds(dest, o.committed.value) && !Kept(o, o.committed.value)
       else dest == rollback && o.backup.None? && (rollback.Some? ==> !Kept(o, rollback.value.id))
  }

  /** `id` is somewhere inside the transaction directory. */
  predicate Kept(o: Owner, id: nat) {
    Holds(o.backup, id) || Holds(o.staging, id) || Holds(o.discarded, id)
  }

  function Count(o: Owner): nat {
    (if o.backup.Some? then 1 else 0) + (if o.staging.Some? then 1 else 0) + (if o.discarded.Some? then 1 else 0)
  }

  /** Everything the driver order can leave behind, whatever the crash point. */
  predicate Consistent(owner: Option<Owner>, dest: Option<Dir>, rollback: Option<Dir>) {
    match owner
    case None => true
    case Some(o) =>
      match o.location
      case Creating => o == NEW_OWNER.(place := o.place) && o.place != AtCleanupPath && dest == rollback
      case Original => Live(o, dest, rollback)
      case _ => Closing(o, dest, rollback)
  }

  /** What recovery owes the user: the new environment once `committed` is bound, the old one before. */
  function Goal(owner: Option<Owner>, dest: Option<Dir>, rollback: Option<Dir>): Option<Dir> {
    match owner
    case None => dest
    case Some(o) => if o.committed.Some? then dest else rollback
  }

  /** The directory was created but its identity never recorded, so nothing may be removed. */
  predicate Unattributable(owner: Option<Owner>) {
    owner.Some? && owner.value.location == Creating && owner.value.place != Absent
  }

  predicate Foreign(owner: Option<Owner>, fingerprint: nat) {
    && owner.Some? && owner.value.location == Original
    && owner.value.fingerprint.Some? && owner.value.fingerprint != Some(fingerprint)
  }

  // ---------------------------------------------------------------- the two-phase cleanup, mutation by mutation

  /** One durable mutation of the cleanup: mark, move aside, mark again, remove the children one by one in any order, remove
      the directory, drop the record. */
  ghost predicate Clears(a: Owner, b: Option<Owner>) {
    if a.location == Creating then a.place == Absent && b == None
    else if a.place == AtPath && a.location == Original then b == Some(a.(location := Detaching))
    else if a.place == AtPath then b == Some(a.(place := AtCleanupPath))
    else if a.location != Cleanup then b == Some(a.(location := Cleanup))
    else if a.place == AtCleanupPath && Count(a) > 0 then
      || (a.backup.Some? && b == Some(a.(backup := None)))
      || (a.staging.Some? && b == Some(a.(staging := None)))
      || (a.discarded.Some? && b == Some(a.(discarded := None)))
    else if a.place == AtCleanupPath then b == Some(a.(place := Absent))
    else b == None
  }

  /** `n` such mutations lead from one record to the other. */
  ghost predicate ClearsIn(a: Option<Owner>, b: Option<Owner>, n: nat)
    decreases n
  {
    if n == 0 then a == b else exists mid: Option<Owner> :: mid.Some? && ClearsIn(a, mid, n - 1) && Clears(mid.value, b)
  }

  lemma {:induction false} ClearsThen(a: Option<Owner>, b: Option<Owner>, c: Option<Owner>, n: nat, m: nat)
    requires ClearsIn(a, b, n) && ClearsIn(b, c, m)
    ensures ClearsIn(a, c, n + m)
    decreases m
  {
    hide Clears;
    if m > 0 {
      var mid: Option<Owner> :| mid.Some? && ClearsIn(b, mid, m - 1) && Clears(mid.value, c);
      ClearsThen(a, b, mid, n, m - 1);
    }
  }

  /** The same, from `before` steps left to `after`. */
  ghost predicate Cleared(a: Option<Owner>, b: Option<Owner>, before: nat, after: nat) {
    after <= before && ClearsIn(a, b, before - after)
  }

  lemma ClearedNone(a: Option<Owner>, steps: nat)
    ensures Cleared(a, a, steps, steps)
  {
  }

  lemma ClearedOnce(a: Option<Owner>, b: Option<Owner>, c: Option<Owner>, before: nat, steps: nat)
    requires b.Some? && steps > 0 && Cleared(a, b, before, steps) && Clears(b.value, c)
    ensures Cleared(a, c, before, steps - 1)
  {
  }

  lemma ClearedThen(a: Option<Owner>, b: Option<Owner>, c: Option<Owner>, before: nat, mid: nat, after: nat)
    requires Cleared(a, b, before, mid) && Cleared(b, c, mid, after)
    ensures Cleared(a, c, before, after)
  {
    hide Clears;
    ClearsThen(a, b, c, before - mid, mid - after);
    hide ClearsIn;
    assert before - mid + (mid - after) == before - after;
  }

  /** A new owner after fewer than four mutations: first the record, then the directory, then the directory's identity. */
  ghost function CreatedIn(n: nat): Option<Owner> {
    if n == 0 then None
    else Some(NEW_OWNER.(place := if n >= 2 then AtPath else Absent, location := if n >= 3 then Original else Creating))
  }

  // ---------------------------------------------------------------- the decision of _recover_owner

  datatype Decision = Keep | Discard | Restore | DiscardThenRestore | Refuse

  function Decide(o: Owner, dest: Option<Dir>): Decision {
    if o.previous.None? then
      if dest.Some? && o.candidate.Some? then
        if o.committed.None? then (if Holds(dest, o.candidate.value) && o.discarded.None? then Discard else Refuse)
        else if Holds(dest, o.committed.value) then Keep else Refuse
      else Keep
    else if o.backup.Some? then
      if dest.None? then (if Holds(o.backup, o.previous.value) then Restore else Refuse)
      else if o.candidate.Some? && Holds(dest, o.candidate.value) then
        if o.committed.None? then
          (if Holds(o.backup, o.previous.value) && o.discarded.None? then DiscardThenRestore else Refuse)
        else if Holds(dest, o.committed.value) then Keep else Refuse
      else Refuse
    else if Holds(dest, o.previous.value) then Keep
    else Refuse
  }

  /** The destination and owner record after a decision has been carried out. */
  function Carry(d: Decision, o: Owner, dest: Option<Dir>): (Owner, Option<Dir>) {
    match d
    case Discard => (o.(discarded := dest), None)
    case Restore => (o.(backup := None), o.backup)
    case DiscardThenRestore => (o.(discarded := dest, backup := None), o.backup)
    case _ => (o, dest)
  }

  /** In every state the driver order can reach, recovery has an answer, and it is the right one. */
  lemma DecisionReachesGoal(o: Owner, dest: Option<Dir>, rollback: Option<Dir>)
    requires o.location == Original && Live(o, dest, rollback)
    ensures Decide(o, dest) != Refuse
    ensures var (o', dest') := Carry(Decide(o, dest), o, dest);
            && dest' == Goal(Some(o), dest, rollback)
            && Closing(o'.(location := Detaching), dest', rollback)
  {
  }

  /** Recording the replacement before moving a live environment away is the order recovery cannot undo. */
  lemma PrepareBeforeBackupIsStuck(o: Owner, live: Dir)
    requires o.previous.None? && o.committed.None? && o.candidate.Some? && live.id != o.candidate.value
    ensures Decide(o, Some(live)) == Refuse
  {
  }

  /** Without the driver order: a live destination is recoverable with no backup label bound exactly when it is
      the recorded replacement, or nothing was recorded. */
  lemma WithoutBackupLabel(o: Owner, live: Dir)
    requires o.previous.None? && o.discarded.None? && (o.committed.Some? ==> o.committed == o.candidate)
    ensures Decide(o, Some(live)) != Refuse <==> o.candidate.None? || live.id == o.candidate.value
  {
  }
}
