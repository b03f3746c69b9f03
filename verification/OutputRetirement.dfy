/** What reconcile builds to retire outputs the new plan no longer names, hard-link transfers included. */
module OutputRetirement {
  import opened Options
  import opened OutputModel

  /** A recorded output may be retired when it is absent or still holds the recorded bytes. */
  predicate Removable(d: Disk, p: Path) {
    p in d.snapshot.entries && (p in d.outputs ==> d.outputs[p].digest == d.snapshot.entries[p].sha256)
  }

  predicate Retires(d: Disk, planned: map<Path, Target>, p: Path) {
    p !in planned && Removable(d, p)
  }

  /** `dest` is a planned, unrecorded path holding the very file found at `p`.  Paths that share a file
      share its content, so two paths are linked exactly when their `File` values are equal. */
  predicate Linked(d: Disk, planned: map<Path, Target>, p: Path, dest: Path) {
    dest in planned && dest !in d.snapshot.entries && At(d.outputs, p).Some? && At(d.outputs, dest) == At(d.outputs, p)
  }

  ghost predicate Inherits(d: Disk, planned: map<Path, Target>, dest: Path) {
    exists p :: Retires(d, planned, p) && Linked(d, planned, p, dest)
  }

  /** What becomes of a path the plan does not name: it stays recorded exactly when someone modified its bytes, and it
      disappears exactly when it was recorded and nobody did. */
  ghost predicate Dropped(d: Disk, after: Committed, p: Path) {
    && (p in after.snapshot.entries <==>
          p in d.snapshot.entries && p in d.outputs && d.outputs[p].digest != d.snapshot.entries[p].sha256)
    && (p in after.snapshot.entries ==> after.snapshot.entries[p] == d.snapshot.entries[p])
    && (p in after.contents <==> p in d.outputs && (p in d.snapshot.entries ==> p in after.snapshot.entries))
    && (p in after.contents ==> after.contents[p] == d.outputs[p].digest)
  }

  /** What becomes of a planned path: its contents stay, and an unrecorded one becomes recorded exactly when it is the
      very file found, with its recorded bytes, at a path that is dropped. */
  ghost predicate Retained(d: Disk, planned: map<Path, Target>, after: Committed, p: Path)
    requires p in planned
  {
    && (p in after.contents <==> p in d.outputs)
    && (p in after.contents ==> after.contents[p] == d.outputs[p].digest)
    && At(after.snapshot.entries, p) ==
         if && p !in d.snapshot.entries && p in d.outputs
            && exists q :: && q !in planned && q in d.snapshot.entries && At(d.outputs, q) == Some(d.outputs[p])
                           && d.outputs[p].digest == d.snapshot.entries[q].sha256
         then Some(Entry(d.outputs[p].digest, planned[p])) else At(d.snapshot.entries, p)
  }

  /** The exact result of retiring everything `planned` does not name, said about disk and snapshot alone. */
  ghost predicate Retired(d: Disk, planned: map<Path, Target>, after: Committed) {
    && after.snapshot.token == d.snapshot.token
    && (forall p :: if p in planned then Retained(d, planned, after, p) else Dropped(d, after, p))
    && after.snapshot.generation ==
         if exists p :: && p !in planned && p in d.snapshot.entries
                        && (p in d.outputs ==> d.outputs[p].digest == d.snapshot.entries[p].sha256)
         then d.snapshot.generation + 1 else d.snapshot.generation
  }

  /** The same result as the loop reaches it. */
  ghost predicate RetiredAt(d: Disk, planned: map<Path, Target>, after: Committed, p: Path) {
    if Retires(d, planned, p) then p !in after.contents && p !in after.snapshot.entries
    else
      && At(after.contents, p) == At(Contents(d.outputs), p)
      && At(after.snapshot.entries, p) ==
           if Inherits(d, planned, p) then Some(Entry(d.outputs[p].digest, planned[p])) else At(d.snapshot.entries, p)
  }

  lemma RetiredMeans(d: Disk, planned: map<Path, Target>, after: Committed)
    requires after.snapshot.token == d.snapshot.token && forall p :: RetiredAt(d, planned, after, p)
    requires after.snapshot.generation ==
             if exists p :: Retires(d, planned, p) then d.snapshot.generation + 1 else d.snapshot.generation
    ensures Retired(d, planned, after)
  {
    forall p ensures if p in planned then Retained(d, planned, after, p) else Dropped(d, after, p) {
      assert RetiredAt(d, planned, after, p);
      if p in planned {
        if Inherits(d, planned, p) {
          var q :| Retires(d, planned, q) && Linked(d, planned, q, p);
          assert q !in planned && q in d.snapshot.entries && At(d.outputs, q) == Some(d.outputs[p]);
        } else {
          forall q | && q !in planned && q in d.snapshot.entries && p in d.outputs && At(d.outputs, q) == Some(d.outputs[p])
                     && d.outputs[p].digest == d.snapshot.entries[q].sha256 && p !in d.snapshot.entries
            ensures false
          {
            assert Retires(d, planned, q) && Linked(d, planned, q, p);
          }
        }
      }
    }
    if p :| Retires(d, planned, p) {
      assert p !in planned && p in d.snapshot.entries;
    }
    forall p | && p !in planned && p in d.snapshot.entries
               && (p in d.outputs ==> d.outputs[p].digest == d.snapshot.entries[p].sha256)
      ensures Retires(d, planned, p) {}
  }

  /** One change of the retirement transaction. */
  ghost predicate RetirementOf(d: Disk, planned: map<Path, Target>, c: Change) {
    && Retires(d, planned, c.path)
    && c.before == Some(d.snapshot.entries[c.path].sha256) && c.after.None? && c.payload.None?
    && match c.transfer {
         case None => c.target == d.snapshot.entries[c.path].target
         case Some(tr) => && Linked(d, planned, c.path, tr.path)
                          && tr.inode == d.outputs[c.path].inode && c.target == planned[tr.path]
       }
  }

  ghost predicate Claims(changes: seq<Change>, dest: Path) {
    exists i :: 0 <= i < |changes| && changes[i].transfer.Some? && changes[i].transfer.value.path == dest
  }

  /** The invariant of the loop over snapshot entries, of which `done` have been visited. */
  ghost predicate Drafting(d: Disk, planned: map<Path, Target>, done: set<Path>, claimed: set<Path>,
                           changes: seq<Change>, entries: map<Path, Entry>)
  {
    && (forall i :: 0 <= i < |changes| ==> RetirementOf(d, planned, changes[i]) && changes[i].path in done)
    && DistinctPaths(changes)
    && (forall p :: p in done && Retires(d, planned, p) ==> Touches(changes, p))
    && (forall p, dest :: Touches(changes, p) && Linked(d, planned, p, dest) ==> dest in claimed)
    && (forall dest :: dest in claimed <==> Claims(changes, dest))
    && (forall p :: EntryAfter(d, planned, claimed, changes, entries, p))
    && Replays(planned, d.snapshot.entries, {}, changes, 0, entries)
  }

  ghost predicate EntryAfter(d: Disk, planned: map<Path, Target>, claimed: set<Path>, changes: seq<Change>,
                             entries: map<Path, Entry>, p: Path)
  {
    if Touches(changes, p) then p !in entries
    else if p in claimed then
      p in planned && p in d.outputs && At(entries, p) == Some(Entry(d.outputs[p].digest, planned[p]))
    else At(entries, p) == At(d.snapshot.entries, p)
  }

  lemma NoneDone(d: Disk, planned: map<Path, Target>)
    ensures Drafting(d, planned, d.snapshot.entries.Keys - d.snapshot.entries.Keys, {}, [], d.snapshot.entries)
  {
  }

  lemma TouchesAppend(changes: seq<Change>, c: Change)
    ensures forall p :: Touches(changes + [c], p) <==> Touches(changes, p) || p == c.path
    ensures forall p :: Claims(changes + [c], p) <==>
                          Claims(changes, p) || (c.transfer.Some? && c.transfer.value.path == p)
  {
    var all := changes + [c];
    assert all[|changes|] == c;
    assert forall i :: 0 <= i < |changes| ==> all[i] == changes[i];
  }

  lemma Skip(d: Disk, planned: map<Path, Target>, done: set<Path>, claimed: set<Path>,
             changes: seq<Change>, entries: map<Path, Entry>, q: Path)
    requires Drafting(d, planned, done, claimed, changes, entries) && !Retires(d, planned, q)
    ensures Drafting(d, planned, done + {q}, claimed, changes, entries)
  {
  }

  lemma Append(d: Disk, planned: map<Path, Target>, done: set<Path>, claimed: set<Path>,
               changes: seq<Change>, entries: map<Path, Entry>, c: Change, claimed': set<Path>)
    requires Drafting(d, planned, done, claimed, changes, entries)
    requires c.path !in done && RetirementOf(d, planned, c)
    requires match c.transfer
             case Some(tr) => tr.path !in claimed && claimed' == claimed + {tr.path}
             case None => claimed' == claimed
    requires forall dest :: Linked(d, planned, c.path, dest) ==> dest in claimed'
    ensures Drafting(d, planned, done + {c.path}, claimed', changes + [c], Absorb(entries, c))
  {
    hide Replays, Retires, Linked, EntryAfter, ChangeAccepted;
    AppendAccepted(d, planned, done, claimed, changes, entries, c);
    AppendEntries(d, planned, done, claimed, changes, entries, c, claimed');
    TouchesAppend(changes, c);
    assert !Touches(changes, c.path);
  }

  /** The entries drafted so far let the next retirement through validation. */
  lemma AppendAccepted(d: Disk, planned: map<Path, Target>, done: set<Path>, claimed: set<Path>,
                       changes: seq<Change>, entries: map<Path, Entry>, c: Change)
    requires Drafting(d, planned, done, claimed, changes, entries)
    requires c.path !in done && RetirementOf(d, planned, c) && (c.transfer.Some? ==> c.transfer.value.path !in claimed)
    ensures Replays(planned, d.snapshot.entries, {}, changes + [c], 0, Absorb(entries, c))
  {
    hide Replays;
    assert !Touches(changes, c.path);
    assert EntryAfter(d, planned, claimed, changes, entries, c.path);
    assert c.path !in claimed;
    if c.transfer.Some? {
      assert EntryAfter(d, planned, claimed, changes, entries, c.transfer.value.path);
    }
    ReplaysAppend(planned, d.snapshot.entries, {}, changes, 0, entries, c);
  }

  lemma AppendEntries(d: Disk, planned: map<Path, Target>, done: set<Path>, claimed: set<Path>,
                      changes: seq<Change>, entries: map<Path, Entry>, c: Change, claimed': set<Path>)
    requires Drafting(d, planned, done, claimed, changes, entries)
    requires c.path !in done && RetirementOf(d, planned, c)
    requires match c.transfer
             case Some(tr) => tr.path !in claimed && claimed' == claimed + {tr.path}
             case None => claimed' == claimed
    ensures forall p :: EntryAfter(d, planned, claimed', changes + [c], Absorb(entries, c), p)
  {
    hide Replays, DistinctPaths;
    TouchesAppend(changes, c);
    forall p ensures EntryAfter(d, planned, claimed', changes + [c], Absorb(entries, c), p) {
      assert EntryAfter(d, planned, claimed, changes, entries, p);
    }
  }

  lemma DraftMeaning(d: Disk, plan: Plan, claimed: set<Path>, changes: seq<Change>, entries: map<Path, Entry>, p: Pending)
    requires Drafting(d, Planned(plan.outputs), d.snapshot.entries.Keys, claimed, changes, entries) && ValidPlan(plan)
    requires changes != []
    requires p == Pending(d.snapshot.generation, changes,
                          Snapshot(d.snapshot.token, entries, d.snapshot.generation + 1), plan)
    ensures WellFormed(p) && Follows(p, d.snapshot) && TransfersHold(d.outputs, changes) && Guards(d.outputs, changes)
    ensures (forall i :: 0 <= i < |changes| ==> changes[i].after.None?) && PriorsIn(changes, d.snapshot.entries)
    ensures Retired(d, Planned(plan.outputs), Rolled(d, p))
  {
    var planned := Planned(plan.outputs);
    DraftStands(d, plan, claimed, changes, entries, p);
    hide *;
    assert Retires(d, planned, changes[0].path);
    forall q ensures RetiredAt(d, planned, Rolled(d, p), q) {
      DraftRetires(d, planned, claimed, changes, entries, Rolled(d, p), q);
    }
    RetiredMeans(d, planned, Rolled(d, p));
  }

  lemma DraftStands(d: Disk, plan: Plan, claimed: set<Path>, changes: seq<Change>, entries: map<Path, Entry>, p: Pending)
    requires Drafting(d, Planned(plan.outputs), d.snapshot.entries.Keys, claimed, changes, entries) && ValidPlan(plan)
    requires changes != []
    requires p == Pending(d.snapshot.generation, changes,
                          Snapshot(d.snapshot.token, entries, d.snapshot.generation + 1), plan)
    ensures WellFormed(p) && Follows(p, d.snapshot) && TransfersHold(d.outputs, changes) && Guards(d.outputs, changes)
    ensures (forall i :: 0 <= i < |changes| ==> changes[i].after.None?) && PriorsIn(changes, d.snapshot.entries)
    ensures Retires(d, Planned(plan.outputs), changes[0].path)
    ensures Rolled(d, p) == Committed(Effect(Contents(d.outputs), Delta(changes)), p.newSnapshot)
  {
    assert RetirementOf(d, Planned(plan.outputs), changes[0]);
  }

  lemma DraftRetires(d: Disk, planned: map<Path, Target>, claimed: set<Path>, changes: seq<Change>,
                     entries: map<Path, Entry>, after: Committed, q: Path)
    requires Drafting(d, planned, d.snapshot.entries.Keys, claimed, changes, entries)
    requires forall i :: 0 <= i < |changes| ==> changes[i].after.None?
    requires after.contents == Effect(Contents(d.outputs), Delta(changes)) && after.snapshot.entries == entries
    ensures RetiredAt(d, planned, after, q)
  {
    DeltaLookup(changes);
    assert EntryAfter(d, planned, claimed, changes, entries, q);
    if Touches(changes, q) {
      var i :| 0 <= i < |changes| && changes[i].path == q;
      assert RetirementOf(d, planned, changes[i]);
    } else {
      InheritsIffClaimed(d, planned, claimed, changes, entries, q);
    }
  }

  lemma InheritsIffClaimed(d: Disk, planned: map<Path, Target>, claimed: set<Path>, changes: seq<Change>,
                           entries: map<Path, Entry>, dest: Path)
    requires Drafting(d, planned, d.snapshot.entries.Keys, claimed, changes, entries)
    ensures Inherits(d, planned, dest) <==> dest in claimed
  {
    if Inherits(d, planned, dest) {
      var p :| Retires(d, planned, p) && Linked(d, planned, p, dest);
      assert Touches(changes, p);
    }
    if dest in claimed {
      assert Claims(changes, dest);
      var i :| 0 <= i < |changes| && changes[i].transfer.Some? && changes[i].transfer.value.path == dest;
      assert RetirementOf(d, planned, changes[i]);
      assert Linked(d, planned, changes[i].path, dest);
    }
  }

  /** With nothing to retire, what is there already is the result. */
  lemma NothingRetired(d: Disk, planned: map<Path, Target>, claimed: set<Path>, entries: map<Path, Entry>)
    requires Drafting(d, planned, d.snapshot.entries.Keys, claimed, [], entries)
    ensures Retired(d, planned, Committed(Contents(d.outputs), d.snapshot))
  {
    forall q ensures !Retires(d, planned, q) { assert !Touches([], q); }
    RetiredMeans(d, planned, Committed(Contents(d.outputs), d.snapshot));
  }

  /** At most one planned path can inherit from `p`. */
  ghost predicate OneHeir(d: Disk, planned: map<Path, Target>, p: Path) {
    forall a, b :: Linked(d, planned, p, a) && Linked(d, planned, p, b) ==> a == b
  }

  /** One file with its recorded bytes lies at a dropped path and at two unrecorded planned ones, so nobody can say which
      of them inherits the record. */
  ghost predicate Ambiguous(d: Disk, planned: map<Path, Target>) {
    exists p, a, b ::
      && p !in planned && p in d.snapshot.entries && p in d.outputs && d.outputs[p].digest == d.snapshot.entries[p].sha256
      && a != b && a in planned && b in planned && a !in d.snapshot.entries && b !in d.snapshot.entries
      && At(d.outputs, a) == Some(d.outputs[p]) && At(d.outputs, b) == Some(d.outputs[p])
  }

  /** The planned paths that could inherit from `p`. */
  function Heirs(d: Disk, planned: map<Path, Target>, p: Path): (r: set<Path>)
    ensures forall dest :: dest in r <==> Linked(d, planned, p, dest)
  {
    set dest | dest in planned && Linked(d, planned, p, dest)
  }

  lemma SeveralHeirs(d: Disk, planned: map<Path, Target>, p: Path, a: Path, b: Path)
    requires Retires(d, planned, p) && a in Heirs(d, planned, p) && b in Heirs(d, planned, p) && a != b
    ensures Ambiguous(d, planned)
  {
  }

  lemma NoSecondHeir(d: Disk, planned: map<Path, Target>, p: Path)
    requires forall a, b :: a in Heirs(d, planned, p) && b in Heirs(d, planned, p) ==> a == b
    ensures OneHeir(d, planned, p)
  {
    forall a, b | Linked(d, planned, p, a) && Linked(d, planned, p, b) ensures a == b {
      assert a in Heirs(d, planned, p) && b in Heirs(d, planned, p);
    }
  }

  lemma OneHeirEach(d: Disk, planned: map<Path, Target>)
    requires forall p :: p in d.snapshot.entries && Retires(d, planned, p) ==> OneHeir(d, planned, p)
    ensures !Ambiguous(d, planned)
  {
    forall p, a, b | Retires(d, planned, p) && Linked(d, planned, p, a) && Linked(d, planned, p, b) ensures a == b {
      assert OneHeir(d, planned, p);
    }
    if p, a, b :|
      && p !in planned && p in d.snapshot.entries && p in d.outputs && d.outputs[p].digest == d.snapshot.entries[p].sha256
      && a != b && a in planned && b in planned && a !in d.snapshot.entries && b !in d.snapshot.entries
      && At(d.outputs, a) == Some(d.outputs[p]) && At(d.outputs, b) == Some(d.outputs[p])
    {
      assert Retires(d, planned, p) && Linked(d, planned, p, a) && Linked(d, planned, p, b);
    }
  }

  /** The change without a transfer, when nobody is left to inherit. */
  lemma AppendPlain(d: Disk, planned: map<Path, Target>, done: set<Path>, claimed: set<Path>,
                    changes: seq<Change>, entries: map<Path, Entry>, q: Path)
    requires Drafting(d, planned, done, claimed, changes, entries) && q !in done && Retires(d, planned, q)
    requires Heirs(d, planned, q) <= claimed
    ensures var before := d.snapshot.entries[q];
            var c := Change(q, Some(before.sha256), None, None, before.target, None);
            Drafting(d, planned, done + {q}, claimed, changes + [c], Absorb(entries, c))
  {
    hide Drafting;
    var before := d.snapshot.entries[q];
    assert forall dest :: Linked(d, planned, q, dest) ==> dest in Heirs(d, planned, q);
    Append(d, planned, done, claimed, changes, entries, Change(q, Some(before.sha256), None, None, before.target, None), claimed);
  }

  /** The change that hands the path over to its one heir. */
  lemma AppendTransfer(d: Disk, planned: map<Path, Target>, done: set<Path>, claimed: set<Path>,
                       changes: seq<Change>, entries: map<Path, Entry>, q: Path, dest: Path)
    requires Drafting(d, planned, done, claimed, changes, entries) && q !in done && Retires(d, planned, q)
    requires Heirs(d, planned, q) == {dest} && dest !in claimed
    ensures dest in planned && dest in d.outputs
    ensures var c := Change(q, Some(d.snapshot.entries[q].sha256), None, None, planned[dest],
                            Some(Transfer(d.outputs[dest].inode, dest)));
            Drafting(d, planned, done + {q}, claimed + {dest}, changes + [c], Absorb(entries, c))
  {
    hide Drafting;
    assert Linked(d, planned, q, dest) by { assert dest in Heirs(d, planned, q); }
    assert forall other :: Linked(d, planned, q, other) ==> other in Heirs(d, planned, q);
    Append(d, planned, done, claimed, changes, entries,
           Change(q, Some(d.snapshot.entries[q].sha256), None, None, planned[dest], Some(Transfer(d.outputs[dest].inode, dest))),
           claimed + {dest});
  }

  /** `after` is what reconciling to `plan` makes of `before`, decided on the recovered disk. */
  ghost predicate Reconciled(before: Committed, recovered: Disk, plan: Plan, after: Committed) {
    before == Committed(Contents(recovered.outputs), recovered.snapshot) && Retired(recovered, Planned(plan.outputs), after)
  }
}
