# Protocyte in Dafny

Protocyte generates C++ from protocol buffer descriptors. Its hardest logic is not in the text it emits but in the
protocols and algorithms around it. This project models those and proves what they are for.

## What is modelled

**Output coordinator** (`cmake/ProtocyteOutputCoordinator.py`). `OutputModel`, `OutputAcceptance`, `OutputPublication`,
`OutputRetirement` and `OutputRoot` model one claimed output root: its files (through inodes, for hard-link ownership
transfers), the committed snapshot, transaction directories, payloads and the write-ahead intent; `OutputLedger` every move of
the outputs, whose it was and which paths the coordinator owns; `OutputHistory` and `OutputRuns` whole runs (`OutputSteps`
holds the facts that one step hands to the next). There are two disks: what processes see, and what
is durable. A process is killed when its budget of durable steps runs out; power loss replaces both disks by one that keeps
or loses each unsynchronised entry on its own. `Logical` is the abstraction: the state that recovery will produce. Other
programs may edit outputs between steps unless the root is `quiet`. `RegistryModel`, `RegistryState`, `RegistryStaging`
and `Registry` model the registry of claimed roots, their recorded plans and staging directories, reconcile-set over many
plans, and reset.
`Locks` models the three classes of locks with any number of processes. Hashes stand for contents.

**Managed environment** (`cmake/ProtocyteManagedEnvironment.py` with the two-phase
cleanup of its owned transactions). `EnvironmentModel` and `Environment` model the owner record with its labels,
where the old and new directories are, and every action as single durable mutations. `Goal` is the environment owed to the
user: the old one until `committed` is bound.

**Correct rounding** (`src/protocyte/_deterministic_math.py` and its siblings in `src/protocyte/model.py`).
`BinaryRounding` keeps the format symbolic and compares by cross-multiplied integers; `Nearest` states round to nearest,
ties to even, as in sections 3.4 and 4.3.1 of IEEE 754-2019. `RoundingLaws` and `RoundingPaths` derive the laws and the
agreement of the special-purpose conversions.

**Constant expressions** (`src/protocyte/model.py`). `IntegerKinds` has the four integer kinds against ISO/IEC 14882:2020
(sections 5.13.2, 7.3.8, 7.4 and 7.6); `Expressions` the typed values and every operator and function, and
`ExpressionFunctions` what each function computes by its name; `ExpressionSyntax` the precedence grammar; `ExpressionParser`
the class that evaluates while it reads; `ExpressionLaws` what holds of all expressions; `ExpressionModes` what an operand that
is not evaluated may do; `ExpressionCpp` the meaning of a whole integer expression in C++.

**Graphs and counters.** `ConstantGraph` and `ConstantResolver` (memoised, depth-limited resolution), `TypeCycles` (the
iterative detector of `src/protocyte/descriptor_set.py`), `MessageGraph` and `EmissionOrder` (recursive boxing, and the emission
order of `src/protocyte/cpp.py`), `Complexity` (the early-rejecting counter of `src/protocyte/plugin.py`).

**Names** (`src/protocyte/names.py`). `Identifiers`, `NameModel` and `NameAllocator`.

`Options`, `Powers` and `CodePoints` are shared definitions. `dafny verify dfyconfig.toml` checks the whole project.

## How to read the results

A method in a class states what one call does to the state; lemmas and the module-level `Run` methods state what holds of
every input and of every run. Definitions that contracts share with the code they describe have laws of their own that say in
plain terms what they compute. The main results are `OutputRuns.Run`, `OutputRuns.RunWithEdits`,
`OutputHistory.AcknowledgedSurvives`, `OutputModel.PowerLossIsAtomic`, `OutputAcceptance.AcceptedExactly`, `Registry.Run`,
`RegistryModel.FitsExactly`, `Locks.MutualExclusion`, `ExpressionSyntax.Precedence`, `RegistryStaging.ReconciledApart`,
`Registry.ResetCompletes`, `Locks.NoDeadlock`, `Environment.Run`, `BinaryRounding.CorrectlyRounded`,
`RoundingLaws.NearestIsTheConversion`, `ExpressionCpp.EvaluationIsCpp`, `ExpressionCpp.EveryValueIsCpp`,
`ExpressionModes.EvaluationIsLazy`, `ExpressionLaws.ResultsInRange`,
`ExpressionLaws.ModesAgree`, `ExpressionParser.ExprParser.Parse`, `ConstantResolver.Resolver.ResolveAll`,
`TypeCycles.Validate`, `MessageGraph.OrderedMessages`, `EmissionOrder.ContainedFirstIff`, `Complexity.RequestComplexity` and
`NameAllocator.Scope.AllocateOne`.

In four places the code does not do what one might expect. Each has an input that shows it and a statement of when the
code does:

- Staging directories. An accepted set of plans can end with two recorded plans that share one staging directory
  (`RegistryStaging.RetiredTargetsCollide`, two families). It ends disjoint exactly under the condition of
  `RegistryStaging.ReconciledApart`, which needs only the registry and the plans; for retired plans that list nothing new
  this is the condition of `RegistryStaging.TakenOverCollides`, and the build's own sets always meet it
  (`RegistryStaging.OneBuildIsClear`).
- Recovery of environments. `EnvironmentModel.PrepareBeforeBackupIsStuck` shows the order of actions that recovery
  refuses, and `EnvironmentModel.WithoutBackupLabel` says exactly when a live destination without a backup label is
  recoverable.
- Emission order. A message can precede a message it contains (`MessageGraph.ContainedAfterOwner`). The order has every
  followed target first exactly when no followed target reaches its owner (`MessageGraph.TargetsFirstIff`), and contained
  messages first, however the file lists its messages, exactly when no contained message reaches its owner
  (`EmissionOrder.ContainedFirstIff`).
- Unevaluated operands. An operand of `&&` or `||` that is not evaluated still yields an ordinary value of its kind, which
  operators compute with, and this can be an error when evaluation would not be (`ExpressionModes.TypeOnlyCanFail`). It
  spoils the result exactly when type-only mode finds fault with it (`ExpressionModes.PassedOverExactly`,
  `ExpressionModes.EvaluationIsLazy`), and that depends on the kinds of the names only
  (`ExpressionModes.TypeOnlyIgnoresValues`). `ExpressionModes.TypeOnlySucceeds` gives a condition on the text under which
  it never does.

## Model

| member | source | states |
|---|---|---|
| `OutputModel.PowerLossIsAtomic` | cmake/ProtocyteOutputCoordinator.py:9-15 | Whatever subset of the unsynchronised directory entries survives a power loss, the surviving disk is again recoverable, and what recovery will make of it is exactly the old durable promise or exactly the visible one: never a mixture of outputs, snapshot and intent. |
| `OutputModel.SyncIsSafe` | cmake/ProtocyteOutputCoordinator.py:322-364 | A synchronisation that makes any subset of pending entries durable keeps the root recoverable and moves the durable promise only to the old or the new one. |
| `OutputModel.EffectIgnoresTouched` | cmake/ProtocyteOutputCoordinator.py:1715-1722 | What a transaction leaves behind does not depend on the bytes found at the paths it changes, which is why half-applied outputs do no harm. |
| `OutputModel.SettledIsEffect` | cmake/ProtocyteOutputCoordinator.py:1867-1898 | Once every change of a transaction has landed, the files are exactly the contents the transaction promised. |
| `OutputModel.RollingIsSafe` | cmake/ProtocyteOutputCoordinator.py:1715-1866 | After any prefix of its changes has been applied, a pending transaction still passes every check of recovery, transfers included, and still means the same result. |
| `OutputModel.RollingStep` | cmake/ProtocyteOutputCoordinator.py:1867-1898 | Landing the next change (visible first, durable later) keeps the transaction resumable and its promised result unchanged. |
| `OutputModel.RollingGuard` | cmake/ProtocyteOutputCoordinator.py:1911-1923 | Without outside edits the guard of the next change never fails: whatever it finds is what the transaction recorded or has already put there. |
| `OutputModel.CleanStep` | cmake/ProtocyteOutputCoordinator.py:1663-1680 | Creating or removing transaction directories and payloads while no intent exists changes nothing a reader is promised. |
| `OutputModel.IntentWritten` | cmake/ProtocyteOutputCoordinator.py:1054-1075 | Writing pending.json is the commit point: before it the promise is the old state, after it the whole new one, and both disks stay recoverable. |
| `OutputModel.SnapshotReplaced` | cmake/ProtocyteOutputCoordinator.py:1896-1898 | Replacing the snapshot once all outputs have landed completes the transaction without changing what is promised. |
| `OutputModel.SnapshotSynced` | cmake/ProtocyteOutputCoordinator.py:1896-1898 | When the snapshot is durable nothing is pending any more, so that only then the transaction directory may go. |
| `OutputModel.ReplaysAppend` | cmake/ProtocyteOutputCoordinator.py:1723-1866 | The validator accepts a longer transaction exactly as it accepts its entries one after the other: builder and validator may be compared entry by entry. |
| `OutputModel.AcceptedPathsDistinct` | cmake/ProtocyteOutputCoordinator.py:1737-1752 | Entries the validator accepts name pairwise different paths. |
| `OutputModel.PriorHashIsCommitted` | cmake/ProtocyteOutputCoordinator.py:1763-1776 | Every prior hash in an accepted transaction is the committed hash of its path, so recovery never trusts a hash that was not recorded. |
| `OutputAcceptance.AcceptedExactly` | cmake/ProtocyteOutputCoordinator.py:1723-1866 | Which transactions the validator accepts, said about plan and committed entries alone: changes to distinct paths, none of which is another's heir, are accepted if and only if each records the committed hash of its path and is either a publication of a planned output for the planned target with its own payload, or the retirement of an unplanned one that may hand its record to an unrecorded planned path; no two have one heir; and the proposed entries are, path by path, what these changes make of the committed ones. |
| `OutputPublication.SelectProperties` | cmake/ProtocyteOutputCoordinator.py:1010-1022 | The outputs that a publication handles are the planned outputs of its target, each once, with distinct paths. |
| `OutputPublication.DraftGrows` | cmake/ProtocyteOutputCoordinator.py:1004-1053 | Each change that publish drafts is accepted by the recovery validator in the state reached by the changes before it. |
| `OutputPublication.DraftedMeaning` | cmake/ProtocyteOutputCoordinator.py:1054-1070 | Rolling the drafted transaction forward yields exactly the published state: the target's outputs have the staged bytes, everything else is untouched, the token stays and the generation rises by one. |
| `OutputPublication.DraftedPriors` | cmake/ProtocyteOutputCoordinator.py:1023-1043 | The prior hashes that publish records are those of the committed snapshot. |
| `OutputRetirement.Append` | cmake/ProtocyteOutputCoordinator.py:1549-1619 | Each retirement entry, hard-link ownership transfers included, is accepted by the recovery validator after the entries before it. |
| `OutputRetirement.DraftMeaning` | cmake/ProtocyteOutputCoordinator.py:1535-1636 | What a retirement leaves, path by path, said about disk and snapshot alone: an unplanned path stays recorded if and only if its bytes were modified, and is gone with its file if it was recorded and they were not, absent ones included; planned contents stay, and an unrecorded planned path becomes recorded if and only if it is the very file found with its recorded bytes at a dropped path; the token stays, and the generation rises by one if and only if something was dropped. |
| `OutputRetirement.InheritsIffClaimed` | cmake/ProtocyteOutputCoordinator.py:1574-1619 | A planned path not yet recorded inherits ownership exactly when the file of a retired path is a hard link to it. |
| `OutputLedger.LandingAccounted` | cmake/ProtocyteOutputCoordinator.py:1942-1958 | The account of a root lists every move of its outputs; the outputs are the replay of the moves, every edit among them is the next one of the script of other programs, and what the coordinator took away is on record move by move. A replacement or removal by the coordinator keeps this. |
| `OutputLedger.EditingAccounted` | cmake/ProtocyteOutputCoordinator.py:1515-1518 | So does the next edit of other programs, whatever it does to the outputs. |
| `OutputLedger.TakenIs` | cmake/ProtocyteOutputCoordinator.py:1942-1958 | A move is on record as taking a content away exactly when it replaces or removes the path while the content is there. |
| `OutputLedger.Vanished` | cmake/ProtocyteOutputCoordinator.py:1911-1923 | Whatever is visible at one moment and not at a later one was taken away by a move in between: by an edit, by a power failure, or by the coordinator and then on record with that move, as often as it happens. |
| `OutputLedger.ReplayKeepsEntries` | cmake/ProtocyteOutputCoordinator.py:1723-1866 | An accepted transaction's snapshot keeps every entry that the transaction does not retire and has one for everything it lands. |
| `OutputLedger.LandingNamed` | cmake/ProtocyteOutputCoordinator.py:1867-1898 | While a transaction is applied, every path the coordinator has landed with content and not removed is named by the committed snapshot or by the pending one, whatever others do to the outputs. |
| `OutputLedger.CommittedNamed` | cmake/ProtocyteOutputCoordinator.py:1896-1898 | Replacing the snapshot and removing the transaction leave every such path named: no generated file is orphaned. |
| `OutputLedger.MixNames` | cmake/ProtocyteOutputCoordinator.py:9-15 | Neither power loss nor the synchronising of any subset of entries orphans a generated file. |
| `OutputLedger.DurableNames` | cmake/ProtocyteOutputCoordinator.py:1660-1666 | What the visible disk names the durable disk names too, once the intent is durable. |
| `OutputRoot.Root.PublishOne` | cmake/ProtocyteOutputCoordinator.py:1901-1944 | Replaces an output only if it holds the recorded prior bytes, the result already, or nothing; fails exactly otherwise and then changes nothing; loses only the recorded prior bytes, and owns its path when done; touches no other path. |
| `OutputRoot.Root.Land` | cmake/ProtocyteOutputCoordinator.py:1942-1958 | The replacement or removal is visible before it is durable, and whatever it takes away goes on record in the same step; with one durable step left exactly the visible half happens. |
| `OutputRoot.Root.DeleteIfState` | cmake/ProtocyteOutputCoordinator.py:1947-1958 | Deletes an output only if it holds the recorded bytes and fails exactly otherwise; an absent one is accepted and its absence made durable; gives up only its own path. |
| `OutputRoot.Root.Accepts` | cmake/ProtocyteOutputCoordinator.py:1723-1866 | The validation loop accepts a transaction exactly when its entries replay the committed snapshot into the proposed one, every payload is intact, and every transfer destination is still the recorded file: same identity and prior bytes. |
| `OutputRoot.Root.Sync` | cmake/ProtocyteOutputCoordinator.py:322-364 | A synchronisation killed before or after leaves either durable state, never one in between. |
| `OutputRoot.Root.RemoveTree` | cmake/ProtocyteOutputCoordinator.py:407-420 | Removes a transaction directory entry by entry without changing what is promised; killed anywhere, a retry has that much less to remove. |
| `OutputRoot.Root.ApplyPending` | cmake/ProtocyteOutputCoordinator.py:1682-1898 | Rolls an accepted transaction forward to exactly its promised result, keeping it resumable at every step; without outside edits it cannot fail and touches no path it does not name; with them it still takes away only recorded bytes, owns what it lands, gives up only what it retires, and leaves nothing owned without an entry; killed only when its steps ran out, within a bound; and a record that fails a check (token, generation, replay of the committed entries, payloads, transfers) changes nothing at all. |
| `OutputRoot.Root.ApplyChange` | cmake/ProtocyteOutputCoordinator.py:1867-1895 | One change fails exactly when what it finds, after whatever other programs did, is neither its prior nor its result, or its transfer destination is no longer the recorded file; and then it changes nothing. |
| `OutputRoot.Root.RollOut` | cmake/ProtocyteOutputCoordinator.py:1867-1900 | Once the checks have passed: all changes land, then the snapshot is replaced and synchronised, then the transaction goes; killed anywhere, both disks promise the rolled state and every owned path keeps an entry. |
| `OutputRoot.Root.CommitSnapshot` | cmake/ProtocyteOutputCoordinator.py:1896-1898 | The new snapshot becomes durable only after every output of the transaction is. |
| `OutputRoot.Root.Recover` | cmake/ProtocyteOutputCoordinator.py:1641-1680 | Recovery, killed anywhere and repeated, never fails without outside edits, leaves no transaction behind, changes the snapshot only to a pending one, and yields exactly the state promised before, with every file that no transaction names the very same file; it is killed only within a bound on the disk's unfinished work; with outside edits it takes away only recorded bytes and orphans nothing. |
| `OutputRoot.Root.RollForward` | cmake/ProtocyteOutputCoordinator.py:1655-1679 | More than one pending transaction is refused; a single one is applied, after which none is left. |
| `OutputRoot.Root.ClearTransactions` | cmake/ProtocyteOutputCoordinator.py:1678-1680 | Clearing the remaining directories keeps the promise and every owned path named at every kill point. |
| `OutputRoot.Root.NewTransaction` | cmake/ProtocyteOutputCoordinator.py:1004-1015 | Makes a fresh transaction directory durable before anything refers to it. |
| `OutputRoot.Root.CopyPayload` | cmake/ProtocyteOutputCoordinator.py:1023-1053 | Copies one staged file as payload; refused exactly when the output holds bytes that are not those recorded. |
| `OutputRoot.Root.DraftPublication` | cmake/ProtocyteOutputCoordinator.py:1004-1053 | The drafting loop yields a transaction that the validator accepts, with one change for each output of the target; without outside edits it fails exactly when some output of the target is not staged or is not the recorded file. |
| `OutputRoot.Root.FillTransaction` | cmake/ProtocyteOutputCoordinator.py:1010-1058 | Payloads are durable before the intent that needs them; the drafted transaction means exactly the requested publication; refused, it leaves no directory behind. |
| `OutputRoot.Root.Prepare` | cmake/ProtocyteOutputCoordinator.py:985-1053 | Everything before pending.json leaves the promised state as it was; without outside edits it is refused exactly when the plan is not the recorded one, the target has no outputs, or one of them is not staged or was changed. |
| `OutputRoot.Root.Submit` | cmake/ProtocyteOutputCoordinator.py:1054-1078 | From the write of pending.json on the promise is the new state, and recovery or this call completes it; what it lands is owned and named. |
| `OutputRoot.Root.Publish` | cmake/ProtocyteOutputCoordinator.py:985-1082 | Killed at any durable step, publish has published everything or nothing; reported done, exactly the target's outputs are replaced, durably; refused exactly for cause; killed only if it was given fewer durable steps than a bound on the disk. With outside edits, too, done means that every output of the target holds the staged bytes at the end; it takes away only recorded bytes, owns every output of the target when done, and leaves no owned path without an entry. |
| `OutputRoot.Root.Confirm` | cmake/ProtocyteOutputCoordinator.py:1078-1082 | The final loop succeeds exactly when every output of the target holds the staged bytes. |
| `OutputRoot.Root.DraftRetirement` | cmake/ProtocyteOutputCoordinator.py:1535-1619 | The two loops of reconciliation draft a transaction with the stated meaning, or refuse, exactly when a retiring path is linked to two planned, unrecorded ones. |
| `OutputRoot.Root.RetireOne` | cmake/ProtocyteOutputCoordinator.py:1570-1619 | One retiring path: its change hands the path to its one heir unless that heir is taken; refused exactly when there are two. |
| `OutputRoot.Root.RetireUnplanned` | cmake/ProtocyteOutputCoordinator.py:1528-1639 | Dropped outputs are retired atomically or not at all, with exactly the result above: absent and unmodified ones are forgotten, a modified one keeps its bytes and stays recorded; without outside edits it is refused exactly when one unmodified file lies at a dropped path and at two unrecorded planned ones. With them it takes away only bytes the snapshot records, gives up only paths the plan dropped, and orphans nothing. |
| `OutputRoot.Root.Reconcile` | cmake/ProtocyteOutputCoordinator.py:965-976 | Recovery, retirement and recording of the plan: killed anywhere, the promised state is the old one or the fully reconciled one; refused exactly when the recovered disk has ambiguous links; killed only within a bound on the disk; with outside edits, ledger and ownership as for publish. |
| `OutputRoot.Root.RecordPlan` | cmake/ProtocyteOutputCoordinator.py:972-975 | Recording the plan changes neither outputs nor snapshot. |
| `OutputRoot.Root.PowerLoss` | cmake/ProtocyteOutputCoordinator.py:9-15 | Power failure at any point of a run keeps the root recoverable, the promise old or new, every content accounted for, and every owned path named. |
| `OutputHistory.DurableHistory` | cmake/ProtocyteOutputCoordinator.py:9-15 | Of any trace of processes and power failures: the durable promises form a history in which each comes from the one before by the whole transaction of one event of the run, on the disk that recovery makes of the one the event began with, in the order of the events; every durable promise reached is in it, and so is every acknowledged publication. |
| `OutputHistory.AcknowledgedSurvives` | cmake/ProtocyteOutputCoordinator.py:985-1082 | What an acknowledged publication put at a path, with its entry, is durably there until a later event publishes that path again or reconciles it away, whatever was killed and whenever power failed. |
| `OutputHistory.GenerationsGrow` | cmake/ProtocyteOutputCoordinator.py:1054-1070 | Durable generations never go back, and every publication raises them. |
| `OutputRuns.Execute` | cmake/ProtocyteOutputCoordinator.py:978-1082 | One process run to its end or killed: nothing, or the whole transaction of its own command, on the visible promise, with the durable promise at most that far behind; done means done and durable, failed means refused for cause, killed means given too few steps; and the ledger holds whoever edits the outputs. |
| `OutputRuns.Run` | cmake/ProtocyteOutputCoordinator.py:1641-1680 | Over any sequence of publications, reconciliations and recoveries, each killed anywhere and with power failures in between: the outcomes and states form a trace of such processes; successive durable promises are whole transactions of the run's own events in their order, each on the disk its event began with; every acknowledged publication has its place among them; besides power failures only the coordinator changes outputs, and it takes away only recorded bytes; no owned path loses its entry, and the root stays recoverable. |
| `OutputRuns.RunWithEdits` | cmake/ProtocyteOutputCoordinator.py:1901-1958 | While other programs make the edits of any given script, each at any moment: in every state of every such run the outputs are exactly the replay of the script's edits so far and the coordinator's moves, each process took away only bytes recorded when it began, and every path landed and not since removed is named by a committed or pending snapshot. |
| `OutputRuns.NothingElseVanishes` | cmake/ProtocyteOutputCoordinator.py:1901-1958 | In every such run a content that is visible at one state and not at a later one was taken away during a process in between, by an edit of the script in its turn, by a power failure, or by the coordinator, and in the last case it was recorded for that path when the process began. |
| `RegistryModel.SharedStaging` | cmake/ProtocyteOutputCoordinator.py:814-832 | Two staging directories that keep clear of each other's roots overlap only if they are one directory: sibling roots and the same target identity. |
| `RegistryModel.StagingIs` | cmake/ProtocyteOutputCoordinator.py:814-832 | The staging directory of a target lies beside the root, and its name is the fixed prefix with the target's identity. |
| `RegistryModel.StagingClearOf` | cmake/ProtocyteOutputCoordinator.py:1302-1318 | A plan passes the namespace check if and only if neither its root nor any of its staging directories overlaps the coordinator's own directory, so removing one cannot remove a claim. |
| `RegistryModel.ClaimKeeps` | cmake/ProtocyteOutputCoordinator.py:1350-1395 | Claiming a root that fits keeps all claimed roots pairwise non-overlapping, and reserved staging clear of them. |
| `RegistryModel.RecordKeeps` | cmake/ProtocyteOutputCoordinator.py:1350-1395 | Recording a plan that fits without exemptions keeps all reserved staging directories disjoint from each other and from every claimed root. |
| `RegistryModel.FitsExactly` | cmake/ProtocyteOutputCoordinator.py:1350-1395 | A plan fits beside the claims if and only if holding it, beside what the retiring roots of its build do not yield to it, leaves roots and reserved staging pairwise disjoint, and no reserved staging directory touches its root. |
| `RegistryModel.RecordExactly` | cmake/ProtocyteOutputCoordinator.py:1376-1390 | Over a claimed root a plan fits if and only if recording it leaves all reserved staging disjoint; recording the same targets again always fits. |
| `RegistryModel.ClaimExactly` | cmake/ProtocyteOutputCoordinator.py:1350-1395 | For a root not yet claimed a plan fits if and only if claiming and recording it leaves roots and staging disjoint. |
| `RegistryModel.ApartExactly` | cmake/ProtocyteOutputCoordinator.py:1268-1284 | Two plans of a set are accepted side by side if and only if holding both leaves roots and staging disjoint. |
| `RegistryModel.FitsStays` | cmake/ProtocyteOutputCoordinator.py:1268-1284 | What one plan of a set claims or records leaves room for the other plans of the set. |
| `RegistryModel.ExemptionsGone` | cmake/ProtocyteOutputCoordinator.py:1376-1390 | When the retiring roots of its build have given up their targets, a plan fits without the exemption that let it in. |
| `RegistryStaging.RetiredTargetsCollide` | cmake/ProtocyteOutputCoordinator.py:1383-1390 | Two families of accepted sets that end with one staging directory shared by two recorded plans, for every pair of sibling roots, build and target: the retired plan still lists the target, or it is of another build, so that it is passed over while its root still grants the exemption. |
| `RegistryStaging.ReconciledApart` | cmake/ProtocyteOutputCoordinator.py:891-963 | For every accepted set: the staging reserved when the set is done is disjoint if and only if what roots outside the current plans still reserve after the retired pass is clear of all roots, of itself, and of the targets of sibling current plans. |
| `RegistryStaging.TakenOverCollides` | cmake/ProtocyteOutputCoordinator.py:1376-1390 | When retired plans list nothing new and staging was disjoint before, it ends disjoint if and only if no retired root, held by the build of a current plan at a sibling root, still reserves a target of that plan after the retired pass. |
| `RegistryStaging.OneBuildIsClear` | cmake/ProtocyteOutputCoordinator.py:1376-1390 | Retired plans without targets and of the build of the current plans leave nothing to take over. |
| `RegistryStaging.FinalApart` | cmake/ProtocyteOutputCoordinator.py:814-832 | The same equivalence for any holdings: leftovers and current reservations meet only as sibling roots with one target. |
| `RegistryState.AfterRetired` | cmake/ProtocyteOutputCoordinator.py:956-963 | Recording retired plans without targets only gives reservations up, those of every listed root, and makes no fitting plan unfit. |
| `RegistryState.DiscardFiles` | cmake/ProtocyteOutputCoordinator.py:1116-1121 | What a reset removes lies below its own root or in its own staging, so no file of another claimed root is touched. |
| `RegistryState.AcceptableAgain` | cmake/ProtocyteOutputCoordinator.py:891-954 | The plans of an accepted set, once recorded with staging disjoint, are accepted again, whatever retired plans come with them: an unchanged second configure is never refused. |
| `RegistryState.ClaimsExactly` | cmake/ProtocyteOutputCoordinator.py:1406-1424 | A reset acts on exactly the claim of the plan's root by the plan's build with the expected token. |
| `RegistryState.ResettableExactly` | cmake/ProtocyteOutputCoordinator.py:1127-1151 | Without an earlier intent a reset goes to its end if and only if recovery does not refuse, no recorded output was modified, and every file below the root that is named like a generated one is recorded. |
| `RegistryState.IntendedExactly` | cmake/ProtocyteOutputCoordinator.py:1153-1196 | With an earlier intent, if and only if the intent repeats the claim's token, the committed entries and the recorded targets, and no recorded output was modified. |
| `Registry.Coordinator.ValidatePlanSet` | cmake/ProtocyteOutputCoordinator.py:1268-1284 | Accepts exactly the sets whose roots and staging directories are pairwise disjoint. |
| `Registry.Coordinator.ValidateRegistry` | cmake/ProtocyteOutputCoordinator.py:1286-1395 | Accepts exactly when every plan fits beside every claim; removes unclaimed leftovers and never touches a claimed state directory. |
| `Registry.Coordinator.Initialize` | cmake/ProtocyteOutputCoordinator.py:1243-1265 | Killed anywhere, the root is either unclaimed or claimed with a snapshot carrying the claim's token: its state directory, then its snapshot, then its claim, one durable step each. |
| `Registry.Coordinator.RemoveTree` | cmake/ProtocyteOutputCoordinator.py:407-420 | Removes files below the directory only, and when done all of them. |
| `Registry.Coordinator.RetireStaging` | cmake/ProtocyteOutputCoordinator.py:1520-1526 | Removes the staging of exactly the targets that the new plan lacks. |
| `Registry.Coordinator.ReconcileLocked` | cmake/ProtocyteOutputCoordinator.py:965-976 | The plan is recorded last and only on success; refused only when recovery or retirement refuses; claim and token stay, and other state directories are untouched; done, no file is left in the staging directory of any target that the plan dropped. |
| `Registry.Coordinator.Admit` | cmake/ProtocyteOutputCoordinator.py:912-954 | All checks come before any claim: a set refused by them changes no file and no claim; recovery of a claimed root may still refuse, and then no claim was made; an accepted one ends with every plan owning its root and fitting beside the rest, and only if no recovery refused. |
| `Registry.Coordinator.ReconcileAll` | cmake/ProtocyteOutputCoordinator.py:955-963 | Recording the plans in order yields exactly the sequence of recordings, keeps claims as they were, and touches no file of a root outside the set. |
| `Registry.Coordinator.ReconcileSet` | cmake/ProtocyteOutputCoordinator.py:891-963 | Done only on acceptable sets; refused before any file or claim changes when the set is not acceptable, and otherwise only when recovery or retirement of one of its roots refuses, and done only when none does; done, the holdings are exactly those of the retired and then the current plans recorded in order, and their staging is disjoint if and only if the leftovers of the retired pass are clear; refused or killed anywhere, claimed roots stay disjoint, claims immutable and complete; for the sets that a build passes, staging stays disjoint at every such point and other roots' files untouched; and done with staging disjoint, the same current plans are acceptable again. |
| `Registry.Coordinator.DeleteIfState` | cmake/ProtocyteOutputCoordinator.py:1947-1958 | Refuses exactly a file whose bytes are not the recorded ones. |
| `Registry.Coordinator.DeleteOutputs` | cmake/ProtocyteOutputCoordinator.py:1116-1119 | Deletes only recorded outputs with recorded bytes; refused exactly when one was modified. |
| `Registry.Coordinator.RecordIntent` | cmake/ProtocyteOutputCoordinator.py:1095-1115 | Writes a reset intent only on a full inventory, and accepts an earlier one only if it equals the committed state. |
| `Registry.Coordinator.ReleaseClaim` | cmake/ProtocyteOutputCoordinator.py:1198-1221 | The claim goes after the disposable entries and before its snapshot, plan and intent: killed anywhere, the claim is whole or gone, and what is left after each step is stated. |
| `Registry.Coordinator.Discard` | cmake/ProtocyteOutputCoordinator.py:1089-1125 | The claim disappears only in a state where every snapshot output and every recorded staging directory is absent; done or refused exactly as the reset was resumable, a killed one stays resumable, and it is killed only within a bound. |
| `Registry.Coordinator.Vacate` | cmake/ProtocyteOutputCoordinator.py:1116-1121 | Recorded outputs, then recorded staging: refused exactly when an output was modified, and no other claimed root's file goes. |
| `Registry.Coordinator.Reset` | cmake/ProtocyteOutputCoordinator.py:1084-1125 | A wrong token, build or root changes nothing; otherwise done or refused exactly as the recovered root was resumable and recovery did not refuse; a killed or refused one leaves no more to do and can be carried on, recovered already or not; killed only within a bound; no other claimed root's file is touched. |
| `Registry.ResetCompletes` | cmake/ProtocyteOutputCoordinator.py:1084-1125 | The reset command interrupted any number of times anywhere, before or after its recovery and its intent, completes when it is rerun, given no publication in between; then everything the claim owned is gone. |
| `Registry.Run` | cmake/ProtocyteOutputCoordinator.py:891-963 | Over any run of reconcile-set, publish and reset processes killed anywhere: roots stay disjoint, every visible claim has its snapshot, a claim never changes until its root is reset, and staging stays disjoint for the sets that a build passes. |
| `Locks.RootsSorted` | cmake/ProtocyteOutputCoordinator.py:899-911 | The roots that reconcile-set locks are the distinct roots of both plan lists, in strict order. |
| `Locks.LocksAscend` | cmake/ProtocyteOutputCoordinator.py:897-911 | Every command takes its locks in strictly ascending order, registry before generation before publication, and never one lock twice, even for a root named by a retired and a current plan. |
| `Locks.StepKeeps` | cmake/ProtocyteOutputCoordinator.py:464-540 | Every step of every process, kills included, keeps each lock with at most one holder. |
| `Locks.WaitsGoUp` | cmake/ProtocyteOutputCoordinator.py:2101-2108 | Whoever is waited for waits, if at all, for something strictly higher; run-generation waiting for its child included. |
| `Locks.NoWaitCycle` | cmake/ProtocyteOutputCoordinator.py:897-911 | No chain of waiting processes of any length returns to its start. |
| `Locks.SomeoneProceeds` | cmake/ProtocyteOutputCoordinator.py:1086-1088 | As long as there are processes, one of them can take a lock or finish on its own. |
| `Locks.NoDeadlock` | cmake/ProtocyteOutputCoordinator.py:897-911 | The three statements above for every state of every run of any number of processes. |
| `Locks.MutualExclusion` | cmake/ProtocyteOutputCoordinator.py:891-911 | In every state of every run two processes that hold all their locks never both publish, reconcile or reset one root, never both generate for it, reconcile or reset it, and never both change the registry. |
| `Locks.OnlyConflictsWait` | cmake/ProtocyteOutputCoordinator.py:2101-2108 | A process only waits for one whose job conflicts with its own in that sense: jobs on different roots go on side by side, and so do publishing and generating for one root. |
| `EnvironmentModel.DecisionReachesGoal` | cmake/ProtocyteManagedEnvironment.py:933-1002 | In every state that the driver's order can reach, recovery has an answer, and carrying it out leaves the destination with the new environment if it was committed and the old one otherwise. |
| `EnvironmentModel.PrepareBeforeBackupIsStuck` | cmake/ProtocyteManagedEnvironment.py:933-1002 | Recording the replacement before moving a live environment away is an order that recovery refuses. |
| `EnvironmentModel.WithoutBackupLabel` | cmake/ProtocyteManagedEnvironment.py:933-1002 | Without a backup label, recovery of a live destination succeeds exactly when nothing was recorded or the destination is the recorded replacement. |
| `Environment.Managed.RemoveContents` | cmake/ProtocyteManagedEnvironment.py:702-711 | Removing a detached transaction destroys only directories it keeps, never the one owed to the user; each of them is counted as destroyed when it goes. |
| `Environment.Managed.OwnerCleanup` | cmake/ProtocyteManagedEnvironment.py:714-739 | Cleanup killed anywhere can be repeated; it ends with no owner and the owed environment in place; between start and end or kill lie exactly the mutations of the two-phase cleanup, one for each step spent, and nothing of the transaction directory disappears uncounted. |
| `Environment.Managed.Detach` | cmake/ProtocyteManagedEnvironment.py:714-730 | Marking and moving the transaction directory aside keeps what is owed and what the directory holds, killed anywhere. |
| `Environment.Managed.DiscardDestination` | cmake/ProtocyteManagedEnvironment.py:943-979 | The uncommitted replacement leaves the destination by identity only, and fails exactly otherwise; the move keeps the owner consistent and what is owed. |
| `Environment.Managed.RestoreBackup` | cmake/ProtocyteManagedEnvironment.py:961-986 | The backup returns by identity only, and fails exactly otherwise; the move keeps the owner consistent and puts what is owed at the destination. |
| `Environment.Managed.CarryOut` | cmake/ProtocyteManagedEnvironment.py:933-1002 | Recovery's decision on whatever labels and directories are found, valid or not: it fails exactly when they do not belong together, and otherwise the moves are exactly those decided. |
| `Environment.Managed.RecoverOwner` | cmake/ProtocyteManagedEnvironment.py:933-1002 | Completes in a bounded number of steps with the owed environment at the destination, or is killed with nothing owed lost. |
| `Environment.Managed.Recover` | cmake/ProtocyteManagedEnvironment.py:1005-1030 | Fails exactly on an unattributable or foreign owner; otherwise, killed and repeated, it reaches the owed environment within ten steps. |
| `Environment.Managed.Create` | cmake/ProtocyteManagedEnvironment.py:742-812 | Creating an owner record changes neither the destination nor what is owed; killed, it leaves the record, then the directory, then its identity, by the number of steps it had. |
| `Environment.Managed.Backup` | cmake/ProtocyteManagedEnvironment.py:815-831 | Moving the live environment away binds its identity first, so that it stays owed throughout, also when killed between the two. |
| `Environment.Managed.Prepare` | cmake/ProtocyteManagedEnvironment.py:834-850 | Fails exactly without a ready replacement of the right fingerprint; records its identity otherwise. |
| `Environment.Managed.Promote` | cmake/ProtocyteManagedEnvironment.py:853-865 | Fails exactly unless the recorded replacement is present and the destination free; what is owed stays the old environment. |
| `Environment.Managed.Commit` | cmake/ProtocyteManagedEnvironment.py:868-894 | The one step that changes what is owed from the old environment to the new one; fails exactly unless the destination is the recorded, ready replacement. |
| `Environment.Managed.Restore` | cmake/ProtocyteManagedEnvironment.py:897-930 | The driver's rollback puts the owed old environment back and never destroys it; unless killed it fails exactly when the destination is not the recorded replacement or one was discarded already, or the backup is not the recorded previous environment, and then it changes nothing. |
| `Environment.Managed.Install` | cmake/ProtocyteManagedEnvironment.py:742-865 | Everything up to the promotion leaves what is owed as it was; done, the ready replacement is at the destination and recorded; unless killed it fails exactly when the destination holds an environment that is not ready for the fingerprint. |
| `Environment.Managed.Provision` | cmake/ProtocyteManagedEnvironment.py:1054-1094 | One whole provisioning run: killed anywhere, the environment owed is the old one, or the new one only if it verified; the owed one is never destroyed; unless killed it fails exactly when recovery does or the owed environment is not ready for the fingerprint; killed only if it was given at most thirty steps. |
| `Environment.Run` | cmake/ProtocyteManagedEnvironment.py:1005-1030 | Over any number of configure runs killed anywhere, the environment owed is only ever replaced by one that verified, is never removed or lost, recovery stays possible, and a run is killed only if it was given at most thirty steps. |
| `BinaryRounding.DecodeFields` | src/protocyte/_deterministic_math.py:96-110 | An encoding's value by its exponent and fraction fields, as IEEE 754 section 3.4 defines it. |
| `BinaryRounding.DecodeMonotone` | src/protocyte/_deterministic_math.py:96-110 | Larger encodings have larger values, infinity last. |
| `BinaryRounding.FloorLog2Bounds` | src/protocyte/_deterministic_math.py:76-84 | The exponent estimate with its correction is the floor of the binary logarithm of the ratio. |
| `BinaryRounding.RoundQuotientRounds` | src/protocyte/_deterministic_math.py:47-58 | The scaled division rounds to the nearest integer, ties to even. |
| `BinaryRounding.RoundScaledRounds` | src/protocyte/_deterministic_math.py:47-58 | Scaling numerator or denominator by a power of two rounds the same real number. |
| `BinaryRounding.NormalFields` | src/protocyte/_deterministic_math.py:96-110 | A carry out of the significand moves into the exponent, and overflow turns into infinity at exactly the right threshold. |
| `BinaryRounding.BetweenIsNearest` | src/protocyte/_deterministic_math.py:61-110 | An encoding whose neighbours are no nearer is nearest among all encodings. |
| `BinaryRounding.CorrectlyRounded` | src/protocyte/_deterministic_math.py:61-110 | For every nonnegative ratio and every format the conversion returns the nearest representable value, ties to even, subnormals and overflow to infinity included. |
| `RoundingLaws.NearestMonotone` | src/protocyte/_deterministic_math.py:61-110 | Nearest values of ordered ratios are ordered. |
| `RoundingLaws.RoundingIsMonotone` | src/protocyte/_deterministic_math.py:61-110 | The conversion is monotone. |
| `RoundingLaws.RoundingIgnoresCommonFactors` | src/protocyte/_deterministic_math.py:149-162 | Equal ratios give equal bits, reduced or not. |
| `RoundingLaws.NearestIsTheConversion` | src/protocyte/_deterministic_math.py:61-110 | Nearest, ties to even, determines the bits: an encoding is nearest if and only if the conversion returns it. |
| `RoundingLaws.ExactOnRepresentable` | src/protocyte/_deterministic_math.py:61-110 | A representable ratio converts to its own encoding. |
| `RoundingLaws.StandardEncodings` | src/protocyte/_deterministic_math.py:30-33 | The two formats are binary32 and binary64 of the standard: infinity, smallest subnormal, first binades and the encoding of one. |
| `RoundingPaths.PowerOfTwoIsRounding` | src/protocyte/_deterministic_math.py:169-188 | The shift-only construction of a power of two is its correctly rounded value, and is refused exactly when that is infinite. |
| `RoundingPaths.OperandFitsBound` | src/protocyte/_deterministic_math.py:215-218 | The operand guard keeps both powers within 4096 bits. |
| `RoundingPaths.IntegralPowerIsNearest` | src/protocyte/_deterministic_math.py:215-242 | The exact integral power gives up exactly when exponent times bit length exceeds 4096 for an operand other than one, and otherwise is the representable value nearest to base**exponent. |
| `RoundingPaths.ExactPathsAgree` | src/protocyte/_deterministic_math.py:191-242 | On a power-of-two base and an integral exponent both exact paths, when both apply, give the same result. |
| `RoundingPaths.ExactPowerIsRounded` | src/protocyte/_deterministic_math.py:191-212 | For every exponent, fractional ones too, the power-of-two path gives up exactly when the power is not a power of two, and otherwise returns it correctly rounded, non-finite exactly when that is infinity. |
| `RoundingPaths.IsPowerIff` | src/protocyte/_deterministic_math.py:208-211 | The divisibility that the code tests is what it is for: 2**e raised to the exponent's denominator is the base raised to its numerator if and only if e times the denominator is the product tested. |
| `RoundingPaths.IntegerRoundingAgrees` | src/protocyte/model.py:4222-4236 | Rounding an integer to 24 bits first does not change its conversion to binary32: no double rounding, for integers of any size. |
| `RoundingPaths.NormalOnlyIsRounding` | src/protocyte/model.py:3566-3587 | Without the decimal check: accepted exactly when the general result is normal and finite, with the same bits. |
| `RoundingPaths.DecimalCheckIsRedundant` | src/protocyte/model.py:3552-3565 | The decimal magnitude check rejects only what the binary check rejects. |
| `RoundingPaths.ProtobufF32IsRounding` | src/protocyte/model.py:3552-3587 | Nonzero descriptor text is accepted exactly when the general conversion gives a normal finite binary32, with the same bits. |
| `IntegerKinds.CommonKindIsUsual` | src/protocyte/model.py:4408-4421 | The common kind is that of the usual arithmetic conversions of C++20, section 7.4. |
| `IntegerKinds.CommonKindAssociates` | src/protocyte/model.py:4328-4337 | Folding the kinds of many arguments gives the same kind in every order. |
| `IntegerKinds.OperandConverts` | src/protocyte/model.py:4340-4376 | An operand in range always converts to a common kind, and to the value C++ gives it. |
| `IntegerKinds.FromBitsConverts` | src/protocyte/model.py:4451-4456 | Reinterpreting bits is the integral conversion: the value of the kind congruent modulo two to its width. |
| `IntegerKinds.ConversionUnique` | src/protocyte/model.py:4451-4456 | There is only one such value. |
| `IntegerKinds.LiteralKindIsFirst` | src/protocyte/model.py:4106-4121 | A literal has the first kind of the list for its base in which it can be represented, or is rejected when there is none. |
| `IntegerKinds.NormalizeMeans` | src/protocyte/model.py:4379-4390 | Unsigned results wrap; a signed result is exact and is rejected exactly when it does not fit. |
| `IntegerKinds.TruncatingDivides` | src/protocyte/model.py:4261-4263 | The quotient truncates towards zero and a = (a/b)*b + a%b with the remainder's sign and size that C++ requires. |
| `IntegerKinds.DivisionUnique` | src/protocyte/model.py:4261-4263 | Those requirements determine quotient and remainder. |
| `IntegerKinds.DivisionMeans` | src/protocyte/model.py:1094-1188 | Division and remainder are rejected exactly for a zero divisor or an unrepresentable quotient, and otherwise are those of C++, in range. |
| `IntegerKinds.BitwiseBits` | src/protocyte/model.py:922-962 | The bitwise operators act bit by bit. |
| `IntegerKinds.BitwiseMeans` | src/protocyte/model.py:4459-4483 | On two's complement operands of either sign every bit of the result is the operator on the operand bits, and the result is in range. |
| `IntegerKinds.BitsDetermine` | src/protocyte/model.py:4451-4456 | The bits of a kind determine a value modulo its width, so the bitwise statements fix the results. |
| `IntegerKinds.ComplementMeans` | src/protocyte/model.py:4486-4495 | Every bit is inverted and the result is in range. |
| `IntegerKinds.ShiftMeans` | src/protocyte/model.py:4498-4527 | A count outside the width is rejected; a left shift is congruent to a*2**n; a right shift is a/2**n rounded down. |
| `ExpressionLaws.KindsAreStatic` | src/protocyte/model.py:841-1279 | Whatever value an expression yields in either mode, its family and kind are given by a type that depends on no value and on no mode. |
| `ExpressionLaws.ModesAgree` | src/protocyte/model.py:4785-4853 | Whenever evaluated and type-only modes both succeed, they agree on family and kind. |
| `ExpressionLaws.FunctionTyped` | src/protocyte/model.py:4785-4913 | Every function's evaluated result and its type-only placeholder have the same static kind. |
| `ExpressionLaws.BinaryTyped` | src/protocyte/model.py:922-1188 | Every binary operator's result has the static kind of its operands. |
| `ExpressionLaws.ResultsInRange` | src/protocyte/model.py:841-1279 | Every integer an expression yields lies in the range of its kind, given literals and names in range and strings shorter than 2**32. |
| `ExpressionLaws.MinMaxRanged` | src/protocyte/model.py:4686-4702 | The extreme of converted arguments is in range of the common kind. |
| `ExpressionLaws.ExtremeIs` | src/protocyte/model.py:4686-4702 | min and max return one of their arguments, converted to the common kind, and no other converted argument beats it. |
| `ExpressionLaws.OperatorIsCpp` | src/protocyte/model.py:4271-4527 | On integers, bools included, every binary operator is rejected exactly where C++20 leaves it undefined, and otherwise yields the value of C++ in its type. |
| `ExpressionLaws.UnaryIsCpp` | src/protocyte/model.py:1190-1223 | Unary minus is rejected exactly on signed overflow and wraps when unsigned; complement inverts every bit. |
| `ExpressionLaws.IntegerCastConverts` | src/protocyte/model.py:4723-4782 | A cast between integer kinds is the integral conversion and never fails. |
| `ExpressionFunctions.RangesAre` | src/protocyte/model.py:4433-4437 | The four integer kinds have the ranges of int32_t, uint32_t, int64_t and uint64_t. |
| `ExpressionFunctions.StringOperators` | src/protocyte/model.py:1043-1073 | + puts one string after the other; == and != compare strings by their characters. |
| `ExpressionFunctions.LenMeans` | src/protocyte/model.py:4867-4875 | len counts the characters as a uint32. |
| `ExpressionFunctions.StartsWithMeans` | src/protocyte/model.py:4886-4896 | starts_with holds if and only if the first string is the second with something after it. |
| `ExpressionFunctions.SubstrMeans` | src/protocyte/model.py:4876-4885 | substr yields the characters from the start on, as many as asked for and there are, and is rejected exactly for positions that are no uint32. |
| `ExpressionFunctions.StrMeans` | src/protocyte/model.py:4702-4720 | str spells an integer by its shortest decimal numeral, which reads back as the integer, and a bool as its word. |
| `ExpressionFunctions.IntegerCastsMean` | src/protocyte/model.py:4723-4782 | i32, u32, i64 and u64 are the integral conversions to the kinds they are named after; bool tells whether the integer is zero. |
| `ExpressionFunctions.RealCastsMean` | src/protocyte/model.py:4723-4782 | A floating-point number is cast to an integer kind by truncation, and rejected exactly when the truncated value does not fit. |
| `ExpressionFunctions.RealKindCastsMean` | src/protocyte/model.py:4723-4782 | f32 and f64 round to the kind they are named after. |
| `ExpressionFunctions.ExtremesMean` | src/protocyte/model.py:4674-4699 | min and max take at least two arguments and give the lesser and the greater; abs is the magnitude and is rejected exactly on the least value of a signed kind. |
| `ExpressionFunctions.RealOperatorsMean` | src/protocyte/model.py:1043-1188 | With a double among them operands and result are double; no remainder, and no quotient of a division by zero. |
| `ExpressionFunctions.SingleOperatorsMean` | src/protocyte/model.py:4408-4421 | With a float and no double, operands and result are float. |
| `ExpressionFunctions.RealOrderMeans` | src/protocyte/model.py:985-1028 | The six comparisons of doubles follow the order of the floating-point unit. |
| `ExpressionFunctions.RealExtremesMean` | src/protocyte/model.py:4686-4699 | So do min and max. |
| `ExpressionFunctions.RealFunctionsMean` | src/protocyte/model.py:4595-4646 | The nine functions of one argument work in float on a float and in double otherwise, each on itself by name. |
| `ExpressionFunctions.PowMeans` | src/protocyte/model.py:4649-4671 | pow works in double, base first. |
| `ExpressionFunctions.OtherNamesFail` | src/protocyte/model.py:4856-4917 | No other name is a function. |
| `ExpressionFunctions.WrongArgumentsFail` | src/protocyte/model.py:4785-4853 | Evaluated or not, text is an error where a number is called for, and so is anything but text in the place of a string or but a number in the place of a position. |
| `ExpressionCpp.CppUnique` | src/protocyte/model.py:841-1279 | An expression of integers, bools, operators, casts, abs, min, max and len has at most one meaning under the rules of C++20, undefinedness included. |
| `ExpressionCpp.EvaluationIsCpp` | src/protocyte/model.py:841-1279 | For every such expression: the evaluator returns its meaning in C++20, and an error exactly where that is undefined or where evaluation trips over an operand that C++ does not look at. |
| `ExpressionCpp.EveryValueIsCpp` | src/protocyte/model.py:841-1279 | Every value the evaluator produces for such an expression is the one of C++20, whatever operands are passed over. |
| `ExpressionCpp.LazyIsCpp` | src/protocyte/model.py:841-1279 | Such an expression has a meaning in C++20: evaluation that does not look at operands which do not count. |
| `ExpressionCpp.SteadyEvaluationIsCpp` | src/protocyte/model.py:841-1279 | With steady right operands evaluation is that meaning throughout. |
| `ExpressionCpp.IntegerSpoils` | src/protocyte/model.py:868-920 | An integer operand that is passed over is at fault exactly when it has no value in type-only mode. |
| `ExpressionModes.TypeOnlyCanFail` | src/protocyte/model.py:868-920 | An expression that has a value and fails in type-only mode, and that makes `false && ...` an error: a shift count computed from a comparison of placeholders. |
| `ExpressionModes.EvaluationIsLazy` | src/protocyte/model.py:841-1279 | For every expression, strings and floating point included: evaluation is an error exactly when it trips, that is comes to a deciding left operand whose right operand type-only mode finds fault with, and otherwise is the value of an evaluation that does not look. |
| `ExpressionModes.TypeOnlyIgnoresValues` | src/protocyte/model.py:841-1279 | Type-only mode gives the same result for all values of the names that have the same kinds. |
| `ExpressionModes.PassedOverExactly` | src/protocyte/model.py:868-920 | When the left operand decides, the right one turns the result into an error if and only if type-only mode finds fault with it, which any values of the same kinds show. |
| `ExpressionModes.UnspoiledNeverTrips` | src/protocyte/model.py:868-920 | An expression without such right operands, judged on any values of the same kinds, never trips on the real ones. |
| `ExpressionModes.TypeOnlySucceeds` | src/protocyte/model.py:841-1279 | A condition on text and kinds alone under which type-only mode succeeds whatever the names stand for: kinds fit, and wherever a placeholder other than zero could make an operation fail the operands contain no complement, negated bool or comparison that holds of equal operands. |
| `ExpressionModes.SteadyIsUnspoiled` | src/protocyte/model.py:868-920 | Steady right operands are not at fault. |
| `ExpressionModes.ShortCircuitSucceeds` | src/protocyte/model.py:868-920 | Under that condition a deciding left operand gives the result, whatever the right operand is. |
| `ExpressionSyntax.TokensParse` | src/protocyte/model.py:890-1279 | Reading the tokens of a tree at a precedence level yields the tree, whatever follows it. |
| `ExpressionSyntax.RoundTrip` | src/protocyte/model.py:4124-4135 | Writing a tree with the parentheses of the emitted C++ text (left operand at the operator's precedence, right operand one tighter) and reading it back yields the tree, given the nesting limit. |
| `ExpressionSyntax.Precedence` | src/protocyte/model.py:890-1188 | Against the precedence classes of C++ written out from || to * / %: of two binary operators in a row, whichever they are, the left one is applied first if and only if its class is the same or tighter. |
| `ExpressionSyntax.PrefixFirst` | src/protocyte/model.py:1190-1223 | Every prefix operator applies to the one operand behind it, before any binary operator on either side. |
| `ExpressionSyntax.OtherSigns` | src/protocyte/model.py:1225-1282 | No other sign joins two operands, and none stands before one. |
| `ExpressionSyntax.NestingLimit` | src/protocyte/model.py:878-888 | Thirty-two prefix operators before a name are read, and no more. |
| `ExpressionParser.RestFails` | src/protocyte/model.py:868-1188 | An operand without a value leaves none to the rest of its level: one-pass evaluation cannot recover from an error. |
| `ExpressionParser.ExprParser.ParseLevel` | src/protocyte/model.py:890-1188 | Reading and evaluating one level in one pass gives the value of the tree read, and stops where the tree ends; mode and nesting are restored. |
| `ExpressionParser.ExprParser.ParseOperators` | src/protocyte/model.py:1030-1188 | The loop over the operators of a level evaluates its left-associated tree. |
| `ExpressionParser.ExprParser.ApplyRight` | src/protocyte/model.py:868-920 | The right operand of a logical or and a logical and is evaluated exactly when the left one does not decide, and otherwise only typed. |
| `ExpressionParser.ExprParser.ParseUnary` | src/protocyte/model.py:1190-1223 | Prefix operators apply from the inside out and count towards the nesting limit. |
| `ExpressionParser.ExprParser.ParsePrimary` | src/protocyte/model.py:1225-1279 | Literals, names, calls and parentheses mean their trees, in either mode. |
| `ExpressionParser.ExprParser.ParseArguments` | src/protocyte/model.py:1259-1269 | The argument loop yields the values of exactly the arguments read. |
| `ExpressionParser.ExprParser.ParseNested` | src/protocyte/model.py:878-888 | Nesting beyond 32 is refused; the depth is restored. |
| `ExpressionParser.ExprParser.Parse` | src/protocyte/model.py:855-866 | One-pass evaluation of a token sequence is the evaluation of its parse tree: it succeeds exactly when both do, with the same value. |
| `ExpressionParser.EvaluateTokens` | src/protocyte/model.py:841-1279 | For every tree within the nesting limit, evaluating its tokens yields the value of the tree. |
| `ConstantGraph.BoundedIsAcyclicAndShort` | src/protocyte/model.py:3663-3690 | The acceptance condition, no chain longer than the limit, is acyclicity together with longest chains within the limit. |
| `ConstantGraph.CycleGivesLongWalk` | src/protocyte/model.py:3745-3753 | A cycle gives chains of any length. |
| `ConstantGraph.ValuationUnique` | src/protocyte/model.py:3745-3798 | An accepted set of constants has exactly one valuation, so values do not depend on the visiting order. |
| `ConstantResolver.NewDepth` | src/protocyte/model.py:3676-3690 | One more than the deepest reference is the length of the longest chain. |
| `ConstantResolver.Resolver.Resolve` | src/protocyte/model.py:3745-3798 | Memoised resolution of one constant: success means that every chain from it is known and within the limit, and records value and longest chain; failure means that some chain from the start of the path is not; with an empty path it is therefore exact; either way the tables are left consistent, what was resolved stays, and nothing half-resolved remains. |
| `ConstantResolver.Resolver.LookUpReferences` | src/protocyte/model.py:3800-3810 | References are resolved in order, each at its own depth, until one is refused. |
| `ConstantResolver.Resolver.Record` | src/protocyte/model.py:3779-3785 | Records the value computed from the recorded values and the exact depth. |
| `ConstantResolver.Resolver.GiveUp` | src/protocyte/model.py:3786-3792 | After an error the constant leaves no trace in the tables, so that every table invariant holds again. |
| `ConstantResolver.Resolver.ResolveAll` | src/protocyte/model.py:3876-3884 | Accepts a set of constants exactly when its references are known, the graph is acyclic and every chain has at most 32 constants; depths and values are then the longest chains and the one valuation, whatever the order. |
| `TypeCycles.FinishOrderHasNoCycle` | src/protocyte/descriptor_set.py:520-550 | Types finished in order, each after its targets, cannot reach a cycle. |
| `TypeCycles.CycleIsGenuine` | src/protocyte/descriptor_set.py:553-575 | The reported slice of the path with its closing edge is a closed chain of dependencies. |
| `TypeCycles.SearchRoot` | src/protocyte/descriptor_set.py:520-550 | The explicit-stack search from one root reports a cycle exactly when one is reachable; otherwise the vertices it finishes are reachable, and the edges examined so far are exactly theirs and those of earlier ones, each once. |
| `TypeCycles.Validate` | src/protocyte/descriptor_set.py:513-550 | Fails if and only if a dependency cycle is reachable from the roots, with a genuine closed chain, found by examining its edges, the closing one last, and no edge twice; on success the vertices finished are exactly those that the roots reach, each once, and the edges examined are exactly theirs, each once. |
| `TypeCycles.ReachedIsFinished` | src/protocyte/descriptor_set.py:520-550 | A finish order that contains the roots contains whatever they reach. |
| `MessageGraph.CanReach` | src/protocyte/model.py:3963-3974 | The stack search finds the goal exactly when a path exists. |
| `MessageGraph.OnCycleIffReturns` | src/protocyte/model.py:3942-3960 | A field lies on a cycle exactly when its target reaches its owner. |
| `MessageGraph.MarkRecursiveBoxes` | src/protocyte/model.py:3942-3960 | A singular message field is boxed exactly when it lies on a cycle of singular fields. |
| `MessageGraph.UnboxedIsAcyclic` | src/protocyte/model.py:3942-3960 | Without the boxed fields no cycle is left, so every message has a finite layout. |
| `MessageGraph.EmitOne` | src/protocyte/cpp.py:4959-4964 | A message joins the order only after the targets it follows, except those that can reach it. |
| `MessageGraph.Emitter.Visit` | src/protocyte/cpp.py:4947-4964 | Each visit leaves the order duplicate-free and respecting every followed edge that is not part of a cycle. |
| `MessageGraph.Emitter.VisitFields` | src/protocyte/cpp.py:4951-4961 | Every target followed from the fields is emitted or still being visited. |
| `MessageGraph.OrderedMessages` | src/protocyte/cpp.py:4938-4968 | Lists each message of the file exactly once in the order of the recursive visit, and every followed target precedes its owner unless the target can reach the owner. |
| `MessageGraph.FollowedExactly` | src/protocyte/cpp.py:4951-4961 | The visit follows from a message exactly to the messages of the file that one of its fields has as its type without a recursion box, or as its map value. |
| `MessageGraph.TargetsFirstIff` | src/protocyte/cpp.py:4938-4968 | The order has every followed target before its owner if and only if no followed target reaches its owner. |
| `MessageGraph.ContainedAfterOwner` | src/protocyte/cpp.py:4951-4956 | A file on which the order is not that: message B with a repeated A, A with a singular B that no cycle boxes, listed B, A, is emitted as A, B, so that A precedes the B it contains. |
| `EmissionOrder.ContainedFirstIff` | src/protocyte/cpp.py:4938-4968 | Definitions come after those of the messages they contain, through singular fields that are not boxed, in whatever order the file lists its messages, if and only if no contained message reaches its owner. |
| `EmissionOrder.OrderIsListing` | src/protocyte/cpp.py:4938-4968 | When every field's message type is boxed or foreign and so is every map value, the messages are emitted in the very order in which they are listed. |
| `EmissionOrder.ReachedComesBefore` | src/protocyte/cpp.py:4947-4964 | The message visited first is emitted after everything it reaches. |
| `EmissionOrder.VisitKeeps` | src/protocyte/cpp.py:4947-4964 | One visit, from any point of the recursion, only adds to the order and leaves every emitted message with its followed targets emitted or being visited. |
| `Complexity.OneNodeEach` | src/protocyte/plugin.py:206-224 | The look-ahead checks are sound: queued messages count for at least one node each. |
| `Complexity.ExpandedMeasures` | src/protocyte/plugin.py:209-231 | Replacing the top of the stack by its nested messages conserves the nodes and the depth still to be counted. |
| `Complexity.MessageDeclarationsCount` | src/protocyte/plugin.py:178-232 | Every field, extension, oneof, range and reserved name of a message counts once, and so does the message itself; an enum likewise; nested messages and enums add their own counts. |
| `Complexity.FileDeclarationsCount` | src/protocyte/plugin.py:186-198 | The same for a file, its services and their methods, and a request of several files. |
| `Complexity.DepthIsLongest` | src/protocyte/plugin.py:199-231 | The depth is the length of a chain of messages each nested in the one before, |
| `Complexity.NoLongerChain` | src/protocyte/plugin.py:199-231 | and no such chain is longer. |
| `Complexity.AddEnums` | src/protocyte/plugin.py:187-192 | Stops exactly when the running total exceeds the limit. |
| `Complexity.AddServices` | src/protocyte/plugin.py:193-198 | Stops exactly when the running total exceeds the limit. |
| `Complexity.AddMessages` | src/protocyte/plugin.py:199-231 | The stack loop rejects exactly when the recursive total or depth exceeds its limit, and otherwise returns both exactly. |
| `Complexity.AddFile` | src/protocyte/plugin.py:186-231 | One file: accepted exactly when its nodes and nesting still fit, and then counted exactly. |
| `Complexity.RequestComplexity` | src/protocyte/plugin.py:178-232 | Rejects exactly when the recursively defined node total or nesting depth of the request exceeds its limit, names a limit that is exceeded, and otherwise returns the exact total and depth. |
| `Identifiers.CppIdentifierIsPortable` | src/protocyte/names.py:176-194 | Every emitted identifier is a portable C++ identifier and no keyword. |
| `Identifiers.CppIdentifierIsInjective` | src/protocyte/names.py:176-194 | Different names give different identifiers. |
| `Identifiers.CppIdentifierKeeps` | src/protocyte/names.py:176-194 | A portable name is left as it is unless its spelling is one that another name is given. |
| `Identifiers.PortableExactly` | src/protocyte/names.py:368-374 | Portable means: a letter first, then letters, digits and underscores, no two underscores in a row, and no reserved word. |
| `NameModel.RenderInjective` | src/protocyte/names.py:237-244 | Different stems that end in a digit give a member different names. |
| `NameModel.SuffixedNames` | src/protocyte/names.py:237-244 | A derived name is its stem, one underscore and the suffix, never two underscores in a row, and different stems of any shape have different derived names. |
| `NameModel.UsesRecorded` | src/protocyte/names.py:299-309 | An allocated request is recorded name by name as a use by its owner, with the kind and signature of the member. |
| `NameModel.DecimalReads` | src/protocyte/names.py:362-365 | Candidate numbers are spelled in decimal without leading zeros. |
| `NameModel.RenderedPortable` | src/protocyte/names.py:237-244 | Members render portable stems to portable names. |
| `NameModel.NumberedInjective` | src/protocyte/names.py:347-365 | Numbered candidates are pairwise different. |
| `NameModel.AddKeepsWellNamed` | src/protocyte/names.py:320-336 | Adding a name that may be added keeps recorded names portable and the signatures that share a spelling distinct. |
| `NameModel.CanAddExactly` | src/protocyte/names.py:320-336 | A name can be added if and only if it is portable and every use it already has differs in signature, both having one; equivalently, if and only if the scope is well named with it. |
| `NameModel.AddAllKeepsWellNamed` | src/protocyte/names.py:296-310 | Moving a whole group of derived names at once keeps the same. |
| `NameModel.AddAllSplit` | src/protocyte/names.py:312-318 | Checking against recorded and staged names apart is checking against both. |
| `NameModel.FreshStemFits` | src/protocyte/names.py:312-336 | A stem none of whose rendered names is used can always be taken. |
| `NameAllocator.SortIgnoresOrder` | src/protocyte/names.py:287-295 | Requests of distinct owners are sorted to one sequence, whatever their order. |
| `NameAllocator.SortedByKey` | src/protocyte/names.py:289-292 | Requests are taken by priority, then by preferred name, then by owner. |
| `CodePoints.LessMeans` | src/protocyte/names.py:289-292 | One string comes before another at the first character that tells them apart, or because it ends there. |
| `NameAllocator.OutcomeUnique` | src/protocyte/names.py:287-310 | Taking the first fitting candidate for one request after the other has one outcome. |
| `NameAllocator.AllocationIgnoresOrder` | src/protocyte/names.py:287-310 | Allocation gives the same stems and the same recorded names for every permutation of the requests. |
| `NameAllocator.Blocker` | src/protocyte/names.py:320-336 | A failing candidate is blocked by a used name that one of its members renders to. |
| `NameAllocator.BlockersDiffer` | src/protocyte/names.py:347-365 | Different numbered candidates are blocked by different pairs of member and used name. |
| `NameAllocator.TriesBounded` | src/protocyte/names.py:296-310 | So the number of failing candidates is at most used names times members plus the candidates before the numbered ones. |
| `NameAllocator.Scope.Reserve` | src/protocyte/names.py:268-285 | A recorded use is accepted again; a conflict with other uses of the name is refused and names the owner of the first one; a spelling that is not portable has no use to name, so the lookup fails; otherwise the use is recorded once. |
| `NameAllocator.Scope.CanAddAll` | src/protocyte/names.py:312-318 | The staging loop answers exactly whether all names of a candidate can be added together. |
| `NameAllocator.FirstFitIs` | src/protocyte/names.py:347-365 | The order of the candidates, spelled out: the preferred name if its names fit; else, without the hash fallback, that name with an underscore, or with the word protocyte if it ends in one; then the name without trailing underscores with the digest; then that with the least fitting number from two on. |
| `NameAllocator.Scope.AllocateOne` | src/protocyte/names.py:296-310 | The search through the infinite candidate list ends within the stated bound at the first stem of that order whose names all fit, and records exactly those names. |
| `NameAllocator.Scope.Allocate` | src/protocyte/names.py:287-310 | Every request gets its stem, in sorted order; recorded names stay portable and spellings shared only by distinct signatures. |

## Left out

- Registry.Coordinator.Settle: recovery, publication and retirement of outputs appear here as one step with an arbitrary effect below one claimed root, refusal included, because `OutputRoot` models them step by step.
- Registry.Coordinator.Reset: starts from a root whose pending transaction was recovered in one step, for the same reason; reset after an intervening publish is refused by the code and not claimed.
- Registry.Coordinator.ValidateRegistry: malformed records, links and wrongly named entries of the registry are not modelled; a path is its sequence of components.
- OutputRuns.RunWithEdits: power does not fail while other programs edit outputs; on a root that nobody else edits it may, in `OutputRuns.Run`.
- OutputRoot.Root.PublishOne: the temporary file beside an output and its rename are one step, and so is the check of an output with its replacement; an outside edit happens between such steps, not inside one.
- OutputRoot.Root.SyncOutput: ancestor directories are synchronised with the output they hold; directory creation and its topology are not separate entries.
- OutputRoot.Root.Reconcile: case-insensitive aliases of a dropped output are not modelled, and staging directories and the registry are in `Registry` instead.
- Environment.Managed.Recover: several owner markers at once, tainted races, the fingerprint file's own identity and power loss are not modelled; an owner is a label map, a location and a two-phase cleanup.
- Environment.Managed.Provision: building and checking the new environment is one step with a given outcome.
- Locks.NoDeadlock: the command that run-generation executes only publishes or validates, one child at a time, as the build uses it; fairness of the operating system's locks is not modelled.
- ExpressionLaws.ResultsInRange: needs strings shorter than 2**32 characters, because len() does not reduce its result.
- ExpressionModes.TypeOnlySucceeds: the condition on the text is sufficient only; the exact one is that of `ExpressionModes.PassedOverExactly`.
- ExpressionCpp.EvaluationIsCpp: strings other than the argument of len, floating-point values and functions other than casts to integers and bool, abs, min, max and len are not part of an integer expression.
- ExpressionLaws.OperatorIsCpp: floating-point values are opaque codes with their operations as parameters; rounding is in `BinaryRounding`.
- ExpressionParser.ExprParser.Parse: tokenising, error texts, the emitted C++ text of values and the recursion guard of the interpreter are not modelled; literals arrive with their values.
- ConstantResolver.Resolver.ResolveAll: the value of a constant is a given function of the values it refers to, so only dependency errors can occur; constants are numbers, and scopes and spellings of references are resolved beforehand.
- RoundingPaths.ExactPathsAgree: signs are left aside; the decimal functions ln, exp, sqrt and log and the final fallback of evaluate_pow are library code.
- Identifiers.CppIdentifierIsInjective: the hexadecimal encoding of a name is a parameter assumed injective, as are digests in `NameAllocator`.
- Case-insensitive aliases, links, junctions and directories at output paths; JSON, hexadecimal and digest computation; progress reporting; argument parsing.
- C++ text emission and wire codecs, formatter and debugger helpers, custom option loading, depfiles and path normalisation.
