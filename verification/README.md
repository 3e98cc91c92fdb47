# Verified models of kudzu's dependency tooling and indexer

Kudzu pulls soil-sensor readings from Parrot and publishes them to Thingful. Its indexer keeps a
watermark per sensor; the Go tools checked in beside it under `_tools` contain the `gps` dependency
solver of dep, the source manager around it, and go-bindata. This project models the parts of them
where correctness is not obvious from one function, and proves what those parts are for. It is written
for Dafny 4.11: `dafny verify dfyconfig.toml`.

**The solver** (`Versions`, `Bridge`, `ImportGroups`, `VersionQueues`, `Requirements`, `Selection`,
`SolverInvariant`, `SolverSteps`, `SolverMeasure`, `SolverViews`, `SolverRuns`, `QueueContents`,
`RunInvariant`, `Undemanded`, `Solver`, `Soundness`, `Sources`, `SmallWorlds`, `StaleEntry`,
`TwoSources`). A backtracking search over project versions with four pieces of mutable state: a stack of selected atoms with an
adjacency list of inbound dependencies and a table of case variants, a queue of unselected work, a
stack of lazily loaded version queues, and marks on queues that are known to be at fault. The classes
`SelectionState`, `Unselected`, `VersionQueue` and `Solver` carry those fields and their methods are
the source's. What the source manager would answer is a value of type `World`: versions, packages,
reach maps, manifests, locks and root deduction, fixed for one run. The heap of unselected work is a
sequence that may be reordered at every push, and loops over Go maps choose their order freely. The
invariant `Inv` says that the adjacency list is exactly what the stack implies, in order; that the case
table mirrors it; that the constraints on each project have a common version, name one source and
are met by the selected version; and that every demanded package is selected or queued. Every step
keeps it, backtracking included, and the main theorem (`Soundness.SolveWorld`) reads a sound
solution off an empty queue; `RunInvariant.RunInOrder` says the same of every state of every run. The loops end by a lexicographic measure: the versions left in each
queue of the stack, a missing queue counting most; the packages not yet demanded; the queue.

`SolverRuns` says the same search once more without a heap: a `State` holds the selection, the queue,
and the projects, remaining versions and marks of the stack of version queues, and `Next` is what one
turn of the main loop or of backtracking may do to it, in full. Every method of the solver that moves
the search is proved to follow it, so a `Solve` that gives up has retired every queue for cause, and one
that dies has come to a state that `Dies` describes. The index out of range in `findValidVersion`
(solver.go:945) is one of those: it happens exactly when a non-empty queue is searched in vain for a
project nobody depends on, and `StaleEntry.RunDies` gives a well-behaved world with a solution, and the
run in it that gets there. Whether the context is done is an oracle that the solver asks once a turn, as
the source does (solver.go:482 and 1020); `Solve` is cancelled exactly when it says so.
`SmallWorlds` holds what the worlds of `StaleEntry` and `TwoSources` have in common.

The theorem assumes a world that is `WellBehaved`: reach maps are closed under imports inside a
project and list as external only what is not below its root, deduced roots are path prefixes of the
imports they are deduced for, constraints in manifests admit something and are not paired versions, the
(project, package) pairs that dependencies can name are finite and version lists bounded, the roots in
one atom's dependency list differ by more than case, and the root's import list has no duplicates.
`Soundness.WellBehavedWorldExists` shows such a world. That every import ends up in some dependency
needs one thing more, which `ImportGroups.LosslessExactly` pins down: grouping forgets packages
exactly when a deduced root already has some. A solution is sound with respect to the constraints that its
dependencies carry; those are the listed ones, overrides heeded, unless a deduction lands on a listed root
(`ImportGroups.ListedStaysExactly`, `Soundness.ListedConstraintsBind`).

**The source manager** (`SourceCoordinator`, `SourceAnswers`, `SourceNames`, `Supervisor`). Each critical
section is one atomic step of
a thread, and a run is any interleaving. The coordinator folds simultaneous requests for names that
differ only by case into one leader and its followers; the supervisor counts calls so that releasing
can wait for them. `Supervisor.Supervisor` also has the two methods in their own form.

**The ignore rules** (`IgnoredRulesets`). Sorted insertion into a trie against a plain scan of the
rules: where the two agree is stated exactly, for every rule list and every path.

**The import search of `dep init`** (`GopathScanner`). A three-coloured depth-first traversal over
what is on disk; ghost fields record the grey chain and the order in which packages were finished.

**The indexer** (`Indexers`). Any call to Parrot, Thingful or the database may fail, before or after it
took effect, as an oracle decides.

**go-bindata** (`Bits`, `Release`). A number formatter that fills a fixed buffer from its tail, and the
printer of Go string literals, each with an independent reader for what it writes.

`Wrappers` and `Strings` hold what the others share: optional values, byte-wise order, sorting and
longest prefixes.

Where code and comments disagree the model follows the code:

- The doc comment of `intersectConstraintsWithImports` guarantees that all reached packages are
  included; the code replaces a dependency, with the packages already filed in it, when it deduces a
  root that already has one (solver.go:782-785).
- The same replacement puts the open constraint in the place of a listed one, even where no package is lost
  (`ImportGroups.OverlapDropsConstraint`).
- `MatchesAny` is documented to tell whether the intersection allows any version (constraint.go:40-43);
  the open constraint says yes to the empty one.
- `NewIgnoredRuleset` says that literals with a wildcard's prefix are discarded; those that sort before
  the wildcard stay and hide it for longer paths.
- The comment in `bits.String` gives `-123.150EB` as the largest value; no int64 reaches two digits of
  EB, and `-999.999PB` has the same ten characters.
- `unselectLast` queues the expanded package list and later looks for the unexpanded one
  (solver.go:1315 and 1338), so the queue may keep entries nobody demands. That can happen without
  any expansion too: when a second depender asks for other packages of a project, they are queued
  apart (solver.go:1276-1301), and the last depender to go removes only what it asked for itself
  (`Undemanded.TwoAskersLeaveEntry`). `Undemanded.AllDemandedExactly` says when nothing is left over.
  Coverage is proved, minimality is not. Such an entry is why `findValidVersion` can index an empty
  slice (solver.go:945), which its callers do not expect (`StaleEntry.RunDies`), and why two identifiers
  of one project can be selected from different sources, which `checkIdentMatches` says it prevents
  (satisfy.go:195-201) and `selectAtom` guards against (solver.go:1286-1293): `TwoSources.RunDisagrees`
  is a run that finishes so, `Sources.RunAgreesExactly` has the condition, and
  `Sources.OneNameAgrees` a world in which it always holds.
- A name recorded again in `sourceCoordinator` is said to get the same URL (source.go:137-141). It does
  in every run exactly when no two of the possible creations clash over a name and its folded form
  (`SourceNames.UpgradesAgreeExactly`), which is so when no name is deduced to another name that is called,
  up to case
  (`SourceNames.NamesKeepTheirURL`); otherwise a creation in between can give it another one
  (`SourceNames.UpgradeCanReroute`).

## Model

| member | source | states |
|---|---|---|
| Versions.MeetRangesExact | _tools/src/github.com/golang/dep/gps/constraint.go:187-214 | The meet of two semver ranges admits exactly the positions both admit. |
| Versions.NameAdmitsExactly | _tools/src/github.com/golang/dep/gps/version.go:225-463 | A name, as a constraint, admits exactly the versions of its kind with its name, or at its position for semver, paired or not, and no revision. |
| Versions.NamesMeetExactly | _tools/src/github.com/golang/dep/gps/version.go:236-463 | Two names meet exactly then, in `Intersect` and in `MatchesAny` alike; a name and a revision never do. |
| Versions.RevisionAdmitsExactly | _tools/src/github.com/golang/dep/gps/version.go:141-200 | A revision admits itself and what is paired with it; a pair admits what has its revision, and its name. |
| Versions.RangeAdmitsExactly | _tools/src/github.com/golang/dep/gps/constraint.go:170-181 | A range admits exactly the semver versions, paired or not, that lie in one of its intervals. |
| Versions.IntersectExact | _tools/src/github.com/golang/dep/gps/constraint.go:187-302 | For every pair of writable constraints and every version, paired or not: the intersection admits the version exactly when both sides do, except that a revision and a constraint on names have nothing in common. |
| Versions.IntersectIsConjunction | _tools/src/github.com/golang/dep/gps/version.go:141-463 | On versions without a revision and on bare revisions, intersection is conjunction. |
| Versions.ConverseFailsForPairs | _tools/src/github.com/golang/dep/gps/version.go:172-189 | A paired version can match both sides and not their intersection. |
| Versions.IntersectCommutes | _tools/src/github.com/golang/dep/gps/constraint.go:187-214 | Either order of intersection admits the same versions. |
| Versions.IntersectAssociates | _tools/src/github.com/golang/dep/gps/constraint.go:187-214 | Either grouping of three constraints admits the same versions. |
| Versions.CommutesExactly | _tools/src/github.com/golang/dep/gps/version.go:141-463 | For all constraints, pairs included: the two orders of intersection admit the same versions exactly when neither side is a bare name and the other a pair of that name. |
| Versions.AssociatesExactly | _tools/src/github.com/golang/dep/gps/version.go:141-463 | For all constraints, pairs included: the two groupings of three constraints admit the same versions exactly when no pair among them is known by its name to one neighbour and by its revision, or by its name once more, to the other. For the pairs `n`-`r` and `m`-`r` and the name `m` they differ on revision `r`. |
| Versions.AdmitsNoMoreExactly | _tools/src/github.com/golang/dep/gps/version.go:141-463 | For all constraints, pairs included: everything the intersection admits is admitted by both sides exactly when neither side is a name, or a range, that admits the name of a pair on the other side. |
| Versions.MeetIsEmptyExactly | _tools/src/github.com/golang/dep/gps/constraint.go:187-214 | Testing the meet of two ranges for emptiness is asking whether they have a version in common. |
| Versions.MatchesAnyExact | _tools/src/github.com/golang/dep/gps/constraint.go:256-302 | `MatchesAny` tells whether the intersection is not none, with exactly one exception: any against none. |
| Versions.SomeVersion | _tools/src/github.com/golang/dep/gps/constraint.go:170-181 | Every writable constraint but none admits some version. |
| Bridge.EqIsSameSource | _tools/src/github.com/golang/dep/gps/identifier.go:94-108 | Identifiers are equal exactly when root and normalized source are. |
| Bridge.EquivExactly | _tools/src/github.com/golang/dep/gps/identifier.go:119-132 | An identifier is equivalent to a different one exactly when it names a source, and the other is the same project without one; both ways only when they are the same. |
| VersionQueues.ScheduleOffersEachOnce | _tools/src/github.com/golang/dep/gps/version_queue.go:28-137 | Over a duplicate-free list a queue offers the lock, the preference and every listed version and nothing else, lock first, preference next, and none twice exactly when lock and preference are not the same version. |
| VersionQueues.ScheduleKeepsOrder | _tools/src/github.com/golang/dep/gps/version_queue.go:71-137 | Behind lock and preference the listed versions come in the order of the list. |
| VersionQueues.VersionQueue.New | _tools/src/github.com/golang/dep/gps/version_queue.go:28-59 | What a new queue will offer is the schedule; it fails exactly when the list is needed at once and cannot be had. |
| VersionQueues.VersionQueue.Current | _tools/src/github.com/golang/dep/gps/version_queue.go:61-67 | The first of what remains. |
| VersionQueues.VersionQueue.Advance | _tools/src/github.com/golang/dep/gps/version_queue.go:71-137 | Exactly the current version goes from what remains and is recorded; the failure mark is lifted if something remains; an error is reported exactly when the list was needed and could not be had. |
| VersionQueues.VersionQueue.IsExhausted | _tools/src/github.com/golang/dep/gps/version_queue.go:144-149 | True exactly when nothing remains, for every valid queue. |
| VersionQueues.DeleteOffered | _tools/src/github.com/golang/dep/gps/version_queue.go:99-133 | Splicing out the recorded positions one by one, each shifted by those already gone, is a filter. |
| ImportGroups.IntersectConstraintsWithImports | _tools/src/github.com/golang/dep/gps/solver.go:728-790 | The loop over the trie computes the grouping; an error exactly when some root cannot be deduced. |
| ImportGroups.GroupSensible | _tools/src/github.com/golang/dep/gps/solver.go:728-790 | In every grouping a package is filed, in input order, under a root that is its path prefix, with the listed constraint of that root, or with the overridden or open one exactly where the root was not listed or a deduction landed on it. |
| ImportGroups.ListedStaysExactly | _tools/src/github.com/golang/dep/gps/solver.go:749-787 | For all inputs: a dependency carries the constraint that applies to its root exactly when no deduction lands on the root while it is listed, or the listed constraint is the open one anyway. |
| ImportGroups.DependencyDemands | _tools/src/github.com/golang/dep/gps/constraint.go:383-420 | Every dependency carries the constraint and the source of its project's override where there are any, and else those listed, or the open ones where nothing is listed or a deduction landed on its root. |
| ImportGroups.MatchExactly | _tools/src/github.com/golang/dep/gps/typed_radix.go:82-92 | A known root applies to a package exactly when it is the longest one that the package begins with, and the package is the root or goes on with a slash and one character more at least. |
| ImportGroups.GroupFailsExactly | _tools/src/github.com/golang/dep/gps/solver.go:749-787 | Grouping fails exactly where a package is not standard, no root listed or deduced before applies to it, and none can be deduced. |
| ImportGroups.GroupClassifies | _tools/src/github.com/golang/dep/gps/solver.go:728-790 | When known and deduced roots are not path prefixes of one another, each root gets exactly the packages that live there, in input order, with its listed constraint or else the override or any. |
| ImportGroups.PackagesOfExact | _tools/src/github.com/golang/dep/gps/solver.go:728-790 | A package is listed for a root exactly when it is reached, not standard, and lives there. |
| ImportGroups.GroupPartitions | _tools/src/github.com/golang/dep/gps/solver.go:728-790 | In that case every reached non-standard package lands in exactly one dependency, under a root that is its path prefix. |
| ImportGroups.LosslessExactly | _tools/src/github.com/golang/dep/gps/solver.go:728-790 | For all inputs: every reached non-standard package is placed exactly when no deduction lands on a root that already has packages; none is ever placed twice. |
| ImportGroups.OverlapLosesPackages | _tools/src/github.com/golang/dep/gps/solver.go:760-785 | A listed root that extends another as text but not as a path makes grouping lose a package. |
| ImportGroups.OverlapDropsConstraint | _tools/src/github.com/golang/dep/gps/solver.go:760-785 | The same two roots and one import: no package is lost, and the listed constraint of the first root gives way to the open one. |
| Requirements.GetImportsAndConstraintsOf | _tools/src/github.com/golang/dep/gps/solver.go:645-722 | The two passes over the package list compute the expanded list and the grouped dependencies; an error where analysis, listing, reach or deduction fails. |
| Requirements.ImportsFailExactly | _tools/src/github.com/golang/dep/gps/solver.go:645-722 | It fails exactly when manifest or packages cannot be read, a listed package that is not ignored reaches nothing, or an import cannot be placed. |
| Requirements.IgnoredBringNothing | _tools/src/github.com/golang/dep/gps/solver.go:684-707 | Ignored packages bring in no dependency, and none is missing for them. |
| Requirements.OverridesHeeded | _tools/src/github.com/golang/dep/gps/constraint.go:383-420 | Every dependency of the root project and of every atom on a project with an override carries the override's constraint, if it has one, and its source, if it names one. |
| Requirements.ExpansionIsClosed | _tools/src/github.com/golang/dep/gps/solver.go:667-681 | The expanded package list is closed under imports inside the project. |
| Requirements.ExpansionIsIdempotent | _tools/src/github.com/golang/dep/gps/solver.go:667-681 | Expanding an expanded list changes nothing. |
| Requirements.ExpansionKeepsImports | _tools/src/github.com/golang/dep/gps/solver.go:645-722 | An atom with its expanded list has the same dependencies, so unselecting finds what selecting found. |
| Requirements.ImportsGood | _tools/src/github.com/golang/dep/gps/solver.go:645-722 | Every dependency is filed under its root, carries a constraint that admits something, and lists distinct packages, at least one; no project depends on itself. |
| Requirements.RootDepsGood | _tools/src/github.com/golang/dep/gps/solver.go:610-643 | So is every dependency of the root project. |
| Selection.SelectionState.PushDep | _tools/src/github.com/golang/dep/gps/selection.go:81-89 | Appends to the dependencies of one project and records its case variant when it is the first. |
| Selection.SelectionState.PopDep | _tools/src/github.com/golang/dep/gps/selection.go:91-100 | Takes off the last dependency of one project and forgets its case variant when none is left. |
| Selection.SelectionState.GetRequiredPackagesIn | _tools/src/github.com/golang/dep/gps/selection.go:108-120 | Counts for every package how many entries of the dependencies on a project name it. |
| Selection.DemandPositive | _tools/src/github.com/golang/dep/gps/selection.go:108-120 | The count is positive exactly for packages some dependency names. |
| Selection.SelectionState.GetConstraint | _tools/src/github.com/golang/dep/gps/selection.go:168-188 | The intersection of all active constraints on a project. |
| Selection.SelectionState.IsSelected | _tools/src/github.com/golang/dep/gps/selection.go:197-205 | The first selected atom of a project. |
| Selection.Unselected.Push | _tools/src/github.com/golang/dep/gps/selection.go:224-226 | The entry is added and the heap may reorder itself. |
| Selection.Unselected.Remove | _tools/src/github.com/golang/dep/gps/selection.go:243-264 | The first entry with the same identifier and package list is spliced out, if there is one. |
| Selection.WithoutExactly | _tools/src/github.com/golang/dep/gps/selection.go:243-264 | The entry that goes is the first of the same project, from the same normalized source, with the same packages; without one nothing goes. |
| SolverInvariant.CompositeExact | _tools/src/github.com/golang/dep/gps/selection.go:168-188 | The composite constraint of dependencies that can be met together admits exactly the versions that every one of them admits. |
| SolverInvariant.SatisfiedPush | _tools/src/github.com/golang/dep/gps/satisfy.go:13-77 | Pushing an atom that passed `check` leaves every project satisfied: constraints with a common version, one source, and met by the selected version with every demanded package present. |
| SolverInvariant.SatisfiedPop | _tools/src/github.com/golang/dep/gps/solver.go:1311-1343 | Popping an atom leaves every project satisfied. |
| SolverInvariant.FirstIdsDistinct | _tools/src/github.com/golang/dep/gps/solver.go:149-155 | The projects selected above the root are pairwise distinct. |
| SolverSteps.SoleDemander | _tools/src/github.com/golang/dep/gps/solver.go:1260-1290 | A count of one means that nobody else demands the package: only new packages are queued. |
| SolverSteps.PushStep | _tools/src/github.com/golang/dep/gps/solver.go:1240-1305 | One turn of the loop of `selectAtom`, or of `selectRoot`, keeps the adjacency list, the case table, coverage and the queue in step. |
| SolverSteps.PopStep | _tools/src/github.com/golang/dep/gps/solver.go:1322-1340 | One turn of the loop of `unselectLast` keeps them in step on the way back, though it may remove queue entries. |
| SolverMeasure.ValueLess | _tools/src/github.com/golang/dep/gps/solver.go:480-586 | A queue that moved on outweighs everything stacked above it: the lexicographic measure as a number. |
| Solver.Solver.Fail | _tools/src/github.com/golang/dep/gps/solver.go:1190-1205 | Marks exactly the oldest queue of the project, and never the root. |
| Solver.Solver.CheckAtomAllowable | _tools/src/github.com/golang/dep/gps/satisfy.go:81-104 | No error exactly when the composite constraint admits the version; otherwise names and fails exactly the dependers that reject it. |
| Solver.Solver.CheckRequiredPackagesExist | _tools/src/github.com/golang/dep/gps/satisfy.go:108-144 | No error exactly when every demanded package is there without error; otherwise names exactly those that are not. |
| Solver.Solver.CheckDepsConstraintsAllowable | _tools/src/github.com/golang/dep/gps/satisfy.go:148-176 | No error exactly when the new constraint meets the composite of the active ones; otherwise sorts the siblings and fails those it does not meet. |
| SolverViews.SiblingsMembers | _tools/src/github.com/golang/dep/gps/satisfy.go:148-176 | The siblings to be failed are exactly those whose constraint does not meet the new one, the others those whose does. |
| SolverViews.RejectingMembers | _tools/src/github.com/golang/dep/gps/satisfy.go:81-104 | The dependers to be failed for an atom are exactly those whose constraint rejects its version. |
| Solver.Solver.CheckDepsDisallowsSelected | _tools/src/github.com/golang/dep/gps/satisfy.go:181-193 | No error exactly when the selected version, if any, is admitted. |
| Solver.Solver.CheckIdentMatches | _tools/src/github.com/golang/dep/gps/satisfy.go:202-222 | No error exactly when the first dependency on the project names an equivalent source. |
| Solver.Solver.CheckRootCaseConflicts | _tools/src/github.com/golang/dep/gps/satisfy.go:229-273 | No error exactly when no active root differs from this one only by case. |
| Solver.Solver.CheckPackageImportsFromDepExist | _tools/src/github.com/golang/dep/gps/satisfy.go:277-314 | No error exactly when the selected version has every package the dependency names; otherwise names exactly those it lacks. |
| Solver.Solver.CheckRevisionExists | _tools/src/github.com/golang/dep/gps/satisfy.go:318-337 | No error exactly when a demanded revision is present in the source. |
| Solver.Solver.Check | _tools/src/github.com/golang/dep/gps/satisfy.go:13-77 | Passes exactly when all seven conditions hold for the atom and each of its dependencies; otherwise the marks it leaves are those of the first condition of the atom that fails, or of one dependency that fails; the panic arises only for the root, once its packages exist. |
| Solver.Solver.FindValidVersion | _tools/src/github.com/golang/dep/gps/solver.go:911-953 | Stops at the first acceptable version and nothing is found exactly when none in the queue is acceptable; every version passed over was tried and recorded. The index out of range arises exactly when the queue holds versions, none is acceptable and nobody depends on the project; the other panic exactly when the queue is empty. |
| Solver.Solver.GetLockVersionIfValid | _tools/src/github.com/golang/dep/gps/solver.go:964-1004 | The lock's version, unless the project may change and its source exists; an error exactly for a project to change whose source does not exist. |
| Solver.Solver.PreferredByDependers | _tools/src/github.com/golang/dep/gps/solver.go:828-860 | The version the last depender's lock holds for the project, the root aside. |
| Solver.Solver.CreateVersionQueue | _tools/src/github.com/golang/dep/gps/solver.go:792-903 | Hands out a queue exactly when one can be had and holds an acceptable version, and it stands at the first of those; the panics arise exactly for an empty queue, and for one without an acceptable version when nobody depends on the project. The queue holds lock, preference and listed versions in that order, behind a demanded revision; where that revision passes its checks, the queue is had and stands at it. |
| QueueContents.DemandedFirst | _tools/src/github.com/golang/dep/gps/solver.go:887-900 | Where the dependencies on a project demand a revision, a queue that is not empty offers it first, and behind it, if it was not first already, what it would offer otherwise. |
| QueueContents.QueueHoldsExactly | _tools/src/github.com/golang/dep/gps/solver.go:814-886 | Where none is demanded, the queue holds exactly the lock, the preference and the listed versions, in that order. |
| QueueContents.StandsAtDemanded | _tools/src/github.com/golang/dep/gps/solver.go:887-903 | A demanded revision that passes its checks is what the queue stands at. |
| QueueContents.OnlyDemanded | _tools/src/github.com/golang/dep/gps/solver.go:887-900 | Where a revision is demanded, nothing passes the checks but it and what is paired with it. |
| QueueContents.PreferredExactly | _tools/src/github.com/golang/dep/gps/solver.go:828-846 | What dependers prefer is the version in the lock of the last depender, the root aside, whose lock names the project, the last entry that does; none exactly when no such lock does. |
| QueueContents.PreferenceExactly | _tools/src/github.com/golang/dep/gps/solver.go:1240-1308 | The preference that comes with a queue entry is what the atom's own lock holds last for exactly that identifier; none exactly when it holds none. |
| QueueContents.LockForExactly | _tools/src/github.com/golang/dep/gps/solver.go:964-1004 | The root's lock counts for a project, and is the version locked there, unless the project may change and its source is there. |
| QueueContents.ObtainableExactly | _tools/src/github.com/golang/dep/gps/solver.go:792-886 | No queue can be had exactly when there is neither source nor vendored code, or nobody can tell; when the project is to change without a source; or when the list is needed and cannot be had. |
| Solver.Solver.NextVersion | _tools/src/github.com/golang/dep/gps/solver.go:1074-1096 | Moves a queue past its current version to the next acceptable one; there is none exactly when no later version is acceptable, and it dies exactly when there were later versions, none acceptable, and nobody depends on the project. |
| Solver.Solver.SelectAtom | _tools/src/github.com/golang/dep/gps/solver.go:1212-1309 | Keeps the solver's invariant, pushes the atom with its expanded packages, appends its dependencies, and turns the queue into the old one without the entry taken, plus exactly one entry for each dependency that brings in a package nobody demanded, with the version its own lock prefers; either an entry goes or more is demanded. |
| Solver.Solver.UnselectLast | _tools/src/github.com/golang/dep/gps/solver.go:1311-1343 | Keeps the invariant, undoes exactly the topmost selection, queues what it held and removes, for each project that lost its last depender, the entry as it was first queued; the root is never reached. |
| Solver.Solver.Backtrack | _tools/src/github.com/golang/dep/gps/solver.go:1008-1110 | When it resumes, the invariant and the alignment of queues and projects hold and the measure has dropped; it gives up only when every queue has been popped; it dies only where a queue ran out for a project nobody depends on; it is cancelled exactly when the context, asked once a queue, turns out to be done, and the run has come to the state it leaves behind. |
| Solver.Solver.TakeTop | _tools/src/github.com/golang/dep/gps/solver.go:1049-1072 | The project taken off the stack is the one whose queue is on top, so the misalignment panic is unreachable, and the root stays. |
| Solver.Solver.BacktrackTurn | _tools/src/github.com/golang/dep/gps/solver.go:1017-1100 | One turn pops down to the topmost marked queue and no further. It resumes at the first acceptable later version of that queue, or the queue is retired because no later version is acceptable and the first depender is marked, or it dies because there is no depender, or the context turns out to be done; lower queues keep their versions. |
| Solver.Solver.SelectNew | _tools/src/github.com/golang/dep/gps/solver.go:501-538 | Selects a new project at the first acceptable version of its queue, or leaves everything but the marks as it was because no queue can be had or nothing in it is acceptable, or dies where the queue is empty or there is nobody to blame. |
| Solver.Solver.AddPackages | _tools/src/github.com/golang/dep/gps/solver.go:539-586 | Adds packages of a selected project when the atom passes its checks, and otherwise leaves everything but the marks as it was; it dies only for the root project. |
| Solver.Solver.SelectRoot | _tools/src/github.com/golang/dep/gps/solver.go:610-643 | Establishes the invariant; the queue holds exactly one entry per dependency of the root, marked as its own, and no other; fails exactly when the root's imports cannot be grouped. |
| Solver.Solver.Step | _tools/src/github.com/golang/dep/gps/solver.go:480-586 | One turn of the main loop with its backtracking keeps the invariant, lowers the lexicographic measure, and extends the run of states by turns that `SolverRuns.Next` allows; it is cancelled exactly when the context turns out to be done in it. |
| SolverViews.View.EmptyQueueIsComplete | _tools/src/github.com/golang/dep/gps/solver.go:588-606 | With an empty queue every dependency of every selected atom is met and each package demanded is selected. |
| Solver.Solver.Combine | _tools/src/github.com/golang/dep/gps/solver.go:588-606 | The loops at the end build, per atom, the union of its selected packages, the root aside. |
| Solver.Solver.Solve | _tools/src/github.com/golang/dep/gps/solver.go:474-606 | Always ends, and follows a run from the root, asking once a turn whether the context is done: it is cancelled exactly when that is so, the first time it is, with the run as far as it had come. Otherwise a solution is a complete stack read off; failure is reported only when backtracking has popped every queue, each one unmarked or without an acceptable later version; a crash comes from an undeducible root, or in a state where an empty version list, the root among its own dependencies, or a vain search for a project nobody depends on is met; nothing else can happen. |
| SolverRuns.CheckMarksGrow | _tools/src/github.com/golang/dep/gps/satisfy.go:13-77 | A check only ever adds marks. |
| SolverRuns.LeftIsEmptyExactly | _tools/src/github.com/golang/dep/gps/solver.go:920-939 | The search runs to the end of the queue exactly when nothing in it is acceptable. |
| SolverRuns.RootEntriesFromRoot | _tools/src/github.com/golang/dep/gps/solver.go:610-643 | The queue that starts a run has one entry for each of the root's dependencies, no two for one project, and nothing else. |
| SolverRuns.RetreatsAlike | _tools/src/github.com/golang/dep/gps/solver.go:1311-1343 | However the entries of Go maps are visited, taking a project off leaves the same selection, dependencies and case table. |
| SolverRuns.DeadEnd | _tools/src/github.com/golang/dep/gps/solver.go:911-953 | Where the solver dies it has no other way to go: a state in which an empty list of dependencies is indexed, an empty queue is met or the root is checked again allows no next turn. |
| RunInvariant.RunInOrder | _tools/src/github.com/golang/dep/gps/solver.go:480-606 | In every state of every run the solver's invariant holds, there is one version queue for each project selected above the root, in order, and every revision that a selected atom demands is present in its source. |
| RunInvariant.BlamedExactly | _tools/src/github.com/golang/dep/gps/solver.go:941-951 | A search in vain marks the version queue of the first selection on the stack that depends on the project, unless that is the root, and no other. |
| RunInvariant.MarkedAllExactly | _tools/src/github.com/golang/dep/gps/solver.go:1190-1205 | Failing the dependers of some dependencies marks exactly their queues, the root's aside. |
| StaleEntry.IsWellBehaved | _tools/src/github.com/golang/dep/gps/solver.go:474-606 | The world with three projects, in which the newer version of the first leads to one that cannot be used, meets all the assumptions of the soundness theorem. |
| StaleEntry.RunDies | _tools/src/github.com/golang/dep/gps/solver.go:941-945 | In that world there is a sound solution, and a run of eight states from the root, each one turn after the other, that ends in indexing an empty list of dependencies. |
| Undemanded.AllDemandedExactly | _tools/src/github.com/golang/dep/gps/solver.go:1311-1343 | Taking a selection back leaves every queued project with a depender exactly when that was so before, for the project taken back too, and each project that loses its last depender was queued once at most, with the source and the packages which that depender names. |
| Undemanded.TwoAskersLeaveEntry | _tools/src/github.com/golang/dep/gps/solver.go:1260-1343 | Whenever two atoms ask for different packages of a project nobody depends on and both are taken back, the entry of the second stays behind without a depender, no package list being expanded. |
| Sources.StartAgrees | _tools/src/github.com/golang/dep/gps/satisfy.go:195-222 | At the start every queued identifier is the one its first depender names. |
| Sources.SelectingAgreesExactly | _tools/src/github.com/golang/dep/gps/satisfy.go:195-222 | Selecting an atom keeps every selected and queued identifier the one that the first depender names exactly when no project that the atom is the first to depend on has anything selected or queued under another identifier. |
| TwoSources.RunDisagrees | _tools/src/github.com/golang/dep/gps/satisfy.go:195-222 | In a well-behaved world with three projects, a run of eight states from the root, each one turn after the other, finishes with an empty queue and one project in the solution from two sources: the fork that its only depender names, and the source that the entry left over from backtracking names. |
| Sources.UnselectingAgrees | _tools/src/github.com/golang/dep/gps/solver.go:1311-1343 | Taking a selection back keeps those identifiers in agreement. |
| Sources.RunAgreesExactly | _tools/src/github.com/golang/dep/gps/satisfy.go:195-222 | A run keeps every selected and queued identifier the one that the first depender names, in all of its states, exactly when each of its turns selects nothing or finds nothing under another identifier for the projects it is the first to depend on. |
| Sources.OneNameAgrees | _tools/src/github.com/golang/dep/gps/satisfy.go:195-222 | Where no project is named by two identifiers in any manifest, every run keeps them so. |
| Sources.OneNameSolution | _tools/src/github.com/golang/dep/gps/satisfy.go:195-222 | At the end of a run in such a world each dependency is met by one atom, the only one of its project. |
| Sources.AgreeingSolution | _tools/src/github.com/golang/dep/gps/satisfy.go:195-222 | When they agree at the end, every dependency is met by the one selected atom of its project, from an equivalent source, at an admitted version, with each package there and selected. |
| Soundness.JointlySatisfiable | _tools/src/github.com/golang/dep/gps/selection.go:168-188 | In every reachable state some version satisfies all active constraints on a project. |
| Soundness.RejectionHasCulprit | _tools/src/github.com/golang/dep/gps/satisfy.go:81-104 | The composite constraint rejects a version exactly when some depender rejects it. |
| Soundness.Undo | _tools/src/github.com/golang/dep/gps/solver.go:1212-1343 | Two reachable states with the same stack have the same dependencies on every project, in the same order, and the same case table; so every balanced run of selecting and unselecting restores them. |
| Soundness.RunSatisfiable | _tools/src/github.com/golang/dep/gps/selection.go:168-188 | In every state of every run some version satisfies all active constraints on a project. |
| Soundness.RunUndoes | _tools/src/github.com/golang/dep/gps/solver.go:1212-1343 | Wherever a run comes back to a stack, the dependencies and the case table are what they were. |
| Soundness.ActiveRootsFoldApart | _tools/src/github.com/golang/dep/gps/satisfy.go:229-273 | No two projects that are depended on differ only by case. |
| Soundness.SelectedAtBase | _tools/src/github.com/golang/dep/gps/solver.go:480-560 | Every selection of a project is at the version first selected. |
| Soundness.SolutionExact | _tools/src/github.com/golang/dep/gps/solver.go:588-606 | A solution holds a package for an atom exactly when some selection above the root does. |
| Soundness.CompleteIsSound | _tools/src/github.com/golang/dep/gps/solver.go:474-606 | A complete stack is a sound solution: one version per project, packages closed under imports inside each project, every dependency of the root project and of the lists of packages the atoms were selected with met under the constraint it really carries, by every atom of its project, and every import out of a selected package or the root in one of those dependencies. `Sources.AgreeingSolution` says when the atoms are one. |
| Soundness.RootConstraintsBind | _tools/src/github.com/golang/dep/gps/solver.go:610-643 | In a sound solution, where listed and deduced roots are not above one another: every import of the root project is of a project that some atom provides it from, listed there without error, and all of whose versions are admitted by the override's constraint, or, where no override has one, by what the root's manifest lists. |
| Soundness.ListedConstraintsBind | _tools/src/github.com/golang/dep/gps/solver.go:645-790 | The same of every import of every selected package and the manifest of its own project. |
| Soundness.RootConstraintBinds | _tools/src/github.com/golang/dep/gps/solver.go:728-790 | Where roots overlap, the root's constraint binds all the same: the override's, or the listed one unless a deduction lands on its root. |
| Soundness.OverrideBinds | _tools/src/github.com/golang/dep/gps/constraint.go:383-420 | On a complete stack an override's constraint admits every atom of its project in the solution, as soon as the root or any selected atom depends on the project. |
| Soundness.ViolationIsUnsound | _tools/src/github.com/golang/dep/gps/solver.go:610-643 | A solution with a version that a constraint listed for an imported project rejects is not sound. |
| Soundness.PinnedIsUnsound | _tools/src/github.com/golang/dep/gps/solver.go:610-643 | An instance: one import, held to a revision that the selected version is not. |
| Soundness.SolveWorld | _tools/src/github.com/golang/dep/gps/solver.go:424-606 | Solving a well-behaved world ends; what it calls solved is sound; it gives up only at the end of a run that has popped every queue; and it dies only for an undeducible root or at the end of a run in a state without a next one, a version list being empty or the root importing itself in the cases of those two panics. It is cancelled exactly when the context turns out to be done when asked, which happens once a turn, at the end of a run as far as it had come, so a context that is never done leaves only the other three. The stack behind a solution is complete: every dependency that was selected is met by the version selected. |
| Soundness.WellBehavedWorldExists | _tools/src/github.com/golang/dep/gps/solver.go:474-606 | The assumptions on a world can be met by one in which there is something to solve. |
| SourceCoordinator.StepInv | _tools/src/github.com/golang/dep/gps/source.go:98-260 | Every atomic step of every thread keeps the protocol's invariant. |
| SourceCoordinator.SingleFlight | _tools/src/github.com/golang/dep/gps/source.go:98-260 | In every run a folded name has at most one leader, no thread reaches a panic, and every recorded name leads to a recorded gateway. |
| SourceCoordinator.AnsweredByLeader | _tools/src/github.com/golang/dep/gps/source.go:156-180 | A follower answers exactly what one leader of its folded name answered; any gateway returned is a recorded one. |
| SourceAnswers.ErrorHasCause | _tools/src/github.com/golang/dep/gps/source.go:98-206 | In every run an error that is answered is the reason of a step taken before: a deduction or a creation that failed, of the call itself or of the leader that told it, or the call's own cancellation. |
| SourceAnswers.GatewayWasRecorded | _tools/src/github.com/golang/dep/gps/source.go:98-260 | In every run a gateway that is answered is the one that the call's folded name led to right after a step of the call itself or of the leader that told it, or, where it answered at once, that its name led to. |
| SourceCoordinator.KnownNameIsServed | _tools/src/github.com/golang/dep/gps/source.go:103-117 | A call whose name is recorded is answered at once with the gateway it leads to. |
| SourceCoordinator.RepliesReachEachOnce | _tools/src/github.com/golang/dep/gps/source.go:169-180 | When a leader replies, each follower is listed once and its channel is empty; afterwards it holds that one reply and the list is gone. So the sends never block. |
| SourceCoordinator.NobodyStranded | _tools/src/github.com/golang/dep/gps/source.go:98-260 | While some call has not returned, some thread can step. |
| SourceCoordinator.EveryCallReturns | _tools/src/github.com/golang/dep/gps/source.go:98-260 | A run has at most six steps a call, and when no step is left every call has returned. |
| SourceCoordinator.GatewaysKept | _tools/src/github.com/golang/dep/gps/source.go:208-260 | Entries of the gateway map are never replaced or removed, and names once recorded stay recorded. |
| SourceCoordinator.CreatedIsFound | _tools/src/github.com/golang/dep/gps/source.go:208-257 | Creating a gateway records the name asked for, its folded form and both forms of the URL, all leading to the gateway that is answered. |
| SourceCoordinator.NextCallIsServed | _tools/src/github.com/golang/dep/gps/source.go:103-150 | A call for that name, up to case, that begins then gets the gateway without any leader. |
| SourceNames.UpgradesAgreeExactly | _tools/src/github.com/golang/dep/gps/source.go:137-150 | For every set of names and every relation between names and the URLs they may be deduced to: in every run of calls for those names, a name recorded again gets the URL it has, exactly when no two creations that those calls may lead to clash: one records the folded form of a called name and not the name, the other records either, for another folded name and another URL. |
| SourceNames.NamesKeepTheirURL | _tools/src/github.com/golang/dep/gps/source.go:98-260 | When no name may be deduced to a URL that is, up to case, another called name, then in every run each recorded called name has the URL of its folded form, both keep it for good, whoever creates a gateway finds the folded name unrecorded, and every name recorded again gets the URL it has. |
| SourceNames.UpgradeCanReroute | _tools/src/github.com/golang/dep/gps/source.go:137-150 | A run of four calls, where one name is the URL of another, in which a name recorded again gets another URL than it has. |
| Supervisor.Supervisor.Start | _tools/src/github.com/golang/dep/gps/source_manager.go:722-741 | Counts the call, unless cancelled. |
| Supervisor.Supervisor.Done | _tools/src/github.com/golang/dep/gps/source_manager.go:749-776 | Uncounts the call; panics exactly without an entry; signals exactly when the last call of all ended. |
| Supervisor.DoneCounts | _tools/src/github.com/golang/dep/gps/source_manager.go:749-776 | Ending a call lowers exactly its own count and keeps entries positive; it succeeds exactly when the count is positive. |
| Supervisor.CounterIsStartsMinusDones | _tools/src/github.com/golang/dep/gps/source_manager.go:704-776 | In every run a key's counter is its starts minus its dones, it has an entry exactly when that is positive, and `done` never panics. |
| Supervisor.BlockedMeansInFlight | _tools/src/github.com/golang/dep/gps/source_manager.go:764-787 | No wake-up is lost: while the waiter is blocked some call is in flight and can end. |
| Supervisor.WaitReturnsWhenQuiet | _tools/src/github.com/golang/dep/gps/source_manager.go:781-787 | With nothing in flight the waiter has returned or returns when it looks. |
| Supervisor.ReleasedMeansQuiet | _tools/src/github.com/golang/dep/gps/source_manager.go:411-432 | Once cancellation has happened and `wait` has returned, no supervised call is in flight then or ever after. |
| Supervisor.QuietForeverExactly | _tools/src/github.com/golang/dep/gps/source_manager.go:778-787 | In every run, when the waiter has just returned: nothing is in flight then or ever after exactly when the supervisor is cancelled or no call is left that could start. |
| Supervisor.WaitAloneIsNotEnough | _tools/src/github.com/golang/dep/gps/source_manager.go:778-787 | Without cancelling first a call can start after `wait` has returned. |
| IgnoredRulesets.NewIgnoredRuleset | _tools/src/github.com/golang/dep/gps/pkgtree/ignored_ruleset.go:27-67 | The sorted insertion loop yields the one trie that the set of rules determines, whatever their order and repetition. |
| IgnoredRulesets.RedundantIsFound | _tools/src/github.com/golang/dep/gps/pkgtree/ignored_ruleset.go:44-59 | The longest-prefix test finds a rule redundant exactly when an earlier wildcard covers it. |
| IgnoredRulesets.TrieAgreesExactly | _tools/src/github.com/golang/dep/gps/pkgtree/ignored_ruleset.go:71-78 | For all rules and paths the trie answers as the plain scan, except exactly where a literal rule hides every matching wildcard. |
| IgnoredRulesets.TrieAgreesOnPlainRules | _tools/src/github.com/golang/dep/gps/pkgtree/ignored_ruleset.go:71-78 | For rules without characters sorting before the asterisk the two agree on every path. |
| IgnoredRulesets.NoKeyExtendsWildcard | _tools/src/github.com/golang/dep/gps/pkgtree/ignored_ruleset.go:27-67 | For such rules no key extends a wildcard key. |
| IgnoredRulesets.LiteralHidesWildcard | _tools/src/github.com/golang/dep/gps/pkgtree/ignored_ruleset.go:27-78 | Rules `a!` and `a*`: the path `a!b` is ignored by the scan and not by the trie. |
| IgnoredRulesets.ToSlice | _tools/src/github.com/golang/dep/gps/pkgtree/ignored_ruleset.go:92-111 | Writes out each key once as the rule it stands for. |
| IgnoredRulesets.RoundTrip | _tools/src/github.com/golang/dep/gps/pkgtree/ignored_ruleset.go:27-111 | Rebuilding from `ToSlice` gives the same ruleset. |
| GopathScanner.Scanner.Dft | _tools/src/github.com/golang/dep/cmd/dep/gopath_scanner.go:273-380 | Ends; a failure it reports is a fact about the world, an import cycle in particular a chain of imports back to the package, all of which were followed; on success the grey chain is as before and the package is finished. |
| GopathScanner.Scanner.Explore | _tools/src/github.com/golang/dep/cmd/dep/gopath_scanner.go:279-361 | Finds a package's imports, listing it under its root unless it is listed there already, so that it is listed once, or gives a true reason to skip it. |
| GopathScanner.Scanner.ListDirect | _tools/src/github.com/golang/dep/cmd/dep/gopath_scanner.go:225-256 | Lists each direct dependency once under its root and puts every root of theirs down as on disk, at its version, or as absent, for cause. |
| GopathScanner.Scanner.Scan | _tools/src/github.com/golang/dep/cmd/dep/gopath_scanner.go:203-408 | On success nothing is grey, the direct dependencies and everything followed are finished, the lists hold exactly the direct and the explored packages, every package met is a direct dependency or imported by an explored one, every explored one is on disk and free of errors, roots are put down as absent only because they cannot be read on disk or lack a package that was met, and no cycle was followed; an import cycle that is reported was followed all round. |
| GopathScanner.GreyIsOnCycle | _tools/src/github.com/golang/dep/cmd/dep/gopath_scanner.go:377-378 | A grey package met again lies on a cycle of imports, all of them followed. |
| GopathScanner.NoCycleFollowed | _tools/src/github.com/golang/dep/cmd/dep/gopath_scanner.go:263-380 | Since each package was finished after all it imports, no chain of followed imports returns to its start. |
| Indexers.WindowsAreContiguous | pkg/indexer/indexer.go:224-262 | Windows follow on from one another, are not empty, are at most ten days long, and end at the last sample. |
| Indexers.PlanShape | pkg/indexer/indexer.go:278-334 | The windows of a pass start at the watermark or the first sample, advance the watermark with every window, and end at the last sample; there are none exactly when the watermark has reached it. |
| Indexers.WindowsAreTenDays | pkg/indexer/indexer.go:194-303 | Every window of a plan but the last is exactly ten days long. |
| Indexers.PlanCount | pkg/indexer/indexer.go:224-334 | There are as many windows as ten days go into the span from the watermark, or the first sample, to the last sample, rounded up; one at least for a new thing. |
| Indexers.BackedNext | pkg/indexer/indexer.go:300-334 | Pushing the next window backs the next watermark: every instant up to it has been pushed for that UID. |
| Indexers.Indexer.PushWindow | pkg/indexer/indexer.go:305-332 | One window: what is stored was sent before, whichever call fails. |
| Indexers.Indexer.IndexExistingLocation | pkg/indexer/indexer.go:267-336 | Whatever fails, what was pushed is a beginning of the plan and the stored watermark is the end of some window of it; without failures the whole plan is pushed and stored. |
| Indexers.Indexer.IndexNewLocation | pkg/indexer/indexer.go:174-265 | The same for a location not seen before, under a new UID. |
| Indexers.Indexer.IndexLocation | pkg/indexer/indexer.go:143-169 | Only this location's watermark changes, never backwards, and the first time from the first sample on; without failures it ends at the last sample, or stays where it was past that. |
| Indexers.Indexer.IndexLocations | pkg/indexer/indexer.go:119-172 | A pass keeps every watermark backed, from the same instant on, and never turns one back; without failures every location is caught up. |
| Indexers.Indexer.IndexRepeatedly | pkg/indexer/indexer.go:88-115 | The same over any number of passes under any failures. What a watermark vouches for never shrinks: everything pushed under its UID since the first sample that the location had when there was no watermark yet. |
| Bits.FmtInt | _tools/src/github.com/kevinburke/go-bindata/bits.go:5-18 | Writes the decimal digits before a position, touching nothing else. |
| Bits.FmtFrac | _tools/src/github.com/kevinburke/go-bindata/bits.go:24-42 | Writes the fraction without trailing zeros and hands back the rest of the number, touching nothing else. |
| Bits.UnitFits | _tools/src/github.com/kevinburke/go-bindata/bits.go:93-148 | In the chosen unit every magnitude has one to three digits before the point. |
| Bits.String | _tools/src/github.com/kevinburke/go-bindata/bits.go:93-148 | For every int64 the text stays within the ten characters of the buffer. |
| Bits.WrittenReadsBack | _tools/src/github.com/kevinburke/go-bindata/bits.go:90-148 | The text reads back as the sign and the magnitude in the chosen unit, truncated to three decimals, with no superfluous zero. |
| Release.JoinSplit | _tools/src/github.com/kevinburke/go-bindata/release.go:99-107 | Splitting at a separator and joining gives back the bytes. |
| Release.PiecesAreFree | _tools/src/github.com/kevinburke/go-bindata/release.go:99-107 | No piece contains the separator. |
| Release.SanitizeChunks | _tools/src/github.com/kevinburke/go-bindata/release.go:120-142 | The recursion writes the balanced concatenation of the chunks' literals. |
| Release.ReadPrinted | _tools/src/github.com/kevinburke/go-bindata/release.go:120-142 | The printed concatenation parses and evaluates to the chunks in order (The Go Programming Language Specification, section "String literals"), carriage returns lost; a raw part with a backquote or a byte-order mark would not parse. |
| Release.Sanitize | _tools/src/github.com/kevinburke/go-bindata/release.go:99-118 | Fails exactly on empty input; otherwise what is printed evaluates to the input without carriage returns, and to the input itself exactly when it has none. |
| Release.NothingLostExactly | _tools/src/github.com/kevinburke/go-bindata/release.go:97-118 | Discarding carriage returns changes nothing exactly when there are none. |

## Left out

- Solver.Solver.Solve: whether a solution is found when one exists, whether it is minimal, and which one it is among several, the code does not promise.
- Soundness.SolveWorld: nothing is promised of what lies behind packages that the root project ignores; that imports are lost when grouping overwrites is stated by `ImportGroups.LosslessExactly`.
- Selection.Unselected.Push: the heap order and the comparison of entries behind it; any element may come next.
- Solver.Solver.CreateVersionQueue: the branch for the root project, which no caller reaches, and projects that exist only in `vendor`, which the source marks as not working.
- Solver.Solver.GetLockVersionIfValid: `breakLock`, which starts background fetches when the lock no longer holds.
- SourceCoordinator.SingleFlight: the lock that creation holds while it replies is not modelled, so the runs considered include more interleavings than can happen; setting up a source for a URL is one step that succeeds or fails.
- Supervisor.Supervisor.Done: durations; only the number of finished calls per type is kept.
- GopathScanner.Scanner.Scan: constraints read from versions on disk, and the background fetches.
- Indexers.Indexer.IndexRepeatedly: two indexers at work on one location at the same time; choosing the next identity; the delay between windows; channels and readings as content; sample times before Go's zero time.
- Release.Sanitize: input that is not valid UTF-8 or contains a zero byte, which a Go compiler may refuse in source text, is printed and read back as bytes.
- Completeness of the solver, and restoration of the queue of unselected work by backtracking: the code guarantees neither.
- Parsing of semantic versions and ranges, and the inside of the radix tree: a semantic version is a position on a line, a range a union of intervals, the tree a map with a longest-prefix query.
- The branches of `Solve` that validate parameters and build the root's data; the root manifest and import list come as given.
- Prefetching, `breakLock`, tracing, metrics, contexts beyond cancelled or not, and the text of errors.
- Version control, URL deduction, the caches and their encodings, lock files, and `SafeWriter`.
- Kudzu's HTTP handlers, middleware, SQL, metrics, command line and JSON types, and the generated migration assets.
- The conversions `Bytes` to `Gigabytes` of go-bindata, which divide floating-point numbers.
