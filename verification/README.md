# Verified model of bettor-arena's transactions, ledgers, module graph and wiki passes

This project models five parts of bettor-arena in Dafny and proves what they keep over whole
runs. `dafny verify dfyconfig.toml` checks everything.

**Project transaction** (`ProjectTypes`, `ProjectTransaction`, `ProjectHistory`,
`ProjectPlanning`, `ProjectWitnesses`). A target repository is a class `Target` with its
working files, its embedded clone and its HEAD. `Apply` checks a signed plan and then clones,
writes and deletes file by file, writes the managed manifest and the receipt; any of these
steps may fail, and the undo then runs in reverse. `Rollback` undoes a successful apply from
its receipt. The main results:

- A failed apply gives back the bytes of every path, the manifest and the clone, whichever
  step failed. Modes are given back only sometimes: the undo writes a file with the mode it
  was to have *after* the apply. `UndoIsExactIff` says exactly when the whole tree comes back.
- An apply can be rolled back at once if and only if its plan names each path consistently and
  keeps off the manifest and the receipt (`FreshRollbackIff`). The rollback then restores the
  tree if and only if the manifest carried by the plan has the digest the plan states:
  `verifyPlan` never compares the two (`FreshRollbackRestoresIff`). Later it can be, whatever
  else changed, if and only if the manifest and every planned path have the bytes the apply
  gave them and the clone it made is clean at its commit (`LaterRollbackIff`,
  `ChangedCloneIsRefused`). Receipts survive their rollback, and one left on a path that an
  older pending plan names blocks that plan's own rollback, exactly then
  (`LeftoverReceiptBlocksIff`). `ProjectWitnesses` gives an input for each failure. A
  generated plan can be rolled back if and only if manifest and receipt are no planned paths
  (`PlannedIsAccepted`).
- Over any run of applies, failed applies and rollbacks that meets these conditions the tree
  is the start with the pending applies replayed on it, receipts aside. A receipt of the run
  is accepted if and only if its plan is the newest pending one. So a rollback out of order is
  refused, and so is a used receipt until its plan is the newest pending one again
  (`UsedReceiptReturns`); rolling back newest first always succeeds and ends at the start. A
  receipt that no apply wrote is accepted too if its own digest, the manifest and the files
  and clone it names all match (`StrangeReceiptIsAccepted`); it does what the newest apply's
  own does exactly when the two undo alike (`SameUndoIff`), and such rollbacks may be part of
  the runs.
- A generated plan is accepted on a later tree if and only if nothing it depends on has
  changed. After the apply the project verifies, whatever else changed in between, if and only
  if neither the receipt nor the manifest was written over a desired file
  (`AppliedVerifiesIff`); a receipt path given by the caller may be one
  (`ReceiptOverDesiredFile`). As long as that manifest stays it verifies exactly when every
  desired file has its bytes and mode and the clone is clean at its commit (`VerifiesIff`),
  and a new plan can start from it exactly for the same project and while the files have their
  bytes (`UsableIff`).

**Module graph** (`ModulePaths`, `ModuleOwnership`, `ModuleCatalog`, `ModuleComponents`,
`ModuleResolver`, `ModuleComposition`, `ModuleClosure`, `ModuleLock`, `ModuleSubjects`,
`ModuleBindings`). Who owns a path is said by components: a module if it alone has a root that
leads to the path, else the one fallback class with a prefix of it (`AssignedIffBelongs`); a
tree is accepted exactly when every path belongs somewhere and no class prefix is idle. The
resolver worklist returns the least provider-closed set containing the request, and on a
request that both resolvers read, Python accepts exactly what TypeScript accepts without an
undeclared component name that every JavaScript object inherits (`ResolversAgreeIff`,
`InheritedNameSplitsResolvers`). The memoised depth-first walk of the proof subjects computes
a recursive closure and raises if and only if the graph has a cycle. The resolver itself
accepts cycles (`CyclicCatalogResolves`), and a resolved lock closes if and only if its
provider relation has none. Two closures are equal if and only if the two graphs agree on
everything reachable, which gives exact invalidation for the edit of one index entry and for a
change of the shared skill digests; on an accepted ownership snapshot a plain file invalidates
exactly the modules that reach its one owner.

**Effect ledger** (`HexDigests`, `EffectTypes`, `EffectReducer`, `EffectHistory`,
`EffectTraces`, `EffectAdmission`, `EffectCompensation`). A fold over a hash-chained history
drives 21 states. Which histories are accepted is said of the events alone (`AcceptedIff`),
and for every state the sequences of states that lead there are characterised completely, both
ways (`TracesAreExactly`); equal history heads mean equal histories; every commit proposal of
the provider boundary is backed by a history the ledger accepts; a compensation link is built
exactly under a stated condition. The observations that admit an effect bind its identity,
job, task, attempt, bindings, version and target subject, and neither the provider's resource
nor the request digest (`ObservationsBindExactly`, `TargetAndDigestAreFree`). The link
validator compares the keys a link states, never the two identities: a validated child is
another effect than its parent exactly when these differ, and may be the parent itself
(`ValidatedChildDiffersIff`, `ValidatedChildMayBeParent`).

**Offload workflow** (`WorkflowReducer`, `WorkflowRuns`, `WorkflowBoundaries`,
`WorkflowAcceptance`, `WorkflowLayers`). A second such fold has 26 states, all of them
reached, and its accepted histories too are characterised by their events alone, as are those
that each boundary layer lets through (`OperationalIff`, `HumanIff`, `CompensationIff`). State
changes number at most 10 + 5 for every retry and human wait, and this bound is attained.
Human waits themselves are not bounded. The three boundary layers are proved against the
reducer. The retry layer keeps attempt names distinct in every accepted history if and only if
the job allows at most one retry (`AttemptsDistinctIff`). The human layer does not ensure that
a wait ends with a human decision: an ordinary admission leaves it too (`WaitLeftUndecided`),
and of two resolved waits one is always undecided. `WaitsAreDecidedIff` says exactly when
every wait is decided.

**OpenWiki text passes** (`FenceLines`, `MermaidFences`, `MermaidEdits`, `LinkStamps`,
`PageAnchors`, `WikiLinks`). The fence automaton and the bottom-up splices are proved against
a grammar of blocks. Degrading is idempotent for every heuristic and leaves what every fence
holds. The reason it shows, before it is cut to 400 characters, still holds two dashes in a
row exactly when the heuristic gave three (`DoubleDashIff`). The link pass works in place on a
class `Wiki`, reads pages it has already rewritten, and still computes a function of the
starting files only: above each line it stamps exactly the links that do not land, and it
counts exactly those (`IssuesAreBroken`, `FoundAreBroken`).

Conventions. SHA-256 is symbolic: a digest is a constructor applied to the hashed value, so it
is injective and no value contains its own digest. JSON and base64 encodings disappear with
it. The working tree is a map from normal paths to contents and modes, and a write is
all-or-nothing. Identifiers and paths are wrapped strings compared by code point. What the
code obtains from outside (the file tree, the Git index, the heuristic, the link matcher, the
heading slugs) is a parameter.

## Model

| member | source | states |
|---|---|---|
| ProjectTransaction.Target.VerifyPlan | scripts/project_transaction.ts:127-144 | a plan passes exactly when its digest is its own and every item's payloads match their digests and its action; nothing is asked of the carried manifest |
| ProjectTransaction.Target.CheckApply | scripts/project_transaction.ts:202-221 | the checks before the first write succeed exactly when plan, release tree, HEAD, manifest, every listed path, clone and receipt path are as the plan says |
| ProjectTransaction.Target.Apply | scripts/project_transaction.ts:197-257 | it succeeds exactly when the checks do and no step fails; then the state is the committed one; a refused call changes nothing; a failed step leaves the pre-state up to modes, whichever step it was |
| ProjectTransaction.Target.UndoApplied | scripts/project_transaction.ts:250-256 | the catch block restores the pre-state up to modes from any tree that differs from it only on the applied paths and the manifest |
| ProjectTransaction.Target.Rollback | scripts/project_transaction.ts:280-300 | it is accepted exactly when manifest, every path and clone are as the receipt says; then the reversed items and the old manifest are in place; a refusal changes nothing |
| ProjectTransaction.BackwardAt | scripts/project_transaction.ts:296-297 | undoing in reverse leaves each path with the bytes of the FIRST item that names it and that item's own mode |
| ProjectTransaction.ForwardAt | scripts/project_transaction.ts:229-234 | applying in order leaves each path with the bytes its items prescribe |
| ProjectTransaction.ForwardElsewhere | scripts/project_transaction.ts:229-234 | no path outside the plan changes |
| ProjectTransaction.UndoneAt | scripts/project_transaction.ts:251-253 | each path is restored from any partly applied tree |
| ProjectHistory.UndoIsExactIff | scripts/project_transaction.ts:250-256 | a failed apply restores all bytes, and restores modes too exactly when each touched file already had the mode its first item prescribes and the manifest had 644 |
| ProjectHistory.UndoneModes | scripts/project_transaction.ts:146-152 | the undo of a valid plan leaves a file it was to write with the mode it was to get, a file it was to delete with 644, and every other mode as it was |
| ProjectHistory.NoSelfReference | scripts/project_transaction.ts:182-195 | no item of a plan can contain the manifest or the receipt made from that plan |
| ProjectHistory.DocumentsAgree | scripts/project_transaction.ts:182-248 | the manifest and the receipt an apply leaves, both with mode 644, agree with each other, with the plan, and with the manifest bytes before and after |
| ProjectHistory.FreshRollbackIff | scripts/project_transaction.ts:280-295 | rolling an apply back at once is accepted if and only if the plan is consistent and keeps off the manifest and the receipt |
| ProjectHistory.LaterRollbackIff | scripts/project_transaction.ts:287-295 | later, with anything else changed and the receipt anywhere, the rollback of an undoable apply is accepted if and only if the manifest and every planned path have the bytes the apply gave them and the clone it made is clean at its commit |
| ProjectHistory.FreshRollbackRestoresIff | scripts/project_transaction.ts:242-243 | and restores the tree, modes and the receipt aside, if and only if the manifest carried by the plan matches its stated digest |
| ProjectHistory.ApplyPushes | scripts/project_transaction.ts:197-249 | an accepted apply is layered on the pending ones, and its manifest is deeper than the start's |
| ProjectHistory.FailureKeeps | scripts/project_transaction.ts:250-256 | a failed apply leaves every byte, the clone and the pending applies |
| ProjectHistory.RollbackPops | scripts/project_transaction.ts:280-300 | the newest pending apply can always be rolled back from its own receipt, which leaves the older ones layered as they were |
| ProjectHistory.RollbackAt | scripts/project_transaction.ts:296-298 | any accepted receipt restores its own manifest, and each path as its first item for it says |
| ProjectHistory.SameUndoIff | scripts/project_transaction.ts:283-299 | two receipts accepted on a tree have the same effect if and only if they restore the same manifest and paths and agree on the clone |
| ProjectHistory.AcceptedIffNewest | scripts/project_transaction.ts:287-295 | a receipt of the run is accepted if and only if its plan is the newest pending one |
| ProjectHistory.RunKeepsStack | scripts/project_transaction.ts:197-300 | every run of applies, failed applies and rollbacks keeps its pending applies layered on the start |
| ProjectHistory.RunsConserveTheTree | scripts/project_transaction.ts:197-300 | after any such run the tree is the start with the pending applies replayed, receipts aside; with none pending every path of the start has its bytes and only receipts are new; a receipt is accepted exactly when its plan is the newest pending one |
| ProjectHistory.LayersReplay | scripts/project_transaction.ts:229-235 | layered applies leave each path outside the receipts as replaying them on the start does |
| ProjectHistory.UnwindingReturnsToStart | scripts/project_transaction.ts:280-300 | rolling all pending receipts back newest first always succeeds and returns to the start |
| ProjectWitnesses.UsedReceiptReturns | scripts/project_transaction.ts:287-295 | apply, roll back and apply the same plan again with another receipt: the used receipt is then accepted again |
| ProjectWitnesses.LeftoverReceiptBlocksIff | scripts/project_transaction.ts:291-293 | after a second apply was rolled back the first can be rolled back if and only if the second's receipt does not lie on a path of the first plan |
| ProjectWitnesses.LeftoverReceiptOccurs | scripts/project_transaction.ts:218-221 | a receipt written where an older plan deleted a file is such an input |
| ProjectWitnesses.AcceptedButNotRollbackable | scripts/project_transaction.ts:280-293 | a plan that writes its own receipt's path is applied and cannot be rolled back |
| ProjectWitnesses.AcceptedButNotRestored | scripts/project_transaction.ts:127-144 | a plan that carries a manifest its digest does not vouch for is applied and rolled back, and leaves that manifest |
| ProjectWitnesses.FailedApplyChangesMode | scripts/project_transaction.ts:251-252 | a failed apply gives an executable file back without its mode |
| ProjectWitnesses.ReceiptOverDesiredFile | scripts/project_transaction.ts:218-221 | with a desired file as receipt path on a fresh target, planning and applying succeed, verification fails and the rollback is refused |
| ProjectWitnesses.StrangeReceiptIsAccepted | scripts/project_transaction.ts:283-293 | a document that names the current manifest and no file is accepted like the apply's own receipt, and leaves the applied file |
| ProjectWitnesses.ChangedCloneIsRefused | scripts/project_transaction.ts:294-295 | an embedded project whose clone was moved to another commit, edited or removed since the apply cannot be rolled back; left alone, it can |
| ProjectPlanning.LoadManaged | scripts/project_transaction.ts:45-72 | the manifest is usable exactly when its digest is its own, its paths are distinct and current, and it is this project's |
| ProjectPlanning.PlanProject | scripts/project_transaction.ts:87-124 | planning succeeds exactly when the manifest is usable and no unmanaged file is in the way, and yields the plan that compares each desired or listed path with the tree |
| ProjectPlanning.PlanItems | scripts/project_transaction.ts:93-109 | one item for each path, refused exactly on an unmanaged conflict |
| ProjectPlanning.VerifyProject | scripts/project_transaction.ts:259-278 | verification passes exactly when every listed path has its digest and mode and the clone is at its commit |
| ProjectPlanning.PlannedIsAccepted | scripts/project_transaction.ts:202-221 | a plan generated on one tree is accepted on another if and only if HEAD, the manifest and every planned path are as they were and release, clone and receipt allow it; it can be rolled back if and only if manifest and receipt are no planned paths |
| ProjectPlanning.GeneratedCanBeUndoneIff | scripts/project_transaction.ts:74-124 | once planning succeeded, the plan can be rolled back if and only if manifest and receipt are no desired files and the receipt is no listed path; a usable manifest never lists itself |
| ProjectPlanning.ApplyKeepsUnmanagedFiles | scripts/project_transaction.ts:94-99 | however the tree changed since planning, an accepted apply never changes an existing file that the manifest in force did not list with its current digest |
| ProjectPlanning.AppliedVerifiesIff | scripts/project_transaction.ts:197-278 | after an apply of a generated plan, on whatever tree and with whatever receipt path, verification passes if and only if neither the manifest nor the receipt was written over a desired file |
| ProjectPlanning.VerifiesIff | scripts/project_transaction.ts:259-278 | while that manifest stays, verification passes if and only if every desired file has its bytes and mode and an embedded clone is clean at its commit: every drift is detected |
| ProjectPlanning.UsableIff | scripts/project_transaction.ts:87-91 | while that manifest stays, planning can start from it if and only if the project is its own and every desired file has its bytes |
| ProjectPlanning.UsableListsOnce | scripts/project_transaction.ts:55-65 | a usable manifest names each path once |
| ProjectPlanning.AppliedIsManagedIff | scripts/project_transaction.ts:182-195 | the new manifest lists exactly the desired files; it is usable if and only if no other write lies over one of them and the project is its own, and then they have their bytes and modes |
| ProjectPlanning.ReplanIsIdentityIff | scripts/project_transaction.ts:87-109 | planning the same files again is possible if and only if no other write lies over one of them and the project is the same, and then plans only writes that leave each file as it is |
| ProjectPlanning.RequestIsBound | scripts/project_transaction.ts:110-124 | two requests give plans with one digest if and only if they are the same request, and the manifest an apply leaves names its project, mode and release |
| ProjectPlanning.DigestsIdentify | scripts/project_types.ts:131-142 | two plans, two receipts or two manifests that are accepted anywhere and share a digest are the same document |
| ProjectPlanning.EntriesAreWrites | scripts/project_transaction.ts:189-191 | the manifest lists exactly the written items |
| ModulePaths.MatchesIffPrefix | scripts/arena_ownership.py:102-103 | on normal paths the string test is the component-prefix test |
| ModulePaths.SplitJoin | scripts/arena_ownership.py:90-99 | splitting a normal path undoes joining it |
| ModulePaths.CommonPathOverlaps | scripts/arena_modules.py:261-267 | two prefixes that match the same path overlap as roots |
| ModulePaths.NormalizedIff | scripts/arena_ownership.py:90-99 | a path has a normal form if and only if it is not blank, not absolute, has no parent step and names something; the normal form has its components, empty ones and dots left out |
| ModulePaths.NormalizingTwice | scripts/arena_ownership.py:90-99 | a normal form is its own normal form unless it is blank |
| ModuleOwnership.ValidateOwnership | scripts/arena_modules.py:270-281 | the catalog is accepted exactly when no two modules' roots overlap |
| ModuleOwnership.DisjointRootsOwnOnce | scripts/arena_ownership.py:199-208 | if the roots were accepted, no path has two owners and no path is reported multiply owned |
| ModuleOwnership.DisjointIffOwnedOnce | scripts/arena_modules.py:270-281 | the roots are accepted if and only if no path lies under roots of two modules |
| ModuleOwnership.AssignedIffBelongs | scripts/arena_ownership.py:197-240 | a path is assigned to a module if and only if that module alone has a root whose components start the path; it is assigned to a class and kind if and only if no module has such a root, every class with a prefix of it has that id, the first one has that kind, and it is no implementation file among generated or evidence files |
| ModuleOwnership.RefusalExplains | scripts/arena_ownership.py:207-236 | each refusal names its reason: two modules lead to the path, nothing does, two classes do, or an implementation file lies among generated or evidence files |
| ModuleOwnership.FullyCoveredIff | scripts/arena_ownership.py:180-247 | a tree is accepted if and only if it is not empty, every path belongs to one owner in these terms, and every class prefix leads to a path that belongs to the class |
| ModuleOwnership.AssignAll | scripts/arena_ownership.py:197-240 | the loop collects no error exactly when every path has one owner, and then assigns each path in order; every error it collects says why some path has none |
| ModuleOwnership.Classify | scripts/arena_ownership.py:180-261 | it succeeds exactly when the tree is non-empty, every path belongs to exactly one module or class by its components and every fallback prefix is used; the snapshot is then one assignment a path, in path order, to where it belongs, with the multiplicities of the owners as counts |
| ModuleOwnership.StalePrefixes | scripts/arena_ownership.py:242-244 | exactly the fallback prefixes that no assigned path uses are reported |
| ModuleOwnership.CountOwners | scripts/arena_ownership.py:249-252 | the counts are the owners' multiplicities, so they sum to the tracked files |
| ModuleCatalog.ValidateCapabilities | scripts/arena_modules.py:284-294 | it succeeds exactly when no capability has two providers, and returns the provider of every provided capability and of nothing else |
| ModuleComponents.MergeSelections | scripts/project_resolver.ts:61-71 | the merged request names the modules of both lists and asks of each the union of what its entries ask |
| ModuleComponents.ChooseComponents | scripts/arena_modules.py:359-389 | the selection is accepted exactly when each module's components include its required ones and are declared or, where the check inherits names, inherited; a module pulled in as a provider is never the cause of a refusal |
| ModuleComponents.MergingKeepsAcceptable | scripts/project_resolver.ts:123-142 | merging a project into an acceptable preset stays acceptable if and only if the project asks only for declared or inherited names |
| ModuleComponents.StrictIffNoneInherited | scripts/project_resolver.ts:131 | the Python check is the TypeScript check without undeclared names that every object inherits |
| ModuleComposition.Compose | scripts/arena_modules.py:341-389 | a request is composed if and only if it is solvable and its least selection is conflict-free with acceptable components; the result is that composition |
| ModuleComposition.ComposedUnique | scripts/arena_modules.py:341-389 | a request has at most one composition |
| ModuleComposition.ComposesIff | scripts/arena_modules.py:341-389 | a composition is the least conflict-free selection in which a requested module takes exactly what was asked, which holds its required components and only known ones, and any other takes its required ones |
| ModuleComposition.UnprovidedNeedIff | scripts/arena_modules.py:348-357 | a need that nothing provides is met if and only if its name starts with `external:` |
| ModuleComposition.ResolveEntries | scripts/arena_modules.py:297-389 | the Python resolver accepts exactly the non-empty lists of distinct entries that are composable with declared components only |
| ModuleComposition.ReadEntries | scripts/project_types.ts:267-275 | a request is read exactly when it names each module once |
| ModuleComposition.ResolveMerged | scripts/project_resolver.ts:61-142 | the TypeScript resolver accepts exactly the presets and distinct project entries, together non-empty, whose merged request is composable with declared or inherited names |
| ModuleComposition.ResolversAgreeIff | scripts/project_resolver.ts:129-132 | on a request that both read, however ordered or split, Python accepts exactly what TypeScript accepts without an undeclared inherited name; what both accept gets the same modules and components |
| ModuleComposition.InheritedNameSplitsResolvers | scripts/project_resolver.ts:131 | an entry that asks for the component `constructor` besides its required one is accepted by TypeScript and refused by Python |
| ModuleResolver.Worklist | scripts/arena_modules.py:341-357 | the worklist ends with the least provider-closed set containing the request, or fails exactly when some demanded module is unknown or lacks a provider |
| ModuleResolver.Providers | scripts/arena_modules.py:348-357 | one module's providers are exactly the modules that provide what it needs |
| ModuleResolver.Resolve | scripts/project_resolver.ts:91-126 | a resolution is the least closed selection and conflict-free; every refusal is a missing provider, an unknown module, a doubled provider or a conflict inside the least closed selection |
| ModuleResolver.LeastClosedUnique | scripts/arena_modules.py:322-357 | the selection depends on the requested set only, so order and repetition of the request make no difference |
| ModuleResolver.ModuleClosureOf | loopctl/mcp_execution.ts:72-98 | the closure of one module is the sorted least closed set containing it, and fails exactly when that does not exist |
| ModuleResolver.DependenciesOf | scripts/arena_proof.py:263-275 | one module's dependency list names each needed capability in order with its provider, and fails exactly when a provider lies outside the selection |
| ModuleResolver.DependencyMap | scripts/arena_proof.py:257-276 | the map exists exactly when every need of a selected module is external or met inside the selection; no provider leaves it |
| ModuleResolver.ResolvedIsSelfContained | loopctl/mcp_execution.ts:72-98 | on a resolved lock the dependency map and each module's closure never miss a provider and stay inside the lock |
| ModuleResolver.RestrictedSolvableIff | loopctl/mcp_execution.ts:72-98 | read back from the selected manifests alone, every selected module resolves if and only if no need is unmet inside the selection |
| ModuleResolver.EdgesAreProviders | scripts/arena_proof.py:263-275 | the edges of the proof graph are exactly the provider relation, in which the resolver never looks for cycles |
| ModuleClosure.ClosureIffAcyclic | scripts/arena_proof.py:286-317 | a module has a closure if and only if no walk from it repeats a module, self-loops included |
| ModuleClosure.ClosedIsAcyclic | scripts/arena_proof.py:289-290 | a closure at any depth rules out a repeating walk |
| ModuleClosure.OpenHasLongWalk | scripts/arena_proof.py:293-311 | a missing closure yields a walk longer than the depth |
| ModuleClosure.CloseMonotone | scripts/arena_proof.py:286-317 | looking deeper never changes a closure once found |
| ModuleClosure.EqualClosuresAgree | scripts/arena_proof.py:312-314 | equal closures have equal local subjects and dependency lists along every walk |
| ModuleClosure.AgreeingGraphsClose | scripts/arena_proof.py:312-314 | graphs that agree on everything reachable have equal closures |
| ModuleClosure.ExactInvalidation | scripts/arena_proof.py:279-321 | a module's closure is the same in two acyclic worlds if and only if they agree on every module it reaches |
| ModuleClosure.Closer.Visit | scripts/arena_proof.py:286-317 | the memoised visit returns the recursive closure, keeps the memo correct and the callers' set unchanged, and raises only if a cycle is within reach |
| ModuleClosure.Closer.CloseSubjects | scripts/arena_proof.py:279-321 | all modules are closed, each with its own closure, if and only if the graph is acyclic |
| ModuleLock.AcyclicIffFeeds | scripts/arena_proof.py:257-321 | the proof graph of a selection is acyclic if and only if its provider relation is |
| ModuleLock.CloseLock | scripts/arena_proof.py:336-338 | dependency map and closures of a selection exist if and only if no need is unmet inside it and no chain of providers comes back |
| ModuleLock.ResolvedClosesIffAcyclic | scripts/arena_proof.py:328-338 | on a resolved lock nothing is missing, and every subject closes if and only if the provider relation is acyclic |
| ModuleLock.CyclicCatalogResolves | scripts/arena_modules.py:341-357 | two modules that need each other resolve without conflict and never close |
| ModuleSubjects.ProjectedModulePaths | scripts/arena_proof.py:95-111 | each selected module's file list is the sorted set of the paths projected to it |
| ModuleSubjects.ManifestOwnerIff | scripts/arena_proof.py:95-111 | a path is the implicit file of a selected module if and only if it is `.arena/modules/`, its name and `/module.json` |
| ModuleSubjects.FileListIff | scripts/arena_proof.py:95-111 | a path is in a module's file list if and only if it is that module's own manifest, or the module owns it and it is no selected module's manifest and no release projection |
| ModuleSubjects.LocalChangesIff | scripts/arena_proof.py:225-254 | editing one index entry changes a local subject if and only if the path is one of its files, repo-owned skill entries or runtime entries |
| ModuleSubjects.SkillsChange | scripts/arena_proof.py:153-207 | the skill inputs change if and only if the path lies under a repo-owned skill |
| ModuleSubjects.EditInvalidatesExactly | scripts/arena_proof.py:225-321 | with manifests, bindings, classes and selection fixed, editing one entry changes exactly the closures of modules that reach a module with that path among its inputs |
| ModuleSubjects.SnapshotHasOneOwner | scripts/arena_ownership.py:197-240 | an accepted snapshot gives each path one owner |
| ModuleSubjects.FileListsAreDisjoint | scripts/arena_proof.py:95-111 | on such a snapshot no path is in two modules' file lists |
| ModuleSubjects.OwnedEditInvalidatesExactly | scripts/arena_proof.py:225-321 | on such a snapshot, editing a file that is no skill or runtime entry changes exactly the closures of the modules that reach its one owner, and none if it has no owner |
| ModuleBindings.SkillListed | scripts/arena_proof.py:178-207 | the skill inputs are exactly the required skills with their digest or none, the optional ones that have a digest, and the repo-owned ones with the entries under their directories |
| ModuleBindings.LocalCounts | scripts/arena_proof.py:210-254 | the counted files are the digested ones, and the runtime input is absent if and only if no profile or no runtime entry exists |
| ModuleBindings.InputsSameIff | scripts/arena_proof.py:178-200 | a change of the shared digests leaves the skill inputs if and only if every required skill keeps its digest and every optional one too, an empty digest counting as none |
| ModuleBindings.BindingInvalidatesExactly | scripts/arena_proof.py:178-321 | a change of the shared digests changes exactly the closures of the modules that reach one whose skills it touches |
| EffectReducer.Reduce | loop_wiki/dual-agent-effect-ledger/effect_reducer.py:216-287 | the loop computes the left fold over the history, with its first refusal, its head and its length |
| EffectReducer.FoldPrefix | loop_wiki/dual-agent-effect-ledger/effect_reducer.py:225-228 | accepted histories are prefix-closed, and a history fails as its first refused prefix does |
| EffectReducer.AcceptedIsLinked | loop_wiki/dual-agent-effect-ledger/effect_reducer.py:113-129 | an accepted history is chained from the root, and each digest is its own event's |
| EffectReducer.EqualHeadsEqualHistories | loop_wiki/dual-agent-effect-ledger/effect_reducer.py:113-139 | two accepted histories with equal heads are identical event for event |
| EffectReducer.RootMeansEmpty | loop_wiki/dual-agent-effect-ledger/effect_reducer.py:220-225 | only the empty history has the root as its head |
| EffectReducer.ChainEvents | loop_wiki/dual-agent-effect-ledger/effect_reducer.py:100-110 | the loop builds the chain event by event |
| EffectReducer.ChainPasses | loop_wiki/dual-agent-effect-ledger/effect_reducer.py:81-140 | chained events always pass the sequence, predecessor, identity and digest checks: the chain is accepted exactly when its payloads are clean and fold |
| EffectHistory.ShapeExtends | loop_wiki/dual-agent-effect-ledger/effect_contract.py:65-78 | every transition extends the shape a history with that state must have, for all 21 states |
| EffectHistory.LedgerInvariantHolds | loop_wiki/dual-agent-effect-ledger/effect_reducer.py:225-287 | every accepted history has a trace of its state's shape, attempts of distinct ids on the request, readbacks of its own target at the expected version, and a commit count that is 1 exactly when committed |
| EffectHistory.CommittedHistories | loop_wiki/dual-agent-effect-ledger/effect_reducer.py:256-287 | a committed history went once through the six admission states in order, once into the attempt, then by an observation straight to the commit, perhaps by way of an unknown result and reconciliations; it holds an attempt and a fitting readback and counts one commit; others count none |
| EffectHistory.EntriesAreBacked | loop_wiki/dual-agent-effect-ledger/effect_reducer.py:261-271 | entering the attempted state finds an attempt on record, and committing finds a fitting latest readback |
| EffectHistory.AcceptedEventsAreAuthorised | loop_wiki/dual-agent-effect-ledger/effect_reducer.py:130-287 | every event of an accepted history carried no secret and no foreign writer, was recorded by the ledger itself, repeated no attempt, retried nothing unresolved, hid no unresolved effect behind a finished task, and committed on no unknown result |
| EffectHistory.CommittedTracesOccur | loop_wiki/dual-agent-effect-ledger/effect_contract.py:65-78 | conversely every such trace, with any number of reconciliations, is that of an accepted history |
| EffectHistory.AcceptedSpecs | loop_wiki/dual-agent-effect-ledger/effect_reducer.py:225-287 | an accepted history folds as its unchained events do |
| EffectTraces.TracesAreExactly | loop_wiki/dual-agent-effect-ledger/effect_contract.py:65-78 | for each of the 21 states, the state sequences of accepted histories ending there are exactly the stated ones: the admission states cut short by a refusal, or followed by the outcome of the attempt, reconciliations, and a commit or a compensation |
| EffectTraces.EveryStateIsReached | loop_wiki/dual-agent-effect-ledger/effect_contract.py:65-78 | every state is reached by an accepted history, along a written-out route |
| EffectTraces.FoldsIffPermitted | loop_wiki/dual-agent-effect-ledger/effect_reducer.py:225-287 | events fold if and only if each is permitted after those before it, said of the events alone; the ledger then holds the last state named and every attempt and readback recorded, in order |
| EffectTraces.AcceptedIff | loop_wiki/dual-agent-effect-ledger/effect_reducer.py:113-287 | a history is accepted if and only if every event is chained to the one before it under its own digest and permitted after the events before it |
| EffectTypes.StatesDivide | loop_wiki/dual-agent-effect-ledger/effect_contract.py:60-78 | the terminal states are exactly those without a transition, the unresolved ones reconciliation and the state that can only go there |
| EffectAdmission.Reserve | loop_wiki/dual-agent-effect-ledger/effect_reducer.py:143-157 | a candidate is accepted exactly when it is valid and distinct from every entry; accepted candidates keep identities distinct and entries sharing an effect id or key in one scope with one request digest; on such lists the answer is the order-free verdict |
| EffectAdmission.DuplicateIff | loop_wiki/dual-agent-effect-ledger/effect_contract.py:384-396 | requests sharing an effect id or a key clash in another tenant or project or with another request digest, and are one effect if they share both; sharing one only they are two |
| EffectAdmission.DuplicateClashesWithNone | loop_wiki/dual-agent-effect-ledger/effect_contract.py:384-396 | an entry identical to the candidate rules out a clash anywhere in the list |
| EffectAdmission.VerdictIgnoresOrder | loop_wiki/dual-agent-effect-ledger/effect_reducer.py:143-157 | accept, duplicate or refuse does not depend on list order, and an accepted request submitted again is a duplicate |
| EffectAdmission.ObservationsBindExactly | loop_wiki/dual-agent-effect-ledger/effect_policy_gate.py:86-196 | observations that admit one request admit exactly the valid requests with the same effect, job, task, attempt, bindings, version and target subject (and strong approval if irreversible) |
| EffectAdmission.TargetAndDigestAreFree | loop_wiki/dual-agent-effect-ledger/effect_policy_gate.py:86-152 | the provider's resource and the request digest of an admitted request can be replaced and the same observations still admit it |
| EffectAdmission.AuthorizedIff | loop_wiki/dual-agent-effect-ledger/effect_policy_gate.py:86-196 | a valid request is admitted by exactly one policy observation an epoch, one approval and one precondition, all fixed by the request, and an irreversible write only under the strong rule |
| EffectAdmission.EvidenceBindsOneAttempt | loop_wiki/dual-agent-effect-ledger/effect_provider_adapter.py:98-210 | a provider result and a readback support one attempt on one target over one route, and give one proposal |
| EffectAdmission.ProposedIff | loop_wiki/dual-agent-effect-ledger/effect_provider_adapter.py:52-210 | for an admitted request a commit is proposed if and only if the result and the readback report its attempt on its target at the expected version, without failure or a claim of a commit, over one route and a secret handle |
| EffectAdmission.ProposedStateFollows | loop_wiki/dual-agent-effect-ledger/effect_provider_adapter.py:124-144 | the state proposed for an attempt may follow it; it is terminal exactly when the provider failed and unresolved exactly when it was not heard |
| EffectAdmission.ProposalsAreRealisable | loop_wiki/dual-agent-effect-ledger/effect_provider_adapter.py:52-210 | every commit proposal reached from authorisation has an accepted history ending committed with that attempt and that readback, through an unknown result and a reconciliation unless the provider reported success; the state after the attempt is the one the boundary proposed |
| EffectCompensation.ChildValidIff | loop_wiki/dual-agent-effect-ledger/effect_compensation.py:54-82 | the derived child request is valid if and only if the four lengthened ids fit in 128 characters |
| EffectCompensation.ChildDiffers | loop_wiki/dual-agent-effect-ledger/effect_compensation.py:55-56 | the child's effect id and key differ from the parent's |
| EffectCompensation.ChildIsBound | loop_wiki/dual-agent-effect-ledger/effect_compensation.py:54-82 | the child's request digest fixes the parent, its plan and the readback undone; its approval and precondition fix the approval, the child and that readback |
| EffectCompensation.ChildTarget | loop_wiki/dual-agent-effect-ledger/effect_compensation.py:54-82 | a readback fits the child if and only if it is of the parent's provider and resource, for the action `compensate`, at the version the parent left |
| EffectCompensation.LinkBuiltIff | loop_wiki/dual-agent-effect-ledger/effect_compensation.py:34-94 | for a parent whose accepted history committed, a link is built if and only if the write is reversible, compensation is declared and the ids leave room |
| EffectCompensation.LinkNamesHistory | loop_wiki/dual-agent-effect-ledger/effect_compensation.py:96-117 | a link built on an accepted history names the digest of its last event, its last readback and its own child |
| EffectCompensation.BuiltLinksAreSound | loop_wiki/dual-agent-effect-ledger/effect_compensation.py:120-152 | every built link validates; its child is no duplicate of its parent, cannot be compensated itself, and is refused when reserved twice |
| EffectCompensation.ValidatedLinksAreBound | loop_wiki/dual-agent-effect-ledger/effect_compensation.py:120-152 | a validated link belongs to one parent identity and one history head, and carries a valid child authorised under its own identity |
| EffectCompensation.LinkValidatesIff | loop_wiki/dual-agent-effect-ledger/effect_compensation.py:120-152 | a link validates if and only if parent and child are valid, it names the parent's identity, effect, key and head and the child's identity, also as the authorised one, and its keys differ; everything else in it is free |
| EffectCompensation.ValidatedChildDiffersIff | loop_wiki/dual-agent-effect-ledger/effect_compensation.py:136-143 | a validated child is another effect than its parent if and only if the link's two identities differ, for which stating the child's own key is enough |
| EffectCompensation.ValidatedChildMayBeParent | loop_wiki/dual-agent-effect-ledger/effect_compensation.py:136-143 | a link whose child is the parent itself validates under another stated key |
| WorkflowReducer.Reduce | loop_wiki/dual-agent-offload-workflow/workflow_reducer.py:197-240 | the loop computes the left fold over the history, with its first refusal, its head and its length |
| WorkflowReducer.ApplyMoves | loop_wiki/dual-agent-offload-workflow/workflow_reducer.py:208-240 | an accepted event either requests an effect and moves nothing or follows an allowed transition, and counts exactly the retries |
| WorkflowReducer.TerminalIff | loop_wiki/dual-agent-offload-workflow/workflow_contract.py:32-61 | the terminal states are exactly those without a transition |
| WorkflowReducer.FoldPrefix | loop_wiki/dual-agent-offload-workflow/workflow_reducer.py:208-209 | accepted histories are prefix-closed, and a history fails as its first refused prefix does |
| WorkflowReducer.AcceptedIsLinked | loop_wiki/dual-agent-offload-workflow/workflow_reducer.py:141-160 | an accepted history is chained from the root, and each digest is its own event's |
| WorkflowReducer.EqualHeadsEqualHistories | loop_wiki/dual-agent-offload-workflow/workflow_reducer.py:141-169 | two accepted histories with equal heads are identical event for event |
| WorkflowReducer.ChainEvents | loop_wiki/dual-agent-offload-workflow/workflow_reducer.py:114-124 | the loop builds the chain event by event |
| WorkflowReducer.ChainPasses | loop_wiki/dual-agent-offload-workflow/workflow_reducer.py:94-169 | chained events always pass the chain checks: the chain is accepted exactly when its payloads are clean and fold |
| WorkflowReducer.AcceptedSpecs | loop_wiki/dual-agent-offload-workflow/workflow_reducer.py:208-240 | an accepted history folds as its unchained events do |
| WorkflowReducer.EffectsAreRequested | loop_wiki/dual-agent-offload-workflow/workflow_reducer.py:172-222 | the replay forwards every effect request in order for its job and tenant; each asks the effect ledger for admission under a key, and a read-only job makes none |
| WorkflowAcceptance.AllowedIff | loop_wiki/dual-agent-offload-workflow/workflow_contract.py:41-61 | an event may occur exactly in the states listed for it |
| WorkflowAcceptance.FoldsIff | loop_wiki/dual-agent-offload-workflow/workflow_reducer.py:208-240 | events fold if and only if each may follow those before it, said of the events alone, and the state is then the last one named |
| WorkflowAcceptance.AcceptedIff | loop_wiki/dual-agent-offload-workflow/workflow_reducer.py:141-240 | a history is accepted if and only if every event is chained to the one before it under its own digest, occurs in a state it may occur in, keeps retries in the budget and requests effects of the ledger for a job that may have some |
| WorkflowAcceptance.EveryStateIsReached | loop_wiki/dual-agent-offload-workflow/workflow_contract.py:41-61 | every one of the 26 states is reached by an accepted history, along a written-out sequence of events |
| WorkflowRuns.PotentialPays | loop_wiki/dual-agent-offload-workflow/workflow_contract.py:41-61 | every allowed transition lowers the number of changes still possible, except that a retry or a wait may raise it by less than 5 |
| WorkflowRuns.RetriesAreBudgeted | loop_wiki/dual-agent-offload-workflow/workflow_reducer.py:224-227 | the retry count is the number of retry events and never exceeds the attempts minus one |
| WorkflowRuns.ChangesAreBounded | loop_wiki/dual-agent-offload-workflow/workflow_reducer.py:208-240 | state changes of an accepted history plus what its final state could still do number at most 10 + 5 times retries and waits; retries are fewer than the attempts of the job and of its budget, at most 19 |
| WorkflowRuns.BoundIsAttained | loop_wiki/dual-agent-offload-workflow/workflow_contract.py:41-61 | for every affordable number of retries and every number of waits some accepted history makes exactly that many changes |
| WorkflowRuns.RunInvariant | loop_wiki/dual-agent-offload-workflow/workflow_contract.py:41-61 | since its last retry, wait or submission a run has the shape of its state, and after a cancel request it stays on the cancel side |
| WorkflowRuns.CompletedRuns | loop_wiki/dual-agent-offload-workflow/workflow_contract.py:41-61 | a completed run contains no cancel request and, from its last retry, wait or submission on, is exactly one full chain from delivery to reconciliation |
| WorkflowBoundaries.ValidateOperational | loop_wiki/dual-agent-offload-workflow/workflow_retry_restart.py:40-103 | it accepts only histories the reducer accepts, keeps the reducer's result and returns the newest attempt |
| WorkflowBoundaries.ShadowTracksReducer | loop_wiki/dual-agent-offload-workflow/workflow_retry_restart.py:42-89 | on accepted histories the shadow state and retry count are the reducer's |
| WorkflowBoundaries.OperationalHistories | loop_wiki/dual-agent-offload-workflow/workflow_retry_restart.py:52-86 | each cancel names the reducer's true state, each retry continues the newest attempt with another one, and each timer fires for the newest, deadlines and cancels are typed observations: retries form one parent-linked chain as long as the retry count |
| WorkflowLayers.OperationalIff | loop_wiki/dual-agent-offload-workflow/workflow_retry_restart.py:42-89 | the layer lets a history through if and only if every event fits the state, the attempt and the retries named before it |
| WorkflowBoundaries.AttemptsEndCurrent | loop_wiki/dual-agent-offload-workflow/workflow_retry_restart.py:55-64 | the current attempt is the last one named, one more than the retries |
| WorkflowBoundaries.DistinctIffFresh | loop_wiki/dual-agent-offload-workflow/workflow_retry_restart.py:57-64 | the attempts of an accepted history are distinct if and only if each retry names one not named before |
| WorkflowBoundaries.AttemptsDistinctIff | loop_wiki/dual-agent-offload-workflow/workflow_retry_restart.py:55-64 | every accepted history keeps its attempts distinct if and only if the job allows at most one retry |
| WorkflowBoundaries.AttemptNamedTwice | loop_wiki/dual-agent-offload-workflow/workflow_retry_restart.py:61-64 | with two retries allowed, an accepted history goes to a second attempt and back to the first |
| WorkflowBoundaries.ValidateHuman | loop_wiki/dual-agent-offload-workflow/workflow_human_wait.py:32-82 | it accepts only histories the reducer accepts and keeps the reducer's result |
| WorkflowBoundaries.DecidedOnceAfterWait | loop_wiki/dual-agent-offload-workflow/workflow_human_wait.py:45-56 | the flags say exactly whether a wait occurred and how many decisions did: at most one, and never before a wait |
| WorkflowLayers.HumanIff | loop_wiki/dual-agent-offload-workflow/workflow_human_wait.py:45-72 | the layer lets a history through if and only if every wait is typed and asks for evidence, at most one event decides, and it comes after a wait and was decided by a human in scope, on the current bindings, with evidence and the right answer |
| WorkflowLayers.DecisionIsAccepted | loop_wiki/dual-agent-offload-workflow/workflow_human_wait.py:45-72 | a wait ended by an approval, and one ended by a refusal, are accepted by the layer and the reducer, and end admitted and refused |
| WorkflowBoundaries.WaitsAreDecidedIff | loop_wiki/dual-agent-offload-workflow/workflow_human_wait.py:32-72 | in an accepted history every resolved wait was decided by a human if and only if no wait is left by an admission, each approval or refusal ending one carries a decision, and at most one wait is resolved; equivalently if resolutions and decisions are equal in number |
| WorkflowBoundaries.ResolutionsSplit | loop_wiki/dual-agent-offload-workflow/workflow_human_wait.py:45-56 | every decision of an accepted history resolves a wait, so resolutions are the decided and the undecided ones |
| WorkflowBoundaries.WaitLeftUndecided | loop_wiki/dual-agent-offload-workflow/workflow_human_wait.py:45-72 | an accepted history leaves a typed wait by an ordinary admission, without any decision, approval or refusal |
| WorkflowBoundaries.ValidateCompensation | loop_wiki/dual-agent-offload-workflow/workflow_compensation.py:36-94 | it accepts only reversible writes with histories the reducer accepts and keeps the reducer's result |
| WorkflowBoundaries.CompensatedOnce | loop_wiki/dual-agent-offload-workflow/workflow_compensation.py:47-79 | compensation is requested at most once; a lineage exists exactly in the compensation states, and its two keys differ |
| WorkflowBoundaries.CompensationHistories | loop_wiki/dual-agent-offload-workflow/workflow_compensation.py:47-82 | no event writes to a provider, compensation is asked of the effect ledger for a committed reversible effect, and its outcome names that effect under that key |
| WorkflowLayers.CompensationIff | loop_wiki/dual-agent-offload-workflow/workflow_compensation.py:41-82 | the layer lets a history through if and only if no event writes to a provider, every request is sound and every outcome answers the newest request before it; it then holds that lineage |
| WorkflowLayers.CompensationIsAccepted | loop_wiki/dual-agent-offload-workflow/workflow_compensation.py:47-82 | a verified result whose effect is compensated is accepted by the layer and the reducer and ends compensated |
| FenceLines.ParseBuilt | kb-ingest/port/openwiki_post.py:108 | a fence line put together from its parts parses back into them |
| FenceLines.FenceLineIff | kb-ingest/port/openwiki_post.py:108 | a line is a fence line with given parts if and only if it is white space, three or more backticks, taken greedily, and at most one word |
| FenceLines.FenceLineActs | kb-ingest/port/openwiki_post.py:251-277 | a fence line with a word opens a fence, a diagram if the word is mermaid in any case; one without closes every fence of no more backticks |
| FenceLines.CommentLine | kb-ingest/port/openwiki_post.py:108 | an HTML comment is no opening fence, however it is indented |
| MermaidFences.BlocksOfLines | kb-ingest/port/openwiki_post.py:251-277 | the blocks of a page fit the fence rules and flatten back to the page |
| MermaidFences.ScanFindsBlocks | kb-ingest/port/openwiki_post.py:251-277 | fitting blocks are exactly what a scan of their lines finds |
| MermaidFences.DegradedFit | kb-ingest/port/openwiki_post.py:318-330 | degraded blocks still fit, every diagram left passes, and each failure adds one line |
| MermaidFences.DegradedDiagrams | kb-ingest/port/openwiki_post.py:307-331 | the diagrams of the degraded blocks are the passing ones, in order |
| MermaidFences.ReplacementParses | kb-ingest/port/openwiki_post.py:318-330 | a failing diagram becomes its comment, equally indented, and a fence with the same marker, labelled text, around the same lines |
| MermaidFences.CommentShows | kb-ingest/port/openwiki_post.py:319-324 | the comment is one notice for every reason without double dashes, followed by its first 400 characters |
| MermaidFences.DoubleDashIff | kb-ingest/port/openwiki_post.py:323 | the reason shown, before it is cut, still holds two dashes in a row if and only if the one given had three |
| MermaidFences.DegradingIsIdempotent | kb-ingest/port/openwiki_post.py:307-331 | degrading is idempotent for any heuristic, leaves no failing diagram, keeps the passing ones with their bodies in order, and grows the page by one line a failure |
| MermaidFences.DegradingKeepsContents | kb-ingest/port/openwiki_post.py:307-331 | degrading leaves what every fence of the page holds, diagram or not, in order |
| MermaidEdits.ExtractMermaidFences | kb-ingest/port/openwiki_post.py:245-277 | the automaton finds exactly the closed mermaid fences of the page's blocks, with their line numbers, indent, marker and body |
| MermaidEdits.RescanFindsWhatPassed | kb-ingest/port/openwiki_post.py:245-277 | scanning a degraded page again finds exactly the diagrams that passed, bodies unchanged and in order |
| MermaidEdits.SplicesDegrade | kb-ingest/port/openwiki_post.py:318-330 | splicing replacements in from the bottom up degrades every failing block at its place |
| MermaidEdits.DegradeInvalidMermaid | kb-ingest/port/openwiki_post.py:307-331 | the pass returns the degraded page and the number of failures |
| LinkStamps.StampIsRecognised | kb-ingest/port/openwiki_post.py:432-435 | every stamp written is recognised as a stamp, whatever the link and the problem |
| LinkStamps.StampIff | kb-ingest/port/openwiki_post.py:106 | a line is a stamp if and only if it is the three marks of a stamp after any white space, no more of a word, and the end of a comment |
| LinkStamps.StampSays | kb-ingest/port/openwiki_post.py:430-435 | a stamp quotes the target as written, says what is wrong and what to do |
| LinkStamps.NoticesTell | kb-ingest/port/openwiki_post.py:403-421 | a notice tells which path it is about and whether a file or a directory is missing |
| LinkStamps.StampStart | kb-ingest/port/openwiki_post.py:106 | a stamp starts with white space or an angle bracket, so it is no heading |
| LinkStamps.StripUndoesStamps | kb-ingest/port/openwiki_post.py:361-363 | stripping a stamped page that had no stamps gives that page back |
| LinkStamps.StrippedIsFree | kb-ingest/port/openwiki_post.py:361-363 | a stripped page has no stamps, and stripping again changes nothing |
| LinkStamps.GatherStamps | kb-ingest/port/openwiki_post.py:430-435 | the stamps are grouped by line, in the order of the issues |
| LinkStamps.StampLinks | kb-ingest/port/openwiki_post.py:425-438 | inserting from the bottom up puts above each line exactly its own stamps, in order, and moves no line number still to be used |
| LinkStamps.StampsOfIssues | kb-ingest/port/openwiki_post.py:430-437 | the stamps of a line are those of its issues, one each and in order |
| LinkStamps.StampsStandAbove | kb-ingest/port/openwiki_post.py:436-438 | the stamps of a line stand between the line before and the line itself, and nothing else does |
| PageAnchors.HeadingAnchors | kb-ingest/port/openwiki_post.py:344-358 | the counting loop returns exactly the anchors of the headings in order |
| PageAnchors.AnchorsAreExact | kb-ingest/port/openwiki_post.py:355-357 | a base that heads n headings exposes itself and its suffixes 1 to n - 1, and nothing else is exposed |
| PageAnchors.AnchorsIff | kb-ingest/port/openwiki_post.py:344-358 | a page exposes exactly the anchor text of each heading and, where n headings share it, that text with a hyphen and 1 to n - 1 |
| PageAnchors.DecimalIs | kb-ingest/port/openwiki_post.py:357 | the suffix is the decimal numeral of its number, without leading zeros |
| PageAnchors.StrippingKeepsAnchors | kb-ingest/port/openwiki_post.py:361-363 | stripping leaves every anchor |
| PageAnchors.StampingKeepsAnchors | kb-ingest/port/openwiki_post.py:425-438 | stamping leaves every anchor |
| WikiLinks.ReportedIffNotLanding | kb-ingest/port/openwiki_post.py:387-421 | a link is reported if and only if it does not lead to a directory, a page or a heading that exists: one whose base heads more headings than its suffix counts |
| WikiLinks.ReportsDescribe | kb-ingest/port/openwiki_post.py:387-421 | what a report says is so: the path leaves the wiki, the file or directory it names is missing, or the page it leads to has no such heading |
| WikiLinks.IssuesAreBroken | kb-ingest/port/openwiki_post.py:380-422 | the issues stand in line order; those of each line are, in order and with repetition, exactly its links that do not land, each with what is wrong; their number is that of those links |
| WikiLinks.RemovalBreaksExactly | kb-ingest/port/openwiki_post.py:399-421 | removing a file breaks, of the passing links, exactly those whose path leads to it, and reports it missing |
| WikiLinks.Wiki.ValidateLinks | kb-ingest/port/openwiki_post.py:373-422 | the list returned holds, line by line and in order, exactly the links that do not land, with repetition, each with what is wrong with it |
| WikiLinks.IssuesInRange | kb-ingest/port/openwiki_post.py:380-386 | every issue lies on a line of the page |
| WikiLinks.TwinsAgree | kb-ingest/port/openwiki_post.py:373-422 | stamps anywhere in the wiki make no difference to what is broken on a page |
| WikiLinks.Wiki.PassLinks | kb-ingest/port/openwiki_post.py:586-599 | although it reads pages already rewritten, the pass leaves each file as a function of the starting files says, and counts every link of the starting pages, their stamps stripped, that does not land |
| WikiLinks.FoundAreBroken | kb-ingest/port/openwiki_post.py:586-599 | the count of a walk is the number of link occurrences on its pages that do not land |
| WikiLinks.VisitedPages | kb-ingest/port/openwiki_post.py:590-595 | a visited page that may be written becomes its text under the stamps of exactly its broken links |
| WikiLinks.PassIsIdempotent | kb-ingest/port/openwiki_post.py:586-599 | a second pass changes no file and counts the same issues |
| WikiLinks.PassTouchesOnlyStamps | kb-ingest/port/openwiki_post.py:590-595 | protected pages and unvisited files keep every byte; a visited page becomes its stripped text under exactly the stamps of its broken links, and has none left without broken links |
| WikiLinks.WalkOrderIsFree | kb-ingest/port/openwiki_post.py:586-599 | the files written and the count do not depend on the order of the walk |

## Left out

- Git and process calls, temporary files, directory creation, symbolic links and raw path spellings: a path is already in normal form, and a plan path inside the embedded clone's directory does not touch the clone.
- SHA-256, base64, JSON text and field order: digests are symbolic, and the manifest's path order (`localeCompare`) is that of the plan.
- `restore` and the removal of a clone are assumed not to fail, and a failing write leaves its file as it was.
- ProjectHistory.RunsConserveTheTree: a run's applies meet the conditions that `FreshRollbackIff`, `FreshRollbackRestoresIff` and `LeftoverReceiptBlocksIff` show to be necessary, and its rollbacks use receipts of the run or ones that, by `SameUndoIff`, have the effect of the newest one's.
- ModuleResolver.Resolve: does not fix which of several errors is reported; the Python and TypeScript resolvers check unknown modules before the walk, the model during it.
- ModuleOwnership.Classify: stale prefixes are counted after the assignment loop rather than inside it, the implementation suffix test is a parameter, and loading the classes is left out.
- The names that JavaScript objects inherit are a parameter, and the validation of module manifests and of the Python `preset` field, which its resolver ignores, is left out.
- The lock and skill projections of the resolver, generated files and launchers: a desired file map is a parameter of planning.
- Fixed-constant fields of effect and workflow documents, enumeration membership and sensitive-key scans: folded into the types or into one flag each.
- EffectAdmission.ProposalsAreRealisable: the provider's proposal `EFFECT_OBSERVED_PENDING_READBACK` is the ledger's observed state.
- `compensation_result` and the receipts of the effect boundary: records of constants.
- White space, word characters and letter case in wiki pages are the ASCII ones.
- The link pattern, destination parsing, percent-decoding, path resolution and heading slugs are arbitrary functions; a heading is assumed only to start with a hash sign.
- Newline translation when a page is read or written, and pages that are not UTF-8.
- Front matter, index rendering and the backlog heading pass; MCP servers, launchers, Docker, sandboxes and the static configuration validators.
