# Curator protocol: verified models of the vector generators and contract tools

This Dafny project models the algorithms that fix the protocol's reference behaviour and proves what they
promise, for every input and every run. `dafny verify dfyconfig.toml` checks all of it.

**Versions, ranges and the closure resolver** (`context_versions.go`). `Semver` parses, prints and orders
versions; `Precedence` states section 11 of Semantic Versioning 2.0.0 and proves the comparison to be it.
`Ranges` parses range texts, desugars primitives into comparators and admits versions; `RangeText`
prints comparators and parses them back, and `RangeMeaning` says which texts are ranges and what each means,
operator by operator. `Resolver` is the worklist resolver as a state machine whose steps
take the smallest pending name and select, re-select, keep or remove it. `ResolverChoices` is what the constraints
on a name come to, `ResolverInvariants` what every step keeps, `ResolverSources` where selections come from.
`ResolverLevels`, `ResolverSteps` and `ResolverTermination` (with `Graphs` and `Waves`) prove why the worklist
empties, `ResolverSafety` what a finished run has achieved, `ResolverEntries` what its lock entries say and
`ResolverAnswers` when a name is refused. The state machine drops constraints by a structured
requirer; the program compares requirers as text, and `ResolverLabels` proves exactly when that is the same.
`ClosureLoop` is the resolver as it runs, loops and labels and all, proved against the state machine. Four runs are
written out in full (`ResolverCases` evaluates them): `ResolverEndless`, where exact requirements in a circle keep the
worklist busy for ever; `ResolverAdrift`, where a requirement cycle stays in the lock after nothing else asks for it;
`ResolverMislabelled`, where a skill named like the machine takes the root out of the lock; and
`ResolverMixedKinds`, where a name required as a skill and as a context fails the final check.

Termination holds whenever circles of possible requirements are made of ranges only. Names that may require each
other in a circle form a level, and every other requirement leads to a higher level, so a step leaves all lower
levels as they are. On its own level a tag, a revision or a path can only come from the machine or from below and
stays fixed; selections come to rest, ceilings only fall, and each name has finitely many candidates. While no
ceiling falls, every step adds or removes a name over one fixed requirement graph. On a cyclic graph additions
and removals travel in waves; because the smallest pending name goes first, each change settles its name until
a larger one changes, so the names still unsettled, read as a binary number with the largest name first, count
down. The levels together make one number, the lowest level first, and every step lowers it.

**Deterministic materialization** (`environments.go`). `EmittedOrder` is Kahn's order with the smallest ready
name first, then the stable weight sort. `SurfaceFrame` is the length-framed byte stream that is hashed.

**Ledgers.** `HookLedger` (references, generations, rollback, collection, revisions) with `HookEffects` (what its
operations achieve), `WorkspaceTrust` with `TrustSteps` (consent records as they are stepped) and `TrustEffects` (what
its actions achieve), `PolicyGrant` (revocation and owned-key cleanup).

**Walks and scanners.** `SkillPlan` is the depth-first closure and cycle check. `JsonText`, `JsonSpans`,
`JsonSpansCorrect`, `JsonReadings`, `JsonAgreement` and `JsonPointer` are the raw-byte JSON scanner with JSON
Pointer lookup (RFC 8259, RFC 6901): documents are laid out from a syntax tree with arbitrary white space, no two
documents are printed alike, and the scanner is proved to find each value's bytes in every such layout.

**A bridge.** `OverlayTags` is the overlay tag proposal, proved to agree with the general range engine.

`Texts` holds the string order, splitting, joining and decimal numerals; `Wrappers` holds Option and Result.

## Where the code departs from its documentation

- `protocol/environments.md:411-421` says that a name's selection never increases and that the loop therefore
  terminates. The code's exact arm (`context_versions.go:647-684`) does not look at the ceiling and may raise it
  (`context_versions.go:750-753`). `ResolverEndless.WorklistNeedNotEmpty` gives an input with a run of every length.
  Its requirements run in a circle through a revision (`ResolverEndless.CirclePassesThroughPin`). Without such a
  circle every run is bounded (`ResolverTermination.RunsAreBounded`): so when manifests cannot require each other in
  a circle, whatever forms they use, and when they all state ranges
  (`ResolverTermination.AcyclicAndRangeRunsAreBounded`). Version tags need bounded numbers only on circles. Falling
  selections are proved for every name that nothing fixes, and those are the names the machine does not pin and no
  manifest asks for by tag or revision (`ResolverSafety.UnpinnedNamesHaveOnlyRanges`).
- A desugared upper bound beyond the largest integer wraps around. `Ranges.MeaningIffBoundFits` and
  `RangeText.RangeReparsesIffItFits` say exactly when a range keeps its meaning and its printed form.
- Numeric prerelease identifiers beyond 64 bits all compare alike, because the conversion error is dropped
  (`context_versions.go:135-136`). `Semver.EqualRankIffCappedEqual` says exactly which versions collide.
- A lock can hold members that nothing above them requires (`ResolverAdrift.CyclesCanBeLeftOver`). It cannot when
  the input's manifests do not require each other in a circle (`ResolverSafety.AcyclicInputsGroundLocks`), and
  `ResolverSafety.GroundedIffCyclesAre` says exactly which finished closures have none.
- Requirers are compared by the label `name` or `name@version` (`context_versions.go:537-541,577-587`). A skill
  without a version tag that is named `machine`, or like another member's label, is taken for that requirer:
  `ResolverMislabelled.RootCanBeDropped` gives an input whose root leaves the closure, after which the lock phase
  reads the missing root (`context_versions.go:779`). `ResolverLabels.LabelsCollideIff` says exactly which requirers
  collide and `ResolverLabels.LabelDropIffOwn` exactly when a drop is right; it always is when no manifest asks by
  tag or revision for a name that is `machine` or contains `@`.
- The final check can refuse without path overlays when a name that a manifest asks for by tag or revision is
  required as a skill and as a context and its manifest declares another version than its tag
  (`ResolverMixedKinds.MixedKindsCanBeRefused`), because an unchanged commit keeps the version it was first selected
  at (`context_versions.go:743`). Other names may be required as any kinds
  (`ResolverSafety.CheckNeverRefusesWithoutPaths`), and with manifests that state ranges all names may
  (`ResolverSafety.CheckNeverRefusesRanges`).
- Array indices in pointers are matched by `\d`, which takes every Unicode decimal digit
  (`verify_skillfile_sources_independence.py:232-234`), where section 4 of RFC 6901 allows ASCII digits only: on an
  array of 14 items the token `1` followed by U+0663 selects item 13 (`JsonAgreement.ForeignDigitMisleads`). An
  index of more than 4300 digits stops the scanner with an uncaught error, the conversion's default limit.
  `JsonAgreement.AnswersIffIndicesPlain` says exactly for which pointers the scanner answers as it should.
- A remembered retain request is answered with its reference even after that was released
  (`profile_command_roots.py:402-404`); `HookLedger.RetainAnswersLive` says exactly when the answer is live.

## Model

| member | source | states |
|---|---|---|
| Semver.PrintOfParse | tools/generate-vectors/context_versions.go:29-109 | every accepted version text is the printed form of what it parses to |
| Semver.ParseOfPrint | tools/generate-vectors/context_versions.go:29-109 | every well-formed version parses back from its printed form |
| Semver.TagDetermined | tools/generate-vectors/context_versions.go:111-118 | a tag that spells a version is `v` and that version's text, so one version has one tag |
| Semver.TagIsVersionIff | tools/generate-vectors/context_versions.go:37-118 | a tag is a version exactly when it is `v` and a version in the form of sections 2 and 9 of Semantic Versioning 2.0.0, without build metadata and with numbers that fit 64 bits |
| Semver.FailedParseKeepsFront | tools/generate-vectors/context_versions.go:83-109 | a parse that fails keeps the components in front of the bad one; an overlay's version is made of them |
| Semver.ComparePrereleaseLoop | tools/generate-vectors/context_versions.go:120-163 | the indexed loop with early returns computes the recursive comparison of identifier lists |
| Semver.CompareAntisymmetric | tools/generate-vectors/context_versions.go:120-175 | swapping two versions negates their order |
| Semver.CompareTransitive | tools/generate-vectors/context_versions.go:120-175 | precedence is transitive, and strict when either step is |
| Semver.EqualRankIffCappedEqual | tools/generate-vectors/context_versions.go:133-143 | two versions rank equal exactly when they agree after numeric identifiers are capped at the largest 64-bit integer |
| Semver.EqualRankIsEquality | tools/generate-vectors/context_versions.go:120-175 | on bounded identifiers equal rank is structural equality: a total order |
| Semver.UnboundedIdentifiersCollide | tools/generate-vectors/context_versions.go:133-143 | two different versions beyond the bound that rank equal |
| Semver.LowestIsLeast | tools/generate-vectors/context_versions.go:251-253 | `M.m.p-0` is not above any version with its triple |
| Semver.BelowLowest | tools/generate-vectors/context_versions.go:251-253 | a version is below `M.m.p-0` exactly when its triple is smaller |
| Precedence.TripleDecides | tools/generate-vectors/context_versions.go:165-175 | the triple decides first, and a stable version is above all its prereleases |
| Precedence.PrereleasesCompare | tools/generate-vectors/context_versions.go:120-163 | among prereleases of one triple the first identifier that differs decides: numbers by value, numbers before words, words by their characters |
| Precedence.ShorterComesFirst | tools/generate-vectors/context_versions.go:120-163 | without a difference the shorter list of identifiers comes first |
| Precedence.CompareIsPrecedence | tools/generate-vectors/context_versions.go:120-175 | the comparison is the precedence of section 11 of Semantic Versioning 2.0.0, on all versions whose numbers fit |
| Precedence.OrderingListAscends | conformance/v1/vectors/context-versions.json:195-207 | the ordering list of the conformance vectors ascends |
| Ranges.GivenPartsLoop | tools/generate-vectors/context_versions.go:208-245 | the component loop reads the leading components up to the first free one, or refuses |
| Ranges.ParsePrimitivesLoop | tools/generate-vectors/context_versions.go:361-382 | the inner loop collects the comparators of one set or stops at the first bad primitive |
| Ranges.ParseRangeLoop | tools/generate-vectors/context_versions.go:361-382 | the loops over alternatives and primitives compute the specified parse of a range text |
| Ranges.DesugarKeepsMeaning | tools/generate-vectors/context_versions.go:257-357 | when its bound fits, every primitive (caret, tilde, x-range, operator) admits exactly the stable versions its documentation describes |
| Ranges.OverflowLosesMeaning | tools/generate-vectors/context_versions.go:257-357 | when the bound wraps around, some stable version is judged wrongly |
| Ranges.MeaningIffBoundFits | tools/generate-vectors/context_versions.go:257-357 | so meaning is kept exactly when the bound fits |
| Ranges.BoundAdmitsNoneOfItsPrereleases | tools/generate-vectors/context_versions.go:384-422 | an upper bound `M.m.p-0` lets no prerelease of its own triple in |
| Ranges.OnlyOwnPrereleaseNamed | tools/generate-vectors/context_versions.go:402-422 | a comparator that names a prerelease comes from the primitive's own version, not from a desugared bound |
| Ranges.DesugarPrereleases | tools/generate-vectors/context_versions.go:402-422 | exactly which prereleases a desugared primitive admits: those its meaning names, and none when its bound wrapped around |
| Ranges.PrereleasesIffBoundFits | tools/generate-vectors/context_versions.go:257-357 | so prereleases are judged right exactly when the primitive names none or its bound fits |
| RangeText.FittingReparses | tools/generate-vectors/context_versions.go:188-193 | a comparator whose numbers fit parses back to itself |
| RangeText.WrappedVersionDoesNotParse | tools/generate-vectors/context_versions.go:208-245 | the text of a wrapped bound is refused |
| RangeText.SetReparses | tools/generate-vectors/context_versions.go:361-382 | a printed comparator set parses back to itself exactly when every bound fits |
| RangeText.RangeReparsesIffItFits | tools/generate-vectors/context_versions.go:361-382 | a printed desugared range parses back to the same comparator sets exactly when no bound wrapped around |
| RangeText.ParsedIsDesugared | tools/generate-vectors/context_versions.go:361-382 | every parsed range is one of the ranges these round trips speak about |
| RangeMeaning.WordsRead | tools/generate-vectors/context_versions.go:208-266 | a word is read exactly when it is one of the operators, or none, and a partial version as it is written |
| RangeMeaning.OperatorMeans | tools/generate-vectors/context_versions.go:257-357 | the text of every operator and partial parses, and admits exactly the stable versions that operator asks for, for all of them exactly when its bound does not wrap around |
| RangeMeaning.OperatorMeansPrereleases | tools/generate-vectors/context_versions.go:402-422 | and exactly the prereleases it names, none when its bound wraps around |
| RangeMeaning.LatestMeansAny | tools/generate-vectors/context_versions.go:361-364 | `latest` admits the stable versions and no other |
| RangeMeaning.SideBySideIsBoth | tools/generate-vectors/context_versions.go:361-382 | two texts side by side admit the stable versions that both admit |
| RangeMeaning.AlternativesAreEither | tools/generate-vectors/context_versions.go:361-431 | `A||B` parses exactly when both do, and admits what either admits, prereleases included |
| RangeMeaning.BlankDoesNotParse | tools/generate-vectors/context_versions.go:366-370 | a blank text is no range |
| Resolver.Check | tools/generate-vectors/context_versions.go:763-775 | the final pass refuses nothing exactly when every constraint holds |
| Resolver.HighestExists | tools/generate-vectors/context_versions.go:698-720 | every non-empty set of versions has a highest one |
| ResolverInvariants.HandleInv | tools/generate-vectors/context_versions.go:599-761 | every step keeps: the constraints are the machine's and the selected manifests', names not pending are selected exactly when constrained, ceilings match selections |
| ResolverInvariants.RunInv | tools/generate-vectors/context_versions.go:546-761 | these hold in every state of every run of the state machine, whatever the forms |
| ResolverLabels.LabelDropIffOwn | tools/generate-vectors/context_versions.go:577-587 | dropping by label drops exactly one requirer's constraints when, and only when, no other requirer among them has its label |
| ResolverLabels.LabelsCollideIff | tools/generate-vectors/context_versions.go:537-541 | two requirers of a reachable state share a label exactly when one is an unversioned member whose name spells the other's label |
| ResolverLabels.RangeManifestsAreSafe | tools/generate-vectors/context_versions.go:657-674 | manifests that state ranges leave no name that can be taken for a label |
| ResolverLabels.LabelRunsAreRuns | tools/generate-vectors/context_versions.go:599-761 | with safe names the program's runs, which drop by label, are exactly the runs of the state machine |
| ResolverLabels.LabelRunsMakeExactLocks | tools/generate-vectors/context_versions.go:546-910 | so the locks of the program's finished runs are closed, exact and without unrequired members |
| ResolverMislabelled.RootCanBeDropped | tools/generate-vectors/context_versions.go:577-587 | an input with a skill named `machine` whose run ends with an empty closure, the root gone |
| Waves.ToggleSettles | tools/generate-vectors/context_versions.go:599-614 | the change at the smallest name out of order makes that name settled |
| Waves.ToggleKeepsLarger | tools/generate-vectors/context_versions.go:599-614 | and leaves settled larger names settled |
| Waves.ToggleDescends | tools/generate-vectors/context_versions.go:599-614 | so each change over a fixed graph, cyclic or not, lowers the binary number of unsettled names |
| ResolverChoices.ChooseFixed | tools/generate-vectors/context_versions.go:643-684 | a name the machine pins keeps its pin whatever ranges join |
| ResolverChoices.ChooseHighest | tools/generate-vectors/context_versions.go:685-735 | under ranges alone the choice is an admitted tag not above the ceiling, and its commit and manifest follow from its version |
| ResolverLevels.LevelsRise | tools/generate-vectors/context_versions.go:754-760 | along a requirement that lies on no circle the level rises; around a circle it stays |
| ResolverLevels.AcyclicTerminates | tools/generate-vectors/context_versions.go:640-760 | manifests that cannot require each other in a circle meet the termination condition, whatever forms they use |
| ResolverLevels.RangeManifestsTerminate | tools/generate-vectors/context_versions.go:640-760 | so do manifests that state ranges, whatever their circles, with bounded version tags |
| ResolverSteps.DropKeepsOutright | tools/generate-vectors/context_versions.go:577-587 | dropping what a name contributed takes away no tag, revision or path on its own level or below |
| ResolverSteps.PlaceTouches | tools/generate-vectors/context_versions.go:742-760 | placing a name changes selection and ceiling of that name only, adds to the worklist only what it may require, and fixes nothing on its own level or below |
| ResolverTermination.LowerLevelsSame | tools/generate-vectors/context_versions.go:577-760 | so a step leaves the whole measure of every lower level as it is |
| ResolverTermination.SmallestToggles | tools/generate-vectors/context_versions.go:599-614 | adding or removing the smallest pending name is the change the wave argument speaks about, over the graph of its level |
| ResolverTermination.FallProgress | tools/generate-vectors/context_versions.go:742-753 | a re-selection below the ceiling shrinks the versions still to come |
| ResolverTermination.LeaveProgress | tools/generate-vectors/context_versions.go:608-614 | a removal takes a name that is not at rest off the list or moves the wave down |
| ResolverTermination.PlaceProgress | tools/generate-vectors/context_versions.go:742-760 | a new selection brings a name to rest, lowers its ceiling, moves the wave down or, off the circles, leaves only the worklist smaller |
| ResolverTermination.StepProgress | tools/generate-vectors/context_versions.go:599-761 | every step that succeeds keeps the invariants and lowers the lexicographic measure of its name's level |
| ResolverTermination.StepLowersRank | tools/generate-vectors/context_versions.go:599-761 | and so the one number made of all levels |
| ResolverTermination.Finish | tools/generate-vectors/context_versions.go:599-761 | running on from any reachable state ends, with an empty worklist or the first error |
| ResolverTermination.RunUsesUpLength | tools/generate-vectors/context_versions.go:599-761 | each step of a run uses up one of the remaining steps |
| ResolverTermination.RunsAreBounded | tools/generate-vectors/context_versions.go:599-761 | one bound holds for the length of every run of an input without a circle of requirements through a tag, revision or path |
| ResolverTermination.AcyclicAndRangeRunsAreBounded | tools/generate-vectors/context_versions.go:599-761 | so of every input whose manifests cannot require each other in a circle, and of every input whose manifests state ranges |
| ResolverEndless.WorklistNeedNotEmpty | tools/generate-vectors/context_versions.go:647-684 | an input with exact requirements that has runs of every length, along which a selection rises |
| ResolverEndless.CirclePassesThroughPin | tools/generate-vectors/context_versions.go:647-684 | that input does not meet the termination condition |
| ResolverSafety.RangePickIsGreatest | tools/generate-vectors/context_versions.go:685-735 | handling a name under ranges selects the greatest version on offer: spelled by a tag, not above its ceiling, admitted by all its ranges |
| ResolverSafety.CeilingsNeverRise | tools/generate-vectors/context_versions.go:703-753 | along a run the ceiling of a name under ranges only falls |
| ResolverSafety.SelectionsNeverRise | tools/generate-vectors/context_versions.go:703-753 | and so do its selections, even across leaving and re-entering the closure |
| ResolverSafety.UnpinnedNamesHaveOnlyRanges | tools/generate-vectors/context_versions.go:754-760 | this covers every name that the machine does not pin and no manifest asks for by tag or revision |
| ResolverSafety.LockIsClosed | tools/generate-vectors/context_versions.go:754-760 | with nothing pending, every requirement of every member, the root and every overlay are members |
| ResolverSafety.RequiredByIsExact | tools/generate-vectors/context_versions.go:863-877 | `required_by` is exactly the members whose selected manifests require the member |
| ResolverSafety.MembersHaveRequirers | tools/generate-vectors/context_versions.go:606-614 | every member other than root and overlays has a requirer |
| ResolverSafety.GroundedIffCyclesAre | tools/generate-vectors/context_versions.go:577-614 | every member is reached from the root or an overlay exactly when every requirement cycle is |
| ResolverSafety.FinishedRunsMakeExactLocks | tools/generate-vectors/context_versions.go:546-910 | the lock of every finished run of the state machine is closed, exact, without unrequired members, and on acyclic graphs fully reached |
| ResolverSources.RunSourced | tools/generate-vectors/context_versions.go:640-735 | along every run each selected manifest is one the input holds under that name |
| ResolverSafety.AcyclicInputsGroundLocks | tools/generate-vectors/context_versions.go:577-614 | when the manifests of the input cannot require each other in a circle, every member of every finished lock is reached from the root or an overlay |
| ResolverAdrift.CyclesCanBeLeftOver | tools/generate-vectors/context_versions.go:577-614 | an input with ranges only that ends in a lock holding a cycle nothing else requires |
| ResolverMixedKinds.MixedKindsCanBeRefused | tools/generate-vectors/context_versions.go:742-745 | an input without path overlays, with distinct commits, that the final check refuses because the kinds of one name differ |
| ResolverSafety.CheckRefusesOnlyPaths | tools/generate-vectors/context_versions.go:644-646 | after a finished run the final check passes exactly when every range on a path overlay's name admits the overlay's version |
| ResolverSafety.CheckNeverRefusesWithoutPaths | tools/generate-vectors/context_versions.go:763-775 | without path overlays it never refuses |
| ResolverSafety.CheckNeverRefusesRanges | tools/generate-vectors/context_versions.go:763-775 | nor with manifests that state ranges, whatever kinds they ask for |
| ResolverEntries.DifferentCommitsConflict | tools/generate-vectors/context_versions.go:647-652 | two exact requirements that stand for different commits are a conflict, whatever else is asked for |
| ResolverEntries.RunPins | tools/generate-vectors/context_versions.go:616-684 | in every state of every run a settled name without a path is at the commit that each tag and each revision asked of it stands for |
| ResolverEntries.ConflictsNeverSettle | tools/generate-vectors/context_versions.go:647-652 | so a name with two such requirements never settles |
| ResolverEntries.LocksCarryPins | tools/generate-vectors/context_versions.go:863-900 | and the lock of a finished run carries the commit each exact requirement stands for |
| ResolverEntries.RunReal | tools/generate-vectors/context_versions.go:640-741 | every selection of every run has the version, commit, source and state of a path overlay or of a package's commit, and the kind and directory it was asked for as |
| ResolverEntries.LocksAreReal | tools/generate-vectors/context_versions.go:863-900 | so does every entry of a finished lock, and it is marked as an overlay exactly when one is composed under its name |
| ResolverAnswers.UnreadableIsReported | tools/generate-vectors/context_versions.go:619-639 | the first constraint that cannot be read decides the error |
| ResolverAnswers.ExactHandled | tools/generate-vectors/context_versions.go:647-684 | under exact requirements that agree, a name is selected at their commit when every range admits the version it has there, and is a conflict or a manifest error otherwise |
| ResolverAnswers.RangesConflictIff | tools/generate-vectors/context_versions.go:685-735 | under ranges alone a name is a conflict exactly when no version is on offer; the only other error is a manifest that does not declare the tag's version |
| ClosureLoop.Seed | tools/generate-vectors/context_versions.go:554-566 | the seed loop builds the initial state or names the first overlay that repeats a name |
| ClosureLoop.DropAttributed | tools/generate-vectors/context_versions.go:577-587 | dropping keeps exactly the constraints with other labels, in order, and makes the dropped names pending |
| ClosureLoop.GatherLoop | tools/generate-vectors/context_versions.go:616-639 | the scan gathers path, commits and ranges, or stops at the first constraint it cannot read |
| ClosureLoop.HighestAt | tools/generate-vectors/context_versions.go:657-667 | one pass over the tags finds a highest version on a commit, or none when no tag spells one |
| ClosureLoop.SortedCandidates | tools/generate-vectors/context_versions.go:692-698 | the candidates come out ascending and are exactly the versions the tags spell |
| ClosureLoop.HighestAdmissible | tools/generate-vectors/context_versions.go:702-720 | the scan from the top stops at a highest candidate under the ceiling that all ranges admit |
| ClosureLoop.SelectExactly | tools/generate-vectors/context_versions.go:647-684 | the exact arm: one commit, its version, and every range against that version, whichever way ties between tags fall |
| ClosureLoop.SelectByRange | tools/generate-vectors/context_versions.go:685-736 | the range arm, with its conflict and version mismatch errors, whichever way ties fall |
| ClosureLoop.ChooseSelection | tools/generate-vectors/context_versions.go:615-741 | the three arms together select what the constraints allow, and with bounded numbers the state machine's one choice |
| ClosureLoop.HandleSmallest | tools/generate-vectors/context_versions.go:600-760 | one iteration of the loop is an allowed step, and with bounded numbers the state machine's step with drops by label |
| ClosureLoop.CheckLoop | tools/generate-vectors/context_versions.go:763-775 | the final pass reports the first constraint that does not hold |
| ClosureLoop.ResolveClosure | tools/generate-vectors/context_versions.go:546-910 | the whole resolver terminates and answers with the closed and exact lock that carries the commits asked for and real entries, the refusal of the check, or the error that its run by label ends in; without path overlays and on distinct commits never with a refusal of the check |
| ClosureLoop.FinishEndsRun | tools/generate-vectors/context_versions.go:599-761 | where the loop ends is the last state of a run, so everything proved of runs holds of its answer |
| EmittedOrder.KahnOrder | tools/generate-vectors/environments.go:282-313 | the order is the lexicographically least topological order; it stops without one exactly when the contexts hold a cycle |
| EmittedOrder.GreedyIsLeast | tools/generate-vectors/environments.go:309-311 | taking the smallest ready name first gives an order not above any other topological order |
| EmittedOrder.StuckMeansCycle | tools/generate-vectors/environments.go:306-308 | with nothing ready, the contexts left over hold a cycle |
| EmittedOrder.OrderMeansAcyclic | tools/generate-vectors/environments.go:306-308 | contexts that have a topological order hold no cycle |
| EmittedOrder.SortStable | tools/generate-vectors/environments.go:314-320 | the sort is a permutation in weight order that keeps equal weights in their order |
| EmittedOrder.StableSortUnique | tools/generate-vectors/environments.go:314-320 | there is only one such result, ascending or descending |
| EmittedOrder.EmittedMembers | tools/generate-vectors/environments.go:282-322 | the emitted order is the stable weight sort of the least topological order, with the policy's winner of two weights last or first as the policy places it |
| EmittedOrder.EmittedOrderDetermined | tools/generate-vectors/environments.go:282-322 | it is determined by the context members and the policy, not by map iteration |
| EmittedOrder.RequirementsComeFirst | tools/generate-vectors/environments.go:289-305 | in a topological order a context stands behind every context it requires |
| EmittedOrder.LastCounts | tools/generate-vectors/environments.go:283-288 | of several contexts with one name the last counts |
| EmittedOrder.NeedIsRequirement | tools/generate-vectors/environments.go:297-301 | one context needs another exactly when it requires it by name and that is a context |
| SurfaceFrame.SortedAscends | tools/generate-vectors/environments.go:677-681 | the path order is strictly ascending |
| SurfaceFrame.WriteStream | tools/generate-vectors/environments.go:676-694 | the loop writes the tagged, length-prefixed entries of the sorted paths |
| SurfaceFrame.StreamReads | tools/generate-vectors/environments.go:676-694 | a decoder recovers every file map from its stream |
| SurfaceFrame.StreamInjective | tools/generate-vectors/environments.go:676-694 | equal streams come from equal file maps |
| SurfaceFrame.StreamIsBytes | tools/generate-vectors/environments.go:682-692 | maps of byte strings are written as bytes |
| SkillPlan.Walker.Visit | tools/profile_skill_plan.py:107-128 | a visit refuses exactly when something reachable is missing, disagrees on a pin or closes a cycle; otherwise it adds exactly what is reachable, each requirement with one edge |
| SkillPlan.CloseContexts | tools/profile_skill_plan.py:130-140 | the walk from every context member refuses exactly on an identity disagreement or such a fault, and otherwise returns the reachable packages, pinned as the nodes are, and exactly their edges |
| SkillPlan.IdentityAgreesIff | tools/profile_skill_plan.py:38-47 | an identity agrees exactly when version and digest are the package's and, without a digest, source, commit and directory are |
| SkillPlan.NodesMatch | tools/profile_skill_plan.py:141-142 | the plan's nodes are compared with exactly the skills the walk reached |
| SkillPlan.JoinsCleanly | tools/profile_skill_plan.py:126-127 | a package whose providers are all closed can be closed itself |
| SkillPlan.FaultTravels | tools/profile_skill_plan.py:107-128 | a fault behind a package is a fault of everything that reaches it |
| HookLedger.HookModel.constructor | tools/profile_command_roots.py:390-393 | a new model holds one root and satisfies the invariants |
| HookLedger.HookModel.Install | tools/profile_command_roots.py:395-398 | an accepted root is stored and current; a refused one changes nothing |
| HookLedger.HookModel.Existing | tools/profile_command_roots.py:406 | the scan finds the live reference for a resource and generation, or none |
| HookLedger.HookModel.Retain | tools/profile_command_roots.py:400-411 | a request is answered with its remembered, an existing or a new reference, within the caps |
| HookLedger.HookModel.List | tools/profile_command_roots.py:413-414 | the list is every reference ever handed out: none is lost |
| HookLedger.HookModel.Activate | tools/profile_command_roots.py:416-426 | the reference becomes active, the replaced one becomes a rollback, both revisions move |
| HookLedger.HookModel.Release | tools/profile_command_roots.py:428-439 | an inactive reference becomes terminal under its revision; releasing again is answered idempotently |
| HookLedger.HookModel.RestoreRollback | tools/profile_command_roots.py:441-443 | only a rollback reference is restored, by activation |
| HookLedger.HookModel.Gc | tools/profile_command_roots.py:445-447 | exactly the current and referenced generations stay |
| HookLedger.HookModel.Invoke | tools/profile_command_roots.py:449-455 | an active resource is answered with its stored root's generation or that root's refusal; the root is never missing |
| HookLedger.ApplyInv | tools/profile_command_roots.py:388-455 | every operation keeps: active references live with stored roots, references unique per resource and generation, rollback apart from active, every issued id either live or released; a refused operation changes nothing |
| HookLedger.ApplyKeepsCaps | tools/profile_command_roots.py:405-407 | the caps on requests and references are never exceeded |
| HookLedger.SelectionIsHeld | tools/profile_command_roots.py:395-447 | only switching a resource changes what it selects, and the selected root is always stored |
| HookLedger.RunKeepsSelection | tools/profile_command_roots.py:395-447 | over any run without a switch, installs, releases and collections included, the selected generation stays and stays stored |
| HookLedger.SwitchSelects | tools/profile_command_roots.py:416-426 | a switch selects the reference's generation and keeps the replaced reference for rollback |
| HookLedger.RestoreUndoesActivate | tools/profile_command_roots.py:441-443 | restoring the replaced reference brings every selection back |
| HookLedger.InvokeAnswers | tools/profile_command_roots.py:449-455 | in reachable states an invocation never misses a root |
| HookLedger.RetainAnswersLive | tools/profile_command_roots.py:400-411 | a retain is answered with a live reference, to the resource at the current generation, exactly when its request was not remembered for a released one |
| HookLedger.RetainCanAnswerReleased | tools/profile_command_roots.py:402-404 | retain, release, retain: the same request is answered with the released reference |
| HookLedger.ReleasedStaysReleased | tools/profile_command_roots.py:428-439 | a released id is never live, active or rollback again |
| HookLedger.RevisionsMoveOnce | tools/profile_command_roots.py:416-439 | a revision that moved a reference once is refused ever after |
| HookEffects.InstallTakesOver | tools/profile_command_roots.py:395-398 | an accepted root is stored under its generation and becomes current; nothing else changes |
| HookEffects.RunKeepsCurrent | tools/profile_command_roots.py:395-447 | until the next accepted install the current generation and its root stay, collections included |
| HookEffects.RetainsTheInstalled | tools/profile_command_roots.py:400-411 | and every retain that answers a live reference answers one to the installed generation |
| HookEffects.UpgradeSelects | tools/profile_command_roots.py:395-455 | install, retain and activate, with anything but another accepted install in between, and an invocation answers with the installed root |
| HookEffects.LiveStaysOrIsReleased | tools/profile_command_roots.py:395-447 | a live reference keeps its resource and generation until it is released |
| HookEffects.RetainRefusedIff | tools/profile_command_roots.py:400-408 | when a retain is refused, and why |
| HookEffects.RetainRemembers | tools/profile_command_roots.py:409-411 | an answered retain remembers its request, keeps all others and adds at most the reference it answers |
| HookEffects.RetainTwice | tools/profile_command_roots.py:402-404 | so the same request again is answered the same and changes nothing |
| HookEffects.ActivatesIff | tools/profile_command_roots.py:416-426 | when an activation goes through, and that it moves one resource and the revisions of the two references concerned |
| HookEffects.RestoresIff | tools/profile_command_roots.py:441-443 | a restore goes through exactly when the reference waits for rollback and could be activated |
| HookEffects.ReleasesIff | tools/profile_command_roots.py:428-439 | when a release goes through, and that it takes away that reference and nothing else |
| HookEffects.GcKeepsExactlyTheUsed | tools/profile_command_roots.py:445-447 | a collection keeps a stored root exactly when it is current or a live reference stands for it |
| HookEffects.ListIsEverything | tools/profile_command_roots.py:413-414 | the list is every id ever handed out |
| WorkspaceTrust.StepGood | tools/workspace_trust.py:61-83 | every step keeps every record well-formed and every active binding installed, appends records only, and moves statuses forward only |
| WorkspaceTrust.RunGood | tools/workspace_trust.py:151-251 | the same over every sequence of actions |
| WorkspaceTrust.ReachableIsGood | tools/workspace_trust.py:61-83 | from the empty ledger every reachable record passes the record check |
| WorkspaceTrust.RefusalsChangeNothing | tools/workspace_trust.py:165-228 | refused adds, launches, binds and binding removals leave the state as it is |
| WorkspaceTrust.ReplayChangesNothing | tools/workspace_trust.py:228-232 | a committed transaction replayed changes nothing |
| WorkspaceTrust.CommittedOnce | tools/workspace_trust.py:228-232 | also after anything that happened in between |
| WorkspaceTrust.AuthorizedIffUnchangedConsent | tools/workspace_trust.py:183-197 | a resolve is authorized exactly by an active record at the path that carries the identity found now, and exactly such records consent afterwards |
| WorkspaceTrust.ReferencesAreInstalled | tools/workspace_trust.py:139-148 | every reference an observation shows is an active grant whose binding it shows as installed |
| TrustSteps.TransitionLoop | tools/workspace_trust.py:133-136 | the loop moves exactly the chosen records, each by the transition rule |
| TrustSteps.RemoveBinding | tools/workspace_trust.py:169 | exactly the other bindings stay, in order |
| TrustSteps.AppendRecords | tools/workspace_trust.py:235-250 | one record per distinct environment is appended, in order |
| TrustSteps.Execute | tools/workspace_trust.py:151-251 | the step as it runs returns the specified state and observation |
| TrustEffects.DiscoveredIs | tools/workspace_trust.py:98-112 | facts give an identity exactly when they establish one: root, primary remote and the one root commit |
| TrustEffects.SameIdentityIff | tools/workspace_trust.py:98-112 | two readings give one identity exactly when these three agree |
| TrustEffects.UnopenedIsRefused | tools/workspace_trust.py:154-161 | unsupported environments and an unreadable ledger are refused, nothing changes and nothing is authorized |
| TrustEffects.PathRefusals | tools/workspace_trust.py:115-131 | what is wrong with a path decides the refusal, before anything else is looked at |
| TrustEffects.ReachedIff | tools/workspace_trust.py:115-131 | a resolve gets to its records exactly when its path is a directory that can be granted |
| TrustEffects.RemoveRevokes | tools/workspace_trust.py:177-182 | an admitted removal revokes every record of its environment at its path and leaves every other as it is |
| TrustEffects.RemoveRefused | tools/workspace_trust.py:174-176 | any other removal is refused and changes nothing |
| TrustEffects.RemovedStaysUntrusted | tools/workspace_trust.py:177-197 | after it no resolve there is authorized, whatever happens, until something grants consent there again |
| TrustEffects.OnlyGrantsBringTrust | tools/workspace_trust.py:151-251 | where there is no consent only an addition, launch or bind that names the environment there brings any |
| TrustEffects.NewAcceptedIff | tools/workspace_trust.py:174-231 | an addition, launch or bind is accepted exactly when its path, its facts and its commit are in order |
| TrustEffects.NewGrants | tools/workspace_trust.py:233-250 | an accepted new one appends one active record with the identity found, at the path or the bound root, for each environment it names and no other |
| TrustEffects.NewCommits | tools/workspace_trust.py:228-232 | and commits its transaction, a bind with its binding installed |
| TrustEffects.GrantedIsAuthorized | tools/workspace_trust.py:183-250 | what was granted is authorized by a resolve that finds the same identity |
| TrustEffects.BindingRemoveRevokes | tools/workspace_trust.py:165-173 | removing a binding takes out that binding and revokes exactly its records |
| TrustEffects.ResolveLapses | tools/workspace_trust.py:183-197 | a resolve lapses exactly the consent given to another identity and says whether it was authorized, changed or never trusted |
| TrustEffects.ResolveRefused | tools/workspace_trust.py:174-188 | a resolve that does not reach its records, or finds no identity, changes nothing |
| TrustEffects.ListShows | tools/workspace_trust.py:162-164 | a listing shows exactly the grants of its environment and changes nothing |
| TrustEffects.ShowsTheLedger | tools/workspace_trust.py:139-148 | after every step what is shown is exactly the ledger's active grants, its active binds, its bindings and what is pending |
| PolicyGrant.RevokeLoop | tools/workspace_policy_grant.py:127-147 | the two loops compute the specified revocation |
| PolicyGrant.OthersUntouched | tools/workspace_policy_grant.py:131-136 | records of other entries stay identical |
| PolicyGrant.EntryIsRevoked | tools/workspace_policy_grant.py:131-136 | every record of the entry is revoked with its past kept; one revoked before stays as it was |
| PolicyGrant.TouchedExactly | tools/workspace_policy_grant.py:137-146 | a journal key changes exactly when an affected grant holds it and no grant still active after the revocation does: it is gone when owned, unchanged and readable, and otherwise stays as it was and is left pending |
| PolicyGrant.RevokeIsIdempotent | tools/workspace_policy_grant.py:127-147 | revoking the entry again, by anyone at any time, changes nothing |
| PolicyGrant.RevokesCommute | tools/workspace_policy_grant.py:127-147 | revocations of different entries commute, journal included |
| PolicyGrant.RevokeKeepsHistoryIff | tools/workspace_policy_grant.py:49-57 | a revocation keeps a valid history valid exactly when it is not backdated and names its issuer |
| OverlayTags.Evaluate | tools/check-overlay-range-proposal/main.go:136-188 | the scan and the two phases compute the specified verdict |
| OverlayTags.BestIsGreatest | tools/check-overlay-range-proposal/main.go:161-176 | no admitted tag is greater than the chosen one, and one is chosen when any is admitted |
| OverlayTags.VerdictIgnoresOrder | tools/check-overlay-range-proposal/main.go:161-187 | the order of distinct tags does not matter |
| OverlayTags.FilterAgreesWithEngine | tools/check-overlay-range-proposal/main.go:170-172 | on stable versions the hard-coded filter admits what the general range engine admits |
| OverlayTags.ResolvesToGreatestInRange | tools/check-overlay-range-proposal/main.go:156-187 | an accepted resolution is the greatest stable tag the range engine admits |
| OverlayTags.ResolveVerdict | tools/check-overlay-range-proposal/main.go:156-187 | a resolution answers with the greatest tag on offer, its commit and its version, or says that the commit or the manifest's version is wrong |
| OverlayTags.NothingOnOffer | tools/check-overlay-range-proposal/main.go:176-178 | with nothing on offer it is a range conflict |
| OverlayTags.ReplayUndoesResolve | tools/check-overlay-range-proposal/main.go:141-155 | replaying an accepted resolution as a lock gives the same verdict while the tag is unmoved |
| OverlayTags.ReplayAnswersPin | tools/check-overlay-range-proposal/main.go:141-155 | an accepted replay answers with the pin, which names a stable version under the directory's prefix |
| OverlayTags.OtherRefusals | tools/check-overlay-range-proposal/main.go:136-159 | an unusable directory, a phase or range outside the corpus and a pin that is not in order are each refused as such |
| OverlayTags.ReplayWarnsIffMoved | tools/check-overlay-range-proposal/main.go:150-154 | a replay warns exactly when its pin is good, the tag moved and moving is tolerated |
| JsonText.LookupIsDenotes | tools/verify_skillfile_sources_independence.py:222-240 | looking a pointer up in a layout finds the layout of the value it denotes |
| JsonSpans.SkipSpaceLoop | tools/verify_skillfile_sources_independence.py:96-99 | the loop stops at the first byte that is not white space |
| JsonSpans.StringEndLoop | tools/verify_skillfile_sources_independence.py:102-114 | the loop finds the closing quote past escapes, or refuses |
| JsonSpans.ValueEndLoop | tools/verify_skillfile_sources_independence.py:117-154 | the loops over containers compute the specified end of a value |
| JsonSpans.ObjectMemberSpanLoop | tools/verify_skillfile_sources_independence.py:157-183 | the member scan as it runs |
| JsonSpans.ArrayItemSpanLoop | tools/verify_skillfile_sources_independence.py:186-205 | the item scan as it runs |
| JsonSpans.RawPointerSpanLoop | tools/verify_skillfile_sources_independence.py:222-240 | the walk along the tokens as it runs |
| JsonSpansCorrect.ValueEndOf | tools/verify_skillfile_sources_independence.py:117-154 | the scanner finds the end of every laid-out value |
| JsonSpansCorrect.ScannerFollowsCode | tools/verify_skillfile_sources_independence.py:222-240 | on every document in every layout the scanner stands on what the code's reading of the tokens selects in the layout |
| JsonReadings.OneReading | tools/verify_skillfile_sources_independence.py:96-154 | two documents with the same bytes are the same document, so bytes have one value |
| JsonAgreement.PointerSelectsWhatItDenotes | tools/verify_skillfile_sources_independence.py:222-240 | for every document in every layout and every pointer with plain indices, a span is found exactly when the pointer resolves, and its bytes read as exactly the value denoted |
| JsonAgreement.AnswersIffIndicesPlain | tools/verify_skillfile_sources_independence.py:232-234 | the scanner answers so on every document exactly when every index of the pointer is spelled in ASCII digits and can be converted |
| JsonAgreement.ForeignDigitMisleads | tools/verify_skillfile_sources_independence.py:232-234 | the token `1` followed by U+0663 denotes nothing in an array of 14 items, and the scanner selects its last one |
| JsonPointer.PointerTokensLoop | tools/verify_skillfile_sources_independence.py:208-219 | the loop splits a decoded pointer into unescaped tokens or refuses it |
| JsonPointer.TwoPassesAreOne | tools/verify_skillfile_sources_independence.py:215-218 | the two replacements read what one left-to-right pass of section 4 of RFC 6901 reads |
| JsonPointer.TokensOfPrinted | tools/verify_skillfile_sources_independence.py:208-219 | every list of tokens is read back from the pointer it prints as |
| JsonPointer.PrintedOfTokens | tools/verify_skillfile_sources_independence.py:208-219 | every accepted pointer is the printed form of its tokens |

## Left out

- Weights, overlay winners and warnings of the resolver (`context_versions.go:777-861`), the final sort of lock members and the lock hash: priority rules on a finished closure.
- Details of errors (requirers, candidates considered) are reduced to the kind of error and its name.
- A missing package or manifest, where the program would stop on a nil pointer, is an error of its own.
- ResolveClosure: requires that circles of requirements are made of ranges, because otherwise the loop may not end; that no name asked for by tag or revision is `machine` or contains `@`, because otherwise drops may hit other requirers; and version tags with bounded numeric identifiers, because otherwise ties are broken by map iteration. The state machine and its invariants cover all inputs.
- RunsAreBounded: one direction; an input with a circle through a tag, revision or path may or may not end, depending on its versions, and `WorklistNeedNotEmpty` shows one that does not.
- CheckRefusesOnlyPaths: assumes that a name the machine does not ask for, that some manifest asks for by tag or revision and whose manifest and tag disagree, is a skill for all its requirers or for none (`MixedKindsCanBeRefused` shows why), that only overlays are paths (`protocol/environments.md:563`), and that the version tags of a package sit on different commits.
- SideBySideIsBoth: said of stable versions; which prereleases a set of several primitives admits follows the rule on sets (`context_versions.go:402-422`) as it stands.
- Library sorts are modelled by insertion into a sorted list or by taking the smallest element.
- Strings are sequences of characters; the resolver's blank trimming is part of splitting at blanks; Unicode normalization, case folding and percent decoding are not part of this model.
- PointerSelectsWhatItDenotes: strings and atoms keep their spelling; the decoding of keys and the worth of digits beyond ASCII are parameters.
- JSON Schema validation, SHA-256 and CCJ-1 digests, git, files, processes and clocks: the framed bytes are modelled, not their digest; all trust transitions carry the one constant time the program uses.
- SkillPlan: the direct, retained-member, digest, command and exposure checks around the walk (`profile_skill_plan.py:73-101,143-181`) and the sorting of edges.
- HookLedger: the chain checks on roots are two verdicts stored with the root, reference ids are the serial numbers, and the fixed upgrade scenario is not repeated because it is one run of the proved operations.
- WorkspaceTrust: path spelling, remote safety and containment are predicates given from outside; the sorted lists of an observation are given as the multisets that determine them.
- PolicyGrant: only the history rules of the record check are modelled; `decision` is a chain of independent refusals.
- OverlayTags: the spelling checks on directories, tags and commits are predicates given from outside; decoding and checking the corpus is not modelled.
