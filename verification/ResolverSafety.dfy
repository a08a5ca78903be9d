/** What holds on every run: selections fall, locks are closed and exact, the final check finds nothing new. */
module ResolverSafety {
  import opened Wrappers
  import opened Texts
  import opened Semver
  import opened Ranges
  import opened Graphs
  import opened Resolver
  import opened ResolverInvariants
  import opened ResolverChoices
  import opened ResolverSources

  // ------------------------------------------------- selections never rise

  /** Nothing fixes the name: every constraint on it is a range. */
  ghost predicate OnlyRanges(s: State, name: string) {
    forall c :: c in s.constraints && c.name == name ==> !Fixes(c)
  }

  /** A tag of the package spells the version. */
  predicate Spelled(pkg: Package, v: Version) { exists tag :: tag in pkg.tags && ParseTag(tag) == Some(v) }

  /** A version on offer: spelled by a tag, not above the ceiling, admitted by every range on the name. */
  predicate Offered(input: Input, s: State, name: string, v: Version) {
    && name in input.packages && Spelled(input.packages[name], v)
    && (name in s.ceiling ==> Compare(v, s.ceiling[name]) <= 0)
    && forall c :: c in s.constraints && c.name == name && c.form == ByRange ==> Admitted(c, Some(v))
  }

  predicate Admitted(c: Constraint, version: Option<Version>) {
    version.Some? && ParseRange(c.value).Some? && RangeSatisfies(ParseRange(c.value).value, version.value)
  }

  /** Handling a name under ranges picks the greatest version on offer, and lowers the ceiling to it. */
  lemma RangePickIsGreatest(input: Input, s: State, name: string)
    requires OnlyRanges(s, name) && On(s.constraints, name) != []
    requires Handle(input, s, name).Ok? && Handle(input, s, name).value != Idle(s, name)
    ensures var after := Handle(input, s, name).value;
      && name in after.selected && after.selected[name].version.Some?
      && var v := after.selected[name].version.value;
         after.ceiling == s.ceiling[name := v] && Offered(input, s, name, v)
         && forall w :: Offered(input, s, name, w) ==> Compare(w, v) <= 0
  {
    hide Admissible, Spelled, Admitted, ParseRange;
    var cs := On(s.constraints, name);
    ChooseHighest(input, Get(s.ceiling, name), name, cs);
    GatherHasRanges(input, cs);
    forall w ensures Offered(input, s, name, w)
      <==> w in Admissible(input.packages[name].tags, Get(s.ceiling, name), Gather(input, cs).value.ranges)
    {
      OfferedIff(input, s, name, Gather(input, cs).value.ranges, w);
    }
  }

  lemma OfferedIff(input: Input, s: State, name: string, ranges: seq<Range>, w: Version)
    requires name in input.packages
    requires forall c :: c in On(s.constraints, name) && c.form == ByRange ==>
      ParseRange(c.value).Some? && ParseRange(c.value).value in ranges
    requires forall range :: range in ranges ==>
      exists c :: c in On(s.constraints, name) && c.form == ByRange && ParseRange(c.value) == Some(range)
    ensures Offered(input, s, name, w) <==> w in Admissible(input.packages[name].tags, Get(s.ceiling, name), ranges)
  {
    hide ParseRange, ParseTag, Compare, RangeSatisfies;
    var tags := input.packages[name].tags;
    if Offered(input, s, name, w) {
      forall range | range in ranges ensures RangeSatisfies(range, w) {
        var c :| c in On(s.constraints, name) && c.form == ByRange && ParseRange(c.value) == Some(range);
        assert Admitted(c, Some(w));
      }
    }
    if w in Admissible(tags, Get(s.ceiling, name), ranges) {
      forall c | c in s.constraints && c.name == name && c.form == ByRange ensures Admitted(c, Some(w)) {
        assert c in On(s.constraints, name);
      }
    }
  }

  /** The gathered ranges are exactly the ranges the constraints state. */
  lemma {:induction false} GatherHasRanges(input: Input, cs: seq<Constraint>)
    requires Gather(input, cs).Ok?
    ensures forall c :: c in cs && c.form == ByRange ==>
      ParseRange(c.value).Some? && ParseRange(c.value).value in Gather(input, cs).value.ranges
    ensures forall range :: range in Gather(input, cs).value.ranges ==>
      exists c :: c in cs && c.form == ByRange && ParseRange(c.value) == Some(range)
  {
    hide ParseRange;
    if cs != [] {
      var front, last := cs[..|cs| - 1], cs[|cs| - 1];
      assert cs == front + [last];
      GatherHasRanges(input, front);
      assert last in cs;
    }
  }

  /** One step never raises the ceiling of a name under ranges. */
  lemma StepNeverRaises(input: Input, s: State, after: State, name: string)
    requires Next(input, s, after) && OnlyRanges(s, name) && name in s.ceiling
    ensures name in after.ceiling && Compare(after.ceiling[name], s.ceiling[name]) <= 0
  {
    CompareAntisymmetric(s.ceiling[name], s.ceiling[name]);
    if Least(s.pending) == name && On(s.constraints, name) != [] && after != Idle(s, name) {
      RangePickIsGreatest(input, s, name);
    }
  }

  predicate NotRaised(a: map<string, Version>, b: map<string, Version>, name: string) {
    name in a ==> name in b && Compare(b[name], a[name]) <= 0
  }

  /** Falls one after the other are a fall. */
  lemma {:induction false} FallsCompose(ceilings: seq<map<string, Version>>, name: string)
    requires ceilings != [] && forall k :: 0 <= k < |ceilings| - 1 ==> NotRaised(ceilings[k], ceilings[k + 1], name)
    ensures NotRaised(ceilings[0], ceilings[|ceilings| - 1], name)
  {
    var last := |ceilings| - 1;
    if name in ceilings[0] {
      CompareAntisymmetric(ceilings[0][name], ceilings[0][name]);
      if last > 0 {
        FallsCompose(ceilings[..last], name);
        assert NotRaised(ceilings[last - 1], ceilings[last - 1 + 1], name);
        CompareTransitive(ceilings[last][name], ceilings[last - 1][name], ceilings[0][name]);
      }
    }
  }

  lemma RunStepNeverRaises(input: Input, run: seq<State>, name: string, k: nat)
    requires IsRun(input, run) && k < |run| - 1 && OnlyRanges(run[k], name)
    ensures NotRaised(run[k].ceiling, run[k + 1].ceiling, name)
  {
    assert Next(input, run[k], run[k + 1]);
    if name in run[k].ceiling { StepNeverRaises(input, run[k], run[k + 1], name); }
  }

  /** Along a run, the ceiling of a name under ranges only falls. */
  lemma CeilingsNeverRise(input: Input, run: seq<State>, name: string, i: nat, j: nat)
    requires IsRun(input, run) && i <= j < |run|
    requires forall k :: i <= k < j ==> OnlyRanges(run[k], name)
    ensures NotRaised(run[i].ceiling, run[j].ceiling, name)
  {
    hide IsRun, OnlyRanges, NotRaised;
    var ceilings := seq(j - i + 1, k requires 0 <= k < j - i + 1 => run[i + k].ceiling);
    forall k | 0 <= k < |ceilings| - 1 ensures NotRaised(ceilings[k], ceilings[k + 1], name) {
      RunStepNeverRaises(input, run, name, i + k);
    }
    FallsCompose(ceilings, name);
  }

  /** Along a run, a name under ranges never rises, not even after leaving and re-entering. */
  lemma SelectionsNeverRise(input: Input, run: seq<State>, name: string, i: nat, j: nat)
    requires IsRun(input, run) && i <= j < |run|
    requires forall k :: i <= k < j ==> OnlyRanges(run[k], name)
    requires name in run[i].selected && run[i].selected[name].version.Some?
    requires name in run[j].selected && run[j].selected[name].version.Some?
    ensures Compare(run[j].selected[name].version.value, run[i].selected[name].version.value) <= 0
  {
    RunInv(input, run, i);
    RunInv(input, run, j);
    CeilingsNeverRise(input, run, name, i, j);
  }

  /** A name the machine does not pin and no manifest asks for exactly is such a name in every state. */
  lemma UnpinnedNamesHaveOnlyRanges(input: Input, run: seq<State>, i: nat, name: string)
    requires IsRun(input, run) && i < |run| && !Pinned(input, name) && !AskedExactly(input, name)
    ensures OnlyRanges(run[i], name)
  {
    hide IsRun;
    RunInv(input, run, i);
    RunSourced(input, run, i);
    forall c | c in run[i].constraints && c.name == name ensures !Fixes(c) {
      if c !in Seeds(input) { var r := ContributedIsStated(input, run[i], c); }
    }
  }

  // ----------------------------------------------------------------- locks

  /** Who requires whom among the members, by their selected manifests. */
  function Requirements(s: State): Edges<string> {
    map name | name in s.selected :: Targets(s.selected[name].manifest)
  }

  /** Every requirement of every member is a member. */
  lemma LockIsClosed(input: Input, s: State)
    requires Inv(input, s) && s.pending == {}
    ensures forall k, n :: Edge(Requirements(s), k, n) ==> n in LockOf(s)
    ensures forall c :: c in Seeds(input) ==> c.name in LockOf(s)
  {
    forall k, n | Edge(Requirements(s), k, n) ensures n in s.selected {
      TargetsOfExpansion(k, s.selected[k], n);
      var c :| c in Expansion(k, s.selected[k]) && c.name == n;
      assert ContributedBy(s, k, c);
      assert c in s.constraints;
    }
    forall c | c in Seeds(input) ensures c.name in s.selected {
      assert c in s.constraints;
    }
  }

  /** The recorded requirers of a member are exactly the members whose manifests require it. */
  lemma RequiredByIsExact(input: Input, s: State, name: string)
    requires Inv(input, s) && name in s.selected
    ensures LockOf(s)[name].requiredBy == set k | k in s.selected && Edge(Requirements(s), k, name)
  {
    var recorded := RequiredBy(s.constraints, name);
    forall k | k in recorded ensures k in s.selected && Edge(Requirements(s), k, name) {
      var c :| c in s.constraints && c.name == name && c.requirer.Member? && c.requirer.name == k;
      assert c !in Seeds(input);
      var j :| j in s.selected && ContributedBy(s, j, c);
      TargetsOfExpansion(j, s.selected[j], name);
    }
    forall k | k in s.selected && Edge(Requirements(s), k, name) ensures k in recorded {
      TargetsOfExpansion(k, s.selected[k], name);
      var c :| c in Expansion(k, s.selected[k]) && c.name == name;
      assert ContributedBy(s, k, c);
      assert c in s.constraints;
    }
  }

  /** Every member that the machine did not ask for has a requirer. */
  lemma MembersHaveRequirers(input: Input, s: State, name: string)
    requires Inv(input, s) && s.pending == {} && name in s.selected && name !in Base(input)
    ensures exists k :: k in s.selected && Edge(Requirements(s), k, name)
    ensures LockOf(s)[name].requiredBy != {}
  {
    assert Constrained(s, name);
    var c :| c in s.constraints && c.name == name;
    var k :| k in s.selected && ContributedBy(s, k, c);
    TargetsOfExpansion(k, s.selected[k], name);
    assert Edge(Requirements(s), k, name);
    RequiredByIsExact(input, s, name);
    assert k in LockOf(s)[name].requiredBy;
  }

  /** Reached from the root or an overlay along requirements. */
  ghost predicate Grounded(input: Input, s: State, name: string) {
    exists b :: b in Base(input) && Reaches(Requirements(s), b, name)
  }

  /** No requirement cycle hangs in the air: each is reached from the root or an overlay. */
  ghost predicate CyclesGrounded(input: Input, s: State) {
    forall p :: Cycle(Requirements(s), p) ==> Grounded(input, s, p[0])
  }

  /** Every member is reached from the root or an overlay exactly when every requirement cycle is. */
  lemma GroundedIffCyclesAre(input: Input, s: State)
    requires Inv(input, s) && s.pending == {}
    ensures (forall name :: name in s.selected ==> Grounded(input, s, name)) <==> CyclesGrounded(input, s)
  {
    if forall name :: name in s.selected ==> Grounded(input, s, name) {
      forall p | Cycle(Requirements(s), p)
        ensures Grounded(input, s, p[0])
      {
        assert Edge(Requirements(s), p[0], p[1]);
      }
    }
    if CyclesGrounded(input, s) { NothingAdrift(input, s); }
  }

  /** Behind a member that is not reached lies a cycle that is not. */
  lemma AdriftCycle(input: Input, s: State, name: string) returns (p: seq<string>)
    requires Inv(input, s) && s.pending == {} && name in s.selected && !Grounded(input, s, name)
    ensures Cycle(Requirements(s), p) && !Grounded(input, s, p[0])
  {
    var adrift := set n | n in s.selected && !Grounded(input, s, n);
    assert name in adrift;
    forall n | n in adrift ensures HasPredecessor(Requirements(s), adrift, n) {
      if n in Base(input) { ReachesItself(Requirements(s), n); }
      MembersHaveRequirers(input, s, n);
      var k :| k in s.selected && Edge(Requirements(s), k, n);
      if Grounded(input, s, k) {
        var b :| b in Base(input) && Reaches(Requirements(s), b, k);
        ReachesStep(Requirements(s), b, k, n);
      }
    }
    p := PredecessorsMakeCycle(Requirements(s), adrift);
    assert p[0] in adrift;
  }

  lemma NothingAdrift(input: Input, s: State)
    requires Inv(input, s) && s.pending == {} && CyclesGrounded(input, s)
    ensures forall name :: name in s.selected ==> Grounded(input, s, name)
  {
    hide Inv, Grounded, Cycle;
    forall name | name in s.selected ensures Grounded(input, s, name) {
      if !Grounded(input, s, name) { var p := AdriftCycle(input, s, name); }
    }
  }

  /** The lock holds all that is asked for, and records who asks. */
  ghost predicate ExactLock(input: Input, s: State, lock: Lock) {
    && (forall k, n :: Edge(Requirements(s), k, n) ==> n in lock)
    && (forall name :: name in Base(input) ==> name in lock)
    && (forall name :: name in lock ==>
       lock[name].requiredBy == set k | k in s.selected && Edge(Requirements(s), k, name))
    && (forall name :: name in lock && name !in Base(input) ==> lock[name].requiredBy != {})
  }

  /** The lock of a finished run is closed and exact, and without requirement cycles nothing in it is left over. */
  lemma FinishedRunsMakeExactLocks(input: Input, run: seq<State>)
    requires IsRun(input, run) && run[|run| - 1].pending == {}
    ensures var s := run[|run| - 1];
      ExactLock(input, s, LockOf(s)) && (Acyclic(Requirements(s)) ==> forall name :: name in LockOf(s) ==>
        Grounded(input, s, name))
  {
    var s := run[|run| - 1];
    RunInv(input, run, |run| - 1);
    LockIsClosed(input, s);
    forall name | name in LockOf(s)
      ensures LockOf(s)[name].requiredBy == set k | k in s.selected && Edge(Requirements(s), k, name)
      ensures name !in Base(input) ==> LockOf(s)[name].requiredBy != {}
    {
      RequiredByIsExact(input, s, name);
      if name !in Base(input) { MembersHaveRequirers(input, s, name); }
    }
    if Acyclic(Requirements(s)) { NothingAdrift(input, s); }
  }

  // ----------------------------------------------------------- final check

  /** Requirements are ranges, tags or revisions; only an overlay is a path. */
  ghost predicate NoPathRequirements(input: Input) {
    forall r :: Stated(input, r) ==> r.form != ByPath
  }

  /** At some commit of the name a skill's version, by tag, is not the version its manifest declares. */
  ghost predicate TagAndManifestDiffer(input: Input, name: string) {
    name in input.packages
    && exists commit :: commit in input.packages[name].commits
                        && CommitVersion(input, name, false, commit).Some?
                        && CommitVersion(input, name, false, commit) != CommitVersion(input, name, true, commit)
  }

  /** Only manifests ask for the name, one of them exactly, and a commit of it carries two versions. */
  ghost predicate KindMatters(input: Input, name: string) {
    name !in Base(input) && AskedExactly(input, name) && TagAndManifestDiffer(input, name)
  }

  /** Where it matters, a name is required as a skill by all its requirers or by none. */
  ghost predicate OneKind(input: Input) {
    forall a, b :: Stated(input, a) && Stated(input, b) && a.name == b.name && KindMatters(input, a.name) ==>
      (a.kind == Skill <==> b.kind == Skill)
  }

  /** Different version tags of one package sit on different commits. */
  predicate DistinctCommits(input: Input) {
    forall n :: n in input.packages ==> OneTagPerCommit(input.packages[n].tags)
  }

  predicate OneTagPerCommit(tags: map<string, string>) {
    forall t, u :: t in tags && u in tags && ParseTag(t).Some? && ParseTag(u).Some? && tags[t] == tags[u] ==> t == u
  }

  ghost predicate Orderly(input: Input) {
    Composed(input) && NoPathRequirements(input) && OneKind(input) && DistinctCommits(input)
  }

  /** Where manifests state ranges, kinds do not matter. */
  lemma RangeManifestsAreOrderly(input: Input)
    requires Composed(input) && RangeManifests(input) && DistinctCommits(input)
    ensures Orderly(input)
  {
    RangeManifestsStateRanges(input);
  }

  /** The machine composes the name in place from a path. */
  predicate IsPathSeed(c: Constraint) { c.form == ByPath && c.overlay.Some? }

  ghost predicate PathName(input: Input, name: string) {
    exists c :: c in Seeds(input) && c.name == name && IsPathSeed(c)
  }

  /** The version a commit carries depends on the commit and on being a skill only. */
  ghost function CommitVersion(input: Input, name: string, skill: bool, commit: string): Option<Version>
    requires name in input.packages
  {
    var pkg := input.packages[name];
    if skill then Highest(CandidatesAt(pkg.tags, commit))
    else if commit !in pkg.commits || !ParseVersion(pkg.commits[commit].version).ok then None
    else Some(ParseVersion(pkg.commits[commit].version).version)
  }

  ghost predicate RequiredAsSkill(input: Input, name: string) {
    exists r :: Stated(input, r) && r.name == name && r.kind == Skill
  }

  /** What the machine asks for is a context; elsewhere, where the kind does not matter, the version is a skill's. */
  ghost predicate AsSkill(input: Input, name: string) {
    name !in Base(input) && (KindMatters(input, name) ==> RequiredAsSkill(input, name))
  }

  ghost predicate CarriesCommitVersion(input: Input, name: string, sel: Selection) {
    name in input.packages && sel.statePin == ""
      && sel.version == CommitVersion(input, name, AsSkill(input, name), sel.commit)
  }

  function PathVersion(overlay: Overlay): Option<Version> {
    match overlay.manifest
    case None => None
    case Some(m) => Some(ParseVersion(m.version).version)
  }

  ghost predicate CarriesPathVersion(input: Input, name: string, sel: Selection) {
    forall c :: c in Seeds(input) && c.name == name && IsPathSeed(c) ==> sel.version == PathVersion(c.overlay.value)
  }

  ghost predicate RightVersion(input: Input, name: string, sel: Selection) {
    if PathName(input, name) then CarriesPathVersion(input, name, sel) else CarriesCommitVersion(input, name, sel)
  }

  ghost predicate RangesHold(input: Input, s: State) {
    forall c :: c in s.constraints && c.form == ByRange && c.name !in s.pending && !PathName(input, c.name) ==>
      Holds(s, c)
  }

  ghost predicate RightlySelected(input: Input, s: State) {
    forall name :: name in s.selected ==> RightVersion(input, name, s.selected[name])
  }

  ghost predicate CInv(input: Input, s: State) {
    Inv(input, s) && Sourced(input, s) && SeedsFirst(input, s) && RightlySelected(input, s) && RangesHold(input, s)
  }

  /** The kind a selection takes from its first constraint is the one its version is told by. */
  ghost predicate KindFits(input: Input, name: string, kind: Kind) {
    && (name in Base(input) ==> kind != Skill)
    && (KindMatters(input, name) ==> (kind == Skill <==> AsSkill(input, name)))
  }

  lemma ConstraintKind(input: Input, s: State, c: Constraint)
    requires Orderly(input) && CInv(input, s) && c in s.constraints && c !in Seeds(input)
    ensures KindMatters(input, c.name) ==> (c.kind == Skill <==> AsSkill(input, c.name))
    ensures c.form != ByPath && c.overlay.None?
    ensures IsExact(c.form) ==> AskedExactly(input, c.name)
  {
    hide Stated, KindMatters, Base;
    var r := ContributedIsStated(input, s, c);
    assert KindMatters(input, c.name) ==> c.name !in Base(input) by { OnlyManifestsAsk(input, c.name); }
  }

  lemma OnlyManifestsAsk(input: Input, name: string)
    ensures KindMatters(input, name) ==> name !in Base(input)
  {}

  /** The machine's constraint comes first where there is one, and it asks for a context. */
  lemma FirstKindFits(input: Input, s: State, name: string)
    requires Orderly(input) && CInv(input, s) && On(s.constraints, name) != []
    ensures KindFits(input, name, On(s.constraints, name)[0].kind)
  {
    hide Orderly, KindMatters, AsSkill, Inv, Sourced, SeedsFirst, RightlySelected, RangesHold, Base, Seeds;
    OnlyManifestsAsk(input, name);
    if name in Base(input) {
      MachineAsksFirst(input, s, name);
    } else {
      var first := On(s.constraints, name)[0];
      assert first in On(s.constraints, name);
      NoSeedOn(input, first);
      ConstraintKind(input, s, first);
    }
  }

  lemma NoSeedOn(input: Input, c: Constraint)
    ensures c in Seeds(input) ==> c.name in Base(input)
  {}

  /** The version tag on a commit is the only one there. */
  lemma OneCandidatePerCommit(input: Input, name: string, v: Version)
    requires DistinctCommits(input) && name in input.packages && v in Candidates(input.packages[name].tags)
    ensures TagOf(v) in input.packages[name].tags
    ensures Highest(CandidatesAt(input.packages[name].tags, input.packages[name].tags[TagOf(v)])) == Some(v)
  {
    var tags := input.packages[name].tags;
    var tag :| tag in tags && ParseTag(tag) == Some(v);
    TagDetermined(tag);
    assert v in CandidatesAt(tags, tags[tag]);
    forall w | w in CandidatesAt(tags, tags[tag]) ensures w == v {
      var other :| other in tags && tags[other] == tags[tag] && ParseTag(other) == Some(w);
      assert other == tag;
    }
  }

  lemma HighestCarries(input: Input, ceiling: Option<Version>, name: string, first: Constraint, ranges: seq<Range>)
    requires DistinctCommits(input) && KindFits(input, name, first.kind)
    requires SelectHighest(input, ceiling, name, first, ranges).Ok?
    ensures CarriesCommitVersion(input, name, SelectHighest(input, ceiling, name, first, ranges).value)
  {
    hide KindMatters, RequiredAsSkill, Base;
    var v := Highest(Admissible(input.packages[name].tags, ceiling, ranges)).value;
    OneCandidatePerCommit(input, name, v);
    CandidateHasTag(input.packages[name].tags, v);
    ParseOfPrint(v);
  }

  lemma ExactCarries(input: Input, name: string, first: Constraint, g: Gathered)
    requires g.commits != [] && KindFits(input, name, first.kind)
      && (name !in Base(input) ==> AskedExactly(input, name))
    requires SelectExact(input, name, first, g).Ok?
    ensures CarriesCommitVersion(input, name, SelectExact(input, name, first, g).value)
  {
    hide RequiredAsSkill, Base, AskedExactly;
  }

  /** Path overlays gather their path, and other names no path. */
  lemma {:induction false} GatherPath(input: Input, cs: seq<Constraint>, name: string)
    requires Composed(input) && Gather(input, cs).Ok?
    requires forall c :: c in cs ==> c.name == name && (c in Seeds(input) || c.form != ByPath)
    ensures Gather(input, cs).value.path.Some? ==>
      exists c :: c in cs && c in Seeds(input) && IsPathSeed(c) && c.overlay == Gather(input, cs).value.path
    ensures (exists c :: c in cs && c in Seeds(input) && IsPathSeed(c)) ==> Gather(input, cs).value.path.Some?
  {
    hide ParseRange, Composed, Seeds;
    if cs != [] {
      var front, last := cs[..|cs| - 1], cs[|cs| - 1];
      assert cs == front + [last];
      GatherPath(input, front, name);
      forall c | c in cs && c in Seeds(input) && last in Seeds(input)
        ensures c == last
      {
        SeedsDistinct(input, c, last);
      }
    }
  }

  /** On a path overlay's name, the path decides. */
  lemma PathChoice(input: Input, ceiling: Option<Version>, name: string, cs: seq<Constraint>)
    requires Composed(input) && PathName(input, name) && cs != []
    requires forall c :: c in cs ==> c.name == name && (c in Seeds(input) || c.form != ByPath)
    requires forall c :: c in Seeds(input) && c.name == name ==> c in cs
    requires Choose(input, ceiling, name, cs).Ok?
    ensures CarriesPathVersion(input, name, Choose(input, ceiling, name, cs).value)
  {
    GatherPath(input, cs, name);
    var fix :| fix in cs && fix in Seeds(input) && IsPathSeed(fix) && fix.overlay == Gather(input, cs).value.path;
    forall c | c in Seeds(input) && c.name == name ensures c == fix { SeedsDistinct(input, c, fix); }
  }

  /** On another name, the commit decides, and every range admits its version. */
  lemma CommitChoice(input: Input, ceiling: Option<Version>, name: string, cs: seq<Constraint>)
    requires Composed(input) && DistinctCommits(input) && !PathName(input, name) && cs != []
    requires forall c :: c in cs ==> c.name == name && (c in Seeds(input) || c.form != ByPath)
    requires KindFits(input, name, cs[0].kind)
    requires forall c :: c in cs && IsExact(c.form) && name !in Base(input) ==> AskedExactly(input, name)
    requires Choose(input, ceiling, name, cs).Ok?
    ensures CarriesCommitVersion(input, name, Choose(input, ceiling, name, cs).value)
    ensures Gather(input, cs).Ok? && forall range :: range in Gather(input, cs).value.ranges ==>
      var version := Choose(input, ceiling, name, cs).value.version;
      version.Some? && RangeSatisfies(range, version.value)
  {
    GatherPath(input, cs, name);
    var g := Gather(input, cs).value;
    if g.commits != [] {
      var exact := CommitComesFrom(input, cs);
      ExactCarries(input, name, cs[0], g);
    } else {
      HighestCarries(input, ceiling, name, cs[0], g.ranges);
    }
  }

  /** A choice has the right version and satisfies every range of the constraints it was made from. */
  lemma ChoiceIsRight(input: Input, s: State, name: string, cs: seq<Constraint>)
    requires Orderly(input) && CInv(input, s) && cs == On(s.constraints, name) && cs != []
    requires Choose(input, Get(s.ceiling, name), name, cs).Ok?
    ensures RightVersion(input, name, Choose(input, Get(s.ceiling, name), name, cs).value)
    ensures !PathName(input, name) ==> forall c :: c in cs && c.form == ByRange ==>
      Admitted(c, Choose(input, Get(s.ceiling, name), name, cs).value.version)
  {
    forall c | c in cs
      ensures c in Seeds(input) || c.form != ByPath
      ensures IsExact(c.form) && name !in Base(input) ==> AskedExactly(input, name)
    {
      if c !in Seeds(input) { ConstraintKind(input, s, c); }
    }
    FirstKindFits(input, s, name);
    if PathName(input, name) {
      PathChoice(input, Get(s.ceiling, name), name, cs);
    } else {
      CommitChoice(input, Get(s.ceiling, name), name, cs);
      GatherHasRanges(input, cs);
    }
  }

  // ------------------------------------------------------ steps keep CInv

  lemma InitCInv(input: Input)
    ensures CInv(input, Init(input))
  {
    InitInv(input);
    NothingSelectedYet(input);
  }

  lemma HandleSeedsFirst(input: Input, s: State, name: string)
    requires SeedsFirst(input, s) && Handle(input, s, name).Ok?
    ensures SeedsFirst(input, Handle(input, s, name).value)
  {
    hide Choose, Without, Expansion, Seeds, DroppedNames, NamesOf;
    var cs := On(s.constraints, name);
    var requirer := if name in s.selected then Member(name, s.selected[name].version) else Member(name, None);
    SeedsStayFirst(input, s.constraints, requirer, []);
    assert Without(s.constraints, requirer) + [] == Without(s.constraints, requirer);
    if cs != [] {
      var next := Choose(input, Get(s.ceiling, name), name, cs).value;
      SeedsStayFirst(input, s.constraints, requirer, Expansion(name, next));
    }
  }

  lemma IdleRangesHold(input: Input, s: State, name: string)
    requires RangesHold(input, s)
    requires forall c :: c in s.constraints && c.name == name && c.form == ByRange && !PathName(input, name) ==>
      Holds(s, c)
    ensures RangesHold(input, Idle(s, name))
  {
    forall c | c in s.constraints && c.form == ByRange && c.name !in Idle(s, name).pending && !PathName(input, c.name)
      ensures Holds(Idle(s, name), c)
    {
      assert Holds(s, c);
    }
  }

  lemma NothingOn(s: State, name: string)
    requires On(s.constraints, name) == []
    ensures forall c :: c in s.constraints ==> c.name != name
  {
    forall c | c in s.constraints ensures c.name != name {
      assert c.name == name ==> c in On(s.constraints, name);
    }
  }

  lemma LeaveRangesHold(input: Input, s: State, name: string)
    requires RangesHold(input, s) && name in s.selected && On(s.constraints, name) == []
    ensures RangesHold(input, Leave(s, name))
  {
    var after := Leave(s, name);
    forall c | c in after.constraints && c.form == ByRange && c.name !in after.pending && !PathName(input, c.name)
      ensures Holds(after, c)
    {
      NothingOn(s, name);
      assert Holds(s, c);
    }
  }

  lemma PlaceRangesHold(input: Input, s: State, name: string, next: Selection)
    requires Attributed(input, s) && RangesHold(input, s)
    requires !PathName(input, name) ==>
      forall c :: c in s.constraints && c.name == name && c.form == ByRange ==> Admitted(c, next.version)
    ensures RangesHold(input, Place(s, name, next))
  {
    hide Attributed, Expansion, Without, DroppedNames, ParseRange, RangeSatisfies;
    var after := Place(s, name, next);
    forall c | c in after.constraints && c.form == ByRange && c.name !in after.pending && !PathName(input, c.name)
      ensures Holds(after, c)
    {
      PlaceUntouched(input, s, name, next, c.name);
      if c.name != name { assert Holds(s, c); }
    }
  }

  lemma SamePinSameVersion(input: Input, name: string, a: Selection, b: Selection)
    requires !PathName(input, name) && RightVersion(input, name, a) && RightVersion(input, name, b)
    requires SamePin(a, b)
    ensures a.version == b.version
  {}

  lemma HandleCInv(input: Input, s: State, name: string)
    requires Orderly(input) && CInv(input, s) && Handle(input, s, name).Ok?
    ensures CInv(input, Handle(input, s, name).value)
  {
    hide Orderly, Inv, Sourced, SeedsFirst, RangesHold, RightVersion, Choose;
    HandleInv(input, s, name);
    HandleSourced(input, s, name);
    HandleSeedsFirst(input, s, name);
    HandleRangesHold(input, s, name);
    if On(s.constraints, name) != [] { ChoiceIsRight(input, s, name, On(s.constraints, name)); }
  }

  lemma HandleRangesHold(input: Input, s: State, name: string)
    requires Orderly(input) && CInv(input, s) && Handle(input, s, name).Ok?
    ensures RangesHold(input, Handle(input, s, name).value)
  {
    hide Orderly, Sourced, SeedsFirst, RangesHold, RightVersion, Choose, InOrder, CeilingsMatch, Attributed;
    var cs := On(s.constraints, name);
    if cs == [] {
      NothingOn(s, name);
      if name in s.selected { LeaveRangesHold(input, s, name); } else { IdleRangesHold(input, s, name); }
    } else {
      ChoiceIsRight(input, s, name, cs);
      var next := Choose(input, Get(s.ceiling, name), name, cs).value;
      if name in s.selected && SamePin(s.selected[name], next) {
        if !PathName(input, name) { SamePinSameVersion(input, name, s.selected[name], next); }
        IdleRangesHold(input, s, name);
      } else {
        PlaceRangesHold(input, s, name, next);
      }
    }
  }

  lemma {:induction false} RunCInv(input: Input, run: seq<State>, i: nat)
    requires Orderly(input) && IsRun(input, run) && i < |run|
    ensures CInv(input, run[i])
  {
    hide Orderly, CInv, Handle, Init;
    if i == 0 {
      InitCInv(input);
    } else {
      RunCInv(input, run, i - 1);
      assert Next(input, run[i - 1], run[i - 1 + 1]);
      HandleCInv(input, run[i - 1], Least(run[i - 1].pending));
    }
  }

  /**
   * When the worklist is empty, the final check refuses only on account of path
   * overlays: it passes exactly when every range on a path overlay's name admits
   * the version the path's manifest declares.
   */
  lemma CheckRefusesOnlyPaths(input: Input, run: seq<State>)
    requires Orderly(input) && IsRun(input, run) && run[|run| - 1].pending == {}
    ensures var s := run[|run| - 1];
      Check(s, s.constraints).None? <==>
      forall seed, c :: seed in Seeds(input) && IsPathSeed(seed) && c in s.constraints && c.name == seed.name
        && c.form == ByRange
        ==> Admitted(c, PathVersion(seed.overlay.value))
  {
    var s := run[|run| - 1];
    RunCInv(input, run, |run| - 1);
    forall c | c in s.constraints && !(c.form == ByRange && PathName(input, c.name)) ensures Holds(s, c) {
      assert Constrained(s, c.name);
    }
    forall c | c in s.constraints && c.form == ByRange && PathName(input, c.name)
      ensures Holds(s, c) <==> Admitted(c, s.selected[c.name].version)
      ensures exists seed :: seed in Seeds(input) && IsPathSeed(seed) && seed.name == c.name
    {
      assert Constrained(s, c.name);
    }
    forall seed, c | seed in Seeds(input) && IsPathSeed(seed) && c in s.constraints && c.name == seed.name
      && c.form == ByRange
      ensures Holds(s, c) <==> Admitted(c, PathVersion(seed.overlay.value))
    {
      assert PathName(input, c.name) && Constrained(s, c.name);
    }
  }

  ghost predicate NoPathSeeds(input: Input) {
    forall seed :: seed in Seeds(input) ==> !IsPathSeed(seed)
  }

  /** Without path overlays the final check never refuses. */
  lemma CheckNeverRefusesWithoutPaths(input: Input, run: seq<State>)
    requires Orderly(input) && NoPathSeeds(input) && IsRun(input, run) && run[|run| - 1].pending == {}
    ensures Check(run[|run| - 1], run[|run| - 1].constraints).None?
  {
    CheckRefusesOnlyPaths(input, run);
  }

  /** So with manifests that state ranges, whatever kinds they ask for. */
  lemma CheckNeverRefusesRanges(input: Input, run: seq<State>)
    requires Composed(input) && RangeManifests(input) && DistinctCommits(input) && NoPathSeeds(input)
    requires IsRun(input, run) && run[|run| - 1].pending == {}
    ensures Check(run[|run| - 1], run[|run| - 1].constraints).None?
  {
    RangeManifestsAreOrderly(input);
    CheckNeverRefusesWithoutPaths(input, run);
  }

  // ------------------------------------------------- inputs without circles

  /** What the lock's members require is part of what the input's manifests may require. */
  lemma RequirementsAreAllowed(input: Input, s: State, a: string, b: string)
    requires Sourced(input, s) && Edge(Requirements(s), a, b)
    ensures Edge(MayRequire(input), a, b)
  {
    hide ManifestsOf;
    assert SourcedAt(input, a, s.selected[a]);
    var m := s.selected[a].manifest.value;
    var r :| r in m.requires_ && r.name == b;
    assert m in ManifestsOf(input, a);
  }

  /**
   * When no manifests of the input can require each other in a circle, every member of
   * the lock of every finished run is reached from the root or an overlay.
   */
  lemma AcyclicInputsGroundLocks(input: Input, run: seq<State>)
    requires Acyclic(MayRequire(input)) && IsRun(input, run) && run[|run| - 1].pending == {}
    ensures var s := run[|run| - 1]; forall name :: name in LockOf(s) ==> Grounded(input, s, name)
  {
    hide MayRequire, Sourced, Requirements, Grounded;
    var s := run[|run| - 1];
    RunSourced(input, run, |run| - 1);
    forall a, b | Edge(Requirements(s), a, b)
      ensures Edge(MayRequire(input), a, b)
    {
      RequirementsAreAllowed(input, s, a, b);
    }
    SubgraphAcyclic(Requirements(s), MayRequire(input));
    FinishedRunsMakeExactLocks(input, run);
  }
}
