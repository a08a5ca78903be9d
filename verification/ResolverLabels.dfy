/**
 * Requirers as the program writes them. It compares their labels as text, so two
 * requirers can be taken for one; here is when they are not, and what happens when they are.
 */
module ResolverLabels {
  import opened Wrappers
  import opened Texts
  import opened Semver
  import opened Ranges
  import opened Graphs
  import opened Resolver
  import opened ResolverInvariants
  import opened ResolverChoices
  import opened ResolverSources
  import opened ResolverSafety

  const MACHINE: string := "machine"

  function Label(r: Requirer): string {
    match r
    case Machine => MACHINE
    case Member(name, None) => name
    case Member(name, Some(v)) => name + ['@'] + Print(v)
  }

  // ---------------------------------------------------------- drops by label

  /** The constraints left when those that carry a label are dropped. */
  function WithoutLabel(constraints: seq<Constraint>, mark: string): (kept: seq<Constraint>)
    ensures forall c :: c in kept <==> c in constraints && Label(c.requirer) != mark
  {
    if constraints == [] then []
    else
      var front, last := WithoutLabel(constraints[..|constraints| - 1], mark), constraints[|constraints| - 1];
      assert constraints == constraints[..|constraints| - 1] + [last];
      if Label(last.requirer) == mark then front else front + [last]
  }

  function DroppedByLabel(constraints: seq<Constraint>, mark: string): set<string> {
    set c | c in constraints && Label(c.requirer) == mark :: c.name
  }

  /** No other requirer among the constraints has the requirer's label. */
  predicate OwnLabel(constraints: seq<Constraint>, r: Requirer) {
    forall c :: c in constraints && Label(c.requirer) == Label(r) ==> c.requirer == r
  }

  /** Dropping by label drops exactly one requirer's constraints when, and only when, the label is its own. */
  lemma {:induction false} LabelDropIffOwn(constraints: seq<Constraint>, r: Requirer)
    ensures WithoutLabel(constraints, Label(r)) == Without(constraints, r) <==> OwnLabel(constraints, r)
    ensures OwnLabel(constraints, r) ==> DroppedByLabel(constraints, Label(r)) == DroppedNames(constraints, r)
  {
    hide Label;
    if WithoutLabel(constraints, Label(r)) == Without(constraints, r) {
      forall c | c in constraints && Label(c.requirer) == Label(r) ensures c.requirer == r {
        assert c !in WithoutLabel(constraints, Label(r));
      }
    }
    if OwnLabel(constraints, r) && constraints != [] {
      var front, last := constraints[..|constraints| - 1], constraints[|constraints| - 1];
      assert constraints == front + [last];
      LabelDropIffOwn(front, r);
    }
  }

  // ------------------------------------------------------- steps by label

  function LeaveByLabel(s: State, name: string): State
    requires name in s.selected
  {
    var mark := Label(Member(name, s.selected[name].version));
    State(WithoutLabel(s.constraints, mark), s.selected - {name}, s.ceiling,
      s.pending - {name} + DroppedByLabel(s.constraints, mark))
  }

  function PlaceByLabel(s: State, name: string, next: Selection): State {
    var dropped := name in s.selected;
    var mark := if dropped then Label(Member(name, s.selected[name].version)) else "";
    var kept := if dropped then WithoutLabel(s.constraints, mark) else s.constraints;
    var freed := if dropped then DroppedByLabel(s.constraints, mark) else {};
    State(
      kept + Expansion(name, next),
      s.selected[name := next],
      if next.version.Some? then s.ceiling[name := next.version.value] else s.ceiling,
      s.pending - {name} + freed + NamesOf(Expansion(name, next)))
  }

  ghost function HandleByLabel(input: Input, s: State, name: string): Result<State, Error> {
    var cs := On(s.constraints, name);
    if cs == [] then
      if name in s.selected then Ok(LeaveByLabel(s, name)) else Ok(Idle(s, name))
    else match Choose(input, Get(s.ceiling, name), name, cs)
      case Err(e) => Err(e)
      case Ok(next) =>
        if name in s.selected && SamePin(s.selected[name], next) then Ok(Idle(s, name))
        else Ok(PlaceByLabel(s, name, next))
  }

  /** One iteration of the worklist, dropping by label as the program does. */
  ghost function StepByLabel(input: Input, s: State): Result<State, Error>
    requires s.pending != {}
  {
    HandleByLabel(input, s, Least(s.pending))
  }

  ghost predicate NextByLabel(input: Input, a: State, b: State) {
    a.pending != {} && StepByLabel(input, a) == Ok(b)
  }

  ghost predicate IsLabelRun(input: Input, run: seq<State>) {
    && |run| >= 1 && run[0] == Init(input)
    && forall i :: 0 <= i < |run| - 1 ==> NextByLabel(input, run[i], run[i + 1])
  }

  /** Every selected name's label is its own. */
  ghost predicate LabelsApart(s: State) {
    forall name :: name in s.selected ==> OwnLabel(s.constraints, Member(name, s.selected[name].version))
  }

  lemma HandlesAgree(input: Input, s: State, name: string)
    requires LabelsApart(s)
    ensures HandleByLabel(input, s, name) == Handle(input, s, name)
  {
    hide Choose, On, Label, OwnLabel, WithoutLabel, DroppedByLabel, Without, DroppedNames, Expansion;
    if name in s.selected { LabelDropIffOwn(s.constraints, Member(name, s.selected[name].version)); }
  }

  // -------------------------------------------------- which labels collide

  lemma {:induction false} JoinHasNo(parts: seq<string>, c: char)
    requires parts != [] && c != '.' && forall part :: part in parts ==> c !in part
    ensures c !in Join(parts, '.')
  {
    if |parts| > 1 {
      JoinHasNo(parts[1..], c);
      assert c !in parts[0];
    }
  }

  lemma PrintHasNoAt(v: Version)
    requires WellFormed(v)
    ensures '@' !in Print(v)
  {
    assert IsDigits(PrintInt(v.major)) && IsDigits(PrintInt(v.minor)) && IsDigits(PrintInt(v.patch));
    forall part | part in v.prerelease ensures '@' !in part { assert Identifier(part); }
    if !v.Stable() { JoinHasNo(v.prerelease, '@'); }
  }

  lemma ParsedIsWellFormed(text: string)
    ensures WellFormed(ParseVersion(text).version)
  {
    hide Identifier, Split, IndexOf;
  }

  ghost predicate Printable(version: Option<Version>) { version.Some? ==> WellFormed(version.value) }

  /** The last `@` is where the version starts. */
  lemma SplitAtLast(a: string, p: string, b: string, q: string)
    requires '@' !in p && '@' !in q && a + ['@'] + p == b + ['@'] + q
    ensures a == b
  {
    NotBefore(a, p, b, q);
    NotBefore(b, q, a, p);
    assert a == (a + ['@'] + p)[..|a|] && b == (b + ['@'] + q)[..|b|];
  }

  lemma NotBefore(a: string, p: string, b: string, q: string)
    requires '@' !in p && a + ['@'] + p == b + ['@'] + q
    ensures |a| >= |b|
  {
    var text := a + ['@'] + p;
    assert text == b + ['@'] + q && text[|b|] == '@';
    assert forall i :: |a| < i < |text| ==> text[i] == p[i - |a| - 1];
  }

  /** A requirer some constraint of a reachable state can have: the machine, or a selected name at its version. */
  predicate RequirerOf(s: State, r: Requirer) {
    r.Member? ==> r.name in s.selected && r.version == s.selected[r.name].version
  }

  /** An unversioned member whose bare name spells another requirer's label. */
  predicate Impersonates(r: Requirer, other: Requirer) {
    r.Member? && r.version.None? && r.name == Label(other) && (other.Machine? || other.version.Some?)
  }

  ghost predicate AllPrintable(s: State) { forall name :: name in s.selected ==> Printable(s.selected[name].version) }

  /** Two requirers of a reachable state share a label exactly when one of them impersonates the other. */
  lemma LabelsCollideIff(s: State, a: Requirer, b: Requirer)
    requires AllPrintable(s) && RequirerOf(s, a) && RequirerOf(s, b) && a != b
    ensures Label(a) == Label(b) <==> Impersonates(a, b) || Impersonates(b, a)
  {
    hide Print;
    if a.Member? && a.version.Some? {
      PrintHasNoAt(a.version.value);
      assert Label(a)[|a.name|] == '@';
      assert '@' !in MACHINE;
    }
    if b.Member? && b.version.Some? {
      PrintHasNoAt(b.version.value);
      assert Label(b)[|b.name|] == '@';
      assert '@' !in MACHINE;
    }
    if a.Member? && b.Member? && a.version.Some? && b.version.Some? && Label(a) == Label(b) {
      SplitAtLast(a.name, Print(a.version.value), b.name, Print(b.version.value));
    }
  }

  // ------------------------------------------- inputs whose labels are safe

  /** No name that a manifest asks for exactly can be read as another requirer's label. */
  ghost predicate LabelsSafe(input: Input) {
    forall name :: AskedExactly(input, name) ==> name != MACHINE && '@' !in name
  }

  /** Manifests that state ranges ask for nothing exactly. */
  lemma RangeManifestsAreSafe(input: Input)
    requires RangeManifests(input)
    ensures LabelsSafe(input)
  {
    RangeManifestsStateRanges(input);
  }

  /** Only a skill that a manifest asks for exactly is selected without a version. */
  ghost predicate UnversionedAreAsked(input: Input, s: State) {
    forall name :: name in s.selected && s.selected[name].version.None? ==> AskedExactly(input, name)
  }

  /** What the labels of a reachable state rest on. */
  ghost predicate LabelInv(input: Input, s: State) {
    Inv(input, s) && Sourced(input, s) && SeedsFirst(input, s) && UnversionedAreAsked(input, s) && AllPrintable(s)
  }

  lemma UnversionedChoice(input: Input, s: State, name: string, cs: seq<Constraint>)
    requires Inv(input, s) && Sourced(input, s) && SeedsFirst(input, s) && cs == On(s.constraints, name) && cs != []
    requires Choose(input, Get(s.ceiling, name), name, cs).Ok?
      && Choose(input, Get(s.ceiling, name), name, cs).value.version.None?
    ensures AskedExactly(input, name)
  {
    hide Inv, Sourced, AskedExactly, Gather, Highest, Admissible, ParseRange, LastOverlay;
    var g := Gather(input, cs).value;
    assert g.path.None? && g.commits != [] && cs[0].kind == Skill;
    var c := CommitComesFrom(input, cs);
    if c in Seeds(input) {
      FirstLiesInFront(Seeds(input), s.constraints, c);
      assert false;
    }
    ContributedIsAsked(input, s, c);
  }

  lemma CandidatePrintable(tags: map<string, string>, v: Version)
    requires v in Candidates(tags)
    ensures WellFormed(v)
  {
    CandidateHasTag(tags, v);
  }

  lemma ChoicePrintable(input: Input, ceiling: Option<Version>, name: string, cs: seq<Constraint>)
    requires cs != [] && Choose(input, ceiling, name, cs).Ok?
    ensures Printable(Choose(input, ceiling, name, cs).value.version)
  {
    hide Gather, WellFormed, ParseVersion, ParseRange, LastOverlay;
    var g := Gather(input, cs).value;
    if g.path.Some? {
      ParsedIsWellFormed(g.path.value.manifest.value.version);
    } else if g.commits != [] {
      var pkg := input.packages[name];
      if cs[0].kind == Skill {
        var version := Highest(CandidatesAt(pkg.tags, g.commits[0]));
        if version.Some? { CandidatePrintable(pkg.tags, version.value); }
      } else {
        ParsedIsWellFormed(pkg.commits[g.commits[0]].version);
      }
    } else {
      CandidatePrintable(input.packages[name].tags,
        Highest(Admissible(input.packages[name].tags, ceiling, g.ranges)).value);
    }
  }

  lemma PlaceLabelInv(input: Input, s: State, name: string, next: Selection)
    requires LabelInv(input, s) && Printable(next.version) && (next.version.None? ==> AskedExactly(input, name))
    ensures UnversionedAreAsked(input, Place(s, name, next)) && AllPrintable(Place(s, name, next))
  {
    hide Inv, Sourced, AskedExactly, Seeds, Expansion, DroppedNames, Without, NamesOf, WellFormed;
  }

  lemma HandleLabelInv(input: Input, s: State, name: string)
    requires LabelInv(input, s) && Handle(input, s, name).Ok?
    ensures LabelInv(input, Handle(input, s, name).value)
  {
    hide Inv, Sourced, AskedExactly, Choose, Place, Printable, Seeds, Without, DroppedNames;
    HandleInv(input, s, name);
    HandleSourced(input, s, name);
    HandleSeedsFirst(input, s, name);
    var cs := On(s.constraints, name);
    if cs != [] {
      var next := Choose(input, Get(s.ceiling, name), name, cs).value;
      ChoicePrintable(input, Get(s.ceiling, name), name, cs);
      if next.version.None? { UnversionedChoice(input, s, name, cs); }
      PlaceLabelInv(input, s, name, next);
    }
  }

  lemma RequirersKnown(input: Input, s: State, c: Constraint)
    requires Inv(input, s) && c in s.constraints
    ensures RequirerOf(s, c.requirer)
  {
    if c !in Seeds(input) { var k :| k in s.selected && ContributedBy(s, k, c); }
  }

  /** With safe labels, every requirer of a reachable state has a label of its own. */
  lemma SafeLabelsApart(input: Input, s: State)
    requires LabelsSafe(input) && LabelInv(input, s)
    ensures LabelsApart(s)
  {
    hide Inv, Sourced, AskedExactly, Print, SeedsFirst;
    forall name, c | name in s.selected && c in s.constraints
      && Label(c.requirer) == Label(Member(name, s.selected[name].version))
      ensures c.requirer == Member(name, s.selected[name].version)
    {
      var r := Member(name, s.selected[name].version);
      RequirersKnown(input, s, c);
      NoImpersonation(input, s, r, c.requirer);
      NoImpersonation(input, s, c.requirer, r);
      if c.requirer != r { LabelsCollideIff(s, r, c.requirer); }
    }
  }

  lemma NoImpersonation(input: Input, s: State, r: Requirer, other: Requirer)
    requires LabelsSafe(input) && UnversionedAreAsked(input, s) && RequirerOf(s, r)
    ensures !Impersonates(r, other)
  {
    hide AskedExactly, Print;
    if other.Member? && other.version.Some? { assert Label(other)[|other.name|] == '@'; }
  }

  lemma StartLabelInv(input: Input)
    ensures LabelInv(input, Init(input))
  {
    InitInv(input);
    NothingSelectedYet(input);
  }

  /** With safe labels the program's runs are the state machine's, and the invariants hold along them. */
  lemma {:induction false} LabelRunsAreRuns(input: Input, run: seq<State>)
    requires LabelsSafe(input) && |run| >= 1
    ensures IsLabelRun(input, run) <==> IsRun(input, run)
    ensures IsRun(input, run) ==> LabelInv(input, run[|run| - 1])
    decreases |run|
  {
    hide LabelInv, Step, StepByLabel, LabelsSafe, Init;
    if |run| == 1 {
      StartLabelInv(input);
    } else {
      var front, last := run[..|run| - 1], run[|run| - 2];
      LabelRunsAreRuns(input, front);
      RunSplits(input, run);
      LabelRunSplits(input, run);
      if IsRun(input, front) && last.pending != {} { StepsAgree(input, last); }
    }
  }

  lemma RunSplits(input: Input, run: seq<State>)
    requires |run| >= 2
    ensures IsRun(input, run) <==> IsRun(input, run[..|run| - 1]) && Next(input, run[|run| - 2], run[|run| - 1])
  {
    hide Next, Init;
    var front := run[..|run| - 1];
    if IsRun(input, front) && Next(input, run[|run| - 2], run[|run| - 1]) {
      forall i | 0 <= i < |run| - 1 ensures Next(input, run[i], run[i + 1]) {
        if i < |front| - 1 { assert Next(input, front[i], front[i + 1]); }
      }
    }
    if IsRun(input, run) {
      forall i | 0 <= i < |front| - 1
        ensures Next(input, front[i], front[i + 1])
      {
        assert Next(input, run[i], run[i + 1]);
      }
      assert Next(input, run[|run| - 2], run[|run| - 2 + 1]);
    }
  }

  lemma LabelRunSplits(input: Input, run: seq<State>)
    requires |run| >= 2
    ensures IsLabelRun(input, run)
      <==> IsLabelRun(input, run[..|run| - 1]) && NextByLabel(input, run[|run| - 2], run[|run| - 1])
  {
    hide NextByLabel, Init;
    var front := run[..|run| - 1];
    if IsLabelRun(input, front) && NextByLabel(input, run[|run| - 2], run[|run| - 1]) {
      forall i | 0 <= i < |run| - 1 ensures NextByLabel(input, run[i], run[i + 1]) {
        if i < |front| - 1 { assert NextByLabel(input, front[i], front[i + 1]); }
      }
    }
    if IsLabelRun(input, run) {
      forall i | 0 <= i < |front| - 1
        ensures NextByLabel(input, front[i], front[i + 1])
      {
        assert NextByLabel(input, run[i], run[i + 1]);
      }
      assert NextByLabel(input, run[|run| - 2], run[|run| - 2 + 1]);
    }
  }

  /** With safe labels a step by label is a step of the state machine. */
  lemma StepsAgree(input: Input, s: State)
    requires LabelsSafe(input) && LabelInv(input, s) && s.pending != {}
    ensures StepByLabel(input, s) == Step(input, s)
    ensures Step(input, s).Ok? ==> LabelInv(input, Step(input, s).value)
  {
    hide LabelInv, LabelsSafe, LabelsApart, Handle, HandleByLabel;
    SafeLabelsApart(input, s);
    HandlesAgree(input, s, Least(s.pending));
    if Step(input, s).Ok? { HandleLabelInv(input, s, Least(s.pending)); }
  }

  /** So the program's finished runs make exact locks, fully reached when manifests cannot require in circles. */
  lemma LabelRunsMakeExactLocks(input: Input, run: seq<State>)
    requires LabelsSafe(input) && IsLabelRun(input, run) && run[|run| - 1].pending == {}
    ensures var s := run[|run| - 1];
      ExactLock(input, s, LockOf(s)) && (Acyclic(MayRequire(input)) ==> forall name :: name in LockOf(s) ==>
        Grounded(input, s, name))
  {
    hide LabelsSafe, IsRun, MayRequire, Grounded, ExactLock;
    LabelRunsAreRuns(input, run);
    FinishedRunsMakeExactLocks(input, run);
    if Acyclic(MayRequire(input)) { AcyclicInputsGroundLocks(input, run); }
  }
}
