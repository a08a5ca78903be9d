/** Where selections come from, and what the input's manifests may therefore require of each other. */
module ResolverSources {
  import opened Wrappers
  import opened Texts
  import opened Semver
  import opened Ranges
  import opened Graphs
  import opened Resolver
  import opened ResolverInvariants
  import opened ResolverChoices

  /** Names that can be selected. */
  function Universe(input: Input): set<string> {
    input.packages.Keys + (set i | 0 <= i < |input.overlays| :: input.overlays[i].name)
  }

  function Targets(m: Option<Manifest>): set<string> {
    if m.None? then {} else set r | r in m.value.requires_ :: r.name
  }

  function Base(input: Input): set<string> { NamesOf(Seeds(input)) }

  lemma TargetsOfExpansion(name: string, sel: Selection, target: string)
    ensures target in Targets(sel.manifest) <==> exists c :: c in Expansion(name, sel) && c.name == target
  {
    if target in Targets(sel.manifest) {
      var r :| r in sel.manifest.value.requires_ && r.name == target;
      assert Attribute(name, sel.version, r) in Expansion(name, sel);
    }
  }

  /** Every manifest the input holds under a name. */
  function ManifestsOf(input: Input, name: string): set<Manifest> {
    (if name in input.packages then input.packages[name].commits.Values else {})
    + (set i | 0 <= i < |input.overlays| && input.overlays[i].name == name && input.overlays[i].manifest.Some? ::
      input.overlays[i].manifest.value)
  }

  /** Everything a name may require at whatever it is selected. */
  function MayRequire(input: Input): Edges<string> {
    map name | name in Universe(input) :: set m, r | m in ManifestsOf(input, name) && r in m.requires_ :: r.name
  }

  /** Every selected manifest is one the input holds under the selected name. */
  ghost predicate Sourced(input: Input, s: State) {
    forall name :: name in s.selected ==> SourcedAt(input, name, s.selected[name])
  }

  ghost predicate SourcedAt(input: Input, name: string, sel: Selection) {
    name in Universe(input) && (sel.manifest.Some? ==> sel.manifest.value in ManifestsOf(input, name))
  }

  lemma OverlaySourced(input: Input, c: Constraint)
    requires c in Seeds(input) && c.overlay.Some?
    ensures c.name in Universe(input)
    ensures c.overlay.value.manifest.Some? ==> c.overlay.value.manifest.value in ManifestsOf(input, c.name)
  {
    var i :| 0 <= i < |Seeds(input)| && Seeds(input)[i] == c;
    assert c == OverlaySeed(input.overlays[i - 1]);
  }

  lemma CommitSourced(input: Input, name: string, commit: string)
    requires name in input.packages
    ensures var m := Get(input.packages[name].commits, commit); m.Some? ==> m.value in ManifestsOf(input, name)
  {}

  lemma ChoiceSourced(input: Input, ceiling: Option<Version>, name: string, cs: seq<Constraint>)
    requires cs != [] && forall c :: c in cs ==> c.name == name && (c.overlay.Some? ==> c in Seeds(input))
    requires Choose(input, ceiling, name, cs).Ok?
    ensures SourcedAt(input, name, Choose(input, ceiling, name, cs).value)
  {
    hide Gather, Highest, Admissible, ManifestsOf, ParseRange, LastOverlay;
    var g := Gather(input, cs).value;
    if g.path.Some? {
      var c := PathComesFrom(input, cs);
      OverlaySourced(input, c);
    } else {
      CommitSourced(input, name, Choose(input, ceiling, name, cs).value.commit);
    }
  }

  /** Only the machine's constraints carry an overlay. */
  lemma NoOverlayElsewhere(input: Input, s: State, c: Constraint)
    requires Inv(input, s) && c in s.constraints && c !in Seeds(input)
    ensures c.overlay.None?
  {
    var k :| k in s.selected && ContributedBy(s, k, c);
  }

  lemma HandleSourced(input: Input, s: State, name: string)
    requires Inv(input, s) && Sourced(input, s) && Handle(input, s, name).Ok?
    ensures Sourced(input, Handle(input, s, name).value)
  {
    hide Inv, Choose, SourcedAt, Expansion, Without, DroppedNames;
    var cs := On(s.constraints, name);
    if cs != [] {
      forall c | c in cs && c !in Seeds(input) ensures c.overlay.None? { NoOverlayElsewhere(input, s, c); }
      ChoiceSourced(input, Get(s.ceiling, name), name, cs);
    }
  }

  lemma {:induction false} RunSourced(input: Input, run: seq<State>, i: nat)
    requires IsRun(input, run) && i < |run|
    ensures Sourced(input, run[i])
  {
    hide Handle, Sourced;
    if i == 0 {
      NothingSelectedYet(input);
    } else {
      RunSourced(input, run, i - 1);
      RunInv(input, run, i - 1);
      assert Next(input, run[i - 1], run[i - 1 + 1]);
      HandleSourced(input, run[i - 1], Least(run[i - 1].pending));
    }
  }

  lemma NothingSelectedYet(input: Input)
    ensures Sourced(input, Init(input))
  {}

  // ------------------------------------------------- the machine comes first

  lemma {:induction false} WithoutNothing(constraints: seq<Constraint>, requirer: Requirer)
    requires forall c :: c in constraints ==> c.requirer != requirer
    ensures Without(constraints, requirer) == constraints
  {
    if constraints != [] {
      WithoutNothing(constraints[..|constraints| - 1], requirer);
      assert constraints == constraints[..|constraints| - 1] + [constraints[|constraints| - 1]];
    }
  }

  lemma {:induction false} WithoutKeepsFront(front: seq<Constraint>, back: seq<Constraint>, requirer: Requirer)
    requires forall c :: c in front ==> c.requirer != requirer
    ensures Without(front + back, requirer) == front + Without(back, requirer)
    decreases |back|
  {
    hide Without;
    if back != [] {
      var rest, last := back[..|back| - 1], back[|back| - 1];
      assert back == rest + [last] && front + back == front + rest + [last];
      WithoutKeepsFront(front, rest, requirer);
      WithoutLast(rest, last, requirer);
      WithoutLast(front + rest, last, requirer);
    } else {
      assert front + back == front;
      WithoutNothing(front, requirer);
      WithoutNothing([], requirer);
    }
  }

  /** The machine's constraints stand first and stay there. */
  predicate SeedsFirst(input: Input, s: State) { Seeds(input) <= s.constraints }

  lemma SeedsStayFirst(input: Input, constraints: seq<Constraint>, requirer: Requirer, more: seq<Constraint>)
    requires Seeds(input) <= constraints && requirer.Member?
    ensures Seeds(input) <= Without(constraints, requirer) + more && Seeds(input) <= constraints + more
  {
    var seeds := Seeds(input);
    WithoutKeepsFront(seeds, constraints[|seeds|..], requirer);
    assert constraints == seeds + constraints[|seeds|..];
  }

  /** The first constraint on a name lies in a front that has one on it. */
  lemma {:induction false} FirstLiesInFront(front: seq<Constraint>, constraints: seq<Constraint>, c: Constraint)
    requires front <= constraints && c in front
    ensures On(constraints, c.name) != [] && On(constraints, c.name)[0] in front
  {
    assert c in On(constraints, c.name);
    if |constraints| > |front| {
      FirstLiesInFront(front, constraints[..|constraints| - 1], c);
    } else {
      assert constraints == front;
      assert On(constraints, c.name)[0] in On(constraints, c.name);
    }
  }

  /** Where the machine asks for a name, its constraint comes first, and it asks for a context. */
  lemma MachineAsksFirst(input: Input, s: State, name: string)
    requires SeedsFirst(input, s) && name in Base(input)
    ensures On(s.constraints, name) != []
    ensures On(s.constraints, name)[0] in Seeds(input) && On(s.constraints, name)[0].kind == Context
  {
    var seed :| seed in Seeds(input) && seed.name == name;
    FirstLiesInFront(Seeds(input), s.constraints, seed);
    SeedsAskForContexts(input, On(s.constraints, name)[0]);
  }

  lemma SeedsAskForContexts(input: Input, c: Constraint)
    ensures c in Seeds(input) ==> c.kind == Context
  {}

  // ------------------------------------------------------- asked exactly

  /** Some manifest of the input states the requirement. */
  ghost predicate Stated(input: Input, r: Requirement) {
    exists k, m :: m in ManifestsOf(input, k) && r in m.requires_
  }

  /** Some manifest of the input asks for the name by tag or revision. */
  ghost predicate AskedExactly(input: Input, name: string) {
    exists r :: Stated(input, r) && r.name == name && IsExact(r.form)
  }

  /** What is not the machine's was stated by some manifest. */
  lemma ContributedIsStated(input: Input, s: State, c: Constraint) returns (r: Requirement)
    requires Inv(input, s) && Sourced(input, s) && c in s.constraints && c !in Seeds(input)
    ensures Stated(input, r) && c.name == r.name && c.kind == r.kind && c.form == r.form && c.value == r.value
    ensures c.directory == r.directory && c.overlay.None?
  {
    hide ManifestsOf;
    var k :| k in s.selected && ContributedBy(s, k, c);
    assert SourcedAt(input, k, s.selected[k]);
    var m := s.selected[k].manifest.value;
    r :| r in m.requires_ && c == Attribute(k, s.selected[k].version, r);
    assert m in ManifestsOf(input, k) && r in m.requires_;
  }

  lemma ContributedIsAsked(input: Input, s: State, c: Constraint)
    requires Inv(input, s) && Sourced(input, s) && c in s.constraints && c !in Seeds(input) && IsExact(c.form)
    ensures AskedExactly(input, c.name)
  {
    hide Stated, Inv, Sourced, Seeds;
    var r := ContributedIsStated(input, s, c);
  }

  /** Range-form manifests ask for nothing exactly. */
  lemma RangeManifestsStateRanges(input: Input)
    requires RangeManifests(input)
    ensures forall r :: Stated(input, r) ==> r.form == ByRange
  {
    forall r | Stated(input, r) ensures r.form == ByRange {
      var k, m :| m in ManifestsOf(input, k) && r in m.requires_;
      HeldAsksByRange(input, k, m);
    }
  }

  lemma HeldAsksByRange(input: Input, name: string, m: Manifest)
    requires RangeManifests(input) && m in ManifestsOf(input, name)
    ensures AsksByRange(m)
  {
    if name in input.packages && m in input.packages[name].commits.Values {
      var commit :| commit in input.packages[name].commits && input.packages[name].commits[commit] == m;
    }
  }
}
