/**
 * The closure resolver as a state machine: one step takes the smallest pending
 * name and selects, re-selects, keeps or removes it.
 */
module Resolver {
  import opened Wrappers
  import opened Texts
  import opened Semver
  import opened Ranges

  // ------------------------------------------------------------- data model

  datatype Kind = Context | Skill | Mcp

  datatype Form = ByRange | ByTag | ByRevision | ByPath

  datatype Requirement = Requirement(kind: Kind, name: string, form: Form, value: string, directory: string)

  datatype Manifest = Manifest(version: string, requires_: seq<Requirement>)

  /** A package's tags name commits; a commit may carry a manifest. */
  datatype Package = Package(source: string, tags: map<string, string>, commits: map<string, Manifest>)

  /** A path overlay carries its own manifest and the digest of its state. */
  datatype Overlay = Overlay(name: string, form: Form, value: string, statePin: string, manifest: Option<Manifest>,
    directory: string)

  datatype Input = Input(
    root: string, rootForm: Form, rootValue: string, rootDirectory: string,
    overlays: seq<Overlay>, packages: map<string, Package>)

  /** Who asks: the machine, or a member at the version it was selected at. */
  datatype Requirer = Machine | Member(name: string, version: Option<Version>)

  datatype Constraint = Constraint(
    name: string, kind: Kind, requirer: Requirer, form: Form, value: string, directory: string,
      overlay: Option<Overlay>)

  datatype Selection = Selection(
    kind: Kind, version: Option<Version>, commit: string, statePin: string, source: string, directory: string,
    manifest: Option<Manifest>, overlay: Option<Overlay>)

  /** NilDereference stands for the places where a missing package or manifest stops the program. */
  datatype Error =
    | CompositionInvalid(name: string)
    | SourceInvalid(name: string, value: string)
    | RangeConflict(name: string)
    | ManifestInvalid(name: string)
    | VersionMismatch(name: string, tag: string)
    | NilDereference(name: string)

  datatype State = State(
    constraints: seq<Constraint>, selected: map<string, Selection>, ceiling: map<string, Version>, pending: set<string>)

  // ------------------------------------------------------------------ seeds

  function RootSeed(input: Input): Constraint {
    Constraint(input.root, Context, Machine, input.rootForm, input.rootValue, input.rootDirectory, None)
  }

  function OverlaySeed(overlay: Overlay): Constraint {
    Constraint(overlay.name, Context, Machine, overlay.form, overlay.value, overlay.directory, Some(overlay))
  }

  function Seeds(input: Input): (seeds: seq<Constraint>)
    ensures |seeds| == |input.overlays| + 1
  {
    [RootSeed(input)] + seq(|input.overlays|, i requires 0 <= i < |input.overlays| => OverlaySeed(input.overlays[i]))
  }

  function NamesOf(constraints: seq<Constraint>): (names: set<string>)
    ensures forall c :: c in constraints ==> c.name in names
  {
    set c | c in constraints :: c.name
  }

  /** No overlay repeats the root's name or another overlay's. */
  predicate Composed(input: Input) {
    && (forall i :: 0 <= i < |input.overlays| ==> input.overlays[i].name != input.root)
    && (forall i, j :: 0 <= i < j < |input.overlays| ==> input.overlays[i].name != input.overlays[j].name)
  }

  function Init(input: Input): State {
    State(Seeds(input), map[], map[], NamesOf(Seeds(input)))
  }

  // ------------------------------------------------------------ constraints

  function On(constraints: seq<Constraint>, name: string): (found: seq<Constraint>)
    ensures forall c :: c in found <==> c in constraints && c.name == name
  {
    if constraints == [] then []
    else
      var front := On(constraints[..|constraints| - 1], name);
      var last := constraints[|constraints| - 1];
      assert constraints == constraints[..|constraints| - 1] + [last];
      if last.name == name then front + [last] else front
  }

  /** The constraints left when one requirer's are dropped. */
  function Without(constraints: seq<Constraint>, requirer: Requirer): (kept: seq<Constraint>)
    ensures forall c :: c in kept <==> c in constraints && c.requirer != requirer
  {
    if constraints == [] then []
    else
      var front := Without(constraints[..|constraints| - 1], requirer);
      var last := constraints[|constraints| - 1];
      assert constraints == constraints[..|constraints| - 1] + [last];
      if last.requirer == requirer then front else front + [last]
  }

  lemma WithoutLast(front: seq<Constraint>, c: Constraint, requirer: Requirer)
    ensures Without(front + [c], requirer)
      == if c.requirer == requirer then Without(front, requirer) else Without(front, requirer) + [c]
  {
    assert (front + [c])[..|front|] == front;
  }

  function DroppedNames(constraints: seq<Constraint>, requirer: Requirer): (names: set<string>)
    ensures forall c :: c in constraints && c.requirer == requirer ==> c.name in names
  {
    set c | c in constraints && c.requirer == requirer :: c.name
  }

  /** The constraints a selection contributes: its manifest's requirements, attributed to it. */
  function Expansion(name: string, sel: Selection): (out: seq<Constraint>)
    ensures forall c :: c in out ==> c.requirer == Member(name, sel.version) && c.overlay == None
    ensures out != [] ==> sel.manifest.Some?
    ensures forall c :: c in out ==>
      exists r :: r in sel.manifest.value.requires_ && c == Attribute(name, sel.version, r)
    ensures sel.manifest.Some? ==> forall r :: r in sel.manifest.value.requires_ ==>
      Attribute(name, sel.version, r) in out
  {
    if sel.manifest.None? then []
    else
      var rs := sel.manifest.value.requires_;
      var out := seq(|rs|, i requires 0 <= i < |rs| => Attribute(name, sel.version, rs[i]));
      assert forall r :: r in rs ==> Attribute(name, sel.version, r) in out by {
        forall r | r in rs ensures Attribute(name, sel.version, r) in out {
          var i :| 0 <= i < |rs| && rs[i] == r;
          assert out[i] == Attribute(name, sel.version, r);
        }
      }
      out
  }

  function Attribute(name: string, version: Option<Version>, r: Requirement): Constraint {
    Constraint(r.name, r.kind, Member(name, version), r.form, r.value, r.directory, None)
  }

  // -------------------------------------------------------------- gathering

  /** What the constraints on one name add up to; the last path constraint decides the path. */
  datatype Gathered = Gathered(path: Option<Overlay>, commits: seq<string>, ranges: seq<Range>)

  function GatherOne(input: Input, g: Gathered, c: Constraint): Result<Gathered, Error> {
    match c.form
    case ByPath => Ok(g.(path := c.overlay))
    case ByRange =>
      (match ParseRange(c.value)
       case None => Err(SourceInvalid(c.name, c.value))
       case Some(range) => Ok(g.(ranges := g.ranges + [range])))
    case ByTag =>
      if c.name !in input.packages then Err(NilDereference(c.name))
      else (match Get(input.packages[c.name].tags, c.value)
            case None => Err(SourceInvalid(c.name, c.value))
            case Some(commit) => Ok(g.(commits := g.commits + [commit])))
    case ByRevision => Ok(g.(commits := g.commits + [c.value]))
  }

  /** Constraints are read in order; the first that cannot be read is reported. */
  function Gather(input: Input, cs: seq<Constraint>): Result<Gathered, Error> {
    if cs == [] then Ok(Gathered(None, [], []))
    else match Gather(input, cs[..|cs| - 1])
      case Err(e) => Err(e)
      case Ok(g) => GatherOne(input, g, cs[|cs| - 1])
  }

  // -------------------------------------------------------------- selection

  predicate AdmitsAll(ranges: seq<Range>, v: Version) {
    forall range :: range in ranges ==> RangeSatisfies(range, v)
  }

  /** The versions a package's tags spell; tags that spell none are no candidates. */
  function Candidates(tags: map<string, string>): set<Version> {
    set tag | tag in tags && ParseTag(tag).Some? :: ParseTag(tag).value
  }

  function CandidatesAt(tags: map<string, string>, commit: string): set<Version> {
    set tag | tag in tags && tags[tag] == commit && ParseTag(tag).Some? :: ParseTag(tag).value
  }

  function UnderCeiling(v: Version, ceiling: Option<Version>): bool {
    ceiling.Some? ==> Compare(v, ceiling.value) <= 0
  }

  function Admissible(tags: map<string, string>, ceiling: Option<Version>, ranges: seq<Range>): set<Version> {
    set v | v in Candidates(tags) && UnderCeiling(v, ceiling) && AdmitsAll(ranges, v)
  }

  predicate IsHighest(v: Version, versions: set<Version>) {
    v in versions && forall w :: w in versions ==> Compare(w, v) <= 0
  }

  lemma {:induction false} HighestExists(versions: set<Version>) returns (v: Version)
    requires versions != {}
    ensures IsHighest(v, versions)
    decreases |versions|
  {
    var pick :| pick in versions;
    CompareAntisymmetric(pick, pick);
    var rest := versions - {pick};
    if rest == {} {
      assert versions == {pick};
      return pick;
    }
    var high := HighestExists(rest);
    CompareAntisymmetric(pick, high);
    assert versions == rest + {pick};
    if Compare(pick, high) <= 0 { return high; }
    v := pick;
    forall w | w in versions ensures Compare(w, pick) <= 0 {
      if w != pick { CompareTransitive(w, high, pick); }
    }
  }

  ghost function Highest(versions: set<Version>): (v: Option<Version>)
    ensures v.None? <==> versions == {}
    ensures v.Some? ==> IsHighest(v.value, versions)
  {
    if versions == {} then None
    else
      assert exists v :: IsHighest(v, versions) by { var high := HighestExists(versions); }
      var v :| IsHighest(v, versions);
      Some(v)
  }

  /** A highest version of the set, or none of an empty one. Beyond 64 bits different versions can tie. */
  ghost predicate IsTop(top: Option<Version>, versions: set<Version>) {
    (top.None? <==> versions == {}) && (top.Some? ==> IsHighest(top.value, versions))
  }

  function SelectPath(name: string, kind: Kind, overlay: Overlay): Result<Selection, Error> {
    match overlay.manifest
    case None => Err(NilDereference(name))
    case Some(manifest) =>
      Ok(Selection(kind, Some(ParseVersion(manifest.version).version), "", overlay.statePin, "", "", Some(manifest),
        Some(overlay)))
  }

  /** The version an exact commit carries: a skill's highest version tag, else the manifest's own. */
  function ExactVersionGiven(name: string, kind: Kind, pkg: Package, commit: string,
    top: Option<Version>): Result<Option<Version>, Error> {
    if kind == Skill then Ok(top)
    else match Get(pkg.commits, commit)
      case None => Err(NilDereference(name))
      case Some(manifest) =>
        var parsed := ParseVersion(manifest.version);
        if parsed.ok then Ok(Some(parsed.version)) else Err(ManifestInvalid(name))
  }

  /** The exact arm, given the highest version tag on the commit. */
  function SelectExactGiven(input: Input, name: string, first: Constraint, g: Gathered,
    top: Option<Version>): Result<Selection, Error>
    requires g.commits != []
  {
    var commit := g.commits[0];
    if exists other :: other in g.commits && other != commit then Err(RangeConflict(name))
    else if name !in input.packages then Err(NilDereference(name))
    else
      var pkg := input.packages[name];
      match ExactVersionGiven(name, first.kind, pkg, commit, top)
      case Err(e) => Err(e)
      case Ok(version) =>
        if g.ranges != [] && (version.None? || !AdmitsAll(g.ranges, version.value)) then Err(RangeConflict(name))
        else Ok(Selection(first.kind, version, commit, "", pkg.source, first.directory, Get(pkg.commits, commit), None))
  }

  /** The range arm, given the highest admissible version. */
  function SelectHighestGiven(input: Input, name: string, first: Constraint, top: Option<Version>): Result<Selection,
    Error>
    requires name in input.packages ==> top.Some? ==> top.value in Candidates(input.packages[name].tags)
  {
    if name !in input.packages then Err(NilDereference(name))
    else
      var pkg := input.packages[name];
      match top
      case None => Err(RangeConflict(name))
      case Some(v) =>
        CandidateHasTag(pkg.tags, v);
        var commit := pkg.tags[TagOf(v)];
        var manifest := Get(pkg.commits, commit);
        if first.kind != Skill && (manifest.None? || manifest.value.version != Print(v))
          then Err(VersionMismatch(name, TagOf(v)))
        else Ok(Selection(first.kind, Some(v), commit, "", pkg.source, first.directory, manifest, None))
  }

  ghost function SelectExact(input: Input, name: string, first: Constraint, g: Gathered): Result<Selection, Error>
    requires g.commits != []
  {
    SelectExactGiven(input, name, first, g,
      if name in input.packages then Highest(CandidatesAt(input.packages[name].tags, g.commits[0])) else None)
  }

  ghost function SelectHighest(input: Input, ceiling: Option<Version>, name: string, first: Constraint,
    ranges: seq<Range>): Result<Selection, Error> {
    SelectHighestGiven(input, name, first,
      if name in input.packages then Highest(Admissible(input.packages[name].tags, ceiling, ranges)) else None)
  }

  lemma CandidateHasTag(tags: map<string, string>, v: Version)
    requires v in Candidates(tags)
    ensures TagOf(v) in tags && WellFormed(v)
  {
    var tag :| tag in tags && ParseTag(tag) == Some(v);
    TagDetermined(tag);
  }

  /** The last overlay declaration among the constraints, which the selection remembers. */
  function LastOverlay(cs: seq<Constraint>, otherwise: Option<Overlay>): Option<Overlay> {
    if cs == [] then otherwise
    else if cs[|cs| - 1].overlay.Some? then cs[|cs| - 1].overlay
    else LastOverlay(cs[..|cs| - 1], otherwise)
  }

  ghost function Pick(input: Input, ceiling: Option<Version>, name: string, cs: seq<Constraint>): Result<Selection,
    Error>
    requires cs != []
  {
    match Gather(input, cs)
    case Err(e) => Err(e)
    case Ok(g) =>
      if g.path.Some? then SelectPath(name, cs[0].kind, g.path.value)
      else if g.commits != [] then SelectExact(input, name, cs[0], g)
      else SelectHighest(input, ceiling, name, cs[0], g.ranges)
  }

  /** What the constraints on a name select. */
  ghost function Choose(input: Input, ceiling: Option<Version>, name: string, cs: seq<Constraint>): Result<Selection,
    Error>
    requires cs != []
  {
    match Pick(input, ceiling, name, cs)
    case Err(e) => Err(e)
    case Ok(sel) => Ok(sel.(overlay := LastOverlay(cs, sel.overlay)))
  }

  // ------------------------------------------------------------------ steps

  /** The name leaves the closure with everything it contributed. */
  function Leave(s: State, name: string): State
    requires name in s.selected
  {
    var requirer := Member(name, s.selected[name].version);
    State(Without(s.constraints, requirer), s.selected - {name}, s.ceiling,
          s.pending - {name} + DroppedNames(s.constraints, requirer))
  }

  predicate SamePin(a: Selection, b: Selection) { a.commit == b.commit && a.statePin == b.statePin }

  /** A new selection replaces the old one, contributes its own requirements and sets the ceiling. */
  function Place(s: State, name: string, next: Selection): State {
    var dropped := name in s.selected;
    var requirer := if dropped then Member(name, s.selected[name].version) else Machine;
    var kept := if dropped then Without(s.constraints, requirer) else s.constraints;
    var freed := if dropped then DroppedNames(s.constraints, requirer) else {};
    State(
      kept + Expansion(name, next),
      s.selected[name := next],
      if next.version.Some? then s.ceiling[name := next.version.value] else s.ceiling,
      s.pending - {name} + freed + NamesOf(Expansion(name, next)))
  }

  function Idle(s: State, name: string): State { s.(pending := s.pending - {name}) }

  ghost function Handle(input: Input, s: State, name: string): Result<State, Error> {
    var cs := On(s.constraints, name);
    if cs == [] then
      if name in s.selected then Ok(Leave(s, name)) else Ok(Idle(s, name))
    else match Choose(input, Get(s.ceiling, name), name, cs)
      case Err(e) => Err(e)
      case Ok(next) =>
        if name in s.selected && SamePin(s.selected[name], next) then Ok(Idle(s, name))
        else Ok(Place(s, name, next))
  }

  /** One iteration of the worklist: the smallest pending name is handled. */
  ghost function Step(input: Input, s: State): Result<State, Error>
    requires s.pending != {}
  {
    Handle(input, s, Least(s.pending))
  }

  ghost predicate Next(input: Input, a: State, b: State) {
    a.pending != {} && Step(input, a) == Ok(b)
  }

  /** A finite run of the worklist from its seeds. */
  ghost predicate IsRun(input: Input, run: seq<State>) {
    && |run| >= 1 && run[0] == Init(input)
    && forall i :: 0 <= i < |run| - 1 ==> Next(input, run[i], run[i + 1])
  }

  // ------------------------------------------------------------ final check

  predicate Holds(s: State, c: Constraint) {
    && c.name in s.selected
    && (c.form == ByRange ==>
          var version := s.selected[c.name].version;
          version.Some? && ParseRange(c.value).Some? && RangeSatisfies(ParseRange(c.value).value, version.value))
  }

  /** The final pass over the constraints, which reports the first that does not hold. */
  function Check(s: State, constraints: seq<Constraint>): Option<Error>
    ensures Check(s, constraints).None? <==> forall c :: c in constraints ==> Holds(s, c)
  {
    if constraints == [] then None
    else if !Holds(s, constraints[0]) then Some(RangeConflict(constraints[0].name))
    else Check(s, constraints[1..])
  }

  // ------------------------------------------------------------------- lock

  datatype LockMember = LockMember(
    kind: Kind, version: Option<Version>, source: string, commit: string, directory: string, statePin: string,
    requiredBy: set<string>, overlay: bool)

  type Lock = map<string, LockMember>

  /** The direct requirers the constraints record for a name; the machine is not one. */
  function RequiredBy(constraints: seq<Constraint>, name: string): set<string> {
    set c | c in constraints && c.name == name && c.requirer.Member? :: c.requirer.name
  }

  function MemberOf(s: State, name: string): LockMember
    requires name in s.selected
  {
    var sel := s.selected[name];
    var requiredBy := RequiredBy(s.constraints, name);
    if sel.statePin != "" then
      LockMember(sel.kind, sel.version, "", "", "", sel.statePin, requiredBy, sel.overlay.Some?)
    else
      LockMember(sel.kind, sel.version, sel.source, sel.commit, sel.directory, "", requiredBy, sel.overlay.Some?)
  }

  function LockOf(s: State): Lock {
    map name | name in s.selected :: MemberOf(s, name)
  }
}
