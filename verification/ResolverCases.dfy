/** Evaluation of the resolver on inputs written out in full. */
module ResolverCases {
  import opened Wrappers
  import opened Texts
  import opened Semver
  import opened Ranges
  import opened RangeText
  import opened Resolver

  const V1: Version := Version(1, 0, 0, [])
  const V2: Version := Version(2, 0, 0, [])

  lemma OnLast(front: seq<Constraint>, c: Constraint, name: string)
    ensures On(front + [c], name) == if c.name == name then On(front, name) + [c] else On(front, name)
  {
    assert (front + [c])[..|front|] == front;
  }

  lemma OnThree(x: Constraint, y: Constraint, z: Constraint, name: string)
    ensures On([x], name) == if x.name == name then [x] else []
    ensures On([x, y], name) == On([x], name) + if y.name == name then [y] else []
    ensures On([x, y, z], name) == On([x, y], name) + if z.name == name then [z] else []
  {
    hide On;
    NothingOnEmpty(name);
    OnLast([], x, name);
    OnLast([x], y, name);
    OnLast([x, y], z, name);
    assert [] + [x] == [x] && [x] + [y] == [x, y] && [x, y] + [z] == [x, y, z];
  }

  lemma NothingOnEmpty(name: string)
    ensures On([], name) == []
  {}

  lemma {:induction false} OnNone(cs: seq<Constraint>, name: string)
    requires forall c :: c in cs ==> c.name != name
    ensures On(cs, name) == []
  {
    if cs != [] { OnNone(cs[..|cs| - 1], name); }
  }

  /** The constraints on a name, found up to the last one. */
  lemma {:induction false} OnUpTo(front: seq<Constraint>, c: Constraint, back: seq<Constraint>, name: string)
    requires c.name == name && forall x :: x in back ==> x.name != name
    ensures On(front + [c] + back, name) == On(front, name) + [c]
    decreases |back|
  {
    hide On;
    if back == [] {
      OnLast(front, c, name);
      assert front + [c] + back == front + [c];
    } else {
      var rest, last := back[..|back| - 1], back[|back| - 1];
      OnUpTo(front, c, rest, name);
      OnLast(front + [c] + rest, last, name);
      assert front + [c] + back == front + [c] + rest + [last];
    }
  }

  lemma OnTwo(front: seq<Constraint>, x: Constraint, between: seq<Constraint>, y: Constraint, name: string)
    requires x.name == name && y.name == name && forall c :: c in front || c in between ==> c.name != name
    ensures On(front + [x] + between + [y], name) == [x, y]
  {
    hide On;
    OnNone(front, name);
    OnUpTo(front, x, between, name);
    OnLast(front + [x] + between, y, name);
  }

  lemma NothingLeftOfEmpty(requirer: Requirer)
    ensures Without([], requirer) == []
  {}

  lemma WithoutTwo(x: Constraint, y: Constraint, requirer: Requirer)
    ensures Without([x], requirer) == if x.requirer == requirer then [] else [x]
    ensures Without([x, y], requirer) == Without([x], requirer) + if y.requirer == requirer then [] else [y]
  {
    hide Without;
    NothingLeftOfEmpty(requirer);
    assert [] + [x] == [x];
    WithoutLast([], x, requirer);
    assert [x] + [y] == [x, y];
    WithoutLast([x], y, requirer);
  }

  lemma WithoutThree(x: Constraint, y: Constraint, z: Constraint, requirer: Requirer)
    ensures Without([x], requirer) == if x.requirer == requirer then [] else [x]
    ensures Without([x, y], requirer) == Without([x], requirer) + if y.requirer == requirer then [] else [y]
    ensures Without([x, y, z], requirer) == Without([x, y], requirer) + if z.requirer == requirer then [] else [z]
  {
    hide Without;
    WithoutTwo(x, y, requirer);
    assert [x, y] + [z] == [x, y, z];
    WithoutLast([x, y], z, requirer);
  }

  lemma DroppedOne(constraints: seq<Constraint>, at: nat, requirer: Requirer)
    requires at < |constraints|
    requires forall i :: 0 <= i < |constraints| ==> (constraints[i].requirer == requirer <==> i == at)
    ensures DroppedNames(constraints, requirer) == {constraints[at].name}
  {}

  lemma VersionsPrinted()
    ensures Print(V1) == "1.0.0" && Print(V2) == "2.0.0"
  {
    assert Numeral(0) == "0" && Numeral(1) == "1" && Numeral(2) == "2";
    assert PrintCore(V1) == "1.0.0" && PrintCore(V2) == "2.0.0";
  }

  lemma VersionsRead()
    ensures Print(V1) == "1.0.0" && ParseVersion("1.0.0") == Parsed(V1, true)
    ensures ParseVersion("2.0.0") == Parsed(V2, true)
    ensures ParseTag("v1.0.0") == Some(V1)
  {
    hide Print, ParseVersion;
    VersionsPrinted();
    ParseOfPrint(V1);
    ParseOfPrint(V2);
    assert "v1.0.0"[1..] == "1.0.0";
  }

  lemma StarAdmits(v: Version)
    requires v.Stable()
    ensures AdmitsAll([[[Any]]], v)
  {
    SingleSatisfies(Any, v);
    assert [Any] in [[Any]];
  }

  lemma GatherLast(input: Input, front: seq<Constraint>, c: Constraint, g: Gathered)
    requires Gather(input, front) == Ok(g)
    ensures Gather(input, front + [c]) == GatherOne(input, g, c)
  {
    hide GatherOne;
    assert (front + [c])[..|front|] == front;
  }

  lemma NothingGathered(input: Input)
    ensures Gather(input, []) == Ok(Gathered(None, [], []))
  {}

  predicate Anything(c: Constraint) { c.form == ByRange && c.value == "*" && c.overlay == None && c.directory == "" }

  lemma StarGathered(input: Input, star: Constraint)
    requires Anything(star)
    ensures Gather(input, [star]) == Ok(Gathered(None, [], [[[Any]]]))
  {
    hide Gather, ParseRange;
    NothingGathered(input);
    StarParses();
    GatherLast(input, [], star, Gathered(None, [], []));
    assert [] + [star] == [star] && [] + [[[Any]]] == [[[Any]]];
  }

  lemma StarAndPinGathered(input: Input, star: Constraint, pin: Constraint)
    requires Anything(star) && pin.form == ByRevision
    ensures Gather(input, [star, pin]) == Ok(Gathered(None, [pin.value], [[[Any]]]))
  {
    hide Gather;
    StarGathered(input, star);
    GatherLast(input, [star], pin, Gathered(None, [], [[[Any]]]));
    assert [star] + [pin] == [star, pin] && [] + [pin.value] == [pin.value];
  }

  lemma PinGathered(input: Input, pin: Constraint)
    requires pin.form == ByRevision
    ensures Gather(input, [pin]) == Ok(Gathered(None, [pin.value], []))
  {
    hide Gather;
    NothingGathered(input);
    GatherLast(input, [], pin, Gathered(None, [], []));
    assert [] + [pin] == [pin] && [] + [pin.value] == [pin.value];
  }

  lemma OnlyTagAt(commit: string)
    ensures Candidates(map["v1.0.0" := commit]) == {V1} && CandidatesAt(map["v1.0.0" := commit], commit) == {V1}
    ensures Highest(Admissible(map["v1.0.0" := commit], None, [[[Any]]])) == Some(V1)
  {
    hide ParseRange, ParseVersion, AdmitsAll, ParseTag, Print;
    VersionsRead();
    StarAdmits(V1);
    var tags := map["v1.0.0" := commit];
    assert "v1.0.0" in tags;
    assert Candidates(tags) == {V1};
    assert Admissible(tags, None, [[[Any]]]) == {V1};
  }

  /** A context under any version, with one version tag and the manifest to match. */
  lemma OnlyVersionChosen(input: Input, star: Constraint, commit: string, commits: map<string, Manifest>)
    requires Anything(star) && star.kind == Context
    requires star.name in input.packages && input.packages[star.name] == Package("", map["v1.0.0" := commit], commits)
    requires commit in commits && commits[commit].version == "1.0.0"
    ensures Choose(input, None, star.name, [star])
      == Ok(Selection(Context, Some(V1), commit, "", "", "", Some(commits[commit]), None))
  {
    hide Gather, LastOverlay, ParseRange, ParseVersion, AdmitsAll, ParseTag, Print, Admissible;
    StarGathered(input, star);
    OnlyTagAt(commit);
    VersionsRead();
    assert TagOf(V1) == "v1.0.0";
    NoOverlay(star, star);
  }

  /** A context under any version and a pin to a commit whose manifest declares a known one. */
  lemma PinnedContextChosen(input: Input, ceiling: Option<Version>, star: Constraint, pin: Constraint)
    requires Anything(star) && star.kind == Context && pin.form == ByRevision && pin.overlay == None
    requires star.name in input.packages && input.packages[star.name].source == ""
      && pin.value in input.packages[star.name].commits
    requires input.packages[star.name].commits[pin.value].version in {"1.0.0", "2.0.0"}
    ensures var m := input.packages[star.name].commits[pin.value];
      Choose(input, ceiling, star.name, [star, pin])
      == Ok(Selection(Context, Some(if m.version == "1.0.0" then V1 else V2), pin.value, "", "", "", Some(m), None))
  {
    hide Gather, LastOverlay, ParseRange, ParseVersion, AdmitsAll, Print;
    StarAndPinGathered(input, star, pin);
    VersionsRead();
    StarAdmits(V1);
    StarAdmits(V2);
    NoOverlay(star, pin);
  }

  /** A skill at a commit without a version tag. */
  lemma UntaggedSkillChosen(input: Input, pin: Constraint)
    requires pin.form == ByRevision && pin.kind == Skill && pin.overlay == None && pin.directory == ""
    requires pin.name in input.packages && input.packages[pin.name].source == ""
      && input.packages[pin.name].tags == map[]
    ensures Choose(input, None, pin.name, [pin])
         == Ok(Selection(Skill, None, pin.value, "", "", "", Get(input.packages[pin.name].commits, pin.value), None))
  {
    hide Gather, LastOverlay;
    PinGathered(input, pin);
    assert CandidatesAt(map[], pin.value) == {};
    NoOverlay(pin, pin);
  }

  lemma NoOverlay(x: Constraint, y: Constraint)
    requires x.overlay == None && y.overlay == None
    ensures LastOverlay([x], None) == None && LastOverlay([x, y], None) == None
  {
    assert [x][..0] == [] && [x, y][..1] == [x];
  }

  lemma ExpansionOne(name: string, sel: Selection, r: Requirement)
    requires sel.manifest.Some? && sel.manifest.value.requires_ == [r]
    ensures Expansion(name, sel) == [Attribute(name, sel.version, r)]
    ensures NamesOf(Expansion(name, sel)) == {r.name}
  {}

  /** A step that selects a name not selected before, whose manifest asks for one thing. */
  lemma Enters(input: Input, s: State, name: string, cs: seq<Constraint>, sel: Selection, r: Requirement)
    requires IsLeast(name, s.pending) && On(s.constraints, name) == cs && cs != []
    requires Choose(input, Get(s.ceiling, name), name, cs) == Ok(sel) && name !in s.selected
    requires sel.manifest.Some? && sel.manifest.value.requires_ == [r]
    ensures Next(input, s, State(s.constraints + [Attribute(name, sel.version, r)], s.selected[name := sel],
                                 if sel.version.Some? then s.ceiling[name := sel.version.value] else s.ceiling,
                                 s.pending - {name} + {r.name}))
  {
    hide Choose, On, Expansion, Attribute, NamesOf;
    LeastUnique(name, Least(s.pending), s.pending);
    ExpansionOne(name, sel, r);
    assert s.pending - {name} + {} + {r.name} == s.pending - {name} + {r.name};
  }

  /** A step that replaces a selection by one with a version, whose manifest asks for one thing. */
  lemma Replaces(input: Input, s: State, name: string, cs: seq<Constraint>, sel: Selection, r: Requirement,
    kept: seq<Constraint>, freed: set<string>)
    requires IsLeast(name, s.pending) && On(s.constraints, name) == cs && cs != []
    requires Choose(input, Get(s.ceiling, name), name, cs) == Ok(sel) && name in s.selected
      && !SamePin(s.selected[name], sel)
    requires sel.manifest.Some? && sel.manifest.value.requires_ == [r] && sel.version.Some?
    requires Without(s.constraints, Member(name, s.selected[name].version)) == kept
    requires DroppedNames(s.constraints, Member(name, s.selected[name].version)) == freed
    ensures Next(input, s, State(kept + [Attribute(name, sel.version, r)], s.selected[name := sel],
                                 s.ceiling[name := sel.version.value], s.pending - {name} + freed + {r.name}))
  {
    hide Choose, On, Expansion, Attribute, NamesOf, Without, DroppedNames;
    LeastUnique(name, Least(s.pending), s.pending);
    ExpansionOne(name, sel, r);
  }

  /** A step that removes. */
  lemma Leaves(input: Input, s: State, name: string, kept: seq<Constraint>, freed: set<string>)
    requires IsLeast(name, s.pending) && On(s.constraints, name) == [] && name in s.selected
    requires Without(s.constraints, Member(name, s.selected[name].version)) == kept
    requires DroppedNames(s.constraints, Member(name, s.selected[name].version)) == freed
    ensures Next(input, s, State(kept, s.selected - {name}, s.ceiling, s.pending - {name} + freed))
  {
    hide Choose, On, Without, DroppedNames;
    LeastUnique(name, Least(s.pending), s.pending);
  }

  lemma AloneIsLeast(name: string)
    ensures IsLeast(name, {name})
  {}

  lemma FirstOfTwo(name: string, other: string)
    requires Below(name, other)
    ensures IsLeast(name, {name, other})
  {}

  lemma PassedOn(name: string, other: string)
    ensures {name} - {name} + {other} == {other}
  {}
}
