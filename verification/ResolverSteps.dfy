/** What a step can change: the handled name, and others only where that name may require them. */
module ResolverSteps {
  import opened Wrappers
  import opened Semver
  import opened Graphs
  import opened Resolver
  import opened ResolverInvariants
  import opened ResolverChoices
  import opened ResolverSources
  import opened ResolverLevels

  // ------------------------------------------------ what fixes a selection

  /** The constraints on a name that are no ranges. */
  function OutrightOn(constraints: seq<Constraint>, name: string): (found: seq<Constraint>)
    ensures forall c :: c in found <==> c in constraints && c.name == name && c.form != ByRange
  {
    if constraints == [] then []
    else
      var front, last := constraints[..|constraints| - 1], constraints[|constraints| - 1];
      assert constraints == front + [last];
      OutrightOn(front, name) + if last.name == name && last.form != ByRange then [last] else []
  }

  lemma OutrightLast(front: seq<Constraint>, c: Constraint, name: string)
    ensures OutrightOn(front + [c], name)
         == OutrightOn(front, name) + if c.name == name && c.form != ByRange then [c] else []
  {
    assert (front + [c])[..|front|] == front;
  }

  lemma {:induction false} OutrightOfOn(constraints: seq<Constraint>, name: string)
    ensures OutrightOn(On(constraints, name), name) == OutrightOn(constraints, name)
  {
    if constraints != [] {
      var front, last := constraints[..|constraints| - 1], constraints[|constraints| - 1];
      OutrightOfOn(front, name);
      if last.name == name { OutrightLast(On(front, name), last, name); }
    }
  }

  /** The path the constraints leave standing: the last path constraint decides. */
  function PathOf(outright: seq<Constraint>): Option<Overlay> {
    if outright == [] then None
    else if outright[|outright| - 1].form == ByPath then outright[|outright| - 1].overlay
    else PathOf(outright[..|outright| - 1])
  }

  function CommitsOf(input: Input, outright: seq<Constraint>): seq<string> {
    if outright == [] then []
    else CommitsOf(input, outright[..|outright| - 1]) + PinsOf(input, outright[|outright| - 1])
  }

  /** Ranges add nothing to the path and the commits that are gathered. */
  lemma {:induction false} GatheredOutright(input: Input, cs: seq<Constraint>, name: string)
    requires Gather(input, cs).Ok? && forall c :: c in cs ==> c.name == name
    ensures Gather(input, cs).value.path == PathOf(OutrightOn(cs, name))
    ensures Gather(input, cs).value.commits == CommitsOf(input, OutrightOn(cs, name))
  {
    hide GatherOne, PinsOf;
    if cs != [] {
      var front, last := cs[..|cs| - 1], cs[|cs| - 1];
      assert cs == front + [last] && last in cs;
      GatheredOutright(input, front, name);
      GatherOneAdds(input, Gather(input, front).value, last);
      OutrightLast(front, last, name);
      var before := OutrightOn(front, name);
      if last.form == ByRange {
        RangePinsNothing(input, last);
        assert before + [] == before && CommitsOf(input, before) + [] == CommitsOf(input, before);
      } else {
        assert (before + [last])[..|before|] == before;
      }
    }
  }

  lemma RangePinsNothing(input: Input, c: Constraint)
    requires c.form == ByRange
    ensures PinsOf(input, c) == []
  {}

  /** Something other than ranges decides what the name is selected at. */
  predicate Held(input: Input, s: State, name: string) {
    var outright := OutrightOn(s.constraints, name);
    PathOf(outright).Some? || CommitsOf(input, outright) != []
  }

  /** The commit and the state a held name is selected at. */
  function PinOf(input: Input, outright: seq<Constraint>): (string, string) {
    if PathOf(outright).Some? then ("", PathOf(outright).value.statePin)
    else if CommitsOf(input, outright) != [] then (CommitsOf(input, outright)[0], "")
    else ("", "")
  }

  lemma HeldChoice(input: Input, s: State, name: string)
    requires On(s.constraints, name) != [] && Held(input, s, name)
    requires Choose(input, Get(s.ceiling, name), name, On(s.constraints, name)).Ok?
    ensures var sel := Choose(input, Get(s.ceiling, name), name, On(s.constraints, name)).value;
      (sel.commit, sel.statePin) == PinOf(input, OutrightOn(s.constraints, name))
  {
    var cs := On(s.constraints, name);
    GatheredOutright(input, cs, name);
    OutrightOfOn(s.constraints, name);
  }

  lemma FreeChoice(input: Input, s: State, name: string)
    requires On(s.constraints, name) != [] && !Held(input, s, name)
    requires Choose(input, Get(s.ceiling, name), name, On(s.constraints, name)).Ok?
    ensures Gather(input, On(s.constraints, name)).value.path.None?
    ensures Gather(input, On(s.constraints, name)).value.commits == []
  {
    GatheredOutright(input, On(s.constraints, name), name);
    OutrightOfOn(s.constraints, name);
  }

  lemma UnconstrainedIsFree(input: Input, s: State, name: string)
    requires On(s.constraints, name) == []
    ensures !Held(input, s, name)
  {
    OutrightOfOn(s.constraints, name);
    assert OutrightOn([], name) == [];
  }

  // ---------------------------------------------------- what a step touches

  /** Names a run can put on the worklist. */
  function Names(input: Input): set<string> {
    Base(input) + set a, b | a in MayRequire(input) && b in MayRequire(input)[a] :: b
  }

  ghost predicate TInv(input: Input, s: State) {
    Inv(input, s) && Sourced(input, s) && s.pending <= Names(input)
  }

  lemma InitTInv(input: Input)
    ensures TInv(input, Init(input))
  {
    InitInv(input);
    NothingSelectedYet(input);
  }

  /** Handling one name changes that name, and other names' constraints only where it may require them. */
  ghost predicate Touches(input: Input, s: State, after: State, name: string) {
    && (forall n :: n != name
         ==> Get(after.selected, n) == Get(s.selected, n) && Get(after.ceiling, n) == Get(s.ceiling, n))
    && (forall n :: Level(input, n) <= Level(input, name) ==>
          OutrightOn(after.constraints, n) == OutrightOn(s.constraints, n))
    && (forall c: Constraint :: c.requirer.Machine? || c.requirer.name != name ==>
          (c in after.constraints <==> c in s.constraints))
    && s.pending - {name} <= after.pending
    && (forall n :: n in after.pending ==> (n in s.pending && n != name) || Edge(MayRequire(input), name, n))
  }

  /** The constraints a name may contribute: where it may require, and outright only outside its circle. */
  ghost predicate Lawful(input: Input, c: Constraint, name: string) {
    Edge(MayRequire(input), name, c.name) && (c.form != ByRange ==> AsksOutright(input, name, c.name))
  }

  lemma ExpansionLawful(input: Input, name: string, sel: Selection, c: Constraint)
    requires SourcedAt(input, name, sel) && c in Expansion(name, sel)
    ensures Lawful(input, c, name)
  {
    hide ManifestsOf;
    var m := sel.manifest.value;
    var r :| r in m.requires_ && c == Attribute(name, sel.version, r);
    assert m in ManifestsOf(input, name);
  }

  lemma ContributedLawful(input: Input, s: State, c: Constraint)
    requires Inv(input, s) && Sourced(input, s) && c in s.constraints && c !in Seeds(input)
    ensures c.requirer.Member? && c.requirer.name in s.selected && Lawful(input, c, c.requirer.name)
    ensures ContributedBy(s, c.requirer.name, c)
  {
    hide Lawful, SourcedAt;
    var k :| k in s.selected && ContributedBy(s, k, c);
    assert SourcedAt(input, k, s.selected[k]);
    ExpansionLawful(input, k, s.selected[k], c);
  }

  /** A lawful constraint that is no range lies on a higher level. */
  lemma LawfulLevels(input: Input, c: Constraint, name: string)
    requires Terminating(input) && Lawful(input, c, name)
    ensures Level(input, name) <= Level(input, c.name)
    ensures c.form != ByRange ==> Level(input, name) < Level(input, c.name)
  {
    hide AsksOutright, MayReach;
    LevelsRise(input, name, c.name);
    EdgeReaches(input, name, c.name);
  }

  lemma {:induction false} OutrightWithout(constraints: seq<Constraint>, requirer: Requirer, name: string)
    requires forall c :: c in constraints && c.requirer == requirer && c.name == name ==> c.form == ByRange
    ensures OutrightOn(Without(constraints, requirer), name) == OutrightOn(constraints, name)
  {
    if constraints != [] {
      var front, last := constraints[..|constraints| - 1], constraints[|constraints| - 1];
      assert constraints == front + [last];
      OutrightWithout(front, requirer, name);
      if last.requirer != requirer { OutrightLast(Without(front, requirer), last, name); }
      if last.requirer == requirer { assert last in constraints; }
      assert OutrightOn(front, name) + [] == OutrightOn(front, name);
    }
  }

  lemma {:induction false} OutrightAppend(constraints: seq<Constraint>, more: seq<Constraint>, name: string)
    requires forall c :: c in more && c.name == name ==> c.form == ByRange
    ensures OutrightOn(constraints + more, name) == OutrightOn(constraints, name)
    decreases |more|
  {
    if more == [] {
      assert constraints + more == constraints;
    } else {
      var front, last := more[..|more| - 1], more[|more| - 1];
      assert more == front + [last] && last in more && constraints + more == constraints + front + [last];
      OutrightAppend(constraints, front, name);
      OutrightLast(constraints + front, last, name);
      assert OutrightOn(constraints, name) + [] == OutrightOn(constraints, name);
    }
  }

  lemma IdleTouches(input: Input, s: State, name: string)
    ensures Touches(input, s, Idle(s, name), name)
  {}

  lemma SeedsAreTheMachines(input: Input, c: Constraint)
    ensures c in Seeds(input) ==> c.requirer == Machine
  {}

  /** What a name contributed changes nothing outright up to its own level. */
  lemma DropKeepsOutright(input: Input, s: State, name: string, n: string)
    requires Terminating(input) && TInv(input, s) && name in s.selected && Level(input, n) <= Level(input, name)
    ensures OutrightOn(Without(s.constraints, Member(name, s.selected[name].version)), n)
      == OutrightOn(s.constraints, n)
  {
    hide Level, Lawful, Terminating, OutrightOn, Without, Inv, Sourced, Seeds, Names;
    var requirer := Member(name, s.selected[name].version);
    forall c | c in s.constraints && c.requirer == requirer && c.name == n ensures c.form == ByRange {
      SeedsAreTheMachines(input, c);
      ContributedLawful(input, s, c);
      LawfulLevels(input, c, name);
    }
    OutrightWithout(s.constraints, requirer, n);
  }

  lemma DroppedAreRequired(input: Input, s: State, name: string, n: string)
    requires TInv(input, s) && name in s.selected
      && n in DroppedNames(s.constraints, Member(name, s.selected[name].version))
    ensures Edge(MayRequire(input), name, n)
  {
    hide MayRequire, Edge, Inv, Sourced, Seeds, Names;
    var c :| c in s.constraints && c.requirer == Member(name, s.selected[name].version) && c.name == n;
    SeedsAreTheMachines(input, c);
    ContributedLawful(input, s, c);
  }

  lemma LeaveTouches(input: Input, s: State, name: string)
    requires Terminating(input) && TInv(input, s) && name in s.selected
    ensures Touches(input, s, Leave(s, name), name)
  {
    hide Level, Edge, MayRequire, OutrightOn, TInv, Terminating;
    forall n | Level(input, n) <= Level(input, name)
      ensures OutrightOn(Leave(s, name).constraints, n) == OutrightOn(s.constraints, n)
    {
      DropKeepsOutright(input, s, name, n);
    }
    forall n | n in DroppedNames(s.constraints, Member(name, s.selected[name].version))
      ensures Edge(MayRequire(input), name, n)
    {
      DroppedAreRequired(input, s, name, n);
    }
  }

  lemma ExpansionKeepsOutright(input: Input, constraints: seq<Constraint>, name: string, next: Selection, n: string)
    requires Terminating(input) && SourcedAt(input, name, next) && Level(input, n) <= Level(input, name)
    ensures OutrightOn(constraints + Expansion(name, next), n) == OutrightOn(constraints, n)
  {
    hide Level, Lawful, Terminating, SourcedAt;
    forall c | c in Expansion(name, next) && c.name == n ensures c.form == ByRange {
      ExpansionLawful(input, name, next, c);
      LawfulLevels(input, c, name);
    }
    OutrightAppend(constraints, Expansion(name, next), n);
  }

  lemma PlaceTouches(input: Input, s: State, name: string, next: Selection)
    requires Terminating(input) && TInv(input, s) && SourcedAt(input, name, next)
    ensures Touches(input, s, Place(s, name, next), name)
  {
    hide Level, Edge, MayRequire, OutrightOn, TInv, Terminating, SourcedAt, Place;
    var after := Place(s, name, next);
    PlaceParts(s, name, next);
    forall n | Level(input, n) <= Level(input, name)
      ensures OutrightOn(after.constraints, n) == OutrightOn(s.constraints, n)
    {
      PlaceKeepsOutright(input, s, name, next, n);
    }
    forall n | n in after.pending && !(n in s.pending && n != name) ensures Edge(MayRequire(input), name, n) {
      PlacePends(input, s, name, next, n);
    }
  }

  lemma PlacePends(input: Input, s: State, name: string, next: Selection, n: string)
    requires TInv(input, s) && SourcedAt(input, name, next)
    requires n in Place(s, name, next).pending && !(n in s.pending && n != name)
    ensures Edge(MayRequire(input), name, n)
  {
    hide Edge, MayRequire, TInv, SourcedAt, Expansion, Without, DroppedNames, NamesOf;
    if n in NamesOf(Expansion(name, next)) {
      NewlyRequired(input, name, next, n);
    } else {
      DroppedAreRequired(input, s, name, n);
    }
  }

  lemma PlaceParts(s: State, name: string, next: Selection)
    ensures var after := Place(s, name, next);
      && (forall n :: n != name
           ==> Get(after.selected, n) == Get(s.selected, n) && Get(after.ceiling, n) == Get(s.ceiling, n))
      && (forall c: Constraint :: c.requirer.Machine? || c.requirer.name != name ==>
            (c in after.constraints <==> c in s.constraints))
      && s.pending - {name} <= after.pending
  {
    hide Expansion, Without, DroppedNames, NamesOf;
  }

  lemma PlaceKeepsOutright(input: Input, s: State, name: string, next: Selection, n: string)
    requires Terminating(input) && TInv(input, s) && SourcedAt(input, name, next)
      && Level(input, n) <= Level(input, name)
    ensures OutrightOn(Place(s, name, next).constraints, n) == OutrightOn(s.constraints, n)
  {
    hide Level, OutrightOn, TInv, Terminating, SourcedAt, Expansion, Without, DroppedNames, NamesOf;
    var kept := if name in s.selected then Without(s.constraints, Member(name, s.selected[name].version))
      else s.constraints;
    if name in s.selected { DropKeepsOutright(input, s, name, n); }
    ExpansionKeepsOutright(input, kept, name, next, n);
  }

  lemma NewlyRequired(input: Input, name: string, next: Selection, n: string)
    requires SourcedAt(input, name, next) && n in NamesOf(Expansion(name, next))
    ensures Edge(MayRequire(input), name, n)
  {
    hide Edge, MayRequire, SourcedAt;
    var c :| c in Expansion(name, next) && c.name == n;
    ExpansionLawful(input, name, next, c);
  }
}
