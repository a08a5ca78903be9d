/**
 * The worklist empties whenever the circles of the input's requirements are made of ranges.
 * A step leaves all lower levels as they are. On its own level, what lower levels and the
 * machine fix stays fixed; ceilings only fall; and while none falls, the closure changes
 * over a fixed graph, where every change is a step of a wave that dies out.
 */
module ResolverTermination {
  import opened Wrappers
  import opened Texts
  import opened Semver
  import opened Graphs
  import opened Waves
  import opened Resolver
  import opened ResolverInvariants
  import opened ResolverChoices
  import opened ResolverSources
  import opened ResolverLevels
  import opened ResolverSteps

  // ---------------------------------------------------------------- measure

  /** A held name is at rest at its pin, a free one when its ceiling decides its selection. */
  ghost predicate AtRest(input: Input, s: State, name: string) {
    if Held(input, s, name) then
      name in s.selected && (s.selected[name].commit, s.selected[name].statePin)
        == PinOf(input, OutrightOn(s.constraints, name))
    else
      && name in s.ceiling && name in input.packages && s.ceiling[name] in Candidates(input.packages[name].tags)
      && (name in s.selected ==> FromCeiling(input, s, name))
  }

  /** The names of one level that can be selected. */
  ghost function NamesAt(input: Input, level: nat): set<string> {
    set name | name in Universe(input) && Level(input, name) == level
  }

  /** Circle names of a level not yet at rest, counted twice while selected. */
  ghost predicate IsRestless(input: Input, s: State, level: nat, name: string, selected: bool) {
    Level(input, name) == level && OnCircle(input, name) && !AtRest(input, s, name) && (selected ==> name in s.selected)
  }

  ghost function Restless(input: Input, s: State, level: nat): set<(string, bool)> {
    set name, selected | name in Universe(input) && selected in {false, true}
      && IsRestless(input, s, level, name, selected)
      :: (name, selected)
  }

  /** Versions a free circle name of a level can still fall to. */
  ghost predicate IsLower(input: Input, s: State, level: nat, name: string, v: Version) {
    && Level(input, name) == level && OnCircle(input, name) && !Held(input, s, name)
    && name in s.ceiling && Compare(v, s.ceiling[name]) < 0
  }

  function AllCandidates(input: Input): set<(string, Version)> {
    set name, v | name in input.packages && v in Candidates(input.packages[name].tags) :: (name, v)
  }

  ghost function Lower(input: Input, s: State, level: nat): set<(string, Version)> {
    set p | p in AllCandidates(input) && IsLower(input, s, level, p.0, p.1)
  }

  /** The manifest a name has, or would have at its ceiling. */
  function ManifestAt(input: Input, s: State, name: string): Option<Manifest> {
    if name in s.selected then s.selected[name].manifest
    else if name in s.ceiling && name in input.packages && TagOf(s.ceiling[name]) in input.packages[name].tags then
      Get(input.packages[name].commits, input.packages[name].tags[TagOf(s.ceiling[name])])
    else None
  }

  ghost function TargetsAt(input: Input, s: State, level: nat, name: string): set<string> {
    if OnCircle(input, name) then set n | n in Targets(ManifestAt(input, s, name)) && Level(input, n) == level else {}
  }

  /** What the names of a level require of each other. */
  ghost function EdgesAt(input: Input, s: State, level: nat): Edges<string> {
    map name | name in NamesAt(input, level) :: TargetsAt(input, s, level, name)
  }

  ghost predicate FromBelow(input: Input, c: Constraint, level: nat) {
    c.requirer.Machine? || Level(input, c.requirer.name) < level
  }

  /** The names of a level that the machine or lower levels ask for. */
  ghost function BaseAt(input: Input, s: State, level: nat): set<string> {
    set c | c in s.constraints && Level(input, c.name) == level && FromBelow(input, c, level) :: c.name
  }

  ghost function PresentAt(input: Input, s: State, level: nat): set<string> {
    set name | name in s.selected && Level(input, name) == level
  }

  ghost function UnsettledAt(input: Input, s: State, level: nat): nat {
    Unsettled(BaseAt(input, s, level), EdgesAt(input, s, level), PresentAt(input, s, level), NamesAt(input, level))
  }

  ghost function PendingAt(input: Input, s: State, level: nat): set<string> {
    set name | name in s.pending && Level(input, name) == level
  }

  // --------------------------------------------------- lower levels stay as they are

  /** Everything the measure looks at of one name. */
  ghost predicate SameName(input: Input, s: State, after: State, name: string) {
    && Get(after.selected, name) == Get(s.selected, name) && Get(after.ceiling, name) == Get(s.ceiling, name)
    && OutrightOn(after.constraints, name) == OutrightOn(s.constraints, name)
  }

  lemma SameParts(input: Input, s: State, after: State, level: nat, name: string)
    requires SameName(input, s, after, name)
    ensures Held(input, after, name) == Held(input, s, name)
    ensures AtRest(input, after, name) == AtRest(input, s, name)
    ensures ManifestAt(input, after, name) == ManifestAt(input, s, name)
    ensures name in after.selected <==> name in s.selected
    ensures
      forall selected :: IsRestless(input, after, level, name, selected) == IsRestless(input, s, level, name, selected)
    ensures forall v :: IsLower(input, after, level, name, v) == IsLower(input, s, level, name, v)
  {
    hide Level, OnCircle, OutrightOn, PinOf;
    assert name in s.selected <==> Get(s.selected, name).Some?;
    assert name in after.selected <==> Get(after.selected, name).Some?;
    assert name in s.ceiling <==> Get(s.ceiling, name).Some?;
    assert name in after.ceiling <==> Get(after.ceiling, name).Some?;
  }

  /** The parts of the measure at one level that do not count pending names. */
  ghost predicate SameShape(input: Input, s: State, after: State, level: nat) {
    && Restless(input, after, level) == Restless(input, s, level)
    && Lower(input, after, level) == Lower(input, s, level)
    && UnsettledAt(input, after, level) == UnsettledAt(input, s, level)
  }

  lemma SameBase(input: Input, s: State, after: State, name: string, level: nat)
    requires Touches(input, s, after, name) && level <= Level(input, name)
    ensures BaseAt(input, after, level) == BaseAt(input, s, level)
  {
    hide Level;
    assert forall c: Constraint :: FromBelow(input, c, level) ==> (c in after.constraints <==> c in s.constraints);
    forall n | n in BaseAt(input, s, level) ensures n in BaseAt(input, after, level) {
      var c :| c in s.constraints && Level(input, c.name) == level && FromBelow(input, c, level) && c.name == n;
      assert c in after.constraints;
    }
    forall n | n in BaseAt(input, after, level) ensures n in BaseAt(input, s, level) {
      var c :| c in after.constraints && Level(input, c.name) == level && FromBelow(input, c, level) && c.name == n;
      assert c in s.constraints;
    }
  }

  /** A level all of whose names are unchanged keeps its shape. */
  lemma SameLevelShape(input: Input, s: State, after: State, level: nat)
    requires BaseAt(input, after, level) == BaseAt(input, s, level)
    requires forall n :: Level(input, n) == level ==> SameName(input, s, after, n)
    ensures SameShape(input, s, after, level)
  {
    hide Level, SameName, AtRest, Held, OnCircle, Unsettled;
    forall n | Level(input, n) == level
      ensures ManifestAt(input, after, n) == ManifestAt(input, s, n)
      ensures n in after.selected <==> n in s.selected
      ensures
        forall selected :: IsRestless(input, after, level, n, selected) == IsRestless(input, s, level, n, selected)
      ensures forall v :: IsLower(input, after, level, n, v) == IsLower(input, s, level, n, v)
    {
      SameParts(input, s, after, level, n);
    }
    assert Restless(input, after, level) == Restless(input, s, level);
    assert Lower(input, after, level) == Lower(input, s, level);
    assert PresentAt(input, after, level) == PresentAt(input, s, level);
    assert EdgesAt(input, after, level) == EdgesAt(input, s, level);
  }

  lemma OthersSame(input: Input, s: State, after: State, name: string, n: string)
    requires Touches(input, s, after, name) && n != name && Level(input, n) <= Level(input, name)
    ensures SameName(input, s, after, n)
  {
    hide Level, OutrightOn, Edge, MayRequire;
  }

  lemma LowerLevelsSame(input: Input, s: State, after: State, name: string, level: nat)
    requires Terminating(input) && Touches(input, s, after, name) && level < Level(input, name)
    ensures SameShape(input, s, after, level)
    ensures PendingAt(input, after, level) == PendingAt(input, s, level)
  {
    hide Level, Touches, SameName, Terminating;
    SameBase(input, s, after, name, level);
    forall n | Level(input, n) == level ensures SameName(input, s, after, n) { OthersSame(input, s, after, name, n); }
    SameLevelShape(input, s, after, level);
    PendingBelowSame(input, s, after, name, level);
  }

  lemma PendingBelowSame(input: Input, s: State, after: State, name: string, level: nat)
    requires Touches(input, s, after, name) && level < Level(input, name)
    ensures PendingAt(input, after, level) == PendingAt(input, s, level)
  {
    hide Level, Edge, MayRequire, OutrightOn, MayReach;
    forall n | n in after.pending && Level(input, n) == level ensures n in s.pending && n != name {
      if Edge(MayRequire(input), name, n) { LevelsRise(input, name, n); }
    }
  }

  // ------------------------------------------------------- a level as a graph

  lemma EdgeAtIsContribution(input: Input, s: State, k: string, name: string, level: nat)
    requires TInv(input, s) && k in PresentAt(input, s, level) && OnCircle(input, k) && Level(input, name) == level
    ensures Edge(EdgesAt(input, s, level), k, name) <==>
      exists c: Constraint :: c.name == name && ContributedBy(s, k, c)
  {
    hide Level, OnCircle, Inv, Universe, Names;
    assert SourcedAt(input, k, s.selected[k]);
    TargetsOfExpansion(k, s.selected[k], name);
  }

  /** Being supported in the graph of a level is having a constraint. */
  lemma ConstraintIsSupport(input: Input, s: State, c: Constraint, level: nat)
    requires Terminating(input) && TInv(input, s) && c in s.constraints && Level(input, c.name) == level
    ensures Supported(BaseAt(input, s, level), EdgesAt(input, s, level), PresentAt(input, s, level), c.name)
  {
    hide Level, OnCircle, Inv, Terminating, Names, EdgesAt, Sourced, MayReach, AsksOutright;
    if c in Seeds(input) {
      SeedsAreTheMachines(input, c);
      assert c.name in BaseAt(input, s, level);
    } else {
      ContributedLawful(input, s, c);
      var k := c.requirer.name;
      LawfulLevels(input, c, k);
      if Level(input, k) < level {
        assert c.name in BaseAt(input, s, level);
      } else {
        SameLevelIsCircle(input, k, c.name);
        assert k in PresentAt(input, s, level);
        EdgeAtIsContribution(input, s, k, c.name, level);
      }
    }
  }

  lemma SupportIsConstraint(input: Input, s: State, name: string, level: nat)
    requires Terminating(input) && TInv(input, s)
    ensures Supported(BaseAt(input, s, level), EdgesAt(input, s, level), PresentAt(input, s, level), name)
       <==> Constrained(s, name) && Level(input, name) == level
  {
    hide Level, OnCircle, Inv, Terminating, Names, Sourced;
    if Constrained(s, name) && Level(input, name) == level {
      var c :| c in s.constraints && c.name == name;
      ConstraintIsSupport(input, s, c, level);
    }
    if Supported(BaseAt(input, s, level), EdgesAt(input, s, level), PresentAt(input, s, level), name) {
      SupportGivesConstraint(input, s, name, level);
    }
  }

  lemma SupportGivesConstraint(input: Input, s: State, name: string, level: nat)
    requires TInv(input, s)
    requires Supported(BaseAt(input, s, level), EdgesAt(input, s, level), PresentAt(input, s, level), name)
    ensures Constrained(s, name) && Level(input, name) == level
  {
    hide Level, OnCircle, Names, Sourced;
    if name !in BaseAt(input, s, level) {
      var k :| k in PresentAt(input, s, level) && Edge(EdgesAt(input, s, level), k, name);
      EdgeAtIsContribution(input, s, k, name, level);
      var c: Constraint :| c.name == name && ContributedBy(s, k, c);
      assert Contributed(s, c);
    }
  }

  /** Adding or removing the smallest pending name is one change of its level's wave. */
  lemma SmallestToggles(input: Input, s: State, name: string)
    requires Terminating(input) && TInv(input, s) && IsLeast(name, s.pending)
    requires (name in s.selected) != Constrained(s, name)
    ensures var level := Level(input, name);
      Toggles(BaseAt(input, s, level), EdgesAt(input, s, level), PresentAt(input, s, level), name)
  {
    hide Level, Terminating, BaseAt, EdgesAt, Supported, Constrained, Sourced, Names, Attributed, CeilingsMatch;
    var level := Level(input, name);
    SupportIsConstraint(input, s, name, level);
    forall k | Below(k, name)
      ensures k in PresentAt(input, s, level)
         <==> Supported(BaseAt(input, s, level), EdgesAt(input, s, level), PresentAt(input, s, level), k)
    {
      SupportIsConstraint(input, s, k, level);
      if k in s.pending && k != name { BelowTransitive(k, name, k); }
      BelowIrreflexive(k);
    }
  }

  // --------------------------------------------------------------- progress

  /** How a step makes progress on a level, in the order the parts of the measure are compared. */
  ghost predicate Progress(input: Input, s: State, after: State, level: nat) {
    || Restless(input, after, level) < Restless(input, s, level)
    || (Restless(input, after, level) == Restless(input, s, level)
        && (|| Lower(input, after, level) < Lower(input, s, level)
            || (Lower(input, after, level) == Lower(input, s, level)
                && (|| UnsettledAt(input, after, level) < UnsettledAt(input, s, level)
                    || (UnsettledAt(input, after, level) == UnsettledAt(input, s, level)
                        && PendingAt(input, after, level) < PendingAt(input, s, level))))))
  }

  /** A step whose name looks the same afterwards takes it off the worklist. */
  lemma KeptProgress(input: Input, s: State, after: State, name: string)
    requires Touches(input, s, after, name) && name in s.pending
    requires SameShape(input, s, after, Level(input, name))
    requires forall n :: n in after.pending && Level(input, n) == Level(input, name) ==> n in s.pending && n != name
    ensures Progress(input, s, after, Level(input, name))
  {
    hide Level, Touches, Restless, Lower, UnsettledAt;
    var level := Level(input, name);
    assert name in PendingAt(input, s, level) && name !in PendingAt(input, after, level);
  }

  lemma IdleProgress(input: Input, s: State, name: string)
    requires name in s.pending
    ensures Progress(input, s, Idle(s, name), Level(input, name))
  {
    hide Level, Progress, SameShape, OutrightOn;
    IdleTouches(input, s, name);
    SameBase(input, s, Idle(s, name), name, Level(input, name));
    SameLevelShape(input, s, Idle(s, name), Level(input, name));
    KeptProgress(input, s, Idle(s, name), name);
  }

  /** What the measure sees of the handled name, when all other names of its level are as before. */
  ghost predicate SameLook(input: Input, s: State, after: State, name: string) {
    OnCircle(input, name) ==>
      && AtRest(input, s, name) && AtRest(input, after, name)
      && Get(after.ceiling, name) == Get(s.ceiling, name)
      && Targets(ManifestAt(input, after, name)) == Targets(ManifestAt(input, s, name))
  }

  lemma OthersParts(input: Input, s: State, after: State, name: string, n: string)
    requires Touches(input, s, after, name) && n != name && Level(input, n) == Level(input, name)
    ensures ManifestAt(input, after, n) == ManifestAt(input, s, n)
    ensures forall selected ::
      IsRestless(input, after, Level(input, name), n, selected) == IsRestless(input, s, Level(input, name), n, selected)
    ensures forall v :: IsLower(input, after, Level(input, name), n, v) == IsLower(input, s, Level(input, name), n, v)
  {
    hide Level, Touches, SameName, AtRest, Held, OnCircle, ManifestAt;
    OthersSame(input, s, after, name, n);
    SameParts(input, s, after, Level(input, name), n);
  }

  lemma HeldSame(input: Input, s: State, after: State, name: string)
    requires Touches(input, s, after, name)
    ensures Held(input, after, name) == Held(input, s, name)
    ensures OutrightOn(after.constraints, name) == OutrightOn(s.constraints, name)
  {
    hide Level;
  }

  lemma SameLookGraph(input: Input, s: State, after: State, name: string)
    requires Touches(input, s, after, name) && SameLook(input, s, after, name)
    ensures var level := Level(input, name);
      && Restless(input, after, level) == Restless(input, s, level)
      && Lower(input, after, level) == Lower(input, s, level)
      && EdgesAt(input, after, level) == EdgesAt(input, s, level)
      && BaseAt(input, after, level) == BaseAt(input, s, level)
  {
    hide Level, Touches, SameLook, Held, BaseAt, EdgesAt, Restless, Lower;
    SameBase(input, s, after, name, Level(input, name));
    SameLookMeasure(input, s, after, name);
    SameLookEdges(input, s, after, name);
  }

  lemma SameLookMeasure(input: Input, s: State, after: State, name: string)
    requires Touches(input, s, after, name) && SameLook(input, s, after, name)
    ensures Restless(input, after, Level(input, name)) == Restless(input, s, Level(input, name))
    ensures Lower(input, after, Level(input, name)) == Lower(input, s, Level(input, name))
  {
    hide Level, Touches, SameLook, IsRestless, IsLower, Held;
    var level := Level(input, name);
    HeldSame(input, s, after, name);
    SameLookParts(input, s, after, name);
    forall n | Level(input, n) == level
      ensures
        forall selected :: IsRestless(input, after, level, n, selected) == IsRestless(input, s, level, n, selected)
      ensures forall v :: IsLower(input, after, level, n, v) == IsLower(input, s, level, n, v)
    {
      if n != name { OthersParts(input, s, after, name, n); }
    }
    OtherLevels(input, s, after, level);
    assert Restless(input, after, level) == Restless(input, s, level);
    assert Lower(input, after, level) == Lower(input, s, level);
  }

  /** Names of other levels have no part in a level's measure. */
  lemma OtherLevels(input: Input, s: State, after: State, level: nat)
    ensures forall n, selected :: IsRestless(input, s, level, n, selected) ==> Level(input, n) == level
    ensures forall n, selected :: IsRestless(input, after, level, n, selected) ==> Level(input, n) == level
    ensures forall n, v :: IsLower(input, s, level, n, v) ==> Level(input, n) == level
    ensures forall n, v :: IsLower(input, after, level, n, v) ==> Level(input, n) == level
  {
    hide Level, OnCircle, AtRest, Held;
  }

  lemma SameLookEdges(input: Input, s: State, after: State, name: string)
    requires Touches(input, s, after, name) && SameLook(input, s, after, name)
    ensures EdgesAt(input, after, Level(input, name)) == EdgesAt(input, s, Level(input, name))
  {
    hide Level, Touches, SameLook, ManifestAt, Held, Targets, OnCircle;
    var level := Level(input, name);
    HeldSame(input, s, after, name);
    SameLookParts(input, s, after, name);
    forall n | n != name && Level(input, n) == level ensures ManifestAt(input, after, n) == ManifestAt(input, s, n) {
      OthersParts(input, s, after, name, n);
    }
    assert EdgesAt(input, after, level) == EdgesAt(input, s, level);
  }

  lemma SameLookParts(input: Input, s: State, after: State, name: string)
    requires Held(input, after, name) == Held(input, s, name) && SameLook(input, s, after, name)
    ensures var level := Level(input, name);
      && (
           forall selected :: IsRestless(input, after, level, name, selected)
             == IsRestless(input, s, level, name, selected))
      && (forall v :: IsLower(input, after, level, name, v) == IsLower(input, s, level, name, v))
      && TargetsAt(input, after, level, name) == TargetsAt(input, s, level, name)
  {
    hide Level, Held, OnCircle, ManifestAt, AtRest, Targets;
    assert name in s.ceiling <==> Get(s.ceiling, name).Some?;
    assert name in after.ceiling <==> Get(after.ceiling, name).Some?;
  }

  /** Over a fixed graph, a change of the smallest pending name is progress. */
  lemma ToggleProgress(input: Input, s: State, after: State, name: string)
    requires Terminating(input) && TInv(input, s) && IsLeast(name, s.pending) && name in Universe(input)
    requires (name in s.selected) != Constrained(s, name)
    requires Touches(input, s, after, name) && SameLook(input, s, after, name)
    requires (name in after.selected) != (name in s.selected)
    ensures Progress(input, s, after, Level(input, name))
  {
    hide Terminating, TInv, Constrained, Touches, SameLook, EdgesAt, BaseAt, Restless, Lower, Toggles, Universe, Level;
    var level := Level(input, name);
    SameLookGraph(input, s, after, name);
    SmallestToggles(input, s, name);
    PresentToggles(input, s, after, name);
    assert name in NamesAt(input, level);
    ToggleDescends(BaseAt(input, s, level), EdgesAt(input, s, level), PresentAt(input, s, level), name,
      NamesAt(input, level));
  }

  lemma PresentToggles(input: Input, s: State, after: State, name: string)
    requires Touches(input, s, after, name) && (name in after.selected) != (name in s.selected)
    ensures var level := Level(input, name); PresentAt(input, after, level) == Toggle(PresentAt(input, s, level), name)
  {
    hide Level, OutrightOn, Edge, MayRequire;
    var level := Level(input, name);
    forall n | n != name ensures n in after.selected <==> n in s.selected {
      assert Get(after.selected, n) == Get(s.selected, n);
    }
  }

  /** A circle name comes to rest, or leaves before it has. */
  lemma RestProgress(input: Input, s: State, after: State, name: string)
    requires Touches(input, s, after, name) && name in Universe(input)
    requires OnCircle(input, name) && !AtRest(input, s, name)
    requires AtRest(input, after, name) || (name in s.selected && name !in after.selected)
    ensures Progress(input, s, after, Level(input, name))
  {
    hide Level, Touches, OnCircle, AtRest, Universe, Lower, UnsettledAt, PendingAt;
    var level := Level(input, name);
    forall n, selected | n != name && Level(input, n) == level
      ensures IsRestless(input, after, level, n, selected) == IsRestless(input, s, level, n, selected)
    {
      OthersParts(input, s, after, name, n);
    }
    var gone := if AtRest(input, after, name) then false else true;
    assert IsRestless(input, s, level, name, gone) && !IsRestless(input, after, level, name, gone);
    assert (name, gone) in Restless(input, s, level) && (name, gone) !in Restless(input, after, level);
    forall p | p in Restless(input, after, level) ensures p in Restless(input, s, level) {
      assert p == (p.0, p.1) && IsRestless(input, after, level, p.0, p.1);
      assert p.0 == name ==> IsRestless(input, s, level, p.0, p.1);
    }
  }

  /** A selection strictly below the ceiling lowers it. */
  lemma FallProgress(input: Input, s: State, after: State, name: string)
    requires Touches(input, s, after, name) && name in input.packages && OnCircle(input, name) && !Held(input, s, name)
    requires AtRest(input, s, name) && AtRest(input, after, name)
    requires name in s.ceiling && name in after.ceiling && Compare(after.ceiling[name], s.ceiling[name]) < 0
    requires after.ceiling[name] in Candidates(input.packages[name].tags)
    ensures Progress(input, s, after, Level(input, name))
  {
    hide Level, Touches, OnCircle, AtRest, Held, Candidates, UnsettledAt, PendingAt;
    var level := Level(input, name);
    HeldSame(input, s, after, name);
    forall n | n != name && Level(input, n) == level
      ensures
        forall selected :: IsRestless(input, after, level, n, selected) == IsRestless(input, s, level, n, selected)
      ensures forall v :: IsLower(input, after, level, n, v) == IsLower(input, s, level, n, v)
    {
      OthersParts(input, s, after, name, n);
    }
    assert Restless(input, after, level) == Restless(input, s, level);
    var v := after.ceiling[name];
    CompareAntisymmetric(v, v);
    assert IsLower(input, s, level, name, v) && !IsLower(input, after, level, name, v);
    assert (name, v) in Lower(input, s, level) && (name, v) !in Lower(input, after, level);
    forall p | p in Lower(input, after, level) ensures p in Lower(input, s, level) {
      if p.0 == name { CompareTransitive(p.1, v, s.ceiling[name]); }
    }
  }

  // ------------------------------------------------------------------ cases

  /** At rest a free name is selected as its ceiling says, so leaving loses nothing but the selection. */
  lemma LeaveLooks(input: Input, s: State, name: string)
    requires name in s.selected && On(s.constraints, name) == []
    requires OnCircle(input, name) ==> AtRest(input, s, name) && AtRest(input, Leave(s, name), name)
    ensures SameLook(input, s, Leave(s, name), name)
  {
    hide OnCircle, Without, DroppedNames, Candidates;
    UnconstrainedIsFree(input, s, name);
  }

  lemma LeaveProgress(input: Input, s: State, name: string)
    requires Terminating(input) && TInv(input, s) && IsLeast(name, s.pending)
    requires name in s.selected && On(s.constraints, name) == []
    ensures Progress(input, s, Leave(s, name), Level(input, name))
  {
    hide Terminating, Inv, Names, OnCircle, AtRest, SameLook, Progress, Touches, Leave;
    var after := Leave(s, name);
    assert name !in after.selected by { LeaveLeaves(s, name); }
    LeaveTouches(input, s, name);
    ConstrainedOn(s, name);
    assert SourcedAt(input, name, s.selected[name]);
    if OnCircle(input, name) && !AtRest(input, s, name) {
      RestProgress(input, s, after, name);
    } else {
      if OnCircle(input, name) { LeavesAtRest(input, s, name); }
      LeaveLooks(input, s, name);
      ToggleProgress(input, s, after, name);
    }
  }

  lemma LeaveLeaves(s: State, name: string)
    requires name in s.selected
    ensures name !in Leave(s, name).selected && Leave(s, name).ceiling == s.ceiling
  {}

  lemma LeavesAtRest(input: Input, s: State, name: string)
    requires Terminating(input) && TInv(input, s)
    requires name in s.selected && On(s.constraints, name) == [] && AtRest(input, s, name)
    ensures AtRest(input, Leave(s, name), name)
  {
    hide Level, Terminating, TInv, Leave, OutrightOn, PathOf, CommitsOf, PinOf, FromCeiling, Candidates;
    LeaveTouches(input, s, name);
    LeaveLeaves(s, name);
    HeldSame(input, s, Leave(s, name), name);
    UnconstrainedIsFree(input, s, name);
  }

  /** A held name that is placed anew comes to rest at its pin, where it has not been before. */
  lemma HeldComesToRest(input: Input, s: State, after: State, name: string, next: Selection)
    requires On(s.constraints, name) != [] && Held(input, s, name)
    requires Choose(input, Get(s.ceiling, name), name, On(s.constraints, name)) == Ok(next)
    requires OutrightOn(after.constraints, name) == OutrightOn(s.constraints, name)
    requires name in after.selected && after.selected[name] == next
    requires !(name in s.selected && SamePin(s.selected[name], next))
    ensures AtRest(input, after, name) && !AtRest(input, s, name)
  {
    hide Choose, OutrightOn, PinOf, PathOf, CommitsOf;
    HeldChoice(input, s, name);
  }

  /** A free name comes to rest at its ceiling. */
  lemma FreeComesToRest(input: Input, s: State, after: State, name: string, next: Selection)
    requires On(s.constraints, name) != [] && !Held(input, s, name)
    requires Choose(input, Get(s.ceiling, name), name, On(s.constraints, name)) == Ok(next)
    requires OutrightOn(after.constraints, name) == OutrightOn(s.constraints, name)
    requires name in after.selected && after.selected[name] == next
    requires next.version.Some? ==> name in after.ceiling && after.ceiling[name] == next.version.value
    ensures AtRest(input, after, name) && FromCeiling(input, after, name)
      && UnderCeiling(after.ceiling[name], Get(s.ceiling, name))
  {
    hide Choose, OutrightOn, PathOf, CommitsOf, Admissible, Candidates, IsHighest;
    FreeChoice(input, s, name);
    ChooseByRange(input, Get(s.ceiling, name), name, On(s.constraints, name));
  }

  /** A free name at rest that is placed at its ceiling had no selection, and looks the same afterwards. */
  lemma ReturnsAtCeiling(input: Input, s: State, after: State, name: string, next: Selection)
    requires !Held(input, s, name) && AtRest(input, s, name)
    requires Get(after.ceiling, name) == Get(s.ceiling, name)
    requires name in after.selected && after.selected[name] == next && FromCeiling(input, after, name)
    requires !(name in s.selected && SamePin(s.selected[name], next))
    requires AtRest(input, after, name)
    ensures name !in s.selected && SameLook(input, s, after, name)
  {
    hide Held, OnCircle, Candidates;
    assert Get(s.ceiling, name) == Some(s.ceiling[name]) && Get(after.ceiling, name) == Some(after.ceiling[name]);
  }

  lemma PlacePlaces(s: State, name: string, next: Selection)
    ensures var after := Place(s, name, next);
      && name in after.selected && after.selected[name] == next
      && (next.version.Some? ==> name in after.ceiling && after.ceiling[name] == next.version.value)
  {}

  /** Placing a circle name brings it to rest, lowers its ceiling or brings it back. */
  lemma CirclePlaceProgress(input: Input, s: State, after: State, name: string, next: Selection)
    requires Terminating(input) && TInv(input, s) && IsLeast(name, s.pending) && OnCircle(input, name)
      && name in Universe(input)
    requires On(s.constraints, name) != []
    requires Choose(input, Get(s.ceiling, name), name, On(s.constraints, name)) == Ok(next)
    requires !(name in s.selected && SamePin(s.selected[name], next))
    requires Touches(input, s, after, name)
    requires name in after.selected && after.selected[name] == next
    requires next.version.Some? ==> name in after.ceiling && after.ceiling[name] == next.version.value
    ensures Progress(input, s, after, Level(input, name))
  {
    hide Terminating, TInv, Inv, OnCircle, AtRest, Held, SameLook, Progress, Touches, FromCeiling, Choose, OutrightOn,
      Level;
    ConstrainedOn(s, name);
    HeldSame(input, s, after, name);
    if Held(input, s, name) {
      HeldComesToRest(input, s, after, name, next);
      RestProgress(input, s, after, name);
    } else {
      FreeComesToRest(input, s, after, name, next);
      if !AtRest(input, s, name) {
        RestProgress(input, s, after, name);
      } else {
        FreeAtRest(input, s, name);
        FreeAtRest(input, after, name);
        if Compare(after.ceiling[name], s.ceiling[name]) < 0 {
          FallProgress(input, s, after, name);
        } else {
          CircleCandidatesDistinct(input, name, after.ceiling[name], s.ceiling[name]);
          ReturnsAtCeiling(input, s, after, name, next);
          ToggleProgress(input, s, after, name);
        }
      }
    }
  }

  lemma FreeAtRest(input: Input, s: State, name: string)
    requires AtRest(input, s, name) && !Held(input, s, name)
    ensures name in s.ceiling && name in input.packages && s.ceiling[name] in Candidates(input.packages[name].tags)
  {}

  lemma CircleCandidatesDistinct(input: Input, name: string, a: Version, b: Version)
    requires Terminating(input) && OnCircle(input, name) && name in input.packages && Compare(a, b) == 0
    requires a in Candidates(input.packages[name].tags) && b in Candidates(input.packages[name].tags)
    ensures a == b
  {
    hide OnCircle;
    CandidatesDistinct(input.packages[name].tags, a, b);
  }

  /** Placing a name off the circles changes no edge of its level. */
  lemma LoosePlaceProgress(input: Input, s: State, after: State, name: string)
    requires Terminating(input) && TInv(input, s) && IsLeast(name, s.pending) && !OnCircle(input, name)
      && name in Universe(input)
    requires On(s.constraints, name) != [] && Touches(input, s, after, name) && name in after.selected
    ensures Progress(input, s, after, Level(input, name))
  {
    hide Terminating, TInv, Inv, OnCircle, Progress, Touches, UnsettledAt, Level, Restless, Lower;
    ConstrainedOn(s, name);
    if name !in s.selected {
      ToggleProgress(input, s, after, name);
    } else {
      LooseKeepsShape(input, s, after, name);
      forall n | n in after.pending && Level(input, n) == Level(input, name) ensures n in s.pending && n != name {
        LoosePendsHigher(input, s, after, name, n);
      }
      KeptProgress(input, s, after, name);
    }
  }

  lemma LooseKeepsShape(input: Input, s: State, after: State, name: string)
    requires Touches(input, s, after, name) && !OnCircle(input, name) && name in s.selected && name in after.selected
    ensures SameShape(input, s, after, Level(input, name))
  {
    hide Touches, OnCircle, Level, Restless, Lower, EdgesAt, BaseAt;
    SameLookGraph(input, s, after, name);
    PresentStays(input, s, after, name);
  }

  lemma PresentStays(input: Input, s: State, after: State, name: string)
    requires Touches(input, s, after, name) && name in s.selected && name in after.selected
    ensures PresentAt(input, after, Level(input, name)) == PresentAt(input, s, Level(input, name))
  {
    hide Level, OutrightOn, Edge, MayRequire;
    forall n | n != name ensures n in after.selected <==> n in s.selected {
      assert Get(after.selected, n) == Get(s.selected, n);
    }
  }

  lemma LoosePendsHigher(input: Input, s: State, after: State, name: string, n: string)
    requires Touches(input, s, after, name) && !OnCircle(input, name)
    requires n in after.pending && Level(input, n) == Level(input, name)
    ensures n in s.pending && n != name
  {
    hide Level, OnCircle, Edge, MayRequire, OutrightOn;
    if Edge(MayRequire(input), name, n) { SameLevelIsCircle(input, name, n); }
  }

  lemma ChosenSourced(input: Input, s: State, name: string)
    requires TInv(input, s) && On(s.constraints, name) != []
    requires Choose(input, Get(s.ceiling, name), name, On(s.constraints, name)).Ok?
    ensures SourcedAt(input, name, Choose(input, Get(s.ceiling, name), name, On(s.constraints, name)).value)
  {
    hide Inv, Sourced, Names, Choose, SourcedAt;
    var cs := On(s.constraints, name);
    forall c | c in cs && c !in Seeds(input) ensures c.overlay.None? { NoOverlayElsewhere(input, s, c); }
    ChoiceSourced(input, Get(s.ceiling, name), name, cs);
  }

  lemma PlaceProgress(input: Input, s: State, name: string, next: Selection)
    requires Terminating(input) && TInv(input, s) && IsLeast(name, s.pending)
    requires On(s.constraints, name) != []
    requires Choose(input, Get(s.ceiling, name), name, On(s.constraints, name)) == Ok(next)
    requires !(name in s.selected && SamePin(s.selected[name], next))
    ensures Progress(input, s, Place(s, name, next), Level(input, name))
  {
    hide Choose, Progress, Place, TInv, Terminating, OnCircle, Touches, Universe, SamePin;
    var after := Place(s, name, next);
    ChosenSourced(input, s, name);
    PlaceTouches(input, s, name, next);
    PlacePlaces(s, name, next);
    if OnCircle(input, name) {
      CirclePlaceProgress(input, s, after, name, next);
    } else {
      LoosePlaceProgress(input, s, after, name);
    }
  }

  // ------------------------------------------------------------------ steps

  lemma HandleTouches(input: Input, s: State, name: string)
    requires Terminating(input) && TInv(input, s) && Handle(input, s, name).Ok?
    ensures Touches(input, s, Handle(input, s, name).value, name)
  {
    hide Choose, Place, Leave, Idle, TInv, Terminating, Touches, SamePin;
    var cs := On(s.constraints, name);
    if cs == [] {
      if name in s.selected { LeaveTouches(input, s, name); } else { IdleTouches(input, s, name); }
    } else {
      var next := Choose(input, Get(s.ceiling, name), name, cs).value;
      ChosenSourced(input, s, name);
      if name in s.selected && SamePin(s.selected[name], next) {
        IdleTouches(input, s, name);
      } else {
        PlaceTouches(input, s, name, next);
      }
    }
  }

  lemma HandleTInv(input: Input, s: State, name: string)
    requires Terminating(input) && TInv(input, s) && Handle(input, s, name).Ok?
    ensures TInv(input, Handle(input, s, name).value)
  {
    hide Handle, Terminating, Inv, Sourced, Level, Names, MayRequire;
    HandleInv(input, s, name);
    HandleSourced(input, s, name);
    HandleTouches(input, s, name);
    forall n | n in Handle(input, s, name).value.pending ensures n in Names(input) {
      if Edge(MayRequire(input), name, n) { RequiredIsName(input, name, n); }
    }
  }

  lemma RequiredIsName(input: Input, a: string, b: string)
    requires Edge(MayRequire(input), a, b)
    ensures b in Names(input)
  {
    hide MayRequire;
  }

  /** Every step that succeeds makes progress on the level of the name it handles. */
  lemma StepProgress(input: Input, s: State)
    requires Terminating(input) && TInv(input, s) && s.pending != {} && Step(input, s).Ok?
    ensures var after, name := Step(input, s).value, Least(s.pending);
      && TInv(input, after) && Touches(input, s, after, name)
      && Progress(input, s, after, Level(input, name))
  {
    hide Terminating, TInv, Choose, Progress, Touches, Place, Leave, Idle, SamePin;
    var name := Least(s.pending);
    HandleTInv(input, s, name);
    HandleTouches(input, s, name);
    var cs := On(s.constraints, name);
    if cs == [] {
      if name in s.selected { LeaveProgress(input, s, name); } else { IdleProgress(input, s, name); }
    } else {
      var next := Choose(input, Get(s.ceiling, name), name, cs).value;
      if name in s.selected && SamePin(s.selected[name], next) {
        IdleProgress(input, s, name);
      } else {
        PlaceProgress(input, s, name, next);
      }
    }
  }

  // ------------------------------------------------------------------- rank

  function Times(a: nat, b: nat): nat { a * b }

  /** Two digits as one number. */
  function Pair(high: nat, low: nat, base: nat): (n: nat)
    requires low < base
    ensures base * high <= n < base * (high + 1)
  {
    assert base * (high + 1) == base * high + base;
    base * high + low
  }

  lemma PairDescends(high: nat, low: nat, lower: nat, low': nat, base: nat)
    requires lower < high && low < base && low' < base
    ensures Pair(lower, low', base) < Pair(high, low, base)
  {
    assert base * (lower + 1) <= base * high by { MultiplyMonotone(base, lower + 1, high); }
  }

  lemma MultiplyMonotone(base: nat, a: nat, b: nat)
    requires a <= b
    ensures base * a <= base * b
  {}

  lemma PowerMonotone(a: nat, b: nat)
    requires a <= b
    ensures PowerOfTwo(a) <= PowerOfTwo(b)
  {}

  /** The four parts of the measure at one level, each in its bounds. */
  lemma PartsBounded(input: Input, s: State, level: nat)
    requires TInv(input, s)
    ensures |Restless(input, s, level)| <= 2 * |Universe(input)|
    ensures |Lower(input, s, level)| < |AllCandidates(input)| + 1
    ensures UnsettledAt(input, s, level) < PowerOfTwo(|Universe(input)|)
    ensures |PendingAt(input, s, level)| < |Names(input)| + 1
  {
    hide TInv, Level, IsRestless, IsLower, EdgesAt, BaseAt, PresentAt, AllCandidates;
    assert s.pending <= Names(input) by { PendingAreNames(input, s); }
    SubsetSize(PendingAt(input, s, level), Names(input));
    SubsetSize(Lower(input, s, level), AllCandidates(input));
    SubsetSize(NamesAt(input, level), Universe(input));
    PowerMonotone(|NamesAt(input, level)|, |Universe(input)|);
    SubsetSize(Restless(input, s, level), Doubled(Universe(input)));
    DoubledSize(Universe(input));
  }

  lemma PendingAreNames(input: Input, s: State)
    requires TInv(input, s)
    ensures s.pending <= Names(input)
  {}

  function Doubled(names: set<string>): set<(string, bool)> {
    set name, flag | name in names && flag in {false, true} :: (name, flag)
  }

  lemma {:induction false} DoubledSize(names: set<string>)
    ensures |Doubled(names)| == 2 * |names|
  {
    if names == {} {
      assert Doubled(names) == {};
    } else {
      var name :| name in names;
      DoubledSize(names - {name});
      assert Doubled(names) == Doubled(names - {name}) + {(name, false), (name, true)};
    }
  }

  ghost function RankAt(input: Input, s: State, level: nat): (rank: nat)
    requires TInv(input, s)
    ensures rank < LevelRanks(input)
  {
    hide TInv, Pair, Times, AllCandidates, Names, Universe, Restless, Lower, PendingAt, UnsettledAt;
    PartsBounded(input, s, level);
    var falls := Pair(|Restless(input, s, level)|, |Lower(input, s, level)|, |AllCandidates(input)| + 1);
    var waves := Pair(falls, UnsettledAt(input, s, level), PowerOfTwo(|Universe(input)|));
    var rank := Pair(waves, |PendingAt(input, s, level)|, |Names(input)| + 1);
    RankBounded(|Restless(input, s, level)|, falls, waves, rank, |AllCandidates(input)| + 1,
      PowerOfTwo(|Universe(input)|),
                |Names(input)| + 1, 2 * |Universe(input)|);
    rank
  }

  lemma RankBounded(restless: nat, falls: nat, waves: nat, rank: nat, b1: nat, b2: nat, b3: nat, most: nat)
    requires restless <= most && falls < b1 * (restless + 1) && waves < b2 * (falls + 1) && rank < b3 * (waves + 1)
    ensures rank < Times(b3, Times(b2, Times(b1, most + 1)))
  {
    MultiplyMonotone(b1, restless + 1, most + 1);
    MultiplyMonotone(b2, falls + 1, b1 * (most + 1));
    MultiplyMonotone(b3, waves + 1, b2 * (b1 * (most + 1)));
  }

  /** More than the rank of any level. */
  ghost function LevelRanks(input: Input): nat {
    var falls := Times(|AllCandidates(input)| + 1, 2 * |Universe(input)| + 1);
    Times(|Names(input)| + 1, Times(PowerOfTwo(|Universe(input)|), falls))
  }

  lemma StrictSubset<T>(small: set<T>, big: set<T>)
    requires small < big
    ensures |small| < |big|
  {
    SubsetSize(small, big);
  }

  lemma ProgressLowersRank(input: Input, s: State, after: State, level: nat)
    requires TInv(input, s) && TInv(input, after) && Progress(input, s, after, level)
    ensures RankAt(input, after, level) < RankAt(input, s, level)
  {
    hide TInv, Restless, Lower, UnsettledAt, PendingAt, AllCandidates, Names, Universe;
    PartsBounded(input, s, level);
    PartsBounded(input, after, level);
    var b1, b2, b3 := |AllCandidates(input)| + 1, PowerOfTwo(|Universe(input)|), |Names(input)| + 1;
    if Restless(input, after, level) < Restless(input, s, level) {
      StrictSubset(Restless(input, after, level), Restless(input, s, level));
      PairDescends(|Restless(input, s, level)|, |Lower(input, s, level)|, |Restless(input, after, level)|,
        |Lower(input, after, level)|, b1);
    } else if Lower(input, after, level) < Lower(input, s, level) {
      StrictSubset(Lower(input, after, level), Lower(input, s, level));
    } else if PendingAt(input, after, level) < PendingAt(input, s, level) {
      StrictSubset(PendingAt(input, after, level), PendingAt(input, s, level));
    }
    var falls := Pair(|Restless(input, s, level)|, |Lower(input, s, level)|, b1);
    var falls' := Pair(|Restless(input, after, level)|, |Lower(input, after, level)|, b1);
    if falls' < falls {
      PairDescends(falls, UnsettledAt(input, s, level), falls', UnsettledAt(input, after, level), b2);
    }
    var waves := Pair(falls, UnsettledAt(input, s, level), b2);
    var waves' := Pair(falls', UnsettledAt(input, after, level), b2);
    if waves' < waves {
      PairDescends(waves, |PendingAt(input, s, level)|, waves', |PendingAt(input, after, level)|, b3);
    }
  }

  function Power(base: nat, n: nat): nat { if n == 0 then 1 else base * Power(base, n - 1) }

  /** The ranks of the levels up to a depth as one number, the lowest level as its highest digit. */
  ghost function Ranks(input: Input, s: State, depth: nat): (rank: nat)
    requires TInv(input, s)
  {
    if depth == 0 then 0 else Pair(Ranks(input, s, depth - 1), RankAt(input, s, depth - 1), LevelRanks(input))
  }

  ghost function Rank(input: Input, s: State): nat
    requires TInv(input, s)
  {
    Ranks(input, s, |Universe(input)| + 1)
  }

  lemma {:induction false} LowerLevelsDecide(input: Input, s: State, after: State, level: nat, depth: nat)
    requires TInv(input, s) && TInv(input, after)
    requires forall k: nat :: k < level ==> RankAt(input, after, k) == RankAt(input, s, k)
    requires RankAt(input, after, level) < RankAt(input, s, level)
    ensures if depth <= level then Ranks(input, after, depth) == Ranks(input, s, depth)
            else Ranks(input, after, depth) < Ranks(input, s, depth)
  {
    hide TInv, RankAt, LevelRanks;
    if depth > 0 {
      LowerLevelsDecide(input, s, after, level, depth - 1);
      if depth - 1 > level {
        PairDescends(Ranks(input, s, depth - 1), RankAt(input, s, depth - 1),
                     Ranks(input, after, depth - 1), RankAt(input, after, depth - 1), LevelRanks(input));
      }
    }
  }

  /** Every step that succeeds makes the rank smaller, so no run is endless. */
  lemma StepLowersRank(input: Input, s: State)
    requires Terminating(input) && TInv(input, s) && s.pending != {} && Step(input, s).Ok?
    ensures TInv(input, Step(input, s).value)
    ensures Rank(input, Step(input, s).value) < Rank(input, s)
  {
    hide Step, Terminating, TInv, Progress, Touches, RankAt, Level;
    var after, name := Step(input, s).value, Least(s.pending);
    StepProgress(input, s);
    var level := Level(input, name);
    ProgressLowersRank(input, s, after, level);
    forall k: nat | k < level ensures RankAt(input, after, k) == RankAt(input, s, k) {
      LowerRanksSame(input, s, after, name, k);
    }
    LowerLevelsDecide(input, s, after, level, |Universe(input)| + 1);
  }

  lemma LowerRanksSame(input: Input, s: State, after: State, name: string, level: nat)
    requires Terminating(input) && TInv(input, s) && TInv(input, after) && Touches(input, s, after, name)
      && level < Level(input, name)
    ensures RankAt(input, after, level) == RankAt(input, s, level)
  {
    hide Terminating, TInv, Touches, Level, Restless, Lower, UnsettledAt, PendingAt, AllCandidates, Names, Universe;
    LowerLevelsSame(input, s, after, name, level);
  }

  // ------------------------------------------------------------ termination

  /** The steps from a state to the empty worklist or to the first error. */
  ghost function Finish(input: Input, s: State): (r: Result<State, Error>)
    requires Terminating(input) && TInv(input, s)
    ensures r.Ok? ==> r.value.pending == {} && TInv(input, r.value)
    decreases Rank(input, s)
  {
    if s.pending == {} then Ok(s)
    else match Step(input, s)
      case Err(e) => Err(e)
      case Ok(after) =>
        StepLowersRank(input, s);
        Finish(input, after)
  }

  /** How many steps that takes. */
  ghost function Length(input: Input, s: State): (length: nat)
    requires Terminating(input) && TInv(input, s)
    ensures length <= Rank(input, s)
    decreases Rank(input, s)
  {
    if s.pending == {} then 0
    else match Step(input, s)
      case Err(e) => 0
      case Ok(after) =>
        StepLowersRank(input, s);
        1 + Length(input, after)
  }

  lemma {:induction false} RunTInv(input: Input, run: seq<State>, i: nat)
    requires Terminating(input) && IsRun(input, run) && i < |run|
    ensures TInv(input, run[i])
  {
    if i == 0 {
      InitTInv(input);
    } else {
      RunTInv(input, run, i - 1);
      assert Next(input, run[i - 1], run[i - 1 + 1]);
      HandleTInv(input, run[i - 1], Least(run[i - 1].pending));
    }
  }

  lemma {:induction false} RunUsesUpLength(input: Input, run: seq<State>, i: nat)
    requires Terminating(input) && IsRun(input, run) && i < |run|
    ensures TInv(input, run[i]) && TInv(input, Init(input))
    ensures i + Length(input, run[i]) == Length(input, Init(input))
  {
    hide Terminating, TInv, Step, Rank;
    InitTInv(input);
    RunTInv(input, run, i);
    if i > 0 {
      RunUsesUpLength(input, run, i - 1);
      assert Next(input, run[i - 1], run[i - 1 + 1]);
    }
  }

  /** One bound holds for every run of an input whose circles are made of ranges. */
  lemma RunsAreBounded(input: Input, run: seq<State>)
    requires Terminating(input) && IsRun(input, run)
    ensures TInv(input, Init(input)) && |run| <= Length(input, Init(input)) + 1 <= Rank(input, Init(input)) + 1
  {
    RunUsesUpLength(input, run, |run| - 1);
  }

  /** So it does whenever no requirements run in a circle, in whatever forms, and whenever all are ranges. */
  lemma AcyclicAndRangeRunsAreBounded(input: Input, run: seq<State>)
    requires Acyclic(MayRequire(input)) || (RangeManifests(input) && BoundedTags(input))
    requires IsRun(input, run)
    ensures TInv(input, Init(input)) && |run| <= Rank(input, Init(input)) + 1
  {
    if Acyclic(MayRequire(input)) { AcyclicTerminates(input); } else { RangeManifestsTerminate(input); }
    RunsAreBounded(input, run);
  }
}
