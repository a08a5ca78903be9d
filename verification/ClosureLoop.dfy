/** The resolver as it runs: one loop over four mutable collections, proved against the state machine. */
module ClosureLoop {
  import opened Wrappers
  import opened Texts
  import opened Semver
  import opened Ranges
  import opened Resolver
  import opened ResolverChoices
  import opened ResolverSteps
  import opened ResolverLevels
  import opened ResolverTermination
  import opened ResolverSafety
  import opened ResolverEntries
  import opened ResolverLabels

  datatype Resolution = Locked(lock: Lock) | Refused(error: Error)

  // ---------------------------------------------------- candidate versions

  /** Among bounded versions the highest is unique, so any search finds the same one. */
  lemma HighestIsUnique(tags: map<string, string>, versions: set<Version>, v: Version)
    requires BoundedPackage(tags) && versions <= Candidates(tags) && IsHighest(v, versions)
    ensures Highest(versions) == Some(v)
  {
    var w := Highest(versions).value;
    CompareAntisymmetric(v, w);
    CandidatesDistinct(tags, v, w);
  }

  lemma TopIsHighest(tags: map<string, string>, versions: set<Version>, top: Option<Version>)
    requires BoundedPackage(tags) && versions <= Candidates(tags) && IsTop(top, versions)
    ensures top == Highest(versions)
  {
    if top.Some? { HighestIsUnique(tags, versions, top.value); }
  }

  /** The highest version tag peeling to a commit, found by one pass over the tags. */
  method HighestAt(tags: map<string, string>, commit: string) returns (version: Option<Version>)
    ensures IsTop(version, CandidatesAt(tags, commit))
  {
    version := None;
    var rest := tags.Keys;
    while rest != {}
      invariant rest <= tags.Keys
      invariant version.Some? ==> version.value in CandidatesAt(tags, commit)
      invariant forall tag :: tag in tags && tag !in rest && tags[tag] == commit && ParseTag(tag).Some? ==>
        version.Some? && Compare(ParseTag(tag).value, version.value) <= 0
      decreases |rest|
    {
      var tag :| tag in rest;
      rest := rest - {tag};
      var v := ParseTag(tag);
      if tags[tag] == commit && v.Some? {
        CompareAntisymmetric(v.value, v.value);
        if version.None? || Compare(v.value, version.value) > 0 {
          ghost var before := version;
          version := v;
          if before.Some? {
            CompareAntisymmetric(v.value, before.value);
            forall other | other in tags && other !in rest && tags[other] == commit && ParseTag(other).Some?
              ensures Compare(ParseTag(other).value, v.value) <= 0
            {
              if other != tag { CompareTransitive(ParseTag(other).value, before.value, v.value); }
            }
          }
        }
      }
    }
    if version.None? { assert CandidatesAt(tags, commit) == {}; }
  }

  predicate Ascending(versions: seq<Version>) {
    forall i, j :: 0 <= i < j < |versions| ==> Compare(versions[i], versions[j]) <= 0
  }

  /** Puts a version behind all lower ones in an ascending list. */
  method Insert(versions: seq<Version>, v: Version) returns (longer: seq<Version>)
    requires Ascending(versions)
    ensures Ascending(longer) && forall w :: w in longer <==> w == v || w in versions
  {
    var k := 0;
    while k < |versions| && Compare(versions[k], v) < 0
      invariant 0 <= k <= |versions|
      invariant forall i :: 0 <= i < k ==> Compare(versions[i], v) <= 0
    {
      k := k + 1;
    }
    forall j | k <= j < |versions| ensures Compare(v, versions[j]) <= 0 {
      CompareAntisymmetric(versions[k], v);
      if k < j { CompareTransitive(v, versions[k], versions[j]); }
    }
    longer := versions[..k] + [v] + versions[k..];
  }

  /** All candidate versions in ascending order. */
  method SortedCandidates(tags: map<string, string>) returns (candidates: seq<Version>)
    ensures Ascending(candidates) && forall v :: v in candidates <==> v in Candidates(tags)
  {
    candidates := [];
    var rest := tags.Keys;
    while rest != {}
      invariant rest <= tags.Keys && Ascending(candidates)
      invariant forall v :: v in candidates ==> v in Candidates(tags)
      invariant forall tag :: tag in tags && tag !in rest && ParseTag(tag).Some? ==> ParseTag(tag).value in candidates
      decreases |rest|
    {
      var tag :| tag in rest;
      rest := rest - {tag};
      var v := ParseTag(tag);
      if v.Some? { candidates := Insert(candidates, v.value); }
    }
  }

  /** The scan from the highest candidate down to the first one every range admits. */
  method HighestAdmissible(tags: map<string, string>, ceiling: Option<Version>, ranges: seq<Range>)
    returns (chosen: Option<Version>)
    ensures IsTop(chosen, Admissible(tags, ceiling, ranges))
  {
    hide Candidates, Admissible, Compare;
    var candidates := SortedCandidates(tags);
    var index := |candidates| - 1;
    while index >= 0
      invariant -1 <= index < |candidates|
      invariant forall i :: index < i < |candidates| ==> candidates[i] !in Admissible(tags, ceiling, ranges)
    {
      var v := candidates[index];
      AdmissibleIff(tags, ceiling, ranges, v);
      if UnderCeiling(v, ceiling) && AdmitsAll(ranges, v) {
        FirstIsHighest(tags, ceiling, ranges, candidates, index);
        return Some(v);
      }
      index := index - 1;
    }
    NoneAdmitted(tags, ceiling, ranges, candidates);
    return None;
  }

  lemma AdmissibleIff(tags: map<string, string>, ceiling: Option<Version>, ranges: seq<Range>, v: Version)
    ensures v in Admissible(tags, ceiling, ranges) <==>
      v in Candidates(tags) && UnderCeiling(v, ceiling) && AdmitsAll(ranges, v)
  {}

  /** The last admissible candidate of an ascending list is a highest one. */
  lemma FirstIsHighest(tags: map<string, string>, ceiling: Option<Version>, ranges: seq<Range>,
    candidates: seq<Version>, index: nat)
    requires Ascending(candidates) && forall v :: v in candidates <==> v in Candidates(tags)
    requires index < |candidates| && UnderCeiling(candidates[index], ceiling) && AdmitsAll(ranges, candidates[index])
    requires forall i :: index < i < |candidates| ==> candidates[i] !in Admissible(tags, ceiling, ranges)
    ensures IsHighest(candidates[index], Admissible(tags, ceiling, ranges))
  {
    hide Candidates, Admissible, UnderCeiling, AdmitsAll;
    AdmissibleIff(tags, ceiling, ranges, candidates[index]);
    CompareAntisymmetric(candidates[index], candidates[index]);
    forall w | w in Admissible(tags, ceiling, ranges) ensures Compare(w, candidates[index]) <= 0 {
      AdmissibleIff(tags, ceiling, ranges, w);
      var i :| 0 <= i < |candidates| && candidates[i] == w;
    }
  }

  lemma NoneAdmitted(tags: map<string, string>, ceiling: Option<Version>, ranges: seq<Range>, candidates: seq<Version>)
    requires forall v :: v in candidates <==> v in Candidates(tags)
    requires forall i :: 0 <= i < |candidates| ==> candidates[i] !in Admissible(tags, ceiling, ranges)
    ensures Admissible(tags, ceiling, ranges) == {}
  {
    hide Candidates, Admissible;
    forall w ensures w !in Admissible(tags, ceiling, ranges) {
      AdmissibleIff(tags, ceiling, ranges, w);
      assert w in Candidates(tags) ==> w in candidates;
    }
  }

  // ---------------------------------------------------------- one selection

  /** The loop that reads the constraints on one name. */
  method GatherLoop(input: Input, cs: seq<Constraint>) returns (r: Result<Gathered, Error>)
    ensures r == Gather(input, cs)
  {
    var g := Gathered(None, [], []);
    var i := 0;
    while i < |cs|
      invariant 0 <= i <= |cs| && Gather(input, cs[..i]) == Ok(g)
    {
      assert cs[..i + 1][..i] == cs[..i];
      var next := GatherOne(input, g, cs[i]);
      if next.Err? {
        GatherStops(input, cs, i + 1);
        return next;
      }
      g := next.value;
      i := i + 1;
    }
    assert cs[..i] == cs;
    return Ok(g);
  }

  lemma {:induction false} GatherStops(input: Input, cs: seq<Constraint>, i: nat)
    requires i <= |cs| && Gather(input, cs[..i]).Err?
    ensures Gather(input, cs) == Gather(input, cs[..i])
    decreases |cs|
  {
    if i < |cs| {
      assert cs[..|cs| - 1][..i] == cs[..i];
      GatherStops(input, cs[..|cs| - 1], i);
    } else {
      assert cs[..i] == cs;
    }
  }

  /** What the exact arm may answer: any highest version tag on the commit will do. */
  ghost predicate ExactAllowed(input: Input, name: string, first: Constraint, g: Gathered, r: Result<Selection, Error>)
    requires g.commits != []
  {
    exists top :: (name in input.packages ==> IsTop(top, CandidatesAt(input.packages[name].tags, g.commits[0])))
                  && r == SelectExactGiven(input, name, first, g, top)
  }

  /** What the range arm may answer: any highest admissible version will do. */
  ghost predicate RangeAllowed(input: Input, ceiling: Option<Version>, name: string, first: Constraint,
    ranges: seq<Range>, r: Result<Selection, Error>) {
    exists top :: (name in input.packages ==> IsTop(top, Admissible(input.packages[name].tags, ceiling, ranges)))
                  && r == SelectHighestGiven(input, name, first, top)
  }

  /** What the constraints on a name may select, whichever way ties between versions fall. */
  ghost predicate ChoiceAllowed(input: Input, ceiling: Option<Version>, name: string, cs: seq<Constraint>,
    r: Result<Selection, Error>)
    requires cs != []
  {
    match Gather(input, cs)
    case Err(e) => r == Err(e)
    case Ok(g) =>
      exists picked ::
        && (if g.path.Some? then picked == SelectPath(name, cs[0].kind, g.path.value)
            else if g.commits != [] then ExactAllowed(input, name, cs[0], g, picked)
            else RangeAllowed(input, ceiling, name, cs[0], g.ranges, picked))
        && r == Remembered(cs, picked)
  }

  function Remembered(cs: seq<Constraint>, picked: Result<Selection, Error>): Result<Selection, Error> {
    if picked.Err? then picked else Ok(picked.value.(overlay := LastOverlay(cs, picked.value.overlay)))
  }

  lemma ExactIsOne(input: Input, name: string, first: Constraint, g: Gathered, r: Result<Selection, Error>)
    requires BoundedTags(input) && g.commits != [] && ExactAllowed(input, name, first, g, r)
    ensures r == SelectExact(input, name, first, g)
  {
    hide SelectExactGiven, Highest, IsTop, CandidatesAt;
    var top :| (name in input.packages ==> IsTop(top, CandidatesAt(input.packages[name].tags, g.commits[0])))
               && r == SelectExactGiven(input, name, first, g, top);
    if name in input.packages {
      CandidatesAtSome(input.packages[name].tags, g.commits[0]);
      TopIsHighest(input.packages[name].tags, CandidatesAt(input.packages[name].tags, g.commits[0]), top);
    } else {
      MissingPackage(input, name, first, g, top);
      MissingPackage(input, name, first, g, None);
    }
  }

  lemma MissingPackage(input: Input, name: string, first: Constraint, g: Gathered, top: Option<Version>)
    requires name !in input.packages && g.commits != []
    ensures SelectExactGiven(input, name, first, g, top) == SelectExactGiven(input, name, first, g, None)
  {}

  lemma CandidatesAtSome(tags: map<string, string>, commit: string)
    ensures CandidatesAt(tags, commit) <= Candidates(tags)
  {}

  lemma RangeIsOne(input: Input, ceiling: Option<Version>, name: string, first: Constraint, ranges: seq<Range>,
    r: Result<Selection, Error>)
    requires BoundedTags(input) && RangeAllowed(input, ceiling, name, first, ranges, r)
    ensures r == SelectHighest(input, ceiling, name, first, ranges)
  {
    if name in input.packages {
      var top :| IsTop(top, Admissible(input.packages[name].tags, ceiling, ranges))
        && r == SelectHighestGiven(input, name, first, top);
      TopIsHighest(input.packages[name].tags, Admissible(input.packages[name].tags, ceiling, ranges), top);
    }
  }

  /** With bounded numbers nothing ties: what is allowed is the one choice of the state machine. */
  lemma ChoiceIsOne(input: Input, ceiling: Option<Version>, name: string, cs: seq<Constraint>,
    r: Result<Selection, Error>)
    requires BoundedTags(input) && cs != [] && ChoiceAllowed(input, ceiling, name, cs, r)
    ensures r == Choose(input, ceiling, name, cs)
  {
    hide SelectExact, SelectHighest, ExactAllowed, RangeAllowed, SelectPath, LastOverlay, BoundedTags;
    if Gather(input, cs).Ok? {
      var g := Gather(input, cs).value;
      var picked :|
        && (if g.path.Some? then picked == SelectPath(name, cs[0].kind, g.path.value)
            else if g.commits != [] then ExactAllowed(input, name, cs[0], g, picked)
            else RangeAllowed(input, ceiling, name, cs[0], g.ranges, picked))
        && r == Remembered(cs, picked);
      if g.path.None? {
        if g.commits != [] {
          ExactIsOne(input, name, cs[0], g, picked);
        } else {
          RangeIsOne(input, ceiling, name, cs[0], g.ranges, picked);
        }
      }
    }
  }

  /** Every range admits the version; without a version only no range at all does. */
  method RangesAdmit(ranges: seq<Range>, version: Option<Version>) returns (ok: bool)
    ensures ok <==> ranges == [] || (version.Some? && AdmitsAll(ranges, version.value))
  {
    var i := 0;
    while i < |ranges|
      invariant 0 <= i <= |ranges|
      invariant forall j :: 0 <= j < i ==> version.Some? && RangeSatisfies(ranges[j], version.value)
    {
      if version.None? || !RangeSatisfies(ranges[i], version.value) { return false; }
      i := i + 1;
    }
    assert ranges != [] ==> RangeSatisfies(ranges[0], version.value);
    return true;
  }

  method SelectExactly(input: Input, name: string, first: Constraint, g: Gathered) returns (r: Result<Selection, Error>)
    requires g.commits != []
    ensures ExactAllowed(input, name, first, g, r)
  {
    var commit := g.commits[0];
    var top: Option<Version> := None;
    if name in input.packages { top := HighestAt(input.packages[name].tags, commit); }
    r := ExactArm(input, name, first, g, top);
  }

  /** The exact arm once the tags on the commit have been searched. */
  method ExactArm(input: Input, name: string, first: Constraint, g: Gathered, top: Option<Version>)
    returns (r: Result<Selection, Error>)
    requires g.commits != []
    ensures r == SelectExactGiven(input, name, first, g, top)
  {
    var commit := g.commits[0];
    if exists other :: other in g.commits && other != commit { return Err(RangeConflict(name)); }
    if name !in input.packages { return Err(NilDereference(name)); }
    var pkg := input.packages[name];
    var version := top;
    if first.kind != Skill {
      var manifest := Get(pkg.commits, commit);
      if manifest.None? { return Err(NilDereference(name)); }
      var parsed := ParseVersion(manifest.value.version);
      if !parsed.ok { return Err(ManifestInvalid(name)); }
      version := Some(parsed.version);
    }
    var admitted := RangesAdmit(g.ranges, version);
    if !admitted { return Err(RangeConflict(name)); }
    return Ok(Selection(first.kind, version, commit, "", pkg.source, first.directory, Get(pkg.commits, commit), None));
  }

  method SelectByRange(input: Input, ceiling: Option<Version>, name: string, first: Constraint, ranges: seq<Range>)
    returns (r: Result<Selection, Error>)
    ensures RangeAllowed(input, ceiling, name, first, ranges, r)
  {
    if name !in input.packages {
      assert SelectHighestGiven(input, name, first, None) == Err(NilDereference(name));
      return Err(NilDereference(name));
    }
    var pkg := input.packages[name];
    var chosen := HighestAdmissible(pkg.tags, ceiling, ranges);
    if chosen.None? {
      r := Err(RangeConflict(name));
    } else {
      CandidateHasTag(pkg.tags, chosen.value);
      var commit := pkg.tags[TagOf(chosen.value)];
      var manifest := Get(pkg.commits, commit);
      r := if first.kind != Skill && (manifest.None? || manifest.value.version != Print(chosen.value))
        then Err(VersionMismatch(name, TagOf(chosen.value)))
        else Ok(Selection(first.kind, chosen, commit, "", pkg.source, first.directory, manifest, None));
    }
    assert r == SelectHighestGiven(input, name, first, chosen);
  }

  method ChooseSelection(input: Input, ceiling: Option<Version>, name: string, cs: seq<Constraint>)
    returns (r: Result<Selection, Error>)
    requires cs != []
    ensures ChoiceAllowed(input, ceiling, name, cs, r)
    ensures BoundedTags(input) ==> r == Choose(input, ceiling, name, cs)
  {
    hide ExactAllowed, RangeAllowed, Choose, BoundedTags, Gather;
    var gathered := GatherLoop(input, cs);
    if gathered.Err? {
      r := Err(gathered.error);
    } else {
      var g := gathered.value;
      var picked: Result<Selection, Error>;
      if g.path.Some? {
        picked := SelectPath(name, cs[0].kind, g.path.value);
      } else if g.commits != [] {
        picked := SelectExactly(input, name, cs[0], g);
      } else {
        picked := SelectByRange(input, ceiling, name, cs[0], g.ranges);
      }
      r := Remembered(cs, picked);
    }
    if BoundedTags(input) { ChoiceIsOne(input, ceiling, name, cs, r); }
  }

  // ------------------------------------------------------------ the worklist

  lemma DropOneMore(constraints: seq<Constraint>, i: nat, mark: string)
    requires i < |constraints|
    ensures WithoutLabel(constraints[..i + 1], mark)
         == WithoutLabel(constraints[..i], mark)
           + (if Label(constraints[i].requirer) == mark then [] else [constraints[i]])
    ensures DroppedByLabel(constraints[..i + 1], mark)
         == DroppedByLabel(constraints[..i], mark)
           + (if Label(constraints[i].requirer) == mark then {constraints[i].name} else {})
  {
    hide Label;
    var front, c := constraints[..i], constraints[i];
    assert constraints[..i + 1] == front + [c];
    assert (front + [c])[..|front|] == front;
    assert WithoutLabel(front, mark) + [] == WithoutLabel(front, mark);
    forall name | name in DroppedByLabel(front, mark) ensures name in DroppedByLabel(front + [c], mark) {
      var d :| d in front && Label(d.requirer) == mark && d.name == name;
      assert d in front + [c];
    }
    assert c in front + [c];
  }

  /** The constraints that carry a requirer's label are dropped and their names become pending. */
  method DropAttributed(constraints: seq<Constraint>, pending: set<string>, mark: string)
    returns (kept: seq<Constraint>, more: set<string>)
    ensures kept == WithoutLabel(constraints, mark)
    ensures more == pending + DroppedByLabel(constraints, mark)
  {
    hide Label;
    kept := [];
    var freed: set<string> := {};
    for i := 0 to |constraints|
      invariant kept == WithoutLabel(constraints[..i], mark)
      invariant freed == DroppedByLabel(constraints[..i], mark)
    {
      DropOneMore(constraints, i, mark);
      if Label(constraints[i].requirer) == mark {
        freed := freed + {constraints[i].name};
      } else {
        kept := kept + [constraints[i]];
      }
    }
    assert constraints[..|constraints|] == constraints;
    more := pending + freed;
  }

  /** No overlay among the first k repeats an earlier name. */
  predicate ComposedUpTo(input: Input, k: nat)
    requires k <= |input.overlays|
  {
    && (forall i :: 0 <= i < k ==> input.overlays[i].name != input.root)
    && (forall i, j :: 0 <= i < j < k ==> input.overlays[i].name != input.overlays[j].name)
  }

  /** The seed loop: the machine's constraints, or the first overlay that repeats a name. */
  method Seed(input: Input) returns (constraints: seq<Constraint>, pending: set<string>, repeated: Option<string>)
    ensures repeated.None? ==> Composed(input) && constraints == Seeds(input) && pending == NamesOf(Seeds(input))
    ensures repeated.Some? ==> exists k :: 0 <= k < |input.overlays| && repeated.value == input.overlays[k].name
                                           && ComposedUpTo(input, k) && !ComposedUpTo(input, k + 1)
  {
    constraints := [RootSeed(input)];
    pending := {input.root};
    var i := 0;
    while i < |input.overlays|
      invariant 0 <= i <= |input.overlays| && ComposedUpTo(input, i)
      invariant constraints == Seeds(input)[..i + 1]
      invariant forall name :: name in pending <==> name == input.root || exists j ::
        0 <= j < i && input.overlays[j].name == name
    {
      var overlay := input.overlays[i];
      if overlay.name in pending {
        assert ComposedUpTo(input, i) && !ComposedUpTo(input, i + 1);
        return constraints, pending, Some(overlay.name);
      }
      constraints := constraints + [OverlaySeed(overlay)];
      pending := pending + {overlay.name};
      i := i + 1;
    }
    assert constraints == Seeds(input);
    assert pending == NamesOf(Seeds(input)) by {
      forall j | 0 <= j < |input.overlays| ensures input.overlays[j].name in NamesOf(Seeds(input)) {
        assert Seeds(input)[j + 1] in Seeds(input);
      }
      assert Seeds(input)[0] in Seeds(input);
    }
    repeated := None;
  }

  /** The final pass, which stops at the first constraint that does not hold. */
  method CheckLoop(s: State) returns (refusal: Option<Error>)
    ensures refusal == Check(s, s.constraints)
  {
    var i := 0;
    assert s.constraints[0..] == s.constraints;
    while i < |s.constraints|
      invariant 0 <= i <= |s.constraints| && Check(s, s.constraints) == Check(s, s.constraints[i..])
    {
      assert s.constraints[i..][1..] == s.constraints[i + 1..];
      if !Holds(s, s.constraints[i]) { return Some(RangeConflict(s.constraints[i].name)); }
      i := i + 1;
    }
    refusal := None;
  }

  /** What a resolution answers once the worklist has emptied or failed. */
  ghost function Answer(final: Result<State, Error>): Resolution {
    match final
    case Err(e) => Refused(e)
    case Ok(s) => match Check(s, s.constraints)
      case Some(e) => Refused(e)
      case None => Locked(LockOf(s))
  }

  /** What handling a name may lead to, given what its constraints select. */
  function Handled(s: State, name: string, choice: Result<Selection, Error>): Result<State, Error> {
    if choice.Err? then Err(choice.error)
    else if name in s.selected && SamePin(s.selected[name], choice.value) then Ok(Idle(s, name))
    else Ok(PlaceByLabel(s, name, choice.value))
  }

  /** One iteration as the program may do it, whichever way ties between versions fall. */
  ghost predicate StepAllowed(input: Input, s: State, r: Result<State, Error>)
    requires s.pending != {}
  {
    var name := Least(s.pending);
    var cs := On(s.constraints, name);
    if cs == [] then r == Ok(if name in s.selected then LeaveByLabel(s, name) else Idle(s, name))
    else exists choice :: ChoiceAllowed(input, Get(s.ceiling, name), name, cs, choice) && r == Handled(s, name, choice)
  }

  /** One iteration: the smallest pending name is taken off the worklist and handled. */
  method HandleSmallest(input: Input, s: State) returns (r: Result<State, Error>)
    requires s.pending != {}
    ensures StepAllowed(input, s, r)
    ensures BoundedTags(input) ==> r == StepByLabel(input, s)
  {
    hide Choose, ChoiceAllowed, On, Expansion, NamesOf, WithoutLabel, DroppedByLabel, BoundedTags;
    var constraints, selected, ceiling, pending := s.constraints, s.selected, s.ceiling, s.pending;
    var name := SmallestOf(pending);
    pending := pending - {name};
    var cs := On(constraints, name);
    if cs == [] {
      if name in selected {
        var mark := Label(Member(name, selected[name].version));
        selected := selected - {name};
        constraints, pending := DropAttributed(constraints, pending, mark);
      }
      return Ok(State(constraints, selected, ceiling, pending));
    }
    var choice := ChooseSelection(input, Get(ceiling, name), name, cs);
    if choice.Err? {
      assert Handled(s, name, choice) == Err(choice.error);
      return Err(choice.error);
    }
    var next := choice.value;
    if name in selected {
      if SamePin(selected[name], next) {
        assert Handled(s, name, choice) == Ok(Idle(s, name));
        return Ok(State(constraints, selected, ceiling, pending));
      }
      constraints, pending := DropAttributed(constraints, pending, Label(Member(name, selected[name].version)));
    }
    selected := selected[name := next];
    if next.version.Some? { ceiling := ceiling[name := next.version.value]; }
    constraints := constraints + Expansion(name, next);
    pending := pending + NamesOf(Expansion(name, next));
    assert s.pending - {name} + {} == s.pending - {name};
    r := Ok(State(constraints, selected, ceiling, pending));
    assert Handled(s, name, choice) == r;
  }

  /**
   * resolveClosure up to its lock: seed, select and expand until nothing is pending, check.
   * A lock is closed and exact, carries the commits that were asked for, and its entries are those of
   * packages and overlays. Without path overlays and on distinct commits, a refusal
   * is a step's error or a repeated name, never the final check's.
   */
  method ResolveClosure(input: Input) returns (r: Resolution)
    requires Terminating(input) && LabelsSafe(input) && BoundedTags(input)
    ensures !Composed(input) ==> exists k ::
      0 <= k < |input.overlays| && r == Refused(CompositionInvalid(input.overlays[k].name))
                                             && ComposedUpTo(input, k) && !ComposedUpTo(input, k + 1)
    ensures Composed(input) ==> TInv(input, Init(input)) && r == Answer(Finish(input, Init(input)))
    ensures Composed(input) ==> exists run :: IsLabelRun(input, run) && Concludes(input, run[|run| - 1], r)
    ensures Orderly(input) && NoPathSeeds(input) && r.Refused? ==>
      exists run :: IsLabelRun(input, run) && Fails(input, run[|run| - 1], r.error)
  {
    hide Terminating, BoundedTags, LabelInv, TInv, Init, LabelsSafe, Concludes, Fails, Orderly, NoPathSeeds;
    var constraints, pending, repeated := Seed(input);
    assert Orderly(input) ==> Composed(input) by { OrderlyIsComposed(input); }
    if repeated.Some? { return Refused(CompositionInvalid(repeated.value)); }
    var s := Init(input);
    assert s == State(constraints, map[], map[], pending) by { InitIs(input); }
    InitTInv(input);
    StartLabelInv(input);
    while s.pending != {}
      invariant TInv(input, s) && LabelInv(input, s) && Finish(input, s) == Finish(input, Init(input))
      decreases Rank(input, s)
    {
      FinishStep(input, s);
      var next := HandleSmallest(input, s);
      StepsAgree(input, s);
      if next.Err? {
        AnswerConcludes(input);
        return Refused(next.error);
      }
      s := next.value;
    }
    var refusal := CheckLoop(s);
    r := if refusal.Some? then Refused(refusal.value) else Locked(LockOf(s));
    AnswerConcludes(input);
  }

  lemma InitIs(input: Input)
    ensures Init(input) == State(Seeds(input), map[], map[], NamesOf(Seeds(input)))
  {}

  lemma OrderlyIsComposed(input: Input)
    ensures Orderly(input) ==> Composed(input)
  {}

  /** One unfolding of Finish and Length. */
  lemma FinishStep(input: Input, s: State)
    requires Terminating(input) && TInv(input, s) && s.pending != {}
    ensures Step(input, s).Err? ==> Finish(input, s) == Err(Step(input, s).error)
    ensures Step(input, s).Ok? ==>
      && TInv(input, Step(input, s).value) && Rank(input, Step(input, s).value) < Rank(input, s)
      && Finish(input, s) == Finish(input, Step(input, s).value)
      && Length(input, s) == 1 + Length(input, Step(input, s).value)
  {
    hide Terminating, TInv, Step, Rank;
    if Step(input, s).Ok? { StepLowersRank(input, s); }
  }

  /** The step from a state fails with the error. */
  ghost predicate Fails(input: Input, last: State, e: Error) {
    last.pending != {} && StepByLabel(input, last) == Err(e)
  }

  /** What a resolution that ends in a state answers. */
  ghost predicate Concludes(input: Input, last: State, r: Resolution) {
    match r
    case Locked(lock) =>
      last.pending == {} && Check(last, last.constraints).None? && lock == LockOf(last) && ExactLock(input, last, lock)
      && LocksPins(input, last, lock) && RealEntries(input, lock)
    case Refused(e) => Fails(input, last, e) || (last.pending == {} && Check(last, last.constraints) == Some(e))
  }

  // ------------------------------------------------- the loop and its runs

  lemma RunExtends(input: Input, run: seq<State>, after: State)
    requires IsRun(input, run) && Next(input, run[|run| - 1], after)
    ensures IsRun(input, run + [after])
  {
    forall i | 0 <= i < |run + [after]| - 1 ensures Next(input, (run + [after])[i], (run + [after])[i + 1]) {
      if i < |run| - 1 { assert Next(input, run[i], run[i + 1]); }
    }
  }

  /** Where the loop ends is the last state of a run: worklist empty, or a step that fails with the reported error. */
  lemma {:induction false} FinishEndsRun(input: Input, run: seq<State>) returns (whole: seq<State>)
    requires Terminating(input) && IsRun(input, run) && TInv(input, run[|run| - 1])
    ensures IsRun(input, whole)
    ensures var last := whole[|whole| - 1];
      match Finish(input, run[|run| - 1])
      case Ok(final) => last == final && final.pending == {}
      case Err(e) => last.pending != {} && Step(input, last) == Err(e)
    decreases Length(input, run[|run| - 1])
  {
    hide TInv, Next, Init, Terminating, Progress;
    var s := run[|run| - 1];
    if s.pending == {} { return run; }
    FinishStep(input, s);
    if Step(input, s).Err? { return run; }
    var after := Step(input, s).value;
    RunExtends(input, run, after);
    whole := FinishEndsRun(input, run + [after]);
  }

  lemma InitIsRun(input: Input)
    ensures IsRun(input, [Init(input)])
  {}

  /** The answer is what the end of a run by label comes to. */
  lemma AnswerConcludes(input: Input)
    requires Terminating(input) && LabelsSafe(input) && TInv(input, Init(input)) && Composed(input)
    ensures var r := Answer(Finish(input, Init(input)));
      && (exists run :: IsLabelRun(input, run) && Concludes(input, run[|run| - 1], r))
      && (Orderly(input) && NoPathSeeds(input) && r.Refused? ==>
            exists run :: IsLabelRun(input, run) && Fails(input, run[|run| - 1], r.error))
  {
    hide Terminating, LabelsSafe, TInv, LabelInv, Init, Next, IsLabelRun, Orderly, NoPathSeeds, ExactLock, Step,
      StepByLabel, LocksPins, RealEntries, Composed;
    InitIsRun(input);
    var run := FinishEndsRun(input, [Init(input)]);
    var last := run[|run| - 1];
    LabelRunsAreRuns(input, run);
    if last.pending == {} {
      FinishedRunsMakeExactLocks(input, run);
      LocksCarryPins(input, run);
      LocksAreReal(input, run);
      if Orderly(input) && NoPathSeeds(input) { CheckNeverRefusesWithoutPaths(input, run); }
    } else {
      StepsAgree(input, last);
    }
    assert IsLabelRun(input, run) && Concludes(input, last, Answer(Finish(input, Init(input))));
  }
}
