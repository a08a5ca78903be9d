/** What a lock entry says: its commit is the one that was asked for, and its fields are a package's or an overlay's. */
module ResolverEntries {
  import opened Wrappers
  import opened Texts
  import opened Semver
  import opened Ranges
  import opened Resolver
  import opened ResolverInvariants
  import opened ResolverChoices
  import opened ResolverSources
  import opened ResolverSafety

  // ------------------------------------------------------ exact requirements

  /** The commit a tag or a revision stands for. */
  predicate StandsFor(input: Input, c: Constraint, commit: string) {
    match c.form
    case ByTag => c.name in input.packages && Get(input.packages[c.name].tags, c.value) == Some(commit)
    case ByRevision => c.value == commit
    case _ => false
  }

  /** No constraint on the name is a path. */
  predicate NoPathOn(constraints: seq<Constraint>, name: string) {
    forall c :: c in constraints && c.name == name ==> c.form != ByPath
  }

  /** A constraint can be read: its range parses, its tag exists. */
  predicate Readable(input: Input, c: Constraint) {
    match c.form
    case ByRange => ParseRange(c.value).Some?
    case ByTag => c.name in input.packages && c.value in input.packages[c.name].tags
    case _ => true
  }

  function Problem(input: Input, c: Constraint): Error {
    if c.form == ByTag && c.name !in input.packages then NilDereference(c.name) else SourceInvalid(c.name, c.value)
  }

  lemma OneReads(input: Input, g: Gathered, c: Constraint)
    ensures if Readable(input, c) then GatherOne(input, g, c).Ok? else GatherOne(input, g, c) == Err(Problem(input, c))
    ensures Readable(input, c) && c.form != ByPath ==> GatherOne(input, g, c).value.path == g.path
    ensures Readable(input, c) ==> g.commits <= GatherOne(input, g, c).value.commits
    ensures Readable(input, c) ==> forall k :: StandsFor(input, c, k) ==> k in GatherOne(input, g, c).value.commits
    ensures Readable(input, c) ==> forall k :: k in GatherOne(input, g, c).value.commits ==>
      k in g.commits || StandsFor(input, c, k)
  {
    hide ParseRange;
  }

  /** Constraints gather exactly when all can be read, and then exactly the commits they stand for. */
  lemma {:induction false} GatheredCommits(input: Input, cs: seq<Constraint>)
    ensures Gather(input, cs).Ok? <==> forall c :: c in cs ==> Readable(input, c)
    ensures Gather(input, cs).Ok? ==>
      && (forall c, k :: c in cs && StandsFor(input, c, k) ==> k in Gather(input, cs).value.commits)
      && (forall k :: k in Gather(input, cs).value.commits ==> exists c :: c in cs && StandsFor(input, c, k))
      && ((forall c :: c in cs ==> c.form != ByPath) ==> Gather(input, cs).value.path.None?)
  {
    hide Readable, StandsFor, GatherOne;
    if cs != [] {
      var front, last := cs[..|cs| - 1], cs[|cs| - 1];
      assert cs == front + [last];
      GatheredCommits(input, front);
      if Gather(input, front).Ok? { OneReads(input, Gather(input, front).value, last); }
    }
  }

  /** The first constraint that cannot be read is the one reported. */
  lemma {:induction false} FirstUnreadable(input: Input, cs: seq<Constraint>, i: nat)
    requires i < |cs| && !Readable(input, cs[i]) && forall j :: 0 <= j < i ==> Readable(input, cs[j])
    ensures Gather(input, cs) == Err(Problem(input, cs[i]))
    decreases |cs|
  {
    hide Readable, GatherOne;
    var front, last := cs[..|cs| - 1], cs[|cs| - 1];
    if i == |cs| - 1 {
      GatheredCommits(input, front);
      OneReads(input, Gather(input, front).value, last);
    } else {
      FirstUnreadable(input, front, i);
    }
  }

  /** Two constraints that stand for different commits are a conflict. */
  lemma DifferentCommitsConflict(input: Input, s: State, name: string, c: Constraint, d: Constraint, k: string,
    l: string)
    requires NoPathOn(s.constraints, name)
    requires c in s.constraints && d in s.constraints && c.name == name && d.name == name
    requires StandsFor(input, c, k) && StandsFor(input, d, l) && k != l
    ensures Handle(input, s, name).Err?
    ensures (forall x :: x in s.constraints && x.name == name ==> Readable(input, x)) ==>
      Handle(input, s, name) == Err(RangeConflict(name))
  {
    hide Readable, StandsFor, Gather, GatherOne;
    var cs := On(s.constraints, name);
    assert c in cs && d in cs;
    GatheredCommits(input, cs);
  }

  /** Without a path, a choice under an exact constraint is at the commit that constraint stands for. */
  lemma ChosenAtCommit(input: Input, ceiling: Option<Version>, name: string, cs: seq<Constraint>, c: Constraint)
    requires cs != [] && c in cs && IsExact(c.form) && forall d :: d in cs ==> d.form != ByPath
    requires Choose(input, ceiling, name, cs).Ok?
    ensures var sel := Choose(input, ceiling, name, cs).value; StandsFor(input, c, sel.commit) && sel.statePin == ""
  {
    hide GatherOne, LastOverlay, ParseRange;
    GatheredCommits(input, cs);
    assert Readable(input, c);
    ReadableStands(input, c);
    var k :| StandsFor(input, c, k);
    var g := Gather(input, cs).value;
    assert k in g.commits && g.commits[0] in g.commits;
  }

  lemma ReadableStands(input: Input, c: Constraint)
    requires Readable(input, c) && IsExact(c.form)
    ensures exists k :: StandsFor(input, c, k)
  {
    assert c.form == ByTag ==> StandsFor(input, c, input.packages[c.name].tags[c.value]);
    assert c.form == ByRevision ==> StandsFor(input, c, c.value);
  }

  /** A settled name is at the commit that each exact constraint on it stands for. */
  predicate PinKept(input: Input, s: State, c: Constraint) {
    c.name in s.selected && StandsFor(input, c, s.selected[c.name].commit) && s.selected[c.name].statePin == ""
  }

  ghost predicate PinsKept(input: Input, s: State) {
    forall c :: c in s.constraints && IsExact(c.form) && c.name !in s.pending && NoPathOn(s.constraints, c.name) ==>
      PinKept(input, s, c)
  }

  lemma ChosenPins(input: Input, s: State, name: string, c: Constraint)
    requires c in s.constraints && c.name == name && IsExact(c.form) && NoPathOn(s.constraints, name)
    requires On(s.constraints, name) != [] && Choose(input, Get(s.ceiling, name), name, On(s.constraints, name)).Ok?
    ensures var sel := Choose(input, Get(s.ceiling, name), name, On(s.constraints, name)).value;
      StandsFor(input, c, sel.commit) && sel.statePin == ""
  {
    ChosenAtCommit(input, Get(s.ceiling, name), name, On(s.constraints, name), c);
  }

  lemma IdlePins(input: Input, s: State, name: string)
    requires PinsKept(input, s)
    requires forall c :: c in s.constraints && c.name == name && IsExact(c.form) && NoPathOn(s.constraints, name) ==>
      PinKept(input, s, c)
    ensures PinsKept(input, Idle(s, name))
  {
    hide NoPathOn, StandsFor;
    forall c | c in s.constraints && IsExact(c.form) && c.name !in Idle(s, name).pending
      && NoPathOn(s.constraints, c.name)
      ensures PinKept(input, Idle(s, name), c)
    {
      assert PinKept(input, s, c);
    }
  }

  lemma LeavePins(input: Input, s: State, name: string)
    requires PinsKept(input, s) && name in s.selected && On(s.constraints, name) == []
    ensures PinsKept(input, Leave(s, name))
  {
    hide StandsFor, Without, DroppedNames;
    var after := Leave(s, name);
    NothingOn(s, name);
    forall c | c in after.constraints && IsExact(c.form) && c.name !in after.pending
      && NoPathOn(after.constraints, c.name)
      ensures PinKept(input, after, c)
    {
      ConstraintsUntouched(s, after, Member(name, s.selected[name].version), c.name);
      assert PinKept(input, s, c);
    }
  }

  lemma PlacePins(input: Input, s: State, name: string, next: Selection)
    requires Attributed(input, s) && PinsKept(input, s)
    requires forall c :: c in s.constraints && c.name == name && IsExact(c.form) && NoPathOn(s.constraints, name) ==>
      StandsFor(input, c, next.commit) && next.statePin == ""
    ensures PinsKept(input, Place(s, name, next))
  {
    hide StandsFor, Attributed, Expansion, Without, DroppedNames;
    var after := Place(s, name, next);
    forall c | c in after.constraints && IsExact(c.form) && c.name !in after.pending
      && NoPathOn(after.constraints, c.name)
      ensures PinKept(input, after, c)
    {
      PlaceUntouched(input, s, name, next, c.name);
      assert NoPathOn(s.constraints, c.name);
      if c.name != name { assert PinKept(input, s, c); }
    }
  }

  lemma HandlePins(input: Input, s: State, name: string)
    requires Inv(input, s) && PinsKept(input, s) && Handle(input, s, name).Ok?
    ensures PinsKept(input, Handle(input, s, name).value)
  {
    hide Choose, PinsKept, NoPathOn, StandsFor, Attributed, InOrder, CeilingsMatch, Place, Leave, Idle;
    var cs := On(s.constraints, name);
    if cs == [] {
      NothingOn(s, name);
      if name in s.selected { LeavePins(input, s, name); } else { IdlePins(input, s, name); }
    } else {
      forall c | c in s.constraints && c.name == name && IsExact(c.form) && NoPathOn(s.constraints, name)
        ensures var sel := Choose(input, Get(s.ceiling, name), name, cs).value;
          StandsFor(input, c, sel.commit) && sel.statePin == ""
      {
        ChosenPins(input, s, name, c);
      }
      var next := Choose(input, Get(s.ceiling, name), name, cs).value;
      if name in s.selected && SamePin(s.selected[name], next) {
        IdlePins(input, s, name);
      } else {
        PlacePins(input, s, name, next);
      }
    }
  }

  /** In every state of every run, whatever the forms. */
  lemma {:induction false} RunPins(input: Input, run: seq<State>, i: nat)
    requires IsRun(input, run) && i < |run|
    ensures PinsKept(input, run[i])
  {
    hide Handle, PinsKept;
    if i == 0 {
      SeedsPending(input);
    } else {
      RunPins(input, run, i - 1);
      RunInv(input, run, i - 1);
      assert Next(input, run[i - 1], run[i - 1 + 1]);
      HandlePins(input, run[i - 1], Least(run[i - 1].pending));
    }
  }

  lemma SeedsPending(input: Input)
    ensures PinsKept(input, Init(input))
  {}

  /** So in a finished lock each entry under exact requirements carries the commit they all stand for. */
  ghost predicate LocksPins(input: Input, s: State, lock: Lock) {
    forall c, k :: c in s.constraints && NoPathOn(s.constraints, c.name) && IsExact(c.form) ==>
      c.name in lock && lock[c.name].statePin == "" && (StandsFor(input, c, k) <==> lock[c.name].commit == k)
  }

  lemma StandsForOne(input: Input, c: Constraint, k: string, l: string)
    requires StandsFor(input, c, k) && StandsFor(input, c, l)
    ensures k == l
  {}

  lemma LocksCarryPins(input: Input, run: seq<State>)
    requires IsRun(input, run) && run[|run| - 1].pending == {}
    ensures LocksPins(input, run[|run| - 1], LockOf(run[|run| - 1]))
  {
    hide StandsFor, NoPathOn, Next;
    var s := run[|run| - 1];
    RunPins(input, run, |run| - 1);
    forall c, k | c in s.constraints && NoPathOn(s.constraints, c.name) && IsExact(c.form)
      ensures c.name in s.selected && MemberOf(s, c.name).statePin == ""
      ensures StandsFor(input, c, k) <==> MemberOf(s, c.name).commit == k
    {
      assert PinKept(input, s, c);
      if StandsFor(input, c, k) { StandsForOne(input, c, k, s.selected[c.name].commit); }
    }
  }

  /** So two requirements that stand for different commits of a name are never both met: the name stays pending. */
  lemma ConflictsNeverSettle(input: Input, run: seq<State>, i: nat, c: Constraint, d: Constraint, k: string, l: string)
    requires IsRun(input, run) && i < |run| && c in run[i].constraints && d in run[i].constraints && c.name == d.name
    requires NoPathOn(run[i].constraints, c.name) && StandsFor(input, c, k) && StandsFor(input, d, l) && k != l
    ensures c.name in run[i].pending
  {
    hide NoPathOn, IsRun;
    RunPins(input, run, i);
    if c.name !in run[i].pending {
      assert PinKept(input, run[i], c) && PinKept(input, run[i], d);
      StandsForOne(input, c, k, run[i].selected[c.name].commit);
      StandsForOne(input, d, l, run[i].selected[c.name].commit);
    }
  }

  // ----------------------------------------------------------- lock entries

  /** The overlay composed under the name, if there is one. */
  predicate IsOverlay(input: Input, name: string, overlay: Overlay) {
    overlay in input.overlays && overlay.name == name
  }

  /** Version, commit, source and state are those of a path overlay. */
  predicate AtPath(input: Input, name: string, sel: Selection) {
    && sel.overlay.Some? && IsOverlay(input, name, sel.overlay.value) && sel.overlay.value.form == ByPath
    && sel.overlay.value.manifest.Some? && sel.manifest == sel.overlay.value.manifest
    && sel.version == Some(ParseVersion(sel.overlay.value.manifest.value.version).version)
    && sel.statePin == sel.overlay.value.statePin && sel.commit == "" && sel.source == "" && sel.directory == ""
  }

  /** They are those of a commit of the package: a skill's version by tag, another's by its manifest. */
  predicate AtCommit(input: Input, name: string, sel: Selection) {
    && name in input.packages && sel.source == input.packages[name].source && sel.statePin == ""
    && sel.manifest == Get(input.packages[name].commits, sel.commit)
    && if sel.kind == Skill then
         if sel.version.Some? then Get(input.packages[name].tags, TagOf(sel.version.value)) == Some(sel.commit)
         else forall tag :: tag in input.packages[name].tags && input.packages[name].tags[tag] == sel.commit ==>
           ParseTag(tag).None?
       else
         sel.manifest.Some? && sel.version.Some?
           && ParseVersion(sel.manifest.value.version) == Parsed(sel.version.value, true)
  }

  lemma TopIsTagged(tags: map<string, string>, commit: string)
    ensures var top := Highest(CandidatesAt(tags, commit));
      if top.Some? then Get(tags, TagOf(top.value)) == Some(commit)
      else forall tag :: tag in tags && tags[tag] == commit ==> ParseTag(tag).None?
  {
    var top := Highest(CandidatesAt(tags, commit));
    if top.Some? {
      var tag :| tag in tags && tags[tag] == commit && ParseTag(tag) == top;
      TagDetermined(tag);
    } else {
      forall tag | tag in tags && tags[tag] == commit ensures ParseTag(tag).None? {
        TaggedIsCandidate(tags, commit, tag);
      }
    }
  }

  lemma TaggedIsCandidate(tags: map<string, string>, commit: string, tag: string)
    requires tag in tags && tags[tag] == commit
    ensures ParseTag(tag).Some? ==> ParseTag(tag).value in CandidatesAt(tags, commit)
  {}

  lemma ExactAtCommit(input: Input, name: string, first: Constraint, g: Gathered)
    requires g.commits != [] && SelectExact(input, name, first, g).Ok?
    ensures var sel := SelectExact(input, name, first, g).value;
      AtCommit(input, name, sel) && sel.kind == first.kind && sel.directory == first.directory && sel.overlay == None
  {
    TopIsTagged(input.packages[name].tags, g.commits[0]);
  }

  lemma HighestAtCommit(input: Input, ceiling: Option<Version>, name: string, first: Constraint, ranges: seq<Range>)
    requires SelectHighest(input, ceiling, name, first, ranges).Ok?
    ensures var sel := SelectHighest(input, ceiling, name, first, ranges).value;
      AtCommit(input, name, sel) && sel.kind == first.kind && sel.directory == first.directory && sel.overlay == None
  {
    hide Admissible;
    var v := Highest(Admissible(input.packages[name].tags, ceiling, ranges)).value;
    AdmissibleIsCandidate(input.packages[name].tags, ceiling, ranges, v);
    CandidateHasTag(input.packages[name].tags, v);
    ParseOfPrint(v);
  }

  lemma AdmissibleIsCandidate(tags: map<string, string>, ceiling: Option<Version>, ranges: seq<Range>, v: Version)
    requires v in Admissible(tags, ceiling, ranges)
    ensures v in Candidates(tags)
  {}

  /** Some manifest asks for the name as that kind, in that directory. */
  ghost predicate StatedAs(input: Input, name: string, kind: Kind, directory: string) {
    exists r :: Stated(input, r) && r.name == name && r.kind == kind && r.directory == directory
  }

  /** Who asks decides the rest: for a machine's name the machine, else some manifest. */
  ghost predicate AskedAs(input: Input, name: string, sel: Selection) {
    && (if name in Base(input) then sel.kind == Context
       && (AtPath(input, name, sel) || MachineDirectory(input, name, sel.directory))
        else StatedAs(input, name, sel.kind, sel.directory))
    && (sel.overlay.Some? <==> exists overlay :: IsOverlay(input, name, overlay))
    && (sel.overlay.Some? ==> IsOverlay(input, name, sel.overlay.value))
  }

  predicate MachineDirectory(input: Input, name: string, directory: string) {
    exists c :: c in Seeds(input) && c.name == name && c.directory == directory
  }

  ghost predicate Real(input: Input, name: string, sel: Selection) {
    (AtPath(input, name, sel) || AtCommit(input, name, sel)) && AskedAs(input, name, sel)
  }

  lemma SeedOverlay(input: Input, c: Constraint)
    requires c in Seeds(input) && c.overlay.Some?
    ensures IsOverlay(input, c.name, c.overlay.value) && c.form == c.overlay.value.form
  {
    var i :| 0 <= i < |Seeds(input)| && Seeds(input)[i] == c;
    assert c == OverlaySeed(input.overlays[i - 1]);
  }

  lemma OverlayIsSeed(input: Input, name: string, overlay: Overlay)
    requires IsOverlay(input, name, overlay)
    ensures OverlaySeed(overlay) in Seeds(input) && name in Base(input)
  {
    var i :| 0 <= i < |input.overlays| && input.overlays[i] == overlay;
    assert Seeds(input)[i + 1] == OverlaySeed(overlay);
    assert OverlaySeed(overlay) in Seeds(input);
  }

  lemma {:induction false} LastOverlayIs(cs: seq<Constraint>, otherwise: Option<Overlay>)
    ensures if exists c :: c in cs && c.overlay.Some?
            then exists c :: c in cs && c.overlay.Some? && c.overlay == LastOverlay(cs, otherwise)
            else LastOverlay(cs, otherwise) == otherwise
  {
    if cs != [] {
      var front, last := cs[..|cs| - 1], cs[|cs| - 1];
      assert cs == front + [last];
      LastOverlayIs(front, otherwise);
      assert last in cs;
    }
  }

  /** The constraints on a name as a reachable state has them. */
  ghost predicate Constraining(input: Input, name: string, cs: seq<Constraint>) {
    && cs != [] && (forall c :: c in cs ==> c.name == name)
    && (forall c :: c in cs && c !in Seeds(input) ==>
          c.overlay.None? && StatedAs(input, c.name, c.kind, c.directory))
    && (forall c :: c in Seeds(input) && c.name == name ==> c in cs)
    && (name in Base(input) ==> cs[0] in Seeds(input))
  }

  lemma ContributedStatedAs(input: Input, s: State, c: Constraint)
    requires Inv(input, s) && Sourced(input, s) && c in s.constraints && c !in Seeds(input)
    ensures c.overlay.None? && StatedAs(input, c.name, c.kind, c.directory)
  {
    hide Stated, Inv, Sourced, Seeds;
    var r := ContributedIsStated(input, s, c);
  }

  lemma OnIsConstraining(input: Input, s: State, name: string)
    requires Inv(input, s) && Sourced(input, s) && SeedsFirst(input, s) && On(s.constraints, name) != []
    ensures Constraining(input, name, On(s.constraints, name))
  {
    hide StatedAs, Sourced, Inv, SeedsFirst, Base, Seeds;
    var cs := On(s.constraints, name);
    forall c | c in cs && c !in Seeds(input) ensures c.overlay.None? && StatedAs(input, c.name, c.kind, c.directory) {
      ContributedStatedAs(input, s, c);
    }
    if name in Base(input) { MachineAsksFirst(input, s, name); }
    forall c | c in Seeds(input) && c.name == name ensures c in cs { SeedsStand(input, s, c); }
  }

  lemma SeedsStand(input: Input, s: State, c: Constraint)
    requires SeedsFirst(input, s) && c in Seeds(input)
    ensures c in s.constraints
  {}

  /** Of a choice, the overlay is the one composed under its name. */
  lemma ChosenOverlay(input: Input, name: string, cs: seq<Constraint>, otherwise: Option<Overlay>)
    requires Constraining(input, name, cs) && (otherwise.Some? ==> IsOverlay(input, name, otherwise.value))
    ensures var o := LastOverlay(cs, otherwise);
      && (o.Some? <==> exists overlay :: IsOverlay(input, name, overlay))
         && (o.Some? ==> IsOverlay(input, name, o.value))
    ensures Composed(input) && otherwise.Some? ==> LastOverlay(cs, otherwise) == otherwise
  {
    hide StatedAs;
    LastOverlayIs(cs, otherwise);
    forall overlay | IsOverlay(input, name, overlay)
      ensures OverlaySeed(overlay) in cs
    {
      OverlayIsSeed(input, name, overlay);
    }
    forall c | c in cs && c.overlay.Some? ensures IsOverlay(input, name, c.overlay.value) { SeedOverlay(input, c); }
    if Composed(input) && otherwise.Some? {
      forall overlay | IsOverlay(input, name, overlay) ensures overlay == otherwise.value {
        OneOverlay(input, name, overlay, otherwise.value);
      }
    }
  }

  lemma OneOverlay(input: Input, name: string, a: Overlay, b: Overlay)
    requires Composed(input) && IsOverlay(input, name, a) && IsOverlay(input, name, b)
    ensures a == b
  {}

  lemma FirstAsks(input: Input, name: string, cs: seq<Constraint>)
    requires Constraining(input, name, cs)
    ensures if name in Base(input) then cs[0].kind == Context && MachineDirectory(input, name, cs[0].directory)
            else StatedAs(input, name, cs[0].kind, cs[0].directory)
  {
    hide StatedAs;
    assert cs[0] in cs;
    if cs[0] in Seeds(input) {
      var i :| 0 <= i < |Seeds(input)| && Seeds(input)[i] == cs[0];
      assert i > 0 ==> cs[0] == OverlaySeed(input.overlays[i - 1]);
    }
  }

  lemma PathChosen(input: Input, name: string, cs: seq<Constraint>)
    requires Composed(input) && Constraining(input, name, cs)
    requires Gather(input, cs).Ok? && Gather(input, cs).value.path.Some?
    requires SelectPath(name, cs[0].kind, Gather(input, cs).value.path.value).Ok?
    ensures var sel := SelectPath(name, cs[0].kind, Gather(input, cs).value.path.value).value;
      Real(input, name, sel.(overlay := LastOverlay(cs, sel.overlay)))
  {
    hide StatedAs, ParseVersion, LastOverlay, Gather, Seeds;
    var c := PathComesFrom(input, cs);
    SeedOverlay(input, c);
    OverlayIsSeed(input, name, c.overlay.value);
    ChosenOverlay(input, name, cs, c.overlay);
    FirstAsks(input, name, cs);
  }

  lemma CommitChosen(input: Input, name: string, cs: seq<Constraint>, sel: Selection)
    requires Constraining(input, name, cs) && AtCommit(input, name, sel)
    requires sel.kind == cs[0].kind && sel.directory == cs[0].directory && sel.overlay == None
    ensures Real(input, name, sel.(overlay := LastOverlay(cs, sel.overlay)))
  {
    hide StatedAs, ParseVersion, LastOverlay, Seeds;
    ChosenOverlay(input, name, cs, None);
    FirstAsks(input, name, cs);
  }

  lemma ChoiceIsReal(input: Input, ceiling: Option<Version>, name: string, cs: seq<Constraint>)
    requires Composed(input) && Constraining(input, name, cs) && Choose(input, ceiling, name, cs).Ok?
    ensures Real(input, name, Choose(input, ceiling, name, cs).value)
  {
    hide Constraining, Real, AtCommit, SelectExact, SelectHighest, SelectPath, LastOverlay, Gather;
    assert cs != [] by { ConstrainingSome(input, name, cs); }
    var g := Gather(input, cs).value;
    if g.path.Some? {
      PathChosen(input, name, cs);
    } else if g.commits != [] {
      ExactAtCommit(input, name, cs[0], g);
      CommitChosen(input, name, cs, SelectExact(input, name, cs[0], g).value);
    } else {
      HighestAtCommit(input, ceiling, name, cs[0], g.ranges);
      CommitChosen(input, name, cs, SelectHighest(input, ceiling, name, cs[0], g.ranges).value);
    }
  }

  lemma ConstrainingSome(input: Input, name: string, cs: seq<Constraint>)
    requires Constraining(input, name, cs)
    ensures cs != []
  {}

  ghost predicate AllReal(input: Input, s: State) {
    forall name :: name in s.selected ==> Real(input, name, s.selected[name])
  }

  lemma HandleReal(input: Input, s: State, name: string)
    requires Composed(input) && Inv(input, s) && Sourced(input, s) && SeedsFirst(input, s) && AllReal(input, s)
    requires Handle(input, s, name).Ok?
    ensures AllReal(input, Handle(input, s, name).value)
  {
    hide Inv, Sourced, SeedsFirst, Choose, Real, Composed, Expansion, Without, DroppedNames, Constraining;
    if On(s.constraints, name) != [] {
      OnIsConstraining(input, s, name);
      ChoiceIsReal(input, Get(s.ceiling, name), name, On(s.constraints, name));
    }
  }

  /** Every selection of every state of a run is a package's or an overlay's, as it was asked for. */
  lemma {:induction false} RunReal(input: Input, run: seq<State>, i: nat)
    requires Composed(input) && IsRun(input, run) && i < |run|
    ensures AllReal(input, run[i]) && SeedsFirst(input, run[i])
  {
    hide Handle, AllReal, SeedsFirst, Composed;
    if i == 0 {
      NothingReal(input);
    } else {
      RunReal(input, run, i - 1);
      RunInv(input, run, i - 1);
      RunSourced(input, run, i - 1);
      assert Next(input, run[i - 1], run[i - 1 + 1]);
      HandleReal(input, run[i - 1], Least(run[i - 1].pending));
      HandleSeedsFirst(input, run[i - 1], Least(run[i - 1].pending));
    }
  }

  lemma NothingReal(input: Input)
    ensures AllReal(input, Init(input)) && SeedsFirst(input, Init(input))
  {}

  /** A lock entry that stands for a path overlay. */
  ghost predicate PathEntry(input: Input, name: string, e: LockMember) {
    && e.kind == Context && e.commit == "" && e.source == "" && e.directory == ""
    && exists overlay :: IsOverlay(input, name, overlay) && overlay.form == ByPath && overlay.manifest.Some?
         && e.statePin == overlay.statePin && e.version == Some(ParseVersion(overlay.manifest.value.version).version)
  }

  /** A lock entry that stands for a commit of a package. */
  ghost predicate CommitEntry(input: Input, name: string, e: LockMember) {
    && name in input.packages && e.source == input.packages[name].source && e.statePin == ""
    && (if e.kind == Skill then
          if e.version.Some? then Get(input.packages[name].tags, TagOf(e.version.value)) == Some(e.commit)
          else forall tag :: tag in input.packages[name].tags && input.packages[name].tags[tag] == e.commit ==>
            ParseTag(tag).None?
        else e.commit in input.packages[name].commits && e.version.Some?
             && ParseVersion(input.packages[name].commits[e.commit].version) == Parsed(e.version.value, true))
    && (if name in Base(input) then e.kind == Context && MachineDirectory(input, name, e.directory)
        else StatedAs(input, name, e.kind, e.directory))
  }

  ghost predicate RealEntries(input: Input, lock: Lock) {
    forall name :: name in lock ==>
      && (PathEntry(input, name, lock[name]) || CommitEntry(input, name, lock[name]))
      && (lock[name].overlay <==> exists overlay :: IsOverlay(input, name, overlay))
  }

  lemma EntryIsReal(input: Input, s: State, name: string)
    requires name in s.selected && Real(input, name, s.selected[name])
    ensures PathEntry(input, name, MemberOf(s, name)) || CommitEntry(input, name, MemberOf(s, name))
    ensures MemberOf(s, name).overlay <==> exists overlay :: IsOverlay(input, name, overlay)
  {
    hide StatedAs, ParseVersion, ParseTag, IsOverlay, RequiredBy, Seeds;
    if AtPath(input, name, s.selected[name]) {
      OverlayIsSeed(input, name, s.selected[name].overlay.value);
      assert PathEntry(input, name, MemberOf(s, name));
    }
  }

  /** Every entry of a finished lock is that of a path overlay or of a package's commit, as it was asked for. */
  lemma LocksAreReal(input: Input, run: seq<State>)
    requires Composed(input) && IsRun(input, run) && run[|run| - 1].pending == {}
    ensures RealEntries(input, LockOf(run[|run| - 1]))
  {
    hide Next, Composed, PathEntry, CommitEntry, IsOverlay, Real, MemberOf;
    var s := run[|run| - 1];
    RunReal(input, run, |run| - 1);
    forall name | name in s.selected
      ensures PathEntry(input, name, MemberOf(s, name)) || CommitEntry(input, name, MemberOf(s, name))
      ensures MemberOf(s, name).overlay <==> exists overlay :: IsOverlay(input, name, overlay)
    {
      EntryIsReal(input, s, name);
    }
  }
}
