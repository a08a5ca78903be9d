/** When handling a name is refused and what it selects otherwise, said of the constraints on the name. */
module ResolverAnswers {
  import opened Wrappers
  import opened Semver
  import opened Ranges
  import opened Resolver
  import opened ResolverChoices
  import opened ResolverSafety
  import opened ResolverEntries

  /** Every constraint on the name can be read. */
  predicate AllReadable(input: Input, s: State, name: string) {
    forall c :: c in s.constraints && c.name == name ==> Readable(input, c)
  }

  /** The first constraint that cannot be read decides the error, whatever the others ask for. */
  lemma UnreadableIsReported(input: Input, s: State, name: string, i: nat)
    requires i < |On(s.constraints, name)| && !Readable(input, On(s.constraints, name)[i])
    requires forall j :: 0 <= j < i ==> Readable(input, On(s.constraints, name)[j])
    ensures Handle(input, s, name) == Err(Problem(input, On(s.constraints, name)[i]))
  {
    FirstUnreadable(input, On(s.constraints, name), i);
  }

  /** The name is selected at the commit after it was handled. */
  predicate SelectedAt(r: Result<State, Error>, name: string, commit: string) {
    r.Ok? && name in r.value.selected && r.value.selected[name].commit == commit
      && r.value.selected[name].statePin == ""
  }

  /** Every exact constraint on the name stands for the commit, and there is one. */
  predicate OneCommit(input: Input, s: State, name: string, commit: string) {
    && (exists c :: c in s.constraints && c.name == name && IsExact(c.form))
    && forall c :: c in s.constraints && c.name == name && IsExact(c.form) ==> StandsFor(input, c, commit)
  }

  /** The version a commit has: for a skill a highest of its tags or none, else the one its manifest declares. */
  ghost predicate TellsVersion(pkg: Package, kind: Kind, commit: string, version: Option<Version>) {
    if kind == Skill then
      && (version.None? ==> forall tag :: tag in pkg.tags && pkg.tags[tag] == commit ==> ParseTag(tag).None?)
      && (version.Some? ==>
            && (exists tag :: tag in pkg.tags && pkg.tags[tag] == commit && ParseTag(tag) == version)
            && forall tag :: tag in pkg.tags && pkg.tags[tag] == commit && ParseTag(tag).Some? ==>
                 Compare(ParseTag(tag).value, version.value) <= 0)
    else
      commit in pkg.commits && version.Some? && ParseVersion(pkg.commits[commit].version) == Parsed(version.value, true)
  }

  lemma TopTells(pkg: Package, commit: string)
    ensures TellsVersion(pkg, Skill, commit, Highest(CandidatesAt(pkg.tags, commit)))
  {
    var top := Highest(CandidatesAt(pkg.tags, commit));
    forall tag | tag in pkg.tags && pkg.tags[tag] == commit
      ensures ParseTag(tag).Some? ==> ParseTag(tag).value in CandidatesAt(pkg.tags, commit)
    {
      TaggedIsCandidate(pkg.tags, commit, tag);
    }
  }

  lemma ExactGathered(input: Input, s: State, name: string, commit: string)
    requires NoPathOn(s.constraints, name) && AllReadable(input, s, name) && OneCommit(input, s, name, commit)
    ensures On(s.constraints, name) != [] && Gather(input, On(s.constraints, name)).Ok?
    ensures var g := Gather(input, On(s.constraints, name)).value;
      g.path.None? && g.commits != [] && forall k :: k in g.commits ==> k == commit
  {
    hide Readable, StandsFor, GatherOne;
    var cs := On(s.constraints, name);
    GatheredCommits(input, cs);
    var c :| c in s.constraints && c.name == name && IsExact(c.form);
    assert c in cs && StandsFor(input, c, commit);
    var g := Gather(input, cs).value;
    forall k | k in g.commits ensures k == commit {
      var d :| d in cs && StandsFor(input, d, k);
      assert IsExact(d.form) by { ExactStands(input, d, k); }
      StandsForOne(input, d, k, commit);
    }
  }

  lemma ExactStands(input: Input, c: Constraint, k: string)
    requires StandsFor(input, c, k)
    ensures IsExact(c.form)
  {}

  /** All ranges on the name admit the version. */
  predicate RangesAdmitted(s: State, name: string, version: Option<Version>) {
    forall c :: c in s.constraints && c.name == name && c.form == ByRange ==> Admitted(c, version)
  }

  lemma RangesAdmittedIff(input: Input, s: State, name: string, version: Option<Version>)
    requires Gather(input, On(s.constraints, name)).Ok?
    ensures var ranges := Gather(input, On(s.constraints, name)).value.ranges;
      RangesAdmitted(s, name, version) <==> ranges == [] || (version.Some? && AdmitsAll(ranges, version.value))
  {
    hide ParseRange, RangeSatisfies, GatherOne;
    var cs := On(s.constraints, name);
    GatherHasRanges(input, cs);
    var ranges := Gather(input, cs).value.ranges;
    if RangesAdmitted(s, name, version) && ranges != [] {
      forall range | range in ranges ensures version.Some? && RangeSatisfies(range, version.value) {
        var c :| c in cs && c.form == ByRange && ParseRange(c.value) == Some(range);
        assert Admitted(c, version);
      }
      assert ranges[0] in ranges;
    }
    if ranges == [] || (version.Some? && AdmitsAll(ranges, version.value)) {
      forall c | c in s.constraints && c.name == name && c.form == ByRange ensures Admitted(c, version) {
        assert c in cs;
        assert ParseRange(c.value).value in ranges;
      }
    }
  }

  lemma ChosenIsSelected(input: Input, s: State, name: string, next: Selection, commit: string)
    requires On(s.constraints, name) != []
    requires Choose(input, Get(s.ceiling, name), name, On(s.constraints, name)) == Ok(next)
    requires next.commit == commit && next.statePin == ""
    ensures SelectedAt(Handle(input, s, name), name, commit)
  {
    hide Choose, Expansion, Without, DroppedNames;
  }

  /**
   * Under exact constraints that agree on a commit, a name is selected at that commit when
   * every range admits the version it has there, and is a conflict otherwise.
   */
  lemma ExactHandled(input: Input, s: State, name: string, commit: string)
    requires NoPathOn(s.constraints, name) && AllReadable(input, s, name) && OneCommit(input, s, name, commit)
    requires name in input.packages
    ensures On(s.constraints, name) != []
    ensures var kind := On(s.constraints, name)[0].kind; var pkg := input.packages[name]; var r := Handle(input, s,
      name);
      if kind != Skill && commit !in pkg.commits then r == Err(NilDereference(name))
      else if kind != Skill && !ParseVersion(pkg.commits[commit].version).ok then r == Err(ManifestInvalid(name))
      else exists version :: TellsVersion(pkg, kind, commit, version)
             && if RangesAdmitted(s, name, version) then SelectedAt(r, name, commit) else r == Err(RangeConflict(name))
  {
    hide AllReadable, OneCommit, ParseVersion, CandidatesAt, LastOverlay, RangesAdmitted, Gather, Handle, SelectedAt;
    ExactGathered(input, s, name, commit);
    var cs, pkg := On(s.constraints, name), input.packages[name];
    var g := Gather(input, cs).value;
    assert g.commits[0] in g.commits;
    ExactArmAnswers(input, s, name, g);
  }

  lemma HandledError(input: Input, s: State, name: string)
    requires On(s.constraints, name) != []
    ensures var choice := Choose(input, Get(s.ceiling, name), name, On(s.constraints, name));
      choice.Err? ==> Handle(input, s, name) == Err(choice.error)
  {
    hide Choose;
  }

  lemma ExactArmAnswers(input: Input, s: State, name: string, g: Gathered)
    requires On(s.constraints, name) != [] && Gather(input, On(s.constraints, name)) == Ok(g)
    requires g.path.None? && g.commits != [] && (forall k :: k in g.commits ==> k == g.commits[0])
      && name in input.packages
    ensures var commit := g.commits[0];
      var kind := On(s.constraints, name)[0].kind; var pkg := input.packages[name]; var r := Handle(input, s, name);
      if kind != Skill && commit !in pkg.commits then r == Err(NilDereference(name))
      else if kind != Skill && !ParseVersion(pkg.commits[commit].version).ok then r == Err(ManifestInvalid(name))
      else exists version :: TellsVersion(pkg, kind, commit, version)
             && if RangesAdmitted(s, name, version) then SelectedAt(r, name, commit) else r == Err(RangeConflict(name))
  {
    hide ParseVersion, CandidatesAt, LastOverlay, RangesAdmitted, Gather, Handle, SelectedAt, AdmitsAll;
    var cs, pkg := On(s.constraints, name), input.packages[name];
    HandledError(input, s, name);
    var version := VersionThere(pkg, cs[0].kind, g.commits[0]);
    if version.Some? {
      assert TellsVersion(pkg, cs[0].kind, g.commits[0], version.value);
      RangesAdmittedIff(input, s, name, version.value);
      var choice := Choose(input, Get(s.ceiling, name), name, cs);
      if choice.Ok? { ChosenIsSelected(input, s, name, choice.value, g.commits[0]); }
    }
  }

  /** That version, or nothing where its manifest is missing or declares none. */
  lemma VersionThere(pkg: Package, kind: Kind, commit: string) returns (version: Option<Option<Version>>)
    ensures version.None?
      <==> kind != Skill && (commit !in pkg.commits || !ParseVersion(pkg.commits[commit].version).ok)
    ensures version.Some? ==> TellsVersion(pkg, kind, commit, version.value)
    ensures forall name :: version.Some? ==>
      ExactVersionGiven(name, kind, pkg, commit, Highest(CandidatesAt(pkg.tags, commit))) == Ok(version.value)
  {
    hide ParseVersion, CandidatesAt;
    if kind == Skill {
      TopTells(pkg, commit);
      version := Some(Highest(CandidatesAt(pkg.tags, commit)));
    } else if commit in pkg.commits && ParseVersion(pkg.commits[commit].version).ok {
      version := Some(Some(ParseVersion(pkg.commits[commit].version).version));
    } else {
      version := None;
    }
  }

  /** All constraints on the name are ranges. */
  predicate AllRanges(s: State, name: string) {
    forall c :: c in s.constraints && c.name == name ==> c.form == ByRange
  }

  /** Under ranges alone, a name is a conflict exactly when no version is on offer. */
  lemma RangesConflictIff(input: Input, s: State, name: string)
    requires AllRanges(s, name) && AllReadable(input, s, name) && On(s.constraints, name) != []
      && name in input.packages
    ensures Handle(input, s, name) == Err(RangeConflict(name)) <==> forall v :: !Offered(input, s, name, v)
    ensures Handle(input, s, name).Err? && Handle(input, s, name).error != RangeConflict(name) ==>
      && On(s.constraints, name)[0].kind != Skill
      && exists v :: Offered(input, s, name, v) && Undeclared(input.packages[name], v)
                     && Handle(input, s, name).error == VersionMismatch(name, TagOf(v))
  {
    hide Admissible, Offered, ParseRange, Readable, LastOverlay, Print;
    var cs := On(s.constraints, name);
    GatheredCommits(input, cs);
    GatherHasRanges(input, cs);
    GatherRanges(input, cs);
    var g := Gather(input, cs).value;
    forall w ensures Offered(input, s, name, w)
      <==> w in Admissible(input.packages[name].tags, Get(s.ceiling, name), g.ranges)
    {
      OfferedIff(input, s, name, g.ranges, w);
    }
    HandledError(input, s, name);
    var top := Highest(Admissible(input.packages[name].tags, Get(s.ceiling, name), g.ranges));
    if top.Some? {
      AdmissibleIsCandidate(input.packages[name].tags, Get(s.ceiling, name), g.ranges, top.value);
      CandidateHasTag(input.packages[name].tags, top.value);
    }
  }

  /** The manifest at the version's tag is missing or declares another version. */
  predicate Undeclared(pkg: Package, v: Version) {
    TagOf(v) in pkg.tags
    && var manifest := Get(pkg.commits, pkg.tags[TagOf(v)]); manifest.None? || manifest.value.version != Print(v)
  }
}
