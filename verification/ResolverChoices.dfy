/** What the constraints on a name come to: what they fix, and what they leave to the ranges. */
module ResolverChoices {
  import opened Wrappers
  import opened Semver
  import opened Ranges
  import opened Resolver

  // ------------------------------------------------------------ assumptions

  predicate AsksByRange(m: Manifest) {
    forall r :: r in m.requires_ ==> r.form == ByRange
  }

  /** Every manifest states its requirements as ranges; root and overlays may use any form. */
  predicate RangeManifests(input: Input) {
    && (forall n, k :: n in input.packages && k in input.packages[n].commits ==>
       AsksByRange(input.packages[n].commits[k]))
    && (forall i :: 0 <= i < |input.overlays| && input.overlays[i].manifest.Some? ==>
       AsksByRange(input.overlays[i].manifest.value))
  }

  /** Numeric prerelease identifiers of version tags fit 64-bit integers. */
  predicate BoundedPackage(tags: map<string, string>) {
    forall tag :: tag in tags && ParseTag(tag).Some? ==> Bounded(ParseTag(tag).value)
  }

  predicate BoundedTags(input: Input) {
    forall n :: n in input.packages ==> BoundedPackage(input.packages[n].tags)
  }

  lemma CandidateBounded(tags: map<string, string>, v: Version)
    requires BoundedPackage(tags) && v in Candidates(tags)
    ensures WellFormed(v) && Bounded(v)
  {
    CandidateHasTag(tags, v);
    var tag :| tag in tags && ParseTag(tag) == Some(v);
  }

  /** Bounded candidates do not tie. */
  lemma CandidatesDistinct(tags: map<string, string>, a: Version, b: Version)
    requires BoundedPackage(tags) && a in Candidates(tags) && b in Candidates(tags) && Compare(a, b) == 0
    ensures a == b
  {
    CandidateBounded(tags, a);
    CandidateBounded(tags, b);
    EqualRankIsEquality(a, b);
  }

  // ------------------------------------------------- what gathering gives

  /** The machine fixes the name to one commit or one path. */
  predicate Fixes(c: Constraint) {
    c.form == ByTag || c.form == ByRevision || (c.form == ByPath && c.overlay.Some?)
  }

  ghost predicate Pinned(input: Input, name: string) {
    exists c :: c in Seeds(input) && c.name == name && Fixes(c)
  }

  predicate IsExact(form: Form) { form == ByTag || form == ByRevision }

  lemma SeedsDistinct(input: Input, a: Constraint, b: Constraint)
    requires Composed(input) && a in Seeds(input) && b in Seeds(input) && a.name == b.name
    ensures a == b
  {
    var i :| 0 <= i < |Seeds(input)| && Seeds(input)[i] == a;
    var j :| 0 <= j < |Seeds(input)| && Seeds(input)[j] == b;
  }

  /** Without a fixing constraint, nothing but ranges is gathered. */
  lemma {:induction false} GatherRanges(input: Input, cs: seq<Constraint>)
    requires forall c :: c in cs ==> !Fixes(c)
    requires Gather(input, cs).Ok?
    ensures Gather(input, cs).value.path.None? && Gather(input, cs).value.commits == []
  {
    if cs != [] {
      GatherRanges(input, cs[..|cs| - 1]);
      assert cs[|cs| - 1] in cs;
    }
  }

  /** The commits one constraint pins. */
  function PinsOf(input: Input, c: Constraint): seq<string> {
    if c.form == ByRevision then [c.value]
    else if c.form == ByTag && c.name in input.packages && c.value in input.packages[c.name].tags then
      [input.packages[c.name].tags[c.value]]
    else []
  }

  lemma GatherOneAdds(input: Input, g: Gathered, c: Constraint)
    requires GatherOne(input, g, c).Ok?
    ensures var more := GatherOne(input, g, c).value;
      more.path == (if c.form == ByPath then c.overlay else g.path) && more.commits == g.commits + PinsOf(input, c)
    ensures c.form == ByTag ==> c.name in input.packages && c.value in input.packages[c.name].tags
  {
    hide ParseRange;
    assert g.commits + [] == g.commits;
  }

  /** With one fixing constraint among ranges, only its path is gathered. */
  lemma {:induction false} GatherFixedPath(input: Input, cs: seq<Constraint>, fix: Constraint)
    requires Gather(input, cs).Ok? && forall c :: c in cs ==> c == fix || c.form == ByRange
    ensures Gather(input, cs).value.path == if fix in cs && fix.form == ByPath then fix.overlay else None
  {
    hide GatherOne;
    if cs != [] {
      var front, last := cs[..|cs| - 1], cs[|cs| - 1];
      assert cs == front + [last];
      GatherFixedPath(input, front, fix);
      GatherOneAdds(input, Gather(input, front).value, last);
    }
  }

  /** With one fixing constraint among ranges, only its pin is gathered. */
  lemma {:induction false} GatherFixedCommits(input: Input, cs: seq<Constraint>, fix: Constraint)
    requires Gather(input, cs).Ok? && forall c :: c in cs ==> c == fix || c.form == ByRange
    ensures forall k :: k in Gather(input, cs).value.commits <==> fix in cs && k in PinsOf(input, fix)
    ensures fix in cs && fix.form == ByTag ==> fix.name in input.packages && fix.value in input.packages[fix.name].tags
  {
    hide GatherOne;
    if cs != [] {
      var front, last := cs[..|cs| - 1], cs[|cs| - 1];
      assert cs == front + [last];
      GatherFixedCommits(input, front, fix);
      GatherOneAdds(input, Gather(input, front).value, last);
    }
  }

  /** With one fixing constraint among ranges, its pin is what is gathered. */
  lemma GatherFixed(input: Input, cs: seq<Constraint>, fix: Constraint)
    requires fix in cs && Fixes(fix)
    requires forall c :: c in cs ==> c == fix || c.form == ByRange
    requires Gather(input, cs).Ok?
    ensures Gather(input, cs).value.path == if fix.form == ByPath then fix.overlay else None
    ensures fix.form == ByTag ==> fix.name in input.packages && fix.value in input.packages[fix.name].tags
    ensures fix.form != ByPath ==> Gather(input, cs).value.commits != []
    ensures forall k :: k in Gather(input, cs).value.commits ==>
      k == (if fix.form == ByTag then input.packages[fix.name].tags[fix.value] else fix.value)
  {
    GatherFixedPath(input, cs, fix);
    GatherFixedCommits(input, cs, fix);
    assert fix.form != ByPath ==> PinsOf(input, fix)[0] in Gather(input, cs).value.commits;
  }

  lemma {:induction false} PathComesFrom(input: Input, cs: seq<Constraint>) returns (c: Constraint)
    requires Gather(input, cs).Ok? && Gather(input, cs).value.path.Some?
    ensures c in cs && c.form == ByPath && c.overlay == Gather(input, cs).value.path
  {
    var front, last := cs[..|cs| - 1], cs[|cs| - 1];
    assert cs == front + [last];
    if last.form == ByPath { return last; }
    c := PathComesFrom(input, front);
  }

  lemma {:induction false} CommitComesFrom(input: Input, cs: seq<Constraint>) returns (c: Constraint)
    requires Gather(input, cs).Ok? && Gather(input, cs).value.commits != []
    ensures c in cs && IsExact(c.form)
  {
    var front, last := cs[..|cs| - 1], cs[|cs| - 1];
    assert cs == front + [last];
    if IsExact(last.form) { return last; }
    c := CommitComesFrom(input, front);
  }

  // ------------------------------------------------------- what is chosen

  /** The commit and state a fixing constraint stands for. */
  predicate PinnedTo(input: Input, c: Constraint, sel: Selection) {
    match c.form
    case ByRevision => sel.commit == c.value && sel.statePin == ""
    case ByTag => c.name in input.packages && c.value in input.packages[c.name].tags
                  && sel.commit == input.packages[c.name].tags[c.value] && sel.statePin == ""
    case ByPath => c.overlay.Some? && sel.commit == "" && sel.statePin == c.overlay.value.statePin
    case ByRange => true
  }

  /** What an unpinned name's selection is, as a function of its ceiling alone. */
  predicate FromCeiling(input: Input, s: State, name: string)
    requires name in s.selected
  {
    var sel := s.selected[name];
    && name in s.ceiling && name in input.packages
    && var tags := input.packages[name].tags;
       s.ceiling[name] in Candidates(tags) && TagOf(s.ceiling[name]) in tags
       && sel.version == Some(s.ceiling[name])
       && sel.commit == tags[TagOf(s.ceiling[name])] && sel.statePin == ""
       && sel.manifest == Get(input.packages[name].commits, sel.commit)
  }

  lemma ChooseFixed(input: Input, ceiling: Option<Version>, name: string, cs: seq<Constraint>, fix: Constraint)
    requires cs != [] && fix in cs && Fixes(fix) && fix.name == name
    requires forall c :: c in cs ==> c == fix || c.form == ByRange
    requires Choose(input, ceiling, name, cs).Ok?
    ensures PinnedTo(input, fix, Choose(input, ceiling, name, cs).value)
  {
    GatherFixed(input, cs, fix);
    var g := Gather(input, cs).value;
    if g.commits != [] { assert g.commits[0] in g.commits; }
  }

  /** With nothing but ranges gathered, the choice follows from its version, the highest that is admitted. */
  lemma ChooseByRange(input: Input, ceiling: Option<Version>, name: string, cs: seq<Constraint>)
    requires cs != [] && Choose(input, ceiling, name, cs).Ok?
    requires Gather(input, cs).value.path.None? && Gather(input, cs).value.commits == []
    ensures var sel := Choose(input, ceiling, name, cs).value;
      && name in input.packages && sel.version.Some? && sel.statePin == ""
      && var pkg := input.packages[name];
         sel.version.value in Candidates(pkg.tags) && TagOf(sel.version.value) in pkg.tags
         && sel.commit == pkg.tags[TagOf(sel.version.value)]
         && sel.manifest == Get(pkg.commits, sel.commit)
         && UnderCeiling(sel.version.value, ceiling)
         && IsHighest(sel.version.value, Admissible(pkg.tags, ceiling, Gather(input, cs).value.ranges))
  {
    var v := Highest(Admissible(input.packages[name].tags, ceiling, Gather(input, cs).value.ranges)).value;
    CandidateHasTag(input.packages[name].tags, v);
  }

  lemma ChooseHighest(input: Input, ceiling: Option<Version>, name: string, cs: seq<Constraint>)
    requires cs != [] && forall c :: c in cs ==> !Fixes(c)
    requires Choose(input, ceiling, name, cs).Ok?
    ensures var sel := Choose(input, ceiling, name, cs).value;
      && name in input.packages && sel.version.Some? && sel.statePin == ""
      && var pkg := input.packages[name];
         sel.version.value in Candidates(pkg.tags) && TagOf(sel.version.value) in pkg.tags
         && sel.commit == pkg.tags[TagOf(sel.version.value)]
         && sel.manifest == Get(pkg.commits, sel.commit)
         && UnderCeiling(sel.version.value, ceiling)
         && Gather(input, cs).Ok?
         && IsHighest(sel.version.value, Admissible(pkg.tags, ceiling, Gather(input, cs).value.ranges))
  {
    GatherRanges(input, cs);
    ChooseByRange(input, ceiling, name, cs);
  }
}
