/**
 * A requirement cycle outlives what asked for it: c and d require each other, only a's
 * second version asks for c, and an overlay brings a down to its first version.
 */
module ResolverAdrift {
  import opened Wrappers
  import opened Texts
  import opened Semver
  import opened Ranges
  import opened RangeText
  import opened Graphs
  import opened Resolver
  import opened ResolverCases
  import opened ResolverChoices
  import opened ResolverSources
  import opened ResolverSafety
  import opened ResolverLabels

  const PINNED: string := "=1.0.0"
  const ONE: Range := [[Cmp(Eq, V1)]]

  const MP: Manifest := Manifest("1.0.0", [Requirement(Skill, "a", ByRange, "*", "")])
  const MZ: Manifest := Manifest("1.0.0", [Requirement(Skill, "a", ByRange, PINNED, "")])
  const MA1: Manifest := Manifest("", [])
  const MA2: Manifest := Manifest("", [Requirement(Skill, "c", ByRange, "*", "")])
  const MC: Manifest := Manifest("", [Requirement(Skill, "d", ByRange, "*", "")])
  const MD: Manifest := Manifest("", [Requirement(Skill, "c", ByRange, "*", "")])

  const TWO_TAGS: map<string, string> := map["v1.0.0" := "c1", "v2.0.0" := "c2"]
  const ONE_TAG: map<string, string> := map["v1.0.0" := "s"]

  const PACKAGES: map<string, Package> := map[
    "p" := Package("", map[], map["s" := MP]),
    "z" := Package("", map[], map["s" := MZ]),
    "a" := Package("", TWO_TAGS, map["c1" := MA1, "c2" := MA2]),
    "c" := Package("", ONE_TAG, map["s" := MC]),
    "d" := Package("", ONE_TAG, map["s" := MD])]

  const OVERLAY: Overlay := Overlay("z", ByRevision, "s", "", None, "")
  const INPUT: Input := Input("p", ByRevision, "s", "", [OVERLAY], PACKAGES)

  const P_SEED: Constraint := Constraint("p", Context, Machine, ByRevision, "s", "", None)
  const Z_SEED: Constraint := Constraint("z", Context, Machine, ByRevision, "s", "", Some(OVERLAY))
  const P_ASKS: Constraint := Constraint("a", Skill, Member("p", Some(V1)), ByRange, "*", "", None)
  const Z_ASKS: Constraint := Constraint("a", Skill, Member("z", Some(V1)), ByRange, PINNED, "", None)
  const A_ASKS: Constraint := Constraint("c", Skill, Member("a", Some(V2)), ByRange, "*", "", None)
  const C_ASKS: Constraint := Constraint("d", Skill, Member("c", Some(V1)), ByRange, "*", "", None)
  const D_ASKS: Constraint := Constraint("c", Skill, Member("d", Some(V1)), ByRange, "*", "", None)

  const P: Selection := Selection(Context, Some(V1), "s", "", "", "", Some(MP), None)
  const Z: Selection := Selection(Context, Some(V1), "s", "", "", "", Some(MZ), Some(OVERLAY))
  const A1: Selection := Selection(Skill, Some(V1), "c1", "", "", "", Some(MA1), None)
  const A2: Selection := Selection(Skill, Some(V2), "c2", "", "", "", Some(MA2), None)
  const C: Selection := Selection(Skill, Some(V1), "s", "", "", "", Some(MC), None)
  const D: Selection := Selection(Skill, Some(V1), "s", "", "", "", Some(MD), None)

  /** The constraints before a asks for c, the cycle's own, and what they amount to. */
  const FRONT: seq<Constraint> := [P_SEED, Z_SEED, P_ASKS]
  const CYCLE: seq<Constraint> := [C_ASKS, D_ASKS]

  const S1: State := State(FRONT, map["p" := P], map["p" := V1], {"a", "z"})
  const S2: State := State(FRONT + [A_ASKS], S1.selected["a" := A2], S1.ceiling["a" := V2], {"c", "z"})
  const S3: State := State(FRONT + [A_ASKS] + [C_ASKS], S2.selected["c" := C], S2.ceiling["c" := V1], {"d", "z"})
  const S4: State := State(FRONT + [A_ASKS] + CYCLE, S3.selected["d" := D], S3.ceiling["d" := V1], {"c", "z"})
  const S5: State := S4.(pending := {"z"})
  const S6: State := State(FRONT + [A_ASKS] + CYCLE + [Z_ASKS], S4.selected["z" := Z], S4.ceiling["z" := V1], {"a"})
  const S7: State := State(FRONT + CYCLE + [Z_ASKS], S6.selected["a" := A1], S6.ceiling["a" := V1], {"c"})
  const S8: State := S7.(pending := {})

  const RUN: seq<State> := [Init(INPUT), S1, S2, S3, S4, S5, S6, S7, S8]

  // ------------------------------------------------------ constraints on a name

  lemma {:induction false} WithoutOne(front: seq<Constraint>, c: Constraint, back: seq<Constraint>, requirer: Requirer)
    requires c.requirer == requirer && forall x :: x in front || x in back ==> x.requirer != requirer
    ensures Without(front + [c] + back, requirer) == front + back
    decreases |back|
  {
    hide Without;
    if back == [] {
      WithoutNothing(front, requirer);
      WithoutLast(front, c, requirer);
      assert front + [c] + back == front + [c] && front + back == front;
    } else {
      var rest, last := back[..|back| - 1], back[|back| - 1];
      WithoutOne(front, c, rest, requirer);
      WithoutLast(front + [c] + rest, last, requirer);
      assert front + [c] + back == front + [c] + rest + [last] && front + back == front + rest + [last];
    }
  }

  lemma DroppedName(front: seq<Constraint>, c: Constraint, back: seq<Constraint>, requirer: Requirer)
    requires c.requirer == requirer && forall x :: x in front || x in back ==> x.requirer != requirer
    ensures DroppedNames(front + [c] + back, requirer) == {c.name}
  {
    assert (front + [c] + back)[|front|] == c;
  }

  // ---------------------------------------------------------------- versions

  lemma PinnedParses()
    ensures ParseRange(PINNED) == Some(ONE)
  {
    VersionsPrinted();
    assert PrintComparator(ONE[0][0]) == "=" + "1.0.0";
    assert PrintAll(ONE[0])[0] == PINNED && PrintAll(ONE[0])[1..] == [];
    assert PrintRange(ONE) == PINNED;
    assert DesugaredRange(ONE);
    RangeReparsesIffItFits(ONE);
  }

  lemma SecondTag()
    ensures ParseTag("v2.0.0") == Some(V2) && TagOf(V1) == "v1.0.0" && TagOf(V2) == "v2.0.0"
  {
    hide Print, ParseVersion;
    VersionsPrinted();
    VersionsRead();
    assert "v2.0.0"[1..] == "2.0.0";
  }

  lemma OneMeans()
    ensures RangeSatisfies(ONE, V1) && !RangeSatisfies(ONE, V2) && Compare(V1, V2) < 0 && Compare(V1, V1) == 0
      && Compare(V2, V2) == 0
  {
    SingleSatisfies(Cmp(Eq, V1), V1);
    SingleSatisfies(Cmp(Eq, V1), V2);
    assert ONE[0] in ONE;
  }

  predicate AllStars(ranges: seq<Range>) { forall range :: range in ranges ==> range == [[Any]] }

  lemma StarsAdmit(ranges: seq<Range>, v: Version)
    requires AllStars(ranges) && v.Stable()
    ensures AdmitsAll(ranges, v)
  {
    SingleSatisfies(Any, v);
    assert [Any] in [[Any]];
  }

  lemma HighestOfOne(ceiling: Option<Version>, ranges: seq<Range>)
    requires AllStars(ranges) && (ceiling == None || ceiling == Some(V1))
    ensures Highest(Admissible(ONE_TAG, ceiling, ranges)) == Some(V1)
  {
    hide ParseRange, AdmitsAll, ParseTag, Print, Compare, AllStars;
    VersionsRead();
    OneMeans();
    StarsAdmit(ranges, V1);
    assert "v1.0.0" in ONE_TAG;
    assert Candidates(ONE_TAG) == {V1};
    assert Admissible(ONE_TAG, ceiling, ranges) == {V1};
  }

  lemma TwoCandidates()
    ensures Candidates(TWO_TAGS) == {V1, V2}
  {
    hide ParseTag;
    VersionsRead();
    SecondTag();
    assert "v1.0.0" in TWO_TAGS && "v2.0.0" in TWO_TAGS;
  }

  lemma HighestOfTwo()
    ensures Highest(Admissible(TWO_TAGS, None, [[[Any]]])) == Some(V2)
    ensures Highest(Admissible(TWO_TAGS, Some(V2), [[[Any]], ONE])) == Some(V1)
  {
    hide ParseRange, ParseTag, Print, Compare, Candidates, RangeSatisfies;
    TwoCandidates();
    OneMeans();
    StarAdmits(V1);
    StarAdmits(V2);
    assert [[Any]] in [[[Any]]];
    CompareAntisymmetric(V1, V2);
    assert V2 in Admissible(TWO_TAGS, None, [[[Any]]]);
    assert ONE in [[[Any]], ONE];
    assert Admissible(TWO_TAGS, Some(V2), [[[Any]], ONE]) == {V1};
  }

  // ----------------------------------------------------------------- choices

  lemma RevisionGathered(c: Constraint)
    requires c == P_SEED || c == Z_SEED
    ensures Gather(INPUT, [c]) == Ok(Gathered(None, ["s"], []))
  {
    hide Gather;
    NothingGathered(INPUT);
    GatherLast(INPUT, [], c, Gathered(None, [], []));
    assert [] + [c] == [c] && [] + ["s"] == ["s"];
  }

  lemma {:induction false} StarsGathered(cs: seq<Constraint>) returns (ranges: seq<Range>)
    requires forall c :: c in cs ==> c.form == ByRange && c.value == "*" && c.overlay == None
    ensures AllStars(ranges) && Gather(INPUT, cs) == Ok(Gathered(None, [], ranges)) && LastOverlay(cs, None) == None
  {
    hide ParseRange;
    StarParses();
    if cs == [] { return []; }
    var front := StarsGathered(cs[..|cs| - 1]);
    ranges := front + [[[Any]]];
  }

  /** c and d have one version, whatever stars ask for them. */
  lemma StarChosen(name: string, ceiling: Option<Version>, cs: seq<Constraint>)
    requires name == "c" || name == "d"
    requires cs != [] && cs[0].kind == Skill && cs[0].directory == ""
    requires forall c :: c in cs ==> c.form == ByRange && c.value == "*" && c.overlay == None
    requires ceiling == None || ceiling == Some(V1)
    ensures Choose(INPUT, ceiling, name, cs) == Ok(if name == "c" then C else D)
  {
    hide Gather, LastOverlay, Admissible, Print, AllStars;
    var ranges := StarsGathered(cs);
    HighestOfOne(ceiling, ranges);
    SecondTag();
  }

  lemma SeedChosen(c: Constraint)
    requires c == P_SEED || c == Z_SEED
    ensures Choose(INPUT, None, c.name, [c]) == Ok(if c == P_SEED then P else Z)
  {
    hide Gather, ParseVersion;
    RevisionGathered(c);
    VersionsRead();
    assert [c][..0] == [];
    var g: Gathered := Gathered(None, ["s"], []);
    var pkg := PACKAGES[c.name];
    assert pkg == Package("", map[], map["s" := if c == P_SEED then MP else MZ]);
    assert ExactVersionGiven(c.name, Context, pkg, "s", None) == Ok(Some(V1));
    assert SelectExact(INPUT, c.name, c, g) == Ok((if c == P_SEED then P else Z).(overlay := None));
    assert LastOverlay([c], None) == c.overlay;
  }

  lemma AGathered()
    ensures Gather(INPUT, [P_ASKS]) == Ok(Gathered(None, [], [[[Any]]]))
    ensures Gather(INPUT, [P_ASKS, Z_ASKS]) == Ok(Gathered(None, [], [[[Any]], ONE]))
  {
    hide Gather, ParseRange;
    StarParses();
    PinnedParses();
    NothingGathered(INPUT);
    GatherLast(INPUT, [], P_ASKS, Gathered(None, [], []));
    assert [] + [P_ASKS] == [P_ASKS] && [] + [[[Any]]] == [[[Any]]];
    GatherLast(INPUT, [P_ASKS], Z_ASKS, Gathered(None, [], [[[Any]]]));
    assert [P_ASKS] + [Z_ASKS] == [P_ASKS, Z_ASKS] && [[[Any]]] + [ONE] == [[[Any]], ONE];
  }

  lemma AChosen()
    ensures Choose(INPUT, None, "a", [P_ASKS]) == Ok(A2)
  {
    hide Gather, LastOverlay, Admissible, Print, ParseRange, Compare;
    AGathered();
    NoOverlay(P_ASKS, Z_ASKS);
    HighestOfTwo();
    SecondTag();
  }

  lemma AChosenAgain()
    ensures Choose(INPUT, Some(V2), "a", [P_ASKS, Z_ASKS]) == Ok(A1)
  {
    hide Gather, LastOverlay, Admissible, Print, ParseRange, Compare;
    AGathered();
    NoOverlay(P_ASKS, Z_ASKS);
    HighestOfTwo();
    SecondTag();
  }

  // ------------------------------------------------------------------ steps

  /** A step that selects what is selected already. */
  lemma Stays(s: State, name: string, cs: seq<Constraint>, sel: Selection)
    requires IsLeast(name, s.pending) && On(s.constraints, name) == cs && cs != []
    requires Choose(INPUT, Get(s.ceiling, name), name, cs) == Ok(sel) && name in s.selected
      && SamePin(s.selected[name], sel)
    ensures Next(INPUT, s, Idle(s, name))
  {
    hide Choose, On;
    LeastUnique(name, Least(s.pending), s.pending);
  }

  /** A step that replaces a selection by one that asks for nothing. */
  lemma Settles(s: State, name: string, cs: seq<Constraint>, sel: Selection, kept: seq<Constraint>, freed: set<string>)
    requires IsLeast(name, s.pending) && On(s.constraints, name) == cs && cs != []
    requires Choose(INPUT, Get(s.ceiling, name), name, cs) == Ok(sel) && name in s.selected
      && !SamePin(s.selected[name], sel)
    requires sel.manifest.Some? && sel.manifest.value.requires_ == [] && sel.version.Some?
    requires Without(s.constraints, Member(name, s.selected[name].version)) == kept
    requires DroppedNames(s.constraints, Member(name, s.selected[name].version)) == freed
    ensures Next(INPUT, s, State(kept, s.selected[name := sel], s.ceiling[name := sel.version.value],
      s.pending - {name} + freed))
  {
    hide Choose, On, Without, DroppedNames;
    LeastUnique(name, Least(s.pending), s.pending);
    assert Expansion(name, sel) == [] && NamesOf([]) == {} && kept + [] == kept;
    assert s.pending - {name} + freed + {} == s.pending - {name} + freed;
  }

  lemma NamesInOrder()
    ensures Below("p", "z") && Below("a", "z") && Below("c", "z") && Below("d", "z")
  {}

  lemma Step1()
    ensures Next(INPUT, Init(INPUT), S1)
  {
    hide Next, Choose, On, IsLeast;
    NamesInOrder();
    FirstOfTwo("p", "z");
    SeedChosen(P_SEED);
    OnThree(P_SEED, Z_SEED, Z_SEED, "p");
    assert Seeds(INPUT) == [P_SEED, Z_SEED] && NamesOf([P_SEED, Z_SEED]) == {"p", "z"};
    assert Init(INPUT) == State([P_SEED, Z_SEED], map[], map[], {"p", "z"});
    Enters(INPUT, Init(INPUT), "p", [P_SEED], P, MP.requires_[0]);
    assert [P_SEED, Z_SEED] + [P_ASKS] == FRONT;
    assert {"p", "z"} - {"p"} + {"a"} == S1.pending;
    assert Init(INPUT).selected["p" := P] == S1.selected;
    assert Init(INPUT).ceiling["p" := V1] == S1.ceiling;
  }

  lemma Step2()
    ensures Next(INPUT, S1, S2)
  {
    hide Next, Choose, On, IsLeast;
    NamesInOrder();
    FirstOfTwo("a", "z");
    AChosen();
    OnThree(P_SEED, Z_SEED, P_ASKS, "a");
    Enters(INPUT, S1, "a", [P_ASKS], A2, MA2.requires_[0]);
    assert S1.pending - {"a"} + {"c"} == S2.pending;
  }

  lemma Step3()
    ensures Next(INPUT, S2, S3)
  {
    hide Next, Choose, On, IsLeast;
    NamesInOrder();
    FirstOfTwo("c", "z");
    StarChosen("c", None, [A_ASKS]);
    OnNone(FRONT, "c");
    OnLast(FRONT, A_ASKS, "c");
    Enters(INPUT, S2, "c", [A_ASKS], C, MC.requires_[0]);
    assert S2.pending - {"c"} + {"d"} == S3.pending;
  }

  lemma OnD()
    ensures On(S3.constraints, "d") == [C_ASKS]
  {
    hide On;
    OnNone(FRONT + [A_ASKS], "d");
    OnLast(FRONT + [A_ASKS], C_ASKS, "d");
  }

  lemma Step4()
    ensures Next(INPUT, S3, S4)
  {
    hide Next, Choose, On, IsLeast;
    NamesInOrder();
    FirstOfTwo("d", "z");
    StarChosen("d", None, [C_ASKS]);
    OnD();
    Enters(INPUT, S3, "d", [C_ASKS], D, MD.requires_[0]);
    assert S3.constraints + [D_ASKS] == S4.constraints;
    assert S3.pending - {"d"} + {"c"} == S4.pending;
  }

  lemma OnC()
    ensures On(S4.constraints, "c") == [A_ASKS, D_ASKS]
  {
    hide On;
    OnTwo(FRONT, A_ASKS, [C_ASKS], D_ASKS, "c");
    assert S4.constraints == FRONT + [A_ASKS] + [C_ASKS] + [D_ASKS];
  }

  lemma OnCAlone()
    ensures On(S7.constraints, "c") == [D_ASKS]
  {
    hide On;
    OnNone(FRONT + [C_ASKS], "c");
    OnUpTo(FRONT + [C_ASKS], D_ASKS, [Z_ASKS], "c");
    assert S7.constraints == FRONT + [C_ASKS] + [D_ASKS] + [Z_ASKS];
  }

  lemma Step5()
    ensures Next(INPUT, S4, S5)
  {
    hide Next, Choose, On, IsLeast;
    NamesInOrder();
    FirstOfTwo("c", "z");
    OnC();
    StarChosen("c", Some(V1), [A_ASKS, D_ASKS]);
    Stays(S4, "c", [A_ASKS, D_ASKS], C);
    assert S4.pending - {"c"} == S5.pending;
  }

  lemma OnZ()
    ensures On(S5.constraints, "z") == [Z_SEED]
  {
    hide On;
    OnNone([P_SEED], "z");
    OnUpTo([P_SEED], Z_SEED, [P_ASKS, A_ASKS, C_ASKS, D_ASKS], "z");
    assert S5.constraints == [P_SEED] + [Z_SEED] + [P_ASKS, A_ASKS, C_ASKS, D_ASKS];
  }

  lemma Step6()
    ensures Next(INPUT, S5, S6)
  {
    hide Next, Choose, On, IsLeast;
    AloneIsLeast("z");
    SeedChosen(Z_SEED);
    OnZ();
    Enters(INPUT, S5, "z", [Z_SEED], Z, MZ.requires_[0]);
    PassedOn("z", "a");
  }

  lemma OnA()
    ensures On(S6.constraints, "a") == [P_ASKS, Z_ASKS]
  {
    hide On;
    var back := [A_ASKS, C_ASKS, D_ASKS];
    OnTwo([P_SEED, Z_SEED], P_ASKS, back, Z_ASKS, "a");
    assert S6.constraints == [P_SEED, Z_SEED] + [P_ASKS] + back + [Z_ASKS];
  }

  lemma WithoutA()
    ensures Without(S6.constraints, Member("a", Some(V2))) == S7.constraints
    ensures DroppedNames(S6.constraints, Member("a", Some(V2))) == {"c"}
  {
    hide Without, DroppedNames;
    var back := CYCLE + [Z_ASKS];
    WithoutOne(FRONT, A_ASKS, back, Member("a", Some(V2)));
    DroppedName(FRONT, A_ASKS, back, Member("a", Some(V2)));
    assert S6.constraints == FRONT + [A_ASKS] + back && S7.constraints == FRONT + back;
  }

  lemma Step7()
    ensures Next(INPUT, S6, S7)
  {
    hide Next, Choose, On, IsLeast, Without, DroppedNames;
    AloneIsLeast("a");
    AChosenAgain();
    OnA();
    WithoutA();
    Settles(S6, "a", [P_ASKS, Z_ASKS], A1, S7.constraints, {"c"});
    PassedOn("a", "c");
  }

  lemma Step8()
    ensures Next(INPUT, S7, S8)
  {
    hide Next, Choose, On, IsLeast;
    AloneIsLeast("c");
    OnCAlone();
    StarChosen("c", Some(V1), [D_ASKS]);
    Stays(S7, "c", [D_ASKS], C);
    assert S7.pending - {"c"} == S8.pending;
  }

  // ----------------------------------------------------------------- result

  lemma RunsToTheEnd()
    ensures IsRun(INPUT, RUN)
  {
    hide Next, Init;
    Step1();
    Step2();
    Step3();
    Step4();
    Step5();
    Step6();
    Step7();
    Step8();
  }

  lemma ManifestsAskByRange()
    ensures RangeManifests(INPUT)
  {
    assert AsksByRange(MP) && AsksByRange(MZ) && AsksByRange(MA1) && AsksByRange(MA2) && AsksByRange(MC)
      && AsksByRange(MD);
    hide AsksByRange;
    forall n, k | n in PACKAGES && k in PACKAGES[n].commits ensures AsksByRange(PACKAGES[n].commits[k]) {}
  }

  lemma TagsKnown(n: string)
    requires n in PACKAGES
    ensures PACKAGES[n].tags == map[] || PACKAGES[n].tags == ONE_TAG || PACKAGES[n].tags == TWO_TAGS
  {}

  lemma TagIsBounded(tags: map<string, string>, tag: string)
    requires tags == map[] || tags == ONE_TAG || tags == TWO_TAGS
    requires tag in tags && ParseTag(tag).Some?
    ensures Bounded(ParseTag(tag).value)
  {
    hide ParseTag;
    VersionsRead();
    SecondTag();
    assert tag == "v1.0.0" || tag == "v2.0.0";
    assert Bounded(V1) && Bounded(V2);
  }

  lemma TagsAreBounded()
    ensures BoundedTags(INPUT)
  {
    hide ParseTag, Bounded;
    forall n | n in INPUT.packages ensures BoundedPackage(INPUT.packages[n].tags) {
      TagsKnown(n);
      forall tag | tag in PACKAGES[n].tags && ParseTag(tag).Some? ensures Bounded(ParseTag(tag).value) {
        TagIsBounded(PACKAGES[n].tags, tag);
      }
    }
  }

  lemma StarsHold(c: Constraint)
    requires c.form == ByRange && c.value == "*" && c.name in S8.selected
    requires S8.selected[c.name].version == Some(V1)
    ensures Holds(S8, c)
  {
    StarParses();
    StarAdmits(V1);
    assert [[Any]] in [[[Any]]];
  }

  lemma FinalCheckPasses()
    ensures Check(S8, S8.constraints) == None
  {
    hide ParseRange, RangeSatisfies;
    assert S8.constraints == [P_SEED, Z_SEED, P_ASKS, C_ASKS, D_ASKS, Z_ASKS];
    PinnedParses();
    OneMeans();
    StarsHold(P_ASKS);
    StarsHold(C_ASKS);
    StarsHold(D_ASKS);
    assert Holds(S8, Z_ASKS) && Holds(S8, P_SEED) && Holds(S8, Z_SEED);
    forall c | c in S8.constraints ensures Holds(S8, c) {}
  }

  lemma AskedIsClosed(a: string, b: string)
    requires a in {"p", "z", "a"} && Edge(Requirements(S8), a, b)
    ensures b in {"p", "z", "a"}
  {
    var edges := Requirements(S8);
    assert edges["p"] == {"a"} && edges["z"] == {"a"} && edges["a"] == {};
  }

  lemma NothingAsksForC()
    ensures !Grounded(INPUT, S8, "c")
  {
    hide Requirements, Edge;
    var edges, asked := Requirements(S8), {"p", "z", "a"};
    assert Seeds(INPUT) == [P_SEED, Z_SEED] && Base(INPUT) == {"p", "z"};
    forall a, b | a in asked && Edge(edges, a, b) ensures b in asked { AskedIsClosed(a, b); }
    forall b, p | b in Base(INPUT) && WalkFrom(edges, p, b, "c") ensures false {
      ClosedHoldsWalk(edges, asked, p);
    }
  }

  /**
   * The resolver ends on this input and issues a lock, with a member that neither the
   * root nor an overlay reaches.
   */
  lemma CyclesCanBeLeftOver()
    ensures RangeManifests(INPUT) && BoundedTags(INPUT)
    ensures IsRun(INPUT, RUN) && IsLabelRun(INPUT, RUN) && RUN[|RUN| - 1] == S8 && S8.pending == {}
    ensures Check(S8, S8.constraints) == None
    ensures "c" in LockOf(S8) && !Grounded(INPUT, S8, "c")
  {
    hide Next, NextByLabel, Init, Check, Grounded, RangeManifests, BoundedTags, LabelsSafe;
    ManifestsAskByRange();
    TagsAreBounded();
    RunsToTheEnd();
    RangeManifestsAreSafe(INPUT);
    LabelRunsAreRuns(INPUT, RUN);
    FinalCheckPasses();
    NothingAsksForC();
  }
}
