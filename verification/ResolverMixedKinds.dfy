/**
 * Why kinds must agree: a name first required as a skill, then as a context, keeps the
 * version its tag gave it while its ranges are judged by the version its manifest declares.
 */
module ResolverMixedKinds {
  import opened Wrappers
  import opened Texts
  import opened Semver
  import opened Ranges
  import opened RangeText
  import opened Resolver
  import opened ResolverSources
  import opened ResolverSafety
  import opened ResolverLabels
  import opened ResolverCases

  const TWO: Range := [[Cmp(Eq, V2)]]

  /** At its first commit p needs the skill x; x pins p to the second commit, which needs x as a context. */
  const M1: Manifest := Manifest("1.0.0", [Requirement(Skill, "x", ByRevision, "s", "")])
  const M2: Manifest := Manifest("2.0.0",
    [Requirement(Context, "x", ByRevision, "s", ""), Requirement(Context, "x", ByRange, "=2.0.0", "")])
  const MX: Manifest := Manifest("2.0.0", [Requirement(Context, "p", ByRevision, "c2", "")])

  const PACKAGES: map<string, Package> := map[
    "p" := Package("", map["v1.0.0" := "c1"], map["c1" := M1, "c2" := M2]),
    "x" := Package("", map["v1.0.0" := "s"], map["s" := MX])]

  const INPUT: Input := Input("p", ByRange, "*", "", [], PACKAGES)

  const SEED: Constraint := Constraint("p", Context, Machine, ByRange, "*", "", None)
  const NEED: Constraint := Constraint("x", Skill, Member("p", Some(V1)), ByRevision, "s", "", None)
  const PIN: Constraint := Constraint("p", Context, Member("x", Some(V1)), ByRevision, "c2", "", None)
  const AT_S: Constraint := Constraint("x", Context, Member("p", Some(V2)), ByRevision, "s", "", None)
  const AT_TWO: Constraint := Constraint("x", Context, Member("p", Some(V2)), ByRange, "=2.0.0", "", None)

  const P1: Selection := Selection(Context, Some(V1), "c1", "", "", "", Some(M1), None)
  const P2: Selection := Selection(Context, Some(V2), "c2", "", "", "", Some(M2), None)
  const X1: Selection := Selection(Skill, Some(V1), "s", "", "", "", Some(MX), None)
  const X2: Selection := Selection(Context, Some(V2), "s", "", "", "", Some(MX), None)

  const S1: State := State([SEED, NEED], map["p" := P1], map["p" := V1], {"x"})
  const S2: State := State([SEED, NEED, PIN], map["p" := P1, "x" := X1], map["p" := V1, "x" := V1], {"p"})
  const S3: State := State([SEED, PIN, AT_S, AT_TWO], map["p" := P2, "x" := X1], map["p" := V2, "x" := V1], {"x"})
  const S4: State := S3.(pending := {})

  const RUN: seq<State> := [Init(INPUT), S1, S2, S3, S4]

  // ----------------------------------------------------------------- choices

  lemma TwoParses()
    ensures ParseRange("=2.0.0") == Some(TWO)
  {
    VersionsPrinted();
    assert PrintComparator(TWO[0][0]) == "=" + "2.0.0";
    assert PrintAll(TWO[0])[0] == "=2.0.0" && PrintAll(TWO[0])[1..] == [];
    assert PrintRange(TWO) == "=2.0.0";
    assert DesugaredRange(TWO);
    RangeReparsesIffItFits(TWO);
  }

  lemma TwoMeans()
    ensures RangeSatisfies(TWO, V2) && !RangeSatisfies(TWO, V1)
  {
    SingleSatisfies(Cmp(Eq, V2), V1);
    SingleSatisfies(Cmp(Eq, V2), V2);
    assert TWO[0] in TWO;
  }

  lemma PinChosen()
    ensures Choose(INPUT, Some(V1), "p", [SEED, PIN]) == Ok(P2)
  {
    hide Choose;
    PinnedContextChosen(INPUT, Some(V1), SEED, PIN);
  }

  lemma SkillChosen()
    ensures Choose(INPUT, None, "x", [NEED]) == Ok(X1)
  {
    hide Gather, LastOverlay, CandidatesAt, Candidates;
    PinGathered(INPUT, NEED);
    OnlyTagAt("s");
    assert Highest({V1}) == Some(V1);
    NoOverlay(NEED, NEED);
  }

  /** As a context, x has the version its manifest declares. */
  lemma ContextChosen()
    ensures Choose(INPUT, Some(V1), "x", [AT_S, AT_TWO]) == Ok(X2)
  {
    hide Gather, LastOverlay, ParseRange, ParseVersion, RangeSatisfies;
    NothingGathered(INPUT);
    TwoParses();
    TwoMeans();
    GatherLast(INPUT, [], AT_S, Gathered(None, [], []));
    assert [] + [AT_S] == [AT_S] && [] + ["s"] == ["s"];
    GatherLast(INPUT, [AT_S], AT_TWO, Gathered(None, ["s"], []));
    assert [AT_S] + [AT_TWO] == [AT_S, AT_TWO] && [] + [TWO] == [TWO];
    VersionsRead();
    NoOverlay(AT_S, AT_TWO);
  }

  // ------------------------------------------------------------------ steps

  lemma Step1()
    ensures Next(INPUT, Init(INPUT), S1)
  {
    hide Next, Choose, On, IsLeast;
    OnlyVersionChosen(INPUT, SEED, "c1", PACKAGES["p"].commits);
    OnThree(SEED, SEED, SEED, "p");
    AloneIsLeast("p");
    assert Seeds(INPUT) == [SEED] && NamesOf([SEED]) == {"p"};
    Enters(INPUT, Init(INPUT), "p", [SEED], P1, M1.requires_[0]);
    assert [SEED] + [NEED] == [SEED, NEED];
    PassedOn("p", "x");
  }

  lemma OnlyTheNeed()
    ensures On([SEED, NEED], "x") == [NEED]
  {
    hide On;
    OnThree(SEED, NEED, NEED, "x");
  }

  lemma Step2()
    ensures Next(INPUT, S1, S2)
  {
    hide Next, Choose, On, IsLeast;
    SkillChosen();
    OnlyTheNeed();
    AloneIsLeast("x");
    Enters(INPUT, S1, "x", [NEED], X1, MX.requires_[0]);
    assert [SEED, NEED] + [PIN] == [SEED, NEED, PIN];
    PassedOn("x", "p");
  }

  lemma DropsTheNeed()
    ensures On(S2.constraints, "p") == [SEED, PIN]
    ensures Without(S2.constraints, Member("p", Some(V1))) == [SEED, PIN]
    ensures DroppedNames(S2.constraints, Member("p", Some(V1))) == {"x"}
  {
    hide On, Without, DroppedNames;
    OnThree(SEED, NEED, PIN, "p");
    WithoutThree(SEED, NEED, PIN, Member("p", Some(V1)));
    DroppedOne(S2.constraints, 1, Member("p", Some(V1)));
  }

  lemma Asked()
    ensures Expansion("p", P2) == [AT_S, AT_TWO] && NamesOf([AT_S, AT_TWO]) == {"x"}
  {
    assert AT_S in [AT_S, AT_TWO];
  }

  lemma Step3()
    ensures Next(INPUT, S2, S3)
  {
    hide Choose, On, IsLeast, Without, DroppedNames, Expansion, NamesOf;
    PinChosen();
    DropsTheNeed();
    Asked();
    AloneIsLeast("p");
    LeastUnique("p", Least(S2.pending), S2.pending);
    assert [SEED, PIN] + [AT_S, AT_TWO] == S3.constraints;
    assert S2.pending - {"p"} + {"x"} + {"x"} == S3.pending;
    assert S2.selected["p" := P2] == S3.selected && S2.ceiling["p" := V2] == S3.ceiling;
  }

  lemma OnX()
    ensures On(S3.constraints, "x") == [AT_S, AT_TWO]
  {
    hide On;
    OnTwo([SEED, PIN], AT_S, [], AT_TWO, "x");
    assert S3.constraints == [SEED, PIN] + [AT_S] + [] + [AT_TWO];
  }

  lemma Step4()
    ensures Next(INPUT, S3, S4)
  {
    hide Choose, On, IsLeast;
    ContextChosen();
    OnX();
    AloneIsLeast("x");
    LeastUnique("x", Least(S3.pending), S3.pending);
    assert S3.pending - {"x"} == S4.pending;
  }

  lemma StillAtOne()
    ensures !Holds(S4, AT_TWO)
  {
    hide ParseRange, RangeSatisfies;
    TwoParses();
    TwoMeans();
  }

  lemma OneTagEach()
    ensures DistinctCommits(INPUT)
  {
    forall n | n in PACKAGES ensures PACKAGES[n].tags.Keys == {"v1.0.0"} {}
    hide ParseTag;
  }

  lemma HeldManifests(k: string, m: Manifest)
    ensures m in ManifestsOf(INPUT, k) <==> (k == "p" && m in {M1, M2}) || (k == "x" && m == MX)
  {
    assert PACKAGES["p"].commits["c1"] == M1 && PACKAGES["p"].commits["c2"] == M2 && PACKAGES["x"].commits["s"] == MX;
    if m in ManifestsOf(INPUT, k) {
      var commit :| commit in PACKAGES[k].commits && PACKAGES[k].commits[commit] == m;
    }
  }

  lemma StatedHere(r: Requirement)
    ensures Stated(INPUT, r) <==> r in M1.requires_ || r in M2.requires_ || r in MX.requires_
  {
    hide ManifestsOf;
    HeldManifests("p", M1);
    HeldManifests("p", M2);
    HeldManifests("x", MX);
    if Stated(INPUT, r) {
      var k, m :| m in ManifestsOf(INPUT, k) && r in m.requires_;
      HeldManifests(k, m);
    }
  }

  lemma TwoVersionsAtS()
    ensures TagAndManifestDiffer(INPUT, "x")
  {
    hide CandidatesAt, ParseVersion;
    VersionsRead();
    OnlyTagAt("s");
    assert Highest({V1}) == Some(V1);
    assert CommitVersion(INPUT, "x", false, "s") == Some(V2) && CommitVersion(INPUT, "x", true, "s") == Some(V1);
  }

  /** x is asked for by revision as a skill and as a context, and its commit carries two versions. */
  lemma KindMattersToX()
    ensures KindMatters(INPUT, "x") && !OneKind(INPUT)
  {
    hide TagAndManifestDiffer, Stated;
    TwoVersionsAtS();
    var asSkill, asContext := M1.requires_[0], M2.requires_[0];
    StatedHere(asSkill);
    StatedHere(asContext);
    assert Seeds(INPUT) == [SEED];
    assert AskedExactly(INPUT, "x");
    assert asSkill.name == asContext.name && asSkill.kind == Skill && asContext.kind == Context;
  }

  lemma InputIsPlain()
    ensures Composed(INPUT) && NoPathRequirements(INPUT) && NoPathSeeds(INPUT) && LabelsSafe(INPUT)
  {
    hide Stated;
    assert Seeds(INPUT) == [SEED];
    forall r | Stated(INPUT, r) ensures r.form != ByPath && r.name in {"p", "x"} { StatedHere(r); }
  }

  /** Without any path overlay the final check refuses, because the kinds of x do not agree. */
  lemma MixedKindsCanBeRefused()
    ensures IsRun(INPUT, RUN) && IsLabelRun(INPUT, RUN)
    ensures RUN[|RUN| - 1] == S4 && S4.pending == {} && Check(S4, S4.constraints).Some?
    ensures Composed(INPUT) && DistinctCommits(INPUT) && NoPathRequirements(INPUT) && NoPathSeeds(INPUT)
      && LabelsSafe(INPUT)
    ensures KindMatters(INPUT, "x") && !OneKind(INPUT)
  {
    hide Next, NextByLabel, Init, Holds, KindMatters, OneKind, DistinctCommits, Composed, NoPathRequirements,
      NoPathSeeds, LabelsSafe;
    InputIsPlain();
    OneTagEach();
    Step1();
    Step2();
    Step3();
    Step4();
    LabelRunsAreRuns(INPUT, RUN);
    StillAtOne();
    KindMattersToX();
    assert AT_TWO in S4.constraints;
  }
}
