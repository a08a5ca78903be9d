/**
 * With exact requirements the worklist need not empty: two packages that pin a third
 * to different commits in turn bring the resolver back to a state it has been in.
 */
module ResolverEndless {
  import opened Wrappers
  import opened Texts
  import opened Semver
  import opened Resolver
  import opened ResolverCases
  import opened ResolverChoices
  import opened ResolverSources
  import opened ResolverSteps
  import opened ResolverLevels
  import opened ResolverTermination
  import opened ResolverLabels

  /** At its first commit p needs b, at its second a; b pins p to the second commit, a to the first. */
  const M1: Manifest := Manifest("1.0.0", [Requirement(Skill, "b", ByRevision, "s", "")])
  const M2: Manifest := Manifest("2.0.0", [Requirement(Skill, "a", ByRevision, "s", "")])
  const MA: Manifest := Manifest("", [Requirement(Context, "p", ByRevision, "c1", "")])
  const MB: Manifest := Manifest("", [Requirement(Context, "p", ByRevision, "c2", "")])

  const PACKAGES: map<string, Package> := map[
    "p" := Package("", map["v1.0.0" := "c1"], map["c1" := M1, "c2" := M2]),
    "a" := Package("", map[], map["s" := MA]),
    "b" := Package("", map[], map["s" := MB])]

  const INPUT: Input := Input("p", ByRange, "*", "", [], PACKAGES)

  const SEED: Constraint := Constraint("p", Context, Machine, ByRange, "*", "", None)
  const NEEDS_B: Constraint := Constraint("b", Skill, Member("p", Some(V1)), ByRevision, "s", "", None)
  const NEEDS_A: Constraint := Constraint("a", Skill, Member("p", Some(V2)), ByRevision, "s", "", None)
  const B_PINS: Constraint := Constraint("p", Context, Member("b", None), ByRevision, "c2", "", None)
  const A_PINS: Constraint := Constraint("p", Context, Member("a", None), ByRevision, "c1", "", None)

  const P1: Selection := Selection(Context, Some(V1), "c1", "", "", "", Some(M1), None)
  const P2: Selection := Selection(Context, Some(V2), "c2", "", "", "", Some(M2), None)
  const SA: Selection := Selection(Skill, None, "s", "", "", "", Some(MA), None)
  const SB: Selection := Selection(Skill, None, "s", "", "", "", Some(MB), None)

  /** The states of the round, each named by what is about to be handled. */
  const PICKED: State := State([SEED, NEEDS_B], map["p" := P1], map["p" := V1], {"b"})
  const UP: State := State([SEED, NEEDS_B, B_PINS], map["p" := P1, "b" := SB], map["p" := V1], {"p"})
  const RAISED: State := State([SEED, B_PINS, NEEDS_A], map["p" := P2, "b" := SB], map["p" := V2], {"a", "b"})
  const BOTH: State := State([SEED, B_PINS, NEEDS_A, A_PINS], map["p" := P2, "b" := SB, "a" := SA], map["p" := V2],
    {"b", "p"})
  const DOWN: State := State([SEED, NEEDS_A, A_PINS], map["p" := P2, "a" := SA], map["p" := V2], {"p"})
  const LOWERED: State := State([SEED, A_PINS, NEEDS_B], map["p" := P1, "a" := SA], map["p" := V1], {"a", "b"})
  const AGAIN: State := State([SEED, NEEDS_B], map["p" := P1], map["p" := V1], {"b", "p"})

  // ----------------------------------------------------------- evaluation

  lemma ABeforeB()
    ensures Below("a", "b")
  {}

  lemma BBeforeP()
    ensures Below("b", "p")
  {}

  // ---------------------------------------------------------------- steps

  lemma Starts()
    ensures Next(INPUT, Init(INPUT), PICKED)
  {
    hide Next, Choose, On, IsLeast;
    OnlyVersionChosen(INPUT, SEED, "c1", PACKAGES["p"].commits);
    OnThree(SEED, SEED, SEED, "p");
    AloneIsLeast("p");
    assert Seeds(INPUT) == [SEED] && NamesOf([SEED]) == {"p"};
    Enters(INPUT, Init(INPUT), "p", [SEED], P1, M1.requires_[0]);
    assert [SEED] + [NEEDS_B] == [SEED, NEEDS_B] && {"p"} - {"p"} + {"b"} == {"b"};
  }

  lemma OnlyBsNeed()
    ensures On([SEED, NEEDS_B], "b") == [NEEDS_B]
  {
    hide On;
    OnThree(SEED, NEEDS_B, NEEDS_B, "b");
  }

  lemma Picks()
    ensures Next(INPUT, PICKED, UP)
  {
    hide Next, Choose, On, IsLeast, Gather, AdmitsAll, Compare, Print, ParseVersion, ParseTag;
    UntaggedSkillChosen(INPUT, NEEDS_B);
    OnlyBsNeed();
    AloneIsLeast("b");
    Enters(INPUT, PICKED, "b", [NEEDS_B], SB, MB.requires_[0]);
    assert [SEED, NEEDS_B] + [B_PINS] == UP.constraints;
    PassedOn("b", "p");
  }

  lemma PConstraintsUp()
    ensures On(UP.constraints, "p") == [SEED, B_PINS]
    ensures Without(UP.constraints, Member("p", Some(V1))) == [SEED, B_PINS]
    ensures DroppedNames(UP.constraints, Member("p", Some(V1))) == {"b"}
  {
    hide On, Without, DroppedNames;
    OnThree(SEED, NEEDS_B, B_PINS, "p");
    WithoutThree(SEED, NEEDS_B, B_PINS, Member("p", Some(V1)));
    DroppedOne(UP.constraints, 1, Member("p", Some(V1)));
  }

  lemma Raises()
    ensures Next(INPUT, UP, RAISED)
  {
    hide Next, Choose, On, IsLeast, Without, DroppedNames;
    PinnedContextChosen(INPUT, Some(V1), SEED, B_PINS);
    PConstraintsUp();
    AloneIsLeast("p");
    Replaces(INPUT, UP, "p", [SEED, B_PINS], P2, M2.requires_[0], [SEED, B_PINS], {"b"});
    assert Attribute("p", Some(V2), M2.requires_[0]) == NEEDS_A;
    assert [SEED, B_PINS] + [NEEDS_A] == RAISED.constraints;
    assert {"p"} - {"p"} + {"b"} + {"a"} == RAISED.pending;
    assert UP.selected["p" := P2] == RAISED.selected;
    assert UP.ceiling["p" := V2] == RAISED.ceiling;
  }

  lemma OnlyAsNeed()
    ensures On([SEED, B_PINS, NEEDS_A], "a") == [NEEDS_A]
  {
    hide On;
    OnThree(SEED, B_PINS, NEEDS_A, "a");
  }

  lemma Adds()
    ensures Next(INPUT, RAISED, BOTH)
  {
    hide Next, Choose, On, IsLeast;
    UntaggedSkillChosen(INPUT, NEEDS_A);
    OnlyAsNeed();
    ABeforeB();
    FirstOfTwo("a", "b");
    Enters(INPUT, RAISED, "a", [NEEDS_A], SA, MA.requires_[0]);
    assert [SEED, B_PINS, NEEDS_A] + [A_PINS] == BOTH.constraints && {"a", "b"} - {"a"} + {"p"} == {"b", "p"};
  }

  lemma NothingOnB()
    ensures On(BOTH.constraints, "b") == []
  {
    hide On;
    OnThree(SEED, B_PINS, NEEDS_A, "b");
    OnLast([SEED, B_PINS, NEEDS_A], A_PINS, "b");
    assert BOTH.constraints == [SEED, B_PINS, NEEDS_A] + [A_PINS];
  }

  lemma WithoutB()
    ensures Without(BOTH.constraints, Member("b", None)) == DOWN.constraints
    ensures DroppedNames(BOTH.constraints, Member("b", None)) == {"p"}
  {
    hide Without, DroppedNames;
    WithoutThree(SEED, B_PINS, NEEDS_A, Member("b", None));
    WithoutLast([SEED, B_PINS, NEEDS_A], A_PINS, Member("b", None));
    assert BOTH.constraints == [SEED, B_PINS, NEEDS_A] + [A_PINS] && [SEED] + [NEEDS_A] + [A_PINS] == DOWN.constraints;
    DroppedOne(BOTH.constraints, 1, Member("b", None));
  }

  lemma Drops()
    ensures Next(INPUT, BOTH, DOWN)
  {
    hide Next, On, IsLeast, Without, DroppedNames;
    NothingOnB();
    WithoutB();
    BBeforeP();
    FirstOfTwo("b", "p");
    Leaves(INPUT, BOTH, "b", DOWN.constraints, {"p"});
    assert BOTH.pending - {"b"} + {"p"} == DOWN.pending;
    assert BOTH.selected - {"b"} == DOWN.selected;
  }

  lemma PConstraintsDown()
    ensures On(DOWN.constraints, "p") == [SEED, A_PINS]
    ensures Without(DOWN.constraints, Member("p", Some(V2))) == [SEED, A_PINS]
    ensures DroppedNames(DOWN.constraints, Member("p", Some(V2))) == {"a"}
  {
    hide On, Without, DroppedNames;
    OnThree(SEED, NEEDS_A, A_PINS, "p");
    WithoutThree(SEED, NEEDS_A, A_PINS, Member("p", Some(V2)));
    DroppedOne(DOWN.constraints, 1, Member("p", Some(V2)));
  }

  lemma Lowers()
    ensures Next(INPUT, DOWN, LOWERED)
  {
    hide Next, Choose, On, IsLeast, Without, DroppedNames;
    PinnedContextChosen(INPUT, Some(V2), SEED, A_PINS);
    PConstraintsDown();
    AloneIsLeast("p");
    Replaces(INPUT, DOWN, "p", [SEED, A_PINS], P1, M1.requires_[0], [SEED, A_PINS], {"a"});
    assert [SEED, A_PINS] + [NEEDS_B] == LOWERED.constraints;
    assert {"p"} - {"p"} + {"a"} + {"b"} == LOWERED.pending;
    assert DOWN.selected["p" := P1] == LOWERED.selected;
    assert DOWN.ceiling["p" := V1] == LOWERED.ceiling;
  }

  lemma NothingOnA()
    ensures On(LOWERED.constraints, "a") == []
  {
    hide On;
    OnThree(SEED, A_PINS, NEEDS_B, "a");
  }

  lemma WithoutA()
    ensures Without(LOWERED.constraints, Member("a", None)) == AGAIN.constraints
    ensures DroppedNames(LOWERED.constraints, Member("a", None)) == {"p"}
  {
    hide Without, DroppedNames;
    WithoutThree(SEED, A_PINS, NEEDS_B, Member("a", None));
    DroppedOne(LOWERED.constraints, 1, Member("a", None));
  }

  lemma DropsToo()
    ensures Next(INPUT, LOWERED, AGAIN)
  {
    hide Next, On, IsLeast, Without, DroppedNames;
    NothingOnA();
    WithoutA();
    ABeforeB();
    FirstOfTwo("a", "b");
    Leaves(INPUT, LOWERED, "a", AGAIN.constraints, {"p"});
    assert LOWERED.pending - {"a"} + {"p"} == AGAIN.pending;
    assert LOWERED.selected - {"a"} == AGAIN.selected;
  }

  lemma Returns()
    ensures Next(INPUT, AGAIN, UP)
  {
    hide Next, Choose, On, IsLeast;
    UntaggedSkillChosen(INPUT, NEEDS_B);
    OnlyBsNeed();
    BBeforeP();
    FirstOfTwo("b", "p");
    Enters(INPUT, AGAIN, "b", [NEEDS_B], SB, MB.requires_[0]);
    assert [SEED, NEEDS_B] + [B_PINS] == UP.constraints && {"b", "p"} - {"b"} + {"p"} == {"p"};
  }

  // ---------------------------------------------------------------- result

  /** The i-th state of the round that starts at UP. */
  function RoundAt(i: nat): State {
    match i % 6
    case 0 => UP case 1 => RAISED case 2 => BOTH case 3 => DOWN case 4 => LOWERED case _ => AGAIN
  }

  lemma RoundSteps(i: nat)
    ensures Next(INPUT, RoundAt(i), RoundAt(i + 1))
  {
    hide Next;
    assert (i + 1) % 6 == if i % 6 == 5 then 0 else i % 6 + 1;
    Raises();
    Adds();
    Drops();
    Lowers();
    DropsToo();
    Returns();
  }

  function EndlessRun(n: nat): seq<State> {
    [Init(INPUT), PICKED] + seq(n, i requires 0 <= i < n => RoundAt(i))
  }

  function VersionAt(s: State, name: string): Option<Version> {
    if name in s.selected then s.selected[name].version else None
  }

  lemma HeldManifests(k: string, m: Manifest)
    requires m in ManifestsOf(INPUT, k)
    ensures m in {M1, M2, MA, MB}
  {
    if k in PACKAGES { var commit :| commit in PACKAGES[k].commits && PACKAGES[k].commits[commit] == m; }
  }

  /** No name here can be taken for a label. */
  lemma NamesAreSafe()
    ensures LabelsSafe(INPUT)
  {
    hide ManifestsOf;
    forall name | AskedExactly(INPUT, name) ensures name != MACHINE && '@' !in name {
      var r :| Stated(INPUT, r) && r.name == name && IsExact(r.form);
      var k, m :| m in ManifestsOf(INPUT, k) && r in m.requires_;
      HeldManifests(k, m);
      assert name in {"a", "b", "p"};
    }
  }

  /** This input has a run of every length, the program's and the state machine's, along which a selection rises. */
  lemma WorklistNeedNotEmpty(n: nat)
    ensures Composed(INPUT) && IsRun(INPUT, EndlessRun(n)) && IsLabelRun(INPUT, EndlessRun(n))
      && |EndlessRun(n)| == n + 2
    ensures n >= 2 ==> VersionAt(EndlessRun(n)[2], "p") == Some(V1) && VersionAt(EndlessRun(n)[3], "p") == Some(V2)
  {
    hide Next, NextByLabel, LabelsSafe, Init;
    var run := EndlessRun(n);
    forall i | 0 <= i < |run| - 1 ensures Next(INPUT, run[i], run[i + 1]) {
      if i == 0 {
        Starts();
      } else if i == 1 {
        Picks();
      } else {
        RoundSteps(i - 2);
      }
    }
    assert n >= 2 ==> run[2] == UP && run[3] == RAISED;
    NamesAreSafe();
    LabelRunsAreRuns(INPUT, run);
  }

  /** So its requirements run in a circle through one that is no range. */
  lemma CirclePassesThroughPin()
    ensures !Terminating(INPUT)
  {
    hide Terminating, TInv, Rank, EndlessRun, IsRun, IsLabelRun, VersionAt, Init;
    if Terminating(INPUT) {
      InitTInv(INPUT);
      var n := Rank(INPUT, Init(INPUT));
      WorklistNeedNotEmpty(n);
      RunsAreBounded(INPUT, EndlessRun(n));
      assert false;
    }
  }
}
