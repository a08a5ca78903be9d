/**
 * A skill named like the machine: when it leaves, the program drops the machine's own
 * constraints with it, and the root leaves the closure.
 */
module ResolverMislabelled {
  import opened Wrappers
  import opened Texts
  import opened Semver
  import opened Resolver
  import opened ResolverCases
  import opened ResolverLabels

  /** At its first commit p needs the skill; the skill pins p to the second commit, which needs nothing. */
  const M1: Manifest := Manifest("1.0.0", [Requirement(Skill, MACHINE, ByRevision, "s", "")])
  const M2: Manifest := Manifest("2.0.0", [])
  const MS: Manifest := Manifest("", [Requirement(Context, "p", ByRevision, "c2", "")])

  const PACKAGES: map<string, Package> := map[
    "p" := Package("", map["v1.0.0" := "c1"], map["c1" := M1, "c2" := M2]),
    MACHINE := Package("", map[], map["s" := MS])]

  const INPUT: Input := Input("p", ByRange, "*", "", [], PACKAGES)

  const SEED: Constraint := Constraint("p", Context, Machine, ByRange, "*", "", None)
  const NEED: Constraint := Constraint(MACHINE, Skill, Member("p", Some(V1)), ByRevision, "s", "", None)
  const PIN: Constraint := Constraint("p", Context, Member(MACHINE, None), ByRevision, "c2", "", None)

  const P1: Selection := Selection(Context, Some(V1), "c1", "", "", "", Some(M1), None)
  const P2: Selection := Selection(Context, Some(V2), "c2", "", "", "", Some(M2), None)
  const S: Selection := Selection(Skill, None, "s", "", "", "", Some(MS), None)

  const S1: State := State([SEED, NEED], map["p" := P1], map["p" := V1], {MACHINE})
  const S2: State := State([SEED, NEED, PIN], map["p" := P1, MACHINE := S], map["p" := V1], {"p"})
  const S3: State := State([SEED, PIN], map["p" := P2, MACHINE := S], map["p" := V2], {MACHINE})
  const S4: State := State([], map["p" := P2], map["p" := V2], {"p"})
  const S5: State := State([], map[], map["p" := V2], {})

  const RUN: seq<State> := [Init(INPUT), S1, S2, S3, S4, S5]

  // ------------------------------------------------------------------ steps

  /** Nothing is dropped when a name enters, so the label does not matter. */
  lemma EntersByLabel(s: State, name: string, cs: seq<Constraint>, sel: Selection, r: Requirement)
    requires IsLeast(name, s.pending) && On(s.constraints, name) == cs && cs != []
    requires Choose(INPUT, Get(s.ceiling, name), name, cs) == Ok(sel) && name !in s.selected
    requires sel.manifest.Some? && sel.manifest.value.requires_ == [r]
    ensures NextByLabel(INPUT, s, State(s.constraints + [Attribute(name, sel.version, r)], s.selected[name := sel],
                                        if sel.version.Some? then s.ceiling[name := sel.version.value] else s.ceiling,
                                        s.pending - {name} + {r.name}))
  {
    hide Choose, On, Expansion, Attribute, NamesOf;
    LeastUnique(name, Least(s.pending), s.pending);
    ExpansionOne(name, sel, r);
    assert s.pending - {name} + {} + {r.name} == s.pending - {name} + {r.name};
  }

  lemma LeavesByLabel(s: State, name: string)
    requires IsLeast(name, s.pending) && On(s.constraints, name) == [] && name in s.selected
    ensures NextByLabel(INPUT, s, LeaveByLabel(s, name))
  {
    hide Choose, On, LeaveByLabel;
    LeastUnique(name, Least(s.pending), s.pending);
  }

  lemma Step1()
    ensures NextByLabel(INPUT, Init(INPUT), S1)
  {
    hide NextByLabel, Choose, On, IsLeast;
    OnlyVersionChosen(INPUT, SEED, "c1", PACKAGES["p"].commits);
    OnThree(SEED, SEED, SEED, "p");
    AloneIsLeast("p");
    assert Seeds(INPUT) == [SEED] && NamesOf([SEED]) == {"p"};
    EntersByLabel(Init(INPUT), "p", [SEED], P1, M1.requires_[0]);
    assert [SEED] + [NEED] == [SEED, NEED];
    PassedOn("p", MACHINE);
  }

  lemma Step2()
    ensures NextByLabel(INPUT, S1, S2)
  {
    hide NextByLabel, Choose, On, IsLeast;
    UntaggedSkillChosen(INPUT, NEED);
    OnThree(SEED, NEED, NEED, MACHINE);
    AloneIsLeast(MACHINE);
    EntersByLabel(S1, MACHINE, [NEED], S, MS.requires_[0]);
    assert [SEED, NEED] + [PIN] == [SEED, NEED, PIN];
    PassedOn(MACHINE, "p");
  }

  lemma DropsTheNeed()
    ensures On(S2.constraints, "p") == [SEED, PIN]
    ensures WithoutLabel(S2.constraints, Label(Member("p", Some(V1)))) == [SEED, PIN]
    ensures DroppedByLabel(S2.constraints, Label(Member("p", Some(V1)))) == {MACHINE}
  {
    hide On, Without, DroppedNames, WithoutLabel, DroppedByLabel, Print;
    var r := Member("p", Some(V1));
    OnThree(SEED, NEED, PIN, "p");
    WithoutThree(SEED, NEED, PIN, r);
    DroppedOne(S2.constraints, 1, r);
    assert Label(r)[0] == 'p' && MACHINE[0] == 'm';
    LabelDropIffOwn(S2.constraints, r);
  }

  lemma Step3()
    ensures NextByLabel(INPUT, S2, S3)
  {
    hide Choose, On, IsLeast, WithoutLabel, DroppedByLabel, Label;
    PinnedContextChosen(INPUT, Some(V1), SEED, PIN);
    DropsTheNeed();
    AloneIsLeast("p");
    LeastUnique("p", Least(S2.pending), S2.pending);
    assert Expansion("p", P2) == [] && NamesOf([]) == {} && [SEED, PIN] + [] == [SEED, PIN];
    assert S2.pending - {"p"} + {MACHINE} + {} == S3.pending;
    assert S2.selected["p" := P2] == S3.selected && S2.ceiling["p" := V2] == S3.ceiling;
  }

  lemma DropsLast(front: seq<Constraint>, c: Constraint, mark: string)
    requires Label(c.requirer) == mark
    ensures WithoutLabel(front + [c], mark) == WithoutLabel(front, mark)
  {
    assert (front + [c])[..|front|] == front;
  }

  /** The seed carries the leaving skill's label. */
  lemma DropsTheSeed()
    ensures WithoutLabel(S3.constraints, Label(Member(MACHINE, None))) == []
    ensures DroppedByLabel(S3.constraints, Label(Member(MACHINE, None))) == {"p"}
  {
    DropsLast([], SEED, MACHINE);
    DropsLast([SEED], PIN, MACHINE);
    assert [] + [SEED] == [SEED] && [SEED] + [PIN] == S3.constraints;
    assert SEED in S3.constraints;
  }

  lemma Step4()
    ensures NextByLabel(INPUT, S3, S4)
  {
    hide NextByLabel, On, IsLeast, WithoutLabel, DroppedByLabel, Label;
    OnThree(SEED, PIN, PIN, MACHINE);
    AloneIsLeast(MACHINE);
    DropsTheSeed();
    LeavesByLabel(S3, MACHINE);
    PassedOn(MACHINE, "p");
    assert S3.selected - {MACHINE} == S4.selected;
  }

  lemma Step5()
    ensures NextByLabel(INPUT, S4, S5)
  {
    hide NextByLabel, IsLeast, Label;
    AloneIsLeast("p");
    LeavesByLabel(S4, "p");
    var mark := Label(Member("p", Some(V2)));
    assert WithoutLabel([], mark) == [] && DroppedByLabel([], mark) == {};
    assert S4.selected - {"p"} == S5.selected;
    assert S4.pending - {"p"} + {} == {};
  }

  /** The program's run on this input ends with nothing selected, the root included. */
  lemma RootCanBeDropped()
    ensures Composed(INPUT) && IsLabelRun(INPUT, RUN) && RUN[|RUN| - 1] == S5 && S5.pending == {}
    ensures LockOf(S5) == map[] && INPUT.root !in LockOf(S5)
  {
    hide NextByLabel, Init;
    Step1();
    Step2();
    Step3();
    Step4();
    Step5();
  }
}
