/** What every step of the resolver keeps, and what therefore holds on every run. */
module ResolverInvariants {
  import opened Wrappers
  import opened Texts
  import opened Semver
  import opened Ranges
  import opened Resolver

  predicate Constrained(s: State, name: string) {
    exists c :: c in s.constraints && c.name == name
  }

  /** The constraints are exactly the machine's and those the selected manifests contribute. */
  ghost predicate Attributed(input: Input, s: State) {
    forall c :: c in s.constraints <==> c in Seeds(input) || Contributed(s, c)
  }

  predicate Contributed(s: State, c: Constraint) {
    exists k :: k in s.selected && ContributedBy(s, k, c)
  }

  predicate ContributedBy(s: State, k: string, c: Constraint)
    requires k in s.selected
  {
    c in Expansion(k, s.selected[k])
  }

  /** Some selected name other than this one contributes the constraint. */
  predicate FromOther(s: State, name: string, c: Constraint) {
    exists k :: k in s.selected && k != name && ContributedBy(s, k, c)
  }

  /** A name that is not pending is selected exactly when something constrains it. */
  ghost predicate InOrder(s: State) {
    forall name :: name !in s.pending ==> (name in s.selected <==> Constrained(s, name))
  }

  /** A selection with a version has that version as its ceiling. */
  ghost predicate CeilingsMatch(s: State) {
    forall name :: name in s.selected && s.selected[name].version.Some? ==>
      name in s.ceiling && s.ceiling[name] == s.selected[name].version.value
  }

  ghost predicate Inv(input: Input, s: State) {
    Attributed(input, s) && InOrder(s) && CeilingsMatch(s)
  }

  lemma InitInv(input: Input)
    ensures Inv(input, Init(input))
  {
    var s := Init(input);
    forall name | name !in s.pending ensures !Constrained(s, name) {}
  }

  lemma IdleInv(input: Input, s: State, name: string)
    requires Inv(input, s) && (name in s.selected <==> On(s.constraints, name) != [])
    ensures Inv(input, Idle(s, name))
  {
    assert Attributed(input, Idle(s, name)) by {
      forall c ensures Contributed(Idle(s, name), c) == Contributed(s, c) {}
    }
    ConstrainedOn(s, name);
  }

  lemma ConstrainedOn(s: State, name: string)
    ensures Constrained(s, name) <==> On(s.constraints, name) != []
  {
    if On(s.constraints, name) != [] {
      assert On(s.constraints, name)[0] in On(s.constraints, name);
    }
    if Constrained(s, name) {
      var c :| c in s.constraints && c.name == name;
      assert c in On(s.constraints, name);
    }
  }

  /** Dropping a selection's requirer drops exactly what the selection contributed. */
  lemma DropLeavesOthers(input: Input, s: State, name: string, c: Constraint)
    requires Attributed(input, s) && name in s.selected
    ensures c in Without(s.constraints, Member(name, s.selected[name].version))
       <==> c in Seeds(input) || FromOther(s, name, c)
  {
    var requirer := Member(name, s.selected[name].version);
    assert c in Seeds(input) ==> c.requirer == Machine;
    if c in s.constraints && c !in Seeds(input) {
      var k :| k in s.selected && ContributedBy(s, k, c);
      assert c.requirer == Member(k, s.selected[k].version);
    }
  }

  /** Contributions carry over to a state that selects the same but for one name. */
  lemma OthersCarryOver(s: State, after: State, name: string, c: Constraint)
    requires forall k :: k in after.selected && k != name ==> k in s.selected
    requires forall k :: k in s.selected && k != name ==> k in after.selected && after.selected[k] == s.selected[k]
    ensures Contributed(after, c)
      <==> FromOther(s, name, c) || (name in after.selected && ContributedBy(after, name, c))
  {
    if Contributed(after, c) {
      var k :| k in after.selected && ContributedBy(after, k, c);
      if k != name { assert k in s.selected && ContributedBy(s, k, c); }
    }
    if FromOther(s, name, c) {
      var k :| k in s.selected && k != name && ContributedBy(s, k, c);
      assert k in after.selected && ContributedBy(after, k, c);
    }
  }

  lemma LeaveAttributed(input: Input, s: State, name: string)
    requires Attributed(input, s) && name in s.selected
    ensures Attributed(input, Leave(s, name))
  {
    var after := Leave(s, name);
    forall c ensures c in after.constraints <==> c in Seeds(input) || Contributed(after, c) {
      DropLeavesOthers(input, s, name, c);
      OthersCarryOver(s, after, name, c);
    }
  }

  lemma LeaveInOrder(s: State, name: string)
    requires InOrder(s) && name in s.selected && On(s.constraints, name) == []
    ensures InOrder(Leave(s, name))
  {
    var after := Leave(s, name);
    ConstrainedOn(s, name);
    forall n | n !in after.pending ensures n in after.selected <==> Constrained(after, n) {
      if n != name {
        ConstraintsUntouched(s, after, Member(name, s.selected[name].version), n);
      }
    }
  }

  /** A name that a drop does not make pending keeps all its constraints. */
  lemma ConstraintsUntouched(s: State, after: State, requirer: Requirer, n: string)
    requires forall c :: c in Without(s.constraints, requirer) && c.name == n ==> c in after.constraints
    requires forall c :: c in after.constraints && c.name == n ==> c in s.constraints
    requires n !in DroppedNames(s.constraints, requirer)
    ensures forall c: Constraint :: c.name == n ==> (c in s.constraints <==> c in after.constraints)
    ensures Constrained(s, n) <==> Constrained(after, n)
  {
  }

  function Replaced(s: State, name: string): Requirer {
    if name in s.selected then Member(name, s.selected[name].version) else Machine
  }

  lemma PlaceConstraints(input: Input, s: State, name: string, next: Selection, c: Constraint)
    requires Attributed(input, s)
    ensures c in Place(s, name, next).constraints
       <==> c in Seeds(input) || c in Expansion(name, next)
            || FromOther(s, name, c)
  {
    if name in s.selected {
      DropLeavesOthers(input, s, name, c);
    } else if Contributed(s, c) {
      var k :| k in s.selected && ContributedBy(s, k, c);
      assert k != name;
    }
  }

  lemma PlaceUntouched(input: Input, s: State, name: string, next: Selection, n: string)
    requires Attributed(input, s) && n !in Place(s, name, next).pending
    ensures forall c: Constraint :: c.name == n ==> (c in s.constraints <==> c in Place(s, name, next).constraints)
    ensures Constrained(s, n) <==> Constrained(Place(s, name, next), n)
  {
    var after := Place(s, name, next);
    if name in s.selected { ConstraintsUntouched(s, after, Replaced(s, name), n); }
  }

  lemma PlaceAttributed(input: Input, s: State, name: string, next: Selection)
    requires Attributed(input, s)
    ensures Attributed(input, Place(s, name, next))
  {
    var after := Place(s, name, next);
    forall c ensures c in after.constraints <==> c in Seeds(input) || Contributed(after, c) {
      PlaceConstraints(input, s, name, next, c);
      OthersCarryOver(s, after, name, c);
    }
  }

  lemma PlaceInOrder(input: Input, s: State, name: string, next: Selection)
    requires Attributed(input, s) && InOrder(s) && On(s.constraints, name) != []
    ensures InOrder(Place(s, name, next))
  {
    var after := Place(s, name, next);
    ConstrainedOn(s, name);
    forall n | n !in after.pending ensures n in after.selected <==> Constrained(after, n) {
      PlaceUntouched(input, s, name, next, n);
    }
  }

  lemma HandleInv(input: Input, s: State, name: string)
    requires Inv(input, s)
    ensures Handle(input, s, name).Ok? ==> Inv(input, Handle(input, s, name).value)
  {
    var cs := On(s.constraints, name);
    if cs == [] {
      if name in s.selected {
        LeaveAttributed(input, s, name);
        LeaveInOrder(s, name);
      } else {
        IdleInv(input, s, name);
      }
    } else {
      var next := Choose(input, Get(s.ceiling, name), name, cs);
      if next.Ok? {
        if name in s.selected && SamePin(s.selected[name], next.value) {
          IdleInv(input, s, name);
        } else {
          PlaceAttributed(input, s, name, next.value);
          PlaceInOrder(input, s, name, next.value);
        }
      }
    }
  }

  /** Attribution, order and ceilings hold in every state of every run. */
  lemma {:induction false} RunInv(input: Input, run: seq<State>, i: nat)
    requires IsRun(input, run) && i < |run|
    ensures Inv(input, run[i])
  {
    if i == 0 {
      InitInv(input);
    } else {
      RunInv(input, run, i - 1);
      assert Next(input, run[i - 1], run[i - 1 + 1]);
      HandleInv(input, run[i - 1], Least(run[i - 1].pending));
    }
  }
}
