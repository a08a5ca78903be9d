/** What the hook operations achieve, said of the ledger's fields and of what later operations answer. */
module HookEffects {
  import opened Wrappers
  import opened HookLedger

  // ------------------------------------------------------------- installing

  /** The operation installs a root that passes its check. */
  predicate Installs(op: Op) { op.Install? && op.root.accepted }

  predicate NoInstall(ops: seq<Op>) { forall i :: 0 <= i < |ops| ==> !Installs(ops[i]) }

  /** Two ledgers agree on everything but the roots and the current generation. */
  predicate SameReferences(m: Ledger, after: Ledger) {
    && after.refs == m.refs && after.requests == m.requests && after.terminal == m.terminal
    && after.active == m.active && after.rollback == m.rollback && after.serial == m.serial
    && after.revisions == m.revisions && after.releaseRevisions == m.releaseRevisions
  }

  /** An accepted root is stored under its generation and becomes current; nothing else changes. */
  lemma InstallTakesOver(m: Ledger, root: Root)
    requires Inv(m)
    ensures !root.accepted ==> Apply(m, Install(root)) == (m, Refused(HookRoot))
    ensures root.accepted ==>
      var (after, reply) := Apply(m, Install(root));
      && reply == Done && after.current == root.generation && SameReferences(m, after)
      && root.generation in after.roots && after.roots[root.generation] == root
      && forall g :: g != root.generation ==> Get(after.roots, g) == Get(m.roots, g)
  {
    hide Inv;
  }

  lemma RetainKeepsCurrent(m: Ledger, resource: string, request: string)
    requires Inv(m)
    ensures var after := Apply(m, Retain(resource, request)).0; after.current == m.current && after.roots == m.roots
  {
    hide Inv, Held, HolderOf;
  }

  lemma ActivateKeepsCurrent(m: Ledger, reference: Id, settled: bool, ifRevision: nat)
    requires Inv(m)
    ensures
      var after := DoActivate(m, reference, settled, ifRevision).0; after.current == m.current && after.roots == m.roots
    ensures DoActivate(m, reference, settled, ifRevision).0.refs == m.refs
  {
    hide Inv;
    Lookups(m);
  }

  lemma ReleaseKeepsCurrent(m: Ledger, reference: Id, settled: bool, ifRevision: nat)
    requires Inv(m)
    ensures
      var after := DoRelease(m, reference, settled, ifRevision).0; after.current == m.current && after.roots == m.roots
    ensures forall i :: i in DoRelease(m, reference, settled, ifRevision).0.refs ==>
      i in m.refs && DoRelease(m, reference, settled, ifRevision).0.refs[i] == m.refs[i]
  {
    hide Inv;
    Lookups(m);
  }

  /** Only an accepted install moves the current generation or changes its stored root. */
  lemma OnlyInstallMovesCurrent(m: Ledger, op: Op)
    requires Inv(m) && !Installs(op)
    ensures var after := Apply(m, op).0;
      after.current == m.current && m.current in m.roots && m.current in after.roots
      && after.roots[m.current] == m.roots[m.current]
  {
    hide Inv, DoRetain, DoActivate, DoRelease, Held, HolderOf;
    Lookups(m);
    match op
    case Retain(resource, request) => RetainKeepsCurrent(m, resource, request);
    case Activate(reference, settled, ifRevision) => ActivateKeepsCurrent(m, reference, settled, ifRevision);
    case RestoreRollback(reference, settled, ifRevision) => ActivateKeepsCurrent(m, reference, settled, ifRevision);
    case Release(reference, settled, ifRevision) => ReleaseKeepsCurrent(m, reference, settled, ifRevision);
    case _ =>
  }

  lemma {:induction false} RunKeepsCurrent(m: Ledger, ops: seq<Op>)
    requires Inv(m) && NoInstall(ops)
    ensures var after := Run(m, ops);
      after.current == m.current && m.current in m.roots && m.current in after.roots
      && after.roots[m.current] == m.roots[m.current]
  {
    hide Inv, Apply, Installs;
    if ops == [] {
      Lookups(m);
    } else {
      RunKeepsCurrent(m, ops[..|ops| - 1]);
      OnlyInstallMovesCurrent(Run(m, ops[..|ops| - 1]), ops[|ops| - 1]);
    }
  }

  lemma RetainKeepsLive(m: Ledger, resource: string, request: string, id: Id)
    requires Inv(m) && id in m.refs
    ensures var after := Apply(m, Retain(resource, request)).0; id in after.refs && after.refs[id] == m.refs[id]
  {
    hide Inv, Held, HolderOf;
    Lookups(m);
  }

  /** A live reference keeps what it stands for, or is released. */
  lemma LiveStaysOrIsReleased(m: Ledger, op: Op, id: Id)
    requires Inv(m) && id in m.refs
    ensures var after := Apply(m, op).0;
      if id in after.refs then after.refs[id] == m.refs[id]
      else op.Release? && op.reference == id && id in after.terminal
  {
    hide Inv, DoRetain, DoActivate, Held, HolderOf;
    match op
    case Retain(resource, request) => RetainKeepsLive(m, resource, request, id);
    case Activate(reference, settled, ifRevision) => ActivateKeepsCurrent(m, reference, settled, ifRevision);
    case RestoreRollback(reference, settled, ifRevision) => ActivateKeepsCurrent(m, reference, settled, ifRevision);
    case Release(_, _, _) => Lookups(m);
    case _ =>
  }

  lemma {:induction false} RunKeepsLive(m: Ledger, ops: seq<Op>, id: Id)
    requires Inv(m) && id in m.refs && id in Run(m, ops).refs
    ensures Run(m, ops).refs[id] == m.refs[id]
    decreases |ops|, 0
  {
    hide Inv, Apply;
    if ops != [] {
      var front := ops[..|ops| - 1];
      LiveBefore(m, front, ops[|ops| - 1], id);
      assert ops == front + [ops[|ops| - 1]];
      RunKeepsLive(m, front, id);
      LiveStaysOrIsReleased(Run(m, front), ops[|ops| - 1], id);
    }
  }

  lemma LiveBefore(m: Ledger, front: seq<Op>, op: Op, id: Id)
    requires Inv(m) && id in m.refs
    ensures id in Run(m, front + [op]).refs ==> id in Run(m, front).refs
    decreases |front|, 2
  {
    hide Inv, Apply;
    if id !in Run(m, front).refs {
      DeadStaysDead(m, front, id);
      ReleasedStaysReleased(Run(m, front), [op], id);
      OneMore(m, front, op);
    }
  }

  lemma OneMore(m: Ledger, front: seq<Op>, op: Op)
    requires Inv(m)
    ensures Run(Run(m, front), [op]) == Run(m, front + [op])
  {
    assert [op][..0] == [] && (front + [op])[..|front|] == front;
  }

  lemma {:induction false} DeadStaysDead(m: Ledger, ops: seq<Op>, id: Id)
    requires Inv(m) && id in m.refs && id !in Run(m, ops).refs
    ensures id in Run(m, ops).terminal
    decreases |ops|, 1
  {
    hide Inv, Apply;
    var front := ops[..|ops| - 1];
    if id in Run(m, front).refs {
      RunKeepsLive(m, front, id);
      LiveStaysOrIsReleased(Run(m, front), ops[|ops| - 1], id);
    } else {
      DeadStaysDead(m, front, id);
      ReleasedStaysReleased(Run(m, front), [ops[|ops| - 1]], id);
      OneMore(m, front, ops[|ops| - 1]);
      assert ops == front + [ops[|ops| - 1]];
    }
  }

  /** Until the next accepted install, every retain that answers a live reference answers one to the installed root. */
  lemma RetainsTheInstalled(m: Ledger, root: Root, ops: seq<Op>, resource: string, request: string)
    requires Inv(m) && root.accepted && NoInstall(ops)
    ensures Inv(Apply(m, Install(root)).0)
    ensures var s := Run(Apply(m, Install(root)).0, ops); var (after, reply) := Apply(s, Retain(resource, request));
      reply.Reference? && reply.id in after.refs ==> after.refs[reply.id] == Retained(resource, root.generation)
  {
    hide Inv, DoRetain;
    ApplyInv(m, Install(root));
    InstallTakesOver(m, root);
    var installed := Apply(m, Install(root)).0;
    RunKeepsCurrent(installed, ops);
    var s := Run(installed, ops);
    if Apply(s, Retain(resource, request)).1.Reference? { RetainAnswersLive(s, resource, request); }
  }

  /**
   * An upgrade goes through: install, retain and activate, with anything but another accepted
   * install in between, and an invocation answers with the installed root.
   */
  lemma UpgradeSelects(m: Ledger, root: Root, before: seq<Op>, resource: string, request: string, between: seq<Op>,
    settled: bool, ifRevision: nat)
    requires Inv(m) && root.accepted && NoInstall(before) && NoInstall(between)
    ensures Inv(Apply(m, Install(root)).0)
    ensures var s := Run(Apply(m, Install(root)).0, before); var (kept, reply) := Apply(s, Retain(resource, request));
      Inv(kept) && (reply.Reference? && reply.id in kept.refs ==>
        var (after, done) := Apply(Run(kept, between), Activate(reply.id, settled, ifRevision));
        Inv(after) && (done == Done ==>
          && Selected(after, resource) == Some(root.generation)
          && Apply(after, Invoke(resource)).1
             == if root.hookAccepted then Generation(root.generation) else Refused(HookRoot)))
  {
    hide Inv, DoRetain, DoActivate, DoInvoke, DoInstall, Selected;
    ApplyInv(m, Install(root));
    InstallTakesOver(m, root);
    var installed := Apply(m, Install(root)).0;
    RunKeepsCurrent(installed, before);
    RetainsTheInstalled(m, root, before, resource, request);
    var s := Run(installed, before);
    var retain := Retain(resource, request);
    ApplyInv(s, retain);
    OnlyInstallMovesCurrent(s, retain);
    var (kept, reply) := Apply(s, retain);
    if reply.Reference? && reply.id in kept.refs {
      RunKeepsCurrent(kept, between);
      ActivatedIsInvoked(kept, between, reply.id, settled, ifRevision, resource, root);
    }
  }

  lemma ActivatedIsInvoked(kept: Ledger, between: seq<Op>, id: Id, settled: bool, ifRevision: nat, resource: string,
    root: Root)
    requires Inv(kept) && id in kept.refs && kept.refs[id] == Retained(resource, root.generation)
    requires kept.current == root.generation && NoInstall(between)
    requires root.generation in kept.roots && kept.roots[root.generation] == root
    ensures var (after, done) := Apply(Run(kept, between), Activate(id, settled, ifRevision));
      Inv(after) && (done == Done ==>
        && Selected(after, resource) == Some(root.generation)
        && Apply(after, Invoke(resource)).1
           == if root.hookAccepted then Generation(root.generation) else Refused(HookRoot))
  {
    hide Inv, DoRetain, DoActivate, DoInvoke, DoInstall, Selected;
    RunKeepsCurrent(kept, between);
    var s, activate := Run(kept, between), Activate(id, settled, ifRevision);
    var (after, done) := Apply(s, activate);
    ApplyInv(s, activate);
    OnlyInstallMovesCurrent(s, activate);
    if done == Done {
      SwitchSelects(s, activate);
      RunKeepsLive(kept, between, id);
      InvokeAnswers(after, resource);
    }
  }

  // -------------------------------------------------------------- retaining

  /** A live reference holds the resource at the current generation. */
  predicate HasCurrent(m: Ledger, resource: string) {
    exists i :: i in m.refs && m.refs[i] == Retained(resource, m.current)
  }

  /** When a retain is refused, and why. */
  lemma RetainRefusedIff(m: Ledger, resource: string, request: string)
    requires Inv(m)
    ensures var reply := Apply(m, Retain(resource, request)).1;
      && (reply == Refused(RequestConflict)
          <==> request in m.requests && m.requests[request].0 != Retained(resource, m.current))
      && (reply == Refused(ReferenceCap)
          <==> request !in m.requests
               && (|m.requests| >= 4096 || (|m.refs| >= 256 && !HasCurrent(m, resource))))
      && (reply.Reference? || reply == Refused(RequestConflict) || reply == Refused(ReferenceCap))
  {
    hide Inv, HolderOf;
  }

  /** An answered retain remembers its request, keeps all others, and adds at most the reference it answers. */
  lemma RetainRemembers(m: Ledger, resource: string, request: string)
    requires Inv(m) && Apply(m, Retain(resource, request)).1.Reference?
    ensures var (after, reply) := Apply(m, Retain(resource, request));
      && after.requests == m.requests[request := (Retained(resource, m.current), reply.id)]
      && after.active == m.active && after.rollback == m.rollback && after.terminal == m.terminal
      && (if request in m.requests || HasCurrent(m, resource) then after.refs == m.refs
         && after.revisions == m.revisions
          else reply.id !in m.refs && reply.id !in m.terminal
               && after.refs == m.refs[reply.id := Retained(resource, m.current)]
               && after.revisions == m.revisions[reply.id := 1])
  {
    hide Inv, HolderOf;
    Lookups(m);
    if request in m.requests { assert m.requests[request := m.requests[request]] == m.requests; }
  }

  /** So the same request again is answered the same and changes nothing. */
  lemma RetainTwice(m: Ledger, resource: string, request: string)
    requires Inv(m) && Apply(m, Retain(resource, request)).1.Reference?
    ensures var (after, reply) := Apply(m, Retain(resource, request));
      Inv(after) && Apply(after, Retain(resource, request)) == (after, reply)
  {
    hide Inv, Held, HolderOf, HeldLedger, NewLedger;
    ApplyInv(m, Retain(resource, request));
    RetainRemembers(m, resource, request);
    RetainKeepsCurrent(m, resource, request);
    RetainRefusedIff(Apply(m, Retain(resource, request)).0, resource, request);
  }

  // ----------------------------------------------- activating and releasing

  /** An activation moves the reference and the one it replaces. */
  function Moves(m: Ledger, reference: Id, i: Id): nat
    requires reference in m.refs
  {
    if i == reference || Get(m.active, m.refs[reference].resource) == Some(i) then 1 else 0
  }

  /** When an activation goes through, and the whole of what it changes. */
  lemma ActivatesIff(m: Ledger, reference: Id, settled: bool, ifRevision: nat)
    requires Inv(m)
    ensures var (after, reply) := Apply(m, Activate(reference, settled, ifRevision));
      && (reply == Done <==> settled && reference in m.refs && Get(m.revisions, reference) == Some(ifRevision))
      && (reply != Done ==> reply == Refused(if settled
         && reference in m.refs then RevisionConflict else SettingsUnconfirmed))
      && (reply == Done ==>
            && (forall r :: r != m.refs[reference].resource ==> Get(after.active, r) == Get(m.active, r))
            && after.revisions.Keys == m.revisions.Keys
            && (forall i :: i in m.revisions ==> after.revisions[i] == m.revisions[i] + Moves(m, reference, i))
            && after.refs == m.refs && after.roots == m.roots && after.current == m.current
            && after.requests == m.requests && after.terminal == m.terminal)
  {
    hide Inv;
    Lookups(m);
  }

  /** A restore goes through exactly when the reference waits for rollback and could be activated. */
  lemma RestoresIff(m: Ledger, reference: Id, settled: bool, ifRevision: nat)
    requires Inv(m)
    ensures var restored := Apply(m, RestoreRollback(reference, settled, ifRevision));
      restored == if reference in m.rollback then Apply(m, Activate(reference, settled, ifRevision))
                  else (m, Refused(RollbackMissing))
  {}

  predicate IsActiveReference(m: Ledger, reference: Id) { exists r :: r in m.active && m.active[r] == reference }

  /** When a release goes through, and what it takes away. */
  lemma ReleasesIff(m: Ledger, reference: Id, settled: bool, ifRevision: nat)
    requires Inv(m)
    ensures var (after, reply) := Apply(m, Release(reference, settled, ifRevision));
      && (reply == Done
          <==> settled && !IsActiveReference(m, reference)
               && Some(ifRevision) == if reference in m.terminal then Get(m.releaseRevisions, reference)
                                      else Get(m.revisions, reference))
      && (reply != Done ==>
            reply == Refused(if settled && !IsActiveReference(m, reference) then RevisionConflict
              else SettingsUnconfirmed))
      && (reply == Done && reference in m.terminal ==> after == m)
      && (reply == Done && reference !in m.terminal ==>
            && reference in m.refs && after.refs == m.refs - {reference} && after.terminal == m.terminal + {reference}
            && after.rollback == m.rollback - {reference}
            && Get(after.releaseRevisions, reference) == Some(ifRevision)
            && Get(after.revisions, reference) == Some(ifRevision + 1)
            && (forall i :: i != reference ==> Get(after.revisions, i) == Get(m.revisions, i))
            && after.active == m.active && after.roots == m.roots && after.current == m.current)
  {
    hide Inv;
    Lookups(m);
    RollbackIsLive(m);
    assert IsActiveReference(m, reference) <==> reference in m.active.Values;
    if reference in m.terminal { assert m.rollback - {reference} == m.rollback; }
  }

  lemma RollbackIsLive(m: Ledger)
    requires Inv(m)
    ensures m.rollback <= m.refs.Keys
  {}

  // -------------------------------------------------------------- collecting

  /** A collection keeps a stored root exactly when it is current or some live reference stands for it. */
  lemma GcKeepsExactlyTheUsed(m: Ledger)
    requires Inv(m)
    ensures var (after, reply) := Apply(m, Gc);
      && reply == Done && after.current == m.current && SameReferences(m, after)
      && forall g :: Get(after.roots, g) ==
           if g == m.current || exists i :: i in m.refs && m.refs[i].generation == g then Get(m.roots, g) else None
  {
    hide Inv;
    forall g
      ensures g in LiveGenerations(m) <==> g == m.current || exists i :: i in m.refs && m.refs[i].generation == g
    {}
  }

  /** The list is every id that was ever handed out. */
  lemma ListIsEverything(m: Ledger)
    requires Inv(m)
    ensures Apply(m, ListAll) == (m, References(Issued(m.serial)))
  {
    hide RefsUnique, ActiveLive, RollbackApart, RootsStored, RequestsRemembered;
  }
}
