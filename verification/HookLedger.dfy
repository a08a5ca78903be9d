/** References, generations and rollback: the hook contract as a state machine and as the object that runs it. */
module HookLedger {
  import opened Wrappers

  /** A stored root; the chain checks on it are taken as two verdicts. */
  datatype Root = Root(generation: string, accepted: bool, hookAccepted: bool)

  /** A retained resource at one generation. */
  datatype Retained = Retained(resource: string, generation: string)

  /** Reference ids are the serial numbers their digests are taken from. */
  type Id = nat

  datatype Ledger = Ledger(
    roots: map<string, Root>, current: string, refs: map<Id, Retained>, requests: map<string, (Retained, Id)>,
    terminal: set<Id>, active: map<string, Id>, rollback: set<Id>, serial: nat,
    revisions: map<Id, nat>, releaseRevisions: map<Id, nat>)

  datatype Op =
    | Install(root: Root)
    | Retain(resource: string, request: string)
    | ListAll
    | Activate(reference: Id, settled: bool, ifRevision: nat)
    | Release(reference: Id, settled: bool, ifRevision: nat)
    | RestoreRollback(reference: Id, settled: bool, ifRevision: nat)
    | Gc
    | Invoke(resource: string)

  datatype Refusal =
    | HookRoot | RequestConflict | ReferenceCap | SettingsUnconfirmed | RevisionConflict
    | RollbackMissing | ReferenceMissing | RootMissing

  datatype Reply =
    | Refused(why: Refusal) | Done | Reference(id: Id) | References(ids: set<Id>) | Generation(name: string)

  const REQUEST_CAP: nat := 4096
  const REFERENCE_CAP: nat := 256

  // ------------------------------------------------------------- operations

  function Start(root: Root): Ledger {
    Ledger(map[root.generation := root], root.generation, map[], map[], {}, map[], {}, 0, map[], map[])
  }

  function DoInstall(m: Ledger, root: Root): (Ledger, Reply) {
    if !root.accepted then (m, Refused(HookRoot))
    else (m.(current := root.generation, roots := m.roots[root.generation := root]), Done)
  }

  predicate Held(m: Ledger, key: Retained) { exists i :: i in m.refs && m.refs[i] == key }

  ghost function HolderOf(m: Ledger, key: Retained): Id
    requires Held(m, key)
  {
    var i :| i in m.refs && m.refs[i] == key;
    i
  }

  /** A request that finds a held key adds itself. */
  ghost function HeldLedger(m: Ledger, key: Retained, request: string): Ledger
    requires Held(m, key)
  {
    m.(requests := m.requests[request := (key, HolderOf(m, key))])
  }

  /** A request for a new key adds the next id as well. */
  function NewLedger(m: Ledger, key: Retained, request: string): Ledger {
    var id := m.serial + 1;
    m.(serial := id, refs := m.refs[id := key], revisions := m.revisions[id := 1],
      requests := m.requests[request := (key, id)])
  }

  ghost function DoRetain(m: Ledger, resource: string, request: string): (Ledger, Reply) {
    var key := Retained(resource, m.current);
    if request in m.requests then
      if m.requests[request].0 == key then (m, Reference(m.requests[request].1)) else (m, Refused(RequestConflict))
    else if |m.requests| >= REQUEST_CAP then (m, Refused(ReferenceCap))
    else if Held(m, key) then
      (HeldLedger(m, key, request), Reference(HolderOf(m, key)))
    else if |m.refs| >= REFERENCE_CAP then (m, Refused(ReferenceCap))
    else (NewLedger(m, key, request), Reference(m.serial + 1))
  }

  function Bumped(revisions: map<Id, nat>, id: Id): map<Id, nat>
    requires id in revisions
  {
    revisions[id := revisions[id] + 1]
  }

  function DoActivate(m: Ledger, reference: Id, settled: bool, ifRevision: nat): (Ledger, Reply)
    requires Inv(m)
  {
    if !(reference in m.refs && settled) then (m, Refused(SettingsUnconfirmed))
    else if m.revisions[reference] != ifRevision then (m, Refused(RevisionConflict))
    else
      var resource := m.refs[reference].resource;
      var replaced := resource in m.active && m.active[resource] != reference;
      var rollback := (if replaced then m.rollback + {m.active[resource]} else m.rollback) - {reference};
      var revisions := if replaced then Bumped(m.revisions, m.active[resource]) else m.revisions;
      (m.(rollback := rollback, active := m.active[resource := reference], revisions := Bumped(revisions, reference)),
        Done)
  }

  function DoRelease(m: Ledger, reference: Id, settled: bool, ifRevision: nat): (Ledger, Reply)
    requires Inv(m)
  {
    if !(settled && reference !in m.active.Values) then (m, Refused(SettingsUnconfirmed))
    else if reference in m.terminal then
      if m.releaseRevisions[reference] == ifRevision then (m, Done) else (m, Refused(RevisionConflict))
    else if !(reference in m.revisions && m.revisions[reference] == ifRevision) then (m, Refused(RevisionConflict))
    else
      var rollback := m.rollback - {reference};
      if reference in m.refs then
        (m.(rollback := rollback, releaseRevisions := m.releaseRevisions[reference := ifRevision],
            terminal := m.terminal + {reference}, refs := m.refs - {reference},
              revisions := Bumped(m.revisions, reference)), Done)
      else (m.(rollback := rollback), Done)
  }

  function DoRestore(m: Ledger, reference: Id, settled: bool, ifRevision: nat): (Ledger, Reply)
    requires Inv(m)
  {
    if reference !in m.rollback then (m, Refused(RollbackMissing)) else DoActivate(m, reference, settled, ifRevision)
  }

  /** Generations that must survive collection: the current one and every referenced one. */
  function LiveGenerations(m: Ledger): set<string> {
    {m.current} + set i | i in m.refs :: m.refs[i].generation
  }

  function DoGc(m: Ledger): (Ledger, Reply) {
    (m.(roots := map g | g in m.roots && g in LiveGenerations(m) :: m.roots[g]), Done)
  }

  function DoInvoke(m: Ledger, resource: string): Reply {
    if resource !in m.active || m.active[resource] !in m.refs then Refused(ReferenceMissing)
    else
      var generation := m.refs[m.active[resource]].generation;
      if generation !in m.roots then Refused(RootMissing)
      else if !m.roots[generation].hookAccepted then Refused(HookRoot)
      else Generation(generation)
  }

  ghost function Apply(m: Ledger, op: Op): (Ledger, Reply)
    requires Inv(m)
  {
    match op
    case Install(root) => DoInstall(m, root)
    case Retain(resource, request) => DoRetain(m, resource, request)
    case ListAll => (m, References(m.refs.Keys + m.terminal))
    case Activate(reference, settled, ifRevision) => DoActivate(m, reference, settled, ifRevision)
    case Release(reference, settled, ifRevision) => DoRelease(m, reference, settled, ifRevision)
    case RestoreRollback(reference, settled, ifRevision) => DoRestore(m, reference, settled, ifRevision)
    case Gc => DoGc(m)
    case Invoke(resource) => (m, DoInvoke(m, resource))
  }

  // -------------------------------------------------------------- invariants

  /** The ids handed out so far. */
  function Issued(serial: nat): (ids: set<Id>)
    ensures forall i :: i in ids <==> 1 <= i <= serial
  {
    if serial == 0 then {} else Issued(serial - 1) + {serial}
  }

  /** Every issued id is either live or released, and exactly these carry revisions. */
  predicate IdsInOrder(refs: map<Id, Retained>, terminal: set<Id>, serial: nat, revisions: map<Id, nat>,
    releaseRevisions: map<Id, nat>) {
    && refs.Keys !! terminal && refs.Keys + terminal == Issued(serial)
    && revisions.Keys == refs.Keys + terminal
    && releaseRevisions.Keys == terminal
  }

  /** One live reference per resource and generation. */
  predicate RefsUnique(refs: map<Id, Retained>) {
    forall i, j :: i in refs && j in refs && refs[i] == refs[j] ==> i == j
  }

  /** The active reference of a resource is a live reference to that resource. */
  predicate ActiveLive(active: map<string, Id>, refs: map<Id, Retained>) {
    forall r :: r in active ==> active[r] in refs && refs[active[r]].resource == r
  }

  /** Rollback references are live and none of them is active. */
  predicate RollbackApart(rollback: set<Id>, refs: map<Id, Retained>, active: map<string, Id>) {
    rollback <= refs.Keys && forall r :: r in active ==> active[r] !in rollback
  }

  /** The current root and the root of every live reference are stored. */
  predicate RootsStored(current: string, roots: map<string, Root>, refs: map<Id, Retained>) {
    current in roots && forall i :: i in refs ==> refs[i].generation in roots
  }

  /** A remembered request names an issued reference; while it is live, the one it asked for. */
  predicate RequestsRemembered(requests: map<string, (Retained, Id)>, refs: map<Id, Retained>, terminal: set<Id>) {
    forall q :: q in requests ==>
      (requests[q].1 in refs || requests[q].1 in terminal)
        && (requests[q].1 in refs ==> refs[requests[q].1] == requests[q].0)
  }

  predicate Inv(m: Ledger) {
    && IdsInOrder(m.refs, m.terminal, m.serial, m.revisions, m.releaseRevisions)
    && RefsUnique(m.refs)
    && ActiveLive(m.active, m.refs)
    && RollbackApart(m.rollback, m.refs, m.active)
    && RootsStored(m.current, m.roots, m.refs)
    && RequestsRemembered(m.requests, m.refs, m.terminal)
  }

  predicate WithinCaps(m: Ledger) { |m.requests| <= REQUEST_CAP && |m.refs| <= REFERENCE_CAP }

  lemma GrowByOne<K, V>(m: map<K, V>, k: K, v: V)
    requires k !in m
    ensures |m[k := v]| == |m| + 1
  {
    assert m[k := v].Keys == m.Keys + {k};
    assert |m[k := v]| == |m[k := v].Keys|;
  }

  lemma RemoveKeepsCap<K, V>(m: map<K, V>, k: K)
    ensures |m - {k}| <= |m|
  {
    assert (m - {k}).Keys == m.Keys - {k};
    assert |m - {k}| == |(m - {k}).Keys| && |m| == |m.Keys|;
    if k in m { assert |m.Keys - {k}| == |m.Keys| - 1; } else { assert m.Keys - {k} == m.Keys; }
  }

  lemma NewIds(refs: map<Id, Retained>, terminal: set<Id>, serial: nat, revisions: map<Id, nat>, releases: map<Id, nat>,
    key: Retained)
    requires IdsInOrder(refs, terminal, serial, revisions, releases)
    ensures var id := serial + 1;
      id !in refs && IdsInOrder(refs[id := key], terminal, id, revisions[id := 1], releases)
  {
    var id := serial + 1;
    assert revisions[id := 1].Keys == revisions.Keys + {id} && refs[id := key].Keys == refs.Keys + {id};
  }

  lemma NewUnique(refs: map<Id, Retained>, id: Id, key: Retained)
    requires RefsUnique(refs) && id !in refs && forall i :: i in refs ==> refs[i] != key
    ensures RefsUnique(refs[id := key])
  {}

  lemma NewLeavesOthers(m: Ledger, id: Id, key: Retained)
    requires id !in m.refs && key.generation == m.current
    requires ActiveLive(m.active, m.refs) && RollbackApart(m.rollback, m.refs, m.active)
      && RootsStored(m.current, m.roots, m.refs)
    ensures ActiveLive(m.active, m.refs[id := key]) && RollbackApart(m.rollback, m.refs[id := key], m.active)
    ensures RootsStored(m.current, m.roots, m.refs[id := key])
  {}

  lemma NewRequest(requests: map<string, (Retained, Id)>, refs: map<Id, Retained>, terminal: set<Id>, q: string,
    key: Retained, id: Id)
    requires RequestsRemembered(requests, refs, terminal) && id in refs && refs[id] == key
    ensures RequestsRemembered(requests[q := (key, id)], refs, terminal)
  {}

  lemma NewKeepsRequests(requests: map<string, (Retained, Id)>, refs: map<Id, Retained>, terminal: set<Id>,
    key: Retained, id: Id)
    requires RequestsRemembered(requests, refs, terminal) && id !in refs && id !in terminal
    ensures RequestsRemembered(requests, refs[id := key], terminal)
  {}

  lemma HeldLedgerInv(m: Ledger, key: Retained, request: string)
    requires Inv(m) && Held(m, key)
    ensures Inv(HeldLedger(m, key, request))
  {
    hide IdsInOrder, RefsUnique, ActiveLive, RollbackApart, RootsStored, RequestsRemembered;
    NewRequest(m.requests, m.refs, m.terminal, request, key, HolderOf(m, key));
  }

  lemma NewLedgerInv(m: Ledger, key: Retained, request: string)
    requires Inv(m) && !Held(m, key) && key.generation == m.current
    ensures Inv(NewLedger(m, key, request))
  {
    hide IdsInOrder, RefsUnique, ActiveLive, RollbackApart, RootsStored, RequestsRemembered;
    var id := m.serial + 1;
    FreshId(m);
    NewIds(m.refs, m.terminal, m.serial, m.revisions, m.releaseRevisions, key);
    NewUnique(m.refs, id, key);
    NewLeavesOthers(m, id, key);
    NewKeepsRequests(m.requests, m.refs, m.terminal, key, id);
    NewRequest(m.requests, m.refs[id := key], m.terminal, request, key, id);
  }

  lemma RetainCases(m: Ledger, resource: string, request: string)
    ensures var key := Retained(resource, m.current); var after := DoRetain(m, resource, request).0;
      after == m || (Held(m, key) && after == HeldLedger(m, key, request))
        || (!Held(m, key) && after == NewLedger(m, key, request))
  {}

  lemma RetainInv(m: Ledger, resource: string, request: string)
    requires Inv(m)
    ensures Inv(DoRetain(m, resource, request).0)
  {
    hide Inv, DoRetain, HeldLedger, NewLedger;
    var key := Retained(resource, m.current);
    RetainCases(m, resource, request);
    if Held(m, key) { HeldLedgerInv(m, key, request); } else { NewLedgerInv(m, key, request); }
  }

  lemma FreshId(m: Ledger)
    requires Inv(m)
    ensures m.serial + 1 !in m.refs && m.serial + 1 !in m.terminal
  {}

  lemma GoneIds(refs: map<Id, Retained>, terminal: set<Id>, serial: nat, revisions: map<Id, nat>,
    releases: map<Id, nat>, id: Id, ifRevision: nat)
    requires IdsInOrder(refs, terminal, serial, revisions, releases) && id in refs
    ensures id in revisions
    ensures IdsInOrder(refs - {id}, terminal + {id}, serial, Bumped(revisions, id), releases[id := ifRevision])
  {
    assert Bumped(revisions, id).Keys == revisions.Keys;
    assert releases[id := ifRevision].Keys == releases.Keys + {id};
    assert (refs - {id}).Keys == refs.Keys - {id};
  }

  lemma GoneLeavesOthers(m: Ledger, id: Id)
    requires id !in m.active.Values
    requires RefsUnique(m.refs) && ActiveLive(m.active, m.refs) && RollbackApart(m.rollback, m.refs, m.active)
    requires RootsStored(m.current, m.roots, m.refs)
    ensures RefsUnique(m.refs - {id}) && RollbackApart(m.rollback - {id}, m.refs - {id}, m.active)
    ensures ActiveLive(m.active, m.refs - {id}) && RootsStored(m.current, m.roots, m.refs - {id})
  {
    forall r | r in m.active ensures m.active[r] in m.active.Values {}
  }

  lemma GoneRequests(requests: map<string, (Retained, Id)>, refs: map<Id, Retained>, terminal: set<Id>, id: Id)
    requires RequestsRemembered(requests, refs, terminal)
    ensures RequestsRemembered(requests, refs - {id}, terminal + {id})
  {}

  lemma ReleasedReference(m: Ledger, id: Id, ifRevision: nat)
    requires Inv(m) && id in m.refs && id !in m.active.Values
    ensures id in m.revisions
    ensures IdsInOrder(m.refs - {id}, m.terminal + {id}, m.serial, Bumped(m.revisions, id),
      m.releaseRevisions[id := ifRevision])
    ensures RefsUnique(m.refs - {id}) && ActiveLive(m.active, m.refs - {id})
    ensures RollbackApart(m.rollback - {id}, m.refs - {id}, m.active) && RootsStored(m.current, m.roots, m.refs - {id})
    ensures RequestsRemembered(m.requests, m.refs - {id}, m.terminal + {id})
  {
    hide IdsInOrder, RefsUnique, ActiveLive, RollbackApart, RootsStored, RequestsRemembered;
    GoneIds(m.refs, m.terminal, m.serial, m.revisions, m.releaseRevisions, id, ifRevision);
    GoneLeavesOthers(m, id);
    GoneRequests(m.requests, m.refs, m.terminal, id);
  }

  lemma ReleaseInv(m: Ledger, reference: Id, settled: bool, ifRevision: nat)
    requires Inv(m)
    ensures Inv(DoRelease(m, reference, settled, ifRevision).0)
  {
    if reference in m.refs && reference !in m.active.Values {
      ReleasedReference(m, reference, ifRevision);
      hide IdsInOrder, RefsUnique, ActiveLive, RollbackApart, RootsStored, RequestsRemembered;
      assert reference in m.terminal || Inv(DoRelease(m, reference, settled, ifRevision).0);
    } else {
      assert m.revisions.Keys == m.refs.Keys + m.terminal;
      hide RefsUnique, ActiveLive, RootsStored, RequestsRemembered;
    }
  }

  lemma ActivatedReference(m: Ledger, id: Id)
    requires Inv(m) && id in m.refs
    ensures var resource := m.refs[id].resource;
      var replaced := resource in m.active && m.active[resource] != id;
      var rollback := (if replaced then m.rollback + {m.active[resource]} else m.rollback) - {id};
      ActiveLive(m.active[resource := id], m.refs) && RollbackApart(rollback, m.refs, m.active[resource := id])
  {
    hide IdsInOrder, RefsUnique, RootsStored, RequestsRemembered;
  }

  lemma ActivatedRevisions(m: Ledger, id: Id, replaced: Option<Id>)
    requires Inv(m) && id in m.refs && (replaced.Some? ==> replaced.value in m.refs)
    ensures id in m.revisions && (replaced.Some? ==> replaced.value in m.revisions)
    ensures var revisions := if replaced.Some? then Bumped(m.revisions, replaced.value) else m.revisions;
      IdsInOrder(m.refs, m.terminal, m.serial, Bumped(revisions, id), m.releaseRevisions)
  {
    var revisions := if replaced.Some? then Bumped(m.revisions, replaced.value) else m.revisions;
    assert revisions.Keys == m.revisions.Keys && Bumped(revisions, id).Keys == m.revisions.Keys;
  }

  lemma ActivateInv(m: Ledger, reference: Id, settled: bool, ifRevision: nat)
    requires Inv(m)
    ensures Inv(DoActivate(m, reference, settled, ifRevision).0)
  {
    hide IdsInOrder, RefsUnique, ActiveLive, RollbackApart, RootsStored, RequestsRemembered;
    if reference in m.refs && settled {
      var resource := m.refs[reference].resource;
      var replaced := resource in m.active && m.active[resource] != reference;
      Lookups(m);
      ActivatedReference(m, reference);
      ActivatedRevisions(m, reference, if replaced then Some(m.active[resource]) else None);
      assert Inv(DoActivate(m, reference, settled, ifRevision).0);
    }
  }

  lemma GcInv(m: Ledger)
    requires Inv(m)
    ensures Inv(DoGc(m).0)
    ensures forall g :: g in DoGc(m).0.roots <==> g in m.roots && g in LiveGenerations(m)
  {
    forall i | i in m.refs ensures m.refs[i].generation in LiveGenerations(m) {}
    hide IdsInOrder, RefsUnique, ActiveLive, RollbackApart, RequestsRemembered;
  }

  lemma InstallInv(m: Ledger, root: Root)
    requires Inv(m)
    ensures Inv(DoInstall(m, root).0)
  {
    hide IdsInOrder, RefsUnique, ActiveLive, RollbackApart, RequestsRemembered;
  }

  /** Every operation keeps the invariants, and a refused one changes nothing. */
  lemma ApplyInv(m: Ledger, op: Op)
    requires Inv(m)
    ensures Inv(Apply(m, op).0)
    ensures Apply(m, op).1.Refused? ==> Apply(m, op).0 == m
  {
    hide Inv, Held, LiveGenerations;
    match op
    case Retain(resource, request) => RetainInv(m, resource, request);
    case Activate(reference, settled, ifRevision) => ActivateInv(m, reference, settled, ifRevision);
    case RestoreRollback(reference, settled, ifRevision) => ActivateInv(m, reference, settled, ifRevision);
    case Release(reference, settled, ifRevision) => ReleaseInv(m, reference, settled, ifRevision);
    case Install(root) => InstallInv(m, root);
    case Gc => GcInv(m);
    case ListAll =>
    case Invoke(_) =>
  }

  lemma RetainKeepsCaps(m: Ledger, resource: string, request: string)
    requires Inv(m) && WithinCaps(m)
    ensures WithinCaps(DoRetain(m, resource, request).0)
  {
    hide Inv, Held;
    var key := Retained(resource, m.current);
    FreshId(m);
    if request !in m.requests {
      GrowByOne(m.requests, request, (key, if Held(m, key) then HolderOf(m, key) else m.serial + 1));
      GrowByOne(m.refs, m.serial + 1, key);
    }
  }

  lemma ReleaseKeepsCaps(m: Ledger, reference: Id, settled: bool, ifRevision: nat)
    requires Inv(m) && WithinCaps(m)
    ensures WithinCaps(DoRelease(m, reference, settled, ifRevision).0)
  {
    hide Inv;
    RemoveKeepsCap(m.refs, reference);
  }

  /** No operation takes the ledger beyond its caps. */
  lemma ApplyKeepsCaps(m: Ledger, op: Op)
    requires Inv(m) && WithinCaps(m)
    ensures WithinCaps(Apply(m, op).0)
  {
    hide Inv, DoRetain, DoRelease, LiveGenerations;
    match op
    case Retain(resource, request) => RetainKeepsCaps(m, resource, request);
    case Release(reference, settled, ifRevision) => ReleaseKeepsCaps(m, reference, settled, ifRevision);
    case _ =>
  }

  // -------------------------------------------------------------------- runs

  ghost function Run(m: Ledger, ops: seq<Op>): (after: Ledger)
    requires Inv(m)
    ensures Inv(after)
  {
    if ops == [] then m
    else
      ApplyInv(Run(m, ops[..|ops| - 1]), ops[|ops| - 1]);
      Apply(Run(m, ops[..|ops| - 1]), ops[|ops| - 1]).0
  }

  /** The generation an invocation of the resource selects. */
  function Selected(m: Ledger, resource: string): Option<string>
    requires Inv(m)
  {
    if resource in m.active then Some(m.refs[m.active[resource]].generation) else None
  }

  /** The operation may put another reference in charge of the resource. */
  predicate Switches(m: Ledger, op: Op, resource: string) {
    (op.Activate? || op.RestoreRollback?) && op.reference in m.refs && m.refs[op.reference].resource == resource
  }

  /** The parts of the invariants that say which lookups succeed. */
  lemma Lookups(m: Ledger)
    requires Inv(m)
    ensures forall i :: i in m.refs ==> i in m.revisions && i !in m.terminal && m.refs[i].generation in m.roots
    ensures forall i :: i in m.terminal ==> i in m.releaseRevisions && i in m.revisions
    ensures forall i :: i in m.revisions ==> i in m.refs || i in m.terminal
    ensures forall r :: r in m.active ==>
      m.active[r] in m.refs && m.refs[m.active[r]].resource == r && m.active[r] in m.active.Values
    ensures m.serial + 1 !in m.refs && m.serial + 1 !in m.terminal
    ensures m.current in m.roots
  {
    hide RefsUnique, RequestsRemembered;
  }

  lemma ReleaseKeepsSelection(m: Ledger, reference: Id, settled: bool, ifRevision: nat, resource: string)
    requires Inv(m) && Inv(DoRelease(m, reference, settled, ifRevision).0)
    ensures Selected(DoRelease(m, reference, settled, ifRevision).0, resource) == Selected(m, resource)
  {
    hide Inv;
    Lookups(m);
  }

  lemma ActivateKeepsOthers(m: Ledger, reference: Id, settled: bool, ifRevision: nat, resource: string)
    requires Inv(m) && Inv(DoActivate(m, reference, settled, ifRevision).0)
    requires !(reference in m.refs && m.refs[reference].resource == resource)
    ensures Selected(DoActivate(m, reference, settled, ifRevision).0, resource) == Selected(m, resource)
  {
    hide Inv;
    Lookups(m);
  }

  lemma RetainKeepsSelection(m: Ledger, wanted: string, request: string, resource: string)
    requires Inv(m) && Inv(DoRetain(m, wanted, request).0)
    ensures Selected(DoRetain(m, wanted, request).0, resource) == Selected(m, resource)
  {
    hide Inv, Held, HolderOf;
    Lookups(m);
  }

  /** Only switching a resource changes what it selects, and what it selects is always stored. */
  lemma SelectionIsHeld(m: Ledger, op: Op, resource: string)
    requires Inv(m)
    ensures Inv(Apply(m, op).0)
    ensures !Switches(m, op, resource) ==> Selected(Apply(m, op).0, resource) == Selected(m, resource)
    ensures Selected(m, resource).Some? ==> Selected(m, resource).value in m.roots
  {
    hide Inv, DoRetain, DoActivate, DoRelease, LiveGenerations;
    ApplyInv(m, op);
    Lookups(m);
    match op
    case Retain(wanted, request) => RetainKeepsSelection(m, wanted, request, resource);
    case Activate(reference, settled, ifRevision) =>
      if !Switches(m, op, resource) { ActivateKeepsOthers(m, reference, settled, ifRevision, resource); }
    case RestoreRollback(reference, settled, ifRevision) =>
      if !Switches(m, op, resource) && reference in m.rollback {
        ActivateKeepsOthers(m, reference, settled, ifRevision, resource);
      }
    case Release(reference, settled, ifRevision) => ReleaseKeepsSelection(m, reference, settled, ifRevision, resource);
    case _ =>
  }

  /** A switch that succeeds selects the reference's generation and keeps the replaced reference for rollback. */
  lemma SwitchSelects(m: Ledger, op: Op)
    requires Inv(m) && (op.Activate? || op.RestoreRollback?) && Apply(m, op).1 == Done
    ensures Inv(Apply(m, op).0) && op.reference in m.refs
    ensures var after := Apply(m, op).0; var resource := m.refs[op.reference].resource;
      && resource in after.active && after.active[resource] == op.reference && after.refs == m.refs
      && Selected(after, resource) == Some(m.refs[op.reference].generation)
      && after.rollback == m.rollback + (if resource in m.active then {m.active[resource]} else {}) - {op.reference}
  {
    hide Inv, DoRetain, DoRelease, LiveGenerations;
    ApplyInv(m, op);
    Lookups(m);
  }

  /** Restoring the reference an activation replaced brings every selection back. */
  lemma RestoreUndoesActivate(m: Ledger, reference: Id, ifRevision: nat, restore: Op)
    requires Inv(m) && Apply(m, Activate(reference, true, ifRevision)).1 == Done
    requires restore.RestoreRollback? && reference in m.refs && m.refs[reference].resource in m.active
    requires restore.reference == m.active[m.refs[reference].resource] && restore.reference != reference
      && restore.settled
    requires restore.reference in m.revisions && restore.ifRevision == m.revisions[restore.reference] + 1
    ensures var during := Apply(m, Activate(reference, true, ifRevision)).0;
      && Inv(during) && Apply(during, restore).1 == Done
      && Apply(during, restore).0.active == m.active && reference in Apply(during, restore).0.rollback
  {
    hide Inv, DoRetain, DoRelease, LiveGenerations;
    var activate := Activate(reference, true, ifRevision);
    SwitchSelects(m, activate);
    Lookups(m);
    var during := Apply(m, activate).0;
    Lookups(during);
    assert m.active[m.refs[reference].resource := reference][m.refs[reference].resource := restore.reference]
      == m.active;
  }

  /** An invocation answers with the selected generation, or refuses the stored root; it never misses. */
  lemma InvokeAnswers(m: Ledger, resource: string)
    requires Inv(m)
    ensures DoInvoke(m, resource) ==
      match Selected(m, resource)
      case None => Refused(ReferenceMissing)
      case Some(g) => if g in m.roots && m.roots[g].hookAccepted then Generation(g) else Refused(HookRoot)
  {}

  /** Over any run without a switch of the resource, an invocation selects the generation it selected before. */
  lemma {:induction false} RunKeepsSelection(m: Ledger, ops: seq<Op>, resource: string)
    requires Inv(m)
    requires forall i :: 0 <= i < |ops| ==> !Switches(Run(m, ops[..i]), ops[i], resource)
    ensures Selected(Run(m, ops), resource) == Selected(m, resource)
    ensures Selected(m, resource).Some? ==> Selected(m, resource).value in Run(m, ops).roots
  {
    hide Inv, Switches, Selected, Apply;
    if ops == [] {
      SelectionIsHeld(m, Gc, resource);
    } else {
      var front := ops[..|ops| - 1];
      forall i | 0 <= i < |front| ensures !Switches(Run(m, front[..i]), front[i], resource) {
        assert front[..i] == ops[..i];
      }
      RunKeepsSelection(m, front, resource);
      SelectionIsHeld(Run(m, front), ops[|ops| - 1], resource);
      SelectionIsHeld(Run(m, ops), Gc, resource);
    }
  }

  /** Released ids stay released, whatever follows. */
  lemma {:induction false} ReleasedStaysReleased(m: Ledger, ops: seq<Op>, id: Id)
    requires Inv(m) && id in m.terminal
    ensures var after := Run(m, ops);
      id in after.terminal && id !in after.refs && id !in after.active.Values && id !in after.rollback
  {
    hide Inv, Apply;
    if ops != [] {
      ReleasedStaysReleased(m, ops[..|ops| - 1], id);
      ReleasedStep(Run(m, ops[..|ops| - 1]), ops[|ops| - 1], id);
    }
    ReleasedIsDead(Run(m, ops), id);
  }

  /** A retain is answered with a live reference exactly when its request was not remembered for a released one. */
  lemma RetainAnswersLive(m: Ledger, resource: string, request: string)
    requires Inv(m) && DoRetain(m, resource, request).1.Reference?
    ensures var (after, reply) := DoRetain(m, resource, request);
      reply.id in after.refs <==> !(request in m.requests && m.requests[request].1 in m.terminal)
    ensures var (after, reply) := DoRetain(m, resource, request);
      reply.id in after.refs ==> after.refs[reply.id] == Retained(resource, m.current)
  {
    hide Inv, Held, HolderOf;
    if request in m.requests {
      RememberedRequest(m, request);
    } else if Held(m, Retained(resource, m.current)) {
      Holder(m, Retained(resource, m.current));
    }
  }

  lemma RememberedRequest(m: Ledger, request: string)
    requires Inv(m) && request in m.requests
    ensures var (key, id) := m.requests[request];
      (id in m.refs <==> id !in m.terminal) && (id in m.refs ==> m.refs[id] == key)
  {
    hide RefsUnique, ActiveLive, RollbackApart, RootsStored;
  }

  lemma Holder(m: Ledger, key: Retained)
    requires Held(m, key)
    ensures HolderOf(m, key) in m.refs && m.refs[HolderOf(m, key)] == key
  {}

  /** Retain, release and retain again with the same request: the answer is the released reference. */
  lemma RetainCanAnswerReleased(root: Root, resource: string, request: string)
    ensures var first := DoRetain(Start(root), resource, request);
      && Inv(first.0) && first.1 == Reference(1)
      && var released := DoRelease(first.0, 1, true, 1);
         && released.1 == Done
         && DoRetain(released.0, resource, request) == (released.0, Reference(1))
         && 1 !in released.0.refs && 1 in released.0.terminal
  {
    assert Issued(0) == {};
    assert Inv(Start(root));
    RetainInv(Start(root), resource, request);
  }

  lemma ReleasedStep(m: Ledger, op: Op, id: Id)
    requires Inv(m) && id in m.terminal
    ensures id in Apply(m, op).0.terminal
  {
    hide Inv, Held, LiveGenerations;
  }

  lemma ReleasedIsDead(m: Ledger, id: Id)
    requires Inv(m) && id in m.terminal
    ensures id !in m.refs && id !in m.active.Values && id !in m.rollback
  {
    hide RefsUnique, RootsStored, RequestsRemembered;
  }

  /** The operation moves the reference on under the revision it names. */
  predicate MovesUnder(m: Ledger, op: Op, id: Id, revision: nat)
    requires Inv(m)
  {
    && (op.Activate? || op.RestoreRollback? || (op.Release? && id !in m.terminal))
    && op.reference == id && op.ifRevision == revision
  }

  predicate RevisionPassed(m: Ledger, id: Id, revision: nat) { id in m.revisions && m.revisions[id] > revision }

  lemma RevisionsOnlyGrow(m: Ledger, op: Op, id: Id, revision: nat)
    requires Inv(m) && RevisionPassed(m, id, revision)
    ensures RevisionPassed(Apply(m, op).0, id, revision)
    ensures MovesUnder(m, op, id, revision) ==> Apply(m, op).1.Refused?
  {
    hide Inv, DoRetain, DoActivate, DoRelease, LiveGenerations, RevisionPassed;
    match op
    case Retain(wanted, request) => RetainGrows(m, wanted, request, id, revision);
    case Activate(reference, settled, ifRevision) => ActivateGrows(m, reference, settled, ifRevision, id, revision);
    case RestoreRollback(reference, settled, ifRevision) => ActivateGrows(m, reference, settled, ifRevision, id,
      revision);
    case Release(reference, settled, ifRevision) => ReleaseGrows(m, reference, settled, ifRevision, id, revision);
    case _ => SameRevisions(m, Apply(m, op).0, id, revision);
  }

  lemma SameRevisions(m: Ledger, after: Ledger, id: Id, revision: nat)
    requires after.revisions == m.revisions && RevisionPassed(m, id, revision)
    ensures RevisionPassed(after, id, revision)
  {}

  lemma RetainGrows(m: Ledger, wanted: string, request: string, id: Id, revision: nat)
    requires Inv(m) && RevisionPassed(m, id, revision)
    ensures RevisionPassed(DoRetain(m, wanted, request).0, id, revision)
  {
    hide Inv, Held, HolderOf;
    Lookups(m);
  }

  lemma ReleaseGrows(m: Ledger, reference: Id, settled: bool, ifRevision: nat, id: Id, revision: nat)
    requires Inv(m) && RevisionPassed(m, id, revision)
    ensures RevisionPassed(DoRelease(m, reference, settled, ifRevision).0, id, revision)
    ensures reference == id && id !in m.terminal && ifRevision == revision ==>
      DoRelease(m, reference, settled, ifRevision).1.Refused?
  {
    hide Inv;
    Lookups(m);
  }

  lemma ActivateGrows(m: Ledger, reference: Id, settled: bool, ifRevision: nat, id: Id, revision: nat)
    requires Inv(m) && RevisionPassed(m, id, revision)
    ensures RevisionPassed(DoActivate(m, reference, settled, ifRevision).0, id, revision)
    ensures reference == id && ifRevision == revision ==> DoActivate(m, reference, settled, ifRevision).1.Refused?
  {
    hide Inv;
    Lookups(m);
  }

  /** Compare-and-set: a revision that moved a reference once never moves it again. */
  lemma {:induction false} RevisionsMoveOnce(m: Ledger, first: Op, ops: seq<Op>, again: Op, id: Id, revision: nat)
    requires Inv(m) && MovesUnder(m, first, id, revision) && Apply(m, first).1 == Done
    requires Inv(Apply(m, first).0) && MovesUnder(Run(Apply(m, first).0, ops), again, id, revision)
    ensures Apply(Run(Apply(m, first).0, ops), again).1.Refused?
  {
    hide Inv, Apply, RevisionPassed, MovesUnder;
    MoveRaises(m, first, id, revision);
    RunKeepsPassed(Apply(m, first).0, ops, id, revision);
    RevisionsOnlyGrow(Run(Apply(m, first).0, ops), again, id, revision);
  }

  lemma MoveRaises(m: Ledger, op: Op, id: Id, revision: nat)
    requires Inv(m) && MovesUnder(m, op, id, revision) && Apply(m, op).1 == Done
    ensures RevisionPassed(Apply(m, op).0, id, revision)
  {
    hide Inv;
    Lookups(m);
    if op.Release? {
      assert !(op.reference in m.active.Values);
    }
  }

  lemma {:induction false} RunKeepsPassed(m: Ledger, ops: seq<Op>, id: Id, revision: nat)
    requires Inv(m) && RevisionPassed(m, id, revision)
    ensures RevisionPassed(Run(m, ops), id, revision)
  {
    if ops != [] {
      RunKeepsPassed(m, ops[..|ops| - 1], id, revision);
      RevisionsOnlyGrow(Run(m, ops[..|ops| - 1]), ops[|ops| - 1], id, revision);
    }
  }

  // -------------------------------------------------------------- the object

  /** The answers of a retain that stand before the live references are searched. */
  lemma RetainEarly(m: Ledger, resource: string, request: string)
    ensures request in m.requests ==>
      var answer := if m.requests[request].0 == Retained(resource, m.current) then Reference(m.requests[request].1)
        else Refused(RequestConflict);
      DoRetain(m, resource, request) == (m, answer)
    ensures request !in m.requests && |m.requests| >= REQUEST_CAP ==>
      DoRetain(m, resource, request) == (m, Refused(ReferenceCap))
  {}

  /** The answer once they have been searched. */
  lemma RetainLate(m: Ledger, resource: string, request: string, existing: Option<Id>)
    requires request !in m.requests && |m.requests| < REQUEST_CAP
    requires existing.Some? <==> Held(m, Retained(resource, m.current))
    requires existing.Some? ==> existing.value == HolderOf(m, Retained(resource, m.current))
    ensures var key := Retained(resource, m.current);
      DoRetain(m, resource, request)
      == if existing.Some? then (m.(requests := m.requests[request := (key, existing.value)]),
        Reference(existing.value))
         else if |m.refs| >= REFERENCE_CAP then (m, Refused(ReferenceCap))
         else (m.(serial := m.serial + 1, refs := m.refs[m.serial + 1 := key],
           revisions := m.revisions[m.serial + 1 := 1],
                  requests := m.requests[request := (key, m.serial + 1)]),
               Reference(m.serial + 1))
  {
    hide Held, HolderOf;
  }

  class HookModel {
    var roots: map<string, Root>
    var current: string
    var refs: map<Id, Retained>
    var requests: map<string, (Retained, Id)>
    var terminal: set<Id>
    var active: map<string, Id>
    var rollback: set<Id>
    var serial: nat
    var revisions: map<Id, nat>
    var releaseRevisions: map<Id, nat>

    ghost function Value(): Ledger
      reads this
    {
      Ledger(roots, current, refs, requests, terminal, active, rollback, serial, revisions, releaseRevisions)
    }

    constructor (root: Root)
      ensures Value() == Start(root) && Inv(Value())
    {
      roots, current := map[root.generation := root], root.generation;
      refs, requests, terminal, active, rollback, serial := map[], map[], {}, map[], {}, 0;
      revisions, releaseRevisions := map[], map[];
    }

    method Install(root: Root) returns (reply: Reply)
      requires Inv(Value())
      modifies this
      ensures (Value(), reply) == DoInstall(old(Value()), root) && Inv(Value())
    {
      if !root.accepted { return Refused(HookRoot); }
      current := root.generation;
      roots := roots[current := root];
      return Done;
    }

    /** The reference that holds a resource at a generation, by a scan over the live ones. */
    method Existing(key: Retained) returns (found: Option<Id>)
      requires Inv(Value())
      ensures found.Some? <==> Held(Value(), key)
      ensures found.Some? ==> found.value == HolderOf(Value(), key)
    {
      var rest := refs.Keys;
      while rest != {}
        invariant rest <= refs.Keys && forall i :: i in refs && i !in rest ==> refs[i] != key
        decreases |rest|
      {
        var i :| i in rest;
        rest := rest - {i};
        if refs[i] == key { return Some(i); }
      }
      return None;
    }

    method Retain(resource: string, request: string) returns (reply: Reply)
      requires Inv(Value())
      modifies this
      ensures (Value(), reply) == DoRetain(old(Value()), resource, request) && Inv(Value())
    {
      hide Inv, Held, HolderOf, DoRetain;
      ghost var before := Value();
      RetainInv(before, resource, request);
      RetainEarly(before, resource, request);
      var key := Retained(resource, current);
      if request in requests {
        if requests[request].0 != key { return Refused(RequestConflict); }
        return Reference(requests[request].1);
      }
      if |requests| >= REQUEST_CAP { return Refused(ReferenceCap); }
      var existing := Existing(key);
      RetainLate(before, resource, request, existing);
      if existing.None? && |refs| >= REFERENCE_CAP { return Refused(ReferenceCap); }
      var id: Id;
      if existing.None? { id := NewReference(key); } else { id := existing.value; }
      requests := requests[request := (key, id)];
      return Reference(id);
    }

    /** The next serial number becomes a live reference at revision 1. */
    method NewReference(key: Retained) returns (id: Id)
      modifies this
      ensures var m := old(Value());
        id == m.serial + 1 && Value() == m.(serial := id, refs := m.refs[id := key], revisions := m.revisions[id := 1])
    {
      serial := serial + 1;
      id := serial;
      refs := refs[id := key];
      revisions := revisions[id := 1];
    }

    /** No issued id is ever lost: the list is always everything handed out. */
    method List() returns (ids: set<Id>)
      requires Inv(Value())
      ensures ids == Issued(serial)
    {
      hide RefsUnique, ActiveLive, RollbackApart, RootsStored, RequestsRemembered;
      ids := refs.Keys + terminal;
    }

    method Activate(reference: Id, settled: bool, ifRevision: nat) returns (reply: Reply)
      requires Inv(Value())
      modifies this
      ensures (Value(), reply) == DoActivate(old(Value()), reference, settled, ifRevision) && Inv(Value())
    {
      hide Inv;
      ActivateInv(Value(), reference, settled, ifRevision);
      Lookups(Value());
      if !(reference in refs && settled) { return Refused(SettingsUnconfirmed); }
      if revisions[reference] != ifRevision { return Refused(RevisionConflict); }
      var resource := refs[reference].resource;
      if resource in active && active[resource] != reference {
        var previous := active[resource];
        rollback := rollback + {previous};
        revisions := revisions[previous := revisions[previous] + 1];
      }
      rollback := rollback - {reference};
      active := active[resource := reference];
      revisions := revisions[reference := revisions[reference] + 1];
      return Done;
    }

    method Release(reference: Id, settled: bool, ifRevision: nat) returns (reply: Reply)
      requires Inv(Value())
      modifies this
      ensures (Value(), reply) == DoRelease(old(Value()), reference, settled, ifRevision) && Inv(Value())
    {
      hide Inv;
      ReleaseInv(Value(), reference, settled, ifRevision);
      Lookups(Value());
      if !(settled && reference !in active.Values) { return Refused(SettingsUnconfirmed); }
      if reference in terminal {
        if releaseRevisions[reference] != ifRevision { return Refused(RevisionConflict); }
        return Done;
      }
      if !(reference in revisions && revisions[reference] == ifRevision) { return Refused(RevisionConflict); }
      rollback := rollback - {reference};
      if reference in refs {
        releaseRevisions := releaseRevisions[reference := ifRevision];
        terminal := terminal + {reference};
        refs := refs - {reference};
        revisions := revisions[reference := revisions[reference] + 1];
      }
      return Done;
    }

    method RestoreRollback(reference: Id, settled: bool, ifRevision: nat) returns (reply: Reply)
      requires Inv(Value())
      modifies this
      ensures (Value(), reply) == DoRestore(old(Value()), reference, settled, ifRevision) && Inv(Value())
    {
      hide Inv;
      if reference !in rollback { return Refused(RollbackMissing); }
      reply := Activate(reference, settled, ifRevision);
    }

    method Gc()
      requires Inv(Value())
      modifies this
      ensures Value() == DoGc(old(Value())).0 && Inv(Value())
    {
      hide Inv;
      GcInv(Value());
      var live := {current} + set i | i in refs :: refs[i].generation;
      roots := map g | g in roots && g in live :: roots[g];
    }

    /** The refusal for a missing root is never given: an active reference's root is always stored. */
    method Invoke(resource: string) returns (reply: Reply)
      requires Inv(Value())
      ensures resource !in active ==> reply == Refused(ReferenceMissing)
      ensures resource in active ==>
        && active[resource] in refs && refs[active[resource]].generation in roots
        && var root := roots[refs[active[resource]].generation];
           reply == if root.hookAccepted then Generation(refs[active[resource]].generation) else Refused(HookRoot)
      ensures reply == DoInvoke(Value(), resource)
    {
      hide Inv;
      Lookups(Value());
      if resource !in active || active[resource] !in refs { return Refused(ReferenceMissing); }
      var generation := refs[active[resource]].generation;
      if generation !in roots { return Refused(RootMissing); }
      if !roots[generation].hookAccepted { return Refused(HookRoot); }
      return Generation(generation);
    }
  }
}
