/** The trust step as it runs: it works on a copy of the state and walks its records. */
module TrustSteps {
  import opened Wrappers
  import opened WorkspaceTrust

  /** transition applied to each chosen record, one after the other. */
  method TransitionLoop(records: seq<Record>, chosen: Record -> bool, status: Status, reason: string)
    returns (after: seq<Record>)
    ensures after == TransitionWhere(records, chosen, status, reason)
  {
    after := records;
    var i := 0;
    while i < |records|
      invariant 0 <= i <= |records| == |after|
      invariant
        forall j :: 0 <= j < i
          ==> after[j] == if chosen(records[j]) then Transition(records[j], status, reason) else records[j]
      invariant forall j :: i <= j < |records| ==> after[j] == records[j]
    {
      if chosen(after[i]) { after := after[i := Transition(after[i], status, reason)]; }
      i := i + 1;
    }
  }

  method RemoveBinding(bindings: seq<string>, id: string) returns (kept: seq<string>)
    ensures kept == WithoutBinding(bindings, id)
  {
    kept := [];
    var i := 0;
    assert bindings[0..] == bindings;
    while i < |bindings|
      invariant 0 <= i <= |bindings| && WithoutBinding(bindings, id) == kept + WithoutBinding(bindings[i..], id)
    {
      assert bindings[i..][1..] == bindings[i + 1..];
      if bindings[i] != id { kept := kept + [bindings[i]]; }
      i := i + 1;
    }
  }

  /** A record of consent for each named environment among those given. */
  method AppendRecords(records: seq<Record>, a: Action, identity: Option<Identity>, environments: seq<string>)
    returns (longer: seq<Record>)
    requires a.op == Bind ==> identity.Some? && a.sourcePath.Some?
    requires a.op != Bind ==> a.path.Some?
    ensures longer == records + NewRecords(a, identity, environments)
  {
    hide NewRecord, Environments, NewRecords;
    var added: seq<Record> := [];
    var i := 0;
    assert environments[0..] == environments;
    while i < |environments|
      invariant 0 <= i <= |environments|
      invariant NewRecords(a, identity, environments) == added + NewRecords(a, identity, environments[i..])
    {
      NewRecordsFrom(a, identity, environments, i);
      var step := if environments[i] in Environments(a) then [NewRecord(a, identity, environments[i])] else [];
      JoinsLeft(added, step, NewRecords(a, identity, environments[i + 1..]));
      added := added + step;
      i := i + 1;
    }
    NewRecordsFrom(a, identity, environments, i);
    assert added + [] == added;
    longer := records + added;
  }

  lemma JoinsLeft(a: seq<Record>, b: seq<Record>, c: seq<Record>)
    ensures a + (b + c) == a + b + c
  {}

  lemma NewRecordsFrom(a: Action, identity: Option<Identity>, environments: seq<string>, i: nat)
    requires a.op == Bind ==> identity.Some? && a.sourcePath.Some?
    requires a.op != Bind ==> a.path.Some?
    requires i <= |environments|
    ensures NewRecords(a, identity, environments[i..])
         == if i == |environments| then []
            else (if environments[i] in Environments(a) then [NewRecord(a, identity, environments[i])] else [])
                 + NewRecords(a, identity, environments[i + 1..])
  {
    if i < |environments| { assert environments[i..][1..] == environments[i + 1..]; }
  }

  /** Whether some consenting record carries the identity now found, and whether some other does not. */
  method CompareIdentities(records: seq<Record>, a: Action, identity: Option<Identity>)
    returns (changed: bool, valid: bool)
    ensures changed <==> exists r :: r in records && Consenting(r, a) && r.repository != identity
    ensures valid <==> exists r :: r in records && Consenting(r, a) && r.repository == identity
  {
    changed, valid := false, false;
    for i := 0 to |records|
      invariant changed <==> exists j :: 0 <= j < i && Consenting(records[j], a) && records[j].repository != identity
      invariant valid <==> exists j :: 0 <= j < i && Consenting(records[j], a) && records[j].repository == identity
    {
      if Consenting(records[i], a) {
        if records[i].repository != identity { changed := true; } else { valid := true; }
      }
    }
  }

  method ResolveStep(checks: Checks, s: State, a: Action) returns (outcome: Outcome)
    ensures outcome == DoResolve(checks, s, a)
  {
    hide Discover, Consenting;
    var found := Discover(checks, a.repository);
    if found.Err? { return Refuse(s, found.error); }
    var identity := found.value;
    var changed, valid := CompareIdentities(s.records, a, identity);
    var records := TransitionLoop(s.records, r => Consenting(r, a) && r.repository != identity, Lapsed,
      "repository identity changed");
    var pending := s.pendingCleanup;
    if a.op == Repair && a.cleanup == CleanupOk { pending := false; }
    var diagnostic := if valid then None else if changed then Some(RepositoryChanged) else Some(Untrusted);
    var after := s.(records := records, pendingCleanup := pending);
    return Some((after, Observe(after, diagnostic, valid, None)));
  }

  method NewStep(checks: Checks, s: State, a: Action) returns (outcome: Outcome)
    requires a.op == Add || a.op == Launch || a.op == Bind
    ensures outcome == DoNew(checks, s, a)
  {
    var admitted := AdmitNew(checks, a);
    if admitted.Err? { return Refuse(s, admitted.error); }
    var transaction := TransactionOf(a);
    if transaction in s.transactions { return Accept(s); }
    var bindings := s.bindings;
    if a.op == Bind { bindings := bindings + [a.bindingId]; }
    var records := AppendRecords(s.records, a, admitted.value, ENVIRONMENTS);
    return Accept(s.(transactions := s.transactions + [transaction], bindings := bindings, records := records));
  }

  /** step: the copy of the state it returns is the specification's. */
  method Execute(checks: Checks, s: State, a: Action) returns (outcome: Outcome)
    ensures outcome == Step(checks, s, a)
  {
    hide AdmitNew, Discover, Admit, DoResolve, DoNew;
    if !Supported(a) { return Refuse(s, EnvironmentUnsupported); }
    if a.ledger == LedgerUnreadable || (a.ledger == LedgerAbsent && s.records != []) {
      return Refuse(s, UnreadableLedger);
    }
    if !a.transactionReadOk { return Refuse(s, UnreadableLedger); }
    if a.op == ListOp {
      return Some((s, Observe(s, None, false, Some(GrantsOf(s.records, r => InScope(r, a))))));
    }
    if a.op == BindingRemove {
      if !a.commitOk { return Refuse(s, BindingFailed); }
      var bindings := RemoveBinding(s.bindings, a.bindingId);
      var records := TransitionLoop(s.records, (r: Record) => r.binding.Some? && r.binding.value.id == a.bindingId,
        Revoked, "binding removed");
      return Accept(s.(bindings := bindings, records := records));
    }
    var refused := Admit(checks, if a.op == Bind then a.sourcePath else a.path, a.home, a.symlink, a.pathRead, a.kind,
      a.op == Remove, a.op == Bind);
    if refused.Some? { return Refuse(s, refused.value); }
    match a.op
    case Remove =>
      var records := TransitionLoop(s.records, r => AtPath(r, a), Revoked, "operator removed consent");
      var after := s.(records := records, pendingCleanup := s.pendingCleanup || a.cleanup == CleanupUnreadable);
      outcome := if a.cleanup == CleanupUnreadable then Refuse(after, UnreadableLedger) else Accept(after);
    case Resolve => outcome := ResolveStep(checks, s, a);
    case Repair => outcome := ResolveStep(checks, s, a);
    case Update => outcome := ResolveStep(checks, s, a);
    case Add => outcome := NewStep(checks, s, a);
    case Launch => outcome := NewStep(checks, s, a);
    case Bind => outcome := NewStep(checks, s, a);
    case _ => outcome := None;
  }
}
