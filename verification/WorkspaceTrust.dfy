/** The workspace trust ledger: one transition over declared facts, and what every sequence of them keeps. */
module WorkspaceTrust {
  import opened Wrappers

  // ------------------------------------------------------------- data model

  datatype Status = Active | Lapsed | Revoked

  datatype Standing = Standing(status: Status, time: int, reason: string)

  datatype Event = ExplicitGrant | ImplicitLaunch | ImplicitBind

  datatype Identity = Identity(root: string, primaryRemote: Option<string>, rootCommit: string)

  datatype Binding = Binding(id: string, profile: string, trigger: string, sourcePath: string)

  datatype Record = Record(
    grantId: string, environment: string, path: string, event: Event, time: int, reason: string,
    repository: Option<Identity>, binding: Option<Binding>, state: Standing, history: seq<Standing>)

  datatype State = State(records: seq<Record>, bindings: seq<string>, transactions: seq<string>, pendingCleanup: bool)

  datatype PathRead = Readable | Absent | Unreadable
  datatype PathKind = Directory | File | OtherKind
  datatype LedgerRead = LedgerOk | LedgerAbsent | LedgerUnreadable
  datatype Cleanup = NoCleanup | CleanupOk | CleanupUnreadable

  /** Declared observations of a repository. */
  datatype Facts = Facts(
    readOk: bool, historyComplete: bool, roots: seq<string>, remotes: map<string, string>, root: Option<string>,
    symlink: bool, kind: PathKind, pathRead: PathRead)

  datatype Op = ListOp | BindingRemove | Remove | Resolve | Repair | Update | Add | Launch | Bind | UnknownOp

  datatype Action = Action(
    op: Op, environment: string, environments: Option<seq<string>>, ledger: LedgerRead, transactionReadOk: bool,
      commitOk: bool,
    path: Option<string>, sourcePath: Option<string>, home: string, symlink: bool, pathRead: PathRead, kind: PathKind,
    cleanup: Cleanup, repository: Option<Facts>, selectionOk: bool, reason: Option<string>,
    grantId: string, bindingId: string, profile: string, trigger: string)

  datatype Diagnostic =
    | EnvironmentUnsupported | UnreadableLedger | BindingFailed | PathInvalid | Symlinked | PathMissing | PathKindWrong
    | RepositoryUnverifiable | RepositoryRequired | RepositoryChanged | Untrusted

  /** What a step shows of the ledger; a sorted list is given as the multiset that determines it. */
  datatype Observation = Observation(
    diagnostic: Option<Diagnostic>, authorized: bool, active: multiset<string>, references: multiset<string>,
    installed: multiset<string>, pendingCleanup: bool, listed: Option<multiset<string>>)

  /** None stands for the raised contract error of an unknown operation. */
  type Outcome = Option<(State, Observation)>

  const TIME: int := 0

  /** The supported environments, in sorted order. */
  const ENVIRONMENTS: seq<string> := ["claude_code", "codex_cli", "muse", "opencode", "pi"]

  /** The path and remote checks, taken as predicates. An exact path lies within itself. */
  datatype Checks = Checks(exact: string -> bool, within: (string, string) -> bool, remoteSafe: Option<string> -> bool,
    blank: string -> bool)

  ghost predicate Sane(checks: Checks) { forall p :: checks.exact(p) ==> checks.within(p, p) }

  // ----------------------------------------------------------------- checks

  predicate IsCommit(text: string) {
    (|text| == 40 || |text| == 64) && forall i :: 0 <= i < |text| ==> '0' <= text[i] <= '9' || 'a' <= text[i] <= 'f'
  }

  function PrimaryRemote(remotes: map<string, string>): Option<string> {
    if "origin" in remotes then Some(remotes["origin"])
    else if |remotes| == 1 then
      OnlyKey(remotes);
      var name :| name in remotes; Some(remotes[name])
    else None
  }

  lemma OnlyKey(remotes: map<string, string>)
    requires |remotes| == 1
    ensures exists name :: name in remotes
    ensures forall a, b :: a in remotes && b in remotes ==> a == b
  {
    assert |remotes.Keys| == 1;
    var name :| name in remotes.Keys;
    assert |remotes.Keys - {name}| == 0;
    assert remotes.Keys == remotes.Keys - {name} + {name} == {name};
  }

  /** The identity the facts establish: none without facts, an error when they do not determine one. */
  function Discover(checks: Checks, facts: Option<Facts>): Result<Option<Identity>, Diagnostic> {
    if facts.None? then Ok(None)
    else
      var f := facts.value;
      if !f.readOk || !f.historyComplete then Err(RepositoryUnverifiable)
      else if |f.roots| != 1 || !IsCommit(f.roots[0]) then Err(RepositoryUnverifiable)
      else if f.root.None? || !checks.exact(f.root.value)
        || (|f.remotes| > 1 && "origin" !in f.remotes) then Err(RepositoryUnverifiable)
      else if !checks.remoteSafe(PrimaryRemote(f.remotes)) then Err(RepositoryUnverifiable)
      else Ok(Some(Identity(f.root.value, PrimaryRemote(f.remotes), f.roots[0])))
  }

  /** Whether a path may be granted or removed; None admits it. */
  function Admit(checks: Checks, path: Option<string>, home: string, symlink: bool, pathRead: PathRead, kind: PathKind,
    remove: bool, source: bool): Option<Diagnostic> {
    if path.None? || !checks.exact(path.value) || path.value == home then Some(PathInvalid)
    else if symlink then Some(Symlinked)
    else if pathRead == Absent then if remove then None else Some(PathMissing)
    else if pathRead == Unreadable then Some(UnreadableLedger)
    else if remove then None
    else if !(kind == Directory || (source && kind == File)) then Some(PathKindWrong)
    else None
  }

  /** The semantic part of the record check. */
  predicate RecordOk(checks: Checks, r: Record) {
    && checks.exact(r.path)
    && (r.repository.Some? ==>
          && checks.exact(r.repository.value.root) && checks.remoteSafe(r.repository.value.primaryRemote)
          && checks.within(r.path, r.repository.value.root))
    && (r.event == ImplicitBind ==>
          && r.repository.Some? && r.binding.Some? && r.path == r.repository.value.root
          && checks.exact(r.binding.value.sourcePath)
             && checks.within(r.binding.value.sourcePath, r.repository.value.root))
    && HistoryOk(r)
  }

  function Standings(r: Record): seq<Standing> { r.history + [r.state] }

  /** Active alone, or active and then lapsed, revoked, or both in that order; times from the record's on, in order. */
  predicate HistoryOk(r: Record) {
    var ss := Standings(r);
    && StatusesOf(ss) in {[Active], [Active, Revoked], [Active, Lapsed], [Active, Lapsed, Revoked]}
    && ss[0].time == r.time
    && forall i, j :: 0 <= i < j < |ss| ==> ss[i].time <= ss[j].time
  }

  function StatusesOf(ss: seq<Standing>): seq<Status> { seq(|ss|, i requires 0 <= i < |ss| => ss[i].status) }

  // ------------------------------------------------------------ transitions

  function Transition(r: Record, status: Status, reason: string): Record {
    if r.state.status == Active || (status == Revoked && r.state.status == Lapsed)
    then r.(history := r.history + [r.state], state := Standing(status, TIME, reason))
    else r
  }

  function TransitionWhere(records: seq<Record>, chosen: Record -> bool, status: Status,
    reason: string): (after: seq<Record>)
    ensures |after| == |records|
    ensures
      forall i :: 0 <= i < |records|
        ==> after[i] == if chosen(records[i]) then Transition(records[i], status, reason) else records[i]
  {
    seq(|records|, i requires 0 <= i < |records| => if chosen(records[i]) then Transition(records[i], status, reason)
      else records[i])
  }

  predicate InScope(r: Record, a: Action) { r.environment == a.environment }

  predicate AtPath(r: Record, a: Action) { InScope(r, a) && a.path.Some? && r.path == a.path.value }

  predicate Consenting(r: Record, a: Action) { AtPath(r, a) && r.state.status == Active }

  function WithoutBinding(bindings: seq<string>, id: string): seq<string> {
    if bindings == [] then []
    else (if bindings[0] == id then [] else [bindings[0]]) + WithoutBinding(bindings[1..], id)
  }

  function Environments(a: Action): seq<string> {
    match a.environments case None => [a.environment] case Some(list) => list
  }

  predicate Supported(a: Action) {
    Environments(a) != [] && forall e :: e in Environments(a) ==> e in ENVIRONMENTS
  }

  function NewRecord(a: Action, identity: Option<Identity>, env: string): Record
    requires a.op == Bind ==> identity.Some? && a.sourcePath.Some?
    requires a.op != Bind ==> a.path.Some?
  {
    Record(
      if a.op == Bind then a.bindingId + ":" + env else a.grantId, env,
      if a.op == Bind then identity.value.root else a.path.value,
      if a.op == Add then ExplicitGrant else if a.op == Launch then ImplicitLaunch else ImplicitBind,
      TIME,
      if a.reason.Some? then a.reason.value else if a.op == Add then "add action" else if a.op == Launch
        then "launch action" else "bind action",
      identity,
      if a.op == Bind then Some(Binding(a.bindingId, a.profile, a.trigger, a.sourcePath.value)) else None,
      Standing(Active, TIME, "consent recorded"), [])
  }

  /** One record for each named environment, in sorted order. */
  function NewRecords(a: Action, identity: Option<Identity>, environments: seq<string>): (out: seq<Record>)
    requires a.op == Bind ==> identity.Some? && a.sourcePath.Some?
    requires a.op != Bind ==> a.path.Some?
    ensures forall r :: r in out ==> exists e :: e in environments && r == NewRecord(a, identity, e)
  {
    if environments == [] then []
    else (if environments[0] in Environments(a) then [NewRecord(a, identity, environments[0])] else [])
         + NewRecords(a, identity, environments[1..])
  }

  /** The grant ids of the chosen records. */
  function GrantsOf(records: seq<Record>, chosen: Record -> bool): multiset<string> {
    if records == [] then multiset{}
    else
      var last := records[|records| - 1];
      GrantsOf(records[..|records| - 1], chosen) + if chosen(last) then multiset{last.grantId} else multiset{}
  }

  predicate IsActive(r: Record) { r.state.status == Active }

  predicate IsReference(r: Record) { r.event == ImplicitBind && IsActive(r) }

  function Observe(s: State, diagnostic: Option<Diagnostic>, authorized: bool,
    listed: Option<multiset<string>>): Observation {
    Observation(diagnostic, authorized, GrantsOf(s.records, IsActive), GrantsOf(s.records, IsReference),
                multiset(s.bindings), s.pendingCleanup, listed)
  }

  function Refuse(s: State, d: Diagnostic): Outcome { Some((s, Observe(s, Some(d), false, None))) }

  function Accept(s: State): Outcome { Some((s, Observe(s, None, false, None))) }

  function DoBindingRemove(s: State, a: Action): Outcome {
    if !a.commitOk then Refuse(s, BindingFailed)
    else
      var chosen := (r: Record) => r.binding.Some? && r.binding.value.id == a.bindingId;
      Accept(s.(bindings := WithoutBinding(s.bindings, a.bindingId),
                records := TransitionWhere(s.records, chosen, Revoked, "binding removed")))
  }

  function DoRemove(s: State, a: Action): Outcome {
    var unreadable := a.cleanup == CleanupUnreadable;
    var after := s.(records := TransitionWhere(s.records, r => AtPath(r, a), Revoked, "operator removed consent"),
                    pendingCleanup := s.pendingCleanup || unreadable);
    if unreadable then Refuse(after, UnreadableLedger) else Accept(after)
  }

  function DoResolve(checks: Checks, s: State, a: Action): Outcome {
    match Discover(checks, a.repository)
    case Err(d) => Refuse(s, d)
    case Ok(identity) =>
      var changed := exists r :: r in s.records && Consenting(r, a) && r.repository != identity;
      var valid := exists r :: r in s.records && Consenting(r, a) && r.repository == identity;
      var after := s.(
        records := TransitionWhere(s.records, r => Consenting(r, a) && r.repository != identity, Lapsed,
          "repository identity changed"),
        pendingCleanup := if a.op == Repair && a.cleanup == CleanupOk then false else s.pendingCleanup);
      Some((after, Observe(after, if valid then None else if changed then Some(RepositoryChanged) else Some(Untrusted),
        valid, None)))
  }

  /** The checks that stand before a new record, in order; Ok carries the identity to record. */
  function AdmitNew(checks: Checks, a: Action): Result<Option<Identity>, Diagnostic> {
    if a.op == Launch && !a.selectionOk then Err(BindingFailed)
    else if a.op == Bind && a.repository.Some? && a.repository.value.root.None? then Err(RepositoryUnverifiable)
    else
      var grantPath := if a.op == Bind && a.repository.Some?
        then Admit(checks, a.repository.value.root, a.home, a.repository.value.symlink, a.repository.value.pathRead,
          a.repository.value.kind, false, false)
        else None;
      if grantPath.Some? then Err(grantPath.value)
      else match Discover(checks, a.repository)
        case Err(d) => Err(d)
        case Ok(identity) =>
          var checked := if a.op == Bind then a.sourcePath else a.path;
          if a.op == Bind && identity.None? then Err(RepositoryRequired)
          else if checked.None? then Err(PathInvalid)
          else if identity.Some? && !checks.within(checked.value, identity.value.root) then Err(RepositoryUnverifiable)
          else if a.op == Add && (a.reason.None? || checks.blank(a.reason.value)) then Err(PathInvalid)
          else if !a.commitOk then Err(BindingFailed)
          else Ok(identity)
  }

  function TransactionOf(a: Action): string { if a.op == Bind then a.bindingId else a.grantId }

  function DoNew(checks: Checks, s: State, a: Action): Outcome
    requires a.op == Add || a.op == Launch || a.op == Bind
  {
    match AdmitNew(checks, a)
    case Err(d) => Refuse(s, d)
    case Ok(identity) =>
      if TransactionOf(a) in s.transactions then Accept(s)
      else Accept(s.(
        transactions := s.transactions + [TransactionOf(a)],
        bindings := if a.op == Bind then s.bindings + [a.bindingId] else s.bindings,
        records := s.records + NewRecords(a, identity, ENVIRONMENTS)))
  }

  function Step(checks: Checks, s: State, a: Action): Outcome {
    if !Supported(a) then Refuse(s, EnvironmentUnsupported)
    else if a.ledger == LedgerUnreadable
      || (a.ledger == LedgerAbsent && s.records != []) then Refuse(s, UnreadableLedger)
    else if !a.transactionReadOk then Refuse(s, UnreadableLedger)
    else if a.op == ListOp then
      Some((s, Observe(s, None, false, Some(GrantsOf(s.records, r => InScope(r, a))))))
    else if a.op == BindingRemove then DoBindingRemove(s, a)
    else
      var refused := Admit(checks, if a.op == Bind then a.sourcePath else a.path, a.home, a.symlink, a.pathRead, a.kind,
        a.op == Remove, a.op == Bind);
      if refused.Some? then Refuse(s, refused.value)
      else match a.op
        case Remove => DoRemove(s, a)
        case Resolve => DoResolve(checks, s, a)
        case Repair => DoResolve(checks, s, a)
        case Update => DoResolve(checks, s, a)
        case Add => DoNew(checks, s, a)
        case Launch => DoNew(checks, s, a)
        case Bind => DoNew(checks, s, a)
        case _ => None
  }

  // ------------------------------------------------- what every step keeps

  /** The record went on: the same grant, its status unchanged or moved forward, its past kept. */
  predicate WentOn(before: Record, after: Record) {
    && after == before.(state := after.state, history := after.history)
    && Standings(before) <= Standings(after)
    && (before.state.status == Revoked ==> after.state == before.state)
    && (before.state.status == Lapsed ==> after.state.status != Active)
  }

  /** Records are only appended, and each one only goes on. */
  predicate Extends(before: State, after: State) {
    |before.records| <= |after.records| && forall i :: 0 <= i < |before.records| ==>
      WentOn(before.records[i], after.records[i])
  }

  /** Every active bind record's binding is still installed. */
  predicate BindingsInstalled(s: State) {
    forall r :: r in s.records && r.binding.Some? && r.state.status == Active ==> r.binding.value.id in s.bindings
  }

  predicate RecordsOk(checks: Checks, s: State) { forall r :: r in s.records ==> RecordOk(checks, r) }

  /** What the ledger itself adds to the record check: its own clock and forward histories. */
  predicate OwnClock(r: Record) {
    r.time == TIME && forall i :: 0 <= i < |Standings(r)| ==> Standings(r)[i].time == TIME
  }

  predicate Good(checks: Checks, s: State) {
    RecordsOk(checks, s) && BindingsInstalled(s) && forall r :: r in s.records ==> OwnClock(r)
  }

  lemma TransitionGoesOn(r: Record, status: Status, reason: string)
    requires status != Active
    ensures WentOn(r, Transition(r, status, reason))
    ensures status == Revoked ==>
      Transition(r, status, reason).state.status == Revoked || (r.state.status != Active && r.state.status != Lapsed)
  {
    var after := Transition(r, status, reason);
    assert Standings(after) == (if after == r then Standings(r) else Standings(r) + [after.state]);
  }

  lemma StatusesExtend(ss: seq<Standing>, next: Standing)
    ensures StatusesOf(ss + [next]) == StatusesOf(ss) + [next.status]
  {}

  lemma TransitionKeepsOk(checks: Checks, r: Record, status: Status, reason: string)
    requires RecordOk(checks, r) && OwnClock(r) && status != Active
    ensures RecordOk(checks, Transition(r, status, reason)) && OwnClock(Transition(r, status, reason))
  {
    var after := Transition(r, status, reason);
    if after != r {
      assert Standings(after) == Standings(r) + [after.state];
      StatusesExtend(Standings(r), after.state);
      var statuses := StatusesOf(Standings(r));
      assert statuses[|r.history|] == r.state.status && |statuses| == |r.history| + 1;
      if r.state.status == Active {
        assert statuses == [Active];
        assert statuses + [status] == [Active, status];
      } else {
        assert statuses == [Active, Lapsed];
        assert statuses + [status] == [Active, Lapsed, Revoked];
      }
      assert Standings(after)[0] == Standings(r)[0];
      assert OwnClock(after);
    }
  }

  lemma TransitionsGood(checks: Checks, s: State, records: seq<Record>, chosen: Record -> bool, status: Status,
    reason: string)
    requires Good(checks, s) && status != Active && records == TransitionWhere(s.records, chosen, status, reason)
    ensures Good(checks, s.(records := records))
    ensures forall i :: 0 <= i < |s.records| ==> WentOn(s.records[i], records[i])
  {
    forall i | 0 <= i < |records|
      ensures WentOn(s.records[i], records[i]) && RecordOk(checks, records[i]) && OwnClock(records[i])
      ensures records[i].binding == s.records[i].binding
        && (records[i].state.status == Active ==> s.records[i].state.status == Active)
    {
      assert s.records[i] in s.records;
      TransitionGoesOn(s.records[i], status, reason);
      TransitionKeepsOk(checks, s.records[i], status, reason);
      Unmoved(s.records[i]);
    }
    forall r | r in records && r.binding.Some? && r.state.status == Active ensures r.binding.value.id in s.bindings {
      var i :| 0 <= i < |records| && records[i] == r;
      assert s.records[i] in s.records;
    }
  }

  lemma Unmoved(r: Record)
    ensures WentOn(r, r)
  {}

  lemma {:induction false} WithoutBindingKeeps(bindings: seq<string>, id: string)
    ensures forall b :: b in WithoutBinding(bindings, id) <==> b in bindings && b != id
  {
    if bindings != [] { WithoutBindingKeeps(bindings[1..], id); }
  }

  lemma BindingRemoveGood(checks: Checks, s: State, a: Action)
    requires Good(checks, s) && a.commitOk
    ensures var after := DoBindingRemove(s, a).value.0; Good(checks, after) && Extends(s, after)
  {
    var after := DoBindingRemove(s, a).value.0;
    var chosen := (r: Record) => r.binding.Some? && r.binding.value.id == a.bindingId;
    TransitionsGood(checks, s, after.records, chosen, Revoked, "binding removed");
    WithoutBindingKeeps(s.bindings, a.bindingId);
    forall r | r in after.records && r.binding.Some? && r.state.status == Active
      ensures r.binding.value.id in after.bindings
    {
      var i :| 0 <= i < |after.records| && after.records[i] == r;
      TransitionGoesOn(s.records[i], Revoked, "binding removed");
    }
  }

  lemma NewRecordOk(checks: Checks, a: Action, identity: Option<Identity>, env: string)
    requires Sane(checks) && (a.op == Add || a.op == Launch || a.op == Bind)
    requires AdmitNew(checks, a) == Ok(identity)
    requires Admit(checks, if a.op == Bind then a.sourcePath else a.path, a.home, a.symlink, a.pathRead, a.kind, false,
      a.op == Bind).None?
    ensures RecordOk(checks, NewRecord(a, identity, env)) && OwnClock(NewRecord(a, identity, env))
  {
    var r := NewRecord(a, identity, env);
    assert Standings(r) == [r.state];
    assert StatusesOf(Standings(r)) == [Active];
  }

  lemma NewGood(checks: Checks, s: State, a: Action)
    requires Good(checks, s) && Sane(checks) && (a.op == Add || a.op == Launch || a.op == Bind)
    requires Admit(checks, if a.op == Bind then a.sourcePath else a.path, a.home, a.symlink, a.pathRead, a.kind, false,
      a.op == Bind).None?
    ensures var after := DoNew(checks, s, a).value.0; Good(checks, after) && Extends(s, after)
  {
    var after := DoNew(checks, s, a).value.0;
    forall i | 0 <= i < |s.records| ensures WentOn(s.records[i], after.records[i]) { Unmoved(s.records[i]); }
    if after != s {
      var identity := AdmitNew(checks, a).value;
      forall r | r in NewRecords(a, identity, ENVIRONMENTS)
        ensures RecordOk(checks, r) && OwnClock(r) && (r.binding.Some? ==> r.binding.value.id in after.bindings)
      {
        var e :| e in ENVIRONMENTS && r == NewRecord(a, identity, e);
        NewRecordOk(checks, a, identity, e);
      }
    }
  }

  /** Every step keeps the ledger good and only extends it. */
  lemma StepGood(checks: Checks, s: State, a: Action)
    requires Good(checks, s) && Sane(checks) && Step(checks, s, a).Some?
    ensures Good(checks, Step(checks, s, a).value.0)
    ensures Extends(s, Step(checks, s, a).value.0)
  {
    hide RecordOk, WentOn, OwnClock, Admit, Discover, AdmitNew, Standings;
    var after := Step(checks, s, a).value.0;
    if after == s {
      forall i | 0 <= i < |s.records| ensures WentOn(s.records[i], s.records[i]) { Unmoved(s.records[i]); }
    } else if a.op == BindingRemove {
      BindingRemoveGood(checks, s, a);
    } else if a.op == Remove {
      TransitionsGood(checks, s, after.records, r => AtPath(r, a), Revoked, "operator removed consent");
    } else if a.op == Resolve || a.op == Repair || a.op == Update {
      var identity := Discover(checks, a.repository).value;
      TransitionsGood(checks, s, after.records, r => Consenting(r, a) && r.repository != identity, Lapsed,
        "repository identity changed");
    } else {
      NewGood(checks, s, a);
    }
  }

  /** Refused additions, launches, binds and binding removals change nothing. */
  lemma RefusalsChangeNothing(checks: Checks, s: State, a: Action)
    requires Step(checks, s, a).Some? && a.op in {Add, Launch, Bind, BindingRemove}
    requires Step(checks, s, a).value.1.diagnostic.Some?
    ensures Step(checks, s, a).value.0 == s
  {
    hide Admit, Discover, AdmitNew;
  }

  /** A committed transaction replayed by an addition, launch or bind changes nothing. */
  lemma ReplayChangesNothing(checks: Checks, s: State, a: Action)
    requires Step(checks, s, a).Some? && a.op in {Add, Launch, Bind} && TransactionOf(a) in s.transactions
    ensures Step(checks, s, a).value.0 == s
  {
    hide Admit, Discover, AdmitNew;
  }

  // -------------------------------------------------------------------- runs

  /** The state after a sequence of actions; an unknown operation stops the run. */
  function Run(checks: Checks, s: State, actions: seq<Action>): Option<State> {
    if actions == [] then Some(s)
    else match Run(checks, s, actions[..|actions| - 1])
      case None => None
      case Some(before) =>
        match Step(checks, before, actions[|actions| - 1])
        case None => None
        case Some(outcome) => Some(outcome.0)
  }

  const EMPTY: State := State([], [], [], false)

  lemma WentOnComposes(a: Record, b: Record, c: Record)
    requires WentOn(a, b) && WentOn(b, c)
    ensures WentOn(a, c)
  {}

  lemma ExtendsComposes(a: State, b: State, c: State)
    requires Extends(a, b) && Extends(b, c)
    ensures Extends(a, c)
  {
    hide WentOn;
    forall i | 0 <= i < |a.records| ensures WentOn(a.records[i], c.records[i]) {
      WentOnComposes(a.records[i], b.records[i], c.records[i]);
    }
  }

  /** Every sequence of actions keeps a good ledger good and only extends it. */
  lemma {:induction false} RunGood(checks: Checks, s: State, actions: seq<Action>)
    requires Good(checks, s) && Sane(checks) && Run(checks, s, actions).Some?
    ensures Good(checks, Run(checks, s, actions).value) && Extends(s, Run(checks, s, actions).value)
  {
    hide Good, Step, Extends;
    if actions == [] {
      ExtendsItself(s);
    } else {
      var front := actions[..|actions| - 1];
      RunGood(checks, s, front);
      StepGood(checks, Run(checks, s, front).value, actions[|actions| - 1]);
      ExtendsComposes(s, Run(checks, s, front).value, Run(checks, s, actions).value);
    }
  }

  lemma ExtendsItself(s: State)
    ensures Extends(s, s)
  {
    forall i | 0 <= i < |s.records| ensures WentOn(s.records[i], s.records[i]) { Unmoved(s.records[i]); }
  }

  /** From the empty ledger, every reachable record passes the check and every active binding is installed. */
  lemma ReachableIsGood(checks: Checks, actions: seq<Action>)
    requires Sane(checks) && Run(checks, EMPTY, actions).Some?
    ensures Good(checks, Run(checks, EMPTY, actions).value)
  {
    RunGood(checks, EMPTY, actions);
  }

  lemma {:induction false} TransactionsStay(checks: Checks, s: State, actions: seq<Action>)
    requires Run(checks, s, actions).Some?
    ensures s.transactions <= Run(checks, s, actions).value.transactions
  {
    hide Admit, Discover, AdmitNew;
    if actions != [] { TransactionsStay(checks, s, actions[..|actions| - 1]); }
  }

  /** Once committed, a transaction id never changes the ledger again, whatever happened in between. */
  lemma CommittedOnce(checks: Checks, s: State, actions: seq<Action>, replay: Action)
    requires Run(checks, s, actions).Some? && TransactionOf(replay) in s.transactions
      && replay.op in {Add, Launch, Bind}
    requires Step(checks, Run(checks, s, actions).value, replay).Some?
    ensures Step(checks, Run(checks, s, actions).value, replay).value.0 == Run(checks, s, actions).value
  {
    TransactionsStay(checks, s, actions);
    ReplayChangesNothing(checks, Run(checks, s, actions).value, replay);
  }

  /** The action passes everything that stands before the repository is looked at. */
  predicate Reached(checks: Checks, s: State, a: Action) {
    && Supported(a) && a.ledger != LedgerUnreadable && (a.ledger == LedgerAbsent ==> s.records == [])
       && a.transactionReadOk
    && Admit(checks, a.path, a.home, a.symlink, a.pathRead, a.kind, false, false).None?
  }

  /**
   * Repository identity rules consent: a resolve is authorized exactly by an active record
   * at the path with the identity now found, and exactly such records consent afterwards.
   */
  lemma AuthorizedIffUnchangedConsent(checks: Checks, s: State, a: Action)
    requires a.op in {Resolve, Repair, Update}
    ensures var found := Discover(checks, a.repository);
      Step(checks, s, a).value.1.authorized
      <==> Reached(checks, s, a) && found.Ok?
           && exists r :: r in s.records && Consenting(r, a) && r.repository == found.value
    ensures Reached(checks, s, a) && Discover(checks, a.repository).Ok? ==>
      forall r :: r in Step(checks, s, a).value.0.records && Consenting(r, a)
             <==> r in s.records && Consenting(r, a) && r.repository == Discover(checks, a.repository).value
  {
    hide Admit, Discover, Supported, GrantsOf;
    if Reached(checks, s, a) && Discover(checks, a.repository).Ok? {
      var identity := Discover(checks, a.repository).value;
      var after := Step(checks, s, a).value.0;
      var chosen := (r: Record) => Consenting(r, a) && r.repository != identity;
      assert after.records == TransitionWhere(s.records, chosen, Lapsed, "repository identity changed");
      forall r | r in after.records && Consenting(r, a) ensures r in s.records && r.repository == identity {
        var j :| 0 <= j < |after.records| && after.records[j] == r;
        assert !chosen(s.records[j]);
      }
      forall r | r in s.records && Consenting(r, a) && r.repository == identity ensures r in after.records {
        var i :| 0 <= i < |s.records| && s.records[i] == r;
        assert after.records[i] == r;
      }
    }
  }

  /** An id is shown as often as chosen records carry it: it is shown exactly when one does. */
  lemma {:induction false} ShownIffChosen(records: seq<Record>, chosen: Record -> bool, id: string)
    ensures id in GrantsOf(records, chosen) <==> exists r :: r in records && chosen(r) && r.grantId == id
  {
    if records != [] {
      var front, last := records[..|records| - 1], records[|records| - 1];
      assert records == front + [last];
      ShownIffChosen(front, chosen, id);
    }
  }

  lemma {:induction false} FewerShown(records: seq<Record>, some: Record -> bool, more: Record -> bool)
    requires forall r :: some(r) ==> more(r)
    ensures GrantsOf(records, some) <= GrantsOf(records, more)
  {
    if records != [] { FewerShown(records[..|records| - 1], some, more); }
  }

  /** In a good ledger every reference shown is an active grant, and stands for a binding shown as installed. */
  lemma ReferencesAreInstalled(checks: Checks, s: State, id: string)
    requires Good(checks, s)
    ensures var shown := Observe(s, None, false, None);
      && shown.references <= shown.active
      && (id in shown.references ==>
            exists r :: r in s.records && IsReference(r) && r.grantId == id && r.binding.Some?
              && r.binding.value.id in shown.installed)
  {
    hide RecordOk;
    FewerShown(s.records, IsReference, IsActive);
    ShownIffChosen(s.records, IsReference, id);
    if id in GrantsOf(s.records, IsReference) {
      var r :| r in s.records && IsReference(r) && r.grantId == id;
      BindsCarryBindings(checks, r);
    }
  }

  lemma BindsCarryBindings(checks: Checks, r: Record)
    requires RecordOk(checks, r) && r.event == ImplicitBind
    ensures r.binding.Some?
  {}
}
