/** What trust actions achieve, said of the records before and after and of what later actions answer. */
module TrustEffects {
  import opened Wrappers
  import opened WorkspaceTrust

  // ------------------------------------------------------- what is admitted

  /** The action names supported environments and its ledger and transactions can be read. */
  predicate Opens(s: State, a: Action) {
    && (var named := match a.environments case None => [a.environment] case Some(list) => list;
        named != [] && forall e :: e in named ==> e in {"claude_code", "codex_cli", "muse", "opencode", "pi"})
    && (a.ledger == LedgerOk || (a.ledger == LedgerAbsent && s.records == [])) && a.transactionReadOk
  }

  /** The path can be granted: exact, not the home directory, not through a link. */
  predicate PathFits(checks: Checks, path: Option<string>, home: string, symlink: bool) {
    path.Some? && checks.exact(path.value) && path.value != home && !symlink
  }

  /** A path that is absent can still be removed. */
  predicate RemoveAdmitted(checks: Checks, s: State, a: Action) {
    Opens(s, a) && PathFits(checks, a.path, a.home, a.symlink) && a.pathRead != Unreadable
  }

  predicate NewAdmitted(checks: Checks, s: State, a: Action) {
    Opens(s, a) && a.pathRead == Readable
    && if a.op == Bind then PathFits(checks, a.sourcePath, a.home, a.symlink) && a.kind in {Directory, File}
       else PathFits(checks, a.path, a.home, a.symlink) && a.kind == Directory
  }

  /** Where the environments or the ledger are not in order, nothing changes and nothing is authorized. */
  lemma UnopenedIsRefused(checks: Checks, s: State, a: Action)
    requires !Opens(s, a)
    ensures Step(checks, s, a).Some? && Step(checks, s, a).value.0 == s && !Step(checks, s, a).value.1.authorized
    ensures Step(checks, s, a).value.1.diagnostic
         == Some(if Supported(a) then UnreadableLedger else EnvironmentUnsupported)
  {
    SupportedIs(a);
  }

  /** What is wrong with a path, where the action may remove one that is absent and bind one that is a file. */
  ghost predicate PathRefused(checks: Checks, a: Action, d: Diagnostic) {
    var path := if a.op == Bind then a.sourcePath else a.path;
    match d
    case PathInvalid => path.None? || !checks.exact(path.value) || path.value == a.home
    case Symlinked => PathFits(checks, path, a.home, false) && a.symlink
    case PathMissing => PathFits(checks, path, a.home, a.symlink) && a.pathRead == Absent && a.op != Remove
    case UnreadableLedger => PathFits(checks, path, a.home, a.symlink) && a.pathRead == Unreadable
    case PathKindWrong =>
      PathFits(checks, path, a.home, a.symlink) && a.pathRead == Readable && a.op != Remove
      && a.kind != Directory && !(a.op == Bind && a.kind == File)
    case _ => false
  }

  /** An action that names a path is refused on its account, with that diagnostic, before anything else is looked at. */
  lemma PathRefusals(checks: Checks, s: State, a: Action, d: Diagnostic)
    requires a.op in {Remove, Resolve, Repair, Update, Add, Launch, Bind} && Opens(s, a) && PathRefused(checks, a, d)
    ensures Step(checks, s, a) == Some((s, Observe(s, Some(d), false, None)))
  {
    hide Admit, PathRefused, Observe, Supported, Discover;
    SupportedIs(a);
    PathRefusedIsAdmitted(checks, a, d);
  }

  lemma PathRefusedIsAdmitted(checks: Checks, a: Action, d: Diagnostic)
    requires PathRefused(checks, a, d)
    ensures Admit(checks, if a.op == Bind then a.sourcePath else a.path, a.home, a.symlink, a.pathRead, a.kind,
                  a.op == Remove, a.op == Bind) == Some(d)
  {}

  /** A resolve gets to its records exactly when its path is a directory that can be granted. */
  lemma ReachedIff(checks: Checks, s: State, a: Action)
    ensures Reached(checks, s, a)
       <==> Opens(s, a) && PathFits(checks, a.path, a.home, a.symlink) && a.pathRead == Readable && a.kind == Directory
  {
    SupportedIs(a);
  }

  /** A resolve that does not, or finds no identity, changes nothing. */
  lemma ResolveRefused(checks: Checks, s: State, a: Action)
    requires a.op in {Resolve, Repair, Update} && !(Reached(checks, s, a) && Discover(checks, a.repository).Ok?)
    ensures Step(checks, s, a).Some? && Step(checks, s, a).value.0 == s
    ensures Step(checks, s, a).value.1.diagnostic.Some? && !Step(checks, s, a).value.1.authorized
  {
    hide Admit, Discover, Supported, GrantsOf;
  }

  /** A removal is refused exactly when its path or its ledger is not in order, and then changes nothing. */
  lemma RemoveRefused(checks: Checks, s: State, a: Action)
    requires a.op == Remove && !RemoveAdmitted(checks, s, a)
    ensures Step(checks, s, a).Some? && Step(checks, s, a).value.0 == s && Step(checks, s, a).value.1.diagnostic.Some?
  {
    SupportedIs(a);
  }

  lemma SupportedIs(a: Action)
    ensures Supported(a) <==>
      var named := match a.environments case None => [a.environment] case Some(list) => list;
      named != [] && forall e :: e in named ==> e in {"claude_code", "codex_cli", "muse", "opencode", "pi"}
  {
    assert forall e :: e in ENVIRONMENTS <==> e in {"claude_code", "codex_cli", "muse", "opencode", "pi"};
  }

  // ------------------------------------------------------------ repositories

  /** The remote that identifies a repository: origin, else the only one, else none. */
  predicate IsPrimary(remotes: map<string, string>, remote: Option<string>) {
    if "origin" in remotes then remote == Some(remotes["origin"])
    else if |remotes| == 1 then remote.Some? && exists name :: name in remotes && remotes[name] == remote.value
    else remote.None?
  }

  /** Forty or sixty-four lower-case hexadecimal digits. */
  predicate HexCommit(text: string) {
    |text| in {40, 64} && forall i :: 0 <= i < |text| ==> '0' <= text[i] <= '9' || 'a' <= text[i] <= 'f'
  }

  predicate Establishes(checks: Checks, f: Facts) {
    && f.readOk && f.historyComplete && |f.roots| == 1 && HexCommit(f.roots[0])
    && f.root.Some? && checks.exact(f.root.value) && (|f.remotes| <= 1 || "origin" in f.remotes)
    && checks.remoteSafe(PrimaryRemote(f.remotes))
  }

  /** Facts give an identity exactly when they establish one, and then it is root, primary remote and root commit. */
  lemma DiscoveredIs(checks: Checks, f: Facts)
    ensures IsPrimary(f.remotes, PrimaryRemote(f.remotes))
    ensures Discover(checks, None) == Ok(None)
    ensures Discover(checks, Some(f)).Ok? <==> Establishes(checks, f)
    ensures Establishes(checks, f) ==>
      Discover(checks, Some(f)) == Ok(Some(Identity(f.root.value, PrimaryRemote(f.remotes), f.roots[0])))
  {}

  /** Two readings of a repository give one identity exactly when root, root commit and primary remote agree. */
  lemma SameIdentityIff(checks: Checks, f: Facts, g: Facts)
    requires Establishes(checks, f) && Establishes(checks, g)
    ensures Discover(checks, Some(f)) == Discover(checks, Some(g))
       <==> f.root == g.root && f.roots == g.roots && PrimaryRemote(f.remotes) == PrimaryRemote(g.remotes)
  {
    assert f.roots == [f.roots[0]] && g.roots == [g.roots[0]];
  }

  // ---------------------------------------------------------------- removing

  /** The record is closed: revoked now, with its past kept, and as it was if it was revoked already. */
  predicate Closed(before: Record, after: Record) {
    && after == before.(state := after.state, history := after.history) && after.state.status == Revoked
    && if before.state.status == Revoked then after == before else after.history == before.history + [before.state]
  }

  predicate At(r: Record, environment: string, path: string) { r.environment == environment && r.path == path }

  /** An admitted removal closes every record of its environment at its path and leaves every other as it is. */
  lemma RemoveRevokes(checks: Checks, s: State, a: Action)
    requires a.op == Remove && RemoveAdmitted(checks, s, a)
    ensures Step(checks, s, a).Some?
    ensures var (after, shown) := Step(checks, s, a).value;
      && |after.records| == |s.records|
      && (forall i :: 0 <= i < |s.records| ==>
            if At(s.records[i], a.environment, a.path.value) then Closed(s.records[i], after.records[i])
            else after.records[i] == s.records[i])
      && after.bindings == s.bindings && after.transactions == s.transactions
      && after.pendingCleanup == (s.pendingCleanup || a.cleanup == CleanupUnreadable)
      && !shown.authorized && (shown.diagnostic.None? <==> a.cleanup != CleanupUnreadable)
  {
    hide Admit, Supported, Observe, PathFits, TransitionWhere;
    RemoveIsAdmitted(checks, s, a);
    RemoveCloses(s, a);
    RemoveShows(s, a);
  }

  lemma RemoveIsAdmitted(checks: Checks, s: State, a: Action)
    requires a.op == Remove && RemoveAdmitted(checks, s, a)
    ensures a.path.Some? && Step(checks, s, a) == DoRemove(s, a)
  {
    hide DoRemove, Observe;
    SupportedIs(a);
  }

  lemma RemoveCloses(s: State, a: Action)
    requires a.path.Some?
    ensures var after := DoRemove(s, a).value.0;
      && |after.records| == |s.records|
      && forall i :: 0 <= i < |s.records| ==>
           if At(s.records[i], a.environment, a.path.value) then Closed(s.records[i], after.records[i])
           else after.records[i] == s.records[i]
  {
    hide Observe;
  }

  lemma RemoveShows(s: State, a: Action)
    ensures var (after, shown) := DoRemove(s, a).value;
      && after.bindings == s.bindings && after.transactions == s.transactions
      && after.pendingCleanup == (s.pendingCleanup || a.cleanup == CleanupUnreadable)
      && !shown.authorized && (shown.diagnostic.None? <==> a.cleanup != CleanupUnreadable)
  {
    hide TransitionWhere, GrantsOf;
  }

  /** No record of the environment at the path is active. */
  predicate Untrusting(s: State, environment: string, path: string) {
    forall i :: 0 <= i < |s.records| && At(s.records[i], environment, path) ==> s.records[i].state.status != Active
  }

  /** The action may record consent of the environment at the path: its own path, or the root it binds. */
  predicate MayGrant(a: Action, environment: string, path: string) {
    && environment in Environments(a)
    && ((a.op in {Add, Launch} && a.path == Some(path))
        || (a.op == Bind && a.repository.Some? && a.repository.value.root == Some(path)))
  }

  lemma AppendedAre(checks: Checks, s: State, a: Action, r: Record)
    requires a.op in {Add, Launch, Bind} && AdmitNew(checks, a).Ok? && (a.op != Bind ==> a.path.Some?)
    requires r in NewRecords(a, AdmitNew(checks, a).value, ENVIRONMENTS)
    ensures MayGrant(a, r.environment, r.path)
  {
    NewAreNamed(a, AdmitNew(checks, a).value, ENVIRONMENTS, r);
  }

  lemma {:induction false} NewAreNamed(a: Action, identity: Option<Identity>, environments: seq<string>, r: Record)
    requires a.op == Bind ==> identity.Some? && a.sourcePath.Some?
    requires a.op != Bind ==> a.path.Some?
    requires r in NewRecords(a, identity, environments)
    ensures r.environment in Environments(a) && r.environment in environments
      && r == NewRecord(a, identity, r.environment)
  {
    if environments[0] !in Environments(a) || r != NewRecord(a, identity, environments[0]) {
      NewAreNamed(a, identity, environments[1..], r);
    }
  }

  /** Where there is no consent, only an action that may grant it brings any. */
  lemma OnlyGrantsBringTrust(checks: Checks, s: State, a: Action, environment: string, path: string)
    requires Untrusting(s, environment, path) && !MayGrant(a, environment, path) && Step(checks, s, a).Some?
    ensures Untrusting(Step(checks, s, a).value.0, environment, path)
  {
    hide Supported, Discover, Admit, AdmitNew, GrantsOf, NewRecords, MayGrant, WithoutBinding;
    var after := Step(checks, s, a).value.0;
    if a.op in {Add, Launch, Bind} && after != s {
      AdmittedHasPath(checks, a);
      forall i | 0 <= i < |after.records| && At(after.records[i], environment, path)
        ensures after.records[i].state.status != Active
      {
        if i >= |s.records| { AppendedAre(checks, s, a, after.records[i]); }
      }
    }
  }

  lemma AdmittedHasPath(checks: Checks, a: Action)
    ensures AdmitNew(checks, a).Ok? && a.op != Bind ==> a.path.Some?
  {}

  lemma {:induction false} RunBringsNoTrust(checks: Checks, s: State, actions: seq<Action>, environment: string,
    path: string)
    requires Untrusting(s, environment, path) && Run(checks, s, actions).Some?
    requires forall i :: 0 <= i < |actions| ==> !MayGrant(actions[i], environment, path)
    ensures Untrusting(Run(checks, s, actions).value, environment, path)
  {
    hide Step, Untrusting, MayGrant;
    if actions != [] {
      var front := actions[..|actions| - 1];
      RunBringsNoTrust(checks, s, front, environment, path);
      OnlyGrantsBringTrust(checks, Run(checks, s, front).value, actions[|actions| - 1], environment, path);
    }
  }

  /** The state after an action, which an unknown operation leaves as it was. */
  function After(checks: Checks, s: State, a: Action): State {
    match Step(checks, s, a) case None => s case Some(outcome) => outcome.0
  }

  predicate Authorized(checks: Checks, s: State, a: Action) {
    match Step(checks, s, a) case None => false case Some(outcome) => outcome.1.authorized
  }

  /** After a removal no resolve at the path is authorized until something grants consent there again. */
  lemma RemovedStaysUntrusted(checks: Checks, s: State, a: Action, path: string, actions: seq<Action>, resolve: Action)
    requires a.op == Remove && RemoveAdmitted(checks, s, a) && a.path == Some(path)
    requires Run(checks, After(checks, s, a), actions).Some?
    requires forall i :: 0 <= i < |actions| ==> !MayGrant(actions[i], a.environment, path)
    requires resolve.op in {Resolve, Repair, Update}
    requires resolve.environment == a.environment && resolve.path == Some(path)
    ensures !Authorized(checks, Run(checks, After(checks, s, a), actions).value, resolve)
  {
    hide Step, MayGrant, RemoveAdmitted, Untrusting, Run;
    RemovedIsUntrusting(checks, s, a);
    RunBringsNoTrust(checks, After(checks, s, a), actions, a.environment, path);
    UntrustedIsNotAuthorized(checks, Run(checks, After(checks, s, a), actions).value, resolve);
  }

  lemma RemovedIsUntrusting(checks: Checks, s: State, a: Action)
    requires a.op == Remove && RemoveAdmitted(checks, s, a)
    ensures a.path.Some? && Untrusting(After(checks, s, a), a.environment, a.path.value)
  {
    hide Step, Opens;
    RemoveRevokes(checks, s, a);
  }

  lemma UntrustedIsNotAuthorized(checks: Checks, s: State, resolve: Action)
    requires resolve.op in {Resolve, Repair, Update} && resolve.path.Some?
    requires Untrusting(s, resolve.environment, resolve.path.value)
    ensures !Authorized(checks, s, resolve)
  {
    hide Discover, Reached, Admit, Supported, GrantsOf;
    AuthorizedIffUnchangedConsent(checks, s, resolve);
  }

  // ---------------------------------------------------------------- granting

  /** The checks on the repository and the commit that stand before a new record. */
  predicate Recordable(checks: Checks, a: Action) {
    && Discover(checks, a.repository).Ok? && a.commitOk
    && (a.op == Launch ==> a.selectionOk)
    && (a.op == Add ==> a.reason.Some? && !checks.blank(a.reason.value))
    && (a.op == Bind ==>
          && a.repository.Some? && PathFits(checks, a.repository.value.root, a.home, a.repository.value.symlink)
          && a.repository.value.pathRead == Readable && a.repository.value.kind == Directory)
    && (a.repository.Some? && a.repository.value.root.Some? ==>
          var path := if a.op == Bind then a.sourcePath else a.path;
          path.Some? && checks.within(path.value, a.repository.value.root.value))
  }

  lemma RecordableIff(checks: Checks, a: Action)
    requires a.op in {Add, Launch, Bind} && (if a.op == Bind then a.sourcePath else a.path).Some?
    ensures AdmitNew(checks, a).Ok? <==> Recordable(checks, a)
    ensures AdmitNew(checks, a).Ok? ==> AdmitNew(checks, a) == Discover(checks, a.repository)
  {
    hide IsCommit, PrimaryRemote;
  }

  /** An addition, a launch or a bind is accepted exactly when its path and its facts are in order. */
  lemma NewAcceptedIff(checks: Checks, s: State, a: Action)
    requires a.op in {Add, Launch, Bind}
    ensures Step(checks, s, a).Some?
    ensures Step(checks, s, a).value.1.diagnostic.None? <==> NewAdmitted(checks, s, a) && Recordable(checks, a)
  {
    hide Discover, AdmitNew, Recordable, Supported, GrantsOf;
    SupportedIs(a);
    if NewAdmitted(checks, s, a) { RecordableIff(checks, a); }
  }

  /** The path a new record stands at. */
  function GrantPath(a: Action): Option<string> {
    if a.op != Bind then a.path else if a.repository.Some? then a.repository.value.root else None
  }

  /** An active record of the action's consent in one environment. */
  predicate Grant(checks: Checks, a: Action, r: Record) {
    && Some(r.path) == GrantPath(a) && r.state.status == Active && r.history == []
    && r.time == r.state.time == TIME && (a.reason.Some? ==> r.reason == a.reason.value)
    && Ok(r.repository) == Discover(checks, a.repository)
    && r.event == (match a.op case Add => ExplicitGrant case Launch => ImplicitLaunch case _ => ImplicitBind)
    && if a.op == Bind then
         r.grantId == a.bindingId + ":" + r.environment && a.sourcePath.Some?
         && r.binding == Some(Binding(a.bindingId, a.profile, a.trigger, a.sourcePath.value))
       else r.grantId == a.grantId && r.binding == None
  }

  lemma {:induction false} NewForEach(a: Action, identity: Option<Identity>, environments: seq<string>, e: string)
    requires a.op == Bind ==> identity.Some? && a.sourcePath.Some?
    requires a.op != Bind ==> a.path.Some?
    requires e in environments && e in Environments(a)
    ensures NewRecord(a, identity, e) in NewRecords(a, identity, environments)
  {
    if environments[0] != e { NewForEach(a, identity, environments[1..], e); }
  }

  lemma {:induction false} NewOnce(a: Action, identity: Option<Identity>, environments: seq<string>)
    requires a.op == Bind ==> identity.Some? && a.sourcePath.Some?
    requires a.op != Bind ==> a.path.Some?
    requires forall i, j :: 0 <= i < j < |environments| ==> environments[i] != environments[j]
    ensures var added := NewRecords(a, identity, environments);
      forall i, j :: 0 <= i < j < |added| ==> added[i].environment != added[j].environment
  {
    hide NewRecord;
    if environments != [] {
      var rest := NewRecords(a, identity, environments[1..]);
      NewOnce(a, identity, environments[1..]);
      NamedSo(a, identity, environments[0]);
      forall k | 0 <= k < |rest| ensures rest[k].environment != environments[0] {
        NewAreNamed(a, identity, environments[1..], rest[k]);
      }
    }
  }

  lemma NamedSo(a: Action, identity: Option<Identity>, e: string)
    requires a.op == Bind ==> identity.Some? && a.sourcePath.Some?
    requires a.op != Bind ==> a.path.Some?
    ensures NewRecord(a, identity, e).environment == e
  {}

  /** A grant that is new: not the replay of a committed transaction. */
  predicate IsNew(s: State, a: Action) {
    (if a.op == Bind then a.bindingId else a.grantId) !in s.transactions
  }

  lemma NewOutcome(checks: Checks, s: State, a: Action)
    requires a.op in {Add, Launch, Bind} && Step(checks, s, a).Some? && IsNew(s, a)
    requires Step(checks, s, a).value.1.diagnostic.None?
    ensures var identity := Discover(checks, a.repository);
      && identity.Ok? && (a.op == Bind ==> identity.value.Some? && a.sourcePath.Some?)
         && (a.op != Bind ==> a.path.Some?)
      && (a.op == Bind ==> a.repository.Some? && a.repository.value.root == Some(identity.value.value.root))
      && Step(checks, s, a).value.0.records == s.records + NewRecords(a, identity.value, ENVIRONMENTS)
  {
    hide Recordable, NewRecords, GrantsOf, IsCommit, PrimaryRemote, NewAdmitted;
    NewAcceptedIff(checks, s, a);
    PathGiven(checks, s, a);
    RecordableIff(checks, a);
  }

  lemma PathGiven(checks: Checks, s: State, a: Action)
    requires NewAdmitted(checks, s, a)
    ensures (if a.op == Bind then a.sourcePath else a.path).Some?
  {}

  /**
   * An accepted new addition, launch or bind records consent: one active record with the identity
   * found, at the path or the bound root, for each environment it names and for no other.
   */
  lemma NewGrants(checks: Checks, s: State, a: Action)
    requires a.op in {Add, Launch, Bind} && Step(checks, s, a).Some? && IsNew(s, a)
    requires Step(checks, s, a).value.1.diagnostic.None?
    ensures var after := Step(checks, s, a).value.0; var n := |s.records|;
      && s.records <= after.records
      && (forall i :: n <= i < |after.records| ==>
            Grant(checks, a, after.records[i]) && after.records[i].environment in Environments(a))
      && (forall e :: e in Environments(a) ==>
         exists i :: n <= i < |after.records| && after.records[i].environment == e)
      && (forall i, j :: n <= i < j < |after.records| ==> after.records[i].environment != after.records[j].environment)
  {
    hide Discover, Step, NewRecord, NewRecords, Environments, Grant;
    NewOutcome(checks, s, a);
    var identity := Discover(checks, a.repository).value;
    var added, after := NewRecords(a, identity, ENVIRONMENTS), Step(checks, s, a).value.0;
    forall i | |s.records| <= i < |after.records|
      ensures Grant(checks, a, after.records[i]) && after.records[i].environment in Environments(a)
    {
      NewAreNamed(a, identity, ENVIRONMENTS, after.records[i]);
      NewIsGrant(checks, a, identity, after.records[i].environment);
    }
    forall e | e in Environments(a)
      ensures exists i :: |s.records| <= i < |after.records| && after.records[i].environment == e
    {
      NamedAreSupported(checks, s, a, e);
      NewForEach(a, identity, ENVIRONMENTS, e);
      NamedSo(a, identity, e);
      var k :| 0 <= k < |added| && added[k] == NewRecord(a, identity, e);
      assert after.records[|s.records| + k] == added[k];
    }
    EnvironmentsDistinct();
    NewOnce(a, identity, ENVIRONMENTS);
  }

  lemma EnvironmentsDistinct()
    ensures forall i, j :: 0 <= i < j < |ENVIRONMENTS| ==> ENVIRONMENTS[i] != ENVIRONMENTS[j]
  {}

  lemma NamedAreSupported(checks: Checks, s: State, a: Action, e: string)
    requires Step(checks, s, a).Some? && Step(checks, s, a).value.1.diagnostic.None? && e in Environments(a)
    ensures e in ENVIRONMENTS
  {
    hide Admit, Discover, AdmitNew, GrantsOf;
  }

  lemma NewIsGrant(checks: Checks, a: Action, identity: Option<Identity>, e: string)
    requires a.op in {Add, Launch, Bind} && Discover(checks, a.repository) == Ok(identity)
    requires a.op == Bind ==>
      identity.Some? && a.sourcePath.Some? && a.repository.Some? && a.repository.value.root == Some(identity.value.root)
    requires a.op != Bind ==> a.path.Some?
    ensures Grant(checks, a, NewRecord(a, identity, e))
  {
    hide Discover;
  }

  /** And it commits its transaction, a bind with its binding installed; nothing else changes. */
  lemma NewCommits(checks: Checks, s: State, a: Action)
    requires a.op in {Add, Launch, Bind} && Step(checks, s, a).Some? && IsNew(s, a)
    requires Step(checks, s, a).value.1.diagnostic.None?
    ensures var after := Step(checks, s, a).value.0;
      && after.transactions == s.transactions + [if a.op == Bind then a.bindingId else a.grantId]
      && after.bindings == s.bindings + (if a.op == Bind then [a.bindingId] else [])
      && after.pendingCleanup == s.pendingCleanup
  {
    hide Admit, Discover, AdmitNew, NewRecords, GrantsOf, Supported;
    assert s.bindings + [] == s.bindings;
  }

  /** What was granted is authorized: a resolve in a named environment that finds the same identity. */
  lemma GrantedIsAuthorized(checks: Checks, s: State, a: Action, resolve: Action)
    requires a.op in {Add, Launch, Bind} && Step(checks, s, a).Some? && IsNew(s, a)
    requires Step(checks, s, a).value.1.diagnostic.None?
    requires resolve.op in {Resolve, Repair, Update} && resolve.environment in Environments(a)
    requires resolve.path == GrantPath(a) && Discover(checks, resolve.repository) == Discover(checks, a.repository)
    requires Reached(checks, Step(checks, s, a).value.0, resolve)
    ensures Step(checks, Step(checks, s, a).value.0, resolve).value.1.authorized
  {
    hide Step, Discover, Reached, Environments;
    NewGrants(checks, s, a);
    NewOutcome(checks, s, a);
    var after := Step(checks, s, a).value.0;
    var i :| |s.records| <= i < |after.records| && after.records[i].environment == resolve.environment;
    assert Grant(checks, a, after.records[i]);
    AuthorizedIffUnchangedConsent(checks, after, resolve);
    assert after.records[i] in after.records && Consenting(after.records[i], resolve);
  }

  // ---------------------------------------------------- bindings and resolves

  lemma {:induction false} BindingsKept(bindings: seq<string>, id: string, b: string)
    ensures multiset(WithoutBinding(bindings, id))[b] == if b == id then 0 else multiset(bindings)[b]
  {
    if bindings != [] {
      BindingsKept(bindings[1..], id, b);
      assert bindings == [bindings[0]] + bindings[1..];
    }
  }

  predicate CarriesBinding(r: Record, id: string) { r.binding.Some? && r.binding.value.id == id }

  /** Removing a binding takes out that binding and closes exactly its records. */
  lemma BindingRemoveRevokes(checks: Checks, s: State, a: Action)
    requires a.op == BindingRemove && Opens(s, a)
    ensures Step(checks, s, a).Some?
    ensures var (after, shown) := Step(checks, s, a).value;
      && (shown.diagnostic.None? <==> a.commitOk) && (!a.commitOk ==> after == s)
      && (a.commitOk ==>
            && |after.records| == |s.records|
            && (forall i :: 0 <= i < |s.records| ==>
                  if CarriesBinding(s.records[i], a.bindingId) then Closed(s.records[i], after.records[i])
                  else after.records[i] == s.records[i])
            && (forall b :: multiset(after.bindings)[b] == if b == a.bindingId then 0 else multiset(s.bindings)[b])
            && after.transactions == s.transactions && after.pendingCleanup == s.pendingCleanup)
  {
    hide GrantsOf, WithoutBinding;
    SupportedIs(a);
    forall b ensures multiset(WithoutBinding(s.bindings, a.bindingId))[b]
      == if b == a.bindingId then 0 else multiset(s.bindings)[b]
    {
      BindingsKept(s.bindings, a.bindingId, b);
    }
  }

  /** The record lapsed: it was active, and its past is kept. */
  predicate LapsedFrom(before: Record, after: Record) {
    && after == before.(state := after.state, history := after.history) && before.state.status == Active
    && after.state.status == Lapsed && after.history == before.history + [before.state]
  }

  /** A resolve lapses exactly the consent given to another identity, and says which of the three cases it is. */
  lemma ResolveLapses(checks: Checks, s: State, a: Action)
    requires a.op in {Resolve, Repair, Update} && Reached(checks, s, a) && Discover(checks, a.repository).Ok?
    ensures var (after, shown) := Step(checks, s, a).value; var found := Discover(checks, a.repository).value;
      && |after.records| == |s.records|
      && (forall i :: 0 <= i < |s.records| ==>
            if At(s.records[i], a.environment, a.path.value) && s.records[i].state.status == Active
               && s.records[i].repository != found
            then LapsedFrom(s.records[i], after.records[i]) else after.records[i] == s.records[i])
      && after.bindings == s.bindings && after.transactions == s.transactions
      && shown.diagnostic == (if shown.authorized then None
                              else if after.records != s.records then Some(RepositoryChanged) else Some(Untrusted))
      && after.pendingCleanup == (s.pendingCleanup && !(a.op == Repair && a.cleanup == CleanupOk))
  {
    hide Discover, GrantsOf, Supported;
    var after := Step(checks, s, a).value.0;
    var found := Discover(checks, a.repository).value;
    forall r | r in s.records && Consenting(r, a) && r.repository != found ensures after.records != s.records {
      var i :| 0 <= i < |s.records| && s.records[i] == r;
      assert after.records[i] == Transition(r, Lapsed, "repository identity changed");
    }
  }

  /** A listing shows exactly the grants recorded in its environment, and changes nothing. */
  lemma ListShows(checks: Checks, s: State, a: Action, id: string)
    requires a.op == ListOp && Opens(s, a)
    ensures Step(checks, s, a).Some? && Step(checks, s, a).value.0 == s
    ensures var listed := Step(checks, s, a).value.1.listed;
      listed.Some? && (id in listed.value <==>
        exists r :: r in s.records && r.environment == a.environment && r.grantId == id)
  {
    SupportedIs(a);
    ShownIffChosen(s.records, r => InScope(r, a), id);
  }

  /** What is shown after a step is the ledger's: active grants, active binds, bindings and what is pending. */
  lemma ShowsTheLedger(checks: Checks, s: State, a: Action, id: string)
    requires Step(checks, s, a).Some?
    ensures var (after, shown) := Step(checks, s, a).value;
      && (id in shown.active <==> exists r :: r in after.records && r.state.status == Active && r.grantId == id)
      && (id in shown.references <==>
            exists r :: r in after.records && r.state.status == Active && r.event == ImplicitBind && r.grantId == id)
      && shown.installed == multiset(after.bindings) && shown.pendingCleanup == after.pendingCleanup
  {
    hide Step, Observe, GrantsOf;
    var (after, shown) := Step(checks, s, a).value;
    ShownIsObserved(checks, s, a);
    ObservedIs(after, shown.diagnostic, shown.authorized, shown.listed);
    ShownIffChosen(after.records, IsActive, id);
    ShownIffChosen(after.records, IsReference, id);
  }

  /** The observation of an outcome is of its state. */
  predicate Observes(outcome: Outcome) {
    outcome.Some? ==>
      var (after, shown) := outcome.value; shown == Observe(after, shown.diagnostic, shown.authorized, shown.listed)
  }

  lemma RefusalObserves(s: State, d: Diagnostic)
    ensures Observes(Refuse(s, d))
  {}

  lemma AcceptanceObserves(s: State)
    ensures Observes(Accept(s))
  {}

  lemma PairObserves(s: State, d: Option<Diagnostic>, authorized: bool, listed: Option<multiset<string>>)
    ensures Observes(Some((s, Observe(s, d, authorized, listed))))
  {}

  lemma AllObserve()
    ensures forall s, d :: Observes(Refuse(s, d))
    ensures forall s :: Observes(Accept(s))
    ensures forall s, d, authorized, listed :: Observes(Some((s, Observe(s, d, authorized, listed))))
  {
    forall s, d ensures Observes(Refuse(s, d)) { RefusalObserves(s, d); }
    forall s ensures Observes(Accept(s)) { AcceptanceObserves(s); }
    forall s, d, authorized, listed ensures Observes(Some((s, Observe(s, d, authorized, listed)))) {
      PairObserves(s, d, authorized, listed);
    }
  }

  lemma ShownIsObserved(checks: Checks, s: State, a: Action)
    ensures Observes(Step(checks, s, a))
  {
    hide Admit, Discover, AdmitNew, Supported, GrantsOf, NewRecords, WithoutBinding, TransitionWhere, Consenting;
    hide Observes, Refuse, Accept, Observe;
    AllObserve();
    assert Observes(None) by { NothingObserves(); }
  }

  lemma NothingObserves()
    ensures Observes(None)
  {}

  lemma ObservedIs(s: State, diagnostic: Option<Diagnostic>, authorized: bool, listed: Option<multiset<string>>)
    ensures var shown := Observe(s, diagnostic, authorized, listed);
      && shown.active == GrantsOf(s.records, IsActive) && shown.references == GrantsOf(s.records, IsReference)
      && shown.installed == multiset(s.bindings) && shown.pendingCleanup == s.pendingCleanup
  {}
}
