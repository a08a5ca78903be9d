/** The depth-first closure of a skill plan: what it visits, what it expects as edges, what it refuses. */
module SkillPlan {
  import opened Wrappers
  import opened Graphs

  datatype Kind = Context | Skill

  datatype Key = Key(kind: Kind, name: string)

  datatype Pin = Pin(source: string, commit: string, directory: string)

  /** What an edge repeats of a requirement: its ref, mode and narrowed commands. */
  datatype Terms = Terms(ref: string, mode: string, commands: Option<seq<string>>)

  datatype Requirement = Requirement(provider: string, pin: Pin, terms: Terms)

  datatype PlanEdge = PlanEdge(consumer: Key, provider: string, terms: Terms)

  /** The fields that identify a context, each of which a record may carry or not. */
  datatype Identity = Identity(digest: Option<string>, source: Option<string>, commit: Option<string>,
    directory: Option<string>)

  datatype Package = Package(version: Option<string>, identity: Identity, requirements: seq<Requirement>)

  datatype ContextMember = ContextMember(name: string, version: string, identity: Identity)

  datatype Plan = Plan(packages: map<Key, Package>, nodes: map<string, Pin>, contexts: seq<ContextMember>)

  // ---------------------------------------------------------- specification

  function Providers(plan: Plan, key: Key): set<Key>
    requires key in plan.packages
  {
    set r | r in plan.packages[key].requirements :: Key(Skill, r.provider)
  }

  function RequirementEdges(plan: Plan): Edges<Key> {
    map key | key in plan.packages :: Providers(plan, key)
  }

  predicate PinAgrees(plan: Plan, r: Requirement) {
    r.provider in plan.nodes && plan.nodes[r.provider] == r.pin
  }

  /** The package is missing, or a requirement's node is missing or pinned elsewhere. */
  predicate Broken(plan: Plan, key: Key) {
    key !in plan.packages || exists r :: r in plan.packages[key].requirements && !PinAgrees(plan, r)
  }

  ghost predicate OnCycle(plan: Plan, key: Key) {
    exists p :: Cycle(RequirementEdges(plan), p) && p[0] == key
  }

  /** Something reachable is broken or lies on a cycle. */
  ghost predicate Faulty(plan: Plan, key: Key) {
    exists r :: Reaches(RequirementEdges(plan), key, r) && (Broken(plan, r) || OnCycle(plan, r))
  }

  /** The edges one consumer contributes: one for each of its requirements, in order. */
  function EdgesFrom(plan: Plan, key: Key): (edges: seq<PlanEdge>)
    requires key in plan.packages
    ensures |edges| == |plan.packages[key].requirements|
  {
    var rs := plan.packages[key].requirements;
    seq(|rs|, i requires 0 <= i < |rs| => PlanEdge(key, rs[i].provider, rs[i].terms))
  }

  function EdgesOf(edges: seq<PlanEdge>, key: Key): seq<PlanEdge> {
    if edges == [] then []
    else
      var front := EdgesOf(edges[..|edges| - 1], key);
      if edges[|edges| - 1].consumer == key then front + [edges[|edges| - 1]] else front
  }

  /** Visited packages are whole: nothing broken, everything required visited too, no cycle. */
  ghost predicate Clean(plan: Plan, visited: set<Key>) {
    forall k :: k in visited
      ==> k in plan.packages && !Broken(plan, k) && Providers(plan, k) <= visited && !OnCycle(plan, k)
  }

  /** Outside the visit in progress, exactly the visited consumers have their edges. */
  ghost predicate EdgesExact(plan: Plan, visited: set<Key>, visiting: set<Key>, edges: seq<PlanEdge>) {
    forall k :: k !in visiting && (k in visited ==> k in plan.packages) ==>
      EdgesOf(edges, k) == if k in visited then EdgesFrom(plan, k) else []
  }

  // ------------------------------------------------------------------ lemmas

  lemma EdgesOfAppend(edges: seq<PlanEdge>, e: PlanEdge, key: Key)
    ensures EdgesOf(edges + [e], key) == if e.consumer == key then EdgesOf(edges, key) + [e] else EdgesOf(edges, key)
  {
    assert (edges + [e])[..|edges|] == edges;
  }

  lemma ReachesThroughFirst(plan: Plan, a: Key, b: Key, c: Key)
    requires Edge(RequirementEdges(plan), a, b) && Reaches(RequirementEdges(plan), b, c)
    ensures Reaches(RequirementEdges(plan), a, c)
  {
    var g := RequirementEdges(plan);
    var p :| WalkFrom(g, p, b, c);
    assert Walk(g, [a]);
    WalkJoin(g, [a], p);
    assert WalkFrom(g, [a] + p, a, c);
  }

  lemma FaultTravels(plan: Plan, a: Key, b: Key)
    requires Edge(RequirementEdges(plan), a, b) && Faulty(plan, b)
    ensures Faulty(plan, a)
  {
    var r :| Reaches(RequirementEdges(plan), b, r) && (Broken(plan, r) || OnCycle(plan, r));
    ReachesThroughFirst(plan, a, b, r);
  }

  lemma OwnFault(plan: Plan, key: Key)
    requires Broken(plan, key) || OnCycle(plan, key)
    ensures Faulty(plan, key)
  {
    ReachesItself(RequirementEdges(plan), key);
  }

  /** A clean set keeps everything reachable from its members. */
  lemma CleanHoldsReach(plan: Plan, visited: set<Key>, a: Key, r: Key)
    requires Clean(plan, visited) && a in visited && Reaches(RequirementEdges(plan), a, r)
    ensures r in visited
  {
    var g := RequirementEdges(plan);
    var p :| WalkFrom(g, p, a, r);
    ClosedHoldsWalk(g, visited, p);
  }

  lemma CleanIsFaultless(plan: Plan, visited: set<Key>, a: Key)
    requires Clean(plan, visited) && a in visited
    ensures !Faulty(plan, a)
  {
    forall r | Reaches(RequirementEdges(plan), a, r) ensures !Broken(plan, r) && !OnCycle(plan, r) {
      CleanHoldsReach(plan, visited, a, r);
    }
  }

  /** A package whose providers are all in a clean set without it joins that set cleanly. */
  lemma JoinsCleanly(plan: Plan, visited: set<Key>, key: Key)
    requires Clean(plan, visited) && key !in visited && !Broken(plan, key) && Providers(plan, key) <= visited
    ensures Clean(plan, visited + {key})
  {
    var g := RequirementEdges(plan);
    forall p | Cycle(g, p) ensures p[0] != key {
      assert Edge(g, p[0], p[0 + 1]);
      if p[0] == key {
        var rest := p[1..|p|];
        assert rest[0] == p[1] && rest[|rest| - 1] == p[|p| - 1];
        WalkSlice(g, p, 1, |p|);
        ClosedHoldsWalk(g, visited, rest);
      }
    }
  }

  lemma EdgesExactAppend(plan: Plan, visited: set<Key>, visiting: set<Key>, edges: seq<PlanEdge>, e: PlanEdge)
    requires EdgesExact(plan, visited, visiting, edges) && e.consumer in visiting
    ensures EdgesExact(plan, visited, visiting, edges + [e])
    ensures
      forall k :: EdgesOf(edges + [e], k) == if k == e.consumer then EdgesOf(edges, k) + [e] else EdgesOf(edges, k)
  {
    hide EdgesOf;
    forall k ensures EdgesOf(edges + [e], k) == if k == e.consumer then EdgesOf(edges, k) + [e] else EdgesOf(edges, k) {
      EdgesOfAppend(edges, e, k);
    }
  }

  lemma EdgesExactEnter(plan: Plan, visited: set<Key>, visiting: set<Key>, edges: seq<PlanEdge>, key: Key)
    requires EdgesExact(plan, visited, visiting, edges) && key !in visiting && key !in visited
    ensures EdgesExact(plan, visited, visiting + {key}, edges) && EdgesOf(edges, key) == []
  {}

  lemma EdgesExactLeave(plan: Plan, visited: set<Key>, visiting: set<Key>, edges: seq<PlanEdge>, key: Key)
    requires EdgesExact(plan, visited, visiting, edges) && key in plan.packages
      && EdgesOf(edges, key) == EdgesFrom(plan, key)
    ensures EdgesExact(plan, visited + {key}, visiting - {key}, edges)
  {}

  /** What a clean set reaches from one of its members is in it. */
  lemma CleanReach(plan: Plan, visited: set<Key>, a: Key)
    requires Clean(plan, visited) && a in visited
    ensures forall r :: Reaches(RequirementEdges(plan), a, r) ==> r in visited
    ensures !Faulty(plan, a)
  {
    forall r | Reaches(RequirementEdges(plan), a, r) ensures r in visited { CleanHoldsReach(plan, visited, a, r); }
    CleanIsFaultless(plan, visited, a);
  }

  lemma Requires(plan: Plan, key: Key, i: nat)
    requires key in plan.packages && i < |plan.packages[key].requirements|
    ensures Edge(RequirementEdges(plan), key, Key(Skill, plan.packages[key].requirements[i].provider))
    ensures !PinAgrees(plan, plan.packages[key].requirements[i]) ==> Broken(plan, key)
  {
    assert plan.packages[key].requirements[i] in plan.packages[key].requirements;
  }

  lemma ProviderReached(plan: Plan, provider: Key)
    ensures Reaches(RequirementEdges(plan), provider, provider)
  {
    ReachesItself(RequirementEdges(plan), provider);
  }

  lemma AllAgree(plan: Plan, visited: set<Key>, key: Key)
    requires key in plan.packages
    requires forall j :: 0 <= j < |plan.packages[key].requirements| ==>
      PinAgrees(plan, plan.packages[key].requirements[j])
        && Key(Skill, plan.packages[key].requirements[j].provider) in visited
    ensures !Broken(plan, key) && Providers(plan, key) <= visited
  {}

  // -------------------------------------------------------------- the walker

  /** The state plan_error's nested visit works on. */
  class Walker {
    const plan: Plan
    var visited: set<Key>
    var visiting: set<Key>
    var edges: seq<PlanEdge>

    constructor (plan: Plan)
      ensures this.plan == plan && visited == {} && visiting == {} && edges == []
    {
      this.plan := plan;
      visited, visiting, edges := {}, {}, [];
    }

    ghost predicate Valid()
      reads this
    {
      && Clean(plan, visited) && visited !! visiting && visiting <= plan.packages.Keys
      && EdgesExact(plan, visited, visiting, edges)
    }

    /** The packages being visited lie on one walk that arrives at the key. */
    ghost predicate Arrives(stack: seq<Key>, key: Key)
      reads this
    {
      && Elements(stack) == visiting
      && (stack != [] ==> Walk(RequirementEdges(plan), stack) && Edge(RequirementEdges(plan), stack[|stack| - 1], key))
    }

    method Visit(key: Key, ghost stack: seq<Key>) returns (ok: bool)
      requires Valid() && Arrives(stack, key)
      modifies this
      ensures ok <==> !Faulty(plan, key)
      ensures ok ==> Valid() && visiting == old(visiting)
      ensures ok ==> forall r :: r in visited <==> r in old(visited) || Reaches(RequirementEdges(plan), key, r)
      ensures ok ==> forall k :: k in visiting ==> EdgesOf(edges, k) == EdgesOf(old(edges), k)
      decreases plan.packages.Keys - visiting
    {
      hide Clean, EdgesExact, EdgesOf, Reaches, Walk, OnCycle, Faulty, Elements, Edge, RequirementEdges;
      if key in visiting || key !in plan.packages {
        if key in visiting { ClosesCycle(stack, key); }
        OwnFault(plan, key);
        return false;
      }
      if key in visited {
        CleanReach(plan, visited, key);
        return true;
      }
      EdgesExactEnter(plan, visited, visiting, edges, key);
      visiting := visiting + {key};
      ghost var inner := stack + [key];
      ghost var before := visited;
      StackGrows(stack, key);
      var requirements := plan.packages[key].requirements;
      var i := 0;
      while i < |requirements|
        invariant 0 <= i <= |requirements|
        invariant Valid() && visiting == old(visiting) + {key} && Arrives2(inner, key)
        invariant before <= visited
        invariant forall r :: r in visited - before ==> Reaches(RequirementEdges(plan), key, r)
        invariant forall j :: 0 <= j < i ==>
          PinAgrees(plan, requirements[j]) && Key(Skill, requirements[j].provider) in visited
        invariant EdgesOf(edges, key) == EdgesFrom(plan, key)[..i]
        invariant forall k :: k in old(visiting) ==> EdgesOf(edges, k) == EdgesOf(old(edges), k)
      {
        var r := requirements[i];
        Requires(plan, key, i);
        if !(r.provider in plan.nodes && plan.nodes[r.provider] == r.pin) {
          OwnFault(plan, key);
          return false;
        }
        var provider := Key(Skill, r.provider);
        ghost var edge := PlanEdge(key, r.provider, r.terms);
        EdgesExactAppend(plan, visited, visiting, edges, edge);
        edges := edges + [PlanEdge(key, r.provider, r.terms)];
        assert EdgesFrom(plan, key)[..i + 1] == EdgesFrom(plan, key)[..i] + [edge];
        ghost var visitedBefore := visited;
        StackReady(inner, key, provider);
        ok := Visit(provider, inner);
        if !ok {
          FaultTravels(plan, key, provider);
          return;
        }
        ProviderReached(plan, provider);
        forall v | v in visited - before ensures Reaches(RequirementEdges(plan), key, v) {
          if v !in visitedBefore { ReachesThroughFirst(plan, key, provider, v); }
        }
        i := i + 1;
      }
      AllAgree(plan, visited, key);
      assert EdgesFrom(plan, key)[..i] == EdgesFrom(plan, key);
      JoinsCleanly(plan, visited, key);
      EdgesExactLeave(plan, visited, visiting, edges, key);
      ReachesItself(RequirementEdges(plan), key);
      visiting := visiting - {key};
      visited := visited + {key};
      CleanReach(plan, visited, key);
      ok := true;
    }

    lemma StackReady(inner: seq<Key>, key: Key, provider: Key)
      requires Arrives2(inner, key) && Edge(RequirementEdges(plan), key, provider)
      ensures Arrives(inner, provider)
    {}

    /** The stack with the key on top. */
    ghost predicate Arrives2(stack: seq<Key>, key: Key)
      reads this
    {
      Elements(stack) == visiting && Walk(RequirementEdges(plan), stack) && stack[|stack| - 1] == key
    }

    lemma StackGrows(stack: seq<Key>, key: Key)
      requires stack != []
        ==> Walk(RequirementEdges(plan), stack) && Edge(RequirementEdges(plan), stack[|stack| - 1], key)
      ensures Walk(RequirementEdges(plan), stack + [key]) && Elements(stack + [key]) == Elements(stack) + {key}
    {
      assert Walk(RequirementEdges(plan), [key]);
      if stack != [] {
        WalkJoin(RequirementEdges(plan), stack, [key]);
      } else {
        assert stack + [key] == [key];
      }
    }

    lemma ClosesCycle(stack: seq<Key>, key: Key)
      requires Arrives(stack, key) && key in visiting
      ensures OnCycle(plan, key)
    {
      assert key in Elements(stack);
      var i :| 0 <= i < |stack| && stack[i] == key;
      WalkCloses(RequirementEdges(plan), stack, i);
      assert (stack[i..] + [stack[i]])[0] == key;
    }
  }

  // ------------------------------------------------------------- the closure

  function DirectoryOf(id: Identity): string { if id.directory.Some? then id.directory.value else "." }

  /**
   * A member with a state digest agrees with a package of that digest and no pin at all;
   * one without agrees with a package without digest that was taken from the same place.
   */
  predicate SameOrigin(member: Identity, package: Identity) {
    if member.digest.Some? then
      package.digest == member.digest && package.source.None? && package.commit.None? && package.directory.None?
    else
      package.digest.None? && package.source == member.source && package.commit == member.commit
        && DirectoryOf(package) == DirectoryOf(member)
  }

  predicate IdentityAgrees(plan: Plan, member: ContextMember) {
    var key := Key(Context, member.name);
    && key in plan.packages && plan.packages[key].version == Some(member.version)
    && SameOrigin(member.identity, plan.packages[key].identity)
  }

  /**
   * An accepted context member is the package of its name: the same version, and the same digest
   * or, without one, the same source, commit and directory, where no directory is the root.
   */
  lemma IdentityAgreesIff(plan: Plan, member: ContextMember)
    ensures IdentityAgrees(plan, member) <==>
      && Key(Context, member.name) in plan.packages
      && var package, wanted := plan.packages[Key(Context, member.name)], member.identity;
         && package.version == Some(member.version) && package.identity.digest == wanted.digest
         && if wanted.digest.Some? then
              package.identity.source.None? && package.identity.commit.None? && package.identity.directory.None?
            else
              && package.identity.source == wanted.source && package.identity.commit == wanted.commit
              && (package.identity.directory == wanted.directory
                  || {package.identity.directory, wanted.directory} == {None, Some(".")})
  {
    if Key(Context, member.name) in plan.packages {
      var a, b := plan.packages[Key(Context, member.name)].identity.directory, member.identity.directory;
      if a == None && b == Some(".") { assert {a, b} == {None, Some(".")}; }
      if b == None && a == Some(".") { assert {a, b} == {None, Some(".")}; }
      if {a, b} == {None, Some(".")} { assert a in {a, b} && b in {a, b} && None in {a, b} && Some(".") in {a, b}; }
    }
  }

  ghost predicate FromContext(plan: Plan, i: nat, key: Key)
    requires i < |plan.contexts|
  {
    Reaches(RequirementEdges(plan), Key(Context, plan.contexts[i].name), key)
  }

  /** Reached from one of the first n context members. */
  ghost predicate FromFirst(plan: Plan, n: nat, key: Key)
    requires n <= |plan.contexts|
  {
    exists i :: 0 <= i < n && FromContext(plan, i, key)
  }

  ghost predicate FromContexts(plan: Plan, key: Key) { FromFirst(plan, |plan.contexts|, key) }

  ghost predicate ContextFaulty(plan: Plan, i: nat)
    requires i < |plan.contexts|
  {
    !IdentityAgrees(plan, plan.contexts[i]) || Faulty(plan, Key(Context, plan.contexts[i].name))
  }

  datatype Closure = Closure(visited: set<Key>, edges: seq<PlanEdge>)

  /** Its requirements are pinned as the plan's nodes are, met by visited skills and repeated as its edges. */
  predicate Settled(plan: Plan, closure: Closure, key: Key) {
    && key in plan.packages
    && var rs, edges := plan.packages[key].requirements, EdgesOf(closure.edges, key);
       |edges| == |rs|
       && forall j :: 0 <= j < |rs| ==>
            && rs[j].provider in plan.nodes && plan.nodes[rs[j].provider] == rs[j].pin
            && Key(Skill, rs[j].provider) in closure.visited
            && edges[j].consumer == key && edges[j].provider == rs[j].provider && edges[j].terms == rs[j].terms
  }

  lemma CleanIsSettled(plan: Plan, closure: Closure, key: Key)
    requires Clean(plan, closure.visited) && key in closure.visited && key in plan.packages
    requires EdgesOf(closure.edges, key) == EdgesFrom(plan, key)
    ensures Settled(plan, closure, key)
  {
    hide EdgesOf, OnCycle;
    var rs := plan.packages[key].requirements;
    forall j | 0 <= j < |rs|
      ensures PinAgrees(plan, rs[j]) && Key(Skill, rs[j].provider) in closure.visited
    {
      assert rs[j] in rs;
      assert Key(Skill, rs[j].provider) in Providers(plan, key);
    }
  }

  /**
   * The walk from every context member: refused exactly when a member's identity
   * disagrees or something reachable is broken or cyclic; otherwise the visited
   * packages are those reachable and each contributes each of its edges once.
   */
  method CloseContexts(plan: Plan) returns (r: Option<Closure>)
    ensures r.None? <==> exists i :: 0 <= i < |plan.contexts| && ContextFaulty(plan, i)
    ensures r.Some? ==> (forall k :: k in r.value.visited <==> FromContexts(plan, k))
    ensures r.Some? ==> (forall k :: k in r.value.visited ==>
      k in plan.packages && EdgesOf(r.value.edges, k) == EdgesFrom(plan, k))
    ensures r.Some? ==> (forall k :: k !in r.value.visited ==> EdgesOf(r.value.edges, k) == [])
    ensures r.Some? ==> (forall k :: k in r.value.visited ==> Settled(plan, r.value, k))
  {
    hide Clean, EdgesOf, Reaches, Walk, OnCycle, Faulty, Edge, RequirementEdges;
    var walker := new Walker(plan);
    NothingYet(plan);
    var i := 0;
    while i < |plan.contexts|
      invariant 0 <= i <= |plan.contexts|
      invariant walker.plan == plan && walker.Valid() && walker.visiting == {}
      invariant forall j :: 0 <= j < i ==> !ContextFaulty(plan, j)
      invariant forall k :: k in walker.visited <==> FromFirst(plan, i, k)
    {
      var member := plan.contexts[i];
      if !IdentityAgrees(plan, member) {
        assert ContextFaulty(plan, i);
        return None;
      }
      assert Elements<Key>([]) == {};
      ghost var before := walker.visited;
      var ok := walker.Visit(Key(Context, member.name), []);
      if !ok {
        assert ContextFaulty(plan, i);
        return None;
      }
      OneContextMore(plan, i, before, walker.visited);
      i := i + 1;
    }
    r := Some(Closure(walker.visited, walker.edges));
    WholeInClean(plan, walker.visited);
    forall k | k in walker.visited ensures Settled(plan, r.value, k) { CleanIsSettled(plan, r.value, k); }
  }

  lemma NothingYet(plan: Plan)
    ensures Clean(plan, {}) && EdgesExact(plan, {}, {}, [])
  {}

  lemma WholeInClean(plan: Plan, visited: set<Key>)
    requires Clean(plan, visited)
    ensures forall k :: k in visited ==> k in plan.packages
  {}

  lemma OneContextMore(plan: Plan, i: nat, before: set<Key>, after: set<Key>)
    requires i < |plan.contexts| && forall k :: k in before <==> FromFirst(plan, i, k)
    requires forall k :: k in after <==> k in before || FromContext(plan, i, k)
    ensures forall k :: k in after <==> FromFirst(plan, i + 1, k)
  {
    forall k ensures FromFirst(plan, i + 1, k) <==> FromFirst(plan, i, k) || FromContext(plan, i, k) {
      if FromFirst(plan, i + 1, k) {
        var j :| 0 <= j < i + 1 && FromContext(plan, j, k);
      }
    }
  }

  function SkillNames(visited: set<Key>): set<string> {
    set k | k in visited && k.kind == Skill :: k.name
  }

  /** The plan's nodes must be exactly the skills the walk reached. */
  method NodesMatch(plan: Plan) returns (ok: bool)
    ensures ok <==>
      && (forall i :: 0 <= i < |plan.contexts| ==> !ContextFaulty(plan, i))
      && (forall name :: name in plan.nodes <==> FromContexts(plan, Key(Skill, name)))
  {
    var closure := CloseContexts(plan);
    if closure.None? { return false; }
    var visited := closure.value.visited;
    ok := plan.nodes.Keys == SkillNames(visited);
    forall name ensures name in SkillNames(visited) <==> FromContexts(plan, Key(Skill, name)) {
      assert Key(Skill, name) in visited <==> FromContexts(plan, Key(Skill, name));
    }
  }
}
