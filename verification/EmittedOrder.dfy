/** The order in which a closure's context members are emitted: topological, then stable by weight. */
module EmittedOrder {
  import opened Wrappers
  import opened Texts
  import opened Graphs

  datatype Member = Member(isContext: bool, name: string, weight: int, requires_: seq<string>)

  datatype Winner = HigherWeight | LowerWeight
  datatype Placement = WinnerLast | WinnerFirst
  datatype Policy = Policy(winner: Winner, placement: Placement)

  // ------------------------------------------------------------- the graph

  type Contexts = map<string, Member>

  /** The context members by name; of two with one name the later counts. */
  function ByName(members: seq<Member>): (byName: Contexts)
    ensures forall name :: name in byName ==>
      byName[name] in members && byName[name].isContext && byName[name].name == name
    ensures forall member :: member in members && member.isContext ==> member.name in byName
  {
    if members == [] then map[]
    else
      var last := members[|members| - 1];
      assert members == members[..|members| - 1] + [last];
      var front := ByName(members[..|members| - 1]);
      if last.isContext then front[last.name := last] else front
  }

  /** The contexts a context requires. */
  function Needs(byName: Contexts, name: string): set<string>
    requires name in byName
  {
    set required | required in byName[name].requires_ && required in byName
  }

  function NeedEdges(byName: Contexts): Edges<string> {
    map name | name in byName :: Needs(byName, name)
  }

  function Ready(byName: Contexts, emitted: set<string>): set<string> {
    set name | name in byName && name !in emitted && Needs(byName, name) <= emitted
  }

  /** One context needs another exactly when it requires it by name and that is a context. */
  lemma NeedIsRequirement(byName: Contexts, a: string, b: string)
    ensures Edge(NeedEdges(byName), a, b) <==> a in byName && b in byName && b in byName[a].requires_
  {}

  /** Of several contexts with one name the last counts. */
  lemma {:induction false} LastCounts(members: seq<Member>, i: nat)
    requires i < |members| && members[i].isContext
    requires forall j :: i < j < |members| && members[j].isContext ==> members[j].name != members[i].name
    ensures members[i].name in ByName(members) && ByName(members)[members[i].name] == members[i]
    decreases |members|
  {
    if i < |members| - 1 { LastCounts(members[..|members| - 1], i); }
  }

  // ---------------------------------------------------------- what is wanted

  predicate Distinct(names: seq<string>) {
    forall i, j :: 0 <= i < j < |names| ==> names[i] != names[j]
  }

  /** Every context once, each after all the contexts it requires. */
  predicate Topological(byName: Contexts, names: seq<string>) {
    && Distinct(names) && Elements(names) == byName.Keys
    && forall i :: 0 <= i < |names| ==> names[i] in byName && Needs(byName, names[i]) <= Elements(names[..i])
  }

  /** So a context stands behind every context it requires. */
  lemma RequirementsComeFirst(byName: Contexts, names: seq<string>, i: nat, required: string)
    requires Topological(byName, names) && i < |names| && required in byName
    requires names[i] in byName && required in byName[names[i]].requires_
    ensures exists j :: 0 <= j < i && names[j] == required
  {
    assert required in Needs(byName, names[i]);
    assert required in Elements(names[..i]);
    var j :| 0 <= j < |names[..i]| && names[..i][j] == required;
    assert names[j] == required;
  }

  /** Lexicographic comparison of orders, by the first name in which they differ. */
  predicate AtOrBelow(p: seq<string>, q: seq<string>) {
    p == q || exists i :: 0 <= i < |p| && i < |q| && p[..i] == q[..i] && Below(p[i], q[i])
  }

  ghost predicate LeastTopological(byName: Contexts, names: seq<string>) {
    Topological(byName, names) && forall q :: Topological(byName, q) ==> AtOrBelow(names, q)
  }

  /** Each name is the smallest that was ready when it was emitted. */
  predicate Greedy(byName: Contexts, names: seq<string>) {
    forall i :: 0 <= i < |names| ==> IsLeast(names[i], Ready(byName, Elements(names[..i])))
  }

  lemma ElementsOfPrefix(names: seq<string>, i: nat)
    requires i < |names|
    ensures Elements(names[..i + 1]) == Elements(names[..i]) + {names[i]}
  {
    assert names[..i + 1] == names[..i] + [names[i]];
  }

  lemma GreedyIsPartial(byName: Contexts, names: seq<string>)
    requires Greedy(byName, names)
    ensures Distinct(names) && Elements(names) <= byName.Keys && |names| == |Elements(names)|
    ensures forall i :: 0 <= i < |names| ==> names[i] in byName && Needs(byName, names[i]) <= Elements(names[..i])
  {
    forall i, j | 0 <= i < j < |names| ensures names[i] != names[j] {
      assert names[j] in Ready(byName, Elements(names[..j]));
      assert names[..j][i] == names[i];
    }
    DistinctCount(names);
  }

  lemma {:induction false} DistinctCount(names: seq<string>)
    requires Distinct(names)
    ensures |Elements(names)| == |names|
  {
    if names != [] {
      var last := |names| - 1;
      DistinctCount(names[..last]);
      ElementsOfPrefix(names, last);
      assert names[..last + 1] == names;
    }
  }

  lemma {:induction false} CommonPrefix(p: seq<string>, q: seq<string>) returns (i: nat)
    ensures i <= |p| && i <= |q| && p[..i] == q[..i]
    ensures i < |p| && i < |q| ==> p[i] != q[i]
  {
    if p == [] || q == [] || p[0] != q[0] { return 0; }
    i := CommonPrefix(p[1..], q[1..]);
    i := i + 1;
    assert p[..i] == [p[0]] + p[1..][..i - 1] && q[..i] == [q[0]] + q[1..][..i - 1];
  }

  /** In a topological order every name is ready when its turn comes. */
  lemma TopologicalIsReady(byName: Contexts, q: seq<string>, i: nat)
    requires Topological(byName, q) && i < |q|
    ensures q[i] in Ready(byName, Elements(q[..i]))
  {
    assert forall k :: 0 <= k < i ==> q[k] != q[i];
  }

  /** At the first difference, the other order's name was ready too. */
  lemma GreedyIsLeast(byName: Contexts, names: seq<string>, q: seq<string>)
    requires Greedy(byName, names) && Elements(names) == byName.Keys && Topological(byName, q)
    ensures AtOrBelow(names, q)
  {
    hide Ready, Needs, IsLeast, Below;
    GreedyIsPartial(byName, names);
    DistinctCount(q);
    var i := CommonPrefix(names, q);
    if i < |names| {
      TopologicalIsReady(byName, q, i);
      assert IsLeast(names[i], Ready(byName, Elements(names[..i])));
      LeastBelowOthers(names[i], q[i], Ready(byName, Elements(names[..i])));
    } else {
      assert names == q;
    }
  }

  lemma LeastBelowOthers(least: string, other: string, names: set<string>)
    requires IsLeast(least, names) && other in names && least != other
    ensures Below(least, other)
  {}

  /** Emitting the smallest ready name keeps the order greedy. */
  lemma GreedyExtends(byName: Contexts, names: seq<string>, name: string)
    requires Greedy(byName, names) && IsLeast(name, Ready(byName, Elements(names)))
    ensures Greedy(byName, names + [name])
    ensures Elements(names + [name]) == Elements(names) + {name}
  {
    hide Ready, IsLeast;
    var longer := names + [name];
    forall i | 0 <= i < |longer| ensures IsLeast(longer[i], Ready(byName, Elements(longer[..i]))) {
      if i < |names| {
        assert longer[..i] == names[..i];
      } else {
        assert longer[..i] == names;
      }
    }
  }

  // ------------------------------------------------------------------ cycles

  /** With nothing ready, the contexts left over hold a cycle. */
  lemma StuckMeansCycle(byName: Contexts, emitted: set<string>) returns (p: seq<string>)
    requires emitted < byName.Keys && Ready(byName, emitted) == {}
    ensures Cycle(NeedEdges(byName), p)
  {
    var left := byName.Keys - emitted;
    var kept :| kept in byName.Keys && kept !in emitted;
    assert kept in left;
    forall name | name in left ensures HasSuccessor(NeedEdges(byName), left, name) {
      assert name !in Ready(byName, emitted);
      var required :| required in Needs(byName, name) && required !in emitted;
      assert Edge(NeedEdges(byName), name, required);
    }
    p := SuccessorsMakeCycle(NeedEdges(byName), left);
  }

  function Position(names: seq<string>, name: string): (i: nat)
    requires name in names
    ensures i < |names| && names[i] == name
  {
    if names[0] == name then 0 else 1 + Position(names[1..], name)
  }

  lemma NeedStandsEarlier(byName: Contexts, names: seq<string>, a: string, b: string)
    requires Topological(byName, names) && Edge(NeedEdges(byName), a, b)
    ensures a in names && b in names && Position(names, b) < Position(names, a)
  {
    assert a in Elements(names);
    var i := Position(names, a);
    assert b in Elements(names[..i]);
    var k :| 0 <= k < i && names[k] == b;
    assert b in names && Position(names, b) == k;
  }

  /** Along a walk the positions in a topological order fall. */
  lemma {:induction false} WalkDescends(byName: Contexts, names: seq<string>, p: seq<string>)
    requires Topological(byName, names) && Walk(NeedEdges(byName), p) && |p| >= 2
    ensures p[0] in names && p[|p| - 1] in names && Position(names, p[|p| - 1]) < Position(names, p[0])
    decreases |p|
  {
    var last := |p| - 1;
    assert Edge(NeedEdges(byName), p[last - 1], p[last - 1 + 1]);
    NeedStandsEarlier(byName, names, p[last - 1], p[last]);
    if last > 1 {
      WalkSlice(NeedEdges(byName), p, 0, last);
      WalkDescends(byName, names, p[0..last]);
    }
  }

  /** A graph that has a topological order has no cycle. */
  lemma OrderMeansAcyclic(byName: Contexts, names: seq<string>)
    requires Topological(byName, names)
    ensures Acyclic(NeedEdges(byName))
  {
    forall p ensures !Cycle(NeedEdges(byName), p) {
      if Cycle(NeedEdges(byName), p) { WalkDescends(byName, names, p); }
    }
  }

  // ------------------------------------------------------------------- Kahn

  /** The readiness scan over all names. */
  method ReadyNames(byName: Contexts, emitted: set<string>) returns (ready: set<string>)
    ensures ready == Ready(byName, emitted)
  {
    ready := {};
    var rest := byName.Keys;
    while rest != {}
      invariant rest <= byName.Keys && ready == Ready(byName, emitted) - rest
      decreases |rest|
    {
      var name :| name in rest;
      rest := rest - {name};
      if name !in emitted {
        var ok := true;
        var requires_ := byName[name].requires_;
        for k := 0 to |requires_|
          invariant ok <==> forall j :: 0 <= j < k && requires_[j] in byName ==> requires_[j] in emitted
        {
          if requires_[k] in byName && requires_[k] !in emitted { ok := false; }
        }
        if ok { ready := ready + {name}; }
      }
    }
  }

  /** The pre-sort order, or None where the program stops on a context cycle. */
  method KahnOrder(byName: Contexts) returns (names: Option<seq<string>>)
    ensures names.Some? ==> LeastTopological(byName, names.value)
    ensures names.None? <==> !Acyclic(NeedEdges(byName))
  {
    var order: seq<string> := [];
    var emitted: set<string> := {};
    while |order| < |byName|
      invariant emitted == Elements(order) && Greedy(byName, order)
      invariant |order| == |emitted| && emitted <= byName.Keys
      decreases |byName| - |order|
    {
      var ready := ReadyNames(byName, emitted);
      if ready == {} {
        assert |byName.Keys| == |byName| && emitted != byName.Keys;
        var p := StuckMeansCycle(byName, emitted);
        return None;
      }
      var name := SmallestOf(ready);
      GreedyExtends(byName, order, name);
      GreedyIsPartial(byName, order + [name]);
      emitted := emitted + {name};
      order := order + [name];
    }
    AllEmitted(byName, emitted);
    GreedyIsPartial(byName, order);
    forall q | Topological(byName, q) ensures AtOrBelow(order, q) { GreedyIsLeast(byName, order, q); }
    OrderMeansAcyclic(byName, order);
    names := Some(order);
  }

  lemma AllEmitted(byName: Contexts, emitted: set<string>)
    requires emitted <= byName.Keys && |emitted| >= |byName|
    ensures emitted == byName.Keys
  {
    var left := byName.Keys - emitted;
    assert byName.Keys == emitted + left && |byName.Keys| == |byName|;
    assert |byName.Keys| == |emitted| + |left|;
    assert left == {};
  }

  // ------------------------------------------------------------- stable sort

  predicate Ascending(policy: Policy) { (policy.winner == HigherWeight) == (policy.placement == WinnerLast) }

  predicate Earlier(a: Member, b: Member, ascending: bool) {
    if ascending then a.weight < b.weight else a.weight > b.weight
  }

  predicate SortedByWeight(members: seq<Member>, ascending: bool) {
    forall i, j :: 0 <= i < j < |members| ==> !Earlier(members[j], members[i], ascending)
  }

  /** The members of one weight, in their order. */
  function WithWeight(members: seq<Member>, weight: int): seq<Member> {
    if members == [] then []
    else (if members[0].weight == weight then [members[0]] else []) + WithWeight(members[1..], weight)
  }

  /** A weight-sorted rearrangement in which the members of each weight keep their order. */
  ghost predicate StableSortOf(sorted: seq<Member>, members: seq<Member>, ascending: bool) {
    SortedByWeight(sorted, ascending) && forall weight :: WithWeight(sorted, weight) == WithWeight(members, weight)
  }

  lemma {:induction false} WithWeightJoin(a: seq<Member>, b: seq<Member>, weight: int)
    ensures WithWeight(a + b, weight) == WithWeight(a, weight) + WithWeight(b, weight)
  {
    if a == [] {
      assert a + b == b;
    } else {
      WithWeightJoin(a[1..], b, weight);
      assert (a + b)[1..] == a[1..] + b;
      var head := if a[0].weight == weight then [a[0]] else [];
      assert head + (WithWeight(a[1..], weight) + WithWeight(b, weight)) == head + WithWeight(a[1..], weight)
        + WithWeight(b, weight);
    }
  }

  /** Puts a member behind every member that may stand before it. */
  method InsertLast(sorted: seq<Member>, member: Member, ascending: bool) returns (longer: seq<Member>)
    requires SortedByWeight(sorted, ascending)
    ensures SortedByWeight(longer, ascending)
    ensures forall weight :: WithWeight(longer, weight) == WithWeight(sorted + [member], weight)
  {
    var k := |sorted|;
    while k > 0 && Earlier(member, sorted[k - 1], ascending)
      invariant 0 <= k <= |sorted|
      invariant forall i :: k <= i < |sorted| ==> Earlier(member, sorted[i], ascending)
    {
      k := k - 1;
    }
    longer := sorted[..k] + [member] + sorted[k..];
    forall weight ensures WithWeight(longer, weight) == WithWeight(sorted + [member], weight) {
      MovedPastOthers(sorted[..k], sorted[k..], member, weight);
      assert sorted == sorted[..k] + sorted[k..];
    }
  }

  /** Moving a member past members of other weights changes no weight's order. */
  lemma MovedPastOthers(front: seq<Member>, back: seq<Member>, member: Member, weight: int)
    requires forall i :: 0 <= i < |back| ==> back[i].weight != member.weight
    ensures WithWeight(front + [member] + back, weight) == WithWeight(front + back + [member], weight)
  {
    hide WithWeight;
    WithWeightJoin(front + [member], back, weight);
    WithWeightJoin(front, [member], weight);
    WithWeightJoin(front + back, [member], weight);
    WithWeightJoin(front, back, weight);
    if weight == member.weight {
      NoneOfWeight(back, weight);
    } else {
      NoneOfWeight([member], weight);
    }
  }

  lemma {:induction false} NoneOfWeight(members: seq<Member>, weight: int)
    requires forall i :: 0 <= i < |members| ==> members[i].weight != weight
    ensures WithWeight(members, weight) == []
  {
    if members != [] { NoneOfWeight(members[1..], weight); }
  }

  method SortStable(members: seq<Member>, ascending: bool) returns (sorted: seq<Member>)
    ensures StableSortOf(sorted, members, ascending)
  {
    sorted := [];
    var i := 0;
    while i < |members|
      invariant 0 <= i <= |members| && StableSortOf(sorted, members[..i], ascending)
    {
      ghost var before := sorted;
      sorted := InsertLast(sorted, members[i], ascending);
      assert members[..i + 1] == members[..i] + [members[i]];
      forall weight ensures WithWeight(sorted, weight) == WithWeight(members[..i + 1], weight) {
        WithWeightJoin(before, [members[i]], weight);
        WithWeightJoin(members[..i], [members[i]], weight);
      }
      i := i + 1;
    }
    assert members[..i] == members;
  }

  lemma {:induction false} WithWeightHas(members: seq<Member>, member: Member)
    ensures member in WithWeight(members, member.weight) <==> member in members
  {
    if members != [] {
      WithWeightHas(members[1..], member);
      assert members == [members[0]] + members[1..];
    }
  }

  /** There is only one stable sort: a and b start with the same member, and so on. */
  lemma {:induction false} StableSortUnique(a: seq<Member>, b: seq<Member>, ascending: bool)
    requires SortedByWeight(a, ascending) && SortedByWeight(b, ascending)
    requires forall weight :: WithWeight(a, weight) == WithWeight(b, weight)
    ensures a == b
    decreases |a|
  {
    if b != [] {
      WithWeightHas(b, b[0]);
      assert WithWeight(a, b[0].weight) == WithWeight(b, b[0].weight);
      WithWeightHas(a, b[0]);
    }
    if a != [] {
      WithWeightHas(a, a[0]);
      assert WithWeight(a, a[0].weight) == WithWeight(b, a[0].weight);
      WithWeightHas(b, a[0]);
      assert b != [];
      WithWeightHas(b, b[0]);
      assert WithWeight(b, b[0].weight) == WithWeight(a, b[0].weight);
      WithWeightHas(a, b[0]);
      var i :| 0 <= i < |b| && b[i] == a[0];
      var j :| 0 <= j < |a| && a[j] == b[0];
      assert a[0].weight == b[0].weight;
      assert a[0] == WithWeight(a, a[0].weight)[0] == WithWeight(b, a[0].weight)[0] == b[0];
      forall weight ensures WithWeight(a[1..], weight) == WithWeight(b[1..], weight) {
        assert WithWeight(a, weight) == WithWeight(b, weight);
        var n := if a[0].weight == weight then 1 else 0;
        assert WithWeight(a[1..], weight) == WithWeight(a, weight)[n..];
        assert WithWeight(b[1..], weight) == WithWeight(b, weight)[n..];
      }
      StableSortUnique(a[1..], b[1..], ascending);
      assert a == [a[0]] + a[1..] && b == [b[0]] + b[1..];
    }
  }

  // ------------------------------------------------------------------ result

  function MembersOf(byName: Contexts, names: seq<string>): seq<Member>
    requires forall name :: name in names ==> name in byName
  {
    seq(|names|, i requires 0 <= i < |names| => byName[names[i]])
  }

  /** environmentEmittedOrder; None where it stops on a context cycle. */
  method EmittedMembers(members: seq<Member>, policy: Policy) returns (order: Option<seq<Member>>)
    ensures order.None? <==> !Acyclic(NeedEdges(ByName(members)))
    ensures order.Some? ==> exists names ::
      LeastTopological(ByName(members), names) && (forall name :: name in names ==> name in ByName(members))
      && StableSortOf(order.value, MembersOf(ByName(members), names), Ascending(policy))
    ensures order.Some? ==> PlacedBy(policy, order.value)
  {
    var byName := ByName(members);
    var names := KahnOrder(byName);
    if names.None? { return None; }
    forall name | name in names.value ensures name in byName {
      assert name in Elements(names.value);
    }
    var sorted := SortStable(MembersOf(byName, names.value), Ascending(policy));
    SortedIsPlaced(policy, sorted);
    order := Some(sorted);
  }

  /** The member that wins over another of a different weight. */
  predicate Wins(policy: Policy, a: Member, b: Member) {
    match policy.winner case HigherWeight => a.weight > b.weight case LowerWeight => a.weight < b.weight
  }

  /** Winners stand last or first, as the policy places them. */
  predicate InPlace(policy: Policy, front: Member, back: Member) {
    match policy.placement case WinnerLast => !Wins(policy, front, back) case WinnerFirst => !Wins(policy, back, front)
  }

  predicate PlacedBy(policy: Policy, members: seq<Member>) {
    forall i, j :: 0 <= i < j < |members| ==> InPlace(policy, members[i], members[j])
  }

  lemma SortedIsPlaced(policy: Policy, members: seq<Member>)
    requires SortedByWeight(members, Ascending(policy))
    ensures PlacedBy(policy, members)
  {}

  lemma FirstDifference(p: seq<string>, q: seq<string>) returns (i: nat)
    requires AtOrBelow(p, q) && p != q
    ensures i < |p| && i < |q| && Below(p[i], q[i]) && p[i] != q[i]
    ensures forall k :: 0 <= k < i ==> p[k] == q[k]
  {
    i :| 0 <= i < |p| && i < |q| && p[..i] == q[..i] && Below(p[i], q[i]);
    BelowIrreflexive(p[i]);
    forall k | 0 <= k < i ensures p[k] == q[k] { assert p[..i][k] == q[..i][k]; }
  }

  lemma NotBothBelow(p: seq<string>, q: seq<string>)
    requires AtOrBelow(p, q) && AtOrBelow(q, p)
    ensures p == q
  {
    hide AtOrBelow, Below;
    if p != q {
      var i := FirstDifference(p, q);
      var j := FirstDifference(q, p);
      if i == j { BelowAsymmetric(p[i], q[i]); }
      assert false;
    }
  }

  lemma LeastTopologicalUnique(byName: Contexts, p: seq<string>, q: seq<string>)
    requires LeastTopological(byName, p) && LeastTopological(byName, q)
    ensures p == q
  {
    hide AtOrBelow, Topological;
    NotBothBelow(p, q);
  }

  /** The emitted order depends on nothing but the context members and the policy. */
  lemma EmittedOrderDetermined(byName: Contexts, ascending: bool, a: seq<Member>, b: seq<Member>, p: seq<string>,
    q: seq<string>)
    requires LeastTopological(byName, p) && LeastTopological(byName, q)
    requires (forall name :: name in p ==> name in byName) && (forall name :: name in q ==> name in byName)
    requires StableSortOf(a, MembersOf(byName, p), ascending) && StableSortOf(b, MembersOf(byName, q), ascending)
    ensures a == b
  {
    LeastTopologicalUnique(byName, p, q);
    StableSortUnique(a, b, ascending);
  }
}
