/** Walks and cycles over finite requirement graphs. */
module Graphs {

  /** Each node's successors; a node without an entry has none. */
  type Edges<T> = map<T, set<T>>

  predicate Edge<T>(edges: Edges<T>, a: T, b: T) { a in edges && b in edges[a] }

  ghost predicate Walk<T>(edges: Edges<T>, p: seq<T>) {
    |p| >= 1 && forall i :: 0 <= i < |p| - 1 ==> Edge(edges, p[i], p[i + 1])
  }

  ghost predicate WalkFrom<T>(edges: Edges<T>, p: seq<T>, a: T, b: T) {
    Walk(edges, p) && p[0] == a && p[|p| - 1] == b
  }

  ghost predicate Reaches<T(!new)>(edges: Edges<T>, a: T, b: T) {
    exists p :: WalkFrom(edges, p, a, b)
  }

  /** A closed walk of at least one edge. */
  ghost predicate Cycle<T>(edges: Edges<T>, p: seq<T>) {
    |p| >= 2 && Walk(edges, p) && p[0] == p[|p| - 1]
  }

  ghost predicate Acyclic<T(!new)>(edges: Edges<T>) {
    forall p :: !Cycle(edges, p)
  }

  function Elements<T>(p: seq<T>): set<T> { set x | x in p }

  lemma WalkSlice<T>(edges: Edges<T>, p: seq<T>, i: nat, j: nat)
    requires Walk(edges, p) && i < j <= |p|
    ensures Walk(edges, p[i..j])
  {
    forall k | 0 <= k < j - i - 1 ensures Edge(edges, p[i..j][k], p[i..j][k + 1]) {
      assert Edge(edges, p[i + k], p[i + k + 1]);
    }
  }

  lemma WalkJoin<T>(edges: Edges<T>, p: seq<T>, q: seq<T>)
    requires Walk(edges, p) && Walk(edges, q) && Edge(edges, p[|p| - 1], q[0])
    ensures Walk(edges, p + q)
  {
    forall k | 0 <= k < |p + q| - 1 ensures Edge(edges, (p + q)[k], (p + q)[k + 1]) {
      if k >= |p| { assert Edge(edges, q[k - |p|], q[k - |p| + 1]); }
    }
  }

  /** A walk whose next node is already on it closes a cycle. */
  lemma WalkCloses<T>(edges: Edges<T>, p: seq<T>, i: nat)
    requires Walk(edges, p) && i < |p| && Edge(edges, p[|p| - 1], p[i])
    ensures Cycle(edges, p[i..] + [p[i]])
  {
    WalkSlice(edges, p, i, |p|);
    assert p[i..|p|] == p[i..];
    assert Walk(edges, [p[i]]);
    WalkJoin(edges, p[i..], [p[i]]);
  }

  lemma ReachesItself<T(!new)>(edges: Edges<T>, a: T)
    ensures Reaches(edges, a, a)
  {
    assert WalkFrom(edges, [a], a, a);
  }

  lemma ReachesStep<T(!new)>(edges: Edges<T>, a: T, b: T, c: T)
    requires Reaches(edges, a, b) && Edge(edges, b, c)
    ensures Reaches(edges, a, c)
  {
    var p :| WalkFrom(edges, p, a, b);
    assert WalkFrom(edges, p + [c], a, c);
  }

  lemma ReachesTransitive<T(!new)>(edges: Edges<T>, a: T, b: T, c: T)
    requires Reaches(edges, a, b) && Reaches(edges, b, c)
    ensures Reaches(edges, a, c)
  {
    var p :| WalkFrom(edges, p, a, b);
    var q :| WalkFrom(edges, q, b, c);
    if |q| > 1 {
      assert Edge(edges, q[0], q[1]);
      WalkSlice(edges, q, 1, |q|);
      WalkJoin(edges, p, q[1..|q|]);
      assert WalkFrom(edges, p + q[1..|q|], a, c);
    }
  }

  lemma FirstStep<T(!new)>(edges: Edges<T>, a: T, b: T) returns (next: T)
    requires Reaches(edges, a, b) && a != b
    ensures Edge(edges, a, next) && Reaches(edges, next, b)
  {
    var p :| WalkFrom(edges, p, a, b);
    next := p[1];
    assert Edge(edges, p[0], p[1]);
    WalkSlice(edges, p, 1, |p|);
    assert WalkFrom(edges, p[1..|p|], next, b);
  }

  /** A walk out of a closed set of nodes is impossible. */
  lemma {:induction false} ClosedHoldsWalk<T(!new)>(edges: Edges<T>, closed: set<T>, p: seq<T>)
    requires Walk(edges, p) && p[0] in closed
    requires forall a, b :: a in closed && Edge(edges, a, b) ==> b in closed
    ensures forall i :: 0 <= i < |p| ==> p[i] in closed
  {
    if |p| > 1 {
      assert Edge(edges, p[0], p[1]);
      WalkSlice(edges, p, 1, |p|);
      ClosedHoldsWalk(edges, closed, p[1..]);
      forall i | 0 <= i < |p| ensures p[i] in closed {
        if i > 0 { assert p[i] == p[1..][i - 1]; }
      }
    }
  }

  ghost predicate EachHasSuccessor<T>(edges: Edges<T>, nodes: set<T>) {
    forall a :: a in nodes ==> HasSuccessor(edges, nodes, a)
  }

  predicate HasSuccessor<T>(edges: Edges<T>, nodes: set<T>, a: T) {
    exists b :: b in nodes && Edge(edges, a, b)
  }

  ghost predicate EachHasPredecessor<T>(edges: Edges<T>, nodes: set<T>) {
    forall b :: b in nodes ==> HasPredecessor(edges, nodes, b)
  }

  predicate HasPredecessor<T>(edges: Edges<T>, nodes: set<T>, b: T) {
    exists a :: a in nodes && Edge(edges, a, b)
  }

  /** When every node of a non-empty set has a successor in the set, the set holds a cycle. */
  lemma SuccessorsMakeCycle<T(!new)>(edges: Edges<T>, nodes: set<T>) returns (p: seq<T>)
    requires nodes != {}
    requires EachHasSuccessor(edges, nodes)
    ensures Cycle(edges, p) && forall x :: x in p ==> x in nodes
  {
    var start :| start in nodes;
    p := ExtendWalk(edges, nodes, [start]);
  }

  lemma NewElement<T>(nodes: set<T>, walk: seq<T>, longer: seq<T>, x: T)
    requires x in nodes && x !in walk && x in longer && forall y :: y in walk ==> y in longer
    ensures nodes - Elements(longer) < nodes - Elements(walk)
  {
    assert x in nodes - Elements(walk) && x !in nodes - Elements(longer);
  }

  lemma {:induction false} ExtendWalk<T(!new)>(edges: Edges<T>, nodes: set<T>, walk: seq<T>) returns (p: seq<T>)
    requires Walk(edges, walk) && forall x :: x in walk ==> x in nodes
    requires EachHasSuccessor(edges, nodes)
    ensures Cycle(edges, p) && forall x :: x in p ==> x in nodes
    decreases nodes - Elements(walk)
  {
    var last := walk[|walk| - 1];
    assert HasSuccessor(edges, nodes, last);
    var next :| next in nodes && Edge(edges, last, next);
    if next in walk {
      var i :| 0 <= i < |walk| && walk[i] == next;
      WalkCloses(edges, walk, i);
      p := walk[i..] + [next];
    } else {
      assert Walk(edges, [next]);
      WalkJoin(edges, walk, [next]);
      NewElement(nodes, walk, walk + [next], next);
      p := ExtendWalk(edges, nodes, walk + [next]);
    }
  }

  /** The same with predecessors. */
  lemma PredecessorsMakeCycle<T(!new)>(edges: Edges<T>, nodes: set<T>) returns (p: seq<T>)
    requires nodes != {}
    requires EachHasPredecessor(edges, nodes)
    ensures Cycle(edges, p) && forall x :: x in p ==> x in nodes
  {
    var start :| start in nodes;
    p := ExtendWalkBack(edges, nodes, [start]);
  }

  lemma {:induction false} ExtendWalkBack<T(!new)>(edges: Edges<T>, nodes: set<T>, walk: seq<T>) returns (p: seq<T>)
    requires Walk(edges, walk) && forall x :: x in walk ==> x in nodes
    requires EachHasPredecessor(edges, nodes)
    ensures Cycle(edges, p) && forall x :: x in p ==> x in nodes
    decreases nodes - Elements(walk)
  {
    assert HasPredecessor(edges, nodes, walk[0]);
    var before :| before in nodes && Edge(edges, before, walk[0]);
    assert Walk(edges, [before]);
    WalkJoin(edges, [before], walk);
    if before in walk {
      var i :| 0 <= i < |walk| && walk[i] == before;
      p := ([before] + walk)[0..i + 2];
      WalkSlice(edges, [before] + walk, 0, i + 2);
    } else {
      NewElement(nodes, walk, [before] + walk, before);
      p := ExtendWalkBack(edges, nodes, [before] + walk);
    }
  }

  lemma CycleStays<T>(small: Edges<T>, big: Edges<T>, p: seq<T>)
    requires forall a, b :: Edge(small, a, b) ==> Edge(big, a, b)
    ensures Cycle(small, p) ==> Cycle(big, p)
  {
    hide Edge;
  }

  lemma SubgraphAcyclic<T(!new)>(small: Edges<T>, big: Edges<T>)
    requires (forall a, b :: Edge(small, a, b) ==> Edge(big, a, b)) && Acyclic(big)
    ensures Acyclic(small)
  {
    hide Cycle, Edge;
    forall p ensures !Cycle(small, p) { CycleStays(small, big, p); }
  }
}
