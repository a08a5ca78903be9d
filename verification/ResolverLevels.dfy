/**
 * The order in which parts of the closure come to rest. Names that may require each other
 * in a circle share a level; every other requirement leads to a higher one.
 */
module ResolverLevels {
  import opened Graphs
  import opened Resolver
  import opened ResolverChoices
  import opened ResolverSources

  ghost predicate MayReach(input: Input, a: string, b: string) { Reaches(MayRequire(input), a, b) }

  /** The names that may lead to a name and cannot be led to from it. */
  ghost function Ancestors(input: Input, name: string): set<string> {
    set k | k in Universe(input) && MayReach(input, k, name) && !MayReach(input, name, k)
  }

  ghost function Level(input: Input, name: string): (level: nat)
    ensures level <= |Universe(input)|
  {
    SubsetSize(Ancestors(input, name), Universe(input));
    |Ancestors(input, name)|
  }

  /** The name lies on a circle of requirements. */
  ghost predicate OnCircle(input: Input, name: string) {
    exists k :: Edge(MayRequire(input), name, k) && MayReach(input, k, name)
  }

  /** A manifest held under one name asks for another by other means than a range. */
  ghost predicate AsksOutright(input: Input, a: string, b: string) {
    exists m, r :: m in ManifestsOf(input, a) && r in m.requires_ && r.name == b && r.form != ByRange
  }

  /** Circles are made of ranges only, and the version tags of the names on them are bounded. */
  ghost predicate Terminating(input: Input) {
    && (forall a, b :: AsksOutright(input, a, b) && a in Universe(input) ==> !MayReach(input, b, a))
    && (forall name :: OnCircle(input, name) && name in input.packages ==> BoundedPackage(input.packages[name].tags))
  }

  // ------------------------------------------------------------ which inputs

  /** Manifests that state ranges, with bounded version tags. */
  lemma RangeManifestsTerminate(input: Input)
    requires RangeManifests(input) && BoundedTags(input)
    ensures Terminating(input)
  {
    forall a, b | AsksOutright(input, a, b) ensures false {
      var m, r :| m in ManifestsOf(input, a) && r in m.requires_ && r.name == b && r.form != ByRange;
      HeldAsksByRange(input, a, m);
    }
  }

  /** Manifests that cannot require each other in a circle, whatever forms they use. */
  lemma AcyclicTerminates(input: Input)
    requires Acyclic(MayRequire(input))
    ensures Terminating(input)
  {
    forall a, b | Edge(MayRequire(input), a, b)
      ensures !MayReach(input, b, a)
    {
      AcyclicHasNoWayBack(MayRequire(input), a, b);
    }
    forall a, b | AsksOutright(input, a, b) && a in Universe(input)
      ensures Edge(MayRequire(input), a, b)
    {
      OutrightIsEdge(input, a, b);
    }
  }

  lemma OutrightIsEdge(input: Input, a: string, b: string)
    requires AsksOutright(input, a, b) && a in Universe(input)
    ensures Edge(MayRequire(input), a, b)
  {}

  lemma AcyclicHasNoWayBack<T(!new)>(edges: Edges<T>, a: T, b: T)
    requires Acyclic(edges) && Edge(edges, a, b)
    ensures !Reaches(edges, b, a)
  {
    forall p ensures !WalkFrom(edges, p, b, a) { WayBackCloses(edges, p, a, b); }
  }

  lemma WayBackCloses<T>(edges: Edges<T>, p: seq<T>, a: T, b: T)
    requires Edge(edges, a, b)
    ensures WalkFrom(edges, p, b, a) ==> Cycle(edges, [a] + p)
  {
    if WalkFrom(edges, p, b, a) {
      assert Walk(edges, [a]);
      WalkJoin(edges, [a], p);
      assert ([a] + p)[|p|] == p[|p| - 1];
    }
  }

  // ----------------------------------------------------------------- levels

  lemma SubsetSize<T>(small: set<T>, big: set<T>)
    requires small <= big
    ensures |small| <= |big| && (small != big ==> |small| < |big|)
  {
    assert big == small + (big - small);
    assert |big| == |small| + |big - small|;
  }

  lemma ReachesOn(input: Input, a: string, b: string, c: string)
    requires MayReach(input, a, b) && MayReach(input, b, c)
    ensures MayReach(input, a, c)
  {
    ReachesTransitive(MayRequire(input), a, b, c);
  }

  /** Around a circle the level is the same; along every other requirement it rises. */
  lemma LevelsRise(input: Input, a: string, b: string)
    requires Edge(MayRequire(input), a, b)
    ensures if MayReach(input, b, a) then Level(input, a) == Level(input, b) else Level(input, a) < Level(input, b)
  {
    hide MayReach;
    EdgeReaches(input, a, b);
    forall k | MayReach(input, k, a) ensures MayReach(input, k, b) { ReachesOn(input, k, a, b); }
    forall k | MayReach(input, b, k) ensures MayReach(input, a, k) { ReachesOn(input, a, b, k); }
    if MayReach(input, b, a) {
      forall k | MayReach(input, k, b) ensures MayReach(input, k, a) { ReachesOn(input, k, b, a); }
      forall k | MayReach(input, a, k) ensures MayReach(input, b, k) { ReachesOn(input, b, a, k); }
      assert Ancestors(input, a) == Ancestors(input, b);
    } else {
      forall k | k in Ancestors(input, a) ensures k in Ancestors(input, b) {
        assert MayReach(input, b, k) ==> MayReach(input, a, k);
      }
      EdgeReaches(input, a, b);
      ReachesOwn(input, a);
      assert a in Ancestors(input, b) && a !in Ancestors(input, a);
      SubsetSize(Ancestors(input, a), Ancestors(input, b));
    }
  }

  lemma ReachesOwn(input: Input, a: string)
    ensures MayReach(input, a, a)
  {
    ReachesItself(MayRequire(input), a);
  }

  lemma EdgeReaches(input: Input, a: string, b: string)
    requires Edge(MayRequire(input), a, b)
    ensures MayReach(input, a, b) && a in Universe(input)
  {
    ReachesItself(MayRequire(input), a);
    ReachesStep(MayRequire(input), a, a, b);
  }

  /** A requirement within a level closes a circle through both its ends. */
  lemma SameLevelIsCircle(input: Input, a: string, b: string)
    requires Edge(MayRequire(input), a, b) && Level(input, b) <= Level(input, a)
    ensures MayReach(input, b, a) && OnCircle(input, a) && OnCircle(input, b)
  {
    LevelsRise(input, a, b);
    if a != b {
      var next := FirstStep(MayRequire(input), b, a);
      EdgeReaches(input, a, b);
      ReachesOn(input, next, a, b);
    }
  }
}
