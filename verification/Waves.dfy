/**
 * Why the smallest-name-first worklist cannot chase its own tail.
 *
 * While no selection falls, a resolution only adds names to the closure and
 * removes them again over a fixed requirement graph. A name is supported when
 * the machine asks for it or a present name requires it. Handling the smallest
 * pending name adds it when it is supported but absent and removes it when it is
 * present but unsupported. On a cyclic graph such additions and removals travel
 * in waves; taking the smallest name first makes every wave die out.
 */
module Waves {
  import opened Texts
  import opened Graphs

  predicate Supported(base: set<string>, edges: Edges<string>, present: set<string>, name: string) {
    name in base || exists k :: k in present && Edge(edges, k, name)
  }

  predicate UpTo(k: string, m: string) { k == m || Below(k, m) }

  /** No name up to m is present without support: changes up to m can only add. */
  ghost predicate OnlyAdditions(base: set<string>, edges: Edges<string>, present: set<string>, m: string) {
    forall k :: UpTo(k, m) && k in present ==> Supported(base, edges, present, k)
  }

  /** No name up to m is supported but absent: changes up to m can only remove. */
  ghost predicate OnlyRemovals(base: set<string>, edges: Edges<string>, present: set<string>, m: string) {
    forall k :: UpTo(k, m) && Supported(base, edges, present, k) ==> k in present
  }

  /** A settled name stays as it is until a larger name changes. */
  ghost predicate Settled(base: set<string>, edges: Edges<string>, present: set<string>, m: string) {
    if m in present then OnlyAdditions(base, edges, present, m) else OnlyRemovals(base, edges, present, m)
  }

  function Toggle(present: set<string>, m: string): set<string> {
    if m in present then present - {m} else present + {m}
  }

  /** m is present without support or supported but absent, and every smaller name is in order. */
  ghost predicate Toggles(base: set<string>, edges: Edges<string>, present: set<string>, m: string) {
    && (m in present) != Supported(base, edges, present, m)
    && forall k :: Below(k, m) ==> (k in present <==> Supported(base, edges, present, k))
  }

  function PowerOfTwo(n: nat): nat { if n == 0 then 1 else 2 * PowerOfTwo(n - 1) }

  /** The unsettled names as a binary number, the largest name as its highest digit. */
  ghost function Unsettled(base: set<string>, edges: Edges<string>, present: set<string>, names: set<string>): (w: nat)
    ensures w < PowerOfTwo(|names|)
    decreases |names|
  {
    if names == {} then 0
    else
      var top := Largest(names);
      var rest := Unsettled(base, edges, present, names - {top});
      if Settled(base, edges, present, top) then rest else rest + PowerOfTwo(|names| - 1)
  }

  ghost function Largest(names: set<string>): (top: string)
    requires names != {}
    ensures IsGreatest(top, names)
  {
    assert exists top :: IsGreatest(top, names) by { var high := GreatestExists(names); }
    var top :| IsGreatest(top, names);
    top
  }

  lemma SupportMonotone(base: set<string>, edges: Edges<string>, small: set<string>, big: set<string>, name: string)
    requires small <= big && Supported(base, edges, small, name)
    ensures Supported(base, edges, big, name)
  {}

  /** The name that changes was not settled, and is afterwards. */
  lemma ToggleSettles(base: set<string>, edges: Edges<string>, present: set<string>, m: string)
    requires Toggles(base, edges, present, m)
    ensures !Settled(base, edges, present, m)
    ensures Settled(base, edges, Toggle(present, m), m)
  {
    var after := Toggle(present, m);
    assert UpTo(m, m);
    forall k | UpTo(k, m) && m !in present && k in after ensures Supported(base, edges, after, k) {
      SupportMonotone(base, edges, present, after, k);
    }
    forall k | UpTo(k, m) && m in present && Supported(base, edges, after, k) ensures k in after {
      SupportMonotone(base, edges, after, present, k);
      if k == m { assert false; }
      BelowIrreflexive(m);
    }
  }

  /** A settled larger name stays settled when a smaller one changes. */
  lemma ToggleKeepsLarger(base: set<string>, edges: Edges<string>, present: set<string>, m: string, larger: string)
    requires Toggles(base, edges, present, m)
    requires Below(m, larger) && Settled(base, edges, present, larger)
    ensures Settled(base, edges, Toggle(present, m), larger)
  {
    var after := Toggle(present, m);
    BelowIrreflexive(m);
    assert UpTo(m, larger);
    if larger in present {
      assert m !in present;
      forall k | UpTo(k, larger) && k in after ensures Supported(base, edges, after, k) {
        SupportMonotone(base, edges, present, after, k);
      }
    } else {
      assert m in present;
      forall k | UpTo(k, larger) && Supported(base, edges, after, k) ensures k in after {
        SupportMonotone(base, edges, after, present, k);
      }
    }
  }

  /** Every change over a fixed graph makes the unsettled number smaller. */
  lemma {:induction false} ToggleDescends(base: set<string>, edges: Edges<string>, present: set<string>, m: string,
    names: set<string>)
    requires Toggles(base, edges, present, m) && m in names
    ensures Unsettled(base, edges, Toggle(present, m), names) < Unsettled(base, edges, present, names)
    decreases |names|
  {
    hide Toggles, Settled, Toggle;
    var top := Largest(names);
    if top == m {
      ToggleSettles(base, edges, present, m);
    } else {
      if Settled(base, edges, present, top) { ToggleKeepsLarger(base, edges, present, m, top); }
      ToggleDescends(base, edges, present, m, names - {top});
    }
  }
}
