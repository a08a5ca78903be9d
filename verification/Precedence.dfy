/** Precedence as section 11 of Semantic Versioning 2.0.0 states it, proved of the comparison. */
module Precedence {
  import opened Texts
  import opened Semver

  /** The first position at which two lists of identifiers differ. */
  predicate DifferAt(a: seq<string>, b: seq<string>, i: nat) {
    i < |a| && i < |b| && a[..i] == b[..i] && a[i] != b[i]
  }

  /** One identifier comes before another: numbers by value, numbers before words, words by their characters. */
  ghost predicate ComesBefore(l: string, r: string) {
    if IsDigits(l) && IsDigits(r) then NumeralValue(l) < NumeralValue(r)
    else if IsDigits(l) || IsDigits(r) then IsDigits(l)
    else exists k: nat :: Within(l, r, k)
  }

  /** Two texts agree up to a position, where the first has ended or has the lower character. */
  predicate Within(l: string, r: string, k: nat) {
    k <= |l| && k < |r| && l[..k] == r[..k] && (k == |l| || l[k] < r[k])
  }

  lemma {:induction false} BelowIffWithin(l: string, r: string)
    ensures Below(l, r) <==> exists k: nat :: Within(l, r, k)
  {
    if Below(l, r) {
      if l == "" {
        assert Within(l, r, 0);
      } else if l[0] < r[0] {
        assert Within(l, r, 0);
      } else {
        BelowIffWithin(l[1..], r[1..]);
        var k: nat :| Within(l[1..], r[1..], k);
        assert l[..k + 1] == [l[0]] + l[1..][..k] && r[..k + 1] == [r[0]] + r[1..][..k];
        assert Within(l, r, k + 1);
      }
    }
    forall k: nat | Within(l, r, k) ensures Below(l, r) { WithinIsBelow(l, r, k); }
  }

  lemma {:induction false} WithinIsBelow(l: string, r: string, k: nat)
    requires Within(l, r, k)
    ensures Below(l, r)
  {
    if k > 0 {
      assert l[0] == l[..k][0] && r[0] == r[..k][0];
      assert l[1..][..k - 1] == l[..k][1..] && r[1..][..k - 1] == r[..k][1..];
      WithinIsBelow(l[1..], r[1..], k - 1);
    }
  }

  predicate FitsInt(part: string) { IsDigits(part) ==> NumeralValue(part) <= MAX_INT }

  lemma IdentifierOrder(l: string, r: string)
    requires Identifier(l) && Identifier(r) && FitsInt(l) && FitsInt(r) && l != r
    ensures CompareIdentifier(l, r) == if ComesBefore(l, r) then -1 else 1
    ensures ComesBefore(r, l) == !ComesBefore(l, r)
  {
    BelowIffWithin(l, r);
    BelowIffWithin(r, l);
    BelowTotal(l, r);
    BelowAsymmetric(l, r);
    if IsDigits(l) && IsDigits(r) && NumeralValue(l) == NumeralValue(r) { NumeralInjective(l, r); }
  }

  /** The first difference decides. */
  lemma {:induction false} FirstDifferenceDecides(a: seq<string>, b: seq<string>, i: nat)
    requires DifferAt(a, b, i)
    requires Identifier(a[i]) && Identifier(b[i]) && FitsInt(a[i]) && FitsInt(b[i])
    ensures CompareIdentifiers(a, b) == if ComesBefore(a[i], b[i]) then -1 else 1
  {
    hide Identifier, FitsInt, ComesBefore, CompareIdentifier;
    if i == 0 {
      IdentifierOrder(a[0], b[0]);
    } else {
      assert a[0] == a[..i][0] && b[0] == b[..i][0];
      SameIdentifier(a[0]);
      assert a[1..][..i - 1] == a[..i][1..] && b[1..][..i - 1] == b[..i][1..];
      FirstDifferenceDecides(a[1..], b[1..], i - 1);
    }
  }

  lemma SameIdentifier(part: string)
    ensures CompareIdentifier(part, part) == 0
  {}

  /** Without a difference the shorter list comes first. */
  lemma {:induction false} PrefixDecides(a: seq<string>, b: seq<string>)
    requires a <= b
    ensures CompareIdentifiers(a, b) == if |a| < |b| then -1 else 0
  {
    hide CompareIdentifier;
    if a != [] {
      SameIdentifier(a[0]);
      assert a[0] == b[0];
      PrefixDecides(a[1..], b[1..]);
    }
  }

  /** The triple decides first; among equal triples a stable version is above all its prereleases. */
  lemma TripleDecides(a: Version, b: Version)
    ensures TripleBelow(a, b) ==> Compare(a, b) == -1 && Compare(b, a) == 1
    ensures SameTriple(a, b) && !a.Stable() && b.Stable() ==> Compare(a, b) == -1 && Compare(b, a) == 1
  {}

  /** Among prereleases of one triple the first identifier that differs decides. */
  lemma PrereleasesCompare(a: Version, b: Version, i: nat)
    requires WellFormed(a) && WellFormed(b) && Bounded(a) && Bounded(b) && SameTriple(a, b)
    requires DifferAt(a.prerelease, b.prerelease, i)
    ensures var l, r := a.prerelease[i], b.prerelease[i];
      Compare(a, b) == (if ComesBefore(l, r) then -1 else 1) && ComesBefore(r, l) == !ComesBefore(l, r)
  {
    var l, r := a.prerelease[i], b.prerelease[i];
    assert l in a.prerelease && r in b.prerelease;
    FirstDifferenceDecides(a.prerelease, b.prerelease, i);
    IdentifierOrder(l, r);
  }

  /** When one list is the other's beginning, the shorter comes first. */
  lemma ShorterComesFirst(a: Version, b: Version)
    requires SameTriple(a, b) && a.prerelease < b.prerelease && !a.Stable()
    ensures Compare(a, b) == -1 && Compare(b, a) == 1
  {
    PrefixDecides(a.prerelease, b.prerelease);
    CompareAntisymmetric(a, b);
  }

  lemma {:induction false} DifferSomewhere(a: seq<string>, b: seq<string>)
    ensures a <= b || b <= a || exists i: nat :: DifferAt(a, b, i)
  {
    if a != [] && b != [] {
      if a[0] != b[0] {
        assert DifferAt(a, b, 0);
      } else {
        DifferSomewhere(a[1..], b[1..]);
        assert a == [a[0]] + a[1..] && b == [b[0]] + b[1..];
        if !(a[1..] <= b[1..] || b[1..] <= a[1..]) {
          var i: nat :| DifferAt(a[1..], b[1..], i);
          assert a[..i + 1] == [a[0]] + a[1..][..i] && b[..i + 1] == [b[0]] + b[1..][..i];
          assert DifferAt(a, b, i + 1);
        }
      }
    }
  }

  /** Lower precedence in the words of the standard. */
  ghost predicate LowerPrecedence(a: Version, b: Version) {
    || TripleBelow(a, b)
    || (SameTriple(a, b) && !a.Stable()
        && (|| b.Stable() || a.prerelease < b.prerelease
            ||
              exists i: nat :: DifferAt(a.prerelease, b.prerelease, i)
                && ComesBefore(a.prerelease[i], b.prerelease[i])))
  }

  /** The comparison is the precedence of the standard, on all versions whose numbers fit. */
  lemma CompareIsPrecedence(a: Version, b: Version)
    requires WellFormed(a) && WellFormed(b) && Bounded(a) && Bounded(b)
    ensures Compare(a, b) < 0 <==> LowerPrecedence(a, b)
    ensures Compare(a, b) == 0 <==> a == b
  {
    hide ComesBefore, WellFormed, Bounded, CompareIdentifiers;
    EqualRankIsEquality(a, b);
    TripleDecides(a, b);
    TripleDecides(b, a);
    if SameTriple(a, b) && !a.Stable() && !b.Stable() {
      DifferSomewhere(a.prerelease, b.prerelease);
      if a.prerelease < b.prerelease { ShorterComesFirst(a, b); }
      if b.prerelease < a.prerelease { ShorterComesFirst(b, a); }
      forall i: nat | DifferAt(a.prerelease, b.prerelease, i)
        ensures Compare(a, b) == if ComesBefore(a.prerelease[i], b.prerelease[i]) then -1 else 1
      {
        PrereleasesCompare(a, b, i);
      }
    }
  }

  // ------------------------------------------- the documented example

  function Pre(prerelease: seq<string>): Version { Version(1, 0, 0, prerelease) }

  lemma Digits()
    ensures IsDigits("1") && IsDigits("2") && IsDigits("11") && !IsDigits("alpha") && !IsDigits("beta")
      && !IsDigits("rc")
    ensures NumeralValue("2") == 2 && NumeralValue("11") == 11
  {
    assert !IsDigit("alpha"[0]) && !IsDigit("beta"[0]) && !IsDigit("rc"[0]);
    assert "11"[..1] == "1" && NumeralValue("1") == 1;
  }

  /** The ordering list of the conformance vectors ascends. */
  lemma OrderingListAscends()
    ensures Compare(Version(0, 9, 9, []), Pre(["alpha"])) < 0
    ensures Compare(Pre(["alpha"]), Pre(["alpha", "1"])) < 0
    ensures Compare(Pre(["alpha", "1"]), Pre(["alpha", "beta"])) < 0
    ensures Compare(Pre(["alpha", "beta"]), Pre(["beta"])) < 0
    ensures Compare(Pre(["beta"]), Pre(["beta", "2"])) < 0
    ensures Compare(Pre(["beta", "2"]), Pre(["beta", "11"])) < 0
    ensures Compare(Pre(["beta", "11"]), Pre(["rc", "1"])) < 0
    ensures Compare(Pre(["rc", "1"]), Pre([])) < 0
    ensures Compare(Pre([]), Version(1, 0, 1, ["0"])) < 0
    ensures Compare(Version(1, 0, 1, ["0"]), Version(1, 0, 1, [])) < 0
  {
    Digits();
    ShorterComesFirst(Pre(["alpha"]), Pre(["alpha", "1"]));
    ShorterComesFirst(Pre(["beta"]), Pre(["beta", "2"]));
  }
}
