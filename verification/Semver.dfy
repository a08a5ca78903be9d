/** Strict semantic versions: parsing, printing and precedence. */
module Semver {
  import opened Wrappers
  import opened Texts

  /** The largest value of the 64-bit integers that hold version numbers. */
  const MAX_INT := 0x7FFF_FFFF_FFFF_FFFF

  datatype Version = Version(major: int, minor: int, patch: int, prerelease: seq<string>) {
    predicate Stable() { prerelease == [] }
  }

  /** What a parse leaves behind: on failure the fields filled so far stay filled. */
  datatype Parsed = Parsed(version: Version, ok: bool)

  // -------------------------------------------------------------- printing

  function PrintInt(n: int): string {
    if n < 0 then "-" + Numeral(-n) else Numeral(n)
  }

  function PrintCore(v: Version): string {
    PrintInt(v.major) + "." + PrintInt(v.minor) + "." + PrintInt(v.patch)
  }

  function Print(v: Version): string {
    if v.Stable() then PrintCore(v) else PrintCore(v) + "-" + Join(v.prerelease, '.')
  }

  // --------------------------------------------------------------- parsing

  function ParseNumeric(text: string): (n: Option<int>)
    ensures n.Some? ==> 0 <= n.value <= MAX_INT && PrintInt(n.value) == text
  {
    if !Canonical(text) || NumeralValue(text) > MAX_INT then None
    else
      NumeralOfValue(text);
      Some(NumeralValue(text))
  }

  predicate IdentifierChar(c: char) {
    c == '-' || '0' <= c <= '9' || 'A' <= c <= 'Z' || 'a' <= c <= 'z'
  }

  /** One prerelease identifier. */
  predicate Identifier(part: string) {
    && part != ""
    && (forall i :: 0 <= i < |part| ==> IdentifierChar(part[i]))
    && !(IsDigits(part) && |part| > 1 && part[0] == '0')
  }

  function ParsePrerelease(text: string): Option<seq<string>> {
    if text == "" then None
    else
      var parts := Split(text, '.');
      if forall part :: part in parts ==> Identifier(part) then Some(parts) else None
  }

  function ParseCore(core: string, pre: seq<string>): Parsed {
    var parts := Split(core, '.');
    if |parts| != 3 then Parsed(Version(0, 0, 0, pre), false)
    else match ParseNumeric(parts[0])
      case None => Parsed(Version(0, 0, 0, pre), false)
      case Some(major) => match ParseNumeric(parts[1])
        case None => Parsed(Version(major, 0, 0, pre), false)
        case Some(minor) => match ParseNumeric(parts[2])
          case None => Parsed(Version(major, minor, 0, pre), false)
          case Some(patch) => Parsed(Version(major, minor, patch, pre), true)
  }

  function ParseVersion(text: string): Parsed {
    match IndexOf(text, '-')
    case None => ParseCore(text, [])
    case Some(dash) =>
      match ParsePrerelease(text[dash + 1..])
      case None => Parsed(Version(0, 0, 0, []), false)
      case Some(pre) => ParseCore(text[..dash], pre)
  }

  /** A version tag is the letter v and a strict version. */
  function ParseTag(tag: string): Option<Version> {
    if tag == "" || tag[0] != 'v' then None
    else
      var parsed := ParseVersion(tag[1..]);
      if parsed.ok then Some(parsed.version) else None
  }

  predicate WellFormed(v: Version) {
    && 0 <= v.major <= MAX_INT && 0 <= v.minor <= MAX_INT && 0 <= v.patch <= MAX_INT
    && forall part :: part in v.prerelease ==> Identifier(part)
  }

  lemma NumeralSurvives(n: int)
    requires 0 <= n <= MAX_INT
    ensures ParseNumeric(PrintInt(n)) == Some(n)
    ensures '.' !in PrintInt(n) && '-' !in PrintInt(n)
  {
    NumeralParses(n);
  }

  lemma CoreRoundTrip(core: string, pre: seq<string>)
    requires ParseCore(core, pre).ok
    ensures PrintCore(ParseCore(core, pre).version) == core
    ensures ParseCore(core, pre).version.prerelease == pre
    ensures (forall part :: part in pre ==> Identifier(part)) ==> WellFormed(ParseCore(core, pre).version)
  {
    hide Identifier, Canonical, Split, PrintInt;
    var parts := Split(core, '.');
    JoinOfSplit(core, '.');
    assert parts[1..][1..] == [parts[2]];
    assert Join(parts[1..], '.') == parts[1] + ['.'] + parts[2];
    assert core == parts[0] + ['.'] + (parts[1] + ['.'] + parts[2]);
  }

  lemma CoreSurvives(v: Version)
    requires WellFormed(v)
    ensures ParseCore(PrintCore(v), v.prerelease) == Parsed(v, true)
    ensures '-' !in PrintCore(v)
  {
    NumeralSurvives(v.major);
    NumeralSurvives(v.minor);
    NumeralSurvives(v.patch);
    var parts := [PrintInt(v.major), PrintInt(v.minor), PrintInt(v.patch)];
    assert parts[1..][1..] == [parts[2]];
    assert Join(parts[1..], '.') == parts[1] + ['.'] + parts[2];
    assert Join(parts, '.') == PrintCore(v);
    SplitOfJoin(parts, '.');
  }

  /** The number a component spells, or 0 when it spells none. */
  function NumberOrZero(part: string): int {
    match ParseNumeric(part) case None => 0 case Some(n) => n
  }

  /** A parse that fails keeps the components in front of the bad one; they are what an overlay's version is made of. */
  lemma FailedParseKeepsFront(a: string, b: string, c: string)
    requires '.' !in a && '.' !in b && '.' !in c && '-' !in a && '-' !in b && '-' !in c
    ensures var parsed := ParseVersion(a + "." + b + "." + c);
      && parsed.version.prerelease == [] && parsed.version.major == NumberOrZero(a)
      && parsed.version.minor == (if ParseNumeric(a).Some? then NumberOrZero(b) else 0)
      && parsed.version.patch == (if ParseNumeric(a).Some? && ParseNumeric(b).Some? then NumberOrZero(c) else 0)
      && (parsed.ok <==> ParseNumeric(a).Some? && ParseNumeric(b).Some? && ParseNumeric(c).Some?)
  {
    hide ParseNumeric;
    var parts, text := [a, b, c], a + "." + b + "." + c;
    assert parts[1..][1..] == [c];
    assert Join(parts[1..], '.') == b + ['.'] + c;
    assert Join(parts, '.') == text;
    SplitOfJoin(parts, '.');
    assert IndexOf(text, '-').None?;
  }

  /** Every accepted version text prints back unchanged. */
  lemma PrintOfParse(text: string)
    requires ParseVersion(text).ok
    ensures Print(ParseVersion(text).version) == text
    ensures WellFormed(ParseVersion(text).version)
  {
    hide ParseCore, PrintCore, Split, Join, Identifier, IndexOf, WellFormed;
    var at := IndexOf(text, '-');
    if at.None? {
      CoreRoundTrip(text, []);
    } else {
      var pre := Split(text[at.value + 1..], '.');
      JoinOfSplit(text[at.value + 1..], '.');
      CoreRoundTrip(text[..at.value], pre);
      assert text == text[..at.value] + "-" + text[at.value + 1..];
    }
  }

  lemma {:induction false} IdentifiersJoined(pre: seq<string>)
    requires pre != [] && forall part :: part in pre ==> Identifier(part)
    ensures Join(pre, '.') != "" && Split(Join(pre, '.'), '.') == pre
  {
    assert Identifier(pre[0]);
    forall part | part in pre ensures '.' !in part { assert Identifier(part); }
    SplitOfJoin(pre, '.');
  }

  /** Every well-formed version reparses to itself. */
  lemma ParseOfPrint(v: Version)
    requires WellFormed(v)
    ensures ParseVersion(Print(v)) == Parsed(v, true)
  {
    CoreSurvives(v);
    var core := PrintCore(v);
    if !v.Stable() {
      var tail := Join(v.prerelease, '.');
      IdentifiersJoined(v.prerelease);
      IndexOfFirst(core, '-', tail);
      var text := Print(v);
      assert text == core + ['-'] + tail;
      assert text[..|core|] == core && text[|core| + 1..] == tail;
    } else {
      assert IndexOf(core, '-').None?;
    }
  }

  function TagOf(v: Version): string { "v" + Print(v) }

  /** Sections 2 and 9 of Semantic Versioning 2.0.0, for numbers that fit 64 bits; build metadata is not allowed. */
  predicate StandardForm(v: Version) {
    && 0 <= v.major < 0x8000_0000_0000_0000 && 0 <= v.minor < 0x8000_0000_0000_0000
    && 0 <= v.patch < 0x8000_0000_0000_0000
    && forall part :: part in v.prerelease ==> StandardIdentifier(part)
  }

  /** Letters, digits and hyphens; a number without leading zero. */
  predicate StandardIdentifier(part: string) {
    && part != "" && (forall i :: 0 <= i < |part| ==> LetterDigitOrHyphen(part[i]))
    && !(part[0] == '0' && |part| > 1 && forall i :: 0 <= i < |part| ==> '0' <= part[i] <= '9')
  }

  predicate LetterDigitOrHyphen(c: char) { 'a' <= c <= 'z' || 'A' <= c <= 'Z' || '0' <= c <= '9' || c == '-' }

  /** A tag is a version exactly when it is the letter v and a version in standard form. */
  lemma TagIsVersionIff(tag: string)
    ensures ParseTag(tag).Some? <==> exists v :: StandardForm(v) && tag == "v" + Print(v)
  {
    hide ParseVersion, Print;
    if ParseTag(tag).Some? {
      TagDetermined(tag);
      StandardIsWellFormed(ParseTag(tag).value);
    }
    forall v | StandardForm(v) && tag == "v" + Print(v) ensures ParseTag(tag).Some? {
      StandardIsWellFormed(v);
      ParseOfPrint(v);
      assert tag[1..] == Print(v);
    }
  }

  lemma StandardIsWellFormed(v: Version)
    ensures StandardForm(v) <==> WellFormed(v)
  {
    forall part | part in v.prerelease ensures Identifier(part) <==> StandardIdentifier(part) {}
  }

  /** Two tags of one version are the same tag. */
  lemma TagDetermined(tag: string)
    requires ParseTag(tag).Some?
    ensures tag == TagOf(ParseTag(tag).value) && WellFormed(ParseTag(tag).value)
  {
    PrintOfParse(tag[1..]);
    assert tag == "v" + tag[1..];
  }

  // ------------------------------------------------------------ precedence

  function Sign(l: int, r: int): int { if l < r then -1 else if r < l then 1 else 0 }

  /** Atoi with its range error ignored: a number too large reads as the largest one. */
  function IdentifierValue(part: string): int
    requires IsDigits(part)
  {
    if NumeralValue(part) > MAX_INT then MAX_INT else NumeralValue(part)
  }

  function CompareIdentifier(l: string, r: string): int {
    if IsDigits(l) && IsDigits(r) then Sign(IdentifierValue(l), IdentifierValue(r))
    else if IsDigits(l) then -1
    else if IsDigits(r) then 1
    else if l == r then 0
    else if Below(l, r) then -1 else 1
  }

  /** Identifier by identifier; a proper prefix comes first. */
  function CompareIdentifiers(a: seq<string>, b: seq<string>): int {
    if a == [] || b == [] then Sign(|a|, |b|)
    else
      var first := CompareIdentifier(a[0], b[0]);
      if first != 0 then first else CompareIdentifiers(a[1..], b[1..])
  }

  /** A version without prerelease comes after all its prereleases. */
  function ComparePrerelease(a: seq<string>, b: seq<string>): int {
    if a == [] && b == [] then 0
    else if a == [] then 1
    else if b == [] then -1
    else CompareIdentifiers(a, b)
  }

  function Compare(a: Version, b: Version): int {
    if a.major != b.major then Sign(a.major, b.major)
    else if a.minor != b.minor then Sign(a.minor, b.minor)
    else if a.patch != b.patch then Sign(a.patch, b.patch)
    else ComparePrerelease(a.prerelease, b.prerelease)
  }

  /** comparePrerelease as it runs: one index over both lists, with early returns. */
  method ComparePrereleaseLoop(a: seq<string>, b: seq<string>) returns (order: int)
    ensures order == ComparePrerelease(a, b)
  {
    if |a| == 0 && |b| == 0 { return 0; }
    if |a| == 0 { return 1; }
    if |b| == 0 { return -1; }
    var index := 0;
    while index < |a| && index < |b|
      invariant 0 <= index <= |a| && index <= |b|
      invariant CompareIdentifiers(a, b) == CompareIdentifiers(a[index..], b[index..])
    {
      var l, r := a[index], b[index];
      if IsDigits(l) && IsDigits(r) {
        if IdentifierValue(l) != IdentifierValue(r) {
          return if IdentifierValue(l) < IdentifierValue(r) then -1 else 1;
        }
      } else if IsDigits(l) {
        return -1;
      } else if IsDigits(r) {
        return 1;
      } else if l != r {
        return if Below(l, r) then -1 else 1;
      }
      index := index + 1;
    }
    return Sign(|a|, |b|);
  }

  lemma IdentifierAntisymmetric(l: string, r: string)
    ensures CompareIdentifier(l, r) == -CompareIdentifier(r, l)
  {
    BelowTotal(l, r);
    if Below(l, r) && Below(r, l) {
      BelowTransitive(l, r, l);
      BelowIrreflexive(l);
    }
  }

  lemma IdentifierTransitive(a: string, b: string, c: string)
    requires CompareIdentifier(a, b) <= 0 && CompareIdentifier(b, c) <= 0
    ensures CompareIdentifier(a, c) <= 0
    ensures CompareIdentifier(a, c) == 0 ==> CompareIdentifier(a, b) == 0 && CompareIdentifier(b, c) == 0
  {
    if Below(a, b) && Below(b, c) { BelowTransitive(a, b, c); BelowIrreflexive(a); }
  }

  lemma {:induction false} IdentifiersAntisymmetric(a: seq<string>, b: seq<string>)
    ensures CompareIdentifiers(a, b) == -CompareIdentifiers(b, a)
  {
    if a != [] && b != [] {
      IdentifierAntisymmetric(a[0], b[0]);
      IdentifiersAntisymmetric(a[1..], b[1..]);
    }
  }

  lemma {:induction false} IdentifiersTransitive(a: seq<string>, b: seq<string>, c: seq<string>)
    requires CompareIdentifiers(a, b) <= 0 && CompareIdentifiers(b, c) <= 0
    ensures CompareIdentifiers(a, c) <= 0
    ensures CompareIdentifiers(a, c) == 0 ==> CompareIdentifiers(a, b) == 0 && CompareIdentifiers(b, c) == 0
  {
    if a != [] && b != [] && c != [] {
      IdentifierTransitive(a[0], b[0], c[0]);
      if CompareIdentifier(a[0], b[0]) == 0 && CompareIdentifier(b[0], c[0]) == 0 {
        IdentifiersTransitive(a[1..], b[1..], c[1..]);
      }
    }
  }

  /** Precedence is a total preorder: comparable both ways, with opposite answers. */
  lemma CompareAntisymmetric(a: Version, b: Version)
    ensures Compare(a, b) == -Compare(b, a)
    ensures Compare(a, b) in {-1, 0, 1}
  {
    IdentifiersAntisymmetric(a.prerelease, b.prerelease);
    CompareIdentifiersBounded(a.prerelease, b.prerelease);
  }

  lemma {:induction false} CompareIdentifiersBounded(a: seq<string>, b: seq<string>)
    ensures CompareIdentifiers(a, b) in {-1, 0, 1}
  {
    if a != [] && b != [] { CompareIdentifiersBounded(a[1..], b[1..]); }
  }

  /** Precedence is transitive, strictly so when either step is strict. */
  lemma CompareTransitive(a: Version, b: Version, c: Version)
    requires Compare(a, b) <= 0 && Compare(b, c) <= 0
    ensures Compare(a, c) <= 0
    ensures Compare(a, c) == 0 ==> Compare(a, b) == 0 && Compare(b, c) == 0
  {
    if a.prerelease != [] && b.prerelease != [] && c.prerelease != []
       && CompareIdentifiers(a.prerelease, b.prerelease) <= 0 && CompareIdentifiers(b.prerelease, c.prerelease) <= 0 {
      IdentifiersTransitive(a.prerelease, b.prerelease, c.prerelease);
    }
  }

  /** A numeric identifier as precedence sees it: capped at the largest integer. */
  function Capped(part: string): string {
    if IsDigits(part) && NumeralValue(part) > MAX_INT then Numeral(MAX_INT) else part
  }

  function CappedAll(pre: seq<string>): (r: seq<string>)
    ensures |r| == |pre| && forall i :: 0 <= i < |pre| ==> r[i] == Capped(pre[i])
  {
    seq(|pre|, i requires 0 <= i < |pre| => Capped(pre[i]))
  }

  function CappedVersion(v: Version): Version { v.(prerelease := CappedAll(v.prerelease)) }

  lemma IdentifierEquality(l: string, r: string)
    requires Identifier(l) && Identifier(r)
    ensures CompareIdentifier(l, r) == 0 <==> Capped(l) == Capped(r)
  {
    NumeralParses(MAX_INT);
    if IsDigits(l) && IsDigits(r) && CompareIdentifier(l, r) == 0 {
      if NumeralValue(l) <= MAX_INT && NumeralValue(r) <= MAX_INT {
        NumeralInjective(l, r);
      } else if NumeralValue(l) <= MAX_INT {
        NumeralInjective(l, Numeral(MAX_INT));
      } else if NumeralValue(r) <= MAX_INT {
        NumeralInjective(r, Numeral(MAX_INT));
      }
    }
  }

  lemma {:induction false} IdentifiersEquality(a: seq<string>, b: seq<string>)
    requires forall part :: part in a || part in b ==> Identifier(part)
    ensures CompareIdentifiers(a, b) == 0 <==> CappedAll(a) == CappedAll(b)
  {
    hide Identifier, CompareIdentifier, Capped;
    if a != [] && b != [] {
      assert a[0] in a && b[0] in b;
      IdentifierEquality(a[0], b[0]);
      IdentifiersEquality(a[1..], b[1..]);
      assert CappedAll(a) == [Capped(a[0])] + CappedAll(a[1..]);
      assert CappedAll(b) == [Capped(b[0])] + CappedAll(b[1..]);
      assert CappedAll(a)[1..] == CappedAll(a[1..]) && CappedAll(b)[1..] == CappedAll(b[1..]);
    } else if CappedAll(a) == CappedAll(b) {
      assert |a| == |b|;
    }
  }

  /**
   * Two versions rank equal exactly when they agree once numeric identifiers are
   * capped at the largest integer.
   */
  lemma EqualRankIffCappedEqual(a: Version, b: Version)
    requires WellFormed(a) && WellFormed(b)
    ensures Compare(a, b) == 0 <==> CappedVersion(a) == CappedVersion(b)
  {
    IdentifiersEquality(a.prerelease, b.prerelease);
    if a.prerelease == [] || b.prerelease == [] {
      assert |CappedAll(a.prerelease)| == |a.prerelease| && |CappedAll(b.prerelease)| == |b.prerelease|;
    }
  }

  /** Every numeric identifier fits the integers it is compared in. */
  predicate Bounded(v: Version) {
    forall part :: part in v.prerelease && IsDigits(part) ==> NumeralValue(part) <= MAX_INT
  }

  /** On bounded versions, equal rank is equality: precedence is a total order. */
  lemma EqualRankIsEquality(a: Version, b: Version)
    requires WellFormed(a) && WellFormed(b) && Bounded(a) && Bounded(b)
    ensures Compare(a, b) == 0 <==> a == b
  {
    EqualRankIffCappedEqual(a, b);
    assert CappedAll(a.prerelease) == a.prerelease;
    assert CappedAll(b.prerelease) == b.prerelease;
  }

  /** Beyond the bound it is not: two different versions that rank equal. */
  lemma UnboundedIdentifiersCollide() returns (a: Version, b: Version)
    ensures WellFormed(a) && WellFormed(b) && a != b && Compare(a, b) == 0
  {
    NumeralParses(MAX_INT);
    NumeralParses(MAX_INT + 1);
    a := Version(1, 0, 0, [Numeral(MAX_INT)]);
    b := Version(1, 0, 0, [Numeral(MAX_INT + 1)]);
    forall part | part in a.prerelease || part in b.prerelease ensures Identifier(part) {
      forall i | 0 <= i < |part| ensures IdentifierChar(part[i]) { assert IsDigit(part[i]); }
    }
    EqualRankIffCappedEqual(a, b);
  }

  // --------------------------------------------------- lowest prerelease

  /** The bound `M.m.p-0` that closes every desugared interval. */
  function Lowest(major: int, minor: int, patch: int): Version {
    Version(major, minor, patch, ["0"])
  }

  predicate TripleBelow(a: Version, b: Version) {
    a.major < b.major || (a.major == b.major && (a.minor < b.minor || (a.minor == b.minor && a.patch < b.patch)))
  }

  predicate SameTriple(a: Version, b: Version) {
    a.major == b.major && a.minor == b.minor && a.patch == b.patch
  }

  /** `M.m.p-0` is the least version with its triple. */
  lemma LowestIsLeast(v: Version)
    requires WellFormed(v)
    ensures Compare(Lowest(v.major, v.minor, v.patch), v) <= 0
  {
    if v.prerelease != [] {
      var first := v.prerelease[0];
      assert Identifier(first);
      assert IsDigits("0") && IdentifierValue("0") == 0;
      if CompareIdentifier("0", first) == 0 {
        assert CompareIdentifiers(["0"], v.prerelease) == CompareIdentifiers(["0"][1..], v.prerelease[1..]);
      }
    }
  }

  /** So below `M.m.p-0` means exactly: a smaller triple, prerelease or not. */
  lemma BelowLowest(v: Version, major: int, minor: int, patch: int)
    requires WellFormed(v)
    ensures Compare(v, Lowest(major, minor, patch)) < 0 <==> TripleBelow(v, Lowest(major, minor, patch))
  {
    if SameTriple(v, Lowest(major, minor, patch)) {
      LowestIsLeast(v);
      CompareAntisymmetric(v, Lowest(major, minor, patch));
    }
  }
}
