/** The closed range grammar: partial versions, desugaring and admission. */
module Ranges {
  import opened Wrappers
  import opened Texts
  import opened Semver

  datatype Op = Ge | Gt | Le | Lt | Eq

  /** One desugared primitive; Any admits every stable version. */
  datatype Comparator = Any | Cmp(op: Op, version: Version)

  type ComparatorSet = seq<Comparator>
  type Range = seq<ComparatorSet>

  /** The operator a primitive is written with; a bare version reads as `=`. */
  datatype Prefix = Equal | AtLeast | Above | AtMost | Under | Caret | Tilde

  /** The components given before the first free one, and a prerelease when all three are. */
  datatype Partial = Partial(parts: seq<int>, prerelease: seq<string>) {
    function Major(): int { if |parts| > 0 then parts[0] else 0 }
    function Minor(): int { if |parts| > 1 then parts[1] else 0 }
    function Patch(): int { if |parts| > 2 then parts[2] else 0 }
    function Full(): Version { Version(Major(), Minor(), Patch(), prerelease) }
  }

  predicate Free(part: string) { part == "x" || part == "X" || part == "*" }

  /** The numbers before the first free component; what follows it is not looked at. */
  function GivenParts(parts: seq<string>): Option<seq<int>> {
    if parts == [] || Free(parts[0]) then Some([])
    else match ParseNumeric(parts[0])
      case None => None
      case Some(n) => Prepend([n], GivenParts(parts[1..]))
  }

  function PartialCore(core: string): Option<seq<int>> {
    var parts := Split(core, '.');
    if |parts| > 3 then None else GivenParts(parts)
  }

  function ParsePartial(text: string): Option<Partial> {
    if text == "" then None
    else match IndexOf(text, '-')
      case None => (match PartialCore(text) case None => None case Some(given) => Some(Partial(given, [])))
      case Some(dash) => match PartialCore(text[..dash])
        case None => None
        case Some(given) =>
          if |given| < 3 then None
          else match ParsePrerelease(text[dash + 1..])
            case None => None
            case Some(pre) => Some(Partial(given, pre))
  }

  function Prepend<T>(front: seq<T>, tail: Option<seq<T>>): Option<seq<T>> {
    match tail case None => None case Some(rest) => Some(front + rest)
  }

  lemma PrependAssociative<T>(a: seq<T>, b: seq<T>, tail: Option<seq<T>>)
    ensures Prepend(a, Prepend(b, tail)) == Prepend(a + b, tail)
  {
    if tail.Some? { assert a + (b + tail.value) == a + b + tail.value; }
  }

  lemma PrependNothing<T>(tail: Option<seq<T>>)
    ensures Prepend([], tail) == tail
  {
    if tail.Some? { assert [] + tail.value == tail.value; }
  }

  /** parsePartial's component loop, which stops at the first free component. */
  method GivenPartsLoop(parts: seq<string>) returns (given: Option<seq<int>>)
    ensures given == GivenParts(parts)
  {
    given := Some([]);
    var index := 0;
    PrependNothing(GivenParts(parts));
    assert parts[0..] == parts;
    while index < |parts|
      invariant 0 <= index <= |parts| && given.Some?
      invariant GivenParts(parts) == Prepend(given.value, GivenParts(parts[index..]))
    {
      if Free(parts[index]) { break; }
      var value := ParseNumeric(parts[index]);
      if value.None? { return None; }
      assert parts[index..][1..] == parts[index + 1..];
      PrependAssociative(given.value, [value.value], GivenParts(parts[index + 1..]));
      given := Some(given.value + [value.value]);
      index := index + 1;
    }
    assert given.value + [] == given.value;
  }

  /** A 64-bit increment, which wraps around at the top. */
  function Bump(n: int): int { if n == MAX_INT then -MAX_INT - 1 else n + 1 }

  function From(v: Version): Comparator { Cmp(Ge, v) }

  function Before(major: int, minor: int, patch: int): Comparator { Cmp(Lt, Lowest(major, minor, patch)) }

  function Plain(major: int, minor: int, patch: int): Version { Version(major, minor, patch, []) }

  /** The coercion table. */
  function Desugar(prefix: Prefix, p: Partial): ComparatorSet {
    var n, major, minor, patch := |p.parts|, p.Major(), p.Minor(), p.Patch();
    match prefix
    case Equal =>
      if n == 0 then [Any]
      else if n == 1 then [From(Plain(major, 0, 0)), Before(Bump(major), 0, 0)]
      else if n == 2 then [From(Plain(major, minor, 0)), Before(major, Bump(minor), 0)]
      else [Cmp(Eq, p.Full())]
    case AtLeast =>
      if n == 0 then [Any] else [From(p.Full())]
    case Above =>
      if n == 0 then [Before(0, 0, 0)]
      else if n == 1 then [From(Plain(Bump(major), 0, 0))]
      else if n == 2 then [From(Plain(major, Bump(minor), 0))]
      else [Cmp(Gt, p.Full())]
    case Under =>
      if n == 0 then [Before(0, 0, 0)]
      else if n == 1 then [Before(major, 0, 0)]
      else if n == 2 then [Before(major, minor, 0)]
      else [Cmp(Lt, p.Full())]
    case AtMost =>
      if n == 0 then [Any]
      else if n == 1 then [Before(Bump(major), 0, 0)]
      else if n == 2 then [Before(major, Bump(minor), 0)]
      else [Cmp(Le, p.Full())]
    case Caret =>
      if n == 0 then [Any]
      else if n == 1 then [From(Plain(major, 0, 0)), Before(Bump(major), 0, 0)]
      else if n == 2 then
        if major == 0 then [From(Plain(0, minor, 0)), Before(0, Bump(minor), 0)]
        else [From(Plain(major, minor, 0)), Before(Bump(major), 0, 0)]
      else if major > 0 then [From(p.Full()), Before(Bump(major), 0, 0)]
      else if minor > 0 then [From(p.Full()), Before(0, Bump(minor), 0)]
      else [From(p.Full()), Before(0, 0, Bump(patch))]
    case Tilde =>
      if n == 0 then [Any]
      else if n == 1 then [From(Plain(major, 0, 0)), Before(Bump(major), 0, 0)]
      else if n == 2 then [From(Plain(major, minor, 0)), Before(major, Bump(minor), 0)]
      else [From(p.Full()), Before(major, Bump(minor), 0)]
  }

  /** The operator a primitive starts with, longest spelling first, and what follows it. */
  function SplitPrefix(text: string): (Prefix, string) {
    if |text| >= 2 && text[..2] == ">=" then (AtLeast, text[2..])
    else if |text| >= 2 && text[..2] == "<=" then (AtMost, text[2..])
    else if |text| >= 1 && text[0] == '>' then (Above, text[1..])
    else if |text| >= 1 && text[0] == '<' then (Under, text[1..])
    else if |text| >= 1 && text[0] == '=' then (Equal, text[1..])
    else if |text| >= 1 && text[0] == '^' then (Caret, text[1..])
    else if |text| >= 1 && text[0] == '~' then (Tilde, text[1..])
    else (Equal, text)
  }

  function DesugarPrimitive(text: string): Option<ComparatorSet> {
    var (prefix, rest) := SplitPrefix(text);
    match ParsePartial(rest)
    case None => None
    case Some(p) => Some(Desugar(prefix, p))
  }

  /** unicode.IsSpace. */
  predicate IsSpace(c: char) {
    || '\t' <= c <= '\r' || c == ' ' || c == '\U{85}' || c == '\U{A0}' || c == '\U{1680}'
    || '\U{2000}' <= c <= '\U{200A}' || c == '\U{2028}' || c == '\U{2029}' || c == '\U{202F}'
    || c == '\U{205F}' || c == '\U{3000}'
  }

  /** strings.Fields: the maximal runs without white space. It is empty exactly on blank text. */
  function Fields(text: string): (words: seq<string>)
    decreases |text|
  {
    if text == "" then []
    else if IsSpace(text[0]) then Fields(text[1..])
    else if |text| == 1 || IsSpace(text[1]) then [[text[0]]] + Fields(text[1..])
    else
      var rest := Fields(text[1..]);
      if rest == [] then [[text[0]]] else [[text[0]] + rest[0]] + rest[1..]
  }

  /** strings.Split at "||", leftmost first. */
  function SplitBars(text: string): (parts: seq<string>)
    ensures |parts| >= 1
  {
    if text == "" then [""]
    else if |text| >= 2 && text[0] == '|' && text[1] == '|' then [""] + SplitBars(text[2..])
    else
      var rest := SplitBars(text[1..]);
      [[text[0]] + rest[0]] + rest[1..]
  }

  function ParsePrimitives(primitives: seq<string>): Option<ComparatorSet> {
    if primitives == [] then Some([])
    else match DesugarPrimitive(primitives[0])
      case None => None
      case Some(first) => Prepend(first, ParsePrimitives(primitives[1..]))
  }

  /** One comparator set; a blank one does not parse. */
  function ParseSet(text: string): Option<ComparatorSet> {
    if Fields(text) == [] then None else ParsePrimitives(Fields(text))
  }

  function ParseSets(texts: seq<string>): Option<Range> {
    if texts == [] then Some([])
    else match ParseSet(texts[0])
      case None => None
      case Some(first) => Prepend([first], ParseSets(texts[1..]))
  }

  function ParseRange(text: string): Option<Range> {
    ParseSets(SplitBars(if text == "latest" then "*" else text))
  }

  /** parseRange as it runs: sets are appended until one is blank or does not parse. */
  method ParseRangeLoop(text: string) returns (range: Option<Range>)
    ensures range == ParseRange(text)
  {
    var texts := SplitBars(if text == "latest" then "*" else text);
    range := ParseSetsLoop(texts);
  }

  method ParseSetsLoop(texts: seq<string>) returns (range: Option<Range>)
    ensures range == ParseSets(texts)
  {
    var out: Range := [];
    var i := 0;
    PrependNothing(ParseSets(texts));
    assert texts[0..] == texts;
    while i < |texts|
      invariant 0 <= i <= |texts|
      invariant ParseSets(texts) == Prepend(out, ParseSets(texts[i..]))
    {
      assert texts[i..][1..] == texts[i + 1..];
      var primitives := Fields(texts[i]);
      if primitives == [] { return None; }
      var comparators := ParsePrimitivesLoop(primitives);
      if comparators.None? { return None; }
      PrependAssociative(out, [comparators.value], ParseSets(texts[i + 1..]));
      out := out + [comparators.value];
      i := i + 1;
    }
    assert out + [] == out;
    return Some(out);
  }

  /** The inner loop of parseRange, over the primitives of one set. */
  method ParsePrimitivesLoop(primitives: seq<string>) returns (comparators: Option<ComparatorSet>)
    ensures comparators == ParsePrimitives(primitives)
  {
    var out: ComparatorSet := [];
    var i := 0;
    PrependNothing(ParsePrimitives(primitives));
    assert primitives[0..] == primitives;
    while i < |primitives|
      invariant 0 <= i <= |primitives|
      invariant ParsePrimitives(primitives) == Prepend(out, ParsePrimitives(primitives[i..]))
    {
      var next := DesugarPrimitive(primitives[i]);
      assert primitives[i..][1..] == primitives[i + 1..];
      if next.None? { return None; }
      PrependAssociative(out, next.value, ParsePrimitives(primitives[i + 1..]));
      out := out + next.value;
      i := i + 1;
    }
    assert out + [] == out;
    return Some(out);
  }

  // -------------------------------------------------------------- admission

  predicate Matches(c: Comparator, v: Version) {
    match c
    case Any => true
    case Cmp(Ge, w) => Compare(v, w) >= 0
    case Cmp(Gt, w) => Compare(v, w) > 0
    case Cmp(Le, w) => Compare(v, w) <= 0
    case Cmp(Lt, w) => Compare(v, w) < 0
    case Cmp(Eq, w) => Compare(v, w) == 0
  }

  /** The comparator names a prerelease on the version's own triple. */
  predicate NamesPrerelease(c: Comparator, v: Version) {
    c.Cmp? && c.version.prerelease != [] && SameTriple(c.version, v)
  }

  predicate SetSatisfies(comparators: ComparatorSet, v: Version) {
    && (forall c :: c in comparators ==> Matches(c, v))
    && (v.prerelease == [] || exists c :: c in comparators && NamesPrerelease(c, v))
  }

  predicate RangeSatisfies(range: Range, v: Version) {
    exists comparators :: comparators in range && SetSatisfies(comparators, v)
  }

  // ---------------------------------------------------------------- meaning

  function Component(v: Version, i: nat): int
    requires i < 3
  {
    if i == 0 then v.major else if i == 1 then v.minor else v.patch
  }

  predicate ValidPartial(p: Partial) {
    && |p.parts| <= 3
    && (forall i :: 0 <= i < |p.parts| ==> 0 <= p.parts[i] <= MAX_INT)
    && (|p.parts| < 3 ==> p.prerelease == [])
    && (forall part :: part in p.prerelease ==> Identifier(part))
  }

  /** The version completes the first k components of the partial. */
  predicate Agrees(v: Version, p: Partial, k: nat)
    requires k <= |p.parts| <= 3
  {
    forall i :: 0 <= i < k ==> Component(v, i) == p.parts[i]
  }

  /** The version lies below every version that completes the partial. */
  predicate Precedes(v: Version, p: Partial)
    requires |p.parts| <= 3
  {
    exists i :: 0 <= i < |p.parts| && Agrees(v, p, i) && Component(v, i) < p.parts[i]
  }

  /** The version lies above every version that completes the partial. */
  predicate Follows(v: Version, p: Partial)
    requires |p.parts| <= 3
  {
    exists i :: 0 <= i < |p.parts| && Agrees(v, p, i) && Component(v, i) > p.parts[i]
  }

  /** How many leading components a caret holds fixed: up to the leftmost non-zero one. */
  function CaretWidth(p: Partial): (k: nat)
    requires |p.parts| <= 3
    ensures k <= |p.parts| && (|p.parts| > 0 ==> k > 0)
    ensures forall i :: 0 <= i < k - 1 ==> p.parts[i] == 0
    ensures 0 < k < |p.parts| ==> p.parts[k - 1] != 0
  {
    if |p.parts| == 0 then 0
    else if p.parts[0] != 0 || |p.parts| == 1 then 1
    else if p.parts[1] != 0 || |p.parts| == 2 then 2
    else 3
  }

  /** How many a tilde holds fixed: the minor when it is given, else the major. */
  function TildeWidth(p: Partial): nat { if |p.parts| < 2 then |p.parts| else 2 }

  /** What a primitive means for stable versions, said of the partial it is written with. */
  predicate Meaning(prefix: Prefix, p: Partial, v: Version)
    requires |p.parts| <= 3
  {
    match prefix
    case Equal => Agrees(v, p, |p.parts|) && p.prerelease == []
    case AtLeast => !Precedes(v, p)
    case Above => if p.prerelease == [] then Follows(v, p) else !Precedes(v, p)
    case Under => Precedes(v, p)
    case AtMost => if p.prerelease == [] then !Follows(v, p) else Precedes(v, p)
    case Caret => !Precedes(v, p) && Agrees(v, p, CaretWidth(p))
    case Tilde => !Precedes(v, p) && Agrees(v, p, TildeWidth(p))
  }

  /** Which prereleases a primitive admits: only those on the triple of the prerelease it names. */
  predicate MeaningForPrerelease(prefix: Prefix, p: Partial, v: Version) {
    && p.prerelease != [] && SameTriple(p.Full(), v)
    && var order := Compare(v, p.Full());
       match prefix
       case Equal => order == 0
       case AtLeast => order >= 0
       case Above => order > 0
       case Under => order < 0
       case AtMost => order <= 0
       case Caret => order >= 0
       case Tilde => order >= 0
  }

  /** How many components the primitive's upper or lower bound is bumped at; 0 when none is. */
  function BumpedAt(prefix: Prefix, p: Partial): (k: nat)
    requires |p.parts| <= 3
    ensures k <= |p.parts|
  {
    match prefix
    case Equal => if |p.parts| < 3 then |p.parts| else 0
    case Above => if |p.parts| < 3 then |p.parts| else 0
    case AtMost => if |p.parts| < 3 then |p.parts| else 0
    case AtLeast => 0
    case Under => 0
    case Caret => CaretWidth(p)
    case Tilde => TildeWidth(p)
  }

  /** The bound does not fit: the component to bump is already the largest integer. */
  predicate Overflows(prefix: Prefix, p: Partial)
    requires |p.parts| <= 3
  {
    var k := BumpedAt(prefix, p);
    k > 0 && p.parts[k - 1] == MAX_INT
  }

  lemma StableAgainst(v: Version, w: Version)
    requires v.Stable()
    ensures TripleBelow(v, w) ==> Compare(v, w) < 0
    ensures TripleBelow(w, v) ==> Compare(v, w) > 0
    ensures SameTriple(v, w) ==> Compare(v, w) == (if w.Stable() then 0 else 1)
  {}

  /** Leading components as triples, so that the solver sees each position. */
  lemma PartialPositions(v: Version, p: Partial)
    requires ValidPartial(p)
    ensures |p.parts| == 0 ==> !Precedes(v, p) && !Follows(v, p)
    ensures |p.parts| == 1 ==> (Precedes(v, p) <==> v.major < p.Major()) && (Follows(v, p) <==> v.major > p.Major())
    ensures |p.parts| == 2 ==> (Precedes(v, p) <==>
      v.major < p.Major() || (v.major == p.Major() && v.minor < p.Minor()))
    ensures |p.parts| == 2 ==> (Follows(v, p) <==> v.major > p.Major() || (v.major == p.Major() && v.minor > p.Minor()))
    ensures |p.parts| == 3
      ==> (Precedes(v, p) <==> TripleBelow(v, p.Full())) && (Follows(v, p) <==> TripleBelow(p.Full(), v))
    ensures |p.parts| >= 1 ==> (Agrees(v, p, 1) <==> v.major == p.Major())
    ensures |p.parts| >= 2 ==> (Agrees(v, p, 2) <==> v.major == p.Major() && v.minor == p.Minor())
    ensures |p.parts| == 3 ==> (Agrees(v, p, 3) <==> SameTriple(v, p.Full()))
  {
    assert Component(v, 0) == v.major && Component(v, 1) == v.minor && Component(v, 2) == v.patch;
    if |p.parts| >= 1 && v.major != p.Major() { assert Agrees(v, p, 0); }
    if |p.parts| >= 2 && v.major == p.Major() && v.minor != p.Minor() { assert Agrees(v, p, 1); }
    if |p.parts| == 3 && v.major == p.Major() && v.minor == p.Minor() && v.patch != p.Patch() {
      assert Agrees(v, p, 2);
    }
  }

  lemma SingleSatisfies(c: Comparator, v: Version)
    requires v.Stable()
    ensures SetSatisfies([c], v) <==> Matches(c, v)
  {
    assert c in [c];
  }

  lemma PairSatisfies(a: Comparator, b: Comparator, v: Version)
    requires v.Stable()
    ensures SetSatisfies([a, b], v) <==> Matches(a, v) && Matches(b, v)
  {
    assert a in [a, b] && b in [a, b];
  }

  /** On stable versions every comparator the table produces compares triples. */
  lemma StableBounds(v: Version)
    requires WellFormed(v) && v.Stable()
    ensures forall major, minor, patch :: Matches(Before(major, minor, patch), v) <==>
      TripleBelow(v, Plain(major, minor, patch))
    ensures forall w :: Matches(From(w), v) <==> !TripleBelow(v, w)
  {
    forall major, minor, patch
      ensures Matches(Before(major, minor, patch), v) <==> TripleBelow(v, Plain(major, minor, patch))
    {
      BelowLowest(v, major, minor, patch);
    }
    forall w ensures Matches(From(w), v) <==> !TripleBelow(v, w) {
      StableAgainst(v, w);
    }
  }

  lemma DesugarSatisfies(prefix: Prefix, p: Partial, v: Version)
    requires v.Stable()
    ensures var s := Desugar(prefix, p);
      |s| in {1, 2}
      && (|s| == 1 ==> (SetSatisfies(s, v) <==> Matches(s[0], v)))
      && (|s| == 2 ==> (SetSatisfies(s, v) <==> Matches(s[0], v) && Matches(s[1], v)))
  {
    var s := Desugar(prefix, p);
    if |s| == 1 {
      assert s == [s[0]];
      SingleSatisfies(s[0], v);
    } else {
      assert s == [s[0], s[1]];
      PairSatisfies(s[0], s[1], v);
    }
  }

  /** Desugaring keeps the meaning of every primitive, for every stable version. */
  lemma DesugarKeepsMeaning(prefix: Prefix, p: Partial, v: Version)
    requires ValidPartial(p) && WellFormed(v) && v.Stable() && !Overflows(prefix, p)
    ensures SetSatisfies(Desugar(prefix, p), v) <==> Meaning(prefix, p, v)
  {
    PartialPositions(v, p);
    StableBounds(v);
    StableAgainst(v, p.Full());
    DesugarSatisfies(prefix, p, v);
  }

  /** A bound that overflows loses the meaning: some stable version tells them apart. */
  lemma OverflowLosesMeaning(prefix: Prefix, p: Partial) returns (v: Version)
    requires ValidPartial(p) && Overflows(prefix, p)
    ensures WellFormed(v) && v.Stable()
    ensures SetSatisfies(Desugar(prefix, p), v) != Meaning(prefix, p, v)
  {
    v := Plain(p.Major(), p.Minor(), p.Patch());
    PartialPositions(v, p);
    StableBounds(v);
    StableAgainst(v, p.Full());
    DesugarSatisfies(prefix, p, v);
  }

  /** So the table is right about a primitive exactly when its bound fits. */
  lemma MeaningIffBoundFits(prefix: Prefix, p: Partial)
    requires ValidPartial(p)
    ensures (forall v :: WellFormed(v) && v.Stable() ==>
      (SetSatisfies(Desugar(prefix, p), v) <==> Meaning(prefix, p, v)))
       <==> !Overflows(prefix, p)
  {
    if Overflows(prefix, p) {
      var v := OverflowLosesMeaning(prefix, p);
    } else {
      forall v | WellFormed(v) && v.Stable()
        ensures SetSatisfies(Desugar(prefix, p), v) <==> Meaning(prefix, p, v)
      {
        DesugarKeepsMeaning(prefix, p, v);
      }
    }
  }

  /** A bound `M.m.p-0` admits no prerelease on its own triple. */
  lemma BoundAdmitsNoneOfItsPrereleases(major: int, minor: int, patch: int, v: Version)
    requires WellFormed(v) && Matches(Before(major, minor, patch), v)
    ensures !NamesPrerelease(Before(major, minor, patch), v)
  {
    BelowLowest(v, major, minor, patch);
  }

  /** A comparator that lets a prerelease in is the primitive's own version, not a desugared bound. */
  lemma OnlyOwnPrereleaseNamed(prefix: Prefix, p: Partial, c: Comparator, v: Version)
    requires ValidPartial(p) && WellFormed(v)
    requires c in Desugar(prefix, p) && NamesPrerelease(c, v) && Matches(c, v)
    ensures |p.parts| == 3 && p.prerelease != [] && SameTriple(p.Full(), v) && c == Desugar(prefix, p)[0]
  {
    if c.op == Lt && c.version.prerelease == ["0"] {
      BelowLowest(v, c.version.major, c.version.minor, c.version.patch);
    }
  }

  /** On its own triple, the primitive's upper bound plays no part. */
  lemma OwnTriple(prefix: Prefix, p: Partial, v: Version)
    requires ValidPartial(p) && WellFormed(v) && !Overflows(prefix, p)
    requires |p.parts| == 3 && p.prerelease != [] && SameTriple(p.Full(), v)
    ensures var s := Desugar(prefix, p);
      NamesPrerelease(s[0], v)
      && (Matches(s[0], v) <==> MeaningForPrerelease(prefix, p, v))
      && (|s| == 2 ==> Matches(s[1], v))
  {
    if prefix == Caret || prefix == Tilde {
      var bound := Desugar(prefix, p)[1].version;
      BelowLowest(v, bound.major, bound.minor, bound.patch);
    }
  }

  /** On its own triple, an upper bound that wrapped around refuses everything. */
  lemma WrappedBoundRefuses(prefix: Prefix, p: Partial, v: Version)
    requires ValidPartial(p) && WellFormed(v) && Overflows(prefix, p)
    requires |p.parts| == 3 && SameTriple(p.Full(), v)
    ensures !SetSatisfies(Desugar(prefix, p), v)
  {
    var s := Desugar(prefix, p);
    assert prefix == Caret || prefix == Tilde;
    assert s[1] in s;
    var bound := s[1].version;
    BelowLowest(v, bound.major, bound.minor, bound.patch);
  }

  /** Which prereleases a primitive admits, whatever bounds it was desugared to: none when a bound wrapped around. */
  lemma DesugarPrereleases(prefix: Prefix, p: Partial, v: Version)
    requires ValidPartial(p) && WellFormed(v) && !v.Stable()
    ensures SetSatisfies(Desugar(prefix, p), v) <==> MeaningForPrerelease(prefix, p, v) && !Overflows(prefix, p)
  {
    var s := Desugar(prefix, p);
    if |p.parts| == 3 && p.prerelease != [] && SameTriple(p.Full(), v) {
      if Overflows(prefix, p) {
        WrappedBoundRefuses(prefix, p, v);
      } else {
        OwnTriple(prefix, p, v);
        assert s[0] in s;
        assert |s| == 1 ==> s == [s[0]];
        assert |s| == 2 ==> s == [s[0], s[1]];
      }
    } else {
      forall c | c in s && NamesPrerelease(c, v) && Matches(c, v) ensures false {
        OnlyOwnPrereleaseNamed(prefix, p, c, v);
      }
    }
  }

  /** So the table is right about the prereleases of a primitive exactly when it names none or its bound fits. */
  lemma PrereleasesIffBoundFits(prefix: Prefix, p: Partial)
    requires ValidPartial(p)
    ensures (forall v :: WellFormed(v) && !v.Stable() ==>
      (SetSatisfies(Desugar(prefix, p), v) <==> MeaningForPrerelease(prefix, p, v)))
       <==> p.prerelease == [] || !Overflows(prefix, p)
  {
    hide SetSatisfies, Desugar;
    forall v | WellFormed(v) && !v.Stable()
      ensures SetSatisfies(Desugar(prefix, p), v) <==> MeaningForPrerelease(prefix, p, v) && !Overflows(prefix, p)
    {
      DesugarPrereleases(prefix, p, v);
    }
    if p.prerelease != [] && Overflows(prefix, p) {
      var v := p.Full();
      CompareAntisymmetric(v, v);
      assert WellFormed(v) && !v.Stable() && MeaningForPrerelease(prefix, p, v);
    }
  }
}
