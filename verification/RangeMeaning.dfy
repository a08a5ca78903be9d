/** What a range text means: each operator as it is written, sets of primitives, and alternatives. */
module RangeMeaning {
  import opened Wrappers
  import opened Texts
  import opened Semver
  import opened Ranges
  import opened RangeText

  // --------------------------------------------------- a primitive as written

  const OPERATORS: set<string> := {"", "=", ">=", ">", "<=", "<", "^", "~"}

  /** The components behind the given ones: none, or a free one and anything that stands in a component. */
  predicate FreeTail(p: Partial, tail: seq<string>) {
    && |p.parts| + |tail| <= 3 && (tail == [] ==> p.parts != []) && (tail != [] ==> tail[0] in {"x", "X", "*"})
    && forall part :: part in tail ==> ComponentText(part)
  }

  predicate ComponentText(part: string) {
    forall i :: 0 <= i < |part| ==> part[i] != '.' && part[i] != '-' && PlainChar(part[i])
  }

  function Numbers(parts: seq<int>): (texts: seq<string>)
    ensures |texts| == |parts|
  {
    seq(|parts|, i requires 0 <= i < |parts| => PrintInt(parts[i]))
  }

  /** A partial as it is written: given numbers, then free components or a prerelease. */
  function Written(p: Partial, tail: seq<string>): string
    requires FreeTail(p, tail)
  {
    Join(Numbers(p.parts) + tail, '.') + if p.prerelease == [] then "" else "-" + Join(p.prerelease, '.')
  }

  /** Which stable versions the operator asks for, said of the partial behind it. */
  predicate Asks(op: string, p: Partial, v: Version)
    requires |p.parts| <= 3
  {
    if op == ">=" then !Precedes(v, p)
    else if op == "<" then Precedes(v, p)
    else if op == ">" then if p.prerelease == [] then Follows(v, p) else !Precedes(v, p)
    else if op == "<=" then if p.prerelease == [] then !Follows(v, p) else Precedes(v, p)
    else if op == "^" then !Precedes(v, p) && SameUpToLeftmostNonZero(v, p)
    else if op == "~" then !Precedes(v, p) && SameMajorMinor(v, p)
    else Agrees(v, p, |p.parts|) && p.prerelease == []
  }

  /** The components in front of the i-th are all zero. */
  predicate ZerosBefore(p: Partial, i: nat)
    requires i < |p.parts|
  {
    forall j :: 0 <= j < i ==> p.parts[j] == 0
  }

  /** The caret lets components vary only behind the leftmost that is not zero. */
  predicate SameUpToLeftmostNonZero(v: Version, p: Partial)
    requires |p.parts| <= 3
  {
    forall i :: 0 <= i < |p.parts| && ZerosBefore(p, i) ==> Component(v, i) == p.parts[i]
  }

  /** The tilde keeps major and minor as far as they are given. */
  predicate SameMajorMinor(v: Version, p: Partial) {
    (|p.parts| >= 1 ==> v.major == p.parts[0]) && (|p.parts| >= 2 ==> v.minor == p.parts[1])
  }

  /** Which prereleases it asks for: only those on the triple of the prerelease that is named. */
  predicate AsksPrerelease(op: string, p: Partial, v: Version) {
    && p.prerelease != [] && SameTriple(p.Full(), v)
    && var order := Compare(v, p.Full());
       if op == ">=" || op == "^" || op == "~" then order >= 0
       else if op == ">" then order > 0
       else if op == "<" then order < 0
       else if op == "<=" then order <= 0
       else order == 0
  }

  /** The component that the operator counts one up for its bound is the largest integer already. */
  predicate BoundWraps(op: string, p: Partial)
    requires |p.parts| <= 3
  {
    if op == "^" then
      exists i :: 0 <= i < |p.parts| && ZerosBefore(p, i) && p.parts[i] == MAX_INT
    else if op == "~" then
      (|p.parts| == 1 && p.parts[0] == MAX_INT) || (|p.parts| >= 2 && p.parts[1] == MAX_INT)
    else
      op !in {">=", "<"} && 0 < |p.parts| < 3 && p.parts[|p.parts| - 1] == MAX_INT
  }

  // ------------------------------------------------------------ it is read so

  ghost function PrefixNamed(op: string): Prefix {
    if op == ">=" then AtLeast else if op == ">" then Above else if op == "<=" then AtMost else if op == "<" then Under
    else if op == "^" then Caret else if op == "~" then Tilde else Equal
  }

  predicate StartsPartial(text: string) { text != "" && (IsDigit(text[0]) || text[0] in "xX*") }

  lemma OperatorRead(op: string, rest: string)
    requires op in OPERATORS && StartsPartial(rest)
    ensures SplitPrefix(op + rest) == (PrefixNamed(op), rest)
    ensures op + rest != "latest"
  {
    var text := op + rest;
    assert |op| == 0 ==> text == rest;
    assert |op| == 1 ==> text[1..] == rest && text[0] == op[0] && text[1] == rest[0];
    assert |op| == 2 ==> text[2..] == rest && text[..2] == op;
    assert |text| >= 2 ==> text[..2][0] == text[0] && text[..2][1] == text[1];
    assert "latest"[0] == 'l';
  }

  lemma CaretReads(p: Partial, v: Version)
    requires ValidPartial(p)
    ensures SameUpToLeftmostNonZero(v, p) <==> Agrees(v, p, CaretWidth(p))
    ensures BoundWraps("^", p) <==> Overflows(Caret, p)
  {
    var k := CaretWidth(p);
    forall i | 0 <= i < |p.parts|
      ensures ZerosBefore(p, i) <==> i < k
      ensures i < k - 1 ==> p.parts[i] == 0
    {
      CaretHolds(p, i);
    }
    if Overflows(Caret, p) { assert ZerosBefore(p, k - 1); }
  }

  lemma CaretHolds(p: Partial, i: nat)
    requires ValidPartial(p) && i < |p.parts|
    ensures ZerosBefore(p, i) <==> i < CaretWidth(p)
    ensures i < CaretWidth(p) - 1 ==> p.parts[i] == 0
  {
    var k := CaretWidth(p);
    if i >= k { assert p.parts[k - 1] != 0; }
  }

  lemma AsksIsMeaning(op: string, p: Partial, v: Version)
    requires ValidPartial(p) && op in OPERATORS
    ensures Asks(op, p, v) <==> Meaning(PrefixNamed(op), p, v)
    ensures AsksPrerelease(op, p, v) <==> MeaningForPrerelease(PrefixNamed(op), p, v)
    ensures BoundWraps(op, p) <==> Overflows(PrefixNamed(op), p)
  {
    hide Precedes, Follows, SameTriple, Compare;
    CaretReads(p, v);
    PartialPositions(v, p);
  }

  lemma {:induction false} NumbersRead(parts: seq<int>, tail: seq<string>)
    requires forall i :: 0 <= i < |parts| ==> 0 <= parts[i] <= MAX_INT
    requires tail != [] ==> Free(tail[0])
    ensures GivenParts(Numbers(parts) + tail) == Some(parts)
  {
    hide Free, PrintInt;
    if parts == [] {
      assert Numbers(parts) + tail == tail;
    } else {
      NumberIsNotFree(parts[0]);
      NumeralSurvives(parts[0]);
      NumbersRead(parts[1..], tail);
      assert Numbers(parts) + tail == [PrintInt(parts[0])] + (Numbers(parts[1..]) + tail);
      GivenPartsStep(PrintInt(parts[0]), Numbers(parts[1..]) + tail);
      assert [parts[0]] + parts[1..] == parts;
    }
  }

  lemma FreeAre(part: string)
    ensures Free(part) <==> part in {"x", "X", "*"}
  {}

  lemma NumberIsNotFree(n: int)
    requires 0 <= n
    ensures !Free(PrintInt(n)) && IsDigit(PrintInt(n)[0])
  {
    NumeralNotFree(n);
  }

  lemma ComponentsPlain(p: Partial, tail: seq<string>)
    requires ValidPartial(p) && FreeTail(p, tail)
    ensures forall part :: part in Numbers(p.parts) + tail ==> ComponentText(part)
    ensures forall part :: part in Numbers(p.parts) + tail ==> '.' !in part
    ensures (Numbers(p.parts) + tail)[0] != "" && StartsPartial((Numbers(p.parts) + tail)[0])
  {
    forall i | 0 <= i < |p.parts| ensures ComponentText(PrintInt(p.parts[i])) && StartsPartial(PrintInt(p.parts[i])) {
      NumberText(p.parts[i]);
    }
    assert p.parts == [] ==> (Numbers(p.parts) + tail)[0] == tail[0];
  }

  lemma NumberText(n: int)
    requires 0 <= n <= MAX_INT
    ensures ComponentText(PrintInt(n)) && StartsPartial(PrintInt(n))
  {
    NumeralNotFree(n);
    forall i | 0 <= i < |PrintInt(n)|
      ensures PlainChar(PrintInt(n)[i]) && PrintInt(n)[i] != '.' && PrintInt(n)[i] != '-'
    {
      assert IsDigit(PrintInt(n)[i]);
    }
  }

  predicate CoreText(text: string) { forall i :: 0 <= i < |text| ==> text[i] != '-' && PlainChar(text[i]) }

  lemma {:induction false} JoinedComponents(parts: seq<string>)
    requires parts != [] && forall part :: part in parts ==> ComponentText(part)
    ensures CoreText(Join(parts, '.'))
      && (parts[0] != "" ==> Join(parts, '.') != "" && Join(parts, '.')[0] == parts[0][0])
  {
    assert ComponentText(parts[0]);
    if |parts| > 1 { JoinedComponents(parts[1..]); }
  }

  lemma PlainPrerelease(core: string, pre: seq<string>)
    requires CoreText(core) && core != "" && pre != [] && forall part :: part in pre ==> Identifier(part)
    ensures PlainWord(core + "-" + Join(pre, '.'))
  {
    hide Identifier, Join;
    PlainIdentifiers(pre);
    PlainJoin(core + "-", Join(pre, '.'));
  }

  /** The text of a partial is read as the partial. */
  lemma WrittenIsRead(p: Partial, tail: seq<string>)
    requires ValidPartial(p) && FreeTail(p, tail)
    ensures ParsePartial(Written(p, tail)) == Some(p)
    ensures StartsPartial(Written(p, tail)) && PlainWord(Written(p, tail))
  {
    hide Identifier, PrintInt, Free, Join, ComponentText, PlainChar, GivenParts, Split, IndexOf;
    var parts := Numbers(p.parts) + tail;
    var core := Join(parts, '.');
    ComponentsPlain(p, tail);
    JoinedComponents(parts);
    SplitOfJoin(parts, '.');
    if tail != [] { FreeAre(tail[0]); }
    NumbersRead(p.parts, tail);
    assert PartialCore(core) == Some(p.parts);
    assert '-' !in core;
    if p.prerelease == [] {
      assert Written(p, tail) == core + "" == core;
      assert IndexOf(core, '-').None?;
    } else {
      var behind := Join(p.prerelease, '.');
      IdentifiersJoined(p.prerelease);
      IndexOfFirst(core, '-', behind);
      var text := Written(p, tail);
      assert text == core + ['-'] + behind;
      assert text[..|core|] == core && text[|core| + 1..] == behind;
      PlainPrerelease(core, p.prerelease);
    }
  }

  lemma OneWord(word: string)
    requires PlainWord(word) && word != "latest" && DesugarPrimitive(word).Some?
    ensures ParseRange(word) == Some([DesugarPrimitive(word).value])
  {
    hide DesugarPrimitive, PlainChar;
    assert Join([word], ' ') == word;
    FieldsOfJoin([word]);
    PlainIsBarFree(word);
    BarsOne(word);
    var s := DesugarPrimitive(word).value;
    assert [word][1..] == [] && s + [] == s && [s] + [] == [s];
    assert ParsePrimitives([word]) == Some(s);
    assert ParseSet(word) == Some(s);
    OneSet(word, s);
  }

  lemma OneSet(text: string, s: ComparatorSet)
    requires ParseSet(text) == Some(s)
    ensures ParseSets([text]) == Some([s])
  {
    assert [text][1..] == [] && [s] + [] == [s];
  }

  lemma PlainIsBarFree(word: string)
    requires PlainWord(word)
    ensures BarFree(word)
  {}

  lemma OperatorIsPlain(op: string, rest: string)
    requires op in OPERATORS && PlainWord(rest)
    ensures PlainWord(op + rest)
  {}

  lemma OneSetSatisfies(s: ComparatorSet, v: Version)
    ensures RangeSatisfies([s], v) <==> SetSatisfies(s, v)
  {
    assert s in [s];
  }

  lemma PrimitiveParses(op: string, p: Partial, tail: seq<string>)
    requires op in OPERATORS && ValidPartial(p) && FreeTail(p, tail)
    ensures ParseRange(op + Written(p, tail)) == Some([Desugar(PrefixNamed(op), p)])
  {
    hide Written, ParsePartial, Desugar, SplitPrefix, StartsPartial, PlainWord;
    WrittenIsRead(p, tail);
    OperatorRead(op, Written(p, tail));
    DesugarPrimitiveAs(op + Written(p, tail), PrefixNamed(op), Written(p, tail), Some(p));
    OperatorIsPlain(op, Written(p, tail));
    OneWord(op + Written(p, tail));
  }

  /**
   * A primitive as written: its text parses, and it admits exactly the stable versions its
   * operator asks for, for all of them exactly when its bound does not wrap around.
   */
  lemma OperatorMeans(op: string, p: Partial, tail: seq<string>)
    requires op in OPERATORS && ValidPartial(p) && FreeTail(p, tail)
    ensures var range := ParseRange(op + Written(p, tail));
      range.Some?
      && ((forall v :: WellFormed(v) && v.Stable() ==> (RangeSatisfies(range.value, v) <==> Asks(op, p, v)))
          <==> !BoundWraps(op, p))
  {
    hide Written, Desugar, SetSatisfies, RangeSatisfies, Meaning, Asks, BoundWraps, Overflows, ParseRange,
      AsksPrerelease;
    PrimitiveParses(op, p, tail);
    var s := Desugar(PrefixNamed(op), p);
    forall v
      ensures RangeSatisfies([s], v) <==> SetSatisfies(s, v)
      ensures Asks(op, p, v) <==> Meaning(PrefixNamed(op), p, v)
      ensures BoundWraps(op, p) <==> Overflows(PrefixNamed(op), p)
    {
      OneSetSatisfies(s, v);
      AsksIsMeaning(op, p, v);
    }
    AsksIsMeaning(op, p, p.Full());
    MeaningIffBoundFits(PrefixNamed(op), p);
  }

  /** And exactly the prereleases it asks for, none when its bound wraps around. */
  lemma OperatorMeansPrereleases(op: string, p: Partial, tail: seq<string>, v: Version)
    requires op in OPERATORS && ValidPartial(p) && FreeTail(p, tail) && WellFormed(v) && !v.Stable()
    ensures var range := ParseRange(op + Written(p, tail));
      range.Some? && (RangeSatisfies(range.value, v) <==> AsksPrerelease(op, p, v) && !BoundWraps(op, p))
  {
    hide Written, Desugar, SetSatisfies, RangeSatisfies, Meaning, Asks, BoundWraps, Overflows, ParseRange,
      AsksPrerelease;
    PrimitiveParses(op, p, tail);
    OneSetSatisfies(Desugar(PrefixNamed(op), p), v);
    AsksIsMeaning(op, p, v);
    DesugarPrereleases(PrefixNamed(op), p, v);
  }

  /** The word `latest` asks for any stable version. */
  lemma LatestMeansAny(v: Version)
    requires WellFormed(v)
    ensures ParseRange("latest").Some? && (RangeSatisfies(ParseRange("latest").value, v) <==> v.Stable())
  {
    StarParses();
    assert ParseRange("latest") == ParseRange("*");
    OneSetSatisfies([Any], v);
    assert Any in [Any];
  }

  // ------------------------------------------------- nothing else is read

  lemma {:induction false} GivenAreNumbers(parts: seq<string>)
    requires GivenParts(parts).Some?
    ensures var given := GivenParts(parts).value;
      |given| <= |parts| && parts == Numbers(given) + parts[|given|..] && (|given| < |parts| ==> Free(parts[|given|]))
  {
    hide Free, PrintInt;
    if parts != [] && !Free(parts[0]) {
      GivenAreNumbers(parts[1..]);
      var given, rest := GivenParts(parts).value, GivenParts(parts[1..]).value;
      assert given == [ParseNumeric(parts[0]).value] + rest;
      assert Numbers(given) == [parts[0]] + Numbers(rest);
      assert parts == [parts[0]] + parts[1..];
      assert parts[1..][|rest|..] == parts[|given|..];
    }
  }

  lemma {:induction false} PartsArePlain(core: string)
    requires CoreText(core)
    ensures forall part :: part in Split(core, '.') ==> ComponentText(part)
  {
    if core != "" {
      PartsArePlain(core[1..]);
      var rest := Split(core[1..], '.');
      assert rest[0] in rest;
      forall part | part in Split(core, '.') ensures ComponentText(part) {
        assert part in rest || part == "" || part == [core[0]] + rest[0];
      }
    }
  }

  lemma CoreIsWritten(core: string) returns (tail: seq<string>)
    requires PartialCore(core).Some? && core != "" && CoreText(core)
    ensures var p := Partial(PartialCore(core).value, []);
      ValidPartial(p) && FreeTail(p, tail) && Written(p, tail) == core
  {
    hide Free, PrintInt, Join, CoreText, ComponentText;
    var parts := Split(core, '.');
    var given := PartialCore(core).value;
    GivenAreNumbers(parts);
    GivenPartsValid(parts);
    PartsArePlain(core);
    JoinOfSplit(core, '.');
    tail := parts[|given|..];
    if tail != [] { FreeAre(tail[0]); }
    assert Numbers(given) + tail == parts && core + "" == core;
  }

  lemma PartialIsWritten(text: string) returns (p: Partial, tail: seq<string>)
    requires ParsePartial(text).Some? && PlainWord(text)
    ensures ValidPartial(p) && FreeTail(p, tail) && text == Written(p, tail) && ParsePartial(text) == Some(p)
  {
    hide Free, PrintInt, Join, ComponentText, Identifier, Split, GivenParts, ValidPartial, FreeTail;
    p := ParsePartial(text).value;
    ParsePartialValid(text);
    match IndexOf(text, '-')
    case None => tail := CoreIsWritten(text);
    case Some(dash) =>
      var core := text[..dash];
      CoreNotEmpty(core);
      tail := CoreIsWritten(core);
      JoinOfSplit(text[dash + 1..], '.');
      WithPrerelease(p, tail, core);
      assert text == core + "-" + text[dash + 1..];
  }

  lemma WithPrerelease(p: Partial, tail: seq<string>, core: string)
    requires var bare := Partial(p.parts, []); FreeTail(bare, tail) && Written(bare, tail) == core
    ensures FreeTail(p, tail)
    ensures Written(p, tail) == core + if p.prerelease == [] then "" else "-" + Join(p.prerelease, '.')
  {
    hide Join, ComponentText, Free;
    var joined := Join(Numbers(p.parts) + tail, '.');
    assert joined + "" == joined;
  }

  lemma CoreNotEmpty(core: string)
    requires PartialCore(core).Some?
    ensures core != ""
  {
    NothingAfterDot();
  }

  lemma OperatorSplit(word: string) returns (op: string, rest: string)
    ensures op in OPERATORS && word == op + rest && SplitPrefix(word) == (PrefixNamed(op), rest)
  {
    rest := SplitPrefix(word).1;
    op := word[..|word| - |rest|];
    assert |word| >= 2 ==> word == word[..2] + word[2..];
    assert |word| >= 1 ==> word == [word[0]] + word[1..] && word[..1] == [word[0]];
  }

  /** A word is read exactly when it is an operator and a partial, written as above. */
  lemma WordsRead(word: string)
    requires PlainWord(word)
    ensures DesugarPrimitive(word).Some? <==>
      exists op, p, tail :: op in OPERATORS && ValidPartial(p) && FreeTail(p, tail) && word == op + Written(p, tail)
  {
    hide Written, ParsePartial, Desugar, SplitPrefix, StartsPartial, PlainWord, FreeTail, ValidPartial;
    forall op, p, tail | op in OPERATORS && ValidPartial(p) && FreeTail(p, tail) && word == op + Written(p, tail)
      ensures DesugarPrimitive(word).Some?
    {
      WrittenIsRead(p, tail);
      OperatorRead(op, Written(p, tail));
      DesugarPrimitiveAs(word, PrefixNamed(op), Written(p, tail), Some(p));
    }
    if DesugarPrimitive(word).Some? {
      var op, rest := OperatorSplit(word);
      BehindOperator(word, op, rest);
      var p, tail := PartialIsWritten(rest);
      assert word == op + Written(p, tail);
    }
  }

  lemma BehindOperator(word: string, op: string, rest: string)
    requires PlainWord(word) && word == op + rest && ParsePartial(rest).Some?
    ensures PlainWord(rest)
  {
    assert rest != "";
    forall i | 0 <= i < |rest| ensures PlainChar(rest[i]) { assert rest[i] == word[|op| + i]; }
  }

  // --------------------------------------------------- sets and alternatives

  /** White space up to U+00FF. */
  predicate Blank(c: char) { c in {' ', '\t', '\n', '\U{0B}', '\U{0C}', '\r', '\U{85}', '\U{A0}'} }

  lemma FieldsBlank(c: char, rest: string)
    requires IsSpace(c)
    ensures Fields([c] + rest) == Fields(rest)
  {
    assert ([c] + rest)[1..] == rest;
  }

  lemma FieldsLetter(c: char, rest: string)
    requires !IsSpace(c)
    ensures rest == "" || IsSpace(rest[0]) ==> Fields([c] + rest) == [[c]] + Fields(rest)
    ensures rest != "" && !IsSpace(rest[0]) && Fields(rest) != [] ==>
      Fields([c] + rest) == [[c] + Fields(rest)[0]] + Fields(rest)[1..]
  {
    var text := [c] + rest;
    assert text[1..] == rest && (rest != "" ==> text[1] == rest[0]);
    assert rest == "" ==> Fields(rest) == [] && [[c]] + [] == [[c]];
  }

  lemma {:induction false} FieldsOfTwo(a: string, c: char, b: string)
    requires Blank(c)
    ensures Fields(a + [c] + b) == Fields(a) + Fields(b)
  {
    hide Fields, IsSpace;
    BlankIsSpace(c);
    if a == "" {
      assert a + [c] + b == [c] + b;
      NoFields();
      FieldsBlank(c, b);
    } else {
      var rest := a[1..];
      assert a == [a[0]] + rest && a + [c] + b == [a[0]] + (rest + [c] + b);
      FieldsOfTwo(rest, c, b);
      if IsSpace(a[0]) {
        FieldsBlank(a[0], rest);
        FieldsBlank(a[0], rest + [c] + b);
      } else {
        assert (rest + [c] + b)[0] == if rest == "" then c else rest[0];
        if rest != "" && !IsSpace(rest[0]) { FieldsStart(rest); }
        FieldsLetter(a[0], rest);
        FieldsLetter(a[0], rest + [c] + b);
      }
    }
  }

  lemma NoFields()
    ensures Fields("") == []
  {}

  lemma BlankIsSpace(c: char)
    requires Blank(c)
    ensures IsSpace(c)
  {}

  lemma FieldsStart(text: string)
    requires text != "" && !IsSpace(text[0])
    ensures Fields(text) != []
  {}

  lemma {:induction false} PrimitivesOfTwo(a: seq<string>, b: seq<string>)
    ensures ParsePrimitives(a + b)
         == if ParsePrimitives(a).None? then None else Prepend(ParsePrimitives(a).value, ParsePrimitives(b))
  {
    hide DesugarPrimitive;
    if a == [] {
      assert a + b == b;
      PrependNothing(ParsePrimitives(b));
    } else {
      PrimitivesOfTwo(a[1..], b);
      assert (a + b)[1..] == a[1..] + b;
      if DesugarPrimitive(a[0]).Some? && ParsePrimitives(a[1..]).Some? {
        PrependAssociative(DesugarPrimitive(a[0]).value, ParsePrimitives(a[1..]).value, ParsePrimitives(b));
      }
    }
  }

  predicate Keyword(text: string) { text == "latest" }

  lemma OneAlternative(text: string)
    requires BarFree(text) && !Keyword(text)
    ensures ParseRange(text) == if ParseSet(text).None? then None else Some([ParseSet(text).value])
  {
    BarsOne(text);
    if ParseSet(text).Some? { OneSet(text, ParseSet(text).value); }
  }

  /** Side by side two sets ask for both: a stable version is admitted exactly when both admit it. */
  lemma SideBySideIsBoth(a: string, c: char, b: string, v: Version)
    requires BarFree(a) && BarFree(b) && !Keyword(a) && !Keyword(b) && Blank(c) && v.Stable()
    requires ParseRange(a).Some? && ParseRange(b).Some?
    ensures ParseRange(a + [c] + b).Some?
    ensures RangeSatisfies(ParseRange(a + [c] + b).value, v)
       <==> RangeSatisfies(ParseRange(a).value, v) && RangeSatisfies(ParseRange(b).value, v)
  {
    hide Fields, ParsePrimitives, Matches, RangeSatisfies, SplitBars;
    FieldsOfTwo(a, c, b);
    PrimitivesOfTwo(Fields(a), Fields(b));
    OneAlternative(a);
    OneAlternative(b);
    assert (a + [c] + b)[|a|] == c && forall i :: 0 <= i < 6 ==> "latest"[i] != c;
    OneAlternative(a + [c] + b);
    var s, t := ParseSet(a).value, ParseSet(b).value;
    OneSetSatisfies(s, v);
    OneSetSatisfies(t, v);
    OneSetSatisfies(s + t, v);
  }

  lemma BarsAtBars(rest: string)
    ensures SplitBars("||" + rest) == [""] + SplitBars(rest)
  {
    assert ("||" + rest)[2..] == rest;
  }

  lemma BarsAtOther(c: char, rest: string)
    requires c != '|' || rest == "" || rest[0] != '|'
    ensures SplitBars([c] + rest) == [[c] + SplitBars(rest)[0]] + SplitBars(rest)[1..]
  {
    assert ([c] + rest)[1..] == rest;
  }

  lemma {:induction false} BarsOfTwo(a: string, b: string)
    requires a == "" || a[|a| - 1] != '|'
    ensures SplitBars(a + "||" + b) == SplitBars(a) + SplitBars(b)
    decreases |a|
  {
    hide SplitBars;
    if a == "" {
      EmptyHasOnePart();
      BarsAtBars(b);
      assert a + "||" + b == "||" + b;
    } else if |a| >= 2 && a[0] == '|' && a[1] == '|' {
      var rest := a[2..];
      assert a == "||" + rest && a + "||" + b == "||" + (rest + "||" + b);
      BarsOfTwo(rest, b);
      BarsAtBars(rest);
      BarsAtBars(rest + "||" + b);
      assert [""] + (SplitBars(rest) + SplitBars(b)) == [""] + SplitBars(rest) + SplitBars(b);
    } else {
      var rest := a[1..];
      assert a == [a[0]] + rest && a + "||" + b == [a[0]] + (rest + "||" + b);
      BarsOfTwo(rest, b);
      BarsAtOther(a[0], rest);
      BarsAtOther(a[0], rest + "||" + b);
      var parts := SplitBars(rest);
      assert (parts + SplitBars(b))[0] == parts[0] && (parts + SplitBars(b))[1..] == parts[1..] + SplitBars(b);
    }
  }

  lemma EmptyHasOnePart()
    ensures SplitBars("") == [""]
  {}

  lemma {:induction false} SetsOfTwo(a: seq<string>, b: seq<string>)
    ensures ParseSets(a + b) == if ParseSets(a).None? then None else Prepend(ParseSets(a).value, ParseSets(b))
  {
    hide ParseSet;
    if a == [] {
      assert a + b == b;
      PrependNothing(ParseSets(b));
    } else {
      SetsOfTwo(a[1..], b);
      assert (a + b)[1..] == a[1..] + b;
      if ParseSet(a[0]).Some? && ParseSets(a[1..]).Some? {
        PrependAssociative([ParseSet(a[0]).value], ParseSets(a[1..]).value, ParseSets(b));
      }
    }
  }

  /** Alternatives parse exactly when both sides do, and admit what either side admits, prereleases included. */
  lemma AlternativesAreEither(a: string, b: string, v: Version)
    requires !Keyword(a) && !Keyword(b) && (a == "" || a[|a| - 1] != '|')
    ensures ParseRange(a + "||" + b).Some? <==> ParseRange(a).Some? && ParseRange(b).Some?
    ensures ParseRange(a + "||" + b).Some? ==>
      (RangeSatisfies(ParseRange(a + "||" + b).value, v)
       <==> RangeSatisfies(ParseRange(a).value, v) || RangeSatisfies(ParseRange(b).value, v))
  {
    hide ParseSets, SplitBars, SetSatisfies;
    BarsOfTwo(a, b);
    SetsOfTwo(SplitBars(a), SplitBars(b));
    assert (a + "||" + b)[|a|] == '|' && forall i :: 0 <= i < 6 ==> "latest"[i] != '|';
  }

  lemma {:induction false} NoWordsIffBlank(text: string)
    ensures Fields(text) == [] <==> forall i :: 0 <= i < |text| ==> IsSpace(text[i])
  {
    if text != "" {
      NoWordsIffBlank(text[1..]);
      assert forall i :: 1 <= i < |text| ==> text[i] == text[1..][i - 1];
      if IsSpace(text[0]) && forall i :: 0 <= i < |text[1..]| ==> IsSpace(text[1..][i]) {
        forall i | 0 <= i < |text| ensures IsSpace(text[i]) { if i > 0 { assert text[i] == text[1..][i - 1]; } }
      }
    }
  }

  /** A blank text, and with it a blank alternative, is no range. */
  lemma BlankDoesNotParse(text: string)
    requires forall i :: 0 <= i < |text| ==> IsSpace(text[i])
    ensures ParseRange(text).None?
  {
    NoWordsIffBlank(text);
    BarsOne(text);
  }
}
