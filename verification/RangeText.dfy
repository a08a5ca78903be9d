/** Printing a desugared range and parsing it again. */
module RangeText {
  import opened Wrappers
  import opened Texts
  import opened Semver
  import opened Ranges

  function PrintOp(op: Op): string {
    match op case Ge => ">=" case Gt => ">" case Le => "<=" case Lt => "<" case Eq => "="
  }

  function PrefixOf(op: Op): Prefix {
    match op case Ge => AtLeast case Gt => Above case Le => AtMost case Lt => Under case Eq => Equal
  }

  function PrintComparator(c: Comparator): string {
    if c.Any? then "*" else PrintOp(c.op) + Print(c.version)
  }

  function PrintAll(comparators: ComparatorSet): (words: seq<string>)
    ensures |words| == |comparators|
  {
    seq(|comparators|, i requires 0 <= i < |comparators| => PrintComparator(comparators[i]))
  }

  function PrintSet(comparators: ComparatorSet): string
    requires comparators != []
  {
    Join(PrintAll(comparators), ' ')
  }

  predicate NonEmptySets(range: Range) {
    range != [] && forall i :: 0 <= i < |range| ==> range[i] != []
  }

  function PrintRange(range: Range): string
    requires NonEmptySets(range)
  {
    if |range| == 1 then PrintSet(range[0]) else PrintSet(range[0]) + "||" + PrintRange(range[1..])
  }

  /** The bound did not wrap around: its numbers are numbers a version can have. */
  predicate Fits(c: Comparator) { c.Cmp? ==> WellFormed(c.version) }

  /** What desugaring produces: numbers up to the largest integer or wrapped below zero, proper identifiers. */
  predicate Desugared(c: Comparator) {
    c.Cmp? ==>
      c.version.major <= MAX_INT && c.version.minor <= MAX_INT && c.version.patch <= MAX_INT
      && forall part :: part in c.version.prerelease ==> Identifier(part)
  }

  // ------------------------------------------------------ one comparator

  lemma NumeralNotFree(n: int)
    requires 0 <= n
    ensures IsDigits(PrintInt(n)) && !Free(PrintInt(n)) && IsDigit(PrintInt(n)[0])
  {
    assert IsDigits(PrintInt(n));
  }

  lemma GivenPartsStep(part: string, rest: seq<string>)
    requires !Free(part)
    ensures GivenParts([part] + rest)
         == if ParseNumeric(part).None? then None else Prepend([ParseNumeric(part).value], GivenParts(rest))
  {
    assert ([part] + rest)[1..] == rest;
  }

  lemma JoinThree(a: string, b: string, c: string)
    ensures Join([a, b, c], '.') == a + "." + b + "." + c
    ensures Join([a, b], '.') == a + "." + b
  {
    assert [a, b, c][1..] == [b, c] && [b, c][1..] == [c] && [a, b][1..] == [b];
    assert Join([b, c], '.') == b + ['.'] + c;
    assert a + ['.'] + (b + ['.'] + c) == a + "." + b + "." + c;
  }

  lemma CoreParts(v: Version)
    requires WellFormed(v)
    ensures PartialCore(PrintCore(v)) == Some([v.major, v.minor, v.patch])
    ensures PrintCore(v) != "" && '-' !in PrintCore(v)
  {
    CoreSurvives(v);
    var a, b, c := PrintInt(v.major), PrintInt(v.minor), PrintInt(v.patch);
    NumeralSurvives(v.major);
    NumeralSurvives(v.minor);
    NumeralSurvives(v.patch);
    NumeralNotFree(v.major);
    NumeralNotFree(v.minor);
    NumeralNotFree(v.patch);
    JoinThree(a, b, c);
    SplitOfJoin([a, b, c], '.');
    GivenPartsStep(c, []);
    assert [c] + [] == [c] && [v.patch] + [] == [v.patch];
    assert GivenParts([c]) == Some([v.patch]);
    GivenPartsStep(b, [c]);
    assert [b] + [c] == [b, c] && [v.minor] + [v.patch] == [v.minor, v.patch];
    assert GivenParts([b, c]) == Some([v.minor, v.patch]);
    GivenPartsStep(a, [b, c]);
    assert [a] + [b, c] == [a, b, c] && [v.major] + [v.minor, v.patch] == [v.major, v.minor, v.patch];
    assert PrintCore(v) == Join([a, b, c], '.');
  }

  lemma PartialOfPrint(v: Version)
    requires WellFormed(v)
    ensures ParsePartial(Print(v)) == Some(Partial([v.major, v.minor, v.patch], v.prerelease))
  {
    hide PrintCore, PartialCore, Split, Join, IndexOf, Identifier, IsDigits, PrintInt, GivenParts;
    CoreParts(v);
    var core := PrintCore(v);
    if v.Stable() {
      assert IndexOf(core, '-').None?;
    } else {
      var tail := Join(v.prerelease, '.');
      IdentifiersJoined(v.prerelease);
      IndexOfFirst(core, '-', tail);
      assert Print(v) == core + ['-'] + tail;
      assert Print(v)[..|core|] == core && Print(v)[|core| + 1..] == tail;
    }
  }

  lemma PrefixOfPrint(op: Op, rest: string)
    requires rest != "" && (rest[0] == '-' || IsDigit(rest[0]))
    ensures SplitPrefix(PrintOp(op) + rest) == (PrefixOf(op), rest)
  {
    var text := PrintOp(op) + rest;
    assert op == Gt || op == Lt || op == Eq ==> text[1..] == rest && text[1] == rest[0];
    assert op == Ge || op == Le ==> text[2..] == rest && text[..2] == PrintOp(op);
    assert |text| >= 2 ==> text[..2][0] == text[0] && text[..2][1] == text[1];
  }

  lemma StarReparses()
    ensures DesugarPrimitive("*") == Some([Any])
  {
    assert SplitPrefix("*") == (Equal, "*");
    assert "*"[1..] == "" && Split("", '.') == [""] && [""][1..] == [];
    assert Split("*", '.') == [['*'] + ""];
    assert ParsePartial("*") == Some(Partial([], []));
  }

  lemma DesugarPrimitiveAs(text: string, prefix: Prefix, rest: string, p: Option<Partial>)
    requires SplitPrefix(text) == (prefix, rest) && ParsePartial(rest) == p
    ensures DesugarPrimitive(text) == if p.None? then None else Some(Desugar(prefix, p.value))
  {}

  lemma DesugarFull(op: Op, p: Partial)
    requires |p.parts| == 3
    ensures Desugar(PrefixOf(op), p) == [Cmp(op, p.Full())]
  {}

  /** A comparator whose numbers fit parses back to itself. */
  lemma FittingReparses(c: Comparator)
    requires Fits(c)
    ensures DesugarPrimitive(PrintComparator(c)) == Some([c])
  {
    if c.Any? {
      StarReparses();
    } else {
      NumeralNotFree(c.version.major);
      assert Print(c.version)[0] == PrintInt(c.version.major)[0];
      PrefixOfPrint(c.op, Print(c.version));
      PartialOfPrint(c.version);
      var p := Partial([c.version.major, c.version.minor, c.version.patch], c.version.prerelease);
      DesugarPrimitiveAs(PrintComparator(c), PrefixOf(c.op), Print(c.version), Some(p));
      DesugarFull(c.op, p);
    }
  }

  lemma NothingAfterDot()
    ensures GivenParts([""]).None? && PartialCore("").None? && !Free("")
  {
    GivenPartsStep("", []);
    assert [""] == [""] + [];
  }

  /** A core that breaks off after a dot, before the minus sign of a wrapped number. */
  lemma BrokenCore(front: seq<int>)
    requires |front| <= 2 && forall i :: 0 <= i < |front| ==> 0 <= front[i]
    ensures var core := if |front| == 0 then "" else if |front| == 1 then PrintInt(front[0]) + "."
      else PrintInt(front[0]) + "." + PrintInt(front[1]) + ".";
      PartialCore(core).None? && '-' !in core
  {
    hide GivenParts, Split, Join, PrintInt, ParseNumeric, Free;
    NothingAfterDot();
    if |front| >= 1 {
      var a := PrintInt(front[0]);
      NumeralNotFree(front[0]);
      if |front| == 1 {
        JoinThree(a, "", "");
        SplitOfJoin([a, ""], '.');
        GivenPartsStep(a, [""]);
        assert [a, ""] == [a] + [""] && a + "." + "" == a + ".";
      } else {
        var b := PrintInt(front[1]);
        NumeralNotFree(front[1]);
        JoinThree(a, b, "");
        SplitOfJoin([a, b, ""], '.');
        GivenPartsStep(b, [""]);
        GivenPartsStep(a, [b, ""]);
        assert [b, ""] == [b] + [""] && [a, b, ""] == [a] + [b, ""];
        assert GivenParts([a, b, ""]).None?;
        assert a + "." + b + "." + "" == a + "." + b + ".";
      }
    }
  }

  lemma BrokenText(core: string, rest: string, text: string)
    requires PartialCore(core).None? && '-' !in core && text == core + "-" + rest
    ensures ParsePartial(text).None?
  {
    IndexOfFirst(core, '-', rest);
    assert text[..|core|] == core;
  }

  lemma PullSign(front: string, digits: string, rest: string)
    ensures front + ("-" + digits) + rest == front + "-" + (digits + rest)
  {}

  /** A bound that wrapped around prints as a text that does not parse. */
  lemma WrappedVersionDoesNotParse(v: Version)
    requires !(v.major >= 0 && v.minor >= 0 && v.patch >= 0)
    ensures ParsePartial(Print(v)).None?
  {
    hide ParsePartial, PartialCore, Numeral, Join;
    var a, b, c := PrintInt(v.major), PrintInt(v.minor), PrintInt(v.patch);
    var tail := if v.Stable() then "" else "-" + Join(v.prerelease, '.');
    assert Print(v) == a + "." + b + "." + c + tail;
    if v.major < 0 {
      BrokenCore([]);
      PullSign("", Numeral(-v.major), "." + b + "." + c + tail);
      assert Print(v) == "" + a + ("." + b + "." + c + tail);
      BrokenText("", Numeral(-v.major) + ("." + b + "." + c + tail), Print(v));
    } else if v.minor < 0 {
      BrokenCore([v.major]);
      PullSign(a + ".", Numeral(-v.minor), "." + c + tail);
      assert Print(v) == a + "." + b + ("." + c + tail);
      BrokenText(a + ".", Numeral(-v.minor) + ("." + c + tail), Print(v));
    } else {
      BrokenCore([v.major, v.minor]);
      PullSign(a + "." + b + ".", Numeral(-v.patch), tail);
      BrokenText(a + "." + b + ".", Numeral(-v.patch) + tail, Print(v));
    }
  }

  lemma WrappedDoesNotReparse(c: Comparator)
    requires Desugared(c) && !Fits(c)
    ensures DesugarPrimitive(PrintComparator(c)).None?
  {
    WrappedVersionDoesNotParse(c.version);
    assert Print(c.version)[0] == PrintInt(c.version.major)[0];
    assert IsDigits(Numeral(if c.version.major < 0 then 0 else c.version.major));
    PrefixOfPrint(c.op, Print(c.version));
    DesugarPrimitiveAs(PrintComparator(c), PrefixOf(c.op), Print(c.version), None);
  }

  // ------------------------------------------------------------ whole ranges

  predicate PlainChar(c: char) { !IsSpace(c) && c != '|' }

  predicate PlainWord(word: string) {
    word != "" && forall i :: 0 <= i < |word| ==> PlainChar(word[i])
  }

  lemma PlainJoin(a: string, b: string)
    requires PlainWord(a) && PlainWord(b)
    ensures PlainWord(a + b)
  {}

  lemma {:induction false} PlainIdentifiers(parts: seq<string>)
    requires parts != [] && forall part :: part in parts ==> Identifier(part)
    ensures PlainWord(Join(parts, '.'))
  {
    assert Identifier(parts[0]) && PlainWord(parts[0]);
    if |parts| > 1 {
      PlainIdentifiers(parts[1..]);
      PlainJoin(parts[0] + ['.'], Join(parts[1..], '.'));
    }
  }

  lemma PlainNumber(n: int)
    ensures PlainWord(PrintInt(n))
  {
    var digits := Numeral(if n < 0 then -n else n);
    assert forall i :: 0 <= i < |digits| ==> IsDigit(digits[i]);
  }

  lemma ComparatorIsPlain(c: Comparator)
    requires Desugared(c)
    ensures PlainWord(PrintComparator(c))
    ensures PrintComparator(c)[0] in "*><="
  {
    if c.Cmp? {
      var v := c.version;
      PlainNumber(v.major);
      PlainNumber(v.minor);
      PlainNumber(v.patch);
      PlainJoin(PrintInt(v.major) + ".", PrintInt(v.minor) + ".");
      PlainJoin(PrintInt(v.major) + "." + (PrintInt(v.minor) + "."), PrintInt(v.patch));
      assert PrintCore(v) == PrintInt(v.major) + "." + (PrintInt(v.minor) + ".") + PrintInt(v.patch);
      if !v.Stable() {
        PlainIdentifiers(v.prerelease);
        PlainJoin(PrintCore(v) + "-", Join(v.prerelease, '.'));
      }
      PlainJoin(PrintOp(c.op), Print(v));
    }
  }

  /** Fields undoes joining plain words with spaces. */
  lemma {:induction false} FieldsOfJoin(words: seq<string>)
    requires words != [] && forall word :: word in words ==> PlainWord(word)
    ensures Fields(Join(words, ' ')) == words
    decreases |words|, |words[0]|
  {
    var text := Join(words, ' ');
    assert PlainWord(words[0]);
    if |words[0]| > 1 {
      var shorter := [words[0][1..]] + words[1..];
      forall word | word in shorter ensures PlainWord(word) {
        if word in words[1..] { assert word in words; }
      }
      assert shorter[1..] == words[1..];
      FieldsOfJoin(shorter);
      assert words[0] == [words[0][0]] + words[0][1..];
      assert text[1..] == Join(shorter, ' ');
      assert text[1] == words[0][1] && PlainChar(words[0][1]);
      assert words == [words[0]] + words[1..];
    } else if |words| == 1 {
      assert words == [words[0]] && words[0] == [text[0]];
      assert text == [text[0]];
      assert Fields("") == [];
    } else {
      FieldsOfJoin(words[1..]);
      assert text == words[0] + [' '] + Join(words[1..], ' ');
      assert text[1..] == [' '] + Join(words[1..], ' ');
      assert text[1..][1..] == Join(words[1..], ' ');
      assert words == [words[0]] + words[1..] && words[0] == [text[0]];
    }
  }

  predicate BarFree(text: string) { forall i :: 0 <= i < |text| ==> text[i] != '|' }

  lemma {:induction false} BarsOne(text: string)
    requires BarFree(text)
    ensures SplitBars(text) == [text]
  {
    if text != "" {
      BarsOne(text[1..]);
      assert text == [text[0]] + text[1..];
    }
  }

  lemma {:induction false} BarsMore(text: string, rest: string)
    requires BarFree(text)
    ensures SplitBars(text + "||" + rest) == [text] + SplitBars(rest)
  {
    var whole := text + "||" + rest;
    if text == "" {
      assert whole[2..] == rest;
    } else {
      BarsMore(text[1..], rest);
      assert whole[1..] == text[1..] + "||" + rest;
      assert text == [text[0]] + text[1..];
      assert ([text[1..]] + SplitBars(rest))[1..] == SplitBars(rest);
    }
  }

  lemma {:induction false} PlainSet(words: seq<string>)
    requires words != [] && forall word :: word in words ==> PlainWord(word)
    ensures BarFree(Join(words, ' ')) && words[0] <= Join(words, ' ')
  {
    assert PlainWord(words[0]);
    if |words| > 1 { PlainSet(words[1..]); }
  }

  lemma {:induction false} PrimitivesReparse(comparators: ComparatorSet)
    requires forall c :: c in comparators ==> Desugared(c)
    ensures ParsePrimitives(PrintAll(comparators))
         == if forall c :: c in comparators ==> Fits(c) then Some(comparators) else None
  {
    hide Desugared, Fits, DesugarPrimitive, PrintComparator;
    if comparators != [] {
      var c, rest := comparators[0], comparators[1..];
      PrimitivesReparse(rest);
      assert PrintAll(comparators)[1..] == PrintAll(rest);
      assert comparators == [c] + rest;
      if Fits(c) { FittingReparses(c); } else { WrappedDoesNotReparse(c); }
    }
  }

  predicate DesugaredSet(comparators: ComparatorSet) {
    comparators != [] && forall c :: c in comparators ==> Desugared(c)
  }

  predicate DesugaredRange(range: Range) {
    range != [] && forall i :: 0 <= i < |range| ==> DesugaredSet(range[i])
  }

  predicate FittingRange(range: Range) { forall i :: 0 <= i < |range| ==> FittingSet(range[i]) }

  predicate FittingSet(comparators: ComparatorSet) { forall c :: c in comparators ==> Fits(c) }

  lemma SetReparses(comparators: ComparatorSet)
    requires DesugaredSet(comparators)
    ensures ParseSet(PrintSet(comparators)) == if FittingSet(comparators) then Some(comparators) else None
    ensures BarFree(PrintSet(comparators)) && PrintSet(comparators) != "" && PrintSet(comparators)[0] in "*><="
  {
    var words := PrintAll(comparators);
    forall word | word in words ensures PlainWord(word) {
      var i :| 0 <= i < |words| && words[i] == word;
      ComparatorIsPlain(comparators[i]);
    }
    ComparatorIsPlain(comparators[0]);
    PlainSet(words);
    FieldsOfJoin(words);
    PrimitivesReparse(comparators);
  }

  lemma {:induction false} SetsReparse(range: Range)
    requires DesugaredRange(range)
    ensures ParseSets(SplitBars(PrintRange(range)))
         == if FittingRange(range) then Some(range) else None
  {
    hide PrintSet, ParseSet, SplitBars, FittingSet;
    SetReparses(range[0]);
    if |range| == 1 {
      BarsOne(PrintSet(range[0]));
      assert range == [range[0]];
      assert [PrintSet(range[0])][1..] == [] && ParseSets([]) == Some([]);
      assert [range[0]] + [] == range;
    } else {
      SetsReparse(range[1..]);
      BarsMore(PrintSet(range[0]), PrintRange(range[1..]));
      var texts := [PrintSet(range[0])] + SplitBars(PrintRange(range[1..]));
      assert texts[1..] == SplitBars(PrintRange(range[1..]));
      assert range == [range[0]] + range[1..];
    }
  }

  /**
   * A desugared range that is printed and parsed again gives the same comparator
   * sets exactly when no bound wrapped around; otherwise it does not parse.
   */
  lemma RangeReparsesIffItFits(range: Range)
    requires DesugaredRange(range)
    ensures ParseRange(PrintRange(range))
         == if FittingRange(range) then Some(range) else None
  {
    SetReparses(range[0]);
    assert PrintRange(range)[0] == PrintSet(range[0])[0];
    assert PrintRange(range) != "latest";
    SetsReparse(range);
  }

  // ------------------------------------------- what parsing produces is such

  lemma DesugarIsDesugared(prefix: Prefix, p: Partial)
    requires ValidPartial(p)
    ensures Desugar(prefix, p) != [] && forall c :: c in Desugar(prefix, p) ==> Desugared(c)
  {
    assert Identifier("0");
  }

  lemma {:induction false} GivenPartsValid(parts: seq<string>)
    requires GivenParts(parts).Some?
    ensures |GivenParts(parts).value| <= |parts|
    ensures forall i :: 0 <= i < |GivenParts(parts).value| ==> 0 <= GivenParts(parts).value[i] <= MAX_INT
  {
    if parts != [] && !Free(parts[0]) { GivenPartsValid(parts[1..]); }
  }

  lemma ParsePartialValid(text: string)
    requires ParsePartial(text).Some?
    ensures ValidPartial(ParsePartial(text).value)
  {
    var core := if '-' in text then text[..IndexOf(text, '-').value] else text;
    GivenPartsValid(Split(core, '.'));
  }

  lemma {:induction false} PrimitivesDesugared(primitives: seq<string>)
    requires ParsePrimitives(primitives).Some?
    ensures forall c :: c in ParsePrimitives(primitives).value ==> Desugared(c)
    ensures primitives != [] ==> ParsePrimitives(primitives).value != []
  {
    if primitives != [] {
      var (prefix, rest) := SplitPrefix(primitives[0]);
      ParsePartialValid(rest);
      DesugarIsDesugared(prefix, ParsePartial(rest).value);
      PrimitivesDesugared(primitives[1..]);
    }
  }

  lemma {:induction false} SetsDesugared(texts: seq<string>)
    requires ParseSets(texts).Some?
    ensures forall i :: 0 <= i < |ParseSets(texts).value| ==> DesugaredSet(ParseSets(texts).value[i])
    ensures |ParseSets(texts).value| == |texts|
  {
    if texts != [] {
      PrimitivesDesugared(Fields(texts[0]));
      SetsDesugared(texts[1..]);
    }
  }

  /** Every parsed range is one of these. */
  lemma ParsedIsDesugared(text: string)
    requires ParseRange(text).Some?
    ensures DesugaredRange(ParseRange(text).value)
  {
    SetsDesugared(SplitBars(if text == "latest" then "*" else text));
  }

  /** The bare star is the range that admits every stable version. */
  lemma StarParses()
    ensures ParseRange("*") == Some([[Any]])
  {
    var range: Range := [[Any]];
    assert PrintAll([Any]) == ["*"];
    assert PrintRange(range) == "*";
    assert DesugaredRange(range);
    RangeReparsesIffItFits(range);
  }
}
