/** Text order, splitting and decimal numerals, as the resolver's parsers use them. */
module Texts {
  import opened Wrappers

  // ---------------------------------------------------------------- order

  /** Strict lexicographic order by scalar value, the order in which names are sorted. */
  predicate Below(a: string, b: string) {
    if b == "" then false
    else if a == "" then true
    else a[0] < b[0] || (a[0] == b[0] && Below(a[1..], b[1..]))
  }

  lemma {:induction false} BelowIrreflexive(a: string)
    ensures !Below(a, a)
  {
    if a != "" { BelowIrreflexive(a[1..]); }
  }

  lemma {:induction false} BelowTransitive(a: string, b: string, c: string)
    requires Below(a, b) && Below(b, c)
    ensures Below(a, c)
  {
    if a != "" && a[0] == b[0] && b[0] == c[0] {
      BelowTransitive(a[1..], b[1..], c[1..]);
    }
  }

  lemma BelowAsymmetric(a: string, b: string)
    ensures !(Below(a, b) && Below(b, a))
  {
    if Below(a, b) && Below(b, a) { BelowTransitive(a, b, a); }
    BelowIrreflexive(a);
  }

  lemma {:induction false} BelowTotal(a: string, b: string)
    ensures a == b || Below(a, b) || Below(b, a)
  {
    if a != "" && b != "" && a[0] == b[0] {
      BelowTotal(a[1..], b[1..]);
      if a[1..] == b[1..] { assert a == [a[0]] + a[1..] == [b[0]] + b[1..] == b; }
    }
  }

  predicate IsLeast(name: string, names: set<string>) {
    name in names && forall other :: other in names ==> other == name || Below(name, other)
  }

  predicate IsGreatest(name: string, names: set<string>) {
    name in names && forall other :: other in names ==> other == name || Below(other, name)
  }

  lemma {:induction false} LeastExists(names: set<string>) returns (least: string)
    requires names != {}
    ensures IsLeast(least, names)
    decreases |names|
  {
    var pick :| pick in names;
    var rest := names - {pick};
    if rest == {} {
      assert names == {pick};
      return pick;
    }
    var low := LeastExists(rest);
    BelowTotal(pick, low);
    assert names == rest + {pick};
    if Below(low, pick) { return low; }
    least := pick;
    forall other | other in names ensures other == pick || Below(pick, other) {
      if other != pick && other != low { BelowTransitive(pick, low, other); }
    }
  }

  lemma {:induction false} GreatestExists(names: set<string>) returns (greatest: string)
    requires names != {}
    ensures IsGreatest(greatest, names)
    decreases |names|
  {
    var pick :| pick in names;
    var rest := names - {pick};
    if rest == {} {
      assert names == {pick};
      return pick;
    }
    var high := GreatestExists(rest);
    BelowTotal(pick, high);
    assert names == rest + {pick};
    if Below(pick, high) { return high; }
    greatest := pick;
    forall other | other in names ensures other == pick || Below(other, pick) {
      if other != pick && other != high { BelowTransitive(other, high, pick); }
    }
  }

  lemma LeastUnique(a: string, b: string, names: set<string>)
    requires IsLeast(a, names) && IsLeast(b, names)
    ensures a == b
  {
    if a != b {
      BelowTransitive(a, b, a);
      BelowIrreflexive(a);
    }
  }

  /** The name a sort puts first. */
  ghost function Least(names: set<string>): (least: string)
    requires names != {}
    ensures IsLeast(least, names)
  {
    assert exists least :: IsLeast(least, names) by { var low := LeastExists(names); }
    var least :| IsLeast(least, names);
    least
  }

  /** Finds the name a sort puts first by one pass over the names. */
  method SmallestOf(names: set<string>) returns (name: string)
    requires names != {}
    ensures name == Least(names)
  {
    name :| name in names;
    var rest := names - {name};
    while rest != {}
      invariant name in names && rest < names && name !in rest
      invariant forall other :: other in names && other !in rest ==> other == name || Below(name, other)
      decreases |rest|
    {
      var other :| other in rest;
      ghost var was := name;
      rest := rest - {other};
      BelowTotal(name, other);
      if Below(other, name) {
        name := other;
        forall o | o in names && o !in rest ensures o == name || Below(name, o) {
          if o != other && o != was { BelowTransitive(other, was, o); }
        }
      }
    }
    LeastUnique(name, Least(names), names);
  }

  // ------------------------------------------------------- split and join

  /** strings.Split on a one-character separator: always at least one part. */
  function Split(text: string, separator: char): (parts: seq<string>)
    ensures |parts| >= 1
    ensures forall part :: part in parts ==> separator !in part
  {
    if text == "" then [""]
    else
      var rest := Split(text[1..], separator);
      if text[0] == separator then [""] + rest
      else [[text[0]] + rest[0]] + rest[1..]
  }

  /** strings.Join with a one-character separator. */
  function Join(parts: seq<string>, separator: char): string
    requires |parts| >= 1
  {
    if |parts| == 1 then parts[0]
    else parts[0] + [separator] + Join(parts[1..], separator)
  }

  lemma {:induction false} JoinOfSplit(text: string, separator: char)
    ensures Join(Split(text, separator), separator) == text
  {
    if text != "" {
      JoinOfSplit(text[1..], separator);
      var rest := Split(text[1..], separator);
      assert text == [text[0]] + text[1..];
      if text[0] == separator {
        assert ([""] + rest)[1..] == rest;
      } else if |rest| > 1 {
        var parts := [[text[0]] + rest[0]] + rest[1..];
        assert parts[1..] == rest[1..];
        assert Join(parts, separator) == [text[0]] + (rest[0] + [separator] + Join(rest[1..], separator));
      }
    }
  }

  lemma {:induction false} SplitOfJoin(parts: seq<string>, separator: char)
    requires |parts| >= 1
    requires forall part :: part in parts ==> separator !in part
    ensures Split(Join(parts, separator), separator) == parts
    decreases |parts|, |parts[0]|
  {
    if parts[0] == "" {
      if |parts| > 1 {
        SplitOfJoin(parts[1..], separator);
        var text := Join(parts, separator);
        assert text == [separator] + Join(parts[1..], separator);
        assert text[1..] == Join(parts[1..], separator);
        assert parts == [""] + parts[1..];
      } else {
        assert parts == [""];
      }
    } else {
      var shorter := [parts[0][1..]] + parts[1..];
      assert shorter[1..] == parts[1..];
      assert parts[0] in parts && forall part :: part in parts[1..] ==> part in parts;
      SplitOfJoin(shorter, separator);
      var text := Join(parts, separator);
      assert parts[0] == [parts[0][0]] + parts[0][1..];
      assert text == [parts[0][0]] + Join(shorter, separator);
      assert text[1..] == Join(shorter, separator);
      assert parts == [parts[0]] + parts[1..];
      assert [text[0]] + shorter[0] == parts[0];
      assert parts[0][0] in parts[0] && parts[0] in parts;
    }
  }

  /** strings.IndexByte: the first position of a character, if it occurs. */
  function IndexOf(text: string, c: char): (at: Option<nat>)
    ensures at.None? <==> c !in text
    ensures at.Some? ==> at.value < |text| && text[at.value] == c && c !in text[..at.value]
  {
    if text == "" then None
    else if text[0] == c then Some(0)
    else match IndexOf(text[1..], c)
      case None => None
      case Some(k) =>
        assert text[..k + 1] == [text[0]] + text[1..][..k];
        Some(k + 1)
  }

  lemma {:induction false} IndexOfFirst(before: string, c: char, after: string)
    requires c !in before
    ensures IndexOf(before + [c] + after, c) == Some(|before|)
  {
    var text := before + [c] + after;
    if before != "" {
      IndexOfFirst(before[1..], c, after);
      assert text[1..] == before[1..] + [c] + after;
      assert text[0] == before[0];
    }
  }

  // ------------------------------------------------------------- numerals

  predicate IsDigit(c: char) { '0' <= c <= '9' }

  /** isDigits: a non-empty run of decimal digits. */
  predicate IsDigits(text: string) {
    text != "" && forall i :: 0 <= i < |text| ==> IsDigit(text[i])
  }

  function DigitValue(c: char): (d: nat)
    requires IsDigit(c)
    ensures d < 10
  {
    c as int - '0' as int
  }

  function DigitChar(d: nat): (c: char)
    requires d < 10
    ensures IsDigit(c) && DigitValue(c) == d
  {
    ('0' as int + d) as char
  }

  /** The number a run of digits spells. */
  function NumeralValue(text: string): nat
    requires IsDigits(text)
  {
    if |text| == 1 then DigitValue(text[0])
    else 10 * NumeralValue(text[..|text| - 1]) + DigitValue(text[|text| - 1])
  }

  /** No leading zero, as a semantic version demands of a number. */
  predicate Canonical(text: string) {
    IsDigits(text) && (|text| > 1 ==> text[0] != '0')
  }

  /** Decimal printing. */
  function Numeral(n: nat): (text: string)
    ensures IsDigits(text)
  {
    if n < 10 then [DigitChar(n)] else Numeral(n / 10) + [DigitChar(n % 10)]
  }

  lemma {:induction false} NumeralParses(n: nat)
    ensures Canonical(Numeral(n)) && NumeralValue(Numeral(n)) == n
    ensures n > 0 ==> Numeral(n)[0] != '0'
  {
    if n >= 10 {
      NumeralParses(n / 10);
      var text := Numeral(n);
      assert text[..|text| - 1] == Numeral(n / 10);
    } else {
      assert DigitValue(Numeral(n)[0]) == n;
    }
  }

  lemma {:induction false} CanonicalPositive(text: string)
    requires Canonical(text) && |text| > 1
    ensures NumeralValue(text) >= 10
  {
    var front := text[..|text| - 1];
    assert front[0] == text[0];
    if |front| > 1 {
      CanonicalPositive(front);
    } else {
      assert NumeralValue(front) == DigitValue(text[0]) >= 1;
    }
  }

  lemma {:induction false} NumeralOfValue(text: string)
    requires Canonical(text)
    ensures Numeral(NumeralValue(text)) == text
  {
    if |text| > 1 {
      var front := text[..|text| - 1];
      assert front[0] == text[0];
      NumeralOfValue(front);
      CanonicalPositive(text);
      assert NumeralValue(text) / 10 == NumeralValue(front);
      assert text == front + [text[|text| - 1]];
    } else {
      assert text == [text[0]];
    }
  }

  lemma NumeralInjective(a: string, b: string)
    requires Canonical(a) && Canonical(b) && NumeralValue(a) == NumeralValue(b)
    ensures a == b
  {
    NumeralOfValue(a);
    NumeralOfValue(b);
  }
}
