/** Reference tokens of a percent-decoded JSON Pointer fragment (section 3 of RFC 6901). */
module JsonPointer {
  import opened Wrappers
  import opened Texts

  /** str.replace of a tilde pair by one character, leftmost first. */
  function ReplacePair(text: string, second: char, put: char): string {
    if text == "" then ""
    else if |text| >= 2 && text[0] == '~' && text[1] == second then [put] + ReplacePair(text[2..], second, put)
    else [text[0]] + ReplacePair(text[1..], second, put)
  }

  /** A tilde that is not followed by 0 or 1. */
  predicate BadEscape(token: string) {
    exists i :: 0 <= i < |token| && BadAt(token, i)
  }

  predicate BadAt(token: string, i: nat)
    requires i < |token|
  {
    token[i] == '~' && !(i + 1 < |token| && (token[i + 1] == '0' || token[i + 1] == '1'))
  }

  /** The two replacements, slashes before tildes. */
  function Unescape(token: string): string {
    ReplacePair(ReplacePair(token, '1', '/'), '0', '~')
  }

  function UnescapeAll(tokens: seq<string>): (r: Option<seq<string>>)
    ensures r.Some? ==> |r.value| == |tokens|
  {
    if tokens == [] then Some([])
    else if BadEscape(tokens[0]) then None
    else match UnescapeAll(tokens[1..])
      case None => None
      case Some(rest) => Some([Unescape(tokens[0])] + rest)
  }

  /** None stands for a refused fragment. */
  function PointerTokens(decoded: string): Option<seq<string>> {
    if decoded == "" then Some([])
    else if decoded[0] != '/' then None
    else UnescapeAll(Split(decoded[1..], '/'))
  }

  method PointerTokensLoop(decoded: string) returns (tokens: Option<seq<string>>)
    ensures tokens == PointerTokens(decoded)
  {
    if decoded == "" { return Some([]); }
    if decoded[0] != '/' { return None; }
    var parts := Split(decoded[1..], '/');
    var out: seq<string> := [];
    var i := 0;
    assert parts[0..] == parts;
    assert UnescapeAll(parts).Some? ==> [] + UnescapeAll(parts).value == UnescapeAll(parts).value;
    while i < |parts|
      invariant 0 <= i <= |parts|
      invariant UnescapeAll(parts) == match UnescapeAll(parts[i..]) case None => None case Some(rest) => Some(out
        + rest)
    {
      assert parts[i..][1..] == parts[i + 1..];
      if BadEscape(parts[i]) { return None; }
      ghost var rest := UnescapeAll(parts[i + 1..]);
      assert rest.Some? ==> out + ([Unescape(parts[i])] + rest.value) == out + [Unescape(parts[i])] + rest.value;
      out := out + [Unescape(parts[i])];
      i := i + 1;
    }
    assert out + [] == out;
    return Some(out);
  }

  // ------------------------------------------------------------ reading once

  /** Reading a token from left to right: ~0 is a tilde, ~1 a slash, any other tilde an error. */
  function ReadToken(token: string): Option<string> {
    if token == "" then Some("")
    else if token[0] != '~' then
      (match ReadToken(token[1..]) case None => None case Some(rest) => Some([token[0]] + rest))
    else if |token| >= 2 && (token[1] == '0' || token[1] == '1') then
      (match ReadToken(token[2..])
       case None => None
       case Some(rest) => Some([if token[1] == '0' then '~' else '/'] + rest))
    else None
  }

  lemma BadEscapeTail(token: string, n: nat)
    requires n <= |token| && forall i :: 0 <= i < n ==> !BadAt(token, i)
    ensures BadEscape(token) <==> BadEscape(token[n..])
  {
    forall i | 0 <= i < |token[n..]| ensures BadAt(token[n..], i) <==> BadAt(token, n + i) {}
    if BadEscape(token) {
      var i :| 0 <= i < |token| && BadAt(token, i);
      assert BadAt(token[n..], i - n);
    }
    if BadEscape(token[n..]) {
      var i :| 0 <= i < |token[n..]| && BadAt(token[n..], i);
      assert BadAt(token, n + i);
    }
  }

  /** Two replacements over the whole token read what one pass from left to right reads. */
  lemma {:induction false} TwoPassesAreOne(token: string)
    ensures ReadToken(token) == if BadEscape(token) then None else Some(Unescape(token))
  {
    if token != "" {
      if token[0] != '~' {
        TwoPassesAreOne(token[1..]);
        BadEscapeTail(token, 1);
      } else if |token| >= 2 && (token[1] == '0' || token[1] == '1') {
        TwoPassesAreOne(token[2..]);
        BadEscapeTail(token, 2);
        PairReplaced(token);
      } else {
        assert BadAt(token, 0);
      }
    }
  }

  lemma PairReplaced(token: string)
    requires |token| >= 2 && token[0] == '~' && (token[1] == '0' || token[1] == '1')
    ensures Unescape(token) == [if token[1] == '0' then '~' else '/'] + Unescape(token[2..])
  {
    var rest := ReplacePair(token[2..], '1', '/');
    assert token[1..][1..] == token[2..];
    if token[1] == '0' {
      var first := ReplacePair(token, '1', '/');
      assert ReplacePair(token[1..], '1', '/') == ['0'] + rest;
      assert first == ['~'] + (['0'] + rest);
      assert first[2..] == rest;
    } else {
      assert (['/'] + rest)[1..] == rest;
    }
  }

  // -------------------------------------------------------------- round trip

  function EscapeChar(c: char): string { if c == '~' then "~0" else if c == '/' then "~1" else [c] }

  function Escape(token: string): string {
    if token == "" then "" else EscapeChar(token[0]) + Escape(token[1..])
  }

  function EscapeAll(tokens: seq<string>): (r: seq<string>)
    ensures |r| == |tokens|
  {
    seq(|tokens|, i requires 0 <= i < |tokens| => Escape(tokens[i]))
  }

  /** A pointer as text: every token behind a slash. */
  function PrintPointer(tokens: seq<string>): string {
    if tokens == [] then "" else "/" + Join(EscapeAll(tokens), '/')
  }

  lemma {:induction false} EscapeReads(token: string)
    ensures ReadToken(Escape(token)) == Some(token) && '/' !in Escape(token)
  {
    if token != "" {
      EscapeReads(token[1..]);
      var text := Escape(token);
      assert text[|EscapeChar(token[0])|..] == Escape(token[1..]);
      assert token == [token[0]] + token[1..];
    }
  }

  lemma {:induction false} ReadEscapes(text: string)
    requires ReadToken(text).Some? && '/' !in text
    ensures Escape(ReadToken(text).value) == text
  {
    if text != "" {
      var n := if text[0] == '~' then 2 else 1;
      ReadEscapes(text[n..]);
      var read := ReadToken(text).value;
      assert read[1..] == ReadToken(text[n..]).value;
      assert text == text[..n] + text[n..];
      assert text[..n] == EscapeChar(read[0]);
    }
  }

  lemma {:induction false} EscapeAllReads(tokens: seq<string>)
    ensures UnescapeAll(EscapeAll(tokens)) == Some(tokens)
    ensures forall text :: text in EscapeAll(tokens) ==> '/' !in text
  {
    if tokens != [] {
      EscapeReads(tokens[0]);
      TwoPassesAreOne(Escape(tokens[0]));
      EscapeAllReads(tokens[1..]);
      assert EscapeAll(tokens)[1..] == EscapeAll(tokens[1..]);
      assert tokens == [tokens[0]] + tokens[1..];
      assert EscapeAll(tokens) == [Escape(tokens[0])] + EscapeAll(tokens[1..]);
    }
  }

  lemma {:induction false} UnescapeAllPrints(texts: seq<string>)
    requires UnescapeAll(texts).Some? && forall text :: text in texts ==> '/' !in text
    ensures EscapeAll(UnescapeAll(texts).value) == texts
  {
    if texts != [] {
      assert texts[0] in texts;
      TwoPassesAreOne(texts[0]);
      ReadEscapes(texts[0]);
      UnescapeAllPrints(texts[1..]);
      var tokens := UnescapeAll(texts).value;
      assert tokens[1..] == UnescapeAll(texts[1..]).value;
      assert EscapeAll(tokens) == [Escape(tokens[0])] + EscapeAll(tokens[1..]);
    }
  }

  /** Every list of tokens is read back from the pointer it prints as. */
  lemma TokensOfPrinted(tokens: seq<string>)
    ensures PointerTokens(PrintPointer(tokens)) == Some(tokens)
  {
    if tokens != [] {
      EscapeAllReads(tokens);
      SplitOfJoin(EscapeAll(tokens), '/');
      assert PrintPointer(tokens)[1..] == Join(EscapeAll(tokens), '/');
    }
  }

  /** Every accepted pointer is the printed form of its tokens, so no two pointers share them. */
  lemma PrintedOfTokens(text: string)
    requires PointerTokens(text).Some?
    ensures PrintPointer(PointerTokens(text).value) == text
  {
    if text != "" {
      var parts := Split(text[1..], '/');
      UnescapeAllPrints(parts);
      JoinOfSplit(text[1..], '/');
      assert text == "/" + text[1..];
    }
  }
}
