/** When the bytes the scanner selects are the value a pointer denotes, and when they are not. */
module JsonAgreement {
  import opened Wrappers
  import opened Texts
  import opened JsonText
  import opened JsonSpans
  import opened JsonSpansCorrect

  /** The bytes, read as a document of their own, have the value. */
  predicate ReadsAs(text: Bytes, value: Value, doc: Document, decode: Decoder) {
    WellLaidDocument(doc) && ProperKeys(doc.root, decode) && text == RenderDocument(doc)
      && ValueOf(doc.root, decode) == value
  }

  /** A span is found exactly when the pointer resolves, and its bytes read as exactly the value denoted. */
  ghost predicate Answers(doc: Document, tokens: seq<string>, decode: Decoder, digit: Digits)
    requires ProperKeys(doc.root, decode)
  {
    var source := RenderDocument(doc);
    var found := RawPointerSpan(source, tokens, decode, digit);
    var denoted := Denotes(ValueOf(doc.root, decode), tokens);
    && found.Found?
    && (found.value.Some? <==> denoted.Some?)
    && (denoted.Some? ==> exists part ::
       ReadsAs(source[found.value.value.start..found.value.value.end], denoted.value, part, decode))
  }

  /** Every token the code accepts as an index is one, and short enough to be converted. */
  predicate PlainIndices(tokens: seq<string>, digit: Digits) {
    forall t :: t in tokens ==> !CodeIndex(t, digit).Overlong? && (CodeIndex(t, digit).Index? ==> IsDigits(t))
  }

  lemma {:induction false} AsciiValue(text: string, digit: Digits)
    requires IsDigits(text) && ExtendsAscii(digit)
    ensures DigitsValue(text, digit) == NumeralValue(text) && AllDigits(text, digit)
  {
    assert DigitsValue("", digit) == 0;
    if |text| > 1 { AsciiValue(text[..|text| - 1], digit); }
  }

  /** On plain tokens the code and the specification read the same indices. */
  lemma PlainIndex(token: string, digit: Digits)
    requires ExtendsAscii(digit) && PlainIndices([token], digit)
    ensures CodeIndex(token, digit) == match ArrayIndex(token) case None => NoIndex case Some(k) => Index(k)
  {
    assert token in [token];
    if IsDigits(token) { AsciiValue(token, digit); }
  }

  lemma {:induction false} PlainLookup(node: Node, tokens: seq<string>, decode: Decoder, digit: Digits)
    requires ExtendsAscii(digit) && PlainIndices(tokens, digit)
    ensures CodeLookup(node, tokens, decode, digit) == Found(Lookup(node, tokens, decode))
    decreases |tokens|
  {
    if tokens != [] {
      PlainIndex(tokens[0], digit);
      var child := Child(node, tokens[0], decode);
      if child.Some? { PlainLookup(child.value, tokens[1..], decode, digit); }
    }
  }

  lemma SpanReads(source: Bytes, span: Span, node: Node, decode: Decoder)
    requires WellLaid(node) && ProperKeys(node, decode)
    requires Spans(source, span, node) && span.start <= span.end <= |source|
    ensures exists part :: ReadsAs(source[span.start..span.end], ValueOf(node, decode), part, decode)
  {
    SpanText(source, span, node);
    var part := Document([], node, []);
    assert RenderDocument(part) == Render(node);
    assert ReadsAs(source[span.start..span.end], ValueOf(node, decode), part, decode);
  }

  /** On every document in every layout, a pointer whose indices are plain selects exactly what it denotes. */
  lemma PointerSelectsWhatItDenotes(doc: Document, tokens: seq<string>, decode: Decoder, digit: Digits)
    requires WellLaidDocument(doc) && ProperKeys(doc.root, decode)
    requires ExtendsAscii(digit) && PlainIndices(tokens, digit)
    ensures Answers(doc, tokens, decode, digit)
  {
    var source := RenderDocument(doc);
    LookupIsDenotes(doc.root, tokens, decode);
    if tokens == [] {
      assert source[0..|source|] == source;
      assert ReadsAs(source, ValueOf(doc.root, decode), doc, decode);
    } else {
      ScannerFollowsCode(doc, tokens, decode, digit);
      PlainLookup(doc.root, tokens, decode, digit);
      var node := Lookup(doc.root, tokens, decode);
      if node.Some? {
        var span := RawPointerSpan(source, tokens, decode, digit).value.value;
        SpanReads(source, span, node.value, decode);
      }
    }
  }

  // ------------------------------------------------- pointers that mislead

  /** Some key spells the token. */
  predicate Spells(inner: Bytes, token: string, decode: Decoder) {
    StringInner(inner) && decode(Quoted(inner)) == Some(token)
  }

  ghost predicate CanBeKey(token: string, decode: Decoder) { exists inner :: Spells(inner, token, decode) }

  ghost predicate Spelled(tokens: seq<string>, decode: Decoder) {
    forall t :: t in tokens ==> CanBeKey(t, decode)
  }

  const ZERO: Node := Atom([48])

  /** k zeros and then a last item. */
  function ItemsUpTo(k: nat, last: Node): Items {
    if k == 0 then LastItem(last, []) else MoreItems(ZERO, [], [], ItemsUpTo(k - 1, last))
  }

  lemma {:induction false} ItemsUpToParts(k: nat, last: Node, decode: Decoder)
    requires WellLaid(last) && ProperKeys(last, decode)
    ensures WellLaidItems(ItemsUpTo(k, last)) && ProperItems(ItemsUpTo(k, last), decode)
      && ItemAt(ItemsUpTo(k, last), k) == Some(last)
  {
    if k > 0 { ItemsUpToParts(k - 1, last, decode); }
  }

  /** An object with one member, under a key that spells the token. */
  lemma OneMember(token: string, child: Node, decode: Decoder) returns (node: Node)
    requires WellLaid(child) && ProperKeys(child, decode) && CanBeKey(token, decode)
    ensures WellLaid(node) && ProperKeys(node, decode) && node.Object?
      && FieldNamed(node.fields, token, decode) == Some(child)
    ensures ValueOf(node, decode) == ObjectValue(map[token := ValueOf(child, decode)])
  {
    var inner :| Spells(inner, token, decode);
    node := Object([], LastField(inner, [], [], child, []));
    assert FieldValues(node.fields, decode) == map[token := ValueOf(child, decode)];
  }

  /** A value in which every token is a key. */
  lemma {:induction false} AllKeys(tokens: seq<string>, decode: Decoder, digit: Digits) returns (node: Node)
    requires Spelled(tokens, decode)
    ensures WellLaid(node) && ProperKeys(node, decode)
    ensures CodeLookup(node, tokens, decode, digit).Found? && CodeLookup(node, tokens, decode, digit).value.Some?
    decreases |tokens|
  {
    if tokens == [] { return ZERO; }
    assert tokens[0] in tokens && Spelled(tokens[1..], decode);
    var child := AllKeys(tokens[1..], decode, digit);
    node := OneMember(tokens[0], child, decode);
  }

  /** For an index that is not plain, a value where the pointer denotes nothing and the code finds or stops. */
  lemma {:induction false} Misleads(tokens: seq<string>, decode: Decoder, digit: Digits) returns (node: Node)
    requires ExtendsAscii(digit) && Spelled(tokens, decode) && !PlainIndices(tokens, digit)
    ensures WellLaid(node) && ProperKeys(node, decode) && Denotes(ValueOf(node, decode), tokens) == None
    ensures var found := CodeLookup(node, tokens, decode, digit); found.Found? ==> found.value.Some?
    decreases |tokens|
  {
    var first, rest := tokens[0], tokens[1..];
    assert first in tokens && Spelled(rest, decode);
    match CodeIndex(first, digit)
    case Overlong => node := EmptyArray([]);
    case Index(k) =>
      if IsDigits(first) {
        node := MisleadsBelow(tokens, decode, digit);
      } else {
        var last := AllKeys(rest, decode, digit);
        ItemsUpToParts(k, last, decode);
        node := Array([], ItemsUpTo(k, last));
      }
    case NoIndex => node := MisleadsBelow(tokens, decode, digit);
  }

  lemma {:induction false} MisleadsBelow(tokens: seq<string>, decode: Decoder, digit: Digits) returns (node: Node)
    requires ExtendsAscii(digit) && Spelled(tokens, decode) && !PlainIndices(tokens, digit)
      && PlainIndices([tokens[0]], digit)
    ensures WellLaid(node) && ProperKeys(node, decode) && Denotes(ValueOf(node, decode), tokens) == None
    ensures var found := CodeLookup(node, tokens, decode, digit); found.Found? ==> found.value.Some?
    decreases |tokens|, 0
  {
    assert tokens[0] in tokens && Spelled(tokens[1..], decode) && tokens == [tokens[0]] + tokens[1..];
    var child := Misleads(tokens[1..], decode, digit);
    node := OneMember(tokens[0], child, decode);
  }

  /**
   * The scanner answers with what the pointer denotes on every document exactly when
   * every index in the pointer is plain.
   */
  lemma AnswersIffIndicesPlain(tokens: seq<string>, decode: Decoder, digit: Digits)
    requires ExtendsAscii(digit) && Spelled(tokens, decode)
    ensures (forall doc :: WellLaidDocument(doc) && ProperKeys(doc.root, decode) ==>
      Answers(doc, tokens, decode, digit))
       <==> PlainIndices(tokens, digit)
  {
    if PlainIndices(tokens, digit) {
      forall doc | WellLaidDocument(doc) && ProperKeys(doc.root, decode) ensures Answers(doc, tokens, decode, digit) {
        PointerSelectsWhatItDenotes(doc, tokens, decode, digit);
      }
    } else {
      var node := Misleads(tokens, decode, digit);
      var doc := Document([], node, []);
      ScannerFollowsCode(doc, tokens, decode, digit);
      assert WellLaidDocument(doc) && !Answers(doc, tokens, decode, digit);
    }
  }

  lemma ReadsAsThirteen(digit: Digits)
    requires ExtendsAscii(digit) && digit('\U{0663}') == Some(3)
    ensures CodeIndex("1\U{0663}", digit) == Index(13) && ArrayIndex("1\U{0663}") == None
  {
    var token := "1\U{0663}";
    assert token[..1] == "1" && "1"[..0] == "";
    assert DigitsValue("", digit) == 0 && DigitsValue("1", digit) == 1;
    assert !IsDigit(token[1]);
  }

  /** With the Arabic-Indic digit three, the second token of `/1\u0663` is no index, and the scanner selects item 13. */
  lemma ForeignDigitMisleads(decode: Decoder, digit: Digits) returns (doc: Document)
    requires ExtendsAscii(digit) && digit('\U{0663}') == Some(3)
    ensures WellLaidDocument(doc) && ProperKeys(doc.root, decode)
    ensures doc.root == Array([], ItemsUpTo(13, ZERO))
    ensures Denotes(ValueOf(doc.root, decode), ["1\U{0663}"]) == None
    ensures var found := RawPointerSpan(RenderDocument(doc), ["1\U{0663}"], decode, digit);
      found.Found? && found.value.Some? && Spans(RenderDocument(doc), found.value.value, ZERO)
  {
    hide ItemsUpTo, RenderDocument, RawPointerSpan, Spans, WellLaidItems, ProperItems, ItemAt, ItemValues;
    ReadsAsThirteen(digit);
    ItemsUpToParts(13, ZERO, decode);
    doc := Document([], Array([], ItemsUpTo(13, ZERO)), []);
    ScannerFollowsCode(doc, ["1\U{0663}"], decode, digit);
  }
}
