/** On every laid-out document the scanner finds exactly the bytes of what the pointer selects in the layout. */
module JsonSpansCorrect {
  import opened Wrappers
  import opened JsonText
  import opened JsonSpans

  // ------------------------------------------- where a layout stands in bytes

  /** The text stands in the source at an index. */
  predicate At(source: Bytes, index: nat, text: Bytes) {
    index + |text| <= |source| && forall k :: 0 <= k < |text| ==> source[index + k] == text[k]
  }

  predicate ByteAt(source: Bytes, index: nat, b: Byte) { index < |source| && source[index] == b }

  function Len(node: Node): nat {
    match node
    case Text(inner) => |inner| + 2
    case Atom(raw) => |raw|
    case EmptyArray(gap) => |gap| + 2
    case Array(pad, items) => |pad| + ItemsLen(items) + 2
    case EmptyObject(gap) => |gap| + 2
    case Object(pad, fields) => |pad| + FieldsLen(fields) + 2
  }

  function ItemsLen(items: Items): nat {
    Len(items.value) + |items.trail| + if items.MoreItems? then 1 + |items.pad| + ItemsLen(items.rest) else 0
  }

  /** From the first byte of a key to the first byte of its value. */
  function KeyLen(f: Fields): nat { |f.key| + 2 + |f.beforeColon| + 1 + |f.afterColon| }

  function FieldsLen(f: Fields): nat {
    KeyLen(f) + Len(f.value) + |f.trail| + if f.MoreFields? then 1 + |f.pad| + FieldsLen(f.rest) else 0
  }

  predicate StringStands(source: Bytes, i: nat, inner: Bytes) {
    ByteAt(source, i, QUOTE) && At(source, i + 1, inner) && ByteAt(source, i + 1 + |inner|, QUOTE)
  }

  /** The tokens and white space of the layout stand one after the other from an index on. */
  predicate Stands(source: Bytes, i: nat, node: Node)
    decreases node
  {
    match node
    case Text(inner) => StringStands(source, i, inner)
    case Atom(raw) => At(source, i, raw)
    case EmptyArray(gap) => ByteAt(source, i, LBRACKET) && At(source, i + 1, gap)
      && ByteAt(source, i + 1 + |gap|, RBRACKET)
    case Array(pad, items) => ByteAt(source, i, LBRACKET) && At(source, i + 1, pad)
      && ItemsStand(source, i + 1 + |pad|, items)
    case EmptyObject(gap) => ByteAt(source, i, LBRACE) && At(source, i + 1, gap)
      && ByteAt(source, i + 1 + |gap|, RBRACE)
    case Object(pad, fields) =>
      ByteAt(source, i, LBRACE) && At(source, i + 1, pad)
      && FieldsStand(source, i + 1 + |pad|, fields)
  }

  /** Items up to and including the closing bracket. */
  predicate ItemsStand(source: Bytes, i: nat, items: Items)
    decreases items
  {
    && Stands(source, i, items.value)
    && At(source, i + Len(items.value), items.trail)
    && var next := i + Len(items.value) + |items.trail|;
       if items.LastItem? then ByteAt(source, next, RBRACKET)
       else
         && ByteAt(source, next, COMMA) && At(source, next + 1, items.pad)
         && ItemsStand(source, next + 1 + |items.pad|, items.rest)
  }

  predicate KeyStands(source: Bytes, i: nat, f: Fields) {
    && StringStands(source, i, f.key)
    && At(source, i + |f.key| + 2, f.beforeColon)
    && ByteAt(source, i + |f.key| + 2 + |f.beforeColon|, COLON)
    && At(source, i + |f.key| + 2 + |f.beforeColon| + 1, f.afterColon)
  }

  /** Members up to and including the closing brace. */
  predicate FieldsStand(source: Bytes, i: nat, f: Fields)
    decreases f
  {
    && KeyStands(source, i, f)
    && Stands(source, i + KeyLen(f), f.value)
    && At(source, i + KeyLen(f) + Len(f.value), f.trail)
    && var next := i + KeyLen(f) + Len(f.value) + |f.trail|;
       if f.LastField? then ByteAt(source, next, RBRACE)
       else
         && ByteAt(source, next, COMMA) && At(source, next + 1, f.pad)
         && FieldsStand(source, next + 1 + |f.pad|, f.rest)
  }

  // ---------------------------------------------------------------- tokens

  /** White space ends here: at the end of the source or before another byte. */
  predicate Dark(source: Bytes, index: nat) {
    index <= |source| && (index < |source| ==> !IsBlank(source[index]))
  }

  /** A number or literal ends here: at the end of the source or before a delimiter. */
  predicate Bounded(source: Bytes, index: nat) {
    index <= |source| && (index < |source| ==> EndsAtom(source[index]))
  }

  lemma {:induction false} SkipsPad(source: Bytes, index: nat, pad: Bytes)
    requires At(source, index, pad) && Blank(pad) && Dark(source, index + |pad|)
    ensures SkipSpace(source, index) == index + |pad|
    decreases |pad|
  {
    if pad != [] {
      assert source[index + 0] == pad[0];
      forall k | 0 <= k < |pad[1..]| ensures source[index + 1 + k] == pad[1..][k] {
        assert source[index + (k + 1)] == pad[k + 1];
      }
      SkipsPad(source, index + 1, pad[1..]);
    }
  }

  lemma AtTail(source: Bytes, index: nat, text: Bytes, n: nat)
    requires At(source, index, text) && n <= |text|
    ensures At(source, index + n, text[n..])
  {
    forall k | 0 <= k < |text[n..]| ensures source[index + n + k] == text[n..][k] {
      assert source[index + (n + k)] == text[n + k];
    }
  }

  lemma {:induction false} StringTailOf(source: Bytes, index: nat, inner: Bytes)
    requires At(source, index, inner) && ByteAt(source, index + |inner|, QUOTE) && StringInner(inner)
    ensures StringTail(source, index) == Found(index + |inner| + 1)
    decreases |inner|
  {
    if inner != [] {
      assert source[index + 0] == inner[0];
      var n := if inner[0] == BACKSLASH then 2 else 1;
      AtTail(source, index, inner, n);
      StringTailOf(source, index + n, inner[n..]);
    }
  }

  lemma {:induction false} AtomEndOf(source: Bytes, index: nat, raw: Bytes)
    requires At(source, index, raw) && (forall i :: 0 <= i < |raw| ==> !EndsAtom(raw[i]))
    requires Bounded(source, index + |raw|)
    ensures AtomEnd(source, index) == index + |raw|
    decreases |raw|
  {
    if raw != [] {
      assert source[index + 0] == raw[0];
      AtTail(source, index, raw, 1);
      AtomEndOf(source, index + 1, raw[1..]);
    }
  }

  /** A value starts with a byte that is neither white space nor a closing byte. */
  lemma StartsDark(source: Bytes, i: nat, node: Node)
    requires Stands(source, i, node) && WellLaid(node)
    ensures i < |source| && !EndsAtom(source[i]) && Dark(source, i)
    ensures source[i] == QUOTE <==> node.Text?
    ensures source[i] == LBRACE <==> node.Object? || node.EmptyObject?
    ensures source[i] == LBRACKET <==> node.Array? || node.EmptyArray?
  {
    if node.Atom? { assert source[i + 0] == node.raw[0]; }
  }

  /** White space and then a byte that is none. */
  lemma PadThen(source: Bytes, i: nat, pad: Bytes, b: Byte)
    requires At(source, i, pad) && Blank(pad) && ByteAt(source, i + |pad|, b) && !IsBlank(b)
    ensures SkipSpace(source, i) == i + |pad|
    ensures EndsAtom(b) ==> Bounded(source, i)
  {
    SkipsPad(source, i, pad);
    if pad != [] { assert source[i + 0] == pad[0]; }
  }

  /** What the scanner sees behind an item. */
  lemma AfterItem(source: Bytes, i: nat, items: Items)
    requires ItemsStand(source, i, items) && WellLaidItems(items)
    ensures var end := i + Len(items.value); var next := end + |items.trail| + 1;
      Bounded(source, end)
      && After(source, end, RBRACKET) == Found(if items.LastItem? then Close(next) else Another(next + |items.pad|))
  {
    var end := i + Len(items.value);
    PadThen(source, end, items.trail, if items.LastItem? then RBRACKET else COMMA);
    if items.MoreItems? {
      var next := end + |items.trail| + 1;
      StartsDark(source, next + |items.pad|, items.rest.value);
      SkipsPad(source, next, items.pad);
    }
  }

  /** What the scanner sees behind a member. */
  lemma AfterField(source: Bytes, i: nat, f: Fields)
    requires FieldsStand(source, i, f) && WellLaidFields(f)
    ensures var end := i + KeyLen(f) + Len(f.value); var next := end + |f.trail| + 1;
      Bounded(source, end)
      && After(source, end, RBRACE) == Found(if f.LastField? then Close(next) else Another(next + |f.pad|))
  {
    var end := i + KeyLen(f) + Len(f.value);
    PadThen(source, end, f.trail, if f.LastField? then RBRACE else COMMA);
    if f.MoreFields? { PadThen(source, end + |f.trail| + 1, f.pad, QUOTE); }
  }

  /** What the scanner sees of a key: its end, its text, and the start of its value. */
  lemma KeyParts(source: Bytes, i: nat, f: Fields)
    requires FieldsStand(source, i, f) && WellLaidFields(f)
    ensures var keyEnd := i + |f.key| + 2; var colonEnd := keyEnd + |f.beforeColon| + 1;
      && StringEnd(source, i) == Found(keyEnd) && source[i..keyEnd] == Quoted(f.key)
      && AfterKey(source, keyEnd) == Found(colonEnd)
      && SkipSpace(source, colonEnd) == i + KeyLen(f)
  {
    var keyEnd := i + |f.key| + 2;
    StringTailOf(source, i + 1, f.key);
    assert source[i..keyEnd] == Quoted(f.key);
    PadThen(source, keyEnd, f.beforeColon, COLON);
    StartsDark(source, i + KeyLen(f), f.value);
    SkipsPad(source, keyEnd + |f.beforeColon| + 1, f.afterColon);
  }

  // ----------------------------------------------------- where values end

  /** The scanner finds the end of every laid-out value, white space before it included. */
  lemma {:induction false} ValueEndOf(source: Bytes, index: nat, pad: Bytes, node: Node)
    requires WellLaid(node) && Blank(pad) && At(source, index, pad)
    requires Stands(source, index + |pad|, node) && Bounded(source, index + |pad| + Len(node))
    ensures ValueEnd(source, index) == Found(index + |pad| + Len(node))
    decreases node, 0
  {
    hide ItemsEnd, FieldsEnd, StringEnd, AtomEnd, SkipSpace, ItemsStand, FieldsStand, WellLaidItems, WellLaidFields,
      ItemsLen, FieldsLen;
    var at := index + |pad|;
    StartsDark(source, at, node);
    SkipsPad(source, index, pad);
    match node
    case Array(inside, items) =>
      Opens(source, at, node);
      ItemsEndOf(source, at + 1 + |inside|, items);
    case Object(inside, fields) =>
      Opens(source, at, node);
      FieldsEndOf(source, at + 1 + |inside|, fields);
    case _ => SimpleValueEnd(source, index, at, node);
  }

  lemma SimpleValueEnd(source: Bytes, index: nat, at: nat, node: Node)
    requires WellLaid(node) && !node.Array? && !node.Object?
    requires index <= |source| && SkipSpace(source, index) == at && Stands(source, at, node)
      && Bounded(source, at + Len(node))
    ensures ValueEnd(source, index) == Found(at + Len(node))
  {
    StartsDark(source, at, node);
    match node
    case Text(inner) => StringTailOf(source, at + 1, inner);
    case Atom(raw) => AtomEndOf(source, at, raw);
    case EmptyArray(gap) => PadThen(source, at + 1, gap, RBRACKET);
    case EmptyObject(gap) => PadThen(source, at + 1, gap, RBRACE);
  }

  /** What the scanner sees at the start of a non-empty container. */
  lemma Opens(source: Bytes, at: nat, node: Node)
    requires Stands(source, at, node) && WellLaid(node) && (node.Array? || node.Object?)
    ensures var inner := at + 1 + |node.pad|;
      at < |source| && SkipSpace(source, at + 1) == inner && inner < |source| && source[inner] != RBRACKET
        && source[inner] != RBRACE
  {
    var inner := at + 1 + |node.pad|;
    if node.Array? {
      StartsDark(source, inner, node.items.value);
      SkipsPad(source, at + 1, node.pad);
    } else {
      PadThen(source, at + 1, node.pad, QUOTE);
    }
  }

  lemma {:induction false} ItemsEndOf(source: Bytes, i: nat, items: Items)
    requires WellLaidItems(items) && ItemsStand(source, i, items)
    ensures ItemsEnd(source, i) == Found(i + ItemsLen(items) + 1)
    decreases items, 1
  {
    AfterItem(source, i, items);
    ValueEndOf(source, i, [], items.value);
    if items.MoreItems? { ItemsEndOf(source, i + Len(items.value) + |items.trail| + 1 + |items.pad|, items.rest); }
  }

  /** Where the first member's value ends. */
  function FieldEnd(i: nat, f: Fields): nat { i + KeyLen(f) + Len(f.value) }

  /** Where the member after the first starts. */
  function NextField(i: nat, f: Fields): nat
    requires f.MoreFields?
  {
    FieldEnd(i, f) + |f.trail| + 1 + |f.pad|
  }

  /** Everything the scanner sees of the first member. */
  predicate FieldSeen(source: Bytes, i: nat, f: Fields) {
    && i <= |source|
    && StringEnd(source, i) == Found(i + |f.key| + 2) && source[i..i + |f.key| + 2] == Quoted(f.key)
    && ReadField(source, i) == Found(Member(i + |f.key| + 2, i + KeyLen(f), FieldEnd(i, f)))
    && After(source, FieldEnd(i, f), RBRACE)
       == Found(if f.LastField? then Close(FieldEnd(i, f) + |f.trail| + 1) else Another(NextField(i, f)))
  }

  lemma ReadFieldParts(source: Bytes, i: nat, keyEnd: nat, colonEnd: nat, start: nat, end: nat)
    requires i <= |source| && StringEnd(source, i) == Found(keyEnd) && AfterKey(source, keyEnd) == Found(colonEnd)
    requires SkipSpace(source, colonEnd) == start && ValueEnd(source, start) == Found(end)
    ensures ReadField(source, i) == Found(Member(keyEnd, start, end))
  {}

  lemma SeeField(source: Bytes, i: nat, f: Fields)
    requires WellLaidFields(f) && FieldsStand(source, i, f)
    ensures FieldSeen(source, i, f)
    decreases f, 0
  {
    hide ValueEnd, StringEnd, AfterKey, After, SkipSpace, Stands, WellLaid, KeyStands, ReadField;
    KeyParts(source, i, f);
    AfterField(source, i, f);
    ValueEndOf(source, i + KeyLen(f), [], f.value);
    ReadFieldParts(source, i, i + |f.key| + 2, i + KeyLen(f) - |f.afterColon|, i + KeyLen(f), FieldEnd(i, f));
  }

  lemma FieldsEndStep(source: Bytes, i: nat, f: Fields)
    requires FieldSeen(source, i, f)
    ensures FieldsEnd(source, i) == if f.LastField? then Found(FieldEnd(i, f) + |f.trail| + 1)
      else FieldsEnd(source, NextField(i, f))
  {}

  lemma {:induction false} FieldsEndOf(source: Bytes, i: nat, f: Fields)
    requires WellLaidFields(f) && FieldsStand(source, i, f)
    ensures FieldsEnd(source, i) == Found(i + FieldsLen(f) + 1)
    decreases f, 1
  {
    hide FieldSeen, ValueEnd, StringEnd, AfterKey, After, SkipSpace, Stands, WellLaid, KeyStands, ReadField, FieldsEnd,
      At, Blank, StringInner, Len;
    SeeField(source, i, f);
    FieldsEndStep(source, i, f);
    if f.MoreFields? { FieldsEndOf(source, NextField(i, f), f.rest); }
  }

  // -------------------------------------------------- what pointers select

  /** The span is exactly the place where a value stands. */
  predicate Spans(source: Bytes, span: Span, node: Node) {
    Stands(source, span.start, node) && span.end == span.start + Len(node) && Bounded(source, span.end)
  }

  /** A search found nothing when the layout has nothing, and otherwise the place of what it has. */
  predicate Selects(source: Bytes, found: Scan<Option<Span>>, node: Option<Node>) {
    found.Found? && (found.value.Some? <==> node.Some?) && (node.Some? ==> Spans(source, found.value.value, node.value))
  }

  /** The same, for a search that may be stopped. */
  predicate Follows(source: Bytes, found: Scan<Option<Span>>, node: Scan<Option<Node>>) {
    if node.Found? then Selects(source, found, node.value) else found.Stopped?
  }

  /** One reference token applied to a laid-out value, with indices as the code reads them. */
  function CodeChild(node: Node, token: string, decode: Decoder, digit: Digits): (child: Scan<Option<Node>>)
    ensures !child.Refused?
  {
    match node
    case Object(_, fields) => Found(FieldNamed(fields, token, decode))
    case Array(_, items) =>
      (match CodeIndex(token, digit)
       case NoIndex => Found(None) case Overlong => Stopped case Index(k) => Found(ItemAt(items, k)))
    case EmptyArray(_) => if CodeIndex(token, digit).Overlong? then Stopped else Found(None)
    case _ => Found(None)
  }

  function CodeLookup(node: Node, tokens: seq<string>, decode: Decoder, digit: Digits): (found: Scan<Option<Node>>)
    ensures !found.Refused?
    decreases |tokens|
  {
    if tokens == [] then Found(Some(node))
    else match CodeChild(node, tokens[0], decode, digit)
      case Stopped => Stopped
      case Found(None) => Found(None)
      case Found(Some(child)) => CodeLookup(child, tokens[1..], decode, digit)
  }

  lemma {:induction false} ItemSpanOf(source: Bytes, i: nat, items: Items, k: nat)
    requires WellLaidItems(items) && ItemsStand(source, i, items) && i <= |source|
    ensures Selects(source, ItemSpan(source, i, k), ItemAt(items, k))
    decreases items
  {
    AfterItem(source, i, items);
    ValueEndOf(source, i, [], items.value);
    if k > 0 && items.MoreItems? {
      ItemSpanOf(source, i + Len(items.value) + |items.trail| + 1 + |items.pad|, items.rest, k - 1);
    }
  }

  /** Where a named member's value lies among members that start at an index. */
  function FieldPlace(i: nat, f: Fields, name: string, decode: Decoder): Option<Span>
    decreases f
  {
    if decode(Quoted(f.key)) == Some(name) then Some(Span(i + KeyLen(f), FieldEnd(i, f)))
    else if f.MoreFields? then FieldPlace(NextField(i, f), f.rest, name, decode) else None
  }

  lemma FieldSpanStep(source: Bytes, i: nat, f: Fields, name: string, decode: Decoder)
    requires FieldSeen(source, i, f) && decode(Quoted(f.key)).Some?
    ensures FieldSpan(source, i, name, decode)
         == if decode(Quoted(f.key)) == Some(name) then Found(Some(Span(i + KeyLen(f), FieldEnd(i, f))))
            else if f.LastField? then Found(None) else FieldSpan(source, NextField(i, f), name, decode)
  {}

  lemma {:induction false} FieldSpanOf(source: Bytes, i: nat, f: Fields, name: string, decode: Decoder)
    requires WellLaidFields(f) && ProperFields(f, decode) && FieldsStand(source, i, f)
    ensures i <= |source| && FieldSpan(source, i, name, decode) == Found(FieldPlace(i, f, name, decode))
    decreases f
  {
    hide FieldSeen, ValueEnd, StringEnd, AfterKey, After, SkipSpace, Stands, WellLaid, KeyStands, ReadField, FieldSpan,
      At, Blank, StringInner, Len;
    SeeField(source, i, f);
    FieldSpanStep(source, i, f, name, decode);
    if f.MoreFields? { FieldSpanOf(source, NextField(i, f), f.rest, name, decode); }
  }

  lemma {:induction false} FieldPlaceStands(source: Bytes, i: nat, f: Fields, name: string, decode: Decoder)
    requires WellLaidFields(f) && FieldsStand(source, i, f)
    ensures Selects(source, Found(FieldPlace(i, f, name, decode)), FieldNamed(f, name, decode))
    decreases f
  {
    AfterField(source, i, f);
    if f.MoreFields? { FieldPlaceStands(source, NextField(i, f), f.rest, name, decode); }
  }

  /** One token: the place of the child, found from the value or from white space ahead of it. */
  lemma ChildSpanOf(source: Bytes, start: nat, pad: Bytes, node: Node, token: string, decode: Decoder, digit: Digits)
    requires WellLaid(node) && ProperKeys(node, decode) && Blank(pad)
    requires start <= |source| && At(source, start, pad) && Stands(source, start + |pad|, node)
    ensures Follows(source, ChildSpan(source, start, token, decode, digit), CodeChild(node, token, decode, digit))
  {
    var at := start + |pad|;
    StartsDark(source, at, node);
    SkipsPad(source, start, pad);
    match node
    case Array(_, _) => ArrayChild(source, start, at, node, token, decode, digit);
    case Object(_, _) => ObjectChild(source, start, at, node, token, decode, digit);
    case _ => NoChild(source, start, at, node, token, decode, digit);
  }

  lemma NoChild(source: Bytes, start: nat, at: nat, node: Node, token: string, decode: Decoder, digit: Digits)
    requires WellLaid(node) && !node.Array? && !node.Object?
    requires start <= |source| && SkipSpace(source, start) == at && Stands(source, at, node)
    ensures Follows(source, ChildSpan(source, start, token, decode, digit), CodeChild(node, token, decode, digit))
  {
    StartsDark(source, at, node);
    match node
    case EmptyArray(gap) => PadThen(source, at + 1, gap, RBRACKET);
    case EmptyObject(gap) => PadThen(source, at + 1, gap, RBRACE);
    case _ =>
  }

  lemma ArrayChild(source: Bytes, start: nat, at: nat, node: Node, token: string, decode: Decoder, digit: Digits)
    requires WellLaid(node) && node.Array?
    requires start <= |source| && SkipSpace(source, start) == at && Stands(source, at, node)
    ensures Follows(source, ChildSpan(source, start, token, decode, digit), CodeChild(node, token, decode, digit))
  {
    Opens(source, at, node);
    var k := CodeIndex(token, digit);
    if k.Index? { ItemSpanOf(source, at + 1 + |node.pad|, node.items, k.value); }
  }

  lemma ObjectEntered(source: Bytes, start: nat, at: nat, node: Node, token: string, decode: Decoder, digit: Digits)
    requires WellLaid(node) && node.Object?
    requires start <= |source| && SkipSpace(source, start) == at && Stands(source, at, node)
    ensures at + 1 + |node.pad| <= |source|
    ensures ChildSpan(source, start, token, decode, digit) == FieldSpan(source, at + 1 + |node.pad|, token, decode)
  {
    hide FieldSpan, FieldsStand, WellLaidFields;
    Opens(source, at, node);
  }

  lemma ObjectChild(source: Bytes, start: nat, at: nat, node: Node, token: string, decode: Decoder, digit: Digits)
    requires WellLaid(node) && ProperKeys(node, decode) && node.Object?
    requires start <= |source| && SkipSpace(source, start) == at && Stands(source, at, node)
    ensures Follows(source, ChildSpan(source, start, token, decode, digit), CodeChild(node, token, decode, digit))
  {
    ObjectEntered(source, start, at, node, token, decode, digit);
    hide ChildSpan, FieldSpan, FieldPlace, Selects, FieldNamed, FieldsStand, WellLaidFields, ProperFields, SkipSpace,
      Spans;
    FieldSpanOf(source, at + 1 + |node.pad|, node.fields, token, decode);
    FieldPlaceStands(source, at + 1 + |node.pad|, node.fields, token, decode);
  }

  lemma {:induction false} ItemWellLaid(items: Items, k: nat, decode: Decoder)
    requires WellLaidItems(items) && ProperItems(items, decode)
    ensures ItemAt(items, k).Some? ==> WellLaid(ItemAt(items, k).value) && ProperKeys(ItemAt(items, k).value, decode)
  {
    if k > 0 && items.MoreItems? { ItemWellLaid(items.rest, k - 1, decode); }
  }

  lemma {:induction false} FieldWellLaid(fields: Fields, name: string, decode: Decoder)
    requires WellLaidFields(fields) && ProperFields(fields, decode)
    ensures var f := FieldNamed(fields, name, decode); f.Some? ==> WellLaid(f.value) && ProperKeys(f.value, decode)
  {
    if fields.MoreFields? { FieldWellLaid(fields.rest, name, decode); }
  }

  lemma ChildWellLaid(node: Node, token: string, decode: Decoder, digit: Digits)
    requires WellLaid(node) && ProperKeys(node, decode)
    ensures var child := CodeChild(node, token, decode, digit);
      child.Found? && child.value.Some? ==> WellLaid(child.value.value) && ProperKeys(child.value.value, decode)
  {
    if node.Array? && CodeIndex(token, digit).Index? {
      ItemWellLaid(node.items, CodeIndex(token, digit).value, decode);
    }
    if node.Object? { FieldWellLaid(node.fields, token, decode); }
  }

  lemma {:induction false} PointerFromOf(source: Bytes, span: Span, pad: Bytes, node: Node, tokens: seq<string>,
    decode: Decoder, digit: Digits)
    requires WellLaid(node) && ProperKeys(node, decode) && Blank(pad)
    requires span.start <= span.end <= |source| && At(source, span.start, pad)
    requires Spans(source, Span(span.start + |pad|, span.end), node)
    requires tokens == [] ==> pad == []
    ensures Follows(source, PointerFrom(source, span, tokens, decode, digit), CodeLookup(node, tokens, decode, digit))
    ensures var found := CodeLookup(node, tokens, decode, digit);
      found.Found? && found.value.Some? ==> WellLaid(found.value.value) && ProperKeys(found.value.value, decode)
    decreases |tokens|
  {
    hide ChildSpan, CodeChild, WellLaid, ProperKeys, Stands;
    if tokens != [] {
      ChildSpanOf(source, span.start, pad, node, tokens[0], decode, digit);
      ChildWellLaid(node, tokens[0], decode, digit);
      var child := CodeChild(node, tokens[0], decode, digit);
      if child.Found? && child.value.Some? {
        var found := ChildSpan(source, span.start, tokens[0], decode, digit).value.value;
        PointerFromOf(source, found, [], child.value.value, tokens[1..], decode, digit);
      }
    }
  }

  // ---------------------------------------------- standing and being printed

  lemma {:induction false} PrintedLen(node: Node)
    ensures |Render(node)| == Len(node)
  {
    match node
    case Array(_, items) => PrintedItemsLen(items);
    case Object(_, fields) => PrintedFieldsLen(fields);
    case _ =>
  }

  lemma {:induction false} PrintedItemsLen(items: Items)
    ensures |RenderItems(items)| == ItemsLen(items)
  {
    PrintedLen(items.value);
    if items.MoreItems? { PrintedItemsLen(items.rest); }
  }

  lemma {:induction false} PrintedFieldsLen(f: Fields)
    ensures |RenderFields(f)| == FieldsLen(f)
  {
    PrintedLen(f.value);
    if f.MoreFields? { PrintedFieldsLen(f.rest); }
  }

  lemma AtParts(source: Bytes, i: nat, a: Bytes, b: Bytes)
    ensures At(source, i, a + b) <==> At(source, i, a) && At(source, i + |a|, b)
  {
    if At(source, i, a + b) {
      AtTail(source, i, a + b, |a|);
      assert (a + b)[|a|..] == b;
      forall k | 0 <= k < |a| ensures source[i + k] == a[k] { assert source[i + k] == (a + b)[k]; }
    }
    if At(source, i, a) && At(source, i + |a|, b) {
      forall k | 0 <= k < |a + b| ensures source[i + k] == (a + b)[k] {
        if k >= |a| { assert source[i + |a| + (k - |a|)] == b[k - |a|]; }
      }
    }
  }

  lemma AtOne(source: Bytes, i: nat, b: Byte)
    ensures At(source, i, [b]) <==> ByteAt(source, i, b)
  {
    if At(source, i, [b]) { assert source[i + 0] == [b][0]; }
  }

  lemma AtQuoted(source: Bytes, i: nat, inner: Bytes)
    ensures At(source, i, Quoted(inner)) <==> StringStands(source, i, inner)
  {
    AtParts(source, i, [QUOTE] + inner, [QUOTE]);
    AtParts(source, i, [QUOTE], inner);
    AtOne(source, i, QUOTE);
    AtOne(source, i + 1 + |inner|, QUOTE);
  }

  lemma AtBracketed(source: Bytes, i: nat, open: Byte, middle: Bytes, close: Byte)
    ensures At(source, i, [open] + middle + [close])
       <==> ByteAt(source, i, open) && At(source, i + 1, middle) && ByteAt(source, i + 1 + |middle|, close)
  {
    AtParts(source, i, [open] + middle, [close]);
    AtParts(source, i, [open], middle);
    AtOne(source, i, open);
    AtOne(source, i + 1 + |middle|, close);
  }

  lemma AtOpened(source: Bytes, i: nat, open: Byte, pad: Bytes, middle: Bytes, close: Byte)
    ensures At(source, i, [open] + pad + middle + [close])
       <==> ByteAt(source, i, open) && At(source, i + 1, pad) && At(source, i + 1 + |pad|, middle)
            && ByteAt(source, i + 1 + |pad| + |middle|, close)
  {
    assert [open] + pad + middle + [close] == [open] + (pad + middle) + [close];
    AtBracketed(source, i, open, pad + middle, close);
    AtParts(source, i + 1, pad, middle);
  }

  /** Standing in the source is being the printed text there. */
  lemma {:induction false} StandsIsPrinted(source: Bytes, i: nat, node: Node)
    ensures Stands(source, i, node) <==> At(source, i, Render(node))
    decreases node, 0
  {
    match node
    case Text(inner) => AtQuoted(source, i, inner);
    case Atom(_) =>
    case EmptyArray(gap) => AtBracketed(source, i, LBRACKET, gap, RBRACKET);
    case EmptyObject(gap) => AtBracketed(source, i, LBRACE, gap, RBRACE);
    case Array(pad, items) =>
      AtOpened(source, i, LBRACKET, pad, RenderItems(items), RBRACKET);
      ItemsStandPrinted(source, i + 1 + |pad|, items);
    case Object(pad, fields) =>
      AtOpened(source, i, LBRACE, pad, RenderFields(fields), RBRACE);
      FieldsStandPrinted(source, i + 1 + |pad|, fields);
  }

  lemma {:induction false} ItemsStandPrinted(source: Bytes, i: nat, items: Items)
    ensures ItemsStand(source, i, items)
       <==> At(source, i, RenderItems(items)) && ByteAt(source, i + |RenderItems(items)|, RBRACKET)
    decreases items, 1
  {
    StandsIsPrinted(source, i, items.value);
    PrintedLen(items.value);
    var value, trail := Render(items.value), items.trail;
    AtParts(source, i, value, trail);
    if items.MoreItems? {
      var next := i + |value + trail|;
      ItemsStandPrinted(source, next + 1 + |items.pad|, items.rest);
      AtParts(source, i, value + trail + [COMMA] + items.pad, RenderItems(items.rest));
      AtParts(source, i, value + trail + [COMMA], items.pad);
      AtParts(source, i, value + trail, [COMMA]);
      AtOne(source, next, COMMA);
    }
  }

  lemma KeyStandsPrinted(source: Bytes, i: nat, f: Fields)
    ensures var key := Quoted(f.key) + f.beforeColon + [COLON] + f.afterColon;
      |key| == KeyLen(f) && (KeyStands(source, i, f) <==> At(source, i, key))
  {
    var q := Quoted(f.key);
    AtQuoted(source, i, f.key);
    AtParts(source, i, q + f.beforeColon + [COLON], f.afterColon);
    AtParts(source, i, q + f.beforeColon, [COLON]);
    AtParts(source, i, q, f.beforeColon);
    AtOne(source, i + |q + f.beforeColon|, COLON);
  }

  lemma FieldStandsPrinted(source: Bytes, i: nat, f: Fields)
    requires Stands(source, i + KeyLen(f), f.value) <==> At(source, i + KeyLen(f), Render(f.value))
    ensures |RenderField(f)| == KeyLen(f) + Len(f.value) + |f.trail|
    ensures At(source, i, RenderField(f)) <==>
      && KeyStands(source, i, f) && Stands(source, i + KeyLen(f), f.value)
      && At(source, i + KeyLen(f) + Len(f.value), f.trail)
  {
    var key := Quoted(f.key) + f.beforeColon + [COLON] + f.afterColon;
    KeyStandsPrinted(source, i, f);
    PrintedLen(f.value);
    AtParts(source, i, key + Render(f.value), f.trail);
    AtParts(source, i, key, Render(f.value));
  }

  lemma {:induction false} FieldsStandPrinted(source: Bytes, i: nat, f: Fields)
    ensures FieldsStand(source, i, f)
       <==> At(source, i, RenderFields(f)) && ByteAt(source, i + |RenderFields(f)|, RBRACE)
    decreases f, 1
  {
    hide Stands, KeyStands, At, Render, Len;
    StandsIsPrinted(source, i + KeyLen(f), f.value);
    FieldStandsPrinted(source, i, f);
    var head := RenderField(f);
    if f.MoreFields? {
      var next := i + |head|;
      FieldsStandPrinted(source, next + 1 + |f.pad|, f.rest);
      assert RenderFields(f) == head + ([COMMA] + f.pad + RenderFields(f.rest)) == head + [COMMA] + f.pad
        + RenderFields(f.rest);
      assert |RenderFields(f)| == |head| + 1 + |f.pad| + |RenderFields(f.rest)|;
      AtParts(source, i, head + [COMMA] + f.pad, RenderFields(f.rest));
      AtParts(source, i, head + [COMMA], f.pad);
      AtParts(source, i, head, [COMMA]);
      AtOne(source, next, COMMA);
    } else {
      assert RenderFields(f) == head + [] == head;
    }
  }

  lemma SpanText(source: Bytes, span: Span, node: Node)
    requires Spans(source, span, node) && span.end <= |source|
    ensures source[span.start..span.end] == Render(node)
  {
    StandsIsPrinted(source, span.start, node);
    PrintedLen(node);
    forall k | 0 <= k < Len(node) ensures source[span.start..span.end][k] == Render(node)[k] {
      assert source[span.start + k] == Render(node)[k];
    }
  }

  // ----------------------------------------------------------- main result

  lemma RootSpans(doc: Document)
    requires WellLaidDocument(doc)
    ensures At(RenderDocument(doc), 0, doc.lead)
    ensures Spans(RenderDocument(doc), Span(|doc.lead|, |doc.lead| + Len(doc.root)), doc.root)
  {
    var source := RenderDocument(doc);
    assert At(source, 0, source);
    AtParts(source, 0, doc.lead + Render(doc.root), doc.tail);
    AtParts(source, 0, doc.lead, Render(doc.root));
    StandsIsPrinted(source, |doc.lead|, doc.root);
    PrintedLen(doc.root);
    if doc.tail != [] { assert source[|doc.lead| + Len(doc.root)] == doc.tail[0]; }
  }

  /** On every document the scanner does what the code's way of reading indices finds in the layout. */
  lemma ScannerFollowsCode(doc: Document, tokens: seq<string>, decode: Decoder, digit: Digits)
    requires WellLaidDocument(doc) && ProperKeys(doc.root, decode) && tokens != []
    ensures Follows(RenderDocument(doc), RawPointerSpan(RenderDocument(doc), tokens, decode, digit),
      CodeLookup(doc.root, tokens, decode, digit))
    ensures var found := CodeLookup(doc.root, tokens, decode, digit);
      found.Found? && found.value.Some? ==> WellLaid(found.value.value) && ProperKeys(found.value.value, decode)
  {
    hide WellLaid, ProperKeys, Render, Stands, ValueEnd;
    var source := RenderDocument(doc);
    RootSpans(doc);
    ValueEndOf(source, 0, doc.lead, doc.root);
    PointerFromOf(source, Span(0, |doc.lead| + Len(doc.root)), doc.lead, doc.root, tokens, decode, digit);
  }
}
