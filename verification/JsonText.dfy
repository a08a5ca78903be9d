/** JSON documents in any white-space layout, what they mean, and what a pointer into them denotes. */
module JsonText {
  import opened Wrappers
  import opened Texts

  newtype Byte = i: int | 0 <= i < 256

  type Bytes = seq<Byte>

  const QUOTE: Byte := 34
  const BACKSLASH: Byte := 92
  const LBRACE: Byte := 123
  const RBRACE: Byte := 125
  const LBRACKET: Byte := 91
  const RBRACKET: Byte := 93
  const COLON: Byte := 58
  const COMMA: Byte := 44

  predicate IsBlank(b: Byte) { b == 32 || b == 9 || b == 13 || b == 10 }

  /** The bytes that end a number or a literal. */
  predicate EndsAtom(b: Byte) { b == COMMA || b == RBRACKET || b == RBRACE || IsBlank(b) }

  // ----------------------------------------------------------------- layout

  /** A value as it is laid out: the white space between its tokens is part of it. */
  datatype Node =
    | Text(inner: Bytes)
    | Atom(raw: Bytes)
    | EmptyArray(gap: Bytes)
    | Array(pad: Bytes, items: Items)
    | EmptyObject(gap: Bytes)
    | Object(pad: Bytes, fields: Fields)

  datatype Items =
    | LastItem(value: Node, trail: Bytes)
    | MoreItems(value: Node, trail: Bytes, pad: Bytes, rest: Items)

  datatype Fields =
    | LastField(key: Bytes, beforeColon: Bytes, afterColon: Bytes, value: Node, trail: Bytes)
    | MoreFields(key: Bytes, beforeColon: Bytes, afterColon: Bytes, value: Node, trail: Bytes, pad: Bytes, rest: Fields)

  datatype Document = Document(lead: Bytes, root: Node, tail: Bytes)

  predicate Blank(text: Bytes) { forall i :: 0 <= i < |text| ==> IsBlank(text[i]) }

  /** The inside of a string token: no bare quote, and every backslash escapes one byte. */
  predicate StringInner(text: Bytes) {
    if text == [] then true
    else if text[0] == BACKSLASH then |text| >= 2 && StringInner(text[2..])
    else text[0] != QUOTE && StringInner(text[1..])
  }

  predicate AtomText(text: Bytes) {
    && text != [] && text[0] != QUOTE && text[0] != LBRACE && text[0] != LBRACKET
    && forall i :: 0 <= i < |text| ==> !EndsAtom(text[i])
  }

  predicate WellLaid(node: Node) {
    match node
    case Text(inner) => StringInner(inner)
    case Atom(raw) => AtomText(raw)
    case EmptyArray(gap) => Blank(gap)
    case Array(pad, items) => Blank(pad) && WellLaidItems(items)
    case EmptyObject(gap) => Blank(gap)
    case Object(pad, fields) => Blank(pad) && WellLaidFields(fields)
  }

  predicate WellLaidItems(items: Items) {
    match items
    case LastItem(value, trail) => WellLaid(value) && Blank(trail)
    case MoreItems(value, trail, pad, rest) => WellLaid(value) && Blank(trail) && Blank(pad) && WellLaidItems(rest)
  }

  predicate WellLaidFields(fields: Fields) {
    && StringInner(fields.key) && Blank(fields.beforeColon) && Blank(fields.afterColon)
    && WellLaid(fields.value) && Blank(fields.trail)
    && (fields.MoreFields? ==> Blank(fields.pad) && WellLaidFields(fields.rest))
  }

  function Quoted(inner: Bytes): Bytes { [QUOTE] + inner + [QUOTE] }

  function Render(node: Node): (text: Bytes)
    ensures |text| >= 2 || node.Atom?
    decreases node, 0
  {
    match node
    case Text(inner) => Quoted(inner)
    case Atom(raw) => raw
    case EmptyArray(gap) => [LBRACKET] + gap + [RBRACKET]
    case Array(pad, items) => [LBRACKET] + pad + RenderItems(items) + [RBRACKET]
    case EmptyObject(gap) => [LBRACE] + gap + [RBRACE]
    case Object(pad, fields) => [LBRACE] + pad + RenderFields(fields) + [RBRACE]
  }

  function RenderItems(items: Items): Bytes
    decreases items, 0
  {
    match items
    case LastItem(value, trail) => Render(value) + trail
    case MoreItems(value, trail, pad, rest) => Render(value) + trail + [COMMA] + pad + RenderItems(rest)
  }

  function RenderField(f: Fields): Bytes
    decreases f, 0
  {
    Quoted(f.key) + f.beforeColon + [COLON] + f.afterColon + Render(f.value) + f.trail
  }

  function RenderFields(fields: Fields): Bytes
    decreases fields, 1
  {
    RenderField(fields) + if fields.MoreFields? then [COMMA] + fields.pad + RenderFields(fields.rest) else []
  }

  function RenderDocument(doc: Document): Bytes { doc.lead + Render(doc.root) + doc.tail }

  predicate WellLaidDocument(doc: Document) { Blank(doc.lead) && WellLaid(doc.root) && Blank(doc.tail) }

  // ---------------------------------------------------------------- meaning

  /** How string tokens read, as a JSON reader decides it; None when the token does not decode. */
  type Decoder = Bytes -> Option<string>

  /** The value a layout stands for. String and atom tokens are kept as they are spelled. */
  datatype Value =
    | TextValue(token: Bytes) | AtomValue(token: Bytes)
    | ArrayValue(items: seq<Value>) | ObjectValue(members: map<string, Value>)

  /** Every key decodes and no object repeats one. */
  predicate ProperKeys(node: Node, decode: Decoder) {
    match node
    case Array(_, items) => ProperItems(items, decode)
    case Object(_, fields) => ProperFields(fields, decode)
    case _ => true
  }

  predicate ProperItems(items: Items, decode: Decoder) {
    ProperKeys(items.value, decode) && (items.MoreItems? ==> ProperItems(items.rest, decode))
  }

  predicate ProperFields(fields: Fields, decode: Decoder) {
    && decode(Quoted(fields.key)).Some? && ProperKeys(fields.value, decode)
    && (fields.MoreFields? ==>
          ProperFields(fields.rest, decode) && decode(Quoted(fields.key)).value !in KeysOf(fields.rest, decode))
  }

  function KeysOf(fields: Fields, decode: Decoder): set<string> {
    (if decode(Quoted(fields.key)).Some? then {decode(Quoted(fields.key)).value} else {})
    + (if fields.MoreFields? then KeysOf(fields.rest, decode) else {})
  }

  function ValueOf(node: Node, decode: Decoder): Value
    requires ProperKeys(node, decode)
  {
    match node
    case Text(inner) => TextValue(Quoted(inner))
    case Atom(raw) => AtomValue(raw)
    case EmptyArray(_) => ArrayValue([])
    case Array(_, items) => ArrayValue(ItemValues(items, decode))
    case EmptyObject(_) => ObjectValue(map[])
    case Object(_, fields) => ObjectValue(FieldValues(fields, decode))
  }

  function ItemValues(items: Items, decode: Decoder): (values: seq<Value>)
    requires ProperItems(items, decode)
    ensures |values| == ItemCount(items)
  {
    [ValueOf(items.value, decode)] + (if items.MoreItems? then ItemValues(items.rest, decode) else [])
  }

  function ItemCount(items: Items): nat { 1 + if items.MoreItems? then ItemCount(items.rest) else 0 }

  function FieldValues(fields: Fields, decode: Decoder): (members: map<string, Value>)
    requires ProperFields(fields, decode)
    ensures members.Keys == KeysOf(fields, decode)
  {
    (if fields.MoreFields? then FieldValues(fields.rest, decode) else map[])
    [decode(Quoted(fields.key)).value := ValueOf(fields.value, decode)]
  }

  /** An array index: 0 or digits without a leading zero. */
  function ArrayIndex(token: string): Option<nat> {
    if Canonical(token) then Some(NumeralValue(token)) else None
  }

  /** What a pointer's reference tokens denote within a value (section 4 of RFC 6901). */
  function Denotes(value: Value, tokens: seq<string>): Option<Value>
    decreases |tokens|
  {
    if tokens == [] then Some(value)
    else match value
      case ObjectValue(members) =>
        if tokens[0] in members then Denotes(members[tokens[0]], tokens[1..]) else None
      case ArrayValue(items) =>
        (match ArrayIndex(tokens[0])
         case Some(k) => if k < |items| then Denotes(items[k], tokens[1..]) else None
         case None => None)
      case _ => None
  }

  // ------------------------------------------------- the same on the layout

  function ItemAt(items: Items, k: nat): Option<Node> {
    if k == 0 then Some(items.value)
    else if items.MoreItems? then ItemAt(items.rest, k - 1) else None
  }

  function FieldNamed(fields: Fields, name: string, decode: Decoder): Option<Node> {
    if decode(Quoted(fields.key)) == Some(name) then Some(fields.value)
    else if fields.MoreFields? then FieldNamed(fields.rest, name, decode) else None
  }

  /** One reference token applied to a laid-out value. */
  function Child(node: Node, token: string, decode: Decoder): Option<Node> {
    match node
    case Object(_, fields) => FieldNamed(fields, token, decode)
    case Array(_, items) =>
      (match ArrayIndex(token) case Some(k) => ItemAt(items, k) case None => None)
    case _ => None
  }

  function Lookup(node: Node, tokens: seq<string>, decode: Decoder): Option<Node>
    decreases |tokens|
  {
    if tokens == [] then Some(node)
    else match Child(node, tokens[0], decode)
      case None => None
      case Some(child) => Lookup(child, tokens[1..], decode)
  }

  lemma {:induction false} ItemAtValue(items: Items, k: nat, decode: Decoder)
    requires ProperItems(items, decode)
    ensures ItemAt(items, k).Some? <==> k < |ItemValues(items, decode)|
    ensures ItemAt(items, k).Some? ==>
      ProperKeys(ItemAt(items, k).value, decode)
        && ValueOf(ItemAt(items, k).value, decode) == ItemValues(items, decode)[k]
  {
    if k > 0 && items.MoreItems? { ItemAtValue(items.rest, k - 1, decode); }
  }

  lemma {:induction false} FieldNamedValue(fields: Fields, name: string, decode: Decoder)
    requires ProperFields(fields, decode)
    ensures FieldNamed(fields, name, decode).Some? <==> name in FieldValues(fields, decode)
    ensures FieldNamed(fields, name, decode).Some? ==>
      ProperKeys(FieldNamed(fields, name, decode).value, decode)
      && ValueOf(FieldNamed(fields, name, decode).value, decode) == FieldValues(fields, decode)[name]
  {
    if decode(Quoted(fields.key)) != Some(name) && fields.MoreFields? { FieldNamedValue(fields.rest, name, decode); }
  }

  /** Looking up in the layout is looking up in the value. */
  lemma {:induction false} LookupIsDenotes(node: Node, tokens: seq<string>, decode: Decoder)
    requires ProperKeys(node, decode)
    ensures Lookup(node, tokens, decode).Some? <==> Denotes(ValueOf(node, decode), tokens).Some?
    ensures Lookup(node, tokens, decode).Some? ==>
      ProperKeys(Lookup(node, tokens, decode).value, decode)
      && Denotes(ValueOf(node, decode), tokens) == Some(ValueOf(Lookup(node, tokens, decode).value, decode))
    decreases |tokens|
  {
    if tokens != [] {
      if node.Object? {
        FieldNamedValue(node.fields, tokens[0], decode);
      } else if node.Array? && ArrayIndex(tokens[0]).Some? {
        ItemAtValue(node.items, ArrayIndex(tokens[0]).value, decode);
      }
      var child := Child(node, tokens[0], decode);
      if child.Some? { LookupIsDenotes(child.value, tokens[1..], decode); }
    }
  }
}
