/** One text has one reading: no two documents are printed alike. */
module JsonReadings {
  import opened JsonText
  import opened JsonSpans
  import opened JsonSpansCorrect

  /** Texts of one length at one place are the same text. */
  lemma SameText(source: Bytes, i: nat, a: Bytes, b: Bytes)
    requires At(source, i, a) && At(source, i, b) && |a| == |b|
    ensures a == b
  {
    forall k | 0 <= k < |a| ensures a[k] == b[k] { assert source[i + k] == a[k] && source[i + k] == b[k]; }
  }

  lemma {:induction false} SameNode(source: Bytes, i: nat, a: Node, b: Node)
    requires WellLaid(a) && Stands(source, i, a) && Bounded(source, i + Len(a))
    requires WellLaid(b) && Stands(source, i, b) && Bounded(source, i + Len(b))
    ensures a == b
    decreases a, 0
  {
    hide ItemsStand, FieldsStand, WellLaidItems, WellLaidFields, ItemsLen, FieldsLen, ValueEnd, SkipSpace, StringInner;
    ValueEndOf(source, i, [], a);
    ValueEndOf(source, i, [], b);
    StartsDark(source, i, a);
    StartsDark(source, i, b);
    match a
    case Text(inner) => SameText(source, i + 1, inner, b.inner);
    case Atom(raw) => SameText(source, i, raw, b.raw);
    case EmptyArray(gap) =>
      EmptyOnlyOnce(source, i, a, b);
      SameText(source, i + 1, gap, b.gap);
    case EmptyObject(gap) =>
      EmptyOnlyOnce(source, i, a, b);
      SameText(source, i + 1, gap, b.gap);
    case Array(pad, items) =>
      if b.EmptyArray? { EmptyOnlyOnce(source, i, b, a); }
      Opens(source, i, a);
      Opens(source, i, b);
      SameText(source, i + 1, pad, b.pad);
      SameItems(source, i + 1 + |pad|, items, b.items);
    case Object(pad, fields) =>
      if b.EmptyObject? { EmptyOnlyOnce(source, i, b, a); }
      Opens(source, i, a);
      Opens(source, i, b);
      SameText(source, i + 1, pad, b.pad);
      SameFields(source, i + 1 + |pad|, fields, b.fields);
  }

  /** What reads as an empty container reads as no other. */
  lemma EmptyOnlyOnce(source: Bytes, i: nat, a: Node, b: Node)
    requires WellLaid(a) && Stands(source, i, a) && WellLaid(b) && Stands(source, i, b)
    requires (a.EmptyArray? && (b.EmptyArray? || b.Array?)) || (a.EmptyObject? && (b.EmptyObject? || b.Object?))
    ensures b.EmptyArray? || b.EmptyObject?
    ensures |a.gap| == |b.gap|
  {
    PadThen(source, i + 1, a.gap, if a.EmptyArray? then RBRACKET else RBRACE);
    if b.Array? || b.Object? {
      Opens(source, i, b);
      assert false;
    }
    PadThen(source, i + 1, b.gap, if a.EmptyArray? then RBRACKET else RBRACE);
  }

  lemma {:induction false} SameItems(source: Bytes, i: nat, a: Items, b: Items)
    requires WellLaidItems(a) && ItemsStand(source, i, a) && WellLaidItems(b) && ItemsStand(source, i, b)
    ensures a == b
    decreases a, 1
  {
    hide After, SkipSpace, Bounded, Stands, WellLaid;
    AfterItem(source, i, a);
    AfterItem(source, i, b);
    SameNode(source, i, a.value, b.value);
    var end := i + Len(a.value);
    PadThen(source, end, a.trail, if a.LastItem? then RBRACKET else COMMA);
    PadThen(source, end, b.trail, if b.LastItem? then RBRACKET else COMMA);
    SameText(source, end, a.trail, b.trail);
    if a.MoreItems? {
      var next := end + |a.trail| + 1;
      SameText(source, next, a.pad, b.pad);
      SameItems(source, next + |a.pad|, a.rest, b.rest);
    }
  }

  lemma KeyPlaces(source: Bytes, i: nat, f: Fields)
    requires FieldsStand(source, i, f)
    ensures var keyEnd := i + |f.key| + 2;
      At(source, i + 1, f.key) && At(source, keyEnd, f.beforeColon)
        && At(source, keyEnd + |f.beforeColon| + 1, f.afterColon)
  {
    hide Stands, At;
  }

  lemma SameKey(source: Bytes, i: nat, a: Fields, b: Fields)
    requires WellLaidFields(a) && FieldsStand(source, i, a) && WellLaidFields(b) && FieldsStand(source, i, b)
    ensures a.key == b.key && a.beforeColon == b.beforeColon && a.afterColon == b.afterColon
  {
    hide WellLaidFields, FieldsStand, At, StringEnd, AfterKey, SkipSpace;
    KeyPlaces(source, i, a);
    KeyPlaces(source, i, b);
    KeyParts(source, i, a);
    KeyParts(source, i, b);
    SameText(source, i + 1, a.key, b.key);
    var keyEnd := i + |a.key| + 2;
    SameText(source, keyEnd, a.beforeColon, b.beforeColon);
    SameText(source, keyEnd + |a.beforeColon| + 1, a.afterColon, b.afterColon);
  }

  lemma {:induction false} SameFields(source: Bytes, i: nat, a: Fields, b: Fields)
    requires WellLaidFields(a) && FieldsStand(source, i, a) && WellLaidFields(b) && FieldsStand(source, i, b)
    ensures a == b
    decreases a, 1
  {
    hide After, SkipSpace, Bounded, Stands, WellLaid, KeyStands, StringInner;
    SameKey(source, i, a, b);
    AfterField(source, i, a);
    AfterField(source, i, b);
    SameNode(source, i + KeyLen(a), a.value, b.value);
    var end := FieldEnd(i, a);
    PadThen(source, end, a.trail, if a.LastField? then RBRACE else COMMA);
    PadThen(source, end, b.trail, if b.LastField? then RBRACE else COMMA);
    SameText(source, end, a.trail, b.trail);
    if a.MoreFields? {
      SameText(source, end + |a.trail| + 1, a.pad, b.pad);
      SameFields(source, NextField(i, a), a.rest, b.rest);
    }
  }

  /** Documents that are printed alike are the same, layout included, so a text has one value. */
  lemma OneReading(a: Document, b: Document)
    requires WellLaidDocument(a) && WellLaidDocument(b) && RenderDocument(a) == RenderDocument(b)
    ensures a == b
  {
    hide WellLaid, Render, Stands, EndsAtom, SkipSpace, Len;
    var source := RenderDocument(a);
    RootSpans(a);
    RootSpans(b);
    StartsDark(source, |a.lead|, a.root);
    StartsDark(source, |b.lead|, b.root);
    SkipsPad(source, 0, a.lead);
    SkipsPad(source, 0, b.lead);
    SameText(source, 0, a.lead, b.lead);
    SameNode(source, |a.lead|, a.root, b.root);
    var rest := a.lead + Render(a.root);
    assert source[|rest|..] == a.tail && source[|rest|..] == b.tail;
  }
}
