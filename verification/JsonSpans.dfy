/** The raw-byte JSON scanner: where a value ends, and which bytes a pointer selects. */
module JsonSpans {
  import opened Wrappers
  import opened Texts
  import opened JsonText

  /**
   * A scan finds something, refuses the text, or is stopped by the language: the index
   * ran off the end of the source, or a numeral is too long to convert.
   */
  datatype Scan<+T> = Found(value: T) | Refused | Stopped

  datatype Span = Span(start: nat, end: nat)

  // --------------------------------------------------- the scanner's results

  function SkipSpace(source: Bytes, index: nat): (r: nat)
    requires index <= |source|
    ensures index <= r <= |source|
    decreases |source| - index
  {
    if index < |source| && IsBlank(source[index]) then SkipSpace(source, index + 1) else index
  }

  function StringEnd(source: Bytes, index: nat): (r: Scan<nat>)
    ensures r.Found? ==> index + 2 <= r.value <= |source|
  {
    if index >= |source| then Stopped
    else if source[index] != QUOTE then Refused
    else StringTail(source, index + 1)
  }

  function StringTail(source: Bytes, index: nat): (r: Scan<nat>)
    ensures r.Found? ==> index < r.value <= |source|
    decreases |source| - index
  {
    if index >= |source| then Refused
    else if source[index] == BACKSLASH then StringTail(source, index + 2)
    else if source[index] == QUOTE then Found(index + 1)
    else StringTail(source, index + 1)
  }

  function AtomEnd(source: Bytes, index: nat): (r: nat)
    requires index <= |source|
    ensures index <= r <= |source|
    decreases |source| - index
  {
    if index < |source| && !EndsAtom(source[index]) then AtomEnd(source, index + 1) else index
  }

  function ValueEnd(source: Bytes, index: nat): (r: Scan<nat>)
    requires index <= |source|
    ensures r.Found? ==> index <= r.value <= |source|
    decreases |source| - index, 0
  {
    var at := SkipSpace(source, index);
    if at >= |source| then Refused
    else if source[at] == QUOTE then StringEnd(source, at)
    else if source[at] == LBRACE then
      var inner := SkipSpace(source, at + 1);
      if inner >= |source| then Stopped
      else if source[inner] == RBRACE then Found(inner + 1)
      else FieldsEnd(source, inner)
    else if source[at] == LBRACKET then
      var inner := SkipSpace(source, at + 1);
      if inner >= |source| then Stopped
      else if source[inner] == RBRACKET then Found(inner + 1)
      else ItemsEnd(source, inner)
    else Found(AtomEnd(source, at))
  }

  /** What stands after a member or item: the closing byte, or the start of the next one. */
  datatype Ahead = Close(end: nat) | Another(start: nat)

  function After(source: Bytes, index: nat, close: Byte): (r: Scan<Ahead>)
    requires index <= |source|
    ensures r.Found? && r.value.Close? ==> index < r.value.end <= |source|
    ensures r.Found? && r.value.Another? ==> index < r.value.start <= |source|
  {
    var at := SkipSpace(source, index);
    if at >= |source| then Stopped
    else if source[at] == close then Found(Close(at + 1))
    else if source[at] != COMMA then Refused
    else Found(Another(SkipSpace(source, at + 1)))
  }

  function ItemsEnd(source: Bytes, index: nat): (r: Scan<nat>)
    requires index <= |source|
    ensures r.Found? ==> index <= r.value <= |source|
    decreases |source| - index, 1
  {
    match ValueEnd(source, index)
    case Refused => Refused
    case Stopped => Stopped
    case Found(end) =>
      match After(source, end, RBRACKET)
      case Refused => Refused
      case Stopped => Stopped
      case Found(Close(done)) => Found(done)
      case Found(Another(next)) => ItemsEnd(source, next)
  }

  /** Where a member's value starts: behind its key, a colon and white space. */
  function AfterKey(source: Bytes, keyEnd: nat): (r: Scan<nat>)
    requires keyEnd <= |source|
    ensures r.Found? ==> keyEnd < r.value <= |source|
  {
    var at := SkipSpace(source, keyEnd);
    if at >= |source| then Stopped
    else if source[at] != COLON then Refused
    else Found(at + 1)
  }

  /** One member as the scanner reads it: where its key ends, where its value starts and ends. */
  datatype Member = Member(keyEnd: nat, start: nat, end: nat)

  function ReadField(source: Bytes, index: nat): (r: Scan<Member>)
    requires index <= |source|
    ensures r.Found? ==> index < r.value.keyEnd < r.value.start <= r.value.end <= |source|
    decreases |source| - index, 1
  {
    match StringEnd(source, index)
    case Refused => Refused
    case Stopped => Stopped
    case Found(keyEnd) =>
      match AfterKey(source, keyEnd)
      case Refused => Refused
      case Stopped => Stopped
      case Found(colonEnd) =>
        var start := SkipSpace(source, colonEnd);
        match ValueEnd(source, start)
        case Refused => Refused
        case Stopped => Stopped
        case Found(end) => Found(Member(keyEnd, start, end))
  }

  function FieldsEnd(source: Bytes, index: nat): (r: Scan<nat>)
    requires index <= |source|
    ensures r.Found? ==> index <= r.value <= |source|
    decreases |source| - index, 2
  {
    match ReadField(source, index)
    case Refused => Refused
    case Stopped => Stopped
    case Found(member) =>
      match After(source, member.end, RBRACE)
      case Refused => Refused
      case Stopped => Stopped
      case Found(Close(done)) => Found(done)
      case Found(Another(next)) => FieldsEnd(source, next)
  }

  function FieldSpan(source: Bytes, index: nat, wanted: string, decode: Decoder): (r: Scan<Option<Span>>)
    requires index <= |source|
    ensures r.Found? && r.value.Some? ==> r.value.value.start <= r.value.value.end <= |source|
    decreases |source| - index
  {
    match StringEnd(source, index)
    case Refused => Refused
    case Stopped => Stopped
    case Found(keyEnd) =>
      var key := decode(source[index..keyEnd]);
      if key.None? then Refused
      else match ReadField(source, index)
        case Refused => Refused
        case Stopped => Stopped
        case Found(member) =>
          if key.value == wanted then Found(Some(Span(member.start, member.end)))
          else match After(source, member.end, RBRACE)
            case Refused => Refused
            case Stopped => Stopped
            case Found(Close(_)) => Found(None)
            case Found(Another(next)) => FieldSpan(source, next, wanted, decode)
  }

  function ObjectMemberSpan(source: Bytes, start: nat, wanted: string, decode: Decoder): (r: Scan<Option<Span>>)
    requires start <= |source|
    ensures r.Found? && r.value.Some? ==> r.value.value.start <= r.value.value.end <= |source|
  {
    var at := SkipSpace(source, start);
    if at >= |source| then Stopped
    else if source[at] != LBRACE then Found(None)
    else
      var inner := SkipSpace(source, at + 1);
      if inner >= |source| then Stopped
      else if source[inner] == RBRACE then Found(None)
      else FieldSpan(source, inner, wanted, decode)
  }

  function ItemSpan(source: Bytes, index: nat, wanted: nat): (r: Scan<Option<Span>>)
    requires index <= |source|
    ensures r.Found? && r.value.Some? ==> r.value.value.start <= r.value.value.end <= |source|
    decreases |source| - index
  {
    match ValueEnd(source, index)
    case Refused => Refused
    case Stopped => Stopped
    case Found(end) =>
      if wanted == 0 then Found(Some(Span(index, end)))
      else match After(source, end, RBRACKET)
        case Refused => Refused
        case Stopped => Stopped
        case Found(Close(_)) => Found(None)
        case Found(Another(next)) => ItemSpan(source, next, wanted - 1)
  }

  function ArrayItemSpan(source: Bytes, start: nat, wanted: nat): (r: Scan<Option<Span>>)
    requires start <= |source|
    ensures r.Found? && r.value.Some? ==> r.value.value.start <= r.value.value.end <= |source|
  {
    var at := SkipSpace(source, start);
    if at >= |source| then Stopped
    else if source[at] != LBRACKET then Found(None)
    else
      var inner := SkipSpace(source, at + 1);
      if inner >= |source| then Stopped
      else if source[inner] == RBRACKET then Found(None)
      else ItemSpan(source, inner, wanted)
  }

  // -------------------------------------------------- indices as the code reads them

  /** What a character is worth as a decimal digit; Unicode has many digits besides the ASCII ones. */
  type Digits = char -> Option<nat>

  ghost predicate ExtendsAscii(digit: Digits) {
    forall c :: IsDigit(c) ==> digit(c) == Some(DigitValue(c))
  }

  predicate AllDigits(text: string, digit: Digits) {
    forall i :: 0 <= i < |text| ==> digit(text[i]).Some?
  }

  function DigitsValue(text: string, digit: Digits): nat {
    if text == "" then 0
    else 10 * DigitsValue(text[..|text| - 1], digit) + (match digit(text[|text| - 1]) case Some(d) => d case None => 0)
  }

  datatype Reading = NoIndex | Index(value: nat) | Overlong

  /** The longest numeral that is converted. */
  const MAX_DIGITS: nat := 4300

  /** The pattern `0|[1-9]\d*` and the conversion of what matches. */
  function CodeIndex(token: string, digit: Digits): Reading {
    if token == "0" then Index(0)
    else if token == "" || !('1' <= token[0] <= '9') || !AllDigits(token[1..], digit) then NoIndex
    else if |token| > MAX_DIGITS then Overlong
    else Index(DigitsValue(token, digit))
  }

  /** One reference token applied to the value that starts at an index. */
  function ChildSpan(source: Bytes, start: nat, token: string, decode: Decoder, digit: Digits): (r: Scan<Option<Span>>)
    requires start <= |source|
    ensures r.Found? && r.value.Some? ==> r.value.value.start <= r.value.value.end <= |source|
  {
    var at := SkipSpace(source, start);
    if at >= |source| then Stopped
    else if source[at] == LBRACE then ObjectMemberSpan(source, start, token, decode)
    else if source[at] == LBRACKET then
      (match CodeIndex(token, digit)
       case NoIndex => Found(None)
       case Overlong => Stopped
       case Index(k) => ArrayItemSpan(source, start, k))
    else Found(None)
  }

  function PointerFrom(source: Bytes, span: Span, tokens: seq<string>, decode: Decoder,
    digit: Digits): (r: Scan<Option<Span>>)
    requires span.start <= span.end <= |source|
    ensures r.Found? && r.value.Some? ==> r.value.value.start <= r.value.value.end <= |source|
    decreases |tokens|
  {
    if tokens == [] then Found(Some(span))
    else match ChildSpan(source, span.start, tokens[0], decode, digit)
      case Refused => Refused
      case Stopped => Stopped
      case Found(None) => Found(None)
      case Found(Some(child)) => PointerFrom(source, child, tokens[1..], decode, digit)
  }

  function RawPointerSpan(source: Bytes, tokens: seq<string>, decode: Decoder, digit: Digits): (r: Scan<Option<Span>>)
    ensures r.Found? && r.value.Some? ==> r.value.value.start <= r.value.value.end <= |source|
  {
    if tokens == [] then Found(Some(Span(0, |source|)))
    else match ValueEnd(source, 0)
      case Refused => Refused
      case Stopped => Stopped
      case Found(end) => PointerFrom(source, Span(0, end), tokens, decode, digit)
  }

  // ----------------------------------------------------- the scanner's loops

  method SkipSpaceLoop(source: Bytes, start: nat) returns (index: nat)
    requires start <= |source|
    ensures index == SkipSpace(source, start)
  {
    index := start;
    while index < |source| && IsBlank(source[index])
      invariant start <= index <= |source| && SkipSpace(source, start) == SkipSpace(source, index)
    {
      index := index + 1;
    }
  }

  lemma {:induction false} SkipEndsDark(source: Bytes, index: nat)
    requires index <= |source|
    ensures var at := SkipSpace(source, index); at < |source| ==> !IsBlank(source[at])
    decreases |source| - index
  {
    if index < |source| && IsBlank(source[index]) { SkipEndsDark(source, index + 1); }
  }

  /** Skipping white space before a value is read changes nothing: reading skips it too. */
  lemma SkippingTwice(source: Bytes, index: nat)
    requires index <= |source|
    ensures ValueEnd(source, SkipSpace(source, index)) == ValueEnd(source, index)
  {
    SkipEndsDark(source, index);
  }

  method StringEndLoop(source: Bytes, start: nat) returns (r: Scan<nat>)
    ensures r == StringEnd(source, start)
  {
    if start >= |source| { return Stopped; }
    if source[start] != QUOTE { return Refused; }
    var index := start + 1;
    while index < |source|
      invariant StringEnd(source, start) == StringTail(source, index)
    {
      if source[index] == BACKSLASH {
        index := index + 2;
      } else if source[index] == QUOTE {
        return Found(index + 1);
      } else {
        index := index + 1;
      }
    }
    return Refused;
  }

  method AfterLoop(source: Bytes, index: nat, close: Byte) returns (r: Scan<Ahead>)
    requires index <= |source|
    ensures r == After(source, index, close)
  {
    var at := SkipSpaceLoop(source, index);
    if at >= |source| { return Stopped; }
    if source[at] == close { return Found(Close(at + 1)); }
    if source[at] != COMMA { return Refused; }
    var next := SkipSpaceLoop(source, at + 1);
    return Found(Another(next));
  }

  /** _value_end: containers are walked by loops, nested values by recursion. */
  method ValueEndLoop(source: Bytes, start: nat) returns (r: Scan<nat>)
    requires start <= |source|
    ensures r == ValueEnd(source, start)
    decreases |source| - start
  {
    var index := SkipSpaceLoop(source, start);
    if index >= |source| { return Refused; }
    if source[index] == QUOTE {
      r := StringEndLoop(source, index);
      return;
    }
    if source[index] == LBRACE {
      index := SkipSpaceLoop(source, index + 1);
      if index >= |source| { return Stopped; }
      if source[index] == RBRACE { return Found(index + 1); }
      while true
        invariant start < index <= |source| && ValueEnd(source, start) == FieldsEnd(source, index)
        decreases |source| - index
      {
        var keyEnd := StringEndLoop(source, index);
        if !keyEnd.Found? { return keyEnd; }
        var colon := SkipSpaceLoop(source, keyEnd.value);
        if colon >= |source| { return Stopped; }
        if source[colon] != COLON { return Refused; }
        SkippingTwice(source, colon + 1);
        var end := ValueEndLoop(source, colon + 1);
        if !end.Found? { return end; }
        var ahead := AfterLoop(source, end.value, RBRACE);
        match ahead
        case Refused => return Refused;
        case Stopped => return Stopped;
        case Found(Close(done)) => return Found(done);
        case Found(Another(next)) => index := next;
      }
    }
    if source[index] == LBRACKET {
      index := SkipSpaceLoop(source, index + 1);
      if index >= |source| { return Stopped; }
      if source[index] == RBRACKET { return Found(index + 1); }
      while true
        invariant start < index <= |source| && ValueEnd(source, start) == ItemsEnd(source, index)
        decreases |source| - index
      {
        var end := ValueEndLoop(source, index);
        if !end.Found? { return end; }
        var ahead := AfterLoop(source, end.value, RBRACKET);
        match ahead
        case Refused => return Refused;
        case Stopped => return Stopped;
        case Found(Close(done)) => return Found(done);
        case Found(Another(next)) => index := next;
      }
    }
    while index < |source| && !EndsAtom(source[index])
      invariant index <= |source| && ValueEnd(source, start) == Found(AtomEnd(source, index))
    {
      index := index + 1;
    }
    return Found(index);
  }

  method ObjectMemberSpanLoop(source: Bytes, start: nat, wanted: string, decode: Decoder)
    returns (r: Scan<Option<Span>>)
    requires start <= |source|
    ensures r == ObjectMemberSpan(source, start, wanted, decode)
  {
    var index := SkipSpaceLoop(source, start);
    if index >= |source| { return Stopped; }
    if source[index] != LBRACE { return Found(None); }
    index := SkipSpaceLoop(source, index + 1);
    if index >= |source| { return Stopped; }
    if source[index] == RBRACE { return Found(None); }
    while true
      invariant index <= |source| && ObjectMemberSpan(source, start, wanted, decode)
        == FieldSpan(source, index, wanted, decode)
      decreases |source| - index
    {
      var keyEnd := StringEndLoop(source, index);
      if keyEnd.Refused? { return Refused; }
      if keyEnd.Stopped? { return Stopped; }
      var key := decode(source[index..keyEnd.value]);
      if key.None? { return Refused; }
      var colon := SkipSpaceLoop(source, keyEnd.value);
      if colon >= |source| { return Stopped; }
      if source[colon] != COLON { return Refused; }
      var valueStart := SkipSpaceLoop(source, colon + 1);
      var valueEnd := ValueEndLoop(source, valueStart);
      if valueEnd.Refused? { return Refused; }
      if valueEnd.Stopped? { return Stopped; }
      if key.value == wanted { return Found(Some(Span(valueStart, valueEnd.value))); }
      var ahead := AfterLoop(source, valueEnd.value, RBRACE);
      match ahead
      case Refused => return Refused;
      case Stopped => return Stopped;
      case Found(Close(_)) => return Found(None);
      case Found(Another(next)) => index := next;
    }
  }

  method ArrayItemSpanLoop(source: Bytes, start: nat, wanted: nat) returns (r: Scan<Option<Span>>)
    requires start <= |source|
    ensures r == ArrayItemSpan(source, start, wanted)
  {
    var index := SkipSpaceLoop(source, start);
    if index >= |source| { return Stopped; }
    if source[index] != LBRACKET { return Found(None); }
    index := SkipSpaceLoop(source, index + 1);
    if index >= |source| { return Stopped; }
    if source[index] == RBRACKET { return Found(None); }
    var itemIndex := 0;
    while true
      invariant index <= |source| && itemIndex <= wanted
      invariant ArrayItemSpan(source, start, wanted) == ItemSpan(source, index, wanted - itemIndex)
      decreases |source| - index
    {
      var valueEnd := ValueEndLoop(source, index);
      if valueEnd.Refused? { return Refused; }
      if valueEnd.Stopped? { return Stopped; }
      if itemIndex == wanted { return Found(Some(Span(index, valueEnd.value))); }
      itemIndex := itemIndex + 1;
      var ahead := AfterLoop(source, valueEnd.value, RBRACKET);
      match ahead
      case Refused => return Refused;
      case Stopped => return Stopped;
      case Found(Close(_)) => return Found(None);
      case Found(Another(next)) => index := next;
    }
  }

  /** _raw_pointer_span, once the source has loaded and the fragment has been split into tokens. */
  method RawPointerSpanLoop(source: Bytes, tokens: seq<string>, decode: Decoder, digit: Digits)
    returns (r: Scan<Option<Span>>)
    ensures r == RawPointerSpan(source, tokens, decode, digit)
  {
    if tokens == [] { return Found(Some(Span(0, |source|))); }
    var end := ValueEndLoop(source, 0);
    if end.Refused? { return Refused; }
    if end.Stopped? { return Stopped; }
    var span := Span(0, end.value);
    var i := 0;
    assert tokens[0..] == tokens;
    while i < |tokens|
      invariant 0 <= i <= |tokens| && span.start <= span.end <= |source|
      invariant RawPointerSpan(source, tokens, decode, digit) == PointerFrom(source, span, tokens[i..], decode, digit)
    {
      assert tokens[i..][1..] == tokens[i + 1..];
      var at := SkipSpaceLoop(source, span.start);
      if at >= |source| { return Stopped; }
      var child: Scan<Option<Span>> := Found(None);
      if source[at] == LBRACE {
        child := ObjectMemberSpanLoop(source, span.start, tokens[i], decode);
      } else if source[at] == LBRACKET {
        var k := CodeIndex(tokens[i], digit);
        if k.NoIndex? { return Found(None); }
        if k.Overlong? { return Stopped; }
        child := ArrayItemSpanLoop(source, span.start, k.value);
      } else {
        return Found(None);
      }
      if !child.Found? || child.value.None? { return child; }
      span := child.value.value;
      i := i + 1;
    }
    return Found(Some(span));
  }
}
