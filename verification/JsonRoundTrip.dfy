/** Writing a JSON tree and parsing the text. */
module JsonRoundTrip {
  import opened Bytes
  import opened Wrappers
  import opened Buffers
  import opened Hex
  import opened Scanner
  import opened Json

  // ----- strings -----

  lemma LetterRoundTrip(c: byte)
    requires Letter(c) != 0
    ensures Unlettered(Letter(c)) == Some(c) && Letter(c) != 'u' as byte && Letter(c) != LF
  {
  }

  lemma UnitRead(c: byte, rest: seq<byte>)
    ensures var s := EscapedByte(c) + rest;
            s != [] && FirstUnit(s) == Some(Unit(|EscapedByte(c)|, c)) && s[|EscapedByte(c)|..] == rest
  {
    hide Letter, Unlettered, HexByte, HighDigit, LowDigit;
    var s := EscapedByte(c) + rest;
    if Letter(c) != 0 {
      LetterRoundTrip(c);
      assert s[0] == BACKSLASH && s[1] == Letter(c);
    } else if 32 <= c < 127 {
      NotABackslash(c);
      assert s[0] == c;
    } else {
      HexRoundTrip(c);
      assert s[0] == BACKSLASH && s[1] == 'u' as byte && s[4] == HighDigit(c) && s[5] == LowDigit(c);
    }
  }

  lemma NotABackslash(c: byte)
    requires Letter(c) == 0
    ensures c != BACKSLASH && c != QUOTE && c != LF
  {
  }

  // Unescaping an escaped string returns it, for every byte string.
  lemma {:induction false} UnescapeEscaped(s: seq<byte>)
    ensures Unescaped(Escaped(s)) == Some(s)
  {
    hide EscapedByte, FirstUnit;
    if s != [] {
      UnitRead(s[0], Escaped(s[1..]));
      UnescapeEscaped(s[1..]);
      assert [s[0]] + s[1..] == s;
    }
  }

  lemma PlainStep(text: seq<byte>, p: nat, c: byte)
    requires p < |text| && text[p] == c && c != QUOTE && c != BACKSLASH && c != LF
    ensures CloseQuote(text, p, QUOTE, false) == CloseQuote(text, p + 1, QUOTE, false)
  {
  }

  lemma EscapeStep(text: seq<byte>, p: nat, l: byte)
    requires p + 1 < |text| && text[p] == BACKSLASH && text[p + 1] == l && l != LF
    ensures CloseQuote(text, p, QUOTE, false) == CloseQuote(text, p + 2, QUOTE, false)
  {
  }

  // No escape contains a quote that closes.
  lemma CloseUnit(text: seq<byte>, p: nat, c: byte)
    requires Holds(text, p, EscapedByte(c))
    ensures CloseQuote(text, p, QUOTE, false) == CloseQuote(text, p + |EscapedByte(c)|, QUOTE, false)
  {
    hide Letter, HighDigit, LowDigit, CloseQuote;
    var s := EscapedByte(c);
    HoldsByte(text, p, s, 0);
    if Letter(c) != 0 {
      LetterRoundTrip(c);
      HoldsByte(text, p, s, 1);
      EscapeStep(text, p, Letter(c));
    } else if 32 <= c < 127 {
      NotABackslash(c);
      PlainStep(text, p, c);
    } else {
      HoldsByte(text, p, s, 1);
      HoldsByte(text, p, s, 2);
      HoldsByte(text, p, s, 3);
      HoldsByte(text, p, s, 4);
      HoldsByte(text, p, s, 5);
      EscapeStep(text, p, 'u' as byte);
      PlainStep(text, p + 2, '0' as byte);
      PlainStep(text, p + 3, '0' as byte);
      DigitIsPlain(c);
      PlainStep(text, p + 4, HighDigit(c));
      PlainStep(text, p + 5, LowDigit(c));
    }
  }

  lemma DigitIsPlain(c: byte)
    ensures HighDigit(c) != QUOTE && HighDigit(c) != BACKSLASH && HighDigit(c) != LF
    ensures LowDigit(c) != QUOTE && LowDigit(c) != BACKSLASH && LowDigit(c) != LF
  {
    HexRoundTrip(c);
  }

  // The scan for the closing quote stops exactly behind the escaped string.
  lemma {:induction false} CloseEscaped(text: seq<byte>, p: nat, s: seq<byte>)
    requires Holds(text, p, Escaped(s) + [QUOTE])
    ensures CloseQuote(text, p, QUOTE, false) == Some(p + |Escaped(s)|)
    decreases |s|
  {
    hide EscapedByte, Holds;
    if s == [] {
      HoldsByte(text, p, Escaped(s) + [QUOTE], 0);
    } else {
      hide CloseQuote;
      var first, rest := EscapedByte(s[0]), Escaped(s[1..]);
      assert Escaped(s) + [QUOTE] == first + (rest + [QUOTE]);
      HoldsParts(text, p, first, rest + [QUOTE]);
      CloseUnit(text, p, s[0]);
      CloseEscaped(text, p + |first|, s[1..]);
    }
  }

  // A quoted string is read back, whatever its bytes are.
  lemma QuotedRead(text: seq<byte>, p: nat, s: seq<byte>, end: nat)
    requires Holds(text, p, QuotedText(s)) && end == p + |QuotedText(s)|
    ensures p < end <= |text| && text[p] == QUOTE && QuotedAt(text, p) == Some(Parsed(String(s), Skip(text, end)))
  {
    hide Holds, Escaped, Unescaped, CloseQuote, Skip;
    QuotedParts(text, p, s);
    CloseEscaped(text, p + 1, s);
    UnescapeEscaped(s);
  }

  lemma QuotedParts(text: seq<byte>, p: nat, s: seq<byte>)
    requires Holds(text, p, QuotedText(s))
    ensures p + |Escaped(s)| + 2 <= |text| && text[p] == QUOTE && text[p + 1 + |Escaped(s)|] == QUOTE
    ensures Holds(text, p + 1, Escaped(s) + [QUOTE]) && text[p + 1..p + 1 + |Escaped(s)|] == Escaped(s)
  {
    hide Escaped;
    assert QuotedText(s) == [QUOTE] + (Escaped(s) + [QUOTE]);
    HoldsParts(text, p, [QUOTE], Escaped(s) + [QUOTE]);
    HoldsParts(text, p + 1, Escaped(s), [QUOTE]);
    HoldsByte(text, p, [QUOTE], 0);
    HoldsByte(text, p + 1 + |Escaped(s)|, [QUOTE], 0);
  }

  // ----- names -----

  // No byte needs escaping.
  predicate Plain(s: seq<byte>) { forall c :: c in s ==> Letter(c) == 0 && 32 <= c < 127 }

  lemma {:induction false} PlainEscaped(s: seq<byte>)
    requires Plain(s)
    ensures Escaped(s) == s && QUOTE !in s
  {
    if s != [] {
      assert s[0] in s;
      PlainEscaped(s[1..]);
      NotABackslash(s[0]);
    }
  }

  // Names, and strings without one: not empty, plain, and not starting with a space.
  predicate ValidText(s: seq<byte>) { s != [] && Plain(s) && s[0] != SPACE }

  lemma ValidHead(s: seq<byte>)
    requires ValidText(s)
    ensures s != [] && !IsBlank(s[0]) && Plain(s)
  {
    assert s[0] in s;
  }

  // A quoted text at the start of an element.
  lemma TokenRead(text: seq<byte>, p: nat, s: seq<byte>, b: nat)
    requires ValidText(s) && Holds(text, p, QuotedText(s)) && b == p + 1 + |s|
    ensures p + 1 < b < |text| && text[p] == QUOTE && text[b] == QUOTE
    ensures Skip(text, p + 1) == p + 1 && Until(text, p + 1, {QUOTE}) == b && Skip(text, b) == b
    ensures text[p + 1..b] == s
  {
    hide Holds, QuotedText, Plain, Skip, Until, IsBlank, Escaped;
    ValidHead(s);
    PlainEscaped(s);
    QuotedParts(text, p, s);
    HoldsPrefixOf(text, p + 1, s, [QUOTE]);
    HoldsByte(text, p + 1, s, 0);
    SkipNothing(text, p + 1);
    QuoteStays(text, b);
    ReadToQuote(text, p + 1, s, b);
  }

  lemma QuoteStays(text: seq<byte>, b: nat)
    requires b < |text| && text[b] == QUOTE
    ensures Skip(text, b) == b
  {
  }

  lemma ReadToQuote(text: seq<byte>, p: nat, s: seq<byte>, b: nat)
    requires Holds(text, p, s) && QUOTE !in s && b == p + |s| && b < |text| && text[b] == QUOTE
    ensures Until(text, p, {QUOTE}) == b
  {
    hide Holds, Until;
    UntilReads(text, p, s, {QUOTE});
  }

  lemma HoldsPrefixOf(text: seq<byte>, p: nat, s: seq<byte>, rest: seq<byte>)
    requires Holds(text, p, s + rest)
    ensures Holds(text, p, s)
  {
    HoldsParts(text, p, s, rest);
  }

  // A string that is not followed by a colon is the value itself.
  lemma StringStart(text: seq<byte>, p: nat, s: seq<byte>, end: nat)
    requires ValidText(s) && Holds(text, p, QuotedText(s)) && end == p + |QuotedText(s)| && end <= |text|
    requires At(text, Skip(text, end)) != COLON
    ensures StartAt(text, p) == Some(Start([], s, Skip(text, end)))
  {
    hide Holds, QuotedText, ValidText, Until, Skip;
    QuotedSize(s);
    TokenRead(text, p, s, end - 1);
  }

  lemma QuotedSize(s: seq<byte>)
    requires ValidText(s)
    ensures |QuotedText(s)| == |s| + 2
  {
    PlainEscaped(s);
  }

  // A name is followed by a colon and blanks.
  lemma NameStart(text: seq<byte>, p: nat, name: seq<byte>, v: nat)
    requires ValidText(name) && Holds(text, p, NameText(name)) && v == p + |NameText(name)|
    requires v < |text| && !IsBlank(text[v])
    ensures StartAt(text, p) == Some(Start(name, [], v))
  {
    hide QuotedText, NameText, ValidText, Until, Skip, IsBlank, Holds;
    NameParts(text, p, name, v);
    TokenRead(text, p, name, p + 1 + |name|);
  }

  // The blanks after the colon.
  function Blanks(name: seq<byte>): (s: seq<byte>)
    ensures forall c :: c in s ==> IsBlank(c)
  {
    Spaces(1 + if |name| < NAME_MIN_LEN then NAME_MIN_LEN - |name| else 0)
  }

  lemma NameSplit(name: seq<byte>)
    ensures NameText(name) == QuotedText(name) + ([COLON] + Blanks(name))
  {
    hide QuotedText;
    var padding := if |name| < NAME_MIN_LEN then Spaces(NAME_MIN_LEN - |name|) else [];
    assert Blanks(name) == [SPACE] + padding;
    assert [COLON, SPACE] + padding == [COLON] + ([SPACE] + padding);
  }

  lemma NameParts(text: seq<byte>, p: nat, name: seq<byte>, v: nat)
    requires ValidText(name) && Holds(text, p, NameText(name)) && v == p + |NameText(name)|
    requires v < |text| && !IsBlank(text[v])
    ensures Holds(text, p, QuotedText(name))
    ensures var b := p + 1 + |name|; b + 2 <= |text| && text[b + 1] == COLON && Skip(text, b + 1) == b + 1 && Skip(text, b + 2) == v
  {
    hide QuotedText, ValidText, Holds, NameText, Blanks;
    QuotedSize(name);
    NameSplit(name);
    var b := p + 1 + |name|;
    HoldsParts(text, p, QuotedText(name), [COLON] + Blanks(name));
    HoldsParts(text, b + 1, [COLON], Blanks(name));
    HoldsByte(text, b + 1, [COLON], 0);
    SkipNothing(text, b + 1);
    SkipBlanks(text, b + 2, Blanks(name));
    SkipNothing(text, v);
  }

  // ----- the trees that survive -----

  // Names are written for the children of objects only, and names and the strings without one must be read
  // back as they stand.
  predicate ValidElem(e: Elem, inObject: bool)
    decreases e, 0
  {
    (e.name == [] || (inObject && ValidText(e.name)))
    && (e.value.String? && e.name == [] ==> ValidText(e.value.str))
    && ValidValue(e.value)
  }

  predicate ValidValue(v: Value)
    decreases v, 1
  {
    match v
    case Array(items) => forall e :: e in items ==> ValidElem(e, false)
    case Object(members) => forall e :: e in members ==> ValidElem(e, true)
    case _ => true
  }

  predicate ValidElems(es: seq<Elem>, inObject: bool) { forall e :: e in es ==> ValidElem(e, inObject) }

  // The root is an array or an object, with a name or without.
  predicate ValidRoot(e: Elem) { (e.value.Array? || e.value.Object?) && ValidElem(e, true) }

  lemma ElemsValid(es: seq<Elem>, inObject: bool)
    requires ValidElems(es, inObject) && es != []
    ensures ValidElem(es[0], inObject) && ValidElems(es[1..], inObject)
  {
    hide ValidElem;
    assert es[0] in es;
  }

  // ----- values -----

  lemma WordHeld(text: seq<byte>, p: nat, word: seq<byte>)
    requires Holds(text, p, word)
    ensures WordAt(text, p, word)
  {
  }

  lemma WordRead(text: seq<byte>, p: nat, v: Value, end: nat)
    requires v.Null? || v.Bool?
    requires Holds(text, p, ValueText(v, 0)) && end == p + |ValueText(v, 0)| && end < |text|
    ensures IsAlpha(At(text, p)) && ValueAt(text, p) == Some(Parsed(v, Skip(text, end)))
  {
    hide Skip;
    var word := ValueText(v, 0);
    WordHeld(text, p, word);
    HoldsByte(text, p, word, 0);
    assert WordAt(text, p, Ascii("false")) ==> text[p] == 'f' as byte by { FirstLetter(text, p, "false"); }
    assert WordAt(text, p, Ascii("true")) ==> text[p] == 't' as byte by { FirstLetter(text, p, "true"); }
  }

  lemma FirstLetter(text: seq<byte>, p: nat, word: string)
    requires word != []
    ensures WordAt(text, p, Ascii(word)) ==> text[p] == word[0] as int % TWO_8
  {
    if WordAt(text, p, Ascii(word)) { assert text[p..p + |word|][0] == text[p]; }
  }

  // The first character of a value.
  lemma ValueHead(v: Value, indent: nat)
    ensures ValueText(v, indent) != []
    ensures var c := ValueText(v, indent)[0];
            !IsBlank(c) && c != COMMA && c != COLON && c != CLOSE_ARRAY && c != CLOSE_OBJECT && c != 0
            && (c == QUOTE <==> v.String?)
  {
    hide InsideText;
  }

  predicate IsContainer(v: Value) { v.Array? || v.Object? }

  // Something follows the element that is neither the end of the text nor a colon.
  predicate Followed(text: seq<byte>, end: nat) { end < |text| && At(text, Skip(text, end)) != COLON }

  // The indentation of an element, if it has one, and what follows.
  function Lead(e: Elem, indent: nat): seq<byte> { if e.name == [] then [] else Spaces(indent) }

  predicate HasName(e: Elem, inObject: bool) { inObject && e.name != [] }

  function BodyText(e: Elem, indent: nat, inObject: bool): seq<byte> {
    (if HasName(e, inObject) then NameText(e.name) else []) + ValueText(e.value, indent)
  }

  lemma ElemSplit(e: Elem, indent: nat, inObject: bool)
    ensures ElemText(e, indent, !inObject) == Lead(e, indent) + BodyText(e, indent, inObject)
  {
    hide ValueText, NameText;
    var name := if HasName(e, inObject) then NameText(e.name) else [];
    if e.name == [] {
      assert [] + ValueText(e.value, indent) == [] + ([] + ValueText(e.value, indent));
    } else {
      assert (Spaces(indent) + name) + ValueText(e.value, indent) == Spaces(indent) + (name + ValueText(e.value, indent));
    }
  }

  predicate StartsWell(text: seq<byte>, p: nat) {
    p < |text| && !IsBlank(text[p]) && text[p] != COMMA && text[p] != CLOSE_ARRAY && text[p] != CLOSE_OBJECT
  }

  // A written element is read back.
  lemma {:induction false} BodyRead(text: seq<byte>, p: nat, e: Elem, inObject: bool, indent: nat, end: nat)
    requires ValidElem(e, inObject) && Holds(text, p, BodyText(e, indent, inObject))
    requires end == p + |BodyText(e, indent, inObject)| && (IsContainer(e.value) || Followed(text, end))
    ensures end <= |text| && StartsWell(text, p) && ElemAt(text, p) == Some(Parsed(e, Skip(text, end)))
    decreases e, 2
  {
    hide ValueText, NameText, ValidValue, ValidText, Holds, ValueAt, StartAt, Skip;
    var named := HasName(e, inObject);
    var v := if named then p + |NameText(e.name)| else p;
    BodyParts(text, p, e, inObject, indent, v);
    ValueHead(e.value, indent);
    HoldsByte(text, v, ValueText(e.value, indent), 0);
    HoldsInside(text, v, ValueText(e.value, indent));
    if !named && e.value.String? {
      StringElem(text, p, e, indent, end);
    } else {
      ValueRead(text, v, e.value, indent, end);
      if named {
        NameStart(text, p, e.name, v);
        NameFirst(text, p, e.name);
      } else {
        NoStart(text, p);
      }
      ElemStep(text, p, e, v, end);
    }
  }

  lemma BodyParts(text: seq<byte>, p: nat, e: Elem, inObject: bool, indent: nat, v: nat)
    requires Holds(text, p, BodyText(e, indent, inObject))
    requires v == if HasName(e, inObject) then p + |NameText(e.name)| else p
    ensures HasName(e, inObject) ==> Holds(text, p, NameText(e.name))
    ensures Holds(text, v, ValueText(e.value, indent))
  {
    hide ValueText, NameText, Holds;
    HoldsParts(text, p, if HasName(e, inObject) then NameText(e.name) else [], ValueText(e.value, indent));
  }

  lemma StringElem(text: seq<byte>, p: nat, e: Elem, indent: nat, end: nat)
    requires e.value.String? && e.name == [] && ValidText(e.value.str)
    requires Holds(text, p, ValueText(e.value, indent)) && end == p + |ValueText(e.value, indent)| && Followed(text, end)
    ensures ElemAt(text, p) == Some(Parsed(e, Skip(text, end)))
  {
    hide QuotedText, Holds, StartAt, Skip, Plain;
    StringStart(text, p, e.value.str, end);
  }

  lemma NoStart(text: seq<byte>, p: nat)
    requires p < |text| && text[p] != QUOTE
    ensures StartAt(text, p) == Some(Start([], [], p))
  {
  }

  lemma NameFirst(text: seq<byte>, p: nat, name: seq<byte>)
    requires Holds(text, p, NameText(name))
    ensures p < |text| && text[p] == QUOTE
  {
    hide Escaped;
    HoldsByte(text, p, NameText(name), 0);
  }

  lemma ElemStep(text: seq<byte>, p: nat, e: Elem, v: nat, end: nat)
    requires p <= v <= end <= |text| && StartAt(text, p) == Some(Start(e.name, [], v))
    requires ValueAt(text, v) == Some(Parsed(e.value, Skip(text, end)))
    ensures ElemAt(text, p) == Some(Parsed(e, Skip(text, end)))
  {
    hide StartAt, ValueAt, Skip;
  }

  lemma {:induction false} ValueRead(text: seq<byte>, p: nat, v: Value, indent: nat, end: nat)
    requires ValidValue(v) && Holds(text, p, ValueText(v, indent)) && end == p + |ValueText(v, indent)|
    requires IsContainer(v) || end < |text|
    ensures end <= |text| && ValueAt(text, p) == Some(Parsed(v, Skip(text, end)))
    decreases v, 3
  {
    hide Holds, InsideText, ValidElem, ItemsAt, Skip, QuotedText, QuotedAt, WordValueAt;
    if v.Array? {
      ContainerParts(text, p, OPEN_ARRAY, InsideText(v.items, indent, true), CLOSE_ARRAY, end);
      InsideRead(text, p + 2, v.items, indent, false, end - 1);
    } else if v.Object? {
      ContainerParts(text, p, OPEN_OBJECT, InsideText(v.members, indent, false), CLOSE_OBJECT, end);
      InsideRead(text, p + 2, v.members, indent, true, end - 1);
    } else if v.String? {
      QuotedRead(text, p, v.str, end);
    } else {
      WordRead(text, p, v, end);
    }
  }

  lemma ContainerParts(text: seq<byte>, p: nat, open: byte, inside: seq<byte>, close: byte, end: nat)
    requires Holds(text, p, [open, SPACE] + inside + [close]) && end == p + 3 + |inside|
    ensures end <= |text| && text[p] == open && text[end - 1] == close && Holds(text, p + 2, inside)
    ensures Skip(text, p + 1) == Skip(text, p + 2)
  {
    hide Holds;
    HoldsParts(text, p, [open, SPACE] + inside, [close]);
    HoldsParts(text, p, [open, SPACE], inside);
    HoldsByte(text, p, [open, SPACE], 0);
    HoldsByte(text, p, [open, SPACE], 1);
    HoldsByte(text, end - 1, [close], 0);
  }

  function Close(inObject: bool): byte { if inObject then CLOSE_OBJECT else CLOSE_ARRAY }

  // The children of an array or an object, up to the closing bracket at q.
  lemma {:induction false} InsideRead(text: seq<byte>, p: nat, es: seq<Elem>, indent: nat, inObject: bool, q: nat)
    requires ValidElems(es, inObject) && Holds(text, p, InsideText(es, indent, !inObject))
    requires q == p + |InsideText(es, indent, !inObject)| && q < |text| && text[q] == Close(inObject)
    ensures p <= |text| && ItemsAt(text, Skip(text, p), Close(inObject)) == Some(Parsed(es, Skip(text, q + 1)))
    decreases es, 4
  {
    hide Holds, ListText, LinesText, ItemsAt, ValidElem, Skip;
    ItemsEnd(text, q, inObject);
    if es != [] && es[0].name == [] {
      RowRead(text, p, es, indent, inObject, false, q, q);
    } else if es != [] {
      var r := p + 1 + |LinesText(es, Deeper(indent), !inObject)|;
      LinesInside(text, p, es, indent, inObject, r, q);
      RowRead(text, p + 1, es, Deeper(indent), inObject, true, r, q);
    }
  }

  // The line break, the lines, and the indentation of the closing bracket.
  lemma LinesInside(text: seq<byte>, p: nat, es: seq<Elem>, indent: nat, inObject: bool, r: nat, q: nat)
    requires es != [] && es[0].name != [] && Holds(text, p, InsideText(es, indent, !inObject))
    requires q == p + |InsideText(es, indent, !inObject)| && q < |text| && text[q] == Close(inObject)
    requires r == p + 1 + |LinesText(es, Deeper(indent), !inObject)|
    ensures p + 1 <= |text| && Skip(text, p) == Skip(text, p + 1) && r <= |text| && Skip(text, r) == q
    ensures Holds(text, p + 1, LinesText(es, Deeper(indent), !inObject)) && Holds(text, r, Spaces(indent))
  {
    hide Holds, LinesText, Skip;
    var lines := LinesText(es, Deeper(indent), !inObject);
    HoldsParts(text, p, [LF] + lines, Spaces(indent));
    HoldsParts(text, p, [LF], lines);
    HoldsByte(text, p, [LF], 0);
    BlankSkipped(text, p);
    SpacesSkipped(text, r, indent, q);
  }

  lemma StartSkips(text: seq<byte>, p: nat)
    requires StartsWell(text, p)
    ensures Skip(text, p) == p
  {
  }

  lemma BlankSkipped(text: seq<byte>, p: nat)
    requires p < |text| && IsBlank(text[p])
    ensures Skip(text, p) == Skip(text, p + 1)
  {
  }

  lemma SpacesSkipped(text: seq<byte>, r: nat, n: nat, q: nat)
    requires Holds(text, r, Spaces(n)) && q == r + n && q < |text| && !IsBlank(text[q])
    ensures r <= |text| && Skip(text, r) == q
  {
    SkipBlanks(text, r, Spaces(n));
    SkipNothing(text, q);
  }

  // The closing bracket.
  lemma ItemsEnd(text: seq<byte>, q: nat, inObject: bool)
    requires q < |text| && text[q] == Close(inObject)
    ensures Skip(text, q) == q && ItemsAt(text, q, Close(inObject)) == Some(Parsed([], Skip(text, q + 1)))
  {
    SkipNothing(text, q);
    hide Skip;
  }

  lemma ItemsComma(text: seq<byte>, i: nat, inObject: bool)
    requires i < |text| && text[i] == COMMA
    ensures Skip(text, i) == i && ItemsAt(text, i, Close(inObject)) == ItemsAt(text, Skip(text, i + 1), Close(inObject))
  {
    SkipNothing(text, i);
    hide Skip, ElemAt;
  }

  lemma ItemsStep(text: seq<byte>, p: nat, es: seq<Elem>, end: nat, x: nat, inObject: bool)
    requires es != [] && StartsWell(text, p) && end <= |text| && x <= |text|
    requires ElemAt(text, p) == Some(Parsed(es[0], Skip(text, end)))
    requires ItemsAt(text, Skip(text, end), Close(inObject)) == Some(Parsed(es[1..], Skip(text, x)))
    ensures ItemsAt(text, p, Close(inObject)) == Some(Parsed(es, Skip(text, x)))
  {
    hide ElemAt, Skip;
    assert [es[0]] + es[1..] == es;
  }

  // Elements on one line, or on a line each.
  function RowText(es: seq<Elem>, indent: nat, inObject: bool, lines: bool): seq<byte> {
    if lines then LinesText(es, indent, !inObject) else ListText(es, indent, !inObject)
  }

  // What stands between an element and the next, or behind the last.
  function Separator(more: bool, lines: bool): seq<byte> {
    if more then [COMMA, if lines then LF else SPACE] else if lines then [LF] else []
  }

  // The first element, and the others.
  lemma RowSplit(es: seq<Elem>, indent: nat, inObject: bool, lines: bool)
    requires es != []
    ensures RowText(es, indent, inObject, lines)
            == Lead(es[0], indent) + (BodyText(es[0], indent, inObject)
                                      + (Separator(|es| > 1, lines) + RowText(es[1..], indent, inObject, lines)))
  {
    hide ElemText, BodyText, Lead;
    ElemSplit(es[0], indent, inObject);
    var a, b, c, d := Lead(es[0], indent), BodyText(es[0], indent, inObject), Separator(|es| > 1, lines),
                      RowText(es[1..], indent, inObject, lines);
    assert ((a + b) + c) + d == a + (b + (c + d));
  }

  lemma RowParts(text: seq<byte>, p: nat, es: seq<Elem>, indent: nat, inObject: bool, lines: bool, i: nat, end: nat)
    requires es != [] && Holds(text, p, RowText(es, indent, inObject, lines))
    requires i == p + |Lead(es[0], indent)| && end == i + |BodyText(es[0], indent, inObject)|
    ensures Holds(text, p, Lead(es[0], indent)) && Holds(text, i, BodyText(es[0], indent, inObject))
    ensures var next := end + |Separator(|es| > 1, lines)|;
            && Holds(text, end, Separator(|es| > 1, lines)) && Holds(text, next, RowText(es[1..], indent, inObject, lines))
            && p + |RowText(es, indent, inObject, lines)| == next + |RowText(es[1..], indent, inObject, lines)|
  {
    hide Holds, RowText, BodyText, Lead, Separator;
    var a, b, c, d := Lead(es[0], indent), BodyText(es[0], indent, inObject), Separator(|es| > 1, lines),
                      RowText(es[1..], indent, inObject, lines);
    RowSplit(es, indent, inObject, lines);
    HoldsParts(text, p, a, b + (c + d));
    HoldsParts(text, i, b, c + d);
    HoldsParts(text, end, c, d);
  }

  lemma RowNothing(indent: nat, inObject: bool, lines: bool)
    ensures RowText([], indent, inObject, lines) == []
  {
  }

  // A comma and a blank, or what is left of the row.
  lemma SeparatorRead(text: seq<byte>, end: nat, more: bool, lines: bool, q: nat)
    requires Holds(text, end, Separator(more, lines)) && q < |text| && text[q] != COLON
    requires !more ==> end + |Separator(more, lines)| <= |text| && Skip(text, end + |Separator(more, lines)|) == q
    ensures Followed(text, end)
    ensures more ==> |Separator(more, lines)| == 2 && end + 1 < |text| && text[end] == COMMA && IsBlank(text[end + 1])
    ensures !more ==> Skip(text, end) == q
  {
    var s := Separator(more, lines);
    if more {
      HoldsByte(text, end, s, 0);
      HoldsByte(text, end, s, 1);
    } else if lines {
      HoldsByte(text, end, s, 0);
      BlankSkipped(text, end);
      hide Skip;
    }
  }

  lemma LeadSkipped(text: seq<byte>, p: nat, e: Elem, indent: nat, i: nat)
    requires Holds(text, p, Lead(e, indent)) && i == p + |Lead(e, indent)| && StartsWell(text, i)
    ensures p <= |text| && Skip(text, p) == i
  {
    hide Skip, Holds;
    StartNotBlank(text, i);
    StartSkips(text, i);
    if e.name != [] { SpacesSkipped(text, p, indent, i); }
  }

  // A row of elements; r is its end, q the closing bracket.
  lemma {:induction false} RowRead(text: seq<byte>, p: nat, es: seq<Elem>, indent: nat, inObject: bool, lines: bool, r: nat, q: nat)
    requires ValidElems(es, inObject) && Holds(text, p, RowText(es, indent, inObject, lines))
    requires r == p + |RowText(es, indent, inObject, lines)| && r <= |text|
    requires Skip(text, r) == q && q < |text| && text[q] == Close(inObject)
    ensures p <= |text| && ItemsAt(text, Skip(text, p), Close(inObject)) == Some(Parsed(es, Skip(text, q + 1)))
    decreases es, 1
  {
    hide Holds, RowText, ItemsAt, ElemAt, ValidElem, BodyText, Lead, Separator, Skip, StartsWell, Followed, IsBlank;
    ItemsEnd(text, q, inObject);
    if es == [] {
      RowNothing(indent, inObject, lines);
    } else {
      var i := p + |Lead(es[0], indent)|;
      var end := i + |BodyText(es[0], indent, inObject)|;
      var more := |es| > 1;
      var next := end + |Separator(more, lines)|;
      ElemsValid(es, inObject);
      RowParts(text, p, es, indent, inObject, lines, i, end);
      if more {
        RowRead(text, next, es[1..], indent, inObject, lines, r, q);
      } else {
        assert es[1..] == [];
        RowNothing(indent, inObject, lines);
      }
      SeparatorRead(text, end, more, lines, q);
      BodyRead(text, i, es[0], inObject, indent, end);
      LeadSkipped(text, p, es[0], indent, i);
      if more {
        ItemsComma(text, end, inObject);
        BlankSkipped(text, end + 1);
      }
      ItemsStep(text, i, es, end, q + 1, inObject);
    }
  }

  lemma StartNotBlank(text: seq<byte>, i: nat)
    requires StartsWell(text, i)
    ensures i < |text| && !IsBlank(text[i])
  {
  }

  lemma WrittenRoot(e: Elem)
    ensures Written(e) == BodyText(e, 0, true)
  {
    hide ElemText, BodyText;
    ElemSplit(e, 0, true);
    assert Spaces(0) == [];
    assert [] + BodyText(e, 0, true) == BodyText(e, 0, true);
  }

  // Writing a tree whose root is an array or an object and parsing the text gives the same tree.
  lemma RoundTrip(e: Elem)
    requires ValidRoot(e)
    ensures Parse(Written(e)) == Some(e)
  {
    hide ValidElem, ElemText, BodyText, ElemAt, Skip, StartsWell;
    var text := Written(e);
    WrittenRoot(e);
    HoldsWhole(text);
    BodyRead(text, 0, e, true, 0, |text|);
    StartNotBlank(text, 0);
    StartSkips(text, 0);
  }

  lemma HoldsWhole(text: seq<byte>)
    ensures Holds(text, 0, text)
  {
  }
}
