/** Exactly which JSON trees survive writing and parsing. */
module JsonExact {
  import opened Bytes
  import opened Wrappers
  import opened Buffers
  import opened Hex
  import opened Scanner
  import opened Json
  import opened JsonRoundTrip

  // ----- strings that are read as they stand -----

  lemma {:induction false} EscapedHasNoQuote(s: seq<byte>)
    requires QUOTE !in s
    ensures QUOTE !in Escaped(s)
  {
    hide Letter, HighDigit, LowDigit;
    if s != [] {
      assert s[0] in s && QUOTE !in s[1..];
      EscapedHasNoQuote(s[1..]);
      UnitHasNoQuote(s[0]);
    }
  }

  lemma UnitHasNoQuote(c: byte)
    requires c != QUOTE
    ensures QUOTE !in EscapedByte(c)
  {
    DigitIsPlain(c);
  }

  lemma EscapedHead(s: seq<byte>)
    requires s != [] && s[0] != SPACE
    ensures Escaped(s) != [] && !IsBlank(Escaped(s)[0])
  {
    hide HighDigit, LowDigit;
    assert Escaped(s)[0] == EscapedByte(s[0])[0];
  }

  // A string is written as itself exactly when nothing in it needs escaping.
  lemma {:induction false} EscapedIsSame(s: seq<byte>)
    ensures Escaped(s) == s <==> Plain(s)
  {
    hide EscapedByte;
    EscapedSize(s);
    if Plain(s) { PlainEscaped(s); }
    if s != [] {
      EscapedIsSame(s[1..]);
      EscapedSize(s[1..]);
      SameUnit(s[0]);
      if Escaped(s) == s { assert Escaped(s)[1..] == s[1..]; }
      assert Plain(s) <==> Letter(s[0]) == 0 && 32 <= s[0] < 127 && Plain(s[1..]) by {
        assert forall c :: c in s <==> c == s[0] || c in s[1..];
      }
    }
  }

  lemma {:induction false} EscapedSize(s: seq<byte>)
    ensures |Escaped(s)| >= |s|
  {
    hide EscapedByte;
    if s != [] { EscapedSize(s[1..]); }
  }

  lemma SameUnit(c: byte)
    ensures |EscapedByte(c)| == 1 <==> Letter(c) == 0 && 32 <= c < 127
  {
  }

  // The first character after the quote is a blank exactly when the string starts with a space.
  lemma LeadingBlank(s: seq<byte>)
    requires s != [] && IsBlank(Escaped(s)[0])
    ensures s[0] == SPACE
  {
    hide Escaped, IsBlank;
    if s[0] != SPACE { EscapedHead(s); }
  }

  // The token that the parser takes from a quoted text: from the first character that is not blank to the
  // first quote.  It is the string itself only when nothing in it needs escaping and it does not start
  // with a space.
  lemma TokenExact(text: seq<byte>, p: nat, s: seq<byte>, a: nat, k: nat)
    requires Holds(text, p, QuotedText(s)) && p + 1 <= |text|
    requires a == Skip(text, p + 1) && k == Until(text, a, {QUOTE}) && text[a..k] == s && s != []
    ensures ValidText(s)
  {
    hide Holds, Escaped, QuotedText, Until, Skip, Plain, IsBlank;
    var b := p + 1 + |Escaped(s)|;
    QuotedParts(text, p, s);
    SliceHasNoQuote(text, a, k);
    EscapedHasNoQuote(s);
    EscapedSize(s);
    QuoteEnds(text, p + 1, b, Escaped(s));
    HoldsPrefixOf(text, p + 1, Escaped(s), [QUOTE]);
    if a > p + 1 {
      HoldsByte(text, p + 1, Escaped(s), 0);
      LeadingBlank(s);
      assert s[0] == text[a];
      SpaceIsBlank(text, a);
      assert false;
    }
    EscapedIsSame(s);
    assert s[0] == text[a];
    SpaceIsBlank(text, a);
  }

  lemma SliceHasNoQuote(text: seq<byte>, a: nat, k: nat)
    requires a <= |text| && k == Until(text, a, {QUOTE})
    ensures QUOTE !in text[a..k]
  {
    hide Until;
  }

  lemma SpaceIsBlank(text: seq<byte>, a: nat)
    requires a < |text| && !IsBlank(text[a])
    ensures text[a] != SPACE
  {
  }

  // Text without quotes is read up to the quote after it, also from its first character that is not blank.
  lemma QuoteEnds(text: seq<byte>, p: nat, b: nat, s: seq<byte>)
    requires p <= b < |text| && text[p..b] == s && QUOTE !in s && text[b] == QUOTE
    ensures Skip(text, p) <= b && Until(text, Skip(text, p), {QUOTE}) == b
  {
  }

  // What follows an element: a comma, a closing bracket or the end of the text.
  predicate Ended(text: seq<byte>, end: nat) {
    end <= |text|
    && var c := At(text, Skip(text, end)); c == COMMA || c == CLOSE_ARRAY || c == CLOSE_OBJECT || c == 0
  }

  lemma NothingThere(text: seq<byte>, end: nat)
    requires Ended(text, end)
    ensures At(text, Skip(text, end)) != COLON && ValueAt(text, Skip(text, end)) == None
  {
    hide Skip, QuotedAt, WordValueAt, ItemsAt;
  }

  lemma {:induction false} QuoteIsEscaped(s: seq<byte>, i: nat)
    requires i < |Escaped(s)| && Escaped(s)[i] == QUOTE
    ensures i > 0 && Escaped(s)[i - 1] == BACKSLASH
  {
    hide HighDigit, LowDigit;
    var first := EscapedByte(s[0]);
    DigitIsPlain(s[0]);
    if i < |first| {
      assert Escaped(s)[i] == first[i];
    } else {
      QuoteIsEscaped(s[1..], i - |first|);
    }
  }

  // The token is empty only when there is nothing but blanks between the quotes.
  lemma EmptyToken(text: seq<byte>, p: nat, s: seq<byte>, end: nat)
    requires Holds(text, p, QuotedText(s)) && end == p + |QuotedText(s)| && end <= |text|
    requires p + 1 <= |text| && At(text, Skip(text, p + 1)) == QUOTE
    ensures Skip(text, p + 1) == end - 1
  {
    hide Holds, QuotedText, Escaped, Skip;
    var a, b := Skip(text, p + 1), end - 1;
    QuotedLength(s);
    QuotedParts(text, p, s);
    SkipsNoQuote(text, p + 1, a, b);
    if a < b {
      assert text[p + 1..b][a - p - 1] == text[a];
      QuoteIsEscaped(s, a - p - 1);
    }
  }

  lemma QuotedLength(s: seq<byte>)
    ensures |QuotedText(s)| == |Escaped(s)| + 2
  {
  }

  lemma SkipsNoQuote(text: seq<byte>, p: nat, a: nat, b: nat)
    requires p <= b < |text| && a == Skip(text, p) && text[b] == QUOTE
    ensures a <= b
  {
    hide Skip;
  }

  // The parser takes a string without a name as it stands between the quotes, escapes and all, and without
  // the blanks in front: it survives exactly when it is not empty, needs no escaping and does not start with
  // a space.
  lemma UnnamedStringSurvives(text: seq<byte>, p: nat, s: seq<byte>, end: nat)
    requires Holds(text, p, QuotedText(s)) && end == p + |QuotedText(s)| && Ended(text, end)
    ensures p <= |text|
    ensures (ElemAt(text, p).Some? && ElemAt(text, p).value.item == Elem([], String(s))) <==> ValidText(s)
    ensures ElemAt(text, p) == Some(Parsed(Elem([], String(s)), Skip(text, end))) <==> ValidText(s)
  {
    hide Holds, QuotedText, Escaped, Skip, Until, ValueAt, Plain;
    NothingThere(text, end);
    HoldsInside(text, p, QuotedText(s));
    if ValidText(s) {
      StringStart(text, p, s, end);
    } else if s == [] {
      EmptyStart(text, p, end);
    } else if ElemAt(text, p).Some? && ElemAt(text, p).value.item == Elem([], String(s)) {
      QuotedParts(text, p, s);
      var a := Skip(text, p + 1);
      var k := Until(text, a, {QUOTE});
      if text[a..k] == s {
        TokenExact(text, p, s, a, k);
      } else if At(text, a) == QUOTE {
        EmptyToken(text, p, s, end);
      }
    }
  }

  lemma EmptyStart(text: seq<byte>, p: nat, end: nat)
    requires Holds(text, p, QuotedText([])) && end == p + |QuotedText([])|
    requires end <= |text| && At(text, Skip(text, end)) != COLON
    ensures StartAt(text, p) == Some(Start([], [], Skip(text, end)))
  {
    QuotedParts(text, p, []);
    SkipNothing(text, p + 1);
    hide Holds, Escaped, Skip;
  }

  // ----- names -----

  // A name is taken as it stands, too.
  lemma NameSurvives(text: seq<byte>, p: nat, name: seq<byte>, v: nat)
    requires name != [] && Holds(text, p, NameText(name)) && v == p + |NameText(name)|
    requires v < |text| && !IsBlank(text[v])
    ensures p <= |text|
    ensures (StartAt(text, p).Some? && StartAt(text, p).value.name == name) <==> ValidText(name)
    ensures StartAt(text, p) == Some(Start(name, [], v)) <==> ValidText(name)
  {
    hide Holds, QuotedText, NameText, Skip, Until, Plain, Blanks;
    HoldsInside(text, p, NameText(name));
    if ValidText(name) {
      NameStart(text, p, name, v);
    } else if StartAt(text, p).Some? && StartAt(text, p).value.name == name {
      NameSplit(name);
      HoldsParts(text, p, QuotedText(name), [COLON] + Blanks(name));
      HoldsInside(text, p, QuotedText(name));
      QuotedLength(name);
      var a := Skip(text, p + 1);
      TokenExact(text, p, name, a, Until(text, a, {QUOTE}));
    }
  }

  // ----- text outside strings -----

  // The first quote comes before the first backslash.
  ghost predicate StartsOutside(s: seq<byte>) {
    forall j :: 0 <= j < |s| && s[j] == BACKSLASH ==> exists i :: 0 <= i < j && s[i] == QUOTE
  }

  ghost predicate Outside(text: seq<byte>, p: nat) {
    forall j :: p <= j < |text| && text[j] == BACKSLASH ==> exists i :: p <= i < j && text[i] == QUOTE
  }

  lemma OutsideThrough(text: seq<byte>, p: nat, s: seq<byte>)
    requires Holds(text, p, s) && StartsOutside(s) && Outside(text, p + |s|)
    ensures Outside(text, p)
  {
    hide Holds;
    forall j | p <= j < |text| && text[j] == BACKSLASH ensures exists i :: p <= i < j && text[i] == QUOTE {
      if j < p + |s| {
        HoldsByte(text, p, s, j - p);
        var i :| 0 <= i < j - p && s[i] == QUOTE;
        HoldsByte(text, p, s, i);
        assert text[p + i] == QUOTE;
      } else {
        var i :| p + |s| <= i < j && text[i] == QUOTE;
      }
    }
  }

  lemma OutsideTwice(a: seq<byte>, b: seq<byte>)
    requires StartsOutside(a) && StartsOutside(b)
    ensures StartsOutside(a + b)
  {
    var s := a + b;
    forall j | 0 <= j < |s| && s[j] == BACKSLASH ensures exists i :: 0 <= i < j && s[i] == QUOTE {
      if j < |a| {
        var i :| 0 <= i < j && a[i] == QUOTE;
        assert s[i] == QUOTE;
      } else {
        var i :| 0 <= i < j - |a| && b[i] == QUOTE;
        assert s[|a| + i] == QUOTE;
      }
    }
  }

  lemma QuotedOutside(s: seq<byte>)
    ensures StartsOutside(QuotedText(s))
  {
    hide Escaped;
    var t := QuotedText(s);
    forall j | 0 <= j < |t| && t[j] == BACKSLASH ensures exists i :: 0 <= i < j && t[i] == QUOTE { assert t[0] == QUOTE; }
  }

  lemma SpacesOutside(n: nat)
    ensures StartsOutside(Spaces(n))
  {
  }

  lemma {:induction false} ValueOutside(v: Value, indent: nat)
    ensures StartsOutside(ValueText(v, indent))
    decreases v, 3
  {
    hide InsideText, QuotedText;
    match v
    case Null => WordOutside("null");
    case Bool(b) => if b { WordOutside("true"); } else { WordOutside("false"); }
    case String(s) => QuotedOutside(s);
    case Array(items) => ContainerOutside(items, OPEN_ARRAY, indent, false);
    case Object(members) => ContainerOutside(members, OPEN_OBJECT, indent, true);
  }

  lemma WordOutside(word: string)
    requires word == "null" || word == "true" || word == "false"
    ensures StartsOutside(Ascii(word))
  {
  }

  lemma {:induction false} ContainerOutside(es: seq<Elem>, open: byte, indent: nat, inObject: bool)
    requires open != BACKSLASH
    ensures StartsOutside([open, SPACE] + InsideText(es, indent, !inObject) + [Close(inObject)])
    decreases es, 3
  {
    hide ListText, LinesText;
    var inside := InsideText(es, indent, !inObject);
    if es != [] {
      if es[0].name == [] {
        RowOutside(es, indent, inObject, false);
      } else {
        RowOutside(es, Deeper(indent), inObject, true);
        SpacesOutside(indent);
        OutsideTwice([LF], LinesText(es, Deeper(indent), !inObject));
        OutsideTwice([LF] + LinesText(es, Deeper(indent), !inObject), Spaces(indent));
      }
    }
    OutsideTwice([open, SPACE], inside);
    OutsideTwice([open, SPACE] + inside, [Close(inObject)]);
  }

  lemma {:induction false} BodyOutside(e: Elem, indent: nat, inObject: bool)
    ensures StartsOutside(BodyText(e, indent, inObject))
    decreases e, 2
  {
    hide ValueText, QuotedText, StartsOutside;
    ValueOutside(e.value, indent);
    NothingOutside();
    if HasName(e, inObject) {
      NameOutside(e.name);
      OutsideTwice(NameText(e.name), ValueText(e.value, indent));
    } else {
      OutsideTwice([], ValueText(e.value, indent));
    }
  }

  lemma NothingOutside()
    ensures StartsOutside([])
  {
  }

  lemma NameOutside(name: seq<byte>)
    ensures StartsOutside(NameText(name))
  {
    hide QuotedText;
    NameSplit(name);
    QuotedOutside(name);
    assert StartsOutside([COLON] + Blanks(name)) by { hide NameText; }
    OutsideTwice(QuotedText(name), [COLON] + Blanks(name));
  }

  lemma {:induction false} RowOutside(es: seq<Elem>, indent: nat, inObject: bool, lines: bool)
    ensures StartsOutside(RowText(es, indent, inObject, lines))
    decreases es, 1
  {
    hide RowText, BodyText;
    if es == [] {
      RowNothing(indent, inObject, lines);
    } else {
      var a, b, c, d := Lead(es[0], indent), BodyText(es[0], indent, inObject), Separator(|es| > 1, lines),
                        RowText(es[1..], indent, inObject, lines);
      BodyOutside(es[0], indent, inObject);
      RowOutside(es[1..], indent, inObject, lines);
      SpacesOutside(indent);
      OutsideTwice(c, d);
      OutsideTwice(b, c + d);
      OutsideTwice(a, b + (c + d));
      RowSplit(es, indent, inObject, lines);
    }
  }

  // A quoted string that starts outside strings ends at the first quote, and has no quote in it.
  lemma QuotedFromOutside(text: seq<byte>, p: nat)
    requires p < |text| && Outside(text, p + 1) && QuotedAt(text, p).Some?
    ensures QuotedAt(text, p).value.item.String? && QUOTE !in QuotedAt(text, p).value.item.str
  {
    hide CloseQuote, Unescaped, Skip;
    var close := CloseQuote(text, p + 1, QUOTE, false).value;
    PlainClose(text, p + 1, close);
    UnescapedIsSame(text[p + 1..close]);
  }

  lemma {:induction false} PlainClose(text: seq<byte>, p: nat, close: nat)
    requires Outside(text, p) && CloseQuote(text, p, QUOTE, false) == Some(close)
    ensures p <= close < |text|
    ensures forall i :: p <= i < close ==> text[i] != QUOTE && text[i] != BACKSLASH
    decreases |text| - p
  {
    if text[p] != QUOTE {
      forall j | p + 1 <= j < |text| && text[j] == BACKSLASH ensures exists i :: p + 1 <= i < j && text[i] == QUOTE {
        var i :| p <= i < j && text[i] == QUOTE;
      }
      PlainClose(text, p + 1, close);
    }
  }

  lemma {:induction false} UnescapedIsSame(s: seq<byte>)
    requires BACKSLASH !in s
    ensures Unescaped(s) == Some(s)
  {
    if s != [] {
      assert s[0] in s;
      UnescapedIsSame(s[1..]);
      assert [s[0]] + s[1..] == s;
    }
  }

  // ----- trees -----

  lemma StringQuoted(text: seq<byte>, d: nat)
    requires d <= |text| && ValueAt(text, d).Some? && ValueAt(text, d).value.item.String?
    ensures d < |text| && text[d] == QUOTE && ValueAt(text, d) == QuotedAt(text, d)
  {
    hide QuotedAt, ItemsAt;
  }

  // A quote between the quotes of a written string has a backslash in front.
  lemma QuoteInside(text: seq<byte>, p: nat, s: seq<byte>, k: nat)
    requires Holds(text, p, QuotedText(s)) && p < k < p + |QuotedText(s)| - 1 && p + |QuotedText(s)| <= |text|
    requires text[k] == QUOTE
    ensures text[k - 1] == BACKSLASH && QUOTE in s
  {
    hide Holds, QuotedText, Escaped;
    QuotedLength(s);
    QuotedParts(text, p, s);
    HoldsPrefixOf(text, p + 1, Escaped(s), [QUOTE]);
    HoldsByte(text, p + 1, Escaped(s), k - p - 1);
    QuoteIsEscaped(s, k - p - 1);
    HoldsByte(text, p + 1, Escaped(s), k - p - 2);
    if QUOTE !in s { EscapedHasNoQuote(s); }
  }

  // Where a name is taken to end, and its value to start.
  lemma NamedStart(text: seq<byte>, p: nat, e: Elem)
    requires p < |text| && text[p] == QUOTE && e.name != []
    requires ElemAt(text, p).Some? && ElemAt(text, p).value.item == e
    ensures p + 1 <= |text|
    ensures var a := Skip(text, p + 1);
            var b := Skip(text, Until(text, a, {QUOTE}));
            && b < |text| && At(text, Skip(text, b + 1)) == COLON && Skip(text, b + 1) < |text|
            && var d := Skip(text, Skip(text, b + 1) + 1);
               ValueAt(text, d).Some? && ValueAt(text, d).value.item == e.value
  {
    hide Skip, Until, ElemAt, ValueAt;
    BehindStart(text, p, e);
  }

  lemma BehindStart(text: seq<byte>, p: nat, e: Elem)
    requires p < |text| && ElemAt(text, p).Some? && ElemAt(text, p).value.item == e
    ensures StartAt(text, p).Some?
    ensures var s := StartAt(text, p).value;
            s.name == e.name && (s.value == [] ==> ValueAt(text, s.next).Some? && ValueAt(text, s.next).value.item == e.value)
  {
    hide StartAt, ValueAt;
  }

  // A string between other elements is never read as a named one, although a colon behind an escaped quote is
  // taken for the end of a name.
  lemma StringHasNoName(text: seq<byte>, p: nat, s: seq<byte>, end: nat, name: seq<byte>)
    requires Holds(text, p, QuotedText(s)) && end == p + |QuotedText(s)| && Ended(text, end) && Outside(text, end)
    requires name != [] && p <= |text|
    ensures !(ElemAt(text, p).Some? && ElemAt(text, p).value.item == Elem(name, String(s)))
  {
    hide Holds, QuotedText, Escaped, Skip, Until, ElemAt, ValueAt, QuotedAt, Ended, Outside;
    if ElemAt(text, p).Some? && ElemAt(text, p).value.item == Elem(name, String(s)) {
      QuotedLength(s);
      QuotedParts(text, p, s);
      NamedStart(text, p, Elem(name, String(s)));
      var b, a := end - 1, Skip(text, p + 1);
      SkipsNoQuote(text, p + 1, a, b);
      var k := Until(text, a, {QUOTE});
      UntilStops(text, a, b);
      QuoteStays(text, k);
      var c := Skip(text, k + 1);
      NothingThere(text, end);
      assert k < b;
      SkipsNoQuote(text, k + 1, c, b);
      QuoteInside(text, p, s, k);
      ValueInside(text, p, s, end, c);
    }
  }

  // A colon between the quotes of a string with a quote in it is never followed by the string.
  lemma ValueInside(text: seq<byte>, p: nat, s: seq<byte>, end: nat, c: nat)
    requires Holds(text, p, QuotedText(s)) && end == p + |QuotedText(s)| && Outside(text, end) && QUOTE in s
    requires p < c < end - 1 && end <= |text| && text[c] == COLON && text[end - 1] == QUOTE
    ensures var d := Skip(text, c + 1); !(ValueAt(text, d).Some? && ValueAt(text, d).value.item == String(s))
  {
    hide Holds, QuotedText, Skip, ValueAt, QuotedAt, Outside;
    var d := Skip(text, c + 1);
    if ValueAt(text, d).Some? && ValueAt(text, d).value.item == String(s) {
      SkipsNoQuote(text, c + 1, d, end - 1);
      StringQuoted(text, d);
      if d < end - 1 {
        QuoteInside(text, p, s, d);
        SkippedBlank(text, c + 1, d);
      } else {
        QuotedFromOutside(text, d);
      }
    }
  }

  lemma UntilStops(text: seq<byte>, a: nat, b: nat)
    requires a <= b < |text| && text[b] == QUOTE
    ensures Until(text, a, {QUOTE}) <= b && text[Until(text, a, {QUOTE})] == QUOTE
  {
    hide Until;
  }

  lemma SkippedBlank(text: seq<byte>, i: nat, d: nat)
    requires i <= |text| && d == Skip(text, i) && d > i
    ensures text[d - 1] != BACKSLASH
  {
    hide Skip;
  }

  lemma ElemsValidStep(es: seq<Elem>, inObject: bool)
    requires es != [] && ValidElem(es[0], inObject) && ValidElems(es[1..], inObject)
    ensures ValidElems(es, inObject)
  {
    hide ValidElem;
    forall e | e in es ensures ValidElem(e, inObject) { assert e == es[0] || e in es[1..]; }
  }

  // An element that is read back is one that survives.
  lemma {:induction false} ElemExact(text: seq<byte>, p: nat, e: Elem, inObject: bool, indent: nat, end: nat)
    requires Holds(text, p, BodyText(e, indent, inObject)) && end == p + |BodyText(e, indent, inObject)|
    requires Ended(text, end) && Outside(text, end)
    ensures p <= |text|
    ensures ElemAt(text, p).Some? && ElemAt(text, p).value.item == e ==> ValidElem(e, inObject)
    decreases e, 2
  {
    hide ValueText, NameText, ValidValue, ValidText, Holds, ValueAt, StartAt, Skip, Ended, Outside;
    var v := if HasName(e, inObject) then p + |NameText(e.name)| else p;
    BodyParts(text, p, e, inObject, indent, v);
    ValueHead(e.value, indent);
    HoldsByte(text, v, ValueText(e.value, indent), 0);
    if ElemAt(text, p).Some? && ElemAt(text, p).value.item == e {
      if HasName(e, inObject) {
        NameSurvives(text, p, e.name, v);
        ValueExact(text, v, e.value, indent, end);
      } else if e.value.String? {
        StringText(e.value, indent);
        UnnamedStringSurvives(text, p, e.value.str, end);
        if e.name != [] { StringHasNoName(text, p, e.value.str, end, e.name); }
      } else {
        NoStart(text, p);
        ValueExact(text, v, e.value, indent, end);
      }
    }
  }

  lemma StringText(v: Value, indent: nat)
    requires v.String?
    ensures ValueText(v, indent) == QuotedText(v.str) && ValidValue(v)
  {
    hide QuotedText;
  }

  lemma {:induction false} ValueExact(text: seq<byte>, p: nat, v: Value, indent: nat, end: nat)
    requires Holds(text, p, ValueText(v, indent)) && end == p + |ValueText(v, indent)| && Outside(text, end)
    ensures p <= |text|
    ensures ValueAt(text, p).Some? && ValueAt(text, p).value.item == v ==> ValidValue(v)
    decreases v, 3
  {
    hide Holds, InsideText, ValidElem, ItemsAt, Skip, QuotedText, QuotedAt, WordValueAt, Outside;
    HoldsInside(text, p, ValueText(v, indent));
    if v.Array? {
      ContainerParts(text, p, OPEN_ARRAY, InsideText(v.items, indent, true), CLOSE_ARRAY, end);
      OutsideBefore(text, end - 1);
      InsideExact(text, p + 2, v.items, indent, false, end - 1);
    } else if v.Object? {
      ContainerParts(text, p, OPEN_OBJECT, InsideText(v.members, indent, false), CLOSE_OBJECT, end);
      OutsideBefore(text, end - 1);
      InsideExact(text, p + 2, v.members, indent, true, end - 1);
    }
  }

  lemma OutsideBefore(text: seq<byte>, q: nat)
    requires q < |text| && text[q] != BACKSLASH && Outside(text, q + 1)
    ensures Outside(text, q)
  {
    forall j | q <= j < |text| && text[j] == BACKSLASH ensures exists i :: q <= i < j && text[i] == QUOTE {
      var i :| q + 1 <= i < j && text[i] == QUOTE;
    }
  }

  // The children of an array or an object are read as es.
  predicate ReadAs(text: seq<byte>, p: nat, es: seq<Elem>, inObject: bool)
    requires p <= |text|
  {
    ItemsAt(text, p, Close(inObject)).Some? && ItemsAt(text, p, Close(inObject)).value.item == es
  }

  lemma {:induction false} InsideExact(text: seq<byte>, p: nat, es: seq<Elem>, indent: nat, inObject: bool, q: nat)
    requires Holds(text, p, InsideText(es, indent, !inObject)) && Outside(text, q)
    requires q == p + |InsideText(es, indent, !inObject)| && q < |text| && text[q] == Close(inObject)
    ensures p <= |text|
    ensures ReadAs(text, Skip(text, p), es, inObject) ==> ValidElems(es, inObject)
    decreases es, 4
  {
    hide Holds, ListText, LinesText, ItemsAt, ValidElem, Skip, ReadAs, Outside;
    ItemsEnd(text, q, inObject);
    if es != [] && es[0].name == [] {
      RowExact(text, p, es, indent, inObject, false, q, q);
    } else if es != [] {
      var r := p + 1 + |LinesText(es, Deeper(indent), !inObject)|;
      LinesInside(text, p, es, indent, inObject, r, q);
      SpacesOutside(indent);
      OutsideThrough(text, r, Spaces(indent));
      RowExact(text, p + 1, es, Deeper(indent), inObject, true, r, q);
    }
  }

  // The first of the children.
  lemma ReadStep(text: seq<byte>, p: nat, es: seq<Elem>, inObject: bool)
    requires es != [] && StartsWell(text, p) && ReadAs(text, p, es, inObject)
    ensures ElemAt(text, p).Some? && ElemAt(text, p).value.item == es[0]
    ensures ReadAs(text, ElemAt(text, p).value.next, es[1..], inObject)
  {
    hide ElemAt, Skip;
    var e := ElemAt(text, p).value;
    var rest := ItemsAt(text, e.next, Close(inObject)).value;
    assert es == [e.item] + rest.item;
    assert rest.item == es[1..];
  }

  lemma BodyStarts(text: seq<byte>, p: nat, e: Elem, indent: nat, inObject: bool)
    requires Holds(text, p, BodyText(e, indent, inObject))
    ensures StartsWell(text, p)
  {
    hide ValueText, Holds, NameText;
    var v := if HasName(e, inObject) then p + |NameText(e.name)| else p;
    BodyParts(text, p, e, inObject, indent, v);
    if HasName(e, inObject) {
      NameFirst(text, p, e.name);
    } else {
      ValueHead(e.value, indent);
      HoldsByte(text, p, ValueText(e.value, indent), 0);
    }
  }

  // A valid element ends where its text ends.
  lemma BodyEnds(text: seq<byte>, p: nat, e: Elem, inObject: bool, indent: nat, end: nat)
    requires ValidElem(e, inObject) && Holds(text, p, BodyText(e, indent, inObject))
    requires end == p + |BodyText(e, indent, inObject)| && Ended(text, end) && end < |text|
    ensures p <= |text| && ElemAt(text, p) == Some(Parsed(e, Skip(text, end)))
  {
    hide ValidElem, Holds, BodyText, ElemAt, Skip, StartsWell;
    BodyRead(text, p, e, inObject, indent, end);
  }

  // What follows an element of a row.
  lemma SeparatorEnds(text: seq<byte>, end: nat, more: bool, lines: bool, q: nat)
    requires Holds(text, end, Separator(more, lines)) && q < |text| && (text[q] == CLOSE_ARRAY || text[q] == CLOSE_OBJECT)
    requires !more ==> end + |Separator(more, lines)| <= |text| && Skip(text, end + |Separator(more, lines)|) == q
    ensures Ended(text, end) && end < |text|
  {
    hide Holds, Separator;
    SeparatorRead(text, end, more, lines, q);
    if more {
      EndedAt(text, end);
    }
    hide Skip;
  }

  lemma EndedAt(text: seq<byte>, end: nat)
    requires end < |text| && text[end] == COMMA
    ensures Ended(text, end) && Skip(text, end) == end
  {
  }

  lemma SeparatorOutside(more: bool, lines: bool)
    ensures StartsOutside(Separator(more, lines))
  {
  }

  // After a comma and a blank the next element is read.
  lemma ReadOn(text: seq<byte>, end: nat, es: seq<Elem>, inObject: bool)
    requires end + 2 <= |text| && text[end] == COMMA && IsBlank(text[end + 1]) && ReadAs(text, Skip(text, end), es, inObject)
    ensures ReadAs(text, Skip(text, end + 2), es, inObject)
  {
    hide Skip, ItemsAt, IsBlank;
    ItemsComma(text, end, inObject);
    BlankSkipped(text, end + 1);
  }

  // The first element is valid when all are read as they are, and the others are read behind it.
  lemma {:induction false} FirstExact(text: seq<byte>, p: nat, es: seq<Elem>, indent: nat, inObject: bool, end: nat)
    requires es != [] && Holds(text, p, BodyText(es[0], indent, inObject)) && Outside(text, end)
    requires end == p + |BodyText(es[0], indent, inObject)| && Ended(text, end) && end < |text|
    requires p <= |text| && ReadAs(text, p, es, inObject)
    ensures ValidElem(es[0], inObject) && ReadAs(text, Skip(text, end), es[1..], inObject)
    decreases es, 0
  {
    hide Holds, ItemsAt, ElemAt, ValidElem, BodyText, Skip, StartsWell, ReadAs, Ended, Outside;
    BodyStarts(text, p, es[0], indent, inObject);
    ReadStep(text, p, es, inObject);
    ElemExact(text, p, es[0], inObject, indent, end);
    BodyEnds(text, p, es[0], inObject, indent, end);
  }

  lemma {:induction false} RowExact(text: seq<byte>, p: nat, es: seq<Elem>, indent: nat, inObject: bool, lines: bool, r: nat, q: nat)
    requires Holds(text, p, RowText(es, indent, inObject, lines)) && Outside(text, r)
    requires r == p + |RowText(es, indent, inObject, lines)| && r <= |text|
    requires Skip(text, r) == q && q < |text| && text[q] == Close(inObject)
    ensures p <= |text| && (ReadAs(text, Skip(text, p), es, inObject) ==> ValidElems(es, inObject))
    decreases es, 1
  {
    hide Holds, RowText, ItemsAt, ElemAt, ValidElem, BodyText, Lead, Separator, Skip, StartsWell, ReadAs, Ended, Outside,
         StartsOutside, IsBlank, Followed;
    if es != [] {
      var i := p + |Lead(es[0], indent)|;
      var end := i + |BodyText(es[0], indent, inObject)|;
      var more := |es| > 1;
      var next := end + |Separator(more, lines)|;
      RowParts(text, p, es, indent, inObject, lines, i, end);
      RowOutside(es[1..], indent, inObject, lines);
      OutsideThrough(text, next, RowText(es[1..], indent, inObject, lines));
      SeparatorOutside(more, lines);
      OutsideThrough(text, end, Separator(more, lines));
      if !more {
        assert es[1..] == [];
        RowNothing(indent, inObject, lines);
      }
      SeparatorEnds(text, end, more, lines, q);
      SeparatorRead(text, end, more, lines, q);
      BodyStarts(text, i, es[0], indent, inObject);
      LeadSkipped(text, p, es[0], indent, i);
      if ReadAs(text, Skip(text, p), es, inObject) {
        FirstExact(text, i, es, indent, inObject, end);
        if more {
          ReadOn(text, end, es[1..], inObject);
          RowExact(text, next, es[1..], indent, inObject, lines, r, q);
        }
        ElemsValidStep(es, inObject);
      }
    }
  }

  // ----- roots -----

  predicate IsWord(v: Value) { v.Null? || v.Bool? }

  // A word at the end of the text is only recognised when it has five letters: the comparison with "false"
  // comes first, and fails for want of characters.
  lemma LastWord(text: seq<byte>, p: nat, v: Value)
    requires IsWord(v) && Holds(text, p, ValueText(v, 0)) && |text| == p + |ValueText(v, 0)|
    ensures ValueAt(text, p) == if v == Bool(false) then Some(Parsed(v, |text|)) else None
  {
    var word := ValueText(v, 0);
    HoldsByte(text, p, word, 0);
    WordHeld(text, p, word);
  }

  // Exactly which trees survive, of all: only the children of objects have names, names and strings without one
  // can be read back as they stand, and a root that is a word is false.
  lemma RoundTripExactly(e: Elem)
    ensures Parse(Written(e)) == Some(e) <==> ValidElem(e, true) && (IsWord(e.value) ==> e.value == Bool(false))
  {
    hide ValidElem, ElemText, BodyText, ElemAt, Skip, StartsWell, Ended, ValueText;
    var text := Written(e);
    WrittenRoot(e);
    HoldsWhole(text);
    BodyStarts(text, 0, e, 0, true);
    StartSkips(text, 0);
    TextEnds(text);
    if IsWord(e.value) {
      WordRoot(text, e);
    } else {
      ElemExact(text, 0, e, true, 0, |text|);
      if ValidElem(e, true) { RootRead(text, e); }
    }
  }

  lemma TextEnds(text: seq<byte>)
    ensures Ended(text, |text|) && Outside(text, |text|)
  {
  }

  lemma WordRoot(text: seq<byte>, e: Elem)
    requires IsWord(e.value) && text == BodyText(e, 0, true)
    ensures (ElemAt(text, 0).Some? && ElemAt(text, 0).value.item == e) <==> ValidElem(e, true) && e.value == Bool(false)
  {
    hide Holds, NameText, StartAt, ValueAt, Skip, ValueText, ValidText;
    var named := e.name != [];
    var v := if named then |NameText(e.name)| else 0;
    HoldsWhole(text);
    BodyParts(text, 0, e, true, 0, v);
    ValueHead(e.value, 0);
    HoldsByte(text, v, ValueText(e.value, 0), 0);
    LastWord(text, v, e.value);
    if named {
      NameSurvives(text, 0, e.name, v);
    } else {
      NoStart(text, 0);
    }
  }

  lemma QuotedValue(text: seq<byte>, p: nat)
    requires p < |text| && text[p] == QUOTE
    ensures ValueAt(text, p) == QuotedAt(text, p)
  {
    hide QuotedAt;
  }

  // A root that is not a word is read at the end of the text, too.
  lemma RootRead(text: seq<byte>, e: Elem)
    requires ValidElem(e, true) && !IsWord(e.value) && text == BodyText(e, 0, true)
    ensures ElemAt(text, 0).Some? && ElemAt(text, 0).value.item == e
  {
    hide Holds, NameText, StartAt, ValueAt, Skip, ValueText, ValidText, ValidValue;
    var named := e.name != [];
    HoldsWhole(text);
    if IsContainer(e.value) {
      BodyRead(text, 0, e, true, 0, |text|);
    } else {
      var v := if named then |NameText(e.name)| else 0;
      BodyParts(text, 0, e, true, 0, v);
      StringText(e.value, 0);
      ValueHead(e.value, 0);
      HoldsByte(text, v, ValueText(e.value, 0), 0);
      TextEnds(text);
      if named {
        QuotedRead(text, v, e.value.str, |text|);
        QuotedValue(text, v);
        NameSurvives(text, 0, e.name, v);
        ElemStep(text, 0, e, v, |text|);
      } else {
        UnnamedStringSurvives(text, 0, e.value.str, |text|);
      }
    }
  }
}
