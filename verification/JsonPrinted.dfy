/** What the JSON writer writes is one of the layouts that the parser reads (json.c; section 2 of RFC 4627). */
module JsonPrinted {
  import opened Bytes
  import opened Wrappers
  import opened Hex
  import opened Scanner
  import opened Json
  import opened JsonRoundTrip
  import L = JsonLayout

  // ----- strings -----

  // How each byte is written: behind a backslash, as it is, or with two digits of its code.
  function SpellingOf(c: byte): L.Spelling {
    if c == 34 || c == 92 || c == 47 then L.Escape(c)
    else if c == 8 then L.Escape('b' as byte)
    else if c == 9 then L.Escape('t' as byte)
    else if c == 10 then L.Escape('n' as byte)
    else if c == 12 then L.Escape('f' as byte)
    else if c == 13 then L.Escape('r' as byte)
    else if 32 <= c <= 126 then L.Itself(c)
    else L.Code('0' as byte, '0' as byte, "0123456789abcdef"[c / 16] as byte, "0123456789abcdef"[c % 16] as byte)
  }

  function SpellingsOf(s: seq<byte>): seq<L.Spelling> {
    if s == [] then [] else [SpellingOf(s[0])] + SpellingsOf(s[1..])
  }

  lemma SpellingLaid(c: byte)
    ensures SpellingOf(c).Valid() && SpellingOf(c).Text() == EscapedByte(c) && SpellingOf(c).Meaning() == c
  {
    DigitIs(c / 16);
    DigitIs(c % 16);
  }

  lemma DigitIs(v: int)
    requires 0 <= v < 16
    ensures var d := "0123456789abcdef"[v] as int; HexDigit(v) == d && IsHexDigit(d) && L.DigitValue(d) == v
  {
  }

  lemma {:induction false} SpellingsLaid(s: seq<byte>)
    ensures L.ValidSpelling(SpellingsOf(s)) && L.SpellingText(SpellingsOf(s)) == Escaped(s)
    ensures L.SpellingMeaning(SpellingsOf(s)) == s
  {
    hide SpellingOf, EscapedByte, L.Spelling.Valid, L.Spelling.Text, L.Spelling.Meaning;
    if s != [] {
      SpellingLaid(s[0]);
      SpellingsLaid(s[1..]);
      assert [s[0]] + s[1..] == s;
      assert SpellingsOf(s)[0] == SpellingOf(s[0]) && SpellingsOf(s)[1..] == SpellingsOf(s[1..]);
    }
  }

  // ----- elements -----

  // Values stand in a column behind names of less than twenty characters.
  function Padding(name: seq<byte>): seq<byte> { Spaces(if |name| < 20 then 20 - |name| else 0) }

  // An element, behind its indentation.
  function ItemOf(e: Elem, indent: nat): L.Item
    decreases e, 2
  {
    if e.name != [] then L.Named([], e.name, [], [SPACE] + Padding(e.name), ShapeOf(e.value, indent))
    else if e.value.String? then L.Text([], e.value.str)
    else L.Bare(ShapeOf(e.value, indent))
  }

  function ShapeOf(v: Value, indent: nat): L.Shape
    decreases v, 1
  {
    match v
    case Null => L.Nil
    case Bool(b) => if b then L.True else L.False
    case String(s) => L.Quoted(SpellingsOf(s))
    case Array(items) => L.List([SPACE] + FrontOf(items, indent), InsideOf(items, indent), [])
    case Object(members) => L.Map([SPACE] + FrontOf(members, indent), InsideOf(members, indent), [])
  }

  // Elements stand on a line each, three characters further to the right, when the first of them has a name.
  predicate OnLines(es: seq<Elem>) { es != [] && es[0].name != [] }

  function Inner(es: seq<Elem>, indent: nat): nat { if OnLines(es) && indent < 100 then indent + 3 else indent }

  function LeadOf(e: Elem, indent: nat): seq<byte> { if e.name == [] then [] else Spaces(indent) }

  function FrontOf(es: seq<Elem>, indent: nat): seq<byte> {
    if es == [] then [] else (if OnLines(es) then [LF] else []) + LeadOf(es[0], Inner(es, indent))
  }

  function InsideOf(es: seq<Elem>, indent: nat): seq<L.Part>
    decreases es, 4
  {
    PartsOf(es, Inner(es, indent), OnLines(es), indent, true)
  }

  // A comma and a blank or a line break before each element but the first; a line break behind the last.
  function PartsOf(es: seq<Elem>, inner: nat, lines: bool, indent: nat, first: bool): seq<L.Part>
    decreases es, 3
  {
    if es == [] then []
    else
      var commas: seq<seq<byte>> := if first then [] else [[if lines then LF else SPACE] + LeadOf(es[0], inner)];
      [L.Part(commas, ItemOf(es[0], inner), if es[1..] == [] then LastOf(lines, indent) else [])]
      + PartsOf(es[1..], inner, lines, indent, false)
  }

  function LastOf(lines: bool, indent: nat): seq<byte> { if lines then [LF] + Spaces(indent) else [] }

  // ----- what is written -----

  lemma BlanksLaid(n: nat)
    ensures L.Blank([]) && L.Blank(Spaces(n)) && L.Blank([SPACE] + Spaces(n)) && L.Blank([LF] + Spaces(n)) && L.Blank([SPACE])
    ensures L.Blank([LF])
  {
  }

  lemma TokenLaid(s: seq<byte>)
    requires ValidText(s)
    ensures L.Token(s) && Escaped(s) == s
  {
    PlainEscaped(s);
    ValidHead(s);
  }

  lemma NamedText(name: seq<byte>, value: seq<byte>)
    requires ValidText(name)
    ensures L.NameText([], name) + ([] + ([':' as byte] + (([SPACE] + Padding(name)) + value))) == NameText(name) + value
  {
    TokenLaid(name);
    var q := [QUOTE] + name + [QUOTE];
    assert L.NameText([], name) == q;
    var padding := if |name| < NAME_MIN_LEN then Spaces(NAME_MIN_LEN - |name|) else [];
    assert Padding(name) == padding;
    assert q + ([] + ([COLON] + (([SPACE] + padding) + value))) == (q + [COLON, SPACE] + padding) + value;
  }

  lemma {:induction false} ItemLaid(e: Elem, indent: nat, inObject: bool)
    requires ValidElem(e, inObject)
    ensures L.ValidItem(ItemOf(e, indent)) && L.ItemMeaning(ItemOf(e, indent)) == e
    ensures L.ItemText(ItemOf(e, indent)) == BodyText(e, indent, inObject)
    decreases e, 2
  {
    hide ShapeOf, ValueText, ValidValue, NameText, L.NameText, L.ValidShape, L.ShapeText, L.ShapeMeaning, ValidText, L.Token, Padding;
    BlanksLaid(0);
    if e.name != [] {
      ShapeLaid(e.value, indent);
      NamedText(e.name, ValueText(e.value, indent));
      TokenLaid(e.name);
      PaddingBlank(e.name);
    } else if e.value.String? {
      TokenLaid(e.value.str);
      TextText(e.value.str, indent);
    } else {
      ShapeLaid(e.value, indent);
      NotQuoted(e.value, indent);
    }
  }

  lemma PaddingBlank(name: seq<byte>)
    ensures L.Blank([SPACE] + Padding(name))
  {
    BlanksLaid(if |name| < 20 then 20 - |name| else 0);
  }

  lemma TextText(s: seq<byte>, indent: nat)
    requires ValidText(s)
    ensures L.NameText([], s) == [] + ValueText(String(s), indent) && s != []
  {
    TokenLaid(s);
    assert L.NameText([], s) == [QUOTE] + s + [QUOTE];
  }

  lemma NotQuoted(v: Value, indent: nat)
    requires !v.String?
    ensures !ShapeOf(v, indent).Quoted? && [] + ValueText(v, indent) == ValueText(v, indent)
  {
  }

  lemma {:induction false} ShapeLaid(v: Value, indent: nat)
    requires ValidValue(v)
    ensures L.ValidShape(ShapeOf(v, indent)) && L.ShapeMeaning(ShapeOf(v, indent)) == v
    ensures L.ShapeText(ShapeOf(v, indent)) == ValueText(v, indent)
    decreases v, 1
  {
    hide InsideOf, FrontOf, InsideText, ValidElem, L.PartsText, L.ValidPart, L.PartMeanings, Escaped, SpellingsOf, L.SpellingText,
         L.SpellingMeaning, L.ValidSpelling, L.Blank;
    match v
    case Null => WordsLaid();
    case Bool(_) => WordsLaid();
    case String(s) =>
      SpellingsLaid(s);
      assert [QUOTE] + (Escaped(s) + [QUOTE]) == QuotedText(s);
    case Array(items) =>
      InsideLaid(items, indent, false);
      Bracketed(OPEN_ARRAY, FrontOf(items, indent), L.PartsText(InsideOf(items, indent)), CLOSE_ARRAY);
    case Object(members) =>
      InsideLaid(members, indent, true);
      Bracketed(OPEN_OBJECT, FrontOf(members, indent), L.PartsText(InsideOf(members, indent)), CLOSE_OBJECT);
  }

  lemma WordsLaid()
    ensures L.ShapeText(L.Nil) == Ascii("null") && L.ShapeText(L.True) == Ascii("true") && L.ShapeText(L.False) == Ascii("false")
  {
  }

  lemma Bracketed(open: byte, front: seq<byte>, inside: seq<byte>, close: byte)
    ensures [open] + (([SPACE] + front) + (inside + ([] + [close]))) == [open, SPACE] + (front + inside) + [close]
    ensures L.CommasText([]) == []
  {
    assert [open] + ([SPACE] + front) == [open, SPACE] + front;
  }

  lemma {:induction false} InsideLaid(es: seq<Elem>, indent: nat, inObject: bool)
    requires ValidElems(es, inObject)
    ensures var parts := InsideOf(es, indent);
            && (forall x :: x in parts ==> L.ValidPart(x)) && L.PartMeanings(parts) == es && L.Blank([SPACE] + FrontOf(es, indent))
            && FrontOf(es, indent) + L.PartsText(parts) == InsideText(es, indent, !inObject)
    decreases es, 4
  {
    hide ElemText, ItemOf, L.Blank, PartsOf, L.PartsText, LinesText, ListText, InsideText, RowText, FrontOf, Inner, LeadOf;
    PartsLaid(es, Inner(es, indent), inObject, OnLines(es), indent, true);
    FrontBlank(es, indent);
    if es == [] {
      NoParts(Inner(es, indent), OnLines(es), indent);
      NothingInside(indent, inObject);
    } else {
      InsideIs(es, indent, inObject);
      Fronted(LeadOf(es[0], Inner(es, indent)), L.PartsText(InsideOf(es, indent)),
              RowText(es, Inner(es, indent), inObject, OnLines(es)), Spaces(indent), OnLines(es));
    }
  }

  lemma Fronted(x: seq<byte>, y: seq<byte>, row: seq<byte>, tail: seq<byte>, lines: bool)
    requires x + y == [] + (row + if lines then tail else [])
    ensures ((if lines then [LF] else []) + x) + y == if lines then [LF] + (row + tail) else row
  {
    if lines {
      assert ([LF] + x) + y == [LF] + (x + y);
      assert [] + (row + tail) == row + tail;
    } else {
      assert ([] + x) + y == x + y && [] + (row + []) == row;
    }
  }

  lemma NothingInside(indent: nat, inObject: bool)
    ensures InsideText([], indent, !inObject) == [] && FrontOf([], indent) == []
  {
  }

  lemma InsideIs(es: seq<Elem>, indent: nat, inObject: bool)
    requires es != []
    ensures var row := RowText(es, Inner(es, indent), inObject, OnLines(es));
            InsideText(es, indent, !inObject) == if OnLines(es) then [LF] + (row + Spaces(indent)) else row
    ensures FrontOf(es, indent) == (if OnLines(es) then [LF] else []) + LeadOf(es[0], Inner(es, indent))
  {
    hide LinesText, ListText;
    var row := RowText(es, Inner(es, indent), inObject, OnLines(es));
    if OnLines(es) { assert [LF] + row + Spaces(indent) == [LF] + (row + Spaces(indent)); }
  }

  lemma NoParts(inner: nat, lines: bool, indent: nat)
    ensures PartsOf([], inner, lines, indent, true) == [] && L.PartsText([]) == []
  {
  }

  lemma FrontBlank(es: seq<Elem>, indent: nat)
    ensures L.Blank([SPACE] + FrontOf(es, indent))
  {
  }

  lemma {:induction false} PartsLaid(es: seq<Elem>, inner: nat, inObject: bool, lines: bool, indent: nat, first: bool)
    requires ValidElems(es, inObject)
    ensures var parts := PartsOf(es, inner, lines, indent, first);
            && (forall x :: x in parts ==> L.ValidPart(x)) && L.PartMeanings(parts) == es
            && (es != [] ==>
                  (if first then LeadOf(es[0], inner) else []) + L.PartsText(parts)
                  == (if first then [] else [COMMA, if lines then LF else SPACE])
                     + (RowText(es, inner, inObject, lines) + if lines then Spaces(indent) else []))
    decreases es, 3
  {
    hide RowText, BodyText, ValidElem, ItemOf, L.ValidItem, L.ItemText, L.ItemMeaning, L.PartsText, L.PartMeanings, L.Blank, LastOf;
    if es == [] {
      NoMeanings();
    } else {
      var e, rest := es[0], PartsOf(es[1..], inner, lines, indent, false);
      var commas: seq<seq<byte>> := if first then [] else [[if lines then LF else SPACE] + LeadOf(e, inner)];
      var x := L.Part(commas, ItemOf(e, inner), if es[1..] == [] then LastOf(lines, indent) else []);
      ElemsValid(es, inObject);
      ItemLaid(e, inner, inObject);
      PartsLaid(es[1..], inner, inObject, lines, indent, false);
      PartBlank(e, inner, lines, indent);
      FirstPart(x, rest);
      assert PartsOf(es, inner, lines, indent, first) == [x] + rest;
      assert [e] + es[1..] == es;
      RowSplit(es, inner, inObject, lines);
      PartText(es, inner, inObject, lines, indent, first, x, rest);
    }
  }

  lemma NoMeanings()
    ensures L.PartMeanings([]) == []
  {
  }

  lemma PartBlank(e: Elem, inner: nat, lines: bool, indent: nat)
    ensures L.Blank([if lines then LF else SPACE] + LeadOf(e, inner)) && L.Blank(LastOf(lines, indent)) && L.Blank([])
  {
  }

  lemma FirstPart(x: L.Part, rest: seq<L.Part>)
    requires L.ValidPart(x) && forall y :: y in rest ==> L.ValidPart(y)
    ensures (forall y :: y in [x] + rest ==> L.ValidPart(y)) && L.PartMeanings([x] + rest) == [L.ItemMeaning(x.item)] + L.PartMeanings(rest)
    ensures L.PartsText([x] + rest) == L.CommasText(x.commas) + (L.ItemText(x.item) + (x.gap + L.PartsText(rest)))
  {
    hide L.ValidItem, L.ItemText, L.ItemMeaning, L.CommasText;
    assert ([x] + rest)[1..] == rest;
  }

  lemma PartText(es: seq<Elem>, inner: nat, inObject: bool, lines: bool, indent: nat, first: bool, x: L.Part, rest: seq<L.Part>)
    requires es != [] && (first ==> x.commas == []) && (!first ==> x.commas == [[if lines then LF else SPACE] + LeadOf(es[0], inner)])
    requires L.ItemText(x.item) == BodyText(es[0], inner, inObject) && x.gap == if es[1..] == [] then LastOf(lines, indent) else []
    requires es[1..] == [] ==> rest == []
    requires es[1..] != [] ==> L.PartsText(rest) == [COMMA, if lines then LF else SPACE]
                                                    + (RowText(es[1..], inner, inObject, lines) + if lines then Spaces(indent) else [])
    requires L.PartsText([x] + rest) == L.CommasText(x.commas) + (L.ItemText(x.item) + (x.gap + L.PartsText(rest)))
    ensures (if first then LeadOf(es[0], inner) else []) + L.PartsText([x] + rest)
            == (if first then [] else [COMMA, if lines then LF else SPACE])
               + (RowText(es, inner, inObject, lines) + if lines then Spaces(indent) else [])
  {
    hide RowText, BodyText, L.PartsText, L.ItemText, LastOf, Separator, L.CommasText;
    var sep: byte := if lines then LF else SPACE;
    var lead, body, tail := LeadOf(es[0], inner), BodyText(es[0], inner, inObject), if lines then Spaces(indent) else [];
    var z := Separator(|es| > 1, lines) + RowText(es[1..], inner, inObject, lines);
    RowSplit(es, inner, inObject, lines);
    NothingAfter();
    RestText(es, inner, inObject, lines, indent, x.gap, L.PartsText(rest));
    OneComma(sep, lead);
    Moved(lead, body, z, tail, [COMMA, sep]);
  }

  lemma Moved(a: seq<byte>, b: seq<byte>, z: seq<byte>, tail: seq<byte>, comma: seq<byte>)
    ensures a + ([] + (b + (z + tail))) == [] + ((a + (b + z)) + tail)
    ensures [] + ((comma + a) + (b + (z + tail))) == comma + ((a + (b + z)) + tail)
  {
    assert a + (b + (z + tail)) == (a + (b + z)) + tail;
    assert (comma + a) + (b + (z + tail)) == comma + (a + (b + (z + tail)));
  }

  lemma RestText(es: seq<Elem>, inner: nat, inObject: bool, lines: bool, indent: nat, gap: seq<byte>, rest: seq<byte>)
    requires es != [] && gap == (if es[1..] == [] then LastOf(lines, indent) else [])
    requires es[1..] == [] ==> rest == []
    requires es[1..] != [] ==> rest == [COMMA, if lines then LF else SPACE]
                                       + (RowText(es[1..], inner, inObject, lines) + if lines then Spaces(indent) else [])
    ensures gap + rest == (Separator(|es| > 1, lines) + RowText(es[1..], inner, inObject, lines)) + if lines then Spaces(indent) else []
  {
    hide RowText;
    if es[1..] == [] {
      RowNothing(inner, inObject, lines);
      LastIs(lines, indent);
      assert gap + [] == gap;
    } else {
      var c, tail := RowText(es[1..], inner, inObject, lines), if lines then Spaces(indent) else [];
      var comma := [COMMA, if lines then LF else SPACE];
      assert [] + (comma + (c + tail)) == (comma + c) + tail;
    }
  }

  lemma NothingAfter()
    ensures L.PartsText([]) == []
  {
  }

  lemma LastIs(lines: bool, indent: nat)
    ensures LastOf(lines, indent) == (Separator(false, lines) + []) + if lines then Spaces(indent) else []
  {
  }

  lemma OneComma(sep: byte, lead: seq<byte>)
    ensures L.CommasText([]) == [] && L.CommasText([[sep] + lead]) == [COMMA, sep] + lead
  {
    assert [[sep] + lead][1..] == [];
    assert [COMMA] + (([sep] + lead) + []) == [COMMA, sep] + lead;
  }

  // A written tree is one of its layouts, with the places of names, values and brackets given by ItemOf; that it is read
  // back is an instance of how layouts are read.
  lemma WrittenIsLaidOut(e: Elem)
    requires ValidRoot(e)
    ensures var x := ItemOf(e, 0);
            && L.ValidItem(x) && L.ItemMeaning(x) == e && L.ItemText(x) == Written(e) && Parse(L.ItemText(x)) == Some(e)
  {
    hide ItemOf, BodyText, ElemText, L.ValidItem, L.ItemMeaning, L.ItemText, Parse, ValidElem, L.EndsShort;
    WrittenRoot(e);
    ItemLaid(e, 0, true);
    BlanksLaid(0);
    RootIsLong(e);
    var text := L.ItemText(ItemOf(e, 0));
    assert [] + text + [] + [] == text;
    L.LaidOutRead([], ItemOf(e, 0), [], []);
  }

  lemma RootIsLong(e: Elem)
    requires e.value.Array? || e.value.Object?
    ensures !L.EndsShort(ItemOf(e, 0))
  {
    hide InsideOf, FrontOf;
  }
}
