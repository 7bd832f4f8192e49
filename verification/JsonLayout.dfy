/** JSON texts that are laid out in any way (section 2 of RFC 4627), and what the parser makes of them (json.c). */
module JsonLayout {
  import opened Bytes
  import opened Wrappers
  import opened Buffers
  import opened Hex
  import opened Scanner
  import opened Json

  predicate Blank(s: seq<byte>) { forall c :: c in s ==> c == 32 || c == 9 || c == 13 || c == 10 }

  lemma GapSkipped(text: seq<byte>, p: nat, gap: seq<byte>)
    requires Holds(text, p, gap) && Blank(gap)
    ensures p + |gap| <= |text| && Skip(text, p) == Skip(text, p + |gap|)
  {
    SkipBlanks(text, p, gap);
  }

  // ----- the characters of a string -----

  function DigitValue(d: byte): int {
    if '0' as int <= d <= '9' as int then d - '0' as int
    else if 'a' as int <= d <= 'f' as int then d - 'a' as int + 10
    else if 'A' as int <= d <= 'F' as int then d - 'A' as int + 10
    else 0
  }

  // A character as it is, behind a backslash, or with its code (section 2.5 of RFC 4627).
  datatype Spelling = Itself(c: byte) | Escape(letter: byte) | Code(a: byte, b: byte, high: byte, low: byte) {
    predicate Valid() {
      match this
      case Itself(c) => c != '"' as int && c != '\\' as int && c != 10
      case Escape(letter) =>
        || letter == '"' as int || letter == '\\' as int || letter == '/' as int || letter == 'b' as int
        || letter == 'f' as int || letter == 'n' as int || letter == 'r' as int || letter == 't' as int
      case Code(a, b, high, low) => IsHexDigit(a) && IsHexDigit(b) && IsHexDigit(high) && IsHexDigit(low)
    }

    function Text(): (s: seq<byte>)
      ensures 0 < |s| <= 6
    {
      match this
      case Itself(c) => [c]
      case Escape(letter) => ['\\' as byte, letter]
      case Code(a, b, high, low) => ['\\' as byte, 'u' as byte, a, b, high, low]
    }

    // Of a code, only the last two digits count.
    function Meaning(): int
    {
      match this
      case Itself(c) => c
      case Escape(letter) =>
        if letter == 'b' as int then 8
        else if letter == 'f' as int then 12
        else if letter == 'n' as int then 10
        else if letter == 'r' as int then 13
        else if letter == 't' as int then 9
        else letter
      case Code(_, _, high, low) => 16 * DigitValue(high) + DigitValue(low)
    }
  }

  predicate ValidSpelling(s: seq<Spelling>) { forall x :: x in s ==> x.Valid() }

  function SpellingText(s: seq<Spelling>): seq<byte> {
    if s == [] then [] else s[0].Text() + SpellingText(s[1..])
  }

  lemma MeaningIsByte(x: Spelling)
    requires x.Valid()
    ensures 0 <= x.Meaning() < 256
  {
  }

  function SpellingMeaning(s: seq<Spelling>): (r: seq<byte>)
    requires ValidSpelling(s)
  {
    if s == [] then []
    else
      assert s[0] in s;
      MeaningIsByte(s[0]);
      [s[0].Meaning()] + SpellingMeaning(s[1..])
  }

  lemma DigitIsValue(d: byte)
    requires IsHexDigit(d)
    ensures HexValue(d) == DigitValue(d) && d != '"' as int && d != '\\' as int && d != 10
  {
  }

  lemma UnitIsRead(x: Spelling, rest: seq<byte>)
    requires x.Valid()
    ensures var s := x.Text() + rest;
            && 0 <= x.Meaning() < 256 && s != [] && FirstUnit(s) == Some(Unit(|x.Text()|, x.Meaning())) && s[|x.Text()|..] == rest
  {
    var s := x.Text() + rest;
    match x
    case Itself(c) => assert s[0] == c;
    case Escape(letter) => assert s[0] == '\\' as int && s[1] == letter;
    case Code(a, b, high, low) =>
      DigitIsValue(high);
      DigitIsValue(low);
      assert s[0] == '\\' as int && s[1] == 'u' as int && s[4] == high && s[5] == low;
  }

  lemma {:induction false} SpellingIsUnescaped(s: seq<Spelling>)
    requires ValidSpelling(s)
    ensures Unescaped(SpellingText(s)) == Some(SpellingMeaning(s))
  {
    hide FirstUnit, Spelling.Text, Spelling.Meaning;
    if s != [] {
      assert s[0] in s;
      UnitIsRead(s[0], SpellingText(s[1..]));
      SpellingIsUnescaped(s[1..]);
    }
  }

  // A backslash before another letter, or at the end, or a code that is cut short.
  predicate BadEscape(s: seq<byte>) {
    && s != [] && s[0] == '\\' as int
    && (|s| == 1 || if s[1] == 'u' as int then |s| < 6 else !Escape(s[1]).Valid())
  }

  // Such a string is refused, whatever stands before.
  lemma {:induction false} EscapeRefused(before: seq<Spelling>, s: seq<byte>)
    requires ValidSpelling(before) && BadEscape(s)
    ensures Unescaped(SpellingText(before) + s) == None
  {
    if before == [] {
      assert [] + s == s;
    } else {
      hide FirstUnit, Spelling.Text, Spelling.Meaning, BadEscape;
      var first, rest := before[0].Text(), SpellingText(before[1..]);
      assert before[0] in before;
      assert (first + rest) + s == first + (rest + s);
      UnitIsRead(before[0], rest + s);
      EscapeRefused(before[1..], s);
    }
  }

  lemma PlainCloses(text: seq<byte>, p: nat)
    requires p < |text| && text[p] != '"' as int && text[p] != '\\' as int && text[p] != 10
    ensures CloseQuote(text, p, QUOTE, false) == CloseQuote(text, p + 1, QUOTE, false)
  {
  }

  lemma EscapeCloses(text: seq<byte>, p: nat)
    requires p + 1 < |text| && text[p] == '\\' as int && text[p + 1] != 10
    ensures CloseQuote(text, p, QUOTE, false) == CloseQuote(text, p + 2, QUOTE, false)
  {
  }

  lemma UnitCloses(text: seq<byte>, p: nat, x: Spelling)
    requires x.Valid() && Holds(text, p, x.Text())
    ensures p + |x.Text()| <= |text|
    ensures CloseQuote(text, p, QUOTE, false) == CloseQuote(text, p + |x.Text()|, QUOTE, false)
  {
    hide CloseQuote, Holds;
    var s := x.Text();
    HoldsByte(text, p, s, 0);
    match x
    case Itself(_) => PlainCloses(text, p);
    case Escape(_) =>
      HoldsByte(text, p, s, 1);
      EscapeCloses(text, p);
    case Code(a, b, high, low) =>
      CodeStands(text, p, x);
      DigitIsValue(a);
      DigitIsValue(b);
      DigitIsValue(high);
      DigitIsValue(low);
      EscapeCloses(text, p);
      PlainCloses(text, p + 2);
      PlainCloses(text, p + 3);
      PlainCloses(text, p + 4);
      PlainCloses(text, p + 5);
  }

  lemma CodeStands(text: seq<byte>, p: nat, x: Spelling)
    requires x.Code? && Holds(text, p, x.Text())
    ensures p + 6 <= |text| && text[p] == '\\' as int && text[p + 1] == 'u' as int
    ensures text[p + 2] == x.a && text[p + 3] == x.b && text[p + 4] == x.high && text[p + 5] == x.low
  {
    hide Holds;
    HoldsByte(text, p, x.Text(), 0);
    HoldsByte(text, p, x.Text(), 1);
    HoldsByte(text, p, x.Text(), 2);
    HoldsByte(text, p, x.Text(), 3);
    HoldsByte(text, p, x.Text(), 4);
    HoldsByte(text, p, x.Text(), 5);
  }

  lemma {:induction false} SpellingCloses(text: seq<byte>, p: nat, s: seq<Spelling>)
    requires ValidSpelling(s) && Holds(text, p, SpellingText(s) + ['"' as byte])
    ensures p + |SpellingText(s)| < |text| && CloseQuote(text, p, QUOTE, false) == Some(p + |SpellingText(s)|)
    decreases |s|
  {
    hide Holds, Spelling.Text, Spelling.Valid;
    if s == [] {
      HoldsByte(text, p, SpellingText(s) + ['"' as byte], 0);
    } else {
      hide CloseQuote;
      var first, rest := s[0].Text(), SpellingText(s[1..]);
      assert s[0] in s;
      assert SpellingText(s) + ['"' as byte] == first + (rest + ['"' as byte]);
      HoldsParts(text, p, first, rest + ['"' as byte]);
      UnitCloses(text, p, s[0]);
      SpellingCloses(text, p + |first|, s[1..]);
    }
  }

  // A string in quotes, its characters spelled in any way.
  lemma QuotedIsRead(text: seq<byte>, p: nat, s: seq<Spelling>, q: nat)
    requires ValidSpelling(s) && Holds(text, p, ['"' as byte] + (SpellingText(s) + ['"' as byte]))
    requires q == p + 2 + |SpellingText(s)|
    ensures p < q <= |text| && text[p] == '"' as int && QuotedAt(text, p) == Some(Parsed(String(SpellingMeaning(s)), Skip(text, q)))
  {
    hide Holds, SpellingText, SpellingMeaning, ValidSpelling, Unescaped, CloseQuote, Skip;
    HoldsParts(text, p, ['"' as byte], SpellingText(s) + ['"' as byte]);
    HoldsByte(text, p, ['"' as byte], 0);
    SpellingCloses(text, p + 1, s);
    SpellingIsUnescaped(s);
    HoldsParts(text, p + 1, SpellingText(s), ['"' as byte]);
    Held(text, p + 1, SpellingText(s));
  }

  lemma Held(text: seq<byte>, p: nat, s: seq<byte>)
    requires Holds(text, p, s)
    ensures p + |s| <= |text| && text[p..p + |s|] == s
  {
  }

  // ----- layouts -----

  datatype Shape =
    | False
    | True
    | Nil
    | Quoted(spelling: seq<Spelling>)
    | List(start: seq<byte>, parts: seq<Part>, commas: seq<seq<byte>>)
    | Map(start: seq<byte>, parts: seq<Part>, commas: seq<seq<byte>>)

  // A name with its value, a string without a name, or another value without a name.
  datatype Item =
    | Named(before: seq<byte>, name: seq<byte>, after: seq<byte>, colon: seq<byte>, value: Shape)
    | Text(before: seq<byte>, text: seq<byte>)
    | Bare(value: Shape)

  // A child, with the commas before it and the blanks behind.
  datatype Part = Part(commas: seq<seq<byte>>, item: Item, gap: seq<byte>)

  // Names and strings without one are taken as they stand, up to the next quote, without the blanks they begin with.
  predicate Token(s: seq<byte>) { '"' as byte !in s && (s != [] ==> !IsBlank(s[0])) }

  predicate ValidCommas(commas: seq<seq<byte>>) { forall g :: g in commas ==> Blank(g) }

  predicate ValidShape(v: Shape)
    decreases v
  {
    match v
    case Quoted(spelling) => ValidSpelling(spelling)
    case List(start, parts, commas) => Blank(start) && ValidCommas(commas) && forall p :: p in parts ==> ValidPart(p)
    case Map(start, parts, commas) => Blank(start) && ValidCommas(commas) && forall p :: p in parts ==> ValidPart(p)
    case _ => true
  }

  predicate ValidItem(x: Item)
    decreases x
  {
    match x
    case Named(before, name, after, colon, value) =>
      Blank(before) && Token(name) && Blank(after) && Blank(colon) && ValidShape(value)
    case Text(before, text) => Blank(before) && Token(text) && text != []
    case Bare(value) => ValidShape(value) && !value.Quoted?
  }

  predicate ValidPart(p: Part)
    decreases p
  {
    ValidCommas(p.commas) && ValidItem(p.item) && Blank(p.gap)
  }

  function CommasText(commas: seq<seq<byte>>): seq<byte> {
    if commas == [] then [] else [',' as byte] + (commas[0] + CommasText(commas[1..]))
  }

  function ShapeText(v: Shape): (s: seq<byte>)
    ensures s != []
    decreases v, 1
  {
    match v
    case False => ['f' as byte, 'a' as byte, 'l' as byte, 's' as byte, 'e' as byte]
    case True => ['t' as byte, 'r' as byte, 'u' as byte, 'e' as byte]
    case Nil => ['n' as byte, 'u' as byte, 'l' as byte, 'l' as byte]
    case Quoted(spelling) => ['"' as byte] + (SpellingText(spelling) + ['"' as byte])
    case List(start, parts, commas) => ['[' as byte] + (start + (PartsText(parts) + (CommasText(commas) + [']' as byte])))
    case Map(start, parts, commas) => ['{' as byte] + (start + (PartsText(parts) + (CommasText(commas) + ['}' as byte])))
  }

  function NameText(before: seq<byte>, name: seq<byte>): seq<byte> { ['"' as byte] + (before + (name + ['"' as byte])) }

  function ItemText(x: Item): (s: seq<byte>)
    ensures s != []
    decreases x, 2
  {
    match x
    case Named(before, name, after, colon, value) =>
      NameText(before, name) + (after + ([':' as byte] + (colon + ShapeText(value))))
    case Text(before, text) => NameText(before, text)
    case Bare(value) => ShapeText(value)
  }

  function PartsText(parts: seq<Part>): seq<byte>
    decreases parts, 3
  {
    if parts == [] then []
    else CommasText(parts[0].commas) + (ItemText(parts[0].item) + (parts[0].gap + PartsText(parts[1..])))
  }

  function ShapeMeaning(v: Shape): Value
    requires ValidShape(v)
    decreases v
  {
    match v
    case False => Bool(false)
    case True => Bool(true)
    case Nil => Null
    case Quoted(spelling) => String(SpellingMeaning(spelling))
    case List(_, parts, _) => Array(PartMeanings(parts))
    case Map(_, parts, _) => Object(PartMeanings(parts))
  }

  function ItemMeaning(x: Item): Elem
    requires ValidItem(x)
    decreases x
  {
    match x
    case Named(_, name, _, _, value) => Elem(name, ShapeMeaning(value))
    case Text(_, text) => Elem([], String(text))
    case Bare(value) => Elem([], ShapeMeaning(value))
  }

  function PartMeanings(parts: seq<Part>): seq<Elem>
    requires forall p :: p in parts ==> ValidPart(p)
    decreases parts
  {
    if parts == [] then []
    else
      assert ValidPart(parts[0]) by { assert parts[0] in parts; }
      [ItemMeaning(parts[0].item)] + PartMeanings(parts[1..])
  }

  // The value that stands last is a word of four letters: the parser wants a further character behind it.
  predicate EndsShort(x: Item) { !x.Text? && (x.value.True? || x.value.Nil?) }

  // ----- what is read -----

  lemma {:induction false} CommasRead(text: seq<byte>, p: nat, commas: seq<seq<byte>>, q: nat)
    requires ValidCommas(commas) && Holds(text, p, CommasText(commas)) && q == p + |CommasText(commas)|
    requires q < |text| && !IsBlank(text[q]) && text[q] != COMMA
    ensures p < |text| && !IsBlank(text[p]) && SkipCommas(text, p) == q
    decreases |commas|
  {
    hide Holds, Skip, Blank;
    if commas != [] {
      var rest := CommasText(commas[1..]);
      assert commas[0] in commas;
      HoldsParts(text, p, [',' as byte], commas[0] + rest);
      HoldsByte(text, p, [',' as byte], 0);
      HoldsParts(text, p + 1, commas[0], rest);
      GapSkipped(text, p + 1, commas[0]);
      CommasRead(text, p + 1 + |commas[0]|, commas[1..], q);
      SkipNothing(text, p + 1 + |commas[0]|);
    }
  }

  // A name, or a string without one, between its quotes.
  lemma TokenStands(text: seq<byte>, p: nat, before: seq<byte>, name: seq<byte>, b: nat)
    requires Blank(before) && Token(name) && Holds(text, p, NameText(before, name)) && b == p + 1 + |before| + |name|
    ensures p < b < |text| && text[p] == QUOTE && text[b] == QUOTE
    ensures var a := Skip(text, p + 1); a <= b && Until(text, a, {QUOTE}) == b && text[a..b] == name
    ensures Skip(text, b) == b
  {
    hide Holds, Skip, Until;
    var a := p + 1 + |before|;
    HoldsParts(text, p, ['"' as byte], before + (name + ['"' as byte]));
    HoldsByte(text, p, ['"' as byte], 0);
    HoldsParts(text, p + 1, before, name + ['"' as byte]);
    HoldsParts(text, a, name, ['"' as byte]);
    HoldsByte(text, b, ['"' as byte], 0);
    GapSkipped(text, p + 1, before);
    if name != [] { HoldsByte(text, a, name, 0); }
    SkipNothing(text, a);
    SkipNothing(text, b);
    UntilReads(text, a, name, {QUOTE});
    Held(text, a, name);
  }

  lemma NamedStands(text: seq<byte>, p: nat, x: Item, b: nat, c: nat, v: nat)
    requires x.Named? && Holds(text, p, ItemText(x))
    requires b == p + 1 + |x.before| + |x.name| && c == b + 1 + |x.after| && v == c + 1 + |x.colon|
    ensures Holds(text, p, NameText(x.before, x.name)) && Holds(text, b + 1, x.after) && Holds(text, c + 1, x.colon)
    ensures c < |text| && text[c] == COLON && Holds(text, v, ShapeText(x.value)) && v + |ShapeText(x.value)| == p + |ItemText(x)|
  {
    hide Holds, ShapeText, NameText;
    NameSize(x.before, x.name);
    HoldsParts(text, p, NameText(x.before, x.name), x.after + ([':' as byte] + (x.colon + ShapeText(x.value))));
    HoldsParts(text, b + 1, x.after, [':' as byte] + (x.colon + ShapeText(x.value)));
    HoldsParts(text, c, [':' as byte], x.colon + ShapeText(x.value));
    HoldsByte(text, c, [':' as byte], 0);
    HoldsParts(text, c + 1, x.colon, ShapeText(x.value));
  }

  lemma NamedStart(text: seq<byte>, p: nat, x: Item, b: nat, c: nat, v: nat)
    requires x.Named? && ValidItem(x) && Holds(text, p, ItemText(x))
    requires b == p + 1 + |x.before| + |x.name| && c == b + 1 + |x.after| && v == c + 1 + |x.colon|
    requires v < |text| && !IsBlank(text[v])
    ensures StartAt(text, p) == Some(Start(x.name, [], v))
  {
    hide Holds, Skip, Until, ShapeText, ItemText, ValidShape, NameText, Blank, Token;
    NamedStands(text, p, x, b, c, v);
    TokenStands(text, p, x.before, x.name, b);
    GapSkipped(text, b + 1, x.after);
    GapSkipped(text, c + 1, x.colon);
    SkipNothing(text, c);
    SkipNothing(text, v);
  }

  lemma NameSize(before: seq<byte>, name: seq<byte>)
    ensures |NameText(before, name)| == |before| + |name| + 2
  {
  }

  // A string without a name, when no colon follows.
  lemma TextStart(text: seq<byte>, p: nat, x: Item, q: nat)
    requires x.Text? && ValidItem(x) && Holds(text, p, ItemText(x)) && q == p + |ItemText(x)|
    requires q <= |text| && At(text, Skip(text, q)) != COLON
    ensures StartAt(text, p) == Some(Start([], x.text, Skip(text, q)))
  {
    hide Holds, Skip, Until, NameText, Blank, Token;
    NameSize(x.before, x.text);
    TokenStands(text, p, x.before, x.text, q - 1);
  }

  lemma BareStart(text: seq<byte>, p: nat)
    requires p < |text| && text[p] != QUOTE
    ensures StartAt(text, p) == Some(Start([], [], p))
  {
  }

  lemma WordRead(text: seq<byte>, p: nat, v: Shape, q: nat)
    requires (v.False? || v.True? || v.Nil?) && Holds(text, p, ShapeText(v)) && q == p + |ShapeText(v)|
    ensures p < q <= |text|
    ensures ValueAt(text, p) == if q < |text| || v.False? then Some(Parsed(ShapeMeaning(v), Skip(text, q))) else None
  {
    hide Skip;
    Held(text, p, ShapeText(v));
    HoldsByte(text, p, ShapeText(v), 0);
    WordsAre();
    FirstLetter(text, p, Ascii("false"));
    FirstLetter(text, p, Ascii("true"));
  }

  lemma WordsAre()
    ensures Ascii("false") == ShapeText(False) && Ascii("true") == ShapeText(True) && Ascii("null") == ShapeText(Nil)
  {
  }

  lemma FirstLetter(text: seq<byte>, p: nat, word: seq<byte>)
    requires word != [] && p < |text|
    ensures WordAt(text, p, word) ==> text[p] == word[0]
  {
    if WordAt(text, p, word) { assert text[p..p + |word|][0] == text[p]; }
  }

  // ----- whole texts -----

  lemma ShapeFirst(text: seq<byte>, p: nat, v: Shape)
    requires Holds(text, p, ShapeText(v))
    ensures p < |text| && text[p] == ShapeText(v)[0] && !IsBlank(text[p]) && text[p] != COLON && text[p] != COMMA
    ensures text[p] != CLOSE_ARRAY && text[p] != CLOSE_OBJECT && (text[p] == QUOTE <==> v.Quoted?)
  {
    hide Holds, PartsText, CommasText, SpellingText;
    HoldsByte(text, p, ShapeText(v), 0);
  }

  lemma ItemFirst(text: seq<byte>, p: nat, x: Item)
    requires Holds(text, p, ItemText(x))
    ensures p < |text| && !IsBlank(text[p]) && text[p] != COLON && text[p] != COMMA
    ensures text[p] != CLOSE_ARRAY && text[p] != CLOSE_OBJECT
  {
    hide Holds, ShapeText;
    if x.Bare? {
      ShapeFirst(text, p, x.value);
    } else {
      HoldsByte(text, p, ItemText(x), 0);
    }
  }

  // An element in any layout, with something behind it when it ends with a word of four letters.
  lemma {:induction false} ItemRead(text: seq<byte>, p: nat, x: Item, q: nat)
    requires ValidItem(x) && Holds(text, p, ItemText(x)) && q == p + |ItemText(x)|
    requires q <= |text| && At(text, Skip(text, q)) != COLON
    ensures p <= |text| && ElemAt(text, p) == if EndsShort(x) && q == |text| then None
                                              else Some(Parsed(ItemMeaning(x), Skip(text, q)))
    decreases x, 1
  {
    hide Holds, Skip, ShapeText, ValueAt, StartAt, NameText;
    match x
    case Named(before, name, after, colon, value) =>
      var b := p + 1 + |before| + |name|;
      var c := b + 1 + |after|;
      var v := c + 1 + |colon|;
      NamedStands(text, p, x, b, c, v);
      ShapeFirst(text, v, value);
      NamedStart(text, p, x, b, c, v);
      ShapeRead(text, v, value, q);
    case Text(_, _) => TextStart(text, p, x, q);
    case Bare(value) =>
      ShapeFirst(text, p, value);
      BareStart(text, p);
      ShapeRead(text, p, value, q);
  }

  lemma {:induction false} ShapeRead(text: seq<byte>, p: nat, v: Shape, q: nat)
    requires ValidShape(v) && Holds(text, p, ShapeText(v)) && q == p + |ShapeText(v)|
    ensures p < q <= |text|
    ensures ValueAt(text, p) == if (v.True? || v.Nil?) && q == |text| then None
                                else Some(Parsed(ShapeMeaning(v), Skip(text, q)))
    decreases v, 0
  {
    match v
    case Quoted(spelling) => QuotedValue(text, p, spelling, q);
    case List(start, parts, commas) =>
      hide Holds, Skip, ItemsAt, PartsText, CommasText, ShapeText, ValidPart, Blank, ValidCommas;
      ListParts(text, p, v, parts, commas, CLOSE_ARRAY, q);
      var a := p + 1 + |start|;
      PartsRead(text, a, parts, commas, CLOSE_ARRAY, q);
      BracketRead(text, p, v, a, q);
    case Map(start, parts, commas) =>
      hide Holds, Skip, ItemsAt, PartsText, CommasText, ShapeText, ValidPart, Blank, ValidCommas;
      ListParts(text, p, v, parts, commas, CLOSE_OBJECT, q);
      var a := p + 1 + |start|;
      PartsRead(text, a, parts, commas, CLOSE_OBJECT, q);
      BracketRead(text, p, v, a, q);
    case _ => WordRead(text, p, v, q);
  }

  lemma QuotedValue(text: seq<byte>, p: nat, spelling: seq<Spelling>, q: nat)
    requires ValidSpelling(spelling) && Holds(text, p, ShapeText(Quoted(spelling))) && q == p + |ShapeText(Quoted(spelling))|
    ensures p < q <= |text| && ValueAt(text, p) == Some(Parsed(String(SpellingMeaning(spelling)), Skip(text, q)))
  {
    hide Holds, SpellingText, SpellingMeaning, QuotedAt, Skip;
    QuotedIsRead(text, p, spelling, q);
  }

  lemma ListParts(text: seq<byte>, p: nat, v: Shape, parts: seq<Part>, commas: seq<seq<byte>>, close: byte, q: nat)
    requires Holds(text, p, ShapeText(v)) && q == p + |ShapeText(v)|
    requires v.List? || v.Map?
    requires v == (if v.List? then List(v.start, parts, commas) else Map(v.start, parts, commas))
    requires close == if v.List? then ']' as byte else '}' as byte
    ensures p < q <= |text| && text[p] == if v.List? then OPEN_ARRAY else OPEN_OBJECT
    ensures Holds(text, p + 1, v.start)
    ensures Holds(text, p + 1 + |v.start|, PartsText(parts) + (CommasText(commas) + [close]))
    ensures q == p + 1 + |v.start| + |PartsText(parts)| + |CommasText(commas)| + 1
  {
    hide Holds, PartsText, CommasText;
    var rest := PartsText(parts) + (CommasText(commas) + [close]);
    var open: byte := if v.List? then '[' as byte else '{' as byte;
    HoldsParts(text, p, [open], v.start + rest);
    HoldsByte(text, p, [open], 0);
    HoldsParts(text, p + 1, v.start, rest);
    Held(text, p + 1 + |v.start|, rest);
  }

  // The brackets, when what stands between them has been read.
  lemma BracketRead(text: seq<byte>, p: nat, v: Shape, a: nat, q: nat)
    requires (v.List? || v.Map?) && ValidShape(v) && p < |text| && q <= |text|
    requires text[p] == (if v.List? then OPEN_ARRAY else OPEN_OBJECT) && Holds(text, p + 1, v.start) && a == p + 1 + |v.start|
    requires a < |text| && !IsBlank(text[a])
    requires ItemsAt(text, a, if v.List? then CLOSE_ARRAY else CLOSE_OBJECT) == Some(Parsed(PartMeanings(v.parts), Skip(text, q)))
    ensures ValueAt(text, p) == Some(Parsed(ShapeMeaning(v), Skip(text, q)))
  {
    hide Holds, Skip, ItemsAt, PartMeanings, ValidPart;
    GapSkipped(text, p + 1, v.start);
    SkipNothing(text, a);
  }

  lemma {:induction false} PartsRead(text: seq<byte>, p: nat, parts: seq<Part>, commas: seq<seq<byte>>, close: byte, q: nat)
    requires (forall x :: x in parts ==> ValidPart(x)) && ValidCommas(commas) && (close == CLOSE_ARRAY || close == CLOSE_OBJECT)
    requires Holds(text, p, PartsText(parts) + (CommasText(commas) + [close]))
    requires q == p + |PartsText(parts)| + |CommasText(commas)| + 1
    ensures p < |text| && q <= |text| && !IsBlank(text[p]) && text[p] != COLON
    ensures ItemsAt(text, p, close) == Some(Parsed(PartMeanings(parts), Skip(text, q)))
    decreases parts, 2
  {
    hide Holds, Skip, SkipCommas, ElemAt, CommasText, ItemText, ItemMeaning, ValidItem, Blank, ValidCommas;
    if parts == [] {
      assert [] + (CommasText(commas) + [close]) == CommasText(commas) + [close];
      CloseRead(text, p, commas, close, q);
    } else {
      var x, rest := parts[0], PartsText(parts[1..]) + (CommasText(commas) + [close]);
      assert x in parts;
      var i := p + |CommasText(x.commas)|;
      var g := i + |ItemText(x.item)|;
      var next := g + |x.gap|;
      PartStands(text, p, parts, commas, close, i, g, next);
      ItemFirst(text, i, x.item);
      CommasRead(text, p, x.commas, i);
      PartsRead(text, next, parts[1..], commas, close, q);
      GapSkipped(text, g, x.gap);
      SkipNothing(text, next);
      ItemRead(text, i, x.item, g);
      CommaFirst(text, p, x.commas, i);
      PartStep(text, p, i, close, ItemMeaning(x.item), next, PartMeanings(parts[1..]), Skip(text, q));
    }
  }

  lemma CommaFirst(text: seq<byte>, p: nat, commas: seq<seq<byte>>, i: nat)
    requires Holds(text, p, CommasText(commas)) && i == p + |CommasText(commas)| && i < |text| && text[i] != COLON
    ensures text[p] != COLON
  {
    if commas != [] { HoldsByte(text, p, CommasText(commas), 0); }
  }

  lemma CloseRead(text: seq<byte>, p: nat, commas: seq<seq<byte>>, close: byte, q: nat)
    requires ValidCommas(commas) && (close == CLOSE_ARRAY || close == CLOSE_OBJECT)
    requires Holds(text, p, CommasText(commas) + [close]) && q == p + |CommasText(commas)| + 1
    ensures p < |text| && q <= |text| && !IsBlank(text[p]) && text[p] != COLON
    ensures ItemsAt(text, p, close) == Some(Parsed([], Skip(text, q)))
  {
    hide Holds, Skip, SkipCommas, CommasText, ValidCommas;
    var i := p + |CommasText(commas)|;
    HoldsParts(text, p, CommasText(commas), [close]);
    HoldsByte(text, i, [close], 0);
    CommasRead(text, p, commas, i);
    CommaFirst(text, p, commas, i);
  }

  lemma PartStands(text: seq<byte>, p: nat, parts: seq<Part>, commas: seq<seq<byte>>, close: byte, i: nat, g: nat, next: nat)
    requires parts != [] && Holds(text, p, PartsText(parts) + (CommasText(commas) + [close]))
    requires i == p + |CommasText(parts[0].commas)| && g == i + |ItemText(parts[0].item)| && next == g + |parts[0].gap|
    ensures Holds(text, p, CommasText(parts[0].commas)) && Holds(text, i, ItemText(parts[0].item))
    ensures Holds(text, g, parts[0].gap) && Holds(text, next, PartsText(parts[1..]) + (CommasText(commas) + [close]))
    ensures next + |PartsText(parts[1..])| == p + |PartsText(parts)|
  {
    hide Holds, CommasText, ItemText;
    var a, b, c := CommasText(parts[0].commas), ItemText(parts[0].item), parts[0].gap;
    var rest, end := PartsText(parts[1..]), CommasText(commas) + [close];
    assert PartsText(parts) == a + (b + (c + rest));
    hide PartsText;
    assert (a + (b + (c + rest))) + end == a + (b + (c + (rest + end)));
    HoldsParts(text, p, a, b + (c + (rest + end)));
    HoldsParts(text, i, b, c + (rest + end));
    HoldsParts(text, g, c, rest + end);
  }

  lemma PartStep(text: seq<byte>, p: nat, i: nat, close: byte, e: Elem, next: nat, rest: seq<Elem>, end: nat)
    requires p <= |text| && SkipCommas(text, p) == i && i < |text| && text[i] != close && (close == CLOSE_ARRAY || close == CLOSE_OBJECT)
    requires ElemAt(text, i) == Some(Parsed(e, next)) && next <= |text| && ItemsAt(text, next, close) == Some(Parsed(rest, end))
    ensures ItemsAt(text, p, close) == Some(Parsed([e] + rest, end))
  {
    hide SkipCommas, ElemAt;
  }

  lemma FourStand(a: seq<byte>, b: seq<byte>, c: seq<byte>, d: seq<byte>)
    ensures var text := a + b + c + d;
            Holds(text, 0, a) && Holds(text, |a|, b) && Holds(text, |a| + |b|, c) && Holds(text, |a| + |b| + |c|, d)
  {
    var text := a + b + c + d;
    assert text[..|a|] == a && text[|a|..|a| + |b|] == b;
    assert text[|a| + |b|..|a| + |b| + |c|] == c && text[|a| + |b| + |c|..] == d;
  }

  // A text of a tree, laid out in any way, is parsed as that tree, whatever stands behind it, unless it ends with a word of
  // four letters and nothing stands behind it: then it is refused.
  lemma LaidOutRead(front: seq<byte>, x: Item, gap: seq<byte>, rest: seq<byte>)
    requires ValidItem(x) && Blank(front) && Blank(gap)
    requires rest != [] ==> !IsBlank(rest[0]) && rest[0] != ':' as int
    ensures Parse(front + ItemText(x) + gap + rest) == if EndsShort(x) && gap + rest == [] then None else Some(ItemMeaning(x))
  {
    hide ElemAt, Skip, ItemText, ItemMeaning, ValidItem, EndsShort, Holds;
    var text := front + ItemText(x) + gap + rest;
    var p, q := |front|, |front| + |ItemText(x)|;
    FourStand(front, ItemText(x), gap, rest);
    ItemFirst(text, p, x);
    GapSkipped(text, 0, front);
    SkipNothing(text, p);
    GapSkipped(text, q, gap);
    if rest != [] { HoldsByte(text, q + |gap|, rest, 0); }
    SkipNothing(text, q + |gap|);
    ItemRead(text, p, x, q);
  }
}
