/** JSON trees (json.c; RFC 4627): what is written and what is parsed.  Numbers are not part of this
    model. */
module Json {
  import opened Bytes
  import opened Wrappers
  import opened Hex
  import opened Scanner

  datatype Value =
    | Null
    | Bool(isTrue: bool)
    | String(str: seq<byte>)
    | Array(items: seq<Elem>)
    | Object(members: seq<Elem>)

  datatype Elem = Elem(name: seq<byte>, value: Value)

  const COMMA: byte := ',' as byte
  const COLON: byte := ':' as byte
  const OPEN_ARRAY: byte := '[' as byte
  const CLOSE_ARRAY: byte := ']' as byte
  const OPEN_OBJECT: byte := '{' as byte
  const CLOSE_OBJECT: byte := '}' as byte
  const MINUS: byte := '-' as byte

  // ----- strings -----

  // The letter of a short escape, or 0.
  function Letter(c: byte): byte {
    if c == QUOTE || c == BACKSLASH || c == SLASH then c
    else if c == 8 then 'b' as byte
    else if c == 12 then 'f' as byte
    else if c == LF then 'n' as byte
    else if c == CR then 'r' as byte
    else if c == TAB then 't' as byte
    else 0
  }

  function LongEscape(c: byte): seq<byte> {
    [BACKSLASH, 'u' as byte, '0' as byte, '0' as byte, HighDigit(c), LowDigit(c)]
  }

  function EscapedByte(c: byte): (s: seq<byte>)
    ensures 0 < |s| <= 6
  {
    if Letter(c) != 0 then [BACKSLASH, Letter(c)]
    else if 32 <= c < 127 then [c]
    else LongEscape(c)
  }

  function Escaped(s: seq<byte>): seq<byte> {
    if s == [] then [] else EscapedByte(s[0]) + Escaped(s[1..])
  }

  // The character of a short escape.
  function Unlettered(l: byte): (c: Option<byte>) {
    if l == QUOTE || l == BACKSLASH || l == SLASH then Some(l)
    else if l == 'b' as byte then Some(8)
    else if l == 'f' as byte then Some(12)
    else if l == 'n' as byte then Some(LF)
    else if l == 'r' as byte then Some(CR)
    else if l == 't' as byte then Some(TAB)
    else None
  }

  // Where the first character of an escaped text ends, and what it is.
  datatype Unit = Unit(size: nat, c: byte)

  function FirstUnit(s: seq<byte>): (u: Option<Unit>)
    requires s != []
    ensures u.Some? ==> 0 < u.value.size <= |s|
  {
    if s[0] != BACKSLASH then Some(Unit(1, s[0]))
    else if |s| < 2 then None
    else if s[1] == 'u' as byte then
      // only the last two hexadecimal digits are used
      if |s| < 6 then None else Some(Unit(6, HexByte(s[4], s[5])))
    else
      match Unlettered(s[1])
      case None => None
      case Some(c) => Some(Unit(2, c))
  }

  function Unescaped(s: seq<byte>): Option<seq<byte>> {
    if s == [] then Some([])
    else
      match FirstUnit(s)
      case None => None
      case Some(u) =>
        match Unescaped(s[u.size..])
        case None => None
        case Some(rest) => Some([u.c] + rest)
  }

  // ----- writing -----

  const MAX_INDENT: nat := 100
  const INDENT_SIZE: nat := 3
  const NAME_MIN_LEN: nat := 20

  function QuotedText(s: seq<byte>): seq<byte> { [QUOTE] + Escaped(s) + [QUOTE] }

  function NameText(name: seq<byte>): seq<byte> {
    QuotedText(name) + [COLON, SPACE] + if |name| < NAME_MIN_LEN then Spaces(NAME_MIN_LEN - |name|) else []
  }

  // What an element has before its value: the indentation, and its name unless it is in an array.
  function HeadText(e: Elem, indent: nat, noName: bool): seq<byte> {
    if e.name == [] then [] else Spaces(indent) + if noName then [] else NameText(e.name)
  }

  function ElemText(e: Elem, indent: nat, noName: bool): seq<byte>
    decreases e, 0
  {
    HeadText(e, indent, noName) + ValueText(e.value, indent)
  }

  function ValueText(v: Value, indent: nat): seq<byte>
    decreases v, 1
  {
    match v
    case Null => Ascii("null")
    case Bool(b) => if b then Ascii("true") else Ascii("false")
    case String(s) => QuotedText(s)
    case Array(items) => [OPEN_ARRAY, SPACE] + InsideText(items, indent, true) + [CLOSE_ARRAY]
    case Object(members) => [OPEN_OBJECT, SPACE] + InsideText(members, indent, false) + [CLOSE_OBJECT]
  }

  function Deeper(indent: nat): nat { if indent < MAX_INDENT then indent + INDENT_SIZE else indent }

  // Elements without names are put on one line, others on a line each.
  function InsideText(es: seq<Elem>, indent: nat, noName: bool): seq<byte>
    decreases es, 2
  {
    if es == [] then []
    else if es[0].name == [] then ListText(es, indent, noName)
    else [LF] + LinesText(es, Deeper(indent), noName) + Spaces(indent)
  }

  function ListText(es: seq<Elem>, indent: nat, noName: bool): seq<byte>
    decreases es, 1
  {
    if es == [] then []
    else ElemText(es[0], indent, noName) + (if |es| > 1 then [COMMA, SPACE] else []) + ListText(es[1..], indent, noName)
  }

  function LinesText(es: seq<Elem>, indent: nat, noName: bool): seq<byte>
    decreases es, 1
  {
    if es == [] then []
    else ElemText(es[0], indent, noName) + (if |es| > 1 then [COMMA, LF] else [LF]) + LinesText(es[1..], indent, noName)
  }

  // What pj_json_write writes.
  function Written(e: Elem): seq<byte> { ElemText(e, 0, false) }

  // ----- parsing -----

  predicate IsAlpha(c: byte) { 'A' as int <= c <= 'Z' as int || 'a' as int <= c <= 'z' as int }

  predicate StartsNumber(c: byte) { '0' as int <= c <= '9' as int || c == '.' as byte || c == MINUS }

  // The word stands at p.
  predicate WordAt(text: seq<byte>, p: nat, word: seq<byte>) {
    p + |word| <= |text| && text[p..p + |word|] == word
  }

  // What stands before the value of an element: a name, or a string that is the value itself.
  datatype Start = Start(name: seq<byte>, value: seq<byte>, next: nat)

  function StartAt(text: seq<byte>, i: nat): (r: Option<Start>)
    requires i <= |text|
    ensures r.Some? ==> i <= r.value.next <= |text| && (At(text, i) == QUOTE ==> i < r.value.next)
  {
    if At(text, i) != QUOTE then Some(Start([], [], i))
    else
      var a := Skip(text, i + 1);
      if a == |text| then None
      else
        var k := Until(text, a, {QUOTE});
        var b := Skip(text, k);
        if At(text, b) == 0 then None
        else
          var c := Skip(text, b + 1);
          if At(text, c) == COLON then Some(Start(text[a..k], [], Skip(text, c + 1)))
          else Some(Start([], text[a..k], c))
  }

  function ElemAt(text: seq<byte>, i: nat): (r: Option<Parsed<Elem>>)
    requires i <= |text|
    ensures r.Some? ==> i < r.value.next <= |text|
    decreases |text| - i, 2
  {
    match StartAt(text, i)
    case None => None
    case Some(s) =>
      if s.value != [] then Some(Parsed(Elem(s.name, String(s.value)), s.next))
      else
        match ValueAt(text, s.next)
        case None => None
        case Some(v) => Some(Parsed(Elem(s.name, v.item), v.next))
  }

  function QuotedAt(text: seq<byte>, p: nat): (r: Option<Parsed<Value>>)
    requires p < |text|
    ensures r.Some? ==> p < r.value.next <= |text|
  {
    match CloseQuote(text, p + 1, QUOTE, false)
    case None => None
    case Some(close) =>
      match Unescaped(text[p + 1..close])
      case None => None
      case Some(s) => Some(Parsed(String(s), Skip(text, close + 1)))
  }

  function WordValueAt(text: seq<byte>, p: nat): (r: Option<Parsed<Value>>)
    requires p <= |text|
    ensures r.Some? ==> p < r.value.next <= |text|
  {
    // the comparison with the longest word fails at the end of the text, before the others are tried
    if p + 5 > |text| then None
    else if WordAt(text, p, Ascii("false")) then Some(Parsed(Bool(false), Skip(text, p + 5)))
    else if WordAt(text, p, Ascii("true")) then Some(Parsed(Bool(true), Skip(text, p + 4)))
    else if WordAt(text, p, Ascii("null")) then Some(Parsed(Null, Skip(text, p + 4)))
    else None
  }

  function ValueAt(text: seq<byte>, p: nat): (r: Option<Parsed<Value>>)
    requires p <= |text|
    ensures r.Some? ==> p < r.value.next <= |text|
    decreases |text| - p, 1
  {
    var c := At(text, p);
    if StartsNumber(c) then None
    else if c == QUOTE then QuotedAt(text, p)
    else if IsAlpha(c) then WordValueAt(text, p)
    else if c == OPEN_ARRAY then
      match ItemsAt(text, Skip(text, p + 1), CLOSE_ARRAY)
      case None => None
      case Some(x) => Some(Parsed(Array(x.item), x.next))
    else if c == OPEN_OBJECT then
      match ItemsAt(text, Skip(text, p + 1), CLOSE_OBJECT)
      case None => None
      case Some(x) => Some(Parsed(Object(x.item), x.next))
    else None
  }

  function SkipCommas(text: seq<byte>, i: nat): (r: nat)
    requires i <= |text|
    ensures i <= r <= |text| && At(text, r) != COMMA
    decreases |text| - i
  {
    if At(text, i) == COMMA then SkipCommas(text, Skip(text, i + 1)) else i
  }

  // parse_children, after the opening bracket.
  function ItemsAt(text: seq<byte>, i: nat, close: byte): (r: Option<Parsed<seq<Elem>>>)
    requires i <= |text| && (close == CLOSE_ARRAY || close == CLOSE_OBJECT)
    ensures r.Some? ==> i < r.value.next <= |text|
    decreases |text| - i, 3
  {
    var j := SkipCommas(text, i);
    if At(text, j) == close then Some(Parsed([], Skip(text, j + 1)))
    else
      match ElemAt(text, j)
      case None => None
      case Some(e) =>
        match ItemsAt(text, e.next, close)
        case None => None
        case Some(rest) => Some(Parsed([e.item] + rest.item, rest.next))
  }

  // pj_json_parse
  function Parse(text: seq<byte>): Option<Elem> {
    if text == [] then None
    else
      match ElemAt(text, Skip(text, 0))
      case None => None
      case Some(e) => Some(e.item)
  }
}
