/** XML trees (xml.c): what is printed and what is parsed. */
module Xml {
  import opened Bytes
  import opened Wrappers
  import opened Scanner
  import opened Strings

  datatype Attr = Attr(name: seq<byte>, value: seq<byte>)

  datatype Node = Node(name: seq<byte>, attrs: seq<Attr>, children: seq<Node>, content: seq<byte>)

  const LT: byte := '<' as byte
  const GT: byte := '>' as byte
  const EQUALS: byte := '=' as byte
  const QUESTION: byte := '?' as byte
  const EXCLAMATION: byte := '!' as byte
  const APOSTROPHE: byte := '\'' as byte

  const NAME_STOP: set<byte> := {SPACE, SLASH, GT, TAB, CR, LF}
  const ATTR_STOP: set<byte> := {EQUALS, GT, SPACE, TAB, CR, LF}
  const END_STOP: set<byte> := {SPACE, TAB, GT}

  // ----- printing -----

  function AttrText(a: Attr): seq<byte> {
    [SPACE] + a.name + if a.value == [] then [] else [EQUALS, QUOTE] + a.value + [QUOTE]
  }

  function AttrsText(attrs: seq<Attr>): seq<byte> {
    if attrs == [] then [] else AttrText(attrs[0]) + AttrsText(attrs[1..])
  }

  predicate IsEmpty(node: Node) { node.content == [] && node.children == [] }

  function ClosingText(name: seq<byte>): seq<byte> { [LT, SLASH] + name + [GT] }

  function OpeningText(node: Node): (s: seq<byte>)
    ensures |s| > 0
  {
    [LT] + node.name + AttrsText(node.attrs)
  }

  // A node after its indentation.
  function NodeText(node: Node, indent: nat): (s: seq<byte>)
    ensures |s| > 0
    decreases node, 1
  {
    OpeningText(node) + TailText(node, indent)
  }

  // What follows the name and the attributes.
  function TailText(node: Node, indent: nat): seq<byte>
    decreases node, 0
  {
    if IsEmpty(node) then [SPACE, SLASH, GT]
    else [GT] + ChildrenText(node.children, indent + 1) + node.content
         + (if node.children == [] then [] else [LF] + Spaces(indent))
         + ClosingText(node.name)
  }

  // Every child on a line of its own.
  function ChildrenText(nodes: seq<Node>, indent: nat): seq<byte>
    decreases nodes, 2
  {
    if nodes == [] then []
    else [LF] + Spaces(indent) + NodeText(nodes[0], indent) + ChildrenText(nodes[1..], indent)
  }

  function PrologBody(): seq<byte> { Ascii("xml version=\"1.0\" encoding=\"UTF-8\"") }

  // The prolog, with a newline.
  function Prolog(): seq<byte> { [LT, QUESTION] + (PrologBody() + [QUESTION, GT, LF]) }

  // What xml_print_node writes for a node.
  function PrintedNode(node: Node, indent: nat): seq<byte> { Spaces(indent) + NodeText(node, indent) }

  // ----- parsing -----

  // The next character, with the blanks after it, must be c.
  function Expect(text: seq<byte>, i: nat, c: byte): (r: Option<nat>)
    requires i <= |text| && c != 0
    ensures r.Some? ==> i < r.value <= |text|
  {
    if At(text, i) == c then Some(Skip(text, i + 1)) else None
  }

  // The value of an attribute, if there is one.
  function AttrValueAt(text: seq<byte>, i: nat): (r: Option<Parsed<seq<byte>>>)
    requires i <= |text|
    ensures r.Some? ==> i <= r.value.next <= |text| && (At(text, i) == EQUALS ==> i < r.value.next)
  {
    if At(text, i) != EQUALS then Some(Parsed([], i))
    else
      var open := Skip(text, i + 1);
      if At(text, open) != QUOTE && At(text, open) != APOSTROPHE then None
      else
        match CloseQuote(text, open + 1, At(text, open), false)
        case None => None
        case Some(close) => Some(Parsed(text[open + 1..close], Skip(text, close + 1)))
  }

  function AttrsAt(text: seq<byte>, i: nat): (r: Option<Parsed<seq<Attr>>>)
    requires i <= |text|
    ensures r.Some? ==> i <= r.value.next < |text|
                        && (At(text, r.value.next) == GT || At(text, r.value.next) == SLASH)
    decreases |text| - i
  {
    if At(text, i) == GT || At(text, i) == SLASH then Some(Parsed([], i))
    else if i == |text| then None
    else
      var k := Until(text, i, ATTR_STOP);
      match AttrValueAt(text, Skip(text, k))
      case None => None
      case Some(value) =>
        assert i < value.next;
        match AttrsAt(text, value.next)
        case None => None
        case Some(rest) => Some(Parsed([Attr(text[i..k], value.item)] + rest.item, rest.next))
  }

  // The end of a processing instruction.
  function InstructionEnd(text: seq<byte>, i: nat): (r: Option<nat>)
    ensures r.Some? ==> i < r.value <= |text|
    decreases |text| - i
  {
    if i >= |text| then None
    else
      var k := Until(text, i, {QUESTION});
      var j := Skip(text, k);
      if At(text, j) == QUESTION && At(text, j + 1) == GT then Some(Skip(text, j + 2))
      else if j + 1 > |text| then None
      else InstructionEnd(text, j + 1)
  }

  // The closing tag of a node.
  function ClosingAt(text: seq<byte>, i: nat, name: seq<byte>): (r: Option<nat>)
    requires i <= |text|
    ensures r.Some? ==> i < r.value <= |text|
  {
    match Expect(text, i, LT)
    case None => None
    case Some(a) =>
      match Expect(text, a, SLASH)
      case None => None
      case Some(b) =>
        if b == |text| then None
        else
          var k := Until(text, b, END_STOP);
          if Matches(name, text[b..k]) then Expect(text, Skip(text, k), GT) else None
  }

  function ContentAt(text: seq<byte>, i: nat): (r: Parsed<seq<byte>>)
    requires i <= |text|
    ensures i <= r.next <= |text|
  {
    if i < |text| && At(text, i) != LT then
      var k := Until(text, i, {LT});
      Parsed(text[i..k], Skip(text, k))
    else Parsed([], i)
  }

  // xml_parse_node; comments and CDATA sections are not part of this model.
  function NodeAt(text: seq<byte>, i: nat): (r: Option<Parsed<Node>>)
    requires i <= |text|
    ensures r.Some? ==> i < r.value.next <= |text|
    decreases |text| - i, 0
  {
    if At(text, i) != LT then None
    else if At(text, i + 1) == QUESTION then
      match InstructionEnd(text, i + 2)
      case None => None
      case Some(next) => NodeAt(text, next)
    else if i + 2 > |text| || At(text, i + 1) == EXCLAMATION then None
    else
      var n := Skip(text, i + 1);
      if n == |text| then None
      else
        var k := Until(text, n, NAME_STOP);
        match AttrsAt(text, Skip(text, k))
        case None => None
        case Some(attrs) => BodyAt(text, i, text[n..k], attrs.item, attrs.next)
  }

  // What follows the name and the attributes.
  function BodyAt(text: seq<byte>, i: nat, name: seq<byte>, attrs: seq<Attr>, j: nat): (r: Option<Parsed<Node>>)
    requires i < j < |text|
    ensures r.Some? ==> i < r.value.next <= |text|
    decreases |text| - j, 0
  {
    if At(text, j) == SLASH then
      match Expect(text, Skip(text, j + 1), GT)
      case None => None
      case Some(next) => Some(Parsed(Node(name, attrs, [], []), next))
    else
      match Expect(text, j, GT)
      case None => None
      case Some(c) =>
        match NodesAt(text, c)
        case None => None
        case Some(children) =>
          var content := ContentAt(text, children.next);
          match ClosingAt(text, content.next, name)
          case None => None
          case Some(next) => Some(Parsed(Node(name, attrs, children.item, content.item), next))
  }

  function NodesAt(text: seq<byte>, i: nat): (r: Option<Parsed<seq<Node>>>)
    requires i <= |text|
    ensures r.Some? ==> i <= r.value.next <= |text|
    decreases |text| - i, 1
  {
    if At(text, i) == LT && At(text, i + 1) != SLASH && At(text, i + 1) != EXCLAMATION then
      match NodeAt(text, i)
      case None => None
      case Some(node) =>
        match NodesAt(text, node.next)
        case None => None
        case Some(rest) => Some(Parsed([node.item] + rest.item, rest.next))
    else Some(Parsed([], i))
  }

  // pj_xml_parse
  function Parse(text: seq<byte>): Option<Node> {
    if text == [] then None
    else
      match NodeAt(text, Skip(text, 0))
      case None => None
      case Some(node) => Some(node.item)
  }
}
