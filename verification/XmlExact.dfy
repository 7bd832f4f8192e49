/** Exactly which XML trees survive printing and parsing, once their names do. */
module XmlExact {
  import opened Bytes
  import opened Wrappers
  import opened Buffers
  import opened Scanner
  import opened Xml
  import opened XmlRoundTrip

  // Every name can be read back.
  predicate NamesValid(node: Node)
    decreases node
  {
    ValidName(node.name) && NamedAttrs(node.attrs) && forall c :: c in node.children ==> NamesValid(c)
  }

  predicate AllNamesValid(nodes: seq<Node>) { forall c :: c in nodes ==> NamesValid(c) }

  lemma NamesParts(node: Node)
    requires NamesValid(node)
    ensures ValidName(node.name) && NamedAttrs(node.attrs) && AllNamesValid(node.children)
  {
    hide ValidName, NamedAttrs;
  }

  lemma FirstNamesValid(nodes: seq<Node>)
    requires AllNamesValid(nodes) && nodes != []
    ensures NamesValid(nodes[0]) && AllNamesValid(nodes[1..])
  {
    hide NamesValid;
    assert nodes[0] in nodes;
  }

  // ----- attributes -----

  lemma ValueParts(text: seq<byte>, p: nat, value: seq<byte>)
    requires value != [] && Holds(text, p, ValueText(value))
    ensures p + 1 < |text| && text[p] == EQUALS && text[p + 1] == QUOTE
    ensures Skip(text, p) == p && Skip(text, p + 1) == p + 1
    ensures Holds(text, p + 2, value + [QUOTE])
  {
    hide Holds, Skip;
    assert [EQUALS, QUOTE] + value + [QUOTE] == [EQUALS] + ([QUOTE] + (value + [QUOTE]));
    HoldsParts(text, p, [EQUALS], [QUOTE] + (value + [QUOTE]));
    HoldsParts(text, p + 1, [QUOTE], value + [QUOTE]);
    HoldsByte(text, p, [EQUALS], 0);
    HoldsByte(text, p + 1, [QUOTE], 0);
    SkipNothing(text, p);
    SkipNothing(text, p + 1);
  }

  // The value that is read ends at the first closing quote.
  lemma ValueCloses(text: seq<byte>, p: nat, value: seq<byte>)
    requires p + 1 < |text| && text[p] == EQUALS && text[p + 1] == QUOTE && Skip(text, p + 1) == p + 1
    requires AttrValueAt(text, p).Some? && AttrValueAt(text, p).value.item == value
    ensures CloseQuote(text, p + 2, QUOTE, false) == Some(p + 2 + |value|)
  {
    hide CloseQuote, Skip;
  }

  lemma ValueExact(text: seq<byte>, p: nat, value: seq<byte>)
    requires Holds(text, p, ValueText(value)) && p + |ValueText(value)| <= |text|
    requires AttrValueAt(text, Skip(text, p)).Some? && AttrValueAt(text, Skip(text, p)).value.item == value
    ensures ValidValue(value)
  {
    hide CloseQuote, ValidValue, AttrValueAt, Skip, Holds;
    if value == [] {
      PlainValue(value);
    } else {
      ValueParts(text, p, value);
      ValueCloses(text, p, value);
      CloseReads(text, p + 2, value);
    }
  }

  lemma FirstAttr(text: seq<byte>, i: nat, k: nat, attrs: seq<Attr>)
    requires attrs != [] && i <= k <= |text| && i < |text| && text[i] != GT && text[i] != SLASH
    requires k == Until(text, i, ATTR_STOP)
    requires AttrsAt(text, i).Some? && AttrsAt(text, i).value.item == attrs
    ensures AttrValueAt(text, Skip(text, k)).Some?
    ensures var value := AttrValueAt(text, Skip(text, k)).value;
            && value.item == attrs[0].value
            && value.next <= |text| && AttrsAt(text, value.next).Some?
            && AttrsAt(text, value.next).value.item == attrs[1..]
  {
    hide AttrValueAt, Until, Skip;
    var value := AttrValueAt(text, Skip(text, k)).value;
    var rest := AttrsAt(text, value.next).value;
    assert attrs == [Attr(text[i..k], value.item)] + rest.item;
    assert rest.item == attrs[1..];
  }

  lemma AttrsValidStep(attrs: seq<Attr>)
    requires attrs != [] && ValidAttr(attrs[0]) && ValidAttrs(attrs[1..])
    ensures ValidAttrs(attrs)
  {
    hide ValidAttr;
    forall a | a in attrs ensures ValidAttr(a) { assert a == attrs[0] || a in attrs[1..]; }
  }

  // Attributes that are read back as they are have valid values.
  lemma {:induction false} AttrsExact(text: seq<byte>, p: nat, attrs: seq<Attr>, end: nat)
    requires NamedAttrs(attrs) && Holds(text, p, AttrsText(attrs))
    requires end == p + |AttrsText(attrs)| && end <= |text| && TagEnds(text, end)
    ensures p <= |text|
    ensures AttrsAt(text, Skip(text, p)).Some? && AttrsAt(text, Skip(text, p)).value.item == attrs ==> ValidAttrs(attrs)
    decreases |attrs|
  {
    hide AttrsAt, AttrsText, ValueText, AttrValueAt, FirstEnd, Skip, Until, TagEnds, AfterName, ValidAttrName, ValidValue,
         ValidAttrs, NamedAttrs, Holds;
    if attrs == [] {
      NoAttrsValid();
    } else if AttrsAt(text, Skip(text, p)).Some? && AttrsAt(text, Skip(text, p)).value.item == attrs {
      var a, next := attrs[0], FirstEnd(p, attrs);
      var i, v := p + 1, p + 1 + |a.name|;
      NamesFirst(attrs);
      AttrsStart(text, p, attrs);
      AttrsParts(text, p, attrs);
      AttrsStart(text, next, attrs[1..]);
      NameHead(text, i, a);
      NameRead(text, i, a, v, next);
      FirstAttr(text, i, v, attrs);
      HoldsInside(text, v, ValueText(a.value));
      ValueExact(text, v, a.value);
      AttrValueRead(text, v, a, next);
      AttrsExact(text, next, attrs[1..], end);
      AttrsValidStep(attrs);
    }
  }

  lemma NoAttrsValid()
    ensures ValidAttrs([])
  {
  }

  // ----- nodes -----

  predicate ReadAs(r: Option<Parsed<Node>>, node: Node) { r.Some? && r.value.item == node }

  lemma BodyKeeps(text: seq<byte>, i: nat, name: seq<byte>, attrs: seq<Attr>, j: nat)
    requires i < j < |text| && BodyAt(text, i, name, attrs, j).Some?
    ensures BodyAt(text, i, name, attrs, j).value.item.attrs == attrs
  {
    hide NodesAt, ClosingAt, Skip;
  }

  // The opening tag is read up to its attributes.
  lemma OpeningExact(text: seq<byte>, p: nat, node: Node, e: nat)
    requires ValidName(node.name) && NamedAttrs(node.attrs)
    requires Holds(text, p, OpeningText(node)) && e == p + |OpeningText(node)| && e <= |text| && TagEnds(text, e)
    requires p <= |text| && ReadAs(NodeAt(text, p), node)
    ensures ValidAttrs(node.attrs)
  {
    hide AttrsText, TagEnds, AfterName, ValidName, ValidAttrs, NamedAttrs, BodyAt, AttrsAt, Holds;
    var n, k := p + 1, p + 1 + |node.name|;
    HoldsParts(text, p, [LT] + node.name, AttrsText(node.attrs));
    HoldsParts(text, p, [LT], node.name);
    HoldsByte(text, p, [LT], 0);
    NamePart(node.name);
    HoldsByte(text, n, node.name, 0);
    SkipNothing(text, n);
    AttrsStart(text, k, node.attrs);
    NameStops(text, k);
    UntilReads(text, n, node.name, NAME_STOP);
    HeldText(text, n, node.name);
    hide Skip, Until;
    var attrs := AttrsAt(text, Skip(text, k)).value;
    BodyKeeps(text, p, node.name, attrs.item, attrs.next);
    AttrsExact(text, k, node.attrs, e);
  }

  // What stands behind the opening tag of a node that is not empty.
  lemma BodyParts(text: seq<byte>, p: nat, node: Node, e: nat)
    requires p < e < |text| && text[e] == GT && ReadAs(BodyAt(text, p, node.name, node.attrs, e), node)
    ensures NodesAt(text, Skip(text, e + 1)).Some?
    ensures var children := NodesAt(text, Skip(text, e + 1)).value;
            children.item == node.children && children.next <= |text| && ContentAt(text, children.next).item == node.content
  {
    hide NodesAt, ClosingAt, ContentAt, Skip;
  }

  // Content that is read back does not start with a blank, and ends in front of a tag.
  lemma ContentExact(text: seq<byte>, q: nat, content: seq<byte>)
    requires content != [] && Holds(text, q, content) && q + |content| <= |text|
    requires ContentAt(text, Skip(text, q)).item == content
    ensures ValidContent(content) && (q + |content| < |text| ==> text[q + |content|] == LT)
  {
    hide Holds, IsBlank;
    var c := Skip(text, q);
    HoldsByte(text, q, content, 0);
    var k := Until(text, c, {LT});
    assert content == text[c..k] && content[0] == text[c];
    hide Until, Skip;
    assert Avoids(content, {LT});
  }

  // A node that is read back is one that survives.
  lemma {:induction false} NodeExact(text: seq<byte>, p: nat, node: Node, indent: nat)
    requires NamesValid(node) && Holds(text, p, NodeText(node, indent)) && p <= |text|
    requires ReadAs(NodeAt(text, p), node)
    ensures ValidNode(node)
    decreases node, 1
  {
    hide OpeningText, TailText, NamesValid, ValidNode, Holds, NodeAt, BodyAt, TagEnds;
    var e := p + |OpeningText(node)|;
    HoldsParts(text, p, OpeningText(node), TailText(node, indent));
    NamesParts(node);
    HoldsInside(text, p, OpeningText(node));
    TailStarts(text, node, indent, e);
    OpeningExact(text, p, node, e);
    OpeningRead(text, p, node, e);
    TailExact(text, p, node, indent, e);
  }

  lemma TailStarts(text: seq<byte>, node: Node, indent: nat, e: nat)
    requires Holds(text, e, TailText(node, indent))
    ensures TagEnds(text, e)
    ensures !IsEmpty(node) ==> e < |text| && text[e] == GT && Skip(text, e) == e
  {
    hide ChildrenText, ClosingText, Holds;
    var s := TailText(node, indent);
    HoldsByte(text, e, s, 0);
    if IsEmpty(node) {
      HoldsByte(text, e, s, 1);
    } else {
      OpenTagEnds(text, e);
    }
  }

  lemma {:induction false} TailExact(text: seq<byte>, p: nat, node: Node, indent: nat, e: nat)
    requires NamesValid(node) && ValidAttrs(node.attrs) && p < e && Holds(text, e, TailText(node, indent))
    requires p < Skip(text, e) < |text| && ReadAs(BodyAt(text, p, node.name, node.attrs, Skip(text, e)), node)
    ensures ValidNode(node)
    decreases node, 0
  {
    hide NamesValid, ValidName, ValidAttr, ValidContent, Holds, BodyAt, ClosingText, ChildrenText, NodesAt, ContentAt, Skip,
         ReadAs;
    NamesParts(node);
    TailStarts(text, node, indent, e);
    if !IsEmpty(node) {
      var q := e + 1 + |ChildrenText(node.children, indent + 1)|;
      TailParts(text, node, indent, e, q);
      BodyParts(text, p, node, e);
      NodesExact(text, e + 1, node.children, indent + 1, q);
      if node.content != [] {
        HoldsInside(text, q, node.content);
        ContentExact(text, q, node.content);
      }
    }
    NothingIsContent();
  }

  lemma NothingIsContent()
    ensures ValidContent([])
  {
  }

  // The children, the content, and a line break or the closing tag behind it.
  lemma TailParts(text: seq<byte>, node: Node, indent: nat, e: nat, q: nat)
    requires !IsEmpty(node) && Holds(text, e, TailText(node, indent))
    requires q == e + 1 + |ChildrenText(node.children, indent + 1)|
    ensures Holds(text, e + 1, ChildrenText(node.children, indent + 1)) && Holds(text, q, node.content)
    ensures q + |node.content| < |text|
    ensures node.children != [] ==> text[q + |node.content|] == LF
  {
    hide Holds, ChildrenText;
    var a, b, c := ChildrenText(node.children, indent + 1), node.content,
                   (if node.children == [] then [] else [LF] + Spaces(indent)) + ClosingText(node.name);
    Regrouped(a, b, node, indent);
    HoldsParts(text, e, [GT], a + (b + c));
    HoldsParts(text, e + 1, a, b + c);
    HoldsParts(text, q, b, c);
    HoldsByte(text, q + |b|, c, 0);
  }

  lemma Regrouped(a: seq<byte>, b: seq<byte>, node: Node, indent: nat)
    requires !IsEmpty(node) && a == ChildrenText(node.children, indent + 1) && b == node.content
    ensures TailText(node, indent)
            == [GT] + (a + (b + ((if node.children == [] then [] else [LF] + Spaces(indent)) + ClosingText(node.name))))
  {
    hide ChildrenText, ClosingText;
    var sep := if node.children == [] then [] else [LF] + Spaces(indent);
    var d := ClosingText(node.name);
    assert [GT] + a + b + sep + d == [GT] + (a + (b + (sep + d)));
  }

  // Children that are read back are valid, and end where their text ends.
  lemma {:induction false} NodesExact(text: seq<byte>, p: nat, nodes: seq<Node>, indent: nat, q: nat)
    requires AllNamesValid(nodes) && Holds(text, p, ChildrenText(nodes, indent)) && q == p + |ChildrenText(nodes, indent)|
    requires p <= |text| && NodesAt(text, Skip(text, p)).Some? && NodesAt(text, Skip(text, p)).value.item == nodes
    ensures ValidNodes(nodes) && q <= |text| && NodesAt(text, Skip(text, p)).value.next == Skip(text, q)
    decreases nodes, 2
  {
    hide NodeText, NodesAt, NodeAt, ValidNode, NamesValid, AllNamesValid, Holds, ChildrenText, Skip, Spaces, ReadAs;
    if nodes == [] {
      NoChildren(text, p, indent);
    } else {
      var i := p + 1 + indent;
      var next := i + |NodeText(nodes[0], indent)|;
      FirstNamesValid(nodes);
      ChildrenParts(text, p, nodes, indent, i, next);
      ChildStarts(text, i, nodes[0], indent);
      IndentRead(text, p, indent, i);
      FirstNode(text, i, nodes);
      NodeExact(text, i, nodes[0], indent);
      NodeRead(text, i, nodes[0], indent, next);
      NodesExact(text, next, nodes[1..], indent, q);
      forall c | c in nodes ensures ValidNode(c) { assert c == nodes[0] || c in nodes[1..]; }
    }
  }

  lemma NoChildren(text: seq<byte>, p: nat, indent: nat)
    requires p <= |text| && NodesAt(text, Skip(text, p)).Some? && NodesAt(text, Skip(text, p)).value.item == []
    ensures ChildrenText([], indent) == [] && NodesAt(text, Skip(text, p)).value.next == Skip(text, p)
  {
    hide NodeAt, Skip;
  }

  lemma ChildStarts(text: seq<byte>, i: nat, node: Node, indent: nat)
    requires NamesValid(node) && Holds(text, i, NodeText(node, indent))
    ensures i < |text| && text[i] == LT
  {
    hide AttrsText, TailText, Holds;
    HoldsByte(text, i, NodeText(node, indent), 0);
  }

  lemma FirstNode(text: seq<byte>, i: nat, nodes: seq<Node>)
    requires nodes != [] && i <= |text| && NodesAt(text, i).Some? && NodesAt(text, i).value.item == nodes
    ensures ReadAs(NodeAt(text, i), nodes[0])
    ensures var next := NodeAt(text, i).value.next;
            && NodesAt(text, next).Some? && NodesAt(text, next).value.item == nodes[1..]
            && NodesAt(text, next).value.next == NodesAt(text, i).value.next
  {
    hide NodeAt;
    var node := NodeAt(text, i).value;
    var rest := NodesAt(text, node.next).value;
    assert nodes == [node.item] + rest.item;
    assert rest.item == nodes[1..];
  }

  // ----- whole texts -----

  // Exactly which trees with valid names survive: at every node there are children or content but not both,
  // content does not start with a blank or contain the start of a tag, and the values of attributes are closed
  // by their own quotes.
  lemma RoundTripExactly(node: Node, indent: nat, rest: seq<byte>)
    requires NamesValid(node)
    ensures Parse(PrintedNode(node, indent) + rest) == Some(node) <==> ValidNode(node)
  {
    hide ValidNode, NamesValid, NodeText, NodeAt, Skip, Holds, IsBlank;
    if ValidNode(node) {
      RoundTrip(node, indent, rest);
    } else if Parse(PrintedNode(node, indent) + rest) == Some(node) {
      var text := PrintedNode(node, indent) + rest;
      HoldsPrefix(PrintedNode(node, indent), rest);
      AllBlank(indent);
      HoldsParts(text, 0, Spaces(indent), NodeText(node, indent));
      ChildStarts(text, indent, node, indent);
      SkipBlanks(text, 0, Spaces(indent));
      TagNotBlank(text, indent);
      NodeExact(text, indent, node, indent);
    }
  }
}
