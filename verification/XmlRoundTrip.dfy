/** Printing an XML tree and parsing the text. */
module XmlRoundTrip {
  import opened Bytes
  import opened Wrappers
  import opened Buffers
  import opened Scanner
  import opened Strings
  import opened Xml

  // ----- the trees that survive -----

  predicate Avoids(s: seq<byte>, stop: set<byte>) { forall c :: c in s ==> c !in stop }

  predicate ValidName(name: seq<byte>) {
    name != [] && Avoids(name, NAME_STOP) && name[0] != QUESTION && name[0] != EXCLAMATION
  }

  predicate ValidAttrName(name: seq<byte>) { name != [] && Avoids(name, ATTR_STOP) && name[0] != SLASH }

  // The quote that is printed behind the value is the first that closes it: there is no newline in it, every
  // quote in it has a backslash in front, and it does not end with a backslash that is not itself escaped.
  predicate ValidValue(value: seq<byte>) { CloseQuote(value + [QUOTE], 0, QUOTE, false) == Some(|value|) }

  predicate ValidAttr(a: Attr) { ValidAttrName(a.name) && ValidValue(a.value) }

  predicate NamedAttrs(attrs: seq<Attr>) { forall a :: a in attrs ==> ValidAttrName(a.name) }

  predicate ValidAttrs(attrs: seq<Attr>) { forall a :: a in attrs ==> ValidAttr(a) }

  predicate ValidContent(s: seq<byte>) { s == [] || (Avoids(s, {LT}) && !IsBlank(s[0])) }

  // Children or content, but not both, at every node.
  predicate ValidNode(node: Node)
    decreases node
  {
    && ValidName(node.name)
    && (forall a :: a in node.attrs ==> ValidAttr(a))
    && ValidContent(node.content)
    && (node.children == [] || node.content == [])
    && forall c :: c in node.children ==> ValidNode(c)
  }

  // ----- small pieces -----

  // The closing quote of a text is found where the text stands.
  lemma {:induction false} CloseHeld(text: seq<byte>, p: nat, t: seq<byte>, i: nat, escaped: bool, k: nat)
    requires Holds(text, p, t) && i <= k < |t|
    ensures CloseQuote(t, i, QUOTE, escaped) == Some(k) <==> CloseQuote(text, p + i, QUOTE, escaped) == Some(p + k)
    decreases |t| - i
  {
    hide Holds;
    HoldsByte(text, p, t, i);
    if i < k {
      CloseHeld(text, p, t, i + 1, t[i] == BACKSLASH && !escaped, k);
    } else {
      CloseLater(t, i + 1, t[i] == BACKSLASH && !escaped, i);
      CloseLater(text, p + i + 1, t[i] == BACKSLASH && !escaped, p + i);
    }
  }

  lemma CloseLater(t: seq<byte>, i: nat, escaped: bool, k: nat)
    requires k < i
    ensures CloseQuote(t, i, QUOTE, escaped) != Some(k)
  {
    hide CloseQuote;
  }

  // A value is closed by the quote behind it exactly when it is valid.
  lemma CloseReads(text: seq<byte>, p: nat, s: seq<byte>)
    requires Holds(text, p, s + [QUOTE])
    ensures CloseQuote(text, p, QUOTE, false) == Some(p + |s|) <==> ValidValue(s)
  {
    hide Holds, CloseQuote;
    CloseHeld(text, p, s + [QUOTE], 0, false, |s|);
  }

  // Values without quotes, backslashes and newlines are valid.
  lemma PlainValue(value: seq<byte>)
    requires Avoids(value, {QUOTE, BACKSLASH, LF})
    ensures ValidValue(value)
  {
    PlainCloses(value, 0);
  }

  lemma {:induction false} PlainCloses(value: seq<byte>, i: nat)
    requires Avoids(value, {QUOTE, BACKSLASH, LF}) && i <= |value|
    ensures CloseQuote(value + [QUOTE], i, QUOTE, false) == Some(|value|)
    decreases |value| - i
  {
    if i < |value| {
      assert (value + [QUOTE])[i] == value[i] && value[i] in value;
      PlainCloses(value, i + 1);
    }
  }

  // ----- attributes -----

  function ValueText(value: seq<byte>): seq<byte> {
    if value == [] then [] else [EQUALS, QUOTE] + value + [QUOTE]
  }

  // The value of an attribute; what follows is neither an equals sign nor, after blanks, one.
  lemma ValueRead(text: seq<byte>, p: nat, value: seq<byte>)
    requires Holds(text, p, ValueText(value)) && ValidValue(value)
    requires p + |ValueText(value)| <= |text|
    requires value == [] ==> At(text, Skip(text, p)) != EQUALS
    ensures AttrValueAt(text, Skip(text, p)) == Some(Parsed(value, Skip(text, p + |ValueText(value)|)))
  {
    hide CloseQuote, ValidValue;
    if value != [] {
      assert [EQUALS, QUOTE] + value + [QUOTE] == [EQUALS] + ([QUOTE] + (value + [QUOTE]));
      HoldsParts(text, p, [EQUALS], [QUOTE] + (value + [QUOTE]));
      HoldsParts(text, p + 1, [QUOTE], value + [QUOTE]);
      HoldsByte(text, p, [EQUALS], 0);
      HoldsByte(text, p + 1, [QUOTE], 0);
      SkipNothing(text, p);
      SkipNothing(text, p + 1);
      CloseReads(text, p + 2, value);
      HoldsParts(text, p + 2, value, [QUOTE]);
      assert text[p + 2..p + 2 + |value|] == value;
    }
  }

  lemma AttrsValid(attrs: seq<Attr>)
    requires ValidAttrs(attrs) && attrs != []
    ensures ValidAttr(attrs[0]) && ValidAttrs(attrs[1..])
  {
    hide ValidAttr;
    assert attrs[0] in attrs;
  }

  lemma AttrsNamed(attrs: seq<Attr>)
    requires ValidAttrs(attrs)
    ensures NamedAttrs(attrs)
  {
    hide ValidAttrName, ValidValue;
  }

  lemma NamesFirst(attrs: seq<Attr>)
    requires NamedAttrs(attrs) && attrs != []
    ensures ValidAttrName(attrs[0].name) && NamedAttrs(attrs[1..])
  {
    hide ValidAttrName;
    assert attrs[0] in attrs;
  }

  // A place where a list of attributes may end: blanks and then the end of the tag.
  predicate TagEnds(text: seq<byte>, p: nat) {
    && p < |text| && (text[p] == SPACE || text[p] == GT)
    && (At(text, Skip(text, p)) == GT || At(text, Skip(text, p)) == SLASH)
  }

  // Every attribute starts with a space.
  predicate AfterName(text: seq<byte>, p: nat) {
    && p < |text| && (text[p] == SPACE || text[p] == GT)
    && At(text, Skip(text, p)) != EQUALS
  }

  lemma AttrsStart(text: seq<byte>, p: nat, attrs: seq<Attr>)
    requires NamedAttrs(attrs) && Holds(text, p, AttrsText(attrs))
    requires p + |AttrsText(attrs)| <= |text| && TagEnds(text, p + |AttrsText(attrs)|)
    ensures AfterName(text, p)
    ensures attrs != [] ==>
              attrs[0] in attrs && attrs[0].name != []
              && Skip(text, p) == p + 1 && p + 1 < |text| && text[p + 1] == attrs[0].name[0]
  {
    if attrs != [] {
      var a := attrs[0];
      assert a in attrs && a.name[0] in a.name;
      var s := AttrsText(attrs);
      assert s[0] == SPACE && s[1] == a.name[0];
      HoldsByte(text, p, s, 0);
      HoldsByte(text, p, s, 1);
      SkipNothing(text, p + 1);
    }
  }

  lemma Regroup(a: seq<byte>, b: seq<byte>, c: seq<byte>, d: seq<byte>)
    ensures (a + b + c) + d == a + (b + (c + d))
  {
  }

  lemma AttrsSplit(attrs: seq<Attr>)
    requires attrs != []
    ensures AttrsText(attrs) == [SPACE] + (attrs[0].name + (ValueText(attrs[0].value) + AttrsText(attrs[1..])))
  {
    var a := attrs[0];
    assert AttrText(a) == [SPACE] + a.name + ValueText(a.value);
    Regroup([SPACE], a.name, ValueText(a.value), AttrsText(attrs[1..]));
    hide ValueText, AttrText;
  }

  // Where the first attribute ends.
  function FirstEnd(p: nat, attrs: seq<Attr>): nat
    requires attrs != []
  {
    p + 1 + |attrs[0].name| + |ValueText(attrs[0].value)|
  }

  // The places of the first attribute, its value, and the other attributes.
  lemma AttrsParts(text: seq<byte>, p: nat, attrs: seq<Attr>)
    requires attrs != [] && Holds(text, p, AttrsText(attrs))
    ensures var v, next := p + 1 + |attrs[0].name|, FirstEnd(p, attrs);
            && Holds(text, p + 1, attrs[0].name) && Holds(text, v, ValueText(attrs[0].value))
            && next == v + |ValueText(attrs[0].value)|
            && Holds(text, next, AttrsText(attrs[1..]))
            && next + |AttrsText(attrs[1..])| == p + |AttrsText(attrs)|
  {
    hide AttrsText, ValueText, Holds;
    var a, rest := attrs[0], AttrsText(attrs[1..]);
    AttrsSplit(attrs);
    HoldsParts(text, p, [SPACE], a.name + (ValueText(a.value) + rest));
    HoldsParts(text, p + 1, a.name, ValueText(a.value) + rest);
    HoldsParts(text, p + 1 + |a.name|, ValueText(a.value), rest);
  }

  lemma AttrsStep(text: seq<byte>, i: nat, k: nat, value: Parsed<seq<byte>>, rest: Parsed<seq<Attr>>, attrs: seq<Attr>)
    requires attrs != [] && i <= k <= |text| && attrs[0] == Attr(text[i..k], value.item) && attrs[1..] == rest.item
    requires i < |text| && text[i] != GT && text[i] != SLASH && k == Until(text, i, ATTR_STOP)
    requires AttrValueAt(text, Skip(text, k)) == Some(value)
    requires value.next <= |text| && AttrsAt(text, value.next) == Some(rest)
    ensures AttrsAt(text, i) == Some(Parsed(attrs, rest.next))
  {
    hide AttrValueAt, Until, Skip;
    assert [Attr(text[i..k], value.item)] + rest.item == attrs;
  }

  lemma AttrsNone(text: seq<byte>, p: nat, attrs: seq<Attr>, end: nat)
    requires attrs == [] && end == p + |AttrsText(attrs)| && TagEnds(text, end)
    ensures p <= |text| && AttrsAt(text, Skip(text, p)) == Some(Parsed(attrs, Skip(text, end)))
  {
    hide Skip;
  }

  // The first attribute, when the others have been read.
  lemma FirstRead(text: seq<byte>, p: nat, attrs: seq<Attr>, end: nat)
    requires attrs != [] && ValidAttr(attrs[0]) && Holds(text, p, AttrsText(attrs)) && p + 1 < |text|
    requires Skip(text, p) == p + 1
    requires var next := FirstEnd(p, attrs);
             && next <= end <= |text| && AfterName(text, next)
             && AttrsAt(text, Skip(text, next)) == Some(Parsed(attrs[1..], Skip(text, end)))
    ensures AttrsAt(text, Skip(text, p)) == Some(Parsed(attrs, Skip(text, end)))
  {
    hide AttrsAt, AttrsText, ValueText, Skip, Until, AfterName, ValidAttrName, ValidValue, AttrValueAt, Holds;
    var a, next := attrs[0], FirstEnd(p, attrs);
    var i, v := p + 1, p + 1 + |a.name|;
    AttrsParts(text, p, attrs);
    NameHead(text, i, a);
    NameRead(text, i, a, v, next);
    AttrValueRead(text, v, a, next);
    AttrsStep(text, i, v, Parsed(a.value, Skip(text, next)), Parsed(attrs[1..], Skip(text, end)), attrs);
  }

  lemma {:induction false} AttrsRead(text: seq<byte>, p: nat, attrs: seq<Attr>, end: nat)
    requires ValidAttrs(attrs) && Holds(text, p, AttrsText(attrs))
    requires end == p + |AttrsText(attrs)| && end <= |text| && TagEnds(text, end)
    ensures p <= |text| && AttrsAt(text, Skip(text, p)) == Some(Parsed(attrs, Skip(text, end)))
    decreases |attrs|
  {
    hide AttrsAt, AttrsText, ValueText, FirstEnd, Skip, TagEnds, AfterName, ValidAttr, ValidAttrs, NamedAttrs, Holds;
    if attrs == [] {
      AttrsNone(text, p, attrs, end);
    } else {
      var next := FirstEnd(p, attrs);
      AttrsValid(attrs);
      AttrsNamed(attrs);
      AttrsNamed(attrs[1..]);
      AttrsStart(text, p, attrs);
      AttrsParts(text, p, attrs);
      AttrsStart(text, next, attrs[1..]);
      AttrsRead(text, next, attrs[1..], end);
      FirstRead(text, p, attrs, end);
    }
  }

  lemma AttrValueRead(text: seq<byte>, p: nat, a: Attr, next: nat)
    requires ValidAttr(a) && Holds(text, p, ValueText(a.value))
    requires next == p + |ValueText(a.value)| && AfterName(text, next)
    ensures p <= next <= |text| && AttrValueAt(text, Skip(text, p)) == Some(Parsed(a.value, Skip(text, next)))
  {
    hide AttrValueAt, Skip, ValidValue, ValidAttrName;
    ValueRead(text, p, a.value);
  }

  lemma NameHead(text: seq<byte>, p: nat, a: Attr)
    requires ValidAttrName(a.name) && Holds(text, p, a.name)
    ensures p < |text| && text[p] != GT && text[p] != SLASH && |a.name| > 0
    ensures p + |a.name| <= |text| && text[p..p + |a.name|] == a.name
  {
    HoldsByte(text, p, a.name, 0);
    assert a.name[0] in a.name;
  }

  // The character after the name of an attribute.
  lemma NameEnd(text: seq<byte>, v: nat, a: Attr, next: nat)
    requires Holds(text, v, ValueText(a.value)) && next == v + |ValueText(a.value)| && AfterName(text, next)
    ensures v < |text| && (text[v] == EQUALS || text[v] == SPACE || text[v] == GT)
  {
    hide Skip;
    if a.value != [] { HoldsByte(text, v, ValueText(a.value), 0); }
  }

  lemma NameRead(text: seq<byte>, p: nat, a: Attr, v: nat, next: nat)
    requires ValidAttrName(a.name) && Holds(text, p, a.name) && v == p + |a.name|
    requires Holds(text, v, ValueText(a.value)) && next == v + |ValueText(a.value)| && AfterName(text, next)
    ensures p <= |text| && Until(text, p, ATTR_STOP) == v
  {
    NameEnd(text, v, a, next);
    hide Holds, AfterName, ValueText, Skip, Until;
    UntilReads(text, p, a.name, ATTR_STOP);
  }

  // ----- nodes -----

  lemma NamePart(name: seq<byte>)
    requires ValidName(name)
    ensures |name| > 0 && !IsBlank(name[0]) && name[0] != QUESTION && name[0] != EXCLAMATION && name[0] != SLASH
    ensures Avoids(name, END_STOP) && Avoids(name, NAME_STOP)
  {
    assert name[0] in name;
  }

  // The name and the attributes, up to the place e where the tag ends.
  lemma OpeningRead(text: seq<byte>, p: nat, node: Node, e: nat)
    requires ValidName(node.name) && ValidAttrs(node.attrs)
    requires Holds(text, p, OpeningText(node)) && e == p + |OpeningText(node)| && e <= |text| && TagEnds(text, e)
    ensures p < |text| && text[p] == LT && At(text, p + 1) != SLASH && At(text, p + 1) != EXCLAMATION
    ensures p < Skip(text, e) < |text| && NodeAt(text, p) == BodyAt(text, p, node.name, node.attrs, Skip(text, e))
  {
    hide AttrsText, TagEnds, AfterName, ValidName, ValidAttrs, NamedAttrs, BodyAt, AttrsAt, Holds;
    var n, k := p + 1, p + 1 + |node.name|;
    HoldsParts(text, p, [LT] + node.name, AttrsText(node.attrs));
    HoldsParts(text, p, [LT], node.name);
    HoldsByte(text, p, [LT], 0);
    NamePart(node.name);
    HoldsByte(text, n, node.name, 0);
    SkipNothing(text, n);
    AttrsNamed(node.attrs);
    AttrsStart(text, k, node.attrs);
    NameStops(text, k);
    UntilReads(text, n, node.name, NAME_STOP);
    AttrsRead(text, k, node.attrs, e);
    HeldText(text, n, node.name);
    EndPlace(text, e);
    hide Skip, Until;
  }

  lemma NameStops(text: seq<byte>, k: nat)
    requires AfterName(text, k)
    ensures k < |text| && text[k] in NAME_STOP
  {
  }

  lemma EndPlace(text: seq<byte>, e: nat)
    requires e <= |text| && TagEnds(text, e)
    ensures e <= Skip(text, e) < |text|
  {
  }

  lemma HeldText(text: seq<byte>, p: nat, s: seq<byte>)
    requires Holds(text, p, s)
    ensures p + |s| <= |text| && text[p..p + |s|] == s
  {
  }

  lemma {:induction false} SameMatches(s: seq<byte>)
    ensures Matches(s, s)
  {
    if s != [] { SameMatches(s[1..]); }
  }

  lemma ClosingRead(text: seq<byte>, p: nat, name: seq<byte>, end: nat)
    requires ValidName(name) && Holds(text, p, ClosingText(name)) && end == p + |ClosingText(name)|
    ensures p + 1 < end <= |text| && text[p] == LT && text[p + 1] == SLASH
    ensures ClosingAt(text, p, name) == Some(Skip(text, end))
  {
    hide ValidName, Holds, Matches;
    var b, k := p + 2, p + 2 + |name|;
    HoldsParts(text, p, [LT, SLASH] + name, [GT]);
    HoldsParts(text, p, [LT, SLASH], name);
    HoldsByte(text, p, [LT, SLASH], 0);
    HoldsByte(text, p, [LT, SLASH], 1);
    HoldsByte(text, k, [GT], 0);
    NamePart(name);
    HoldsByte(text, b, name, 0);
    SkipNothing(text, p + 1);
    SkipNothing(text, b);
    SkipNothing(text, k);
    UntilReads(text, b, name, END_STOP);
    HeldText(text, b, name);
    SameMatches(name);
  }

  // A node without children and content.
  lemma EmptyRead(text: seq<byte>, p: nat, node: Node, e: nat)
    requires IsEmpty(node) && p < e && Holds(text, e, [SPACE, SLASH, GT])
    ensures e + 3 <= |text| && TagEnds(text, e)
    ensures BodyAt(text, p, node.name, node.attrs, Skip(text, e)) == Some(Parsed(node, Skip(text, e + 3)))
  {
    HoldsByte(text, e, [SPACE, SLASH, GT], 0);
    HoldsByte(text, e, [SPACE, SLASH, GT], 1);
    HoldsByte(text, e, [SPACE, SLASH, GT], 2);
    SkipNothing(text, e + 1);
    SkipNothing(text, e + 2);
  }

  lemma OpenTagEnds(text: seq<byte>, e: nat)
    requires e < |text| && text[e] == GT
    ensures TagEnds(text, e) && Skip(text, e) == e
  {
  }

  // A node with content only.
  lemma LeafRead(text: seq<byte>, p: nat, node: Node, e: nat, end: nat)
    requires ValidName(node.name) && node.children == [] && node.content != [] && ValidContent(node.content) && p < e
    requires Holds(text, e, [GT] + node.content + ClosingText(node.name))
    requires end == e + 1 + |node.content| + |ClosingText(node.name)|
    ensures end <= |text| && TagEnds(text, e)
    ensures BodyAt(text, p, node.name, node.attrs, Skip(text, e)) == Some(Parsed(node, Skip(text, end)))
  {
    hide ValidName, Holds, ClosingText, ClosingAt, ValidContent, ContentAt, BodyAt, TagEnds, Skip, Until;
    var k := e + 1 + |node.content|;
    HoldsParts(text, e, [GT] + node.content, ClosingText(node.name));
    HoldsParts(text, e, [GT], node.content);
    HoldsByte(text, e, [GT], 0);
    OpenTagEnds(text, e);
    ClosingRead(text, k, node.name, end);
    ContentRead(text, e + 1, node.content, k);
    LeafStep(text, p, node, e, k, end);
  }

  lemma ContentRead(text: seq<byte>, c: nat, content: seq<byte>, k: nat)
    requires content != [] && ValidContent(content) && Holds(text, c, content)
    requires k == c + |content| && k < |text| && text[k] == LT
    ensures c < |text| && text[c] != LT && Skip(text, c) == c && ContentAt(text, c) == Parsed(content, k)
  {
    hide Skip;
    assert content[0] in content;
    HoldsByte(text, c, content, 0);
    SkipNothing(text, c);
    UntilReads(text, c, content, {LT});
    HeldText(text, c, content);
    SkipNothing(text, k);
  }

  lemma LeafStep(text: seq<byte>, p: nat, node: Node, e: nat, k: nat, end: nat)
    requires node.children == [] && p < e && e + 1 < k < |text| && text[e] == GT && Skip(text, e) == e
    requires text[e + 1] != LT && Skip(text, e + 1) == e + 1 && ContentAt(text, e + 1) == Parsed(node.content, k)
    requires end <= |text| && ClosingAt(text, k, node.name) == Some(Skip(text, end))
    ensures BodyAt(text, p, node.name, node.attrs, Skip(text, e)) == Some(Parsed(node, Skip(text, end)))
  {
    hide Skip, ContentAt, ClosingAt, NodeAt;
  }

  // A node with children only, when its children have been read.
  lemma ParentRead(text: seq<byte>, p: nat, node: Node, e: nat, q: nat, k: nat, end: nat)
    requires ValidName(node.name) && node.content == [] && p < e < q <= k < |text|
    requires text[e] == GT && NodesAt(text, Skip(text, e + 1)) == Some(Parsed(node.children, Skip(text, q)))
    requires Skip(text, q) == k && text[k] == LT
    requires end <= |text| && ClosingAt(text, k, node.name) == Some(Skip(text, end))
    ensures BodyAt(text, p, node.name, node.attrs, Skip(text, e)) == Some(Parsed(node, Skip(text, end)))
  {
    hide ValidName, ClosingAt, NodesAt, NodeAt;
    OpenTagEnds(text, e);
    NothingInside(text, k);
    hide Skip, ContentAt, TagEnds;
  }

  lemma NothingInside(text: seq<byte>, k: nat)
    requires k < |text| && text[k] == LT
    ensures ContentAt(text, k) == Parsed([], k)
  {
  }

  // The line break and the indentation in front of a tag.
  lemma IndentRead(text: seq<byte>, p: nat, indent: nat, k: nat)
    requires Holds(text, p, [LF] + Spaces(indent)) && k == p + 1 + indent && k < |text| && text[k] == LT
    ensures Skip(text, p) == k
  {
    SkipBlanks(text, p, [LF] + Spaces(indent));
    SkipNothing(text, k);
  }

  // A printed node is read back.
  lemma {:induction false} NodeRead(text: seq<byte>, p: nat, node: Node, indent: nat, end: nat)
    requires ValidNode(node) && Holds(text, p, NodeText(node, indent)) && end == p + |NodeText(node, indent)|
    ensures end <= |text| && p + 1 < |text| && text[p] == LT && text[p + 1] != SLASH && text[p + 1] != EXCLAMATION
    ensures NodeAt(text, p) == Some(Parsed(node, Skip(text, end)))
    decreases node, 1
  {
    hide OpeningText, TailText, ValidNode, Holds, NodeAt, BodyAt, TagEnds;
    var e := p + |OpeningText(node)|;
    HoldsParts(text, p, OpeningText(node), TailText(node, indent));
    TailRead(text, p, node, indent, e, end);
    NodeParts(node);
    HoldsInside(text, p, OpeningText(node));
    OpeningRead(text, p, node, e);
  }

  lemma NodeParts(node: Node)
    requires ValidNode(node)
    ensures ValidName(node.name) && ValidAttrs(node.attrs) && ValidContent(node.content)
    ensures node.children == [] || node.content == []
  {
    hide ValidName, ValidAttr, ValidContent;
  }

  lemma {:induction false} TailRead(text: seq<byte>, p: nat, node: Node, indent: nat, e: nat, end: nat)
    requires ValidNode(node) && p < e && Holds(text, e, TailText(node, indent)) && end == e + |TailText(node, indent)|
    ensures end <= |text| && e <= |text| && TagEnds(text, e)
    ensures p < Skip(text, e) < |text|
    ensures BodyAt(text, p, node.name, node.attrs, Skip(text, e)) == Some(Parsed(node, Skip(text, end)))
    decreases node, 0
  {
    hide ValidName, ValidAttr, ValidAttrs, ValidContent, Holds, BodyAt, ClosingText, ChildrenText;
    NodeParts(node);
    if IsEmpty(node) {
      EmptyRead(text, p, node, e);
    } else if node.children == [] {
      LeafText(node, indent);
      LeafRead(text, p, node, e, end);
    } else {
      hide ValidNode;
      var q := e + 1 + |ChildrenText(node.children, indent + 1)|;
      var k := q + 1 + indent;
      ParentText(node, indent);
      ParentParts(text, node, indent, e, q, k, end);
      ClosingRead(text, k, node.name, end);
      IndentRead(text, q, indent, k);
      ChildrenValid(node);
      NodesRead(text, e + 1, node.children, indent + 1, q);
      ParentRead(text, p, node, e, q, k, end);
      OpenTagEnds(text, e);
    }
    EndPlace(text, e);
  }

  lemma LeafText(node: Node, indent: nat)
    requires node.children == [] && node.content != []
    ensures TailText(node, indent) == [GT] + node.content + ClosingText(node.name)
  {
    assert [GT] + [] + node.content + [] == [GT] + node.content;
  }

  lemma ParentText(node: Node, indent: nat)
    requires node.children != [] && node.content == []
    ensures TailText(node, indent)
            == [GT] + (ChildrenText(node.children, indent + 1) + (([LF] + Spaces(indent)) + ClosingText(node.name)))
  {
    var a, b, c := ChildrenText(node.children, indent + 1), [LF] + Spaces(indent), ClosingText(node.name);
    assert [GT] + a + [] + b + c == [GT] + (a + (b + c));
  }

  lemma ParentParts(text: seq<byte>, node: Node, indent: nat, e: nat, q: nat, k: nat, end: nat)
    requires var s := ChildrenText(node.children, indent + 1);
             && Holds(text, e, [GT] + (s + (([LF] + Spaces(indent)) + ClosingText(node.name))))
             && q == e + 1 + |s| && k == q + 1 + indent && end == k + |ClosingText(node.name)|
    ensures e < |text| && text[e] == GT
    ensures Holds(text, e + 1, ChildrenText(node.children, indent + 1))
    ensures Holds(text, q, [LF] + Spaces(indent)) && Holds(text, k, ClosingText(node.name))
  {
    hide Holds, ChildrenText, ClosingText;
    var s := ChildrenText(node.children, indent + 1);
    var rest := ([LF] + Spaces(indent)) + ClosingText(node.name);
    HoldsParts(text, e, [GT], s + rest);
    HoldsByte(text, e, [GT], 0);
    HoldsParts(text, e + 1, s, rest);
    HoldsParts(text, q, [LF] + Spaces(indent), ClosingText(node.name));
  }

  predicate ValidNodes(nodes: seq<Node>) { forall c :: c in nodes ==> ValidNode(c) }

  lemma ChildrenValid(node: Node)
    requires ValidNode(node)
    ensures ValidNodes(node.children)
  {
  }

  lemma NodesValid(nodes: seq<Node>)
    requires ValidNodes(nodes) && nodes != []
    ensures ValidNode(nodes[0]) && ValidNodes(nodes[1..])
  {
    hide ValidNode;
    assert nodes[0] in nodes;
  }

  // The children, each on its line, up to the closing tag after them.
  lemma {:induction false} NodesRead(text: seq<byte>, p: nat, nodes: seq<Node>, indent: nat, q: nat)
    requires ValidNodes(nodes) && Holds(text, p, ChildrenText(nodes, indent)) && q == p + |ChildrenText(nodes, indent)|
    requires q <= |text| && At(text, Skip(text, q)) == LT && At(text, Skip(text, q) + 1) == SLASH
    ensures p <= |text| && NodesAt(text, Skip(text, p)) == Some(Parsed(nodes, Skip(text, q)))
    decreases nodes, 2
  {
    hide NodeText, NodesAt, NodeAt, ValidNode, ValidNodes, Holds, ChildrenText, Skip, At, Spaces;
    if nodes == [] {
      NodesNone(text, p, nodes, indent, q);
    } else {
      var i := p + 1 + indent;
      var next := i + |NodeText(nodes[0], indent)|;
      NodesValid(nodes);
      ChildrenParts(text, p, nodes, indent, i, next);
      NodeRead(text, i, nodes[0], indent, next);
      IndentRead(text, p, indent, i);
      NodesRead(text, next, nodes[1..], indent, q);
      NodesStep(text, i, nodes, next, q);
    }
  }

  lemma NodesNone(text: seq<byte>, p: nat, nodes: seq<Node>, indent: nat, q: nat)
    requires nodes == [] && q == p + |ChildrenText(nodes, indent)| && q <= |text|
    requires At(text, Skip(text, q)) == LT && At(text, Skip(text, q) + 1) == SLASH
    ensures p <= |text| && NodesAt(text, Skip(text, p)) == Some(Parsed(nodes, Skip(text, q)))
  {
    hide Skip, NodeAt;
  }

  lemma ChildrenParts(text: seq<byte>, p: nat, nodes: seq<Node>, indent: nat, i: nat, next: nat)
    requires nodes != [] && Holds(text, p, ChildrenText(nodes, indent))
    requires i == p + 1 + indent && next == i + |NodeText(nodes[0], indent)|
    ensures Holds(text, p, [LF] + Spaces(indent)) && Holds(text, i, NodeText(nodes[0], indent))
    ensures Holds(text, next, ChildrenText(nodes[1..], indent))
    ensures next + |ChildrenText(nodes[1..], indent)| == p + |ChildrenText(nodes, indent)|
  {
    hide NodeText, Holds;
    var a, b, c := [LF] + Spaces(indent), NodeText(nodes[0], indent), ChildrenText(nodes[1..], indent);
    assert ChildrenText(nodes, indent) == a + b + c;
    hide ChildrenText;
    HoldsParts(text, p, a + b, c);
    HoldsParts(text, p, a, b);
  }

  lemma NodesStep(text: seq<byte>, i: nat, nodes: seq<Node>, next: nat, q: nat)
    requires nodes != [] && i + 1 < |text| && text[i] == LT && text[i + 1] != SLASH && text[i + 1] != EXCLAMATION
    requires next <= |text| && q <= |text| && NodeAt(text, i) == Some(Parsed(nodes[0], Skip(text, next)))
    requires NodesAt(text, Skip(text, next)) == Some(Parsed(nodes[1..], Skip(text, q)))
    ensures NodesAt(text, i) == Some(Parsed(nodes, Skip(text, q)))
  {
    hide NodeAt, Skip;
    assert [nodes[0]] + nodes[1..] == nodes;
  }

  // ----- whole texts -----

  // Printing a tree, at any depth and indentation, and parsing the text gives the same tree.
  lemma RoundTrip(node: Node, indent: nat, rest: seq<byte>)
    requires ValidNode(node)
    ensures Parse(PrintedNode(node, indent) + rest) == Some(node)
  {
    hide ValidNode, NodeText, NodeAt, Skip, Holds, IsBlank;
    var text := PrintedNode(node, indent) + rest;
    var body := NodeText(node, indent);
    HoldsPrefix(PrintedNode(node, indent), rest);
    AllBlank(indent);
    HoldsParts(text, 0, Spaces(indent), body);
    NodeRead(text, indent, node, indent, indent + |body|);
    SkipBlanks(text, 0, Spaces(indent));
    TagNotBlank(text, indent);
  }

  lemma TagNotBlank(text: seq<byte>, i: nat)
    requires i < |text| && text[i] == LT
    ensures Skip(text, i) == i
  {
  }

  lemma AllBlank(n: nat)
    ensures forall c :: c in Spaces(n) ==> IsBlank(c)
  {
  }

  lemma HoldsPrefix(s: seq<byte>, rest: seq<byte>)
    ensures Holds(s + rest, 0, s)
  {
  }

  // The same with the prolog in front.
  lemma RoundTripWithProlog(node: Node, rest: seq<byte>)
    requires ValidNode(node)
    ensures Parse(Prolog() + PrintedNode(node, 0) + rest) == Some(node)
  {
    hide ValidNode, NodeText, Skip, NodeAt, InstructionEnd, Prolog;
    var text := Prolog() + PrintedNode(node, 0) + rest;
    var body := NodeText(node, 0);
    assert Prolog() + PrintedNode(node, 0) == Prolog() + body;
    HoldsPrefix(Prolog() + body, rest);
    HoldsParts(text, 0, Prolog(), body);
    PrologLength();
    NodeRead(text, 39, node, 0, 39 + |body|);
    SkipNothing(text, 39);
    PrologRead(text);
  }

  // The prolog alone is no document.
  lemma PrologIsNoDocument()
    ensures Parse(Prolog()) == None
  {
    hide Prolog, InstructionEnd;
    PrologLength();
    HoldsPrefix(Prolog(), []);
    assert Prolog() + [] == Prolog();
    PrologRead(Prolog());
  }

  lemma PrologLength()
    ensures |PrologBody()| == 34 && |Prolog()| == 39
  {
  }

  lemma PrologAvoids()
    ensures Avoids(PrologBody(), {QUESTION})
  {
    var s := "xml version=\"1.0\" encoding=\"UTF-8\"";
    assert forall i :: 0 <= i < |s| ==> s[i] as int % TWO_8 != QUESTION;
  }

  // The prolog is skipped with the newline after it.
  lemma PrologRead(text: seq<byte>)
    requires Holds(text, 0, Prolog()) && 39 <= |text| && Skip(text, 39) == 39
    ensures Skip(text, 0) == 0 && NodeAt(text, 0) == NodeAt(text, 39)
  {
    hide NodeAt, PrologBody;
    PrologLength();
    var end: seq<byte> := [QUESTION, GT, LF];
    HoldsParts(text, 0, [LT, QUESTION], PrologBody() + end);
    HoldsParts(text, 2, PrologBody(), end);
    HoldsByte(text, 0, [LT, QUESTION], 0);
    HoldsByte(text, 0, [LT, QUESTION], 1);
    HoldsByte(text, 36, end, 0);
    HoldsByte(text, 36, end, 1);
    HoldsByte(text, 36, end, 2);
    PrologAvoids();
    UntilReads(text, 2, PrologBody(), {QUESTION});
    SkipNothing(text, 36);
    InstructionNode(text);
  }

  lemma InstructionNode(text: seq<byte>)
    requires 39 <= |text| && text[0] == LT && text[1] == QUESTION
    requires Until(text, 2, {QUESTION}) == 36 && Skip(text, 36) == 36
    requires text[36] == QUESTION && text[37] == GT && text[38] == LF && Skip(text, 39) == 39
    ensures NodeAt(text, 0) == NodeAt(text, 39)
  {
    assert Skip(text, 38) == 39;
    assert InstructionEnd(text, 2) == Some(39);
  }
}
