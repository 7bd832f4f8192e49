/** What the XML printer writes is one of the layouts that the parser reads (xml.c). */
module XmlPrinted {
  import opened Bytes
  import opened Wrappers
  import opened Scanner
  import opened Strings
  import opened Xml
  import opened XmlRoundTrip
  import L = XmlLayout

  // The conditions on names, values and contents, in the words of the layouts.
  lemma NameLaid(name: seq<byte>)
    requires ValidName(name)
    ensures L.Without(name, " />\t\r\n") && L.Without(name, " \t>") && !L.Blank(name[..1])
  {
    var s, e := " />\t\r\n", " \t>";
    assert s[0] == ' ' && s[1] == '/' && s[2] == '>' && s[3] == '\t' && s[4] == '\r' && s[5] == '\n' && |s| == 6;
    assert e[0] == ' ' && e[1] == '\t' && e[2] == '>' && |e| == 3;
    assert name[0] in name;
    assert name[..1][0] in name[..1];
  }

  lemma AttrNameLaid(name: seq<byte>)
    requires ValidAttrName(name)
    ensures L.Without(name, "=> \t\r\n")
  {
    var s := "=> \t\r\n";
    assert s[0] == '=' && s[1] == '>' && s[2] == ' ' && s[3] == '\t' && s[4] == '\r' && s[5] == '\n' && |s| == 6;
  }

  lemma ContentLaid(content: seq<byte>)
    requires ValidContent(content) && content != []
    ensures L.Without(content, "<") && !L.Blank(content[..1])
  {
    var s := "<";
    assert s[0] == '<' && |s| == 1;
    assert content[..1][0] in content[..1];
  }

  lemma {:induction false} ValueLaid(value: seq<byte>, i: nat)
    requires i <= |value| && CloseQuote(value + [QUOTE], i, QUOTE, L.Slashes(value, i) % 2 == 1) == Some(|value|)
    ensures forall k :: i <= k < |value| ==> value[k] != 10 && (value[k] == QUOTE ==> L.Slashes(value, k) % 2 == 1)
    ensures L.Slashes(value, |value|) % 2 == 0
    decreases |value| - i
  {
    assert (value + [QUOTE])[i] == if i < |value| then value[i] else QUOTE;
    if i < |value| { ValueLaid(value, i + 1); }
  }

  // ----- attributes -----

  function ItemOf(a: Attr, gap: seq<byte>): L.Item {
    if a.value == [] then L.Flag(a.name, gap) else L.Valued(a.name, [], [], QUOTE, a.value, gap)
  }

  // Each attribute stands behind a space; the last one is followed by other blanks.
  function ItemsOf(attrs: seq<Attr>, last: seq<byte>): seq<L.Item> {
    if attrs == [] then []
    else [ItemOf(attrs[0], if attrs[1..] == [] then last else [SPACE])] + ItemsOf(attrs[1..], last)
  }

  lemma ItemLaid(a: Attr, gap: seq<byte>, end: byte)
    requires ValidAttr(a) && L.Blank(gap) && (gap == [] ==> end == GT)
    ensures ItemOf(a, gap).Valid(end) && ItemOf(a, gap).Meaning() == a
    ensures [SPACE] + ItemOf(a, gap).Text() == AttrText(a) + gap
  {
    AttrNameLaid(a.name);
    ValueLaid(a.value, 0);
    if a.value == [] {
      assert [SPACE] + (a.name + gap) == ([SPACE] + a.name + []) + gap;
    } else {
      assert [SPACE] + (a.name + ([] + ([EQUALS] + ([] + ([QUOTE] + (a.value + ([QUOTE] + gap)))))))
          == ([SPACE] + a.name + ([EQUALS, QUOTE] + a.value + [QUOTE])) + gap;
    }
  }

  lemma {:induction false} ItemsLaid(attrs: seq<Attr>, last: seq<byte>, end: byte)
    requires ValidAttrs(attrs) && L.Blank(last) && (last == [] ==> end == GT)
    ensures L.ValidItems(ItemsOf(attrs, last), end) && L.ItemMeanings(ItemsOf(attrs, last)) == attrs
    ensures attrs != [] ==> [SPACE] + L.ItemsText(ItemsOf(attrs, last)) == AttrsText(attrs) + last
    decreases |attrs|
  {
    hide ValidAttr, AttrText, L.Item.Valid, L.Item.Text, ItemOf;
    if attrs != [] {
      var rest, more := attrs[1..], ItemsOf(attrs[1..], last);
      var gap := if rest == [] then last else [SPACE];
      var x := ItemOf(attrs[0], gap);
      AttrsValid(attrs);
      ItemsLaid(rest, last, end);
      ItemLaid(attrs[0], gap, L.Behind(more, end));
      assert ItemsOf(attrs, last) == [x] + more;
      assert ([x] + more)[1..] == more;
      if rest == [] {
        assert x.Text() + [] == x.Text() && AttrText(attrs[0]) + [] == AttrText(attrs[0]);
      } else {
        assert [SPACE] + (x.Text() + L.ItemsText(more)) == ([SPACE] + x.Text()) + L.ItemsText(more);
        assert (AttrText(attrs[0]) + [SPACE]) + L.ItemsText(more) == AttrText(attrs[0]) + ([SPACE] + L.ItemsText(more));
        assert AttrText(attrs[0]) + (AttrsText(rest) + last) == (AttrText(attrs[0]) + AttrsText(rest)) + last;
      }
    }
  }

  // ----- nodes -----

  function Break(indent: nat): seq<byte> { [LF] + Spaces(indent) }

  function TagOf(node: Node, indent: nat): L.Tag
    decreases node, 1
  {
    var last := if IsEmpty(node) then [SPACE] else [];
    L.Tag([], [], node.name, if node.attrs == [] then last else [SPACE], ItemsOf(node.attrs, last), TailOf(node, indent))
  }

  function TailOf(node: Node, indent: nat): L.Tail
    decreases node, 0
  {
    if IsEmpty(node) then L.Single([])
    else L.Paired(if node.children == [] then [] else Break(indent + 1),
                  ChildrenOf(node.children, indent + 1, Break(indent)), node.content, [], [], node.name, [])
  }

  // The sub nodes, each on a line of its own, and the line break behind the last.
  function ChildrenOf(nodes: seq<Node>, indent: nat, last: seq<byte>): seq<L.Child>
    decreases nodes, 2
  {
    if nodes == [] then []
    else [L.Child(TagOf(nodes[0], indent), if nodes[1..] == [] then last else Break(indent))]
         + ChildrenOf(nodes[1..], indent, last)
  }

  lemma BreakBlank(indent: nat)
    ensures L.Blank(Break(indent)) && L.Blank([SPACE])
  {
  }

  lemma {:induction false} TagLaid(node: Node, indent: nat)
    requires ValidNode(node)
    ensures L.ValidTag(TagOf(node, indent)) && L.Meaning(TagOf(node, indent)) == node && L.Agrees(TagOf(node, indent))
    ensures L.TagText(TagOf(node, indent)) == NodeText(node, indent)
    decreases node, 1
  {
    hide ValidName, ValidAttr, ValidAttrs, ValidContent, L.ValidItems, L.Blank, L.Without, ItemsOf, ChildrenOf, AttrsText, TailText, L.TailText,
         L.ValidTail, L.AllAgree, L.ChildMeanings, Matches;
    var t, last := TagOf(node, indent), if IsEmpty(node) then [SPACE] else [];
    NodeParts(node);
    NameLaid(node.name);
    BreakBlank(0);
    NoBlanks();
    NameStart(node.name);
    SameMatches(node.name);
    TailLaid(node, indent);
    ItemsLaid(node.attrs, last, L.EndOf(t.tail));
    HeadLaid(node, indent);
  }

  lemma NoBlanks()
    ensures ItemsOf([], []) == [] && ItemsOf([], [SPACE]) == []
    ensures L.Blank([]) && L.ValidInstructions([]) && L.InstructionsText([]) == [] && L.ItemsText(ItemsOf([], [])) == []
    ensures L.ItemsText(ItemsOf([], [SPACE])) == [] && AttrsText([]) == []
  {
  }

  lemma NameStart(name: seq<byte>)
    requires ValidName(name)
    ensures name != [] && name[0] != '?' as int && name[0] != '!' as int
  {
  }

  // The text of a tag, from that of its attributes and of its tail.
  lemma HeadLaid(node: Node, indent: nat)
    requires var t := TagOf(node, indent);
             var last := if IsEmpty(node) then [SPACE] else [];
             && (node.attrs != [] ==> [SPACE] + L.ItemsText(t.items) == AttrsText(node.attrs) + last)
             && (node.attrs == [] ==> L.ItemsText(t.items) == [] && AttrsText(node.attrs) == [])
             && last + L.TailText(t.tail) == TailText(node, indent)
             && L.InstructionsText([]) == []
    ensures L.TagText(TagOf(node, indent)) == NodeText(node, indent)
  {
    hide AttrsText, TailText, L.TailText, L.ItemsText, L.InstructionsText, ItemsOf, TailOf;
    var t, last := TagOf(node, indent), if IsEmpty(node) then [SPACE] else [];
    var x, y, z := L.ItemsText(t.items), L.TailText(t.tail), AttrsText(node.attrs);
    assert [] + ([LT] + ([] + (node.name + (t.gap + (x + y))))) == [LT] + node.name + ((t.gap + x) + y);
    if node.attrs != [] {
      assert (z + last) + y == z + (last + y);
    } else {
      assert (last + []) + y == last + y && [] + (last + y) == last + y;
    }
    assert [LT] + node.name + (z + (last + y)) == ([LT] + node.name + z) + (last + y);
  }

  lemma {:induction false} TailLaid(node: Node, indent: nat)
    requires ValidNode(node)
    ensures var tail := TailOf(node, indent);
            && L.ValidTail(tail) && (if IsEmpty(node) then [SPACE] else []) + L.TailText(tail) == TailText(node, indent)
            && (tail.Paired? ==> tail.content == node.content && tail.end == node.name && L.AllAgree(tail.children)
                                 && L.ChildMeanings(tail.children) == node.children)
    decreases node, 0
  {
    hide ValidName, ValidAttr, ValidAttrs, ValidContent, L.Without, ChildrenOf, ChildrenText, ValidNode;
    NodeParts(node);
    ChildrenValid(node);
    BreakBlank(indent);
    BreakBlank(indent + 1);
    NameLaid(node.name);
    NameStart(node.name);
    if IsEmpty(node) {
      assert [SPACE] + (['/' as byte] + ([] + ['>' as byte])) == [SPACE, SLASH, GT];
    } else {
      if node.content != [] { ContentLaid(node.content); }
      ChildrenLaid(node.children, indent + 1, Break(indent));
      TailTextLaid(node, indent);
    }
  }

  lemma TailTextLaid(node: Node, indent: nat)
    requires !IsEmpty(node) && (node.children == [] || node.content == [])
    requires node.children != [] ==>
               Break(indent + 1) + L.ChildrenText(ChildrenOf(node.children, indent + 1, Break(indent)))
               == ChildrenText(node.children, indent + 1) + Break(indent)
    ensures L.TailText(TailOf(node, indent)) == TailText(node, indent)
  {
    hide ChildrenText, L.ChildrenText, ChildrenOf, Break;
    var tail := TailOf(node, indent);
    var x, y, z := L.ChildrenText(tail.children), ChildrenText(node.children, indent + 1), ClosingText(node.name);
    assert L.ClosingText([], [], node.name, []) == z;
    if node.children == [] {
      NoChildren(indent);
      assert [GT] + ([] + ([] + (node.content + z))) == [GT] + [] + node.content + [] + z;
    } else {
      BreakIs(indent);
      ParentJoined(tail.start, x, y, Break(indent), z);
    }
  }

  lemma ParentJoined(start: seq<byte>, x: seq<byte>, y: seq<byte>, last: seq<byte>, z: seq<byte>)
    requires start + x == y + last
    ensures [GT] + (start + (x + ([] + z))) == [GT] + y + [] + last + z
  {
    assert start + (x + ([] + z)) == (start + x) + z;
    assert [GT] + ((y + last) + z) == [GT] + y + [] + last + z;
  }

  lemma BreakIs(indent: nat)
    ensures Break(indent) == [LF] + Spaces(indent)
  {
  }

  lemma NoChildren(indent: nat)
    ensures L.ChildrenText([]) == [] && ChildrenOf([], indent + 1, Break(indent)) == [] && ChildrenText([], indent + 1) == []
  {
  }

  lemma {:induction false} ChildrenLaid(nodes: seq<Node>, indent: nat, last: seq<byte>)
    requires ValidNodes(nodes) && L.Blank(last)
    ensures var cs := ChildrenOf(nodes, indent, last);
            && (forall c :: c in cs ==> L.ValidTag(c.tag) && L.Blank(c.gap)) && L.AllAgree(cs) && L.ChildMeanings(cs) == nodes
            && (nodes != [] ==> Break(indent) + L.ChildrenText(cs) == ChildrenText(nodes, indent) + last)
    decreases nodes, 2
  {
    hide ValidNode, TagOf, L.ValidTag, L.Agrees, L.Meaning, L.TagText, NodeText, L.Blank, Break;
    if nodes != [] {
      var rest := nodes[1..];
      var gap := if rest == [] then last else Break(indent);
      var c, more := L.Child(TagOf(nodes[0], indent), gap), ChildrenOf(rest, indent, last);
      NodesValid(nodes);
      BreakBlank(indent);
      TagLaid(nodes[0], indent);
      ChildrenLaid(rest, indent, last);
      FirstChild(c, more);
      ChildrenTextLaid(nodes, indent, last);
    }
  }

  lemma FirstChild(c: L.Child, more: seq<L.Child>)
    ensures var cs := [c] + more;
            && L.ChildMeanings(cs) == [L.Meaning(c.tag)] + L.ChildMeanings(more)
            && (L.AllAgree(cs) <==> L.Agrees(c.tag) && L.AllAgree(more))
            && L.ChildrenText(cs) == L.TagText(c.tag) + (c.gap + L.ChildrenText(more))
  {
    hide L.Meaning, L.Agrees, L.TagText;
    assert ([c] + more)[1..] == more;
  }

  lemma ChildrenTextLaid(nodes: seq<Node>, indent: nat, last: seq<byte>)
    requires nodes != [] && L.TagText(TagOf(nodes[0], indent)) == NodeText(nodes[0], indent)
    requires nodes[1..] != [] ==>
               Break(indent) + L.ChildrenText(ChildrenOf(nodes[1..], indent, last)) == ChildrenText(nodes[1..], indent) + last
    ensures Break(indent) + L.ChildrenText(ChildrenOf(nodes, indent, last)) == ChildrenText(nodes, indent) + last
  {
    hide L.TagText, NodeText, TagOf, Break;
    var rest := nodes[1..];
    var gap := if rest == [] then last else Break(indent);
    var c, more := L.Child(TagOf(nodes[0], indent), gap), ChildrenOf(rest, indent, last);
    FirstChild(c, more);
    BreakIs(indent);
    if rest == [] {
      NothingJoined(last);
    }
    Joined(Break(indent), NodeText(nodes[0], indent), gap, L.ChildrenText(more), ChildrenText(rest, indent), last);
  }

  lemma NothingJoined(last: seq<byte>)
    ensures last + L.ChildrenText([]) == last && [] + last == last
  {
  }

  lemma Joined(b: seq<byte>, n: seq<byte>, gap: seq<byte>, x: seq<byte>, y: seq<byte>, last: seq<byte>)
    requires gap + x == y + last
    ensures b + (n + (gap + x)) == b + n + y + last
  {
    assert b + (n + (y + last)) == b + n + y + last;
  }

  // A printed tree is one of its layouts; that it is read back is an instance of how layouts are read.
  lemma PrintedIsLaidOut(node: Node, indent: nat, rest: seq<byte>)
    requires ValidNode(node)
    ensures var t := TagOf(node, indent);
            && L.ValidTag(t) && L.Agrees(t) && L.Meaning(t) == node && L.TagText(t) == NodeText(node, indent)
            && Parse(Spaces(indent) + L.TagText(t) + rest) == Some(node)
  {
    hide ValidNode, NodeText, TagOf, L.ValidTag, L.Agrees, L.Meaning, L.TagText, Parse;
    TagLaid(node, indent);
    SpacesBlank(indent);
    L.LaidOutRead(Spaces(indent), TagOf(node, indent), rest);
  }

  lemma SpacesBlank(n: nat)
    ensures L.Blank(Spaces(n))
  {
  }

  // The prolog is a processing instruction with a line break behind it.
  lemma PrologIsInstruction()
    ensures var x := L.Instruction(Ascii("xml version=\"1.0\" encoding=\"UTF-8\""), [10]);
            x.Valid() && Prolog() == x.Text()
  {
    var s := "xml version=\"1.0\" encoding=\"UTF-8\"";
    assert forall i :: 0 <= i < |s| ==> s[i] as int % 256 != '?' as int;
  }
}
