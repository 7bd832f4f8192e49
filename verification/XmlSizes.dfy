/** The size checks of the XML printer (xml.c): when a tree is printed, and what is written beyond the
    size. */
module XmlSizes {
  import opened Bytes
  import opened Scanner
  import opened Xml

  // ----- when a tree is printed -----

  predicate AttrsFit(attrs: seq<Attr>, left: int) {
    attrs == []
    || (left >= |attrs[0].name| + |attrs[0].value| + 4 && AttrsFit(attrs[1..], left - |AttrText(attrs[0])|))
  }

  predicate OpeningFits(node: Node, indent: nat, left: int) {
    left >= |node.name| + indent + 5 && AttrsFit(node.attrs, left - indent - 1 - |node.name|)
  }

  // The size checks of xml_print_node, with left bytes to spare.  There is none before the end of an
  // empty node, so that three bytes more may be written.
  predicate NodeFits(node: Node, indent: nat, left: int)
    decreases node, 1
  {
    var tail := left - indent - |OpeningText(node)|;
    && OpeningFits(node, indent, left)
    && (IsEmpty(node) || (tail >= 1 && InsideFits(node, indent, tail - 1)))
  }

  // The children, the content and the closing tag.
  predicate InsideFits(node: Node, indent: nat, left: int)
    decreases node, 0
  {
    var content := left - |ChildrenText(node.children, indent + 1)|;
    var closing := content - |node.content|;
    && ChildrenFit(node.children, indent, left)
    && (node.content != [] ==> content >= |node.content|)
    && closing >= |node.name| + if node.children != [] then 5 + indent else 3
  }

  predicate ChildrenFit(nodes: seq<Node>, indent: nat, left: int)
    decreases nodes, 2
  {
    nodes == []
    || (left >= indent + 3 && NodeFits(nodes[0], indent + 1, left - 1)
        && ChildrenFit(nodes[1..], indent, left - 1 - |PrintedNode(nodes[0], indent + 1)|))
  }

  // ----- room -----

  lemma {:induction false} AttrsHaveRoom(attrs: seq<Attr>, left: int)
    requires |AttrsText(attrs)| + 3 <= left
    ensures AttrsFit(attrs, left)
  {
    if attrs != [] { AttrsHaveRoom(attrs[1..], left - |AttrText(attrs[0])|); }
  }

  // One byte more than the text takes is always enough.
  lemma {:induction false} NodeHasRoom(node: Node, indent: nat, left: int)
    requires |PrintedNode(node, indent)| < left
    ensures NodeFits(node, indent, left)
    decreases node, 1
  {
    hide NodeText, TailText, AttrsText, AttrsFit, InsideFits, ChildrenText;
    TailSize(node, indent);
    NodeSize(node, indent);
    AttrsHaveRoom(node.attrs, left - indent - 1 - |node.name|);
    if !IsEmpty(node) { InsideHasRoom(node, indent, left - indent - |OpeningText(node)| - 1); }
  }

  lemma NodeSize(node: Node, indent: nat)
    ensures |NodeText(node, indent)| == |OpeningText(node)| + |TailText(node, indent)|
  {
    hide OpeningText, TailText;
  }

  lemma TailSize(node: Node, indent: nat)
    ensures IsEmpty(node) ==> |TailText(node, indent)| == 3
    ensures !IsEmpty(node) ==>
              |TailText(node, indent)|
              == 1 + |ChildrenText(node.children, indent + 1)| + |node.content|
                 + (if node.children == [] then 0 else 1 + indent) + |node.name| + 3
  {
    hide ChildrenText;
  }

  lemma {:induction false} InsideHasRoom(node: Node, indent: nat, left: int)
    requires |ChildrenText(node.children, indent + 1)| + |node.content|
             + (if node.children == [] then 0 else 1 + indent) + |node.name| + 3 < left
    ensures InsideFits(node, indent, left)
    decreases node, 0
  {
    hide ChildrenText, ChildrenFit;
    ChildrenHaveRoom(node.children, indent, left);
  }

  lemma {:induction false} ChildrenHaveRoom(nodes: seq<Node>, indent: nat, left: int)
    requires |ChildrenText(nodes, indent + 1)| < left
    ensures ChildrenFit(nodes, indent, left)
    decreases nodes, 2
  {
    hide NodeText, NodeFits;
    if nodes != [] {
      ChildSize(nodes, indent + 1);
      NodeHasRoom(nodes[0], indent + 1, left - 1);
      ChildrenHaveRoom(nodes[1..], indent, left - 1 - |PrintedNode(nodes[0], indent + 1)|);
    }
  }

  lemma ChildSize(nodes: seq<Node>, indent: nat)
    requires nodes != []
    ensures |ChildrenText(nodes, indent)| == 1 + |PrintedNode(nodes[0], indent)| + |ChildrenText(nodes[1..], indent)|
    ensures |PrintedNode(nodes[0], indent)| >= indent + 1
  {
    hide NodeText;
  }

  // ----- exactly how much room is asked for -----

  // What the checks ask for beyond the text: one byte for a node without attributes and contents, and for one with
  // children; nothing for one with contents; for an empty node they miss the end behind a value.
  function Margin(node: Node): int {
    if node.children != [] then 1
    else if node.content != [] then 0
    else if node.attrs == [] then 1
    else if EndsWithValue(node.attrs) then -3
    else 0
  }

  lemma {:induction false} AttrsFitExactly(attrs: seq<Attr>, left: int)
    requires attrs != []
    ensures AttrsFit(attrs, left) <==> left >= |AttrsText(attrs)| + if EndsWithValue(attrs) then 0 else 3
    ensures |AttrsText(attrs)| >= if EndsWithValue(attrs) then 5 else 1
  {
    var first, rest := AttrText(attrs[0]), attrs[1..];
    assert AttrsText(attrs) == first + AttrsText(rest);
    assert AttrsFit(attrs, left) <==> left >= |attrs[0].name| + |attrs[0].value| + 4 && AttrsFit(rest, left - |first|);
    if rest == [] {
      assert AttrsText(rest) == [];
    } else {
      assert attrs[|attrs| - 1] == rest[|rest| - 1];
      AttrsFitExactly(rest, left - |first|);
    }
  }

  lemma OpeningFitsExactly(node: Node, indent: nat, left: int)
    ensures OpeningFits(node, indent, left)
            <==> left - indent - |OpeningText(node)| >= if node.attrs == [] then 4 else if EndsWithValue(node.attrs) then 0 else 3
  {
    hide AttrsText, AttrsFit;
    if node.attrs == [] { NothingToFit(left - indent - 1 - |node.name|); }
    else { AttrsFitExactly(node.attrs, left - indent - 1 - |node.name|); }
  }

  lemma NothingToFit(left: int)
    ensures AttrsText([]) == [] && AttrsFit([], left)
  {
  }

  lemma InsideFitsExactly(node: Node, indent: nat, left: int)
    ensures InsideFits(node, indent, left)
            <==> left >= |ChildrenText(node.children, indent + 1)| + |node.content| + |node.name|
                         + if node.children != [] then 5 + indent else 3
  {
    hide ChildrenText, ChildrenFit;
    if left > |ChildrenText(node.children, indent + 1)| { ChildrenHaveRoom(node.children, indent, left); }
  }

  // A node is printed if and only if its text and that much more fit.
  lemma FitsExactly(node: Node, indent: nat, left: int)
    ensures NodeFits(node, indent, left) <==> left >= |PrintedNode(node, indent)| + Margin(node)
  {
    hide NodeText, TailText, OpeningText, OpeningFits, InsideFits, ChildrenText;
    TailSize(node, indent);
    NodeSize(node, indent);
    OpeningFitsExactly(node, indent, left);
    InsideFitsExactly(node, indent, left - indent - |OpeningText(node)| - 1);
    assert NodeFits(node, indent, left)
      <==> OpeningFits(node, indent, left)
           && (IsEmpty(node) || (left - indent - |OpeningText(node)| >= 1
                                 && InsideFits(node, indent, left - indent - |OpeningText(node)| - 1)));
  }

  // ----- beyond the size -----

  // The number of bytes that xml_print_node writes beyond len, whether it succeeds or not.
  function NodeBeyond(node: Node, indent: nat, len: int): nat
    decreases node, 1
  {
    var tail := len - indent - |OpeningText(node)|;
    if !OpeningFits(node, indent, len) then 0
    else if IsEmpty(node) then if tail < 3 then 3 - tail else 0
    else if tail < 1 then 0
    else ChildrenBeyond(node.children, indent, tail - 1)
  }

  function ChildrenBeyond(nodes: seq<Node>, indent: nat, left: int): nat
    decreases nodes, 2
  {
    if nodes == [] || left < indent + 3 then 0
    else if !NodeFits(nodes[0], indent + 1, left - 1) || NodeBeyond(nodes[0], indent + 1, left - 1) > 0 then
      NodeBeyond(nodes[0], indent + 1, left - 1)
    else ChildrenBeyond(nodes[1..], indent, left - 1 - |PrintedNode(nodes[0], indent + 1)|)
  }

  // The last thing in the opening tag is the value of an attribute.
  predicate EndsWithValue(attrs: seq<Attr>) { attrs != [] && attrs[|attrs| - 1].value != [] }

  // An empty node that ends with the value of an attribute is the node itself or inside it, and its text
  // ends at offset k.
  predicate EmptyEndsAt(node: Node, indent: nat, k: int)
    decreases node, 1
  {
    if IsEmpty(node) then EndsWithValue(node.attrs) && k == |PrintedNode(node, indent)|
    else EmptyEndsInside(node.children, indent + 1, k - indent - |OpeningText(node)| - 1)
  }

  predicate EmptyEndsInside(nodes: seq<Node>, indent: nat, k: int)
    decreases nodes, 2
  {
    nodes != []
    && (EmptyEndsAt(nodes[0], indent, k - 1)
        || EmptyEndsInside(nodes[1..], indent, k - 1 - |PrintedNode(nodes[0], indent)|))
  }

  lemma AttrsSplit(attrs: seq<Attr>)
    requires attrs != []
    ensures |AttrsText(attrs)| == |AttrText(attrs[0])| + |AttrsText(attrs[1..])|
    ensures attrs[0].value != [] ==> |AttrText(attrs[0])| == |attrs[0].name| + |attrs[0].value| + 4
    ensures attrs[0].value == [] ==> |AttrText(attrs[0])| == |attrs[0].name| + |attrs[0].value| + 1
  {
  }

  // With less than three bytes to spare, the attributes pass their checks exactly when the last one has a value.
  lemma {:induction false} AttrsFitTightly(attrs: seq<Attr>, t: int)
    requires attrs != [] && 0 <= t < 3
    ensures AttrsFit(attrs, |AttrsText(attrs)| + t) <==> EndsWithValue(attrs)
    ensures EndsWithValue(attrs) ==> |AttrsText(attrs)| >= 5
  {
    hide AttrText, AttrsText;
    AttrsSplit(attrs);
    NoAttrs();
    if |attrs| == 1 {
      assert attrs[1..] == [];
    } else {
      assert attrs[1..][|attrs| - 2] == attrs[|attrs| - 1];
      AttrsFitTightly(attrs[1..], t);
    }
  }

  lemma NoAttrs()
    ensures AttrsText([]) == []
  {
  }

  lemma OpeningSize(node: Node)
    ensures |OpeningText(node)| == 1 + |node.name| + |AttrsText(node.attrs)|
  {
  }

  lemma PrintedSize(node: Node, indent: nat)
    ensures |PrintedNode(node, indent)| == indent + |OpeningText(node)| + |TailText(node, indent)|
    ensures IsEmpty(node) ==> |PrintedNode(node, indent)| == indent + |OpeningText(node)| + 3
  {
    hide OpeningText;
    TailSize(node, indent);
    hide TailText;
  }

  lemma {:induction false} AttrsBound(attrs: seq<Attr>, left: int)
    requires AttrsFit(attrs, left) && left >= 0
    ensures |AttrsText(attrs)| <= left
  {
    hide AttrText;
    if attrs != [] {
      AttrsSplit(attrs);
      AttrsBound(attrs[1..], left - |AttrText(attrs[0])|);
    }
  }

  // The opening tag does not go beyond the size.
  lemma OpeningBound(node: Node, indent: nat, len: int)
    requires OpeningFits(node, indent, len)
    ensures indent + |OpeningText(node)| <= len
  {
    hide AttrsText, AttrsFit;
    OpeningSize(node);
    AttrsBound(node.attrs, len - indent - 1 - |node.name|);
  }

  lemma {:induction false} BeyondBound(node: Node, indent: nat, len: int)
    ensures NodeBeyond(node, indent, len) <= 3
    decreases node, 1
  {
    hide OpeningText, OpeningFits, ChildrenBeyond;
    if OpeningFits(node, indent, len) {
      OpeningBound(node, indent, len);
      ChildrenBeyondBound(node.children, indent, len - indent - |OpeningText(node)| - 1);
    }
  }

  lemma {:induction false} ChildrenBeyondBound(nodes: seq<Node>, indent: nat, left: int)
    ensures ChildrenBeyond(nodes, indent, left) <= 3
    decreases nodes, 2
  {
    hide NodeFits, NodeBeyond, PrintedNode;
    if nodes != [] {
      BeyondBound(nodes[0], indent + 1, left - 1);
      ChildrenBeyondBound(nodes[1..], indent, left - 1 - |PrintedNode(nodes[0], indent + 1)|);
    }
  }

  // An empty node with less room than its text takes: its opening tag passes the checks exactly when it ends
  // with the value of an attribute.
  lemma EmptyTightly(node: Node, indent: nat, len: int)
    requires IsEmpty(node) && |PrintedNode(node, indent)| - 3 <= len < |PrintedNode(node, indent)|
    ensures OpeningFits(node, indent, len) <==> EndsWithValue(node.attrs)
  {
    hide AttrsText, AttrsFit, OpeningText, PrintedNode;
    PrintedSize(node, indent);
    OpeningSize(node);
    NoAttrs();
    if node.attrs != [] { AttrsFitTightly(node.attrs, len - indent - |OpeningText(node)|); }
  }

  lemma {:induction false} EndsLate(node: Node, indent: nat, k: int)
    requires EmptyEndsAt(node, indent, k)
    ensures k >= indent + 9
    decreases node, 1
  {
    hide AttrsText, OpeningText, PrintedNode, EmptyEndsInside;
    PrintedSize(node, indent);
    OpeningSize(node);
    if IsEmpty(node) {
      AttrsFitTightly(node.attrs, 0);
    } else {
      EndsLateInside(node.children, indent + 1, k - indent - |OpeningText(node)| - 1);
    }
  }

  lemma {:induction false} EndsLateInside(nodes: seq<Node>, indent: nat, k: int)
    requires EmptyEndsInside(nodes, indent, k)
    ensures k >= indent + 10
    decreases nodes, 2
  {
    hide EmptyEndsAt, PrintedNode;
    if EmptyEndsAt(nodes[0], indent, k - 1) {
      EndsLate(nodes[0], indent, k - 1);
    } else {
      EndsLateInside(nodes[1..], indent, k - 1 - |PrintedNode(nodes[0], indent)|);
    }
  }

  // Inside a node nothing goes beyond the size without the node failing.
  lemma {:induction false} BeyondInsideFails(node: Node, indent: nat, len: int)
    requires NodeFits(node, indent, len) && NodeBeyond(node, indent, len) > 0
    ensures IsEmpty(node) && |PrintedNode(node, indent)| == len + NodeBeyond(node, indent, len)
    decreases node, 1
  {
    hide OpeningText, PrintedNode, ChildrenBeyond, ChildrenText, ChildrenFit, AttrsFit;
    PrintedSize(node, indent);
    if !IsEmpty(node) {
      ChildrenBeyondFails(node.children, indent, len - indent - |OpeningText(node)| - 1);
      assert false;
    }
  }

  lemma {:induction false} ChildrenBeyondFails(nodes: seq<Node>, indent: nat, left: int)
    requires ChildrenFit(nodes, indent, left) && ChildrenBeyond(nodes, indent, left) > 0
    ensures left < |ChildrenText(nodes, indent + 1)|
    decreases nodes, 2
  {
    hide PrintedNode, NodeFits, NodeBeyond, ChildrenText;
    ChildSize(nodes, indent + 1);
    if NodeBeyond(nodes[0], indent + 1, left - 1) > 0 {
      BeyondInsideFails(nodes[0], indent + 1, left - 1);
    } else {
      ChildrenBeyondFails(nodes[1..], indent, left - 1 - |PrintedNode(nodes[0], indent + 1)|);
    }
  }

  // Exactly when, and by how much, xml_print_node goes beyond the size: when the size falls on the last three
  // characters of an empty node that ends with the value of an attribute.
  lemma {:induction false} BeyondExactly(node: Node, indent: nat, len: int, b: nat)
    requires 1 <= b <= 3
    ensures NodeBeyond(node, indent, len) == b <==> EmptyEndsAt(node, indent, len + b)
    decreases node, 1
  {
    hide OpeningText, PrintedNode, ChildrenBeyond, EmptyEndsInside, AttrsFit;
    PrintedSize(node, indent);
    if OpeningFits(node, indent, len) { OpeningBound(node, indent, len); }
    if IsEmpty(node) {
      if |PrintedNode(node, indent)| == len + b { EmptyTightly(node, indent, len); }
    } else {
      var tail := len - indent - |OpeningText(node)|;
      ChildrenBeyondExactly(node.children, indent, tail - 1, b);
      if EmptyEndsInside(node.children, indent + 1, tail - 1 + b) {
        EndsLateInside(node.children, indent + 1, tail - 1 + b);
        OpeningHasRoom(node, indent, len);
      }
    }
  }

  lemma OpeningHasRoom(node: Node, indent: nat, len: int)
    requires len >= indent + |OpeningText(node)| + 4
    ensures OpeningFits(node, indent, len)
  {
    hide AttrsText, AttrsFit;
    OpeningSize(node);
    AttrsHaveRoom(node.attrs, len - indent - 1 - |node.name|);
  }

  lemma {:induction false} ChildrenBeyondExactly(nodes: seq<Node>, indent: nat, left: int, b: nat)
    requires 1 <= b <= 3
    ensures ChildrenBeyond(nodes, indent, left) == b <==> EmptyEndsInside(nodes, indent + 1, left + b)
    decreases nodes, 2
  {
    hide PrintedNode, NodeFits, NodeBeyond, EmptyEndsAt, EmptyEndsInside;
    if EmptyEndsInside(nodes, indent + 1, left + b) { EndsLateInside(nodes, indent + 1, left + b); }
    if nodes != [] && left >= indent + 3 {
      var n := |PrintedNode(nodes[0], indent + 1)|;
      InsideStep(nodes, indent + 1, left + b);
      BeyondExactly(nodes[0], indent + 1, left - 1, b);
      if !NodeFits(nodes[0], indent + 1, left - 1) || NodeBeyond(nodes[0], indent + 1, left - 1) > 0 {
        FirstIsLast(nodes[0], indent + 1, left - 1);
        if EmptyEndsInside(nodes[1..], indent + 1, left + b - 1 - n) {
          EndsLateInside(nodes[1..], indent + 1, left + b - 1 - n);
        }
      } else {
        ChildrenBeyondExactly(nodes[1..], indent, left - 1 - n, b);
      }
    } else if nodes == [] {
      NothingInside(indent + 1, left + b);
    }
  }

  lemma InsideStep(nodes: seq<Node>, indent: nat, k: int)
    requires nodes != []
    ensures EmptyEndsInside(nodes, indent, k)
            <==> EmptyEndsAt(nodes[0], indent, k - 1)
                 || EmptyEndsInside(nodes[1..], indent, k - 1 - |PrintedNode(nodes[0], indent)|)
  {
    hide PrintedNode, EmptyEndsAt;
  }

  lemma NothingInside(indent: nat, k: int)
    ensures !EmptyEndsInside([], indent, k)
  {
  }

  // A node that fails or goes beyond the size leaves no room.
  lemma FirstIsLast(node: Node, indent: nat, len: int)
    requires !NodeFits(node, indent, len) || NodeBeyond(node, indent, len) > 0
    ensures len <= |PrintedNode(node, indent)|
  {
    hide NodeFits, NodeBeyond, PrintedNode;
    if |PrintedNode(node, indent)| < len { NodeHasRoom(node, indent, len); }
    if NodeFits(node, indent, len) { BeyondInsideFails(node, indent, len); }
  }

  // A node that is printed goes beyond the size exactly when it is empty and its last three characters have
  // no room.
  lemma PrintedBeyondExactly(node: Node, indent: nat, len: int)
    requires NodeFits(node, indent, len)
    ensures |PrintedNode(node, indent)| > len <==> IsEmpty(node) && len < indent + |OpeningText(node)| + 3
    ensures |PrintedNode(node, indent)| > len <==> NodeBeyond(node, indent, len) > 0
    ensures |PrintedNode(node, indent)| <= len + NodeBeyond(node, indent, len)
  {
    hide OpeningText, PrintedNode, TailText, ChildrenText, ChildrenFit, OpeningFits, ChildrenBeyond;
    PrintedSize(node, indent);
    TailSize(node, indent);
    OpeningBound(node, indent, len);
    if NodeBeyond(node, indent, len) > 0 { BeyondInsideFails(node, indent, len); }
  }

  // On the tree alone: the printer keeps the promise never to return more than the size exactly when the
  // tree is not an empty node that ends with the value of an attribute.
  lemma SizeKeptExactly(node: Node, indent: nat)
    ensures (forall len: int :: NodeFits(node, indent, len) ==> |PrintedNode(node, indent)| <= len)
            <==> !(IsEmpty(node) && EndsWithValue(node.attrs))
  {
    hide PrintedNode, NodeFits, NodeBeyond;
    if IsEmpty(node) && EndsWithValue(node.attrs) {
      var len := |PrintedNode(node, indent)| - 3;
      EmptyTightly(node, indent, len);
      EmptyFits(node, indent, len);
      assert NodeFits(node, indent, len) && |PrintedNode(node, indent)| > len;
    } else {
      forall len: int | NodeFits(node, indent, len) ensures |PrintedNode(node, indent)| <= len {
        PrintedBeyondExactly(node, indent, len);
        BeyondBound(node, indent, len);
        if NodeBeyond(node, indent, len) > 0 {
          BeyondInsideFails(node, indent, len);
          BeyondExactly(node, indent, len, NodeBeyond(node, indent, len));
        }
      }
    }
  }

  lemma EmptyFits(node: Node, indent: nat, len: int)
    requires IsEmpty(node)
    ensures NodeFits(node, indent, len) <==> OpeningFits(node, indent, len)
  {
    hide OpeningFits;
  }

  // The tree is or has inside an empty node that ends with the value of an attribute.
  predicate HasValuedLeaf(node: Node) {
    if IsEmpty(node) then EndsWithValue(node.attrs) else exists child :: child in node.children && HasValuedLeaf(child)
  }

  lemma {:induction false} LeafEnds(node: Node, indent: nat) returns (k: int)
    requires HasValuedLeaf(node)
    ensures EmptyEndsAt(node, indent, k)
    decreases node, 1
  {
    hide PrintedNode, OpeningText, EmptyEndsInside;
    if IsEmpty(node) {
      k := |PrintedNode(node, indent)|;
    } else {
      var j := LeafEndsInside(node.children, indent + 1);
      k := j + indent + |OpeningText(node)| + 1;
    }
  }

  lemma {:induction false} LeafEndsInside(nodes: seq<Node>, indent: nat) returns (k: int)
    requires exists child :: child in nodes && HasValuedLeaf(child)
    ensures EmptyEndsInside(nodes, indent, k)
    decreases nodes, 2
  {
    hide PrintedNode, EmptyEndsAt, HasValuedLeaf;
    if HasValuedLeaf(nodes[0]) {
      k := LeafEnds(nodes[0], indent);
      k := k + 1;
    } else {
      k := LeafEndsInside(nodes[1..], indent);
      k := k + 1 + |PrintedNode(nodes[0], indent)|;
    }
    assert nodes[0] in nodes;
  }

  lemma {:induction false} EndsAtLeaf(node: Node, indent: nat, k: int)
    requires EmptyEndsAt(node, indent, k)
    ensures HasValuedLeaf(node)
    decreases node, 1
  {
    hide PrintedNode, OpeningText, EmptyEndsInside;
    if !IsEmpty(node) { EndsAtLeafInside(node.children, indent + 1, k - indent - |OpeningText(node)| - 1); }
  }

  lemma {:induction false} EndsAtLeafInside(nodes: seq<Node>, indent: nat, k: int)
    requires EmptyEndsInside(nodes, indent, k)
    ensures exists child :: child in nodes && HasValuedLeaf(child)
    decreases nodes, 2
  {
    hide PrintedNode, EmptyEndsAt, HasValuedLeaf;
    if EmptyEndsAt(nodes[0], indent, k - 1) {
      EndsAtLeaf(nodes[0], indent, k - 1);
      assert nodes[0] in nodes;
    } else {
      EndsAtLeafInside(nodes[1..], indent, k - 1 - |PrintedNode(nodes[0], indent)|);
    }
  }

  // On the tree alone: no run of the printer, successful or not, writes beyond the size exactly when no empty
  // node of the tree ends with the value of an attribute.
  lemma NeverBeyondExactly(node: Node, indent: nat)
    ensures (forall len: int :: NodeBeyond(node, indent, len) == 0) <==> !HasValuedLeaf(node)
  {
    hide NodeBeyond, EmptyEndsAt, HasValuedLeaf;
    if HasValuedLeaf(node) {
      var k := LeafEnds(node, indent);
      BeyondExactly(node, indent, k - 1, 1);
      assert NodeBeyond(node, indent, k - 1) == 1;
    } else {
      forall len: int ensures NodeBeyond(node, indent, len) == 0 {
        BeyondBound(node, indent, len);
        if NodeBeyond(node, indent, len) > 0 {
          var b := NodeBeyond(node, indent, len);
          BeyondExactly(node, indent, len, b);
          EndsAtLeaf(node, indent, len + b);
        }
      }
    }
  }

  // Such a tree, alone and as a child: eleven characters are written into eight, and sixteen into thirteen
  // before the parent returns -1.
  lemma ShortestBeyond()
    ensures var leaf := Node(['a' as byte], [Attr(['b' as byte], ['c' as byte])], [], []);
            var parent := Node(['p' as byte], [], [leaf], []);
            && NodeFits(leaf, 0, 8) && |PrintedNode(leaf, 0)| == 11
            && !NodeFits(parent, 0, 13) && NodeBeyond(parent, 0, 13) == 3
  {
    hide PrintedNode, OpeningText, NodeFits, NodeBeyond;
    var a := Attr(['b' as byte], ['c' as byte]);
    var leaf := Node(['a' as byte], [a], [], []);
    var parent := Node(['p' as byte], [], [leaf], []);
    assert |AttrsText([a])| == 6 by { AttrsSplit([a]); NoAttrs(); assert [a][1..] == []; }
    OpeningSize(leaf);
    PrintedSize(leaf, 0);
    PrintedSize(leaf, 1);
    EmptyTightly(leaf, 0, 8);
    EmptyFits(leaf, 0, 8);
    NoAttrs();
    OpeningSize(parent);
    assert EmptyEndsInside([leaf], 1, 13);
    assert EmptyEndsAt(parent, 0, 16);
    BeyondExactly(parent, 0, 13, 3);
    if NodeFits(parent, 0, 13) { BeyondInsideFails(parent, 0, 13); }
  }
}
