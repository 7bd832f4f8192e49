/** The XML printer, writing into a buffer (xml.c). */
module XmlPrinter {
  import opened Bytes
  import opened Buffers
  import opened Scanner
  import opened Xml
  import opened XmlSizes

  // ----- writing -----

  // The attributes, each checked before it is written.
  method PrintAttrs(attrs: seq<Attr>, buf: array<byte>, start: nat, left: int) returns (ok: bool)
    requires 0 <= left && start + left <= buf.Length
    modifies buf
    ensures ok == AttrsFit(attrs, left)
    ensures ok ==> |AttrsText(attrs)| <= left
                   && buf[..start + |AttrsText(attrs)|] == old(buf[..start]) + AttrsText(attrs)
    ensures !ok ==> buf[..start] == old(buf[..start])
  {
    hide AttrText;
    ghost var before := buf[..start];
    var p, room := start, left;
    assert attrs[0..] == attrs;
    for i := 0 to |attrs|
      invariant start <= p && 0 <= room == left - (p - start)
      invariant buf[..start] == before
      invariant buf[..p] + AttrsText(attrs[i..]) == before + AttrsText(attrs)
      invariant AttrsFit(attrs, left) == AttrsFit(attrs[i..], room)
    {
      var a := attrs[i];
      assert attrs[i..][1..] == attrs[i + 1..] && attrs[i..][0] == a;
      if room < |a.name| + |a.value| + 4 { return false; }
      AttrSize(a);
      ghost var done, rest := buf[..p], AttrsText(attrs[i + 1..]);
      PrintAttr(a, buf, p);
      assert (done + AttrText(a)) + rest == done + (AttrText(a) + rest);
      assert buf[..start] == buf[..p + |AttrText(a)|][..start] == done[..start];
      p, room := p + |AttrText(a)|, room - |AttrText(a)|;
    }
    NoAttrs();
    assert attrs[|attrs|..] == [] && buf[..p] + [] == buf[..p];
    ok := true;
  }

  lemma AttrSize(a: Attr)
    ensures |AttrText(a)| <= |a.name| + |a.value| + 4
    ensures |AttrText(a)| == 1 + |a.name| + if a.value == [] then 0 else |a.value| + 3
  {
  }

  method PrintAttr(a: Attr, buf: array<byte>, p: nat)
    requires p + |AttrText(a)| <= buf.Length
    modifies buf
    ensures buf[..p + |AttrText(a)|] == old(buf[..p]) + AttrText(a)
  {
    ghost var before := buf[..p];
    var v := p + 1 + |a.name|;
    Write(buf, p, [SPACE]);
    Write(buf, p + 1, a.name);
    Appended(before, [SPACE], a.name);
    if a.value != [] {
      ghost var named := buf[..v];
      Write(buf, v, [EQUALS, QUOTE]);
      Write(buf, v + 2, a.value);
      Write(buf, v + 2 + |a.value|, [QUOTE]);
      Appended(named, [EQUALS, QUOTE], a.value);
      Appended(named, [EQUALS, QUOTE] + a.value, [QUOTE]);
      Appended(before, [SPACE] + a.name, [EQUALS, QUOTE] + a.value + [QUOTE]);
    } else {
      assert [SPACE] + a.name + [] == [SPACE] + a.name;
    }
  }

  lemma StillBefore(a: seq<byte>, b: seq<byte>, before: seq<byte>, k: nat)
    requires a == before + b && k == |before|
    ensures k <= |a| && a[..k] == before
  {
  }

  // The indentation, the name and the attributes.
  method PrintOpening(node: Node, indent: nat, buf: array<byte>, start: nat, len: int) returns (ok: bool)
    requires 0 <= len && start + len <= buf.Length
    modifies buf
    ensures ok == OpeningFits(node, indent, len)
    ensures ok ==> var s := Spaces(indent) + OpeningText(node);
                   |s| <= len && buf[..start + |s|] == old(buf[..start]) + s
    ensures !ok ==> buf[..start] == old(buf[..start])
  {
    hide AttrsText, AttrsFit;
    ghost var before := buf[..start];
    if len < |node.name| + indent + 5 { return false; }
    Write(buf, start, Spaces(indent));
    Write(buf, start + indent, [LT]);
    Write(buf, start + indent + 1, node.name);
    var p, left := start + indent + 1 + |node.name|, len - indent - 1 - |node.name|;
    ghost var head := Spaces(indent) + ([LT] + node.name);
    assert buf[..p] == before + head;
    ok := PrintAttrs(node.attrs, buf, p, left);
    if !ok {
      Prefix(buf[..], start, p);
      StillBefore(buf[..p], head, before, start);
      return;
    }
    Appended(before, head, AttrsText(node.attrs));
    Appended(Spaces(indent), [LT] + node.name, AttrsText(node.attrs));
  }

  // xml_print_node; the length printed, or -1.  The caller has len bytes; only when the printer goes beyond
  // them must there be more memory.
  method PrintNode(node: Node, indent: nat, buf: array<byte>, start: nat, len: int) returns (n: int)
    requires 0 <= len && start + len + NodeBeyond(node, indent, len) <= buf.Length
    modifies buf
    ensures n == if NodeFits(node, indent, len) then |PrintedNode(node, indent)| else -1
    ensures n >= 0 ==> n <= len + NodeBeyond(node, indent, len)
                       && buf[..start + n] == old(buf[..start]) + PrintedNode(node, indent)
    ensures n < 0 ==> buf[..start] == old(buf[..start])
    decreases node, 1
  {
    hide AttrsText, AttrsFit, NodeText, TailText, InsideFits, InsideText, OpeningText;
    ghost var before := buf[..start];
    OpeningSize(node);
    NodeSize(node, indent);
    var ok := PrintOpening(node, indent, buf, start, len);
    if !ok { return -1; }
    ghost var head := Spaces(indent) + OpeningText(node);
    var size := indent + |OpeningText(node)|;
    var e, left := start + size, len - size;
    Joined(before, indent, node);
    if IsEmpty(node) {
      Write(buf, e, [SPACE, SLASH, GT]);
      EmptyTail(node, indent);
      n := size + 3;
      return;
    }
    StillBefore(buf[..e], head, before, start);
    Prefix(buf[..], start, e);
    if left < 1 { return -1; }
    Write(buf, e, [GT]);
    ghost var top := buf[..e + 1];
    Prefix(top, start, e);
    var inside := PrintInside(node, indent, buf, e + 1, left - 1);
    if inside < 0 {
      Prefix(buf[..], start, e + 1);
      return -1;
    }
    FullTail(node, indent);
    Appended(before + head, [GT], InsideText(node, indent));
    n := size + 1 + inside;
  }

  lemma Joined(before: seq<byte>, indent: nat, node: Node)
    ensures (before + (Spaces(indent) + OpeningText(node))) + TailText(node, indent) == before + PrintedNode(node, indent)
    ensures |PrintedNode(node, indent)| == indent + |OpeningText(node)| + |TailText(node, indent)|
  {
    hide OpeningText, TailText;
  }

  // The end of a node: its closing tag, on a line of its own after children.
  function EndText(node: Node, indent: nat): seq<byte> {
    (if node.children == [] then [] else [LF] + Spaces(indent)) + ClosingText(node.name)
  }

  function InsideText(node: Node, indent: nat): seq<byte> {
    ChildrenText(node.children, indent + 1) + node.content + EndText(node, indent)
  }

  lemma EmptyTail(node: Node, indent: nat)
    requires IsEmpty(node)
    ensures TailText(node, indent) == [SPACE, SLASH, GT]
  {
  }

  lemma FullTail(node: Node, indent: nat)
    requires !IsEmpty(node)
    ensures TailText(node, indent) == [GT] + InsideText(node, indent)
  {
    hide ChildrenText, ClosingText;
    var a, b, c := ChildrenText(node.children, indent + 1), node.content,
                   if node.children == [] then [] else [LF] + Spaces(indent);
    assert [GT] + a + b + c + ClosingText(node.name) == [GT] + (a + b + (c + ClosingText(node.name)));
  }

  // The children, the content and the closing tag.
  method PrintInside(node: Node, indent: nat, buf: array<byte>, start: nat, len: int) returns (n: int)
    requires 0 <= len && start + len + ChildrenBeyond(node.children, indent, len) <= buf.Length
    modifies buf
    ensures n == if InsideFits(node, indent, len) then |InsideText(node, indent)| else -1
    ensures n >= 0 ==> n <= len && buf[..start + n] == old(buf[..start]) + InsideText(node, indent)
    ensures n < 0 ==> buf[..start] == old(buf[..start])
    decreases node, 0
  {
    hide ChildrenText, ChildrenFit, EndText;
    ghost var before := buf[..start];
    EndSize(node, indent);
    var c := PrintChildren(node.children, indent, buf, start, len);
    if c < 0 { return -1; }
    ghost var children := ChildrenText(node.children, indent + 1);
    var p, left := start + c, len - c;
    StillBefore(buf[..p], children, before, start);
    Prefix(buf[..], start, p);
    if node.content != [] && left < |node.content| { return -1; }
    Write(buf, p, node.content);
    p, left := p + |node.content|, left - |node.content|;
    Appended(before, children, node.content);
    StillBefore(buf[..p], children + node.content, before, start);
    Prefix(buf[..], start, p);
    var end := PrintEnd(node, indent, buf, p, left);
    if end < 0 {
      Prefix(buf[..], start, p);
      return -1;
    }
    Appended(before, children + node.content, EndText(node, indent));
    n := c + |node.content| + end;
  }

  lemma EndSize(node: Node, indent: nat)
    ensures |EndText(node, indent)| == |node.name| + if node.children == [] then 3 else 4 + indent
  {
  }

  method PrintEnd(node: Node, indent: nat, buf: array<byte>, p: nat, left: int) returns (n: int)
    requires p + left <= buf.Length && p <= buf.Length
    modifies buf
    ensures n == if left >= |node.name| + (if node.children != [] then 5 + indent else 3) then |EndText(node, indent)| else -1
    ensures n >= 0 ==> buf[..p + n] == old(buf[..p]) + EndText(node, indent)
    ensures n < 0 ==> buf[..p] == old(buf[..p])
  {
    hide ClosingText;
    EndSize(node, indent);
    if node.children != [] {
      if left < |node.name| + 5 + indent { return -1; }
      ghost var before := buf[..p];
      Write(buf, p, [LF]);
      Write(buf, p + 1, Spaces(indent));
      Appended(before, [LF], Spaces(indent));
      PrintClosing(node.name, buf, p + 1 + indent);
      Appended(before, [LF] + Spaces(indent), ClosingText(node.name));
      n := |node.name| + 4 + indent;
    } else {
      if left < |node.name| + 3 { return -1; }
      PrintClosing(node.name, buf, p);
      assert [] + ClosingText(node.name) == ClosingText(node.name);
      n := |node.name| + 3;
    }
  }

  method PrintClosing(name: seq<byte>, buf: array<byte>, p: nat)
    requires p + |name| + 3 <= buf.Length
    modifies buf
    ensures buf[..p + |name| + 3] == old(buf[..p]) + ClosingText(name)
  {
    ghost var before := buf[..p];
    Write(buf, p, [LT, SLASH]);
    Write(buf, p + 2, name);
    Write(buf, p + 2 + |name|, [GT]);
    assert buf[..p + |name| + 3] == before + ([LT, SLASH] + name + [GT]);
  }

  lemma ChildrenStep(nodes: seq<Node>, i: nat, indent: nat, left: int)
    requires i < |nodes|
    ensures ChildrenText(nodes[i..], indent + 1)
            == ([LF] + PrintedNode(nodes[i], indent + 1)) + ChildrenText(nodes[i + 1..], indent + 1)
    ensures ChildrenFit(nodes[i..], indent, left)
            == (left >= indent + 3 && NodeFits(nodes[i], indent + 1, left - 1)
                && ChildrenFit(nodes[i + 1..], indent, left - 1 - |PrintedNode(nodes[i], indent + 1)|))
  {
    hide NodeFits, NodeText;
    assert nodes[i..][1..] == nodes[i + 1..] && nodes[i..][0] == nodes[i];
    Appended([LF], Spaces(indent + 1), NodeText(nodes[i], indent + 1));
  }

  // How far the rest of the children go beyond the size, when the first of them has been printed.
  lemma BeyondStep(nodes: seq<Node>, i: nat, indent: nat, left: int)
    requires i < |nodes| && left >= indent + 3
    ensures NodeBeyond(nodes[i], indent + 1, left - 1) <= ChildrenBeyond(nodes[i..], indent, left)
    ensures NodeFits(nodes[i], indent + 1, left - 1) ==>
              ChildrenBeyond(nodes[i..], indent, left)
              == Remaining(nodes[i + 1..], indent, left - 1 - |PrintedNode(nodes[i], indent + 1)|)
  {
    hide NodeFits, NodeBeyond, PrintedNode;
    assert nodes[i..][1..] == nodes[i + 1..] && nodes[i..][0] == nodes[i];
    if NodeFits(nodes[i], indent + 1, left - 1) {
      PrintedBeyondExactly(nodes[i], indent + 1, left - 1);
      if NodeBeyond(nodes[i], indent + 1, left - 1) > 0 { BeyondInsideFails(nodes[i], indent + 1, left - 1); }
    }
  }

  // What goes beyond the size: what already has, or what the nodes will.
  ghost function Remaining(nodes: seq<Node>, indent: nat, left: int): nat {
    if left < 0 then -left else ChildrenBeyond(nodes, indent, left)
  }

  // The sub nodes, each on its line.
  method PrintChildren(nodes: seq<Node>, indent: nat, buf: array<byte>, start: nat, len: int) returns (n: int)
    requires 0 <= len && start + len + ChildrenBeyond(nodes, indent, len) <= buf.Length
    modifies buf
    ensures n == if ChildrenFit(nodes, indent, len) then |ChildrenText(nodes, indent + 1)| else -1
    ensures n >= 0 ==> n <= len + ChildrenBeyond(nodes, indent, len)
                       && buf[..start + n] == old(buf[..start]) + ChildrenText(nodes, indent + 1)
    ensures n < 0 ==> buf[..start] == old(buf[..start])
    decreases nodes, 2
  {
    hide NodeFits, NodeBeyond, PrintedNode, ChildrenText, ChildrenFit, ChildrenBeyond;
    ghost var before, whole := buf[..start], ChildrenText(nodes, indent + 1);
    var p, left, i := start, len, 0;
    assert nodes[0..] == nodes;
    while i < |nodes|
      invariant 0 <= i <= |nodes| && start <= p && left == len - (p - start)
      invariant Remaining(nodes[i..], indent, left) == ChildrenBeyond(nodes, indent, len)
      invariant buf[..start] == before
      invariant buf[..p] + ChildrenText(nodes[i..], indent + 1) == before + whole
      invariant ChildrenFit(nodes, indent, len) == ChildrenFit(nodes[i..], indent, left)
    {
      ChildrenStep(nodes, i, indent, left);
      if left < indent + 3 { return -1; }
      BeyondStep(nodes, i, indent, left);
      ghost var done, child := buf[..p], PrintedNode(nodes[i], indent + 1);
      Prefix(buf[..], start, p);
      Write(buf, p, [LF]);
      var printed := PrintNode(nodes[i], indent + 1, buf, p + 1, left - 1);
      Appended(done, [LF], child);
      Appended(done, [LF] + child, ChildrenText(nodes[i + 1..], indent + 1));
      if printed < 0 {
        StillBefore(buf[..p + 1], [LF], done, p);
        Prefix(buf[..], p, p + 1);
        Prefix(buf[..], start, p);
        return -1;
      }
      p, left := p + 1 + printed, left - 1 - printed;
      StillBefore(buf[..p], [LF] + child, done, |done|);
      Prefix(buf[..], |done|, p);
      Prefix(buf[..], start, |done|);
      i := i + 1;
    }
    NoChildren(nodes, indent, left);
    assert nodes[|nodes|..] == nodes[i..];
    n := p - start;
  }

  lemma NoChildren(nodes: seq<Node>, indent: nat, left: int)
    ensures ChildrenText(nodes[|nodes|..], indent + 1) == [] && ChildrenFit(nodes[|nodes|..], indent, left)
  {
  }

  // ----- documents -----

  // How many bytes are written beyond len: those of the node, and the newline after a node that has gone
  // beyond the size.
  function DocumentBeyond(node: Node, len: nat, includeProlog: bool): nat {
    var room := if includeProlog then len - 39 else len;
    var b := NodeBeyond(node, 0, room);
    if b > 0 && NodeFits(node, 0, room) then b + 1 else b
  }

  // What is returned.
  function DocumentLength(node: Node, len: nat, includeProlog: bool): int {
    var head := if includeProlog then 39 else 0;
    if len == 0 then 0
    else if len < head then -1
    else if !NodeFits(node, 0, len - head) then if includeProlog then 39 else -1
    else
      var n := head + |PrintedNode(node, 0)|;
      if n == len then n else n + 1
  }

  // pj_xml_print.  With a prolog, the length of the prolog is added to the result of the printer before it
  // is looked at, so that a tree that does not fit goes unnoticed: the prolog alone is returned.
  method PrintDocument(node: Node, buf: array<byte>, len: nat, includeProlog: bool) returns (n: int)
    requires len + DocumentBeyond(node, len, includeProlog) <= buf.Length
    modifies buf
    ensures n == DocumentLength(node, len, includeProlog)
    ensures len > 0 && !includeProlog && !NodeFits(node, 0, len) ==> n == -1
    ensures len > 0 && !includeProlog && NodeFits(node, 0, len) ==>
              var text := PrintedNode(node, 0);
              0 <= n <= buf.Length && buf[..n] == text + if |text| == len then [] else ['\n' as int]
    ensures len > 0 && includeProlog && len < 39 ==> n == -1
    ensures includeProlog && len >= 39 && !NodeFits(node, 0, len - 39) ==> n == 39 && buf[..n] == Prolog()
    ensures includeProlog && len >= 39 && NodeFits(node, 0, len - 39) ==>
              var text := Prolog() + PrintedNode(node, 0);
              39 <= n <= buf.Length && buf[..n] == text + if |text| == len then [] else ['\n' as int]
  {
    hide NodeFits, NodeBeyond, NodeText, Prolog;
    if len == 0 { return 0; }
    PrologSize();
    var prologLen := 0;
    if includeProlog {
      if len < 39 { return -1; }
      Write(buf, 0, Prolog());
      assert buf[..0] + Prolog() == Prolog();
      prologLen := 39;
    }
    ghost var head := buf[..prologLen];
    var printed := PrintNode(node, 0, buf, prologLen, len - prologLen);
    n := printed + prologLen;
    if n > 0 && n != len {
      if printed < 0 { Prefix(buf[..], 38, 39); }
      Write(buf, n, [LF]);
      n := n + 1;
    }
    if printed < 0 && includeProlog { PrologKept(buf[..39], head); }
    if printed >= 0 && !includeProlog { assert head + PrintedNode(node, 0) == PrintedNode(node, 0); }
  }

  lemma PrologSize()
    ensures |Prolog()| == 39 && Prolog()[38] == LF
  {
  }

  lemma PrologKept(now: seq<byte>, head: seq<byte>)
    requires head == Prolog() && |now| == 39 && now == head[..38] + [LF]
    ensures now == Prolog()
  {
    PrologSize();
    hide Prolog;
    assert head == head[..38] + [head[38]];
  }

  // With a prolog, a failure is reported exactly when not even the prolog fits.
  lemma FailureReportedExactly(node: Node, len: nat)
    requires len > 0
    ensures DocumentLength(node, len, true) < 0 <==> len < 39
    ensures DocumentLength(node, len, false) < 0 <==> !NodeFits(node, 0, len)
  {
    hide NodeFits, PrintedNode;
  }

  // A document of 44 characters in a buffer of 44: the prolog alone is returned.
  lemma PrologAlone()
    ensures var node := Node(['a' as byte], [], [], []);
            && |Prolog() + PrintedNode(node, 0)| == 44
            && !NodeFits(node, 0, 44 - 39) && DocumentLength(node, 44, true) == 39
  {
    hide Prolog, AttrsText;
    var node := Node(['a' as byte], [], [], []);
    PrologSize();
    NoAttrs();
    PrintedSize(node, 0);
    OpeningSize(node);
  }
}
