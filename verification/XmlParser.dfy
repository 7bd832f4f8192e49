/** The XML parser, moving a scanner over the text (xml.c). */
module XmlParser {
  import opened Bytes
  import opened Wrappers
  import opened Scanner
  import opened Strings
  import opened Xml

  // A failure of the source throws an exception to pj_xml_parse; here it is passed on as None.

  // The attribute list, up to the end of the tag.
  method ParseAttrs(s: TextScanner) returns (r: Option<seq<Attr>>)
    requires s.Valid()
    modifies s
    ensures s.Valid()
    ensures var a := AttrsAt(s.text, old(s.curptr));
            r.Some? == a.Some? && (r.Some? ==> r.value == a.value.item && s.curptr == a.value.next)
  {
    hide AttrsAt, AttrValueAt, SkipFrom, Skip, Until;
    ghost var start := s.curptr;
    var attrs: seq<Attr> := [];
    StartWith(AttrsAt(s.text, start));
    while At(s.text, s.curptr) != GT && At(s.text, s.curptr) != SLASH
      invariant s.Valid()
      invariant AttrsAt(s.text, start) == With(attrs, AttrsAt(s.text, s.curptr))
      decreases |s.text| - s.curptr
    {
      ghost var i := s.curptr;
      AttrsUnfold(s.text, i);
      var ok, name := s.GetUntil(ATTR_STOP);
      if !ok { return None; }
      var value := ParseValue(s);
      if value.None? { return None; }
      WithTwice(attrs, [Attr(name, value.value)], AttrsAt(s.text, s.curptr));
      attrs := attrs + [Attr(name, value.value)];
    }
    AttrsUnfold(s.text, s.curptr);
    WithNothing(attrs, s.curptr);
    return Some(attrs);
  }

  lemma AttrsUnfold(text: seq<byte>, i: nat)
    requires i <= |text|
    ensures At(text, i) == GT || At(text, i) == SLASH ==> AttrsAt(text, i) == Some(Parsed([], i))
    ensures At(text, i) != GT && At(text, i) != SLASH ==>
              if i == |text| then AttrsAt(text, i) == None
              else
                var k := Until(text, i, ATTR_STOP);
                var value := AttrValueAt(text, Skip(text, k));
                if value.None? then AttrsAt(text, i) == None
                else i < value.value.next <= |text|
                     && AttrsAt(text, i) == With([Attr(text[i..k], value.value.item)], AttrsAt(text, value.value.next))
  {
  }

  // The equals sign and the quoted value after the name of an attribute, if they are there.
  method ParseValue(s: TextScanner) returns (r: Option<seq<byte>>)
    requires s.Valid()
    modifies s
    ensures s.Valid()
    ensures var v := AttrValueAt(s.text, old(s.curptr));
            r.Some? == v.Some? && (r.Some? ==> r.value == v.value.item && s.curptr == v.value.next)
  {
    hide SkipFrom, Skip, CloseQuote;
    if At(s.text, s.curptr) != EQUALS { return Some([]); }
    var _, _ := s.GetChar();
    ghost var open := s.curptr;
    var ok, quoted := s.GetQuotes([QUOTE, APOSTROPHE]);
    if !ok { return None; }
    // without the quotes
    var value := quoted[1..|quoted| - 1];
    Subslice(s.text, open, open + |quoted|, 1, |quoted| - 1);
    return Some(value);
  }

  lemma InstructionUnfold(text: seq<byte>, i: nat)
    requires i <= |text|
    ensures if i == |text| then InstructionEnd(text, i) == None
            else
              var j := Skip(text, Until(text, i, {QUESTION}));
              i <= j <= |text|
              && InstructionEnd(text, i) == if At(text, j) == QUESTION && At(text, j + 1) == GT then Some(Skip(text, j + 2))
                                            else if j + 1 > |text| then None
                                            else InstructionEnd(text, j + 1)
  {
    hide Skip, Until;
  }

  // A processing instruction, after its first two characters.
  method SkipInstruction(s: TextScanner) returns (ok: bool)
    requires s.Valid()
    modifies s
    ensures s.Valid()
    ensures ok == InstructionEnd(s.text, old(s.curptr)).Some?
    ensures ok ==> s.curptr == InstructionEnd(s.text, old(s.curptr)).value
  {
    hide SkipFrom, Skip, Until, InstructionEnd;
    while true
      invariant s.Valid()
      invariant InstructionEnd(s.text, s.curptr) == InstructionEnd(s.text, old(s.curptr))
      decreases |s.text| - s.curptr
    {
      InstructionUnfold(s.text, s.curptr);
      var more, _ := s.GetUntil({QUESTION});
      if !more { return false; }
      if At(s.text, s.curptr) == QUESTION && At(s.text, s.curptr + 1) == GT {
        ok := s.AdvanceN(2, true);
        return;
      }
      ok := s.AdvanceN(1, false);
      if !ok { return; }
    }
  }

  // pj_scan_get_char, when a certain character is wanted.
  method Want(s: TextScanner, c: byte) returns (ok: bool)
    requires s.Valid() && c != 0
    modifies s
    ensures s.Valid() && ok == Expect(s.text, old(s.curptr), c).Some?
    ensures ok ==> s.curptr == Expect(s.text, old(s.curptr), c).value
  {
    hide SkipFrom, Skip;
    var more, found := s.GetChar();
    return more && found == c;
  }

  method ParseContent(s: TextScanner) returns (content: seq<byte>)
    requires s.Valid()
    modifies s
    ensures s.Valid() && Parsed(content, s.curptr) == ContentAt(s.text, old(s.curptr))
  {
    hide SkipFrom, Skip, Until;
    content := [];
    if s.curptr < |s.text| && At(s.text, s.curptr) != LT {
      var _, out := s.GetUntil({LT});
      content := out;
    }
  }

  method ParseClosing(s: TextScanner, name: seq<byte>) returns (ok: bool)
    requires s.Valid()
    modifies s
    ensures s.Valid() && ok == ClosingAt(s.text, old(s.curptr), name).Some?
    ensures ok ==> s.curptr == ClosingAt(s.text, old(s.curptr), name).value
  {
    hide SkipFrom, Skip, Until, Matches, Expect;
    ok := Want(s, LT);
    if !ok { return; }
    ok := Want(s, SLASH);
    if !ok { return; }
    var more, endName := s.GetUntil(END_STOP);
    if !more || !Matches(name, endName) { return false; }
    ok := Want(s, GT);
  }

  // xml_parse_node
  method ParseNode(s: TextScanner) returns (r: Option<Node>)
    requires s.Valid()
    modifies s
    ensures s.Valid()
    ensures var n := NodeAt(s.text, old(s.curptr));
            r.Some? == n.Some? && (r.Some? ==> r.value == n.value.item && s.curptr == n.value.next)
    decreases |s.text| - s.curptr, 1
  {
    hide SkipFrom, Skip, Until, AttrsAt, BodyAt, InstructionEnd;
    var i := s.curptr;
    if At(s.text, i) != LT { return None; }
    if At(s.text, i + 1) == QUESTION {
      var moved := s.AdvanceN(2, false);
      var ok := SkipInstruction(s);
      if !ok { return None; }
      r := ParseNode(s);
      return;
    }
    if i + 2 > |s.text| || At(s.text, i + 1) == EXCLAMATION { return None; }
    var _, _ := s.GetChar();
    var more, name := s.GetUntil(NAME_STOP);
    if !more { return None; }
    var attrs := ParseAttrs(s);
    if attrs.None? { return None; }
    r := ParseBody(s, i, name, attrs.value);
  }

  // What follows the name and the attributes.
  method ParseBody(s: TextScanner, ghost i: nat, name: seq<byte>, attrs: seq<Attr>) returns (r: Option<Node>)
    requires i < s.curptr < |s.text| && (At(s.text, s.curptr) == SLASH || At(s.text, s.curptr) == GT)
    modifies s
    ensures s.Valid()
    ensures var n := BodyAt(s.text, i, name, attrs, old(s.curptr));
            r.Some? == n.Some? && (r.Some? ==> r.value == n.value.item && s.curptr == n.value.next)
    decreases |s.text| - s.curptr, 0
  {
    hide SkipFrom, Skip, Until, NodesAt, ContentAt, ClosingAt;
    if At(s.text, s.curptr) == SLASH {
      var _, _ := s.GetChar();
      var closed := Want(s, GT);
      return if closed then Some(Node(name, attrs, [], [])) else None;
    }
    var ok := Want(s, GT);
    if !ok { return None; }
    var children := ParseNodes(s);
    if children.None? { return None; }
    var content := ParseContent(s);
    ok := ParseClosing(s, name);
    return if ok then Some(Node(name, attrs, children.value, content)) else None;
  }

  // The sub nodes.
  method ParseNodes(s: TextScanner) returns (r: Option<seq<Node>>)
    requires s.Valid()
    modifies s
    ensures s.Valid()
    ensures var n := NodesAt(s.text, old(s.curptr));
            r.Some? == n.Some? && (r.Some? ==> r.value == n.value.item && s.curptr == n.value.next)
    decreases |s.text| - s.curptr, 2
  {
    hide NodeAt, NodesAt;
    ghost var start := s.curptr;
    var nodes: seq<Node> := [];
    StartWith(NodesAt(s.text, start));
    while At(s.text, s.curptr) == LT && At(s.text, s.curptr + 1) != SLASH && At(s.text, s.curptr + 1) != EXCLAMATION
      invariant s.Valid() && start <= s.curptr
      invariant NodesAt(s.text, start) == With(nodes, NodesAt(s.text, s.curptr))
      decreases |s.text| - s.curptr
    {
      NodesUnfold(s.text, s.curptr);
      var node := ParseNode(s);
      if node.None? { return None; }
      WithTwice(nodes, [node.value], NodesAt(s.text, s.curptr));
      nodes := nodes + [node.value];
    }
    NodesUnfold(s.text, s.curptr);
    WithNothing(nodes, s.curptr);
    return Some(nodes);
  }

  lemma NodesUnfold(text: seq<byte>, i: nat)
    requires i <= |text|
    ensures if At(text, i) == LT && At(text, i + 1) != SLASH && At(text, i + 1) != EXCLAMATION then
              var node := NodeAt(text, i);
              NodesAt(text, i) == if node.None? then None else With([node.value.item], NodesAt(text, node.value.next))
            else NodesAt(text, i) == Some(Parsed([], i))
  {
    hide NodeAt;
  }

  // pj_xml_parse
  method ParseDocument(text: seq<byte>) returns (r: Option<Node>)
    ensures r == Parse(text)
  {
    if text == [] { return None; }
    var s := new TextScanner(text);
    r := ParseNode(s);
  }
}
