/** XML texts that are laid out in any way, and what the parser makes of them (xml.c). */
module XmlLayout {
  import opened Bytes
  import opened Wrappers
  import opened Buffers
  import opened Scanner
  import opened Strings
  import opened Xml

  // ----- layouts -----

  predicate Blank(s: seq<byte>) { forall c :: c in s ==> c == 32 || c == 9 || c == 13 || c == 10 }

  predicate Without(s: seq<byte>, chars: string) { forall c, i :: c in s && 0 <= i < |chars| ==> c != chars[i] as int }

  // How many backslashes stand right before i.
  function Slashes(s: seq<byte>, i: nat): nat
    requires i <= |s|
  {
    if i > 0 && s[i - 1] == 92 then 1 + Slashes(s, i - 1) else 0
  }

  // The quote closes the value: there is no newline in it, every such quote in it has an odd number of backslashes
  // before it, and the one behind it an even number.
  predicate Closed(value: seq<byte>, quote: byte) {
    && (forall i :: 0 <= i < |value| ==> value[i] != 10 && (value[i] == quote ==> Slashes(value, i) % 2 == 1))
    && Slashes(value, |value|) % 2 == 0
  }

  // An attribute without or with a value, with the blanks around and behind it.
  datatype Item =
    | Flag(name: seq<byte>, gap: seq<byte>)
    | Valued(name: seq<byte>, before: seq<byte>, after: seq<byte>, quote: byte, value: seq<byte>, gap: seq<byte>)
  {
    // end is the character behind it.
    predicate Valid(end: byte) {
      && name != [] && Without(name, "=> \t\r\n") && name[0] != '/' as int && Blank(gap)
      && (Flag? && gap == [] ==> end == '>' as int)
      && (Valued? ==> Blank(before) && Blank(after) && (quote == '"' as int || quote == '\'' as int) && Closed(value, quote))
    }

    function Text(): (s: seq<byte>)
    {
      if Flag? then name + gap
      else name + (before + (['=' as byte] + (after + ([quote] + (value + ([quote] + gap))))))
    }

    function Meaning(): Attr { Attr(name, if Flag? then [] else value) }
  }

  // The character behind an item: the first of the next one, or what ends the tag.
  function Behind(items: seq<Item>, end: byte): byte {
    if items == [] || items[0].name == [] then end else items[0].name[0]
  }

  predicate ValidItems(items: seq<Item>, end: byte) {
    items == [] || (items[0].Valid(Behind(items[1..], end)) && ValidItems(items[1..], end))
  }

  function ItemsText(items: seq<Item>): seq<byte> {
    if items == [] then [] else items[0].Text() + ItemsText(items[1..])
  }

  function ItemMeanings(items: seq<Item>): seq<Attr> {
    if items == [] then [] else [items[0].Meaning()] + ItemMeanings(items[1..])
  }

  // ----- values -----

  lemma {:induction false} ClosedFrom(text: seq<byte>, p: nat, value: seq<byte>, quote: byte, i: nat)
    requires quote != 92 && quote != 10 && Closed(value, quote) && i <= |value|
    requires Holds(text, p, value + [quote])
    ensures CloseQuote(text, p + i, quote, Slashes(value, i) % 2 == 1) == Some(p + |value|)
    decreases |value| - i
  {
    HoldsByte(text, p, value + [quote], i);
    if i < |value| {
      ClosedFrom(text, p, value, quote, i + 1);
    }
  }

  lemma ValueRead(text: seq<byte>, p: nat, value: seq<byte>, quote: byte)
    requires quote != 92 && quote != 10 && Closed(value, quote) && Holds(text, p, value + [quote])
    ensures CloseQuote(text, p, quote, false) == Some(p + |value|) && text[p..p + |value|] == value
  {
    ClosedFrom(text, p, value, quote, 0);
    HoldsParts(text, p, value, [quote]);
  }

  // A value that is not closed on its line is refused: behind it comes a line feed or the end of the text.
  lemma {:induction false} NotClosedFrom(text: seq<byte>, p: nat, value: seq<byte>, quote: byte, i: nat)
    requires quote != 92 && quote != 10 && i <= |value| && Holds(text, p, value)
    requires forall k :: 0 <= k < |value| ==> value[k] != 10 && (value[k] == quote ==> Slashes(value, k) % 2 == 1)
    requires p + |value| == |text| || text[p + |value|] == 10
    ensures CloseQuote(text, p + i, quote, Slashes(value, i) % 2 == 1) == None
    decreases |value| - i
  {
    if i < |value| {
      HoldsByte(text, p, value, i);
      NotClosedFrom(text, p, value, quote, i + 1);
    }
  }

  lemma ValueRefused(text: seq<byte>, p: nat, value: seq<byte>, quote: byte)
    requires quote == '"' as int || quote == '\'' as int
    requires Holds(text, p, ['=' as byte] + ([quote] + value))
    requires forall k :: 0 <= k < |value| ==> value[k] != 10 && (value[k] == quote ==> Slashes(value, k) % 2 == 1)
    requires p + 2 + |value| == |text| || text[p + 2 + |value|] == 10
    ensures p < |text| && AttrValueAt(text, p) == None
  {
    hide CloseQuote, Holds;
    HoldsParts(text, p, ['=' as byte], [quote] + value);
    HoldsParts(text, p + 1, [quote], value);
    HoldsByte(text, p, ['=' as byte], 0);
    HoldsByte(text, p + 1, [quote], 0);
    SkipNothing(text, p + 1);
    NotClosedFrom(text, p + 2, value, quote, 0);
    hide Skip;
  }

  // And so is one without a quote.
  lemma BareValueRefused(text: seq<byte>, p: nat, gap: seq<byte>)
    requires Blank(gap) && Holds(text, p, ['=' as byte] + gap)
    requires var c := At(text, p + 1 + |gap|); !IsBlank(c) && c != '"' as int && c != '\'' as int
    ensures p < |text| && AttrValueAt(text, p) == None
  {
    hide CloseQuote, Skip, Holds;
    HoldsParts(text, p, ['=' as byte], gap);
    HoldsByte(text, p, ['=' as byte], 0);
    GapSkipped(text, p + 1, gap);
    SkipNothing(text, p + 1 + |gap|);
  }

  // ----- attributes -----

  lemma GapSkipped(text: seq<byte>, p: nat, gap: seq<byte>)
    requires Holds(text, p, gap) && Blank(gap)
    ensures p + |gap| <= |text| && Skip(text, p) == Skip(text, p + |gap|)
  {
    SkipBlanks(text, p, gap);
  }

  lemma FirstOf(s: seq<byte>, chars: string)
    requires s != [] && Without(s, chars)
    ensures forall i :: 0 <= i < |chars| ==> s[0] != chars[i] as int
  {
    assert s[0] in s;
  }

  lemma AttrNameStops(name: seq<byte>)
    requires Without(name, "=> \t\r\n")
    ensures forall c :: c in name ==> c !in ATTR_STOP
  {
    forall c | c in name ensures c !in ATTR_STOP {
      var s := "=> \t\r\n";
      assert c != s[0] as int && c != s[1] as int && c != s[2] as int && c != s[3] as int && c != s[4] as int
             && c != s[5] as int;
    }
  }

  // What stands behind the name of an attribute with a value.
  function ValueText(x: Item): seq<byte>
    requires x.Valued?
  {
    x.before + (['=' as byte] + (x.after + ([x.quote] + (x.value + ([x.quote] + x.gap)))))
  }

  lemma ValuedStands(text: seq<byte>, k: nat, x: Item, e: nat, open: nat, close: nat)
    requires x.Valued? && Holds(text, k, ValueText(x))
    requires e == k + |x.before| && open == e + 1 + |x.after| && close == open + 1 + |x.value|
    ensures close < |text| && text[e] == '=' as int && text[open] == x.quote
    ensures Holds(text, k, x.before) && Holds(text, e + 1, x.after) && Holds(text, open + 1, x.value + [x.quote])
    ensures Holds(text, close + 1, x.gap)
  {
    hide Holds;
    HoldsParts(text, k, x.before, ['=' as byte] + (x.after + ([x.quote] + (x.value + ([x.quote] + x.gap)))));
    HoldsParts(text, e, ['=' as byte], x.after + ([x.quote] + (x.value + ([x.quote] + x.gap))));
    HoldsParts(text, e + 1, x.after, [x.quote] + (x.value + ([x.quote] + x.gap)));
    HoldsParts(text, open, [x.quote], x.value + ([x.quote] + x.gap));
    assert x.value + ([x.quote] + x.gap) == (x.value + [x.quote]) + x.gap;
    HoldsParts(text, open + 1, x.value + [x.quote], x.gap);
    HoldsByte(text, e, ['=' as byte], 0);
    HoldsByte(text, open, [x.quote], 0);
    HoldsByte(text, open + 1, x.value + [x.quote], |x.value|);
  }

  lemma ValuedRead(text: seq<byte>, k: nat, x: Item, end: byte)
    requires x.Valued? && x.Valid(end) && Holds(text, k, ValueText(x))
    ensures k < |text| && text[k] in ATTR_STOP && k + |ValueText(x)| <= |text|
    ensures AttrValueAt(text, Skip(text, k)) == Some(Parsed(x.value, Skip(text, k + |ValueText(x)|)))
  {
    hide Closed, CloseQuote, Holds, Skip;
    var e := k + |x.before|;
    var open := e + 1 + |x.after|;
    var close := open + 1 + |x.value|;
    ValuedStands(text, k, x, e, open, close);
    GapSkipped(text, k, x.before);
    GapSkipped(text, e + 1, x.after);
    GapSkipped(text, close + 1, x.gap);
    SkipNothing(text, e);
    SkipNothing(text, open);
    ValueRead(text, open + 1, x.value, x.quote);
    if x.before != [] { HoldsByte(text, k, x.before, 0); }
  }

  lemma FlagRead(text: seq<byte>, k: nat, gap: seq<byte>, next: nat)
    requires Blank(gap) && Holds(text, k, gap) && next == k + |gap| && next < |text|
    requires !IsBlank(text[next]) && text[next] != EQUALS && (gap == [] ==> text[next] == GT)
    ensures text[k] in ATTR_STOP && AttrValueAt(text, Skip(text, k)) == Some(Parsed([], Skip(text, next)))
  {
    hide Holds, Skip;
    GapSkipped(text, k, gap);
    SkipNothing(text, next);
    if gap != [] { HoldsByte(text, k, gap, 0); }
  }

  // One attribute; what stands behind it is not blank and no equals sign.
  lemma ItemRead(text: seq<byte>, p: nat, x: Item, next: nat)
    requires Holds(text, p, x.Text()) && next == p + |x.Text()| && next < |text| && x.Valid(text[next])
    requires !IsBlank(text[next]) && text[next] != EQUALS
    ensures p < |text| && text[p] == x.name[0] && text[p] != GT && text[p] != SLASH
    ensures var k := Until(text, p, ATTR_STOP);
            text[p..k] == x.name && AttrValueAt(text, Skip(text, k)) == Some(Parsed(x.Meaning().value, next))
  {
    hide Holds, Skip, Until, AttrValueAt, Closed;
    var k := p + |x.name|;
    if x.Flag? {
      HoldsParts(text, p, x.name, x.gap);
      FlagRead(text, k, x.gap, next);
    } else {
      HoldsParts(text, p, x.name, ValueText(x));
      ValuedRead(text, k, x, text[next]);
    }
    AttrNameStops(x.name);
    FirstOf(x.name, "=> \t\r\n");
    assert "=> \t\r\n"[1] == '>';
    HoldsByte(text, p, x.name, 0);
    UntilReads(text, p, x.name, ATTR_STOP);
    NameHeld(text, p, x.name);
    SkipNothing(text, next);
  }

  lemma NameHeld(text: seq<byte>, p: nat, s: seq<byte>)
    requires Holds(text, p, s)
    ensures p + |s| <= |text| && text[p..p + |s|] == s
  {
  }

  // What stands behind items and at the end of a tag.
  predicate NotBlank(c: byte) { !IsBlank(c) && c != EQUALS }

  lemma FirstStands(text: seq<byte>, p: nat, items: seq<Item>, e: nat)
    requires Holds(text, p, ItemsText(items)) && e == p + |ItemsText(items)| && e < |text| && ValidItems(items, text[e])
    requires text[e] == GT || text[e] == SLASH
    ensures p < |text| && text[p] == Behind(items, text[e]) && NotBlank(text[p])
  {
    if items != [] {
      hide Holds, Closed;
      var x := items[0];
      assert x.Text()[0] == x.name[0] && ItemsText(items)[0] == x.Text()[0];
      HoldsByte(text, p, ItemsText(items), 0);
      var s := "=> \t\r\n";
      FirstOf(x.name, s);
      assert s[0] == '=' && s[2] == ' ' && s[3] == '\t' && s[4] == '\r' && s[5] == '\n';
    }
  }

  lemma ItemsStep(text: seq<byte>, p: nat, a: Attr, k: nat, next: nat, rest: seq<Attr>, e: nat)
    requires p < |text| && text[p] != GT && text[p] != SLASH && k == Until(text, p, ATTR_STOP) && text[p..k] == a.name
    requires AttrValueAt(text, Skip(text, k)) == Some(Parsed(a.value, next))
    requires next <= |text| && AttrsAt(text, next) == Some(Parsed(rest, e))
    ensures AttrsAt(text, p) == Some(Parsed([a] + rest, e))
  {
    hide Until, Skip, AttrValueAt;
  }

  lemma FirstItem(items: seq<Item>, end: byte)
    requires items != [] && ValidItems(items, end)
    ensures ItemsText(items) == items[0].Text() + ItemsText(items[1..])
    ensures ItemMeanings(items) == [items[0].Meaning()] + ItemMeanings(items[1..])
    ensures items[0].Valid(Behind(items[1..], end)) && ValidItems(items[1..], end)
  {
  }

  lemma NoItems(text: seq<byte>, p: nat)
    requires p < |text| && (text[p] == GT || text[p] == SLASH)
    ensures ItemsText([]) == [] && ItemMeanings([]) == [] && AttrsAt(text, p) == Some(Parsed([], p))
  {
  }

  lemma {:induction false} ItemsRead(text: seq<byte>, p: nat, items: seq<Item>, e: nat)
    requires Holds(text, p, ItemsText(items)) && e == p + |ItemsText(items)| && e < |text| && ValidItems(items, text[e])
    requires text[e] == GT || text[e] == SLASH
    ensures p < |text| && AttrsAt(text, p) == Some(Parsed(ItemMeanings(items), e))
    decreases |items|
  {
    hide Holds, Until, Skip, AttrValueAt, AttrsAt, Closed, ItemsText, ItemMeanings, ValidItems, Item.Text, Item.Valid, Behind;
    if items == [] {
      NoItems(text, e);
    } else {
      var x, rest := items[0], items[1..];
      FirstItem(items, text[e]);
      var next := p + |x.Text()|;
      HoldsParts(text, p, x.Text(), ItemsText(rest));
      FirstStands(text, next, rest, e);
      ItemsRead(text, next, rest, e);
      ItemRead(text, p, x, next);
      ItemsStep(text, p, x.Meaning(), Until(text, p, ATTR_STOP), next, ItemMeanings(rest), e);
    }
  }

  // ----- instructions -----

  // A processing instruction, with the blanks behind it.
  datatype Instruction = Instruction(body: seq<byte>, gap: seq<byte>) {
    predicate Valid() {
      Blank(gap) && forall i :: 0 <= i < |body| - 1 ==> !(body[i] == '?' as int && body[i + 1] == '>' as int)
    }

    function Text(): seq<byte> { ['<' as byte, '?' as byte] + (body + (['?' as byte, '>' as byte] + gap)) }
  }

  predicate ValidInstructions(xs: seq<Instruction>) { forall x :: x in xs ==> x.Valid() }

  function InstructionsText(xs: seq<Instruction>): seq<byte> {
    if xs == [] then [] else xs[0].Text() + InstructionsText(xs[1..])
  }

  // The end is the first question mark that a closing bracket follows.
  lemma {:induction false} EndRead(text: seq<byte>, p: nat, x: Instruction, i: nat)
    requires x.Valid() && i <= |x.body| && Holds(text, p, x.body + (['?' as byte, '>' as byte] + x.gap))
    ensures p + |x.body| + 2 <= |text|
    ensures InstructionEnd(text, p + i) == Some(Skip(text, p + |x.body| + 2))
    decreases |x.body| - i
  {
    hide Holds, Skip, InstructionEnd;
    var s := x.body + (['?' as byte, '>' as byte] + x.gap);
    HoldsByte(text, p, s, |x.body|);
    HoldsByte(text, p, s, |x.body| + 1);
    var k := Until(text, p + i, {QUESTION});
    QuestionAhead(text, p + i, p + |x.body|);
    SkipNothing(text, k);
    if k < p + |x.body| {
      HoldsByte(text, p, s, k - p);
      HoldsByte(text, p, s, k + 1 - p);
      EndRead(text, p, x, k + 1 - p);
    }
    EndStep(text, p + i, k);
  }

  lemma QuestionAhead(text: seq<byte>, i: nat, k: nat)
    requires i <= k < |text| && text[k] == QUESTION
    ensures Until(text, i, {QUESTION}) <= k && text[Until(text, i, {QUESTION})] == QUESTION
  {
    hide *;
  }

  lemma EndStep(text: seq<byte>, i: nat, k: nat)
    requires i < |text| && k == Until(text, i, {QUESTION}) && k + 1 < |text| && Skip(text, k) == k && text[k] == QUESTION
    ensures InstructionEnd(text, i) == if text[k + 1] == GT then Some(Skip(text, k + 2)) else InstructionEnd(text, k + 1)
  {
    hide Until, Skip;
  }

  // ----- tags -----

  datatype Tag = Tag(instructions: seq<Instruction>, open: seq<byte>, name: seq<byte>, gap: seq<byte>, items: seq<Item>, tail: Tail)

  // One tag closed at once, or a tag with sub nodes, content and its end tag.
  datatype Tail =
    | Single(gap: seq<byte>)
    | Paired(start: seq<byte>, children: seq<Child>, content: seq<byte>,
             less: seq<byte>, slash: seq<byte>, end: seq<byte>, after: seq<byte>)

  datatype Child = Child(tag: Tag, gap: seq<byte>)

  function EndOf(tail: Tail): byte { if tail.Single? then '/' as byte else '>' as byte }

  predicate ValidTag(t: Tag)
    decreases t
  {
    && ValidInstructions(t.instructions) && Blank(t.open) && Blank(t.gap)
    && t.name != [] && Without(t.name, " />\t\r\n")
    && (t.open == [] ==> t.name[0] != '?' as int && t.name[0] != '!' as int)
    && (t.items != [] ==> t.gap != []) && ValidItems(t.items, EndOf(t.tail))
    && ValidTail(t.tail)
  }

  // An end tag that stands right behind the sub nodes starts with its two characters together; a line break behind the
  // name in an end tag belongs to the name.
  predicate ValidTail(tail: Tail)
    decreases tail
  {
    match tail
    case Single(gap) => Blank(gap)
    case Paired(start, children, content, less, slash, end, after) =>
      && Blank(start) && Blank(less) && Blank(slash) && Blank(after)
      && (forall c :: c in children ==> ValidTag(c.tag) && Blank(c.gap))
      && (content == [] ==> less == [])
      && (content != [] ==> Without(content, "<") && !Blank(content[..1]))
      && end != [] && Without(end, " \t>") && !Blank(end[..1])
      && (after != [] ==> after[0] == 32 || after[0] == 9)
  }

  function TagText(t: Tag): seq<byte>
    decreases t, 1
  {
    InstructionsText(t.instructions) + HeadText(t)
  }

  function HeadText(t: Tag): seq<byte>
    decreases t, 0
  {
    ['<' as byte] + (t.open + (t.name + (t.gap + (ItemsText(t.items) + TailText(t.tail)))))
  }

  function TailText(tail: Tail): (s: seq<byte>)
    ensures s != [] && s[0] == EndOf(tail)
    decreases tail, 0
  {
    match tail
    case Single(gap) => ['/' as byte] + (gap + ['>' as byte])
    case Paired(start, children, content, less, slash, end, after) =>
      ['>' as byte] + (start + (ChildrenText(children) + (content + ClosingText(less, slash, end, after))))
  }

  function ChildrenText(children: seq<Child>): seq<byte>
    decreases children, 2
  {
    if children == [] then []
    else TagText(children[0].tag) + (children[0].gap + ChildrenText(children[1..]))
  }

  function ClosingText(less: seq<byte>, slash: seq<byte>, end: seq<byte>, after: seq<byte>): seq<byte> {
    ['<' as byte] + (less + (['/' as byte] + (slash + (end + (after + ['>' as byte])))))
  }

  function Meaning(t: Tag): Node
    decreases t
  {
    match t.tail
    case Single(_) => Node(t.name, ItemMeanings(t.items), [], [])
    case Paired(_, children, content, _, _, _, _) => Node(t.name, ItemMeanings(t.items), ChildMeanings(children), content)
  }

  function ChildMeanings(children: seq<Child>): seq<Node>
    decreases children
  {
    if children == [] then [] else [Meaning(children[0].tag)] + ChildMeanings(children[1..])
  }

  // Every end tag matches the name of its node.
  predicate Agrees(t: Tag)
    decreases t
  {
    match t.tail
    case Single(_) => true
    case Paired(_, children, _, _, _, end, _) => Matches(t.name, end) && AllAgree(children)
  }

  predicate AllAgree(children: seq<Child>)
    decreases children
  {
    children == [] || (Agrees(children[0].tag) && AllAgree(children[1..]))
  }

  // ----- what is read -----

  lemma {:induction false} InstructionsRead(text: seq<byte>, p: nat, xs: seq<Instruction>, q: nat)
    requires ValidInstructions(xs) && Holds(text, p, InstructionsText(xs)) && q == p + |InstructionsText(xs)|
    requires q < |text| && text[q] == LT
    ensures p < |text| && text[p] == LT && (xs != [] ==> p + 1 < |text| && text[p + 1] == QUESTION)
    ensures NodeAt(text, p) == NodeAt(text, q)
    decreases |xs|
  {
    hide Holds, NodeAt, Skip, InstructionEnd;
    if xs != [] {
      var x, rest := xs[0], xs[1..];
      var next := p + |x.Text()|;
      assert x in xs;
      HoldsParts(text, p, x.Text(), InstructionsText(rest));
      InstructionsRead(text, next, rest, q);
      InstructionRead(text, p, x, next);
    }
  }

  lemma InstructionRead(text: seq<byte>, p: nat, x: Instruction, next: nat)
    requires x.Valid() && Holds(text, p, x.Text()) && next == p + |x.Text()| && next < |text| && text[next] == LT
    ensures text[p] == LT && text[p + 1] == QUESTION && NodeAt(text, p) == NodeAt(text, next)
  {
    hide Holds, NodeAt, Skip, InstructionEnd;
    var rest := x.body + (['?' as byte, '>' as byte] + x.gap);
    HoldsParts(text, p, ['<' as byte, '?' as byte], rest);
    HoldsByte(text, p, ['<' as byte, '?' as byte], 0);
    HoldsByte(text, p, ['<' as byte, '?' as byte], 1);
    EndRead(text, p + 2, x, 0);
    HoldsParts(text, p + 2, x.body, ['?' as byte, '>' as byte] + x.gap);
    HoldsParts(text, p + 2 + |x.body|, ['?' as byte, '>' as byte], x.gap);
    GapSkipped(text, p + 4 + |x.body|, x.gap);
    SkipNothing(text, next);
    InstructionNode(text, p, next);
  }

  lemma InstructionNode(text: seq<byte>, p: nat, next: nat)
    requires p + 1 < |text| && text[p] == LT && text[p + 1] == QUESTION && InstructionEnd(text, p + 2) == Some(next)
    ensures next <= |text| && NodeAt(text, p) == NodeAt(text, next)
  {
  }

  lemma TagNameStops(name: seq<byte>)
    requires Without(name, " />\t\r\n")
    ensures forall c :: c in name ==> c !in NAME_STOP && !IsBlank(c)
  {
    forall c | c in name ensures c !in NAME_STOP && !IsBlank(c) {
      var s := " />\t\r\n";
      assert c != s[0] as int && c != s[1] as int && c != s[2] as int && c != s[3] as int && c != s[4] as int
             && c != s[5] as int;
    }
  }

  // The places of the parts of a tag: name, blanks behind it, attributes, tail.
  lemma HeadStands(text: seq<byte>, p: nat, t: Tag, n: nat, k: nat, f: nat, e: nat)
    requires Holds(text, p, HeadText(t))
    requires n == p + 1 + |t.open| && k == n + |t.name| && f == k + |t.gap| && e == f + |ItemsText(t.items)|
    ensures p < |text| && text[p] == LT && Holds(text, p + 1, t.open) && Holds(text, n, t.name) && Holds(text, k, t.gap)
    ensures Holds(text, f, ItemsText(t.items)) && Holds(text, e, TailText(t.tail))
    ensures e < |text| && text[e] == EndOf(t.tail) && e + |TailText(t.tail)| == p + |HeadText(t)|
  {
    hide Holds, ItemsText, TailText;
    var a, b := ItemsText(t.items), TailText(t.tail);
    HoldsParts(text, p, ['<' as byte], t.open + (t.name + (t.gap + (a + b))));
    HoldsByte(text, p, ['<' as byte], 0);
    HoldsParts(text, p + 1, t.open, t.name + (t.gap + (a + b)));
    HoldsParts(text, n, t.name, t.gap + (a + b));
    HoldsParts(text, k, t.gap, a + b);
    HoldsParts(text, f, a, b);
    HoldsByte(text, e, b, 0);
  }

  lemma HeadRead(text: seq<byte>, p: nat, t: Tag, e: nat)
    requires ValidTag(t) && Holds(text, p, HeadText(t))
    requires e == p + 1 + |t.open| + |t.name| + |t.gap| + |ItemsText(t.items)|
    ensures p + 1 < |text| && text[p] == LT && text[p + 1] != SLASH && text[p + 1] != EXCLAMATION && text[p + 1] != QUESTION
    ensures p < e < |text| && text[e] == EndOf(t.tail) && Holds(text, e, TailText(t.tail))
    ensures NodeAt(text, p) == BodyAt(text, p, t.name, ItemMeanings(t.items), e)
  {
    hide Holds, HeadText, TailText, ItemsText, ItemMeanings, ValidTag, Skip, Until, NodeAt, AttrsAt, BodyAt, Blank, Without;
    TagParts(t);
    var n := p + 1 + |t.open|;
    var k := n + |t.name|;
    var f := k + |t.gap|;
    HeadStands(text, p, t, n, k, f, e);
    TagNameStops(t.name);
    GapSkipped(text, p + 1, t.open);
    NameHeld(text, n, t.name);
    HoldsByte(text, n, t.name, 0);
    assert t.name[0] in t.name;
    SkipNothing(text, n);
    SecondOf(text, p, t);
    FirstStands(text, f, t.items, e);
    GapSkipped(text, k, t.gap);
    SkipNothing(text, f);
    NameEnds(text, k, t, e);
    UntilReads(text, n, t.name, NAME_STOP);
    ItemsRead(text, f, t.items, e);
    HeadStep(text, p, n, k, f, ItemMeanings(t.items), e);
  }

  lemma TagParts(t: Tag)
    requires ValidTag(t)
    ensures Blank(t.open) && Blank(t.gap) && t.name != [] && Without(t.name, " />\t\r\n")
    ensures t.open == [] ==> t.name[0] != '?' as int && t.name[0] != '!' as int
    ensures (t.items != [] ==> t.gap != []) && ValidItems(t.items, EndOf(t.tail))
  {
  }

  // What stands behind the name of a tag.
  lemma NameEnds(text: seq<byte>, k: nat, t: Tag, e: nat)
    requires Holds(text, k, t.gap) && Blank(t.gap) && (t.items != [] ==> t.gap != [])
    requires e == k + |t.gap| + |ItemsText(t.items)| && e < |text| && (text[e] == GT || text[e] == SLASH)
    ensures text[k] in NAME_STOP
  {
    hide Holds;
    if t.gap != [] {
      HoldsByte(text, k, t.gap, 0);
      assert t.gap[0] in t.gap;
    }
  }

  lemma SecondOf(text: seq<byte>, p: nat, t: Tag)
    requires Blank(t.open) && Holds(text, p + 1, t.open) && Holds(text, p + 1 + |t.open|, t.name)
    requires t.name != [] && (t.open == [] ==> t.name[0] != '?' as int && t.name[0] != '!' as int)
    requires forall c :: c in t.name ==> c !in NAME_STOP
    ensures p + 1 < |text| && text[p + 1] != SLASH && text[p + 1] != EXCLAMATION && text[p + 1] != QUESTION
  {
    hide Holds;
    HoldsByte(text, p + 1 + |t.open|, t.name, 0);
    assert t.name[0] in t.name;
    if t.open != [] {
      HoldsByte(text, p + 1, t.open, 0);
      assert t.open[0] in t.open;
    }
  }

  lemma HeadStep(text: seq<byte>, p: nat, n: nat, k: nat, f: nat, attrs: seq<Attr>, e: nat)
    requires p + 1 < |text| && text[p] == LT && text[p + 1] != EXCLAMATION && text[p + 1] != QUESTION
    requires Skip(text, p + 1) == n && n < |text| && k == Until(text, n, NAME_STOP) && Skip(text, k) == f
    requires AttrsAt(text, f) == Some(Parsed(attrs, e)) && p < e < |text|
    ensures NodeAt(text, p) == BodyAt(text, p, text[n..k], attrs, e)
  {
    hide Skip, Until, AttrsAt, BodyAt;
  }

  lemma EndNameStops(end: seq<byte>)
    requires Without(end, " \t>")
    ensures forall c :: c in end ==> c !in END_STOP
  {
    forall c | c in end ensures c !in END_STOP {
      var s := " \t>";
      assert c != s[0] as int && c != s[1] as int && c != s[2] as int;
    }
  }

  lemma ClosingStands(text: seq<byte>, p: nat, tail: Tail, a: nat, b: nat, k: nat, c: nat)
    requires tail.Paired? && Holds(text, p, ClosingText(tail.less, tail.slash, tail.end, tail.after))
    requires a == p + 1 + |tail.less| && b == a + 1 + |tail.slash| && k == b + |tail.end| && c == k + |tail.after|
    ensures c < |text| && text[p] == LT && text[a] == SLASH && text[c] == GT
    ensures Holds(text, p + 1, tail.less) && Holds(text, a + 1, tail.slash) && Holds(text, b, tail.end)
    ensures Holds(text, k, tail.after) && p + |ClosingText(tail.less, tail.slash, tail.end, tail.after)| == c + 1
  {
    hide Holds;
    HoldsParts(text, p, ['<' as byte], tail.less + (['/' as byte] + (tail.slash + (tail.end + (tail.after + ['>' as byte])))));
    HoldsParts(text, p + 1, tail.less, ['/' as byte] + (tail.slash + (tail.end + (tail.after + ['>' as byte]))));
    HoldsParts(text, a, ['/' as byte], tail.slash + (tail.end + (tail.after + ['>' as byte])));
    HoldsParts(text, a + 1, tail.slash, tail.end + (tail.after + ['>' as byte]));
    HoldsParts(text, b, tail.end, tail.after + ['>' as byte]);
    HoldsParts(text, k, tail.after, ['>' as byte]);
    HoldsByte(text, p, ['<' as byte], 0);
    HoldsByte(text, a, ['/' as byte], 0);
    HoldsByte(text, c, ['>' as byte], 0);
  }

  lemma TailParts(tail: Tail)
    requires tail.Paired? && ValidTail(tail)
    ensures Blank(tail.less) && Blank(tail.slash) && Blank(tail.after) && (tail.content == [] ==> tail.less == [])
    ensures tail.end != [] && Without(tail.end, " \t>") && !IsBlank(tail.end[0])
    ensures tail.after != [] ==> tail.after[0] == 32 || tail.after[0] == 9
  {
    assert tail.end[..1] == [tail.end[0]];
  }

  // The end tag: it is accepted exactly when its name matches.
  lemma ClosingRead(text: seq<byte>, p: nat, tail: Tail, name: seq<byte>)
    requires tail.Paired? && ValidTail(tail)
    requires Holds(text, p, ClosingText(tail.less, tail.slash, tail.end, tail.after))
    ensures var q := p + |ClosingText(tail.less, tail.slash, tail.end, tail.after)|;
            && p < |text| && text[p] == LT && (tail.content == [] ==> p + 1 < |text| && text[p + 1] == SLASH)
            && q <= |text|
            && ClosingAt(text, p, name) == if Matches(name, tail.end) then Some(Skip(text, q)) else None
  {
    hide Holds, Skip, Until, Matches, ClosingText, ClosingAt, ValidTail;
    var a := p + 1 + |tail.less|;
    var b := a + 1 + |tail.slash|;
    var k := b + |tail.end|;
    var c := k + |tail.after|;
    ClosingStands(text, p, tail, a, b, k, c);
    TailParts(tail);
    ClosingSkips(text, p, tail, a, b, k, c);
    EndNameRead(text, b, tail.end, k, tail.after, c);
    SlashBehind(text, p, tail, a);
    ClosingStep(text, p, name, a, b, k, c);
  }

  lemma ClosingSkips(text: seq<byte>, p: nat, tail: Tail, a: nat, b: nat, k: nat, c: nat)
    requires tail.Paired? && Blank(tail.less) && Blank(tail.slash) && Blank(tail.after)
    requires tail.end != [] && !IsBlank(tail.end[0])
    requires a == p + 1 + |tail.less| && b == a + 1 + |tail.slash| && c == k + |tail.after|
    requires Holds(text, p + 1, tail.less) && Holds(text, a + 1, tail.slash) && Holds(text, b, tail.end)
    requires Holds(text, k, tail.after) && c < |text| && text[a] == SLASH && text[c] == GT
    ensures Skip(text, p + 1) == a && Skip(text, a + 1) == b && Skip(text, k) == c
  {
    hide Holds, Skip, Blank;
    GapSkipped(text, p + 1, tail.less);
    GapSkipped(text, a + 1, tail.slash);
    GapSkipped(text, k, tail.after);
    HoldsByte(text, b, tail.end, 0);
    SkipNothing(text, a);
    SkipNothing(text, b);
    SkipNothing(text, c);
  }

  lemma EndNameRead(text: seq<byte>, b: nat, end: seq<byte>, k: nat, after: seq<byte>, c: nat)
    requires Without(end, " \t>") && Holds(text, b, end) && k == b + |end| && Holds(text, k, after) && c == k + |after|
    requires c < |text| && text[c] == GT && (after != [] ==> after[0] == 32 || after[0] == 9)
    ensures Until(text, b, END_STOP) == k && text[b..k] == end
  {
    hide Holds, Until, Without;
    EndNameStops(end);
    if after != [] { HoldsByte(text, k, after, 0); }
    UntilReads(text, b, end, END_STOP);
    NameHeld(text, b, end);
  }

  lemma SlashBehind(text: seq<byte>, p: nat, tail: Tail, a: nat)
    requires tail.Paired? && a == p + 1 + |tail.less| && a < |text| && text[a] == SLASH
    ensures tail.less == [] ==> text[p + 1] == SLASH
  {
  }

  lemma ClosingStep(text: seq<byte>, p: nat, name: seq<byte>, a: nat, b: nat, k: nat, c: nat)
    requires p < a < b < k <= c < |text| && text[p] == LT && text[a] == SLASH && text[c] == GT
    requires Skip(text, p + 1) == a && Skip(text, a + 1) == b && Until(text, b, END_STOP) == k && Skip(text, k) == c
    ensures ClosingAt(text, p, name) == if Matches(name, text[b..k]) then Some(Skip(text, c + 1)) else None
  {
    hide Skip, Until, Matches;
  }

  // The content, up to the bracket behind it.
  lemma ContentRead(text: seq<byte>, p: nat, content: seq<byte>, q: nat)
    requires Holds(text, p, content) && q == p + |content| && q < |text| && text[q] == LT
    requires content != [] ==> Without(content, "<")
    ensures ContentAt(text, p) == Parsed(content, Skip(text, q))
    ensures p < |text| && (content != [] ==> text[p] == content[0] && text[p] != LT)
  {
    hide Holds, Until;
    SkipNothing(text, q);
    if content != [] {
      HoldsByte(text, p, content, 0);
      forall c | c in content ensures c !in {LT} {
        var s := "<";
        assert c != s[0] as int;
      }
      UntilReads(text, p, content, {LT});
      NameHeld(text, p, content);
    }
  }

  // A tag that is closed at once.
  lemma SingleRead(text: seq<byte>, i: nat, e: nat, name: seq<byte>, attrs: seq<Attr>, tail: Tail, q: nat)
    requires tail.Single? && ValidTail(tail) && Holds(text, e, TailText(tail)) && i < e && q == e + |TailText(tail)|
    ensures e < |text| && q <= |text|
    ensures BodyAt(text, i, name, attrs, e) == Some(Parsed(Node(name, attrs, [], []), Skip(text, q)))
  {
    hide Holds, Skip;
    var g := e + 1 + |tail.gap|;
    HoldsParts(text, e, ['/' as byte], tail.gap + ['>' as byte]);
    HoldsParts(text, e + 1, tail.gap, ['>' as byte]);
    HoldsByte(text, e, ['/' as byte], 0);
    HoldsByte(text, g, ['>' as byte], 0);
    GapSkipped(text, e + 1, tail.gap);
    SkipNothing(text, g);
  }

  lemma PairedStands(text: seq<byte>, e: nat, tail: Tail, c: nat, d: nat, f: nat)
    requires tail.Paired? && Holds(text, e, TailText(tail))
    requires c == e + 1 + |tail.start| && d == c + |ChildrenText(tail.children)| && f == d + |tail.content|
    ensures e < |text| && text[e] == GT && Holds(text, e + 1, tail.start) && Holds(text, c, ChildrenText(tail.children))
    ensures Holds(text, d, tail.content) && Holds(text, f, ClosingText(tail.less, tail.slash, tail.end, tail.after))
    ensures e + |TailText(tail)| == f + |ClosingText(tail.less, tail.slash, tail.end, tail.after)|
  {
    hide Holds, ChildrenText, ClosingText;
    var x, z := ChildrenText(tail.children), ClosingText(tail.less, tail.slash, tail.end, tail.after);
    HoldsParts(text, e, ['>' as byte], tail.start + (x + (tail.content + z)));
    HoldsByte(text, e, ['>' as byte], 0);
    HoldsParts(text, e + 1, tail.start, x + (tail.content + z));
    HoldsParts(text, c, x, tail.content + z);
    HoldsParts(text, d, tail.content, z);
  }

  // A tag with an end tag, when its sub nodes have been read.
  lemma PairedStep(text: seq<byte>, i: nat, e: nat, name: seq<byte>, attrs: seq<Attr>, c: nat, children: Option<Parsed<seq<Node>>>,
                   content: seq<byte>, f: nat, closing: Option<nat>)
    requires i < e < |text| && text[e] == GT && Skip(text, e + 1) == c && NodesAt(text, c) == children
    requires children.Some? ==> children.value.next <= |text| && ContentAt(text, children.value.next) == Parsed(content, f)
                                && f <= |text| && ClosingAt(text, f, name) == closing
    ensures BodyAt(text, i, name, attrs, e)
            == if children.None? || closing.None? then None
               else Some(Parsed(Node(name, attrs, children.value.item, content), closing.value))
  {
    hide Skip, NodesAt, ContentAt, ClosingAt;
  }

  // ----- whole tags -----

  function NodeOf(t: Tag, next: nat): Option<Parsed<Node>> {
    if Agrees(t) then Some(Parsed(Meaning(t), next)) else None
  }

  function NodesOf(children: seq<Child>, next: nat): Option<Parsed<seq<Node>>> {
    if AllAgree(children) then Some(Parsed(ChildMeanings(children), next)) else None
  }

  lemma {:induction false} TagRead(text: seq<byte>, p: nat, t: Tag, q: nat)
    requires ValidTag(t) && Holds(text, p, TagText(t)) && q == p + |TagText(t)|
    ensures p + 1 < |text| && q <= |text| && text[p] == LT && text[p + 1] != SLASH && text[p + 1] != EXCLAMATION
    ensures NodeAt(text, p) == NodeOf(t, Skip(text, q))
    decreases t, 1
  {
    hide Holds, InstructionsText, HeadText, TailText, ItemsText, ValidTail, NodeAt, BodyAt, Skip, Meaning, Agrees;
    var h := p + |InstructionsText(t.instructions)|;
    var e := h + 1 + |t.open| + |t.name| + |t.gap| + |ItemsText(t.items)|;
    HoldsParts(text, p, InstructionsText(t.instructions), HeadText(t));
    ValidParts(t);
    HeadRead(text, h, t, e);
    HeadLength(t);
    InstructionsRead(text, p, t.instructions, h);
    if t.instructions == [] { NoInstructions(); }
    TailRead(text, h, e, t, q);
  }

  lemma NoInstructions()
    ensures InstructionsText([]) == []
  {
  }

  lemma ValidParts(t: Tag)
    requires ValidTag(t)
    ensures ValidInstructions(t.instructions) && ValidTail(t.tail)
  {
  }

  lemma HeadLength(t: Tag)
    ensures |HeadText(t)| == 1 + |t.open| + |t.name| + |t.gap| + |ItemsText(t.items)| + |TailText(t.tail)|
  {
    hide ItemsText, TailText;
  }

  lemma {:induction false} TailRead(text: seq<byte>, i: nat, e: nat, t: Tag, q: nat)
    requires ValidTail(t.tail) && Holds(text, e, TailText(t.tail)) && q == e + |TailText(t.tail)| && i < e
    ensures e < |text| && q <= |text|
    ensures BodyAt(text, i, t.name, ItemMeanings(t.items), e) == NodeOf(t, Skip(text, q))
    decreases t, 0
  {
    hide Holds, TailText, BodyAt, Skip, NodesAt, ContentAt, ClosingAt, ItemMeanings, Matches;
    match t.tail
    case Single(_) => SingleRead(text, i, e, t.name, ItemMeanings(t.items), t.tail, q);
    case Paired(start, children, content, less, slash, end, after) =>
      var c := e + 1 + |start|;
      var d := c + |ChildrenText(children)|;
      var f := d + |content|;
      PairedStands(text, e, t.tail, c, d, f);
      ClosingRead(text, f, t.tail, t.name);
      ContentRead(text, d, content, f);
      SkipNothing(text, f);
      GapSkipped(text, e + 1, start);
      ChildrenEnd(text, d, f, t.tail);
      ChildrenRead(text, c, children, d);
      PairedStep(text, i, e, t.name, ItemMeanings(t.items), c, NodesOf(children, d), content, f,
                 if Matches(t.name, end) then Some(Skip(text, q)) else None);
  }

  // What stands behind the sub nodes is no further one.
  lemma ChildrenEnd(text: seq<byte>, d: nat, f: nat, tail: Tail)
    requires tail.Paired? && ValidTail(tail) && f == d + |tail.content| && f < |text| && text[f] == LT
    requires tail.content == [] ==> f + 1 < |text| && text[f + 1] == SLASH
    requires tail.content != [] ==> text[d] == tail.content[0] && text[d] != LT
    ensures !IsBlank(text[d]) && (text[d] == LT ==> d + 1 < |text| && text[d + 1] == SLASH)
  {
    if tail.content != [] { assert tail.content[..1] == [tail.content[0]]; }
  }

  lemma {:induction false} ChildrenRead(text: seq<byte>, p: nat, children: seq<Child>, q: nat)
    requires (forall c :: c in children ==> ValidTag(c.tag) && Blank(c.gap)) && Holds(text, p, ChildrenText(children))
    requires q == p + |ChildrenText(children)| && q < |text| && !IsBlank(text[q])
    requires text[q] == LT ==> q + 1 < |text| && text[q + 1] == SLASH
    ensures p < |text| && !IsBlank(text[p]) && NodesAt(text, p) == NodesOf(children, q)
    decreases children, 2
  {
    hide Holds, NodeAt, Skip, TagText, ValidTag, Agrees, Meaning;
    if children != [] {
      var c, rest := children[0], ChildrenText(children[1..]);
      var g := p + |TagText(c.tag)|;
      var next := g + |c.gap|;
      assert c in children;
      HoldsParts(text, p, TagText(c.tag), c.gap + rest);
      HoldsParts(text, g, c.gap, rest);
      TagRead(text, p, c.tag, g);
      GapSkipped(text, g, c.gap);
      ChildrenRead(text, next, children[1..], q);
      SkipNothing(text, next);
      assert NodeAt(text, p) == NodeOf(c.tag, next);
    }
  }

  // A text of a tree, laid out in any way, is parsed as that tree exactly when every end tag matches the name of its
  // node; otherwise it is refused.
  lemma LaidOutRead(front: seq<byte>, t: Tag, rest: seq<byte>)
    requires ValidTag(t) && Blank(front)
    ensures Parse(front + TagText(t) + rest) == if Agrees(t) then Some(Meaning(t)) else None
  {
    hide NodeAt, Skip, TagText, ValidTag, Agrees, Meaning;
    var text := front + TagText(t) + rest;
    assert Holds(text, 0, front) && Holds(text, |front|, TagText(t));
    hide Holds;
    TagRead(text, |front|, t, |front| + |TagText(t)|);
    GapSkipped(text, 0, front);
    SkipNothing(text, |front|);
  }
}
