/** DNS packets on the wire, byte by byte, as sections 3.2, 3.4 and 4.1 of RFC 1035, RFC 2782 and RFC 3596 lay them out,
    with names compressed in any way, and what the parser makes of them. */
module DnsWire {
  import opened Bytes
  import opened Buffers
  import opened DnsPacket
  import opened DnsParser

  // ----- names -----

  // How a name lies in a packet: labels, the end, and pointers with what stands where they point.
  // A broken layout stops at a place where no name goes on.
  datatype Layout =
    | Root
    | Broken
    | Label(text: seq<byte>, rest: Layout)
    | Pointer(target: nat, rest: Layout)
  {
    // Lengths have two free bits, offsets fourteen.
    predicate Valid() {
      match this
      case Root => true
      case Broken => true
      case Label(text, rest) => 0 < |text| < 192 && rest.Valid()
      case Pointer(target, rest) => target < 16384 && rest.Valid()
    }

    function Bytes(): (s: seq<byte>)
      requires Valid()
    {
      match this
      case Root => [0]
      case Broken => []
      case Label(text, rest) => [|text|] + text + rest.Bytes()
      case Pointer(target, _) => [192 + target / 256, target % 256]
    }

    function Labels(): seq<Name> {
      match this
      case Root => []
      case Broken => []
      case Label(text, rest) => [text] + rest.Labels()
      case Pointer(_, rest) => rest.Labels()
    }

    function Pointers(): nat {
      match this
      case Root => 0
      case Broken => 0
      case Label(_, rest) => rest.Pointers()
      case Pointer(_, rest) => 1 + rest.Pointers()
    }

    predicate Whole() {
      match this
      case Root => true
      case Broken => false
      case Label(_, rest) => rest.Whole()
      case Pointer(_, rest) => rest.Whole()
    }

    // A label, and behind it a pointer to the end of a name.
    predicate Dangling() {
      match this
      case Root => false
      case Broken => false
      case Label(_, rest) => (rest.Pointer? && rest.Labels() == []) || rest.Dangling()
      case Pointer(_, rest) => rest.Dangling()
    }

    // What the pointers of the name point to stands there.
    predicate Linked(packet: seq<byte>)
      requires Valid()
    {
      match this
      case Root => true
      case Broken => true
      case Label(_, rest) => rest.Linked(packet)
      case Pointer(target, rest) => target < |packet| && Holds(packet, target, rest.Bytes()) && rest.Linked(packet)
    }

    // Where a name that starts at p stops.
    function Stop(p: nat): nat
    {
      match this
      case Root => p
      case Broken => p
      case Label(text, rest) => rest.Stop(p + 1 + |text|)
      case Pointer(target, rest) => rest.Stop(target)
    }
  }

  function Dotted(labels: seq<Name>): Name {
    if labels == [] then []
    else if |labels| == 1 then labels[0]
    else labels[0] + ['.' as byte] + Dotted(labels[1..])
  }

  // A pointer out of the packet, or a label that reaches its end.
  predicate Defect(packet: seq<byte>, q: nat) {
    && q < |packet|
    && (|| (packet[q] >= 192 && q + 1 < |packet| && (packet[q] - 192) as int * 256 + packet[q + 1] >= |packet|)
        || (0 < packet[q] < 192 && q + 1 + packet[q] >= |packet|))
  }

  // The name at p lies as the layout says.
  predicate NameStands(packet: seq<byte>, p: nat, l: Layout) {
    && l.Valid() && p < |packet| && Holds(packet, p, l.Bytes()) && l.Linked(packet)
    && (!l.Whole() ==> Defect(packet, l.Stop(p)))
  }

  // The text the parser gives: a dot behind each label that is not followed by the end at once.
  function Text(l: Layout): Name {
    match l
    case Root => []
    case Broken => []
    case Label(text, rest) => text + (if rest.Root? then [] else ['.' as byte]) + Text(rest)
    case Pointer(_, rest) => Text(rest)
  }

  lemma {:induction false} TextIsDotted(l: Layout)
    requires l.Whole()
    ensures Text(l) == Dotted(l.Labels()) + if l.Dangling() then ['.' as byte] else []
  {
    match l
    case Root =>
    case Label(text, rest) =>
      TextIsDotted(rest);
      if rest.Labels() == [] { Unlabelled(rest); }
      assert ([text] + rest.Labels())[1..] == rest.Labels();
    case Pointer(_, rest) => TextIsDotted(rest);
  }

  lemma {:induction false} Unlabelled(l: Layout)
    requires l.Labels() == []
    ensures !l.Dangling()
  {
    match l
    case Root =>
    case Broken =>
    case Pointer(_, rest) => Unlabelled(rest);
  }

  lemma LabelStands(packet: seq<byte>, p: nat, l: Layout)
    requires l.Label? && NameStands(packet, p, l)
    ensures packet[p] == |l.text| && Holds(packet, p + 1, l.text) && NameStands(packet, p + 1 + |l.text|, l.rest)
    ensures packet[p + 1 + |l.text|] == 0 <==> l.rest.Root?
  {
    var next := p + 1 + |l.text|;
    var head: seq<byte> := [|l.text|];
    assert l.Bytes() == head + (l.text + l.rest.Bytes());
    HoldsParts(packet, p, head, l.text + l.rest.Bytes());
    HoldsByte(packet, p, head, 0);
    HoldsParts(packet, p + 1, l.text, l.rest.Bytes());
    if l.rest.Broken? {
      assert l.Stop(p) == next;
    } else {
      HoldsByte(packet, next, l.rest.Bytes(), 0);
    }
  }

  lemma PointerStands(packet: seq<byte>, p: nat, l: Layout)
    requires l.Pointer? && NameStands(packet, p, l)
    ensures p + 1 < |packet| && packet[p] == 192 + l.target / 256 && packet[p + 1] == l.target % 256
    ensures NameStands(packet, l.target, l.rest)
  {
    HoldsByte(packet, p, l.Bytes(), 0);
    HoldsByte(packet, p, l.Bytes(), 1);
  }

  lemma LabelIsRead(m: Memory, depth: nat, p: nat, text: Name, last: bool)
    requires depth <= 10 && 0 < |text| < 192 && p < |m.packet| && m.packet[p] == |text|
    requires Holds(m.packet, p + 1, text) && p + 1 + |text| < |m.packet|
    requires last <==> m.packet[p + 1 + |text|] == 0
    ensures var next := p + 1 + |text|;
            && Measure(m, depth, p) == Extend(1 + |text|, |text| + if last then 0 else 1, Measure(m, depth, next))
            && Spelled(m, depth, p) == Prefixed(text + if last then [] else ['.' as byte], Spelled(m, depth, next))
  {
    m.ReadInside(p + 1, |text|);
    hide Measure, Spelled;
    LabelUnfolds(m, depth, p);
  }

  lemma LabelUnfolds(m: Memory, depth: nat, p: nat)
    requires depth <= 10 && 0 < m.At(p) < 192 && p + m.At(p) + 1 < |m.packet|
    ensures var next := p + m.At(p) + 1;
            && Measure(m, depth, p) == Extend(m.At(p) + 1, LabelLength(m, p), Measure(m, depth, next))
            && Spelled(m, depth, p) == Prefixed(LabelText(m, p), Spelled(m, depth, next))
  {
    hide LabelLength, LabelText;
  }

  lemma PointerIsRead(m: Memory, depth: nat, p: nat, target: nat)
    requires depth <= 10 && p + 1 < |m.packet| && target < 16384 && target < |m.packet|
    requires m.packet[p] == 192 + target / 256 && m.packet[p + 1] == target % 256
    ensures Measure(m, depth, p)
            == match Measure(m, depth + 1, target)
               case Ok(x) => Ok(Extent(2, x.length))
               case Err(e) => Err(e)
    ensures Spelled(m, depth, p) == Spelled(m, depth + 1, target)
  {
    assert Offset(m.At(p), m.At(p + 1)) == target;
    hide Offset;
  }

  lemma TooDeep(m: Memory, depth: nat, p: nat)
    requires depth > 10
    ensures Measure(m, depth, p).Err?
  {
  }

  lemma RootIsRead(m: Memory, depth: nat, p: nat)
    requires depth <= 10 && p < |m.packet| && m.packet[p] == 0
    ensures Measure(m, depth, p) == Ok(Extent(1, 0)) && Spelled(m, depth, p) == Ok([])
  {
  }

  lemma DefectIsRefused(m: Memory, depth: nat, q: nat)
    requires Defect(m.packet, q)
    ensures Measure(m, depth, q).Err?
  {
  }

  lemma {:induction false} NameIsMeasured(m: Memory, depth: nat, p: nat, l: Layout)
    requires NameStands(m.packet, p, l)
    ensures if depth + l.Pointers() <= 10 && l.Whole()
            then && Measure(m, depth, p) == Ok(Extent(|l.Bytes()|, |Text(l)|)) && Spelled(m, depth, p) == Ok(Text(l))
            else Measure(m, depth, p).Err?
    decreases l
  {
    hide Measure, Spelled, NameStands;
    if depth > 10 {
      TooDeep(m, depth, p);
      return;
    }
    match l
    case Root =>
      RootStands(m.packet, p);
      RootIsRead(m, depth, p);
    case Broken =>
      BrokenStands(m.packet, p);
      DefectIsRefused(m, depth, p);
    case Label(text, rest) =>
      LabelStands(m.packet, p, l);
      StandsInside(m.packet, p + 1 + |text|, rest);
      NameIsMeasured(m, depth, p + 1 + |text|, rest);
      StandsInside(m.packet, p, l);
      LabelIsRead(m, depth, p, text, rest.Root?);
    case Pointer(target, rest) =>
      StandsInside(m.packet, p, l);
      PointerStands(m.packet, p, l);
      StandsInside(m.packet, target, rest);
      NameIsMeasured(m, depth + 1, target, rest);
      PointerIsRead(m, depth, p, target);
  }

  lemma StandsInside(packet: seq<byte>, p: nat, l: Layout)
    requires NameStands(packet, p, l)
    ensures p < |packet| && l.Valid()
  {
  }

  lemma RootStands(packet: seq<byte>, p: nat)
    requires NameStands(packet, p, Root)
    ensures p < |packet| && packet[p] == 0
  {
    HoldsByte(packet, p, Root.Bytes(), 0);
  }

  lemma BrokenStands(packet: seq<byte>, p: nat)
    requires NameStands(packet, p, Broken)
    ensures Defect(packet, p)
  {
  }

  // However a name is compressed, it is read back exactly when it is whole and has no more than ten pointers.
  // A pointer to the end of a name behind a label leaves a dot at the end of the text.
  lemma NameIsRead(m: Memory, p: nat, l: Layout)
    requires NameStands(m.packet, p, l)
    ensures NameAt(m, p).Ok? <==> l.Whole() && l.Pointers() <= 10
    ensures NameAt(m, p).Ok? ==>
              NameAt(m, p).value
              == DnsParser.Parsed(Dotted(l.Labels()) + (if l.Dangling() then ['.' as byte] else []), |l.Bytes()|)
  {
    hide Measure, Spelled;
    NameIsMeasured(m, 0, p, l);
    if l.Whole() { TextIsDotted(l); }
  }

  // ----- records -----

  // Two and four bytes, the high ones first.
  function Two(v: uint16): (s: seq<byte>) { [v / 256, v % 256] }

  function Four(v: uint32): (s: seq<byte>) { Two(v / 65536) + Two(v % 65536) }

  // The data of the six types that are understood, and of all others.
  datatype Data =
    | A(address: seq<byte>)
    | Aaaa(address6: seq<byte>)
    | Ns(name: Layout)
    | Cname(name: Layout)
    | Ptr(name: Layout)
    | Srv(priority: uint16, weight: uint16, port: uint16, target: Layout)
    | Other(rtype: uint16, data: seq<byte>)
  {
    predicate Valid() {
      match this
      case A(address) => |address| == 4
      case Aaaa(address6) => |address6| == 16
      case Ns(name) => Readable(name)
      case Cname(name) => Readable(name)
      case Ptr(name) => Readable(name)
      case Srv(_, _, _, target) => Readable(target)
      case Other(rtype, data) => rtype !in [1, 2, 5, 12, 28, 33] && |data| < 65536
    }

    function Type(): uint16 {
      match this
      case A(_) => 1
      case Aaaa(_) => 28
      case Ns(_) => 2
      case Cname(_) => 5
      case Ptr(_) => 12
      case Srv(_, _, _, _) => 33
      case Other(rtype, _) => rtype
    }

    function Bytes(): (s: seq<byte>)
      requires Valid()
    {
      match this
      case A(address) => address
      case Aaaa(address6) => address6
      case Ns(name) => name.Bytes()
      case Cname(name) => name.Bytes()
      case Ptr(name) => name.Bytes()
      case Srv(priority, weight, port, target) => Two(priority) + Two(weight) + Two(port) + target.Bytes()
      case Other(_, data) => data
    }

    predicate Linked(packet: seq<byte>)
      requires Valid()
    {
      match this
      case Ns(name) => name.Linked(packet)
      case Cname(name) => name.Linked(packet)
      case Ptr(name) => name.Linked(packet)
      case Srv(_, _, _, target) => target.Linked(packet)
      case _ => true
    }

    function Meaning(): Rdata {
      match this
      case A(address) => Address(address)
      case Aaaa(address6) => Address6(address6)
      case Ns(name) => Alias(Dotted(name.Labels()))
      case Cname(name) => Alias(Dotted(name.Labels()))
      case Ptr(name) => Alias(Dotted(name.Labels()))
      case Srv(priority, weight, port, target) => Service(priority, weight, port, Dotted(target.Labels()))
      case Other(_, data) => Raw(data)
    }
  }

  // The names that are read back as their labels.
  predicate Readable(l: Layout) {
    l.Valid() && l.Whole() && !l.Dangling() && l.Pointers() <= 10
  }

  lemma ReadName(m: Memory, p: nat, l: Layout)
    requires Readable(l) && Holds(m.packet, p, l.Bytes()) && l.Linked(m.packet)
    ensures |l.Bytes()| > 0 && NameAt(m, p) == Ok(DnsParser.Parsed(Dotted(l.Labels()), |l.Bytes()|))
  {
    hide NameAt, Dotted;
    NameIsRead(m, p, l);
    assert Dotted(l.Labels()) + [] == Dotted(l.Labels());
  }

  lemma TwoIsRead(m: Memory, p: nat, v: uint16)
    requires Holds(m.packet, p, Two(v))
    ensures m.At16(p) == v
  {
    HoldsByte(m.packet, p, Two(v), 0);
    HoldsByte(m.packet, p, Two(v), 1);
  }

  lemma FourIsRead(m: Memory, p: nat, v: uint32)
    requires Holds(m.packet, p, Four(v))
    ensures m.At32(p) == v
  {
    HoldsByte(m.packet, p, Four(v), 0);
    HoldsByte(m.packet, p, Four(v), 1);
    HoldsByte(m.packet, p, Four(v), 2);
    HoldsByte(m.packet, p, Four(v), 3);
  }

  lemma TextIsRead(m: Memory, p: nat, s: seq<byte>)
    requires Holds(m.packet, p, s)
    ensures m.Read(p, |s|) == s
  {
    m.ReadInside(p, |s|);
  }

  // What stands there is read whatever the length before it says; only data of other types depends on it.
  lemma DataIsRead(m: Memory, p: nat, d: Data, stated: nat)
    requires d.Valid() && Holds(m.packet, p, d.Bytes()) && d.Linked(m.packet)
    requires d.Other? ==> stated == |d.data|
    ensures RdataAt(m, d.Type(), stated, p) == Ok(DnsParser.Parsed(d.Meaning(), |d.Bytes()|))
  {
    hide NameAt, Readable, Holds, Dotted;
    match d
    case A(address) => TextIsRead(m, p, address);
    case Aaaa(address6) => TextIsRead(m, p, address6);
    case Ns(name) => ReadName(m, p, name);
    case Cname(name) => ReadName(m, p, name);
    case Ptr(name) => ReadName(m, p, name);
    case Srv(priority, weight, port, target) =>
      ServiceStands(m.packet, p, d);
      TwoIsRead(m, p, priority);
      TwoIsRead(m, p + 2, weight);
      TwoIsRead(m, p + 4, port);
      ReadName(m, p + 6, target);
    case Other(_, data) => TextIsRead(m, p, data);
  }

  lemma ServiceStands(packet: seq<byte>, p: nat, d: Data)
    requires d.Srv? && d.Valid() && Holds(packet, p, d.Bytes())
    ensures Holds(packet, p, Two(d.priority)) && Holds(packet, p + 2, Two(d.weight)) && Holds(packet, p + 4, Two(d.port))
    ensures Holds(packet, p + 6, d.target.Bytes())
  {
    HoldsParts(packet, p, Two(d.priority) + Two(d.weight) + Two(d.port), d.target.Bytes());
    HoldsParts(packet, p, Two(d.priority) + Two(d.weight), Two(d.port));
    HoldsParts(packet, p, Two(d.priority), Two(d.weight));
  }

  datatype Entry = Entry(name: Layout, rclass: uint16, ttl: uint32, data: Data) {
    predicate Valid() { Readable(name) && data.Valid() && |data.Bytes()| < 65536 }

    // Name, type, class, time to live, length of the data, data.
    function Bytes(stated: uint16): seq<byte>
      requires Valid()
    {
      name.Bytes() + Fields(stated)
    }

    function Fields(stated: uint16): seq<byte>
      requires Valid()
    {
      Two(data.Type()) + (Two(rclass) + (Four(ttl) + (Two(stated) + data.Bytes())))
    }

    predicate Linked(packet: seq<byte>)
      requires Valid()
    {
      name.Linked(packet) && data.Linked(packet)
    }

    function Meaning(): Record { Record(Dotted(name.Labels()), data.Type(), rclass, ttl, data.Meaning()) }
  }

  lemma FieldsStand(packet: seq<byte>, p: nat, e: Entry, stated: uint16)
    requires e.Valid() && Holds(packet, p, e.Fields(stated))
    ensures Holds(packet, p, Two(e.data.Type())) && Holds(packet, p + 2, Two(e.rclass)) && Holds(packet, p + 4, Four(e.ttl))
    ensures Holds(packet, p + 8, Two(stated)) && Holds(packet, p + 10, e.data.Bytes())
    ensures |e.Fields(stated)| == 10 + |e.data.Bytes()|
  {
    hide Holds;
    var d := e.data.Bytes();
    HoldsParts(packet, p, Two(e.data.Type()), Two(e.rclass) + (Four(e.ttl) + (Two(stated) + d)));
    HoldsParts(packet, p + 2, Two(e.rclass), Four(e.ttl) + (Two(stated) + d));
    HoldsParts(packet, p + 4, Four(e.ttl), Two(stated) + d);
    HoldsParts(packet, p + 8, Two(stated), d);
  }

  lemma HoldsInside(packet: seq<byte>, p: nat, s: seq<byte>)
    requires Holds(packet, p, s)
    ensures p + |s| <= |packet|
  {
  }

  // Records of the types that are understood must have the class of the internet, and no length may reach out of the
  // packet. Everything else is read back, and takes exactly the bytes that stand there.
  lemma FieldsAreRead(m: Memory, p: nat, e: Entry, stated: uint16)
    requires e.Valid() && Holds(m.packet, p, e.Fields(stated)) && e.Linked(m.packet)
    requires e.data.Other? ==> stated == |e.data.data|
    ensures FieldsAt(m, Dotted(e.name.Labels()), p)
            == if e.rclass != 1 && !e.data.Other? then Err(BadClass)
               else if p + 10 + stated > |m.packet| then Err(BadSize)
               else Ok(DnsParser.Parsed(e.Meaning(), |e.Fields(stated)|))
  {
    hide RdataAt, Holds, Dotted, Readable;
    FieldsStand(m.packet, p, e, stated);
    HoldsInside(m.packet, p + 10, e.data.Bytes());
    TwoIsRead(m, p, e.data.Type());
    TwoIsRead(m, p + 2, e.rclass);
    FourIsRead(m, p + 4, e.ttl);
    TwoIsRead(m, p + 8, stated);
    DataIsRead(m, p + 10, e.data, stated);
  }

  lemma RecordIsRead(m: Memory, p: nat, e: Entry, stated: uint16)
    requires e.Valid() && Holds(m.packet, p, e.Bytes(stated)) && e.Linked(m.packet)
    requires e.data.Other? ==> stated == |e.data.data|
    ensures RecordAt(m, p)
            == if e.rclass != 1 && !e.data.Other? then Err(BadClass)
               else if p + |e.name.Bytes()| + 10 + stated > |m.packet| then Err(BadSize)
               else Ok(DnsParser.Parsed(e.Meaning(), |e.Bytes(stated)|))
  {
    hide NameAt, FieldsAt, Holds, Dotted;
    HoldsParts(m.packet, p, e.name.Bytes(), e.Fields(stated));
    ReadEntryName(m, p, e);
    FieldsAreRead(m, p + |e.name.Bytes()|, e, stated);
  }

  lemma ReadEntryName(m: Memory, p: nat, e: Entry)
    requires e.Valid() && Holds(m.packet, p, e.name.Bytes()) && e.Linked(m.packet)
    ensures NameAt(m, p) == Ok(DnsParser.Parsed(Dotted(e.name.Labels()), |e.name.Bytes()|))
  {
    hide NameAt, Dotted;
    ReadName(m, p, e.name);
  }

  // ----- packets -----

  predicate ValidEntries(es: seq<Entry>) { forall e :: e in es ==> e.Valid() }

  ghost predicate LinkedEntries(packet: seq<byte>, es: seq<Entry>)
    requires ValidEntries(es)
  {
    forall e :: e in es ==> e.Linked(packet)
  }

  predicate ClassesRead(es: seq<Entry>) { forall e :: e in es ==> e.rclass == 1 || e.data.Other? }

  function EntryBytes(e: Entry): seq<byte>
    requires e.Valid()
  {
    e.Bytes(|e.data.Bytes()|)
  }

  function EntriesBytes(es: seq<Entry>): seq<byte>
    requires ValidEntries(es)
  {
    if es == [] then [] else EntryBytes(es[0]) + EntriesBytes(es[1..])
  }

  function EntryMeanings(es: seq<Entry>): seq<Record> {
    if es == [] then [] else [es[0].Meaning()] + EntryMeanings(es[1..])
  }

  lemma EntryIsRead(m: Memory, p: nat, e: Entry)
    requires e.Valid() && Holds(m.packet, p, EntryBytes(e)) && e.Linked(m.packet)
    ensures RecordAt(m, p) == if e.rclass == 1 || e.data.Other? then Ok(DnsParser.Parsed(e.Meaning(), |EntryBytes(e)|))
                              else Err(BadClass)
  {
    hide RecordAt, Dotted, Readable;
    RecordIsRead(m, p, e, |e.data.Bytes()|);
  }

  // Records of any types, in any order.
  lemma {:induction false} RecordsAreRead(m: Memory, p: nat, es: seq<Entry>)
    requires ValidEntries(es) && Holds(m.packet, p, EntriesBytes(es)) && LinkedEntries(m.packet, es)
    ensures RecordsAt(m, |es|, p)
            == if ClassesRead(es) then Ok(DnsParser.Parsed(EntryMeanings(es), |EntriesBytes(es)|)) else Err(BadClass)
    decreases |es|
  {
    hide RecordAt, Holds, EntryBytes;
    if es != [] {
      HoldsParts(m.packet, p, EntryBytes(es[0]), EntriesBytes(es[1..]));
      EntryIsRead(m, p, es[0]);
      RecordsAreRead(m, p + |EntryBytes(es[0])|, es[1..]);
      FirstAndRest(es);
    }
  }

  lemma FirstAndRest(es: seq<Entry>)
    requires es != []
    ensures ClassesRead(es) <==> (es[0].rclass == 1 || es[0].data.Other?) && ClassesRead(es[1..])
  {
    assert forall e :: e in es <==> e == es[0] || e in es[1..];
  }

  datatype Question = Question(name: Layout, qtype: uint16, qclass: uint16) {
    predicate Valid() { Readable(name) }

    function Bytes(): seq<byte>
      requires Valid()
    {
      name.Bytes() + (Two(qtype) + Two(qclass))
    }

    function Meaning(): Query { Query(Dotted(name.Labels()), qtype, qclass) }
  }

  predicate ValidQuestions(qs: seq<Question>) { forall q :: q in qs ==> q.Valid() }

  ghost predicate LinkedQuestions(packet: seq<byte>, qs: seq<Question>)
    requires ValidQuestions(qs)
  {
    forall q :: q in qs ==> q.name.Linked(packet)
  }

  function QuestionsBytes(qs: seq<Question>): seq<byte>
    requires ValidQuestions(qs)
  {
    if qs == [] then [] else qs[0].Bytes() + QuestionsBytes(qs[1..])
  }

  function QuestionMeanings(qs: seq<Question>): seq<Query> {
    if qs == [] then [] else [qs[0].Meaning()] + QuestionMeanings(qs[1..])
  }

  lemma QuestionIsRead(m: Memory, p: nat, q: Question)
    requires q.Valid() && Holds(m.packet, p, q.Bytes()) && q.name.Linked(m.packet)
    ensures QueryAt(m, p) == Ok(DnsParser.Parsed(q.Meaning(), |q.Bytes()|))
  {
    hide NameAt, Holds, Dotted;
    var n := |q.name.Bytes()|;
    HoldsParts(m.packet, p, q.name.Bytes(), Two(q.qtype) + Two(q.qclass));
    HoldsParts(m.packet, p + n, Two(q.qtype), Two(q.qclass));
    ReadName(m, p, q.name);
    TwoIsRead(m, p + n, q.qtype);
    TwoIsRead(m, p + n + 2, q.qclass);
  }

  lemma {:induction false} QuestionsAreRead(m: Memory, p: nat, qs: seq<Question>)
    requires ValidQuestions(qs) && Holds(m.packet, p, QuestionsBytes(qs)) && LinkedQuestions(m.packet, qs)
    ensures QueriesAt(m, |qs|, p) == Ok(DnsParser.Parsed(QuestionMeanings(qs), |QuestionsBytes(qs)|))
    decreases |qs|
  {
    hide QueryAt, Holds;
    if qs != [] {
      HoldsParts(m.packet, p, qs[0].Bytes(), QuestionsBytes(qs[1..]));
      QuestionIsRead(m, p, qs[0]);
      QuestionsAreRead(m, p + |qs[0].Bytes()|, qs[1..]);
    }
  }

  datatype Message = Message(id: uint16, flags: uint16, questions: seq<Question>,
                             answers: seq<Entry>, authorities: seq<Entry>, additional: seq<Entry>)
  {
    predicate Valid() {
      && ValidQuestions(questions) && ValidEntries(answers) && ValidEntries(authorities) && ValidEntries(additional)
      && |questions| < 65536 && |answers| < 65536 && |authorities| < 65536 && |additional| < 65536
    }

    // Identifier, flags, the four counts, the four sections.
    function Bytes(): seq<byte>
      requires Valid()
    {
      Header() + (QuestionsBytes(questions)
                  + (EntriesBytes(answers) + (EntriesBytes(authorities) + EntriesBytes(additional))))
    }

    function Header(): (s: seq<byte>)
      requires Valid()
      ensures |s| == 12
    {
      Two(id) + (Two(flags) + (Two(|questions|) + (Two(|answers|) + (Two(|authorities|) + Two(|additional|)))))
    }

    ghost predicate Linked(packet: seq<byte>)
      requires Valid()
    {
      && LinkedQuestions(packet, questions) && LinkedEntries(packet, answers)
      && LinkedEntries(packet, authorities) && LinkedEntries(packet, additional)
    }

    function Meaning(): Packet {
      Packet(id, flags, QuestionMeanings(questions),
             EntryMeanings(answers), EntryMeanings(authorities), EntryMeanings(additional))
    }
  }

  lemma HeaderIsRead(m: Memory, x: Message)
    requires x.Valid() && Holds(m.packet, 0, x.Header())
    ensures m.At16(0) == x.id && m.At16(2) == x.flags && m.At16(4) == |x.questions|
    ensures m.At16(6) == |x.answers| && m.At16(8) == |x.authorities| && m.At16(10) == |x.additional|
  {
    hide Holds;
    var e := Two(|x.additional|);
    var d := Two(|x.authorities|) + e;
    var c := Two(|x.answers|) + d;
    var b := Two(|x.questions|) + c;
    HoldsParts(m.packet, 0, Two(x.id), Two(x.flags) + b);
    HoldsParts(m.packet, 2, Two(x.flags), b);
    HoldsParts(m.packet, 4, Two(|x.questions|), c);
    HoldsParts(m.packet, 6, Two(|x.answers|), d);
    HoldsParts(m.packet, 8, Two(|x.authorities|), e);
    HeaderWords(m, x);
  }

  lemma HeaderWords(m: Memory, x: Message)
    requires x.Valid()
    requires Holds(m.packet, 0, Two(x.id)) && Holds(m.packet, 2, Two(x.flags))
    requires Holds(m.packet, 4, Two(|x.questions|)) && Holds(m.packet, 6, Two(|x.answers|))
    requires Holds(m.packet, 8, Two(|x.authorities|)) && Holds(m.packet, 10, Two(|x.additional|))
    ensures m.At16(0) == x.id && m.At16(2) == x.flags && m.At16(4) == |x.questions|
    ensures m.At16(6) == |x.answers| && m.At16(8) == |x.authorities| && m.At16(10) == |x.additional|
  {
    hide Holds, Two;
    TwoIsRead(m, 0, x.id);
    TwoIsRead(m, 2, x.flags);
    TwoIsRead(m, 4, |x.questions|);
    TwoIsRead(m, 6, |x.answers|);
    TwoIsRead(m, 8, |x.authorities|);
    TwoIsRead(m, 10, |x.additional|);
  }

  lemma PartsStand(packet: seq<byte>, x: Message)
    requires x.Valid() && Holds(packet, 0, x.Bytes())
    ensures 12 <= |packet| && Holds(packet, 0, x.Header()) && Holds(packet, 12, QuestionsBytes(x.questions))
    ensures var p := 12 + |QuestionsBytes(x.questions)|;
            var q := p + |EntriesBytes(x.answers)|; var r := q + |EntriesBytes(x.authorities)|;
            && Holds(packet, p, EntriesBytes(x.answers)) && Holds(packet, q, EntriesBytes(x.authorities))
            && Holds(packet, r, EntriesBytes(x.additional))
  {
    hide Holds, EntriesBytes, QuestionsBytes;
    var a, b, c, d := QuestionsBytes(x.questions), EntriesBytes(x.answers),
                      EntriesBytes(x.authorities), EntriesBytes(x.additional);
    HoldsParts(packet, 0, x.Header(), a + (b + (c + d)));
    HoldsInside(packet, 0, x.Header());
    HoldsParts(packet, 12, a, b + (c + d));
    HoldsParts(packet, 12 + |a|, b, c + d);
    HoldsParts(packet, 12 + |a| + |b|, c, d);
  }

  // A packet with records of all types, its names compressed in any way, is read as what it says, whatever stands
  // behind it, exactly when all records of the types that are understood have the class of the internet.
  lemma PacketIsRead(m: Memory, x: Message)
    requires x.Valid() && Holds(m.packet, 0, x.Bytes()) && x.Linked(m.packet)
    ensures PacketAt(m) == if ClassesRead(x.answers) && ClassesRead(x.authorities) && ClassesRead(x.additional)
                           then Ok(x.Meaning()) else Err(BadClass)
  {
    hide QueriesAt, RecordsAt, Holds, ClassesRead, EntriesBytes, QuestionsBytes;
    var a, b, c := |QuestionsBytes(x.questions)|, |EntriesBytes(x.answers)|, |EntriesBytes(x.authorities)|;
    PartsStand(m.packet, x);
    HeaderIsRead(m, x);
    QuestionsAreRead(m, 12, x.questions);
    RecordsAreRead(m, 12 + a, x.answers);
    RecordsAreRead(m, 12 + a + b, x.authorities);
    RecordsAreRead(m, 12 + a + b + c, x.additional);
  }

  // A packet that ends within its header is refused.
  lemma ShortPacketRefused(m: Memory)
    requires |m.packet| < 12
    ensures PacketAt(m).Err?
  {
  }
}
