/** The JSON writer (json.c), writing into a buffer of limited size. */
module JsonWriter {
  import opened Bytes
  import opened Buffers
  import opened Hex
  import opened Scanner
  import opened Json

  // buf_writer: every piece must leave two bytes of the buffer, one for the zero byte at the end.
  class BufWriter {
    const buf: array<byte>
    var pos: nat
    var size: nat

    ghost predicate Valid()
      reads this
    {
      pos + size <= buf.Length
    }

    ghost function Output(): seq<byte>
      requires Valid()
      reads this, buf
    {
      buf[..pos]
    }

    constructor (buf: array<byte>, size: nat)
      requires size <= buf.Length
      ensures this.buf == buf && this.size == size && Valid() && Output() == []
    {
      this.buf, this.pos, this.size := buf, 0, size;
    }

    method Write(s: seq<byte>) returns (ok: bool)
      requires Valid()
      modifies this, buf
      ensures Valid() && ok == (|s| + 1 < old(size))
      ensures ok ==> Output() == old(Output()) + s && size == old(size) - |s|
    {
      if |s| + 1 >= size { return false; }
      forall k | 0 <= k < |s| { buf[pos + k] := s[k]; }
      pos, size := pos + |s|, size - |s|;
      return true;
    }
  }

  // ----- escaped strings -----

  const ESC_BUF_LEN: nat := 64

  // Room for one more character in the chunk: two bytes for every character, six for a long escape.
  predicate ChunkTakes(n: nat, c: byte) {
    n + 2 <= ESC_BUF_LEN && (Letter(c) == 0 && !(32 <= c < 127) ==> n + 6 <= ESC_BUF_LEN)
  }

  method PutUnit(chunk: array<byte>, n: nat, c: byte) returns (m: nat)
    requires chunk.Length == ESC_BUF_LEN && ChunkTakes(n, c)
    modifies chunk
    ensures m == n + |EscapedByte(c)| <= ESC_BUF_LEN && chunk[..m] == old(chunk[..n]) + EscapedByte(c)
  {
    hide Letter, HighDigit, LowDigit;
    if Letter(c) != 0 {
      chunk[n], chunk[n + 1] := BACKSLASH, Letter(c);
      m := n + 2;
    } else if 32 <= c < 127 {
      chunk[n] := c;
      m := n + 1;
    } else {
      chunk[n], chunk[n + 1], chunk[n + 2], chunk[n + 3] := BACKSLASH, 'u' as byte, '0' as byte, '0' as byte;
      chunk[n + 4], chunk[n + 5] := HighDigit(c), LowDigit(c);
      m := n + 6;
    }
  }

  lemma EscapedStep(s: seq<byte>, i: nat)
    requires i < |s|
    ensures Escaped(s[i..]) == EscapedByte(s[i]) + Escaped(s[i + 1..])
  {
    hide EscapedByte;
    assert s[i..][1..] == s[i + 1..];
  }

  // Fill the chunk with as many characters as it takes: at least one.
  method FillChunk(s: seq<byte>, start: nat, chunk: array<byte>) returns (i: nat, n: nat)
    requires start < |s| && chunk.Length == ESC_BUF_LEN
    modifies chunk
    ensures start < i <= |s| && n <= ESC_BUF_LEN
    ensures chunk[..n] + Escaped(s[i..]) == Escaped(s[start..])
  {
    hide Escaped, EscapedByte, Letter;
    i, n := start, 0;
    assert chunk[..0] + Escaped(s[start..]) == Escaped(s[start..]);
    while i != |s| && n != ESC_BUF_LEN
      invariant start <= i <= |s| && n <= ESC_BUF_LEN && (i == start ==> n == 0)
      invariant chunk[..n] + Escaped(s[i..]) == Escaped(s[start..])
      decreases |s| - i
    {
      if !ChunkTakes(n, s[i]) { break; }
      EscapedStep(s, i);
      Appended(chunk[..n], EscapedByte(s[i]), Escaped(s[i + 1..]));
      n := PutUnit(chunk, n, s[i]);
      i := i + 1;
    }
  }

  // write_string_escaped: the chunks put together are the string escaped byte by byte.
  method WriteEscaped(s: seq<byte>, w: BufWriter) returns (ok: bool)
    requires w.Valid()
    modifies w, w.buf
    ensures w.Valid() && ok == (s == [] || |Escaped(s)| + 1 < old(w.size))
    ensures ok ==> w.Output() == old(w.Output()) + Escaped(s) && w.size == old(w.size) - |Escaped(s)|
  {
    hide Escaped;
    ghost var before, size, whole := w.Output(), w.size, Escaped(s);
    ghost var done: seq<byte> := [];
    var chunk := new byte[ESC_BUF_LEN];
    var i := 0;
    assert s[0..] == s && before + done == before;
    EscapedNothing();
    while i != |s|
      invariant 0 <= i <= |s| && w.Valid() && fresh(chunk) && chunk.Length == ESC_BUF_LEN
      invariant w.Output() == before + done && w.size == size - |done|
      invariant done + Escaped(s[i..]) == whole
      invariant i > 0 ==> |done| + 1 < size
      decreases |s| - i
    {
      var next, n := FillChunk(s, i, chunk);
      ghost var part := chunk[..n];
      Appended(done, part, Escaped(s[next..]));
      Appended(before, done, part);
      ok := w.Write(chunk[..n]);
      if !ok { return; }
      done := done + part;
      i := next;
    }
    assert s[|s|..] == [] && done + [] == done;
    ok := true;
  }

  lemma EscapedNothing()
    ensures Escaped([]) == []
  {
  }

  // ----- elements -----

  // No line is indented further than the buffer of spaces is long.
  predicate IndentFits(v: Value, indent: nat)
    decreases v, 1
  {
    match v
    case Array(items) => InsideIndentFits(items, indent)
    case Object(members) => InsideIndentFits(members, indent)
    case _ => true
  }

  predicate InsideIndentFits(es: seq<Elem>, indent: nat)
    decreases es, 0
  {
    es == []
    || var inner := if es[0].name == [] then indent else Deeper(indent);
       inner <= MAX_INDENT && forall e :: e in es ==> IndentFits(e.value, inner)
  }

  // How deep children on lines of their own are nested.
  function LineDepth(v: Value): nat
    decreases v, 1
  {
    match v
    case Array(items) => InsideLineDepth(items)
    case Object(members) => InsideLineDepth(members)
    case _ => 0
  }

  function InsideLineDepth(es: seq<Elem>): nat
    decreases es, 1
  {
    if es == [] then 0 else DeepestChild(es) + if es[0].name == [] then 0 else 1
  }

  function DeepestChild(es: seq<Elem>): nat
    decreases es, 0
  {
    if es == [] then 0
    else
      var first, rest := LineDepth(es[0].value), DeepestChild(es[1..]);
      if first > rest then first else rest
  }

  // The buffer of spaces is long enough exactly for 33 levels of such children.
  lemma {:induction false} IndentFitsExactly(v: Value, level: nat)
    requires level <= 33
    ensures IndentFits(v, INDENT_SIZE * level) <==> level + LineDepth(v) <= 33
    decreases v, 1
  {
    hide InsideIndentFits, InsideLineDepth;
    match v
    case Array(items) => InsideFitsExactly(items, level);
    case Object(members) => InsideFitsExactly(members, level);
    case _ =>
  }

  lemma {:induction false} InsideFitsExactly(es: seq<Elem>, level: nat)
    requires level <= 33
    ensures InsideIndentFits(es, INDENT_SIZE * level) <==> level + InsideLineDepth(es) <= 33
    decreases es, 1
  {
    hide IndentFits, DeepestChild;
    if es != [] {
      if es[0].name == [] {
        ChildrenFitExactly(es, level);
      } else if level < 33 {
        ChildrenFitExactly(es, level + 1);
      }
    }
  }

  lemma {:induction false} ChildrenFitExactly(es: seq<Elem>, level: nat)
    requires level <= 33
    ensures (forall e :: e in es ==> IndentFits(e.value, INDENT_SIZE * level)) <==> level + DeepestChild(es) <= 33
    decreases es, 0
  {
    hide IndentFits, LineDepth;
    if es != [] {
      IndentFitsExactly(es[0].value, level);
      ChildrenFitExactly(es[1..], level);
      assert forall e :: e in es <==> e == es[0] || e in es[1..];
    }
  }

  // Objects in objects, with one named member each.
  function Nested(levels: nat, name: seq<byte>): Value {
    if levels == 0 then Null else Object([Elem(name, Nested(levels - 1, name))])
  }

  lemma {:induction false} NestedDepth(levels: nat, name: seq<byte>)
    requires name != []
    ensures LineDepth(Nested(levels, name)) == levels
  {
    if levels > 0 {
      NestedDepth(levels - 1, name);
      var es := [Elem(name, Nested(levels - 1, name))];
      assert es[1..] == [] && DeepestChild(es) == levels - 1;
      assert InsideLineDepth(es) == levels && Nested(levels, name) == Object(es);
    }
  }

  // Of these, the first that does not fit has 34 levels.
  lemma NestedFits(levels: nat, name: seq<byte>)
    requires name != []
    ensures IndentFits(Nested(levels, name), 0) <==> levels <= 33
  {
    NestedDepth(levels, name);
    IndentFitsExactly(Nested(levels, name), 0);
  }

  method WriteQuoted(s: seq<byte>, w: BufWriter) returns (ok: bool)
    requires w.Valid()
    modifies w, w.buf
    ensures w.Valid() && ok == (|QuotedText(s)| + 1 < old(w.size))
    ensures ok ==> w.Output() == old(w.Output()) + QuotedText(s) && w.size == old(w.size) - |QuotedText(s)|
  {
    hide Escaped;
    ghost var before := w.Output();
    ok := w.Write([QUOTE]);
    if !ok { return; }
    ok := WriteEscaped(s, w);
    Appended(before, [QUOTE], Escaped(s));
    if !ok { return; }
    ok := w.Write([QUOTE]);
    Appended(before, [QUOTE] + Escaped(s), [QUOTE]);
    EscapedNothing();
  }

  method WriteName(name: seq<byte>, w: BufWriter) returns (ok: bool)
    requires w.Valid()
    modifies w, w.buf
    ensures w.Valid() && ok == (|NameText(name)| + 1 < old(w.size))
    ensures ok ==> w.Output() == old(w.Output()) + NameText(name) && w.size == old(w.size) - |NameText(name)|
  {
    hide QuotedText;
    ghost var before := w.Output();
    ok := WriteQuoted(name, w);
    if !ok { return; }
    ok := w.Write([COLON, SPACE]);
    Appended(before, QuotedText(name), [COLON, SPACE]);
    if !ok { return; }
    if |name| < NAME_MIN_LEN {
      ok := w.Write(Spaces(NAME_MIN_LEN - |name|));
      Appended(before, QuotedText(name) + [COLON, SPACE], Spaces(NAME_MIN_LEN - |name|));
    } else {
      assert QuotedText(name) + [COLON, SPACE] + [] == QuotedText(name) + [COLON, SPACE];
    }
  }

  // elem_write
  method WriteElem(e: Elem, indent: nat, noName: bool, w: BufWriter) returns (ok: bool)
    requires w.Valid() && indent <= MAX_INDENT && IndentFits(e.value, indent)
    modifies w, w.buf
    ensures w.Valid() && ok == (|ElemText(e, indent, noName)| + 1 < old(w.size))
    ensures ok ==> w.Output() == old(w.Output()) + ElemText(e, indent, noName)
                   && w.size == old(w.size) - |ElemText(e, indent, noName)|
    decreases e, 0
  {
    hide NameText, ValueText, IndentFits;
    ghost var before, head := w.Output(), HeadText(e, indent, noName);
    if e.name != [] {
      ok := w.Write(Spaces(indent));
      if !ok { return; }
      if !noName {
        ok := WriteName(e.name, w);
        Appended(before, Spaces(indent), NameText(e.name));
        if !ok { return; }
      } else {
        assert Spaces(indent) + [] == Spaces(indent);
      }
    } else {
      assert before + [] == before;
    }
    ok := WriteValue(e.value, indent, w);
    Appended(before, head, ValueText(e.value, indent));
  }

  method WriteValue(v: Value, indent: nat, w: BufWriter) returns (ok: bool)
    requires w.Valid() && indent <= MAX_INDENT && IndentFits(v, indent)
    modifies w, w.buf
    ensures w.Valid() && ok == (|ValueText(v, indent)| + 1 < old(w.size))
    ensures ok ==> w.Output() == old(w.Output()) + ValueText(v, indent) && w.size == old(w.size) - |ValueText(v, indent)|
    decreases v, 2
  {
    hide InsideText, QuotedText, InsideIndentFits;
    match v
    case Null => ok := w.Write(Ascii("null"));
    case Bool(b) =>
      if b { ok := w.Write(Ascii("true")); } else { ok := w.Write(Ascii("false")); }
    case String(s) => ok := WriteQuoted(s, w);
    case Array(items) => ok := WriteChildren(items, OPEN_ARRAY, CLOSE_ARRAY, indent, true, w);
    case Object(members) => ok := WriteChildren(members, OPEN_OBJECT, CLOSE_OBJECT, indent, false, w);
  }

  // write_children
  method WriteChildren(es: seq<Elem>, open: byte, close: byte, indent: nat, noName: bool, w: BufWriter)
    returns (ok: bool)
    requires w.Valid() && indent <= MAX_INDENT && InsideIndentFits(es, indent)
    modifies w, w.buf
    ensures var text := [open, SPACE] + InsideText(es, indent, noName) + [close];
            && w.Valid() && ok == (|text| + 1 < old(w.size))
            && (ok ==> w.Output() == old(w.Output()) + text && w.size == old(w.size) - |text|)
    decreases es, 5
  {
    hide InsideText, InsideIndentFits;
    ghost var before, inside := w.Output(), InsideText(es, indent, noName);
    ok := w.Write([open]);
    if !ok { return; }
    ok := w.Write([SPACE]);
    Appended(before, [open], [SPACE]);
    if !ok { return; }
    assert [open] + [SPACE] == [open, SPACE];
    ok := WriteInside(es, indent, noName, w);
    Appended(before, [open, SPACE], inside);
    if !ok { return; }
    ok := w.Write([close]);
    Appended(before, [open, SPACE] + inside, [close]);
  }

  // The children between the brackets; nothing is written for none.
  method WriteInside(es: seq<Elem>, indent: nat, noName: bool, w: BufWriter) returns (ok: bool)
    requires w.Valid() && indent <= MAX_INDENT && InsideIndentFits(es, indent)
    modifies w, w.buf
    ensures w.Valid() && ok == (es == [] || |InsideText(es, indent, noName)| + 1 < old(w.size))
    ensures ok ==> w.Output() == old(w.Output()) + InsideText(es, indent, noName)
                   && w.size == old(w.size) - |InsideText(es, indent, noName)|
    decreases es, 4
  {
    hide ListText, LinesText, IndentFits;
    ghost var before := w.Output();
    if es == [] {
      assert before + [] == before;
      return true;
    }
    if es[0].name == [] {
      ok := WriteList(es, indent, noName, w);
      return;
    }
    var inner := Deeper(indent);
    ghost var lines := LinesText(es, inner, noName);
    ok := w.Write([LF]);
    if !ok { return; }
    ok := WriteLines(es, inner, noName, w);
    Appended(before, [LF], lines);
    if !ok { return; }
    ok := w.Write(Spaces(indent));
    Appended(before, [LF] + lines, Spaces(indent));
  }

  lemma ListStep(es: seq<Elem>, i: nat, indent: nat, noName: bool)
    requires i < |es|
    ensures var item := ElemText(es[i], indent, noName) + if i + 1 < |es| then [COMMA, SPACE] else [];
            ListText(es[i..], indent, noName) == item + ListText(es[i + 1..], indent, noName)
  {
    hide ElemText;
    assert es[i..][1..] == es[i + 1..] && es[i..][0] == es[i];
  }

  lemma LinesStep(es: seq<Elem>, i: nat, indent: nat, noName: bool)
    requires i < |es|
    ensures var item := ElemText(es[i], indent, noName) + if i + 1 < |es| then [COMMA, LF] else [LF];
            LinesText(es[i..], indent, noName) == item + LinesText(es[i + 1..], indent, noName)
  {
    hide ElemText;
    assert es[i..][1..] == es[i + 1..] && es[i..][0] == es[i];
  }

  // One element and what separates it from the next; nothing at the end of a line of elements.
  method WriteItem(e: Elem, indent: nat, noName: bool, separator: seq<byte>, w: BufWriter) returns (ok: bool)
    requires w.Valid() && indent <= MAX_INDENT && IndentFits(e.value, indent)
    modifies w, w.buf
    ensures var text := ElemText(e, indent, noName) + separator;
            && w.Valid() && ok == (|text| + 1 < old(w.size))
            && (ok ==> w.Output() == old(w.Output()) + text && w.size == old(w.size) - |text|)
    decreases e, 1
  {
    hide ElemText, IndentFits;
    ghost var before := w.Output();
    ok := WriteElem(e, indent, noName, w);
    if !ok { return; }
    if separator != [] {
      ok := w.Write(separator);
    }
    Appended(before, ElemText(e, indent, noName), separator);
    assert separator == [] ==> w.Output() + separator == w.Output();
  }

  method WriteList(es: seq<Elem>, indent: nat, noName: bool, w: BufWriter) returns (ok: bool)
    requires es != [] && w.Valid() && indent <= MAX_INDENT && forall e :: e in es ==> IndentFits(e.value, indent)
    modifies w, w.buf
    ensures w.Valid() && ok == (|ListText(es, indent, noName)| + 1 < old(w.size))
    ensures ok ==> w.Output() == old(w.Output()) + ListText(es, indent, noName)
                   && w.size == old(w.size) - |ListText(es, indent, noName)|
    decreases es, 3
  {
    hide ListText, ElemText, IndentFits;
    ghost var before, size, whole := w.Output(), w.size, ListText(es, indent, noName);
    ghost var done: seq<byte> := [];
    var i := 0;
    assert es[0..] == es && before + done == before;
    while i < |es|
      invariant 0 <= i <= |es| && w.Valid()
      invariant w.Output() == before + done && w.size == size - |done|
      invariant done + ListText(es[i..], indent, noName) == whole
      invariant i > 0 ==> |done| + 1 < size
    {
      ListStep(es, i, indent, noName);
      var separator: seq<byte> := if i + 1 < |es| then [COMMA, SPACE] else [];
      ghost var item := ElemText(es[i], indent, noName) + separator;
      Appended(done, item, ListText(es[i + 1..], indent, noName));
      Appended(before, done, item);
      ok := WriteItem(es[i], indent, noName, separator, w);
      if !ok { return; }
      done := done + item;
      i := i + 1;
    }
    NoElems(es, indent, noName);
    assert done + [] == done;
    ok := true;
  }

  lemma NoElems(es: seq<Elem>, indent: nat, noName: bool)
    ensures ListText(es[|es|..], indent, noName) == [] && LinesText(es[|es|..], indent, noName) == []
  {
  }

  method WriteLines(es: seq<Elem>, indent: nat, noName: bool, w: BufWriter) returns (ok: bool)
    requires es != [] && w.Valid() && indent <= MAX_INDENT && forall e :: e in es ==> IndentFits(e.value, indent)
    modifies w, w.buf
    ensures w.Valid() && ok == (|LinesText(es, indent, noName)| + 1 < old(w.size))
    ensures ok ==> w.Output() == old(w.Output()) + LinesText(es, indent, noName)
                   && w.size == old(w.size) - |LinesText(es, indent, noName)|
    decreases es, 3
  {
    hide LinesText, ElemText, IndentFits;
    ghost var before, size, whole := w.Output(), w.size, LinesText(es, indent, noName);
    ghost var done: seq<byte> := [];
    var i := 0;
    assert es[0..] == es && before + done == before;
    while i < |es|
      invariant 0 <= i <= |es| && w.Valid()
      invariant w.Output() == before + done && w.size == size - |done|
      invariant done + LinesText(es[i..], indent, noName) == whole
      invariant i > 0 ==> |done| + 1 < size
    {
      LinesStep(es, i, indent, noName);
      var separator: seq<byte> := if i + 1 < |es| then [COMMA, LF] else [LF];
      ghost var item := ElemText(es[i], indent, noName) + separator;
      Appended(done, item, LinesText(es[i + 1..], indent, noName));
      Appended(before, done, item);
      ok := WriteItem(es[i], indent, noName, separator, w);
      if !ok { return; }
      done := done + item;
      i := i + 1;
    }
    NoElems(es, indent, noName);
    assert done + [] == done;
    ok := true;
  }

  // pj_json_write: it succeeds exactly when the text leaves two bytes of the buffer.
  method WriteDocument(e: Elem, buf: array<byte>, size: nat) returns (ok: bool, n: nat)
    requires size <= buf.Length && IndentFits(e.value, 0)
    modifies buf
    ensures ok == (|Written(e)| + 1 < size)
    ensures ok ==> n == |Written(e)| < buf.Length && buf[..n] == Written(e) && buf[n] == 0
  {
    hide ElemText, IndentFits;
    var w := new BufWriter(buf, size);
    ok := WriteElem(e, 0, false, w);
    n := w.pos;
    if !ok { return; }
    assert [] + Written(e) == Written(e);
    buf[n] := 0;
  }
}
