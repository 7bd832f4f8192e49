/** The JSON parser, moving a scanner over the text (json.c).  An exception of the scanner and a null
    result of the parser are both passed on as None. */
module JsonParser {
  import opened Bytes
  import opened Wrappers
  import opened Hex
  import opened Scanner
  import opened Json

  // ----- quoted strings -----

  function Before(head: seq<byte>, rest: Option<seq<byte>>): Option<seq<byte>> {
    match rest
    case None => None
    case Some(s) => Some(head + s)
  }

  lemma BeforeTwice(a: seq<byte>, b: seq<byte>, rest: Option<seq<byte>>)
    ensures Before(a, Before(b, rest)) == Before(a + b, rest)
  {
    if rest.Some? { assert a + (b + rest.value) == (a + b) + rest.value; }
  }

  lemma BeforeNothing(rest: Option<seq<byte>>)
    ensures Before([], rest) == rest
  {
    if rest.Some? { assert [] + rest.value == rest.value; }
  }

  lemma UnescapedStep(s: seq<byte>, i: nat)
    requires i < |s|
    ensures var u := FirstUnit(s[i..]);
            Unescaped(s[i..]) == if u.None? then None else Before([u.value.c], Unescaped(s[i + u.value.size..]))
  {
    hide FirstUnit;
    var u := FirstUnit(s[i..]);
    if u.Some? { assert s[i..][u.value.size..] == s[i + u.value.size..]; }
  }

  lemma {:induction false} NothingToUnescape(s: seq<byte>)
    requires BACKSLASH !in s
    ensures Unescaped(s) == Some(s)
  {
    if s != [] {
      NothingToUnescape(s[1..]);
      assert [s[0]] + s[1..] == s;
    }
  }

  // The loop of parse_quoted_string, writing into memory of the size of the token.
  method UnescapeToken(token: seq<byte>) returns (r: Option<seq<byte>>)
    ensures r == Unescaped(token)
  {
    hide Unescaped, HexByte, Unlettered, FirstUnit;
    var out := new byte[|token|];
    var i: nat, n: nat := 0, 0;
    assert token[0..] == token && out[..0] == [];
    BeforeNothing(Unescaped(token));
    while i != |token|
      invariant n <= i <= |token|
      invariant Unescaped(token) == Before(out[..n], Unescaped(token[i..]))
      decreases |token| - i
    {
      UnescapedStep(token, i);
      var unit := NextUnit(token, i);
      if unit.None? { return None; }
      BeforeTwice(out[..n], [unit.value.c], Unescaped(token[i + unit.value.size..]));
      ghost var done := out[..n];
      out[n] := unit.value.c;
      assert out[..n + 1] == done + [unit.value.c];
      i, n := i + unit.value.size, n + 1;
    }
    assert token[i..] == [];
    NothingToUnescape([]);
    assert out[..n] + [] == out[..n];
    return Some(out[..n]);
  }

  // One character, escaped or not.
  method NextUnit(token: seq<byte>, i: nat) returns (u: Option<Unit>)
    requires i < |token|
    ensures u == FirstUnit(token[i..])
    ensures u.Some? ==> u.value.size > 0 && i + u.value.size <= |token|
  {
    hide HexByte, Unlettered;
    if token[i] != BACKSLASH { return Some(Unit(1, token[i])); }
    if i + 1 == |token| { return None; }
    var c := token[i + 1];
    if c == 'u' as byte {
      if |token| - (i + 2) < 4 { return None; }
      return Some(Unit(6, HexByte(token[i + 4], token[i + 5])));
    }
    var plain := Unlettered(c);
    return if plain.Some? then Some(Unit(2, plain.value)) else None;
  }

  // parse_quoted_string; without a backslash the token is returned as it is.
  method ParseQuotedString(s: TextScanner) returns (r: Option<seq<byte>>)
    requires s.Valid() && s.curptr < |s.text| && s.text[s.curptr] == QUOTE
    modifies s
    ensures s.Valid()
    ensures var v := QuotedAt(s.text, old(s.curptr));
            r.Some? == v.Some? && (r.Some? ==> v.value == Parsed(String(r.value), s.curptr))
  {
    hide SkipFrom, Skip, CloseQuote, Unescaped;
    ghost var open := s.curptr;
    var ok, quoted := s.GetQuotes([QUOTE]);
    if !ok { return None; }
    var token := quoted[1..|quoted| - 1];
    Subslice(s.text, open, open + |quoted|, 1, |quoted| - 1);
    if BACKSLASH !in token {
      NothingToUnescape(token);
      return Some(token);
    }
    r := UnescapeToken(token);
  }

  // ----- elements -----

  // The name of an element, or a string that is the value itself.
  method ParseStart(s: TextScanner) returns (r: Option<Start>)
    requires s.Valid()
    modifies s
    ensures s.Valid() && r == StartAt(s.text, old(s.curptr))
    ensures r.Some? ==> r.value.next == s.curptr
  {
    hide SkipFrom, Skip, Until;
    if At(s.text, s.curptr) != QUOTE { return Some(Start([], [], s.curptr)); }
    var _, _ := s.GetChar();
    var more, token := s.GetUntil({QUOTE});
    if !more { return None; }
    var found, _ := s.GetChar();
    if !found { return None; }
    if At(s.text, s.curptr) == COLON {
      var _, _ := s.GetChar();
      return Some(Start(token, [], s.curptr));
    }
    return Some(Start([], token, s.curptr));
  }

  // parse_elem_throw
  method ParseElem(s: TextScanner) returns (r: Option<Elem>)
    requires s.Valid()
    modifies s
    ensures s.Valid()
    ensures var e := ElemAt(s.text, old(s.curptr));
            r.Some? == e.Some? && (r.Some? ==> e.value == Parsed(r.value, s.curptr))
    decreases |s.text| - s.curptr, 2
  {
    hide StartAt, ValueAt;
    var start := ParseStart(s);
    if start.None? { return None; }
    if start.value.value != [] { return Some(Elem(start.value.name, String(start.value.value))); }
    var value := ParseValue(s);
    return if value.Some? then Some(Elem(start.value.name, value.value)) else None;
  }

  method ParseWord(s: TextScanner) returns (r: Option<Value>)
    requires s.Valid()
    modifies s
    ensures s.Valid()
    ensures var v := WordValueAt(s.text, old(s.curptr));
            r.Some? == v.Some? && (r.Some? ==> v.value == Parsed(r.value, s.curptr))
  {
    hide SkipFrom, Skip;
    var p := s.curptr;
    if p + 5 > |s.text| { return None; }
    if WordAt(s.text, p, Ascii("false")) {
      var _ := s.AdvanceN(5, true);
      return Some(Bool(false));
    }
    if WordAt(s.text, p, Ascii("true")) {
      var _ := s.AdvanceN(4, true);
      return Some(Bool(true));
    }
    if WordAt(s.text, p, Ascii("null")) {
      var _ := s.AdvanceN(4, true);
      return Some(Null);
    }
    return None;
  }

  method ParseValue(s: TextScanner) returns (r: Option<Value>)
    requires s.Valid()
    modifies s
    ensures s.Valid()
    ensures var v := ValueAt(s.text, old(s.curptr));
            r.Some? == v.Some? && (r.Some? ==> v.value == Parsed(r.value, s.curptr))
    decreases |s.text| - s.curptr, 1
  {
    hide SkipFrom, Skip, QuotedAt, WordValueAt, ItemsAt;
    var c := At(s.text, s.curptr);
    if StartsNumber(c) {
      return None;
    } else if c == QUOTE {
      var str := ParseQuotedString(s);
      return if str.Some? then Some(String(str.value)) else None;
    } else if IsAlpha(c) {
      r := ParseWord(s);
    } else if c == OPEN_ARRAY {
      var items := ParseChildren(s, CLOSE_ARRAY);
      return if items.Some? then Some(Array(items.value)) else None;
    } else if c == OPEN_OBJECT {
      var members := ParseChildren(s, CLOSE_OBJECT);
      return if members.Some? then Some(Object(members.value)) else None;
    } else {
      return None;
    }
  }

  lemma ItemsUnfold(text: seq<byte>, i: nat, close: byte)
    requires i <= |text| && (close == CLOSE_ARRAY || close == CLOSE_OBJECT)
    ensures var j := SkipCommas(text, i);
            ItemsAt(text, i, close) == ItemsAt(text, j, close)
    ensures At(text, i) == close ==> ItemsAt(text, i, close) == Some(Parsed([], Skip(text, i + 1)))
    ensures At(text, i) != close && At(text, i) != COMMA ==>
              var e := ElemAt(text, i);
              ItemsAt(text, i, close)
              == if e.None? then None else With([e.value.item], ItemsAt(text, e.value.next, close))
  {
    hide ElemAt, Skip;
  }

  // Commas are skipped, as many as there are.
  method EatCommas(s: TextScanner)
    requires s.Valid()
    modifies s
    ensures s.Valid() && s.curptr == SkipCommas(s.text, old(s.curptr))
  {
    hide SkipFrom, Skip;
    while At(s.text, s.curptr) == COMMA
      invariant s.Valid()
      invariant SkipCommas(s.text, s.curptr) == SkipCommas(s.text, old(s.curptr))
      decreases |s.text| - s.curptr
    {
      var _, _ := s.GetChar();
    }
  }

  // parse_children
  method ParseChildren(s: TextScanner, close: byte) returns (r: Option<seq<Elem>>)
    requires s.Valid() && s.curptr < |s.text| && At(s.text, s.curptr) != 0
    requires close == CLOSE_ARRAY || close == CLOSE_OBJECT
    modifies s
    ensures s.Valid()
    ensures var x := ItemsAt(s.text, Skip(s.text, old(s.curptr) + 1), close);
            r.Some? == x.Some? && (r.Some? ==> x.value == Parsed(r.value, s.curptr))
    decreases |s.text| - s.curptr, 0
  {
    hide SkipFrom, Skip, ItemsAt, ElemAt, SkipCommas;
    ghost var bracket := s.curptr;
    var _, _ := s.GetChar();
    ghost var start := s.curptr;
    var items: seq<Elem> := [];
    StartWith(ItemsAt(s.text, start, close));
    while At(s.text, s.curptr) != close
      invariant s.Valid() && bracket < s.curptr
      invariant ItemsAt(s.text, start, close) == With(items, ItemsAt(s.text, s.curptr, close))
      decreases |s.text| - s.curptr
    {
      ItemsUnfold(s.text, s.curptr, close);
      EatCommas(s);
      if At(s.text, s.curptr) == close { break; }
      ItemsUnfold(s.text, s.curptr, close);
      var child := ParseElem(s);
      if child.None? { return None; }
      WithTwice(items, [child.value], ItemsAt(s.text, s.curptr, close));
      items := items + [child.value];
    }
    ItemsUnfold(s.text, s.curptr, close);
    WithNothing(items, Skip(s.text, s.curptr + 1));
    var _, _ := s.GetChar();
    return Some(items);
  }

  // pj_json_parse
  method ParseDocument(text: seq<byte>) returns (r: Option<Elem>)
    ensures r == Parse(text)
  {
    if text == [] { return None; }
    var s := new TextScanner(text);
    r := ParseElem(s);
  }
}
