/** The text scanner (scanner.c), with the options that the XML and JSON parsers use: white space and
    newlines are skipped after every token. */
module Scanner {
  import opened Bytes
  import opened Buffers
  import opened Wrappers

  const SPACE: byte := ' ' as byte
  const TAB: byte := 9
  const LF: byte := 10
  const CR: byte := 13
  const BACKSLASH: byte := '\\' as byte
  const QUOTE: byte := '"' as byte
  const SLASH: byte := '/' as byte

  function Spaces(n: nat): (s: seq<byte>)
    ensures |s| == n && forall c :: c in s ==> c == SPACE
  {
    seq<byte>(n, _ => SPACE)
  }

  // ----- what the scanner sees -----

  // The text is followed by a zero byte.
  function At(text: seq<byte>, i: nat): byte { if i < |text| then text[i] else 0 }

  predicate IsSpace(c: byte) { c == SPACE || c == TAB }

  predicate IsNewline(c: byte) { c == CR || c == LF }

  predicate IsBlank(c: byte) { IsSpace(c) || IsNewline(c) }

  // The first position from i on that is not blank.
  function Skip(text: seq<byte>, i: nat): (r: nat)
    requires i <= |text|
    ensures i <= r <= |text| && !IsBlank(At(text, r))
    ensures forall k :: i <= k < r ==> IsBlank(text[k])
    decreases |text| - i
  {
    if IsBlank(At(text, i)) then Skip(text, i + 1) else i
  }

  // A position with the number of its line and the start of that line.
  datatype Position = Position(curptr: nat, line: nat, startLine: nat)

  function SkipFrom(text: seq<byte>, p: Position): (r: Position)
    requires p.curptr <= |text|
    ensures r.curptr == Skip(text, p.curptr)
    decreases |text| - p.curptr
  {
    var c := At(text, p.curptr);
    if IsSpace(c) then SkipFrom(text, p.(curptr := p.curptr + 1))
    else if c == CR && At(text, p.curptr + 1) == LF then
      SkipFrom(text, Position(p.curptr + 2, p.line + 1, p.curptr + 2))
    else if IsNewline(c) then SkipFrom(text, Position(p.curptr + 1, p.line + 1, p.curptr + 1))
    else p
  }

  // The first position from i on that holds one of the characters, or the end.
  function Until(text: seq<byte>, i: nat, stop: set<byte>): (r: nat)
    requires i <= |text|
    ensures i <= r <= |text| && (r < |text| ==> text[r] in stop)
    ensures forall k :: i <= k < r ==> text[k] !in stop
    decreases |text| - i
  {
    if i == |text| || text[i] in stop then i else Until(text, i + 1, stop)
  }

  // The closing quote from i on; a quote does not close when a backslash that is not itself escaped
  // stands before it, and no quoted string goes over a newline.
  function CloseQuote(text: seq<byte>, i: nat, quote: byte, escaped: bool): (r: Option<nat>)
    ensures r.Some? ==> i <= r.value < |text| && text[r.value] == quote
    decreases |text| - i
  {
    if i >= |text| || text[i] == LF then None
    else if text[i] == quote && !escaped then Some(i)
    else CloseQuote(text, i + 1, quote, text[i] == BACKSLASH && !escaped)
  }

  // An even or odd number of backslashes stands before i, counted back to the opening quote.
  function OddBackslashes(text: seq<byte>, open: nat, i: nat): bool
    requires open < i <= |text|
    decreases i
  {
    i - 1 > open && text[i - 1] == BACKSLASH && !OddBackslashes(text, open, i - 1)
  }

  lemma SkipNothing(text: seq<byte>, i: nat)
    requires i <= |text| && !IsBlank(At(text, i))
    ensures Skip(text, i) == i
  {
  }

  // Blanks in front of something that is not blank are skipped.
  lemma {:induction false} SkipBlanks(text: seq<byte>, p: nat, blanks: seq<byte>)
    requires Holds(text, p, blanks) && forall c :: c in blanks ==> IsBlank(c)
    ensures p + |blanks| <= |text| && Skip(text, p) == Skip(text, p + |blanks|)
    decreases |blanks|
  {
    if blanks != [] {
      HoldsByte(text, p, blanks, 0);
      assert blanks[0] in blanks;
      assert blanks == blanks[..1] + blanks[1..];
      HoldsParts(text, p, blanks[..1], blanks[1..]);
      SkipBlanks(text, p + 1, blanks[1..]);
    }
  }

  // Text without any of the characters is read up to the character after it.
  lemma {:induction false} UntilReads(text: seq<byte>, p: nat, s: seq<byte>, stop: set<byte>)
    requires Holds(text, p, s) && (forall c :: c in s ==> c !in stop)
    requires p + |s| <= |text| && (p + |s| < |text| ==> text[p + |s|] in stop)
    ensures Until(text, p, stop) == p + |s|
    decreases |s|
  {
    if s != [] {
      HoldsByte(text, p, s, 0);
      assert s[0] in s;
      assert s == s[..1] + s[1..];
      HoldsParts(text, p, s[..1], s[1..]);
      UntilReads(text, p + 1, s[1..], stop);
    }
  }

  // ----- lines -----

  // A carriage return, a line feed, or both together end a line: at k.
  predicate LineEnds(text: seq<byte>, k: nat)
    requires k < |text|
  {
    text[k] == 10 || (text[k] == 13 && (k + 1 == |text| || text[k + 1] != 10))
  }

  // How many lines end between i and j.
  function LinesBetween(text: seq<byte>, i: nat, j: nat): nat
    requires i <= j <= |text|
    decreases j - i
  {
    if i == j then 0 else (if LineEnds(text, i) then 1 else 0) + LinesBetween(text, i + 1, j)
  }

  lemma FirstLine(text: seq<byte>, i: nat, j: nat)
    requires i <= j <= |text|
    ensures LinesBetween(text, i, j)
            == if i == j then 0 else (if LineEnds(text, i) then 1 else 0) + LinesBetween(text, i + 1, j)
  {
  }

  // From p to r as many lines are counted as end there, and the start of the last of them is remembered.
  predicate Counted(text: seq<byte>, p: Position, r: Position) {
    && p.curptr <= r.curptr <= |text| && r.line == p.line + LinesBetween(text, p.curptr, r.curptr)
    && (r.line == p.line ==> r.startLine == p.startLine)
    && (r.line > p.line ==> p.curptr < r.startLine <= r.curptr && LineEnds(text, r.startLine - 1)
                            && LinesBetween(text, r.startLine, r.curptr) == 0)
  }

  lemma SpaceCounted(text: seq<byte>, p: Position, r: Position)
    requires p.curptr < |text| && IsSpace(text[p.curptr]) && Counted(text, p.(curptr := p.curptr + 1), r)
    ensures Counted(text, p, r)
  {
    hide LinesBetween;
    FirstLine(text, p.curptr, r.curptr);
  }

  lemma LineCounted(text: seq<byte>, p: Position, size: nat, r: Position)
    requires p.curptr + size <= |text| && (size == 1 || (size == 2 && text[p.curptr] == CR))
    requires LineEnds(text, p.curptr + size - 1) && Counted(text, Position(p.curptr + size, p.line + 1, p.curptr + size), r)
    requires size == 2 ==> !LineEnds(text, p.curptr)
    ensures Counted(text, p, r)
  {
    hide LinesBetween;
    FirstLine(text, p.curptr, r.curptr);
    if size == 2 { FirstLine(text, p.curptr + 1, r.curptr); }
  }

  // Skipping blanks counts the lines.
  lemma {:induction false} LinesCounted(text: seq<byte>, p: Position)
    requires p.curptr <= |text|
    ensures Counted(text, p, SkipFrom(text, p))
    decreases |text| - p.curptr
  {
    var c := At(text, p.curptr);
    if IsSpace(c) {
      hide Counted;
      LinesCounted(text, p.(curptr := p.curptr + 1));
      SpaceCounted(text, p, SkipFrom(text, p));
    } else if c == CR && At(text, p.curptr + 1) == LF {
      hide Counted;
      LinesCounted(text, Position(p.curptr + 2, p.line + 1, p.curptr + 2));
      LineCounted(text, p, 2, SkipFrom(text, p));
    } else if IsNewline(c) {
      hide Counted;
      LinesCounted(text, Position(p.curptr + 1, p.line + 1, p.curptr + 1));
      LineCounted(text, p, 1, SkipFrom(text, p));
    }
  }

  // ----- what a parser returns -----

  // An item, and the position behind it and the blanks that follow.
  datatype Parsed<T> = Parsed(item: T, next: nat)

  // The items read before the others.
  function With<T>(head: seq<T>, rest: Option<Parsed<seq<T>>>): Option<Parsed<seq<T>>> {
    match rest
    case None => None
    case Some(x) => Some(Parsed(head + x.item, x.next))
  }

  lemma StartWith<T>(rest: Option<Parsed<seq<T>>>)
    ensures With([], rest) == rest
  {
    if rest.Some? { assert [] + rest.value.item == rest.value.item; }
  }

  lemma WithTwice<T>(a: seq<T>, b: seq<T>, rest: Option<Parsed<seq<T>>>)
    ensures With(a, With(b, rest)) == With(a + b, rest)
  {
    if rest.Some? { assert a + (b + rest.value.item) == (a + b) + rest.value.item; }
  }

  lemma WithNothing<T>(a: seq<T>, next: nat)
    ensures With(a, Some(Parsed([], next))) == Some(Parsed(a, next))
  {
    assert a + [] == a;
  }

  // ----- the scanner -----

  class TextScanner {
    const text: seq<byte>
    var curptr: nat
    var line: nat
    var startLine: nat

    predicate Valid()
      reads this
    {
      curptr <= |text|
    }

    function Pos(): Position
      reads this
    {
      Position(curptr, line, startLine)
    }

    // pj_scan_init
    constructor (text: seq<byte>)
      ensures Valid() && this.text == text && Pos() == SkipFrom(text, Position(0, 1, 0))
    {
      this.text, curptr, line, startLine := text, 0, 1, 0;
      new;
      SkipWhitespace();
    }

    // Spaces and tabs.
    method SkipSpaces(p: Position) returns (s: nat)
      requires p.curptr <= |text|
      ensures p.curptr <= s <= |text| && !IsSpace(At(text, s))
      ensures SkipFrom(text, p.(curptr := s)) == SkipFrom(text, p)
    {
      s := p.curptr;
      while IsSpace(At(text, s))
        invariant p.curptr <= s <= |text|
        invariant SkipFrom(text, p.(curptr := s)) == SkipFrom(text, p)
        decreases |text| - s
      {
        s := s + 1;
      }
    }

    // One newline: a carriage return, a line feed, or both.
    method SkipNewline(s: nat)
      requires s <= |text| && IsNewline(At(text, s))
      modifies this
      ensures s < curptr <= |text|
      ensures SkipFrom(text, Pos()) == SkipFrom(text, Position(s, old(line), old(startLine)))
    {
      curptr := s + 1;
      if At(text, s) == CR && At(text, s + 1) == LF { curptr := curptr + 1; }
      line := line + 1;
      startLine := curptr;
    }

    // pj_scan_skip_whitespace
    method SkipWhitespace()
      requires Valid()
      modifies this
      ensures Valid() && Pos() == SkipFrom(text, old(Pos()))
    {
      var s := SkipSpaces(Pos());
      while IsNewline(At(text, s))
        invariant s <= |text| && !IsSpace(At(text, s))
        invariant SkipFrom(text, Position(s, line, startLine)) == SkipFrom(text, old(Pos()))
        decreases |text| - s
      {
        SkipNewline(s);
        s := SkipSpaces(Pos());
      }
      curptr := s;
    }

    // After every token: characters up to the space, and the negative ones, are worth a look.
    method AutoSkip()
      requires Valid()
      modifies this
      ensures Valid() && Pos() == SkipFrom(text, old(Pos()))
    {
      if At(text, curptr) <= 32 || At(text, curptr) >= 128 { SkipWhitespace(); }
    }

    // pj_scan_get_char
    method GetChar() returns (ok: bool, c: byte)
      requires Valid()
      modifies this
      ensures Valid() && ok == (At(text, old(curptr)) != 0) && c == At(text, old(curptr))
      ensures Pos() == if ok then SkipFrom(text, old(Pos()).(curptr := old(curptr) + 1)) else old(Pos())
    {
      c := At(text, curptr);
      if c == 0 { return false, c; }
      curptr := curptr + 1;
      AutoSkip();
      return true, c;
    }

    // pj_scan_get_until_ch and pj_scan_get_until_chr
    method GetUntil(stop: set<byte>) returns (ok: bool, out: seq<byte>)
      requires Valid()
      modifies this
      ensures Valid() && ok == (old(curptr) < |text|)
      ensures ok ==> out == text[old(curptr)..Until(text, old(curptr), stop)]
      ensures Pos() == if ok then SkipFrom(text, old(Pos()).(curptr := Until(text, old(curptr), stop))) else old(Pos())
    {
      if curptr >= |text| { return false, []; }
      var s := curptr;
      while s != |text| && text[s] !in stop
        invariant curptr <= s <= |text|
        invariant Until(text, s, stop) == Until(text, curptr, stop)
      {
        s := s + 1;
      }
      out := text[curptr..s];
      curptr := s;
      AutoSkip();
      return true, out;
    }

    // pj_scan_advance_n
    method AdvanceN(n: nat, skip: bool) returns (ok: bool)
      requires Valid()
      modifies this
      ensures Valid() && ok == (old(curptr) + n <= |text|)
      ensures Pos() == if !ok then old(Pos())
                       else if skip then SkipFrom(text, old(Pos()).(curptr := old(curptr) + n))
                       else old(Pos()).(curptr := old(curptr) + n)
    {
      if curptr + n > |text| { return false; }
      curptr := curptr + n;
      if skip { AutoSkip(); }
      return true;
    }

    // Does a quote at s close the string?  Count the backslashes before it in pairs.
    method Closes(open: nat, s: nat) returns (closes: bool)
      requires Valid() && open < s < |text| && text[open] != BACKSLASH
      ensures closes == !OddBackslashes(text, open, s)
    {
      if text[s - 1] != BACKSLASH { return true; }
      if s - 1 == open { return true; }
      var r: int := s - 2;
      ghost var odd := true;
      while r > 0 && text[r] == BACKSLASH
        invariant open <= r <= s - 2
        invariant odd == ((s - 2 - r) % 2 == 0)
        invariant OddBackslashes(text, open, s) == (if odd then !OddBackslashes(text, open, r + 1) else OddBackslashes(text, open, r + 1))
        decreases r
      {
        odd := !odd;
        r := r - 1;
      }
      closes := (s - 2 - r) % 2 == 1;
    }

    // pj_scan_get_quotes; the string is returned with its quotes.
    method GetQuotes(quotes: seq<byte>) returns (ok: bool, out: seq<byte>)
      requires Valid() && BACKSLASH !in quotes && LF !in quotes && 0 !in quotes
      modifies this
      ensures Valid()
      ensures var open := old(curptr);
              var close := if At(text, open) in quotes then CloseQuote(text, open + 1, At(text, open), false) else None;
              && ok == close.Some?
              && (ok ==> out == text[open..close.value + 1]
                         && Pos() == SkipFrom(text, old(Pos()).(curptr := close.value + 1)))
              && (!ok ==> Pos() == old(Pos()))
    {
      hide SkipFrom, Skip;
      var s := curptr;
      var q := At(text, s);
      if q !in quotes { return false, []; }
      assert q != 0 && s < |text|;
      var open := s;
      s := s + 1;
      ghost var escaped := false;
      while true
        invariant open < s <= |text| && Pos() == old(Pos())
        invariant escaped == OddBackslashes(text, open, s)
        invariant CloseQuote(text, s, q, escaped) == CloseQuote(text, open + 1, q, false)
        decreases |text| - s
      {
        while s != |text| && text[s] != LF && text[s] != q
          invariant open < s <= |text|
          invariant escaped == OddBackslashes(text, open, s)
          invariant CloseQuote(text, s, q, escaped) == CloseQuote(text, open + 1, q, false)
          decreases |text| - s
        {
          escaped := text[s] == BACKSLASH && !escaped;
          s := s + 1;
        }
        if At(text, s) != q { break; }
        var closes := Closes(open, s);
        if closes { break; }
        escaped := false;
        s := s + 1;
      }
      if At(text, s) != q { return false, []; }
      s := s + 1;
      out := text[curptr..s];
      curptr := s;
      AutoSkip();
      return true, out;
    }
  }
}
