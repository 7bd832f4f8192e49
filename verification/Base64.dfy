/** Base64 (base64.c; section 4 of RFC 4648).

    Shifts and masks of the source are written as division and remainder: a byte's top six bits are
    c / 4, its low two bits c % 4, and so on. */
module Base64 {
  import opened Bytes

  const INV := -1
  const PADDING: byte := '=' as byte

  datatype Status = Success | TooSmall

  // PJ_BASE256_TO_BASE64_LEN and PJ_BASE64_TO_BASE256_LEN.
  function EncodedLengthBound(n: nat): nat { n * 4 / 3 + 3 }

  function DecodedLengthBound(n: nat): nat { n * 3 / 4 }

  type Sextet = x: int | 0 <= x < 64

  // base64_char
  function Base64Char(v: Sextet): byte {
    if v < 26 then 'A' as int + v
    else if v < 52 then 'a' as int + (v - 26)
    else if v < 62 then '0' as int + (v - 52)
    else if v == 62 then '+' as byte
    else '/' as byte
  }

  // base256_char
  function Base256Char(c: byte): (v: int)
    ensures v == INV || 0 <= v < 64
  {
    if 'A' as int <= c <= 'Z' as int then c - 'A' as int
    else if 'a' as int <= c <= 'z' as int then c - 'a' as int + 26
    else if '0' as int <= c <= '9' as int then c - '0' as int + 52
    else if c == '+' as byte then 62
    else if c == '/' as byte then 63
    else INV
  }

  lemma CharRoundTrip(v: Sextet)
    ensures Base256Char(Base64Char(v)) == v && Base64Char(v) != PADDING
  {
  }

  // ----- encoding -----

  function Quad(c1: byte, c2: byte, c3: byte, padding: nat): (s: seq<byte>)
    ensures |s| == 4
  {
    [Base64Char(c1 / 4), Base64Char((c1 % 4) * 16 + c2 / 16)]
    + (if padding == 0 then [Base64Char((c2 % 16) * 4 + c3 / 64), Base64Char(c3 % 64)]
       else if padding == 1 then [Base64Char((c2 % 16) * 4 + c3 / 64), PADDING]
       else [PADDING, PADDING])
  }

  function Encoded(data: seq<byte>): (s: seq<byte>)
    ensures |s| == (|data| + 2) / 3 * 4
  {
    if |data| == 0 then []
    else if |data| == 1 then Quad(data[0], 0, 0, 2)
    else if |data| == 2 then Quad(data[0], data[1], 0, 1)
    else Quad(data[0], data[1], data[2], 0) + Encoded(data[3..])
  }

  lemma EncodedFits(n: nat)
    ensures (n + 2) / 3 * 4 <= EncodedLengthBound(n)
  {
  }

  lemma BoundIs(n: nat)
    ensures EncodedLengthBound(n) == n * 4 / 3 + 3
  {
  }

  // base256to64 writes one group of four characters.
  method PutQuad(output: array<byte>, at: nat, c1: byte, c2: byte, c3: byte, padding: nat)
    requires at + 4 <= output.Length
    modifies output
    ensures output[at..at + 4] == Quad(c1, c2, c3, padding)
    ensures output[..at] == old(output[..at]) && output[at + 4..] == old(output[at + 4..])
  {
    hide Base64Char;
    output[at] := Base64Char(c1 / 4);
    output[at + 1] := Base64Char((c1 % 4) * 16 + c2 / 16);
    if padding == 0 {
      output[at + 2] := Base64Char((c2 % 16) * 4 + c3 / 64);
      output[at + 3] := Base64Char(c3 % 64);
    } else if padding == 1 {
      output[at + 2] := Base64Char((c2 % 16) * 4 + c3 / 64);
      output[at + 3] := PADDING;
    } else {
      output[at + 2] := PADDING;
      output[at + 3] := PADDING;
    }
  }

  lemma EncodedStep(data: seq<byte>, i: nat)
    requires i < |data|
    ensures i + 1 == |data| ==> Encoded(data[i..]) == Quad(data[i], 0, 0, 2)
    ensures i + 2 == |data| ==> Encoded(data[i..]) == Quad(data[i], data[i + 1], 0, 1)
    ensures i + 3 <= |data| ==>
              Encoded(data[i..]) == Quad(data[i], data[i + 1], data[i + 2], 0) + Encoded(data[i + 3..])
  {
    hide Quad;
    if i + 3 <= |data| { assert data[i..][3..] == data[i + 3..]; }
  }

  // The text is written in full or, when the room is below the documented bound, nothing is.
  method Encode(input: seq<byte>, output: array<byte>, outLen: nat) returns (status: Status, n: nat)
    requires outLen <= output.Length
    modifies output
    ensures status.TooSmall? <==> outLen < |input| * 4 / 3 + 3
    ensures status.TooSmall? ==> output[..] == old(output[..])
    ensures status.Success? ==> n == |Encoded(input)| <= outLen && output[..n] == Encoded(input)
    ensures status.Success? ==> output[n..] == old(output[n..])
  {
    hide Quad, Encoded, EncodedLengthBound;
    BoundIs(|input|);
    if outLen < EncodedLengthBound(|input|) { return TooSmall, outLen; }
    EncodedFits(|input|);
    ghost var was := output[..];
    ghost var whole := Encoded(input);
    var i: nat, po: nat := 0, 0;
    assert input[0..] == input;
    while i < |input|
      invariant i <= |input| && po <= output.Length
      invariant output[..po] + Encoded(input[i..]) == whole
      invariant output[po..] == was[po..]
    {
      EncodedStep(input, i);
      ghost var done, rest := output[..po], input[i..];
      if i + 1 == |input| {
        PutQuad(output, po, input[i], 0, 0, 2);
        i := i + 1;
        assert input[i..] == [];
      } else if i + 2 == |input| {
        PutQuad(output, po, input[i], input[i + 1], 0, 1);
        i := i + 2;
        assert input[i..] == [];
      } else {
        PutQuad(output, po, input[i], input[i + 1], input[i + 2], 0);
        i := i + 3;
      }
      assert output[..po + 4] == done + output[po..po + 4];
      GroupWritten(done, output[po..po + 4], Encoded(input[i..]), Encoded(rest));
      po := po + 4;
      assert output[po..] == was[po..];
    }
    EncodedNothing();
    assert input[i..] == [];
    return Success, po;
  }

  lemma EncodedNothing()
    ensures Encoded([]) == []
  {
  }

  lemma GroupWritten(done: seq<byte>, quad: seq<byte>, rest: seq<byte>, tail: seq<byte>)
    requires tail == quad + rest
    ensures (done + quad) + rest == done + tail
  {
  }

  // ----- decoding -----

  // The text without the padding at its end.
  function Stripped(text: seq<byte>): (s: seq<byte>)
    ensures s <= text && (s != [] ==> s[|s| - 1] != PADDING)
  {
    if text != [] && text[|text| - 1] == PADDING then Stripped(text[..|text| - 1]) else text
  }

  function Sextets(text: seq<byte>): seq<Sextet> {
    if text == [] then []
    else (if Base256Char(text[0]) == INV then [] else [Base256Char(text[0])]) + Sextets(text[1..])
  }

  predicate EndsInvalid(text: seq<byte>) {
    text != [] && Base256Char(text[|text| - 1]) == INV
  }

  // What the decoder's character loop collects.  Invalid characters are skipped, except that a run of
  // them at the very end leaves one invalid value behind, whose low six bits are all ones.
  function Collected(text: seq<byte>): seq<Sextet> {
    Sextets(text) + if EndsInvalid(text) then [63] else []
  }

  function First(a: Sextet, b: Sextet): byte { a * 4 + b / 16 }

  function Second(b: Sextet, c: Sextet): byte { (b % 16) * 16 + c / 4 }

  function Third(c: Sextet, d: Sextet): byte { (c % 4) * 64 + d }

  function Joined(v: seq<Sextet>): (s: seq<byte>)
    ensures |s| == |v| * 3 / 4
  {
    if |v| < 2 then []
    else if |v| == 2 then [First(v[0], v[1])]
    else if |v| == 3 then [First(v[0], v[1]), Second(v[1], v[2])]
    else [First(v[0], v[1]), Second(v[1], v[2]), Third(v[2], v[3])] + Joined(v[4..])
  }

  function Decoded(text: seq<byte>): seq<byte> {
    Joined(Collected(Stripped(text)))
  }

  // The decoder keeps the low six bits of a value; the invalid value is all ones.
  function LowSix(v: int): Sextet { v % 64 }

  lemma CollectedFits(text: seq<byte>)
    ensures |Collected(text)| <= |text|
  {
    if EndsInvalid(text) {
      var t, last := text[..|text| - 1], text[|text| - 1..];
      assert text == t + last;
      SextetsAppend(t, last);
      assert last[1..] == [];
      SextetsFit(t);
    } else {
      SextetsFit(text);
    }
  }

  lemma {:induction false} SextetsFit(text: seq<byte>)
    ensures |Sextets(text)| <= |text|
  {
    hide Base256Char;
    if text != [] { SextetsFit(text[1..]); }
  }

  // One character was read: either it is collected or, unless it is the last, it leaves no trace.
  lemma CollectedStep(text: seq<byte>, i: nat)
    requires i < |text|
    ensures var v := Base256Char(text[i]);
            if v == INV && i + 1 < |text|
            then Collected(text[i..]) == Collected(text[i + 1..])
            else Collected(text[i..]) == [LowSix(v)] + Collected(text[i + 1..])
  {
    hide Base256Char;
    var here, next := text[i..], text[i + 1..];
    assert here[1..] == next;
    assert next == [] || here[|here| - 1] == next[|next| - 1];
  }

  // The innermost loop: read characters until one is in the alphabet or none is left.
  method NextValue(text: seq<byte>, start: nat) returns (v: Sextet, i: nat)
    requires start < |text|
    ensures start < i <= |text|
    ensures Collected(text[start..]) == [v] + Collected(text[i..])
  {
    hide Base256Char, Collected;
    i := start;
    CollectedStep(text, i);
    var c := Base256Char(text[i]);
    i := i + 1;
    while c == INV && i < |text|
      invariant start < i <= |text|
      invariant c == Base256Char(text[i - 1])
      invariant Collected(text[start..]) == (if c == INV && i < |text| then [] else [LowSix(c)]) + Collected(text[i..])
    {
      CollectedStep(text, i);
      c := Base256Char(text[i]);
      i := i + 1;
    }
    v := LowSix(c);
  }

  // Fill up one group of at most four values.
  method NextGroup(text: seq<byte>, start: nat) returns (c: seq<Sextet>, i: nat)
    requires start < |text|
    ensures start < i <= |text|
    ensures 0 < |c| <= 4 && (|c| < 4 ==> i == |text|)
    ensures Collected(text[start..]) == c + Collected(text[i..])
  {
    hide Collected;
    c, i := [], start;
    while |c| < 4 && i < |text|
      invariant start <= i <= |text| && |c| <= 4 && (i == start <==> c == [])
      invariant Collected(text[start..]) == c + Collected(text[i..])
      decreases |text| - i
    {
      var v, next := NextValue(text, i);
      assert (c + [v]) + Collected(text[next..]) == c + ([v] + Collected(text[next..]));
      c, i := c + [v], next;
    }
  }

  lemma JoinedStep(c: seq<Sextet>, rest: seq<Sextet>)
    requires 0 < |c| <= 4 && (|c| < 4 ==> rest == [])
    ensures Joined(c + rest) == Joined(c) + Joined(rest)
  {
    hide First, Second, Third;
    if |c| == 4 {
      assert (c + rest)[4..] == rest;
      assert c[4..] == [];
    } else {
      assert c + rest == c;
    }
  }

  // Writes the bytes of one group and returns the index after them.
  method PutGroup(out: array<byte>, j: nat, c: seq<Sextet>) returns (n: nat)
    requires 0 < |c| <= 4 && j + |Joined(c)| <= out.Length
    modifies out
    ensures n == j + |Joined(c)| && out[j..n] == Joined(c)
    ensures out[..j] == old(out[..j]) && out[n..] == old(out[n..])
  {
    hide First, Second, Third;
    n := j;
    if |c| > 1 {
      out[n] := First(c[0], c[1]);
      n := n + 1;
      if |c| > 2 {
        out[n] := Second(c[1], c[2]);
        n := n + 1;
      }
      if |c| > 3 {
        out[n] := Third(c[2], c[3]);
        n := n + 1;
      }
    }
    if |c| == 4 { assert c[4..] == []; }
  }

  // Drop the padding at the end.
  method StripPadding(text: seq<byte>) returns (len: nat)
    ensures len <= |text| && text[..len] == Stripped(text)
  {
    len := |text|;
    assert text[..len] == text;
    while len > 0 && text[len - 1] == PADDING
      invariant len <= |text|
      invariant Stripped(text[..len]) == Stripped(text)
    {
      assert text[..len][..len - 1] == text[..len - 1];
      len := len - 1;
    }
  }

  // The bytes are written in full or, when the room is below the documented bound, nothing is.
  method Decode(input: seq<byte>, out: array<byte>, outLen: nat) returns (status: Status, n: nat)
    requires outLen <= out.Length
    modifies out
    ensures status.TooSmall? <==> outLen < |Stripped(input)| * 3 / 4
    ensures status.TooSmall? ==> out[..] == old(out[..])
    ensures status.Success? ==> n == |Decoded(input)| <= outLen && out[..n] == Decoded(input)
    ensures status.Success? ==> out[n..] == old(out[n..])
  {
    hide Joined, Collected, Stripped;
    var len := StripPadding(input);
    var text := input[..len];
    if outLen < DecodedLengthBound(len) { return TooSmall, outLen; }
    CollectedFits(text);
    ghost var was := out[..];
    ghost var whole := Joined(Collected(text));
    var i: nat, j: nat := 0, 0;
    assert text[0..] == text;
    while i < len
      invariant i <= len && j <= out.Length
      invariant out[..j] + Joined(Collected(text[i..])) == whole
      invariant out[j..] == was[j..]
    {
      ghost var tail := text[i..];
      var c, next := NextGroup(text, i);
      NothingCollected(text, next);
      JoinedStep(c, Collected(text[next..]));
      ghost var done := out[..j];
      var k := PutGroup(out, j, c);
      assert out[..k] == done + out[j..k];
      GroupWritten(done, out[j..k], Joined(Collected(text[next..])), Joined(Collected(tail)));
      assert out[k..] == was[k..];
      i, j := next, k;
    }
    NothingCollected(text, i);
    return Success, j;
  }

  lemma NothingCollected(text: seq<byte>, i: nat)
    requires i <= |text|
    ensures i == |text| ==> Collected(text[i..]) == [] && Joined(Collected(text[i..])) == []
  {
  }

  // ----- round trip -----

  lemma {:induction false} SextetsAppend(a: seq<byte>, b: seq<byte>)
    ensures Sextets(a + b) == Sextets(a) + Sextets(b)
  {
    hide Base256Char;
    if a == [] {
      assert a + b == b;
    } else {
      assert (a + b)[1..] == a[1..] + b;
      SextetsAppend(a[1..], b);
      var head: seq<Sextet> := if Base256Char(a[0]) == INV then [] else [Base256Char(a[0])];
      assert head + (Sextets(a[1..]) + Sextets(b)) == (head + Sextets(a[1..])) + Sextets(b);
    }
  }

  // The sextets of a byte string, four for every three bytes.
  function Cut(data: seq<byte>): seq<Sextet> {
    if |data| == 0 then []
    else if |data| == 1 then [data[0] / 4, (data[0] % 4) * 16]
    else if |data| == 2 then [data[0] / 4, (data[0] % 4) * 16 + data[1] / 16, (data[1] % 16) * 4]
    else [data[0] / 4, (data[0] % 4) * 16 + data[1] / 16, (data[1] % 16) * 4 + data[2] / 64, data[2] % 64]
         + Cut(data[3..])
  }

  lemma {:induction false} JoinedCut(data: seq<byte>)
    ensures Joined(Cut(data)) == data
  {
    if |data| >= 3 {
      JoinedCut(data[3..]);
      assert Cut(data)[4..] == Cut(data[3..]);
      assert data == [data[0], data[1], data[2]] + data[3..];
    }
  }

  function Chars(v: seq<Sextet>): (s: seq<byte>)
    ensures |s| == |v| && forall i :: 0 <= i < |s| ==> s[i] == Base64Char(v[i])
  {
    if v == [] then [] else [Base64Char(v[0])] + Chars(v[1..])
  }

  lemma CharsAppend(a: seq<Sextet>, b: seq<Sextet>)
    ensures Chars(a + b) == Chars(a) + Chars(b)
  {
  }

  lemma {:induction false} SextetsOfChars(v: seq<Sextet>)
    ensures Sextets(Chars(v)) == v
  {
    if v != [] {
      CharRoundTrip(v[0]);
      SextetsOfChars(v[1..]);
      assert Chars(v)[1..] == Chars(v[1..]);
    }
  }

  function Pads(n: nat): (s: seq<byte>)
    ensures |s| == n && forall i :: 0 <= i < n ==> s[i] == PADDING
  {
    seq(n, _ => PADDING)
  }

  lemma GroupIsChars(a: byte, b: byte, c: byte)
    ensures Quad(a, b, c, 0) == Chars([a / 4, (a % 4) * 16 + b / 16, (b % 16) * 4 + c / 64, c % 64])
  {
    hide Base64Char;
  }

  lemma PairIsChars(a: byte, b: byte)
    ensures Quad(a, b, 0, 1) == Chars([a / 4, (a % 4) * 16 + b / 16, (b % 16) * 4]) + Pads(1)
  {
    hide Base64Char;
    assert (b % 16) * 4 + 0 / 64 == (b % 16) * 4;
  }

  lemma SingleIsChars(a: byte)
    ensures Quad(a, 0, 0, 2) == Chars([a / 4, (a % 4) * 16]) + Pads(2)
  {
    hide Base64Char;
    assert (a % 4) * 16 + 0 / 16 == (a % 4) * 16;
  }

  lemma {:induction false} EncodedIsChars(data: seq<byte>) returns (n: nat)
    ensures Encoded(data) == Chars(Cut(data)) + Pads(n)
  {
    hide Base64Char, Quad, Chars;
    if |data| == 0 {
      n := 0;
    } else if |data| == 1 {
      n := 2;
      SingleIsChars(data[0]);
    } else if |data| == 2 {
      n := 1;
      PairIsChars(data[0], data[1]);
    } else {
      n := EncodedIsChars(data[3..]);
      var a, b, c := data[0], data[1], data[2];
      GroupIsChars(a, b, c);
      var group: seq<Sextet> := [a / 4, (a % 4) * 16 + b / 16, (b % 16) * 4 + c / 64, c % 64];
      CharsAppend(group, Cut(data[3..]));
      assert (Chars(group) + Chars(Cut(data[3..]))) + Pads(n) == Chars(group) + (Chars(Cut(data[3..])) + Pads(n));
    }
  }

  lemma CharsEnd(v: seq<Sextet>)
    requires v != []
    ensures Chars(v) != [] && Chars(v)[|v| - 1] != PADDING && !EndsInvalid(Chars(v))
  {
    CharRoundTrip(v[|v| - 1]);
  }

  lemma {:induction false} StrippedPads(s: seq<byte>, n: nat)
    requires s != [] ==> s[|s| - 1] != PADDING
    ensures Stripped(s + Pads(n)) == s
  {
    if n == 0 {
      assert s + Pads(0) == s;
    } else {
      var t := s + Pads(n);
      assert t[..|t| - 1] == s + Pads(n - 1);
      StrippedPads(s, n - 1);
    }
  }

  // Decoding the encoding of any byte string returns it.
  lemma RoundTrip(data: seq<byte>)
    ensures Decoded(Encoded(data)) == data
  {
    hide Encoded, Cut, Chars, Stripped, Sextets, Joined, Base64Char, Base256Char, Pads;
    var v := Cut(data);
    var n := EncodedIsChars(data);
    if v != [] { CharsEnd(v); }
    StrippedPads(Chars(v), n);
    SextetsOfChars(v);
    assert Collected(Chars(v)) == v;
    JoinedCut(data);
  }

  predicate AssertionHolds(text: seq<byte>, outLen: nat) {
    DecodedLengthBound(|Stripped(text)|) <= outLen ==> |Decoded(text)| < outLen
  }

  // The size check lets through a buffer that the bytes fill exactly, and the debug assertion after the loop
  // does not.  It can fail exactly when too few characters are skipped to make the bytes fewer.
  lemma AssertionHoldsExactly(text: seq<byte>)
    ensures (forall outLen: nat :: AssertionHolds(text, outLen))
            <==> |Collected(Stripped(text))| * 3 / 4 < |Stripped(text)| * 3 / 4
  {
    hide Collected, Stripped;
    assert |Decoded(text)| == |Collected(Stripped(text))| * 3 / 4;
    if forall outLen: nat :: AssertionHolds(text, outLen) {
      assert AssertionHolds(text, DecodedLengthBound(|Stripped(text)|));
    }
  }

  // So it can for every encoding: its bytes fill the smallest buffer that the check accepts.
  lemma EncodingFillsRoom(data: seq<byte>)
    ensures DecodedLengthBound(|Stripped(Encoded(data))|) == |data| == |Decoded(Encoded(data))|
  {
    hide Encoded, Cut, Chars, Stripped, Sextets, Base64Char, Base256Char, Pads;
    RoundTrip(data);
    var v := Cut(data);
    var n := EncodedIsChars(data);
    if v != [] { CharsEnd(v); }
    StrippedPads(Chars(v), n);
    SextetsOfChars(v);
    SextetsFit(Chars(v));
    JoinedCut(data);
  }

  // ----- junk in the text -----

  ghost predicate Junk(text: seq<byte>) {
    forall i :: 0 <= i < |text| ==> Base256Char(text[i]) == INV
  }

  lemma {:induction false} JunkHasNoSextets(junk: seq<byte>)
    requires Junk(junk)
    ensures Sextets(junk) == []
  {
    if junk != [] { JunkHasNoSextets(junk[1..]); }
  }

  lemma {:induction false} StrippedAppend(a: seq<byte>, b: seq<byte>)
    requires !Junk(b)
    ensures Stripped(a + b) == a + Stripped(b) && Stripped(b) != [] && !Junk(Stripped(b))
    decreases |b|
  {
    var t := a + b;
    if b[|b| - 1] == PADDING {
      assert t[..|t| - 1] == a + b[..|b| - 1];
      var i :| 0 <= i < |b| && Base256Char(b[i]) != INV;
      assert b[..|b| - 1][i] == b[i];
      StrippedAppend(a, b[..|b| - 1]);
    }
  }

  // Characters outside the alphabet, the padding character among them, change nothing when they stand
  // anywhere before the last alphabet character.
  lemma JunkIgnored(a: seq<byte>, junk: seq<byte>, b: seq<byte>)
    requires Junk(junk) && !Junk(b)
    ensures Decoded(a + junk + b) == Decoded(a + b)
  {
    hide Sextets, Joined, Base256Char;
    StrippedAppend(a + junk, b);
    StrippedAppend(a, b);
    hide Stripped;
    var s := Stripped(b);
    SextetsAppend(a + junk, s);
    SextetsAppend(a, junk);
    SextetsAppend(a, s);
    JunkHasNoSextets(junk);
    assert Sextets(a) + [] + Sextets(s) == Sextets(a) + Sextets(s);
  }

  // What follows the last alphabet character matters: other than padding, it leaves a stray value
  // behind, which adds a byte exactly when the sextets do not fill whole groups of four.
  lemma TrailingJunk(text: seq<byte>)
    ensures Decoded(text) == Joined(Sextets(Stripped(text)))
            <==> !EndsInvalid(Stripped(text)) || |Sextets(Stripped(text))| % 4 == 0
  {
    hide Sextets, Stripped, Joined, EndsInvalid, Base256Char;
    var v := Sextets(Stripped(text));
    if |v| % 4 == 0 {
      JoinedGroups(v, [63]);
      assert |Joined([63])| == 0;
    }
    assert |Joined(v + [63])| == (|v| + 1) * 3 / 4;
    assert v + [] == v;
  }

  lemma {:induction false} JoinedGroups(v: seq<Sextet>, w: seq<Sextet>)
    requires |v| % 4 == 0
    ensures Joined(v + w) == Joined(v) + Joined(w)
  {
    if v == [] {
      assert v + w == w;
    } else {
      assert (v + w)[4..] == v[4..] + w;
      JoinedGroups(v[4..], w);
    }
  }

  // ----- the standard -----

  function Alphabet(v: Sextet): char {
    if v < 26 then "ABCDEFGHIJKLMNOPQRSTUVWXYZ"[v]
    else if v < 52 then "abcdefghijklmnopqrstuvwxyz"[v - 26]
    else "0123456789+/"[v - 52]
  }

  lemma CharIsInAlphabet(v: Sextet)
    ensures Base64Char(v) == Alphabet(v) as int
  {
  }

  // Section 4 of RFC 4648: three bytes are a number of 24 bits, the most significant first, and the four characters are
  // its digits to the base of 64.
  lemma GroupIsNumber(c1: byte, c2: byte, c3: byte, a: Sextet, b: Sextet, c: Sextet, d: Sextet)
    requires c1 as int * 65536 + c2 as int * 256 + c3 as int == a as int * 262144 + b as int * 4096 + c as int * 64 + d as int
    ensures Quad(c1, c2, c3, 0) == [Alphabet(a) as int, Alphabet(b) as int, Alphabet(c) as int, Alphabet(d) as int]
  {
    SextetsOfNumber(c1, c2, c3, a, b, c, d);
    CharIsInAlphabet(a);
    CharIsInAlphabet(b);
    CharIsInAlphabet(c);
    CharIsInAlphabet(d);
    hide Base64Char, Alphabet;
  }

  lemma SextetsOfNumber(c1: nat, c2: nat, c3: nat, a: nat, b: nat, c: nat, d: nat)
    requires c1 < 256 && c2 < 256 && c3 < 256 && a < 64 && b < 64 && c < 64 && d < 64
    requires c1 * 65536 + c2 * 256 + c3 == a * 262144 + b * 4096 + c * 64 + d
    ensures a == c1 / 4 && b == (c1 % 4) * 16 + c2 / 16 && c == (c2 % 16) * 4 + c3 / 64 && d == c3 % 64
  {
  }

  // A last group of one or two bytes is that of the bytes and zeros, with equals signs for the characters that hold none
  // of its bits.
  lemma LastGroup(c1: byte, c2: byte)
    ensures Encoded([c1, c2]) == Quad(c1, c2, 0, 0)[..3] + ['=' as byte]
    ensures Encoded([c1]) == Quad(c1, 0, 0, 0)[..2] + ['=' as byte, '=' as byte]
  {
    hide Base64Char;
  }

  // Examples of section 10 of RFC 4648: "f", "fo" and "foo" are "Zg==", "Zm8=" and "Zm9v".
  lemma Examples(f: byte, o: byte)
    requires f == 'f' as int && o == 'o' as int
    ensures Encoded([f]) == ['Z' as int, 'g' as int, '=' as int, '=' as int]
    ensures Encoded([f, o]) == ['Z' as int, 'm' as int, '8' as int, '=' as int]
    ensures Encoded([f, o, o]) == ['Z' as int, 'm' as int, '9' as int, 'v' as int]
  {
    assert [f, o, o][3..] == [];
    assert Encoded([f, o, o]) == Quad(f, o, o, 0) + [];
  }
}
