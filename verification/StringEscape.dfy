/** URI escaping (string.c; section 2.1 of RFC 3986). */
module StringEscape {
  import opened Bytes
  import opened Hex

  const PERCENT: byte := '%' as byte

  // ----- escaping -----

  function EscapedByte(c: byte, unreserved: set<byte>): seq<byte> {
    if c in unreserved then [c] else [PERCENT, HighDigit(c), LowDigit(c)]
  }

  function Escaped(src: seq<byte>, unreserved: set<byte>): (dst: seq<byte>)
    ensures |src| <= |dst|
  {
    if src == [] then [] else EscapedByte(src[0], unreserved) + Escaped(src[1..], unreserved)
  }

  lemma EscapedStep(src: seq<byte>, i: nat, unreserved: set<byte>)
    requires i < |src|
    ensures Escaped(src[i..], unreserved) == EscapedByte(src[i], unreserved) + Escaped(src[i + 1..], unreserved)
  {
    assert src[i..][1..] == src[i + 1..];
  }

  lemma Append<T>(done: seq<T>, part: seq<T>, rest: seq<T>, tail: seq<T>)
    requires tail == part + rest
    ensures (done + part) + rest == done + tail
  {
  }

  // pj_strncpy2_escape: it succeeds exactly when the whole escaped text fits.
  method EscapeInto(dst: array<byte>, src: seq<byte>, max: int, unreserved: set<byte>) returns (n: int)
    requires max <= dst.Length
    modifies dst
    ensures n == if |Escaped(src, unreserved)| <= max then |Escaped(src, unreserved)| else -1
    ensures n >= 0 ==> dst[..n] == Escaped(src, unreserved)
    ensures forall k :: 0 <= k < dst.Length && (max <= k || 0 <= n <= k) ==> dst[k] == old(dst[k])
  {
    hide Escaped, HighDigit, LowDigit;
    if max < |src| { return -1; }
    ghost var was := dst[..];
    ghost var whole := Escaped(src, unreserved);
    var s: nat, d: nat := 0, 0;
    assert src[0..] == src;
    while s < |src| && d < max
      invariant s <= |src| && d <= max
      invariant dst[..d] + Escaped(src[s..], unreserved) == whole
      invariant forall k :: d <= k < dst.Length ==> dst[k] == was[k]
      decreases |src| - s
    {
      EscapedStep(src, s, unreserved);
      ghost var done, tail := dst[..d], Escaped(src[s..], unreserved);
      ghost var part := EscapedByte(src[s], unreserved);
      Append(done, part, Escaped(src[s + 1..], unreserved), tail);
      if src[s] in unreserved {
        dst[d] := src[s];
        assert dst[..d + 1] == done + part;
        d := d + 1;
      } else if d < max - 2 {
        dst[d] := PERCENT;
        dst[d + 1] := HighDigit(src[s]);
        dst[d + 2] := LowDigit(src[s]);
        assert dst[..d + 3] == done + part;
        d := d + 3;
      } else {
        break;
      }
      s := s + 1;
    }
    NothingLeft(src, s, unreserved);
    n := if s == |src| then d else -1;
  }

  lemma NothingLeft(src: seq<byte>, i: nat, unreserved: set<byte>)
    requires i <= |src|
    ensures i == |src| ==> Escaped(src[i..], unreserved) == []
    ensures i < |src| ==> 0 < |Escaped(src[i..], unreserved)|
  {
  }

  // ----- unescaping -----

  // Is there an escape at the head of the text?  The strict reading wants two hexadecimal digits after
  // the percent sign, the lax one any two characters.
  predicate EscapeAhead(src: seq<byte>, strict: bool) {
    |src| > 2 && src[0] == PERCENT && (strict ==> IsHexDigit(src[1]) && IsHexDigit(src[2]))
  }

  function Unescaped(src: seq<byte>, strict: bool): (dst: seq<byte>)
    ensures |dst| <= |src|
  {
    if src == [] then []
    else if EscapeAhead(src, strict) then [HexByte(src[1], src[2])] + Unescaped(src[3..], strict)
    else [src[0]] + Unescaped(src[1..], strict)
  }

  lemma UnescapedStep(src: seq<byte>, i: nat, strict: bool)
    requires i < |src|
    ensures Unescaped(src[i..], strict) ==
            if EscapeAhead(src[i..], strict)
            then [HexByte(src[i + 1], src[i + 2])] + Unescaped(src[i + 3..], strict)
            else [src[i]] + Unescaped(src[i + 1..], strict)
  {
    hide HexByte;
    assert src[i..][1..] == src[i + 1..];
    if EscapeAhead(src[i..], strict) { assert src[i..][3..] == src[i + 3..]; }
  }

  lemma EscapeAheadAt(src: seq<byte>, i: nat, strict: bool)
    requires i < |src|
    ensures EscapeAhead(src[i..], strict)
            <==> i < |src| - 2 && src[i] == PERCENT && (strict ==> IsHexDigit(src[i + 1]) && IsHexDigit(src[i + 2]))
  {
  }

  // pj_strcpy_unescape; the destination may be the source itself.
  method CopyUnescaped(dst: array<byte>, src: array<byte>, len: nat) returns (n: nat)
    requires len <= src.Length && len <= dst.Length
    modifies dst
    ensures n == |Unescaped(old(src[..len]), false)| && dst[..n] == Unescaped(old(src[..len]), false)
    ensures dst[n..] == old(dst[n..])
  {
    hide HexByte, Unescaped;
    n := UnescapeLoop(dst, src, len, false);
  }

  // The loop of both functions.
  method UnescapeLoop(dst: array<byte>, src: array<byte>, len: nat, strict: bool) returns (n: nat)
    requires len <= src.Length && len <= dst.Length
    modifies dst
    ensures n == |Unescaped(old(src[..len]), strict)| && dst[..n] == Unescaped(old(src[..len]), strict)
    ensures dst[n..] == old(dst[n..])
  {
    hide HexByte, Unescaped, IsHexDigit, EscapeAhead;
    ghost var text, was := src[..len], dst[..];
    ghost var whole := Unescaped(text, strict);
    var s: nat := 0;
    n := 0;
    assert text[0..] == text;
    while s != len
      invariant n <= s <= len
      invariant forall k :: s <= k < len ==> src[k] == text[k]
      invariant dst[..n] + Unescaped(text[s..], strict) == whole
      invariant forall k :: n <= k < dst.Length ==> dst[k] == was[k]
      decreases len - s
    {
      UnescapedStep(text, s, strict);
      EscapeAheadAt(text, s, strict);
      ghost var done, tail := dst[..n], Unescaped(text[s..], strict);
      var c: byte;
      if src[s] == PERCENT && s < len - 2 && (strict ==> IsHexDigit(src[s + 1]) && IsHexDigit(src[s + 2])) {
        c := HexByte(src[s + 1], src[s + 2]);
        s := s + 3;
      } else {
        c := src[s];
        s := s + 1;
      }
      Append(done, [c], Unescaped(text[s..], strict), tail);
      dst[n] := c;
      n := n + 1;
      assert dst[..n] == done + [c];
    }
    assert text[s..] == [];
    assert Unescaped([], strict) == [] by { UnescapedNothing(strict); }
  }

  lemma UnescapedNothing(strict: bool)
    ensures Unescaped([], strict) == []
  {
  }

  lemma {:induction false} NothingToUnescape(src: seq<byte>, strict: bool)
    requires PERCENT !in src
    ensures Unescaped(src, strict) == src
  {
    if src != [] { NothingToUnescape(src[1..], strict); }
  }

  // pj_str_unescape: text without a percent sign is returned as it is, other text in new memory.
  method Unescape(src: array<byte>, len: nat) returns (dst: array<byte>, n: nat)
    requires len <= src.Length
    ensures n <= dst.Length && dst[..n] == Unescaped(src[..len], true)
    ensures if PERCENT in src[..len] then fresh(dst) else dst == src && n == len
  {
    if PERCENT !in src[..len] {
      NothingToUnescape(src[..len], true);
      return src, len;
    }
    dst := new byte[len];
    n := UnescapeLoop(dst, src, len, true);
  }

  // ----- round trip -----

  lemma UnescapeEscaped(c: byte, unreserved: set<byte>, rest: seq<byte>, strict: bool)
    requires PERCENT !in unreserved
    ensures Unescaped(EscapedByte(c, unreserved) + rest, strict) == [c] + Unescaped(rest, strict)
  {
    hide HexByte, IsHexDigit, HighDigit, LowDigit;
    var text := EscapedByte(c, unreserved) + rest;
    if c in unreserved {
      assert text[1..] == rest;
    } else {
      HexRoundTrip(c);
      assert text[3..] == rest;
    }
  }

  lemma {:induction false} RoundTrip(src: seq<byte>, unreserved: set<byte>, strict: bool)
    requires PERCENT !in unreserved
    ensures Unescaped(Escaped(src, unreserved), strict) == src
  {
    if src != [] {
      RoundTrip(src[1..], unreserved, strict);
      UnescapeEscaped(src[0], unreserved, Escaped(src[1..], unreserved), strict);
    }
  }

  // With the percent sign unreserved the strict reading still recovers the text, as long as no
  // hexadecimal digit is unreserved: what follows a bare percent sign is then never a digit.
  lemma {:induction false} StrictRoundTrip(src: seq<byte>, unreserved: set<byte>)
    requires forall h :: h in unreserved ==> !IsHexDigit(h)
    ensures Unescaped(Escaped(src, unreserved), true) == src
  {
    hide HexByte, HighDigit, LowDigit, IsHexDigit;
    if src != [] {
      StrictRoundTrip(src[1..], unreserved);
      var rest := Escaped(src[1..], unreserved);
      if src[0] in unreserved {
        NotADigitAhead(src[1..], unreserved);
        assert ([src[0]] + rest)[1..] == rest;
      } else {
        HexRoundTrip(src[0]);
        assert ([PERCENT, HighDigit(src[0]), LowDigit(src[0])] + rest)[3..] == rest;
      }
    }
  }

  lemma NotADigitAhead(src: seq<byte>, unreserved: set<byte>)
    requires forall h :: h in unreserved ==> !IsHexDigit(h)
    ensures var dst := Escaped(src, unreserved); dst == [] || !IsHexDigit(dst[0])
  {
  }

  ghost predicate Recovers(unreserved: set<byte>, strict: bool) {
    forall src :: Unescaped(Escaped(src, unreserved), strict) == src
  }

  // Exactly when pj_str_unescape undoes the escaping of every text.
  lemma StrictRecoversExactly(unreserved: set<byte>)
    ensures Recovers(unreserved, true) <==>
            PERCENT !in unreserved || forall h :: h in unreserved ==> !IsHexDigit(h)
  {
    if PERCENT !in unreserved {
      forall src ensures Unescaped(Escaped(src, unreserved), true) == src {
        RoundTrip(src, unreserved, true);
      }
    } else if h :| h in unreserved && IsHexDigit(h) {
      Shortened([PERCENT, h, h], unreserved, true);
    } else {
      forall src ensures Unescaped(Escaped(src, unreserved), true) == src {
        StrictRoundTrip(src, unreserved);
      }
    }
  }

  // Exactly when pj_strcpy_unescape does.
  lemma LaxRecoversExactly(unreserved: set<byte>)
    ensures Recovers(unreserved, false) <==> PERCENT !in unreserved
  {
    if PERCENT !in unreserved {
      forall src ensures Unescaped(Escaped(src, unreserved), false) == src {
        RoundTrip(src, unreserved, false);
      }
    } else {
      Shortened([PERCENT, PERCENT, PERCENT], unreserved, false);
    }
  }

  lemma Shortened(src: seq<byte>, unreserved: set<byte>, strict: bool)
    requires |src| == 3 && src[0] in unreserved && src[1] in unreserved && src[2] in unreserved
    requires EscapeAhead(src, strict)
    ensures Unescaped(Escaped(src, unreserved), strict) != src
  {
    hide HexByte, IsHexDigit, HighDigit, LowDigit;
    assert Escaped(src[3..], unreserved) == [];
    assert src[1..][1..] == src[2..] && src[2..][1..] == src[3..];
    assert Escaped(src[2..], unreserved) == [src[2]];
    assert Escaped(src[1..], unreserved) == [src[1], src[2]];
    assert Escaped(src, unreserved) == src;
  }

  // ----- agreement -----

  // Wherever the lax reading finds an escape, its digits are hexadecimal.
  predicate WellEscaped(src: seq<byte>) {
    src == []
    || if EscapeAhead(src, false) then EscapeAhead(src, true) && WellEscaped(src[3..]) else WellEscaped(src[1..])
  }

  lemma DigitIsCopied(src: seq<byte>, i: nat)
    requires i < |src| && src[i] != PERCENT
    ensures Unescaped(src[i..], true) == [src[i]] + Unescaped(src[i + 1..], true)
    ensures Unescaped(src[i..], false) == [src[i]] + Unescaped(src[i + 1..], false)
  {
    UnescapedStep(src, i, true);
    UnescapedStep(src, i, false);
  }

  // Two bytes more are never read as fewer bytes by the strict reading.
  lemma SkipTwo(src: seq<byte>)
    requires |src| >= 2
    ensures |Unescaped(src[2..], true)| <= |Unescaped(src, true)|
  {
    hide HexByte, Unescaped;
    assert src[0..] == src;
    UnescapedStep(src, 0, true);
    UnescapedStep(src, 1, true);
    EscapeAheadAt(src, 0, true);
    EscapeAheadAt(src, 1, true);
    if EscapeAhead(src, true) {
      DigitIsCopied(src, 2);
    } else if EscapeAhead(src[1..], true) {
      DigitIsCopied(src, 2);
      DigitIsCopied(src, 3);
    }
  }

  lemma {:induction false} LaxIsShorter(src: seq<byte>)
    ensures |Unescaped(src, false)| <= |Unescaped(src, true)|
  {
    hide HexByte, IsHexDigit;
    if src != [] {
      LaxIsShorter(src[1..]);
      if EscapeAhead(src, false) {
        LaxIsShorter(src[3..]);
        SkipTwo(src[1..]);
        assert src[1..][2..] == src[3..];
      }
    }
  }

  // Exactly when both readings agree.
  lemma {:induction false} ReadingsAgree(src: seq<byte>)
    ensures Unescaped(src, true) == Unescaped(src, false) <==> WellEscaped(src)
  {
    hide HexByte, IsHexDigit;
    if src != [] {
      if !EscapeAhead(src, false) {
        ReadingsAgree(src[1..]);
        SameTail(src[0], Unescaped(src[1..], true), Unescaped(src[1..], false));
      } else if EscapeAhead(src, true) {
        ReadingsAgree(src[3..]);
        SameTail(HexByte(src[1], src[2]), Unescaped(src[3..], true), Unescaped(src[3..], false));
      } else {
        MalformedDiffers(src);
      }
    }
  }

  lemma SameTail(c: byte, a: seq<byte>, b: seq<byte>)
    ensures [c] + a == [c] + b <==> a == b
  {
    if [c] + a == [c] + b { assert ([c] + a)[1..] == ([c] + b)[1..]; }
  }

  // A malformed escape is copied by the strict reading and replaced by the lax one.
  lemma MalformedDiffers(src: seq<byte>)
    requires EscapeAhead(src, false) && !EscapeAhead(src, true)
    ensures Unescaped(src, true) != Unescaped(src, false)
  {
    hide HexByte, Unescaped;
    var strict, lax := Unescaped(src, true), Unescaped(src, false);
    assert src[0..] == src;
    UnescapedStep(src, 0, true);
    UnescapedStep(src, 0, false);
    UnescapedStep(src, 1, true);
    LaxIsShorter(src[3..]);
    EscapeAheadAt(src, 1, true);
    if EscapeAhead(src[1..], true) {
      PercentIsFive(src[2]);
      assert lax[0] != strict[0];
    } else {
      UnescapedStep(src, 2, true);
      EscapeAheadAt(src, 2, true);
      if EscapeAhead(src[2..], true) {
        DigitIsCopied(src, 3);
        DigitIsCopied(src, 4);
        NeverTheSame(src[1], src[3], src[4]);
        assert lax == [HexByte(src[1], src[2]), src[3], src[4]] + Unescaped(src[5..], false);
        assert strict == [PERCENT, src[1], HexByte(src[3], src[4])] + Unescaped(src[5..], true);
        assert lax[0] == HexByte(src[1], src[2]) && strict[0] == PERCENT;
        assert lax[1] == src[3] && strict[1] == src[1] && lax[2] == src[4] && strict[2] == HexByte(src[3], src[4]);
      }
    }
  }

  lemma PercentIsFive(low: byte)
    ensures HexByte(PERCENT, low) != PERCENT
  {
  }

  // No digits are left that the strict reading could have copied into the same place.
  lemma NeverTheSame(a: byte, b: byte, c: byte)
    requires IsHexDigit(b) && IsHexDigit(c)
    ensures HexByte(a, PERCENT) != PERCENT || a != b || c != HexByte(b, c)
  {
  }

  // It is enough that every percent sign with two characters after it starts a proper escape.
  lemma {:induction false} ProperEscapes(src: seq<byte>)
    requires forall i :: 0 <= i < |src| - 2 && src[i] == PERCENT ==> IsHexDigit(src[i + 1]) && IsHexDigit(src[i + 2])
    ensures WellEscaped(src)
  {
    hide IsHexDigit;
    if src != [] {
      ProperEscapes(src[1..]);
      if EscapeAhead(src, false) { ProperEscapes(src[3..]); }
    }
  }

  // Section 2.1 of RFC 3986: a percent sign and two hexadecimal digits, in lower case or in capitals, stand for a character;
  // any other character stands for itself.
  lemma CodeIsRead(high: int, low: int, h: byte, l: byte, rest: seq<byte>, strict: bool)
    requires 0 <= high < 16 && 0 <= low < 16 && Hex.IsDigitOf(h, high) && Hex.IsDigitOf(l, low)
    ensures Unescaped(['%' as byte, h, l] + rest, strict) == [16 * high + low] + Unescaped(rest, strict)
  {
    hide HexByte, Hex.IsDigitOf;
    Hex.CodeIsRead(high, low, h, l);
    var s := ['%' as byte, h, l] + rest;
    assert s[0] == '%' as byte && s[1] == h && s[2] == l && s[3..] == rest;
  }

  lemma PlainIsRead(c: byte, rest: seq<byte>, strict: bool)
    requires c != '%' as int
    ensures Unescaped([c] + rest, strict) == [c] + Unescaped(rest, strict)
  {
    assert ([c] + rest)[0] == c && ([c] + rest)[1..] == rest;
  }

  // And what is escaped is written in lower case.
  lemma CodeIsWritten(c: byte, unreserved: set<byte>)
    requires c !in unreserved
    ensures EscapedByte(c, unreserved)
            == ['%' as byte, "0123456789abcdef"[c / 16] as byte, "0123456789abcdef"[c % 16] as byte]
  {
    Hex.DigitTable(c / 16);
    Hex.DigitTable(c % 16);
  }

  // A percent sign with fewer than two characters behind it stands for itself and, in the strict reading, so does one
  // without two hexadecimal digits.
  lemma PercentStands(rest: seq<byte>, strict: bool)
    requires |rest| < 2 || (strict && !(IsHexDigit(rest[0]) && IsHexDigit(rest[1])))
    ensures Unescaped(['%' as byte] + rest, strict) == ['%' as byte] + Unescaped(rest, strict)
  {
    var s := ['%' as byte] + rest;
    assert s[0] == '%' as byte && s[1..] == rest;
    if |rest| >= 2 { assert s[1] == rest[0] && s[2] == rest[1]; }
  }
}
