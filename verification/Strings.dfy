/** Comparing strings without regard to letter case (pjlib's string.h). */
module Strings {
  import opened Bytes

  // tolower in the C locale.
  function Lower(c: byte): byte {
    if 'A' as int <= c <= 'Z' as int then c + 32 else c
  }

  // strncasecmp finds no difference in the first |a| bytes; it stops at a zero byte.
  predicate NoDifference(a: seq<byte>, b: seq<byte>)
    requires |a| == |b|
  {
    a == [] || (Lower(a[0]) == Lower(b[0]) && (a[0] == 0 || NoDifference(a[1..], b[1..])))
  }

  // pj_stricmp(a, b) == 0
  predicate Matches(a: seq<byte>, b: seq<byte>) { |a| == |b| && NoDifference(a, b) }

  // Equal up to letter case (section 2.3.3 of RFC 1035).
  predicate SameUpToCase(a: seq<byte>, b: seq<byte>) {
    |a| == |b| && forall i :: 0 <= i < |a| ==> Lower(a[i]) == Lower(b[i])
  }

  predicate NoZeroInside(name: seq<byte>) { forall i :: 0 <= i < |name| - 1 ==> name[i] != 0 }

  lemma {:induction false} MatchWithoutZero(a: seq<byte>, b: seq<byte>)
    requires Matches(a, b) && NoZeroInside(b)
    ensures SameUpToCase(a, b)
  {
    if |a| > 1 {
      assert b[0] != 0;
      assert NoZeroInside(b[1..]) by { forall i | 0 <= i < |b[1..]| - 1 ensures b[1..][i] != 0 { assert b[i + 1] != 0; } }
      MatchWithoutZero(a[1..], b[1..]);
      forall i | 0 <= i < |a| ensures Lower(a[i]) == Lower(b[i]) {
        if i > 0 { assert Lower(a[1..][i - 1]) == Lower(b[1..][i - 1]); }
      }
    }
  }

  // A name matches only names equal to it up to case exactly when no zero byte stands before its last.
  lemma MatchesExactly(b: seq<byte>)
    ensures (forall a :: Matches(a, b) ==> SameUpToCase(a, b)) <==> NoZeroInside(b)
  {
    if NoZeroInside(b) {
      forall a | Matches(a, b) ensures SameUpToCase(a, b) { MatchWithoutZero(a, b); }
    } else {
      var i :| 0 <= i < |b| - 1 && b[i] == 0;
      var c: byte := if b[i + 1] == 1 then 2 else 1;
      var a: seq<byte> := b[i + 1 := c];
      assert a[..i + 1] == b[..i + 1];
      SamePrefix(a, b, i);
      assert Lower(a[i + 1]) != Lower(b[i + 1]);
      assert Matches(a, b) && !SameUpToCase(a, b);
    }
  }

  lemma {:induction false} SamePrefix(a: seq<byte>, b: seq<byte>, i: nat)
    requires |a| == |b| && i < |b| && b[i] == 0 && a[..i + 1] == b[..i + 1]
    ensures NoDifference(a, b)
  {
    assert a[0] == a[..i + 1][0] == b[..i + 1][0] == b[0];
    if i > 0 {
      assert a[1..][..i] == a[..i + 1][1..] && b[1..][..i] == b[..i + 1][1..];
      SamePrefix(a[1..], b[1..], i - 1);
    }
  }

  // Only the capital letters have another letter in lower case.
  lemma LowerLaw(c: byte)
    ensures forall i :: 0 <= i < 26 && c == "ABCDEFGHIJKLMNOPQRSTUVWXYZ"[i] as int ==> Lower(c) == "abcdefghijklmnopqrstuvwxyz"[i] as int
    ensures c < 'A' as int || c > 'Z' as int ==> Lower(c) == c
  {
  }

  // Equal up to letter case as far as the first zero byte.
  predicate AgreeToZero(a: seq<byte>, b: seq<byte>) {
    |a| == |b| && forall i :: 0 <= i < |a| && 0 !in a[..i] ==> Lower(a[i]) == Lower(b[i])
  }

  // That is what the comparison looks at.
  lemma {:induction false} MatchesMeans(a: seq<byte>, b: seq<byte>)
    ensures Matches(a, b) <==> AgreeToZero(a, b)
  {
    if |a| == |b| && a != [] {
      hide Lower;
      MatchesMeans(a[1..], b[1..]);
      if AgreeToZero(a, b) {
        assert 0 !in a[..0];
        if a[0] != 0 {
          forall i | 0 <= i < |a[1..]| && 0 !in a[1..][..i] ensures Lower(a[1..][i]) == Lower(b[1..][i]) {
            assert a[..i + 1] == [a[0]] + a[1..][..i];
            assert a[1..][i] == a[i + 1] && b[1..][i] == b[i + 1];
          }
        }
      }
      if Matches(a, b) {
        forall i | 0 <= i < |a| && 0 !in a[..i] ensures Lower(a[i]) == Lower(b[i]) {
          if i > 0 {
            assert a[..i][0] == a[0] && a[0] in a[..i];
            assert forall c :: c in a[1..][..i - 1] ==> c in a[..i] by { assert a[..i] == [a[0]] + a[1..][..i - 1]; }
            assert a[1..][i - 1] == a[i] && b[1..][i - 1] == b[i];
          }
        }
      }
    }
  }

  lemma {:induction false} MatchesSymmetric(a: seq<byte>, b: seq<byte>)
    requires Matches(a, b)
    ensures Matches(b, a)
  {
    if a != [] && a[0] != 0 { MatchesSymmetric(a[1..], b[1..]); }
  }

  lemma {:induction false} MatchesTransitive(a: seq<byte>, b: seq<byte>, c: seq<byte>)
    requires Matches(a, b) && Matches(b, c)
    ensures Matches(a, c)
  {
    if a != [] && a[0] != 0 { MatchesTransitive(a[1..], b[1..], c[1..]); }
  }
}
