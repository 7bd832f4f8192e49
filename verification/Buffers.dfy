/** Bytes that stand at a position of a text, and bytes written behind others. */
module Buffers {
  import opened Bytes

  // The bytes s stand at p.
  predicate Holds(text: seq<byte>, p: nat, s: seq<byte>) {
    p + |s| <= |text| && text[p..p + |s|] == s
  }

  lemma HoldsParts(text: seq<byte>, p: nat, a: seq<byte>, b: seq<byte>)
    requires Holds(text, p, a + b)
    ensures Holds(text, p, a) && Holds(text, p + |a|, b)
  {
    var s := text[p..p + |a| + |b|];
    assert s[..|a|] == text[p..p + |a|] && s[|a|..] == text[p + |a|..p + |a| + |b|];
  }

  lemma HoldsByte(text: seq<byte>, p: nat, s: seq<byte>, k: nat)
    requires Holds(text, p, s) && k < |s|
    ensures p + k < |text| && text[p + k] == s[k]
  {
    assert text[p..p + |s|][k] == text[p + k];
  }

  lemma HoldsInside(text: seq<byte>, p: nat, s: seq<byte>)
    requires Holds(text, p, s)
    ensures p + |s| <= |text|
  {
  }

  lemma Appended(a: seq<byte>, b: seq<byte>, c: seq<byte>)
    ensures (a + b) + c == a + (b + c)
  {
  }

  lemma Prefix(s: seq<byte>, k: nat, n: nat)
    requires k <= n <= |s|
    ensures s[..n][..k] == s[..k]
  {
  }

  method Write(buf: array<byte>, p: nat, s: seq<byte>)
    requires p + |s| <= buf.Length
    modifies buf
    ensures buf[..p + |s|] == old(buf[..p]) + s
  {
    forall k | 0 <= k < |s| { buf[p + k] := s[k]; }
  }
}
