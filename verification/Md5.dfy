/** MD5 as a stream (md5.c, little-endian configuration).

    `Context` buffers the message in blocks of 64 bytes and counts its bits in two 32-bit words.  The
    block transform is a parameter: what is proved is that feeding the message in any pieces gives the
    digest of the padded whole (sections 3.1 to 3.5 of RFC 1321). */
module Md5 {
  import opened Bytes

  const BLOCK := 64

  datatype Words = Words(a: uint32, b: uint32, c: uint32, d: uint32)

  // Section 3.3: the initial buffer.
  const INITIAL := Words(0x67452301, 0xefcdab89, 0x98badcfe, 0x10325476)

  type Transform = (Words, seq<byte>) -> Words

  // Section 3.5: the output, low-order byte of each word first.
  function Output(w: Words): (s: seq<byte>)
    ensures |s| == 16
  {
    LittleEndian32(w.a) + LittleEndian32(w.b) + LittleEndian32(w.c) + LittleEndian32(w.d)
  }

  // ----- the digest of a whole message -----

  // Section 3.4: process the message in 16-word blocks.
  function Fold(f: Transform, w: Words, data: seq<byte>): Words
    requires |data| % BLOCK == 0
    decreases |data|
  {
    if data == [] then w else Fold(f, f(w, data[..BLOCK]), data[BLOCK..])
  }

  // Section 3.1: one bit, then zero bits until the length is 56 modulo 64 bytes.
  function PadLength(n: nat): (k: nat)
    ensures (n + 1 + k) % BLOCK == 56 && k < BLOCK
  {
    (119 - n % BLOCK) % BLOCK
  }

  // Section 3.2: the length in bits modulo 2^64, low-order word first.
  function LengthWords(n: nat): (s: seq<byte>)
    ensures |s| == 8
  {
    LittleEndian32((8 * n) % TWO_32) + LittleEndian32((8 * n) / TWO_32 % TWO_32)
  }

  lemma PaddedLength(n: nat)
    ensures (n + 1 + PadLength(n) + 8) % BLOCK == 0
  {
    var k := n + 1 + PadLength(n);
    assert k == BLOCK * (k / BLOCK) + 56;
    hide PadLength;
    Multiple(k / BLOCK + 1);
  }

  lemma Multiple(k: nat)
    ensures (BLOCK * k) % BLOCK == 0
  {
  }

  function Padded(message: seq<byte>): (s: seq<byte>)
    ensures |s| % BLOCK == 0
  {
    PaddedLength(|message|);
    message + [0x80] + Zeros(PadLength(|message|)) + LengthWords(|message|)
  }

  function Digest(f: Transform, message: seq<byte>): seq<byte> {
    Output(Fold(f, INITIAL, Padded(message)))
  }

  lemma {:induction false} FoldAppend(f: Transform, w: Words, a: seq<byte>, b: seq<byte>)
    requires |a| % BLOCK == 0 && |b| % BLOCK == 0
    ensures (|a| + |b|) % BLOCK == 0
    ensures Fold(f, w, a + b) == Fold(f, Fold(f, w, a), b)
    decreases |a|
  {
    if a == [] {
      assert a + b == b;
    } else {
      assert (a + b)[..BLOCK] == a[..BLOCK];
      assert (a + b)[BLOCK..] == a[BLOCK..] + b;
      FoldAppend(f, f(w, a[..BLOCK]), a[BLOCK..], b);
    }
  }

  lemma FoldBlock(f: Transform, w: Words, a: seq<byte>, block: seq<byte>)
    requires |a| % BLOCK == 0 && |block| == BLOCK
    ensures (|a| + |block|) % BLOCK == 0
    ensures Fold(f, w, a + block) == f(Fold(f, w, a), block)
  {
    FoldAppend(f, w, a, block);
    assert block[..BLOCK] == block && block[BLOCK..] == [];
  }

  // ----- the counters -----

  ghost predicate Counts(low: uint32, high: uint32, n: nat) {
    low + TWO_32 * high == (8 * n) % TWO_64
  }

  lemma Split32(x: nat, high: nat, low: nat)
    requires x == TWO_32 * high + low && low < TWO_32
    ensures x / TWO_32 == high && x % TWO_32 == low
  {
  }

  lemma SameModBlock(x: nat, k: nat, y: nat)
    requires x == BLOCK * k + y
    ensures x % BLOCK == y % BLOCK
  {
  }

  lemma CountsWords(low: uint32, high: uint32, n: nat)
    requires Counts(low, high, n)
    ensures low == (8 * n) % TWO_32 && high == (8 * n) / TWO_32 % TWO_32
    ensures low / 8 % BLOCK == n % BLOCK
  {
    var q := (8 * n) / TWO_64;
    var y := TWO_32 * q + high;
    Split32(8 * n, y, low);
    Split32(y, q, high);
    assert low == 8 * (low / 8);
    SameModBlock(n, 0x80_0000 * y, low / 8);
  }

  // The new counters, computed with 32-bit wrap-around and a carry.
  function AddLow(low: uint32, len: uint32): uint32 {
    (low + (8 * len) % TWO_32) % TWO_32
  }

  function AddHigh(low: uint32, high: uint32, len: uint32): uint32 {
    var carried := if AddLow(low, len) < low then (high + 1) % TWO_32 else high;
    (carried + len / 0x2000_0000) % TWO_32
  }

  lemma Modulo64(x: nat, k: nat, y: nat)
    requires x == TWO_64 * k + y && y < TWO_64
    ensures x % TWO_64 == y
  {
  }

  lemma AddLowCarries(low: uint32, len: uint32) returns (carry: nat)
    ensures carry == if AddLow(low, len) < low then 1 else 0
    ensures low + 8 * len == AddLow(low, len) + TWO_32 * (carry + len / 0x2000_0000)
  {
    carry := if AddLow(low, len) < low then 1 else 0;
    assert 8 * len == TWO_32 * (len / 0x2000_0000) + (8 * len) % TWO_32;
  }

  lemma AddCounts(low: uint32, high: uint32, n: nat, len: uint32)
    requires Counts(low, high, n)
    ensures Counts(AddLow(low, len), AddHigh(low, high, len), n + len)
  {
    var q := (8 * n) / TWO_64;
    assert 8 * n == TWO_64 * q + low + TWO_32 * high;
    var carry := AddLowCarries(low, len);
    var low', high' := AddLow(low, len), AddHigh(low, high, len);
    hide AddLow, AddHigh;
    var sum := high + carry + len / 0x2000_0000;
    assert high' == sum % TWO_32 by { AddHighWraps(low, high, len, carry); }
    var w := sum / TWO_32;
    assert sum == TWO_32 * w + high';
    Modulo64(8 * (n + len), q + w, low' + TWO_32 * high');
  }

  lemma AddHighWraps(low: uint32, high: uint32, len: uint32, carry: nat)
    requires carry == if AddLow(low, len) < low then 1 else 0
    ensures AddHigh(low, high, len) == (high + carry + len / 0x2000_0000) % TWO_32
  {
    hide AddLow;
  }

  // ----- the stream -----

  class Context {
    const transform: Transform
    var buf: Words
    var bits0: uint32
    var bits1: uint32
    const input: array<byte>
    ghost var fed: seq<byte>   // everything given to Update since the context was initialised

    // The buffered bytes are the part of the message not yet transformed.
    ghost predicate Valid()
      reads this, input
    {
      var t := |fed| % BLOCK;
      && input.Length == BLOCK
      && Counts(bits0, bits1, |fed|)
      && input[..t] == fed[|fed| - t..]
      && buf == Fold(transform, INITIAL, fed[..|fed| - t])
    }

    constructor (f: Transform)
      ensures Valid() && fed == [] && transform == f && fresh(input)
    {
      transform := f;
      buf := INITIAL;
      bits0, bits1 := 0, 0;
      input := new byte[BLOCK](_ => 0);
      fed := [];
    }

    // pj_memcpy into the context's block buffer.
    method Copy(at: nat, data: seq<byte>)
      requires at + |data| <= input.Length
      modifies input
      ensures input[..at + |data|] == old(input[..at]) + data
      ensures input[at + |data|..] == old(input[at + |data|..])
    {
      for i := 0 to |data|
        invariant input[..at] == old(input[..at])
        invariant input[at..at + i] == data[..i]
        invariant input[at + i..] == old(input[at + i..])
      {
        input[at + i] := data[i];
        assert input[at..at + i + 1] == input[at..at + i] + [data[i]];
        assert input[at + i + 1..] == input[at + i..][1..];
      }
    }

    // Complete the buffered block with `piece` and transform it.
    method TransformWith(at: nat, piece: seq<byte>, ghost before: seq<byte>, ghost after: seq<byte>)
      requires input.Length == BLOCK == at + |piece|
      requires |before| % BLOCK == 0 && buf == Fold(transform, INITIAL, before)
      requires after == before + input[..at] + piece
      modifies `buf, input
      ensures |after| % BLOCK == 0 && buf == Fold(transform, INITIAL, after)
    {
      ghost var block := input[..at] + piece;
      Copy(at, piece);
      assert input[..] == input[..BLOCK] == block;
      assert after == before + block;
      FoldBlock(transform, INITIAL, before, block);
      buf := transform(buf, input[..]);
    }

    method TransformBlocks(data: seq<byte>, start: nat, ghost base: seq<byte>) returns (pos: nat)
      requires start <= |data| && input.Length == BLOCK
      requires |base + data[..start]| % BLOCK == 0 && buf == Fold(transform, INITIAL, base + data[..start])
      modifies `buf, input
      ensures start <= pos <= |data| && |data| - pos < BLOCK
      ensures |base + data[..pos]| % BLOCK == 0 && buf == Fold(transform, INITIAL, base + data[..pos])
    {
      pos := start;
      while |data| - pos >= 64
        invariant start <= pos <= |data|
        invariant |base + data[..pos]| % BLOCK == 0 && buf == Fold(transform, INITIAL, base + data[..pos])
      {
        var next := pos + 64;
        ghost var before, after := base + data[..pos], base + data[..next];
        assert after == before + input[..0] + data[pos..next];
        TransformWith(0, data[pos..next], before, after);
        pos := next;
      }
    }

    method CountBits(len: uint32, ghost n: nat)
      requires Counts(bits0, bits1, n)
      modifies `bits0, `bits1
      ensures Counts(bits0, bits1, n + len)
    {
      AddCounts(bits0, bits1, n, len);
      var t := bits0;
      bits0 := (t + (8 * len) % TWO_32) % TWO_32;
      if bits0 < t { bits1 := (bits1 + 1) % TWO_32; }
      bits1 := (bits1 + len / 0x2000_0000) % TWO_32;
    }

    // How many bytes the buffer holds, from the bit counter; `whole` is what has been transformed.
    method Pending() returns (t: nat, ghost whole: seq<byte>)
      requires Valid()
      ensures t < BLOCK && |whole| % BLOCK == 0 && fed == whole + input[..t]
      ensures buf == Fold(transform, INITIAL, whole)
    {
      CountsWords(bits0, bits1, |fed|);
      t := bits0 / 8 % 64;
      whole := fed[..|fed| - t];
    }

    method Update(data: seq<byte>)
      requires Valid() && |data| < TWO_32
      modifies this, input
      ensures Valid() && fed == old(fed) + data
    {
      hide Fold, Counts;
      var t, whole := Pending();
      CountBits(|data|, |fed|);
      fed := fed + data;
      Absorb(t, data, whole);
    }

    method Absorb(t: nat, data: seq<byte>, ghost whole: seq<byte>)
      requires input.Length == BLOCK && t < BLOCK && |whole| % BLOCK == 0
      requires buf == Fold(transform, INITIAL, whole)
      requires fed == whole + input[..t] + data && Counts(bits0, bits1, |fed|)
      modifies `buf, input
      ensures Valid()
    {
      hide Fold, Counts;
      ghost var base := whole + input[..t];
      // Handle any leading odd-sized chunk.
      if t == 0 {
        assert base + data[..0] == whole;
        UpdateRest(data, 0, base);
      } else if |data| < 64 - t {
        Copy(t, data);
        Buffered(fed, whole, t + |data|);
      } else {
        var pos := 64 - t;
        assert base + data[..pos] == whole + input[..t] + data[..pos];
        TransformWith(t, data[..pos], whole, base + data[..pos]);
        UpdateRest(data, pos, base);
      }
    }

    // Process data in 64-byte chunks, and keep any remaining bytes.
    method UpdateRest(data: seq<byte>, start: nat, ghost base: seq<byte>)
      requires start <= |data| && input.Length == BLOCK
      requires |base + data[..start]| % BLOCK == 0 && buf == Fold(transform, INITIAL, base + data[..start])
      requires fed == base + data && Counts(bits0, bits1, |fed|)
      modifies `buf, input
      ensures Valid()
    {
      var pos := TransformBlocks(data, start, base);
      Copy(0, data[pos..]);
      assert fed == base + data[..pos] + data[pos..];
      assert input[..|data| - pos] == data[pos..];
      Buffered(fed, base + data[..pos], |data| - pos);
    }

    // The buffer holds what follows the transformed part.
    lemma Buffered(all: seq<byte>, whole: seq<byte>, t: nat)
      requires input.Length == BLOCK && t < BLOCK
      requires |whole| % BLOCK == 0 && all == whole + input[..t]
      ensures |all| % BLOCK == t && input[..t] == all[|all| - t..] && all[..|all| - t] == whole
    {
    }

    // Zero the buffer from `from` up to `to`.
    method Clear(from: nat, to: nat)
      requires from <= to <= input.Length
      modifies input
      ensures input[..to] == old(input[..from]) + Zeros(to - from)
      ensures input[to..] == old(input[to..])
    {
      Copy(from, Zeros(to - from));
    }

    // Append the padding, leaving the last block filled up to 56 bytes.
    method Pad(count: nat, ghost whole: seq<byte>) returns (ghost whole': seq<byte>)
      requires input.Length == BLOCK && count < BLOCK
      requires |whole| % BLOCK == 0 && buf == Fold(transform, INITIAL, whole)
      modifies `buf, input
      ensures |whole'| % BLOCK == 0 && buf == Fold(transform, INITIAL, whole')
      ensures whole' + input[..56]
              == whole + old(input[..count]) + [0x80] + Zeros(PadLength(|whole| + count))
    {
      hide Fold, PadLength, Zeros;
      PaddingFits(|whole| + count);
      SameModBlock(|whole| + count, |whole| / BLOCK, count);
      // Set the first char of padding to 0x80.
      Copy(count, [0x80]);
      var left := 64 - 1 - count;
      whole' := whole;
      if left < 8 {
        // Two lots of padding: pad the first block to 64 bytes, and fill the next with 56.
        Clear(count + 1, 64);
        assert input[..] == input[..64];
        TransformBuffered(whole);
        whole' := whole + input[..];
        Clear(0, 56);
        ZerosAppend(left, 56);
      } else {
        Clear(count + 1, 56);
      }
    }

    method Final() returns (digest: seq<byte>)
      requires Valid()
      modifies this, input
      ensures digest == Digest(transform, old(fed))
    {
      hide Fold, Counts, LengthWords, LittleEndian32, Output, PadLength, Zeros;
      ghost var n := |fed|;
      var count, whole := Pending();
      CountsWords(bits0, bits1, n);
      whole := Pad(count, whole);
      AppendLength(n, whole);
      assert whole + input[..] == Padded(fed);
      TransformBuffered(whole);
      digest := Output(buf);
      buf, bits0, bits1 := Words(0, 0, 0, 0), 0, 0;
      Clear(0, 64);
    }

    // Append the length in bits.
    method AppendLength(ghost n: nat, ghost whole: seq<byte>)
      requires input.Length == BLOCK
      requires bits0 == (8 * n) % TWO_32 && bits1 == (8 * n) / TWO_32 % TWO_32
      modifies input
      ensures whole + input[..] == whole + old(input[..56]) + LengthWords(n)
    {
      hide LittleEndian32;
      Copy(56, LittleEndian32(bits0) + LittleEndian32(bits1));
      assert input[..] == input[..64];
    }

    method TransformBuffered(ghost whole: seq<byte>)
      requires input.Length == BLOCK
      requires |whole| % BLOCK == 0 && buf == Fold(transform, INITIAL, whole)
      modifies `buf
      ensures |whole + input[..]| % BLOCK == 0 && buf == Fold(transform, INITIAL, whole + input[..])
    {
      FoldBlock(transform, INITIAL, whole, input[..]);
      buf := transform(buf, input[..]);
    }
  }

  lemma ZerosAppend(a: nat, b: nat)
    ensures Zeros(a) + Zeros(b) == Zeros(a + b)
  {
  }

  lemma PaddingFits(n: nat)
    ensures var left := 63 - n % BLOCK;
            PadLength(n) == if left < 8 then left + 56 else left - 8
  {
  }

  // ----- the standard -----

  // The low-order byte first.
  lemma WordBytes(w: uint32)
    ensures var s := LittleEndian32(w);
            s[0] as int + 256 * s[1] as int + 65536 * s[2] as int + 16777216 * s[3] as int == w
  {
  }

  // Section 3.3 of RFC 1321: the bytes of the four words to start with.
  lemma InitialBytes()
    ensures Output(INITIAL) == [0x01, 0x23, 0x45, 0x67, 0x89, 0xab, 0xcd, 0xef, 0xfe, 0xdc, 0xba, 0x98, 0x76, 0x54, 0x32, 0x10]
  {
  }

  // Sections 3.1 and 3.2 of RFC 1321: behind the message stand a byte of 128, as few zero bytes as make the length eight
  // less than a multiple of 64, and the number of bits in eight bytes.
  lemma PaddingLaw(message: seq<byte>)
    ensures var s, n := Padded(message), |message|;
            && |s| % 64 == 0 && n + 9 <= |s| < n + 9 + 64 && s[..n] == message && s[n] == 128
            && (forall i :: n < i < |s| - 8 ==> s[i] == 0) && s[|s| - 8..] == LengthWords(n)
  {
    hide LengthWords;
  }

  lemma LengthLaw(n: nat)
    ensures var low, high := (8 * n) % 4294967296, (8 * n) / 4294967296 % 4294967296;
            LengthWords(n) == LittleEndian32(low) + LittleEndian32(high)
            && low + 4294967296 * high == (8 * n) % 18446744073709551616
  {
    hide LittleEndian32;
    var x := 8 * n;
    var q := x / 18446744073709551616;
    var y := x % 18446744073709551616;
    Split32(x, q * 4294967296 + y / 4294967296, y % 4294967296);
    Split32(q * 4294967296 + y / 4294967296, q, y / 4294967296);
  }
  // Feeding a message in any sequence of update calls gives the digest of the whole.
  method DigestOfPieces(f: Transform, pieces: seq<seq<byte>>) returns (digest: seq<byte>)
    requires forall i :: 0 <= i < |pieces| ==> |pieces[i]| < TWO_32
    ensures digest == Digest(f, Concat(pieces))
  {
    var ctx := new Context(f);
    assert pieces[..0] == [];
    for i := 0 to |pieces|
      invariant fresh(ctx) && fresh(ctx.input) && ctx.Valid() && ctx.fed == Concat(pieces[..i])
    {
      assert pieces[..i + 1] == pieces[..i] + [pieces[i]];
      ConcatAppend(pieces[..i], pieces[i]);
      ctx.Update(pieces[i]);
    }
    assert pieces[..|pieces|] == pieces;
    digest := ctx.Final();
  }
}
