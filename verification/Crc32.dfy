/** CRC-32 (crc32.c, little-endian configuration).

    `TableContext` is the table-driven form: single bytes up to a word boundary, whole words, then the
    remaining bytes.  `BitContext` is the bit-by-bit form the file falls back to without tables.
    `Crc` is the bit-by-bit step folded over a byte sequence; both forms are proved against it, for
    every address the data may start at and every division of the data into update calls. */
module Crc32 {
  import opened Bytes

  const NEGL: bv32 := 0xffffffff

  // crc_tab, as sixteen rows of sixteen entries.
  function Row0(i: bv8): bv32 {
    match i
    case 0 => 0x00000000
    case 1 => 0x77073096
    case 2 => 0xee0e612c
    case 3 => 0x990951ba
    case 4 => 0x076dc419
    case 5 => 0x706af48f
    case 6 => 0xe963a535
    case 7 => 0x9e6495a3
    case 8 => 0x0edb8832
    case 9 => 0x79dcb8a4
    case 10 => 0xe0d5e91e
    case 11 => 0x97d2d988
    case 12 => 0x09b64c2b
    case 13 => 0x7eb17cbd
    case 14 => 0xe7b82d07
    case _ => 0x90bf1d91
  }

  function Row1(i: bv8): bv32 {
    match i
    case 0 => 0x1db71064
    case 1 => 0x6ab020f2
    case 2 => 0xf3b97148
    case 3 => 0x84be41de
    case 4 => 0x1adad47d
    case 5 => 0x6ddde4eb
    case 6 => 0xf4d4b551
    case 7 => 0x83d385c7
    case 8 => 0x136c9856
    case 9 => 0x646ba8c0
    case 10 => 0xfd62f97a
    case 11 => 0x8a65c9ec
    case 12 => 0x14015c4f
    case 13 => 0x63066cd9
    case 14 => 0xfa0f3d63
    case _ => 0x8d080df5
  }

  function Row2(i: bv8): bv32 {
    match i
    case 0 => 0x3b6e20c8
    case 1 => 0x4c69105e
    case 2 => 0xd56041e4
    case 3 => 0xa2677172
    case 4 => 0x3c03e4d1
    case 5 => 0x4b04d447
    case 6 => 0xd20d85fd
    case 7 => 0xa50ab56b
    case 8 => 0x35b5a8fa
    case 9 => 0x42b2986c
    case 10 => 0xdbbbc9d6
    case 11 => 0xacbcf940
    case 12 => 0x32d86ce3
    case 13 => 0x45df5c75
    case 14 => 0xdcd60dcf
    case _ => 0xabd13d59
  }

  function Row3(i: bv8): bv32 {
    match i
    case 0 => 0x26d930ac
    case 1 => 0x51de003a
    case 2 => 0xc8d75180
    case 3 => 0xbfd06116
    case 4 => 0x21b4f4b5
    case 5 => 0x56b3c423
    case 6 => 0xcfba9599
    case 7 => 0xb8bda50f
    case 8 => 0x2802b89e
    case 9 => 0x5f058808
    case 10 => 0xc60cd9b2
    case 11 => 0xb10be924
    case 12 => 0x2f6f7c87
    case 13 => 0x58684c11
    case 14 => 0xc1611dab
    case _ => 0xb6662d3d
  }

  function Row4(i: bv8): bv32 {
    match i
    case 0 => 0x76dc4190
    case 1 => 0x01db7106
    case 2 => 0x98d220bc
    case 3 => 0xefd5102a
    case 4 => 0x71b18589
    case 5 => 0x06b6b51f
    case 6 => 0x9fbfe4a5
    case 7 => 0xe8b8d433
    case 8 => 0x7807c9a2
    case 9 => 0x0f00f934
    case 10 => 0x9609a88e
    case 11 => 0xe10e9818
    case 12 => 0x7f6a0dbb
    case 13 => 0x086d3d2d
    case 14 => 0x91646c97
    case _ => 0xe6635c01
  }

  function Row5(i: bv8): bv32 {
    match i
    case 0 => 0x6b6b51f4
    case 1 => 0x1c6c6162
    case 2 => 0x856530d8
    case 3 => 0xf262004e
    case 4 => 0x6c0695ed
    case 5 => 0x1b01a57b
    case 6 => 0x8208f4c1
    case 7 => 0xf50fc457
    case 8 => 0x65b0d9c6
    case 9 => 0x12b7e950
    case 10 => 0x8bbeb8ea
    case 11 => 0xfcb9887c
    case 12 => 0x62dd1ddf
    case 13 => 0x15da2d49
    case 14 => 0x8cd37cf3
    case _ => 0xfbd44c65
  }

  function Row6(i: bv8): bv32 {
    match i
    case 0 => 0x4db26158
    case 1 => 0x3ab551ce
    case 2 => 0xa3bc0074
    case 3 => 0xd4bb30e2
    case 4 => 0x4adfa541
    case 5 => 0x3dd895d7
    case 6 => 0xa4d1c46d
    case 7 => 0xd3d6f4fb
    case 8 => 0x4369e96a
    case 9 => 0x346ed9fc
    case 10 => 0xad678846
    case 11 => 0xda60b8d0
    case 12 => 0x44042d73
    case 13 => 0x33031de5
    case 14 => 0xaa0a4c5f
    case _ => 0xdd0d7cc9
  }

  function Row7(i: bv8): bv32 {
    match i
    case 0 => 0x5005713c
    case 1 => 0x270241aa
    case 2 => 0xbe0b1010
    case 3 => 0xc90c2086
    case 4 => 0x5768b525
    case 5 => 0x206f85b3
    case 6 => 0xb966d409
    case 7 => 0xce61e49f
    case 8 => 0x5edef90e
    case 9 => 0x29d9c998
    case 10 => 0xb0d09822
    case 11 => 0xc7d7a8b4
    case 12 => 0x59b33d17
    case 13 => 0x2eb40d81
    case 14 => 0xb7bd5c3b
    case _ => 0xc0ba6cad
  }

  function Row8(i: bv8): bv32 {
    match i
    case 0 => 0xedb88320
    case 1 => 0x9abfb3b6
    case 2 => 0x03b6e20c
    case 3 => 0x74b1d29a
    case 4 => 0xead54739
    case 5 => 0x9dd277af
    case 6 => 0x04db2615
    case 7 => 0x73dc1683
    case 8 => 0xe3630b12
    case 9 => 0x94643b84
    case 10 => 0x0d6d6a3e
    case 11 => 0x7a6a5aa8
    case 12 => 0xe40ecf0b
    case 13 => 0x9309ff9d
    case 14 => 0x0a00ae27
    case _ => 0x7d079eb1
  }

  function Row9(i: bv8): bv32 {
    match i
    case 0 => 0xf00f9344
    case 1 => 0x8708a3d2
    case 2 => 0x1e01f268
    case 3 => 0x6906c2fe
    case 4 => 0xf762575d
    case 5 => 0x806567cb
    case 6 => 0x196c3671
    case 7 => 0x6e6b06e7
    case 8 => 0xfed41b76
    case 9 => 0x89d32be0
    case 10 => 0x10da7a5a
    case 11 => 0x67dd4acc
    case 12 => 0xf9b9df6f
    case 13 => 0x8ebeeff9
    case 14 => 0x17b7be43
    case _ => 0x60b08ed5
  }

  function RowA(i: bv8): bv32 {
    match i
    case 0 => 0xd6d6a3e8
    case 1 => 0xa1d1937e
    case 2 => 0x38d8c2c4
    case 3 => 0x4fdff252
    case 4 => 0xd1bb67f1
    case 5 => 0xa6bc5767
    case 6 => 0x3fb506dd
    case 7 => 0x48b2364b
    case 8 => 0xd80d2bda
    case 9 => 0xaf0a1b4c
    case 10 => 0x36034af6
    case 11 => 0x41047a60
    case 12 => 0xdf60efc3
    case 13 => 0xa867df55
    case 14 => 0x316e8eef
    case _ => 0x4669be79
  }

  function RowB(i: bv8): bv32 {
    match i
    case 0 => 0xcb61b38c
    case 1 => 0xbc66831a
    case 2 => 0x256fd2a0
    case 3 => 0x5268e236
    case 4 => 0xcc0c7795
    case 5 => 0xbb0b4703
    case 6 => 0x220216b9
    case 7 => 0x5505262f
    case 8 => 0xc5ba3bbe
    case 9 => 0xb2bd0b28
    case 10 => 0x2bb45a92
    case 11 => 0x5cb36a04
    case 12 => 0xc2d7ffa7
    case 13 => 0xb5d0cf31
    case 14 => 0x2cd99e8b
    case _ => 0x5bdeae1d
  }

  function RowC(i: bv8): bv32 {
    match i
    case 0 => 0x9b64c2b0
    case 1 => 0xec63f226
    case 2 => 0x756aa39c
    case 3 => 0x026d930a
    case 4 => 0x9c0906a9
    case 5 => 0xeb0e363f
    case 6 => 0x72076785
    case 7 => 0x05005713
    case 8 => 0x95bf4a82
    case 9 => 0xe2b87a14
    case 10 => 0x7bb12bae
    case 11 => 0x0cb61b38
    case 12 => 0x92d28e9b
    case 13 => 0xe5d5be0d
    case 14 => 0x7cdcefb7
    case _ => 0x0bdbdf21
  }

  function RowD(i: bv8): bv32 {
    match i
    case 0 => 0x86d3d2d4
    case 1 => 0xf1d4e242
    case 2 => 0x68ddb3f8
    case 3 => 0x1fda836e
    case 4 => 0x81be16cd
    case 5 => 0xf6b9265b
    case 6 => 0x6fb077e1
    case 7 => 0x18b74777
    case 8 => 0x88085ae6
    case 9 => 0xff0f6a70
    case 10 => 0x66063bca
    case 11 => 0x11010b5c
    case 12 => 0x8f659eff
    case 13 => 0xf862ae69
    case 14 => 0x616bffd3
    case _ => 0x166ccf45
  }

  function RowE(i: bv8): bv32 {
    match i
    case 0 => 0xa00ae278
    case 1 => 0xd70dd2ee
    case 2 => 0x4e048354
    case 3 => 0x3903b3c2
    case 4 => 0xa7672661
    case 5 => 0xd06016f7
    case 6 => 0x4969474d
    case 7 => 0x3e6e77db
    case 8 => 0xaed16a4a
    case 9 => 0xd9d65adc
    case 10 => 0x40df0b66
    case 11 => 0x37d83bf0
    case 12 => 0xa9bcae53
    case 13 => 0xdebb9ec5
    case 14 => 0x47b2cf7f
    case _ => 0x30b5ffe9
  }

  function RowF(i: bv8): bv32 {
    match i
    case 0 => 0xbdbdf21c
    case 1 => 0xcabac28a
    case 2 => 0x53b39330
    case 3 => 0x24b4a3a6
    case 4 => 0xbad03605
    case 5 => 0xcdd70693
    case 6 => 0x54de5729
    case 7 => 0x23d967bf
    case 8 => 0xb3667a2e
    case 9 => 0xc4614ab8
    case 10 => 0x5d681b02
    case 11 => 0x2a6f2b94
    case 12 => 0xb40bbe37
    case 13 => 0xc30c8ea1
    case 14 => 0x5a05df1b
    case _ => 0x2d02ef8d
  }

  function Table(c: bv32): bv32 {
    var row, i := ((c >> 4) & 0xf) as bv8, (c & 0xf) as bv8;
    match row
    case 0 => Row0(i)
    case 1 => Row1(i)
    case 2 => Row2(i)
    case 3 => Row3(i)
    case 4 => Row4(i)
    case 5 => Row5(i)
    case 6 => Row6(i)
    case 7 => Row7(i)
    case 8 => Row8(i)
    case 9 => Row9(i)
    case 10 => RowA(i)
    case 11 => RowB(i)
    case 12 => RowC(i)
    case 13 => RowD(i)
    case 14 => RowE(i)
    case _ => RowF(i)
  }

  // CRC32_INDEX and CRC32_SHIFTED.
  function Low(c: bv32): bv32 { c & 0xff }

  function High(c: bv32): bv32 { c >> 8 }

  // Exclusive or, named so that proofs can leave it closed.
  function Xor(a: bv32, b: bv32): bv32 { a ^ b }

  // ----- the bit-by-bit reference -----

  function ShiftBit(c: bv32): bv32 {
    if c & 1 == 1 then (c >> 1) ^ 0xEDB88320 else c >> 1
  }

  function ShiftBits(c: bv32, n: nat): bv32
    decreases n
  {
    if n == 0 then c else ShiftBits(ShiftBit(c), n - 1)
  }

  // What eight shifts make of one byte.
  function Entry(c: bv32): bv32 {
    ShiftBits(c, 8)
  }

  function ByteStep(crc: bv32, octet: bv8): bv32 {
    Xor(Entry(Xor(Low(crc), octet as bv32)), High(crc))
  }

  function Crc(crc: bv32, data: seq<bv8>): bv32
    decreases |data|
  {
    if data == [] then crc else Crc(ByteStep(crc, data[0]), data[1..])
  }

  lemma {:induction false} CrcAppend(crc: bv32, a: seq<bv8>, b: seq<bv8>)
    ensures Crc(crc, a + b) == Crc(Crc(crc, a), b)
    decreases |a|
  {
    hide ByteStep;
    if a == [] {
      assert a + b == b;
    } else {
      assert (a + b)[1..] == a[1..] + b;
      CrcAppend(ByteStep(crc, a[0]), a[1..], b);
    }
  }

  lemma CrcOfNothing(crc: bv32, data: seq<bv8>)
    requires data == []
    ensures Crc(crc, data) == crc
  {
  }

  lemma CrcNext(crc: bv32, data: seq<bv8>, i: nat)
    requires i < |data|
    ensures Crc(crc, data[..i + 1]) == ByteStep(Crc(crc, data[..i]), data[i])
  {
    hide ByteStep;
    assert data[..i + 1] == data[..i] + [data[i]];
    CrcAppend(crc, data[..i], [data[i]]);
    assert [data[i]][1..] == [];
  }

  // ----- the table -----

  function ShiftByte(c: bv32): bv32 {
    ShiftBit(ShiftBit(ShiftBit(ShiftBit(ShiftBit(ShiftBit(ShiftBit(ShiftBit(c))))))))
  }

  lemma EntryIsShiftByte(c: bv32)
    ensures Entry(c) == ShiftByte(c)
  {
    var c1 := ShiftBit(c);
    var c2 := ShiftBit(c1);
    var c3 := ShiftBit(c2);
    var c4 := ShiftBit(c3);
    assert ShiftBits(c4, 4) == ShiftBit(ShiftBit(ShiftBit(ShiftBit(c4)))) by {
      assert ShiftBits(ShiftBit(ShiftBit(c4)), 2) == ShiftBit(ShiftBit(ShiftBit(ShiftBit(c4))));
    }
    assert ShiftBits(c2, 6) == ShiftBits(c4, 4);
  }

  lemma TableIsShiftByte(c: bv32)
    requires c < 0x100
    ensures Table(c) == ShiftByte(c)
  {
  }

  // Every entry of the table is its index shifted through the polynomial eight times.
  lemma TableIsEntry(c: bv32)
    requires c < 0x100
    ensures Table(c) == Entry(c)
  {
    hide *;
    TableIsShiftByte(c);
    EntryIsShiftByte(c);
  }

  function TableStep(c: bv32): bv32 {
    Xor(Table(Low(c)), High(c))
  }

  lemma LowByte(c: bv32, w: bv32, octet: bv8)
    requires Low(w) == octet as bv32
    ensures Low(Xor(c, w)) == Xor(Low(c), octet as bv32)
  {
  }

  lemma HighBytes(c: bv32, w: bv32)
    ensures High(Xor(c, w)) == Xor(High(c), High(w))
  {
  }

  lemma SmallIndex(c: bv32, octet: bv8)
    ensures Xor(Low(c), octet as bv32) < 0x100
  {
  }

  lemma XorAssociates(a: bv32, b: bv32, c: bv32)
    ensures Xor(a, Xor(b, c)) == Xor(Xor(a, b), c)
  {
  }

  lemma XorZero(a: bv32)
    ensures Xor(a, 0) == a
  {
  }

  lemma Negated(a: bv32)
    ensures Xor(Xor(a, NEGL), NEGL) == a
  {
  }

  // One table step takes in the lowest byte of whatever was xor-ed into the register.
  lemma TableStepAbsorbs(crc: bv32, w: bv32, octet: bv8)
    requires Low(w) == octet as bv32
    ensures TableStep(Xor(crc, w)) == Xor(ByteStep(crc, octet), High(w))
  {
    hide Table, Entry, Low, High, Xor;
    LowByte(crc, w, octet);
    HighBytes(crc, w);
    SmallIndex(crc, octet);
    TableIsEntry(Xor(Low(crc), octet as bv32));
    XorAssociates(Entry(Xor(Low(crc), octet as bv32)), High(crc), High(w));
  }

  // The little-endian word at the front of the data.
  function Word(b0: bv8, b1: bv8, b2: bv8, b3: bv8): bv32 {
    (b0 as bv32) | (b1 as bv32 << 8) | (b2 as bv32 << 16) | (b3 as bv32 << 24)
  }

  lemma WordBytes(b0: bv8, b1: bv8, b2: bv8, b3: bv8)
    ensures var w := Word(b0, b1, b2, b3);
            && Low(w) == b0 as bv32
            && Low(High(w)) == b1 as bv32
            && Low(High(High(w))) == b2 as bv32
            && Low(High(High(High(w)))) == b3 as bv32
            && High(High(High(High(w)))) == 0
  {
  }

  lemma WordStep(crc: bv32, b0: bv8, b1: bv8, b2: bv8, b3: bv8)
    ensures TableStep(TableStep(TableStep(TableStep(Xor(crc, Word(b0, b1, b2, b3))))))
            == ByteStep(ByteStep(ByteStep(ByteStep(crc, b0), b1), b2), b3)
  {
    hide *;
    WordBytes(b0, b1, b2, b3);
    var w := Word(b0, b1, b2, b3);
    var c1 := ByteStep(crc, b0);
    var c2 := ByteStep(c1, b1);
    var c3 := ByteStep(c2, b2);
    TableStepAbsorbs(crc, w, b0);
    TableStepAbsorbs(c1, High(w), b1);
    TableStepAbsorbs(c2, High(High(w)), b2);
    TableStepAbsorbs(c3, High(High(High(w))), b3);
    XorZero(ByteStep(c3, b3));
  }

  lemma TableByteStep(crc: bv32, octet: bv8)
    ensures Xor(Table(Xor(Low(crc), octet as bv32)), High(crc)) == ByteStep(crc, octet)
  {
    hide Table, Entry, Low, High, Xor;
    SmallIndex(crc, octet);
    TableIsEntry(Xor(Low(crc), octet as bv32));
  }

  // ----- the two implementations -----

  class TableContext {
    var crcState: bv32

    constructor ()
      ensures crcState == 0
    {
      crcState := 0;
    }

    method FeedByte(crc: bv32, octet: bv8) returns (r: bv32)
      ensures r == ByteStep(crc, octet)
    {
      TableByteStep(crc, octet);
      r := Xor(Table(Xor(Low(crc), octet as bv32)), High(crc));
    }

    method FeedWord(crc: bv32, b0: bv8, b1: bv8, b2: bv8, b3: bv8) returns (r: bv32)
      ensures r == ByteStep(ByteStep(ByteStep(ByteStep(crc, b0), b1), b2), b3)
    {
      hide *;
      WordStep(crc, b0, b1, b2, b3);
      r := Xor(crc, Word(b0, b1, b2, b3));
      r := TableStep(r);
      r := TableStep(r);
      r := TableStep(r);
      r := TableStep(r);
    }

    // `addr` is the address of data[0]; only its alignment matters.
    method Update(data: seq<bv8>, addr: nat) returns (r: bv32)
      modifies this
      ensures crcState == Xor(Crc(Xor(old(crcState), NEGL), data), NEGL) && r == crcState
    {
      hide *;
      var crc := Xor(crcState, NEGL);
      ghost var start := crc;
      var pos := 0;
      assert Crc(start, data[..0]) == start by { CrcOfNothing(start, data[..0]); }

      while (addr + pos) % 4 != 0 && pos < |data|
        invariant 0 <= pos <= |data| && crc == Crc(start, data[..pos])
        decreases |data| - pos
      {
        CrcNext(start, data, pos);
        crc := FeedByte(crc, data[pos]);
        pos := pos + 1;
      }

      while |data| - pos >= 4
        invariant 0 <= pos <= |data| && crc == Crc(start, data[..pos])
      {
        CrcNext(start, data, pos);
        CrcNext(start, data, pos + 1);
        CrcNext(start, data, pos + 2);
        CrcNext(start, data, pos + 3);
        crc := FeedWord(crc, data[pos], data[pos + 1], data[pos + 2], data[pos + 3]);
        pos := pos + 4;
      }

      while pos < |data|
        invariant 0 <= pos <= |data| && crc == Crc(start, data[..pos])
      {
        CrcNext(start, data, pos);
        crc := FeedByte(crc, data[pos]);
        pos := pos + 1;
      }

      assert data[..pos] == data;
      crcState := Xor(crc, NEGL);
      r := crcState;
    }

    method Final() returns (r: bv32)
      ensures r == crcState
    {
      r := crcState;
    }
  }

  class BitContext {
    var crcState: bv32

    constructor ()
      ensures crcState == NEGL
    {
      crcState := NEGL;
    }

    method ShiftOut(c: bv32) returns (temp: bv32)
      ensures temp == Entry(c)
    {
      temp := c;
      for j := 0 to 8
        invariant ShiftBits(temp, 8 - j) == ShiftBits(c, 8)
      {
        temp := if temp & 0x1 == 1 then (temp >> 1) ^ 0xEDB88320 else temp >> 1;
      }
    }

    method FeedByte(crc: bv32, octet: bv8) returns (r: bv32)
      ensures r == ByteStep(crc, octet)
    {
      var temp := ShiftOut(Xor(Low(crc), octet as bv32));
      r := High(crc) ^ temp;
    }

    method Update(data: seq<bv8>) returns (r: bv32)
      modifies this
      ensures crcState == Crc(old(crcState), data) && r == Xor(crcState, NEGL)
    {
      hide *;
      var crc := crcState;
      ghost var start := crc;
      assert Crc(start, data[..0]) == start by { CrcOfNothing(start, data[..0]); }
      for i := 0 to |data|
        invariant crc == Crc(start, data[..i])
      {
        CrcNext(start, data, i);
        crc := FeedByte(crc, data[i]);
      }
      assert data[..|data|] == data;
      crcState := crc;
      r := Xor(crc, NEGL);
    }

    method Final() returns (r: bv32)
      modifies this
      ensures r == crcState == Xor(old(crcState), NEGL)
    {
      crcState := Xor(crcState, NEGL);
      r := crcState;
    }
  }

  // pj_crc32_calc's value.
  function Checksum(data: seq<bv8>): bv32 {
    Xor(Crc(NEGL, data), NEGL)
  }

  method Calculate(data: seq<bv8>, addr: nat) returns (r: bv32)
    ensures r == Checksum(data)
  {
    assert Xor(0, NEGL) == NEGL;
    var ctx := new TableContext();
    var _ := ctx.Update(data, addr);
    r := ctx.Final();
  }

  lemma CrcOfChunk(chunks: seq<seq<bv8>>, i: nat)
    requires i < |chunks|
    ensures Crc(NEGL, Concat(chunks[..i + 1])) == Crc(Crc(NEGL, Concat(chunks[..i])), chunks[i])
  {
    hide Crc;
    CrcAppend(NEGL, Concat(chunks[..i]), chunks[i]);
    ConcatAppend(chunks[..i], chunks[i]);
    assert chunks[..i + 1] == chunks[..i] + [chunks[i]];
  }

  // However the data is cut into update calls, and wherever each piece lies in memory, the table-driven
  // and the bit-by-bit contexts report the same value after every call, and end with the checksum of
  // the whole.
  method UpdateBoth(chunks: seq<seq<bv8>>, addrs: seq<nat>) returns (r: bv32, r': bv32)
    requires |addrs| == |chunks|
    ensures r == r' == Checksum(Concat(chunks))
  {
    var table := new TableContext();
    var bits := new BitContext();
    Start();
    assert chunks[..0] == [];
    hide Xor, Crc, Concat;
    for i := 0 to |chunks|
      invariant fresh(table) && fresh(bits)
      invariant bits.crcState == Crc(NEGL, Concat(chunks[..i]))
      invariant table.crcState == Xor(bits.crcState, NEGL)
    {
      CrcOfChunk(chunks, i);
      Negated(bits.crcState);
      r := table.Update(chunks[i], addrs[i]);
      r' := bits.Update(chunks[i]);
      assert r == r';
    }
    assert chunks[..|chunks|] == chunks;
    r := table.Final();
    r' := bits.Final();
  }

  lemma Start()
    ensures Crc(NEGL, Concat([])) == NEGL && Xor(NEGL, NEGL) == 0
  {
  }

  // ----- the standard -----

  lemma CheckStep(crc: bv32, octet: bv8, next: bv32, data: seq<bv8>, i: nat)
    requires i < |data| && data[i] == octet && Crc(0xffffffff, data[..i]) == crc
    requires Xor(Table(Xor(Low(crc), octet as bv32)), High(crc)) == next && Xor(Low(crc), octet as bv32) < 0x100
    ensures Crc(0xffffffff, data[..i + 1]) == next
  {
    hide *;
    TableIsEntry(Xor(Low(crc), octet as bv32));
    StepIs(crc, octet);
    CrcNext(0xffffffff, data, i);
  }

  lemma StepIs(crc: bv32, octet: bv8)
    ensures ByteStep(crc, octet) == Xor(Entry(Xor(Low(crc), octet as bv32)), High(crc))
  {
    hide Entry, Xor, Low, High;
  }

  // The check value of this polynomial: the checksum of the nine characters "123456789".
  lemma CheckValue()
    ensures Checksum([0x31, 0x32, 0x33, 0x34, 0x35, 0x36, 0x37, 0x38, 0x39]) == 0xcbf43926
  {
    hide Crc;
    var data: seq<bv8> := [0x31, 0x32, 0x33, 0x34, 0x35, 0x36, 0x37, 0x38, 0x39];
    assert data[..0] == [];
    CrcOfNothing(0xffffffff, data[..0]);
    CheckStep(0xffffffff, 0x31, 0x7c231048, data, 0);
    CheckStep(0x7c231048, 0x32, 0xb0acbb32, data, 1);
    CheckStep(0xb0acbb32, 0x33, 0x77b79c2d, data, 2);
    CheckStep(0x77b79c2d, 0x34, 0x641c1f5c, data, 3);
    CheckStep(0x641c1f5c, 0x35, 0x340ac5e3, data, 4);
    CheckStep(0x340ac5e3, 0x36, 0xf68d2c9e, data, 5);
    CheckStep(0xf68d2c9e, 0x37, 0xaffc9660, data, 6);
    CheckStep(0xaffc9660, 0x38, 0x651f2550, data, 7);
    CheckStep(0x651f2550, 0x39, 0x340bc6d9, data, 8);
    assert data[..9] == data;
  }
}
