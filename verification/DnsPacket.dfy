/** DNS packets (dns.h; section 4.1 of RFC 1035). */
module DnsPacket {
  import opened Bytes

  // A name as text: labels separated by dots.
  type Name = seq<byte>

  const DOT: byte := '.' as byte

  const TYPE_A: uint16 := 1
  const TYPE_NS: uint16 := 2
  const TYPE_CNAME: uint16 := 5
  const TYPE_PTR: uint16 := 12
  const TYPE_AAAA: uint16 := 28
  const TYPE_SRV: uint16 := 33
  const CLASS_IN: uint16 := 1

  datatype Rdata =
    | Address(address: seq<byte>)
    | Address6(address6: seq<byte>)
    | Alias(name: Name)
    | Service(priority: uint16, weight: uint16, port: uint16, target: Name)
    | Raw(data: seq<byte>)

  datatype Query = Query(name: Name, qtype: uint16, qclass: uint16)

  datatype Record = Record(name: Name, rtype: uint16, rclass: uint16, ttl: uint32, rdata: Rdata)

  // The section counts of the header are the lengths of the sections.
  datatype Packet = Packet(id: uint16, flags: uint16,
                           queries: seq<Query>,
                           answers: seq<Record>, authorities: seq<Record>, additional: seq<Record>)

  predicate HoldsName(rtype: uint16) {
    rtype == TYPE_CNAME || rtype == TYPE_NS || rtype == TYPE_PTR
  }

  const HEADER_SIZE: nat := 12

  // ----- integers in network byte order -----

  function Put16(v: uint16): (s: seq<byte>)
    ensures |s| == 2
  {
    [v / 0x100, v % 0x100]
  }

  function Get16(a: byte, b: byte): uint16 { a * 0x100 + b }

  function Put32(v: uint32): (s: seq<byte>)
    ensures |s| == 4
  {
    Put16(v / 0x1_0000) + Put16(v % 0x1_0000)
  }

  function Get32(a: byte, b: byte, c: byte, d: byte): uint32 {
    Get16(a, b) * 0x1_0000 + Get16(c, d)
  }

  lemma Get16OfPut16(v: uint16)
    ensures var s := Put16(v); Get16(s[0], s[1]) == v
  {
  }

  lemma Get32OfPut32(v: uint32)
    ensures var s := Put32(v); Get32(s[0], s[1], s[2], s[3]) == v
  {
    hide Put16, Get16;
    Get16OfPut16(v / 0x1_0000);
    Get16OfPut16(v % 0x1_0000);
  }
}
