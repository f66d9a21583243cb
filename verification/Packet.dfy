/** IPv4 header fields of a packet (shared/packet.go; section 3.1 of RFC 791). */
module Packet {
  import opened Words
  import opened Wrappers
  import opened Addresses

  datatype PacketError = PacketTooSmall | NotIPv4

  datatype IPv4Header = IPv4Header(
    version: uint8, ihl: uint8, totalLen: uint16, protocol: uint8, srcIP: IP, dstIP: IP)

  function ParseIPv4Header(pkt: seq<uint8>): Result<IPv4Header, PacketError> {
    if |pkt| < 20 then Err(PacketTooSmall)
    else
      var version := pkt[0] / 16; // pkt[0] >> 4
      if version != 4 then Err(NotIPv4)
      else
        Ok(IPv4Header(version, pkt[0] % 16, Uint16(pkt[2..4]), pkt[9], pkt[12..16], pkt[16..20]))
  }

  function DstIPFromPacket(pkt: seq<uint8>): Result<IP, PacketError> {
    if |pkt| < 20 then Err(PacketTooSmall)
    else if pkt[0] / 16 != 4 then Err(NotIPv4)
    else Ok(pkt[16..20])
  }

  function SrcIPFromPacket(pkt: seq<uint8>): Result<IP, PacketError> {
    if |pkt| < 20 then Err(PacketTooSmall)
    else if pkt[0] / 16 != 4 then Err(NotIPv4)
    else Ok(pkt[12..16])
  }

  function DstIPUint32(pkt: seq<uint8>): Result<uint32, PacketError> {
    if |pkt| < 20 then Err(PacketTooSmall)
    else if pkt[0] / 16 != 4 then Err(NotIPv4)
    else Ok(Uint32(pkt[16..20]))
  }

  function SrcIPUint32(pkt: seq<uint8>): Result<uint32, PacketError> {
    if |pkt| < 20 then Err(PacketTooSmall)
    else if pkt[0] / 16 != 4 then Err(NotIPv4)
    else Ok(Uint32(pkt[12..16]))
  }

  // ---------- The layout the parsers read ----------

  /**
   A header laid out as in section 3.1 of RFC 791. `tos`, `middle` (identification, flags, fragment
   offset, time to live) and `checksum` are the fields the parsers skip.
   */
  function Layout(h: IPv4Header, tos: uint8, middle: seq<uint8>, checksum: seq<uint8>): seq<uint8>
    requires h.version < 16 && h.ihl < 16 && |middle| == 5 && |checksum| == 2
  {
    [h.version * 16 + h.ihl, tos] + PutUint16(h.totalLen) + middle + [h.protocol] + checksum
    + h.srcIP + h.dstIP
  }

  /** Parsing a laid-out header, whatever follows it, gives the header back. */
  lemma ParseLayout(h: IPv4Header, tos: uint8, middle: seq<uint8>, checksum: seq<uint8>, rest: seq<uint8>)
    requires h.version == 4 && h.ihl < 16 && |middle| == 5 && |checksum| == 2
    requires |h.srcIP| == 4 && |h.dstIP| == 4
    ensures ParseIPv4Header(Layout(h, tos, middle, checksum) + rest) == Ok(h)
    ensures var l := Layout(h, tos, middle, checksum);
            |l| == 20 && l[9] == h.protocol && l[12..16] == h.srcIP && l[16..20] == h.dstIP
  {
    var pkt := Layout(h, tos, middle, checksum) + rest;
    assert pkt[2..4] == PutUint16(h.totalLen);
    Uint16RoundTrip(h.totalLen);
    assert pkt[12..16] == h.srcIP;
    assert pkt[16..20] == h.dstIP;
  }

  /** A packet parses exactly if it begins with a header so laid out; otherwise the error says why not. */
  lemma ParseIsExact(pkt: seq<uint8>)
    ensures |pkt| < 20 <==> ParseIPv4Header(pkt) == Err(PacketTooSmall)
    ensures |pkt| >= 20 && !(64 <= pkt[0] < 80) <==> ParseIPv4Header(pkt) == Err(NotIPv4)
    ensures forall h :: ParseIPv4Header(pkt) == Ok(h) <==> BeginsWithHeader(pkt, h)
  {
    forall h
      ensures ParseIPv4Header(pkt) == Ok(h) <==> BeginsWithHeader(pkt, h)
    {
      if ParseIPv4Header(pkt) == Ok(h) {
        ParsedIsLaidOut(pkt, h);
      }
      if BeginsWithHeader(pkt, h) {
        var tos, middle, checksum, rest :|
          |middle| == 5 && |checksum| == 2 && pkt == Layout(h, tos, middle, checksum) + rest;
        ParseLayout(h, tos, middle, checksum, rest);
      }
    }
  }

  /** The packet is a version 4 header with these fields, and whatever follows. */
  ghost predicate BeginsWithHeader(pkt: seq<uint8>, h: IPv4Header) {
    && h.version == 4 && h.ihl < 16 && |h.srcIP| == 4 && |h.dstIP| == 4
    && exists tos: uint8, middle: seq<uint8>, checksum: seq<uint8>, rest: seq<uint8> ::
         |middle| == 5 && |checksum| == 2 && pkt == Layout(h, tos, middle, checksum) + rest
  }

  lemma ParsedIsLaidOut(pkt: seq<uint8>, h: IPv4Header)
    requires ParseIPv4Header(pkt) == Ok(h)
    ensures BeginsWithHeader(pkt, h)
  {
    assert PutUint16(Uint16(pkt[2..4])) == pkt[2..4];
    assert pkt == Layout(h, pkt[1], pkt[4..9], pkt[10..12]) + pkt[20..];
  }

  /** The fast extractors fail with the parse's errors and otherwise return its addresses. */
  lemma ExtractorsAgreeWithParse(pkt: seq<uint8>)
    ensures match ParseIPv4Header(pkt)
            case Err(e) =>
              && DstIPFromPacket(pkt) == Err(e) && SrcIPFromPacket(pkt) == Err(e)
              && DstIPUint32(pkt) == Err(e) && SrcIPUint32(pkt) == Err(e)
            case Ok(h) =>
              && |h.srcIP| == 4 && |h.dstIP| == 4
              && SrcIPFromPacket(pkt) == Ok(h.srcIP) && SrcIPUint32(pkt) == Ok(IpToUint32(h.srcIP))
              && DstIPFromPacket(pkt) == Ok(h.dstIP) && DstIPUint32(pkt) == Ok(IpToUint32(h.dstIP))
  {
  }

  /**
   A packet looks up under a key exactly when its source bytes are that key's address, so a client's
   packets and its session are always keyed alike.
   */
  lemma SourceKeyIsAddress(pkt: seq<uint8>, key: uint32)
    ensures SrcIPUint32(pkt) == Ok(key) <==> SrcIPFromPacket(pkt) == Ok(Uint32ToIp(key))
    ensures DstIPUint32(pkt) == Ok(key) <==> DstIPFromPacket(pkt) == Ok(Uint32ToIp(key))
  {
    Uint32RoundTrip(key);
    if SrcIPUint32(pkt).Ok? {
      PutUint32RoundTrip(pkt[12..16]);
      PutUint32RoundTrip(pkt[16..20]);
    }
  }
}
