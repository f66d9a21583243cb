/** `net.IP` values and their uint32 form (server/daemon/ippool.go). */
module Addresses {
  import opened Words
  import opened Wrappers

  /** A `net.IP`: any byte slice; only lengths 4 and 16 denote addresses. */
  type IP = seq<uint8>

  /** `net.IP.To4`: a 4-byte slice, or the last four bytes of an IPv4-mapped 16-byte slice. */
  function To4(ip: IP): (r: Option<IP>)
    ensures r.Some? ==> |r.value| == 4
  {
    if |ip| == 4 then Some(ip)
    else if |ip| == 16 && (forall k | 0 <= k < 10 :: ip[k] == 0) && ip[10] == 0xff && ip[11] == 0xff then
      Some(ip[12..])
    else None
  }

  function IpToUint32(ip: IP): uint32
    requires |ip| >= 4
  {
    Uint32(ip)
  }

  function Uint32ToIp(n: uint32): (ip: IP)
    ensures |ip| == 4
  {
    PutUint32(n)
  }

  /** On 4-byte addresses the two conversions are mutual inverses. */
  lemma ConversionsAreInverse(n: uint32, ip: IP)
    requires |ip| == 4
    ensures IpToUint32(Uint32ToIp(n)) == n
    ensures Uint32ToIp(IpToUint32(ip)) == ip
  {
    Uint32RoundTrip(n);
    PutUint32RoundTrip(ip);
  }

  /** The first twelve bytes of an IPv4-mapped address. */
  function MappedPrefix(): seq<uint8> {
    [0, 0, 0, 0, 0, 0, 0, 0, 0, 0, 0xff, 0xff]
  }

  /** An address has a 4-byte form exactly if it is one, or one behind the IPv4-mapped prefix. */
  lemma To4Iff(ip: IP, ip4: IP)
    ensures To4(ip) == Some(ip4) <==> |ip4| == 4 && (ip == ip4 || ip == MappedPrefix() + ip4)
  {
    if To4(ip) == Some(ip4) && |ip| == 16 {
      assert ip == ip[..12] + ip[12..];
      assert ip[..12] == MappedPrefix();
    }
    if |ip4| == 4 && ip == MappedPrefix() + ip4 {
      assert ip[12..] == ip4;
    }
  }
}
