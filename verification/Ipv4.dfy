/** Views over raw IP packets: `IpView::parse`, `Ipv4View` and its checksum test. */
module Ipv4 {
  import opened Bytes
  import opened Checksum

  datatype ParseError =
    | TruncatedHeader(needed: nat, got: nat)
    | InvalidHeaderLength(nibble: byte)
    | InvalidVersion(version: byte)

  datatype View = ViewV4(bytes: Packet) | ViewV6(bytes: Packet)

  datatype ParseResult = Ok(view: View) | Err(error: ParseError)

  /** `(pkt[0] & 0x0F) as usize * 4` */
  function Ihl(p: Packet): nat
    requires |p| > 0
  {
    p[0] as int % 16 * 4
  }

  function Version(p: Packet): byte
    requires |p| > 0
  {
    p[0] / 16
  }

  function ParseIpv4(p: Packet): ParseResult {
    if |p| < 20 then Err(TruncatedHeader(20, |p|))
    else if Ihl(p) < 20 then Err(InvalidHeaderLength(p[0] % 16))
    else if |p| < Ihl(p) then Err(TruncatedHeader(Ihl(p), |p|))
    else Ok(ViewV4(p))
  }

  function ParseIp(p: Packet): ParseResult {
    if p == [] then Err(TruncatedHeader(1, 0))
    else if Version(p) == 4 then ParseIpv4(p)
    else if Version(p) == 6 then
      if |p| < 40 then Err(TruncatedHeader(40, |p|)) else Ok(ViewV6(p))
    else Err(InvalidVersion(Version(p)))
  }

  /** The raw protocol number of an accepted packet; 6 is TCP and 17 is UDP. */
  function Protocol(v: View): byte
    requires ParseIp(v.bytes) == Ok(v)
  {
    match v
    case ViewV4(p) => p[9]
    case ViewV6(p) => p[6]
  }

  /** The engine hands a packet to the TCP stack exactly when this holds; IPv6 passes too. */
  predicate FedToStack(p: Packet) {
    ParseIp(p).Ok? && Protocol(ParseIp(p).view) == 6
  }

  /** On bytes: IPv4 with a complete header of at least twenty bytes and protocol 6, or IPv6 with a
      complete header and next header 6. */
  lemma FedToStackIff(p: Packet)
    ensures FedToStack(p)
        <==> || (|p| >= 20 && p[0] / 16 == 4 && 20 <= p[0] as int % 16 * 4 <= |p| && p[9] == 6)
             || (|p| >= 40 && p[0] / 16 == 6 && p[6] == 6)
  {
  }

  /** `p` starts with a complete IPv4 header. */
  predicate HasHeader(p: Packet) { ParseIpv4(p).Ok? }

  function Header(p: Packet): seq<byte>
    requires HasHeader(p)
  {
    p[..Ihl(p)]
  }

  /** `Ipv4View::verify_checksum` accepts a header exactly when its words sum to all ones. */
  method VerifyChecksum(p: Packet) returns (ok: bool)
    requires HasHeader(p)
    ensures ok <==> Verifies(Header(p))
  {
    var csum := InternetChecksum(p[..Ihl(p)]);
    ok := csum == 0;
  }
}
