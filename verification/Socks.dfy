/** The SOCKS5 codec (gravital-socks, proto.rs; sections 3 to 7 of RFC 1928).

    A domain is the byte sequence on the wire. Streams hold everything the peer will ever send;
    a read that runs past the end is the source's premature end of file. */
module Socks {
  import opened Bytes

  const VERSION: byte := 5
  const NO_AUTH: byte := 0
  const USERPASS: byte := 2
  const NONE_ACCEPTABLE: byte := 0xFF

  datatype Cmd = Connect | Bind | UdpAssociate

  datatype Addr = Ipv4(ip4: Octets4) | Ipv6(ip6: Octets16) | Domain(name: seq<byte>)

  datatype Request = Request(cmd: Cmd, addr: Addr, port: u16)

  datatype SocksError =
    | InvalidVersion(version: byte)
    | NoAcceptableMethod
    | AuthRejected
    | CommandNotSupported(cmd: byte)
    | AddressTypeNotSupported(atyp: byte)
    | ServerReply(rep: byte)
    | HostUnreachable
    | Upstream
    | Io
    | PrematureEof

  datatype Result<+T> = Ok(value: T) | Err(error: SocksError)

  // ---------------------------------------------------------------- addresses on the wire

  /** `encode_address`; the length byte is the domain's length truncated to eight bits. */
  function EncodeAddress(a: Addr, port: u16): seq<byte> {
    match a
    case Ipv4(ip) => [1] + ip + BE16(port)
    case Ipv6(ip) => [4] + ip + BE16(port)
    case Domain(d) => [3, |d| % 256] + d + BE16(port)
  }

  datatype Decoded = Decoded(addr: Addr, port: u16, used: nat) | Bad(error: SocksError)

  /** The address format of section 5 of RFC 1928, from the type byte on. */
  function DecodeAddress(s: seq<byte>): (r: Decoded)
    ensures r.Decoded? ==> r.used <= |s|
  {
    if s == [] then Bad(PrematureEof)
    else if s[0] == 1 then
      if |s| < 5 then Bad(PrematureEof) else WithPort(s, Ipv4(s[1..5]), 5)
    else if s[0] == 3 then
      if |s| < 2 then Bad(PrematureEof)
      else
        var n: nat := s[1];
        if |s| < 2 + n then Bad(PrematureEof) else WithPort(s, Domain(s[2..2 + n]), 2 + n)
    else if s[0] == 4 then
      if |s| < 17 then Bad(PrematureEof) else WithPort(s, Ipv6(s[1..17]), 17)
    else Bad(AddressTypeNotSupported(s[0]))
  }

  function WithPort(s: seq<byte>, a: Addr, k: nat): (r: Decoded)
    ensures r.Decoded? ==> r.used <= |s|
  {
    if |s| < k + 2 then Bad(PrematureEof) else Decoded(a, U16At(s, k), k + 2)
  }

  predicate Encodable(a: Addr) { a.Domain? ==> |a.name| <= 255 }

  /** The layout of section 5 of RFC 1928: type 1, 3 or 4, the address, the port with its high byte
      first. A domain is preceded by its length, of which only the low eight bits are kept. */
  lemma AddressLayout(a: Addr, port: u16)
    ensures var e := EncodeAddress(a, port);
            && |e| >= 4 && e[|e| - 2] as int * 256 + e[|e| - 1] as int == port
            && match a
               case Ipv4(ip) => |e| == 7 && e[0] == 1 && e[1..5] == ip
               case Ipv6(ip) => |e| == 19 && e[0] == 4 && e[1..17] == ip
               case Domain(d) => |e| == 4 + |d| && e[0] == 3 && e[1] == |d| % 256 && e[2..2 + |d|] == d
  {
    var e := EncodeAddress(a, port);
    assert U16At(e, |e| - 2) == U16At(BE16(port), 0);
  }

  /** Decoding inverts encoding, whatever follows, exactly when the domain fits its length byte. */
  lemma DecodeInvertsEncodeIff(a: Addr, port: u16, rest: seq<byte>)
    ensures DecodeAddress(EncodeAddress(a, port) + rest) == Decoded(a, port, |EncodeAddress(a, port)|)
        <==> Encodable(a)
  {
    var e := EncodeAddress(a, port);
    var s := e + rest;
    match a
    case Ipv4(ip) =>
      assert s[1..5] == ip;
      assert U16At(s, 5) == U16At(BE16(port), 0);
    case Ipv6(ip) =>
      assert s[1..17] == ip;
      assert U16At(s, 17) == U16At(BE16(port), 0);
    case Domain(d) =>
      if |d| <= 255 {
        assert s[2..2 + |d|] == d;
        assert U16At(s, 2 + |d|) == U16At(BE16(port), 0);
      }
  }

  /** An address cut off anywhere is a premature end, and an unknown type is named, whatever follows. */
  lemma TruncatedAddressFails(a: Addr, port: u16, k: nat)
    requires Encodable(a) && k < |EncodeAddress(a, port)|
    ensures DecodeAddress(EncodeAddress(a, port)[..k]) == Bad(PrematureEof)
  {
    hide BE16;
  }

  lemma UnknownTypeFails(atyp: byte, rest: seq<byte>)
    requires atyp != 1 && atyp != 3 && atyp != 4
    ensures DecodeAddress([atyp] + rest) == Bad(AddressTypeNotSupported(atyp))
  {
  }

  /** Whatever decodes was encoded: the consumed prefix is the canonical encoding. */
  lemma EncodeInvertsDecode(s: seq<byte>)
    requires DecodeAddress(s).Decoded?
    ensures var r := DecodeAddress(s);
            Encodable(r.addr) && s[..r.used] == EncodeAddress(r.addr, r.port)
  {
    var r := DecodeAddress(s);
    WordBytes(s, r.used - 2);
    assert s[..r.used] == s[..r.used - 2] + s[r.used - 2..r.used];
  }

  /** The format is prefix-free: no encoding starts another one. */
  lemma PrefixFree(a: Addr, p: u16, x: seq<byte>, b: Addr, q: u16, y: seq<byte>)
    requires Encodable(a) && Encodable(b)
    requires EncodeAddress(a, p) + x == EncodeAddress(b, q) + y
    ensures a == b && p == q && x == y
  {
    hide DecodeAddress, EncodeAddress;
    DecodeInvertsEncodeIff(a, p, x);
    DecodeInvertsEncodeIff(b, q, y);
    var n := |EncodeAddress(a, p)|;
    assert x == (EncodeAddress(a, p) + x)[n..];
  }

  // ---------------------------------------------------------------- messages

  function CmdOf(b: byte): Result<Cmd> {
    if b == 1 then Ok(Connect)
    else if b == 2 then Ok(Bind)
    else if b == 3 then Ok(UdpAssociate)
    else Err(CommandNotSupported(b))
  }

  /** What a message parser makes of a stream: a value and the bytes it took, or an error. */
  datatype Parsed<+T> = Parsed(value: T, used: nat) | Fail(error: SocksError)

  /** The request message of section 4 of RFC 1928. */
  function ParseRequest(s: seq<byte>): (r: Parsed<Request>)
    ensures r.Parsed? ==> r.used <= |s|
  {
    if |s| < 4 then Fail(PrematureEof)
    else if s[0] != VERSION then Fail(InvalidVersion(s[0]))
    else
      match CmdOf(s[1])
      case Err(e) => Fail(e)
      case Ok(cmd) =>
        match DecodeAddress(s[3..])
        case Bad(e) => Fail(e)
        case Decoded(a, p, used) => Parsed(Request(cmd, a, p), 3 + used)
  }

  /** What a request means, by the codes of section 4 of RFC 1928 and whatever the reserved byte holds
      and follows: 1 is CONNECT, 2 is BIND and 3 is UDP ASSOCIATE, read in full exactly when the name
      fits its length byte; every other code is refused by name, and so is every other version. */
  lemma RequestMeansIff(version: byte, code: byte, reserved: byte, a: Addr, port: u16, rest: seq<byte>)
    ensures var e := EncodeAddress(a, port);
            var r := ParseRequest([version, code, reserved] + e + rest);
            && (version != 5 ==> r == Fail(InvalidVersion(version)))
            && (version == 5 && code !in {1, 2, 3} ==> r == Fail(CommandNotSupported(code)))
            && (version == 5 && code == 1 ==> (r == Parsed(Request(Connect, a, port), 3 + |e|) <==> Encodable(a)))
            && (version == 5 && code == 2 ==> (r == Parsed(Request(Bind, a, port), 3 + |e|) <==> Encodable(a)))
            && (version == 5 && code == 3 ==> (r == Parsed(Request(UdpAssociate, a, port), 3 + |e|) <==> Encodable(a)))
  {
    hide EncodeAddress, DecodeAddress;
    var e := EncodeAddress(a, port);
    AddressLayout(a, port);
    var s := [version, code, reserved] + e + rest;
    assert s[3..] == e + rest;
    DecodeInvertsEncodeIff(a, port, rest);
  }

  /** A request cut off anywhere is a premature end. */
  lemma TruncatedRequestFails(code: byte, reserved: byte, a: Addr, port: u16, k: nat)
    requires 1 <= code <= 3 && Encodable(a) && k < 3 + |EncodeAddress(a, port)|
    ensures ParseRequest(([5, code, reserved] + EncodeAddress(a, port))[..k]) == Fail(PrematureEof)
  {
    hide EncodeAddress, DecodeAddress;
    var e := EncodeAddress(a, port);
    if k >= 4 {
      assert ([5, code, reserved] + e)[..k][3..] == e[..k - 3];
      TruncatedAddressFails(a, port, k - 3);
    }
  }

  /** The method selection of section 3 of RFC 1928, without the bytes written. */
  function ParseGreeting(s: seq<byte>, auth: bool): (r: Parsed<byte>)
    ensures r.Parsed? ==> r.used <= |s|
  {
    if |s| < 2 then Fail(PrematureEof)
    else if s[0] != VERSION then Fail(InvalidVersion(s[0]))
    else
      var n: nat := s[1];
      if |s| < 2 + n then Fail(PrematureEof)
      else
        var methods := s[2..2 + n];
        if NO_AUTH in methods then Parsed(NO_AUTH, 2 + n)
        else if auth && USERPASS in methods then Parsed(USERPASS, 2 + n)
        else Fail(NoAcceptableMethod)
  }

  /** The choice among the offered methods, whatever follows: no authentication (0) whenever it is
      offered, otherwise user name and password (2) if the server asks for it, otherwise refusal. */
  lemma MethodChoice(version: byte, methods: seq<byte>, auth: bool, rest: seq<byte>)
    requires |methods| <= 255
    ensures var r := ParseGreeting([version, |methods|] + methods + rest, auth);
            if version != 5 then r == Fail(InvalidVersion(version))
            else if 0 in methods then r == Parsed(0, 2 + |methods|)
            else if auth && 2 in methods then r == Parsed(2, 2 + |methods|)
            else r == Fail(NoAcceptableMethod)
  {
    var s := [version, |methods|] + methods + rest;
    assert s[2..2 + |methods|] == methods;
  }

  /** A greeting cut off anywhere is a premature end. */
  lemma TruncatedGreetingFails(methods: seq<byte>, auth: bool, k: nat)
    requires |methods| <= 255 && k < 2 + |methods|
    ensures ParseGreeting(([5, |methods|] + methods)[..k], auth) == Fail(PrematureEof)
  {
  }

  /** `send_reply` */
  function EncodeReply(rep: byte, bound: SocketAddr): seq<byte> {
    [VERSION, rep, 0] + EncodeAddress(AddrOf(bound.ip), bound.port)
  }

  function AddrOf(ip: Ip): Addr {
    match ip
    case V4(o) => Ipv4(o)
    case V6(o) => Ipv6(o)
  }

  /** How many bytes the client skips after a reply header with this address type. */
  function BoundLength(s: seq<byte>, atyp: byte): (r: Parsed<()>)
    ensures r.Parsed? ==> r.used <= |s|
  {
    if atyp == 1 then Taking(s, 6)
    else if atyp == 3 then
      if s == [] then Fail(PrematureEof)
      else
        var n: nat := s[0];
        Taking(s, 1 + n + 2)
    else if atyp == 4 then Taking(s, 18)
    else Parsed((), 0)
  }

  /** Behind a reply's header the client skips exactly an address of whatever known type, and nothing
      at all for an unknown one. */
  lemma BoundIsSkipped(a: Addr, port: u16, rest: seq<byte>)
    requires Encodable(a)
    ensures var e := EncodeAddress(a, port);
            |e| >= 1 && BoundLength(e[1..] + rest, e[0]) == Parsed((), |e| - 1)
  {
    hide BE16;
  }

  lemma TruncatedBoundFails(a: Addr, port: u16, k: nat)
    requires Encodable(a) && 1 <= k < |EncodeAddress(a, port)|
    ensures BoundLength(EncodeAddress(a, port)[1..k], EncodeAddress(a, port)[0]) == Fail(PrematureEof)
  {
    hide BE16;
  }

  lemma UnknownBoundIsKept(s: seq<byte>, atyp: byte)
    requires atyp !in {1, 3, 4}
    ensures BoundLength(s, atyp) == Parsed((), 0)
  {
  }

  function Taking(s: seq<byte>, n: nat): (r: Parsed<()>)
    ensures r.Parsed? ==> r.used <= |s|
  {
    if |s| < n then Fail(PrematureEof) else Parsed((), n)
  }

  // ---------------------------------------------------------------- the code

  class Stream {
    var input: seq<byte>
    var output: seq<byte>

    constructor (incoming: seq<byte>)
      ensures input == incoming && output == []
    {
      input, output := incoming, [];
    }

    /** `read_exact`: all `n` bytes or the end of file. */
    method ReadExact(n: nat) returns (r: Result<seq<byte>>)
      modifies this`input
      ensures if n <= |old(input)|
              then r == Ok(old(input)[..n]) && input == old(input)[n..]
              else r == Err(PrematureEof)
    {
      if |input| < n {
        input := [];
        return Err(PrematureEof);
      }
      r := Ok(input[..n]);
      input := input[n..];
    }

    method WriteAll(data: seq<byte>)
      modifies this`output
      ensures output == old(output) + data
    {
      output := output + data;
    }
  }

  /** `read_request`: parses and consumes exactly one request. */
  method ReadRequest(s: Stream) returns (r: Result<Request>)
    modifies s`input
    ensures match ParseRequest(old(s.input))
            case Fail(e) => r == Err(e)
            case Parsed(q, used) => r == Ok(q) && s.input == old(s.input)[used..]
  {
    ghost var whole := s.input;
    var hdr := s.ReadExact(4);
    if hdr.Err? { return Err(hdr.error); }
    assert hdr.value == whole[..4];
    if hdr.value[0] != VERSION { return Err(InvalidVersion(hdr.value[0])); }
    var cmd := CmdOf(hdr.value[1]);
    if cmd.Err? { return Err(cmd.error); }
    var addr, used := ReadAddress(s, hdr.value[3], whole);
    if addr.Err? { return Err(addr.error); }
    var port := s.ReadExact(2);
    if port.Err? { return Err(port.error); }
    r := Ok(Request(cmd.value, addr.value, U16At(port.value, 0)));
  }

  /** The address part of `read_request`, after the type byte. */
  method ReadAddress(s: Stream, atyp: byte, ghost whole: seq<byte>)
    returns (r: Result<Addr>, ghost used: nat)
    requires |whole| >= 4 && whole[3] == atyp && s.input == whole[4..]
    modifies s`input
    ensures r.Ok? ==> 4 <= used <= |whole| && s.input == whole[used..]
                      && DecodeAddress(whole[3..]) == WithPort(whole[3..], r.value, used - 3)
    ensures r.Err? ==> DecodeAddress(whole[3..]) == Bad(r.error)
  {
    used := 4;
    if atyp == 1 {
      var ip := s.ReadExact(4);
      if ip.Err? { return Err(ip.error), used; }
      assert ip.value == whole[3..][1..5];
      return Ok(Ipv4(ip.value)), 8;
    } else if atyp == 3 {
      var len := s.ReadExact(1);
      if len.Err? { return Err(len.error), used; }
      assert len.value[0] == whole[3..][1];
      var n: nat := len.value[0];
      var name := s.ReadExact(n);
      if name.Err? { return Err(name.error), used; }
      assert name.value == whole[3..][2..2 + n];
      return Ok(Domain(name.value)), 5 + n;
    } else if atyp == 4 {
      var ip := s.ReadExact(16);
      if ip.Err? { return Err(ip.error), used; }
      assert ip.value == whole[3..][1..17];
      return Ok(Ipv6(ip.value)), 20;
    }
    return Err(AddressTypeNotSupported(atyp)), used;
  }

  datatype UdpHeader = UdpHeader(frag: byte, addr: Addr, port: u16, payloadOffset: nat)

  /** `parse_udp_datagram`: an offset walked over a buffer. It accepts the same addresses, takes
      the same bytes and fails in the same way as the request parser does after its header. */
  method ParseUdpDatagram(buf: seq<byte>) returns (r: Result<UdpHeader>)
    ensures |buf| < 4 ==> r == Err(PrematureEof)
    ensures |buf| >= 4 ==>
              match DecodeAddress(buf[3..])
              case Bad(e) => r == Err(e)
              case Decoded(a, p, used) => r == Ok(UdpHeader(buf[2], a, p, 3 + used))
  {
    if |buf| < 4 { return Err(PrematureEof); }
    ghost var s := buf[3..];
    var frag, atyp, offset := buf[2], buf[3], 4;
    var addr: Addr;
    if atyp == 1 {
      if |buf| < offset + 4 { return Err(PrematureEof); }
      assert buf[offset..offset + 4] == s[1..5];
      addr := Ipv4(buf[offset..offset + 4]);
      offset := offset + 4;
    } else if atyp == 3 {
      if |buf| < offset + 1 { return Err(PrematureEof); }
      var n: nat := buf[offset];
      offset := offset + 1;
      if |buf| < offset + n { return Err(PrematureEof); }
      assert buf[offset..offset + n] == s[2..2 + n];
      addr := Domain(buf[offset..offset + n]);
      offset := offset + n;
    } else if atyp == 4 {
      if |buf| < offset + 16 { return Err(PrematureEof); }
      assert buf[offset..offset + 16] == s[1..17];
      addr := Ipv6(buf[offset..offset + 16]);
      offset := offset + 16;
    } else {
      return Err(AddressTypeNotSupported(atyp));
    }
    assert DecodeAddress(s) == WithPort(s, addr, offset - 3);
    if |buf| < offset + 2 { return Err(PrematureEof); }
    var port := Word(buf[offset], buf[offset + 1]);
    offset := offset + 2;
    r := Ok(UdpHeader(frag, addr, port, offset));
  }

  /** `negotiate_method` */
  method NegotiateMethod(s: Stream, auth: bool) returns (r: Result<byte>)
    modifies s
    ensures match ParseGreeting(old(s.input), auth)
            case Parsed(m, used) =>
              r == Ok(m) && s.input == old(s.input)[used..] && s.output == old(s.output) + [5, m]
            case Fail(e) =>
              r == Err(e)
              && s.output == old(s.output) + (if e.NoAcceptableMethod? then [5, 0xFF] else [])
  {
    ghost var whole := s.input;
    var hdr := s.ReadExact(2);
    if hdr.Err? { return Err(hdr.error); }
    if hdr.value[0] != VERSION { return Err(InvalidVersion(hdr.value[0])); }
    var n: nat := hdr.value[1];
    var methods := s.ReadExact(n);
    if methods.Err? { return Err(methods.error); }
    assert methods.value == whole[2..2 + n];
    var chosen: byte;
    if NO_AUTH in methods.value {
      chosen := NO_AUTH;
    } else if auth && USERPASS in methods.value {
      chosen := USERPASS;
    } else {
      s.WriteAll([VERSION, NONE_ACCEPTABLE]);
      return Err(NoAcceptableMethod);
    }
    s.WriteAll([VERSION, chosen]);
    r := Ok(chosen);
  }

  /** `skip_bound_address` */
  method SkipBoundAddress(s: Stream, atyp: byte) returns (r: Result<()>)
    modifies s`input
    ensures match BoundLength(old(s.input), atyp)
            case Parsed(_, used) => r == Ok(()) && s.input == old(s.input)[used..]
            case Fail(e) => r == Err(e)
  {
    var n: nat := 0;
    if atyp == 1 {
      n := 4;
    } else if atyp == 3 {
      var len := s.ReadExact(1);
      if len.Err? { return Err(len.error); }
      n := len.value[0];
    } else if atyp == 4 {
      n := 16;
    } else {
      return Ok(());
    }
    var discard := s.ReadExact(n + 2);
    if discard.Err? { return Err(discard.error); }
    r := Ok(());
  }
}
