/** The udpgw frame codec (gravital-udpgw, frame.rs). */
module UdpGw {
  import opened Bytes

  const VERSION: byte := 1

  /** `flags` is the raw flag byte; bits 0 and 1 are the only ones with a name. */
  datatype Frame = Frame(clientId: u32, flags: byte, remote: SocketAddr, payload: seq<byte>)

  datatype GwError = Truncated | InvalidVersion(version: byte)

  datatype Result = Ok(frame: Frame) | Err(error: GwError)

  function EncodeIp(ip: Ip): (r: seq<byte>)
    ensures |r| == if ip.V4? then 5 else 17
  {
    match ip
    case V4(o) => [1] + o
    case V6(o) => [4] + o
  }

  function Head(f: Frame): (r: seq<byte>)
    ensures |r| == 6 && r[0] == VERSION && r[1] == f.flags && U32At(r, 2) == f.clientId
  {
    [VERSION, f.flags] + BE32(f.clientId)
  }

  /** The frame on the wire; the length field is the payload's length truncated to 16 bits. */
  function EncodeFrame(f: Frame): seq<byte> {
    Head(f) + EncodeIp(f.remote.ip) + (BE16(f.remote.port) + BE16(|f.payload| % 0x1_0000)) + f.payload
  }

  /** Ports, length and payload from position `k` on. */
  function DecodeTail(s: seq<byte>, ip: Ip, k: nat): Result
    requires 7 <= k
  {
    if |s| < k + 4 then Err(Truncated)
    else
      var n: nat := U16At(s, k + 2);
      if |s| < k + 4 + n then Err(Truncated)
      else Ok(Frame(U32At(s, 2), s[1] % 4, SocketAddr(ip, U16At(s, k)), s[k + 4..k + 4 + n]))
  }

  function DecodeFrame(s: seq<byte>): Result {
    if s == [] then Err(Truncated)
    else if s[0] != VERSION then Err(InvalidVersion(s[0]))
    else if |s| < 8 then Err(Truncated)
    else if s[6] == 1 then
      if |s| < 11 then Err(Truncated) else DecodeTail(s, V4(s[7..11]), 11)
    else if s[6] == 4 then
      if |s| < 23 then Err(Truncated) else DecodeTail(s, V6(s[7..23]), 23)
    else Err(Truncated)
  }

  /** Decoding inverts encoding, whatever follows the frame, exactly when the payload fits its
      length field and no unnamed flag bit is set. */
  lemma DecodeInvertsEncodeIff(f: Frame, rest: seq<byte>)
    ensures DecodeFrame(EncodeFrame(f) + rest) == Ok(f) <==> |f.payload| <= 0xFFFF && f.flags < 4
  {
    hide BE16, Head, EncodeFrame, EncodeIp, U16At, U32At;
    var s := EncodeFrame(f) + rest;
    var k := 6 + |EncodeIp(f.remote.ip)|;
    Layout(f, rest);
    assert s[6] == s[6..k][0];
    assert f.remote.ip.V4? ==> s[7..11] == f.remote.ip.v4;
    assert f.remote.ip.V6? ==> s[7..23] == f.remote.ip.v6;
    var n := |f.payload| % 0x1_0000;
    assert DecodeFrame(s) == DecodeTail(s, f.remote.ip, k);
    assert |s[k + 4..k + 4 + n]| == n;
    if |f.payload| <= 0xFFFF {
      assert s[k + 4..k + 4 + n] == f.payload;
    }
  }

  /** The frame on bytes: version 1, flags, client, family 1 or 4 with its octets, port, the low 16 bits
      of the payload's length, payload; numbers have their high byte first. */
  lemma Layout(f: Frame, rest: seq<byte>)
    ensures var s := EncodeFrame(f) + rest;
            var k := 6 + |EncodeIp(f.remote.ip)|;
            && |s| == k + 4 + |f.payload| + |rest|
            && s[0] == 1 && s[1] == f.flags && U32At(s, 2) == f.clientId
            && s[6..k] == (match f.remote.ip case V4(o) => [1] + o case V6(o) => [4] + o)
            && U16At(s, k) == f.remote.port && U16At(s, k + 2) == |f.payload| % 0x1_0000
            && s[k + 4..] == f.payload + rest
  {
    hide BE16, Head;
    var h, ip := Head(f), EncodeIp(f.remote.ip);
    var m := BE16(f.remote.port) + BE16(|f.payload| % 0x1_0000);
    var s := EncodeFrame(f) + rest;
    var k := 6 + |ip|;
    assert s[..6] == h;
    assert U32At(s, 2) == U32At(h, 2);
    assert s[6..k] == ip;
    assert s[k..k + 4] == m;
    assert U16At(s, k) == U16At(BE16(f.remote.port), 0);
    assert U16At(s, k + 2) == U16At(BE16(|f.payload| % 0x1_0000), 0);
  }

  /** Whatever decodes was encoded: encoding the result gives back the bytes consumed, with only
      the unnamed flag bits cleared. */
  lemma EncodeInvertsDecode(s: seq<byte>)
    requires DecodeFrame(s).Ok?
    ensures var e := EncodeFrame(DecodeFrame(s).frame);
            |e| <= |s| && e == s[1 := s[1] % 4][..|e|]
  {
    hide BE16, U16At, U32At, Head;
    var f := DecodeFrame(s).frame;
    var t := s[1 := s[1] % 4];
    var k := if f.remote.ip.V4? then 11 else 23;
    HeadBytes(s, f);
    WordBytes(s, k);
    WordBytes(s, k + 2);
    assert t[6..k] == EncodeIp(f.remote.ip);
    assert t[k..k + 4] == s[k..k + 2] + s[k + 2..k + 4];
    assert t[k + 4..k + 4 + |f.payload|] == f.payload;
    Pieces(t, k, k + 4 + |f.payload|);
  }

  /** A frame cut off anywhere, and a frame of an unknown family, are truncated; another version is
      named, whatever follows. */
  lemma TruncatedFrameFails(f: Frame, k: nat)
    requires |f.payload| <= 0xFFFF && k < |EncodeFrame(f)|
    ensures DecodeFrame(EncodeFrame(f)[..k]) == Err(Truncated)
  {
    hide BE16, Head;
    var e := EncodeFrame(f);
    assert e + [] == e;
    Layout(f, []);
    var s := e[..k];
    var n := 6 + |EncodeIp(f.remote.ip)|;
    assert e[6] == e[6..n][0];
    if k >= n + 4 { assert U16At(s, n + 2) == U16At(e, n + 2); }
  }

  lemma OddFramesFail(s: seq<byte>)
    ensures s != [] && s[0] != 1 ==> DecodeFrame(s) == Err(InvalidVersion(s[0]))
    ensures |s| >= 7 && s[0] == 1 && s[6] !in {1, 4} ==> DecodeFrame(s) == Err(Truncated)
  {
  }

  lemma HeadBytes(s: seq<byte>, f: Frame)
    requires |s| >= 6 && s[0] == VERSION && f.flags == s[1] % 4 && f.clientId == U32At(s, 2)
    ensures s[1 := s[1] % 4][..6] == Head(f)
  {
    SameWordAt(BE32(f.clientId), s[2..6], 0);
    SameWordAt(BE32(f.clientId), s[2..6], 2);
  }

  lemma Pieces(t: seq<byte>, k: nat, n: nat)
    requires 6 <= k && k + 4 <= n <= |t|
    ensures t[..n] == t[..6] + t[6..k] + t[k..k + 4] + t[k + 4..n]
  {
  }

  /** `UdpGwFrame::encode` */
  method Encode(f: Frame) returns (buf: seq<byte>)
    ensures buf == EncodeFrame(f)
  {
    hide BE16, BE32;
    buf := [VERSION];
    buf := buf + [f.flags];
    buf := buf + BE32(f.clientId);
    match f.remote.ip {
      case V4(o) =>
        buf := buf + [1];
        buf := buf + o;
      case V6(o) =>
        buf := buf + [4];
        buf := buf + o;
    }
    assert buf == Head(f) + EncodeIp(f.remote.ip);
    ghost var front := buf;
    buf := buf + BE16(f.remote.port);
    buf := buf + BE16(|f.payload| % 0x1_0000);
    assert buf == front + (BE16(f.remote.port) + BE16(|f.payload| % 0x1_0000));
    buf := buf + f.payload;
  }

  /** `UdpGwFrame::decode`: an offset walked over the buffer. */
  method Decode(data: seq<byte>) returns (r: Result)
    ensures r == DecodeFrame(data)
  {
    if data == [] { return Err(Truncated); }
    if data[0] != VERSION { return Err(InvalidVersion(data[0])); }
    if |data| < 8 { return Err(Truncated); }
    var flags: byte := data[1] % 4;
    var clientId := U32At(data, 2);
    var offset := 7;
    var ip: Ip;
    if data[6] == 1 {
      if |data| < offset + 4 { return Err(Truncated); }
      ip := V4(data[offset..offset + 4]);
      offset := offset + 4;
    } else if data[6] == 4 {
      if |data| < offset + 16 { return Err(Truncated); }
      ip := V6(data[offset..offset + 16]);
      offset := offset + 16;
    } else {
      return Err(Truncated);
    }
    if |data| < offset + 4 { return Err(Truncated); }
    var port := U16At(data, offset);
    var len: nat := U16At(data, offset + 2);
    offset := offset + 4;
    if |data| < offset + len { return Err(Truncated); }
    r := Ok(Frame(clientId, flags, SocketAddr(ip, port), data[offset..offset + len]));
  }
}
