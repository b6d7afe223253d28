/** DNS replies injected into the TUN device (gravital-engine, runner.rs; gravital-dns,
    interceptor.rs): the packet builder and the parsers beside it. */
module Dns {
  import opened Bytes
  import opened Checksum
  import opened Ipv4

  predicate IsUdp4(p: Packet) {
    |p| >= 20 && Version(p) == 4 && p[9] == 17 && |p| >= Ihl(p) + 8
  }

  /** `udp_dst_port` */
  function UdpDstPort(p: Packet): Option<u16> {
    if !IsUdp4(p) then None else Some(U16At(p, Ihl(p) + 2))
  }

  /** `extract_udp_payload` */
  function ExtractUdpPayload(p: Packet): Option<seq<byte>> {
    if !IsUdp4(p) then None
    else
      var n := U16At(p, Ihl(p) + 4) as int;
      if n < 8 || |p| < Ihl(p) + n then None else Some(p[Ihl(p) + 8..Ihl(p) + n])
  }

  /** What the parsers make of a datagram behind a header of any length: its destination port and its
      payload, without the padding behind it; nothing if it is cut off. */
  lemma DatagramIsRead(h: seq<byte>, sp: u16, dp: u16, csum: u16, payload: seq<byte>, pad: seq<byte>, k: nat)
    requires |h| >= 20 && Version(h) == 4 && Ihl(h) == |h| && |payload| <= 65527 && h[9] == 17
    requires k < |h| + 8 + |payload|
    ensures var p := h + (BE16(sp) + BE16(dp) + BE16(8 + |payload|) + BE16(csum)) + payload;
            && UdpDstPort(p + pad) == Some(dp) && ExtractUdpPayload(p + pad) == Some(payload)
            && ExtractUdpPayload(p[..k]) == None
  {
    hide BE16;
    var u := BE16(sp) + BE16(dp) + BE16(8 + |payload|) + BE16(csum);
    var p := h + u + payload;
    assert U16At(u, 2) == U16At(BE16(dp), 0);
    assert U16At(u, 4) == U16At(BE16(8 + |payload|), 0);
    HeaderThenDatagram(h, u, payload + pad);
    assert p + pad == h + u + (payload + pad);
    assert (p + pad)[|h| + 8..|h| + 8 + |payload|] == payload;
    CutOff(p, |h|, k);
    HeaderThenDatagram(h, u, payload);
  }

  lemma HeaderThenDatagram(h: seq<byte>, u: seq<byte>, t: seq<byte>)
    requires |h| >= 20 && |u| == 8 && Ihl(h) == |h|
    ensures var p := h + u + t;
            && p[0] == h[0] && p[9] == h[9] && Ihl(p) == |h| && Version(p) == Version(h)
            && U16At(p, |h| + 2) == U16At(u, 2) && U16At(p, |h| + 4) == U16At(u, 4)
  {
  }

  lemma CutOff(p: Packet, i: nat, k: nat)
    requires |p| >= i + 8 && i >= 20 && Ihl(p) == i && U16At(p, i + 4) == |p| - i && k < |p|
    ensures ExtractUdpPayload(p[..k]) == None
  {
    if k >= i + 8 { assert U16At(p[..k], i + 4) == U16At(p, i + 4); }
  }

  // ---------------------------------------------------------------- specification

  /** The twenty bytes of header before its checksum is filled in. */
  function BlankHeader(src: Octets4, dst: Octets4, total: nat): (r: seq<byte>)
    ensures |r| == 20
  {
    [0x45, 0] + BE16(total % 0x1_0000) + [0, 0, 0, 0, 64, 17, 0, 0] + src + dst
  }

  /** The datagram with a zero checksum field. */
  function BlankSegment(srcPort: u16, dstPort: u16, payload: seq<byte>): (r: seq<byte>)
    requires |payload| <= 65527
    ensures |r| == 8 + |payload|
  {
    BE16(srcPort) + BE16(dstPort) + BE16(8 + |payload|) + [0, 0] + payload
  }

  /** The reply: addresses and ports swapped, header sealed, then the datagram sealed together
      with its pseudo-header (RFC 768). */
  function Reply(q: Packet, payload: seq<byte>): (r: Packet)
    requires |q| >= 20 && |q| >= Ihl(q) + 4 && |payload| <= 65527
    ensures |r| == 28 + |payload|
  {
    var src: Octets4, dst: Octets4 := q[16..20], q[12..16];
    var seg := BlankSegment(U16At(q, Ihl(q) + 2), U16At(q, Ihl(q)), payload);
    SealedHeader(src, dst, 20 + |seg|) + SealedSegment(src, dst, seg)
  }

  function SealedHeader(src: Octets4, dst: Octets4, total: nat): (r: seq<byte>)
    ensures |r| == 20
  {
    Sealed(BlankHeader(src, dst, total), 10)
  }

  function SealedSegment(src: Octets4, dst: Octets4, seg: seq<byte>): (r: seq<byte>)
    requires 8 <= |seg| <= 0xFFFF
    ensures |r| == |seg|
  {
    Sealed(Pseudo(src, dst, 17, |seg|) + seg, 18)[12..]
  }

  // ---------------------------------------------------------------- theorems

  /** A whole datagram that can be delivered: no service bits, no identification, flags or fragment
      offset, and 64 hops to live (section 3.1 of RFC 791). */
  predicate Deliverable(h: seq<byte>) {
    |h| >= 20 && h[1] == 0 && U16At(h, 4) == 0 && U16At(h, 6) == 0 && h[8] == 64
  }

  lemma SealedHeaderShape(src: Octets4, dst: Octets4, total: nat)
    ensures var h := SealedHeader(src, dst, total);
            && h[0] == 0x45 && h[9] == 17 && Deliverable(h) && U16At(h, 2) == total % 0x1_0000
            && h[12..16] == src && h[16..20] == dst && Verifies(h)
  {
    hide OnesSum;
    var b := BlankHeader(src, dst, total);
    assert U16At(b, 2) == U16At(BE16(total % 0x1_0000), 0);
    assert b[12..16] == src && b[16..20] == dst;
    SealedVerifies(b, 10);
  }

  lemma SealedSegmentShape(src: Octets4, dst: Octets4, sp: u16, dp: u16, payload: seq<byte>)
    requires |payload| <= 65527
    ensures var seg := BlankSegment(sp, dp, payload);
            var s := SealedSegment(src, dst, seg);
            && U16At(s, 0) == sp && U16At(s, 2) == dp && U16At(s, 4) == 8 + |payload|
            && s[8..] == payload
            && Verifies(Pseudo(src, dst, 17, |s|) + s)
  {
    hide Complement, Pseudo, PutU16, BlankSegment, Verifies;
    var seg := BlankSegment(sp, dp, payload);
    SegmentFields(sp, dp, payload);
    SealedSegmentIs(src, dst, seg);
    var pseudo := Pseudo(src, dst, 17, |seg|);
    SealedVerifies(pseudo + seg, 18);
    assert SealedSegment(src, dst, seg)[8..] == seg[8..];
  }

  /** Sealing under a pseudo-header writes only the datagram's own checksum field. */
  lemma SealedSegmentIs(src: Octets4, dst: Octets4, seg: seq<byte>)
    requires 8 <= |seg| <= 0xFFFF
    ensures var pseudo := Pseudo(src, dst, 17, |seg|);
            var s := PutU16(seg, 6, Complement(pseudo + PutU16(seg, 6, 0)));
            SealedSegment(src, dst, seg) == s && Sealed(pseudo + seg, 18) == pseudo + s
  {
    hide Complement, Pseudo, PutU16;
    var pseudo := Pseudo(src, dst, 17, |seg|);
    PutRight(pseudo, seg, 6, 0);
    PutRight(pseudo, seg, 6, Complement(pseudo + PutU16(seg, 6, 0)));
  }

  lemma SegmentFields(sp: u16, dp: u16, payload: seq<byte>)
    requires |payload| <= 65527
    ensures var s := BlankSegment(sp, dp, payload);
            && U16At(s, 0) == sp && U16At(s, 2) == dp && U16At(s, 4) == 8 + |payload|
            && U16At(s, 6) == 0 && s[8..] == payload
  {
    var s := BlankSegment(sp, dp, payload);
    assert U16At(s, 0) == U16At(BE16(sp), 0);
    assert U16At(s, 2) == U16At(BE16(dp), 0);
    assert U16At(s, 4) == U16At(BE16(8 + |payload|), 0);
  }

  /** `r` carries `payload` back to the sender of `q`: it is a whole unfragmented datagram with 64 hops to
      live, the parsers beside the builder read it so, and both checksums are right. */
  predicate CarriesBack(q: Packet, payload: seq<byte>, r: Packet)
    requires |q| >= 20 && |q| >= Ihl(q) + 4
  {
    && |r| == 28 + |payload| && |payload| <= 65527 && HasHeader(r) && Ihl(r) == 20
    && r[1] == 0 && U16At(r, 4) == 0 && U16At(r, 6) == 0 && r[8] == 64
    && ExtractUdpPayload(r) == Some(payload)
    && r[12..16] == q[16..20] && r[16..20] == q[12..16]
    && U16At(r, 20) == U16At(q, Ihl(q) + 2) && UdpDstPort(r) == Some(U16At(q, Ihl(q)))
    && Verifies(Header(r))
    && Verifies(Pseudo(r[12..16], r[16..20], 17, |r| - 20) + r[20..])
  }

  /** Round trip: every reply carries its payload back. The IPv4 length field tells the truth exactly
      when the datagram fits it. */
  lemma ReplyReadsBack(q: Packet, payload: seq<byte>)
    requires |q| >= 20 && |q| >= Ihl(q) + 4 && |payload| <= 65527
    ensures CarriesBack(q, payload, Reply(q, payload))
    ensures U16At(Reply(q, payload), 2) == |Reply(q, payload)| <==> |payload| <= 65507
  {
    hide Verifies, Pseudo, SealedHeader, SealedSegment, BlankSegment, CarriesBack;
    var src: Octets4, dst: Octets4 := q[16..20], q[12..16];
    var sp, dp := U16At(q, Ihl(q) + 2), U16At(q, Ihl(q));
    var seg := BlankSegment(sp, dp, payload);
    var h, s := SealedHeader(src, dst, 20 + |seg|), SealedSegment(src, dst, seg);
    SealedHeaderShape(src, dst, 20 + |seg|);
    SealedSegmentShape(src, dst, sp, dp, payload);
    Assembled(q, payload, h, s);
    assert U16At(h + s, 2) == U16At(h, 2);
  }

  /** A header and a datagram that are right by themselves make a reply. */
  lemma Assembled(q: Packet, payload: seq<byte>, h: seq<byte>, s: seq<byte>)
    requires |q| >= 20 && |q| >= Ihl(q) + 4 && |payload| <= 65527 && |h| == 20 && |s| == 8 + |payload|
    requires h[0] == 0x45 && h[9] == 17 && Deliverable(h) && Verifies(h)
    requires h[12..16] == q[16..20] && h[16..20] == q[12..16]
    requires U16At(s, 0) == U16At(q, Ihl(q) + 2) && U16At(s, 2) == U16At(q, Ihl(q)) && U16At(s, 4) == |s|
    requires s[8..] == payload && Verifies(Pseudo(h[12..16], h[16..20], 17, |s|) + s)
    ensures CarriesBack(q, payload, h + s)
  {
    hide Verifies, Pseudo;
    var r := h + s;
    assert r[..20] == h && r[20..] == s;
    assert r[12..16] == h[12..16] && r[16..20] == h[16..20];
    assert U16At(r, 20) == U16At(s, 0) && U16At(r, 22) == U16At(s, 2) && U16At(r, 24) == U16At(s, 4);
    assert r[28..28 + |payload|] == s[8..];
  }

  /** RFC 768 reads a zero checksum field as "no checksum". The engine writes the computed value
      as it is, so a reply leaves unprotected exactly when the words of the pseudo-header and of
      the datagram add up to a multiple of 65535. */
  lemma ReplyIsUnprotectedIff(q: Packet, payload: seq<byte>)
    requires |q| >= 20 && |q| >= Ihl(q) + 4 && |payload| <= 65527
    ensures U16At(Reply(q, payload), 26) == 0
        <==> (U16At(q, 12) + U16At(q, 14) + U16At(q, 16) + U16At(q, 18) + 17 + 2 * (8 + |payload|)
              + U16At(q, Ihl(q)) + U16At(q, Ihl(q) + 2) + WordSum(payload)) % 0xFFFF == 0
  {
    hide Complement, WordSum, Reply, BlankSegment, PutU16, Pseudo;
    var src: Octets4, dst: Octets4 := q[16..20], q[12..16];
    var sp, dp := U16At(q, Ihl(q) + 2), U16At(q, Ihl(q));
    var seg := BlankSegment(sp, dp, payload);
    var pseudo := Pseudo(src, dst, 17, |seg|);
    ReplyChecksum(q, payload);
    WordSumAppend(pseudo, seg);
    PseudoSum(src, dst, 17, |seg|);
    SegmentSum(sp, dp, payload);
    ComplementIsZeroIff(pseudo + seg);
  }

  /** Every query has unprotected replies: after any payload of even length there is a last word that
      turns the checksum into zero. */
  lemma EveryQueryHasUnprotectedReply(q: Packet, payload: seq<byte>) returns (w: u16)
    requires |q| >= 20 && |q| >= Ihl(q) + 4 && |payload| <= 65525 && |payload| % 2 == 0
    ensures U16At(Reply(q, payload + BE16(w)), 26) == 0
  {
    hide WordSum, Reply, BE16;
    var rest := U16At(q, 12) + U16At(q, 14) + U16At(q, 16) + U16At(q, 18) + 17 + 2 * (8 + |payload| + 2)
                + U16At(q, Ihl(q)) + U16At(q, Ihl(q) + 2) + WordSum(payload);
    w := (0xFFFF - rest % 0xFFFF) % 0xFFFF;
    assert (rest + w) % 0xFFFF == 0 by { Complements(rest); }
    WordSumAppend(payload, BE16(w));
    TwoBytes(BE16(w));
    ReplyIsUnprotectedIff(q, payload + BE16(w));
  }

  lemma Complements(n: nat)
    ensures (n + (0xFFFF - n % 0xFFFF) % 0xFFFF) % 0xFFFF == 0
  {
  }

  lemma ReplyChecksum(q: Packet, payload: seq<byte>)
    requires |q| >= 20 && |q| >= Ihl(q) + 4 && |payload| <= 65527
    ensures var seg := BlankSegment(U16At(q, Ihl(q) + 2), U16At(q, Ihl(q)), payload);
            U16At(Reply(q, payload), 26) == Complement(Pseudo(q[16..20], q[12..16], 17, |seg|) + seg)
  {
    hide Complement, Pseudo, BlankSegment, SealedHeader, SealedSegment, PutU16;
    var seg := BlankSegment(U16At(q, Ihl(q) + 2), U16At(q, Ihl(q)), payload);
    SegmentFields(U16At(q, Ihl(q) + 2), U16At(q, Ihl(q)), payload);
    PutSame(seg, 6);
    SealedSegmentIs(q[16..20], q[12..16], seg);
    assert U16At(Reply(q, payload), 26) == U16At(SealedSegment(q[16..20], q[12..16], seg), 6);
  }

  lemma ComplementIsZeroIff(s: seq<byte>)
    requires WordSum(s) > 0
    ensures Complement(s) == 0 <==> WordSum(s) % 0xFFFF == 0
  {
    hide OnesSum, WordSum;
    VerifiesIffMultiple(s);
  }

  lemma SegmentSum(sp: u16, dp: u16, payload: seq<byte>)
    requires |payload| <= 65527
    ensures WordSum(BlankSegment(sp, dp, payload)) == sp + dp + 8 + |payload| + WordSum(payload)
  {
    hide WordSum, BE16, U16At;
    WordsThenBytes(BE16(sp), BE16(dp), BE16(8 + |payload|), payload);
  }

  lemma WordsThenBytes(a: seq<byte>, b: seq<byte>, c: seq<byte>, t: seq<byte>)
    requires |a| == 2 && |b| == 2 && |c| == 2
    ensures WordSum(a + b + c + [0, 0] + t) == U16At(a, 0) + U16At(b, 0) + U16At(c, 0) + WordSum(t)
  {
    hide WordSum, U16At;
    WordSumAppend(a + b + c + [0, 0], t);
    WordSumAppend(a + b + c, [0, 0]);
    WordSumAppend(a + b, c);
    WordSumAppend(a, b);
    TwoBytes(a);
    TwoBytes(b);
    TwoBytes(c);
    ZeroWord();
  }

  lemma ZeroWord()
    ensures WordSum([0, 0]) == 0
  {
    TwoBytes([0, 0]);
  }

  // ---------------------------------------------------------------- SERVFAIL

  /** `build_servfail` on a value. */
  function Servfail(query: seq<byte>): seq<byte> {
    if |query| < 2 then []
    else if |query| < 4 then query
    else query[2 := 0x81][3 := 0x82]
  }

  /** The fields of the two flag bytes of section 4.1.1 of RFC 1035. */
  datatype DnsFlags = DnsFlags(
    qr: int, opcode: int, aa: int, tc: int, rd: int, ra: int, z: int, rcode: int)

  function DnsFlagsOf(hi: byte, lo: byte): DnsFlags {
    DnsFlags(hi / 128, hi / 8 % 16, hi / 4 % 2, hi / 2 % 2, hi % 2, lo / 128, lo / 16 % 8, lo % 16)
  }

  /** Same transaction id; a response to a standard query, not authoritative, not truncated, recursion
      desired and available, reserved bits clear, code 2; every byte behind the flags the query's own. */
  predicate AnswersServfail(query: seq<byte>, r: seq<byte>) {
    && |r| == |query| && |r| >= 4 && U16At(r, 0) == U16At(query, 0)
    && DnsFlagsOf(r[2], r[3]) == DnsFlags(1, 0, 0, 0, 1, 1, 0, 2)
    && r[4..] == query[4..]
  }

  /** A query is answered with SERVFAIL exactly when it holds the two flag bytes; one of two or three
      bytes is sent back as it is, and a shorter one gets an empty answer. */
  lemma ServfailAnswersQueryIff(query: seq<byte>)
    ensures AnswersServfail(query, Servfail(query)) <==> |query| >= 4
    ensures |Servfail(query)| == if |query| < 2 then 0 else |query|
    ensures 2 <= |query| < 4 ==> Servfail(query) == query
  {
  }

  /** The failure path end to end, for every intercepted query: the packet is one the builder accepts,
      the reply carries the answer back to the query's sender, from port 53, with a true length
      field, and the answer is a SERVFAIL with the query's own id and question exactly when the query
      has at least four bytes. */
  lemma FailedQueryIsAnswered(q: Packet)
    requires ParseIp(q).Ok? && |q| <= 0xFFFF && UdpDstPort(q) == Some(53) && ExtractUdpPayload(q).Some?
    ensures |q| >= 28 && Version(q) == 4 && q[9] == 17
    ensures var query := ExtractUdpPayload(q).value;
            var answer := Servfail(query);
            && |answer| <= 65527 && CarriesBack(q, answer, Reply(q, answer))
            && U16At(Reply(q, answer), 20) == 53 && U16At(Reply(q, answer), 2) == |Reply(q, answer)|
            && (AnswersServfail(query, answer) <==> |query| >= 4)
  {
    hide Reply, Verifies, Pseudo;
    var query := ExtractUdpPayload(q).value;
    ServfailAnswersQueryIff(query);
    ReplyReadsBack(q, Servfail(query));
  }

  // ---------------------------------------------------------------- the code

  /** `build_servfail` */
  method BuildServfail(query: seq<byte>) returns (r: seq<byte>)
    ensures r == Servfail(query)
  {
    if |query| < 2 { return []; }
    var resp := new byte[|query|](i requires 0 <= i < |query| => query[i]);
    assert resp[..] == query;
    if resp.Length >= 4 {
      resp[2] := 0x81;
      resp[3] := 0x82;
    }
    r := resp[..];
  }

  function FixIp4(p: Packet): Packet
    requires |p| >= 20
  {
    PutU16(p, 10, Complement(PutU16(p, 10, 0)[..20]))
  }

  /** What `fix_udp_checksum` needs in order not to index out of bounds or overflow. */
  predicate UdpFixable(p: Packet) { |p| >= 20 && Ihl(p) + 8 <= |p| <= Ihl(p) + 0xFFFF }

  /** The bytes the UDP checksum covers when the header has length `i`. */
  function UdpCover(p: Packet, i: nat): seq<byte>
    requires |p| >= 20 && i <= |p| <= i + 0xFFFF
  {
    Pseudo(p[12..16], p[16..20], 17, |p| - i) + p[i..]
  }

  /** The field is zeroed before anything is read, addresses included. */
  function FixUdp(p: Packet): Packet
    requires UdpFixable(p)
  {
    PutU16(p, Ihl(p) + 6, Complement(UdpCover(PutU16(p, Ihl(p) + 6, 0), Ihl(p))))
  }

  lemma FixIp4Seals(h: seq<byte>, t: seq<byte>)
    requires |h| == 20
    ensures FixIp4(h + t) == Sealed(h, 10) + t
  {
    hide Complement, PutU16;
    PutLeft(h, t, 10, 0);
    assert (PutU16(h, 10, 0) + t)[..20] == PutU16(h, 10, 0);
    PutLeft(h, t, 10, Complement(PutU16(h, 10, 0)));
  }

  /** The datagram repair seals the datagram under its pseudo-header and leaves the header as it was,
      however long that is. */
  lemma FixUdpSeals(h: seq<byte>, t: seq<byte>)
    requires |h| >= 20 && 8 <= |t| <= 0xFFFF && Ihl(h) == |h|
    ensures FixUdp(h + t) == h + SealedSegment(h[12..16], h[16..20], t)
  {
    hide Complement, PutU16, Pseudo;
    var p := h + t;
    assert p[12..16] == h[12..16] && p[16..20] == h[16..20];
    SealedSegmentIs(h[12..16], h[16..20], t);
    PutRight(h, t, 6, 0);
    var z := h + PutU16(t, 6, 0);
    assert z[|h|..] == PutU16(t, 6, 0) && z[12..16] == h[12..16] && z[16..20] == h[16..20];
    PutRight(h, t, 6, Complement(Pseudo(h[12..16], h[16..20], 17, |t|) + PutU16(t, 6, 0)));
  }

  /** So the datagram verifies, and only its checksum field has changed. */
  lemma FixUdpVerifies(p: Packet)
    requires UdpFixable(p) && Ihl(p) >= 20
    ensures var r := FixUdp(p);
            && |r| == |p| && Verifies(UdpCover(r, Ihl(p)))
            && forall k :: 0 <= k < |p| && k != Ihl(p) + 6 && k != Ihl(p) + 7 ==> r[k] == p[k]
  {
    hide Complement, PutU16, Pseudo, FixUdp, Verifies, SealedSegment;
    var h, t := p[..Ihl(p)], p[Ihl(p)..];
    assert p == h + t;
    FixUdpSeals(h, t);
    SealedSegmentIs(h[12..16], h[16..20], t);
    SealedVerifies(Pseudo(h[12..16], h[16..20], 17, |t|) + t, 18);
    var r := FixUdp(p);
    assert r[12..16] == h[12..16] && r[16..20] == h[16..20];
    assert r[Ihl(p)..] == SealedSegment(h[12..16], h[16..20], t);
  }

  /** `fix_ip4_checksum` */
  method FixIp4Checksum(a: array<byte>)
    requires a.Length >= 20
    modifies a
    ensures a[..] == FixIp4(old(a[..]))
  {
    hide Complement, PutU16;
    ghost var p := a[..];
    PutU16InPlace(a, 10, 0);
    assert a[..20] == a[..][..20];
    var c := ChecksumOf(a[..20]);
    PutU16InPlace(a, 10, c);
    PutPut(p, 10, 0, c);
  }

  /** The sum of `fix_udp_checksum`: the pseudo-header is never built, only added up. */
  method UdpSum(src: Octets4, dst: Octets4, seg: seq<byte>) returns (csum: u16)
    requires |seg| <= 0xFFFF
    ensures csum == Complement(Pseudo(src, dst, 17, |seg|) + seg)
  {
    hide Complement, Pseudo, WordSum, Canon;
    var sum := AddWords(0, src);
    FourBytes(src);
    sum := AddWords(sum, dst);
    FourBytes(dst);
    sum := sum + 17;
    sum := sum + |seg|;
    PseudoSum(src, dst, 17, |seg|);
    sum := AddWords(sum, seg);
    WordSumAppend(Pseudo(src, dst, 17, |seg|), seg);
    csum := Fold(sum);
    ComplementIs(Pseudo(src, dst, 17, |seg|) + seg);
  }

  /** `fix_udp_checksum` */
  method FixUdpChecksum(a: array<byte>)
    requires UdpFixable(a[..])
    modifies a
    ensures a[..] == FixUdp(old(a[..]))
  {
    hide Complement, PutU16, Pseudo, U16At;
    ghost var p := a[..];
    var ihl := a[0] as int % 16 * 4;
    PutU16InPlace(a, ihl + 6, 0);
    ghost var z := PutU16(p, ihl + 6, 0);
    assert a[12..16] == z[12..16] && a[16..20] == z[16..20] && a[ihl..] == z[ihl..];
    var csum := UdpSum(a[12..16], a[16..20], a[ihl..]);
    PutU16InPlace(a, ihl + 6, csum);
    PutPut(p, ihl + 6, 0, csum);
  }

  lemma ComplementIs(s: seq<byte>)
    ensures Complement(s) == 0xFFFF - Canon(WordSum(s))
  {
    DeferredCarriesAreOnesSum(s);
  }

  /** The reply before its checksums, as the builder lays it out. */
  function Draft(q: Packet, payload: seq<byte>): Packet
    requires |q| >= 20 && |q| >= Ihl(q) + 4 && |payload| <= 65527
  {
    BlankHeader(q[16..20], q[12..16], 28 + |payload|)
    + BlankSegment(U16At(q, Ihl(q) + 2), U16At(q, Ihl(q)), payload)
  }

  lemma DraftBecomesReply(q: Packet, payload: seq<byte>)
    requires |q| >= 20 && |q| >= Ihl(q) + 4 && |payload| <= 65527
    ensures var d := FixIp4(Draft(q, payload));
            |d| == 28 + |payload| && Ihl(d) == 20 && FixUdp(d) == Reply(q, payload)
  {
    hide BlankHeader, BlankSegment, FixIp4, FixUdp, Sealed, SealedSegment;
    var src: Octets4, dst: Octets4 := q[16..20], q[12..16];
    var h := BlankHeader(src, dst, 28 + |payload|);
    var s := BlankSegment(U16At(q, Ihl(q) + 2), U16At(q, Ihl(q)), payload);
    FixIp4Seals(h, s);
    SealedHeaderShape(src, dst, 28 + |payload|);
    FixUdpSeals(Sealed(h, 10), s);
  }

  /** `build_udp_reply`. The source indexes the UDP header without a check of its own and copies
      the response into a buffer sized by a 16-bit length; the preconditions are what its callers
      guarantee for those two steps. */
  method BuildUdpReply(q: Packet, resp: seq<byte>) returns (r: Option<Packet>)
    requires |q| >= 28 && Version(q) == 4 && q[9] == 17 ==> |q| >= Ihl(q) + 4
    requires |resp| <= 65527
    ensures r.Some? <==> |q| >= 28 && Version(q) == 4 && q[9] == 17
    ensures r.Some? ==> r.value == Reply(q, resp)
  {
    hide FixIp4, FixUdp, Reply;
    if |q| < 28 || q[0] / 16 != 4 || q[9] != 17 { return None; }
    var ihl := q[0] as int % 16 * 4;
    var udpLen := 8 + |resp|;
    var total := 20 + udpLen;
    var out := new byte[total](_ => 0);
    WordBytes(q, ihl);
    WordBytes(q, ihl + 2);
    FillHeader(out, q[16..20], q[12..16], total);
    FillSegment(out, q[ihl + 2..ihl + 4], q[ihl..ihl + 2], udpLen, resp);
    assert out[..] == out[..20] + out[20..];
    DraftBecomesReply(q, resp);
    FixIp4Checksum(out);
    FixUdpChecksum(out);
    r := Some(out[..]);
  }

  method FillHeader(out: array<byte>, src: Octets4, dst: Octets4, total: nat)
    requires out.Length == total && 20 <= total && forall k :: 0 <= k < total ==> out[k] == 0
    modifies out
    ensures out[..20] == BlankHeader(src, dst, total)
    ensures forall k :: 20 <= k < total ==> out[k] == 0
  {
    hide BE16;
    var len := BE16(total % 0x1_0000);
    out[0] := 0x45;
    out[2], out[3] := len[0], len[1];
    out[8] := 64;
    out[9] := 17;
    forall k | 0 <= k < 4 { out[12 + k] := src[k]; }
    forall k | 0 <= k < 4 { out[16 + k] := dst[k]; }
  }

  method FillSegment(out: array<byte>, srcPort: seq<byte>, dstPort: seq<byte>, udpLen: u16, resp: seq<byte>)
    requires out.Length == 20 + udpLen && udpLen == 8 + |resp| && |srcPort| == 2 && |dstPort| == 2
    requires forall k :: 20 <= k < out.Length ==> out[k] == 0
    modifies out
    ensures out[20..] == srcPort + dstPort + BE16(udpLen) + [0, 0] + resp
    ensures out[..20] == old(out[..20])
  {
    hide BE16;
    FillPorts(out, srcPort, dstPort, BE16(udpLen));
    ghost var udp := out[20..28];
    forall k | 0 <= k < |resp| { out[28 + k] := resp[k]; }
    assert out[20..28] == udp;
    assert out[28..] == resp;
    assert out[20..] == out[20..28] + out[28..];
  }

  method FillPorts(out: array<byte>, srcPort: seq<byte>, dstPort: seq<byte>, len: seq<byte>)
    requires out.Length >= 28 && |srcPort| == 2 && |dstPort| == 2 && |len| == 2
    requires out[26] == 0 && out[27] == 0
    modifies out
    ensures out[20..28] == srcPort + dstPort + len + [0, 0]
    ensures out[..20] == old(out[..20])
  {
    out[20], out[21] := srcPort[0], srcPort[1];
    out[22], out[23] := dstPort[0], dstPort[1];
    out[24], out[25] := len[0], len[1];
  }
}
