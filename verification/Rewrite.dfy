/** In-place rewriting of IPv4/TCP packets (gravital-stack, rewrite.rs).

    Every method edits the packet's array and is proved equal to a function on byte sequences;
    the theorems are about those functions. */
module Rewrite {
  import opened Bytes
  import opened Checksum
  import opened Ipv4

  /** The guard shared by both rewrites and by `extract_tcp_addrs`. */
  predicate IsTcp4(p: Packet) {
    |p| >= 20 && Version(p) == 4 && p[9] == 6 && |p| >= Ihl(p) + 20
  }

  /** A TCP packet that `IpView::parse` accepted, of a length an IPv4 datagram can have. */
  predicate WellFormed(p: Packet) {
    IsTcp4(p) && Ihl(p) >= 20 && |p| <= 0xFFFF
  }

  /** What `fix_tcp_checksum` needs in order not to index out of bounds. */
  predicate Fixable(p: Packet) {
    |p| >= 20 && |p| >= Ihl(p) + 18 && |p| <= 0xFFFF
  }

  function SrcIp(p: Packet): Octets4 requires |p| >= 20 { p[12..16] }

  function DstIp(p: Packet): Octets4 requires |p| >= 20 { p[16..20] }

  function SrcPort(p: Packet): u16 requires IsTcp4(p) { U16At(p, Ihl(p)) }

  function DstPort(p: Packet): u16 requires IsTcp4(p) { U16At(p, Ihl(p) + 2) }

  /** A flow: the application's address and the remote it believes it is talking to. */
  datatype Flow = Flow(src: SocketAddr, dst: SocketAddr)

  /** `extract_tcp_addrs` */
  function ExtractTcpAddrs(p: Packet): Option<Flow> {
    if !IsTcp4(p) then None
    else Some(Flow(SocketAddr(V4(SrcIp(p)), SrcPort(p)), SocketAddr(V4(DstIp(p)), DstPort(p))))
  }

  /** On bytes: addresses at 12 and 16, ports behind the header, whose length is four times the low
      nibble of the first byte; high bytes first, and nothing unless a whole TCP header is there. */
  lemma TcpAddrsAre(p: Packet)
    ensures ExtractTcpAddrs(p).Some?
        <==> |p| >= 20 && p[0] / 16 == 4 && p[9] == 6 && |p| >= p[0] as int % 16 * 4 + 20
    ensures ExtractTcpAddrs(p).Some? ==>
              var i := p[0] as int % 16 * 4;
              && ExtractTcpAddrs(p).value.src == SocketAddr(V4(p[12..16]), p[i] as int * 256 + p[i + 1] as int)
              && ExtractTcpAddrs(p).value.dst == SocketAddr(V4(p[16..20]), p[i + 2] as int * 256 + p[i + 3] as int)
  {
  }

  /** `is_tcp_syn`: `flags & 0x12 == 0x02`, that is bit 1 set and bit 4 clear. */
  predicate IsTcpSyn(p: Packet)
    requires |p| > 0
  {
    |p| >= Ihl(p) + 14
    && var flags := p[Ihl(p) + 13] as int;
       flags / 2 % 2 == 1 && flags / 16 % 2 == 0
  }

  /** The flag bits of a TCP header, high bit first (section 3.1 of RFC 793; RFC 3168 for the first two). */
  datatype Flags = Flags(
    cwr: bool, ece: bool, urg: bool, ack: bool, psh: bool, rst: bool, syn: bool, fin: bool)

  function Nibble(a: bool, b: bool, c: bool, d: bool): (r: nat)
    ensures r < 16 && (r >= 8 <==> a) && (r % 8 >= 4 <==> b) && (r / 2 % 2 == 1 <==> c) && (r % 2 == 1 <==> d)
  {
    (if a then 8 else 0) + (if b then 4 else 0) + (if c then 2 else 0) + (if d then 1 else 0)
  }

  function FlagByte(f: Flags): byte {
    16 * Nibble(f.cwr, f.ece, f.urg, f.ack) + Nibble(f.psh, f.rst, f.syn, f.fin)
  }

  /** A packet opens a connection exactly when SYN is set and ACK is not, whatever the other bits. */
  lemma IsTcpSynIff(p: Packet, f: Flags)
    requires |p| > 0 && |p| > Ihl(p) + 13 && p[Ihl(p) + 13] == FlagByte(f)
    ensures IsTcpSyn(p) <==> f.syn && !f.ack
  {
    hide Nibble;
    var high, low := Nibble(f.cwr, f.ece, f.urg, f.ack), Nibble(f.psh, f.rst, f.syn, f.fin);
    NibblesSplit(high, low);
  }

  lemma NibblesSplit(high: nat, low: nat)
    requires low < 16
    ensures (16 * high + low) / 16 == high && (16 * high + low) / 2 % 2 == low / 2 % 2
  {
    Halves(8 * high + low / 2, low % 2);
    Halves(4 * high + low / 2 / 2, low / 2 % 2);
  }

  lemma Halves(q: nat, r: nat)
    requires r < 2
    ensures (2 * q + r) / 2 == q && (2 * q + r) % 2 == r
  {
  }

  /** Every byte is the flag byte of some flags. */
  lemma FlagsOf(b: byte) returns (f: Flags)
    ensures FlagByte(f) == b
  {
    hide Nibble;
    var high, low := b as int / 16, b as int % 16;
    f := Flags(high >= 8, high % 8 >= 4, high % 4 >= 2, high % 2 >= 1,
               low >= 8, low % 8 >= 4, low % 4 >= 2, low % 2 >= 1);
    NibbleOf(high);
    NibbleOf(low);
  }

  lemma NibbleOf(n: nat)
    requires n < 16
    ensures Nibble(n >= 8, n % 8 >= 4, n % 4 >= 2, n % 2 >= 1) == n
  {
  }

  // ---------------------------------------------------------------- specification

  /** The bytes the TCP checksum covers: pseudo-header, then segment. */
  function TcpCover(p: Packet): (r: seq<byte>)
    requires 20 <= |p| <= 0xFFFF && Ihl(p) <= |p|
    ensures |r| == 12 + |p| - Ihl(p)
  {
    Pseudo(SrcIp(p), DstIp(p), 6, |p| - Ihl(p)) + p[Ihl(p)..]
  }

  /** The TCP checksum of `p`, computed with its own field read as zero. */
  function TcpSum(p: Packet): u16
    requires Fixable(p)
  {
    Complement(Pseudo(SrcIp(p), DstIp(p), 6, |p| - Ihl(p)) + PutU16(p, Ihl(p) + 16, 0)[Ihl(p)..])
  }

  function FixTcp(p: Packet): (r: Packet)
    requires Fixable(p)
    ensures |r| == |p|
  {
    PutU16(p, Ihl(p) + 16, TcpSum(p))
  }

  function FixIpv4(p: Packet): (r: Packet)
    requires |p| >= 20 && Ihl(p) <= |p|
    ensures |r| == |p|
  {
    PutU16(p, 10, Complement(PutU16(p, 10, 0)[..Ihl(p)]))
  }

  /** `rewrite_inbound` when its guard holds, for every header length the nibble can name. */
  function Inbound(p: Packet, vport: u16): (r: Packet)
    requires IsTcp4(p) && |p| <= 0xFFFF
    ensures |r| == |p|
  {
    var q := PutU16(p, Ihl(p) + 2, vport);
    assert Ihl(p) + 2 != 8 && Ihl(p) + 2 != 9;
    FixIpv4(FixTcp(q))
  }

  function PutIp(p: Packet, i: nat, ip: Octets4): (r: Packet)
    requires i + 4 <= |p|
    ensures |r| == |p| && r[i..i + 4] == ip
    ensures forall k :: 0 <= k < |p| && !(i <= k < i + 4) ==> r[k] == p[k]
  {
    p[..i] + ip + p[i + 4..]
  }

  /** The packet after `rewrite_outbound` has stored address and port. With a header length of zero
      the port lands on the version byte, and the repairs go by what they find there. */
  function Stamped(p: Packet, ip: Octets4, port: u16): (r: Packet)
    requires IsTcp4(p)
    ensures |r| == |p|
  {
    PutU16(PutIp(p, 12, ip), Ihl(p), port)
  }

  /** `rewrite_outbound` when its guard holds and it does not panic. */
  function Outbound(p: Packet, ip: Octets4, port: u16): (r: Packet)
    requires IsTcp4(p) && Fixable(Stamped(p, ip, port))
    ensures |r| == |p|
  {
    FixIpv4(FixTcp(Stamped(p, ip, port)))
  }

  lemma StampedIsFixable(p: Packet, ip: Octets4, port: u16)
    requires WellFormed(p)
    ensures WellFormed(Stamped(p, ip, port)) && Fixable(Stamped(p, ip, port)) && Ihl(Stamped(p, ip, port)) == Ihl(p)
  {
    hide PutU16;
  }

  // ---------------------------------------------------------------- checksums verify

  /** Both checksums hold when the segment is taken to fill the buffer, as the engine takes it. */
  predicate ChecksumsHold(p: Packet)
    requires WellFormed(p)
  {
    Verifies(Header(p)) && Verifies(TcpCover(p))
  }

  /** The same in words, with no pseudo-header built: the header's words, and the four address words,
      the protocol number, the segment's length and its words, both add up to multiples of 65535. */
  lemma ChecksumsHoldIff(p: Packet)
    requires WellFormed(p)
    ensures ChecksumsHold(p)
        <==> && WordSum(p[..Ihl(p)]) % 0xFFFF == 0
             && (U16At(p, 12) + U16At(p, 14) + U16At(p, 16) + U16At(p, 18) + 6 + (|p| - Ihl(p))
                 + WordSum(p[Ihl(p)..])) % 0xFFFF == 0
  {
    hide WordSum, Verifies, Pseudo;
    VerifiesIffMultiple(Header(p));
    VerifiesIffMultiple(TcpCover(p));
    OtherWordIsNonZero(Header(p), 0, 10);
    PseudoSum(SrcIp(p), DstIp(p), 6, |p| - Ihl(p));
    WordSumAppend(Pseudo(SrcIp(p), DstIp(p), 6, |p| - Ihl(p)), p[Ihl(p)..]);
  }

  /** `q` is `p` with the bytes the TCP checksum covers sealed and the same header. */
  predicate TcpSealed(p: Packet, q: Packet)
    requires WellFormed(p)
  {
    WellFormed(q) && Header(q) == Header(p) && TcpCover(q) == Sealed(TcpCover(p), 28)
  }

  /** `q` is `p` with the header sealed and everything the TCP checksum covers unchanged. */
  predicate HeaderSealed(p: Packet, q: Packet)
    requires WellFormed(p)
  {
    WellFormed(q) && TcpCover(q) == TcpCover(p) && Header(q) == Sealed(Header(p), 10)
  }

  lemma FixTcpSeals(p: Packet)
    requires WellFormed(p)
    ensures TcpSealed(p, FixTcp(p))
  {
    hide Complement, PutU16;
    var i := Ihl(p) + 16;
    CoverOfPut(p, 0);
    var z := PutU16(p, i, 0);
    assert TcpCover(z) == Pseudo(SrcIp(p), DstIp(p), 6, |p| - Ihl(p)) + z[Ihl(p)..];
    CoverOfPut(p, Complement(TcpCover(z)));
  }

  lemma CoverOfPut(p: Packet, v: u16)
    requires WellFormed(p)
    ensures var q := PutU16(p, Ihl(p) + 16, v);
            && WellFormed(q) && Header(q) == Header(p)
            && SrcIp(q) == SrcIp(p) && DstIp(q) == DstIp(p)
            && TcpCover(q) == PutU16(TcpCover(p), 28, v)
  {
    var q := PutU16(p, Ihl(p) + 16, v);
    assert SrcIp(q) == SrcIp(p) && DstIp(q) == DstIp(p);
    assert q[Ihl(p)..] == PutU16(p[Ihl(p)..], 16, v);
  }

  lemma FixIpv4Seals(p: Packet)
    requires WellFormed(p)
    ensures HeaderSealed(p, FixIpv4(p))
  {
    hide Complement, PutU16;
    var q := FixIpv4(p);
    assert PutU16(p, 10, 0)[..Ihl(p)] == PutU16(Header(p), 10, 0);
    assert SrcIp(q) == SrcIp(p) && DstIp(q) == DstIp(p);
    assert q[Ihl(p)..] == p[Ihl(p)..];
  }

  lemma RepairedChecksumsHold(p: Packet)
    requires WellFormed(p)
    ensures WellFormed(FixIpv4(FixTcp(p))) && ChecksumsHold(FixIpv4(FixTcp(p)))
  {
    hide Complement, PutU16;
    FixTcpSeals(p);
    FixIpv4Seals(FixTcp(p));
    SealedVerifies(TcpCover(p), 28);
    SealedVerifies(Header(p), 10);
  }

  lemma InboundChecksumsHold(p: Packet, vport: u16)
    requires WellFormed(p)
    ensures WellFormed(Inbound(p, vport)) && ChecksumsHold(Inbound(p, vport))
  {
    RepairedChecksumsHold(PutU16(p, Ihl(p) + 2, vport));
  }

  lemma OutboundChecksumsHold(p: Packet, ip: Octets4, port: u16)
    requires WellFormed(p)
    ensures Fixable(Stamped(p, ip, port))
    ensures WellFormed(Outbound(p, ip, port)) && ChecksumsHold(Outbound(p, ip, port))
  {
    hide Stamped;
    StampedIsFixable(p, ip, port);
    RepairedChecksumsHold(Stamped(p, ip, port));
  }

  // ---------------------------------------------------------------- the receiver's view

  /** Where a receiver ends the segment (`Ipv4View::payload`): at the total length, or at the end
      of the buffer. */
  function SegmentEnd(p: Packet): nat
    requires |p| >= 20
  {
    Min(U16At(p, 2), |p|)
  }

  /** The total length leaves room for a TCP header. */
  predicate Delimited(p: Packet) { WellFormed(p) && U16At(p, 2) >= Ihl(p) + 20 }

  /** The bytes a receiver checks: it does not see what follows the datagram in the buffer. */
  function ReceiverCover(p: Packet): seq<byte>
    requires Delimited(p)
  {
    Pseudo(SrcIp(p), DstIp(p), 6, SegmentEnd(p) - Ihl(p)) + p[Ihl(p)..SegmentEnd(p)]
  }

  predicate ReceiverAccepts(p: Packet)
    requires Delimited(p)
  {
    Verifies(Header(p)) && Verifies(ReceiverCover(p))
  }

  function Padding(p: Packet): seq<byte>
    requires |p| >= 20
  {
    p[SegmentEnd(p)..]
  }

  /** The padding's words, which straddle the receiver's if the segment has odd length. */
  function PaddingWords(p: Packet): nat
    requires Delimited(p)
  {
    WordSum((if (SegmentEnd(p) - Ihl(p)) % 2 == 0 then [] else [0]) + Padding(p))
  }

  /** The padding and its length add up to nothing in ones' complement; no padding always does. */
  predicate PaddingIsNeutral(p: Packet)
    requires Delimited(p)
  {
    (|Padding(p)| + PaddingWords(p)) % 0xFFFF == 0
  }

  lemma CoverSplits(p: Packet)
    requires Delimited(p)
    ensures WordSum(TcpCover(p)) == WordSum(ReceiverCover(p)) + |Padding(p)| + PaddingWords(p)
    ensures WordSum(ReceiverCover(p)) > 0
  {
    hide WordSum, Pseudo;
    var i, e := Ihl(p), SegmentEnd(p);
    var seg, pad := p[i..e], Padding(p);
    assert p[i..] == seg + pad;
    WordSumAppend(Pseudo(SrcIp(p), DstIp(p), 6, |p| - i), p[i..]);
    WordSumAppend(Pseudo(SrcIp(p), DstIp(p), 6, e - i), seg);
    PseudoSum(SrcIp(p), DstIp(p), 6, |p| - i);
    PseudoSum(SrcIp(p), DstIp(p), 6, e - i);
    if |seg| % 2 == 0 {
      WordSumAppend(seg, pad);
      assert [] + pad == pad;
    } else {
      WordSumAppendOdd(seg, pad);
    }
  }

  /** A packet whose checksums hold over the buffer is accepted exactly when the padding is neutral. */
  lemma ReceiverAcceptsIff(p: Packet)
    requires Delimited(p) && ChecksumsHold(p)
    ensures ReceiverAccepts(p) <==> PaddingIsNeutral(p)
    ensures U16At(p, 2) >= |p| ==> PaddingIsNeutral(p)
  {
    hide Verifies, TcpCover, ReceiverCover, PaddingWords, WordSum;
    CoverSplits(p);
    VerifiesIffMultiple(TcpCover(p));
    VerifiesIffMultiple(ReceiverCover(p));
    if U16At(p, 2) >= |p| { NoPaddingIsNeutral(p); }
  }

  lemma NoPaddingIsNeutral(p: Packet)
    requires Delimited(p) && U16At(p, 2) >= |p|
    ensures PaddingIsNeutral(p)
  {
    hide WordSum;
    assert Padding(p) == [];
    ZeroWords([] + Padding(p));
    ZeroWords([0] + Padding(p));
  }

  /** Whether a receiver accepts an inbound rewrite depends on the padding alone: always without
      padding, otherwise exactly when the padding is neutral. */
  lemma InboundAcceptedIff(p: Packet, vport: u16)
    requires Delimited(p)
    ensures Delimited(Inbound(p, vport)) && (ReceiverAccepts(Inbound(p, vport)) <==> PaddingIsNeutral(p))
    ensures U16At(p, 2) >= |p| ==> ReceiverAccepts(Inbound(p, vport))
  {
    hide Inbound, ReceiverAccepts, ChecksumsHold;
    InboundChecksumsHold(p, vport);
    InboundFrame(p, vport);
    SamePadding(p, Inbound(p, vport));
    ReceiverAcceptsIff(Inbound(p, vport));
  }

  lemma OutboundAcceptedIff(p: Packet, ip: Octets4, port: u16)
    requires Delimited(p)
    ensures Fixable(Stamped(p, ip, port)) && Delimited(Outbound(p, ip, port))
    ensures ReceiverAccepts(Outbound(p, ip, port)) <==> PaddingIsNeutral(p)
    ensures U16At(p, 2) >= |p| ==> ReceiverAccepts(Outbound(p, ip, port))
  {
    hide Outbound, Stamped, ReceiverAccepts, ChecksumsHold;
    OutboundChecksumsHold(p, ip, port);
    OutboundFrame(p, ip, port);
    SamePadding(p, Outbound(p, ip, port));
    ReceiverAcceptsIff(Outbound(p, ip, port));
  }

  /** Zero padding, such as a link layer adds, is never neutral: the engine counts its length into
      the pseudo-header, and the receiver refuses the packet. */
  lemma ZeroPaddingIsRefused(p: Packet, vport: u16)
    requires Delimited(p) && Padding(p) != [] && forall k :: 0 <= k < |Padding(p)| ==> Padding(p)[k] == 0
    ensures Delimited(Inbound(p, vport)) && !ReceiverAccepts(Inbound(p, vport))
  {
    hide Inbound, WordSum, ReceiverAccepts;
    InboundAcceptedIff(p, vport);
    var pad := Padding(p);
    ZeroWords(pad);
    ZeroWords([0] + pad);
    assert [] + pad == pad;
  }

  lemma {:induction false} ZeroWords(s: seq<byte>)
    requires forall k :: 0 <= k < |s| ==> s[k] == 0
    ensures WordSum(s) == 0
  {
    if s != [] { ZeroWords(s[..|s| - 1]); }
  }

  /** The rewrites leave total length and padding alone. */
  lemma SamePadding(p: Packet, q: Packet)
    requires Delimited(p) && WellFormed(q) && |q| == |p|
    requires forall k | 0 <= k < |p| && !(10 <= k < 16) && !(Ihl(p) <= k < Ihl(p) + 20) :: q[k] == p[k]
    ensures Delimited(q) && Padding(q) == Padding(p) && (PaddingIsNeutral(q) <==> PaddingIsNeutral(p))
  {
    hide WordSum;
    assert q[0] == p[0] && q[2] == p[2] && q[3] == p[3];
    assert Ihl(q) == Ihl(p) && U16At(q, 2) == U16At(p, 2) && SegmentEnd(q) == SegmentEnd(p);
  }

  // ---------------------------------------------------------------- frames

  /** A position inside one of the two checksum fields. */
  predicate ChecksumByte(p: Packet, k: int)
    requires |p| > 0
  {
    10 <= k < 12 || Ihl(p) + 16 <= k < Ihl(p) + 18
  }

  lemma InboundFrame(p: Packet, vport: u16)
    requires WellFormed(p)
    ensures var q := Inbound(p, vport);
            && (forall k | 0 <= k < |p| && !ChecksumByte(p, k) && !(Ihl(p) + 2 <= k < Ihl(p) + 4) ::
                  q[k] == p[k])
            && IsTcp4(q)
            && ExtractTcpAddrs(q) == Some(ExtractTcpAddrs(p).value.(
                 dst := SocketAddr(V4(DstIp(p)), vport)))
  {
    hide Complement, PutU16;
    var q := Inbound(p, vport);
    assert SrcIp(q) == SrcIp(p) && DstIp(q) == DstIp(p);
  }

  lemma OutboundFrame(p: Packet, ip: Octets4, port: u16)
    requires WellFormed(p)
    ensures Fixable(Stamped(p, ip, port))
    ensures var q := Outbound(p, ip, port);
            && (forall k | 0 <= k < |p| && !ChecksumByte(p, k)
                           && !(12 <= k < 16) && !(Ihl(p) <= k < Ihl(p) + 2) :: q[k] == p[k])
            && IsTcp4(q)
            && ExtractTcpAddrs(q) == Some(ExtractTcpAddrs(p).value.(
                 src := SocketAddr(V4(ip), port)))
  {
    hide Complement, PutU16;
    var q := Outbound(p, ip, port);
    assert SrcIp(q) == ip && DstIp(q) == DstIp(p);
  }

  // ---------------------------------------------------------------- reversibility

  /** Packets that differ at most in the checksum fields are repaired to the same packet. */
  lemma RepairForgetsChecksums(p: Packet, q: Packet)
    requires WellFormed(p) && |q| == |p|
    requires forall k :: 0 <= k < |p| && !ChecksumByte(p, k) ==> q[k] == p[k]
    ensures WellFormed(q) && FixIpv4(FixTcp(q)) == FixIpv4(FixTcp(p))
  {
    hide OnesSum, PutU16, FixTcp, FixIpv4, TcpCover;
    TcpRepairForgetsChecksum(p, q);
    FixTcpSeals(p);
    Ipv4RepairForgetsChecksum(FixTcp(p), FixTcp(q));
  }

  lemma TcpRepairForgetsChecksum(p: Packet, q: Packet)
    requires WellFormed(p) && |q| == |p|
    requires forall k :: 0 <= k < |p| && !ChecksumByte(p, k) ==> q[k] == p[k]
    ensures WellFormed(q)
    ensures forall k :: 0 <= k < |p| && k != 10 && k != 11 ==> FixTcp(q)[k] == FixTcp(p)[k]
  {
    hide TcpSum, PutU16;
    TcpSumForgetsChecksum(p, q);
    PutAgrees(p, q, Ihl(p) + 16, TcpSum(p));
  }

  lemma TcpSumForgetsChecksum(p: Packet, q: Packet)
    requires WellFormed(p) && |q| == |p|
    requires forall k :: 0 <= k < |p| && !ChecksumByte(p, k) ==> q[k] == p[k]
    ensures WellFormed(q) && TcpSum(q) == TcpSum(p)
  {
    hide Complement, PutU16, Pseudo, SrcIp, DstIp;
    SameAddresses(p, q);
    var ihl := Ihl(p);
    PutAgrees(p, q, ihl + 16, 0);
    SameFrom(PutU16(p, ihl + 16, 0), PutU16(q, ihl + 16, 0), ihl);
  }

  lemma SameAddresses(p: Packet, q: Packet)
    requires WellFormed(p) && |q| == |p|
    requires forall k :: 0 <= k < |p| && !ChecksumByte(p, k) ==> q[k] == p[k]
    ensures WellFormed(q) && Ihl(q) == Ihl(p) && SrcIp(q) == SrcIp(p) && DstIp(q) == DstIp(p)
  {
  }

  lemma SameFrom(s: Packet, t: Packet, i: nat)
    requires 12 <= i <= |s| == |t| && forall k :: 0 <= k < |s| && k != 10 && k != 11 ==> t[k] == s[k]
    ensures s[i..] == t[i..]
  {
  }

  lemma PutAgrees(p: Packet, q: Packet, i: nat, v: u16)
    requires 12 <= i && i + 1 < |p| == |q|
    requires forall k :: 0 <= k < |p| && !(10 <= k < 12) && !(i <= k < i + 2) ==> q[k] == p[k]
    ensures forall k :: 0 <= k < |p| && k != 10 && k != 11 ==> PutU16(q, i, v)[k] == PutU16(p, i, v)[k]
  {
  }

  lemma Ipv4RepairForgetsChecksum(p: Packet, q: Packet)
    requires WellFormed(p) && |q| == |p|
    requires forall k :: 0 <= k < |p| && k != 10 && k != 11 ==> q[k] == p[k]
    ensures FixIpv4(q) == FixIpv4(p)
  {
    hide OnesSum, PutU16;
    SameWordSameBytes(PutU16(p, 10, 0), PutU16(q, 10, 0), 10);
    SameWordSameBytes(FixIpv4(q), FixIpv4(p), 10);
  }

  /** Of several inbound rewrites the last one decides every byte. */
  lemma LastRewriteWins(p: Packet, v: u16, w: u16)
    requires WellFormed(p)
    ensures WellFormed(Inbound(p, v)) && Inbound(Inbound(p, v), w) == Inbound(p, w)
  {
    hide FixTcp, FixIpv4, PutU16, ChecksumsHold;
    InboundChecksumsHold(p, v);
    InboundFrame(p, v);
    var i := Ihl(p) + 2;
    var a, b := PutU16(p, i, w), PutU16(Inbound(p, v), i, w);
    SameWordAt(a, b, i);
    RepairForgetsChecksums(a, b);
  }

  /** The checksum fields hold and neither writes zero as all ones. */
  predicate Canonical(p: Packet)
    requires WellFormed(p)
  {
    ChecksumsHold(p) && U16At(p, 10) != 0xFFFF && U16At(p, Ihl(p) + 16) != 0xFFFF
  }

  /** Restoring the original port undoes any rewrite byte for byte exactly when the original
      packet carried correct checksums in canonical form. */
  lemma RestoringPortUndoesRewriteIff(p: Packet, v: u16)
    requires WellFormed(p)
    ensures WellFormed(Inbound(p, v))
    ensures Inbound(Inbound(p, v), DstPort(p)) == p <==> Canonical(p)
  {
    hide FixTcp, FixIpv4, PutU16, ChecksumsHold;
    LastRewriteWins(p, v, DstPort(p));
    PutSame(p, Ihl(p) + 2);
    RepairIsIdentityIff(p);
  }

  lemma RepairIsIdentityIff(p: Packet)
    requires WellFormed(p)
    ensures FixIpv4(FixTcp(p)) == p <==> Canonical(p)
  {
    hide FixTcp, FixIpv4, Sealed, Verifies;
    FixTcpSeals(p);
    var t := FixTcp(p);
    FixIpv4Seals(t);
    HeaderSealIff(p);
    CoverSealIff(p);
    var r := FixIpv4(t);
    assert r == p ==> Header(r) == Header(p) && TcpCover(r) == TcpCover(p);
    if Header(r) == Header(p) && TcpCover(r) == TcpCover(p) {
      assert p == Header(p) + TcpCover(p)[12..];
      assert r == Header(r) + TcpCover(r)[12..];
    }
  }

  lemma HeaderSealIff(p: Packet)
    requires WellFormed(p)
    ensures Sealed(Header(p), 10) == Header(p) <==> Verifies(Header(p)) && U16At(p, 10) != 0xFFFF
  {
    OtherWordIsNonZero(Header(p), 0, 10);
    SealedIsIdentityIff(Header(p), 10);
  }

  lemma CoverSealIff(p: Packet)
    requires WellFormed(p)
    ensures Sealed(TcpCover(p), 28) == TcpCover(p)
        <==> Verifies(TcpCover(p)) && U16At(p, Ihl(p) + 16) != 0xFFFF
  {
    OtherWordIsNonZero(TcpCover(p), 9, 28);
    SealedIsIdentityIff(TcpCover(p), 28);
  }

  lemma OtherWordIsNonZero(s: seq<byte>, j: nat, i: nat)
    requires j < i && i + 1 < |s| && i % 2 == 0 && s[j] != 0
    ensures WordSum(s) > U16At(s, i)
  {
    hide Complement, PutU16;
    WordSumPut(s, i, 0);
    var z := PutU16(s, i, 0);
    WordSumUpdate(z, j, 0);
  }

  // ---------------------------------------------------------------- the code

  method FixIpv4Checksum(a: array<byte>)
    requires 20 <= a.Length <= 0xFFFF && Ihl(a[..]) <= a.Length
    modifies a
    ensures a[..] == FixIpv4(old(a[..]))
  {
    hide Complement, PutU16;
    ghost var p := a[..];
    PutU16InPlace(a, 10, 0);
    var ihl := a[0] as int % 16 * 4;
    assert a[..ihl] == PutU16(p, 10, 0)[..Ihl(p)];
    var csum := ChecksumOf(a[..ihl]);
    PutU16InPlace(a, 10, csum);
    PutPut(p, 10, 0, csum);
  }

  method FixTcpChecksum(a: array<byte>)
    requires Fixable(a[..])
    modifies a
    ensures a[..] == FixTcp(old(a[..]))
  {
    hide Complement, PutU16;
    ghost var p := a[..];
    var ihl := a[0] as int % 16 * 4;
    var tcpLen := a.Length - ihl;
    var pseudo: seq<byte> := a[12..16] + a[16..20] + [0, 6] + BE16(tcpLen);
    assert pseudo == Pseudo(SrcIp(p), DstIp(p), 6, tcpLen);
    PutU16InPlace(a, ihl + 16, 0);
    assert a[ihl..] == PutU16(p, ihl + 16, 0)[ihl..];
    var csum := ChecksumOfBoth(pseudo, a[ihl..]);
    PutU16InPlace(a, ihl + 16, csum);
    PutPut(p, ihl + 16, 0, csum);
  }

  lemma RewritableStays(p: Packet, vport: u16)
    requires IsTcp4(p) && |p| <= 0xFFFF
    ensures var q := PutU16(p, Ihl(p) + 2, vport);
            IsTcp4(q) && Ihl(q) == Ihl(p) && Ihl(FixTcp(q)) == Ihl(p)
  {
    hide Complement, PutU16;
    assert Ihl(p) + 2 != 8 && Ihl(p) + 2 != 9;
  }

  /** `rewrite_inbound`: refuses and leaves the packet alone exactly when it is not IPv4/TCP. */
  method RewriteInbound(a: array<byte>, vport: u16) returns (ok: bool)
    requires a.Length <= 0xFFFF
    modifies a
    ensures ok <==> IsTcp4(old(a[..]))
    ensures ok <==> && a.Length >= 20 && old(a[0]) / 16 == 4 && old(a[9]) == 6
                    && a.Length >= old(a[0]) as int % 16 * 4 + 20
    ensures a[..] == if ok then Inbound(old(a[..]), vport) else old(a[..])
  {
    hide FixTcp, FixIpv4, PutU16, Header, TcpCover, Sealed;
    ghost var p := a[..];
    if a.Length < 20 { return false; }
    if a[0] / 16 != 4 { return false; }
    if a[9] != 6 { return false; }
    var ihl := a[0] as int % 16 * 4;
    if a.Length < ihl + 20 { return false; }
    PutU16InPlace(a, ihl + 2, vport);
    RewritableStays(p, vport);
    FixTcpChecksum(a);
    FixIpv4Checksum(a);
    ok := true;
  }

  lemma FixTcpKeepsHeaderLength(p: Packet)
    requires Fixable(p)
    ensures Ihl(FixTcp(p)) == Ihl(p)
  {
    hide Complement, PutU16;
  }

  /** `rewrite_outbound`. The precondition is the source's own: when the header length is zero the
      port overwrites it, and the TCP repair panics if the new length does not fit the packet. */
  method RewriteOutbound(a: array<byte>, ip: Octets4, port: u16) returns (ok: bool)
    requires a.Length <= 0xFFFF && (IsTcp4(a[..]) ==> Fixable(Stamped(a[..], ip, port)))
    modifies a
    ensures ok <==> IsTcp4(old(a[..]))
    ensures ok <==> && a.Length >= 20 && old(a[0]) / 16 == 4 && old(a[9]) == 6
                    && a.Length >= old(a[0]) as int % 16 * 4 + 20
    ensures a[..] == if ok then Outbound(old(a[..]), ip, port) else old(a[..])
  {
    hide FixTcp, FixIpv4, PutU16;
    ghost var p := a[..];
    if a.Length < 20 { return false; }
    if a[0] / 16 != 4 { return false; }
    if a[9] != 6 { return false; }
    var ihl := a[0] as int % 16 * 4;
    if a.Length < ihl + 20 { return false; }
    forall k | 0 <= k < 4 { a[12 + k] := ip[k]; }
    assert a[..] == PutIp(p, 12, ip);
    PutU16InPlace(a, ihl, port);
    assert a[..] == Stamped(p, ip, port);
    FixTcpKeepsHeaderLength(a[..]);
    FixTcpChecksum(a);
    FixIpv4Checksum(a);
    ok := true;
  }

  // ---------------------------------------------------------------- a packet on the failing side

  /** A SYN from 10.42.0.2 to 8.8.8.8:443 whose checksum fields are still zero, as a sender leaves
      them that expects its network card to fill them in. */
  function SynPacket(port: u16): (p: Packet)
    ensures |p| == 40
  {
    [0x45, 0, 0, 40] + [0, 0, 0, 0] + [64, 6, 0, 0] + [10, 42, 0, 2] + [8, 8, 8, 8]
    + (BE16(port) + [1, 187] + [0, 0, 0, 0, 0, 0, 0, 0, 0x50, 2, 0, 0, 0, 0, 0, 0])
  }

  lemma SynPacketIs(port: u16)
    ensures var p := SynPacket(port);
            && WellFormed(p) && Ihl(p) == 20 && IsTcpSyn(p) && FedToStack(p) && DstPort(p) == 443
            && ExtractTcpAddrs(p) == Some(Flow(SocketAddr(V4([10, 42, 0, 2]), port), SocketAddr(V4([8, 8, 8, 8]), 443)))
            && Header(p) == [0x45, 0, 0, 40] + [0, 0, 0, 0] + [64, 6, 0, 0] + [10, 42, 0, 2] + [8, 8, 8, 8]
  {
    var p := SynPacket(port);
    assert U16At(p, 20) == U16At(BE16(port), 0);
    assert SrcIp(p) == [10, 42, 0, 2] && DstIp(p) == [8, 8, 8, 8];
  }

  /** Such a packet does not come back: rewriting it and restoring its port fills the fields in. */
  lemma UnfilledChecksumIsNotRestored(port: u16, v: u16)
    ensures var p := SynPacket(port);
            WellFormed(p) && WellFormed(Inbound(p, v)) && Inbound(Inbound(p, v), DstPort(p)) != p
  {
    hide Inbound, SynPacket, Header, OnesSum;
    SynPacketIs(port);
    var p := SynPacket(port);
    RestoringPortUndoesRewriteIff(p, v);
    FiveWordPairs([0x45, 0, 0, 40], [0, 0, 0, 0], [64, 6, 0, 0], [10, 42, 0, 2], [8, 8, 8, 8]);
    VerifiesIffMultiple(Header(p));
  }

  lemma FiveWordPairs(a: Octets4, b: Octets4, c: Octets4, d: Octets4, e: Octets4)
    ensures WordSum(a + b + c + d + e)
         == U16At(a, 0) + U16At(a, 2) + U16At(b, 0) + U16At(b, 2) + U16At(c, 0) + U16At(c, 2)
            + U16At(d, 0) + U16At(d, 2) + U16At(e, 0) + U16At(e, 2)
  {
    hide WordSum, U16At;
    WordSumAppend(a + b + c + d, e);
    WordSumAppend(a + b + c, d);
    WordSumAppend(a + b, c);
    WordSumAppend(a, b);
    FourBytes(a);
    FourBytes(b);
    FourBytes(c);
    FourBytes(d);
    FourBytes(e);
  }
}
