/** Machine integers, big-endian words and socket addresses shared by every module.

    The machine widths are subset types, so the verifier checks that no assignment
    to a `u16` or `u32` variable overflows. */
module Bytes {

  type byte = x: int | 0 <= x < 0x100
  type u16 = x: int | 0 <= x < 0x1_0000
  type u32 = x: int | 0 <= x < 0x1_0000_0000

  type Packet = seq<byte>

  type Octets4 = s: seq<byte> | |s| == 4 witness [0, 0, 0, 0]
  type Octets16 = s: seq<byte> | |s| == 16 witness [0, 0, 0, 0, 0, 0, 0, 0, 0, 0, 0, 0, 0, 0, 0, 0]

  datatype Ip = V4(v4: Octets4) | V6(v6: Octets16)

  datatype SocketAddr = SocketAddr(ip: Ip, port: u16)

  datatype Option<+T> = None | Some(value: T)

  function Min(a: int, b: int): int {
    if a <= b then a else b
  }

  /** `u16::from_be_bytes([hi, lo])` */
  function Word(hi: byte, lo: byte): u16 {
    (hi as int) * 256 + lo as int
  }

  /** `u16::from_be_bytes([s[i], s[i + 1]])` */
  function U16At(s: seq<byte>, i: nat): u16
    requires i + 1 < |s|
  {
    Word(s[i], s[i + 1])
  }

  /** `v.to_be_bytes()` */
  function BE16(v: u16): (r: seq<byte>)
    ensures |r| == 2 && U16At(r, 0) == v
  {
    [v / 256, v % 256]
  }

  /** `s[i..i + 2].copy_from_slice(&v.to_be_bytes())` on a value. */
  function PutU16(s: seq<byte>, i: nat, v: u16): (r: seq<byte>)
    requires i + 1 < |s|
    ensures |r| == |s| && U16At(r, i) == v
    ensures forall k :: 0 <= k < |s| && k != i && k != i + 1 ==> r[k] == s[k]
  {
    s[i := v / 256][i + 1 := v % 256]
  }

  /** `v.to_be_bytes()` for a `u32`. */
  function BE32(v: u32): (r: seq<byte>)
    ensures |r| == 4 && U32At(r, 0) == v
  {
    BE16(v / 0x1_0000) + BE16(v % 0x1_0000)
  }

  function U32At(s: seq<byte>, i: nat): u32
    requires i + 3 < |s|
  {
    (U16At(s, i) as int) * 0x1_0000 + U16At(s, i + 2) as int
  }

  lemma PutPut(s: seq<byte>, i: nat, v: u16, w: u16)
    requires i + 1 < |s|
    ensures PutU16(PutU16(s, i, v), i, w) == PutU16(s, i, w)
  {
    SameWordSameBytes(PutU16(PutU16(s, i, v), i, w), PutU16(s, i, w), i);
  }

  lemma SameWordSameBytes(s: seq<byte>, t: seq<byte>, i: nat)
    requires i + 1 < |s| == |t| && U16At(s, i) == U16At(t, i)
    requires forall k :: 0 <= k < |s| && k != i && k != i + 1 ==> s[k] == t[k]
    ensures s == t
  {
  }

  lemma SameWordAt(s: seq<byte>, t: seq<byte>, i: nat)
    requires i + 1 < |s| == |t| && U16At(s, i) == U16At(t, i)
    ensures s[i] == t[i] && s[i + 1] == t[i + 1]
  {
  }

  lemma WordBytes(s: seq<byte>, k: nat)
    requires k + 2 <= |s|
    ensures s[k..k + 2] == BE16(U16At(s, k))
  {
    SameWordAt(s[k..k + 2], BE16(U16At(s, k)), 0);
  }

  lemma PutSame(s: seq<byte>, i: nat)
    requires i + 1 < |s|
    ensures PutU16(s, i, U16At(s, i)) == s
  {
  }

  lemma PutLeft(h: seq<byte>, t: seq<byte>, i: nat, v: u16)
    requires i + 1 < |h|
    ensures PutU16(h + t, i, v) == PutU16(h, i, v) + t
  {
  }

  lemma PutRight(h: seq<byte>, t: seq<byte>, i: nat, v: u16)
    requires i + 1 < |t|
    ensures PutU16(h + t, |h| + i, v) == h + PutU16(t, i, v)
  {
  }

  /** `a[i..i + 2].copy_from_slice(&v.to_be_bytes())` */
  method PutU16InPlace(a: array<byte>, i: nat, v: u16)
    requires i + 1 < a.Length
    modifies a
    ensures a[..] == PutU16(old(a[..]), i, v)
  {
    a[i] := v / 256;
    a[i + 1] := v % 256;
  }
}
