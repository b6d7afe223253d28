/** The Internet checksum (section 1 of RFC 1071) as the engine computes it three times:
    32-bit accumulation of big-endian words with the carries folded in afterwards. */
module Checksum {
  import opened Bytes

  // ---------------------------------------------------------------- reference

  /** Ones'-complement addition of 16-bit words: the carry is brought round at once. */
  function OnesAdd(a: u16, b: u16): u16 {
    if a + b > 0xFFFF then a + b - 0xFFFF else a + b
  }

  /** The word starting at an even position; a final odd byte is padded with zero. */
  function WordAt(s: seq<byte>, i: nat): u16
    requires i < |s|
  {
    if i + 1 < |s| then U16At(s, i) else Word(s[i], 0)
  }

  /** RFC 1071's definition: the first `n` words, one at a time with end-around carry. */
  function OnesSumTo(s: seq<byte>, n: nat): u16
    requires 2 * n <= |s| + 1
  {
    if n == 0 then 0 else OnesAdd(OnesSumTo(s, n - 1), WordAt(s, 2 * (n - 1)))
  }

  function OnesSum(s: seq<byte>): u16 { OnesSumTo(s, (|s| + 1) / 2) }

  // ---------------------------------------------------------------- deferred carries

  /** What the byte `x` at position `i` adds to the sum. */
  function Weighted(i: nat, x: int): int { if i % 2 == 0 then 256 * x else x }

  /** The sum of the words of `s` over the unbounded integers. */
  function WordSum(s: seq<byte>): nat {
    if s == [] then 0 else WordSum(s[..|s| - 1]) + Weighted(|s| - 1, s[|s| - 1])
  }

  /** The residue of `n` modulo 65535, with 65535 standing for the non-zero multiples. */
  function Canon(n: nat): u16 {
    if n == 0 then 0 else (n - 1) % 0xFFFF + 1
  }

  /** One round of the folding loop. */
  function FoldOnce(n: nat): nat { n % 0x1_0000 + n / 0x1_0000 }

  lemma FoldOnceKeepsResidue(n: nat)
    ensures Canon(FoldOnce(n)) == Canon(n)
    ensures n >= 0x1_0000 ==> FoldOnce(n) < n
  {
    var q := n / 0x1_0000;
    assert n == FoldOnce(n) + 0xFFFF * q;
  }

  /** A 32-bit accumulator needs at most two rounds. */
  lemma TwoFoldsSuffice(n: u32)
    ensures FoldOnce(FoldOnce(n)) == Canon(n)
  {
    hide Canon, FoldOnce;
    FoldOnceKeepsResidue(n);
    FoldOnceKeepsResidue(FoldOnce(n));
    TwoFoldsBound(n);
  }

  lemma TwoFoldsBound(n: u32)
    ensures Canon(FoldOnce(FoldOnce(n))) == FoldOnce(FoldOnce(n))
  {
    var m := FoldOnce(n);
    assert m <= 0x1_FFFE;
    assert FoldOnce(m) == if m < 0x1_0000 then m else m - 0xFFFF;
  }

  lemma {:induction false} WordSumStep(s: seq<byte>, i: nat)
    requires i < |s|
    ensures WordSum(s[..i + 1]) == WordSum(s[..i]) + Weighted(i, s[i])
  {
    assert s[..i + 1][..i] == s[..i];
  }

  lemma {:induction false} WordSumBound(s: seq<byte>)
    ensures WordSum(s) <= (|s| + 1) / 2 * 0xFFFF
    ensures |s| % 2 == 1 ==> WordSum(s) <= (|s| - 1) / 2 * 0xFFFF + 0xFF00
  {
    if s != [] {
      WordSumBound(s[..|s| - 1]);
    }
  }

  lemma WordSumLast(s: seq<byte>)
    requires s != []
    ensures WordSum(s) == WordSum(s[..|s| - 1]) + Weighted(|s| - 1, s[|s| - 1])
  {
  }

  lemma SameParity(i: nat, j: nat, x: int)
    requires i % 2 == j % 2
    ensures Weighted(i, x) == Weighted(j, x)
  {
  }

  lemma {:induction false} WordSumAppend(a: seq<byte>, b: seq<byte>)
    requires |a| % 2 == 0
    ensures WordSum(a + b) == WordSum(a) + WordSum(b)
  {
    hide WordSum, Weighted;
    if b == [] {
      assert a + b == a;
      EmptySum();
    } else {
      assert (a + b)[..|a + b| - 1] == a + b[..|b| - 1];
      WordSumAppend(a, b[..|b| - 1]);
      WordSumLast(a + b);
      WordSumLast(b);
      SameParity(|a + b| - 1, |b| - 1, b[|b| - 1]);
    }
  }

  /** After an odd number of bytes the next ones change places within their words. */
  lemma {:induction false} WordSumAppendOdd(a: seq<byte>, b: seq<byte>)
    requires |a| % 2 == 1
    ensures WordSum(a + b) == WordSum(a) + WordSum([0] + b)
  {
    hide WordSum, Weighted;
    if b == [] {
      assert a + b == a && [0] + b == [0];
      OneZero();
    } else {
      assert (a + b)[..|a + b| - 1] == a + b[..|b| - 1];
      assert ([0] + b)[..|b|] == [0] + b[..|b| - 1];
      WordSumAppendOdd(a, b[..|b| - 1]);
      WordSumLast(a + b);
      WordSumLast([0] + b);
      SameParity(|a + b| - 1, |b|, b[|b| - 1]);
    }
  }

  lemma OneZero()
    ensures WordSum([0]) == 0
  {
    assert WordSum([0]) == WordSum([0][..0]) + Weighted(0, 0);
  }

  lemma {:induction false} WordSumUpdate(s: seq<byte>, i: nat, v: byte)
    requires i < |s|
    ensures WordSum(s[i := v]) == WordSum(s) + Weighted(i, v - s[i])
  {
    var n := |s| - 1;
    if i == n {
      assert s[i := v][..n] == s[..n];
    } else {
      assert s[i := v][..n] == s[..n][i := v];
      WordSumUpdate(s[..n], i, v);
    }
  }

  /** Storing a word at an even position changes the sum by exactly the difference. */
  lemma WordSumPut(s: seq<byte>, i: nat, v: u16)
    requires i + 1 < |s| && i % 2 == 0
    ensures WordSum(PutU16(s, i, v)) == WordSum(s) + v - U16At(s, i)
  {
    var hi: byte, lo: byte := v / 256, v % 256;
    assert v == 256 * hi + lo;
    WordSumPutBytes(s, i, hi, lo);
  }

  lemma WordSumPutBytes(s: seq<byte>, i: nat, hi: byte, lo: byte)
    requires i + 1 < |s| && i % 2 == 0
    ensures WordSum(s[i := hi][i + 1 := lo]) == WordSum(s) + 256 * (hi - s[i]) + lo - s[i + 1]
  {
    WordSumUpdate(s, i, hi);
    WordSumUpdate(s[i := hi], i + 1, lo);
  }

  /** A representation of `n` that pins down its canonical residue. */
  lemma CanonIs(n: nat, q: nat, r: nat)
    requires n == 0xFFFF * q + r && 1 <= r <= 0xFFFF
    ensures Canon(n) == r
  {
  }

  lemma CanonQuotient(n: nat) returns (q: nat)
    requires n > 0
    ensures n == 0xFFFF * q + Canon(n)
  {
    q := (n - 1) / 0xFFFF;
  }

  /** Bringing one carry round commutes with reducing the whole sum. */
  lemma CanonAdd(n: nat, w: u16)
    ensures Canon(n + w) == OnesAdd(Canon(n), w)
  {
    if n > 0 {
      var q := CanonQuotient(n);
      if Canon(n) + w > 0xFFFF {
        CanonIs(n + w, q + 1, Canon(n) + w - 0xFFFF);
      } else {
        CanonIs(n + w, q, Canon(n) + w);
      }
    } else if w > 0 {
      CanonIs(w, 0, w);
    }
  }

  /** Deferring the carries computes RFC 1071's sum. */
  lemma DeferredCarriesAreOnesSum(s: seq<byte>)
    ensures OnesSum(s) == Canon(WordSum(s))
  {
    assert s[..|s|] == s;
    DeferredCarriesTo(s, (|s| + 1) / 2);
  }

  lemma EmptySum()
    ensures WordSum([]) == 0 && Canon(0) == 0
  {
  }

  lemma {:induction false} DeferredCarriesTo(s: seq<byte>, n: nat)
    requires 2 * n <= |s| + 1
    ensures OnesSumTo(s, n) == Canon(WordSum(s[..Min(2 * n, |s|)]))
  {
    hide WordSum, Canon, OnesAdd;
    if n == 0 {
      EmptySum();
    } else {
      var k := 2 * (n - 1);
      DeferredCarriesTo(s, n - 1);
      WordSumStep(s, k);
      if k + 1 < |s| { WordSumStep(s, k + 1); }
      CanonAdd(WordSum(s[..k]), WordAt(s, k));
    }
  }

  // ---------------------------------------------------------------- sealing a checksum field

  /** The checksum of `s` in RFC 1071's terms: the complement of the ones' complement sum. */
  function Complement(s: seq<byte>): u16 { 0xFFFF - OnesSum(s) }

  /** What a receiver tests: all words, the checksum field among them, sum to all ones. */
  predicate Verifies(s: seq<byte>) { OnesSum(s) == 0xFFFF }

  /** `s` with the word at `i` zeroed and then replaced by the checksum. */
  function Sealed(s: seq<byte>, i: nat): seq<byte>
    requires i + 1 < |s|
  {
    PutU16(s, i, Complement(PutU16(s, i, 0)))
  }

  lemma SealedVerifies(s: seq<byte>, i: nat)
    requires i + 1 < |s| && i % 2 == 0
    ensures Verifies(Sealed(s, i))
  {
    var z := PutU16(s, i, 0);
    var c := Complement(z);
    PutPut(s, i, 0, c);
    WordSumPut(z, i, c);
    VerifiesIff(z, c, Sealed(s, i));
  }

  /** Adding the word `c` to a sum makes it verify exactly when `c` is the complement, or when
      `c` is the all-ones word and the complement is zero. */
  lemma VerifiesIff(z: seq<byte>, c: u16, s: seq<byte>)
    requires WordSum(s) == WordSum(z) + c
    ensures Verifies(s) <==> c == Complement(z) || (c == 0xFFFF && Complement(z) == 0)
  {
    DeferredCarriesAreOnesSum(z);
    DeferredCarriesAreOnesSum(s);
    CanonAdd(WordSum(z), c);
  }

  lemma VerifiesIffMultiple(s: seq<byte>)
    ensures Verifies(s) <==> WordSum(s) > 0 && WordSum(s) % 0xFFFF == 0
  {
    hide OnesSum, WordSum, Canon;
    DeferredCarriesAreOnesSum(s);
    CanonOfMultiple(WordSum(s));
  }

  lemma CanonOfMultiple(n: nat)
    ensures Canon(n) == 0xFFFF <==> n > 0 && n % 0xFFFF == 0
  {
  }

  /** Sealing leaves `s` alone exactly when `s` verifies and does not write zero as all ones,
      as long as some word outside the field is non-zero. */
  lemma SealedIsIdentityIff(s: seq<byte>, i: nat)
    requires i + 1 < |s| && i % 2 == 0
    requires WordSum(s) > U16At(s, i)
    ensures Sealed(s, i) == s <==> Verifies(s) && U16At(s, i) != 0xFFFF
  {
    var z := PutU16(s, i, 0);
    var c := U16At(s, i);
    WordSumPut(s, i, 0);
    VerifiesIff(z, c, s);
    PutSame(s, i);
    assert U16At(Sealed(s, i), i) == Complement(z);
    assert Complement(z) != 0xFFFF by { NonZeroSum(z); }
  }

  lemma NonZeroSum(z: seq<byte>)
    requires WordSum(z) > 0
    ensures Complement(z) != 0xFFFF
  {
    DeferredCarriesAreOnesSum(z);
  }

  // ---------------------------------------------------------------- the code

  /** `proto::checksum::fold` and the folding loop at the end of every checksum. */
  method Fold(acc: u32) returns (r: u16)
    ensures r == 0xFFFF - Canon(acc)
  {
    var sum: u32 := acc;
    while sum / 0x1_0000 != 0
      invariant Canon(sum) == Canon(acc)
      decreases sum
    {
      FoldOnceKeepsResidue(sum);
      sum := sum % 0x1_0000 + sum / 0x1_0000;
    }
    r := 0xFFFF - sum;
  }

  /** The accumulation loop over `chunks_exact(2)` with the odd tail shifted into the high
      byte; `init` is what was accumulated before (zero, or a pseudo-header). */
  method AddWords(init: u32, data: seq<byte>) returns (sum: u32)
    requires init + |data| / 2 * 0xFFFF + 0xFF00 < 0x1_0000_0000
    ensures sum == init + WordSum(data)
  {
    sum := init;
    var i := 0;
    while i + 1 < |data|
      invariant 0 <= i <= |data| && i % 2 == 0
      invariant sum == init + WordSum(data[..i])
    {
      WordSumStep(data, i);
      WordSumStep(data, i + 1);
      WordSumBound(data[..i + 2]);
      sum := sum + Word(data[i], data[i + 1]);
      i := i + 2;
    }
    WordSumBound(data);
    if i < |data| {
      WordSumStep(data, i);
      assert data[..i + 1] == data;
      sum := sum + Word(data[i], 0);
    } else {
      assert data[..i] == data;
    }
  }

  /** `checksum` in gravital-stack and `rfc1071` in gravital-engine. */
  method ChecksumOf(data: seq<byte>) returns (r: u16)
    requires |data| <= 0xFFFF
    ensures r == Complement(data)
  {
    var sum := AddWords(0, data);
    r := Fold(sum);
    DeferredCarriesAreOnesSum(data);
  }

  /** The checksum of a pseudo-header and a segment accumulated one after the other. */
  method ChecksumOfBoth(pseudo: seq<byte>, seg: seq<byte>) returns (r: u16)
    requires |pseudo| == 12 && |seg| <= 0xFFFF
    ensures r == Complement(pseudo + seg)
  {
    hide WordSum, Canon, OnesSum;
    var sum := AddWords(0, pseudo);
    WordSumBound(pseudo);
    sum := AddWords(sum, seg);
    WordSumAppend(pseudo, seg);
    DeferredCarriesAreOnesSum(pseudo + seg);
    r := Fold(sum);
  }

  /** `internet_checksum` in gravital-proto, with its own loop and `[odd, 0]` tail word. */
  method InternetChecksum(data: seq<byte>) returns (r: u16)
    requires |data| <= 0xFFFF
    ensures r == Complement(data)
  {
    hide WordSum, Canon, OnesSum;
    EmptySum();
    assert data[..0] == [];
    var sum: u32 := 0;
    var i := 0;
    while |data| - i >= 2
      invariant 0 <= i <= |data| && i % 2 == 0
      invariant sum == WordSum(data[..i])
    {
      WordSumStep(data, i);
      WordSumStep(data, i + 1);
      WordSumBound(data[..i + 2]);
      sum := sum + U16At(data, i);
      i := i + 2;
    }
    WordSumBound(data);
    if |data| - i == 1 {
      WordSumStep(data, i);
      assert data[..i + 1] == data;
      sum := sum + U16At([data[i], 0], 0);
    } else {
      assert data[..i] == data;
    }
    DeferredCarriesAreOnesSum(data);
    r := Fold(sum);
  }

  /** The twelve-byte TCP/UDP pseudo-header of section 3.1 of RFC 793. */
  function Pseudo(src: Octets4, dst: Octets4, proto: byte, len: u16): (r: seq<byte>)
    ensures |r| == 12
  {
    src + dst + [0, proto] + BE16(len)
  }

  /** `pseudo_header_v4`: straight-line accumulation of the same twelve bytes. */
  method PseudoHeaderV4(src: Octets4, dst: Octets4, proto: byte, len: u16) returns (sum: u32)
    ensures sum == WordSum(Pseudo(src, dst, proto, len))
    ensures sum <= 6 * 0xFFFF
  {
    sum := 0;
    sum := sum + U16At([src[0], src[1]], 0);
    sum := sum + U16At([src[2], src[3]], 0);
    sum := sum + U16At([dst[0], dst[1]], 0);
    sum := sum + U16At([dst[2], dst[3]], 0);
    sum := sum + U16At([0, proto], 0);
    sum := sum + len;
    PseudoSum(src, dst, proto, len);
  }

  lemma PseudoSum(src: Octets4, dst: Octets4, proto: byte, len: u16)
    ensures WordSum(Pseudo(src, dst, proto, len))
         == U16At(src, 0) + U16At(src, 2) + U16At(dst, 0) + U16At(dst, 2) + proto + len
  {
    WordSumAppend(src + dst + [0, proto], BE16(len));
    WordSumAppend(src + dst, [0, proto]);
    WordSumAppend(src, dst);
    FourBytes(src);
    FourBytes(dst);
    TwoBytes([0, proto]);
    TwoBytes(BE16(len));
  }

  lemma TwoBytes(s: seq<byte>)
    requires |s| == 2
    ensures WordSum(s) == U16At(s, 0)
  {
    assert WordSum(s[..1]) == WordSum(s[..1][..0]) + Weighted(0, s[0]);
  }

  lemma FourBytes(s: seq<byte>)
    requires |s| == 4
    ensures WordSum(s) == U16At(s, 0) + U16At(s, 2)
  {
    assert s == s[..2] + s[2..];
    WordSumAppend(s[..2], s[2..]);
    TwoBytes(s[..2]);
    TwoBytes(s[2..]);
  }
}
