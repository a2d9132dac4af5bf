/** The bundled streaming SHA-1 against FIPS 180-4. */
module Sha1 {
  import opened Bytes

  type word = bv32
  type octet = bv8

  // ---- FIPS 180-4 ----

  datatype Chain = Chain(a: word, b: word, c: word, d: word, e: word)

  /** Section 5.3.1. */
  const INITIAL: Chain := Chain(0x67452301, 0xEFCDAB89, 0x98BADCFE, 0x10325476, 0xC3D2E1F0)

  /** Section 3.2: circular left shift. */
  function Rotl(x: word, n: nat): word
    requires 0 < n < 32
  {
    (x << n) | (x >> (32 - n))
  }

  /** Section 4.1.1. */
  function F(t: nat, x: word, y: word, z: word): word
    requires t < 80
  {
    if t < 20 then (x & y) ^ (!x & z)
    else if 40 <= t < 60 then (x & y) ^ (x & z) ^ (y & z)
    else x ^ y ^ z
  }

  /** Section 4.2.1. */
  function K(t: nat): word
    requires t < 80
  {
    if t < 20 then 0x5A827999
    else if t < 40 then 0x6ED9EBA1
    else if t < 60 then 0x8F1BBCDC
    else 0xCA62C1D6
  }

  function BigEndianWord(b: seq<octet>, i: nat): word
    requires 4 * i + 4 <= |b|
  {
    (b[4 * i] as word << 24) | (b[4 * i + 1] as word << 16) | (b[4 * i + 2] as word << 8) | b[4 * i + 3] as word
  }

  function Xor4(x: word, y: word, z: word, u: word): word {
    x ^ y ^ z ^ u
  }

  /** Section 6.1.2, step 1: the message schedule. */
  function Schedule(block: seq<octet>, t: nat): word
    requires |block| == 64 && t < 80
    decreases t
  {
    if t < 16 then BigEndianWord(block, t)
    else Rotl(Xor4(Schedule(block, t - 3), Schedule(block, t - 8), Schedule(block, t - 14), Schedule(block, t - 16)), 1)
  }

  /** Addition modulo 2^32. */
  function Sum(x: word, y: word): word {
    x + y
  }

  /** Step 3: one round. */
  function Round(v: Chain, t: nat, w: word): Chain
    requires t < 80
  {
    Chain(Sum(Sum(Sum(Sum(Rotl(v.a, 5), F(t, v.b, v.c, v.d)), v.e), K(t)), w), v.a, Rotl(v.b, 30), v.c, v.d)
  }

  function Rounds(v: Chain, block: seq<octet>, t: nat): Chain
    requires |block| == 64 && t <= 80
    decreases t
  {
    if t == 0 then v else Round(Rounds(v, block, t - 1), t - 1, Schedule(block, t - 1))
  }

  /** Steps 2 to 4: the next intermediate hash value. */
  function Compress(h: Chain, block: seq<octet>): Chain
    requires |block| == 64
  {
    var v := Rounds(h, block, 80);
    Chain(Sum(h.a, v.a), Sum(h.b, v.b), Sum(h.c, v.c), Sum(h.d, v.d), Sum(h.e, v.e))
  }

  /** The hash value behind the first `k` blocks. */
  function HashBlocks(m: seq<octet>, k: nat): Chain
    requires 64 * k <= |m|
    decreases k
  {
    if k == 0 then INITIAL else Compress(HashBlocks(m, k - 1), m[64 * (k - 1)..64 * k])
  }

  /** The `n` low bytes of a number, most significant first. */
  function BigEndian(v: nat, n: nat): (s: seq<octet>)
    ensures |s| == n
    decreases n
  {
    if n == 0 then [] else BigEndian(v / 256, n - 1) + [(v % 256) as octet]
  }

  /** How many zero bytes bring the length behind the first padding byte to 56 modulo 64. */
  function ZeroBytes(length: nat): (z: nat)
    ensures z < 64 && (length + 1 + z) % 64 == 56
  {
    (119 - length % 64) % 64
  }

  lemma PaddedLength(n: nat)
    ensures (n + 1 + ZeroBytes(n) + 8) % 64 == 0
  {
  }

  /** Section 5.1.1: a one bit, zero bits, and the length in bits as a 64-bit number. */
  function Padded(m: seq<octet>): (p: seq<octet>)
    ensures |p| % 64 == 0
  {
    hide ZeroBytes, BigEndian;
    PaddedLength(|m|);
    m + [0x80] + seq(ZeroBytes(|m|), _ => 0) + BigEndian(8 * |m|, 8)
  }

  function Sha1Of(m: seq<octet>): Chain {
    HashBlocks(Padded(m), |Padded(m)| / 64)
  }

  // ---- the class ----

  /** What the class appends: its length field holds the low 32 bits only. */
  function PaddedByClass(m: seq<octet>): (p: seq<octet>)
    ensures |p| % 64 == 0
  {
    hide ZeroBytes, BigEndian;
    PaddedLength(|m|);
    m + [0x80] + seq(ZeroBytes(|m|), _ => 0) + [0, 0, 0, 0] + BigEndian(8 * |m|, 4)
  }

  function LeftRotate(value: word, count: nat): word
    requires 0 < count < 32
  {
    (value << count) ^ (value >> (32 - count))
  }

  lemma LeftRotateIsRotl(x: word)
    ensures LeftRotate(x, 1) == Rotl(x, 1) && LeftRotate(x, 5) == Rotl(x, 5) && LeftRotate(x, 30) == Rotl(x, 30)
  {
  }

  /** The class joins the terms of choice and majority with inclusive or. */
  lemma InclusiveForms(t: nat, x: word, y: word, z: word)
    requires t < 80
    ensures t < 20 ==> (x & y) | (!x & z) == F(t, x, y, z)
    ensures 20 <= t < 40 || 60 <= t ==> x ^ y ^ z == F(t, x, y, z)
    ensures 40 <= t < 60 ==> (x & y) | (x & z) | (y & z) == F(t, x, y, z)
  {
  }

  function Index(n: nat): (i: nat)
    ensures i < 64
  {
    n % 64
  }

  function Blocks(n: nat): (k: nat)
    ensures 64 * k + Index(n) == n
  {
    n / 64
  }

  lemma NextByte(n: nat)
    ensures Index(n + 1) == (if Index(n) == 63 then 0 else Index(n) + 1)
    ensures Blocks(n + 1) == (if Index(n) == 63 then Blocks(n) + 1 else Blocks(n))
  {
  }

  lemma NextCount(n: nat)
    ensures Wrap64(n % TWO64 + 1) == (n + 1) % TWO64
  {
  }

  lemma {:induction false} PrefixHash(m: seq<octet>, n: seq<octet>, k: nat)
    requires 64 * k <= |m| && m <= n
    ensures HashBlocks(n, k) == HashBlocks(m, k)
    decreases k
  {
    hide Compress;
    if k > 0 {
      PrefixHash(m, n, k - 1);
      assert n[64 * (k - 1)..64 * k] == m[64 * (k - 1)..64 * k];
    }
  }

  lemma OneMorePending(m: seq<octet>, pending: seq<octet>, octet: octet)
    requires |pending| <= |m| && pending == m[|m| - |pending|..]
    ensures (m + [octet])[|m| - |pending|..] == pending + [octet]
  {
  }

  lemma LastBlock(m: seq<octet>, block: seq<octet>, k: nat)
    requires |m| == 64 * (k + 1) && |block| == 64 && m[|m| - 64..] == block
    ensures HashBlocks(m, k + 1) == Compress(HashBlocks(m, k), block)
  {
    hide Compress;
    assert m[64 * k..64 * (k + 1)] == block;
  }

  class SHA1 {
    const digest: array<word>
    const block: array<octet>
    var blockByteIndex: nat
    var byteCount: u64
    ghost var message: seq<octet>

    ghost predicate Sized()
    {
      digest.Length == 5 && block.Length == 64
    }

    ghost function State(): Chain
      requires Sized()
      reads digest
    {
      Chain(digest[0], digest[1], digest[2], digest[3], digest[4])
    }

    /** The state is the hash of all full blocks so far; the rest waits in the block. */
    ghost predicate Valid()
      reads this, digest, block
    {
      && Sized()
      && blockByteIndex == Index(|message|) && byteCount == |message| % TWO64
      && State() == HashBlocks(message, Blocks(|message|))
      && block[..blockByteIndex] == message[|message| - blockByteIndex..]
    }

    constructor ()
      ensures Valid() && message == [] && fresh(digest) && fresh(block)
    {
      digest := new word[5](_ => 0);
      block := new octet[64](_ => 0);
      blockByteIndex := 0;
      byteCount := 0;
      message := [];
      new;
      Reset();
    }

    method Reset()
      requires Sized()
      modifies this, digest
      ensures Valid() && message == []
    {
      digest[0] := 0x67452301;
      digest[1] := 0xEFCDAB89;
      digest[2] := 0x98BADCFE;
      digest[3] := 0x10325476;
      digest[4] := 0xC3D2E1F0;
      blockByteIndex := 0;
      byteCount := 0;
      message := [];
    }

    /** Fills the schedule and runs the rounds on the 64 bytes of the block. */
    method CompressBlock()
      requires Sized()
      modifies digest
      ensures State() == Compress(old(State()), block[..])
    {
      hide Sum, Rounds;
      var w := ExpandBlock();
      var v := RunRounds(w, block[..]);
      digest[0] := Sum(digest[0], v.a);
      digest[1] := Sum(digest[1], v.b);
      digest[2] := Sum(digest[2], v.c);
      digest[3] := Sum(digest[3], v.d);
      digest[4] := Sum(digest[4], v.e);
    }

    method RunRounds(w: array<word>, ghost data: seq<octet>) returns (v: Chain)
      requires Sized() && w.Length == 80 && |data| == 64
      requires forall j :: 0 <= j < 80 ==> w[j] == Schedule(data, j)
      ensures v == Rounds(State(), data, 80)
    {
      hide F, K, Rotl, BigEndianWord, LeftRotate, Sum, Schedule;
      var a, b, c, d, e := digest[0], digest[1], digest[2], digest[3], digest[4];
      for i := 0 to 80
        invariant Chain(a, b, c, d, e) == Rounds(State(), data, i)
      {
        var temp := RoundSum(i, a, b, c, d, e, w[i]);
        LeftRotateIsRotl(b);
        e, d, c, b, a := d, c, LeftRotate(b, 30), a, temp;
      }
      return Chain(a, b, c, d, e);
    }

    method ExpandBlock() returns (w: array<word>)
      requires Sized()
      ensures fresh(w) && w.Length == 80
      ensures forall j :: 0 <= j < 80 ==> w[j] == Schedule(block[..], j)
    {
      hide Rotl, LeftRotate, Xor4, BigEndianWord;
      w := new word[80](_ => 0);
      for i := 0 to 16
        invariant forall j :: 0 <= j < i ==> w[j] == Schedule(block[..], j)
      {
        w[i] := PackWord(i);
      }
      for i := 16 to 80
        invariant forall j :: 0 <= j < i ==> w[j] == Schedule(block[..], j)
      {
        var x := Xor4(w[i - 3], w[i - 8], w[i - 14], w[i - 16]);
        LeftRotateIsRotl(x);
        w[i] := LeftRotate(x, 1);
      }
    }

    method PackWord(i: nat) returns (w: word)
      requires Sized() && i < 16
      ensures w == BigEndianWord(block[..], i)
    {
      w := block[i * 4 + 0] as word << 24;
      w := w | (block[i * 4 + 1] as word << 16);
      w := w | (block[i * 4 + 2] as word << 8);
      w := w | block[i * 4 + 3] as word;
    }

    method RoundSum(i: nat, a: word, b: word, c: word, d: word, e: word, w: word) returns (temp: word)
      requires i < 80
      ensures temp == Round(Chain(a, b, c, d, e), i, w).a
    {
      hide LeftRotate, Rotl, Sum, F;
      var f, k: word := 0, 0;
      InclusiveForms(i, b, c, d);
      if i < 20 {
        f := (b & c) | (!b & d);
        k := 0x5A827999;
      } else if i < 40 {
        f := b ^ c ^ d;
        k := 0x6ED9EBA1;
      } else if i < 60 {
        f := (b & c) | (b & d) | (c & d);
        k := 0x8F1BBCDC;
      } else {
        f := b ^ c ^ d;
        k := 0xCA62C1D6;
      }
      LeftRotateIsRotl(a);
      return Sum(Sum(Sum(Sum(LeftRotate(a, 5), f), e), k), w);
    }

    method ProcessByte(octet: octet)
      requires Valid()
      modifies this, digest, block
      ensures Valid() && message == old(message) + [octet] && blockByteIndex == Index(|message|)
    {
      hide Compress, Index, Blocks, Wrap64, HashBlocks;
      ghost var before, pending := message, block[..blockByteIndex];
      block[blockByteIndex] := octet;
      blockByteIndex := blockByteIndex + 1;
      assert block[..blockByteIndex] == pending + [octet];
      OneMorePending(before, pending, octet);
      NextCount(|message|);
      byteCount := Wrap64(byteCount + 1);
      message := message + [octet];
      NextByte(|before|);
      PrefixHash(before, message, Blocks(|before|));
      if blockByteIndex == 64 {
        blockByteIndex := 0;
        assert block[..64] == block[..];
        LastBlock(message, block[..], Blocks(|before|));
        CompressBlock();
      }
    }

    method ProcessBytes(data: seq<octet>)
      requires Valid()
      modifies this, digest, block
      ensures Valid() && message == old(message) + data
    {
      hide Valid, Index, Blocks;
      for i := 0 to |data|
        invariant Valid() && message == old(message) + data[..i]
      {
        ProcessByte(data[i]);
        assert data[..i + 1] == data[..i] + [data[i]];
      }
      assert data[..|data|] == data;
    }

    /** Zero bytes up to index 56, through the end of the block when the length would not fit. */
    method PadWithZeros(ghost m: seq<octet>)
      requires Valid() && message == m + [0x80] && blockByteIndex == Index(|message|)
      modifies this, digest, block
      ensures Valid() && message == m + [0x80] + seq(ZeroBytes(|m|), _ => 0)
    {
      hide Valid, ZeroBytes, Index;
      ghost var zeros: seq<octet> := [];
      if blockByteIndex > 56 {
        ghost var first := blockByteIndex;
        while blockByteIndex != 0
          invariant Valid() && message == m + [0x80] + zeros && blockByteIndex == Index(|message|) && AllZero(zeros)
          invariant if blockByteIndex == 0 then |zeros| == 64 - first else blockByteIndex == first + |zeros|
          decreases if blockByteIndex == 0 then 0 else 64 - blockByteIndex
        {
          NextByte(|message|);
          ProcessByte(0);
          zeros := zeros + [0];
        }
        ghost var before := |zeros|;
        while blockByteIndex < 56
          invariant Valid() && message == m + [0x80] + zeros && blockByteIndex == Index(|message|) && AllZero(zeros)
          invariant blockByteIndex == |zeros| - before <= 56
        {
          NextByte(|message|);
          ProcessByte(0);
          zeros := zeros + [0];
        }
      } else {
        ghost var first := blockByteIndex;
        while blockByteIndex < 56
          invariant Valid() && message == m + [0x80] + zeros && blockByteIndex == Index(|message|) && AllZero(zeros)
          invariant blockByteIndex == first + |zeros| <= 56
        {
          NextByte(|message|);
          ProcessByte(0);
          zeros := zeros + [0];
        }
      }
      EnoughZeros(|m|, |zeros|);
      assert zeros == seq(ZeroBytes(|m|), _ => 0);
    }

    /** Pads, appends the low 32 bits of the length in bits, and returns the hash value. */
    method GetDigest() returns (d: Chain)
      requires Valid()
      modifies this, digest, block
      ensures Valid() && message == PaddedByClass(old(message))
      ensures d == State() == HashBlocks(message, |message| / 64)
    {
      hide Valid, ZeroBytes, BigEndian, HashBlocks, Wrap64, LengthByte;
      ghost var m := message;
      var bitCount := BitCount();
      ProcessByte(0x80);
      PadWithZeros(m);
      AppendLength(bitCount);
      LengthField(|m|);
      d := Value();
    }

    method AppendLength(bitCount: nat)
      requires Valid()
      modifies this, digest, block
      ensures Valid()
      ensures
        message == old(message) + [0, 0, 0, 0]
                   + [LengthByte(bitCount, 3), LengthByte(bitCount, 2), LengthByte(bitCount, 1),
                     LengthByte(bitCount, 0)]
    {
      hide Valid, LengthByte;
      ProcessByte(0);
      ProcessByte(0);
      ProcessByte(0);
      ProcessByte(0);
      assert message == old(message) + [0, 0, 0, 0];
      ProcessByte(LengthByte(bitCount, 3));
      ProcessByte(LengthByte(bitCount, 2));
      ProcessByte(LengthByte(bitCount, 1));
      ProcessByte(LengthByte(bitCount, 0));
    }

    method GetDigestBytes() returns (bytes: seq<octet>)
      requires Valid()
      modifies this, digest, block
      ensures Valid() && message == PaddedByClass(old(message))
      ensures bytes == DigestBytes(HashBlocks(message, |message| / 64))
    {
      hide HashBlocks, PaddedByClass, DigestBytes, Valid;
      var d := GetDigest();
      return DigestBytes(d);
    }

    method BitCount() returns (n: u64)
      requires Valid()
      ensures n == 8 * |message| % TWO64
    {
      TimesEight(|message|);
      return Wrap64(byteCount * 8);
    }

    method Value() returns (d: Chain)
      requires Valid()
      ensures d == State() == HashBlocks(message, |message| / 64)
    {
      return Chain(digest[0], digest[1], digest[2], digest[3], digest[4]);
    }
  }

  /** Byte `i` of a number, counted from the lowest. */
  function LengthByte(v: nat, i: nat): octet
    requires i < 4
  {
    (v / (if i == 0 then 1 else if i == 1 then 0x100 else if i == 2 then 0x1_0000 else 0x100_0000) % 256) as octet
  }

  lemma TimesEight(n: nat)
    ensures Wrap64(n % TWO64 * 8) == 8 * n % TWO64
  {
    var q: nat, r: nat := n / TWO64, n % TWO64;
    assert 8 * n == TWO64 * (8 * q) + 8 * r;
    DivModUnique(8 * n, TWO64, 8 * q + 8 * r / TWO64, 8 * r % TWO64);
  }

  ghost predicate AllZero(s: seq<octet>) {
    forall i :: 0 <= i < |s| ==> s[i] == 0
  }

  lemma EnoughZeros(n: nat, z: nat)
    requires z < 64 && Index(n + 1 + z) == 56
    ensures z == ZeroBytes(n)
  {
  }

  lemma {:induction false} HighBytesIgnored(v: nat, r: nat, n: nat)
    ensures BigEndian(v + Pow256(n) * r, n) == BigEndian(v, n)
  {
    if n > 0 {
      var p, w := Pow256(n - 1), v + Pow256(n) * r;
      MulAssoc(256, p, r);
      assert w % 256 == v % 256 && w / 256 == v / 256 + p * r;
      HighBytesIgnored(v / 256, r, n - 1);
    }
  }

  lemma LastByte(v: nat, n: nat)
    ensures BigEndian(v, n + 1) == BigEndian(v / 256, n) + [LengthByte(v, 0)]
  {
  }

  lemma NextLengthByte(v: nat, i: nat)
    requires i < 3
    ensures LengthByte(v, i + 1) == LengthByte(v / 256, i)
  {
    if i == 0 {
      assert v / 256 / 1 == v / 256;
    } else if i == 1 {
      assert v / 256 / 256 == v / 0x1_0000;
    } else {
      assert v / 256 / 0x1_0000 == v / 0x100_0000;
    }
  }

  lemma {:induction false} FourBytes(v: nat)
    ensures BigEndian(v, 4) == [LengthByte(v, 3), LengthByte(v, 2), LengthByte(v, 1), LengthByte(v, 0)]
  {
    hide LengthByte, BigEndian;
    var v1, v2, v3 := v / 256, v / 256 / 256, v / 256 / 256 / 256;
    LastByte(v, 3);
    LastByte(v1, 2);
    LastByte(v2, 1);
    LastByte(v3, 0);
    NextLengthByte(v, 0);
    NextLengthByte(v, 1);
    NextLengthByte(v1, 0);
    NextLengthByte(v, 2);
    NextLengthByte(v1, 1);
    NextLengthByte(v2, 0);
  }

  /** The four bytes written are those of the bit count, although that count is kept in 64 bits. */
  lemma {:induction false} LengthField(n: nat)
    ensures var v := 8 * n % TWO64;
            BigEndian(8 * n, 4) == [LengthByte(v, 3), LengthByte(v, 2), LengthByte(v, 1), LengthByte(v, 0)]
  {
    hide BigEndian, LengthByte;
    var v := 8 * n % TWO64;
    FourBytes(v);
    Pow256Values();
    assert 8 * n == v + TWO32 * (TWO32 * (8 * n / TWO64));
    HighBytesIgnored(v, TWO32 * (8 * n / TWO64), 4);
  }

  function Quotient(v: nat, p: nat): nat
    requires p >= 1
  {
    v / p
  }

  lemma {:induction false} QuotientTwice(v: nat, p: nat)
    requires p >= 1
    ensures Quotient(v / 256, p) == Quotient(v, 256 * p)
  {
    var h := v / 256;
    var q, r := h / p, h % p;
    assert h == p * q + r;
    MulAssoc(256, p, q);
    DivModUnique(v, 256 * p, q, 256 * r + v % 256);
  }

  lemma {:induction false} BigEndianSplit(v: nat, n: nat)
    ensures BigEndian(v, 4 + n) == BigEndian(Quotient(v, Pow256(n)), 4) + BigEndian(v, n)
    decreases n
  {
    hide Quotient;
    if n == 0 {
      WholeQuotient(v);
    } else {
      BigEndianSplit(v / 256, n - 1);
      QuotientTwice(v, Pow256(n - 1));
    }
  }

  lemma WholeQuotient(v: nat)
    ensures Quotient(v, 1) == v
  {
  }

  lemma {:induction false} ZeroField(v: nat, n: nat)
    requires v < Pow256(n) && (forall i :: 0 <= i < n ==> BigEndian(v, n)[i] == 0)
    ensures v == 0
    decreases n
  {
    if n > 0 {
      var s, t := BigEndian(v, n), BigEndian(v / 256, n - 1);
      assert s[n - 1] == (v % 256) as octet;
      assert forall i :: 0 <= i < n - 1 ==> t[i] == s[i];
      ZeroField(v / 256, n - 1);
    }
  }

  lemma {:induction false} NoHighBytes(n: nat)
    ensures BigEndian(0, n) == seq(n, _ => 0)
  {
    if n > 0 {
      NoHighBytes(n - 1);
    }
  }

  /** The class pads as the standard does exactly for messages shorter than 2^32 bits, among
      those the standard is defined for. */
  lemma {:induction false} PaddingMeetsStandard(m: seq<octet>)
    requires 8 * |m| < TWO64
    ensures PaddedByClass(m) == Padded(m) <==> 8 * |m| < TWO32
  {
    hide BigEndian, ZeroBytes;
    var v := 8 * |m|;
    var head := m + [0x80] + seq(ZeroBytes(|m|), _ => 0);
    var high, low := BigEndian(Quotient(v, TWO32), 4), BigEndian(v, 4);
    Pow256Values();
    BigEndianSplit(v, 4);
    Associate(head, [0, 0, 0, 0], low);
    SameTail(head, [0, 0, 0, 0] + low, high + low);
    SameHead([0, 0, 0, 0], high, low);
    if v < TWO32 {
      NoHighBytes(4);
    } else if high == [0, 0, 0, 0] {
      ZeroField(Quotient(v, TWO32), 4);
    }
  }

  lemma SameTail(a: seq<octet>, b: seq<octet>, c: seq<octet>)
    ensures a + b == a + c <==> b == c
  {
    assert (a + b)[|a|..] == b && (a + c)[|a|..] == c;
  }

  lemma SameHead(a: seq<octet>, b: seq<octet>, c: seq<octet>)
    requires |a| == |b|
    ensures a + c == b + c <==> a == b
  {
    assert (a + c)[..|a|] == a && (b + c)[..|b|] == b;
  }

  function ConcatOctets(parts: seq<seq<octet>>): seq<octet> {
    if parts == [] then [] else ConcatOctets(parts[..|parts| - 1]) + parts[|parts| - 1]
  }

  /** However a message is split into calls, the digest is that of the whole message. */
  method DigestOf(parts: seq<seq<octet>>) returns (d: Chain)
    ensures d == HashBlocks(PaddedByClass(ConcatOctets(parts)), |PaddedByClass(ConcatOctets(parts))| / 64)
    ensures 8 * |ConcatOctets(parts)| < TWO32 ==> d == Sha1Of(ConcatOctets(parts))
  {
    hide PaddedByClass, Padded, HashBlocks, SHA1.Valid;
    var sha := new SHA1();
    for i := 0 to |parts|
      invariant sha.Valid() && sha.message == ConcatOctets(parts[..i])
      invariant fresh(sha) && fresh(sha.digest) && fresh(sha.block)
    {
      sha.ProcessBytes(parts[i]);
      assert parts[..i + 1][..i] == parts[..i];
    }
    assert parts[..|parts|] == parts;
    if 8 * |ConcatOctets(parts)| < TWO32 {
      PaddingMeetsStandard(ConcatOctets(parts));
    }
    d := sha.GetDigest();
  }

  /** The digest as bytes, each word most significant byte first. */
  function DigestBytes(d: Chain): (s: seq<octet>)
    ensures |s| == 20
  {
    WordBytes(d.a) + WordBytes(d.b) + WordBytes(d.c) + WordBytes(d.d) + WordBytes(d.e)
  }

  function WordBytes(w: word): (s: seq<octet>)
    ensures |s| == 4
  {
    [((w >> 24) & 0xFF) as octet, ((w >> 16) & 0xFF) as octet, ((w >> 8) & 0xFF) as octet, (w & 0xFF) as octet]
  }

  /** Reading the bytes back as big-endian words gives the hash value again. */
  lemma DigestBytesBack(d: Chain)
    ensures
      var s := DigestBytes(d);
      d == Chain(BigEndianWord(s, 0), BigEndianWord(s, 1), BigEndianWord(s, 2), BigEndianWord(s, 3),
        BigEndianWord(s, 4))
  {
    hide WordBytes;
    WordBytesBack(d.a, DigestBytes(d), 0);
    WordBytesBack(d.b, DigestBytes(d), 1);
    WordBytesBack(d.c, DigestBytes(d), 2);
    WordBytesBack(d.d, DigestBytes(d), 3);
    WordBytesBack(d.e, DigestBytes(d), 4);
  }

  lemma WordBytesBack(w: word, s: seq<octet>, i: nat)
    requires 4 * i + 4 <= |s| && s[4 * i..4 * i + 4] == WordBytes(w)
    ensures BigEndianWord(s, i) == w
  {
    var t := s[4 * i..4 * i + 4];
    assert t[0] == s[4 * i] && t[1] == s[4 * i + 1] && t[2] == s[4 * i + 2] && t[3] == s[4 * i + 3];
  }
}
