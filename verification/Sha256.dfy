/**
 Streaming SHA-256 equals the hash of FIPS 180-4: padding by section 5.1.1, parsing and the
 hash computation by sections 5.2.1 and 6.2.2, however the input is cut into updates.
 */
module Sha256 {
  import opened WireFormat

  type Word = bv32

  const UINT64: int := 0x1_0000_0000_0000_0000

  // ---- FIPS 180-4, section 4.1.2 ----

  function Rotr(x: Word, n: bv6): Word
    requires n < 32
  {
    (x >> n) | (x << (32 - n))
  }

  function Xor3(x: Word, y: Word, z: Word): Word {
    x ^ y ^ z
  }

  function Or(x: Word, y: Word): Word {
    x | y
  }

  /** Addition modulo 2^32. */
  function Plus(x: Word, y: Word): Word {
    x + y
  }

  function Ch(x: Word, y: Word, z: Word): Word {
    (x & y) ^ (!x & z)
  }

  function Maj(x: Word, y: Word, z: Word): Word {
    (x & y) ^ (x & z) ^ (y & z)
  }

  function BigSigma0(x: Word): Word {
    Xor3(Rotr(x, 2), Rotr(x, 13), Rotr(x, 22))
  }

  function BigSigma1(x: Word): Word {
    Xor3(Rotr(x, 6), Rotr(x, 11), Rotr(x, 25))
  }

  function SmallSigma0(x: Word): Word {
    Xor3(Rotr(x, 7), Rotr(x, 18), x >> 3)
  }

  function SmallSigma1(x: Word): Word {
    Xor3(Rotr(x, 17), Rotr(x, 19), x >> 10)
  }

  /** Section 4.2.2, one line of the table each. */
  const K0: seq<Word> := [0x428a2f98, 0x71374491, 0xb5c0fbcf, 0xe9b5dba5, 0x3956c25b, 0x59f111f1, 0x923f82a4, 0xab1c5ed5]
  const K1: seq<Word> := [0xd807aa98, 0x12835b01, 0x243185be, 0x550c7dc3, 0x72be5d74, 0x80deb1fe, 0x9bdc06a7, 0xc19bf174]
  const K2: seq<Word> := [0xe49b69c1, 0xefbe4786, 0x0fc19dc6, 0x240ca1cc, 0x2de92c6f, 0x4a7484aa, 0x5cb0a9dc, 0x76f988da]
  const K3: seq<Word> := [0x983e5152, 0xa831c66d, 0xb00327c8, 0xbf597fc7, 0xc6e00bf3, 0xd5a79147, 0x06ca6351, 0x14292967]
  const K4: seq<Word> := [0x27b70a85, 0x2e1b2138, 0x4d2c6dfc, 0x53380d13, 0x650a7354, 0x766a0abb, 0x81c2c92e, 0x92722c85]
  const K5: seq<Word> := [0xa2bfe8a1, 0xa81a664b, 0xc24b8b70, 0xc76c51a3, 0xd192e819, 0xd6990624, 0xf40e3585, 0x106aa070]
  const K6: seq<Word> := [0x19a4c116, 0x1e376c08, 0x2748774c, 0x34b0bcb5, 0x391c0cb3, 0x4ed8aa4a, 0x5b9cca4f, 0x682e6ff3]
  const K7: seq<Word> := [0x748f82ee, 0x78a5636f, 0x84c87814, 0x8cc70208, 0x90befffa, 0xa4506ceb, 0xbef9a3f7, 0xc67178f2]

  const K: seq<Word> := ((K0 + K1) + (K2 + K3)) + ((K4 + K5) + (K6 + K7))

  /** Section 5.3.3. */
  const H0: Chain := Chain(0x6a09e667, 0xbb67ae85, 0x3c6ef372, 0xa54ff53a, 0x510e527f, 0x9b05688c, 0x1f83d9ab, 0x5be0cd19)

  /** Eight words: a hash value, or the working variables of a round. */
  datatype Chain = Chain(a: Word, b: Word, c: Word, d: Word, e: Word, f: Word, g: Word, h: Word)

  // ---- section 6.2.2 ----

  function WordOf(b0: bv8, b1: bv8, b2: bv8, b3: bv8): Word {
    Or(Or(Or((b0 as bv32) << 24, (b1 as bv32) << 16), (b2 as bv32) << 8), b3 as bv32)
  }

  /** Step 1: the first `n` words of the message schedule of a block. */
  function Schedule(block: seq<bv8>, n: nat): (w: seq<Word>)
    requires |block| == 64
    ensures |w| == n
  {
    if n == 0 then [] else ScheduleNext(block, Schedule(block, n - 1))
  }

  function WordAt(block: seq<bv8>, t: nat): Word
    requires |block| == 64 && t < 16
  {
    WordOf(block[4 * t], block[4 * t + 1], block[4 * t + 2], block[4 * t + 3])
  }

  function Expanded(w16: Word, w15: Word, w7: Word, w2: Word): Word {
    Plus(Plus(Plus(w16, SmallSigma0(w15)), w7), SmallSigma1(w2))
  }

  function ScheduleNext(block: seq<bv8>, w: seq<Word>): seq<Word>
    requires |block| == 64
  {
    var t := |w|;
    w + [if t < 16 then WordAt(block, t)
         else Expanded(w[t - 16], w[t - 15], w[t - 7], w[t - 2])]
  }

  function Round(p: Chain, k: Word, w: Word): Chain {
    var t1 := Plus(Plus(Plus(Plus(p.h, BigSigma1(p.e)), Ch(p.e, p.f, p.g)), k), w);
    var t2 := Plus(BigSigma0(p.a), Maj(p.a, p.b, p.c));
    Chain(Plus(t1, t2), p.a, p.b, p.c, Plus(p.d, t1), p.e, p.f, p.g)
  }

  /** Step 3: the working variables after `t` rounds. */
  function Rounds(k: seq<Word>, v: Chain, w: seq<Word>, t: nat): Chain
    requires t <= |k| == |w|
  {
    if t == 0 then v else Round(Rounds(k, v, w, t - 1), k[t - 1], w[t - 1])
  }

  /** Step 4. */
  function Add(x: Chain, y: Chain): Chain {
    Chain(Plus(x.a, y.a), Plus(x.b, y.b), Plus(x.c, y.c), Plus(x.d, y.d), Plus(x.e, y.e), Plus(x.f, y.f), Plus(x.g, y.g), Plus(x.h, y.h))
  }

  function Compressed(k: seq<Word>, h: Chain, block: seq<bv8>): Chain
    requires |k| == 64 && |block| == 64
  {
    Add(h, Rounds(k, h, Schedule(block, 64), 64))
  }

  /** The hash value after all 64-byte blocks of `m`. */
  function Blocks(k: seq<Word>, m: seq<bv8>): Chain
    requires |k| == 64 && |m| % 64 == 0
  {
    if m == [] then H0
    else
      Compressed(k, Blocks(k, m[..|m| - 64]), m[|m| - 64..])
  }

  // ---- sections 5.1.1 and 6.2 ----

  /** The smallest number of zero bytes that leaves room for exactly the 8-byte length. */
  function ZeroCount(n: nat): nat {
    (55 - n) % 64
  }

  function Zeros(n: nat): (z: seq<bv8>)
    ensures |z| == n
  {
    if n == 0 then [] else Zeros(n - 1) + [0]
  }

  /** A number in `width` bytes, most significant first. */
  function LengthField(n: nat, width: nat): (b: seq<bv8>)
    ensures |b| == width
  {
    if width == 0 then [] else LengthField(n / 0x100, width - 1) + [(n % 0x100) as bv8]
  }

  function ShiftRight(n: nat, bytes: nat): nat {
    if bytes == 0 then n else ShiftRight(n, bytes - 1) / 0x100
  }

  function Padded(m: seq<bv8>): seq<bv8> {
    m + [0x80] + Zeros(ZeroCount(|m|)) + LengthField(8 * |m|, 8)
  }

  lemma ZerosFill(n: nat)
    ensures (n + 9 + ZeroCount(n)) % 64 == 0
  {
  }

  lemma PaddedLength(m: seq<bv8>)
    ensures |Padded(m)| % 64 == 0 && |Padded(m)| == |m| + 9 + ZeroCount(|m|)
  {
    ZerosFill(|m|);
  }

  function ByteAt(w: Word, shift: bv6): bv8
    requires shift <= 24
  {
    ((w >> shift) & 0xff) as bv8
  }

  function WordBytes(w: Word): seq<bv8> {
    [ByteAt(w, 24), ByteAt(w, 16), ByteAt(w, 8), ByteAt(w, 0)]
  }

  function WordsBytes(words: seq<Word>): seq<bv8> {
    if words == [] then [] else WordsBytes(words[..|words| - 1]) + WordBytes(words[|words| - 1])
  }

  function Words(h: Chain): seq<Word> {
    [h.a, h.b, h.c, h.d, h.e, h.f, h.g, h.h]
  }

  function Digest(k: seq<Word>, m: seq<bv8>): seq<bv8>
    requires |k| == 64
  {
    PaddedLength(m);
    WordsBytes(Words(Blocks(k, Padded(m))))
  }

  /** FIPS 180-4 on a message of fewer than 2^61 bytes. */
  function Fips180(m: seq<bv8>): seq<bv8> {
    Digest(K, m)
  }

  // ---- the implementation ----

  class Sha256 {
    const constants: seq<Word>
    const data: array<bv8>
    var len: nat
    var bitLen: uint64
    var state: Chain
    ghost const compression: (Chain, seq<bv8>) -> Chain
    ghost var compressed: seq<bv8>

    /** Everything since the last reset: what went through `Transform`, and what is still in the buffer. */
    ghost function Fed(): seq<bv8>
      reads this, data
      requires len <= data.Length
    {
      compressed + data[..len]
    }

    ghost predicate Valid()
      reads this, data
    {
      && IsCompression(compression, constants) && data.Length == 64 && len < 64
      && |compressed| % 64 == 0
      && state == Iterated(compression, compressed)
      && bitLen == 8 * |compressed| % UINT64
    }

    constructor ()
      ensures Valid() && Fed() == [] && constants == K && fresh(data)
    {
      constants := K;
      compression := Compression(K);
      data := new bv8[64](_ => 0);
      state := H0;
      new;
      Reset();
    }

    method Reset()
      requires IsCompression(compression, constants) && data.Length == 64
      modifies this
      ensures Valid() && Fed() == []
    {
      len := 0;
      bitLen := 0;
      state := H0;
      compressed := [];
    }

    method Transform()
      requires |constants| == 64 && data.Length == 64
      modifies this`state
      ensures state == Compressed(constants, old(state), data[..])
    {
      var w := MessageSchedule();
      var v := AllRounds(state, w);
      state := Sum(state, v);
    }

    method AllRounds(start: Chain, w: seq<Word>) returns (v: Chain)
      requires |constants| == |w| == 64
      ensures v == Rounds(constants, start, w, 64)
    {
      v := start;
      for i := 0 to 64
        invariant v == Rounds(constants, start, w, i)
      {
        v := OneRound(v.a, v.b, v.c, v.d, v.e, v.f, v.g, v.h, constants[i], w[i]);
      }
    }

    method MessageSchedule() returns (w: seq<Word>)
      requires data.Length == 64
      ensures w == Schedule(data[..], 64)
    {
      ghost var block := data[..];
      w := [];
      for i := 0 to 16
        invariant w == Schedule(block, i) && data[..] == block
      {
        var next := FirstWord(data[4 * i], data[4 * i + 1], data[4 * i + 2], data[4 * i + 3]);
        FirstWordFits(block, w, next);
        w := w + [next];
      }
      for i := 16 to 64
        invariant w == Schedule(block, i)
      {
        var next := NextWord(w[i - 16], w[i - 15], w[i - 7], w[i - 2]);
        NextWordFits(block, w, next);
        w := w + [next];
      }
    }

    method Update(input: seq<bv8>)
      requires Valid()
      modifies this, data
      ensures Valid() && Fed() == old(Fed()) + input
    {
      for i := 0 to |input|
        invariant Valid() && Fed() == old(Fed()) + input[..i]
      {
        Push(input[i]);
        assert input[..i + 1] == input[..i] + [input[i]];
      }
      assert input[..|input|] == input;
    }

    method Push(b: bv8)
      requires Valid()
      modifies this, data
      ensures Valid() && Fed() == old(Fed()) + [b]
    {
      ghost var pending := data[..len];
      data[len] := b;
      len := len + 1;
      assert data[..len] == pending + [b];
      if len == 64 {
        assert data[..64] == data[..];
        Flush();
      }
    }

    /** A full buffer met while input is taken in. */
    method Flush()
      requires IsCompression(compression, constants) && data.Length == 64 == len && |compressed| % 64 == 0
      requires state == Iterated(compression, compressed) && bitLen == 8 * |compressed| % UINT64
      modifies this
      ensures Valid() && len == 0
      ensures compressed == old(compressed) + data[..]
    {
      Compress();
      bitLen := (bitLen + 512) % UINT64;
    }

    /** The full buffer becomes part of the hash value. */
    method Compress()
      requires IsCompression(compression, constants) && data.Length == 64 == len && |compressed| % 64 == 0
      requires state == Iterated(compression, compressed)
      modifies this`len, this`state, this`compressed
      ensures len == 0 && compressed == old(compressed) + data[..] && |compressed| % 64 == 0
      ensures state == Iterated(compression, compressed)
    {
      Transform();
      ghost var longer := compressed + data[..];
      IteratedSnoc(compression, compressed, data[..], longer);
      compressed := longer;
      len := 0;
    }

    method Put(b: bv8)
      requires data.Length == 64 && len < 64
      modifies this`len, data
      ensures len == old(len) + 1 && Fed() == old(Fed()) + [b]
    {
      ghost var pending := data[..len];
      data[len] := b;
      len := len + 1;
      assert data[..len] == pending + [b];
    }

    method PadTo(n: nat)
      requires data.Length == 64 && len <= n <= 64
      modifies this`len, data
      ensures len == n && Fed() == old(Fed()) + Zeros(n - old(len))
    {
      ghost var start := len;
      while len < n
        invariant start <= len <= n
        invariant Fed() == old(Fed()) + Zeros(len - start)
      {
        Put(0);
      }
    }

    method PutLength(bits: uint64)
      requires data.Length == 64 && len == 56
      modifies this`len, data
      ensures len == 64 && Fed() == old(Fed()) + LengthField(bits, 8)
    {
      var k := 8;
      while k > 0
        invariant 0 <= k <= 8 && len == 64 - k
        invariant Fed() == old(Fed()) + LengthField(ShiftRight(bits, k), 8 - k)
      {
        k := k - 1;
        Put((ShiftRight(bits, k) % 0x100) as bv8);
      }
    }

    /** The 0x80 byte; if the length no longer fits behind it, the rest of the block is zeros. */
    method MarkEnd() returns (ghost zeros: nat)
      requires Valid()
      modifies this`len, this`state, this`compressed, data
      ensures len <= 56 && zeros + (56 - len) == ZeroCount(|old(Fed())|)
      ensures Fed() == old(Fed()) + [0x80] + Zeros(zeros)
      ensures |compressed| % 64 == 0 && state == Iterated(compression, compressed)
    {
      ghost var n := |Fed()|;
      ZerosNeeded(n, |compressed|, len);
      zeros := 0;
      Put(0x80);
      if len > 56 {
        zeros := 64 - len;
        PadTo(64);
        assert data[..64] == data[..];
        Compress();
      }
    }

    /** The remaining zeros and the length complete the last block. */
    method AppendLength(totalBits: uint64)
      requires IsCompression(compression, constants) && data.Length == 64 && len <= 56
      requires |compressed| % 64 == 0 && state == Iterated(compression, compressed)
      modifies this`len, this`state, this`compressed, data
      ensures compressed == old(Fed()) + Zeros(56 - old(len)) + LengthField(totalBits, 8)
      ensures |compressed| % 64 == 0 && state == Iterated(compression, compressed)
    {
      PadTo(56);
      PutLength(totalBits);
      assert data[..64] == data[..];
      Compress();
    }

    /** The bits taken in since the last reset. */
    method TotalBits() returns (bits: uint64)
      requires Valid() && |Fed()| < 0x2000_0000_0000_0000
      ensures bits == 8 * |Fed()|
    {
      bits := (bitLen + len * 8) % UINT64;
    }

    /** The digest. The object must be reset before it is used again. */
    method Final() returns (out: seq<bv8>)
      requires Valid() && |Fed()| < 0x2000_0000_0000_0000
      modifies this, data
      ensures out == Digest(constants, old(Fed()))
    {
      ghost var m := Fed();
      var totalBits := TotalBits();
      ghost var zeros := MarkEnd();
      ghost var more := 56 - len;
      AppendLength(totalBits);
      out := Output();
      PaddedOf(m, zeros, more, compressed);
      IteratedIsBlocks(compression, constants, compressed);
    }

    method Output() returns (out: seq<bv8>)
      ensures out == WordsBytes(Words(state))
    {
      var words := Words(state);
      out := [];
      for j := 0 to 8
        invariant out == WordsBytes(words[..j])
      {
        assert words[..j + 1][..j] == words[..j];
        out := out + WordBytes(words[j]);
      }
      assert words[..8] == words;
    }
  }

  // ---- the word arithmetic of the loops ----

  method OneRound(a: Word, b: Word, c: Word, d: Word, e: Word, f: Word, g: Word, h: Word, k: Word, w: Word) returns (r: Chain)
    ensures r == Round(Chain(a, b, c, d, e, f, g, h), k, w)
  {
    var s1 := Xor3(Rotr(e, 6), Rotr(e, 11), Rotr(e, 25));
    var ch := (e & f) ^ (!e & g);
    var temp1 := Plus(Plus(Plus(Plus(h, s1), ch), k), w);
    var s0 := Xor3(Rotr(a, 2), Rotr(a, 13), Rotr(a, 22));
    var maj := (a & b) ^ (a & c) ^ (b & c);
    var temp2 := Plus(s0, maj);
    return Chain(Plus(temp1, temp2), a, b, c, Plus(d, temp1), e, f, g);
  }

  method Sum(s: Chain, v: Chain) returns (r: Chain)
    ensures r == Add(s, v)
  {
    return Chain(Plus(s.a, v.a), Plus(s.b, v.b), Plus(s.c, v.c), Plus(s.d, v.d),
                 Plus(s.e, v.e), Plus(s.f, v.f), Plus(s.g, v.g), Plus(s.h, v.h));
  }

  method FirstWord(b0: bv8, b1: bv8, b2: bv8, b3: bv8) returns (w: Word)
    ensures w == WordOf(b0, b1, b2, b3)
  {
    return Or(Or(Or((b0 as bv32) << 24, (b1 as bv32) << 16), (b2 as bv32) << 8), b3 as bv32);
  }

  method NextWord(w16: Word, w15: Word, w7: Word, w2: Word) returns (w: Word)
    ensures w == Expanded(w16, w15, w7, w2)
  {
    var s0 := Xor3(Rotr(w15, 7), Rotr(w15, 18), w15 >> 3);
    var s1 := Xor3(Rotr(w2, 17), Rotr(w2, 19), w2 >> 10);
    return Plus(Plus(Plus(w16, s0), w7), s1);
  }

  lemma FirstWordFits(block: seq<bv8>, w: seq<Word>, next: Word)
    requires |block| == 64 && |w| < 16 && w == Schedule(block, |w|)
    requires next == WordAt(block, |w|)
    ensures w + [next] == Schedule(block, |w| + 1)
  {
  }

  lemma NextWordFits(block: seq<bv8>, w: seq<Word>, next: Word)
    requires |block| == 64 && 16 <= |w| < 64 && w == Schedule(block, |w|)
    requires var t := |w|; next == Expanded(w[t - 16], w[t - 15], w[t - 7], w[t - 2])
    ensures w + [next] == Schedule(block, |w| + 1)
  {
  }

  /** The hexadecimal digest of a whole input. */
  method Sha256Hex(input: seq<bv8>) returns (hex: string)
    requires |input| < 0x2000_0000_0000_0000
    ensures hex == Hex(Fips180(input))
  {
    var h := new Sha256();
    h.Update(input);
    assert h.Fed() == input;
    var digest := h.Final();
    hex := HexOf(digest);
  }

  method HexOf(digest: seq<bv8>) returns (hex: string)
    ensures hex == Hex(digest)
  {
    hex := "";
    for i := 0 to |digest|
      invariant hex == Hex(digest[..i])
    {
      hex := hex + [HexDigit((digest[i] >> 4) & 0x0f), HexDigit(digest[i] & 0x0f)];
      assert digest[..i + 1][..i] == digest[..i];
    }
    assert digest[..|digest|] == digest;
  }

  function HexDigit(d: bv8): char
    requires d < 16
  {
    "0123456789abcdef"[d as int]
  }

  function Hex(bytes: seq<bv8>): string {
    if bytes == [] then ""
    else
      var b := bytes[|bytes| - 1];
      Hex(bytes[..|bytes| - 1]) + [HexDigit((b >> 4) & 0x0f), HexDigit(b & 0x0f)]
  }

  lemma PaddedOf(m: seq<bv8>, a: nat, b: nat, whole: seq<bv8>)
    requires a + b == ZeroCount(|m|)
    requires whole == m + [0x80] + Zeros(a) + Zeros(b) + LengthField(8 * |m|, 8)
    ensures whole == Padded(m)
  {
    ZerosJoin(m + [0x80], a, b, ZeroCount(|m|), LengthField(8 * |m|, 8));
  }

  lemma ZerosJoin(m: seq<bv8>, a: nat, b: nat, z: nat, field: seq<bv8>)
    requires z == a + b
    ensures m + Zeros(a) + Zeros(b) + field == m + Zeros(z) + field
  {
    ZerosAdd(a, b);
    assert m + Zeros(a) + Zeros(b) == m + (Zeros(a) + Zeros(b));
  }

  lemma {:induction false} ZerosAdd(a: nat, b: nat)
    ensures Zeros(a) + Zeros(b) == Zeros(a + b)
  {
    if b > 0 {
      ZerosAdd(a, b - 1);
      assert Zeros(a) + Zeros(b) == Zeros(a) + Zeros(b - 1) + [0];
    }
  }

  /** The zeros written in one or in two blocks are as many as the standard asks for. */
  lemma ZerosNeeded(n: nat, m: nat, i: nat)
    requires n == m + i && m % 64 == 0 && i < 64
    ensures ZeroCount(n) == if i + 1 > 56 then (63 - i) + 56 else 55 - i
  {
  }

  /** A chain of any compression function; what the object keeps does not depend on which. */
  function Iterated(f: (Chain, seq<bv8>) -> Chain, m: seq<bv8>): Chain
    requires |m| % 64 == 0
  {
    if m == [] then H0 else f(Iterated(f, m[..|m| - 64]), m[|m| - 64..])
  }

  ghost predicate IsCompression(f: (Chain, seq<bv8>) -> Chain, k: seq<Word>) {
    |k| == 64 && forall h, block {:trigger Compressed(k, h, block)} :: |block| == 64 ==> f(h, block) == Compressed(k, h, block)
  }

  function Compression(k: seq<Word>): (Chain, seq<bv8>) -> Chain
    requires |k| == 64
  {
    (h: Chain, block: seq<bv8>) => if |block| == 64 then Compressed(k, h, block) else h
  }

  lemma IteratedSnoc(f: (Chain, seq<bv8>) -> Chain, m: seq<bv8>, block: seq<bv8>, longer: seq<bv8>)
    requires |m| % 64 == 0 && |block| == 64 && longer == m + block
    ensures |longer| % 64 == 0 && Iterated(f, longer) == f(Iterated(f, m), block)
  {
    assert longer[..|longer| - 64] == m && longer[|longer| - 64..] == block;
  }

  /** With the compression function of the standard the chain is the standard's hash value. */
  lemma {:induction false} IteratedIsBlocks(f: (Chain, seq<bv8>) -> Chain, k: seq<Word>, m: seq<bv8>)
    requires IsCompression(f, k) && |m| % 64 == 0
    ensures Iterated(f, m) == Blocks(k, m)
  {
    if m != [] {
      IteratedIsBlocks(f, k, m[..|m| - 64]);
    }
  }
}
