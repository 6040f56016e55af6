/** `sha256`: the global state, the in-place interleaved loop, and the printed digest, proved
    against FIPS 180-4. */
module Sha256 {
  import opened CTypes
  import opened HexDigits
  import opened Fips180

  /** `sha256_IE` */
  function ExpandedWord(w: seq<bv32>, i: nat): bv32
    requires 16 <= i <= |w|
  {
    IeSum(w[i - 2], w[i - 7], w[i - 15], w[i - 16])
  }

  function IeSum(w2: bv32, w7: bv32, w15: bv32, w16: bv32): bv32
  {
    var s1 := Xor3(Rotr(w2, 17), Rotr(w2, 19), w2 >> 10);
    var s0 := Xor3(Rotr(w15, 7), Rotr(w15, 18), w15 >> 3);
    Sum4(s1, w7, s0, w16)
  }

  lemma IeSumIsStandard(w2: bv32, w7: bv32, w15: bv32, w16: bv32)
    ensures IeSum(w2, w7, w15, w16) == Expansion(w2, w7, w15, w16)
  {
    hide Rotr, Xor3, Sum4;
    RotrIsRotation(w2);
    RotrIsRotation(w15);
  }

  lemma ExpandedWordIsNext(w: seq<bv32>, i: nat)
    requires 16 <= i <= |w|
    ensures ExpandedWord(w, i) == NextWord(w[..i])
  {
    hide IeSum, Expansion;
    IeSumIsStandard(w[i - 2], w[i - 7], w[i - 15], w[i - 16]);
  }

  // The local variables of `sha256_ROC`.
  function RocS1(e: bv32): bv32 { Xor3(Rotr(e, 6), Rotr(e, 11), Rotr(e, 25)) }
  function RocCh(e: bv32, f: bv32, g: bv32): bv32 { (e & f) ^ (!e & g) }
  function RocS2(a: bv32): bv32 { Xor3(Rotr(a, 2), Rotr(a, 13), Rotr(a, 22)) }
  function RocMaj(a: bv32, b: bv32, c: bv32): bv32 { (a & b) ^ (a & c) ^ (b & c) }

  lemma RocIsStandard(a: bv32, b: bv32, c: bv32, e: bv32, f: bv32, g: bv32)
    ensures RocS1(e) == BigSigma1(e) && RocS2(a) == BigSigma0(a)
    ensures RocCh(e, f, g) == Ch(e, f, g) && RocMaj(a, b, c) == Maj(a, b, c)
  {
    hide Rotr, Xor3;
    RotrIsRotation(a);
    RotrIsRotation(e);
  }

  /** `(n >> k) & 0xFF` for divisor 2^k. */
  function ByteAt(n: nat, divisor: nat): byte
    requires divisor > 0
  {
    LowByte(n / divisor)
  }

  /** What `sha256` leaves in `hash32`. Longer messages are not compressed at all. */
  function Digest(m: seq<byte>): Hash
  {
    if |m| <= 55 then Compress(IV, OneBlock(m)) else Add(IV, IV)
  }

  function DigestWords(s: Hash): (r: seq<bv32>)
    ensures |r| == 8
  {
    [s.a, s.b, s.c, s.d, s.e, s.f, s.g, s.h]
  }

  /** The digest is the standard's for every message that fits one block. */
  lemma DigestIsFips180(m: seq<byte>)
    requires |m| <= 55
    ensures Digest(m) == Sha256(m)
  {
    hide Compress;
    var p := OneBlock(m);
    assert p[..64] == p && p[64..] == [];
    assert HashBlocks(IV, p) == HashBlocks(Compress(IV, p[..64]), p[64..]);
  }

  /** Beyond 55 bytes the digest does not depend on the message. */
  lemma LongMessagesCollide(m: seq<byte>, o: seq<byte>)
    requires |m| > 55 && |o| > 55
    ensures Digest(m) == Digest(o) && Digest(m).a == 0xd413ccce
  {}

  /** Byte `k` of a word, most significant first: `(uint8_t)(w >> (24 - 8 * k))`. */
  function ByteOf(w: bv32, k: nat): byte
    requires k < 4
  {
    if k == 0 then ((w >> 24) & 0xFF) as byte
    else if k == 1 then ((w >> 16) & 0xFF) as byte
    else if k == 2 then ((w >> 8) & 0xFF) as byte
    else (w & 0xFF) as byte
  }

  /** The high (0) or low (1) half of a byte. */
  function Nibble(b: byte, half: nat): byte
  {
    if half == 0 then b >> 4 else b & 0x0F
  }

  /** The 64 digits printed for eight words. */
  function DigitsOf(words: seq<bv32>): (r: seq<byte>)
    requires |words| == 8
    ensures |r| == 64
  {
    seq(64, i requires 0 <= i < 64 => DigitChar(Nibble(ByteOf(words[i / 8], i / 2 % 4), i % 2)))
  }

  /** Reads eight words back: digits, pairs of nibbles, big-endian words. */
  function PairValue(hi: byte, lo: byte): byte
  {
    (((CharToHex(hi) << 4) | CharToHex(lo)) & 0xFF) as byte
  }

  function WordsRead(digits: seq<byte>): (r: seq<bv32>)
    requires |digits| == 64
    ensures |r| == 8
  {
    seq(8, j requires 0 <= j < 8 =>
      Pack(PairValue(digits[8 * j], digits[8 * j + 1]), PairValue(digits[8 * j + 2], digits[8 * j + 3]),
           PairValue(digits[8 * j + 4], digits[8 * j + 5]), PairValue(digits[8 * j + 6], digits[8 * j + 7])))
  }

  lemma PairRoundTrip(b: byte)
    ensures PairValue(DigitChar(Nibble(b, 0)), DigitChar(Nibble(b, 1))) == b
  {}

  lemma PackOfBytes(w: bv32)
    ensures Pack(ByteOf(w, 0), ByteOf(w, 1), ByteOf(w, 2), ByteOf(w, 3)) == w
  {}

  /** The printed digest reads back as the digest: nothing is lost in printing. */
  lemma PrintedDigestReadsBack(words: seq<bv32>)
    requires |words| == 8
    ensures WordsRead(DigitsOf(words)) == words
  {
    hide PairValue, DigitChar, ByteOf, Pack, Nibble, DigitsOf;
    var d := DigitsOf(words);
    forall j | 0 <= j < 8
      ensures WordsRead(d)[j] == words[j]
    {
      DigitPair(words, j, 0);
      DigitPair(words, j, 1);
      DigitPair(words, j, 2);
      DigitPair(words, j, 3);
      PackOfBytes(words[j]);
    }
  }

  lemma DigitPair(words: seq<bv32>, j: nat, k: nat)
    requires |words| == 8 && j < 8 && k < 4
    ensures var d := DigitsOf(words);
            PairValue(d[8 * j + 2 * k], d[8 * j + 2 * k + 1]) == ByteOf(words[j], k)
  {
    hide PairValue, DigitChar, ByteOf, Nibble;
    var i := 8 * j + 2 * k;
    assert i / 8 == j && (i + 1) / 8 == j && i % 2 == 0 && (i + 1) % 2 == 1;
    assert i / 2 % 4 == k && (i + 1) / 2 % 4 == k;
    PairRoundTrip(ByteOf(words[j], k));
  }

  /** The k-th four bits of a word, from the top. */
  function FourBits(w: bv32, k: nat): bv32
    requires k < 8
  {
    0xF & if k == 0 then w >> 28 else if k == 1 then w >> 24 else if k == 2 then w >> 20 else if k == 3 then w >> 16
          else if k == 4 then w >> 12 else if k == 5 then w >> 8 else if k == 6 then w >> 4 else w
  }

  /** Character `8 * j + k` of the printed digest is the lower-case hexadecimal digit of the
      k-th four bits of word `j`, from the top. */
  lemma PrintedDigitIs(words: seq<bv32>, j: nat, k: nat)
    requires |words| == 8 && j < 8 && k < 8
    ensures var v, c := FourBits(words[j], k), DigitsOf(words)[8 * j + k];
            c as bv32 == if v < 10 then 0x30 + v else 0x61 + (v - 10)
  {
    hide DigitChar, ByteOf, Nibble, FourBits;
    var i := 8 * j + k;
    assert i / 8 == j && i / 2 % 4 == k / 2 && i % 2 == k % 2;
    NibbleOfWord(words[j], k);
    DigitCharIs(Nibble(ByteOf(words[j], k / 2), k % 2));
  }

  lemma NibbleOfWord(w: bv32, k: nat)
    requires k < 8
    ensures Nibble(ByteOf(w, k / 2), k % 2) < 16 && Nibble(ByteOf(w, k / 2), k % 2) as bv32 == FourBits(w, k)
  {
    if k < 4 {
      UpperNibble(w, k);
    } else {
      LowerNibble(w, k);
    }
  }

  lemma UpperNibble(w: bv32, k: nat)
    requires k < 4
    ensures Nibble(ByteOf(w, k / 2), k % 2) < 16 && Nibble(ByteOf(w, k / 2), k % 2) as bv32 == FourBits(w, k)
  {
    if k == 0 {} else if k == 1 {} else if k == 2 {} else {}
  }

  lemma LowerNibble(w: bv32, k: nat)
    requires 4 <= k < 8
    ensures Nibble(ByteOf(w, k / 2), k % 2) < 16 && Nibble(ByteOf(w, k / 2), k % 2) as bv32 == FourBits(w, k)
  {
    if k == 4 {} else if k == 5 {} else if k == 6 {} else {}
  }

  lemma DigitCharIs(v: byte)
    requires v < 16
    ensures DigitChar(v) as bv32 == if v < 10 then 0x30 + v as bv32 else 0x61 + (v as bv32 - 10)
  {}

  /** Four consecutive stores. */
  method Put4<T>(arr: array<T>, at: nat, x0: T, x1: T, x2: T, x3: T)
    requires at + 4 <= arr.Length
    modifies arr
    ensures arr[at] == x0 && arr[at + 1] == x1 && arr[at + 2] == x2 && arr[at + 3] == x3
    ensures forall k :: 0 <= k < arr.Length && (k < at || at + 4 <= k) ==> arr[k] == old(arr[k])
  {
    arr[at], arr[at + 1], arr[at + 2], arr[at + 3] := x0, x1, x2, x3;
  }

  class Hasher {
    var a: bv32
    var b: bv32
    var c: bv32
    var d: bv32
    var e: bv32
    var f: bv32
    var g: bv32
    var h: bv32
    const hash32: array<bv32>
    const hash8: array<byte>
    const W: array<bv32>
    const rawData: array<byte>

    ghost predicate Valid()
    {
      && hash32.Length == 8 && hash8.Length == 65 && W.Length == 64 && rawData.Length == 64
      && hash32 != W && hash8 != rawData
    }

    ghost function State(): Hash
      reads this
    {
      Hash(a, b, c, d, e, f, g, h)
    }

    constructor ()
      ensures Valid() && fresh(hash32) && fresh(hash8) && fresh(W) && fresh(rawData)
    {
      a, b, c, d, e, f, g, h := 0, 0, 0, 0, 0, 0, 0, 0;
      hash32, hash8, W, rawData := new bv32[8], new byte[65], new bv32[64], new byte[64];
    }

    /** `sha256_ROC`: one round on the global state. */
    method Roc(i: nat)
      requires Valid() && i < 64
      modifies this
      ensures State() == Round(old(State()), K()[i], W[i])
    {
      hide K, Sum2, Sum5, BigSigma0, BigSigma1, Ch, Maj, RocS1, RocS2, RocCh, RocMaj;
      RocIsStandard(a, b, c, e, f, g);
      var s1 := RocS1(e);
      var ch := RocCh(e, f, g);
      var temp1 := Sum5(h, s1, ch, K()[i], W[i]);
      var s2 := RocS2(a);
      var maj := RocMaj(a, b, c);
      var temp2 := Sum2(s2, maj);
      h := g;
      g := f;
      f := e;
      e := Sum2(d, temp1);
      d := c;
      c := b;
      b := a;
      a := Sum2(temp1, temp2);
    }

    /** The clearing at the start of `sha256`. */
    method Reset()
      requires Valid()
      modifies this, hash32, hash8, W, rawData
      ensures State() == IV && rawData[..] == Zeros(64)
    {
      a, b, c, d := IV.a, IV.b, IV.c, IV.d;
      e, f, g, h := IV.e, IV.f, IV.g, IV.h;
      for i := 0 to 8
        invariant State() == IV
      {
        hash32[i] := 0;
      }
      for i := 0 to 64
        invariant State() == IV
        invariant forall k :: 0 <= k < i ==> rawData[k] == 0
      {
        rawData[i] := 0;
        W[i] := 0;
        hash8[i] := 0;
      }
    }

    /** The padded block, built in place: the text, 0x80, and the length in bits. */
    method PadBlock(s: seq<byte>, len: nat)
      requires Valid() && len <= 55 && len <= |s| && rawData[..] == Zeros(64)
      modifies rawData
      ensures rawData[..] == OneBlock(s[..len])
    {
      hide OneBlock, BitLength;
      for i := 0 to len
        invariant forall k :: 0 <= k < 64 ==> rawData[k] == if k < i then s[k] else 0
      {
        rawData[i] := s[i];
      }
      rawData[len] := 0x80;
      ghost var front := rawData[..56];
      assert forall k :: 0 <= k < 56 ==> front[k] == if k < len then s[k] else if k == len then 0x80 else 0;
      StoreLength(len);
      PaddingLaidOut(s[..len]);
      forall k | 0 <= k < 64
        ensures rawData[k] == OneBlock(s[..len])[k]
      {
        if k < 56 {
          assert rawData[k] == rawData[..56][k] == front[k];
        } else {
          assert rawData[k] == rawData[56..][k - 56];
        }
      }
    }

    method StoreLength(len: nat)
      requires Valid() && len <= 55
      modifies rawData
      ensures rawData[..56] == old(rawData[..56]) && rawData[56..] == BitLength(len)
    {
      hide ByteAt, BigEndian;
      var bitLen := len * 8;
      Put4(rawData, 56, ByteAt(bitLen, 0x100_0000_0000_0000), ByteAt(bitLen, 0x1_0000_0000_0000),
           ByteAt(bitLen, 0x100_0000_0000), ByteAt(bitLen, 0x1_0000_0000));
      Put4(rawData, 60, ByteAt(bitLen, 0x100_0000), ByteAt(bitLen, 0x1_0000), ByteAt(bitLen, 0x100), ByteAt(bitLen, 1));
      LengthBytes(bitLen);
    }

    /** The interleaved loop: each turn expands one word in place and runs one round. */
    method ExpandAndRound()
      requires Valid()
      modifies this, W
      ensures W[..] == Schedule(BlockWords(rawData[..]), 64)
      ensures State() == Rounds(old(State()), Schedule(BlockWords(rawData[..]), 64), 64)
    {
      hide Pack, Round, Rounds, Schedule, NextWord, ExpandedWord, K;
      ghost var words := BlockWords(rawData[..]);
      StepsFromNothing(old(State()), words);
      for i := 0 to 64
        invariant W[..i] == Schedule(words, i)
        invariant State() == Rounds(old(State()), Schedule(words, i), i)
      {
        ghost var before := W[..i];
        if i < 16 {
          W[i] := Pack(rawData[i * 4 + 0], rawData[i * 4 + 1], rawData[i * 4 + 2], rawData[i * 4 + 3]);
        } else {
          ExpandedWordIsNext(W[..], i);
          W[i] := ExpandedWord(W[..], i);
        }
        OneMoreStep(old(State()), words, i);
        assert W[..i + 1] == before + [W[i]];
        Roc(i);
      }
    }

    method AddInitial()
      modifies this
      ensures State() == Add(old(State()), IV)
    {
      hide Sum2;
      a, b, c, d := Sum2(a, IV.a), Sum2(b, IV.b), Sum2(c, IV.c), Sum2(d, IV.d);
      e, f, g, h := Sum2(e, IV.e), Sum2(f, IV.f), Sum2(g, IV.g), Sum2(h, IV.h);
    }

    method StoreHash()
      requires Valid()
      modifies hash32
      ensures hash32[..] == DigestWords(State())
    {
      Put4(hash32, 0, a, b, c, d);
      Put4(hash32, 4, e, f, g, h);
    }

    /** The digits of `hash32`, nibbles first and characters in a second pass. */
    method StoreDigits()
      requires Valid()
      modifies hash8
      ensures hash8[..64] == DigitsOf(hash32[..]) && hash8[64] == 0
    {
      hide ByteOf, DigitChar, Nibble;
      for i := 0 to 32
        invariant forall k :: 0 <= k < 2 * i ==> hash8[k] == Nibble(ByteOf(hash32[k / 8], k / 2 % 4), k % 2)
      {
        var byteValue := ByteOf(hash32[i / 4], i % 4);
        hash8[i * 2], hash8[i * 2 + 1] := Nibble(byteValue, 0), Nibble(byteValue, 1);
        assert (2 * i) / 8 == i / 4 && (2 * i + 1) / 8 == i / 4 && (2 * i + 1) / 2 == i;
      }
      for i := 0 to 64
        invariant forall k :: 0 <= k < i ==> hash8[k] == DigitChar(Nibble(ByteOf(hash32[k / 8], k / 2 % 4), k % 2))
        invariant forall k :: i <= k < 64 ==> hash8[k] == Nibble(ByteOf(hash32[k / 8], k / 2 % 4), k % 2)
      {
        hash8[i] := DigitChar(hash8[i]);
      }
      hash8[64] := 0x00;
    }

    /** `sha256`, up to the final `printf(hash8)`. */
    method Sha256(s: seq<byte>)
      requires Valid() && Terminated(s, 0)
      modifies this, hash32, hash8, W, rawData
      ensures hash32[..] == DigestWords(Digest(CString(s, 0)))
      ensures |CString(s, 0)| <= 55 ==> hash32[..] == DigestWords(Fips180.Sha256(CString(s, 0)))
      ensures hash8[..64] == DigitsOf(hash32[..]) && hash8[64] == 0
      ensures WordsRead(hash8[..64]) == hash32[..]
    {
      hide Add, DigitsOf, WordsRead, Rounds, Schedule, BlockWords, HashBlocks;
      Reset();
      var len := StrLen(s);
      if len <= 55 {
        PadBlock(s, len);
        ExpandAndRound();
      }
      AddInitial();
      StoreHash();
      if len <= 55 {
        DigestIsFips180(CString(s, 0));
      }
      StoreDigits();
      PrintedDigestReadsBack(hash32[..]);
    }
  }

  lemma StepsFromNothing(s: Hash, words: seq<bv32>)
    requires |words| == 16
    ensures Schedule(words, 0) == [] && Rounds(s, [], 0) == s
  {}

  /** One word and one round further. */
  lemma OneMoreStep(s: Hash, words: seq<bv32>, i: nat)
    requires |words| == 16 && i < 64
    ensures var v := Schedule(words, i);
            var w := if i < 16 then words[i] else NextWord(v);
            && Schedule(words, i + 1) == v + [w]
            && Rounds(s, Schedule(words, i + 1), i + 1) == Round(Rounds(s, v, i), K()[i], w)
  {
    hide Round, NextWord, K;
    RoundsOfPrefix(s, Schedule(words, i), Schedule(words, i + 1), i);
  }

  lemma RoundsOfPrefix(s: Hash, v: seq<bv32>, w: seq<bv32>, n: nat)
    requires n <= 64 && n <= |v| && n <= |w| && v[..n] == w[..n]
    ensures Rounds(s, v, n) == Rounds(s, w, n)
  {
    hide Round, K;
    if n != 0 {
      assert v[..n - 1] == v[..n][..n - 1] && w[..n - 1] == w[..n][..n - 1];
      assert v[n - 1] == v[..n][n - 1] && w[n - 1] == w[..n][n - 1];
      RoundsOfPrefix(s, v, w, n - 1);
    }
  }

  lemma LengthBytes(n: nat)
    requires n <= 440
    ensures BigEndian(n, 8)
      == [ByteAt(n, 0x100_0000_0000_0000), ByteAt(n, 0x1_0000_0000_0000), ByteAt(n, 0x100_0000_0000),
          ByteAt(n, 0x1_0000_0000), ByteAt(n, 0x100_0000), ByteAt(n, 0x1_0000), ByteAt(n, 0x100), ByteAt(n, 1)]
  {
    hide ByteAt;
    ZeroBigEndian(6);
    assert n / 0x100 / 0x100 == 0;
    BigEndianStep(n, 7);
    BigEndianStep(n / 0x100, 6);
    HighByteIsZero(n, 0x100_0000_0000_0000);
    HighByteIsZero(n, 0x1_0000_0000_0000);
    HighByteIsZero(n, 0x100_0000_0000);
    HighByteIsZero(n, 0x1_0000_0000);
    HighByteIsZero(n, 0x100_0000);
    HighByteIsZero(n, 0x1_0000);
  }

  lemma BigEndianStep(n: nat, bytes: nat)
    ensures BigEndian(n, bytes + 1) == BigEndian(n / 0x100, bytes) + [ByteAt(n, 1)]
    ensures ByteAt(n / 0x100, 1) == ByteAt(n, 0x100)
  {
    hide LowByte;
  }

  lemma HighByteIsZero(n: nat, divisor: nat)
    requires n < divisor
    ensures ByteAt(n, divisor) == 0
  {
    assert n / divisor == 0;
  }

  lemma {:induction false} ZeroBigEndian(bytes: nat)
    ensures BigEndian(0, bytes) == Zeros(bytes)
  {
    if bytes != 0 {
      ZeroBigEndian(bytes - 1);
    }
  }

  lemma PaddingLaidOut(m: seq<byte>)
    requires |m| <= 55
    ensures OneBlock(m) == m + ([0x80] + Zeros(55 - |m|) + BitLength(|m|))
  {
    hide BitLength, Zeros, ZeroCount;
    ShortZeroCount(|m|);
  }
}
