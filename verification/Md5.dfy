/** Streaming MD5: `MD5Init`, `MD5Update` and `MD5Final`, against the one-shot digest of RFC 1321. */
module Md5 {
  import opened Bytes
  import opened Md5Block

  // ----- RFC 1321 on a whole message -----

  /** A block hash: its starting state, its compression function, and the words a state consists of. */
  datatype Hash<!S> = Hash(initial: S, compress: (S, seq<byte>) -> S, words: S -> seq<u32>)

  /** The compression function folded over the complete 64-byte blocks of `m`. */
  function Fold<S>(h: Hash<S>, q: S, m: seq<byte>): S
    decreases |m|
  {
    if |m| < 64 then q else Fold(h, h.compress(q, m[..64]), m[64..])
  }

  /** The bytes of `m` after its last complete block. */
  function Tail(m: seq<byte>): (t: seq<byte>)
    ensures |t| == |m| % 64
  {
    m[|m| - |m| % 64..]
  }

  const DOUBLE: nat := WORD * WORD

  /** Sections 3.1 and 3.2: one bit, zeros up to 8 bytes short of a block, the bit length modulo 2^64. */
  function Padded(m: seq<byte>): seq<byte> {
    m + [0x80] + Zeros((55 - |m|) % 64) + Le(8 * |m| % DOUBLE, 8)
  }

  /** Section 3.5: A, B, C, D, low-order byte first. */
  function DigestBytes<S>(h: Hash<S>, q: S): seq<byte>
  {
    EncodeWords(h.words(q))
  }

  function Digest<S>(h: Hash<S>, m: seq<byte>): seq<byte>
  {
    DigestBytes(h, Fold(h, h.initial, Padded(m)))
  }

  lemma PaddedLength(m: seq<byte>)
    ensures |Padded(m)| % 64 == 0
  {
    var k := (55 - |m|) / 64;
    assert |Padded(m)| == 64 - 64 * k;
    DivModUnique(64 - 64 * k, 64, 1 - k, 0);
  }

  /** No padding shorter than the one used leaves 56 bytes in the last block. */
  lemma PaddedShortest(m: seq<byte>, zeros: nat)
    requires (|m| + 1 + zeros) % 64 == 56
    ensures |Padded(m)| <= |m| + 1 + zeros + 8
  {
    var k := (|m| + 1 + zeros) / 64;
    assert |m| + 1 + zeros == 64 * k + 56 && zeros == 64 * (zeros / 64) + zeros % 64;
    DivModUnique(55 - |m|, 64, zeros / 64 - k, zeros % 64);
  }

  // ----- folding block by block -----

  lemma {:induction false} FoldAppend<S>(h: Hash<S>, q: S, a: seq<byte>, b: seq<byte>)
    requires |a| % 64 == 0
    ensures Fold(h, q, a + b) == Fold(h, Fold(h, q, a), b)
    decreases |a|
  {
    if a == [] {
      assert a + b == b;
    } else {
      assert (a + b)[..64] == a[..64] && (a + b)[64..] == a[64..] + b;
      FoldAppend(h, h.compress(q, a[..64]), a[64..], b);
    }
  }

  /** A trailing part shorter than a block does not change the fold. */
  lemma FoldWhole<S>(h: Hash<S>, q: S, a: seq<byte>, t: seq<byte>)
    requires |a| % 64 == 0 && |t| < 64
    ensures Fold(h, q, a + t) == Fold(h, q, a)
    ensures Tail(a + t) == t
  {
    FoldAppend(h, q, a, t);
    DivModUnique(|a + t|, 64, |a| / 64, |t|);
  }

  lemma FoldBlock<S>(h: Hash<S>, q: S, a: seq<byte>, block: seq<byte>)
    requires |a| % 64 == 0 && |block| == 64
    ensures Fold(h, q, a + block) == h.compress(Fold(h, q, a), block)
  {
    FoldAppend(h, q, a, block);
    assert block[..64] == block;
  }

  // ----- the bit counter in two wrapping words -----

  function LowCount(n: nat): u32 { 8 * n % WORD }

  function HighCount(n: nat): u32 { 8 * n / WORD % WORD }

  lemma CountIndex(n: nat)
    ensures LowCount(n) / 8 % 64 == n % 64
  {
    var q := 8 * n / WORD;
    var m := n - q * 0x2000_0000;
    assert LowCount(n) == 8 * m;
    DivModUnique(n, 64, m / 64 + q * 0x80_0000, m % 64);
  }

  lemma ModAdd(a: nat, b: nat)
    ensures (a % WORD + b) % WORD == (a + b) % WORD
  {}

  /** What a 64-bit addition does to the low word and the carry. */
  lemma AddLow(a: nat, b: nat)
    ensures
      var low := (a % WORD + b % WORD) % WORD;
      var carry := if low < b % WORD then 1 else 0;
      (a + b) % WORD == low && (a + b) / WORD == a / WORD + b / WORD + carry
  {}

  /** The carry test and the `>> 29` keep the 64-bit count exact modulo 2^64. */
  lemma CountStep(n: nat, len: u32)
    ensures
      var shifted := 8 * len % WORD;
      var low := (LowCount(n) + shifted) % WORD;
      var high := if low < shifted then (HighCount(n) + 1) % WORD else HighCount(n);
      low == LowCount(n + len) && (high + len / 0x2000_0000) % WORD == HighCount(n + len)
  {
    AddLow(8 * n, 8 * len);
    var carry := if (LowCount(n) + 8 * len % WORD) % WORD < 8 * len % WORD then 1 else 0;
    ModAdd(8 * n / WORD, carry);
    ModAdd(8 * n / WORD + carry, len / 0x2000_0000);
  }

  /** The two words together are the bit count modulo 2^64. */
  lemma CountValue(n: nat)
    ensures HighCount(n) * WORD + LowCount(n) == 8 * n % DOUBLE
  {}

  lemma CountBytes(n: nat)
    ensures Le(8 * n % DOUBLE, 8) == Le(LowCount(n), 4) + Le(HighCount(n), 4)
  {
    CountValue(n);
    var low := 8 * n % DOUBLE;
    DivModUnique(low, WORD, HighCount(n), LowCount(n));
    LeTwoWords(low);
  }

  // ----- the block loop's guard -----

  /** `i + 64` on a 32-bit `i`. */
  function Advance(i: u32): u32 { (i + 64) % WORD }

  /** `i` when the guard is tested for the `k`-th time, counting from 0. */
  function LoopIndex(index: nat, k: nat): u32
    requires index < 64
  {
    (64 - index + 64 * k) % WORD
  }

  ghost predicate GuardFails(index: nat, len: u32, k: nat)
    requires index < 64
  {
    Advance(LoopIndex(index, k)) > len
  }

  /** The least input length for which `i + 64` wraps around before it passes the end. */
  function LengthLimit(index: nat): u32
    requires index < 64
  {
    WORD - (if index == 0 then 64 else index)
  }

  lemma LoopIndexNext(index: nat, k: nat)
    requires index < 64
    ensures LoopIndex(index, 0) == 64 - index && LoopIndex(index, k + 1) == Advance(LoopIndex(index, k))
  {}

  /** Every tested index lies a multiple of 64 below the limit. */
  lemma LoopIndexAligned(index: nat, k: nat)
    requires index < 64
    ensures (LengthLimit(index) - LoopIndex(index, k)) % 64 == 0
  {}

  /**
    For an input that fills the buffer, the block loop ever ends if and only if the input is shorter
    than the limit; at and above it the guard holds each time, for ever.
   */
  lemma LoopEndsIff(index: nat, len: u32)
    requires index < 64 && 64 - index <= len
    ensures (exists k: nat :: GuardFails(index, len, k)) <==> len < LengthLimit(index)
  {
    if len < LengthLimit(index) {
      var k := (len - (64 - index)) / 64;
      var i := 64 - index + 64 * k;
      assert i <= len < i + 64;
      LoopIndexAligned(index, k);
      assert LoopIndex(index, k) == i;
      assert GuardFails(index, len, k);
    } else {
      forall k: nat
        ensures !GuardFails(index, len, k)
      {
        LoopIndexNext(index, k);
        LoopIndexAligned(index, k + 1);
      }
    }
  }

  /** Below the limit the guard's sum does not wrap. */
  lemma AdvanceExact(index: nat, i: u32, len: u32)
    requires index < 64 && i <= len < LengthLimit(index)
    requires (i - (64 - index)) % 64 == 0
    ensures Advance(i) == i + 64
  {}

  // ----- the context -----

  /** The complete blocks of `m`. */
  function Whole(m: seq<byte>): (w: seq<byte>)
    ensures |w| % 64 == 0 && |w| + |m| % 64 == |m|
    ensures m == w + Tail(m)
  {
    m[..|m| / 64 * 64]
  }

  lemma SplitAppend(m: seq<byte>, x: seq<byte>)
    ensures m + x == Whole(m) + (Tail(m) + x)
  {}

  lemma SliceAppend(m: seq<byte>, input: seq<byte>, i: nat, j: nat)
    requires i <= j <= |input|
    ensures m + input[..j] == (m + input[..i]) + input[i..j]
  {}

  lemma ThreePieces(m: seq<byte>, input: seq<byte>, i: nat, j: nat)
    requires i <= j <= |input|
    ensures m + input == ((m + input[..i]) + input[i..j]) + input[j..]
  {}

  lemma FoldTail<S>(h: Hash<S>, m: seq<byte>)
    ensures Fold(h, h.initial, m) == Fold(h, h.initial, Whole(m))
  {
    FoldWhole(h, h.initial, Whole(m), Tail(m));
  }

  /** Input that does not fill a block only makes the tail longer. */
  lemma TailGrows<S>(h: Hash<S>, m: seq<byte>, input: seq<byte>)
    requires |m| % 64 + |input| < 64
    ensures Tail(m + input) == Tail(m) + input
    ensures Fold(h, h.initial, m + input) == Fold(h, h.initial, m)
  {
    FoldTail(h, m);
    SplitAppend(m, input);
    FoldWhole(h, h.initial, Whole(m), Tail(m) + input);
  }

  /** Filling the buffer compresses exactly the tail and the first part of the input. */
  lemma TailFills<S>(h: Hash<S>, m: seq<byte>, part: seq<byte>)
    requires |m| % 64 + |part| == 64
    ensures |m + part| % 64 == 0
    ensures Fold(h, h.initial, m + part) == h.compress(Fold(h, h.initial, m), Tail(m) + part)
  {
    FoldTail(h, m);
    SplitAppend(m, part);
    FoldBlock(h, h.initial, Whole(m), Tail(m) + part);
  }

  class Context<S> {
    const h: Hash<S>
    var count0: u32
    var count1: u32
    var state: S
    const buffer: array<byte>
    ghost var message: seq<byte>

    /** State, counter and live part of the buffer are those of the message absorbed so far, however it was cut. */
    ghost predicate Valid()
      reads this, buffer
    {
      && buffer.Length == 64
      && count0 == LowCount(|message|)
      && count1 == HighCount(|message|)
      && state == Fold(h, h.initial, message)
      && buffer[..|message| % 64] == Tail(message)
    }

    /** `MD5Init` */
    constructor (h: Hash<S>)
      ensures Valid() && fresh(buffer)
      ensures this.h == h && message == []
    {
      this.h := h;
      count0, count1 := 0, 0;
      state := h.initial;
      buffer := new byte[64];
      message := [];
    }

    method CountInput(len: u32)
      requires count0 == LowCount(|message|) && count1 == HighCount(|message|)
      modifies this`count0, this`count1
      ensures count0 == LowCount(|message| + len) && count1 == HighCount(|message| + len)
    {
      CountStep(|message|, len);
      var shifted := 8 * len % WORD;
      count0 := (count0 + shifted) % WORD;
      if count0 < shifted {
        count1 := (count1 + 1) % WORD;
      }
      count1 := (count1 + len / 0x2000_0000) % WORD;
    }

    /** `memcpy` into the buffer. */
    method Store(index: nat, part: seq<byte>)
      requires index + |part| <= buffer.Length
      modifies buffer
      ensures buffer[..] == old(buffer[..index]) + part + old(buffer[index + |part|..])
    {
      forall k | 0 <= k < |part| {
        buffer[index + k] := part[k];
      }
    }

    /** The loop over the complete blocks of the input from `start` on. */
    method CompressBlocks(input: seq<byte>, start: u32, index: nat, ghost absorbed: seq<byte>) returns (i: u32)
      requires index < 64 && start == 64 - index <= |input| < LengthLimit(index)
      requires |absorbed| % 64 == 0 && state == Fold(h, h.initial, absorbed)
      modifies this`state
      ensures start <= i <= |input| < i + 64
      ensures |absorbed + input[start..i]| % 64 == 0 && state == Fold(h, h.initial, absorbed + input[start..i])
    {
      var len: u32 := |input|;
      i := start;
      AdvanceExact(index, i, len);
      ghost var done := absorbed;
      assert done == absorbed + input[start..i];
      while Advance(i) <= len
        invariant start <= i <= len && Advance(i) == i + 64 && (i - start) % 64 == 0
        invariant done == absorbed + input[start..i] && |done| % 64 == 0
        invariant state == Fold(h, h.initial, done)
        decreases len - i
      {
        FoldBlock(h, h.initial, done, input[i..i + 64]);
        SliceAppend(absorbed, input[start..], i - start, i + 64 - start);
        state := h.compress(state, input[i..i + 64]);
        done := done + input[i..i + 64];
        i := Advance(i);
        AdvanceExact(index, i, len);
      }
    }

    /** The branch of `MD5Update` for input that fills the buffer. */
    method AbsorbBlocks(input: seq<byte>, index: nat)
      requires index == |message| % 64 && 64 - index <= |input| < LengthLimit(index)
      requires state == Fold(h, h.initial, message) && buffer.Length == 64 && buffer[..index] == Tail(message)
      modifies this`state, buffer
      ensures state == Fold(h, h.initial, message + input)
      ensures buffer[..|message + input| % 64] == Tail(message + input)
    {
      var partlen := 64 - index;
      Store(index, input[..partlen]);
      assert buffer[..] == Tail(message) + input[..partlen];
      TailFills(h, message, input[..partlen]);
      state := h.compress(state, buffer[..]);
      ghost var filled := message + input[..partlen];
      var i := CompressBlocks(input, partlen, index, filled);
      Store(0, input[i..]);
      FoldWhole(h, h.initial, filled + input[partlen..i], input[i..]);
      ThreePieces(message, input, partlen, i);
    }

    /** `MD5Update` */
    method Update(input: seq<byte>)
      requires Valid()
      requires |input| < LengthLimit(|message| % 64)
      modifies this, buffer
      ensures Valid()
      ensures message == old(message) + input
    {
      var len: u32 := |input|;
      CountIndex(|message|);
      var index := count0 / 8 % 64;
      var partlen := 64 - index;
      CountInput(len);
      if len >= partlen {
        AbsorbBlocks(input, index);
      } else {
        TailGrows(h, message, input);
        Store(index, input);
      }
      message := message + input;
    }

    /**
      `MD5Final`: whatever was absorbed, in whatever pieces, the digest is the one-shot digest, and the buffer
      ends empty.
     */
    method Final() returns (digest: seq<byte>)
      requires Valid()
      modifies this, buffer
      ensures Valid()
      ensures digest == Digest(h, old(message))
      ensures message == Padded(old(message)) && |message| % 64 == 0
    {
      ghost var m := message;
      CountIndex(|m|);
      var index := count0 / 8 % 64;
      var padlen := if index < 56 then 56 - index else 120 - index;
      var bits := Encode([count0, count1]);
      PadLength(m);
      CountBytes(|m|);
      TwoWords(count0, count1);
      Update(PADDING[..padlen]);
      Update(bits);
      assert PADDING[..padlen] == [0x80] + Zeros(padlen - 1);
      PaddedPieces(m, padlen);
      PaddedLength(m);
      digest := Encode(h.words(state));
    }
  }

  const PADDING: seq<byte> := [0x80] + Zeros(63)

  lemma PadLength(m: seq<byte>)
    ensures (55 - |m|) % 64 == (if |m| % 64 < 56 then 55 - |m| % 64 else 119 - |m| % 64)
  {}

  lemma TwoWords(a: u32, b: u32)
    ensures EncodeWords([a, b]) == Le(a, 4) + Le(b, 4)
  {}

  lemma PaddedPieces(m: seq<byte>, padlen: nat)
    requires padlen > 0 && padlen - 1 == (55 - |m|) % 64
    ensures (m + ([0x80] + Zeros(padlen - 1))) + Le(8 * |m| % DOUBLE, 8) == Padded(m)
  {
    assert m + ([0x80] + Zeros(padlen - 1)) == m + [0x80] + Zeros(padlen - 1);
  }

  // ----- any way of cutting the message -----

  function Flatten(chunks: seq<seq<byte>>): seq<byte> {
    if chunks == [] then [] else Flatten(chunks[..|chunks| - 1]) + chunks[|chunks| - 1]
  }

  /** Each call of `MD5Update` gets a length its block loop can finish. */
  ghost predicate Absorbable(chunks: seq<seq<byte>>) {
    forall i :: 0 <= i < |chunks| ==> |chunks[i]| < LengthLimit(|Flatten(chunks[..i])| % 64)
  }

  method DigestOfChunks<S>(h: Hash<S>, chunks: seq<seq<byte>>) returns (digest: seq<byte>)
    requires Absorbable(chunks)
    ensures digest == Digest(h, Flatten(chunks))
  {
    var context := new Context(h);
    var i := 0;
    while i < |chunks|
      invariant 0 <= i <= |chunks|
      invariant context.Valid() && fresh(context) && fresh(context.buffer) && context.h == h
      invariant context.message == Flatten(chunks[..i])
    {
      context.Update(chunks[i]);
      assert chunks[..i + 1][..i] == chunks[..i];
      i := i + 1;
    }
    assert chunks[..i] == chunks;
    digest := context.Final();
  }

  // ----- MD5 itself -----

  function InitialState(): Quad<Word> {
    Quad(0x67452301, 0xEFCDAB89, 0x98BADCFE, 0x10325476)
  }

  function CompressBlock(q: Quad<Word>, block: seq<byte>): Quad<Word> {
    if |block| == 64 then Compress(Word32(), q, block) else q
  }

  function StateWords(q: Quad<Word>): (words: seq<u32>)
    ensures |words| == 4
  {
    [Value(q.a), Value(q.b), Value(q.c), Value(q.d)]
  }

  /** The constants of section 3.3 and the block function of section 3.4 of RFC 1321. */
  function Md5Hash(): Hash<Quad<Word>> {
    Hash(InitialState(), CompressBlock, StateWords)
  }

  function Md5Digest(m: seq<byte>): (d: seq<byte>)
    ensures |d| == 16
  {
    Digest(Md5Hash(), m)
  }

  // ----- hexadecimal -----

  function HexDigit(n: nat): byte
    requires n < 16
  {
    if n < 10 then 48 + n else 87 + n
  }

  function Hex(d: seq<byte>): (s: seq<byte>)
    ensures |s| == 2 * |d|
  {
    if d == [] then [] else [HexDigit(d[0] / 16), HexDigit(d[0] % 16)] + Hex(d[1..])
  }

  predicate IsLowerHex(c: byte) {
    48 <= c <= 57 || 97 <= c <= 102
  }

  lemma HexPairInjective(a: byte, b: byte)
    requires HexDigit(a / 16) == HexDigit(b / 16) && HexDigit(a % 16) == HexDigit(b % 16)
    ensures a == b
  {}

  /** `tohex32` loses nothing: digests with the same text are the same. */
  lemma {:induction false} HexInjective(d: seq<byte>, e: seq<byte>)
    requires |d| == |e| && Hex(d) == Hex(e)
    ensures d == e
  {
    if d == [] {
    } else {
      HexUnfold(d);
      HexUnfold(e);
      HexPairInjective(d[0], e[0]);
      HexInjective(d[1..], e[1..]);
      assert d == [d[0]] + d[1..] && e == [e[0]] + e[1..];
    }
  }

  lemma {:induction false} HexLowercase(d: seq<byte>)
    ensures forall i :: 0 <= i < |Hex(d)| ==> IsLowerHex(Hex(d)[i])
  {
    if d == [] {
    } else {
      HexLowercase(d[1..]);
      HexUnfold(d);
      forall i | 0 <= i < |Hex(d)|
        ensures IsLowerHex(Hex(d)[i])
      {
        if i >= 2 {
          assert Hex(d)[i] == Hex(d)[2..][i - 2];
        }
      }
    }
  }

  const DIGITS: string := "0123456789abcdef"

  lemma DigitIs(n: nat)
    requires n < 16
    ensures HexDigit(n) == DIGITS[n] as int
  {}

  /** The text of each byte is its high digit and its low digit. */
  lemma {:induction false} HexText(d: seq<byte>, i: nat)
    requires i < |d|
    ensures Hex(d)[2 * i] == DIGITS[d[i] / 16] as int && Hex(d)[2 * i + 1] == DIGITS[d[i] % 16] as int
    decreases i
  {
    hide HexDigit;
    if i == 0 {
      HexUnfold(d);
      DigitIs(d[0] / 16);
      DigitIs(d[0] % 16);
    } else {
      HexText(d[1..], i - 1);
      HexUnfold(d);
      assert Hex(d)[2 * i] == Hex(d)[2..][2 * i - 2] && Hex(d)[2 * i + 1] == Hex(d)[2..][2 * i - 1];
    }
  }

  lemma HexUnfold(d: seq<byte>)
    requires d != []
    ensures Hex(d)[0] == HexDigit(d[0] / 16) && Hex(d)[1] == HexDigit(d[0] % 16)
    ensures Hex(d)[2..] == Hex(d[1..])
  {}

  method ToHex32(data: seq<byte>) returns (text: seq<byte>)
    requires |data| == 16
    ensures text == Hex(data)
    ensures forall i :: 0 <= i < 16 ==>
      text[2 * i] == DIGITS[data[i] / 16] as int && text[2 * i + 1] == DIGITS[data[i] % 16] as int
  {
    text := [];
    var i := 0;
    while i < 16
      invariant 0 <= i <= 16
      invariant text + Hex(data[i..]) == Hex(data)
    {
      var pair := [HexDigit(data[i] / 16), HexDigit(data[i] % 16)];
      assert data[i..][1..] == data[i + 1..];
      assert (text + pair) + Hex(data[i + 1..]) == text + (pair + Hex(data[i + 1..]));
      text := text + pair;
      i := i + 1;
    }
    forall j | 0 <= j < 16
      ensures text[2 * j] == DIGITS[data[j] / 16] as int && text[2 * j + 1] == DIGITS[data[j] % 16] as int
    {
      HexText(data, j);
    }
  }

  /** `md5`: the length is narrowed to 32 bits on its way to `MD5Update`. */
  method Md5Text(data: seq<byte>) returns (text: seq<byte>)
    requires |data| % WORD < LengthLimit(0)
    ensures text == Hex(Md5Digest(data[..|data| % WORD]))
  {
    hide Context.Valid, Digest, Hex, Md5Hash;
    var context := new Context(Md5Hash());
    context.Update(data[..|data| % WORD]);
    assert [] + data[..|data| % WORD] == data[..|data| % WORD];
    var digest := context.Final();
    assert digest == Md5Digest(data[..|data| % WORD]);
    text := ToHex32(digest);
  }
}
