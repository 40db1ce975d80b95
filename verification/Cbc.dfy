/**
  `AES128_cbc`: CBC chaining (section 6.2 of NIST SP 800-38A) under the padding of section 6.3 of RFC 5652 with
  k = 16.
 */
module Cbc {
  import opened Bytes

  // ----- exclusive or -----

  function XorBits(x: nat, y: nat, k: nat): nat {
    if k == 0 then 0 else (if x % 2 == y % 2 then 0 else 1) + 2 * XorBits(x / 2, y / 2, k - 1)
  }

  function Pow2(k: nat): nat { if k == 0 then 1 else 2 * Pow2(k - 1) }

  lemma {:induction false} XorBitsBound(x: nat, y: nat, k: nat)
    ensures XorBits(x, y, k) < Pow2(k)
  {
    if k == 0 {
    } else {
      XorBitsBound(x / 2, y / 2, k - 1);
    }
  }

  lemma {:induction false} XorBitsMiddle(x: nat, y: nat, z: nat, k: nat)
    ensures XorBits(XorBits(x, y, k), XorBits(y, z, k), k) == XorBits(x, z, k)
  {
    if k == 0 {
    } else {
      XorBitsMiddle(x / 2, y / 2, z / 2, k - 1);
      XorBitsDigit(x, y, k);
      XorBitsDigit(y, z, k);
    }
  }

  lemma XorBitsDigit(x: nat, y: nat, k: nat)
    requires k > 0
    ensures XorBits(x, y, k) / 2 == XorBits(x / 2, y / 2, k - 1)
    ensures XorBits(x, y, k) % 2 == (if x % 2 == y % 2 then 0 else 1)
  {}

  lemma {:induction false} XorBitsZero(x: nat, k: nat)
    requires x < Pow2(k)
    ensures XorBits(x, 0, k) == x && XorBits(0, x, k) == x
  {
    if k == 0 {
    } else {
      XorBitsZero(x / 2, k - 1);
    }
  }

  lemma {:induction false} XorBitsSelf(x: nat, k: nat)
    ensures XorBits(x, x, k) == 0
  {
    if k == 0 {
    } else {
      XorBitsSelf(x / 2, k - 1);
    }
  }

  function Xor(x: byte, y: byte): byte {
    XorBitsBound(x, y, 8);
    ByteRange();
    XorBits(x, y, 8)
  }

  lemma ByteRange()
    ensures Pow2(8) == 256
  {}

  lemma XorMiddle(x: byte, y: byte, z: byte)
    ensures Xor(Xor(x, y), Xor(y, z)) == Xor(x, z)
  {
    XorBitsMiddle(x, y, z, 8);
  }

  lemma XorZero(x: byte)
    ensures Xor(x, 0) == x && Xor(0, x) == x
  {
    ByteRange();
    XorBitsZero(x, 8);
  }

  lemma XorSelf(x: byte)
    ensures Xor(x, x) == 0
  {
    XorBitsSelf(x, 8);
  }

  lemma XorTwice(x: byte, y: byte)
    ensures Xor(Xor(x, y), y) == x
  {
    XorZero(y);
    XorMiddle(x, y, 0);
    XorZero(x);
  }

  lemma XorDistinct(x: byte, y: byte)
    requires Xor(x, y) == 0
    ensures x == y
  {
    XorTwice(x, y);
    XorZero(y);
  }

  /** Only zero leaves a byte as it is. */
  lemma XorKeepsIff(x: byte, d: byte)
    ensures Xor(x, d) == x <==> d == 0
  {
    XorZero(x);
    if Xor(x, d) == x {
      XorMiddle(0, x, d);
      XorZero(x);
      XorSelf(x);
      XorZero(d);
    }
  }

  // ----- blocks -----

  predicate IsBlock(b: seq<byte>) { |b| == 16 }

  function XorBlocks(a: seq<byte>, b: seq<byte>): (c: seq<byte>)
    requires IsBlock(a) && IsBlock(b)
    ensures IsBlock(c)
  {
    seq(16, i requires 0 <= i < 16 => Xor(a[i], b[i]))
  }

  lemma XorBlocksTwice(a: seq<byte>, b: seq<byte>)
    requires IsBlock(a) && IsBlock(b)
    ensures XorBlocks(XorBlocks(a, b), b) == a
  {
    forall i | 0 <= i < 16
      ensures XorBlocks(XorBlocks(a, b), b)[i] == a[i]
    {
      XorTwice(a[i], b[i]);
    }
  }

  lemma XorBlocksMiddle(a: seq<byte>, b: seq<byte>, c: seq<byte>)
    requires IsBlock(a) && IsBlock(b) && IsBlock(c)
    ensures XorBlocks(XorBlocks(a, b), XorBlocks(b, c)) == XorBlocks(a, c)
  {
    forall i | 0 <= i < 16
      ensures XorBlocks(XorBlocks(a, b), XorBlocks(b, c))[i] == XorBlocks(a, c)[i]
    {
      XorMiddle(a[i], b[i], c[i]);
    }
  }

  // ----- chaining -----

  /** The block cipher under one key: all that is assumed of it is that deciphering undoes enciphering. */
  datatype Cipher = Cipher(enc: seq<byte> -> seq<byte>, dec: seq<byte> -> seq<byte>)

  ghost predicate Deciphers(c: Cipher) {
    forall b :: IsBlock(b) ==> IsBlock(c.enc(b)) && IsBlock(c.dec(b)) && c.dec(c.enc(b)) == b
  }

  type Key = c: Cipher | Deciphers(c) witness Cipher(b => b, b => b)

  function CbcEncrypt(k: Key, iv: seq<byte>, p: seq<byte>): (y: seq<byte>)
    requires IsBlock(iv) && |p| % 16 == 0
    ensures |y| == |p|
    decreases |p|
  {
    if p == [] then [] else
      var c := k.enc(XorBlocks(p[..16], iv));
      c + CbcEncrypt(k, c, p[16..])
  }

  function CbcDecrypt(k: Key, iv: seq<byte>, y: seq<byte>): (p: seq<byte>)
    requires IsBlock(iv) && |y| % 16 == 0
    ensures |p| == |y|
    decreases |y|
  {
    if y == [] then [] else XorBlocks(k.dec(y[..16]), iv) + CbcDecrypt(k, y[..16], y[16..])
  }

  /** What both directions leave in `iv`. */
  function NextIv(iv: seq<byte>, y: seq<byte>): (next: seq<byte>)
    requires IsBlock(iv) && |y| % 16 == 0
    ensures IsBlock(next)
  {
    if y == [] then iv else y[|y| - 16..]
  }

  lemma {:induction false} DecryptEncrypt(k: Key, iv: seq<byte>, p: seq<byte>)
    requires IsBlock(iv) && |p| % 16 == 0
    ensures CbcDecrypt(k, iv, CbcEncrypt(k, iv, p)) == p
    decreases |p|
  {
    if p == [] {
    } else {
      var c := k.enc(XorBlocks(p[..16], iv));
      var y := CbcEncrypt(k, iv, p);
      assert y[..16] == c && y[16..] == CbcEncrypt(k, c, p[16..]);
      XorBlocksTwice(p[..16], iv);
      DecryptEncrypt(k, c, p[16..]);
      assert p == p[..16] + p[16..];
    }
  }

  /** The `j`-th block. */
  function BlockAt(s: seq<byte>, j: nat): (b: seq<byte>)
    requires 16 * j + 16 <= |s|
    ensures IsBlock(b)
  {
    s[16 * j..16 * j + 16]
  }

  /** The block before the `j`-th, or the vector. */
  function Before(iv: seq<byte>, y: seq<byte>, j: nat): (b: seq<byte>)
    requires IsBlock(iv) && 16 * j <= |y|
    ensures IsBlock(b)
  {
    if j == 0 then iv else BlockAt(y, j - 1)
  }

  /**
    Each block of `y` is the enciphered exclusive or of that block of `p` with the block of `y` before it, or
    the vector.
   */
  ghost predicate Chained(k: Key, iv: seq<byte>, p: seq<byte>, y: seq<byte>)
    requires IsBlock(iv)
  {
    && |y| == |p|
    && forall j: nat :: 16 * j + 16 <= |p| ==>
      BlockAt(y, j) == k.enc(XorBlocks(BlockAt(p, j), Before(iv, y, j)))
  }

  lemma BlockBehind(first: seq<byte>, rest: seq<byte>, j: nat)
    requires IsBlock(first) && j > 0 && 16 * j <= |rest|
    ensures BlockAt(first + rest, j) == BlockAt(rest, j - 1)
  {}

  lemma BeforeBehind(iv: seq<byte>, first: seq<byte>, rest: seq<byte>, j: nat)
    requires IsBlock(iv) && IsBlock(first) && j > 0 && 16 * j <= |rest| + 16
    ensures Before(iv, first + rest, j) == Before(first, rest, j - 1)
  {
    if j == 1 {
    } else {
      BlockBehind(first, rest, j - 1);
    }
  }

  lemma FirstAndRest(s: seq<byte>)
    requires |s| >= 16
    ensures s == s[..16] + s[16..] && BlockAt(s, 0) == s[..16]
  {}

  lemma {:induction false} EncryptChainsAt(k: Key, iv: seq<byte>, p: seq<byte>, j: nat)
    requires IsBlock(iv) && |p| % 16 == 0 && 16 * j + 16 <= |p|
    ensures BlockAt(CbcEncrypt(k, iv, p), j) == k.enc(XorBlocks(BlockAt(p, j), Before(iv, CbcEncrypt(k, iv, p), j)))
    decreases j
  {
    hide BlockAt, Before, XorBlocks;
    var c := k.enc(XorBlocks(p[..16], iv));
    var rest := CbcEncrypt(k, c, p[16..]);
    Halves(c, rest);
    FirstAndRest(p);
    FirstAndRest(c + rest);
    if j == 0 {
      assert Before(iv, c + rest, 0) == iv by { FirstBefore(iv, c + rest); }
    } else {
      EncryptChainsAt(k, c, p[16..], j - 1);
      BlockBehind(c, rest, j);
      BlockBehind(p[..16], p[16..], j);
      BeforeBehind(iv, c, rest, j);
    }
  }

  lemma FirstBefore(iv: seq<byte>, y: seq<byte>)
    requires IsBlock(iv)
    ensures Before(iv, y, 0) == iv
  {}

  lemma EncryptChains(k: Key, iv: seq<byte>, p: seq<byte>)
    requires IsBlock(iv) && |p| % 16 == 0
    ensures Chained(k, iv, p, CbcEncrypt(k, iv, p))
  {
    hide CbcEncrypt, BlockAt, Before, XorBlocks;
    forall j: nat | 16 * j + 16 <= |p|
      ensures BlockAt(CbcEncrypt(k, iv, p), j) == k.enc(XorBlocks(BlockAt(p, j), Before(iv, CbcEncrypt(k, iv, p), j)))
    {
      EncryptChainsAt(k, iv, p, j);
    }
  }

  /** And so it is undone: each block deciphered, and its predecessor taken off. */
  lemma {:induction false} DecryptUnchains(k: Key, iv: seq<byte>, y: seq<byte>, j: nat)
    requires IsBlock(iv) && |y| % 16 == 0 && 16 * j + 16 <= |y|
    ensures BlockAt(CbcDecrypt(k, iv, y), j) == XorBlocks(k.dec(BlockAt(y, j)), Before(iv, y, j))
    decreases j
  {
    hide BlockAt, Before, XorBlocks;
    var first, rest := XorBlocks(k.dec(y[..16]), iv), CbcDecrypt(k, y[..16], y[16..]);
    Halves(first, rest);
    FirstAndRest(y);
    FirstAndRest(first + rest);
    if j == 0 {
      FirstBefore(iv, y);
    } else {
      DecryptUnchains(k, y[..16], y[16..], j - 1);
      BlockBehind(first, rest, j);
      BlockBehind(y[..16], y[16..], j);
      BeforeBehind(iv, y[..16], y[16..], j);
    }
  }

  /** Two texts one after another are one chain. */
  lemma {:induction false} EncryptAppend(k: Key, iv: seq<byte>, a: seq<byte>, b: seq<byte>)
    requires IsBlock(iv) && |a| % 16 == 0 && |b| % 16 == 0
    ensures var y := CbcEncrypt(k, iv, a);
      CbcEncrypt(k, iv, a + b) == y + CbcEncrypt(k, NextIv(iv, y), b)
    decreases |a|
  {
    if a == [] {
      assert a + b == b;
    } else {
      var c := k.enc(XorBlocks(a[..16], iv));
      var rest := CbcEncrypt(k, c, a[16..]);
      assert (a + b)[..16] == a[..16] && (a + b)[16..] == a[16..] + b;
      EncryptAppend(k, c, a[16..], b);
      assert NextIv(iv, c + rest) == NextIv(c, rest);
      Concat(c, rest, CbcEncrypt(k, NextIv(c, rest), b));
    }
  }

  lemma Halves(a: seq<byte>, b: seq<byte>)
    requires IsBlock(a)
    ensures (a + b)[..16] == a && (a + b)[16..] == b
  {}

  /** A wrong initial vector damages the first block, by the difference of the two vectors, and nothing else. */
  lemma WrongIv(k: Key, iv: seq<byte>, wrong: seq<byte>, y: seq<byte>)
    requires IsBlock(iv) && IsBlock(wrong) && |y| % 16 == 0 && y != []
    ensures CbcDecrypt(k, wrong, y)
      == XorBlocks(CbcDecrypt(k, iv, y)[..16], XorBlocks(iv, wrong)) + CbcDecrypt(k, iv, y)[16..]
    ensures NextIv(wrong, y) == NextIv(iv, y)
  {
    var d := k.dec(y[..16]);
    XorBlocksMiddle(d, iv, wrong);
    var rest := CbcDecrypt(k, y[..16], y[16..]);
    assert CbcDecrypt(k, iv, y) == XorBlocks(d, iv) + rest && CbcDecrypt(k, wrong, y) == XorBlocks(d, wrong) + rest;
    Halves(XorBlocks(d, iv), rest);
  }

  // ----- padding -----

  function PaddedSize(len: nat): (n: nat)
    ensures n % 16 == 0 && len < n <= len + 16
  {
    (len / 16 + 1) * 16
  }

  function Pad(p: seq<byte>): (q: seq<byte>)
    ensures |q| == PaddedSize(|p|)
  {
    var n := PaddedSize(|p|) - |p|;
    p + seq(n, _ => n)
  }

  /** The text, and then up to the next multiple of 16, and at least once, the number of bytes this takes. */
  lemma PadBytes(p: seq<byte>)
    ensures var n := |Pad(p)|;
      && n % 16 == 0 && |p| < n <= |p| + 16 && Pad(p)[..|p|] == p
      && forall i :: |p| <= i < n ==> Pad(p)[i] == n - |p|
  {}

  datatype Opened = Output(bytes: seq<byte>) | BadInput | Undefined

  /** The decrypting branch: truncates to `maxlen`, and reads outside the buffer when there is no input at all. */
  function Open(k: Key, iv: seq<byte>, y: seq<byte>, maxlen: nat): Opened
    requires IsBlock(iv)
  {
    if |y| % 16 != 0 then BadInput
    else if y == [] then Undefined
    else
      var p := CbcDecrypt(k, iv, y);
      var padlen := p[|p| - 1];
      if padlen > 16 then BadInput else Output(p[..Min(|p| - padlen, maxlen)])
  }

  /** Unpadding gives back the padded bytes, as many of them as fit. */
  lemma OpenSealed(k: Key, iv: seq<byte>, p: seq<byte>, maxlen: nat)
    requires IsBlock(iv)
    ensures Open(k, iv, CbcEncrypt(k, iv, Pad(p)), maxlen) == Output(p[..Min(|p|, maxlen)])
  {
    DecryptEncrypt(k, iv, Pad(p));
    var q := Pad(p);
    assert q[|q| - 1] == |q| - |p|;
    assert q[..Min(|p|, maxlen)] == p[..Min(|p|, maxlen)];
  }

  method PadBuffer(input: seq<byte>) returns (padded: array<byte>)
    ensures fresh(padded) && padded[..] == Pad(input)
    ensures padded.Length % 16 == 0 && |input| < padded.Length <= |input| + 16 && padded[..|input|] == input
    ensures forall i :: |input| <= i < padded.Length ==> padded[i] == padded.Length - |input|
  {
    var padsize := PaddedSize(|input|);
    padded := new byte[padsize];
    forall k | 0 <= k < |input| {
      padded[k] := input[k];
    }
    assert padded[..|input|] == input;
    var i := |input|;
    while i < padsize
      invariant |input| <= i <= padsize
      invariant padded[..|input|] == input
      invariant forall k :: |input| <= k < i ==> padded[k] == padsize - |input|
    {
      padded[i] := padsize - |input|;
      i := i + 1;
    }
  }

  /** The encrypting branch of `AES128_cbc`. */
  method EncryptCbc(k: Key, input: seq<byte>, output: array<byte>, maxlen: nat, iv: array<byte>) returns (result: int)
    requires iv.Length == 16 && output != iv && maxlen <= output.Length
    requires PaddedSize(|input|) < WORD && (maxlen % 16 == 0 || PaddedSize(|input|) <= maxlen)
    modifies output, iv
    ensures result == Min(PaddedSize(|input|), maxlen)
    ensures output[..] == CbcEncrypt(k, old(iv[..]), Pad(input)[..result]) + old(output[..])[result..]
    ensures Chained(k, old(iv[..]), Pad(input)[..result], output[..result])
    ensures iv[..] == NextIv(old(iv[..]), output[..result])
  {
    var padded := PadBuffer(input);
    result := padded.Length;
    if result > maxlen {
      result := maxlen;
    }
    var y := CbcEncrypt(k, iv[..], padded[..result]);
    EncryptChains(k, iv[..], padded[..result]);
    Store(output, y);
    assert output[..result] == y;
    Store(iv, NextIv(iv[..], y));
  }

  /** The decrypting branch of `AES128_cbc`. */
  method DecryptCbc(k: Key, input: seq<byte>, output: array<byte>, maxlen: nat, iv: array<byte>) returns (result: int)
    requires iv.Length == 16 && output != iv && maxlen <= output.Length
    requires input != []
    modifies output, iv
    ensures |input| % 16 == 0 ==> iv[..] == NextIv(old(iv[..]), input)
    ensures |input| % 16 != 0 ==> iv[..] == old(iv[..])
    ensures result <= maxlen
    ensures Open(k, old(iv[..]), input, maxlen) == (if result < 0 then BadInput else Output(output[..result]))
    ensures output[..] == output[..if result < 0 then 0 else result] +
      old(output[..])[if result < 0 then 0 else result..]
  {
    if |input| % 16 != 0 {
      return -1;
    }
    var padded := CbcDecrypt(k, iv[..], input);
    Store(iv, NextIv(iv[..], input));
    var padlen := padded[|input| - 1];
    if padlen > 16 {
      return -1;
    }
    var len := |input|;
    if padlen + maxlen < len {
      len := maxlen + padlen;
    }
    result := len - padlen;
    Store(output, padded[..result]);
  }

  method Store(target: array<byte>, source: seq<byte>)
    requires |source| <= target.Length
    modifies target
    ensures target[..] == source + old(target[..])[|source|..]
  {
    forall k | 0 <= k < |source| {
      target[k] := source[k];
    }
  }
}
