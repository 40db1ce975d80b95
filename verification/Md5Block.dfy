/** `MD5Transform`: 64 register updates on one 64-byte block, and the table-driven loop of section 3.4 of RFC 1321. */
module Md5Block {
  import opened Bytes

  /** The four registers. */
  datatype Quad<W> = Quad(a: W, b: W, c: W, d: W)

  /** The machine operations the block function is written in; `Word32` below is the C `unsigned int`. */
  datatype Alu<!W> = Alu(
    add: (W, W) -> W,
    sub: (W, W) -> W,
    rotl: (W, bv8) -> W,
    rotr: (W, bv8) -> W,
    f: (W, W, W) -> W,
    g: (W, W, W) -> W,
    h: (W, W, W) -> W,
    i: (W, W, W) -> W,
    lit: Word -> W,
    word: u32 -> W
  )

  // ----- the RFC's loop -----

  /** The constants T[1..64] of section 3.4. */
  function Sine(n: nat): Word
    requires n < 64
  {
    if n < 32 then (if n < 16 then Sine1(n) else Sine2(n - 16)) else if n < 48 then Sine3(n - 32) else Sine4(n - 48)
  }

  function Sine1(i: nat): Word
    requires i < 16
  {
    if i < 4 then
      (if i == 0 then 0xd76aa478 else if i == 1 then 0xe8c7b756
      else if i == 2 then 0x242070db else 0xc1bdceee)
    else if i < 8 then
      (if i == 4 then 0xf57c0faf else if i == 5 then 0x4787c62a
      else if i == 6 then 0xa8304613 else 0xfd469501)
    else if i < 12 then
      (if i == 8 then 0x698098d8 else if i == 9 then 0x8b44f7af
      else if i == 10 then 0xffff5bb1 else 0x895cd7be)
    else (if i == 12 then 0x6b901122 else if i == 13 then 0xfd987193 else if i == 14 then 0xa679438e else 0x49b40821)
  }

  function Sine2(i: nat): Word
    requires i < 16
  {
    if i < 4 then
      (if i == 0 then 0xf61e2562 else if i == 1 then 0xc040b340
      else if i == 2 then 0x265e5a51 else 0xe9b6c7aa)
    else if i < 8 then
      (if i == 4 then 0xd62f105d else if i == 5 then 0x02441453
      else if i == 6 then 0xd8a1e681 else 0xe7d3fbc8)
    else if i < 12 then
      (if i == 8 then 0x21e1cde6 else if i == 9 then 0xc33707d6
      else if i == 10 then 0xf4d50d87 else 0x455a14ed)
    else (if i == 12 then 0xa9e3e905 else if i == 13 then 0xfcefa3f8 else if i == 14 then 0x676f02d9 else 0x8d2a4c8a)
  }

  function Sine3(i: nat): Word
    requires i < 16
  {
    if i < 4 then
      (if i == 0 then 0xfffa3942 else if i == 1 then 0x8771f681
      else if i == 2 then 0x6d9d6122 else 0xfde5380c)
    else if i < 8 then
      (if i == 4 then 0xa4beea44 else if i == 5 then 0x4bdecfa9
      else if i == 6 then 0xf6bb4b60 else 0xbebfbc70)
    else if i < 12 then
      (if i == 8 then 0x289b7ec6 else if i == 9 then 0xeaa127fa
      else if i == 10 then 0xd4ef3085 else 0x04881d05)
    else (if i == 12 then 0xd9d4d039 else if i == 13 then 0xe6db99e5 else if i == 14 then 0x1fa27cf8 else 0xc4ac5665)
  }

  function Sine4(i: nat): Word
    requires i < 16
  {
    if i < 4 then
      (if i == 0 then 0xf4292244 else if i == 1 then 0x432aff97
      else if i == 2 then 0xab9423a7 else 0xfc93a039)
    else if i < 8 then
      (if i == 4 then 0x655b59c3 else if i == 5 then 0x8f0ccc92
      else if i == 6 then 0xffeff47d else 0x85845dd1)
    else if i < 12 then
      (if i == 8 then 0x6fa87e4f else if i == 9 then 0xfe2ce6e0
      else if i == 10 then 0xa3014314 else 0x4e0811a1)
    else (if i == 12 then 0xf7537e82 else if i == 13 then 0xbd3af235 else if i == 14 then 0x2ad7d2bb else 0xeb86d391)
  }

  /** Which message word step `n` reads. */
  function Index(n: nat): (k: nat)
    requires n < 64
    ensures k < 16
  {
    if n < 16 then n
    else if n < 32 then (1 + 5 * n) % 16
    else if n < 48 then (5 + 3 * n) % 16
    else 7 * n % 16
  }

  /** How far step `n` rotates. */
  function Shift(n: nat): bv8
    requires n < 64
  {
    var column := n % 4;
    if n < 16 then (if column == 0 then 7 else if column == 1 then 12 else if column == 2 then 17 else 22)
    else if n < 32 then (if column == 0 then 5 else if column == 1 then 9 else if column == 2 then 14 else 20)
    else if n < 48 then (if column == 0 then 4 else if column == 1 then 11 else if column == 2 then 16 else 23)
    else (if column == 0 then 6 else if column == 1 then 10 else if column == 2 then 15 else 21)
  }

  predicate IsShift(s: bv8) {
    || s == 7 || s == 12 || s == 17 || s == 22
    || s == 5 || s == 9 || s == 14 || s == 20
    || s == 4 || s == 11 || s == 16 || s == 23
    || s == 6 || s == 10 || s == 15 || s == 21
  }

  function Mix<W>(u: Alu<W>, n: nat): (W, W, W) -> W
    requires n < 64
  {
    if n < 16 then u.f else if n < 32 then u.g else if n < 48 then u.h else u.i
  }

  /** The new value of register `a`: b + ((a + m(b,c,d) + x + t) <<< s). */
  function Op<W>(u: Alu<W>, m: (W, W, W) -> W, a: W, b: W, c: W, d: W, x: W, s: bv8, t: Word): W {
    u.add(u.rotl(u.add(a, u.add(u.add(m(b, c, d), x), u.lit(t))), s), b)
  }

  function Step<W>(u: Alu<W>, n: nat, q: Quad<W>, x: seq<W>): Quad<W>
    requires n < 64 && |x| == 16
  {
    Quad(q.d, Op(u, Mix(u, n), q.a, q.b, q.c, q.d, x[Index(n)], Shift(n), Sine(n)), q.b, q.c)
  }

  /** The registers after `k` steps, the first of them step `n`. */
  function Rounds<W>(u: Alu<W>, n: nat, k: nat, q: Quad<W>, x: seq<W>): Quad<W>
    requires n + k <= 64 && |x| == 16
  {
    if k == 0 then q else Step(u, n + k - 1, Rounds(u, n, k - 1, q, x), x)
  }

  /** Section 3.4: four rounds of sixteen steps. */
  function AllRounds<W>(u: Alu<W>, q: Quad<W>, x: seq<W>): Quad<W>
    requires |x| == 16
  {
    Rounds(u, 48, 16, Rounds(u, 32, 16, Rounds(u, 16, 16, Rounds(u, 0, 16, q, x), x), x), x)
  }

  // ----- the unrolled code -----

  function FF<W>(u: Alu<W>, a: W, b: W, c: W, d: W, x: W, s: bv8, ac: Word): W {
    Op(u, u.f, a, b, c, d, x, s, ac)
  }

  function GG<W>(u: Alu<W>, a: W, b: W, c: W, d: W, x: W, s: bv8, ac: Word): W {
    Op(u, u.g, a, b, c, d, x, s, ac)
  }

  function HH<W>(u: Alu<W>, a: W, b: W, c: W, d: W, x: W, s: bv8, ac: Word): W {
    Op(u, u.h, a, b, c, d, x, s, ac)
  }

  function II<W>(u: Alu<W>, a: W, b: W, c: W, d: W, x: W, s: bv8, ac: Word): W {
    Op(u, u.i, a, b, c, d, x, s, ac)
  }

  // The four rounds of the unrolled code name the updated register instead of rotating the four.

  method Round1<W>(u: Alu<W>, q: Quad<W>, x: seq<W>) returns (r: Quad<W>)
    requires |x| == 16
    ensures r == Rounds(u, 0, 16, q, x)
  {
    hide Sine2, Sine3, Sine4;
    var a, b, c, d := q.a, q.b, q.c, q.d;
    a := FF(u, a, b, c, d, x[0], 7, 0xd76aa478);
    assert Quad(d, a, b, c) == Rounds(u, 0, 1, q, x);
    d := FF(u, d, a, b, c, x[1], 12, 0xe8c7b756);
    assert Quad(c, d, a, b) == Rounds(u, 0, 2, q, x);
    c := FF(u, c, d, a, b, x[2], 17, 0x242070db);
    assert Quad(b, c, d, a) == Rounds(u, 0, 3, q, x);
    b := FF(u, b, c, d, a, x[3], 22, 0xc1bdceee);
    assert Quad(a, b, c, d) == Rounds(u, 0, 4, q, x);
    a := FF(u, a, b, c, d, x[4], 7, 0xf57c0faf);
    assert Quad(d, a, b, c) == Rounds(u, 0, 5, q, x);
    d := FF(u, d, a, b, c, x[5], 12, 0x4787c62a);
    assert Quad(c, d, a, b) == Rounds(u, 0, 6, q, x);
    c := FF(u, c, d, a, b, x[6], 17, 0xa8304613);
    assert Quad(b, c, d, a) == Rounds(u, 0, 7, q, x);
    b := FF(u, b, c, d, a, x[7], 22, 0xfd469501);
    assert Quad(a, b, c, d) == Rounds(u, 0, 8, q, x);
    a := FF(u, a, b, c, d, x[8], 7, 0x698098d8);
    assert Quad(d, a, b, c) == Rounds(u, 0, 9, q, x);
    d := FF(u, d, a, b, c, x[9], 12, 0x8b44f7af);
    assert Quad(c, d, a, b) == Rounds(u, 0, 10, q, x);
    c := FF(u, c, d, a, b, x[10], 17, 0xffff5bb1);
    assert Quad(b, c, d, a) == Rounds(u, 0, 11, q, x);
    b := FF(u, b, c, d, a, x[11], 22, 0x895cd7be);
    assert Quad(a, b, c, d) == Rounds(u, 0, 12, q, x);
    a := FF(u, a, b, c, d, x[12], 7, 0x6b901122);
    assert Quad(d, a, b, c) == Rounds(u, 0, 13, q, x);
    d := FF(u, d, a, b, c, x[13], 12, 0xfd987193);
    assert Quad(c, d, a, b) == Rounds(u, 0, 14, q, x);
    c := FF(u, c, d, a, b, x[14], 17, 0xa679438e);
    assert Quad(b, c, d, a) == Rounds(u, 0, 15, q, x);
    b := FF(u, b, c, d, a, x[15], 22, 0x49b40821);
    assert Quad(a, b, c, d) == Rounds(u, 0, 16, q, x);
    r := Quad(a, b, c, d);
  }

  method Round2<W>(u: Alu<W>, q: Quad<W>, x: seq<W>) returns (r: Quad<W>)
    requires |x| == 16
    ensures r == Rounds(u, 16, 16, q, x)
  {
    hide Sine1, Sine3, Sine4;
    var a, b, c, d := q.a, q.b, q.c, q.d;
    a := GG(u, a, b, c, d, x[1], 5, 0xf61e2562);
    assert Quad(d, a, b, c) == Rounds(u, 16, 1, q, x);
    d := GG(u, d, a, b, c, x[6], 9, 0xc040b340);
    assert Quad(c, d, a, b) == Rounds(u, 16, 2, q, x);
    c := GG(u, c, d, a, b, x[11], 14, 0x265e5a51);
    assert Quad(b, c, d, a) == Rounds(u, 16, 3, q, x);
    b := GG(u, b, c, d, a, x[0], 20, 0xe9b6c7aa);
    assert Quad(a, b, c, d) == Rounds(u, 16, 4, q, x);
    a := GG(u, a, b, c, d, x[5], 5, 0xd62f105d);
    assert Quad(d, a, b, c) == Rounds(u, 16, 5, q, x);
    d := GG(u, d, a, b, c, x[10], 9, 0x2441453);
    assert Quad(c, d, a, b) == Rounds(u, 16, 6, q, x);
    c := GG(u, c, d, a, b, x[15], 14, 0xd8a1e681);
    assert Quad(b, c, d, a) == Rounds(u, 16, 7, q, x);
    b := GG(u, b, c, d, a, x[4], 20, 0xe7d3fbc8);
    assert Quad(a, b, c, d) == Rounds(u, 16, 8, q, x);
    a := GG(u, a, b, c, d, x[9], 5, 0x21e1cde6);
    assert Quad(d, a, b, c) == Rounds(u, 16, 9, q, x);
    d := GG(u, d, a, b, c, x[14], 9, 0xc33707d6);
    assert Quad(c, d, a, b) == Rounds(u, 16, 10, q, x);
    c := GG(u, c, d, a, b, x[3], 14, 0xf4d50d87);
    assert Quad(b, c, d, a) == Rounds(u, 16, 11, q, x);
    b := GG(u, b, c, d, a, x[8], 20, 0x455a14ed);
    assert Quad(a, b, c, d) == Rounds(u, 16, 12, q, x);
    a := GG(u, a, b, c, d, x[13], 5, 0xa9e3e905);
    assert Quad(d, a, b, c) == Rounds(u, 16, 13, q, x);
    d := GG(u, d, a, b, c, x[2], 9, 0xfcefa3f8);
    assert Quad(c, d, a, b) == Rounds(u, 16, 14, q, x);
    c := GG(u, c, d, a, b, x[7], 14, 0x676f02d9);
    assert Quad(b, c, d, a) == Rounds(u, 16, 15, q, x);
    b := GG(u, b, c, d, a, x[12], 20, 0x8d2a4c8a);
    assert Quad(a, b, c, d) == Rounds(u, 16, 16, q, x);
    r := Quad(a, b, c, d);
  }

  method Round3<W>(u: Alu<W>, q: Quad<W>, x: seq<W>) returns (r: Quad<W>)
    requires |x| == 16
    ensures r == Rounds(u, 32, 16, q, x)
  {
    hide Sine1, Sine2, Sine4;
    var a, b, c, d := q.a, q.b, q.c, q.d;
    a := HH(u, a, b, c, d, x[5], 4, 0xfffa3942);
    assert Quad(d, a, b, c) == Rounds(u, 32, 1, q, x);
    d := HH(u, d, a, b, c, x[8], 11, 0x8771f681);
    assert Quad(c, d, a, b) == Rounds(u, 32, 2, q, x);
    c := HH(u, c, d, a, b, x[11], 16, 0x6d9d6122);
    assert Quad(b, c, d, a) == Rounds(u, 32, 3, q, x);
    b := HH(u, b, c, d, a, x[14], 23, 0xfde5380c);
    assert Quad(a, b, c, d) == Rounds(u, 32, 4, q, x);
    a := HH(u, a, b, c, d, x[1], 4, 0xa4beea44);
    assert Quad(d, a, b, c) == Rounds(u, 32, 5, q, x);
    d := HH(u, d, a, b, c, x[4], 11, 0x4bdecfa9);
    assert Quad(c, d, a, b) == Rounds(u, 32, 6, q, x);
    c := HH(u, c, d, a, b, x[7], 16, 0xf6bb4b60);
    assert Quad(b, c, d, a) == Rounds(u, 32, 7, q, x);
    b := HH(u, b, c, d, a, x[10], 23, 0xbebfbc70);
    assert Quad(a, b, c, d) == Rounds(u, 32, 8, q, x);
    a := HH(u, a, b, c, d, x[13], 4, 0x289b7ec6);
    assert Quad(d, a, b, c) == Rounds(u, 32, 9, q, x);
    d := HH(u, d, a, b, c, x[0], 11, 0xeaa127fa);
    assert Quad(c, d, a, b) == Rounds(u, 32, 10, q, x);
    c := HH(u, c, d, a, b, x[3], 16, 0xd4ef3085);
    assert Quad(b, c, d, a) == Rounds(u, 32, 11, q, x);
    b := HH(u, b, c, d, a, x[6], 23, 0x4881d05);
    assert Quad(a, b, c, d) == Rounds(u, 32, 12, q, x);
    a := HH(u, a, b, c, d, x[9], 4, 0xd9d4d039);
    assert Quad(d, a, b, c) == Rounds(u, 32, 13, q, x);
    d := HH(u, d, a, b, c, x[12], 11, 0xe6db99e5);
    assert Quad(c, d, a, b) == Rounds(u, 32, 14, q, x);
    c := HH(u, c, d, a, b, x[15], 16, 0x1fa27cf8);
    assert Quad(b, c, d, a) == Rounds(u, 32, 15, q, x);
    b := HH(u, b, c, d, a, x[2], 23, 0xc4ac5665);
    assert Quad(a, b, c, d) == Rounds(u, 32, 16, q, x);
    r := Quad(a, b, c, d);
  }

  method Round4<W>(u: Alu<W>, q: Quad<W>, x: seq<W>) returns (r: Quad<W>)
    requires |x| == 16
    ensures r == Rounds(u, 48, 16, q, x)
  {
    hide Sine1, Sine2, Sine3;
    var a, b, c, d := q.a, q.b, q.c, q.d;
    a := II(u, a, b, c, d, x[0], 6, 0xf4292244);
    assert Quad(d, a, b, c) == Rounds(u, 48, 1, q, x);
    d := II(u, d, a, b, c, x[7], 10, 0x432aff97);
    assert Quad(c, d, a, b) == Rounds(u, 48, 2, q, x);
    c := II(u, c, d, a, b, x[14], 15, 0xab9423a7);
    assert Quad(b, c, d, a) == Rounds(u, 48, 3, q, x);
    b := II(u, b, c, d, a, x[5], 21, 0xfc93a039);
    assert Quad(a, b, c, d) == Rounds(u, 48, 4, q, x);
    a := II(u, a, b, c, d, x[12], 6, 0x655b59c3);
    assert Quad(d, a, b, c) == Rounds(u, 48, 5, q, x);
    d := II(u, d, a, b, c, x[3], 10, 0x8f0ccc92);
    assert Quad(c, d, a, b) == Rounds(u, 48, 6, q, x);
    c := II(u, c, d, a, b, x[10], 15, 0xffeff47d);
    assert Quad(b, c, d, a) == Rounds(u, 48, 7, q, x);
    b := II(u, b, c, d, a, x[1], 21, 0x85845dd1);
    assert Quad(a, b, c, d) == Rounds(u, 48, 8, q, x);
    a := II(u, a, b, c, d, x[8], 6, 0x6fa87e4f);
    assert Quad(d, a, b, c) == Rounds(u, 48, 9, q, x);
    d := II(u, d, a, b, c, x[15], 10, 0xfe2ce6e0);
    assert Quad(c, d, a, b) == Rounds(u, 48, 10, q, x);
    c := II(u, c, d, a, b, x[6], 15, 0xa3014314);
    assert Quad(b, c, d, a) == Rounds(u, 48, 11, q, x);
    b := II(u, b, c, d, a, x[13], 21, 0x4e0811a1);
    assert Quad(a, b, c, d) == Rounds(u, 48, 12, q, x);
    a := II(u, a, b, c, d, x[4], 6, 0xf7537e82);
    assert Quad(d, a, b, c) == Rounds(u, 48, 13, q, x);
    d := II(u, d, a, b, c, x[11], 10, 0xbd3af235);
    assert Quad(c, d, a, b) == Rounds(u, 48, 14, q, x);
    c := II(u, c, d, a, b, x[2], 15, 0x2ad7d2bb);
    assert Quad(b, c, d, a) == Rounds(u, 48, 15, q, x);
    b := II(u, b, c, d, a, x[9], 21, 0xeb86d391);
    assert Quad(a, b, c, d) == Rounds(u, 48, 16, q, x);
    r := Quad(a, b, c, d);
  }

  // ----- the loop is a permutation of the registers -----

  /** What a word arithmetic needs for a step to be undone. */
  ghost predicate Invertible<W(!new)>(u: Alu<W>) {
    && (forall x, y :: u.sub(u.add(x, y), y) == x)
    && (forall x, y :: u.add(u.sub(x, y), y) == x)
    && (forall x, n :: IsShift(n) ==> u.rotr(u.rotl(x, n), n) == x)
    && (forall x, n :: IsShift(n) ==> u.rotl(u.rotr(x, n), n) == x)
  }

  function Unstep<W>(u: Alu<W>, n: nat, q: Quad<W>, x: seq<W>): Quad<W>
    requires n < 64 && |x| == 16
  {
    var b, c, d := q.c, q.d, q.a;
    var added := u.add(u.add(Mix(u, n)(b, c, d), x[Index(n)]), u.lit(Sine(n)));
    Quad(u.sub(u.rotr(u.sub(q.b, b), Shift(n)), added), b, c, d)
  }

  /** Undoes `k` steps, the last of which was step `n + k - 1`. */
  function Unrounds<W>(u: Alu<W>, n: nat, k: nat, q: Quad<W>, x: seq<W>): Quad<W>
    requires n + k <= 64 && |x| == 16
    decreases k
  {
    if k == 0 then q else Unrounds(u, n, k - 1, Unstep(u, n + k - 1, q, x), x)
  }

  function UnAllRounds<W>(u: Alu<W>, q: Quad<W>, x: seq<W>): Quad<W>
    requires |x| == 16
  {
    Unrounds(u, 0, 16, Unrounds(u, 16, 16, Unrounds(u, 32, 16, Unrounds(u, 48, 16, q, x), x), x), x)
  }

  lemma UnstepStep<W(!new)>(u: Alu<W>, n: nat, q: Quad<W>, x: seq<W>)
    requires Invertible(u) && n < 64 && |x| == 16
    ensures Unstep(u, n, Step(u, n, q, x), x) == q
    ensures Step(u, n, Unstep(u, n, q, x), x) == q
  {}

  lemma {:induction false} RoundsPermute<W(!new)>(u: Alu<W>, n: nat, k: nat, q: Quad<W>, x: seq<W>)
    requires Invertible(u) && n + k <= 64 && |x| == 16
    ensures Unrounds(u, n, k, Rounds(u, n, k, q, x), x) == q
    ensures Rounds(u, n, k, Unrounds(u, n, k, q, x), x) == q
    decreases k
  {
    hide Step, Unstep, Invertible;
    if k == 0 {
    } else {
      var last := n + k - 1;
      RoundsPermute(u, n, k - 1, q, x);
      UnstepStep(u, last, Rounds(u, n, k - 1, q, x), x);
      RoundsPermute(u, n, k - 1, Unstep(u, last, q, x), x);
      UnstepStep(u, last, q, x);
    }
  }

  /**
    For fixed message words every register quadruple is reached from exactly one: running back undoes running
    forward and conversely.
   */
  lemma AllRoundsPermute<W(!new)>(u: Alu<W>, q: Quad<W>, x: seq<W>)
    requires Invertible(u) && |x| == 16
    ensures UnAllRounds(u, AllRounds(u, q, x), x) == q
    ensures AllRounds(u, UnAllRounds(u, q, x), x) == q
  {
    var q1 := Rounds(u, 0, 16, q, x);
    var q2 := Rounds(u, 16, 16, q1, x);
    RoundsPermute(u, 0, 16, q, x);
    RoundsPermute(u, 16, 16, q1, x);
    RoundsPermute(u, 32, 16, q2, x);
    RoundsPermute(u, 48, 16, Rounds(u, 32, 16, q2, x), x);
    var p3 := Unrounds(u, 48, 16, q, x);
    var p2 := Unrounds(u, 32, 16, p3, x);
    RoundsPermute(u, 48, 16, q, x);
    RoundsPermute(u, 32, 16, p3, x);
    RoundsPermute(u, 16, 16, p2, x);
    RoundsPermute(u, 0, 16, Unrounds(u, 16, 16, p2, x), x);
  }

  // ----- at 32 bits -----

  type Word = bv32

  function RotateLeft(x: Word, n: bv8): Word {
    if 0 < n < 32 then (x << n) | (x >> (32 - n)) else x
  }

  function RotateRight(x: Word, n: bv8): Word {
    if 0 < n < 32 then (x >> n) | (x << (32 - n)) else x
  }

  function Plus(x: Word, y: Word): Word { x + y }

  function Minus(x: Word, y: Word): Word { x - y }

  function F(x: Word, y: Word, z: Word): Word { (x & y) | (!x & z) }

  function G(x: Word, y: Word, z: Word): Word { (x & z) | (y & !z) }

  function H(x: Word, y: Word, z: Word): Word { x ^ y ^ z }

  function I(x: Word, y: Word, z: Word): Word { y ^ (x | !z) }

  // The macros as bit selections: where the first operand of F (the third of G) has a 1 they take the next one,
  // elsewhere the other.

  lemma FSelects(x: Word, y: Word, z: Word)
    ensures F(x, y, z) & x == y & x
    ensures F(x, y, z) & !x == z & !x
  {}

  lemma GSelects(x: Word, y: Word, z: Word)
    ensures G(x, y, z) & z == x & z
    ensures G(x, y, z) & !z == y & !z
  {}

  /** Where its first two operands agree H is the third, and elsewhere its complement: the parity of the three. */
  lemma HParity(x: Word, y: Word, z: Word)
    ensures H(x, y, z) & !(x ^ y) == z & !(x ^ y)
    ensures H(x, y, z) & (x ^ y) == !z & (x ^ y)
  {}

  /** Where the third operand of I has a 1 it is the parity of the others, elsewhere the second's complement. */
  lemma ISelects(x: Word, y: Word, z: Word)
    ensures I(x, y, z) & z == (x ^ y) & z
    ensures I(x, y, z) & !z == !y & !z
  {}

  function Constant(t: Word): Word { t }

  function FromInt(n: u32): Word { n as Word }

  function Value(x: Word): int { x as int }

  /** A word is what its number is turned into. */
  lemma FromIntValue(x: Word)
    ensures FromInt(Value(x)) == x
  {}

  /** C's wrapping `+`, its shifts, and the macros F, G, H and I. */
  function Word32(): Alu<Word> {
    Alu(Plus, Minus, RotateLeft, RotateRight, F, G, H, I, Constant, FromInt)
  }

  ghost predicate TurnsBack(x: Word, n: bv8) {
    RotateRight(RotateLeft(x, n), n) == x && RotateLeft(RotateRight(x, n), n) == x
  }

  lemma TurnsBackRound1(x: Word, n: bv8)
    requires n == 7 || n == 12 || n == 17 || n == 22
    ensures TurnsBack(x, n)
  {
    if n == 7 {} else if n == 12 {} else if n == 17 {} else {}
  }

  lemma TurnsBackRound2(x: Word, n: bv8)
    requires n == 5 || n == 9 || n == 14 || n == 20
    ensures TurnsBack(x, n)
  {
    if n == 5 {} else if n == 9 {} else if n == 14 {} else {}
  }

  lemma TurnsBackRound3(x: Word, n: bv8)
    requires n == 4 || n == 11 || n == 16 || n == 23
    ensures TurnsBack(x, n)
  {
    if n == 4 {} else if n == 11 {} else if n == 16 {} else {}
  }

  lemma TurnsBackRound4(x: Word, n: bv8)
    requires n == 6 || n == 10 || n == 15 || n == 21
    ensures TurnsBack(x, n)
  {
    if n == 6 {} else if n == 10 {} else if n == 15 {} else {}
  }

  lemma TurnsBackAlways(x: Word, n: bv8)
    requires IsShift(n)
    ensures TurnsBack(x, n)
  {
    if n == 7 || n == 12 || n == 17 || n == 22 {
      TurnsBackRound1(x, n);
    } else if n == 5 || n == 9 || n == 14 || n == 20 {
      TurnsBackRound2(x, n);
    } else if n == 4 || n == 11 || n == 16 || n == 23 {
      TurnsBackRound3(x, n);
    } else {
      TurnsBackRound4(x, n);
    }
  }

  lemma MinusPlus(x: Word, y: Word)
    ensures Minus(x + y, y) == x
  {}

  lemma PlusMinus(x: Word, y: Word)
    ensures Plus(x - y, y) == x
  {}

  lemma Word32Invertible()
    ensures Invertible(Word32())
  {
    var u := Word32();
    forall x, y
      ensures u.sub(u.add(x, y), y) == x && u.add(u.sub(x, y), y) == x
    {
      MinusPlus(x, y);
      PlusMinus(x, y);
    }
    forall x, n | IsShift(n)
      ensures u.rotr(u.rotl(x, n), n) == x && u.rotl(u.rotr(x, n), n) == x
    {
      TurnsBackAlways(x, n);
    }
  }

  // ----- words in a byte string -----

  /** `MD5Encode`: words to bytes. */
  function EncodeWords(words: seq<u32>): (s: seq<byte>)
    ensures |s| == 4 * |words|
  {
    if words == [] then [] else Le(words[0], 4) + EncodeWords(words[1..])
  }

  /** `MD5Decode`: bytes to words. */
  function DecodeWords(s: seq<byte>): (words: seq<u32>)
    requires |s| % 4 == 0
    ensures 4 * |words| == |s|
  {
    if s == [] then [] else (FromLeWord(s[..4]); [FromLe(s[..4])]) + DecodeWords(s[4..])
  }

  lemma {:induction false} DecodeEncode(words: seq<u32>)
    ensures DecodeWords(EncodeWords(words)) == words
  {
    if words == [] {
    } else {
      DecodeEncode(words[1..]);
      WordRoundTrip(words[0]);
      var s := EncodeWords(words);
      assert s[..4] == Le(words[0], 4) && s[4..] == EncodeWords(words[1..]);
    }
  }

  lemma {:induction false} EncodeDecode(s: seq<byte>)
    requires |s| % 4 == 0
    ensures EncodeWords(DecodeWords(s)) == s
  {
    if s == [] {
    } else {
      EncodeDecode(s[4..]);
      FromLeWord(s[..4]);
      assert DecodeWords(s)[1..] == DecodeWords(s[4..]);
      assert s == s[..4] + s[4..];
    }
  }

  lemma {:induction false} EncodeAppend(a: seq<u32>, b: seq<u32>)
    ensures EncodeWords(a + b) == EncodeWords(a) + EncodeWords(b)
  {
    if a == [] {
      assert a + b == b;
    } else {
      EncodeAppend(a[1..], b);
      assert (a + b)[1..] == a[1..] + b;
      Concat(Le(a[0], 4), EncodeWords(a[1..]), EncodeWords(b));
    }
  }

  lemma {:induction false} DecodeAppend(a: seq<byte>, b: seq<byte>)
    requires |a| % 4 == 0 && |b| % 4 == 0
    ensures DecodeWords(a + b) == DecodeWords(a) + DecodeWords(b)
  {
    EncodeDecode(a);
    EncodeDecode(b);
    EncodeAppend(DecodeWords(a), DecodeWords(b));
    DecodeEncode(DecodeWords(a) + DecodeWords(b));
  }

  method Encode(input: seq<u32>) returns (output: seq<byte>)
    ensures output == EncodeWords(input)
  {
    output := [];
    var i := 0;
    while i < |input|
      invariant 0 <= i <= |input|
      invariant output == EncodeWords(input[..i])
    {
      var w := input[i];
      output := output + [w % 256, w / 256 % 256, w / 256 / 256 % 256, w / 256 / 256 / 256 % 256];
      LeFour(w);
      EncodeAppend(input[..i], [w]);
      assert input[..i + 1] == input[..i] + [w];
      assert EncodeWords([w]) == Le(w, 4) + EncodeWords([w][1..]);
      i := i + 1;
    }
    assert input[..i] == input;
  }

  lemma FromLeFour(s: seq<byte>)
    requires |s| == 4
    ensures FromLe(s) == 0x100_0000 * s[3] as int + 0x1_0000 * s[2] as int + 0x100 * s[1] as int + s[0]
  {
    assert FromLe(s[1..]) == s[1] + 256 * FromLe(s[2..]);
    assert FromLe(s[2..]) == s[2] + 256 * FromLe(s[3..]);
    assert FromLe(s[3..]) == s[3];
  }

  lemma DecodeNext(s: seq<byte>, j: nat)
    requires j % 4 == 0 && j + 4 <= |s|
    ensures FromLe(s[j..j + 4]) < WORD
    ensures DecodeWords(s[..j + 4]) == DecodeWords(s[..j]) + [FromLe(s[j..j + 4])]
  {
    var next := s[j..j + 4];
    FromLeWord(next);
    DecodeAppend(s[..j], next);
    assert s[..j + 4] == s[..j] + next;
    assert DecodeWords(next) == [FromLe(next)] + DecodeWords(next[4..]) by { assert next[..4] == next; }
  }

  method Decode(input: seq<byte>) returns (output: seq<u32>)
    requires |input| % 4 == 0
    ensures output == DecodeWords(input)
  {
    output := [];
    var j := 0;
    while j < |input|
      invariant 0 <= j <= |input| && j % 4 == 0
      invariant output == DecodeWords(input[..j])
    {
      var w := 0x100_0000 * input[j + 3] as int + 0x1_0000 * input[j + 2] as int + 0x100 * input[j + 1] as int +
        input[j];
      FromLeFour(input[j..j + 4]);
      DecodeNext(input, j);
      output := output + [w];
      j := j + 4;
    }
    assert input[..j] == input;
  }

  // ----- the compression function -----

  function BlockWords<W>(u: Alu<W>, block: seq<byte>): (x: seq<W>)
    requires |block| == 64
    ensures |x| == 16
  {
    Literals(u, DecodeWords(block))
  }

  function Literals<W>(u: Alu<W>, words: seq<u32>): (x: seq<W>)
    ensures |x| == |words|
  {
    seq(|words|, i requires 0 <= i < |words| => u.word(words[i]))
  }

  /** For every block, the 64 steps of the real arithmetic are a permutation of the four registers. */
  lemma BlockPermutesState(q: Quad<Word>, block: seq<byte>)
    requires |block| == 64
    ensures UnAllRounds(Word32(), AllRounds(Word32(), q, BlockWords(Word32(), block)), BlockWords(Word32(), block)) == q
    ensures AllRounds(Word32(), UnAllRounds(Word32(), q, BlockWords(Word32(), block)), BlockWords(Word32(), block)) == q
  {
    Word32Invertible();
    AllRoundsPermute(Word32(), q, BlockWords(Word32(), block));
  }

  /** Section 3.4: the registers the loop ends with, added to those it started from. */
  function Compress<W>(u: Alu<W>, q: Quad<W>, block: seq<byte>): Quad<W>
    requires |block| == 64
  {
    var r := AllRounds(u, q, BlockWords(u, block));
    Quad(u.add(q.a, r.a), u.add(q.b, r.b), u.add(q.c, r.c), u.add(q.d, r.d))
  }

  /** `MD5Transform` */
  method Transform<W>(u: Alu<W>, state: Quad<W>, block: seq<byte>) returns (next: Quad<W>)
    requires |block| == 64
    ensures next == Compress(u, state, block)
  {
    var words := Decode(block);
    var x := Literals(u, words);
    var r := Round1(u, state, x);
    r := Round2(u, r, x);
    r := Round3(u, r, x);
    r := Round4(u, r, x);
    next := Quad(u.add(state.a, r.a), u.add(state.b, r.b), u.add(state.c, r.c), u.add(state.d, r.d));
  }
}
