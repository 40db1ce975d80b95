/** Machine bytes and words, and the little-endian layout that both programs use on the wire. */
module Bytes {

  /** A C `uint8_t`. */
  type byte = x: int | 0 <= x < 256

  const WORD: nat := 0x1_0000_0000

  /** A C `uint32_t`. */
  type u32 = x: int | 0 <= x < 0x1_0000_0000

  datatype Option<+T> = None | Some(value: T)

  function Min(a: nat, b: nat): nat { if a < b then a else b }

  /** The `k` low bytes of `n`, least significant byte first. */
  function Le(n: nat, k: nat): (s: seq<byte>)
    ensures |s| == k
  {
    if k == 0 then [] else [n % 256] + Le(n / 256, k - 1)
  }

  function FromLe(s: seq<byte>): nat {
    if s == [] then 0 else s[0] + 256 * FromLe(s[1..])
  }

  function Pow256(k: nat): (p: nat)
    ensures p > 0
  {
    if k == 0 then 1 else 256 * Pow256(k - 1)
  }

  lemma {:induction false} FromLeLe(n: nat, k: nat)
    requires n < Pow256(k)
    ensures FromLe(Le(n, k)) == n
  {
    if k == 0 {
    } else {
      FromLeLe(n / 256, k - 1);
    }
  }

  lemma {:induction false} LeFromLe(s: seq<byte>)
    ensures FromLe(s) < Pow256(|s|)
    ensures Le(FromLe(s), |s|) == s
  {
    if s == [] {
    } else {
      LeFromLe(s[1..]);
      DivModUnique(FromLe(s), 256, FromLe(s[1..]), s[0]);
      assert s == [s[0]] + s[1..];
    }
  }

  /** Four bytes are one word: `MD5Encode` and `MD5Decode` on one element, and every header field. */
  lemma WordRoundTrip(n: u32)
    ensures FromLe(Le(n, 4)) == n
  {
    assert Pow256(4) == WORD by { assert Pow256(2) == 65536; }
    FromLeLe(n, 4);
  }

  lemma FromLeWord(s: seq<byte>)
    requires |s| == 4
    ensures FromLe(s) < WORD
    ensures Le(FromLe(s), 4) == s
  {
    assert Pow256(4) == WORD by { assert Pow256(2) == 65536; }
    LeFromLe(s);
  }

  /** `n` without its `j` low bytes. */
  function ShiftRight(n: nat, j: nat): nat {
    if j == 0 then n else ShiftRight(n / 256, j - 1)
  }

  lemma {:induction false} LeSplit(n: nat, j: nat, k: nat)
    ensures Le(n, j + k) == Le(n, j) + Le(ShiftRight(n, j), k)
  {
    if j == 0 {
      assert Le(n, 0) + Le(n, k) == Le(n, k);
    } else {
      LeSplit(n / 256, j - 1, k);
      var b := n % 256;
      assert Le(n, j + k) == [b] + Le(n / 256, j - 1 + k);
      assert [b] + (Le(n / 256, j - 1) + Le(ShiftRight(n, j), k))
        == ([b] + Le(n / 256, j - 1)) + Le(ShiftRight(n, j), k);
    }
  }

  /** A 64-bit number is stored as its low word followed by its high word. */
  lemma LeTwoWords(n: nat)
    ensures Le(n, 8) == Le(n % WORD, 4) + Le(n / WORD, 4)
  {
    var q, m := n / WORD, n % WORD;
    LowDigits(q, m);
    LeSplit(n, 4, 4);
    assert ShiftRight(n, 4) == q by {
      assert ShiftRight(n, 4) == ShiftRight(n / 256 / 256, 2);
      assert ShiftRight(n / 256 / 256, 2) == ShiftRight(n / 256 / 256 / 256, 1) == n / 256 / 256 / 256 / 256;
    }
    LeFour(n);
    LeFour(m);
  }

  lemma LowDigits(q: nat, m: nat)
    requires m < WORD
    ensures var n := q * WORD + m;
      && n % 256 == m % 256 && n / 256 % 256 == m / 256 % 256
      && n / 256 / 256 % 256 == m / 256 / 256 % 256 && n / 256 / 256 / 256 % 256 == m / 256 / 256 / 256 % 256
      && n / 256 / 256 / 256 / 256 == q
  {
    var n := q * WORD + m;
    assert n / 256 == q * 0x100_0000 + m / 256;
    assert n / 256 / 256 == q * 0x1_0000 + m / 256 / 256;
    assert n / 256 / 256 / 256 == q * 0x100 + m / 256 / 256 / 256;
  }

  lemma LeFour(n: nat)
    ensures Le(n, 4) == [n % 256, n / 256 % 256, n / 256 / 256 % 256, n / 256 / 256 / 256 % 256]
  {
    assert Le(n, 4) == [n % 256] + Le(n / 256, 3);
    assert Le(n / 256, 3) == [n / 256 % 256] + Le(n / 256 / 256, 2);
  }

  lemma MultipleAtLeast(d: int, k: int)
    requires d > 0 && k >= 1
    ensures d * k >= d
  {}

  /** Quotient and remainder are determined. */
  lemma DivModUnique(n: int, d: int, q: int, r: int)
    requires d > 0 && 0 <= r < d && n == d * q + r
    ensures n / d == q && n % d == r
  {
    var k := n / d - q;
    assert d * (n / d) - d * q == d * k;
    if k >= 1 {
      MultipleAtLeast(d, k);
    }
    if k <= -1 {
      MultipleAtLeast(d, -k);
    }
  }

  lemma Concat<T>(a: seq<T>, b: seq<T>, c: seq<T>)
    ensures (a + b) + c == a + (b + c)
  {}

  function Zeros(n: nat): (s: seq<byte>)
    ensures |s| == n && forall i :: 0 <= i < n ==> s[i] == 0
  {
    seq(n, _ => 0)
  }
}
