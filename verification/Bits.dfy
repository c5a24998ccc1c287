/** Bytes, 32-bit words as integers, and the bit operations that the integer models need. */
module Bits {

  type byte = x: int | 0 <= x < 256

  const TWO_32: int := 0x1_0000_0000

  type u32 = x: int | 0 <= x < TWO_32

  function Pow2(k: nat): (p: nat)
    ensures p > 0
  {
    if k == 0 then 1 else 2 * Pow2(k - 1)
  }

  /** Bitwise conjunction of two non-negative integers, one binary digit at a time. */
  function And(a: nat, b: nat): (r: nat)
    ensures r <= a && r <= b
  {
    if a == 0 || b == 0 then 0
    else (if a % 2 == 1 && b % 2 == 1 then 1 else 0) + 2 * And(a / 2, b / 2)
  }

  lemma {:induction false} MulAtLeast(x: int, n: int)
    requires x >= 1 && n > 0
    ensures x * n >= n
  {
    assert (x - 1) * n >= 0;
  }

  /** `n` has no multiple strictly between `-n` and `n` other than zero. */
  lemma {:induction false} SmallMultiple(d: int, n: int)
    requires n > 0 && -n < d * n < n
    ensures d == 0
  {
    assert (-d) * n == -(d * n);
    if d >= 1 {
      MulAtLeast(d, n);
    } else if d <= -1 {
      MulAtLeast(-d, n);
    }
  }

  /** The quotient and remainder of a division are the only ones possible. */
  lemma {:induction false} DivModUnique(a: int, n: int, q: int, r: int)
    requires n > 0 && 0 <= r < n && a == q * n + r
    ensures a / n == q && a % n == r
  {
    var q', r' := a / n, a % n;
    assert a == q' * n + r';
    assert (q - q') * n == q * n - q' * n == r' - r;
    SmallMultiple(q - q', n);
  }

  /** Adding a multiple of the modulus does not change the remainder. */
  lemma {:induction false} ModShift(a: int, n: int, c: int)
    requires n > 0
    ensures (a + c * n) % n == a % n
  {
    assert a + c * n == (a / n + c) * n + a % n;
    DivModUnique(a + c * n, n, a / n + c, a % n);
  }

  /** Different positions less than `n` apart have different remainders. */
  lemma {:induction false} ModDistinct(a: int, b: int, n: int)
    requires n > 0 && a < b < a + n
    ensures a % n != b % n
  {
    var qa, qb := a / n, b / n;
    assert a == qa * n + a % n && b == qb * n + b % n;
    if a % n == b % n {
      assert (qb - qa) * n == qb * n - qa * n == b - a;
      SmallMultiple(qb - qa, n);
    }
  }

  /** The remainders of consecutive numbers are consecutive, up to one wrap. */
  lemma {:induction false} ModSplit(start: nat, k: nat, n: nat)
    requires n > 0 && k < n
    ensures (start + k) % n == if start % n + k < n then start % n + k else start % n + k - n
  {
    var q, r := start / n, start % n;
    assert start == q * n + r;
    if r + k < n {
      DivModUnique(start + k, n, q, r + k);
    } else {
      assert (q + 1) * n == q * n + n;
      DivModUnique(start + k, n, q + 1, r + k - n);
    }
  }

  /** Reducing a summand modulo a multiple of `n` makes no difference modulo `n`. */
  lemma {:induction false} ModOverflow(a: nat, i: nat, n: nat, c: nat)
    requires n > 0 && c * n > 0
    ensures (a % (c * n) + i) % n == (a + i) % n
  {
    var m := c * n;
    var q := a / m;
    assert a == q * m + a % m;
    assert q * m == (q * c) * n;
    ModShift(a % m + i, n, q * c);
  }

  /** Halving before reducing modulo `m` is reducing modulo `2 * m`. */
  lemma {:induction false} ModDouble(a: nat, m: nat)
    requires m > 0
    ensures a % (2 * m) == 2 * (a / 2 % m) + a % 2
  {
    var h := a / 2;
    var q := h / m;
    assert h == q * m + h % m;
    assert q * (2 * m) == 2 * (q * m);
    DivModUnique(a, 2 * m, q, 2 * (h % m) + a % 2);
  }

  /** Masking with `2^k - 1` is reduction modulo `2^k`. */
  lemma {:induction false} MaskIsMod(a: nat, k: nat)
    ensures And(a, Pow2(k) - 1) == a % Pow2(k)
  {
    if k == 0 {
    } else if a == 0 {
    } else {
      var m := Pow2(k - 1);
      var mask := 2 * m - 1;
      assert mask % 2 == 1 && mask / 2 == m - 1;
      MaskIsMod(a / 2, k - 1);
      ModDouble(a, m);
      if a / 2 == 0 || m == 1 {
        assert And(a / 2, m - 1) == 0;
      }
      assert And(a, mask) == a % 2 + 2 * And(a / 2, m - 1);
    }
  }

  lemma {:induction false} AndSelf(a: nat)
    ensures And(a, a) == a
  {
    if a != 0 {
      AndSelf(a / 2);
      assert a % 2 == 0 || a % 2 == 1;
    }
  }

  /** `is_power_of_2`: a non-zero number that shares no binary digit with its predecessor. */
  predicate IsPowerOf2(n: nat) {
    n != 0 && And(n, n - 1) == 0
  }

  /** The bit trick recognises exactly the powers of two. */
  lemma {:induction false} PowerOf2Exponent(n: nat) returns (k: nat)
    requires IsPowerOf2(n)
    ensures n == Pow2(k)
  {
    if n == 1 {
      k := 0;
    } else {
      var m := n / 2;
      if n % 2 == 1 {
        assert (n - 1) / 2 == m && (n - 1) % 2 == 0;
        AndSelf(m);
        assert false;
      } else {
        assert (n - 1) / 2 == m - 1 && (n - 1) % 2 == 1;
        k := PowerOf2Exponent(m);
        k := k + 1;
      }
    }
  }

  lemma {:induction false} Pow2Monotone(j: nat, k: nat)
    requires j <= k
    ensures Pow2(k) == Pow2(k - j) * Pow2(j)
  {
    if j > 0 {
      Pow2Monotone(j - 1, k - 1);
      assert k - 1 - (j - 1) == k - j;
    }
  }

  lemma {:induction false} Pow2AtLeast(j: nat, k: nat)
    requires j <= k
    ensures Pow2(j) <= Pow2(k)
  {
    if j < k {
      Pow2AtLeast(j, k - 1);
    }
  }

  lemma {:induction false} Pow2Of32()
    ensures Pow2(32) == TWO_32
  {
    Pow2Monotone(8, 16);
    Pow2Monotone(16, 32);
    assert Pow2(8) == 256;
  }

  /** A power of two below 2^32 divides 2^32. */
  lemma {:induction false} PowerOf2DividesWord(n: nat) returns (c: nat)
    requires IsPowerOf2(n) && n < TWO_32
    ensures c > 0 && c * n == TWO_32
  {
    var k := PowerOf2Exponent(n);
    Pow2Of32();
    if k > 32 {
      Pow2AtLeast(32, k);
    }
    Pow2Monotone(k, 32);
    c := Pow2(32 - k);
  }
}

/** C strings. */
module CStrings {
  import opened Bits

  /** The bytes of a C string: everything before the first zero. */
  function CString(s: seq<byte>): seq<byte> {
    if s == [] || s[0] == 0 then [] else [s[0]] + CString(s[1..])
  }

  lemma {:induction false} NulFreeTail(s: seq<byte>)
    requires s != [] && 0 !in s
    ensures s[0] != 0 && 0 !in s[1..] && [s[0]] + s[1..] == s
  {}

  lemma {:induction false} CStringWhole(s: seq<byte>)
    requires 0 !in s
    ensures CString(s) == s
  {
    if s != [] {
      NulFreeTail(s);
      CStringWhole(s[1..]);
      assert s == [s[0]] + s[1..];
    }
  }

  lemma {:induction false} CStringPrefix(s: seq<byte>, r: seq<byte>)
    requires |r| < |s| && s[..|r|] == r && s[|r|] == 0 && 0 !in r
    ensures CString(s) == r
    decreases |r|
  {
    if r != [] {
      NulFreeTail(r);
      assert s[0] == s[..|r|][0] == r[0];
      assert s[1..][..|r| - 1] == s[..|r|][1..] == r[1..];
      CStringPrefix(s[1..], r[1..]);
    }
  }

  /** A buffer with a terminator in it starts with its C string and the terminator. */
  lemma {:induction false} CStringSplit(s: seq<byte>)
    requires 0 in s
    ensures |CString(s)| < |s| && s[..|CString(s)|] == CString(s) && s[|CString(s)|] == 0 && 0 !in CString(s)
  {
    if s[0] != 0 {
      CStringSplit(s[1..]);
    }
  }
}
