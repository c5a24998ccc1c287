/**
 * A known answer (RFC 1321, section A.5): the digest of `abc`. It settles the table of sines, the shifts and the order
 * of the words, which no law about the functions does.
 */
module Md5Vector {
  import opened Common
  import opened Bits
  import opened BlockStream
  import opened Md5Model
  import opened Md5Digest

  const ABC: seq<bv8> := [0x61, 0x62, 0x63]

  function AbcBlock(): (b: Block) {
    seq(64, i => if i == 0 then 0x61 else if i == 1 then 0x62 else if i == 2 then 0x63
                 else if i == 3 then 0x80 else if i == 56 then 0x18 else 0)
  }

  /** The words of the block. */
  function AbcWord(k: nat): Word {
    if k == 0 then 0x80636261 else if k == 14 then 0x18 else 0
  }

  ghost predicate AreWords(x: Words) {
    forall k :: 0 <= k < 16 ==> x[k] == AbcWord(k)
  }

  lemma {:induction false} AbcWords()
    ensures AreWords(WordsOf(AbcBlock()))
  {
    forall k | 0 <= k < 16 ensures WordsOf(AbcBlock())[k] == AbcWord(k) {
      AbcWordAt(k);
    }
  }

  lemma {:induction false} AbcWordAt(k: nat)
    requires k < 16
    ensures var b := AbcBlock(); Le(b[4 * k], b[4 * k + 1], b[4 * k + 2], b[4 * k + 3]) == AbcWord(k)
  {
    var b := AbcBlock();
    if k == 0 {
      assert Le(0x61, 0x62, 0x63, 0x80) == 0x80636261;
    } else if k == 14 {
      assert Le(0x18, 0, 0, 0) == 0x18;
    } else {
      assert b[4 * k] == b[4 * k + 1] == b[4 * k + 2] == b[4 * k + 3] == 0 && Le(0, 0, 0, 0) == 0;
    }
  }

  ghost predicate ReachedBody(x: Words, i: nat, r: Regs, s: Seal)
    requires i <= 64
  {
    Operations(INITIAL, x, Table(), i) == r
  }

  /** The registers after `i` operations. */
  ghost predicate Reached(x: Words, i: nat, r: Regs) {
    i <= 64 && forall s: Seal :: ReachedBody(x, i, r, s)
  }

  /** One operation on known registers: the new value, with the word and the shift that it uses. */
  lemma {:induction false} Go(x: Words, i: nat, w: Word, t: Word, s: ShiftAmount, r: Regs, v: Word)
    returns (next: Regs)
    requires i < 64 && AreWords(x) && Reached(x, i, r) && w == AbcWord(Index(i)) && t == T(i) && s == Shift(i)
    requires v == StandardValue(Aux(i, r.b, r.c, r.d), r.a, r.b, w, t, s)
    ensures next == Regs(r.d, v, r.b, r.c) && Reached(x, i + 1, next)
  {
    assert ReachedBody(x, i, r, Seal);
    assert Table()[i] == Entry(i);
    next := Regs(r.d, v, r.b, r.c);
    assert Operations(INITIAL, x, Table(), i + 1) == Operation(i, r, x, Table()[i]);
  }

  lemma {:induction false} Operations0(x: Words)
    requires AreWords(x) && Reached(x, 0, Regs(0x67452301, 0xefcdab89, 0x98badcfe, 0x10325476))
    ensures Reached(x, 4, Regs(0xd6d117b4, 0x7ad956f2, 0x2f6fbd72, 0x344a8432))
  {
    var r := Regs(0x67452301, 0xefcdab89, 0x98badcfe, 0x10325476);
    r := Go(x, 0, 0x80636261, 0xd76aa478, 7, r, 0xd6d117b4);
    r := Go(x, 1, 0x00000000, 0xe8c7b756, 12, r, 0x344a8432);
    r := Go(x, 2, 0x00000000, 0x242070db, 17, r, 0x2f6fbd72);
    r := Go(x, 3, 0x00000000, 0xc1bdceee, 22, r, 0x7ad956f2);
  }

  lemma {:induction false} Operations4(x: Words)
    requires AreWords(x) && Reached(x, 4, Regs(0xd6d117b4, 0x7ad956f2, 0x2f6fbd72, 0x344a8432))
    ensures Reached(x, 8, Regs(0xc73741ef, 0x928d99f6, 0x207dc67b, 0x8bac3051))
  {
    var r := Regs(0xd6d117b4, 0x7ad956f2, 0x2f6fbd72, 0x344a8432);
    r := Go(x, 4, 0x00000000, 0xf57c0faf, 7, r, 0xc73741ef);
    r := Go(x, 5, 0x00000000, 0x4787c62a, 12, r, 0x8bac3051);
    r := Go(x, 6, 0x00000000, 0xa8304613, 17, r, 0x207dc67b);
    r := Go(x, 7, 0x00000000, 0xfd469501, 22, r, 0x928d99f6);
  }

  lemma {:induction false} Operations8(x: Words)
    requires AreWords(x) && Reached(x, 8, Regs(0xc73741ef, 0x928d99f6, 0x207dc67b, 0x8bac3051))
    ensures Reached(x, 12, Regs(0x854b3712, 0x5ed49596, 0x3020401c, 0x74e2f284))
  {
    var r := Regs(0xc73741ef, 0x928d99f6, 0x207dc67b, 0x8bac3051);
    r := Go(x, 8, 0x00000000, 0x698098d8, 7, r, 0x854b3712);
    r := Go(x, 9, 0x00000000, 0x8b44f7af, 12, r, 0x74e2f284);
    r := Go(x, 10, 0x00000000, 0xffff5bb1, 17, r, 0x3020401c);
    r := Go(x, 11, 0x00000000, 0x895cd7be, 22, r, 0x5ed49596);
  }

  lemma {:induction false} Operations12(x: Words)
    requires AreWords(x) && Reached(x, 12, Regs(0x854b3712, 0x5ed49596, 0x3020401c, 0x74e2f284))
    ensures Reached(x, 16, Regs(0xdda9b9a6, 0x72aff2e0, 0xe396856b, 0xa1051895))
  {
    var r := Regs(0x854b3712, 0x5ed49596, 0x3020401c, 0x74e2f284);
    r := Go(x, 12, 0x00000000, 0x6b901122, 7, r, 0xdda9b9a6);
    r := Go(x, 13, 0x00000000, 0xfd987193, 12, r, 0xa1051895);
    r := Go(x, 14, 0x00000018, 0xa679438e, 17, r, 0xe396856b);
    r := Go(x, 15, 0x00000000, 0x49b40821, 22, r, 0x72aff2e0);
  }

  lemma {:induction false} Operations16(x: Words)
    requires AreWords(x) && Reached(x, 16, Regs(0xdda9b9a6, 0x72aff2e0, 0xe396856b, 0xa1051895))
    ensures Reached(x, 20, Regs(0x3e9e9126, 0xb5b204e4, 0xe25e1652, 0x4a1d804e))
  {
    var r := Regs(0xdda9b9a6, 0x72aff2e0, 0xe396856b, 0xa1051895);
    r := Go(x, 16, 0x00000000, 0xf61e2562, 5, r, 0x3e9e9126);
    r := Go(x, 17, 0x00000000, 0xc040b340, 9, r, 0x4a1d804e);
    r := Go(x, 18, 0x00000000, 0x265e5a51, 14, r, 0xe25e1652);
    r := Go(x, 19, 0x80636261, 0xe9b6c7aa, 20, r, 0xb5b204e4);
  }

  lemma {:induction false} Operations20(x: Words)
    requires AreWords(x) && Reached(x, 20, Regs(0x3e9e9126, 0xb5b204e4, 0xe25e1652, 0x4a1d804e))
    ensures Reached(x, 24, Regs(0x59a8ffda, 0x47092c07, 0xabfc7920, 0x6d002f1e))
  {
    var r := Regs(0x3e9e9126, 0xb5b204e4, 0xe25e1652, 0x4a1d804e);
    r := Go(x, 20, 0x00000000, 0xd62f105d, 5, r, 0x59a8ffda);
    r := Go(x, 21, 0x00000000, 0x02441453, 9, r, 0x6d002f1e);
    r := Go(x, 22, 0x00000000, 0xd8a1e681, 14, r, 0xabfc7920);
    r := Go(x, 23, 0x00000000, 0xe7d3fbc8, 20, r, 0x47092c07);
  }

  lemma {:induction false} Operations24(x: Words)
    requires AreWords(x) && Reached(x, 24, Regs(0x59a8ffda, 0x47092c07, 0xabfc7920, 0x6d002f1e))
    ensures Reached(x, 28, Regs(0xb7f268cf, 0x786acb8f, 0xfe1623b1, 0x09388eff))
  {
    var r := Regs(0x59a8ffda, 0x47092c07, 0xabfc7920, 0x6d002f1e);
    r := Go(x, 24, 0x00000000, 0x21e1cde6, 5, r, 0xb7f268cf);
    r := Go(x, 25, 0x00000018, 0xc33707d6, 9, r, 0x09388eff);
    r := Go(x, 26, 0x00000000, 0xf4d50d87, 14, r, 0xfe1623b1);
    r := Go(x, 27, 0x00000000, 0x455a14ed, 20, r, 0x786acb8f);
  }

  lemma {:induction false} Operations28(x: Words)
    requires AreWords(x) && Reached(x, 28, Regs(0xb7f268cf, 0x786acb8f, 0xfe1623b1, 0x09388eff))
    ensures Reached(x, 32, Regs(0x790a77fb, 0x726342d3, 0xa62884aa, 0x9f47e4f8))
  {
    var r := Regs(0xb7f268cf, 0x786acb8f, 0xfe1623b1, 0x09388eff);
    r := Go(x, 28, 0x00000000, 0xa9e3e905, 5, r, 0x790a77fb);
    r := Go(x, 29, 0x00000000, 0xfcefa3f8, 9, r, 0x9f47e4f8);
    r := Go(x, 30, 0x00000000, 0x676f02d9, 14, r, 0xa62884aa);
    r := Go(x, 31, 0x00000000, 0x8d2a4c8a, 20, r, 0x726342d3);
  }

  lemma {:induction false} Operations32(x: Words)
    requires AreWords(x) && Reached(x, 32, Regs(0x790a77fb, 0x726342d3, 0xa62884aa, 0x9f47e4f8))
    ensures Reached(x, 36, Regs(0xb3707ebf, 0x3b0875c7, 0x8d212ff5, 0x60127b2e))
  {
    var r := Regs(0x790a77fb, 0x726342d3, 0xa62884aa, 0x9f47e4f8);
    r := Go(x, 32, 0x00000000, 0xfffa3942, 4, r, 0xb3707ebf);
    r := Go(x, 33, 0x00000000, 0x8771f681, 11, r, 0x60127b2e);
    r := Go(x, 34, 0x00000000, 0x6d9d6122, 16, r, 0x8d212ff5);
    r := Go(x, 35, 0x00000018, 0xfde5380c, 23, r, 0x3b0875c7);
  }

  lemma {:induction false} Operations36(x: Words)
    requires AreWords(x) && Reached(x, 36, Regs(0xb3707ebf, 0x3b0875c7, 0x8d212ff5, 0x60127b2e))
    ensures Reached(x, 40, Regs(0x21b117b9, 0x5a2f5ea5, 0x3575227e, 0x6e7429d5))
  {
    var r := Regs(0xb3707ebf, 0x3b0875c7, 0x8d212ff5, 0x60127b2e);
    r := Go(x, 36, 0x00000000, 0xa4beea44, 4, r, 0x21b117b9);
    r := Go(x, 37, 0x00000000, 0x4bdecfa9, 11, r, 0x6e7429d5);
    r := Go(x, 38, 0x00000000, 0xf6bb4b60, 16, r, 0x3575227e);
    r := Go(x, 39, 0x00000000, 0xbebfbc70, 23, r, 0x5a2f5ea5);
  }

  lemma {:induction false} Operations40(x: Words)
    requires AreWords(x) && Reached(x, 40, Regs(0x21b117b9, 0x5a2f5ea5, 0x3575227e, 0x6e7429d5))
    ensures Reached(x, 44, Regs(0x11de1779, 0x4c6124f4, 0x31c465ca, 0xfadcaa38))
  {
    var r := Regs(0x21b117b9, 0x5a2f5ea5, 0x3575227e, 0x6e7429d5);
    r := Go(x, 40, 0x00000000, 0x289b7ec6, 4, r, 0x11de1779);
    r := Go(x, 41, 0x80636261, 0xeaa127fa, 11, r, 0xfadcaa38);
    r := Go(x, 42, 0x00000000, 0xd4ef3085, 16, r, 0x31c465ca);
    r := Go(x, 43, 0x00000000, 0x04881d05, 23, r, 0x4c6124f4);
  }

  lemma {:induction false} Operations44(x: Words)
    requires AreWords(x) && Reached(x, 44, Regs(0x11de1779, 0x4c6124f4, 0x31c465ca, 0xfadcaa38))
    ensures Reached(x, 48, Regs(0x7f2e507b, 0x7beb9700, 0x8fae6399, 0x99d9679d))
  {
    var r := Regs(0x11de1779, 0x4c6124f4, 0x31c465ca, 0xfadcaa38);
    r := Go(x, 44, 0x00000000, 0xd9d4d039, 4, r, 0x7f2e507b);
    r := Go(x, 45, 0x00000000, 0xe6db99e5, 11, r, 0x99d9679d);
    r := Go(x, 46, 0x00000000, 0x1fa27cf8, 16, r, 0x8fae6399);
    r := Go(x, 47, 0x00000000, 0xc4ac5665, 23, r, 0x7beb9700);
  }

  lemma {:induction false} Operations48(x: Words)
    requires AreWords(x) && Reached(x, 48, Regs(0x7f2e507b, 0x7beb9700, 0x8fae6399, 0x99d9679d))
    ensures Reached(x, 52, Regs(0x7b201df8, 0x8bf025c4, 0xb298cefd, 0xf4e8e96e))
  {
    var r := Regs(0x7f2e507b, 0x7beb9700, 0x8fae6399, 0x99d9679d);
    r := Go(x, 48, 0x80636261, 0xf4292244, 6, r, 0x7b201df8);
    r := Go(x, 49, 0x00000000, 0x432aff97, 10, r, 0xf4e8e96e);
    r := Go(x, 50, 0x00000018, 0xab9423a7, 15, r, 0xb298cefd);
    r := Go(x, 51, 0x00000000, 0xfc93a039, 21, r, 0x8bf025c4);
  }

  lemma {:induction false} Operations52(x: Words)
    requires AreWords(x) && Reached(x, 52, Regs(0x7b201df8, 0x8bf025c4, 0xb298cefd, 0xf4e8e96e))
    ensures Reached(x, 56, Regs(0x06cc5e8a, 0x3bfa2c27, 0x7d632dd0, 0x5b0d97aa))
  {
    var r := Regs(0x7b201df8, 0x8bf025c4, 0xb298cefd, 0xf4e8e96e);
    r := Go(x, 52, 0x00000000, 0x655b59c3, 6, r, 0x06cc5e8a);
    r := Go(x, 53, 0x00000000, 0x8f0ccc92, 10, r, 0x5b0d97aa);
    r := Go(x, 54, 0x00000000, 0xffeff47d, 15, r, 0x7d632dd0);
    r := Go(x, 55, 0x00000000, 0x85845dd1, 21, r, 0x3bfa2c27);
  }

  lemma {:induction false} Operations56(x: Words)
    requires AreWords(x) && Reached(x, 56, Regs(0x06cc5e8a, 0x3bfa2c27, 0x7d632dd0, 0x5b0d97aa))
    ensures Reached(x, 60, Regs(0x7f81cc35, 0x7327d604, 0x4f9dbe3f, 0x094454ab))
  {
    var r := Regs(0x06cc5e8a, 0x3bfa2c27, 0x7d632dd0, 0x5b0d97aa);
    r := Go(x, 56, 0x00000000, 0x6fa87e4f, 6, r, 0x7f81cc35);
    r := Go(x, 57, 0x00000000, 0xfe2ce6e0, 10, r, 0x094454ab);
    r := Go(x, 58, 0x00000000, 0xa3014314, 15, r, 0x4f9dbe3f);
    r := Go(x, 59, 0x00000000, 0x4e0811a1, 21, r, 0x7327d604);
  }

  lemma {:induction false} Operations60(x: Words)
    requires AreWords(x) && Reached(x, 60, Regs(0x7f81cc35, 0x7327d604, 0x4f9dbe3f, 0x094454ab))
    ensures Reached(x, 64, Regs(0x310ade8f, 0xc08226b3, 0xe484b9d8, 0x624d8cb2))
  {
    var r := Regs(0x7f81cc35, 0x7327d604, 0x4f9dbe3f, 0x094454ab);
    r := Go(x, 60, 0x00000000, 0xf7537e82, 6, r, 0x310ade8f);
    r := Go(x, 61, 0x00000000, 0xbd3af235, 10, r, 0x624d8cb2);
    r := Go(x, 62, 0x00000000, 0x2ad7d2bb, 15, r, 0xe484b9d8);
    r := Go(x, 63, 0x00000000, 0xeb86d391, 21, r, 0xc08226b3);
  }

  lemma {:induction false} AbcCompressed()
    ensures Compress(INITIAL, AbcBlock()) == Regs(0x98500190, 0xb04fd23c, 0x7d3f96d6, 0x727fe128)
  {
    var x := WordsOf(AbcBlock());
    AbcWords();
    Operations0(x);
    Operations4(x);
    Operations8(x);
    Operations12(x);
    Operations16(x);
    Operations20(x);
    Operations24(x);
    Operations28(x);
    Operations32(x);
    Operations36(x);
    Operations40(x);
    Operations44(x);
    Operations48(x);
    Operations52(x);
    Operations56(x);
    Operations60(x);
    var r := Regs(0x310ade8f, 0xc08226b3, 0xe484b9d8, 0x624d8cb2);
    assert ReachedBody(x, 64, r, Seal);
    assert Add(INITIAL, r) == Regs(0x98500190, 0xb04fd23c, 0x7d3f96d6, 0x727fe128);
  }

  lemma {:induction false} AbcPadded()
    ensures Padded(ABC, LengthField(3)) == AbcBlock()
  {
    var p, b, f := Padded(ABC, LengthField(3)), AbcBlock(), LengthField(3);
    assert ZeroCount(3) == 52 && |p| == 64;
    assert p[..56] == ABC + [0x80] + Zeros(52) && p[56..] == f;
    AbcLength();
    forall i | 0 <= i < 64 ensures p[i] == b[i] {
      if i < 56 {
        assert p[i] == p[..56][i];
      } else {
        assert p[i] == p[56..][i - 56];
      }
    }
  }

  lemma {:induction false} AbcLength()
    ensures LengthField(3) == [0x18, 0, 0, 0, 0, 0, 0, 0]
  {
    assert 8 * 3 % TWO_64 == 24;
  }

  lemma {:induction false} AbcBytes()
    ensures Digest(Regs(0x98500190, 0xb04fd23c, 0x7d3f96d6, 0x727fe128)) ==
            [0x90, 0x01, 0x50, 0x98, 0x3c, 0xd2, 0x4f, 0xb0, 0xd6, 0x96, 0x3f, 0x7d, 0x28, 0xe1, 0x7f, 0x72]
  {
    assert WordBytes(0x98500190) == [0x90, 0x01, 0x50, 0x98];
    assert WordBytes(0xb04fd23c) == [0x3c, 0xd2, 0x4f, 0xb0];
    assert WordBytes(0x7d3f96d6) == [0xd6, 0x96, 0x3f, 0x7d];
    assert WordBytes(0x727fe128) == [0x28, 0xe1, 0x7f, 0x72];
  }

  /** MD5 of `abc`. */
  lemma {:induction false} AbcDigest()
    ensures Digest(Hash(ABC)) ==
            [0x90, 0x01, 0x50, 0x98, 0x3c, 0xd2, 0x4f, 0xb0, 0xd6, 0x96, 0x3f, 0x7d, 0x28, 0xe1, 0x7f, 0x72]
  {
    AbcPadded();
    AbcCompressed();
    AbcBytes();
    var p := Padded(ABC, LengthField(3));
    assert p[..0] == [] && p[0..] == p;
    assert Hash(ABC) == CompressBytes(INITIAL, p);
  }
}
