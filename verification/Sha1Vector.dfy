/**
 * A known answer (FIPS 180-1, appendix A): the digest of `abc`. It settles the constants, the rotations and the order
 * of the words, which no law about the functions does.
 */
module Sha1Vector {
  import opened Common
  import opened Bits
  import opened BlockStream
  import opened Sha1Model
  import opened Sha1Digest

  const ABC: seq<bv8> := [0x61, 0x62, 0x63]

  function AbcBlock(): (b: Block) {
    seq(64, i => if i == 0 then 0x61 else if i == 1 then 0x62 else if i == 2 then 0x63
                 else if i == 3 then 0x80 else if i == 63 then 0x18 else 0)
  }

  /** The words of a schedule from `t` on. */
  ghost predicate From(w: seq<Word>, t: nat, x: seq<Word>) {
    t + |x| <= |w| && forall i :: 0 <= i < |x| ==> w[t + i] == x[i]
  }

  const W0: seq<Word> :=
    [0x61626380, 0x00000000, 0x00000000, 0x00000000, 0x00000000, 0x00000000, 0x00000000, 0x00000000,
     0x00000000, 0x00000000, 0x00000000, 0x00000000, 0x00000000, 0x00000000, 0x00000000, 0x00000018]

  const W1: seq<Word> :=
    [0xc2c4c700, 0x00000000, 0x00000030, 0x85898e01, 0x00000000, 0x00000060, 0x0b131c03, 0x00000030,
     0x85898ec1, 0x16263806, 0x00000000, 0x00000180, 0x2c4c700c, 0x000000f0, 0x93afb507, 0x5898e048]

  const W2: seq<Word> :=
    [0x8e9a9202, 0x00000600, 0xb131c0f0, 0x16263bc6, 0x4ebed41e, 0x626380a1, 0x16263806, 0x000018c0,
     0xd2e138c4, 0x00000f00, 0x3afb5079, 0x898e04e5, 0xe2ba3c2b, 0x000060c0, 0x053a37cd, 0x74458547]

  const W3: seq<Word> :=
    [0xda9415ed, 0x26380a16, 0x626383a1, 0x4ebf54de, 0x3835b44b, 0x0000f600, 0x1e84c7a3, 0x98e04d98,
     0x651d16a0, 0x62658ca1, 0x458544d6, 0x44584cb7, 0x7ba06619, 0x6380aea2, 0x0ae55269, 0x627b49a1]

  const W4: seq<Word> :=
    [0x7cd45c9d, 0x000f0000, 0xfb50753a, 0xec6765e8, 0xba3c2be2, 0x0060c000, 0x3a37cd05, 0x458546f4,
     0xb8599dd6, 0x380a1a26, 0x01e02203, 0xe7cc3456, 0xe6e60b69, 0x00f60a00, 0x5795ef4f, 0x822e0879]

  lemma {:induction false} FirstWords(w: seq<Word>)
    requires |w| == 80 && Scheduled(w, AbcBlock())
    ensures From(w, 0, W0)
  {
    forall i | 0 <= i < 16 ensures w[0 + i] == W0[i] {
      assert ScheduleAt(w, AbcBlock(), i);
      FirstWord(i);
    }
  }

  lemma {:induction false} FirstWord(i: nat)
    requires i < 16
    ensures MessageWord(AbcBlock(), i) == W0[i]
  {
    var b := AbcBlock();
    if i == 0 {
      assert Be(0x61, 0x62, 0x63, 0x80) == 0x61626380;
    } else if i == 15 {
      assert Be(0, 0, 0, 0x18) == 0x18;
    } else {
      assert b[4 * i] == b[4 * i + 1] == b[4 * i + 2] == b[4 * i + 3] == 0 && Be(0, 0, 0, 0) == 0;
    }
  }

  /** One word more, from four that are known. */
  lemma {:induction false} WordStep(w: seq<Word>, t: nat, a: Word, b: Word, c: Word, d: Word)
    requires 16 <= t < |w| && Scheduled(w, AbcBlock())
    requires w[t - 3] == a && w[t - 8] == b && w[t - 14] == c && w[t - 16] == d
    ensures w[t] == Rol1(a ^ b ^ c ^ d)
  {
    assert ScheduleAt(w, AbcBlock(), t);
  }

  lemma {:induction false} Words1(w: seq<Word>)
    requires |w| == 80 && Scheduled(w, AbcBlock()) && From(w, 0, W0)
    ensures From(w, 16, W1)
  {
    Spread(w, 0, W0);
    WordStep(w, 16, 0x00000000, 0x00000000, 0x00000000, 0x61626380);
    WordStep(w, 17, 0x00000000, 0x00000000, 0x00000000, 0x00000000);
    WordStep(w, 18, 0x00000018, 0x00000000, 0x00000000, 0x00000000);
    WordStep(w, 19, 0xc2c4c700, 0x00000000, 0x00000000, 0x00000000);
    WordStep(w, 20, 0x00000000, 0x00000000, 0x00000000, 0x00000000);
    WordStep(w, 21, 0x00000030, 0x00000000, 0x00000000, 0x00000000);
    WordStep(w, 22, 0x85898e01, 0x00000000, 0x00000000, 0x00000000);
    WordStep(w, 23, 0x00000000, 0x00000018, 0x00000000, 0x00000000);
    WordStep(w, 24, 0x00000060, 0xc2c4c700, 0x00000000, 0x00000000);
    WordStep(w, 25, 0x0b131c03, 0x00000000, 0x00000000, 0x00000000);
    WordStep(w, 26, 0x00000030, 0x00000030, 0x00000000, 0x00000000);
    WordStep(w, 27, 0x85898ec1, 0x85898e01, 0x00000000, 0x00000000);
    WordStep(w, 28, 0x16263806, 0x00000000, 0x00000000, 0x00000000);
    WordStep(w, 29, 0x00000000, 0x00000060, 0x00000018, 0x00000000);
    WordStep(w, 30, 0x00000180, 0x0b131c03, 0xc2c4c700, 0x00000000);
    WordStep(w, 31, 0x2c4c700c, 0x00000030, 0x00000000, 0x00000018);
    Collect(w, 16, W1);
  }

  lemma {:induction false} Words2(w: seq<Word>)
    requires |w| == 80 && Scheduled(w, AbcBlock()) && From(w, 16, W1)
    ensures From(w, 32, W2)
  {
    Spread(w, 16, W1);
    WordStep(w, 32, 0x000000f0, 0x85898ec1, 0x00000030, 0xc2c4c700);
    WordStep(w, 33, 0x93afb507, 0x16263806, 0x85898e01, 0x00000000);
    WordStep(w, 34, 0x5898e048, 0x00000000, 0x00000000, 0x00000030);
    WordStep(w, 35, 0x8e9a9202, 0x00000180, 0x00000060, 0x85898e01);
    WordStep(w, 36, 0x00000600, 0x2c4c700c, 0x0b131c03, 0x00000000);
    WordStep(w, 37, 0xb131c0f0, 0x000000f0, 0x00000030, 0x00000060);
    WordStep(w, 38, 0x16263bc6, 0x93afb507, 0x85898ec1, 0x0b131c03);
    WordStep(w, 39, 0x4ebed41e, 0x5898e048, 0x16263806, 0x00000030);
    WordStep(w, 40, 0x626380a1, 0x8e9a9202, 0x00000000, 0x85898ec1);
    WordStep(w, 41, 0x16263806, 0x00000600, 0x00000180, 0x16263806);
    WordStep(w, 42, 0x000018c0, 0xb131c0f0, 0x2c4c700c, 0x00000000);
    WordStep(w, 43, 0xd2e138c4, 0x16263bc6, 0x000000f0, 0x00000180);
    WordStep(w, 44, 0x00000f00, 0x4ebed41e, 0x93afb507, 0x2c4c700c);
    WordStep(w, 45, 0x3afb5079, 0x626380a1, 0x5898e048, 0x000000f0);
    WordStep(w, 46, 0x898e04e5, 0x16263806, 0x8e9a9202, 0x93afb507);
    WordStep(w, 47, 0xe2ba3c2b, 0x000018c0, 0x00000600, 0x5898e048);
    Collect(w, 32, W2);
  }

  lemma {:induction false} Words3(w: seq<Word>)
    requires |w| == 80 && Scheduled(w, AbcBlock()) && From(w, 32, W2)
    ensures From(w, 48, W3)
  {
    Spread(w, 32, W2);
    WordStep(w, 48, 0x000060c0, 0xd2e138c4, 0xb131c0f0, 0x8e9a9202);
    WordStep(w, 49, 0x053a37cd, 0x00000f00, 0x16263bc6, 0x00000600);
    WordStep(w, 50, 0x74458547, 0x3afb5079, 0x4ebed41e, 0xb131c0f0);
    WordStep(w, 51, 0xda9415ed, 0x898e04e5, 0x626380a1, 0x16263bc6);
    WordStep(w, 52, 0x26380a16, 0xe2ba3c2b, 0x16263806, 0x4ebed41e);
    WordStep(w, 53, 0x626383a1, 0x000060c0, 0x000018c0, 0x626380a1);
    WordStep(w, 54, 0x4ebf54de, 0x053a37cd, 0xd2e138c4, 0x16263806);
    WordStep(w, 55, 0x3835b44b, 0x74458547, 0x00000f00, 0x000018c0);
    WordStep(w, 56, 0x0000f600, 0xda9415ed, 0x3afb5079, 0xd2e138c4);
    WordStep(w, 57, 0x1e84c7a3, 0x26380a16, 0x898e04e5, 0x00000f00);
    WordStep(w, 58, 0x98e04d98, 0x626383a1, 0xe2ba3c2b, 0x3afb5079);
    WordStep(w, 59, 0x651d16a0, 0x4ebf54de, 0x000060c0, 0x898e04e5);
    WordStep(w, 60, 0x62658ca1, 0x3835b44b, 0x053a37cd, 0xe2ba3c2b);
    WordStep(w, 61, 0x458544d6, 0x0000f600, 0x74458547, 0x000060c0);
    WordStep(w, 62, 0x44584cb7, 0x1e84c7a3, 0xda9415ed, 0x053a37cd);
    WordStep(w, 63, 0x7ba06619, 0x98e04d98, 0x26380a16, 0x74458547);
    Collect(w, 48, W3);
  }

  lemma {:induction false} Words4(w: seq<Word>)
    requires |w| == 80 && Scheduled(w, AbcBlock()) && From(w, 48, W3)
    ensures From(w, 64, W4)
  {
    Spread(w, 48, W3);
    WordStep(w, 64, 0x6380aea2, 0x651d16a0, 0x626383a1, 0xda9415ed);
    WordStep(w, 65, 0x0ae55269, 0x62658ca1, 0x4ebf54de, 0x26380a16);
    WordStep(w, 66, 0x627b49a1, 0x458544d6, 0x3835b44b, 0x626383a1);
    WordStep(w, 67, 0x7cd45c9d, 0x44584cb7, 0x0000f600, 0x4ebf54de);
    WordStep(w, 68, 0x000f0000, 0x7ba06619, 0x1e84c7a3, 0x3835b44b);
    WordStep(w, 69, 0xfb50753a, 0x6380aea2, 0x98e04d98, 0x0000f600);
    WordStep(w, 70, 0xec6765e8, 0x0ae55269, 0x651d16a0, 0x1e84c7a3);
    WordStep(w, 71, 0xba3c2be2, 0x627b49a1, 0x62658ca1, 0x98e04d98);
    WordStep(w, 72, 0x0060c000, 0x7cd45c9d, 0x458544d6, 0x651d16a0);
    WordStep(w, 73, 0x3a37cd05, 0x000f0000, 0x44584cb7, 0x62658ca1);
    WordStep(w, 74, 0x458546f4, 0xfb50753a, 0x7ba06619, 0x458544d6);
    WordStep(w, 75, 0xb8599dd6, 0xec6765e8, 0x6380aea2, 0x44584cb7);
    WordStep(w, 76, 0x380a1a26, 0xba3c2be2, 0x0ae55269, 0x7ba06619);
    WordStep(w, 77, 0x01e02203, 0x0060c000, 0x627b49a1, 0x6380aea2);
    WordStep(w, 78, 0xe7cc3456, 0x3a37cd05, 0x7cd45c9d, 0x0ae55269);
    WordStep(w, 79, 0xe6e60b69, 0x458546f4, 0x000f0000, 0x627b49a1);
    Collect(w, 64, W4);
  }

  ghost predicate Sixteen(w: seq<Word>, t: nat, x: seq<Word>)
    requires |x| == 16 && t + 16 <= |w|
  {
    && w[t] == x[0] && w[t + 1] == x[1] && w[t + 2] == x[2] && w[t + 3] == x[3]
    && w[t + 4] == x[4] && w[t + 5] == x[5] && w[t + 6] == x[6] && w[t + 7] == x[7]
    && w[t + 8] == x[8] && w[t + 9] == x[9] && w[t + 10] == x[10] && w[t + 11] == x[11]
    && w[t + 12] == x[12] && w[t + 13] == x[13] && w[t + 14] == x[14] && w[t + 15] == x[15]
  }

  lemma {:induction false} Spread(w: seq<Word>, t: nat, x: seq<Word>)
    requires |x| == 16 && From(w, t, x)
    ensures Sixteen(w, t, x)
  {}

  lemma {:induction false} Collect(w: seq<Word>, t: nat, x: seq<Word>)
    requires |x| == 16 && t + 16 <= |w| && Sixteen(w, t, x)
    ensures From(w, t, x)
  {}

  /** One round from known registers with a known word. */
  lemma {:induction false} Go(w: seq<Word>, t: nat, x: Word, r: Regs, r': Regs) returns (next: Regs)
    requires t < |w| == 80 && Reached(r, INITIAL, w, t) && w[t] == x && r' == Round(t, r, x)
    ensures next == r' && Reached(r', INITIAL, w, t + 1)
  {
    Next(r, INITIAL, w, t, r');
    next := r';
  }

  lemma {:induction false} Rounds0(w: seq<Word>)
    requires |w| == 80 && From(w, 0, W0)
    requires Reached(Regs(0x67452301, 0xefcdab89, 0x98badcfe, 0x10325476, 0xc3d2e1f0),
                     INITIAL, w, 0)
    ensures Reached(Regs(0x9e8c07d4, 0x993e30c1, 0x0ff1f290, 0xb3f52677, 0xf3763846),
                    INITIAL, w, 8)
  {
    Spread(w, 0, W0);
    var r := Regs(0x67452301, 0xefcdab89, 0x98badcfe, 0x10325476, 0xc3d2e1f0);
    r := Go(w, 0, 0x61626380, r, Regs(0x0116fc33, 0x67452301, 0x7bf36ae2, 0x98badcfe, 0x10325476));
    r := Go(w, 1, 0x00000000, r, Regs(0x8990536d, 0x0116fc33, 0x59d148c0, 0x7bf36ae2, 0x98badcfe));
    r := Go(w, 2, 0x00000000, r, Regs(0xa1390f08, 0x8990536d, 0xc045bf0c, 0x59d148c0, 0x7bf36ae2));
    r := Go(w, 3, 0x00000000, r, Regs(0xcdd8e11b, 0xa1390f08, 0x626414db, 0xc045bf0c, 0x59d148c0));
    r := Go(w, 4, 0x00000000, r, Regs(0xcfd499de, 0xcdd8e11b, 0x284e43c2, 0x626414db, 0xc045bf0c));
    r := Go(w, 5, 0x00000000, r, Regs(0x3fc7ca40, 0xcfd499de, 0xf3763846, 0x284e43c2, 0x626414db));
    r := Go(w, 6, 0x00000000, r, Regs(0x993e30c1, 0x3fc7ca40, 0xb3f52677, 0xf3763846, 0x284e43c2));
    r := Go(w, 7, 0x00000000, r, Regs(0x9e8c07d4, 0x993e30c1, 0x0ff1f290, 0xb3f52677, 0xf3763846));
  }

  lemma {:induction false} Rounds8(w: seq<Word>)
    requires |w| == 80 && From(w, 0, W0)
    requires Reached(Regs(0x9e8c07d4, 0x993e30c1, 0x0ff1f290, 0xb3f52677, 0xf3763846),
                     INITIAL, w, 8)
    ensures Reached(Regs(0x20bdd62f, 0x196bee77, 0x644a3da5, 0x1181ed99, 0x18c623f9),
                    INITIAL, w, 16)
  {
    Spread(w, 0, W0);
    var r := Regs(0x9e8c07d4, 0x993e30c1, 0x0ff1f290, 0xb3f52677, 0xf3763846);
    r := Go(w, 8, 0x00000000, r, Regs(0x4b6ae328, 0x9e8c07d4, 0x664f8c30, 0x0ff1f290, 0xb3f52677));
    r := Go(w, 9, 0x00000000, r, Regs(0x8351f929, 0x4b6ae328, 0x27a301f5, 0x664f8c30, 0x0ff1f290));
    r := Go(w, 10, 0x00000000, r, Regs(0xfbda9e89, 0x8351f929, 0x12dab8ca, 0x27a301f5, 0x664f8c30));
    r := Go(w, 11, 0x00000000, r, Regs(0x63188fe4, 0xfbda9e89, 0x60d47e4a, 0x12dab8ca, 0x27a301f5));
    r := Go(w, 12, 0x00000000, r, Regs(0x4607b664, 0x63188fe4, 0x7ef6a7a2, 0x60d47e4a, 0x12dab8ca));
    r := Go(w, 13, 0x00000000, r, Regs(0x9128f695, 0x4607b664, 0x18c623f9, 0x7ef6a7a2, 0x60d47e4a));
    r := Go(w, 14, 0x00000000, r, Regs(0x196bee77, 0x9128f695, 0x1181ed99, 0x18c623f9, 0x7ef6a7a2));
    r := Go(w, 15, 0x00000018, r, Regs(0x20bdd62f, 0x196bee77, 0x644a3da5, 0x1181ed99, 0x18c623f9));
  }

  lemma {:induction false} Rounds16(w: seq<Word>)
    requires |w| == 80 && From(w, 16, W1)
    requires Reached(Regs(0x20bdd62f, 0x196bee77, 0x644a3da5, 0x1181ed99, 0x18c623f9),
                     INITIAL, w, 16)
    ensures Reached(Regs(0xd541f12d, 0x21283486, 0x0ce88eff, 0x868dec32, 0x7f67875f),
                    INITIAL, w, 24)
  {
    Spread(w, 16, W1);
    var r := Regs(0x20bdd62f, 0x196bee77, 0x644a3da5, 0x1181ed99, 0x18c623f9);
    r := Go(w, 16, 0xc2c4c700, r, Regs(0x4e925823, 0x20bdd62f, 0xc65afb9d, 0x644a3da5, 0x1181ed99));
    r := Go(w, 17, 0x00000000, r, Regs(0x82aa6728, 0x4e925823, 0xc82f758b, 0xc65afb9d, 0x644a3da5));
    r := Go(w, 18, 0x00000030, r, Regs(0xdc64901d, 0x82aa6728, 0xd3a49608, 0xc82f758b, 0xc65afb9d));
    r := Go(w, 19, 0x85898e01, r, Regs(0xfd9e1d7d, 0xdc64901d, 0x20aa99ca, 0xd3a49608, 0xc82f758b));
    r := Go(w, 20, 0x00000000, r, Regs(0x1a37b0ca, 0xfd9e1d7d, 0x77192407, 0x20aa99ca, 0xd3a49608));
    r := Go(w, 21, 0x00000060, r, Regs(0x33a23bfc, 0x1a37b0ca, 0x7f67875f, 0x77192407, 0x20aa99ca));
    r := Go(w, 22, 0x0b131c03, r, Regs(0x21283486, 0x33a23bfc, 0x868dec32, 0x7f67875f, 0x77192407));
    r := Go(w, 23, 0x00000030, r, Regs(0xd541f12d, 0x21283486, 0x0ce88eff, 0x868dec32, 0x7f67875f));
  }

  lemma {:induction false} Rounds24(w: seq<Word>)
    requires |w| == 80 && From(w, 16, W1)
    requires Reached(Regs(0xd541f12d, 0x21283486, 0x0ce88eff, 0x868dec32, 0x7f67875f),
                     INITIAL, w, 24)
    ensures Reached(Regs(0x3b845d33, 0x1267b407, 0x717eebd7, 0xa0dc2d4b, 0xd2aa1365),
                    INITIAL, w, 32)
  {
    Spread(w, 16, W1);
    var r := Regs(0xd541f12d, 0x21283486, 0x0ce88eff, 0x868dec32, 0x7f67875f);
    r := Go(w, 24, 0x85898ec1, r, Regs(0xc7567dc6, 0xd541f12d, 0x884a0d21, 0x0ce88eff, 0x868dec32));
    r := Go(w, 25, 0x16263806, r, Regs(0x48413ba4, 0xc7567dc6, 0x75507c4b, 0x884a0d21, 0x0ce88eff));
    r := Go(w, 26, 0x00000000, r, Regs(0xbe35fbd5, 0x48413ba4, 0xb1d59f71, 0x75507c4b, 0x884a0d21));
    r := Go(w, 27, 0x00000180, r, Regs(0x4aa84d97, 0xbe35fbd5, 0x12104ee9, 0xb1d59f71, 0x75507c4b));
    r := Go(w, 28, 0x2c4c700c, r, Regs(0x8370b52e, 0x4aa84d97, 0x6f8d7ef5, 0x12104ee9, 0xb1d59f71));
    r := Go(w, 29, 0x000000f0, r, Regs(0xc5fbaf5d, 0x8370b52e, 0xd2aa1365, 0x6f8d7ef5, 0x12104ee9));
    r := Go(w, 30, 0x93afb507, r, Regs(0x1267b407, 0xc5fbaf5d, 0xa0dc2d4b, 0xd2aa1365, 0x6f8d7ef5));
    r := Go(w, 31, 0x5898e048, r, Regs(0x3b845d33, 0x1267b407, 0x717eebd7, 0xa0dc2d4b, 0xd2aa1365));
  }

  lemma {:induction false} Rounds32(w: seq<Word>)
    requires |w| == 80 && From(w, 32, W2)
    requires Reached(Regs(0x3b845d33, 0x1267b407, 0x717eebd7, 0xa0dc2d4b, 0xd2aa1365),
                     INITIAL, w, 32)
    ensures Reached(Regs(0x32de1cba, 0x4c986405, 0xf718e5cf, 0x03d447f6, 0xf72eec32),
                    INITIAL, w, 40)
  {
    Spread(w, 32, W2);
    var r := Regs(0x3b845d33, 0x1267b407, 0x717eebd7, 0xa0dc2d4b, 0xd2aa1365);
    r := Go(w, 32, 0x8e9a9202, r, Regs(0x046faa0a, 0x3b845d33, 0xc499ed01, 0x717eebd7, 0xa0dc2d4b));
    r := Go(w, 33, 0x00000600, r, Regs(0x2c0ebc11, 0x046faa0a, 0xcee1174c, 0xc499ed01, 0x717eebd7));
    r := Go(w, 34, 0xb131c0f0, r, Regs(0x21796ad4, 0x2c0ebc11, 0x811bea82, 0xcee1174c, 0xc499ed01));
    r := Go(w, 35, 0x16263bc6, r, Regs(0xdcbbb0cb, 0x21796ad4, 0x4b03af04, 0x811bea82, 0xcee1174c));
    r := Go(w, 36, 0x4ebed41e, r, Regs(0x0f511fd8, 0xdcbbb0cb, 0x085e5ab5, 0x4b03af04, 0x811bea82));
    r := Go(w, 37, 0x626380a1, r, Regs(0xdc63973f, 0x0f511fd8, 0xf72eec32, 0x085e5ab5, 0x4b03af04));
    r := Go(w, 38, 0x16263806, r, Regs(0x4c986405, 0xdc63973f, 0x03d447f6, 0xf72eec32, 0x085e5ab5));
    r := Go(w, 39, 0x000018c0, r, Regs(0x32de1cba, 0x4c986405, 0xf718e5cf, 0x03d447f6, 0xf72eec32));
  }

  lemma {:induction false} Rounds40(w: seq<Word>)
    requires |w| == 80 && From(w, 32, W2)
    requires Reached(Regs(0x32de1cba, 0x4c986405, 0xf718e5cf, 0x03d447f6, 0xf72eec32),
                     INITIAL, w, 40)
    ensures Reached(Regs(0xbead02ca, 0xa01b846c, 0x8714787c, 0x503ca382, 0xfb86c6ab),
                    INITIAL, w, 48)
  {
    Spread(w, 32, W2);
    var r := Regs(0x32de1cba, 0x4c986405, 0xf718e5cf, 0x03d447f6, 0xf72eec32);
    r := Go(w, 40, 0xd2e138c4, r, Regs(0xfc87dedf, 0x32de1cba, 0x53261901, 0xf718e5cf, 0x03d447f6));
    r := Go(w, 41, 0x00000f00, r, Regs(0x970a0d5c, 0xfc87dedf, 0x8cb7872e, 0x53261901, 0xf718e5cf));
    r := Go(w, 42, 0x3afb5079, r, Regs(0x7f193dc5, 0x970a0d5c, 0xff21f7b7, 0x8cb7872e, 0x53261901));
    r := Go(w, 43, 0x898e04e5, r, Regs(0xee1b1aaf, 0x7f193dc5, 0x25c28357, 0xff21f7b7, 0x8cb7872e));
    r := Go(w, 44, 0xe2ba3c2b, r, Regs(0x40f28e09, 0xee1b1aaf, 0x5fc64f71, 0x25c28357, 0xff21f7b7));
    r := Go(w, 45, 0x000060c0, r, Regs(0x1c51e1f2, 0x40f28e09, 0xfb86c6ab, 0x5fc64f71, 0x25c28357));
    r := Go(w, 46, 0x053a37cd, r, Regs(0xa01b846c, 0x1c51e1f2, 0x503ca382, 0xfb86c6ab, 0x5fc64f71));
    r := Go(w, 47, 0x74458547, r, Regs(0xbead02ca, 0xa01b846c, 0x8714787c, 0x503ca382, 0xfb86c6ab));
  }

  lemma {:induction false} Rounds48(w: seq<Word>)
    requires |w| == 80 && From(w, 48, W3)
    requires Reached(Regs(0xbead02ca, 0xa01b846c, 0x8714787c, 0x503ca382, 0xfb86c6ab),
                     INITIAL, w, 48)
    ensures Reached(Regs(0x5e6456af, 0x7b71f76d, 0x09fa7c76, 0x792410db, 0x8e11eb59),
                    INITIAL, w, 56)
  {
    Spread(w, 48, W3);
    var r := Regs(0xbead02ca, 0xa01b846c, 0x8714787c, 0x503ca382, 0xfb86c6ab);
    r := Go(w, 48, 0xda9415ed, r, Regs(0xbaf39337, 0xbead02ca, 0x2806e11b, 0x8714787c, 0x503ca382));
    r := Go(w, 49, 0x26380a16, r, Regs(0x120731c5, 0xbaf39337, 0xafab40b2, 0x2806e11b, 0x8714787c));
    r := Go(w, 50, 0x626383a1, r, Regs(0x641db2ce, 0x120731c5, 0xeebce4cd, 0xafab40b2, 0x2806e11b));
    r := Go(w, 51, 0x4ebf54de, r, Regs(0x3847ad66, 0x641db2ce, 0x4481cc71, 0xeebce4cd, 0xafab40b2));
    r := Go(w, 52, 0x3835b44b, r, Regs(0xe490436d, 0x3847ad66, 0x99076cb3, 0x4481cc71, 0xeebce4cd));
    r := Go(w, 53, 0x0000f600, r, Regs(0x27e9f1d8, 0xe490436d, 0x8e11eb59, 0x99076cb3, 0x4481cc71));
    r := Go(w, 54, 0x1e84c7a3, r, Regs(0x7b71f76d, 0x27e9f1d8, 0x792410db, 0x8e11eb59, 0x99076cb3));
    r := Go(w, 55, 0x98e04d98, r, Regs(0x5e6456af, 0x7b71f76d, 0x09fa7c76, 0x792410db, 0x8e11eb59));
  }

  lemma {:induction false} Rounds56(w: seq<Word>)
    requires |w| == 80 && From(w, 48, W3)
    requires Reached(Regs(0x5e6456af, 0x7b71f76d, 0x09fa7c76, 0x792410db, 0x8e11eb59),
                     INITIAL, w, 56)
    ensures Reached(Regs(0x6b61c9e1, 0xb66c020b, 0x9523272c, 0xf5d5b051, 0x8fd4b796),
                    INITIAL, w, 64)
  {
    Spread(w, 48, W3);
    var r := Regs(0x5e6456af, 0x7b71f76d, 0x09fa7c76, 0x792410db, 0x8e11eb59);
    r := Go(w, 56, 0x651d16a0, r, Regs(0xc846093f, 0x5e6456af, 0x5edc7ddb, 0x09fa7c76, 0x792410db));
    r := Go(w, 57, 0x62658ca1, r, Regs(0xd262ff50, 0xc846093f, 0xd79915ab, 0x5edc7ddb, 0x09fa7c76));
    r := Go(w, 58, 0x458544d6, r, Regs(0x09d785fd, 0xd262ff50, 0xf211824f, 0xd79915ab, 0x5edc7ddb));
    r := Go(w, 59, 0x44584cb7, r, Regs(0x3f52de5a, 0x09d785fd, 0x3498bfd4, 0xf211824f, 0xd79915ab));
    r := Go(w, 60, 0x7ba06619, r, Regs(0xd756c147, 0x3f52de5a, 0x4275e17f, 0x3498bfd4, 0xf211824f));
    r := Go(w, 61, 0x6380aea2, r, Regs(0x548c9cb2, 0xd756c147, 0x8fd4b796, 0x4275e17f, 0x3498bfd4));
    r := Go(w, 62, 0x0ae55269, r, Regs(0xb66c020b, 0x548c9cb2, 0xf5d5b051, 0x8fd4b796, 0x4275e17f));
    r := Go(w, 63, 0x627b49a1, r, Regs(0x6b61c9e1, 0xb66c020b, 0x9523272c, 0xf5d5b051, 0x8fd4b796));
  }

  lemma {:induction false} Rounds64(w: seq<Word>)
    requires |w| == 80 && From(w, 64, W4)
    requires Reached(Regs(0x6b61c9e1, 0xb66c020b, 0x9523272c, 0xf5d5b051, 0x8fd4b796),
                     INITIAL, w, 64)
    ensures Reached(Regs(0x39859de7, 0xc199f8c7, 0x8fc96230, 0x125c24f0, 0xde37534a),
                    INITIAL, w, 72)
  {
    Spread(w, 64, W4);
    var r := Regs(0x6b61c9e1, 0xb66c020b, 0x9523272c, 0xf5d5b051, 0x8fd4b796);
    r := Go(w, 64, 0x7cd45c9d, r, Regs(0x19dfa7ac, 0x6b61c9e1, 0xed9b0082, 0x9523272c, 0xf5d5b051));
    r := Go(w, 65, 0x000f0000, r, Regs(0x101655f9, 0x19dfa7ac, 0x5ad87278, 0xed9b0082, 0x9523272c));
    r := Go(w, 66, 0xfb50753a, r, Regs(0x0c3df2b4, 0x101655f9, 0x0677e9eb, 0x5ad87278, 0xed9b0082));
    r := Go(w, 67, 0xec6765e8, r, Regs(0x78dd4d2b, 0x0c3df2b4, 0x4405957e, 0x0677e9eb, 0x5ad87278));
    r := Go(w, 68, 0xba3c2be2, r, Regs(0x497093c0, 0x78dd4d2b, 0x030f7cad, 0x4405957e, 0x0677e9eb));
    r := Go(w, 69, 0x0060c000, r, Regs(0x3f2588c2, 0x497093c0, 0xde37534a, 0x030f7cad, 0x4405957e));
    r := Go(w, 70, 0x3a37cd05, r, Regs(0xc199f8c7, 0x3f2588c2, 0x125c24f0, 0xde37534a, 0x030f7cad));
    r := Go(w, 71, 0x458546f4, r, Regs(0x39859de7, 0xc199f8c7, 0x8fc96230, 0x125c24f0, 0xde37534a));
  }

  lemma {:induction false} Rounds72(w: seq<Word>)
    requires |w| == 80 && From(w, 64, W4)
    requires Reached(Regs(0x39859de7, 0xc199f8c7, 0x8fc96230, 0x125c24f0, 0xde37534a),
                     INITIAL, w, 72)
    ensures Reached(Regs(0x42541b35, 0x5738d5e1, 0x21834873, 0x681e6df6, 0xd8fdf6ad),
                    INITIAL, w, 80)
  {
    Spread(w, 64, W4);
    var r := Regs(0x39859de7, 0xc199f8c7, 0x8fc96230, 0x125c24f0, 0xde37534a);
    r := Go(w, 72, 0xb8599dd6, r, Regs(0xedb42de4, 0x39859de7, 0xf0667e31, 0x8fc96230, 0x125c24f0));
    r := Go(w, 73, 0x380a1a26, r, Regs(0x11793f6f, 0xedb42de4, 0xce616779, 0xf0667e31, 0x8fc96230));
    r := Go(w, 74, 0x01e02203, r, Regs(0x5ee76897, 0x11793f6f, 0x3b6d0b79, 0xce616779, 0xf0667e31));
    r := Go(w, 75, 0xe7cc3456, r, Regs(0x63f7dab7, 0x5ee76897, 0xc45e4fdb, 0x3b6d0b79, 0xce616779));
    r := Go(w, 76, 0xe6e60b69, r, Regs(0xa079b7d9, 0x63f7dab7, 0xd7b9da25, 0xc45e4fdb, 0x3b6d0b79));
    r := Go(w, 77, 0x00f60a00, r, Regs(0x860d21cc, 0xa079b7d9, 0xd8fdf6ad, 0xd7b9da25, 0xc45e4fdb));
    r := Go(w, 78, 0x5795ef4f, r, Regs(0x5738d5e1, 0x860d21cc, 0x681e6df6, 0xd8fdf6ad, 0xd7b9da25));
    r := Go(w, 79, 0x822e0879, r, Regs(0x42541b35, 0x5738d5e1, 0x21834873, 0x681e6df6, 0xd8fdf6ad));
  }

  lemma {:induction false} AbcCompressed()
    ensures Compress(INITIAL, AbcBlock()) == Regs(0xa9993e36, 0x4706816a, 0xba3e2571, 0x7850c26c, 0x9cd0d89d)
  {
    var w := Schedule(AbcBlock(), 80);
    forall t: nat ensures ScheduleAt(w, AbcBlock(), t) {
      ScheduleHolds(AbcBlock(), 80, t);
    }
    FirstWords(w);
    Words1(w);
    Words2(w);
    Words3(w);
    Words4(w);
    Rounds0(w);
    Rounds8(w);
    Rounds16(w);
    Rounds24(w);
    Rounds32(w);
    Rounds40(w);
    Rounds48(w);
    Rounds56(w);
    Rounds64(w);
    Rounds72(w);
    var r := Regs(0x42541b35, 0x5738d5e1, 0x21834873, 0x681e6df6, 0xd8fdf6ad);
    assert ReachedBody(r, INITIAL, w, 80, Seal);
    assert Add(INITIAL, r) == Regs(0xa9993e36, 0x4706816a, 0xba3e2571, 0x7850c26c, 0x9cd0d89d);
  }

  lemma {:induction false} AbcPadded()
    ensures Padded(ABC, LengthField(3)) == AbcBlock()
  {
    var p, b, f := Padded(ABC, LengthField(3)), AbcBlock(), LengthField(3);
    assert ZeroCount(3) == 52 && |p| == 64;
    assert p[..56] == ABC + [0x80] + Zeros(52) && p[56..] == f;
    AbcLength();
    forall i | 0 <= i < 64 ensures p[i] == b[i] {
      if i < 56 {
        assert p[i] == p[..56][i];
      } else {
        assert p[i] == p[56..][i - 56];
      }
    }
  }

  lemma {:induction false} AbcLength()
    ensures LengthField(3) == [0, 0, 0, 0, 0, 0, 0, 0x18]
  {
    assert 8 * 3 % TWO_64 == 24;
  }

  lemma {:induction false} AbcBytes()
    ensures Digest(Regs(0xa9993e36, 0x4706816a, 0xba3e2571, 0x7850c26c, 0x9cd0d89d)) ==
            [0xa9, 0x99, 0x3e, 0x36, 0x47, 0x06, 0x81, 0x6a, 0xba, 0x3e,
             0x25, 0x71, 0x78, 0x50, 0xc2, 0x6c, 0x9c, 0xd0, 0xd8, 0x9d]
  {
    assert WordBytes(0xa9993e36) == [0xa9, 0x99, 0x3e, 0x36];
    assert WordBytes(0x4706816a) == [0x47, 0x06, 0x81, 0x6a];
    assert WordBytes(0xba3e2571) == [0xba, 0x3e, 0x25, 0x71];
    assert WordBytes(0x7850c26c) == [0x78, 0x50, 0xc2, 0x6c];
    assert WordBytes(0x9cd0d89d) == [0x9c, 0xd0, 0xd8, 0x9d];
  }

  /** SHA-1 of `abc`. */
  lemma {:induction false} AbcDigest()
    ensures Digest(Hash(ABC)) ==
            [0xa9, 0x99, 0x3e, 0x36, 0x47, 0x06, 0x81, 0x6a, 0xba, 0x3e,
             0x25, 0x71, 0x78, 0x50, 0xc2, 0x6c, 0x9c, 0xd0, 0xd8, 0x9d]
  {
    AbcPadded();
    AbcCompressed();
    AbcBytes();
    var p := Padded(ABC, LengthField(3));
    assert p[..0] == [] && p[0..] == p;
    assert Hash(ABC) == CompressBytes(INITIAL, p);
  }
}
