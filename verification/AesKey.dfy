/** The key schedule: `AesSetKeyLocal` against section 5.2 of FIPS 197. */
module AesKey {
  import opened Common
  import opened Bits
  import opened RoundCipher
  import opened AesCipher
  import opened AesTables

  const ROOM := 60  // words in `Aes.key`
  const BAD_FUNC_ARG: int := -173

  // ----- the standard

  /** The powers of two in GF(2^8). */
  function RoundConstant(i: nat): Byte {
    if i <= 1 then Byte(1) else Xtime(RoundConstant(i - 1))
  }

  function SubWord(sb: SBox, w: Word): Word {
    Pack(sb.sub(GetByte(w, 3)), sb.sub(GetByte(w, 2)), sb.sub(GetByte(w, 1)), sb.sub(GetByte(w, 0)))
  }

  function RotWord(w: Word): Word {
    Pack(GetByte(w, 2), GetByte(w, 1), GetByte(w, 0), GetByte(w, 3))
  }

  /** What is added to the word `nk` places back to make word `m * nk + j`. */
  function Temp(sb: SBox, nk: nat, m: nat, j: nat, prev: Word): Word {
    if j == 0 then XorW(SubWord(sb, RotWord(prev)), Pack(RoundConstant(m), Byte(0), Byte(0), Byte(0)))
    else if nk > 6 && j == 4 then SubWord(sb, prev)
    else prev
  }

  function NextWord(sb: SBox, nk: nat, w: seq<Word>): Word
    requires 0 < nk <= |w|
  {
    XorW(w[|w| - nk], Temp(sb, nk, |w| / nk, |w| % nk, w[|w| - 1]))
  }

  /** The first `n` words of the schedule for the key words `k`. */
  function Expansion(sb: SBox, k: seq<Word>, n: nat): (w: seq<Word>)
    requires 0 < |k| <= n
    ensures |w| == n
  {
    if n == |k| then k
    else var w := Expansion(sb, k, n - 1); w + [NextWord(sb, |k|, w)]
  }

  /** Big-endian words of a byte string. */
  function BeWord(b: seq<Byte>, i: nat): Word
    requires 4 * i + 4 <= |b|
  {
    Pack(b[4 * i], b[4 * i + 1], b[4 * i + 2], b[4 * i + 3])
  }

  function BeWords(b: seq<Byte>): (w: seq<Word>)
    ensures |w| == |b| / 4
  {
    seq(|b| / 4, i requires 0 <= i < |b| / 4 => BeWord(b, i))
  }

  function RoundKey(w: seq<Word>, r: nat): State
    requires 4 * r + 4 <= |w|
  {
    State(ColOf(w[4 * r]), ColOf(w[4 * r + 1]), ColOf(w[4 * r + 2]), ColOf(w[4 * r + 3]))
  }

  function RoundKeys(w: seq<Word>, rounds: nat): (k: seq<State>)
    requires 4 * rounds + 4 <= |w|
    ensures |k| == rounds + 1
  {
    seq(rounds + 1, r requires 0 <= r <= rounds => RoundKey(w, r))
  }

  predicate ValidKey(key: seq<Byte>) {
    |key| == 16 || |key| == 24 || |key| == 32
  }

  function RoundCount(key: seq<Byte>): nat {
    |key| / 4 + 6
  }

  /** The round keys that the standard derives from a cipher key. */
  function CipherKeys(sb: SBox, key: seq<Byte>): (k: seq<State>)
    requires ValidKey(key)
    ensures |k| == RoundCount(key) + 1
  {
    RoundKeys(Expansion(sb, BeWords(key), 4 * RoundCount(key) + 4), RoundCount(key))
  }

  // ----- loading words

  /** `ByteReverseWord32`. */
  function ByteReverse(x: Word): Word {
    var v := ((x.v & 0xFF00FF00) >> 8) | ((x.v & 0x00FF00FF) << 8);
    Word((v << 16) | (v >> 16))
  }

  /** Reversing a word that a little-endian host loaded gives the big-endian word. */
  lemma {:induction false} ReverseLoaded(b0: Byte, b1: Byte, b2: Byte, b3: Byte)
    ensures ByteReverse(Pack(b3, b2, b1, b0)) == Pack(b0, b1, b2, b3)
  {}

  /** A word as a little-endian host loads it. */
  function LeWord(b: seq<Byte>, i: nat): Word
    requires 4 * i + 4 <= |b|
  {
    Pack(b[4 * i + 3], b[4 * i + 2], b[4 * i + 1], b[4 * i])
  }

  // ----- expansion in place

  const RCON: seq<bv32> := [0x01000000, 0x02000000, 0x04000000, 0x08000000, 0x10000000,
                            0x20000000, 0x40000000, 0x80000000, 0x1B000000, 0x36000000]

  /** The table `rcon`. */
  function Rcon(i: nat): Word
    requires i < 10
  {
    Word(RCON[i])
  }

  lemma {:induction false} RconSteps()
    ensures RoundConstant(1) == Byte(0x01)
    ensures Xtime(Byte(0x01)) == Byte(0x02) && Xtime(Byte(0x02)) == Byte(0x04) && Xtime(Byte(0x04)) == Byte(0x08)
    ensures Xtime(Byte(0x08)) == Byte(0x10) && Xtime(Byte(0x10)) == Byte(0x20) && Xtime(Byte(0x20)) == Byte(0x40)
    ensures Xtime(Byte(0x40)) == Byte(0x80) && Xtime(Byte(0x80)) == Byte(0x1B) && Xtime(Byte(0x1B)) == Byte(0x36)
  {}

  function RconByte(i: nat): Byte {
    Byte(match i case 0 => 0x01 case 1 => 0x02 case 2 => 0x04 case 3 => 0x08 case 4 => 0x10 case 5 => 0x20
         case 6 => 0x40 case 7 => 0x80 case 8 => 0x1B case _ => 0x36)
  }

  lemma {:induction false} RconBytes(i: nat)
    requires i < 10
    ensures RoundConstant(i + 1) == RconByte(i)
  {
    RconSteps();
    if i > 0 {
      RconBytes(i - 1);
    }
  }

  /** The table holds the powers of two, in the top byte. */
  lemma {:induction false} RconTable(i: nat)
    requires i < 10
    ensures Rcon(i) == Pack(RoundConstant(i + 1), Byte(0), Byte(0), Byte(0))
  {
    RconBytes(i);
    RconWord(i);
  }

  lemma {:induction false} RconWord(i: nat)
    requires i < 10
    ensures Rcon(i) == Pack(RconByte(i), Byte(0), Byte(0), Byte(0))
  {}

  lemma {:induction false} XorWAssoc(x: Word, y: Word, z: Word)
    ensures XorW(XorW(x, y), z) == XorW(x, XorW(y, z))
  {}

  lemma {:induction false} SameColumn(x: Word, y: Word)
    requires ColOf(x) == ColOf(y)
    ensures x == y
  {
    PackColOf(x);
    PackColOf(y);
  }

  /** The masked table entries of a word, rotated by one byte or not. */
  lemma {:induction false} MaskedSubWord(sb: SBox, t: Word)
    ensures Masked4(Te4(sb, GetByte(t, 2)), Te4(sb, GetByte(t, 1)), Te4(sb, GetByte(t, 0)), Te4(sb, GetByte(t, 3)))
            == SubWord(sb, RotWord(t))
    ensures Masked4(Te4(sb, GetByte(t, 3)), Te4(sb, GetByte(t, 2)), Te4(sb, GetByte(t, 1)), Te4(sb, GetByte(t, 0)))
            == SubWord(sb, t)
  {
    MaskedIsPack(sb.sub(GetByte(t, 2)), sb.sub(GetByte(t, 1)), sb.sub(GetByte(t, 0)), sb.sub(GetByte(t, 3)));
    MaskedIsPack(sb.sub(GetByte(t, 3)), sb.sub(GetByte(t, 2)), sb.sub(GetByte(t, 1)), sb.sub(GetByte(t, 0)));
    ColOfPack(GetByte(t, 2), GetByte(t, 1), GetByte(t, 0), GetByte(t, 3));
  }

  lemma {:induction false} MaskedIsPack(a: Byte, b: Byte, c: Byte, d: Byte)
    ensures Masked4(Pack(a, a, a, a), Pack(b, b, b, b), Pack(c, c, c, c), Pack(d, d, d, d)) == Pack(a, b, c, d)
  {
    MaskedSum(a, b, c, d);
    ColOfPack(a, b, c, d);
    SameColumn(Masked4(Pack(a, a, a, a), Pack(b, b, b, b), Pack(c, c, c, c), Pack(d, d, d, d)), Pack(a, b, c, d));
  }

  lemma {:induction false} Chain(a: Word, w: Word, x: Word, y: Word, z: Word)
    ensures XorW(XorW(XorW(XorW(a, w), x), y), z) == XorW(a, Xor4(w, x, y, z))
  {
    XorWAssoc(a, w, x);
    XorWAssoc(a, XorW(w, x), y);
    XorWAssoc(a, XorW(XorW(w, x), y), z);
  }

  lemma {:induction false} Place(at: nat, nk: nat, m: nat, j: nat)
    requires at == m * nk + j && j < nk
    ensures at / nk == m && at % nk == j
  {
    DivModUnique(at, nk, m, j);
  }

  /** The array holds the first `n` words of the schedule. */
  ghost predicate Expanded(sb: SBox, k: seq<Word>, rk: array<Word>, n: nat)
    reads rk
  {
    0 < |k| <= n <= rk.Length && forall s: Seal :: ExpandedBody(sb, k, rk[..n], n, s)
  }

  ghost predicate ExpandedBody(sb: SBox, k: seq<Word>, words: seq<Word>, n: nat, s: Seal)
    requires 0 < |k| <= n
  {
    words == Expansion(sb, k, n)
  }

  method Extend(sb: SBox, ghost k: seq<Word>, rk: array<Word>, at: nat, w: Word)
    requires Expanded(sb, k, rk, at) && at < rk.Length && w == NextWord(sb, |k|, rk[..at])
    modifies rk
    ensures Expanded(sb, k, rk, at + 1)
  {
    ghost var before := rk[..at];
    assert ExpandedBody(sb, k, before, at, Seal);
    rk[at] := w;
    assert rk[..at + 1] == before + [w];
  }

  /** A word that is the sum of its predecessor and the word `nk` places back. */
  method ExtendPlain(sb: SBox, ghost k: seq<Word>, rk: array<Word>, at: nat, nk: nat, ghost m: nat, ghost j: nat)
    requires Expanded(sb, k, rk, at) && at < rk.Length && nk == |k|
    requires at == m * nk + j && 0 < j < nk && !(nk > 6 && j == 4)
    modifies rk
    ensures Expanded(sb, k, rk, at + 1)
  {
    Place(at, nk, m, j);
    Extend(sb, k, rk, at, XorW(rk[at - nk], rk[at - 1]));
  }

  /** The first word of a group. */
  method ExtendFirst(sb: SBox, ghost k: seq<Word>, rk: array<Word>, at: nat, nk: nat, i: nat)
    requires Expanded(sb, k, rk, at) && at < rk.Length && nk == |k| && i < 10 && at == (i + 1) * nk
    modifies rk
    ensures Expanded(sb, k, rk, at + 1)
  {
    var temp := rk[at - 1];
    var w := AndW(Te4(sb, GetByte(temp, 2)), 0xff000000);
    var x := AndW(Te4(sb, GetByte(temp, 1)), 0x00ff0000);
    var y := AndW(Te4(sb, GetByte(temp, 0)), 0x0000ff00);
    var z := AndW(Te4(sb, GetByte(temp, 3)), 0x000000ff);
    Place(at, nk, i + 1, 0);
    FirstWord(sb, rk[at - nk], temp, i, w, x, y, z);
    Extend(sb, k, rk, at, XorW(XorW(XorW(XorW(XorW(rk[at - nk], w), x), y), z), Rcon(i)));
  }

  lemma {:induction false} FirstWord(sb: SBox, a: Word, temp: Word, i: nat, w: Word, x: Word, y: Word, z: Word)
    requires i < 10
    requires w == AndW(Te4(sb, GetByte(temp, 2)), 0xff000000) && x == AndW(Te4(sb, GetByte(temp, 1)), 0x00ff0000)
    requires y == AndW(Te4(sb, GetByte(temp, 0)), 0x0000ff00) && z == AndW(Te4(sb, GetByte(temp, 3)), 0x000000ff)
    ensures XorW(XorW(XorW(XorW(XorW(a, w), x), y), z), Rcon(i)) ==
            XorW(a, XorW(SubWord(sb, RotWord(temp)), Pack(RoundConstant(i + 1), Byte(0), Byte(0), Byte(0))))
  {
    Chain(a, w, x, y, z);
    MaskedSubWord(sb, temp);
    RconTable(i);
    XorWAssoc(a, Xor4(w, x, y, z), Rcon(i));
  }

  /** The middle word of a group of eight. */
  method ExtendMiddle(sb: SBox, ghost k: seq<Word>, rk: array<Word>, at: nat, ghost m: nat)
    requires Expanded(sb, k, rk, at) && at < rk.Length && 8 == |k| && at == m * 8 + 4
    modifies rk
    ensures Expanded(sb, k, rk, at + 1)
  {
    var temp := rk[at - 1];
    var w := AndW(Te4(sb, GetByte(temp, 3)), 0xff000000);
    var x := AndW(Te4(sb, GetByte(temp, 2)), 0x00ff0000);
    var y := AndW(Te4(sb, GetByte(temp, 1)), 0x0000ff00);
    var z := AndW(Te4(sb, GetByte(temp, 0)), 0x000000ff);
    Place(at, 8, m, 4);
    Chain(rk[at - 8], w, x, y, z);
    MaskedSubWord(sb, temp);
    Extend(sb, k, rk, at, XorW(XorW(XorW(XorW(rk[at - 8], w), x), y), z));
  }

  /** The four words that every key length computes at the start of a turn. */
  method ExtendFour(sb: SBox, ghost k: seq<Word>, rk: array<Word>, at: nat, nk: nat, i: nat)
    requires Expanded(sb, k, rk, at) && at + 4 <= rk.Length && 4 <= nk == |k| && i < 10 && at == (i + 1) * nk
    modifies rk
    ensures Expanded(sb, k, rk, at + 4)
  {
    ExtendFirst(sb, k, rk, at, nk, i);
    ExtendPlain(sb, k, rk, at + 1, nk, i + 1, 1);
    ExtendPlain(sb, k, rk, at + 2, nk, i + 1, 2);
    ExtendPlain(sb, k, rk, at + 3, nk, i + 1, 3);
  }

  method Expand128(sb: SBox, ghost k: seq<Word>, rk: array<Word>)
    requires |k| == 4 && rk.Length == ROOM && Expanded(sb, k, rk, 4)
    modifies rk
    ensures Expanded(sb, k, rk, 44)
  {
    var i, at := 0, 4;
    while true
      invariant i < 10 && at == (i + 1) * 4 && Expanded(sb, k, rk, at)
      decreases 10 - i
    {
      ExtendFour(sb, k, rk, at, 4, i);
      i := i + 1;
      if i == 10 {
        break;
      }
      at := at + 4;
    }
  }

  method Expand192(sb: SBox, ghost k: seq<Word>, rk: array<Word>)
    requires |k| == 6 && rk.Length == ROOM && Expanded(sb, k, rk, 6)
    modifies rk
    ensures Expanded(sb, k, rk, 52)
  {
    var i, at := 0, 6;
    while true
      invariant i < 8 && at == (i + 1) * 6 && Expanded(sb, k, rk, at)
      decreases 8 - i
    {
      ExtendFour(sb, k, rk, at, 6, i);
      i := i + 1;
      if i == 8 {
        break;
      }
      ExtendPlain(sb, k, rk, at + 4, 6, i, 4);
      ExtendPlain(sb, k, rk, at + 5, 6, i, 5);
      at := at + 6;
    }
  }

  method Expand256(sb: SBox, ghost k: seq<Word>, rk: array<Word>)
    requires |k| == 8 && rk.Length == ROOM && Expanded(sb, k, rk, 8)
    modifies rk
    ensures Expanded(sb, k, rk, 60)
  {
    var i, at := 0, 8;
    while true
      invariant i < 7 && at == (i + 1) * 8 && Expanded(sb, k, rk, at)
      decreases 7 - i
    {
      ExtendFour(sb, k, rk, at, 8, i);
      i := i + 1;
      if i == 7 {
        break;
      }
      ExtendMiddle(sb, k, rk, at + 4, i);
      ExtendPlain(sb, k, rk, at + 5, 8, i, 5);
      ExtendPlain(sb, k, rk, at + 6, 8, i, 6);
      ExtendPlain(sb, k, rk, at + 7, 8, i, 7);
      at := at + 8;
    }
  }

  /** The user key, as words of the host, reversed in place by `ByteReverseWords`. */
  method LoadKey(rk: array<Word>, key: seq<Byte>)
    requires |key| <= 4 * rk.Length && |key| % 4 == 0
    modifies rk
    ensures rk[..|key| / 4] == BeWords(key)
  {
    var n := |key| / 4;
    for j := 0 to n
      invariant forall c :: 0 <= c < j ==> rk[c] == BeWord(key, c)
    {
      ReverseLoaded(key[4 * j], key[4 * j + 1], key[4 * j + 2], key[4 * j + 3]);
      rk[j] := ByteReverse(LeWord(key, j));
    }
  }

  /** The part of `AesSetKeyLocal` before the direction matters. */
  method ExpandKey(sb: SBox, rk: array<Word>, key: seq<Byte>)
    requires rk.Length == ROOM && ValidKey(key)
    modifies rk
    ensures rk[..4 * RoundCount(key) + 4] == Expansion(sb, BeWords(key), 4 * RoundCount(key) + 4)
  {
    LoadKey(rk, key);
    ghost var k := BeWords(key);
    match |key| {
      case 16 => Expand128(sb, k, rk);
      case 24 => Expand192(sb, k, rk);
      case 32 => Expand256(sb, k, rk);
    }
    ghost var n := 4 * RoundCount(key) + 4;
    assert ExpandedBody(sb, k, rk[..n], n, Seal);
  }
}
