/** A round and the key schedule of AES byte by byte (sections 5.1 and 5.2 of FIPS 197). */
module AesBytes {
  import opened RoundCipher
  import opened AesAlgebra
  import opened AesCipher
  import opened AesTables
  import opened AesKey

  function ColAt(x: State, c: nat): Col {
    if c % 4 == 0 then x.c0 else if c % 4 == 1 then x.c1 else if c % 4 == 2 then x.c2 else x.c3
  }

  function RowOf(c: Col, r: nat): Byte {
    if r % 4 == 0 then c.r0 else if r % 4 == 1 then c.r1 else if r % 4 == 2 then c.r2 else c.r3
  }

  /** Row `r` and column `c` of the state. */
  function ByteAt(x: State, r: nat, c: nat): Byte {
    RowOf(ColAt(x, c), r)
  }

  /** Row `r` is taken from `r` columns further right. */
  lemma {:induction false} ShiftedByte(sb: SBox, x: State, r: nat, c: nat)
    requires r < 4 && c < 4
    ensures ByteAt(SubShift(sb, x), r, c) == sb.sub(ByteAt(x, r, (c + r) % 4))
  {}

  function MixedRow(a: Byte, b: Byte, c: Byte, d: Byte): Byte {
    Add(Add(Xtime(a), Add(Xtime(b), b)), Add(c, d))
  }

  lemma {:induction false} MixedRow0(c: Col)
    ensures MixColumn(c).r0 == MixedRow(c.r0, c.r1, c.r2, c.r3)
  {}

  lemma {:induction false} MixedRow1(c: Col)
    ensures MixColumn(c).r1 == MixedRow(c.r1, c.r2, c.r3, c.r0)
  {}

  lemma {:induction false} MixedRow2(c: Col)
    ensures MixColumn(c).r2 == MixedRow(c.r2, c.r3, c.r0, c.r1)
  {}

  lemma {:induction false} MixedRow3(c: Col)
    ensures MixColumn(c).r3 == MixedRow(c.r3, c.r0, c.r1, c.r2)
  {}

  /** Every byte of a mixed column is twice its own byte, three times the next and the other two. */
  lemma {:induction false} MixedColumn(c: Col, m: Col)
    requires m == MixColumn(c)
    ensures m.r0 == MixedRow(c.r0, c.r1, c.r2, c.r3) && m.r1 == MixedRow(c.r1, c.r2, c.r3, c.r0)
    ensures m.r2 == MixedRow(c.r2, c.r3, c.r0, c.r1) && m.r3 == MixedRow(c.r3, c.r0, c.r1, c.r2)
  {
    MixedRow0(c);
    MixedRow1(c);
    MixedRow2(c);
    MixedRow3(c);
  }

  // ----- the key schedule

  const CONSTANTS: seq<bv8> := [0x01, 0x02, 0x04, 0x08, 0x10, 0x20, 0x40, 0x80, 0x1B, 0x36]

  /** The first word of a group: the column before it is rotated, substituted and summed with a round constant. */
  function FirstOf(f: Byte -> Byte, a: Col, p: Col, constant: bv8): Col {
    Col(Add(a.r0, Add(f(p.r1), Byte(constant))), Add(a.r1, f(p.r2)), Add(a.r2, f(p.r3)), Add(a.r3, f(p.r0)))
  }

  /** Word `j` of group `m`, from the word `nk` places back (`a`) and the one before it (`p`). */
  function NextOf(f: Byte -> Byte, nk: nat, a: Col, p: Col, m: nat, j: nat): Col
    requires 0 < m <= 10
  {
    if j == 0 then FirstOf(f, a, p, CONSTANTS[m - 1])
    else if nk == 8 && j == 4 then Xor(a, MapCol(f, p))
    else Xor(a, p)
  }

  /** The first words of the schedule are the key. */
  lemma {:induction false} KeyWord(sb: SBox, k: seq<Word>, n: nat, i: nat)
    requires i < |k| <= n
    ensures Expansion(sb, k, n)[i] == k[i]
  {
    PrefixOf(sb, k, n, |k|);
    assert k[..|k|] == k;
    assert Expansion(sb, k, n)[..|k|][i] == k[i];
  }

  /** Word `m * nk + j` of the schedule. */
  lemma {:induction false} ScheduleWord(sb: SBox, k: seq<Word>, n: nat, nk: nat, m: nat, j: nat, i: nat)
    requires nk == |k| && (nk == 4 || nk == 6 || nk == 8)
    requires j < nk && 0 < m <= 10 && i == m * nk + j && nk <= i < n
    ensures var w := Expansion(sb, k, n); ColOf(w[i]) == NextOf(sb.sub, nk, ColOf(w[i - nk]), ColOf(w[i - 1]), m, j)
  {
    PrefixOf(sb, k, n, i + 1);
    PrefixOf(sb, k, n, i);
    LastWord(sb, k, i);
    Place(i, nk, m, j);
    var w, before, upTo := Expansion(sb, k, n), Expansion(sb, k, i), Expansion(sb, k, i + 1);
    SameWords(w, before, upTo, i, nk);
    NextColumn(sb, nk, before[i - nk], before[i - 1], m, j);
  }

  lemma {:induction false} SameWords(w: seq<Word>, before: seq<Word>, upTo: seq<Word>, i: nat, nk: nat)
    requires 0 < nk <= i < |w| && w[..i] == before && w[..i + 1] == upTo
    ensures w[i] == upTo[i] && w[i - nk] == before[i - nk] && w[i - 1] == before[i - 1]
  {}

  /** There are 11, 13 or 15 round keys, of four words of the schedule each. */
  lemma {:induction false} RoundKeyWords(sb: SBox, key: seq<Byte>, r: nat, c: nat)
    requires ValidKey(key) && c < 4
    ensures var rounds, keys := if |key| == 16 then 10 else if |key| == 24 then 12 else 14, CipherKeys(sb, key);
            && |keys| == rounds + 1
            && (r <= rounds ==>
                  ColAt(keys[r], c) == ColOf(Expansion(sb, BeWords(key), 4 * rounds + 4)[4 * r + c]))
  {}

  lemma {:induction false} LastWord(sb: SBox, k: seq<Word>, i: nat)
    requires 0 < |k| <= i
    ensures Expansion(sb, k, i + 1)[i] == NextWord(sb, |k|, Expansion(sb, k, i))
  {}

  lemma {:induction false} PrefixOf(sb: SBox, k: seq<Word>, n: nat, i: nat)
    requires 0 < |k| <= n && i <= n
    ensures |k| <= i ==> Expansion(sb, k, n)[..i] == Expansion(sb, k, i)
    ensures i <= |k| ==> Expansion(sb, k, n)[..i] == k[..i]
    decreases n
  {
    if n > |k| && i < n {
      PrefixOf(sb, k, n - 1, i);
      assert Expansion(sb, k, n)[..n - 1] == Expansion(sb, k, n - 1);
      assert Expansion(sb, k, n)[..i] == Expansion(sb, k, n - 1)[..i];
    } else if i == n {
      assert Expansion(sb, k, n)[..n] == Expansion(sb, k, n);
    }
  }

  lemma {:induction false} NextColumn(sb: SBox, nk: nat, a: Word, p: Word, m: nat, j: nat)
    requires 0 < m <= 10 && (nk == 4 || nk == 6 || nk == 8)
    ensures ColOf(XorW(a, Temp(sb, nk, m, j, p))) == NextOf(sb.sub, nk, ColOf(a), ColOf(p), m, j)
  {
    ColOfXor(a, Temp(sb, nk, m, j, p));
    if j == 0 {
      FirstColumn(sb, a, p, m);
    } else {
      SubstitutedColumn(sb, p);
    }
  }

  lemma {:induction false} SubstitutedColumn(sb: SBox, p: Word)
    ensures ColOf(SubWord(sb, p)) == MapCol(sb.sub, ColOf(p))
  {
    ColOfPack(sb.sub(GetByte(p, 3)), sb.sub(GetByte(p, 2)), sb.sub(GetByte(p, 1)), sb.sub(GetByte(p, 0)));
  }

  lemma {:induction false} RotatedColumn(p: Word)
    ensures ColOf(RotWord(p)) == Rotate(ColOf(p))
  {
    ColOfPack(GetByte(p, 2), GetByte(p, 1), GetByte(p, 0), GetByte(p, 3));
  }

  lemma {:induction false} ConstantColumn(m: nat)
    requires 0 < m <= 10
    ensures ColOf(Pack(RoundConstant(m), Byte(0), Byte(0), Byte(0))) ==
            Col(Byte(CONSTANTS[m - 1]), Byte(0), Byte(0), Byte(0))
  {
    RconBytes(m - 1);
    TabledConstant(m - 1);
    ColOfPack(RoundConstant(m), Byte(0), Byte(0), Byte(0));
  }

  lemma {:induction false} TabledConstant(i: nat)
    requires i < 10
    ensures RconByte(i) == Byte(CONSTANTS[i])
  {}

  lemma {:induction false} FirstColumn(sb: SBox, a: Word, p: Word, m: nat)
    requires 0 < m <= 10
    ensures Xor(ColOf(a), ColOf(Temp(sb, 4, m, 0, p))) == FirstOf(sb.sub, ColOf(a), ColOf(p), CONSTANTS[m - 1])
  {
    var rotated, constant := SubWord(sb, RotWord(p)), Pack(RoundConstant(m), Byte(0), Byte(0), Byte(0));
    ColOfXor(rotated, constant);
    SubstitutedColumn(sb, RotWord(p));
    RotatedColumn(p);
    ConstantColumn(m);
    FirstSum(sb.sub, ColOf(a), ColOf(p), CONSTANTS[m - 1]);
  }

  lemma {:induction false} FirstSum(f: Byte -> Byte, a: Col, p: Col, constant: bv8)
    ensures Xor(a, Xor(MapCol(f, Rotate(p)), Col(Byte(constant), Byte(0), Byte(0), Byte(0)))) ==
            FirstOf(f, a, p, constant)
  {
    AddSelf(f(p.r2));
    AddSelf(f(p.r3));
    AddSelf(f(p.r0));
  }
}
