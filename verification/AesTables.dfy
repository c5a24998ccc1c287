/** Words, the lookup tables `Te` and `Td`, and the columns computed from them. */
module AesTables {
  import opened AesAlgebra
  import opened AesCipher

  datatype Word = Word(v: bv32)

  function XorW(x: Word, y: Word): Word {
    Word(x.v ^ y.v)
  }

  function AndW(x: Word, mask: bv32): Word {
    Word(x.v & mask)
  }

  /** Four bytes, most significant first. */
  function Pack(b3: Byte, b2: Byte, b1: Byte, b0: Byte): Word {
    Word((b3.v as bv32 << 24) | (b2.v as bv32 << 16) | (b1.v as bv32 << 8) | (b0.v as bv32))
  }

  /** `GETBYTE`. */
  function GetByte(x: Word, y: nat): Byte
    requires y < 4
  {
    match y
    case 0 => Byte((x.v & 0xff) as bv8)
    case 1 => Byte(((x.v >> 8) & 0xff) as bv8)
    case 2 => Byte(((x.v >> 16) & 0xff) as bv8)
    case _ => Byte((x.v >> 24) as bv8)
  }

  /** A word as a column of the state: its most significant byte is the first row. */
  function ColOf(w: Word): Col {
    Col(GetByte(w, 3), GetByte(w, 2), GetByte(w, 1), GetByte(w, 0))
  }

  lemma {:induction false} ColOfPack(b3: Byte, b2: Byte, b1: Byte, b0: Byte)
    ensures ColOf(Pack(b3, b2, b1, b0)) == Col(b3, b2, b1, b0)
  {}

  lemma {:induction false} PackColOf(w: Word)
    ensures Pack(GetByte(w, 3), GetByte(w, 2), GetByte(w, 1), GetByte(w, 0)) == w
  {}

  lemma {:induction false} ColOfXor(x: Word, y: Word)
    ensures ColOf(XorW(x, y)) == Xor(ColOf(x), ColOf(y))
  {
    ByteXor0(x, y);
    ByteXor1(x, y);
    ByteXor2(x, y);
    ByteXor3(x, y);
  }

  lemma {:induction false} ByteXor0(x: Word, y: Word)
    ensures GetByte(XorW(x, y), 0) == Add(GetByte(x, 0), GetByte(y, 0))
  {}

  lemma {:induction false} ByteXor1(x: Word, y: Word)
    ensures GetByte(XorW(x, y), 1) == Add(GetByte(x, 1), GetByte(y, 1))
  {}

  lemma {:induction false} ByteXor2(x: Word, y: Word)
    ensures GetByte(XorW(x, y), 2) == Add(GetByte(x, 2), GetByte(y, 2))
  {}

  lemma {:induction false} ByteXor3(x: Word, y: Word)
    ensures GetByte(XorW(x, y), 3) == Add(GetByte(x, 3), GetByte(y, 3))
  {}

  lemma {:induction false} ColOfMasked(b: Byte)
    ensures ColOf(AndW(Pack(b, b, b, b), 0xff000000)) == Col(b, Byte(0), Byte(0), Byte(0))
    ensures ColOf(AndW(Pack(b, b, b, b), 0x00ff0000)) == Col(Byte(0), b, Byte(0), Byte(0))
  {}

  lemma {:induction false} ColOfMaskedLow(b: Byte)
    ensures ColOf(AndW(Pack(b, b, b, b), 0x0000ff00)) == Col(Byte(0), Byte(0), b, Byte(0))
    ensures ColOf(AndW(Pack(b, b, b, b), 0x000000ff)) == Col(Byte(0), Byte(0), Byte(0), b)
  {}

  // ----- the tables, from the S-box and doubling

  function Times3(s: Byte): Byte { Add(Xtime(s), s) }
  function Times9(s: Byte): Byte { Add(Xtime(Xtime(Xtime(s))), s) }
  function Times11(s: Byte): Byte { Add(Add(Xtime(Xtime(Xtime(s))), Xtime(s)), s) }
  function Times13(s: Byte): Byte { Add(Add(Xtime(Xtime(Xtime(s))), Xtime(Xtime(s))), s) }
  function Times14(s: Byte): Byte { Add(Add(Xtime(Xtime(Xtime(s))), Xtime(Xtime(s))), Xtime(s)) }

  /** `Te[0]` to `Te[3]`: the S-box value times 2, 1, 1, 3, rotated. */
  function Te0(sb: SBox, b: Byte): Word { var s := sb.sub(b); Pack(Xtime(s), s, s, Times3(s)) }
  function Te1(sb: SBox, b: Byte): Word { var s := sb.sub(b); Pack(Times3(s), Xtime(s), s, s) }
  function Te2(sb: SBox, b: Byte): Word { var s := sb.sub(b); Pack(s, Times3(s), Xtime(s), s) }
  function Te3(sb: SBox, b: Byte): Word { var s := sb.sub(b); Pack(s, s, Times3(s), Xtime(s)) }
  function Te4(sb: SBox, b: Byte): Word { var s := sb.sub(b); Pack(s, s, s, s) }

  /** `Td[0]` to `Td[3]`: the inverse S-box value times 14, 9, 13, 11, rotated. */
  function Td0(sb: SBox, b: Byte): Word { var s := sb.inv(b); Pack(Times14(s), Times9(s), Times13(s), Times11(s)) }
  function Td1(sb: SBox, b: Byte): Word { var s := sb.inv(b); Pack(Times11(s), Times14(s), Times9(s), Times13(s)) }
  function Td2(sb: SBox, b: Byte): Word { var s := sb.inv(b); Pack(Times13(s), Times11(s), Times14(s), Times9(s)) }
  function Td3(sb: SBox, b: Byte): Word { var s := sb.inv(b); Pack(Times9(s), Times13(s), Times11(s), Times14(s)) }
  function Td4(sb: SBox, b: Byte): Word { var s := sb.inv(b); Pack(s, s, s, s) }

  // ----- sums of table entries

  function Xor4(w: Word, x: Word, y: Word, z: Word): Word {
    XorW(XorW(XorW(w, x), y), z)
  }

  lemma {:induction false} ColOfXor4(w: Word, x: Word, y: Word, z: Word)
    ensures ColOf(Xor4(w, x, y, z)) == Xor(Xor(Xor(ColOf(w), ColOf(x)), ColOf(y)), ColOf(z))
  {
    ColOfXor(w, x);
    ColOfXor(XorW(w, x), y);
    ColOfXor(XorW(XorW(w, x), y), z);
  }

  function Sum4(a: Byte, b: Byte, c: Byte, d: Byte): Byte {
    Add(Add(Add(a, b), c), d)
  }

  lemma {:induction false} RotateSum(a: Byte, b: Byte, c: Byte, d: Byte)
    ensures Sum4(a, b, c, d) == Sum4(b, c, d, a)
  {
    AddAssoc(a, b, c);
    AddAssoc(a, Add(b, c), d);
    AddComm(a, Add(Add(b, c), d));
  }

  /** A column of rows two steps and one step apart. */
  lemma {:induction false} RotatedSums(a: Byte, b: Byte, c: Byte, d: Byte)
    ensures Sum4(a, b, c, d) == Sum4(b, c, d, a) == Sum4(c, d, a, b) == Sum4(d, a, b, c)
  {
    RotateSum(a, b, c, d);
    RotateSum(b, c, d, a);
    RotateSum(c, d, a, b);
  }

  lemma {:induction false} MixRows(c: Col)
    ensures MixColumn(c) ==
            Col(Sum4(Xtime(c.r0), Times3(c.r1), c.r2, c.r3), Sum4(Xtime(c.r1), Times3(c.r2), c.r3, c.r0),
                Sum4(Xtime(c.r2), Times3(c.r3), c.r0, c.r1), Sum4(Xtime(c.r3), Times3(c.r0), c.r1, c.r2))
  {}

  lemma {:induction false} InvMixRows(c: Col)
    ensures InvMixColumn(c) ==
            Col(Sum4(Times14(c.r0), Times11(c.r1), Times13(c.r2), Times9(c.r3)),
                Sum4(Times14(c.r1), Times11(c.r2), Times13(c.r3), Times9(c.r0)),
                Sum4(Times14(c.r2), Times11(c.r3), Times13(c.r0), Times9(c.r1)),
                Sum4(Times14(c.r3), Times11(c.r0), Times13(c.r1), Times9(c.r2)))
  {}

  /** The sum of one entry from each of the four encryption tables is a mixed column. */
  lemma {:induction false} TeSum(sb: SBox, a: Byte, b: Byte, c: Byte, d: Byte)
    ensures ColOf(Xor4(Te0(sb, a), Te1(sb, b), Te2(sb, c), Te3(sb, d)))
            == MixColumn(Col(sb.sub(a), sb.sub(b), sb.sub(c), sb.sub(d)))
  {
    var p, q, r, s := sb.sub(a), sb.sub(b), sb.sub(c), sb.sub(d);
    ColOfXor4(Te0(sb, a), Te1(sb, b), Te2(sb, c), Te3(sb, d));
    ColOfPack(Xtime(p), p, p, Times3(p));
    ColOfPack(Times3(q), Xtime(q), q, q);
    ColOfPack(r, Times3(r), Xtime(r), r);
    ColOfPack(s, s, Times3(s), Xtime(s));
    MixRows(Col(p, q, r, s));
    RotatedSums(p, Xtime(q), Times3(r), s);
    RotatedSums(p, q, Xtime(r), Times3(s));
    RotatedSums(Times3(p), q, r, Xtime(s));
  }

  lemma {:induction false} TdSum(sb: SBox, a: Byte, b: Byte, c: Byte, d: Byte)
    ensures ColOf(Xor4(Td0(sb, a), Td1(sb, b), Td2(sb, c), Td3(sb, d)))
            == InvMixColumn(Col(sb.inv(a), sb.inv(b), sb.inv(c), sb.inv(d)))
  {
    var p, q, r, s := sb.inv(a), sb.inv(b), sb.inv(c), sb.inv(d);
    ColOfXor4(Td0(sb, a), Td1(sb, b), Td2(sb, c), Td3(sb, d));
    ColOfPack(Times14(p), Times9(p), Times13(p), Times11(p));
    ColOfPack(Times11(q), Times14(q), Times9(q), Times13(q));
    ColOfPack(Times13(r), Times11(r), Times14(r), Times9(r));
    ColOfPack(Times9(s), Times13(s), Times11(s), Times14(s));
    InvMixRows(Col(p, q, r, s));
    RotatedSums(Times9(p), Times14(q), Times11(r), Times13(s));
    RotatedSums(Times13(p), Times9(q), Times14(r), Times11(s));
    RotatedSums(Times11(p), Times13(q), Times9(r), Times14(s));
  }

  /** One byte from each of four masked words. */
  function Masked4(w: Word, x: Word, y: Word, z: Word): Word {
    Xor4(AndW(w, 0xff000000), AndW(x, 0x00ff0000), AndW(y, 0x0000ff00), AndW(z, 0x000000ff))
  }

  lemma {:induction false} MaskedSum(a: Byte, b: Byte, c: Byte, d: Byte)
    ensures ColOf(Masked4(Pack(a, a, a, a), Pack(b, b, b, b), Pack(c, c, c, c), Pack(d, d, d, d))) == Col(a, b, c, d)
  {
    var w, x := AndW(Pack(a, a, a, a), 0xff000000), AndW(Pack(b, b, b, b), 0x00ff0000);
    var y, z := AndW(Pack(c, c, c, c), 0x0000ff00), AndW(Pack(d, d, d, d), 0x000000ff);
    ColOfXor4(w, x, y, z);
    ColOfMasked(a);
    ColOfMasked(b);
    ColOfMaskedLow(c);
    ColOfMaskedLow(d);
    SingleByte(a);
    SingleByte(b);
    SingleByte(c);
    SingleByte(d);
  }

  lemma {:induction false} SingleByte(a: Byte)
    ensures Add(a, Byte(0)) == a && Add(Byte(0), a) == a
  {}
}
