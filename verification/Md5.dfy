/**
 * The MD5 compression function (RFC 1321, section 3.4): the optimised, unrolled steps with rotating register
 * names, against the sixty-four operations of the standard.
 */
module Md5Model {

  type Word = bv32
  type Byte = bv8

  // ----- the standard

  datatype Regs = Regs(a: Word, b: Word, c: Word, d: Word)

  function F(x: Word, y: Word, z: Word): Word { (x & y) | (!x & z) }
  function G(x: Word, y: Word, z: Word): Word { (x & z) | (y & !z) }
  function H(x: Word, y: Word, z: Word): Word { x ^ y ^ z }
  function I(x: Word, y: Word, z: Word): Word { y ^ (x | !z) }

  /** The auxiliary function of operation `i`. */
  function Aux(i: nat, x: Word, y: Word, z: Word): Word {
    if i < 16 then F(x, y, z) else if i < 32 then G(x, y, z) else if i < 48 then H(x, y, z) else I(x, y, z)
  }

  /** The message word that operation `i` uses. */
  function Index(i: nat): (k: nat)
    ensures k < 16
  {
    if i < 16 then i else if i < 32 then (5 * i + 1) % 16 else if i < 48 then (3 * i + 5) % 16 else 7 * i % 16
  }

  type ShiftAmount = s: bv6 | s <= 32

  /** The shift of operation `i`. */
  function Shift(i: nat): ShiftAmount {
    match i % 4
    case 0 => if i < 16 then 7 else if i < 32 then 5 else if i < 48 then 4 else 6
    case 1 => if i < 16 then 12 else if i < 32 then 9 else if i < 48 then 11 else 10
    case 2 => if i < 16 then 17 else if i < 32 then 14 else if i < 48 then 16 else 15
    case _ => if i < 16 then 22 else if i < 32 then 20 else if i < 48 then 23 else 21
  }

  /** The table of sines. */
  function T(i: nat): Word {
    if i < 16 then T1(i) else if i < 32 then T2(i) else if i < 48 then T3(i) else T4(i)
  }

  function T1(i: nat): Word {
    match i
    case 0 => 0xd76aa478
    case 1 => 0xe8c7b756
    case 2 => 0x242070db
    case 3 => 0xc1bdceee
    case 4 => 0xf57c0faf
    case 5 => 0x4787c62a
    case 6 => 0xa8304613
    case 7 => 0xfd469501
    case 8 => 0x698098d8
    case 9 => 0x8b44f7af
    case 10 => 0xffff5bb1
    case 11 => 0x895cd7be
    case 12 => 0x6b901122
    case 13 => 0xfd987193
    case 14 => 0xa679438e
    case _ => 0x49b40821
  }

  function T2(i: nat): Word {
    match i
    case 16 => 0xf61e2562
    case 17 => 0xc040b340
    case 18 => 0x265e5a51
    case 19 => 0xe9b6c7aa
    case 20 => 0xd62f105d
    case 21 => 0x02441453
    case 22 => 0xd8a1e681
    case 23 => 0xe7d3fbc8
    case 24 => 0x21e1cde6
    case 25 => 0xc33707d6
    case 26 => 0xf4d50d87
    case 27 => 0x455a14ed
    case 28 => 0xa9e3e905
    case 29 => 0xfcefa3f8
    case 30 => 0x676f02d9
    case _ => 0x8d2a4c8a
  }

  function T3(i: nat): Word {
    match i
    case 32 => 0xfffa3942
    case 33 => 0x8771f681
    case 34 => 0x6d9d6122
    case 35 => 0xfde5380c
    case 36 => 0xa4beea44
    case 37 => 0x4bdecfa9
    case 38 => 0xf6bb4b60
    case 39 => 0xbebfbc70
    case 40 => 0x289b7ec6
    case 41 => 0xeaa127fa
    case 42 => 0xd4ef3085
    case 43 => 0x04881d05
    case 44 => 0xd9d4d039
    case 45 => 0xe6db99e5
    case 46 => 0x1fa27cf8
    case _ => 0xc4ac5665
  }

  function T4(i: nat): Word {
    match i
    case 48 => 0xf4292244
    case 49 => 0x432aff97
    case 50 => 0xab9423a7
    case 51 => 0xfc93a039
    case 52 => 0x655b59c3
    case 53 => 0x8f0ccc92
    case 54 => 0xffeff47d
    case 55 => 0x85845dd1
    case 56 => 0x6fa87e4f
    case 57 => 0xfe2ce6e0
    case 58 => 0xa3014314
    case 59 => 0x4e0811a1
    case 60 => 0xf7537e82
    case 61 => 0xbd3af235
    case 62 => 0x2ad7d2bb
    case _ => 0xeb86d391
  }

  /** What distinguishes one operation from another: message word, constant and shift. */
  datatype Op = Op(k: nat, t: Word, s: ShiftAmount)

  function Entry(i: nat): Op {
    Op(Index(i), T(i), Shift(i))
  }

  function Table(): (t: seq<Op>)
    ensures ValidTable(t)
  {
    seq(64, i requires 0 <= i => Entry(i))
  }

  predicate ValidTable(t: seq<Op>) {
    |t| == 64 && forall i :: 0 <= i < 64 ==> t[i].k < 16
  }

  function Rol(x: Word, s: ShiftAmount): Word {
    (x << s) | (x >> (32 - s))
  }

  /** The value that an operation computes. */
  function StandardValue(f: Word, a: Word, b: Word, x: Word, t: Word, s: ShiftAmount): Word {
    b + Rol(a + f + x + t, s)
  }

  /** The same with the addends in the order of the code. */
  function Value(f: Word, a: Word, b: Word, x: Word, t: Word, s: ShiftAmount): Word {
    Rol(a + (f + x + t), s) + b
  }


  lemma {:induction false} ValueOrder(f: Word, a: Word, b: Word, x: Word, t: Word, s: ShiftAmount)
    ensures Value(f, a, b, x, t, s) == StandardValue(f, a, b, x, t, s)
  {
    AddendOrder(f, a, x, t);
    SumOrder(b, Rol(a + f + x + t, s));
  }

  lemma {:induction false} AddendOrder(f: Word, a: Word, x: Word, t: Word)
    ensures a + (f + x + t) == a + f + x + t
  {}

  lemma {:induction false} SumOrder(a: Word, b: Word)
    ensures a + b == b + a
  {}

  type Block = b: seq<Byte> | |b| == 64 witness seq(64, i => 0)
  type Words = x: seq<Word> | |x| == 16 witness seq(16, i => 0)

  function Le(b0: Byte, b1: Byte, b2: Byte, b3: Byte): Word {
    (b3 as Word << 24) | (b2 as Word << 16) | (b1 as Word << 8) | (b0 as Word)
  }

  /** A block as sixteen little-endian words. */
  function WordsOf(m: Block): Words {
    seq(16, k requires 0 <= k < 16 => Le(m[4 * k], m[4 * k + 1], m[4 * k + 2], m[4 * k + 3]))
  }

  /** Operation `i`; afterwards the registers have moved on by one name. */
  function Operation(i: nat, r: Regs, x: Words, op: Op): Regs
    requires op.k < 16
  {
    Regs(r.d, StandardValue(Aux(i, r.b, r.c, r.d), r.a, r.b, x[op.k], op.t, op.s), r.b, r.c)
  }

  /** The registers after the first `n` operations of a table. */
  function Operations(h: Regs, x: Words, tab: seq<Op>, n: nat): Regs
    requires ValidTable(tab) && n <= 64
  {
    if n == 0 then h else Operation(n - 1, Operations(h, x, tab, n - 1), x, tab[n - 1])
  }

  function Add(x: Regs, y: Regs): Regs {
    Regs(x.a + y.a, x.b + y.b, x.c + y.c, x.d + y.d)
  }

  function Compress(h: Regs, m: Block): Regs {
    Add(h, Operations(h, WordsOf(m), Table(), 64))
  }

  // ----- the code

  lemma {:induction false} OptimisedF(x: Word, y: Word, z: Word)
    ensures z ^ (x & (y ^ z)) == F(x, y, z)
  {}

  lemma {:induction false} OptimisedG(x: Word, y: Word, z: Word)
    ensures y ^ (z & (x ^ y)) == G(x, y, z)
  {}

  lemma {:induction false} OptimisedH(x: Word, y: Word, z: Word)
    ensures (x ^ y) ^ z == H(x, y, z) && x ^ (y ^ z) == H(x, y, z)
  {}

  /** One state follows from the one before by operation `i`. */
  ghost predicate Follows(s: seq<Regs>, x: Words, tab: seq<Op>, i: nat)
    requires ValidTable(tab) && |s| == 65 && i < 64
  {
    s[i + 1] == Operation(i, s[i], x, tab[i])
  }

  /** `s` lists the registers after 0, 1, ..., 64 operations. */
  ghost predicate IsTrace(s: seq<Regs>, x: Words, tab: seq<Op>) {
    ValidTable(tab) && |s| == 65 && forall i: nat :: i < 64 ==> Follows(s, x, tab, i)
  }

  ghost function Trace(h: Regs, x: Words, tab: seq<Op>): (s: seq<Regs>)
    requires ValidTable(tab)
    ensures IsTrace(s, x, tab) && s[0] == h && s[64] == Operations(h, x, tab, 64)
  {
    var s := seq(65, i requires 0 <= i < 65 => Operations(h, x, tab, i));
    assert forall i: nat :: i < 64 ==> Follows(s, x, tab, i);
    s
  }

  lemma {:induction false} Next(r: Regs, s: seq<Regs>, x: Words, tab: seq<Op>, i: nat, r': Regs)
    requires IsTrace(s, x, tab) && i < 64 && r == s[i] && r' == Operation(i, r, x, tab[i])
    ensures r' == s[i + 1]
  {
    assert Follows(s, x, tab, i);
  }

  /** `STEP` with each of the auxiliary macros: only the first register changes. */
  method StepF(a: Word, b: Word, c: Word, d: Word, op: Op, x: Words, ghost i: nat) returns (a': Word)
    requires i < 16 && op.k < 16
    ensures Regs(d, a', b, c) == Operation(i, Regs(a, b, c, d), x, op)
  {
    OptimisedF(b, c, d);
    a' := Value(d ^ (b & (c ^ d)), a, b, x[op.k], op.t, op.s);
    ValueOrder(d ^ (b & (c ^ d)), a, b, x[op.k], op.t, op.s);
  }

  method StepG(a: Word, b: Word, c: Word, d: Word, op: Op, x: Words, ghost i: nat) returns (a': Word)
    requires 16 <= i < 32 && op.k < 16
    ensures Regs(d, a', b, c) == Operation(i, Regs(a, b, c, d), x, op)
  {
    OptimisedG(b, c, d);
    a' := Value(c ^ (d & (b ^ c)), a, b, x[op.k], op.t, op.s);
    ValueOrder(c ^ (d & (b ^ c)), a, b, x[op.k], op.t, op.s);
  }

  method StepH(a: Word, b: Word, c: Word, d: Word, op: Op, x: Words, ghost i: nat) returns (a': Word)
    requires 32 <= i < 48 && op.k < 16
    ensures Regs(d, a', b, c) == Operation(i, Regs(a, b, c, d), x, op)
  {
    OptimisedH(b, c, d);
    a' := Value((b ^ c) ^ d, a, b, x[op.k], op.t, op.s);
    ValueOrder((b ^ c) ^ d, a, b, x[op.k], op.t, op.s);
  }

  method StepH2(a: Word, b: Word, c: Word, d: Word, op: Op, x: Words, ghost i: nat) returns (a': Word)
    requires 32 <= i < 48 && op.k < 16
    ensures Regs(d, a', b, c) == Operation(i, Regs(a, b, c, d), x, op)
  {
    OptimisedH(b, c, d);
    a' := Value(b ^ (c ^ d), a, b, x[op.k], op.t, op.s);
    ValueOrder(b ^ (c ^ d), a, b, x[op.k], op.t, op.s);
  }

  method StepI(a: Word, b: Word, c: Word, d: Word, op: Op, x: Words, ghost i: nat) returns (a': Word)
    requires 48 <= i < 64 && op.k < 16
    ensures Regs(d, a', b, c) == Operation(i, Regs(a, b, c, d), x, op)
  {
    a' := Value(c ^ (b | !d), a, b, x[op.k], op.t, op.s);
    ValueOrder(c ^ (b | !d), a, b, x[op.k], op.t, op.s);
  }

  /** Four steps of round 1, after which every register has its own name again. */
  method Four1(a0: Word, b0: Word, c0: Word, d0: Word, i: nat, op0: Op, op1: Op, op2: Op, op3: Op, x: Words,
               ghost s: seq<Regs>, ghost tab: seq<Op>)
    returns (a: Word, b: Word, c: Word, d: Word)
    requires 0 <= i && i + 4 <= 16 && IsTrace(s, x, tab) && Regs(a0, b0, c0, d0) == s[i]
    requires tab[i] == op0 && tab[i + 1] == op1 && tab[i + 2] == op2 && tab[i + 3] == op3
    ensures Regs(a, b, c, d) == s[i + 4]
  {
    a, b, c, d := a0, b0, c0, d0;
    ghost var r0 := Regs(a, b, c, d);
    a := StepF(a, b, c, d, op0, x, i);
    Next(r0, s, x, tab, i, Regs(d, a, b, c));
    ghost var r1 := Regs(d, a, b, c);
    d := StepF(d, a, b, c, op1, x, i + 1);
    Next(r1, s, x, tab, i + 1, Regs(c, d, a, b));
    ghost var r2 := Regs(c, d, a, b);
    c := StepF(c, d, a, b, op2, x, i + 2);
    Next(r2, s, x, tab, i + 2, Regs(b, c, d, a));
    ghost var r3 := Regs(b, c, d, a);
    b := StepF(b, c, d, a, op3, x, i + 3);
    Next(r3, s, x, tab, i + 3, Regs(a, b, c, d));
  }

  /** Four steps of round 2, after which every register has its own name again. */
  method Four2(a0: Word, b0: Word, c0: Word, d0: Word, i: nat, op0: Op, op1: Op, op2: Op, op3: Op, x: Words,
               ghost s: seq<Regs>, ghost tab: seq<Op>)
    returns (a: Word, b: Word, c: Word, d: Word)
    requires 16 <= i && i + 4 <= 32 && IsTrace(s, x, tab) && Regs(a0, b0, c0, d0) == s[i]
    requires tab[i] == op0 && tab[i + 1] == op1 && tab[i + 2] == op2 && tab[i + 3] == op3
    ensures Regs(a, b, c, d) == s[i + 4]
  {
    a, b, c, d := a0, b0, c0, d0;
    ghost var r0 := Regs(a, b, c, d);
    a := StepG(a, b, c, d, op0, x, i);
    Next(r0, s, x, tab, i, Regs(d, a, b, c));
    ghost var r1 := Regs(d, a, b, c);
    d := StepG(d, a, b, c, op1, x, i + 1);
    Next(r1, s, x, tab, i + 1, Regs(c, d, a, b));
    ghost var r2 := Regs(c, d, a, b);
    c := StepG(c, d, a, b, op2, x, i + 2);
    Next(r2, s, x, tab, i + 2, Regs(b, c, d, a));
    ghost var r3 := Regs(b, c, d, a);
    b := StepG(b, c, d, a, op3, x, i + 3);
    Next(r3, s, x, tab, i + 3, Regs(a, b, c, d));
  }

  /** Four steps of round 3, after which every register has its own name again. */
  method Four3(a0: Word, b0: Word, c0: Word, d0: Word, i: nat, op0: Op, op1: Op, op2: Op, op3: Op, x: Words,
               ghost s: seq<Regs>, ghost tab: seq<Op>)
    returns (a: Word, b: Word, c: Word, d: Word)
    requires 32 <= i && i + 4 <= 48 && IsTrace(s, x, tab) && Regs(a0, b0, c0, d0) == s[i]
    requires tab[i] == op0 && tab[i + 1] == op1 && tab[i + 2] == op2 && tab[i + 3] == op3
    ensures Regs(a, b, c, d) == s[i + 4]
  {
    a, b, c, d := a0, b0, c0, d0;
    ghost var r0 := Regs(a, b, c, d);
    a := StepH(a, b, c, d, op0, x, i);
    Next(r0, s, x, tab, i, Regs(d, a, b, c));
    ghost var r1 := Regs(d, a, b, c);
    d := StepH2(d, a, b, c, op1, x, i + 1);
    Next(r1, s, x, tab, i + 1, Regs(c, d, a, b));
    ghost var r2 := Regs(c, d, a, b);
    c := StepH(c, d, a, b, op2, x, i + 2);
    Next(r2, s, x, tab, i + 2, Regs(b, c, d, a));
    ghost var r3 := Regs(b, c, d, a);
    b := StepH2(b, c, d, a, op3, x, i + 3);
    Next(r3, s, x, tab, i + 3, Regs(a, b, c, d));
  }

  /** Four steps of round 4, after which every register has its own name again. */
  method Four4(a0: Word, b0: Word, c0: Word, d0: Word, i: nat, op0: Op, op1: Op, op2: Op, op3: Op, x: Words,
               ghost s: seq<Regs>, ghost tab: seq<Op>)
    returns (a: Word, b: Word, c: Word, d: Word)
    requires 48 <= i && i + 4 <= 64 && IsTrace(s, x, tab) && Regs(a0, b0, c0, d0) == s[i]
    requires tab[i] == op0 && tab[i + 1] == op1 && tab[i + 2] == op2 && tab[i + 3] == op3
    ensures Regs(a, b, c, d) == s[i + 4]
  {
    a, b, c, d := a0, b0, c0, d0;
    ghost var r0 := Regs(a, b, c, d);
    a := StepI(a, b, c, d, op0, x, i);
    Next(r0, s, x, tab, i, Regs(d, a, b, c));
    ghost var r1 := Regs(d, a, b, c);
    d := StepI(d, a, b, c, op1, x, i + 1);
    Next(r1, s, x, tab, i + 1, Regs(c, d, a, b));
    ghost var r2 := Regs(c, d, a, b);
    c := StepI(c, d, a, b, op2, x, i + 2);
    Next(r2, s, x, tab, i + 2, Regs(b, c, d, a));
    ghost var r3 := Regs(b, c, d, a);
    b := StepI(b, c, d, a, op3, x, i + 3);
    Next(r3, s, x, tab, i + 3, Regs(a, b, c, d));
  }

  /** The table entries that the code spells out. */
  lemma {:induction false} TableEntry(i: nat)
    requires i < 64
    ensures Table()[i] == Entry(i)
  {}

  method Round1a(a0: Word, b0: Word, c0: Word, d0: Word, x: Words, ghost s: seq<Regs>, ghost tab: seq<Op>)
    returns (a: Word, b: Word, c: Word, d: Word)
    requires IsTrace(s, x, tab) && Regs(a0, b0, c0, d0) == s[0]
    requires forall i :: 0 <= i < 64 ==> tab[i] == Entry(i)
    ensures Regs(a, b, c, d) == s[8]
  {
    a, b, c, d := Four1(a0, b0, c0, d0, 0,
      Op(0, 0xd76aa478, 7),
      Op(1, 0xe8c7b756, 12),
      Op(2, 0x242070db, 17),
      Op(3, 0xc1bdceee, 22),
      x, s, tab);
    a, b, c, d := Four1(a, b, c, d, 4,
      Op(4, 0xf57c0faf, 7),
      Op(5, 0x4787c62a, 12),
      Op(6, 0xa8304613, 17),
      Op(7, 0xfd469501, 22),
      x, s, tab);
  }

  method Round1b(a0: Word, b0: Word, c0: Word, d0: Word, x: Words, ghost s: seq<Regs>, ghost tab: seq<Op>)
    returns (a: Word, b: Word, c: Word, d: Word)
    requires IsTrace(s, x, tab) && Regs(a0, b0, c0, d0) == s[8]
    requires forall i :: 0 <= i < 64 ==> tab[i] == Entry(i)
    ensures Regs(a, b, c, d) == s[16]
  {
    a, b, c, d := Four1(a0, b0, c0, d0, 8,
      Op(8, 0x698098d8, 7),
      Op(9, 0x8b44f7af, 12),
      Op(10, 0xffff5bb1, 17),
      Op(11, 0x895cd7be, 22),
      x, s, tab);
    a, b, c, d := Four1(a, b, c, d, 12,
      Op(12, 0x6b901122, 7),
      Op(13, 0xfd987193, 12),
      Op(14, 0xa679438e, 17),
      Op(15, 0x49b40821, 22),
      x, s, tab);
  }

  method Round2a(a0: Word, b0: Word, c0: Word, d0: Word, x: Words, ghost s: seq<Regs>, ghost tab: seq<Op>)
    returns (a: Word, b: Word, c: Word, d: Word)
    requires IsTrace(s, x, tab) && Regs(a0, b0, c0, d0) == s[16]
    requires forall i :: 0 <= i < 64 ==> tab[i] == Entry(i)
    ensures Regs(a, b, c, d) == s[24]
  {
    a, b, c, d := Four2(a0, b0, c0, d0, 16,
      Op(1, 0xf61e2562, 5),
      Op(6, 0xc040b340, 9),
      Op(11, 0x265e5a51, 14),
      Op(0, 0xe9b6c7aa, 20),
      x, s, tab);
    a, b, c, d := Four2(a, b, c, d, 20,
      Op(5, 0xd62f105d, 5),
      Op(10, 0x02441453, 9),
      Op(15, 0xd8a1e681, 14),
      Op(4, 0xe7d3fbc8, 20),
      x, s, tab);
  }

  method Round2b(a0: Word, b0: Word, c0: Word, d0: Word, x: Words, ghost s: seq<Regs>, ghost tab: seq<Op>)
    returns (a: Word, b: Word, c: Word, d: Word)
    requires IsTrace(s, x, tab) && Regs(a0, b0, c0, d0) == s[24]
    requires forall i :: 0 <= i < 64 ==> tab[i] == Entry(i)
    ensures Regs(a, b, c, d) == s[32]
  {
    a, b, c, d := Four2(a0, b0, c0, d0, 24,
      Op(9, 0x21e1cde6, 5),
      Op(14, 0xc33707d6, 9),
      Op(3, 0xf4d50d87, 14),
      Op(8, 0x455a14ed, 20),
      x, s, tab);
    a, b, c, d := Four2(a, b, c, d, 28,
      Op(13, 0xa9e3e905, 5),
      Op(2, 0xfcefa3f8, 9),
      Op(7, 0x676f02d9, 14),
      Op(12, 0x8d2a4c8a, 20),
      x, s, tab);
  }

  method Round3a(a0: Word, b0: Word, c0: Word, d0: Word, x: Words, ghost s: seq<Regs>, ghost tab: seq<Op>)
    returns (a: Word, b: Word, c: Word, d: Word)
    requires IsTrace(s, x, tab) && Regs(a0, b0, c0, d0) == s[32]
    requires forall i :: 0 <= i < 64 ==> tab[i] == Entry(i)
    ensures Regs(a, b, c, d) == s[40]
  {
    a, b, c, d := Four3(a0, b0, c0, d0, 32,
      Op(5, 0xfffa3942, 4),
      Op(8, 0x8771f681, 11),
      Op(11, 0x6d9d6122, 16),
      Op(14, 0xfde5380c, 23),
      x, s, tab);
    a, b, c, d := Four3(a, b, c, d, 36,
      Op(1, 0xa4beea44, 4),
      Op(4, 0x4bdecfa9, 11),
      Op(7, 0xf6bb4b60, 16),
      Op(10, 0xbebfbc70, 23),
      x, s, tab);
  }

  method Round3b(a0: Word, b0: Word, c0: Word, d0: Word, x: Words, ghost s: seq<Regs>, ghost tab: seq<Op>)
    returns (a: Word, b: Word, c: Word, d: Word)
    requires IsTrace(s, x, tab) && Regs(a0, b0, c0, d0) == s[40]
    requires forall i :: 0 <= i < 64 ==> tab[i] == Entry(i)
    ensures Regs(a, b, c, d) == s[48]
  {
    a, b, c, d := Four3(a0, b0, c0, d0, 40,
      Op(13, 0x289b7ec6, 4),
      Op(0, 0xeaa127fa, 11),
      Op(3, 0xd4ef3085, 16),
      Op(6, 0x04881d05, 23),
      x, s, tab);
    a, b, c, d := Four3(a, b, c, d, 44,
      Op(9, 0xd9d4d039, 4),
      Op(12, 0xe6db99e5, 11),
      Op(15, 0x1fa27cf8, 16),
      Op(2, 0xc4ac5665, 23),
      x, s, tab);
  }

  method Round4a(a0: Word, b0: Word, c0: Word, d0: Word, x: Words, ghost s: seq<Regs>, ghost tab: seq<Op>)
    returns (a: Word, b: Word, c: Word, d: Word)
    requires IsTrace(s, x, tab) && Regs(a0, b0, c0, d0) == s[48]
    requires forall i :: 0 <= i < 64 ==> tab[i] == Entry(i)
    ensures Regs(a, b, c, d) == s[56]
  {
    a, b, c, d := Four4(a0, b0, c0, d0, 48,
      Op(0, 0xf4292244, 6),
      Op(7, 0x432aff97, 10),
      Op(14, 0xab9423a7, 15),
      Op(5, 0xfc93a039, 21),
      x, s, tab);
    a, b, c, d := Four4(a, b, c, d, 52,
      Op(12, 0x655b59c3, 6),
      Op(3, 0x8f0ccc92, 10),
      Op(10, 0xffeff47d, 15),
      Op(1, 0x85845dd1, 21),
      x, s, tab);
  }

  method Round4b(a0: Word, b0: Word, c0: Word, d0: Word, x: Words, ghost s: seq<Regs>, ghost tab: seq<Op>)
    returns (a: Word, b: Word, c: Word, d: Word)
    requires IsTrace(s, x, tab) && Regs(a0, b0, c0, d0) == s[56]
    requires forall i :: 0 <= i < 64 ==> tab[i] == Entry(i)
    ensures Regs(a, b, c, d) == s[64]
  {
    a, b, c, d := Four4(a0, b0, c0, d0, 56,
      Op(8, 0x6fa87e4f, 6),
      Op(15, 0xfe2ce6e0, 10),
      Op(6, 0xa3014314, 15),
      Op(13, 0x4e0811a1, 21),
      x, s, tab);
    a, b, c, d := Four4(a, b, c, d, 60,
      Op(4, 0xf7537e82, 6),
      Op(11, 0xbd3af235, 10),
      Op(2, 0x2ad7d2bb, 15),
      Op(9, 0xeb86d391, 21),
      x, s, tab);
  }

  /** One turn of the loop of `body` computes the compression function of the standard. */
  method BodyBlock(h: Regs, m: Block) returns (h': Regs)
    ensures h' == Compress(h, m)
  {
    var x := WordsOf(m);
    ghost var tab := Table();
    ghost var s := Trace(h, x, tab);
    forall i | 0 <= i < 64 ensures tab[i] == Entry(i) {
      TableEntry(i);
    }
    var a, b, c, d := Round1a(h.a, h.b, h.c, h.d, x, s, tab);
    a, b, c, d := Round1b(a, b, c, d, x, s, tab);
    a, b, c, d := Round2a(a, b, c, d, x, s, tab);
    a, b, c, d := Round2b(a, b, c, d, x, s, tab);
    a, b, c, d := Round3a(a, b, c, d, x, s, tab);
    a, b, c, d := Round3b(a, b, c, d, x, s, tab);
    a, b, c, d := Round4a(a, b, c, d, x, s, tab);
    a, b, c, d := Round4b(a, b, c, d, x, s, tab);
    h' := Add(h, Regs(a, b, c, d));
  }
}
