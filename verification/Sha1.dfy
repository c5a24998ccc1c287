/**
 * The SHA-1 compression function: the unrolled rounds with rotating register names over a 16-word block that
 * is expanded in place, against the 80-word schedule of section 6.1.2 of FIPS 180-4.
 */
module Sha1Model {
  import opened Common

  type Word = bv32
  type Byte = bv8

  // ----- the standard

  datatype Regs = Regs(a: Word, b: Word, c: Word, d: Word, e: Word)

  function Rol1(x: Word): Word { (x << 1) | (x >> 31) }
  function Rol5(x: Word): Word { (x << 5) | (x >> 27) }
  function Rol30(x: Word): Word { (x << 30) | (x >> 2) }

  function Ch(x: Word, y: Word, z: Word): Word { (x & y) ^ (!x & z) }
  function Parity(x: Word, y: Word, z: Word): Word { x ^ y ^ z }
  function Maj(x: Word, y: Word, z: Word): Word { (x & y) ^ (x & z) ^ (y & z) }

  function F(t: nat, x: Word, y: Word, z: Word): Word {
    if t < 20 then Ch(x, y, z) else if 40 <= t < 60 then Maj(x, y, z) else Parity(x, y, z)
  }

  function K(t: nat): Word {
    if t < 20 then 0x5A827999 else if t < 40 then 0x6ED9EBA1 else if t < 60 then 0x8F1BBCDC else 0xCA62C1D6
  }

  /** A 64-byte block as sixteen big-endian words. */
  function Be(b0: Byte, b1: Byte, b2: Byte, b3: Byte): Word {
    (b0 as Word << 24) | (b1 as Word << 16) | (b2 as Word << 8) | (b3 as Word)
  }

  type Block = b: seq<Byte> | |b| == 64 witness seq(64, i => 0)

  function MessageWord(m: Block, t: nat): Word
    requires t < 16
  {
    Be(m[4 * t], m[4 * t + 1], m[4 * t + 2], m[4 * t + 3])
  }

  /** The first `n` words of the message schedule. */
  function Schedule(m: Block, n: nat): (w: seq<Word>)
    ensures |w| == n
  {
    if n == 0 then []
    else
      var w := Schedule(m, n - 1);
      var t := n - 1;
      w + [if t < 16 then MessageWord(m, t) else Rol1(w[t - 3] ^ w[t - 8] ^ w[t - 14] ^ w[t - 16])]
  }

  /** The five addends of a round. */
  function StandardSum(r5: Word, f: Word, e: Word, k: Word, w: Word): Word {
    r5 + f + e + k + w
  }

  /** The same in the order in which the code adds them to `e`. */
  function Sum(r5: Word, f: Word, e: Word, k: Word, w: Word): Word {
    e + (f + w + k + r5)
  }

  lemma {:induction false} SumOrder(r5: Word, f: Word, e: Word, k: Word, w: Word)
    ensures Sum(r5, f, e, k, w) == StandardSum(r5, f, e, k, w)
  {}

  function Round(t: nat, r: Regs, w: Word): Regs {
    Regs(StandardSum(Rol5(r.a), F(t, r.b, r.c, r.d), r.e, K(t), w), r.a, Rol30(r.b), r.c, r.d)
  }

  /** The registers after `t` rounds over the schedule `w`. */
  function Rounds(h: Regs, w: seq<Word>, t: nat): Regs
    requires t <= |w|
  {
    if t == 0 then h else Round(t - 1, Rounds(h, w, t - 1), w[t - 1])
  }

  function Add(x: Regs, y: Regs): Regs {
    Regs(x.a + y.a, x.b + y.b, x.c + y.c, x.d + y.d, x.e + y.e)
  }

  function Compress(h: Regs, m: Block): Regs {
    Add(h, Rounds(h, Schedule(m, 80), 80))
  }

  // ----- the code

  /** A word as a little-endian host loads it from memory. */
  function Le(b0: Byte, b1: Byte, b2: Byte, b3: Byte): Word {
    (b3 as Word << 24) | (b2 as Word << 16) | (b1 as Word << 8) | (b0 as Word)
  }

  function RawWord(m: Block, t: nat): Word
    requires t < 16
  {
    Le(m[4 * t], m[4 * t + 1], m[4 * t + 2], m[4 * t + 3])
  }

  /** The byte swap in `blk0`. */
  function Swap(x: Word): Word {
    (((x << 24) | (x >> 8)) & 0xFF00FF00) | (((x << 8) | (x >> 24)) & 0x00FF00FF)
  }

  lemma {:induction false} SwapIsBigEndian(b0: Byte, b1: Byte, b2: Byte, b3: Byte)
    ensures Swap(Le(b0, b1, b2, b3)) == Be(b0, b1, b2, b3)
  {}

  lemma {:induction false} OptimisedCh(w: Word, x: Word, y: Word)
    ensures ((w & (x ^ y)) ^ y) == Ch(w, x, y)
  {}

  lemma {:induction false} OptimisedMaj(w: Word, x: Word, y: Word)
    ensures (((w | x) & y) | (w & x)) == Maj(w, x, y)
  {}

  /** Word `t` of a schedule follows from the message or from earlier words. */
  ghost predicate ScheduleAt(w: seq<Word>, m: Block, t: nat) {
    t < |w| ==> w[t] == if t < 16 then MessageWord(m, t) else Rol1(w[t - 3] ^ w[t - 8] ^ w[t - 14] ^ w[t - 16])
  }

  lemma {:induction false} SchedulePrefix(m: Block, k: nat, n: nat)
    requires k <= n
    ensures Schedule(m, n)[..k] == Schedule(m, k)
  {
    if k < n {
      SchedulePrefix(m, k, n - 1);
      assert Schedule(m, n)[..k] == Schedule(m, n - 1)[..k];
    }
  }

  lemma {:induction false} ScheduleHolds(m: Block, n: nat, t: nat)
    ensures ScheduleAt(Schedule(m, n), m, t)
  {
    if t < n {
      SchedulePrefix(m, t + 1, n);
      SchedulePrefix(m, t, t + 1);
      var w := Schedule(m, n);
      assert w[t] == w[..t + 1][t];
      assert forall s :: 0 <= s < t ==> w[s] == w[..t + 1][s];
    }
  }

  /** Before round `t` the block holds the last sixteen schedule words, and raw words where none are due yet. */
  ghost predicate Window(block: seq<Word>, w: seq<Word>, m: Block, t: nat) {
    |block| == 16 && |w| == 80 && forall s: Seal :: WindowBody(block, w, m, t, s)
  }

  ghost predicate WindowBody(block: seq<Word>, w: seq<Word>, m: Block, t: nat, s: Seal)
    requires |block| == 16 && |w| == 80
  {
    && (forall s :: 0 <= s < t <= 80 && t - 16 <= s ==> block[s % 16] == w[s])
    && (forall j :: t <= j < 16 ==> block[j] == RawWord(m, j))
  }

  /** `w` is the schedule of the block. */
  ghost predicate Scheduled(w: seq<Word>, m: Block) {
    forall t: nat :: ScheduleAt(w, m, t)
  }

  /** `blk0(i)`: loads word `i` of the message, in place. */
  method Blk0(block: array<Word>, i: nat, ghost w: seq<Word>, ghost m: Block) returns (b: Word)
    requires i < 16 && Window(block[..], w, m, i) && Scheduled(w, m)
    modifies block
    ensures Window(block[..], w, m, i + 1) && b == w[i]
  {
    assert WindowBody(block[..], w, m, i, Seal) && ScheduleAt(w, m, i);
    SwapIsBigEndian(m[4 * i], m[4 * i + 1], m[4 * i + 2], m[4 * i + 3]);
    block[i] := Swap(block[i]);
    b := block[i];
  }

  lemma {:induction false} WindowSlots(i: nat)
    requires i >= 16
    ensures (i + 13) % 16 == (i - 3) % 16 && (i + 8) % 16 == (i - 8) % 16
    ensures (i + 2) % 16 == (i - 14) % 16 && i % 16 == (i - 16) % 16
  {}

  /** `blk(i)`: expands schedule word `i` over the word sixteen rounds older. */
  method Blk(block: array<Word>, i: nat, ghost w: seq<Word>, ghost m: Block) returns (b: Word)
    requires 16 <= i < 80 && Window(block[..], w, m, i) && Scheduled(w, m)
    modifies block
    ensures Window(block[..], w, m, i + 1) && b == w[i]
  {
    assert WindowBody(block[..], w, m, i, Seal) && ScheduleAt(w, m, i);
    WindowSlots(i);
    b := Rol1(block[(i + 13) % 16] ^ block[(i + 8) % 16] ^ block[(i + 2) % 16] ^ block[i % 16]);
    block[i % 16] := b;
  }

  ghost predicate IsRoundBody(t: nat, r: Regs, x: Word, r': Regs, s: Seal) {
    r' == Round(t, r, x)
  }

  /** Round `t` of the standard, with the schedule word `x`, takes `r` to `r'`. */
  ghost predicate IsRound(t: nat, r: Regs, x: Word, r': Regs) {
    forall s: Seal :: IsRoundBody(t, r, x, r', s)
  }

  /** Round macros: the fifth register takes the new value of the first, the second is rotated; no name changes. */
  method R0(v: Word, p: Word, x: Word, y: Word, z: Word, i: nat, block: array<Word>, ghost w: seq<Word>, ghost m: Block)
    returns (z': Word, p': Word)
    requires i < 16 && Window(block[..], w, m, i) && Scheduled(w, m)
    modifies block
    ensures Window(block[..], w, m, i + 1)
    ensures IsRound(i, Regs(v, p, x, y, z), w[i], Regs(z', v, p', x, y))
  {
    var b := Blk0(block, i, w, m);
    OptimisedCh(p, x, y);
    z' := Sum(Rol5(v), ((p & (x ^ y)) ^ y), z, 0x5A827999, b);
    SumOrder(Rol5(v), ((p & (x ^ y)) ^ y), z, 0x5A827999, b);
    p' := Rol30(p);
  }

  method R1(v: Word, p: Word, x: Word, y: Word, z: Word, i: nat, block: array<Word>, ghost w: seq<Word>, ghost m: Block)
    returns (z': Word, p': Word)
    requires 16 <= i < 20 && Window(block[..], w, m, i) && Scheduled(w, m)
    modifies block
    ensures Window(block[..], w, m, i + 1)
    ensures IsRound(i, Regs(v, p, x, y, z), w[i], Regs(z', v, p', x, y))
  {
    var b := Blk(block, i, w, m);
    OptimisedCh(p, x, y);
    z' := Sum(Rol5(v), ((p & (x ^ y)) ^ y), z, 0x5A827999, b);
    SumOrder(Rol5(v), ((p & (x ^ y)) ^ y), z, 0x5A827999, b);
    p' := Rol30(p);
  }

  method R2(v: Word, p: Word, x: Word, y: Word, z: Word, i: nat, block: array<Word>, ghost w: seq<Word>, ghost m: Block)
    returns (z': Word, p': Word)
    requires 20 <= i < 40 && Window(block[..], w, m, i) && Scheduled(w, m)
    modifies block
    ensures Window(block[..], w, m, i + 1)
    ensures IsRound(i, Regs(v, p, x, y, z), w[i], Regs(z', v, p', x, y))
  {
    var b := Blk(block, i, w, m);
    z' := Sum(Rol5(v), (p ^ x ^ y), z, 0x6ED9EBA1, b);
    SumOrder(Rol5(v), (p ^ x ^ y), z, 0x6ED9EBA1, b);
    p' := Rol30(p);
  }

  method R3(v: Word, p: Word, x: Word, y: Word, z: Word, i: nat, block: array<Word>, ghost w: seq<Word>, ghost m: Block)
    returns (z': Word, p': Word)
    requires 40 <= i < 60 && Window(block[..], w, m, i) && Scheduled(w, m)
    modifies block
    ensures Window(block[..], w, m, i + 1)
    ensures IsRound(i, Regs(v, p, x, y, z), w[i], Regs(z', v, p', x, y))
  {
    var b := Blk(block, i, w, m);
    OptimisedMaj(p, x, y);
    z' := Sum(Rol5(v), (((p | x) & y) | (p & x)), z, 0x8F1BBCDC, b);
    SumOrder(Rol5(v), (((p | x) & y) | (p & x)), z, 0x8F1BBCDC, b);
    p' := Rol30(p);
  }

  method R4(v: Word, p: Word, x: Word, y: Word, z: Word, i: nat, block: array<Word>, ghost w: seq<Word>, ghost m: Block)
    returns (z': Word, p': Word)
    requires 60 <= i < 80 && Window(block[..], w, m, i) && Scheduled(w, m)
    modifies block
    ensures Window(block[..], w, m, i + 1)
    ensures IsRound(i, Regs(v, p, x, y, z), w[i], Regs(z', v, p', x, y))
  {
    var b := Blk(block, i, w, m);
    z' := Sum(Rol5(v), (p ^ x ^ y), z, 0xCA62C1D6, b);
    SumOrder(Rol5(v), (p ^ x ^ y), z, 0xCA62C1D6, b);
    p' := Rol30(p);
  }

  /** `r` are the registers after `t` rounds of the standard. */
  ghost predicate Reached(r: Regs, h: Regs, w: seq<Word>, t: nat) {
    t <= |w| && forall s: Seal :: ReachedBody(r, h, w, t, s)
  }

  ghost predicate ReachedBody(r: Regs, h: Regs, w: seq<Word>, t: nat, s: Seal)
    requires t <= |w|
  {
    r == Rounds(h, w, t)
  }

  /** Five rounds bring every register back to its own name. */
  ghost predicate After(a: Word, b: Word, c: Word, d: Word, e: Word, h: Regs, w: seq<Word>, t: nat) {
    Reached(Regs(a, b, c, d, e), h, w, t)
  }

  lemma {:induction false} Next(r: Regs, h: Regs, w: seq<Word>, t: nat, r': Regs)
    requires t < |w| && Reached(r, h, w, t) && IsRound(t, r, w[t], r')
    ensures Reached(r', h, w, t + 1)
  {
    assert ReachedBody(r, h, w, t, Seal) && IsRoundBody(t, r, w[t], r', Seal);
  }

  method Five0(a0: Word, b0: Word, c0: Word, d0: Word, e0: Word, i: nat, block: array<Word>,
              ghost h: Regs, ghost w: seq<Word>, ghost m: Block)
    returns (a: Word, b: Word, c: Word, d: Word, e: Word)
    requires i + 5 <= 16 && Window(block[..], w, m, i) && Scheduled(w, m)
    requires After(a0, b0, c0, d0, e0, h, w, i)
    modifies block
    ensures Window(block[..], w, m, i + 5) && After(a, b, c, d, e, h, w, i + 5)
  {
    a, b, c, d, e := a0, b0, c0, d0, e0;
    ghost var r0 := Regs(a, b, c, d, e);
    e, b := R0(a, b, c, d, e, i, block, w, m);
    Next(r0, h, w, i, Regs(e, a, b, c, d));
    ghost var r1 := Regs(e, a, b, c, d);
    d, a := R0(e, a, b, c, d, i + 1, block, w, m);
    Next(r1, h, w, i + 1, Regs(d, e, a, b, c));
    ghost var r2 := Regs(d, e, a, b, c);
    c, e := R0(d, e, a, b, c, i + 2, block, w, m);
    Next(r2, h, w, i + 2, Regs(c, d, e, a, b));
    ghost var r3 := Regs(c, d, e, a, b);
    b, d := R0(c, d, e, a, b, i + 3, block, w, m);
    Next(r3, h, w, i + 3, Regs(b, c, d, e, a));
    ghost var r4 := Regs(b, c, d, e, a);
    a, c := R0(b, c, d, e, a, i + 4, block, w, m);
    Next(r4, h, w, i + 4, Regs(a, b, c, d, e));
  }

  method Five01(a0: Word, b0: Word, c0: Word, d0: Word, e0: Word, i: nat, block: array<Word>,
              ghost h: Regs, ghost w: seq<Word>, ghost m: Block)
    returns (a: Word, b: Word, c: Word, d: Word, e: Word)
    requires i == 15 && Window(block[..], w, m, i) && Scheduled(w, m)
    requires After(a0, b0, c0, d0, e0, h, w, i)
    modifies block
    ensures Window(block[..], w, m, i + 5) && After(a, b, c, d, e, h, w, i + 5)
  {
    a, b, c, d, e := a0, b0, c0, d0, e0;
    ghost var r0 := Regs(a, b, c, d, e);
    e, b := R0(a, b, c, d, e, i, block, w, m);
    Next(r0, h, w, i, Regs(e, a, b, c, d));
    ghost var r1 := Regs(e, a, b, c, d);
    d, a := R1(e, a, b, c, d, i + 1, block, w, m);
    Next(r1, h, w, i + 1, Regs(d, e, a, b, c));
    ghost var r2 := Regs(d, e, a, b, c);
    c, e := R1(d, e, a, b, c, i + 2, block, w, m);
    Next(r2, h, w, i + 2, Regs(c, d, e, a, b));
    ghost var r3 := Regs(c, d, e, a, b);
    b, d := R1(c, d, e, a, b, i + 3, block, w, m);
    Next(r3, h, w, i + 3, Regs(b, c, d, e, a));
    ghost var r4 := Regs(b, c, d, e, a);
    a, c := R1(b, c, d, e, a, i + 4, block, w, m);
    Next(r4, h, w, i + 4, Regs(a, b, c, d, e));
  }

  method Five2(a0: Word, b0: Word, c0: Word, d0: Word, e0: Word, i: nat, block: array<Word>,
              ghost h: Regs, ghost w: seq<Word>, ghost m: Block)
    returns (a: Word, b: Word, c: Word, d: Word, e: Word)
    requires 20 <= i && i + 5 <= 40 && Window(block[..], w, m, i) && Scheduled(w, m)
    requires After(a0, b0, c0, d0, e0, h, w, i)
    modifies block
    ensures Window(block[..], w, m, i + 5) && After(a, b, c, d, e, h, w, i + 5)
  {
    a, b, c, d, e := a0, b0, c0, d0, e0;
    ghost var r0 := Regs(a, b, c, d, e);
    e, b := R2(a, b, c, d, e, i, block, w, m);
    Next(r0, h, w, i, Regs(e, a, b, c, d));
    ghost var r1 := Regs(e, a, b, c, d);
    d, a := R2(e, a, b, c, d, i + 1, block, w, m);
    Next(r1, h, w, i + 1, Regs(d, e, a, b, c));
    ghost var r2 := Regs(d, e, a, b, c);
    c, e := R2(d, e, a, b, c, i + 2, block, w, m);
    Next(r2, h, w, i + 2, Regs(c, d, e, a, b));
    ghost var r3 := Regs(c, d, e, a, b);
    b, d := R2(c, d, e, a, b, i + 3, block, w, m);
    Next(r3, h, w, i + 3, Regs(b, c, d, e, a));
    ghost var r4 := Regs(b, c, d, e, a);
    a, c := R2(b, c, d, e, a, i + 4, block, w, m);
    Next(r4, h, w, i + 4, Regs(a, b, c, d, e));
  }

  method Five3(a0: Word, b0: Word, c0: Word, d0: Word, e0: Word, i: nat, block: array<Word>,
              ghost h: Regs, ghost w: seq<Word>, ghost m: Block)
    returns (a: Word, b: Word, c: Word, d: Word, e: Word)
    requires 40 <= i && i + 5 <= 60 && Window(block[..], w, m, i) && Scheduled(w, m)
    requires After(a0, b0, c0, d0, e0, h, w, i)
    modifies block
    ensures Window(block[..], w, m, i + 5) && After(a, b, c, d, e, h, w, i + 5)
  {
    a, b, c, d, e := a0, b0, c0, d0, e0;
    ghost var r0 := Regs(a, b, c, d, e);
    e, b := R3(a, b, c, d, e, i, block, w, m);
    Next(r0, h, w, i, Regs(e, a, b, c, d));
    ghost var r1 := Regs(e, a, b, c, d);
    d, a := R3(e, a, b, c, d, i + 1, block, w, m);
    Next(r1, h, w, i + 1, Regs(d, e, a, b, c));
    ghost var r2 := Regs(d, e, a, b, c);
    c, e := R3(d, e, a, b, c, i + 2, block, w, m);
    Next(r2, h, w, i + 2, Regs(c, d, e, a, b));
    ghost var r3 := Regs(c, d, e, a, b);
    b, d := R3(c, d, e, a, b, i + 3, block, w, m);
    Next(r3, h, w, i + 3, Regs(b, c, d, e, a));
    ghost var r4 := Regs(b, c, d, e, a);
    a, c := R3(b, c, d, e, a, i + 4, block, w, m);
    Next(r4, h, w, i + 4, Regs(a, b, c, d, e));
  }

  method Five4(a0: Word, b0: Word, c0: Word, d0: Word, e0: Word, i: nat, block: array<Word>,
              ghost h: Regs, ghost w: seq<Word>, ghost m: Block)
    returns (a: Word, b: Word, c: Word, d: Word, e: Word)
    requires 60 <= i && i + 5 <= 80 && Window(block[..], w, m, i) && Scheduled(w, m)
    requires After(a0, b0, c0, d0, e0, h, w, i)
    modifies block
    ensures Window(block[..], w, m, i + 5) && After(a, b, c, d, e, h, w, i + 5)
  {
    a, b, c, d, e := a0, b0, c0, d0, e0;
    ghost var r0 := Regs(a, b, c, d, e);
    e, b := R4(a, b, c, d, e, i, block, w, m);
    Next(r0, h, w, i, Regs(e, a, b, c, d));
    ghost var r1 := Regs(e, a, b, c, d);
    d, a := R4(e, a, b, c, d, i + 1, block, w, m);
    Next(r1, h, w, i + 1, Regs(d, e, a, b, c));
    ghost var r2 := Regs(d, e, a, b, c);
    c, e := R4(d, e, a, b, c, i + 2, block, w, m);
    Next(r2, h, w, i + 2, Regs(c, d, e, a, b));
    ghost var r3 := Regs(c, d, e, a, b);
    b, d := R4(c, d, e, a, b, i + 3, block, w, m);
    Next(r3, h, w, i + 3, Regs(b, c, d, e, a));
    ghost var r4 := Regs(b, c, d, e, a);
    a, c := R4(b, c, d, e, a, i + 4, block, w, m);
    Next(r4, h, w, i + 4, Regs(a, b, c, d, e));
  }

  /** The workspace: the block copied byte by byte and seen as words of the host. */
  method LoadWorkspace(buffer: Block) returns (block: array<Word>)
    ensures fresh(block) && block.Length == 16
    ensures forall j :: 0 <= j < 16 ==> block[j] == RawWord(buffer, j)
  {
    block := new Word[16](j requires 0 <= j < 16 => RawWord(buffer, j));
  }

  method Rounds0To19(a0: Word, b0: Word, c0: Word, d0: Word, e0: Word, block: array<Word>,
                   ghost h: Regs, ghost w: seq<Word>, ghost m: Block)
    returns (a: Word, b: Word, c: Word, d: Word, e: Word)
    requires Window(block[..], w, m, 0) && Scheduled(w, m)
    requires After(a0, b0, c0, d0, e0, h, w, 0)
    modifies block
    ensures Window(block[..], w, m, 20) && After(a, b, c, d, e, h, w, 20)
  {
    a, b, c, d, e := Five0(a0, b0, c0, d0, e0, 0, block, h, w, m);
    a, b, c, d, e := Five0(a, b, c, d, e, 5, block, h, w, m);
    a, b, c, d, e := Five0(a, b, c, d, e, 10, block, h, w, m);
    a, b, c, d, e := Five01(a, b, c, d, e, 15, block, h, w, m);
  }

  method Rounds20To39(a0: Word, b0: Word, c0: Word, d0: Word, e0: Word, block: array<Word>,
                   ghost h: Regs, ghost w: seq<Word>, ghost m: Block)
    returns (a: Word, b: Word, c: Word, d: Word, e: Word)
    requires Window(block[..], w, m, 20) && Scheduled(w, m)
    requires After(a0, b0, c0, d0, e0, h, w, 20)
    modifies block
    ensures Window(block[..], w, m, 40) && After(a, b, c, d, e, h, w, 40)
  {
    a, b, c, d, e := Five2(a0, b0, c0, d0, e0, 20, block, h, w, m);
    a, b, c, d, e := Five2(a, b, c, d, e, 25, block, h, w, m);
    a, b, c, d, e := Five2(a, b, c, d, e, 30, block, h, w, m);
    a, b, c, d, e := Five2(a, b, c, d, e, 35, block, h, w, m);
  }

  method Rounds40To59(a0: Word, b0: Word, c0: Word, d0: Word, e0: Word, block: array<Word>,
                   ghost h: Regs, ghost w: seq<Word>, ghost m: Block)
    returns (a: Word, b: Word, c: Word, d: Word, e: Word)
    requires Window(block[..], w, m, 40) && Scheduled(w, m)
    requires After(a0, b0, c0, d0, e0, h, w, 40)
    modifies block
    ensures Window(block[..], w, m, 60) && After(a, b, c, d, e, h, w, 60)
  {
    a, b, c, d, e := Five3(a0, b0, c0, d0, e0, 40, block, h, w, m);
    a, b, c, d, e := Five3(a, b, c, d, e, 45, block, h, w, m);
    a, b, c, d, e := Five3(a, b, c, d, e, 50, block, h, w, m);
    a, b, c, d, e := Five3(a, b, c, d, e, 55, block, h, w, m);
  }

  method Rounds60To79(a0: Word, b0: Word, c0: Word, d0: Word, e0: Word, block: array<Word>,
                   ghost h: Regs, ghost w: seq<Word>, ghost m: Block)
    returns (a: Word, b: Word, c: Word, d: Word, e: Word)
    requires Window(block[..], w, m, 60) && Scheduled(w, m)
    requires After(a0, b0, c0, d0, e0, h, w, 60)
    modifies block
    ensures Window(block[..], w, m, 80) && After(a, b, c, d, e, h, w, 80)
  {
    a, b, c, d, e := Five4(a0, b0, c0, d0, e0, 60, block, h, w, m);
    a, b, c, d, e := Five4(a, b, c, d, e, 65, block, h, w, m);
    a, b, c, d, e := Five4(a, b, c, d, e, 70, block, h, w, m);
    a, b, c, d, e := Five4(a, b, c, d, e, 75, block, h, w, m);
  }

  /** All eighty rounds, for the schedule `w` of the block. */
  method AllRounds(h: Regs, buffer: Block, ghost w: seq<Word>) returns (r: Regs)
    requires |w| == 80 && Scheduled(w, buffer)
    ensures r == Rounds(h, w, 80)
  {
    var block := LoadWorkspace(buffer);
    var a, b, c, d, e := Rounds0To19(h.a, h.b, h.c, h.d, h.e, block, h, w, buffer);
    a, b, c, d, e := Rounds20To39(a, b, c, d, e, block, h, w, buffer);
    a, b, c, d, e := Rounds40To59(a, b, c, d, e, block, h, w, buffer);
    a, b, c, d, e := Rounds60To79(a, b, c, d, e, block, h, w, buffer);
    r := Regs(a, b, c, d, e);
    assert ReachedBody(r, h, w, 80, Seal);
  }

  /** `SHA1Transform` computes the compression function of the standard. */
  method Transform(h: Regs, buffer: Block) returns (h': Regs)
    ensures h' == Compress(h, buffer)
  {
    ghost var w := Schedule(buffer, 80);
    forall t: nat ensures ScheduleAt(w, buffer, t) {
      ScheduleHolds(buffer, 80, t);
    }
    var r := AllRounds(h, buffer, w);
    h' := Add(h, r);
  }
}
