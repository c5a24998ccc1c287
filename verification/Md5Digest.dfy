/** Streaming MD5: `MD5_Update` and `MD5_Final`, with a 29-bit byte counter and its 32-bit carry. */
module Md5Digest {
  import opened Common
  import opened Bits
  import opened BlockStream
  import opened Md5Model

  const TWO_29: int := 0x2000_0000
  const TWO_64: int := 0x1_0000_0000_0000_0000
  const INITIAL := Regs(0x67452301, 0xefcdab89, 0x98badcfe, 0x10325476)

  // ----- the standard (RFC 1321, sections 3.1 to 3.5)

  function CompressBytes(h: Regs, b: seq<bv8>): Regs {
    if |b| == 64 then Compress(h, b) else h
  }

  /** Byte `k` of a 32-bit word, counted from the least significant one. */
  function ByteOf(x: u32, k: nat): bv8
    requires k < 4
  {
    (match k case 0 => x % 256 case 1 => x / 0x100 % 256 case 2 => x / 0x1_0000 % 256 case _ => x / 0x100_0000) as bv8
  }

  function Le32(x: u32): (r: seq<bv8>)
    ensures |r| == 4
  {
    [ByteOf(x, 0), ByteOf(x, 1), ByteOf(x, 2), ByteOf(x, 3)]
  }

  /** The bit length modulo 2^64, low-order word first. */
  function LengthField(n: nat): (r: seq<bv8>)
    ensures |r| == 8
  {
    Le32(8 * n % TWO_64 % TWO_32) + Le32(8 * n % TWO_64 / TWO_32)
  }

  function Hash(m: seq<bv8>): Regs {
    Absorb(CompressBytes, INITIAL, Padded(m, LengthField(|m|)))
  }

  function WordBytes(x: bv32): (r: seq<bv8>)
    ensures |r| == 4
  {
    [(x & 0xff) as bv8, ((x >> 8) & 0xff) as bv8, ((x >> 16) & 0xff) as bv8, (x >> 24) as bv8]
  }

  function Digest(h: Regs): (r: seq<bv8>)
    ensures |r| == 16
  {
    WordBytes(h.a) + WordBytes(h.b) + WordBytes(h.c) + WordBytes(h.d)
  }

  // ----- the byte counter

  /** `lo` holds 29 bits of the number of bytes, `hi` the next 32. */
  ghost predicate Counted(lo: nat, hi: u32, n: nat) {
    lo == n % TWO_29 && hi == n / TWO_29 % TWO_32
  }

  function NextLo(lo: nat, size: nat): nat {
    (lo + size) % TWO_29
  }

  function NextHi(lo: nat, hi: u32, size: nat): u32 {
    (hi + (if NextLo(lo, size) < lo then 1 else 0) + size / TWO_29) % TWO_32
  }

  /** The counters follow every update, whatever its size. */
  lemma {:induction false} CounterExact(lo: nat, hi: u32, n: nat, size: nat, total: nat)
    requires Counted(lo, hi, n) && total == n + size
    ensures Counted(NextLo(lo, size), NextHi(lo, hi, size), total)
  {
    var q, s, r := n / TWO_29, size / TWO_29, size % TWO_29;
    var c := if lo + r >= TWO_29 then 1 else 0;
    assert total == (q + s + c) * TWO_29 + (lo + r - c * TWO_29);
    DivModUnique(total, TWO_29, q + s + c, lo + r - c * TWO_29);
    assert lo + size == s * TWO_29 + (lo + r);
    LowSum(lo, size, r, c);
    HighSum(q, s + c);
  }

  lemma {:induction false} LowSum(lo: nat, size: nat, r: nat, c: nat)
    requires lo < TWO_29 && r == size % TWO_29 && c == if lo + r >= TWO_29 then 1 else 0
    ensures NextLo(lo, size) == lo + r - c * TWO_29
    ensures NextLo(lo, size) < lo <==> c == 1
  {
    DivModUnique(lo + size, TWO_29, size / TWO_29 + c, lo + r - c * TWO_29);
  }

  lemma {:induction false} HighSum(q: nat, x: nat)
    ensures (q % TWO_32 + x) % TWO_32 == (q + x) % TWO_32
  {}

  /** The two words written by `MD5_Final` are the bit length modulo 2^64. */
  lemma {:induction false} LengthWords(lo: nat, hi: u32, n: nat)
    requires Counted(lo, hi, n)
    ensures 8 * lo < TWO_32 && Le32(8 * lo) + Le32(hi) == LengthField(n)
  {
    var q := n / TWO_29 / TWO_32;
    assert 8 * n == q * TWO_64 + (hi * TWO_32 + 8 * lo);
    DivModUnique(8 * n, TWO_64, q, hi * TWO_32 + 8 * lo);
    DivModUnique(hi * TWO_32 + 8 * lo, TWO_32, hi, 8 * lo);
  }

  lemma {:induction false} CounterFill(lo: nat, hi: u32, n: nat)
    requires Counted(lo, hi, n)
    ensures lo % 64 == n % 64
  {}

  lemma {:induction false} BlockFits(m: nat, n: nat, ptr: nat)
    requires m % 64 == 0 && n % 64 == 0 && (m + ptr) % 64 == 0 && ptr < n
    ensures ptr + 64 <= n
  {}

  // ----- padding, block by block

  lemma {:induction false} PaddedOneBlock<S>(f: (S, seq<bv8>) -> S, h: S, m: seq<bv8>, len: seq<bv8>)
    requires |len| == 8 && |m| % 64 <= 55
    ensures Absorb(f, h, Padded(m, len)) ==
            f(Absorb(f, h, Whole(m)), Rest(m) + [0x80] + Zeros(55 - |m| % 64) + len)
  {
    var data := [0x80] + Zeros(55 - |m| % 64) + len;
    FilledBlock(f, h, m, data);
    assert Padded(m, len) == m + data;
    assert Rest(m) + data == Rest(m) + [0x80] + Zeros(55 - |m| % 64) + len;
  }

  lemma {:induction false} TwoBlockPadding(m: seq<bv8>, len: seq<bv8>, k: nat)
    requires |len| == 8 && ZeroCount(|m|) == k + 56
    ensures Padded(m, len) == m + ([0x80] + Zeros(k)) + (Zeros(56) + len)
  {
    assert Zeros(k + 56) == Zeros(k) + Zeros(56);
  }

  lemma {:induction false} PaddedTwoBlocks<S>(f: (S, seq<bv8>) -> S, h: S, m: seq<bv8>, len: seq<bv8>)
    requires |len| == 8 && |m| % 64 > 55
    ensures Absorb(f, h, Padded(m, len)) ==
            f(f(Absorb(f, h, Whole(m)), Rest(m) + [0x80] + Zeros(63 - |m| % 64)), Zeros(56) + len)
  {
    var first, second := [0x80] + Zeros(63 - |m| % 64), Zeros(56) + len;
    FilledBlock(f, h, m, first);
    AbsorbBlock(f, h, m + first, second);
    TwoBlockPadding(m, len, 63 - |m| % 64);
    assert Rest(m) + first == Rest(m) + [0x80] + Zeros(63 - |m| % 64);
  }

  lemma {:induction false} NextBlock(m: seq<bv8>, data: seq<bv8>, ptr: nat)
    requires ptr + 64 <= |data|
    ensures m + data[..ptr] + data[ptr..ptr + 64] == m + data[..ptr + 64]
  {
    assert data[..ptr + 64] == data[..ptr] + data[ptr..ptr + 64];
  }

  lemma {:induction false} Rejoin(m: seq<bv8>, data: seq<bv8>, k: nat)
    requires k <= |data|
    ensures m + data[..k] + data[k..] == m + data
  {
    assert data[..k] + data[k..] == data;
    assert m + data[..k] + data[k..] == m + (data[..k] + data[k..]);
  }

  // ----- the context

  ghost predicate CompressesAt(f: (Regs, seq<bv8>) -> Regs, h: Regs, b: seq<bv8>, s: Seal) {
    f(h, b) == CompressBytes(h, b)
  }

  /** `f` is the compression function of the standard. */
  ghost predicate IsCompress(f: (Regs, seq<bv8>) -> Regs) {
    forall h, b, s :: CompressesAt(f, h, b, s)
  }

  lemma {:induction false} CompressIsCompress()
    ensures IsCompress(CompressBytes)
  {}

  /** `MD5_CTX`. */
  class Md5Ctx {
    ghost const f: (Regs, seq<bv8>) -> Regs  // the compression function
    ghost const initial: Regs
    var state: Regs
    var lo: nat
    var hi: u32
    const buffer: array<bv8>
    ghost var msg: seq<bv8>  // all the data so far

    /** State and buffer stand for the data `m`. */
    ghost predicate Covers(m: seq<bv8>)
      reads this, buffer
    {
      IsCompress(f) && buffer.Length == 64 && state == Absorb(f, initial, Whole(m)) && buffer[..|m| % 64] == Rest(m)
    }

    ghost predicate Valid()
      reads this, buffer
    {
      Covers(msg) && Counted(lo, hi, |msg|)
    }

    /** `MD5_Init`. */
    constructor (ghost f: (Regs, seq<bv8>) -> Regs, initial: Regs)
      requires IsCompress(f)
      ensures Valid() && msg == [] && fresh(buffer) && this.f == f && this.initial == initial
    {
      this.f, this.initial, state := f, initial, initial;
      lo, hi, buffer, msg := 0, 0, new bv8[64], [];
      new;
      EmptyStart(f, initial, msg);
    }

    /** One turn of the loop of `body`. */
    method CompressBlock(block: seq<bv8>)
      requires |block| == 64 && IsCompress(f)
      modifies this`state
      ensures state == f(old(state), block)
    {
      assert CompressesAt(f, state, block, Seal);
      state := BodyBlock(state, block);
    }

    method Fill(at: nat, data: seq<bv8>)
      requires at + |data| <= buffer.Length
      modifies buffer
      ensures buffer[..at + |data|] == old(buffer[..at]) + data
    {
      forall i | 0 <= i < |data| {
        buffer[at + i] := data[i];
      }
      assert buffer[..at + |data|] == buffer[..at] + buffer[at..at + |data|];
    }

    /** `body`: one or more complete blocks, after the data `m`. */
    method Body(data: seq<bv8>, ghost m: seq<bv8>)
      requires |data| > 0 && |data| % 64 == 0 && |m| % 64 == 0 && state == Absorb(f, initial, m) && IsCompress(f)
      modifies this`state
      ensures |m + data| % 64 == 0 && state == Absorb(f, initial, m + data)
    {
      var ptr := 0;
      ghost var done := m;
      assert m + data[..ptr] == m;
      while ptr < |data|
        invariant 0 <= ptr <= |data| && done == m + data[..ptr] && |done| % 64 == 0
        invariant state == Absorb(f, initial, done)
      {
        BlockFits(|m|, |data|, ptr);
        NextBlock(m, data, ptr);
        AbsorbNext(data[ptr..ptr + 64], done);
        done := done + data[ptr..ptr + 64];
        ptr := ptr + 64;
      }
      assert data[..ptr] == data;
    }

    method AbsorbNext(block: seq<bv8>, ghost done: seq<bv8>)
      requires |block| == 64 && |done| % 64 == 0 && state == Absorb(f, initial, done) && IsCompress(f)
      modifies this`state
      ensures |done + block| % 64 == 0 && state == Absorb(f, initial, done + block)
    {
      ghost var before := state;
      CompressBlock(block);
      AbsorbBlock(f, initial, done, block);
      assert state == f(before, block);
    }

    /** The rest of `MD5_Update` once the data so far, `m`, is a whole number of blocks. */
    method AbsorbAligned(data: seq<bv8>, ghost m: seq<bv8>)
      requires |m| % 64 == 0 && state == Absorb(f, initial, m) && buffer.Length == 64 && IsCompress(f)
      modifies this`state, buffer
      ensures Covers(m + data)
    {
      var n := |data| - |data| % 64;
      ghost var blocks := m + data[..n];
      assert data[..0] == [];
      if |data| >= 64 {
        Body(data[..n], m);
      }
      Fill(0, data[n..]);
      RestAfterBlocks(blocks, data[n..]);
      assert blocks + data[n..] == m + data;
      assert |m + data| % 64 == |Rest(m + data)| == |data[n..]|;
    }

    /** The start of `MD5_Update` when the buffer is in use and the data fills it. */
    method CompleteBuffer(data: seq<bv8>)
      requires Covers(msg) && |msg| % 64 + |data| == 64
      modifies this`state, buffer
      ensures |msg + data| % 64 == 0 && state == Absorb(f, initial, msg + data)
    {
      Fill(64 - |data|, data);
      FilledBlock(f, initial, msg, data);
      assert buffer[..64] == buffer[..];
      CompressBlock(buffer[..]);
    }

    method AbsorbShort(data: seq<bv8>, used: nat)
      requires Covers(msg) && used == |msg| % 64 && used + |data| < 64
      modifies buffer
      ensures Covers(msg + data)
    {
      Fill(used, data);
      ShortUpdate(msg, data);
      assert |msg + data| % 64 == |Rest(msg + data)| == used + |data|;
    }

    method AbsorbData(data: seq<bv8>, used: nat)
      requires Covers(msg) && used == |msg| % 64
      modifies this`state, buffer
      ensures Covers(msg + data)
    {
      if used != 0 {
        var available := 64 - used;
        if |data| < available {
          AbsorbShort(data, used);
          return;
        }
        CompleteBuffer(data[..available]);
        AbsorbAligned(data[available..], msg + data[..available]);
        Rejoin(msg, data, available);
      } else {
        WholeOfBlocks(msg);
        AbsorbAligned(data, msg);
      }
    }

    /** `MD5_Update`. */
    method Update(data: seq<bv8>)
      requires Valid()
      modifies this, buffer
      ensures Valid() && msg == old(msg) + data
    {
      var used := lo % 64;
      CounterFill(lo, hi, |msg|);
      CounterExact(lo, hi, |msg|, |data|, |msg + data|);
      lo, hi := NextLo(lo, |data|), NextHi(lo, hi, |data|);
      AbsorbData(data, used);
      msg := msg + data;
    }

    /** The blocks that `MD5_Final` completes in the buffer, given the eight length bytes. */
    method AbsorbPadding(used: nat, length: seq<bv8>)
      requires Covers(msg) && used == |msg| % 64 && |length| == 8
      modifies this`state, buffer
      ensures state == Absorb(f, initial, Padded(msg, length))
    {
      Fill(used, [0x80]);
      if 63 - used < 8 {
        PaddedTwoBlocks(f, initial, msg, length);
        Fill(used + 1, Zeros(63 - used));
        TransformBuffer(buffer[..64]);
        Fill(0, Zeros(56));
        assert buffer[..0] + Zeros(56) == Zeros(56);
        LastBlock(buffer[..56], length);
      } else {
        PaddedOneBlock(f, initial, msg, length);
        Fill(used + 1, Zeros(55 - used));
        LastBlock(buffer[..56], length);
      }
    }

    /** `body` on the whole buffer. */
    method TransformBuffer(ghost block: seq<bv8>)
      requires buffer.Length == 64 && block == buffer[..64] && IsCompress(f)
      modifies this`state
      ensures state == f(old(state), block)
    {
      assert buffer[..] == block;
      CompressBlock(buffer[..]);
    }

    method LastBlock(ghost start: seq<bv8>, length: seq<bv8>)
      requires buffer.Length == 64 && start == buffer[..56] && |length| == 8 && IsCompress(f)
      modifies this`state, buffer
      ensures state == f(old(state), start + length)
    {
      Fill(56, length);
      TransformBuffer(buffer[..64]);
    }

    /** `MD5_Final` up to the output. */
    method Final()
      requires Valid()
      modifies this, buffer
      ensures state == Absorb(f, initial, Padded(old(msg), LengthField(|old(msg)|)))
    {
      CounterFill(lo, hi, |msg|);
      LengthWords(lo, hi, |msg|);
      AbsorbPadding(lo % 64, Le32(8 * lo) + Le32(hi));
    }
  }

  /** However a message is cut into updates, the digest is that of the whole message. */
  method DigestOfParts(parts: seq<seq<bv8>>) returns (digest: seq<bv8>)
    ensures digest == Digest(Hash(Concat(parts)))
  {
    CompressIsCompress();
    var ctx := new Md5Ctx(CompressBytes, INITIAL);
    assert parts[..0] == [];
    for i := 0 to |parts|
      invariant ctx.Valid() && fresh(ctx) && fresh(ctx.buffer) && ctx.msg == Concat(parts[..i])
      invariant ctx.f == CompressBytes && ctx.initial == INITIAL
    {
      ConcatNext(parts, i);
      ctx.Update(parts[i]);
    }
    assert parts[..|parts|] == parts;
    ctx.Final();
    digest := Digest(ctx.state);
  }
}
