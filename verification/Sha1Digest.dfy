/** Streaming SHA-1: `SHA1Update` and `SHA1Final` over a context with a 64-byte buffer and two 32-bit counters. */
module Sha1Digest {
  import opened Common
  import opened Bits
  import opened BlockStream
  import opened Sha1Model

  const TWO_64: int := 0x1_0000_0000_0000_0000
  const INITIAL := Regs(0x67452301, 0xEFCDAB89, 0x98BADCFE, 0x10325476, 0xC3D2E1F0)

  // ----- the standard (sections 5.1.1 and 6.1 of FIPS 180-4)

  function CompressBytes(h: Regs, b: seq<bv8>): Regs {
    if |b| == 64 then Compress(h, b) else h
  }

  /** A number below 2^64 as eight bytes, most significant first. */
  function Be64(x: nat): (r: seq<bv8>)
    requires x < TWO_64
    ensures |r| == 8
  {
    seq(8, i requires 0 <= i < 8 => ByteOf(if i < 4 then x / TWO_32 else x % TWO_32, 3 - i % 4))
  }

  /** Byte `k` of a 32-bit word, counted from the least significant one. */
  function ByteOf(x: nat, k: nat): bv8
    requires x < TWO_32 && k < 4
  {
    (match k case 0 => x % 256 case 1 => x / 0x100 % 256 case 2 => x / 0x1_0000 % 256 case _ => x / 0x100_0000) as bv8
  }

  function LengthField(n: nat): (r: seq<bv8>)
    ensures |r| == 8
  {
    Be64(8 * n % TWO_64)
  }

  /** The registers after the padded message. */
  function Hash(m: seq<bv8>): Regs {
    Absorb(CompressBytes, INITIAL, Padded(m, LengthField(|m|)))
  }

  function WordBytes(x: bv32): (r: seq<bv8>)
    ensures |r| == 4
  {
    [(x >> 24) as bv8, ((x >> 16) & 0xff) as bv8, ((x >> 8) & 0xff) as bv8, (x & 0xff) as bv8]
  }

  function Digest(h: Regs): (r: seq<bv8>)
    ensures |r| == 20
  {
    WordBytes(h.a) + WordBytes(h.b) + WordBytes(h.c) + WordBytes(h.d) + WordBytes(h.e)
  }

  // ----- the bit counter

  /** How `SHA1Update` advances its counters by `len` bytes. */
  function Advance(count0: u32, count1: u32, len: u32): (u32, u32) {
    var c0 := (count0 + len * 8 % TWO_32) % TWO_32;
    (c0, if c0 < count0 then (count1 + len / 0x2000_0000 + 1) % TWO_32 else count1)
  }

  function CountValue(count0: u32, count1: u32): nat {
    count1 * TWO_32 + count0
  }

  /** The counters hold the bit length of `n` bytes modulo 2^64. */
  ghost predicate Counted(count0: u32, count1: u32, n: nat) {
    CountValue(count0, count1) == 8 * n % TWO_64
  }

  /** Whether adding the low word of the bit length overflows the low counter. */
  predicate Carries(count0: u32, len: u32) {
    count0 + len * 8 % TWO_32 >= TWO_32
  }

  /** Whether the counters advance by the whole bit length. */
  predicate KeepsCount(count0: u32, len: u32) {
    len < 0x2000_0000 || Carries(count0, len)
  }

  /** The counters advance by the bit length of the data exactly when it is short or carries. */
  lemma {:induction false} AdvanceExact(count0: u32, count1: u32, len: u32)
    ensures var (c0, c1) := Advance(count0, count1, len);
            CountValue(c0, c1) == (CountValue(count0, count1) + 8 * len) % TWO_64
            <==> KeepsCount(count0, len)
  {
    var low, high := len * 8 % TWO_32, len / 0x2000_0000;
    BitLength(len);
    AdvanceCases(count0, count1, len);
    if Carries(count0, len) {
      AdvanceCarry(count0, count1, low, high, CountValue(count0, count1) + 8 * len);
    } else {
      AdvanceNoCarry(count0, count1, low, high, CountValue(count0, count1) + 8 * len);
    }
  }

  lemma {:induction false} AdvanceCases(count0: u32, count1: u32, len: u32)
    ensures var low, high := len * 8 % TWO_32, len / 0x2000_0000;
            Advance(count0, count1, len) ==
            if Carries(count0, len) then (count0 + low - TWO_32, (count1 + high + 1) % TWO_32)
            else (count0 + low, count1)
  {}

  lemma {:induction false} AdvanceCarry(c0: u32, c1: u32, low: u32, high: nat, total: nat)
    requires c0 + low >= TWO_32 && total == (c1 + high) * TWO_32 + c0 + low
    ensures total % TWO_64 == (c1 + high + 1) % TWO_32 * TWO_32 + (c0 + low - TWO_32)
  {
    AdvanceSplit(c1 + high + 1, c0 + low - TWO_32);
  }

  lemma {:induction false} AdvanceNoCarry(c0: u32, c1: u32, low: u32, high: nat, total: nat)
    requires c0 + low < TWO_32 && high < 8 && total == (c1 + high) * TWO_32 + c0 + low
    ensures total % TWO_64 == c1 * TWO_32 + (c0 + low) <==> high == 0
  {
    AdvanceSplit(c1 + high, c0 + low);
    NoWrap(c1, high);
  }

  lemma {:induction false} BitLength(len: u32)
    ensures 8 * len == len / 0x2000_0000 * TWO_32 + len * 8 % TWO_32 && len / 0x2000_0000 < 8
  {}

  lemma {:induction false} NoWrap(x: u32, y: nat)
    requires y < 8
    ensures (x + y) % TWO_32 == x <==> y == 0
  {}

  lemma {:induction false} AdvanceSplit(high: nat, low: u32)
    ensures (high * TWO_32 + low) % TWO_64 == high % TWO_32 * TWO_32 + low
  {
    var q := high / TWO_32;
    assert high * TWO_32 + low == q * TWO_64 + (high % TWO_32 * TWO_32 + low);
    DivModUnique(high * TWO_32 + low, TWO_64, q, high % TWO_32 * TWO_32 + low);
  }

  /** What an update leaves out of the count, in units of 2^32 bits. */
  function Loss(count0: u32, len: u32): nat {
    if KeepsCount(count0, len) then 0 else len / 0x2000_0000
  }

  ghost predicate ShortBody(count0: u32, count1: u32, lost: nat, n: nat, s: Seal) {
    (CountValue(count0, count1) + lost * TWO_32) % TWO_64 == 8 * n % TWO_64
  }

  /** The counters and what was left out of them stand for the bit length of `n` bytes modulo 2^64. */
  ghost predicate Short(count0: u32, count1: u32, lost: nat, n: nat) {
    forall s: Seal :: ShortBody(count0, count1, lost, n, s)
  }

  lemma {:induction false} AdvanceLoses(count0: u32, count1: u32, len: u32)
    ensures var (c0, c1) := Advance(count0, count1, len);
            (CountValue(c0, c1) + Loss(count0, len) * TWO_32) % TWO_64 ==
            (CountValue(count0, count1) + 8 * len) % TWO_64
  {
    BitLength(len);
    AdvanceCases(count0, count1, len);
    if KeepsCount(count0, len) {
      AdvanceExact(count0, count1, len);
    }
  }

  lemma {:induction false} SumMod(a: nat, b: nat, c: nat)
    requires a % TWO_64 == b % TWO_64
    ensures (a + c) % TWO_64 == (b + c) % TWO_64
  {}

  /** An update adds its loss to what was left out before. */
  lemma {:induction false} ShortNext(count0: u32, count1: u32, lost: nat, n: nat, len: u32)
    requires Short(count0, count1, lost, n)
    ensures var (c0, c1) := Advance(count0, count1, len); Short(c0, c1, lost + Loss(count0, len), n + len)
  {
    var (c0, c1) := Advance(count0, count1, len);
    assert ShortBody(count0, count1, lost, n, Seal);
    AdvanceLoses(count0, count1, len);
    SumMod(CountValue(c0, c1) + Loss(count0, len) * TWO_32, CountValue(count0, count1) + 8 * len, lost * TWO_32);
    SumMod(CountValue(count0, count1) + lost * TWO_32, 8 * n, 8 * len);
  }

  /** The count is right exactly when what was left out is a multiple of 2^64. */
  lemma {:induction false} ShortExact(count0: u32, count1: u32, lost: nat, n: nat)
    requires Short(count0, count1, lost, n)
    ensures Counted(count0, count1, n) <==> lost % TWO_32 == 0
  {
    var c := CountValue(count0, count1);
    assert ShortBody(count0, count1, lost, n, Seal);
    CountInRange(count0, count1);
    AdvanceSplit(count1 + lost, count0);
    assert c + lost * TWO_32 == (count1 + lost) * TWO_32 + count0;
    SumIsSame(count1, lost);
  }

  lemma {:induction false} SumIsSame(x: u32, y: nat)
    ensures (x + y) % TWO_32 == x <==> y % TWO_32 == 0
  {}

  /** A first call with 2^29 bytes leaves the length out of the count. */
  lemma {:induction false} LongUpdateLosesLength()
    ensures Advance(0, 0, 0x2000_0000) == (0, 0)
  {}

  /** The low counter follows every update, whatever its size. */
  lemma {:induction false} LowCounter(count0: u32, count1: u32, len: u32, n: nat)
    requires count0 == 8 * n % TWO_32
    ensures Advance(count0, count1, len).0 == 8 * (n + len) % TWO_32
  {
    LowWords(8 * n, 8 * len);
  }

  lemma {:induction false} LowWords(x: nat, y: nat)
    ensures (x % TWO_32 + y % TWO_32) % TWO_32 == (x + y) % TWO_32
  {}

  /** Both counters hold the bit length after an update exactly when it is short or carries. */
  lemma {:induction false} CountKept(count0: u32, count1: u32, len: u32, n: nat, total: nat)
    requires Counted(count0, count1, n) && total == n + len
    ensures var c := Advance(count0, count1, len);
            Counted(c.0, c.1, total) <==> KeepsCount(count0, len)
  {
    AdvanceExact(count0, count1, len);
    CountStep(CountValue(count0, count1), n, len);
  }

  /** The fill of the buffer, read off the low counter. */
  lemma {:induction false} CounterFill(count0: u32, n: nat)
    requires count0 == 8 * n % TWO_32
    ensures count0 / 8 % 64 == n % 64
  {
    var q := 8 * n / TWO_32;
    assert 8 * n == q * TWO_32 + count0;
    assert n == 64 * (q * 0x80_0000) + count0 / 8;
  }

  // ----- the context

  ghost predicate CompressesAt(f: (Regs, seq<bv8>) -> Regs, h: Regs, b: seq<bv8>, s: Seal) {
    f(h, b) == CompressBytes(h, b)
  }

  /** `f` is the compression function of the standard. */
  ghost predicate IsCompress(f: (Regs, seq<bv8>) -> Regs) {
    forall h, b, s :: CompressesAt(f, h, b, s)
  }

  lemma {:induction false} CompressIsCompress()
    ensures IsCompress(CompressBytes)
  {}

  /** `SHA1_CTX`. */
  class Sha1Ctx {
    ghost const f: (Regs, seq<bv8>) -> Regs  // the compression function
    ghost const initial: Regs
    var state: Regs
    var count0: u32
    var count1: u32
    const buffer: array<bv8>
    ghost var msg: seq<bv8>  // all the data so far

    /** State and buffer stand for the data so far, and the low counter holds its bit length modulo 2^32. */
    ghost predicate Valid()
      reads this, buffer
    {
      && Covers(msg)
      && count0 == 8 * |msg| % TWO_32
    }

    /** Both counters hold the bit length modulo 2^64. */
    ghost predicate Exact()
      reads this
    {
      Counted(count0, count1, |msg|)
    }

    /** `SHA1Init`. */
    constructor (ghost f: (Regs, seq<bv8>) -> Regs, initial: Regs)
      requires IsCompress(f)
      ensures Valid() && Exact() && msg == [] && fresh(buffer) && this.f == f && this.initial == initial
    {
      this.f, this.initial, state := f, initial, initial;
      count0, count1, buffer, msg := 0, 0, new bv8[64], [];
      new;
      EmptyStart(f, initial, msg);
    }

    /** `SHA1Transform` on one block. */
    method CompressBlock(block: seq<bv8>)
      requires |block| == 64 && IsCompress(f)
      modifies this`state
      ensures state == f(old(state), block)
    {
      assert CompressesAt(f, state, block, Seal);
      state := Transform(state, block);
    }

    /** Copies bytes into the buffer. */
    method Fill(at: nat, data: seq<bv8>)
      requires at + |data| <= buffer.Length
      modifies buffer
      ensures buffer[..at] == old(buffer[..at]) && buffer[at..at + |data|] == data
      ensures buffer[..at + |data|] == old(buffer[..at]) + data
    {
      forall i | 0 <= i < |data| {
        buffer[at + i] := data[i];
      }
      assert buffer[..at + |data|] == buffer[..at] + buffer[at..at + |data|];
    }

    /** The fill of the buffer, `(count[0] >> 3) & 63`. */
    method FillLevel() returns (j: nat)
      requires count0 == 8 * |msg| % TWO_32
      ensures j == |msg| % 64
    {
      j := count0 / 8 % 64;
      CounterFill(count0, |msg|);
    }

    /** Advances the bit counters. */
    method Count(len: u32, ghost total: nat)
      requires count0 == 8 * |msg| % TWO_32 && total == |msg| + len
      modifies this`count0, this`count1
      ensures count0 == 8 * total % TWO_32
      ensures old(Exact()) ==> (Counted(count0, count1, total) <==> KeepsCount(old(count0), len))
      ensures (count0, count1) == Advance(old(count0), old(count1), len)
    {
      LowCounter(count0, count1, len, |msg|);
      if Counted(count0, count1, |msg|) {
        CountKept(count0, count1, len, |msg|, total);
      }
      var c := Advance(count0, count1, len);
      count0, count1 := c.0, c.1;
    }

    /** The transform of the buffer once the data has filled it. */
    method TransformBuffer(data: seq<bv8>, j: nat)
      requires buffer.Length == 64 && j == |msg| % 64 && j + |data| == 64 && IsCompress(f)
      requires state == Absorb(f, initial, Whole(msg)) && buffer[..j] == Rest(msg)
      modifies this`state, buffer
      ensures |msg + data| % 64 == 0 && state == Absorb(f, initial, msg + data)
    {
      Fill(j, data);
      FilledBlock(f, initial, msg, data);
      assert buffer[..64] == buffer[..];
      CompressBlock(buffer[..]);
    }

    /** The transforms of the further complete blocks of the data, from position `start` on. */
    method TransformBlocks(data: seq<bv8>, start: nat, ghost m: seq<bv8>) returns (i: nat)
      requires start <= |data| && |m| % 64 == 0 && state == Absorb(f, initial, m) && IsCompress(f)
      requires 0 < start <= 64 && 64 - start + |data| < TWO_32
      modifies this`state
      ensures start <= i <= |data| < i + 64 && |m + data[start..i]| % 64 == 0
      ensures state == Absorb(f, initial, m + data[start..i])
    {
      i := start;
      ghost var done := m;
      assert m + data[start..i] == m;
      while (i + 63) % TWO_32 < |data|
        invariant start <= i <= |data| && (i - start) % 64 == 0 && done == m + data[start..i] && |done| % 64 == 0
        invariant state == Absorb(f, initial, done)
        decreases |data| - i
      {
        NoIndexWrap(i, start, |data|);
        var block := data[i..i + 64];
        AbsorbBlock(f, initial, done, block);
        CompressBlock(block);
        i := i + 64;
        done := done + block;
        assert data[start..i] == data[start..i - 64] + block;
      }
      NoIndexWrap(i, start, |data|);
    }

    /** State and buffer stand for the data `m`. */
    ghost predicate Covers(m: seq<bv8>)
      reads this, buffer
    {
      IsCompress(f) && buffer.Length == 64 && state == Absorb(f, initial, Whole(m)) && buffer[..|m| % 64] == Rest(m)
    }

    /** Data that fills the buffer. */
    method AbsorbLong(data: seq<bv8>, j: nat)
      requires Covers(msg) && j == |msg| % 64 && 63 < j + |data| < TWO_32
      modifies this`state, buffer
      ensures Covers(msg + data)
    {
      var first := data[..64 - j];
      TransformBuffer(first, j);
      ghost var m := msg + first;
      var i := TransformBlocks(data, 64 - j, m);
      Fill(0, data[i..]);
      LeftOver(msg, data, 64 - j, i);
    }

    /** Data that does not. */
    method AbsorbShort(data: seq<bv8>, j: nat)
      requires Covers(msg) && j == |msg| % 64 && j + |data| <= 63
      modifies buffer
      ensures Covers(msg + data)
    {
      Fill(j, data);
      ShortUpdate(msg, data);
      assert |msg + data| % 64 == |Rest(msg + data)| == j + |data|;
    }

    /**
     * `SHA1Update`, for calls that stay inside the buffer (`BufferHeldExact`). State, buffer and low counter follow
     * any data; the count as a whole stays exact exactly when the call is shorter than 2^29 bytes or its low word
     * carries.
     */
    method Update(data: seq<bv8>)
      requires Valid() && |msg| % 64 + |data| < TWO_32
      modifies this, buffer
      ensures Valid() && msg == old(msg) + data
      ensures old(Exact()) ==> (Exact() <==> KeepsCount(old(count0), |data|))
      ensures (count0, count1) == Advance(old(count0), old(count1), |data|)
    {
      var j := FillLevel();
      NoSumWrap(j, |data|);
      Count(|data|, |msg + data|);
      if (j + |data|) % TWO_32 > 63 {
        AbsorbLong(data, j);
      } else {
        AbsorbShort(data, j);
      }
      msg := msg + data;
    }

    /** The padding loop of `SHA1Final`. */
    method PadZeros(ghost m: seq<bv8>)
      requires Valid() && msg == m + [0x80]
      modifies this, buffer
      ensures Valid() && msg == m + [0x80] + Zeros(ZeroCount(|m|))
    {
      ghost var k := 0;
      assert msg == m + [0x80] + Zeros(0);
      var j := FillLevel();
      while 8 * j != 448
        invariant Valid() && k <= ZeroCount(|m|) && msg == m + [0x80] + Zeros(k) && j == |msg| % 64
        decreases ZeroCount(|m|) - k
      {
        PaddingGap(m, k);
        Update([0]);
        NextZero(m, k);
        k := k + 1;
        j := FillLevel();
      }
      PaddingGap(m, k);
    }

    /**
     * `SHA1Final` up to the output: pads by updating, byte by byte, and absorbs the message padded with the length
     * that the counters hold, which is that of the message if they are exact.
     */
    method Final()
      requires Valid()
      modifies this, buffer
      ensures state == Absorb(f, initial, Padded(old(msg), Be64(old(CountValue(count0, count1)))))
      ensures old(Exact()) ==> state == Absorb(f, initial, Padded(old(msg), LengthField(|old(msg)|)))
    {
      ghost var m := msg;
      CountInRange(count0, count1);
      var finalcount := Be64(CountValue(count0, count1));
      Update([0x80]);
      PadZeros(m);
      Update(finalcount);
      assert msg == Padded(m, finalcount);
      WholeOfBlocks(msg);
    }
  }

  lemma {:induction false} NoSumWrap(j: nat, n: nat)
    requires j + n < TWO_32
    ensures (j + n) % TWO_32 == j + n
  {}

  /** The block index does not wrap around: it stays `j` below a multiple of 64. */
  lemma {:induction false} NoIndexWrap(i: nat, start: nat, n: nat)
    requires 0 < start <= 64 && start <= i <= n && (i - start) % 64 == 0 && 64 - start + n < TWO_32
    ensures (i + 63) % TWO_32 == i + 63
  {}

  /** The branch that `SHA1Update` takes with `j` bytes in the buffer: filling it, or copying all the data into it. */
  predicate FillsBuffer(j: nat, len: u32) {
    (j + len) % TWO_32 > 63
  }

  /**
   * All that is copied into the 64 bytes of the buffer stays inside it exactly when the sum of fill and length does
   * not wrap around.
   */
  lemma {:induction false} BufferHeldExact(j: nat, len: u32)
    requires j < 64
    ensures j + len < TWO_32 <==> FillsBuffer(j, len) || j + len <= 64
  {}

  /** A call of 2^32 - 1 bytes after one byte is copied into the buffer as a whole. */
  lemma {:induction false} WholeCallCopied()
    ensures !FillsBuffer(1, 0xffff_ffff) && 1 + 0xffff_ffff > 64
  {}

  lemma {:induction false} CountInRange(count0: u32, count1: u32)
    ensures CountValue(count0, count1) < TWO_64
  {}

  lemma {:induction false} Rejoin(m: seq<bv8>, data: seq<bv8>, k: nat, i: nat)
    requires k <= i <= |data|
    ensures m + data[..k] + data[k..i] + data[i..] == m + data
  {
    assert data[..k] + data[k..i] + data[i..] == data;
    assert m + data[..k] + data[k..i] + data[i..] == m + (data[..k] + data[k..i] + data[i..]);
  }

  /** What is left after the blocks up to `i`. */
  lemma {:induction false} LeftOver(m: seq<bv8>, data: seq<bv8>, k: nat, i: nat)
    requires k <= i <= |data| < i + 64 && |m + data[..k] + data[k..i]| % 64 == 0
    ensures Whole(m + data) == m + data[..k] + data[k..i] && Rest(m + data) == data[i..]
    ensures |m + data| % 64 == |data[i..]|
  {
    RestAfterBlocks(m + data[..k] + data[k..i], data[i..]);
    Rejoin(m, data, k, i);
    assert |Rest(m + data)| == |data[i..]|;
  }

  lemma {:induction false} NextZero(m: seq<bv8>, k: nat)
    ensures m + [0x80] + Zeros(k) + [0] == m + [0x80] + Zeros(k + 1)
  {
    assert Zeros(k) + [0] == Zeros(k + 1);
  }

  lemma {:induction false} CountStep(count: nat, n: nat, len: nat)
    requires count == 8 * n % TWO_64
    ensures (count + 8 * len) % TWO_64 == 8 * (n + len) % TWO_64
  {
    ModShift(count + 8 * len, TWO_64, 8 * n / TWO_64);
    assert count + 8 * len + 8 * n / TWO_64 * TWO_64 == 8 * (n + len);
  }

  /** The padding loop stops at the first length that is 56 modulo 64. */
  lemma {:induction false} PaddingGap(m: seq<bv8>, k: nat)
    requires k <= ZeroCount(|m|)
    ensures |m + [0x80] + Zeros(k)| % 64 == 56 <==> k == ZeroCount(|m|)
  {
    assert |m + [0x80] + Zeros(k)| == |m| + 1 + k;
  }

  /** No update copies more into the buffer than it holds. */
  ghost predicate BufferHeld(parts: seq<seq<bv8>>) {
    forall i :: 0 <= i < |parts| ==> |Concat(parts[..i])| % 64 + |parts[i]| < TWO_32
  }

  /** What the first `n` updates leave out of the count, in units of 2^32 bits. */
  ghost function Lost(parts: seq<seq<bv8>>, n: nat): nat
    requires n <= |parts| && BufferHeld(parts)
  {
    if n == 0 then 0
    else Lost(parts, n - 1) + Loss(8 * |Concat(parts[..n - 1])| % TWO_32, |parts[n - 1]|)
  }

  /**
   * However a message is cut into updates, the digest is that of the whole message padded with the length in the
   * counters. That is the length of the message exactly when the losses of all updates cancel modulo 2^64 bits, in
   * particular when there are none.
   */
  method DigestOfParts(parts: seq<seq<bv8>>) returns (digest: seq<bv8>, count: nat)
    requires BufferHeld(parts)
    ensures count < TWO_64 && count % TWO_32 == 8 * |Concat(parts)| % TWO_32
    ensures digest == Digest(Absorb(CompressBytes, INITIAL, Padded(Concat(parts), Be64(count))))
    ensures count == 8 * |Concat(parts)| % TWO_64 <==> Lost(parts, |parts|) % TWO_32 == 0
    ensures Lost(parts, |parts|) % TWO_32 == 0 ==> digest == Digest(Hash(Concat(parts)))
  {
    var ctx := FeedParts(parts);
    assert FedBody(ctx, parts, |parts|, Seal) && parts[..|parts|] == parts;
    count := CountValue(ctx.count0, ctx.count1);
    CountInRange(ctx.count0, ctx.count1);
    LowOfCount(ctx.count0, ctx.count1);
    ShortExact(ctx.count0, ctx.count1, Lost(parts, |parts|), |ctx.msg|);
    ctx.Final();
    digest := Digest(ctx.state);
  }

  /** The counters after part `i`. */
  lemma {:induction false} LostNext(parts: seq<seq<bv8>>, i: nat, count0: u32, count1: u32)
    requires i < |parts| && BufferHeld(parts) && count0 == 8 * |Concat(parts[..i])| % TWO_32
    requires Short(count0, count1, Lost(parts, i), |Concat(parts[..i])|)
    ensures |Concat(parts[..i])| % 64 + |parts[i]| < TWO_32
    ensures Concat(parts[..i + 1]) == Concat(parts[..i]) + parts[i]
    ensures var c := Advance(count0, count1, |parts[i]|);
            Short(c.0, c.1, Lost(parts, i + 1), |Concat(parts[..i + 1])|)
  {
    ConcatNext(parts, i);
    ShortNext(count0, count1, Lost(parts, i), |Concat(parts[..i])|, |parts[i]|);
  }

  /** The context has seen the first `i` parts. */
  ghost predicate Fed(ctx: Sha1Ctx, parts: seq<seq<bv8>>, i: nat)
    requires i <= |parts| && BufferHeld(parts)
    reads ctx, ctx.buffer
  {
    forall s: Seal :: FedBody(ctx, parts, i, s)
  }

  ghost predicate FedBody(ctx: Sha1Ctx, parts: seq<seq<bv8>>, i: nat, s: Seal)
    requires i <= |parts| && BufferHeld(parts)
    reads ctx, ctx.buffer
  {
    && ctx.Valid() && ctx.msg == Concat(parts[..i]) && ctx.f == CompressBytes && ctx.initial == INITIAL
    && Short(ctx.count0, ctx.count1, Lost(parts, i), |Concat(parts[..i])|)
  }

  method FeedPart(ctx: Sha1Ctx, parts: seq<seq<bv8>>, i: nat)
    requires i < |parts| && BufferHeld(parts) && Fed(ctx, parts, i)
    modifies ctx, ctx.buffer
    ensures Fed(ctx, parts, i + 1)
  {
    assert FedBody(ctx, parts, i, Seal);
    LostNext(parts, i, ctx.count0, ctx.count1);
    ctx.Update(parts[i]);
  }

  method StartParts(parts: seq<seq<bv8>>) returns (ctx: Sha1Ctx)
    requires BufferHeld(parts)
    ensures fresh(ctx) && fresh(ctx.buffer) && Fed(ctx, parts, 0)
  {
    CompressIsCompress();
    ctx := new Sha1Ctx(CompressBytes, INITIAL);
    assert Concat(parts[..0]) == [];
  }

  /** The updates of a message in parts. */
  method FeedParts(parts: seq<seq<bv8>>) returns (ctx: Sha1Ctx)
    requires BufferHeld(parts)
    ensures fresh(ctx) && fresh(ctx.buffer) && Fed(ctx, parts, |parts|)
  {
    ctx := StartParts(parts);
    for i := 0 to |parts|
      invariant fresh(ctx) && fresh(ctx.buffer) && Fed(ctx, parts, i)
    {
      FeedPart(ctx, parts, i);
    }
  }

  lemma {:induction false} LowOfCount(count0: u32, count1: u32)
    ensures CountValue(count0, count1) % TWO_32 == count0
  {
    DivModUnique(CountValue(count0, count1), TWO_32, count1, count0);
  }
}
