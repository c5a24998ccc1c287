/** What MD5 and SHA-1 share: absorbing a byte stream in 64-byte blocks, and padding (RFC 1321, section 3.1). */
module BlockStream {

  type Byte = bv8

  /** The chaining value after the blocks of `m`, for any compression function `f`. */
  function Absorb<S>(f: (S, seq<Byte>) -> S, h: S, m: seq<Byte>): S
    requires |m| % 64 == 0
    decreases |m|, h
  {
    if m == [] then h else f(Absorb(f, h, m[..|m| - 64]), m[|m| - 64..])
  }

  lemma {:induction false} AbsorbBlock<S>(f: (S, seq<Byte>) -> S, h: S, m: seq<Byte>, b: seq<Byte>)
    requires |m| % 64 == 0 && |b| == 64
    ensures |m + b| % 64 == 0
    ensures Absorb(f, h, m + b) == f(Absorb(f, h, m), b)
  {
    assert (m + b)[..|m|] == m && (m + b)[|m|..] == b;
  }

  /** The complete blocks of a message, and what is left after them. */
  function Whole(m: seq<Byte>): (w: seq<Byte>)
    ensures |w| % 64 == 0
  {
    m[..|m| - |m| % 64]
  }

  function Rest(m: seq<Byte>): (r: seq<Byte>)
    ensures |r| == |m| % 64
  {
    m[|m| - |m| % 64..]
  }

  lemma {:induction false} WholeAndRest(m: seq<Byte>)
    ensures Whole(m) + Rest(m) == m
  {}

  lemma {:induction false} WholeOfBlocks(m: seq<Byte>)
    requires |m| % 64 == 0
    ensures Whole(m) == m && Rest(m) == []
  {}

  /** Data that does not fill the current block only grows the rest. */
  lemma {:induction false} ShortUpdate(m: seq<Byte>, data: seq<Byte>)
    requires |m| % 64 + |data| < 64
    ensures Whole(m + data) == Whole(m) && Rest(m + data) == Rest(m) + data
  {
    assert |m + data| % 64 == |m| % 64 + |data|;
    assert (m + data)[..|m| - |m| % 64] == Whole(m);
    assert (m + data)[|m| - |m| % 64..] == Rest(m) + data;
  }

  /** Less than a block after a whole number of blocks is the rest. */
  lemma {:induction false} RestAfterBlocks(m: seq<Byte>, data: seq<Byte>)
    requires |m| % 64 == 0 && |data| < 64
    ensures Whole(m + data) == m && Rest(m + data) == data
  {
    ShortUpdate(m, data);
    WholeOfBlocks(m);
  }

  /** Completing the buffered block. */
  lemma {:induction false} FilledBlock<S>(f: (S, seq<Byte>) -> S, h: S, m: seq<Byte>, data: seq<Byte>)
    requires |m| % 64 + |data| == 64
    ensures |m + data| % 64 == 0
    ensures Absorb(f, h, m + data) == f(Absorb(f, h, Whole(m)), Rest(m) + data)
  {
    BlockOfRest(m, data);
    AbsorbBlock(f, h, Whole(m), Rest(m) + data);
  }

  lemma {:induction false} BlockOfRest(m: seq<Byte>, data: seq<Byte>)
    ensures m + data == Whole(m) + (Rest(m) + data)
  {
    WholeAndRest(m);
    assert Whole(m) + Rest(m) + data == Whole(m) + (Rest(m) + data);
  }

  /** No data, nothing absorbed. */
  lemma {:induction false} EmptyStart<S>(f: (S, seq<Byte>) -> S, h: S, m: seq<Byte>)
    requires m == []
    ensures Absorb(f, h, Whole(m)) == h && Rest(m) == []
  {
    WholeOfBlocks(m);
  }

  function Zeros(n: nat): (z: seq<Byte>)
    ensures |z| == n
  {
    seq(n, i => 0)
  }

  /** The number of zero bytes that bring a message and its marker to 56 bytes modulo 64. */
  function ZeroCount(n: nat): nat {
    if n % 64 < 56 then 55 - n % 64 else 119 - n % 64
  }

  /** Message, marker byte 0x80, zeros, and the eight bytes of the length. */
  function Padded(m: seq<Byte>, length: seq<Byte>): (p: seq<Byte>)
    requires |length| == 8
    ensures |p| % 64 == 0
  {
    m + [0x80] + Zeros(ZeroCount(|m|)) + length
  }

  /** The message that the data of several updates makes up. */
  function Concat(parts: seq<seq<Byte>>): seq<Byte> {
    if parts == [] then [] else Concat(parts[..|parts| - 1]) + parts[|parts| - 1]
  }

  lemma {:induction false} ConcatNext(parts: seq<seq<Byte>>, i: nat)
    requires i < |parts|
    ensures Concat(parts[..i + 1]) == Concat(parts[..i]) + parts[i]
  {
    assert parts[..i + 1][..i] == parts[..i];
  }
}
