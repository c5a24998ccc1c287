/** Cipher block chaining in place, and the padding of section 6.3 of RFC 5652: `aes_encrypt` and `aes_decrypt`. */
module AesCbc {
  import opened RoundCipher
  import opened AesCipher
  import opened AesTables
  import opened AesKey
  import opened AesBlock

  // ----- chaining, for any block function

  function XorBlock(x: Block, y: Block): Block {
    seq(16, i requires 0 <= i < 16 => Add(x[i], y[i]))
  }

  function CbcEncrypt(e: Block -> Block, iv: Block, m: seq<Byte>): (c: seq<Byte>)
    requires |m| % 16 == 0
    ensures |c| == |m|
    decreases |m|
  {
    if m == [] then []
    else var c := e(XorBlock(iv, m[..16])); c + CbcEncrypt(e, c, m[16..])
  }

  function CbcDecrypt(d: Block -> Block, iv: Block, c: seq<Byte>): (m: seq<Byte>)
    requires |c| % 16 == 0
    ensures |m| == |c|
    decreases |c|
  {
    if c == [] then []
    else XorBlock(d(c[..16]), iv) + CbcDecrypt(d, c[..16], c[16..])
  }

  lemma {:induction false} XorBlockTwice(x: Block, y: Block)
    ensures XorBlock(XorBlock(x, y), x) == y
  {
    forall i: nat | i < 16 ensures Add(Add(x[i], y[i]), x[i]) == y[i] {
      XorByteTwice(x[i], y[i]);
    }
  }

  lemma {:induction false} XorByteTwice(x: Byte, y: Byte)
    ensures Add(Add(x, y), x) == y
  {
    AddComm(x, y);
    AddAssoc(y, x, x);
    AddSelf(x);
    AddSelf(y);
  }

  ghost predicate UndoesAt(d: Block -> Block, e: Block -> Block, b: Block) {
    d(e(b)) == b
  }

  ghost predicate Undoes(d: Block -> Block, e: Block -> Block) {
    forall b: Block :: UndoesAt(d, e, b)
  }

  /** Chained decryption undoes chained encryption. */
  lemma {:induction false} CbcRoundTrip(e: Block -> Block, d: Block -> Block, iv: Block, m: seq<Byte>)
    requires |m| % 16 == 0 && Undoes(d, e)
    ensures CbcDecrypt(d, iv, CbcEncrypt(e, iv, m)) == m
    decreases |m|
  {
    if m != [] {
      var x: Block := XorBlock(iv, m[..16]);
      var c: Block := e(x);
      assert UndoesAt(d, e, x);
      var rest := CbcEncrypt(e, c, m[16..]);
      assert (c + rest)[..16] == c && (c + rest)[16..] == rest;
      CbcRoundTrip(e, d, c, m[16..]);
      XorBlockTwice(iv, m[..16]);
      assert m[..16] + m[16..] == m;
    }
  }

  function BlockAt(m: seq<Byte>, j: nat): Block
    requires 16 * j + 16 <= |m|
  {
    m[16 * j..16 * j + 16]
  }

  /** Block `j` of what goes through the chain: the initial block and then the blocks of the ciphertext. */
  function LinkAt(iv: Block, c: seq<Byte>, j: nat): Block
    requires 16 * j <= |c|
  {
    if j == 0 then iv else BlockAt(c, j - 1)
  }

  lemma {:induction false} BlockAfter(a: Block, m: seq<Byte>, j: nat)
    requires 16 * j + 16 <= |m|
    ensures BlockAt(a + m, j + 1) == BlockAt(m, j)
  {
    assert (a + m)[16..] == m;
    assert (a + m)[16 * (j + 1)..16 * (j + 1) + 16] == (a + m)[16..][16 * j..16 * j + 16];
  }

  lemma {:induction false} FirstBlock(a: Block, m: seq<Byte>)
    ensures BlockAt(a + m, 0) == a
  {
    assert (a + m)[0..16] == a;
  }

  lemma {:induction false} LinkAfter(iv: Block, a: Block, m: seq<Byte>, j: nat)
    requires 16 * j <= |m|
    ensures LinkAt(iv, a + m, j + 1) == LinkAt(a, m, j)
  {
    if j == 0 {
      FirstBlock(a, m);
    } else {
      BlockAfter(a, m, j - 1);
    }
  }

  /** Every block of the plaintext is added to the block of ciphertext before it and encrypted (SP 800-38A, 6.2). */
  lemma {:induction false} EncryptedBlock(e: Block -> Block, iv: Block, m: seq<Byte>, j: nat)
    requires |m| % 16 == 0 && 16 * j + 16 <= |m|
    ensures var c := CbcEncrypt(e, iv, m); BlockAt(c, j) == e(XorBlock(LinkAt(iv, c, j), BlockAt(m, j)))
    decreases |m|
  {
    var head: Block, more := m[..16], m[16..];
    var first: Block := e(XorBlock(iv, head));
    var rest := CbcEncrypt(e, first, more);
    assert head + more == m;
    if j == 0 {
      FirstBlock(first, rest);
      FirstBlock(head, more);
    } else {
      EncryptedBlock(e, first, more, j - 1);
      BlockAfter(head, more, j - 1);
      BlockAfter(first, rest, j - 1);
      LinkAfter(iv, first, rest, j - 1);
    }
  }

  /** Every block of the ciphertext is decrypted and added to the block of ciphertext before it. */
  lemma {:induction false} DecryptedBlock(d: Block -> Block, iv: Block, c: seq<Byte>, j: nat)
    requires |c| % 16 == 0 && 16 * j + 16 <= |c|
    ensures BlockAt(CbcDecrypt(d, iv, c), j) == XorBlock(d(BlockAt(c, j)), LinkAt(iv, c, j))
    decreases |c|
  {
    var head: Block, more := c[..16], c[16..];
    var first: Block := XorBlock(d(head), iv);
    var rest := CbcDecrypt(d, head, more);
    assert head + more == c;
    if j == 0 {
      FirstBlock(first, rest);
      FirstBlock(head, more);
    } else {
      DecryptedBlock(d, head, more, j - 1);
      BlockAfter(first, rest, j - 1);
      BlockAfter(head, more, j - 1);
      LinkAfter(iv, head, more, j - 1);
    }
  }

  // ----- padding

  function RoundedUp(n: nat): nat {
    if n % 16 != 0 then (n / 16 + 1) * 16 else n
  }

  function PaddedLength(n: nat): nat {
    if n % 16 != 0 then RoundedUp(n) else n + 16
  }

  lemma {:induction false} PaddedLengthFacts(n: nat)
    ensures 1 <= PaddedLength(n) - n <= 16 && PaddedLength(n) % 16 == 0
    ensures RoundedUp(n) - n == 0 || RoundedUp(n) == PaddedLength(n)
    ensures RoundedUp(n) - n == 0 <==> n % 16 == 0
  {}

  function ByteOf(x: nat): Byte
    requires x <= 16
  {
    Byte(x as bv8)
  }

  function ValueOf(b: Byte): nat {
    b.v as int
  }

  lemma {:induction false} ValueOfByte(x: nat)
    requires x <= 16
    ensures ValueOf(ByteOf(x)) == x
  {
    ByteValue(x);
  }

  lemma {:induction false} ByteValue(x: nat)
    requires x <= 16
    ensures (x as bv8) as int == x
  {}

  /** The plaintext followed by as many bytes as are missing to the next block boundary, each holding their number. */
  function Pad(p: seq<Byte>): (r: seq<Byte>)
    ensures |r| == PaddedLength(|p|) && |r| % 16 == 0
  {
    PaddedLengthFacts(|p|);
    var d := PaddedLength(|p|) - |p|;
    p + seq(d, i => ByteOf(d))
  }

  /** Padding goes up to the next block boundary behind the text, and each byte of it tells its length. */
  lemma {:induction false} PadBytes(p: seq<Byte>)
    ensures var n := |Pad(p)| - |p|;
            && 1 <= n <= 16 && |Pad(p)| % 16 == 0 && Pad(p)[..|p|] == p
            && forall i :: |p| <= i < |Pad(p)| ==> ValueOf(Pad(p)[i]) == n
  {
    PaddedLengthFacts(|p|);
    ValueOfByte(PaddedLength(|p|) - |p|);
  }

  /** The length that the last byte of a decrypted text leaves. */
  function TextLength(m: seq<Byte>): int
    requires m != []
  {
    |m| - ValueOf(m[|m| - 1])
  }

  /** The last byte of a padded text tells the length of the text. */
  lemma {:induction false} LastPadByte(p: seq<Byte>)
    ensures Pad(p) != [] && TextLength(Pad(p)) == |p| && Pad(p)[..|p|] == p
  {
    PaddedLengthFacts(|p|);
    ValueOfByte(PaddedLength(|p|) - |p|);
  }

  // ----- the block functions of a key

  function EncryptFn(sb: SBox, key: seq<Byte>): Block -> Block
    requires ValidKey(key)
  {
    b => CipherBlock(AesLayers(sb), CipherKeys(sb, key), b)
  }

  function DecryptFn(sb: SBox, key: seq<Byte>): Block -> Block
    requires ValidKey(key)
  {
    b => CipherBlock(Inverse(AesLayers(sb)), DecryptionKeys(AesLayers(sb), CipherKeys(sb, key)), b)
  }

  /** `e` is the function that the round keys `keys` compute with the layers `l`. */
  ghost predicate ComputesAt(e: Block -> Block, l: Layers<State>, keys: seq<State>, b: Block)
    requires |keys| >= 2
  {
    e(b) == CipherBlock(l, keys, b)
  }

  ghost predicate ComputedBy(e: Block -> Block, l: Layers<State>, keys: seq<State>) {
    |keys| >= 2 && forall b: Block :: ComputesAt(e, l, keys, b)
  }

  lemma {:induction false} EncryptFnComputed(sb: SBox, key: seq<Byte>)
    requires ValidKey(key)
    ensures ComputedBy(EncryptFn(sb, key), AesLayers(sb), CipherKeys(sb, key))
  {}

  lemma {:induction false} DecryptFnComputed(sb: SBox, key: seq<Byte>)
    requires ValidKey(key)
    ensures ComputedBy(DecryptFn(sb, key), Inverse(AesLayers(sb)), DecryptionKeys(AesLayers(sb), CipherKeys(sb, key)))
  {}

  lemma {:induction false} ComputedUndoes(e: Block -> Block, d: Block -> Block, sb: SBox, keys: seq<State>,
                                          keys': seq<State>)
    requires Invertible(sb) && ComputedBy(e, AesLayers(sb), keys) && ComputedBy(d, Inverse(AesLayers(sb)), keys')
    requires keys' == DecryptionKeys(AesLayers(sb), keys)
    ensures Undoes(d, e)
  {
    forall b: Block ensures UndoesAt(d, e, b) {
      assert ComputesAt(e, AesLayers(sb), keys, b);
      assert ComputesAt(d, Inverse(AesLayers(sb)), keys', e(b));
      DecryptUndoesEncrypt(sb, keys, b);
    }
  }

  /** For every plaintext, key and initial block, the decrypted text is the padded plaintext. */
  lemma {:induction false} AesCbcRoundTrip(sb: SBox, key: seq<Byte>, iv: Block, p: seq<Byte>)
    requires Invertible(sb) && ValidKey(key)
    ensures CbcDecrypt(DecryptFn(sb, key), iv, CbcEncrypt(EncryptFn(sb, key), iv, Pad(p))) == Pad(p)
  {
    EncryptFnComputed(sb, key);
    DecryptFnComputed(sb, key);
    ComputedUndoes(EncryptFn(sb, key), DecryptFn(sb, key), sb, CipherKeys(sb, key),
                   DecryptionKeys(AesLayers(sb), CipherKeys(sb, key)));
    CbcRoundTrip(EncryptFn(sb, key), DecryptFn(sb, key), iv, Pad(p));
  }

  // ----- the code

  class Aes {
    const key: array<Word>
    var rounds: nat
    const reg: array<Byte>
    const tmp: array<Byte>
    ghost var keys: seq<State>  // the round keys that `key` holds

    ghost predicate Valid()
      reads this
    {
      key.Length == ROOM && reg.Length == 16 && tmp.Length == 16 && reg != tmp
    }

    ghost predicate Ready()
      reads this, key
    {
      Valid() && Holds(key, keys) && |keys| == rounds + 1 && (rounds == 10 || rounds == 12 || rounds == 14)
    }

    constructor ()
      ensures Valid() && fresh(key) && fresh(reg) && fresh(tmp)
    {
      key, rounds := new Word[ROOM](i => Word(0)), 0;
      reg, tmp := new Byte[16](i => Byte(0)), new Byte[16](i => Byte(0));
    }

    /** `AesSetKey`. */
    method SetKey(sb: SBox, userKey: seq<Byte>, iv: Block, decryption: bool) returns (code: int)
      requires Valid() && Invertible(sb)
      modifies this, key, reg
      ensures Valid()
      ensures !ValidKey(userKey) ==> code == BAD_FUNC_ARG && rounds == old(rounds)
      ensures !ValidKey(userKey) ==> key[..] == old(key[..]) && reg[..] == old(reg[..])
      ensures ValidKey(userKey) ==> code == 0 && Ready() && reg[..] == iv && rounds == RoundCount(userKey)
      ensures ValidKey(userKey) ==>
                var cipherKeys := CipherKeys(sb, userKey);
                keys == if decryption then DecryptionKeys(AesLayers(sb), cipherKeys) else cipherKeys
    {
      if !(|userKey| == 16 || |userKey| == 24 || |userKey| == 32) {
        return BAD_FUNC_ARG;
      }
      rounds := |userKey| / 4 + 6;
      ExpandKey(sb, key, userKey);
      keys := CipherKeys(sb, userKey);
      SamePrefix(Expansion(sb, BeWords(userKey), 4 * rounds + 4), key[..], rounds);
      if decryption {
        InvertSchedule(sb, key, rounds, keys);
        keys := DecryptionKeys(AesLayers(sb), keys);
      }
      Copy(reg, 0, iv);
      assert reg[..] == reg[0..16];
      code := 0;
    }

    /** `reg` through `AesEncrypt`, in place. */
    method EncryptReg(sb: SBox, ghost e: Block -> Block)
      requires Ready() && ComputedBy(e, AesLayers(sb), keys)
      modifies reg
      ensures reg[..] == e(old(reg[..]))
    {
      var b: Block := reg[..];
      var out := AesEncrypt(sb, key, rounds, b, b, keys);
      assert ComputesAt(e, AesLayers(sb), keys, b);
      Copy(reg, 0, out);
      assert reg[..] == reg[0..16];
    }

    /** `tmp` through `AesDecrypt`. */
    method DecryptTmp(sb: SBox, before: Block, ghost d: Block -> Block) returns (out: Block)
      requires Ready() && ComputedBy(d, Inverse(AesLayers(sb)), keys)
      ensures out == d(tmp[..])
    {
      var b: Block := tmp[..];
      out := AesDecrypt(sb, key, rounds, b, before, keys);
      assert ComputesAt(d, Inverse(AesLayers(sb)), keys, b);
    }

    /** One turn of `AesCbcEncrypt`. */
    method EncryptBlock(sb: SBox, out: array<Byte>, input: array<Byte>, k: nat, ghost e: Block -> Block)
      requires Ready() && ComputedBy(e, AesLayers(sb), keys)
      requires out != reg && input != reg && k + 16 <= out.Length && k + 16 <= input.Length
      modifies reg, out
      ensures Ready()
      ensures reg[..] == e(XorBlock(old(reg[..]), old(input[k..k + 16]))) && out[k..k + 16] == reg[..]
      ensures forall i :: 0 <= i < out.Length && (i < k || k + 16 <= i) ==> out[i] == old(out[i])
    {
      XorBuf(reg, 0, input[k..k + 16]);
      assert reg[..] == reg[0..16] && old(reg[..]) == old(reg[0..16]);
      EncryptReg(sb, e);
      Copy(out, k, reg[..]);
    }

    /** `AesCbcEncrypt`; `out` and `input` may be the same array. */
    method CbcEncryptBuffer(sb: SBox, out: array<Byte>, input: array<Byte>, sz: nat, ghost e: Block -> Block,
                            ghost m: seq<Byte>)
      requires Ready() && ComputedBy(e, AesLayers(sb), keys)
      requires out != reg && input != reg && sz <= out.Length && sz <= input.Length && m == input[..16 * (sz / 16)]
      modifies reg, out
      ensures |m| % 16 == 0 && out[..|m|] == CbcEncrypt(e, old(reg[..]), m)
      ensures forall i :: |m| <= i < out.Length ==> out[i] == old(out[i])
    {
      var n, k := 16 * (sz / 16), 0;
      assert m[0..] == m && input[..][0..n] == m;
      ghost var all := CbcEncrypt(e, reg[..], m);
      ChainStart(out[..], all);
      while k < n
        invariant k <= n && k % 16 == 0 && Unread(input[..], m, k)
        invariant Chained(out[..], CbcEncrypt(e, reg[..], m[k..]), all, k)
        invariant forall i :: n <= i < out.Length ==> out[i] == old(out[i])
      {
        WholeBlocks(sz, n, k);
        ghost var r, before, input0 := reg[..], out[..], input[..];
        FirstUnread(input0, m, k);
        EncryptBlock(sb, out, input, k, e);
        NextEncrypted(e, r, reg[..], m[k..], before, out[..], all, k);
        NextUnread(input0, input[..], m, k);
        k := k + 16;
      }
      ChainEnd(out[..], m, all, k);
    }

    /** One turn of `AesCbcDecrypt`. */
    method DecryptBlock(sb: SBox, out: array<Byte>, input: array<Byte>, k: nat, ghost d: Block -> Block)
      requires Ready() && ComputedBy(d, Inverse(AesLayers(sb)), keys) && out != reg && input != reg && out != tmp
      requires k + 16 <= out.Length && k + 16 <= input.Length
      modifies reg, tmp, out
      ensures Ready()
      ensures reg[..] == old(input[k..k + 16]) && out[k..k + 16] == XorBlock(d(reg[..]), old(reg[..]))
      ensures forall i :: 0 <= i < out.Length && (i < k || k + 16 <= i) ==> out[i] == old(out[i])
    {
      Copy(tmp, 0, input[k..k + 16]);
      assert tmp[..] == tmp[0..16];
      var block := DecryptTmp(sb, out[k..k + 16], d);
      Copy(out, k, block);
      XorBuf(out, k, reg[..]);
      Copy(reg, 0, tmp[..]);
      assert reg[..] == reg[0..16];
    }

    /** `AesCbcDecrypt`. */
    method CbcDecryptBuffer(sb: SBox, out: array<Byte>, input: array<Byte>, sz: nat, ghost d: Block -> Block,
                            ghost m: seq<Byte>)
      requires Ready() && ComputedBy(d, Inverse(AesLayers(sb)), keys)
      requires out != reg && input != reg && out != tmp && input != tmp
      requires sz <= out.Length && sz <= input.Length && m == input[..16 * (sz / 16)]
      modifies reg, tmp, out
      ensures |m| % 16 == 0 && out[..|m|] == CbcDecrypt(d, old(reg[..]), m)
      ensures forall i :: |m| <= i < out.Length ==> out[i] == old(out[i])
    {
      var n, k := 16 * (sz / 16), 0;
      assert m[0..] == m && input[..][0..n] == m;
      ghost var all := CbcDecrypt(d, reg[..], m);
      ChainStart(out[..], all);
      while k < n
        invariant k <= n && k % 16 == 0 && Unread(input[..], m, k)
        invariant Chained(out[..], CbcDecrypt(d, reg[..], m[k..]), all, k)
        invariant forall i :: n <= i < out.Length ==> out[i] == old(out[i])
      {
        WholeBlocks(sz, n, k);
        ghost var r, before, input0 := reg[..], out[..], input[..];
        FirstUnread(input0, m, k);
        DecryptBlock(sb, out, input, k, d);
        NextDecrypted(d, r, reg[..], m[k..], before, out[..], all, k);
        NextUnread(input0, input[..], m, k);
        k := k + 16;
      }
      ChainEnd(out[..], m, all, k);
    }
  }

  // ----- chaining in place

  /** What remains to be done after the blocks before `k`. */
  ghost predicate Chained(out: seq<Byte>, rest: seq<Byte>, all: seq<Byte>, k: nat) {
    k <= |out| && out[..k] + rest == all
  }

  lemma {:induction false} ChainStart(out: seq<Byte>, all: seq<Byte>)
    ensures Chained(out, all, all, 0)
  {}

  lemma {:induction false} ChainEnd(out: seq<Byte>, m: seq<Byte>, all: seq<Byte>, k: nat)
    requires k == |m|
    ensures m[k..] == [] && (Chained(out, [], all, k) ==> out[..k] == all)
  {}

  lemma {:induction false} NextEncrypted(e: Block -> Block, reg: Block, c: Block, m: seq<Byte>, before: seq<Byte>,
                                         out: seq<Byte>,
                      all: seq<Byte>, k: nat)
    requires |m| % 16 == 0 && |m| >= 16 && c == e(XorBlock(reg, m[..16]))
    requires k + 16 <= |out| == |before| && out[..k] == before[..k] && out[k..k + 16] == c
    requires Chained(before, CbcEncrypt(e, reg, m), all, k)
    ensures Chained(out, CbcEncrypt(e, c, m[16..]), all, k + 16)
  {
    assert out[..k + 16] == before[..k] + c;
  }

  lemma {:induction false} NextDecrypted(d: Block -> Block, reg: Block, c: Block, m: seq<Byte>, before: seq<Byte>,
                                         out: seq<Byte>,
                      all: seq<Byte>, k: nat)
    requires |m| % 16 == 0 && |m| >= 16 && c == m[..16]
    requires k + 16 <= |out| == |before| && out[..k] == before[..k] && out[k..k + 16] == XorBlock(d(c), reg)
    requires Chained(before, CbcDecrypt(d, reg, m), all, k)
    ensures Chained(out, CbcDecrypt(d, c, m[16..]), all, k + 16)
  {
    assert out[..k + 16] == before[..k] + XorBlock(d(c), reg);
  }

  /** The part of the data from `k` on, read from the input array while the output may be the same array. */
  ghost predicate Unread(input: seq<Byte>, m: seq<Byte>, k: nat) {
    k <= |m| <= |input| && input[k..|m|] == m[k..]
  }

  lemma {:induction false} NextUnread(input: seq<Byte>, input': seq<Byte>, m: seq<Byte>, k: nat)
    requires Unread(input, m, k) && k + 16 <= |m| && |input'| == |input|
    requires forall i :: k + 16 <= i < |input| ==> input'[i] == input[i]
    ensures Unread(input', m, k + 16)
  {
    assert forall i :: k <= i < |m| ==> input[i] == input[k..|m|][i - k];
    assert forall i :: k <= i < |m| ==> m[i] == m[k..][i - k];
  }

  lemma {:induction false} FirstUnread(input: seq<Byte>, m: seq<Byte>, k: nat)
    requires Unread(input, m, k) && k + 16 <= |m|
    ensures input[k..k + 16] == m[k..][..16] && m[k..][16..] == m[k + 16..]
  {
    assert input[k..|m|][..16] == input[k..k + 16];
  }

  lemma {:induction false} WholeBlocks(sz: nat, n: nat, k: nat)
    requires n == 16 * (sz / 16) && k % 16 == 0 && k < n
    ensures k + 16 <= n <= sz && (n - k) % 16 == 0 && (k + 16) % 16 == 0
  {}

  lemma {:induction false} SamePrefix(w: seq<Word>, v: seq<Word>, n: nat)
    requires 4 * n + 4 == |w| <= |v| && v[..4 * n + 4] == w
    ensures RoundKeys(v, n) == RoundKeys(w, n)
  {
    forall r: nat | r <= n ensures RoundKeys(v, n)[r] == RoundKeys(w, n)[r] {
      assert v[4 * r] == w[4 * r] && v[4 * r + 1] == w[4 * r + 1];
      assert v[4 * r + 2] == w[4 * r + 2] && v[4 * r + 3] == w[4 * r + 3];
    }
  }

  /** `memcpy` into an array. */
  method Copy(a: array<Byte>, at: nat, data: seq<Byte>)
    requires at + |data| <= a.Length
    modifies a
    ensures a[at..at + |data|] == data
    ensures forall i :: 0 <= i < a.Length && (i < at || at + |data| <= i) ==> a[i] == old(a[i])
  {
    forall i | 0 <= i < |data| {
      a[at + i] := data[i];
    }
  }

  /** `xorbuf` over one block. */
  method XorBuf(a: array<Byte>, at: nat, mask: Block)
    requires at + 16 <= a.Length
    modifies a
    ensures a[at..at + 16] == XorBlock(old(a[at..at + 16]), mask)
    ensures forall i :: 0 <= i < a.Length && (i < at || at + 16 <= i) ==> a[i] == old(a[i])
  {
    for i := 0 to 16
      invariant forall j :: 0 <= j < i ==> a[at + j] == Add(old(a[at + j]), mask[j])
      invariant forall j :: 0 <= j < a.Length && (j < at || at + i <= j) ==> a[j] == old(a[j])
    {
      a[at + i] := Add(a[at + i], mask[i]);
    }
  }

  // ----- the external functions

  /** How far `aes_encrypt` writes: one block more than it returns when the plaintext ends on a block boundary. */
  function WrittenLength(n: nat): nat {
    if n % 16 != 0 then RoundedUp(n) else n + 32
  }

  /** The test of `maxOutLen` keeps the writes, and the returned length, inside it exactly under these conditions. */
  lemma {:induction false} BufferTestExact(n: nat, maxOutLen: int)
    requires maxOutLen >= RoundedUp(n)
    ensures WrittenLength(n) <= maxOutLen <==> n % 16 != 0 || maxOutLen >= n + 32
    ensures PaddedLength(n) <= maxOutLen <==> n % 16 != 0 || maxOutLen >= n + 16
  {}

  /** A plaintext of 16 bytes is accepted for a buffer of 16 bytes: 48 are written and 32 returned. */
  lemma {:induction false} BufferTestFails()
    ensures RoundedUp(16) <= 16 < PaddedLength(16) == 32 < WrittenLength(16) == 48
  {}

  method Fill(a: array<Byte>, from: nat, to: nat, b: Byte)
    requires from <= to <= a.Length
    modifies a
    ensures forall i :: from <= i < to ==> a[i] == b
    ensures forall i :: 0 <= i < a.Length && (i < from || to <= i) ==> a[i] == old(a[i])
  {
    for i := from to to
      invariant forall j :: from <= j < i ==> a[j] == b
      invariant forall j :: 0 <= j < a.Length && (j < from || i <= j) ==> a[j] == old(a[j])
    {
      a[i] := b;
    }
  }

  /** The padding loops of `aes_encrypt`; the result is the length to encrypt. */
  method PadInPlace(buf: array<Byte>, plain: seq<Byte>, datLen: nat) returns (r: nat)
    requires datLen == RoundedUp(|plain|) && WrittenLength(|plain|) <= buf.Length && buf[..|plain|] == plain
    modifies buf
    ensures r == PaddedLength(|plain|) <= buf.Length && buf[..r] == Pad(plain)
    ensures |plain| % 16 == 0 ==> forall i :: r <= i < r + 16 ==> buf[i] == ByteOf(16)
    ensures forall i :: WrittenLength(|plain|) <= i < buf.Length ==> buf[i] == old(buf[i])
  {
    var n := |plain|;
    PaddedLengthFacts(n);
    r := datLen;
    if datLen - n > 0 {
      Fill(buf, n, datLen, ByteOf(datLen - n));
    } else if datLen - n == 0 {
      r := datLen + 0x10;
      Fill(buf, n, r + 16, ByteOf(0x10));
    }
    IsPadded(buf[..r], plain);
  }

  lemma {:induction false} IsPadded(b: seq<Byte>, p: seq<Byte>)
    requires |b| == PaddedLength(|p|) && b[..|p|] == p && |p| < |b| <= |p| + 16
    requires forall i :: |p| <= i < |b| ==> b[i] == ByteOf(|b| - |p|)
    ensures b == Pad(p)
  {
    assert b == b[..|p|] + b[|p|..];
  }

  /** `aes_encrypt`: the plaintext is copied to the output, padded there, and encrypted in place. */
  method AesEncryptData(sb: SBox, key: seq<Byte>, iv: Block, plainIn: array<Byte>, plainLength: nat,
                        encOut: array<Byte>, maxOutLen: int) returns (r: int)
    requires Invertible(sb) && ValidKey(key) && plainLength <= plainIn.Length && plainIn != encOut
    requires maxOutLen >= RoundedUp(plainLength) ==> WrittenLength(plainLength) <= encOut.Length
    modifies encOut
    ensures maxOutLen < RoundedUp(plainLength) ==> r == -1 && encOut[..] == old(encOut[..])
    ensures maxOutLen >= RoundedUp(plainLength) ==>
              && r == PaddedLength(plainLength) <= encOut.Length
              && encOut[..r] == CbcEncrypt(EncryptFn(sb, key), iv, Pad(plainIn[..plainLength]))
              && (plainLength % 16 == 0 ==> forall i :: r <= i < r + 16 ==> encOut[i] == ByteOf(16))
              && forall i :: WrittenLength(plainLength) <= i < encOut.Length ==> encOut[i] == old(encOut[i])
  {
    var enc := new Aes();
    var code := enc.SetKey(sb, key, iv, false);
    PaddedLengthFacts(plainLength);
    var datLen := RoundedUp(plainLength);
    if maxOutLen < datLen {
      return -1;
    }
    EncryptFnComputed(sb, key);
    r := PadAndEncrypt(sb, enc, plainIn[..plainLength], encOut, datLen, EncryptFn(sb, key));
  }

  /** `aes_encrypt` behind its test: copies the plaintext, pads it and encrypts it in place. */
  method PadAndEncrypt(sb: SBox, enc: Aes, plain: seq<Byte>, encOut: array<Byte>, datLen: nat, ghost e: Block -> Block)
    returns (r: nat)
    requires enc.Ready() && ComputedBy(e, AesLayers(sb), enc.keys) && encOut != enc.reg
    requires datLen == RoundedUp(|plain|) && WrittenLength(|plain|) <= encOut.Length
    modifies encOut, enc.reg
    ensures r == PaddedLength(|plain|) <= encOut.Length && encOut[..r] == CbcEncrypt(e, old(enc.reg[..]), Pad(plain))
    ensures |plain| % 16 == 0 ==> forall i :: r <= i < r + 16 ==> encOut[i] == ByteOf(16)
    ensures forall i :: WrittenLength(|plain|) <= i < encOut.Length ==> encOut[i] == old(encOut[i])
  {
    LengthBounds(|plain|);
    Copy(encOut, 0, plain);
    assert encOut[..|plain|] == encOut[0..|plain|];
    r := PadInPlace(encOut, plain, datLen);
    BlocksOf(r);
    enc.CbcEncryptBuffer(sb, encOut, encOut, r, e, Pad(plain));
  }

  lemma {:induction false} BlocksOf(n: nat)
    ensures n % 16 == 0 ==> 16 * (n / 16) == n
    ensures 16 * (n / 16) <= n
  {}

  /** What `aes_encrypt` does with 16 bytes of plaintext and `maxOutLen` 16: it writes up to byte 48. */
  method WritePastMaximum(sb: SBox, key: seq<Byte>, iv: Block, plainIn: array<Byte>, encOut: array<Byte>)
    returns (r: int)
    requires Invertible(sb) && ValidKey(key) && plainIn.Length >= 16 && plainIn != encOut && encOut.Length == 48
    modifies encOut
    ensures r == 32 && encOut[..32] == CbcEncrypt(EncryptFn(sb, key), iv, Pad(plainIn[..16]))
    ensures forall i :: 32 <= i < 48 ==> encOut[i] == ByteOf(16)
  {
    BufferTestFails();
    r := AesEncryptData(sb, key, iv, plainIn, 16, encOut, 16);
  }

  /**
   * `aes_decrypt`: the length comes from the last byte of the decrypted text, whatever it is. For an empty text that
   * is the byte in front of the output buffer, `front`.
   */
  method AesDecryptData(sb: SBox, key: seq<Byte>, iv: Block, encIn: array<Byte>, encLength: nat,
                        plainOut: array<Byte>, maxOutLen: int, front: Byte) returns (r: int)
    requires Invertible(sb) && ValidKey(key) && encLength <= encIn.Length
    requires maxOutLen >= encLength ==> encLength <= plainOut.Length
    modifies plainOut
    ensures maxOutLen < encLength ==> r == -1 && plainOut[..] == old(plainOut[..])
    ensures maxOutLen >= encLength ==>
              var n := 16 * (encLength / 16);
              && n % 16 == 0 && n <= encLength
              && plainOut[..n] == CbcDecrypt(DecryptFn(sb, key), iv, old(encIn[..n]))
              && (forall i :: n <= i < plainOut.Length ==> plainOut[i] == old(plainOut[i]))
              && r == if encLength == 0 then 0 - ValueOf(front) else TextLength(plainOut[..encLength])
  {
    if maxOutLen < encLength {
      return -1;
    }
    var dec := new Aes();
    var code := dec.SetKey(sb, key, iv, true);
    DecryptFnComputed(sb, key);
    BlocksOf(encLength);
    dec.CbcDecryptBuffer(sb, plainOut, encIn, encLength, DecryptFn(sb, key), encIn[..16 * (encLength / 16)]);
    r := if encLength == 0 then 0 - ValueOf(front) else TextLength(plainOut[..encLength]);
  }

  /** Decrypting what `aes_encrypt` returned gives back the plaintext and its length. */
  method EncryptThenDecrypt(sb: SBox, key: seq<Byte>, iv: Block, plain: array<Byte>, plainLength: nat,
                            enc: array<Byte>, out: array<Byte>, front: Byte) returns (r: int)
    requires Invertible(sb) && ValidKey(key) && plainLength <= plain.Length && plain != enc && plain != out
    requires enc.Length >= plainLength + 32 && out.Length >= plainLength + 16
    modifies enc, out
    ensures r == plainLength && out[..plainLength] == plain[..plainLength]
  {
    ghost var p := plain[..plainLength];
    LengthBounds(plainLength);
    var n := EncryptAll(sb, key, iv, plain, plainLength, enc);
    r := DecryptAll(sb, key, iv, enc, n, out, front, p);
  }

  /** Encryption with the whole output buffer on offer. */
  method EncryptAll(sb: SBox, key: seq<Byte>, iv: Block, plain: array<Byte>, plainLength: nat, enc: array<Byte>)
    returns (n: nat)
    requires Invertible(sb) && ValidKey(key) && plainLength <= plain.Length && plain != enc
    requires enc.Length >= WrittenLength(plainLength) && enc.Length >= RoundedUp(plainLength)
    modifies enc
    ensures n == PaddedLength(plainLength) <= enc.Length
    ensures enc[..n] == CbcEncrypt(EncryptFn(sb, key), iv, Pad(plain[..plainLength]))
  {
    n := AesEncryptData(sb, key, iv, plain, plainLength, enc, enc.Length);
  }

  /** Decryption of the bytes that encrypting `p` returned. */
  method DecryptAll(sb: SBox, key: seq<Byte>, iv: Block, enc: array<Byte>, n: nat, out: array<Byte>, front: Byte,
                    ghost p: seq<Byte>)
    returns (r: int)
    requires Invertible(sb) && ValidKey(key) && 1 <= n == PaddedLength(|p|) <= enc.Length && n <= out.Length && |p| <= n
    requires enc[..n] == CbcEncrypt(EncryptFn(sb, key), iv, Pad(p)) && n % 16 == 0
    modifies out
    ensures r == |p| && out[..|p|] == p
  {
    BlocksOf(n);
    ghost var c := enc[..n];
    r := AesDecryptData(sb, key, iv, enc, n, out, n, front);
    Recovered(sb, key, iv, p, c, out[..n]);
    PrefixOfPrefix(out, |p|, n);
  }

  lemma {:induction false} PrefixOfPrefix(a: array<Byte>, k: nat, n: nat)
    requires k <= n <= a.Length
    ensures a[..n][..k] == a[..k]
  {}

  lemma {:induction false} LengthBounds(n: nat)
    ensures RoundedUp(n) <= n + 16 && WrittenLength(n) <= n + 32 && 1 <= PaddedLength(n) <= n + 16
    ensures n <= PaddedLength(n) <= WrittenLength(n) && PaddedLength(n) % 16 == 0 && n <= RoundedUp(n)
  {}

  lemma {:induction false} Recovered(sb: SBox, key: seq<Byte>, iv: Block, p: seq<Byte>, c: seq<Byte>, m: seq<Byte>)
    requires Invertible(sb) && ValidKey(key)
    requires c == CbcEncrypt(EncryptFn(sb, key), iv, Pad(p)) && |c| % 16 == 0 &&
             m == CbcDecrypt(DecryptFn(sb, key), iv, c)
    ensures |p| < |m| && TextLength(m) == |p| && m[..|p|] == p
  {
    AesCbcRoundTrip(sb, key, iv, p);
    LastPadByte(p);
    PaddedLengthFacts(|p|);
  }
}
