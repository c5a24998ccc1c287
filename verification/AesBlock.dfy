/** The decryption schedule and the two block functions, `AesEncrypt` and `AesDecrypt`. */
module AesBlock {
  import opened RoundCipher
  import opened AesCipher
  import opened AesTables
  import opened AesKey

  // ----- the decryption schedule

  method SwapWords(rk: array<Word>, i: nat, j: nat)
    requires i < rk.Length && j < rk.Length
    modifies rk
    ensures rk[i] == old(rk[j]) && rk[j] == old(rk[i])
    ensures forall c :: 0 <= c < rk.Length && c != i && c != j ==> rk[c] == old(rk[c])
  {
    var temp := rk[i];
    rk[i] := rk[j];
    rk[j] := temp;
  }

  /** One turn of the reversal: the four words of two round keys change places. */
  method SwapRoundKeys(rk: array<Word>, p: nat, q: nat, ghost n: nat)
    requires p < q <= n && 4 * n + 4 <= rk.Length
    modifies rk
    ensures RoundKey(rk[..], p) == RoundKey(old(rk[..]), q) && RoundKey(rk[..], q) == RoundKey(old(rk[..]), p)
    ensures forall r: nat :: r <= n && r != p && r != q ==> RoundKey(rk[..], r) == RoundKey(old(rk[..]), r)
  {
    var i, j := 4 * p, 4 * q;
    SwapWords(rk, i, j);
    SwapWords(rk, i + 1, j + 1);
    SwapWords(rk, i + 2, j + 2);
    SwapWords(rk, i + 3, j + 3);
  }

  /** Round key `r` while the reversal has done the first `p` turns. */
  ghost predicate ReversedAt(w: seq<Word>, keys: seq<State>, n: nat, p: nat, r: nat)
    requires r <= n < |keys| && 4 * n + 4 <= |w|
  {
    RoundKey(w, r) == if r < p || r > n - p then keys[n - r] else keys[r]
  }

  /** Inverts the order of the round keys. */
  method ReverseRoundKeys(rk: array<Word>, n: nat, ghost keys: seq<State>)
    requires 4 * n + 4 <= rk.Length && keys == RoundKeys(rk[..], n)
    modifies rk
    ensures forall r: nat :: r <= n ==> RoundKey(rk[..], r) == keys[n - r]
  {
    var p, q := 0, n;
    while p < q
      invariant 0 <= p <= q + 1 && q == n - p
      invariant forall r: nat :: r <= n ==> ReversedAt(rk[..], keys, n, p, r)
    {
      ghost var before := rk[..];
      assert ReversedAt(before, keys, n, p, p) && ReversedAt(before, keys, n, p, q);
      SwapRoundKeys(rk, p, q, n);
      p, q := p + 1, q - 1;
      forall r: nat | r <= n ensures ReversedAt(rk[..], keys, n, p, r) {
        assert ReversedAt(before, keys, n, p - 1, r);
      }
    }
    forall r: nat | r <= n ensures RoundKey(rk[..], r) == keys[n - r] {
      assert ReversedAt(rk[..], keys, n, p, r);
    }
  }

  /** The inverse column transformation, through `Te[4]` and the decryption tables. */
  function InvMixWord(sb: SBox, w: Word): Word {
    Xor4(Td0(sb, GetByte(AndW(Te4(sb, GetByte(w, 3)), 0xff), 0)),
         Td1(sb, GetByte(AndW(Te4(sb, GetByte(w, 2)), 0xff), 0)),
         Td2(sb, GetByte(AndW(Te4(sb, GetByte(w, 1)), 0xff), 0)),
         Td3(sb, GetByte(AndW(Te4(sb, GetByte(w, 0)), 0xff), 0)))
  }

  lemma {:induction false} LowByte(b: Byte)
    ensures GetByte(AndW(Pack(b, b, b, b), 0xff), 0) == b
  {
    ColOfMaskedLow(b);
  }

  lemma {:induction false} InvMixWordCol(sb: SBox, w: Word)
    requires Invertible(sb)
    ensures ColOf(InvMixWord(sb, w)) == InvMixColumn(ColOf(w))
  {
    var a, b, c, d := sb.sub(GetByte(w, 3)), sb.sub(GetByte(w, 2)), sb.sub(GetByte(w, 1)), sb.sub(GetByte(w, 0));
    LowByte(a);
    LowByte(b);
    LowByte(c);
    LowByte(d);
    TdSum(sb, a, b, c, d);
  }

  /** `g` on words computes `f` on columns. */
  ghost predicate Computes(g: Word -> Word, f: Col -> Col) {
    forall w :: ColOf(g(w)) == f(ColOf(w))
  }

  lemma {:induction false} ComputesInvMix(sb: SBox)
    requires Invertible(sb)
    ensures Computes(w => InvMixWord(sb, w), InvMixColumn)
  {
    forall w: Word ensures ColOf(InvMixWord(sb, w)) == InvMixColumn(ColOf(w)) {
      InvMixWordCol(sb, w);
    }
  }

  /** Applies `g` to the words of all round keys but the first and the last. */
  method MapMiddleKeys(rk: array<Word>, n: nat, g: Word -> Word)
    requires n >= 1 && 4 * n + 4 <= rk.Length
    modifies rk
    ensures forall c :: 4 <= c < 4 * n ==> rk[c] == g(old(rk[c]))
    ensures forall c :: 0 <= c < rk.Length && (c < 4 || 4 * n <= c) ==> rk[c] == old(rk[c])
  {
    var at := 0;
    for i := 1 to n
      invariant at == 4 * (i - 1)
      invariant forall c :: 4 <= c < 4 * i ==> rk[c] == g(old(rk[c]))
      invariant forall c :: 0 <= c < rk.Length && (c < 4 || 4 * i <= c) ==> rk[c] == old(rk[c])
    {
      at := at + 4;
      rk[at] := g(rk[at]);
      rk[at + 1] := g(rk[at + 1]);
      rk[at + 2] := g(rk[at + 2]);
      rk[at + 3] := g(rk[at + 3]);
    }
  }

  /** The decryption half of `AesSetKeyLocal`. */
  method InvertSchedule(sb: SBox, rk: array<Word>, n: nat, ghost keys: seq<State>)
    requires Invertible(sb) && n >= 1 && 4 * n + 4 <= rk.Length && keys == RoundKeys(rk[..], n)
    modifies rk
    ensures RoundKeys(rk[..], n) == DecryptionKeys(AesLayers(sb), keys)
  {
    ReverseRoundKeys(rk, n, keys);
    ghost var reversed := rk[..];
    ComputesInvMix(sb);
    MapMiddleKeys(rk, n, w => InvMixWord(sb, w));
    InvertedKeys(AesLayers(sb), w => InvMixWord(sb, w), InvMixColumn, keys, reversed, rk[..], n);
  }

  lemma {:induction false} InvertedKeys(l: Layers<State>, g: Word -> Word, f: Col -> Col, keys: seq<State>,
                                        reversed: seq<Word>,
                     w: seq<Word>, n: nat)
    requires |keys| == n + 1 && 4 * n + 4 <= |reversed| == |w|
    requires Computes(g, f) && forall x :: l.unmix(x) == MapState(f, x)
    requires forall r: nat :: r <= n ==> RoundKey(reversed, r) == keys[n - r]
    requires forall c :: 4 <= c < 4 * n ==> w[c] == g(reversed[c])
    requires forall c :: 0 <= c < |w| && (c < 4 || 4 * n <= c) ==> w[c] == reversed[c]
    ensures RoundKeys(w, n) == DecryptionKeys(l, keys)
  {
    forall r: nat | r <= n ensures RoundKeys(w, n)[r] == DecryptionKeys(l, keys)[r] {
      assert RoundKey(reversed, r) == keys[n - r];
      if 0 < r < n {
        MappedKey(g, f, reversed, w, r);
      } else {
        assert RoundKey(w, r) == RoundKey(reversed, r);
      }
      assert RoundKey(w, r) == DecryptionKey(l, keys, r);
    }
  }

  lemma {:induction false} MappedKey(g: Word -> Word, f: Col -> Col, reversed: seq<Word>, w: seq<Word>, r: nat)
    requires 4 * r + 4 <= |reversed| == |w| && Computes(g, f)
    requires forall c :: 4 * r <= c < 4 * r + 4 ==> w[c] == g(reversed[c])
    ensures RoundKey(w, r) == MapState(f, RoundKey(reversed, r))
  {
    assert w[4 * r] == g(reversed[4 * r]) && w[4 * r + 1] == g(reversed[4 * r + 1]);
    assert w[4 * r + 2] == g(reversed[4 * r + 2]) && w[4 * r + 3] == g(reversed[4 * r + 3]);
  }

  // ----- blocks

  type Block = b: seq<Byte> | |b| == 16 witness seq(16, i => Byte(0))

  /** A block fills the state column by column. */
  function StateOf(b: Block): State {
    State(Col(b[0], b[1], b[2], b[3]), Col(b[4], b[5], b[6], b[7]),
          Col(b[8], b[9], b[10], b[11]), Col(b[12], b[13], b[14], b[15]))
  }

  function ColBytes(c: Col): seq<Byte> {
    [c.r0, c.r1, c.r2, c.r3]
  }

  function BytesOf(x: State): (b: Block)
    ensures StateOf(b) == x
  {
    ColBytes(x.c0) + ColBytes(x.c1) + ColBytes(x.c2) + ColBytes(x.c3)
  }

  lemma {:induction false} BytesOfState(b: Block)
    ensures BytesOf(StateOf(b)) == b
  {}

  /** The AES cipher on blocks: encryption with the layers of `AesLayers`, decryption with their inverses. */
  function CipherBlock(l: Layers<State>, keys: seq<State>, b: Block): Block
    requires |keys| >= 2
  {
    BytesOf(Cipher(l, keys, StateOf(b)))
  }

  /** AES decryption undoes AES encryption, for every S-box with an inverse, every key and every block. */
  lemma {:induction false} DecryptUndoesEncrypt(sb: SBox, keys: seq<State>, b: Block)
    requires Invertible(sb) && |keys| >= 2
    ensures CipherBlock(Inverse(AesLayers(sb)), DecryptionKeys(AesLayers(sb), keys),
                        CipherBlock(AesLayers(sb), keys, b)) == b
  {
    AesLaws(sb);
    EquivalentInverse(AesLayers(sb), keys, StateOf(b));
    BytesOfState(b);
  }

  // ----- the code, on four words

  /** A word of the block, loaded by a little-endian host and reversed. */
  method LoadWord(b: Block, i: nat) returns (w: Word)
    requires i < 4
    ensures ColOf(w) == Col(b[4 * i], b[4 * i + 1], b[4 * i + 2], b[4 * i + 3])
  {
    ReverseLoaded(b[4 * i], b[4 * i + 1], b[4 * i + 2], b[4 * i + 3]);
    w := ByteReverse(LeWord(b, i));
    ColOfPack(b[4 * i], b[4 * i + 1], b[4 * i + 2], b[4 * i + 3]);
  }

  /** The bytes that storing a reversed word leaves in memory. */
  method StoreWord(w: Word) returns (b: seq<Byte>)
    ensures b == ColBytes(ColOf(w))
  {
    var v := ByteReverse(w);
    StoredBytes(w, v);
    b := [GetByte(v, 0), GetByte(v, 1), GetByte(v, 2), GetByte(v, 3)];
  }

  lemma {:induction false} StoredBytes(w: Word, v: Word)
    requires v == ByteReverse(w)
    ensures GetByte(v, 0) == GetByte(w, 3) && GetByte(v, 1) == GetByte(w, 2)
    ensures GetByte(v, 2) == GetByte(w, 1) && GetByte(v, 3) == GetByte(w, 0)
  {
    PackColOf(w);
    ReverseLoaded(GetByte(w, 0), GetByte(w, 1), GetByte(w, 2), GetByte(w, 3));
    ColOfPack(GetByte(w, 0), GetByte(w, 1), GetByte(w, 2), GetByte(w, 3));
  }

  /** The state that four words hold. */
  ghost function Words(w: Word, x: Word, y: Word, z: Word): State {
    State(ColOf(w), ColOf(x), ColOf(y), ColOf(z))
  }

  /** A column of the state after the shuffle: one byte from each of four columns. */
  ghost function Picked(f: Byte -> Byte, w: Col, x: Col, y: Col, z: Col): Col {
    Col(f(w.r0), f(x.r1), f(y.r2), f(z.r3))
  }

  /** A full round for one column, by the encryption tables. */
  method EncColumn(sb: SBox, w: Word, x: Word, y: Word, z: Word, k: Word) returns (t: Word)
    ensures ColOf(t) == Xor(MixColumn(Picked(sb.sub, ColOf(w), ColOf(x), ColOf(y), ColOf(z))), ColOf(k))
  {
    var sum := Xor4(Te0(sb, GetByte(w, 3)), Te1(sb, GetByte(x, 2)), Te2(sb, GetByte(y, 1)), Te3(sb, GetByte(z, 0)));
    TeSum(sb, GetByte(w, 3), GetByte(x, 2), GetByte(y, 1), GetByte(z, 0));
    ColOfXor(sum, k);
    t := XorW(sum, k);
  }

  /** The last round for one column: no mixing. */
  method EncLastColumn(sb: SBox, w: Word, x: Word, y: Word, z: Word, k: Word) returns (t: Word)
    ensures ColOf(t) == Xor(Picked(sb.sub, ColOf(w), ColOf(x), ColOf(y), ColOf(z)), ColOf(k))
  {
    var sum := Masked4(Te4(sb, GetByte(w, 3)), Te4(sb, GetByte(x, 2)), Te4(sb, GetByte(y, 1)), Te4(sb, GetByte(z, 0)));
    MaskedSum(sb.sub(GetByte(w, 3)), sb.sub(GetByte(x, 2)), sb.sub(GetByte(y, 1)), sb.sub(GetByte(z, 0)));
    ColOfXor(sum, k);
    t := XorW(sum, k);
  }

  method DecColumn(sb: SBox, w: Word, x: Word, y: Word, z: Word, k: Word) returns (t: Word)
    ensures ColOf(t) == Xor(InvMixColumn(Picked(sb.inv, ColOf(w), ColOf(x), ColOf(y), ColOf(z))), ColOf(k))
  {
    var sum := Xor4(Td0(sb, GetByte(w, 3)), Td1(sb, GetByte(x, 2)), Td2(sb, GetByte(y, 1)), Td3(sb, GetByte(z, 0)));
    TdSum(sb, GetByte(w, 3), GetByte(x, 2), GetByte(y, 1), GetByte(z, 0));
    ColOfXor(sum, k);
    t := XorW(sum, k);
  }

  method DecLastColumn(sb: SBox, w: Word, x: Word, y: Word, z: Word, k: Word) returns (t: Word)
    ensures ColOf(t) == Xor(Picked(sb.inv, ColOf(w), ColOf(x), ColOf(y), ColOf(z)), ColOf(k))
  {
    var sum := Masked4(Td4(sb, GetByte(w, 3)), Td4(sb, GetByte(x, 2)), Td4(sb, GetByte(y, 1)), Td4(sb, GetByte(z, 0)));
    MaskedSum(sb.inv(GetByte(w, 3)), sb.inv(GetByte(x, 2)), sb.inv(GetByte(y, 1)), sb.inv(GetByte(z, 0)));
    ColOfXor(sum, k);
    t := XorW(sum, k);
  }

  /** The state with each column mixed by `f` and the key added. */
  ghost function RoundState(f: Col -> Col, x: State, k: State): State {
    AddRoundKey(MapState(f, x), k)
  }

  method EncRound(sb: SBox, s0: Word, s1: Word, s2: Word, s3: Word, rk: array<Word>, at: nat)
    returns (t0: Word, t1: Word, t2: Word, t3: Word)
    requires at + 4 <= rk.Length
    ensures Words(t0, t1, t2, t3) ==
            RoundState(MixColumn, SubShift(sb, Words(s0, s1, s2, s3)),
                       Words(rk[at], rk[at + 1], rk[at + 2], rk[at + 3]))
  {
    t0 := EncColumn(sb, s0, s1, s2, s3, rk[at]);
    t1 := EncColumn(sb, s1, s2, s3, s0, rk[at + 1]);
    t2 := EncColumn(sb, s2, s3, s0, s1, rk[at + 2]);
    t3 := EncColumn(sb, s3, s0, s1, s2, rk[at + 3]);
  }

  method EncLast(sb: SBox, s0: Word, s1: Word, s2: Word, s3: Word, rk: array<Word>, at: nat)
    returns (t0: Word, t1: Word, t2: Word, t3: Word)
    requires at + 4 <= rk.Length
    ensures Words(t0, t1, t2, t3) ==
            AddRoundKey(SubShift(sb, Words(s0, s1, s2, s3)), Words(rk[at], rk[at + 1], rk[at + 2], rk[at + 3]))
  {
    t0 := EncLastColumn(sb, s0, s1, s2, s3, rk[at]);
    t1 := EncLastColumn(sb, s1, s2, s3, s0, rk[at + 1]);
    t2 := EncLastColumn(sb, s2, s3, s0, s1, rk[at + 2]);
    t3 := EncLastColumn(sb, s3, s0, s1, s2, rk[at + 3]);
  }

  method DecRound(sb: SBox, s0: Word, s1: Word, s2: Word, s3: Word, rk: array<Word>, at: nat)
    returns (t0: Word, t1: Word, t2: Word, t3: Word)
    requires at + 4 <= rk.Length
    ensures Words(t0, t1, t2, t3) ==
            RoundState(InvMixColumn, InvSubShift(sb, Words(s0, s1, s2, s3)),
                       Words(rk[at], rk[at + 1], rk[at + 2], rk[at + 3]))
  {
    t0 := DecColumn(sb, s0, s3, s2, s1, rk[at]);
    t1 := DecColumn(sb, s1, s0, s3, s2, rk[at + 1]);
    t2 := DecColumn(sb, s2, s1, s0, s3, rk[at + 2]);
    t3 := DecColumn(sb, s3, s2, s1, s0, rk[at + 3]);
  }

  method DecLast(sb: SBox, s0: Word, s1: Word, s2: Word, s3: Word, rk: array<Word>, at: nat)
    returns (t0: Word, t1: Word, t2: Word, t3: Word)
    requires at + 4 <= rk.Length
    ensures Words(t0, t1, t2, t3) ==
            AddRoundKey(InvSubShift(sb, Words(s0, s1, s2, s3)), Words(rk[at], rk[at + 1], rk[at + 2], rk[at + 3]))
  {
    t0 := DecLastColumn(sb, s0, s3, s2, s1, rk[at]);
    t1 := DecLastColumn(sb, s1, s0, s3, s2, rk[at + 1]);
    t2 := DecLastColumn(sb, s2, s1, s0, s3, rk[at + 2]);
    t3 := DecLastColumn(sb, s3, s2, s1, s0, rk[at + 3]);
  }

  // ----- whole blocks

  lemma {:induction false} EncLayers(sb: SBox, x: State, k: State)
    ensures RoundState(MixColumn, SubShift(sb, x), k) ==
            AesLayers(sb).add(AesLayers(sb).mix(AesLayers(sb).shuffle(x)), k)
    ensures AddRoundKey(SubShift(sb, x), k) == AesLayers(sb).add(AesLayers(sb).shuffle(x), k)
  {}

  lemma {:induction false} DecLayers(sb: SBox, x: State, k: State)
    ensures var l := Inverse(AesLayers(sb));
            RoundState(InvMixColumn, InvSubShift(sb, x), k) == l.add(l.mix(l.shuffle(x)), k)
    ensures var l := Inverse(AesLayers(sb)); AddRoundKey(InvSubShift(sb, x), k) == l.add(l.shuffle(x), k)
  {}

  /** `rk` holds the round keys `keys`. */
  ghost predicate Holds(rk: array<Word>, keys: seq<State>)
    reads rk
  {
    |keys| >= 2 && 4 * |keys| <= rk.Length && keys == RoundKeys(rk[..], |keys| - 1)
  }

  ghost predicate TraceAt(l: Layers<State>, keys: seq<State>, x: State, trace: seq<State>, r: nat)
    requires 2 <= |keys| == |trace| && r < |trace|
  {
    trace[r] == StateAfter(l, keys, x, r)
  }

  ghost function StateAfter(l: Layers<State>, keys: seq<State>, x: State, r: nat): State
    requires r < |keys| && |keys| >= 2
  {
    if r == |keys| - 1 then Cipher(l, keys, x) else Rounds(l, keys, x, r)
  }

  /** `trace` lists the states after 0, 1, ... rounds, the last of them without mixing. */
  ghost predicate IsTrace(l: Layers<State>, keys: seq<State>, x: State, trace: seq<State>) {
    2 <= |keys| == |trace| && forall r: nat :: r < |trace| ==> TraceAt(l, keys, x, trace, r)
  }

  ghost function Trace(l: Layers<State>, keys: seq<State>, x: State): (t: seq<State>)
    requires |keys| >= 2
    ensures IsTrace(l, keys, x, t)
  {
    seq(|keys|, r requires 0 <= r < |keys| => StateAfter(l, keys, x, r))
  }

  lemma {:induction false} HeldKey(rk: array<Word>, keys: seq<State>, at: nat, r: nat)
    requires Holds(rk, keys) && r < |keys| && at == 4 * r
    ensures at + 4 <= rk.Length && keys[r] == Words(rk[at], rk[at + 1], rk[at + 2], rk[at + 3])
  {
    assert RoundKeys(rk[..], |keys| - 1)[r] == RoundKey(rk[..], r);
  }

  /** Round `r` of encryption. */
  method EncStep(sb: SBox, s0: Word, s1: Word, s2: Word, s3: Word, rk: array<Word>, at: nat,
                 ghost keys: seq<State>, ghost x: State, ghost trace: seq<State>, ghost r: nat)
    returns (t0: Word, t1: Word, t2: Word, t3: Word)
    requires Holds(rk, keys) && IsTrace(AesLayers(sb), keys, x, trace) && 0 < r < |keys| - 1 && at == 4 * r
    requires Words(s0, s1, s2, s3) == trace[r - 1]
    ensures Words(t0, t1, t2, t3) == trace[r]
  {
    HeldKey(rk, keys, at, r);
    EncLayers(sb, trace[r - 1], keys[r]);
    FullRound(AesLayers(sb), keys, x, r);
    assert TraceAt(AesLayers(sb), keys, x, trace, r - 1) && TraceAt(AesLayers(sb), keys, x, trace, r);
    t0, t1, t2, t3 := EncRound(sb, s0, s1, s2, s3, rk, at);
  }

  method EncFinish(sb: SBox, s0: Word, s1: Word, s2: Word, s3: Word, rk: array<Word>, at: nat,
                   ghost keys: seq<State>, ghost x: State, ghost trace: seq<State>, ghost r: nat)
    returns (t0: Word, t1: Word, t2: Word, t3: Word)
    requires Holds(rk, keys) && IsTrace(AesLayers(sb), keys, x, trace) && r == |keys| - 1 && at == 4 * r
    requires Words(s0, s1, s2, s3) == trace[r - 1]
    ensures Words(t0, t1, t2, t3) == trace[r]
  {
    HeldKey(rk, keys, at, r);
    EncLayers(sb, trace[r - 1], keys[r]);
    LastRound(AesLayers(sb), keys, x, r);
    assert TraceAt(AesLayers(sb), keys, x, trace, r - 1) && TraceAt(AesLayers(sb), keys, x, trace, r);
    t0, t1, t2, t3 := EncLast(sb, s0, s1, s2, s3, rk, at);
  }

  /** All rounds of encryption, two in a turn of the loop. */
  method EncRounds(sb: SBox, w0: Word, w1: Word, w2: Word, w3: Word, rk: array<Word>, rounds: nat,
                   ghost keys: seq<State>, ghost x: State, ghost trace: seq<State>)
    returns (s0: Word, s1: Word, s2: Word, s3: Word)
    requires Holds(rk, keys) && IsTrace(AesLayers(sb), keys, x, trace)
    requires |keys| == rounds + 1 && rounds % 2 == 0 && rounds >= 2
    requires Words(w0, w1, w2, w3) == trace[0]
    ensures Words(s0, s1, s2, s3) == trace[rounds]
  {
    s0, s1, s2, s3 := w0, w1, w2, w3;
    var t0, t1, t2, t3 := w0, w1, w2, w3;
    var r, at := rounds / 2, 0;
    ghost var done := 0;
    while true
      invariant 1 <= r && done == rounds - 2 * r >= 0 && at == 4 * done
      invariant Words(s0, s1, s2, s3) == trace[done]
      decreases r
    {
      t0, t1, t2, t3 := EncStep(sb, s0, s1, s2, s3, rk, at + 4, keys, x, trace, done + 1);
      at := at + 8;
      done := done + 2;
      r := r - 1;
      if r == 0 {
        break;
      }
      s0, s1, s2, s3 := EncStep(sb, t0, t1, t2, t3, rk, at, keys, x, trace, done);
    }
    s0, s1, s2, s3 := EncFinish(sb, t0, t1, t2, t3, rk, at, keys, x, trace, rounds);
  }

  /** Round `r` of decryption. */
  method DecStep(sb: SBox, s0: Word, s1: Word, s2: Word, s3: Word, rk: array<Word>, at: nat,
                 ghost keys: seq<State>, ghost x: State, ghost trace: seq<State>, ghost r: nat)
    returns (t0: Word, t1: Word, t2: Word, t3: Word)
    requires Holds(rk, keys) && IsTrace(Inverse(AesLayers(sb)), keys, x, trace) && 0 < r < |keys| - 1 && at == 4 * r
    requires Words(s0, s1, s2, s3) == trace[r - 1]
    ensures Words(t0, t1, t2, t3) == trace[r]
  {
    HeldKey(rk, keys, at, r);
    DecLayers(sb, trace[r - 1], keys[r]);
    FullRound(Inverse(AesLayers(sb)), keys, x, r);
    assert TraceAt(Inverse(AesLayers(sb)), keys, x, trace, r - 1) && TraceAt(Inverse(AesLayers(sb)), keys, x, trace, r);
    t0, t1, t2, t3 := DecRound(sb, s0, s1, s2, s3, rk, at);
  }

  method DecFinish(sb: SBox, s0: Word, s1: Word, s2: Word, s3: Word, rk: array<Word>, at: nat,
                   ghost keys: seq<State>, ghost x: State, ghost trace: seq<State>, ghost r: nat)
    returns (t0: Word, t1: Word, t2: Word, t3: Word)
    requires Holds(rk, keys) && IsTrace(Inverse(AesLayers(sb)), keys, x, trace) && r == |keys| - 1 && at == 4 * r
    requires Words(s0, s1, s2, s3) == trace[r - 1]
    ensures Words(t0, t1, t2, t3) == trace[r]
  {
    HeldKey(rk, keys, at, r);
    DecLayers(sb, trace[r - 1], keys[r]);
    LastRound(Inverse(AesLayers(sb)), keys, x, r);
    assert TraceAt(Inverse(AesLayers(sb)), keys, x, trace, r - 1) && TraceAt(Inverse(AesLayers(sb)), keys, x, trace, r);
    t0, t1, t2, t3 := DecLast(sb, s0, s1, s2, s3, rk, at);
  }

  /** All rounds of decryption, two in a turn of the loop. */
  method DecRounds(sb: SBox, w0: Word, w1: Word, w2: Word, w3: Word, rk: array<Word>, rounds: nat,
                   ghost keys: seq<State>, ghost x: State, ghost trace: seq<State>)
    returns (s0: Word, s1: Word, s2: Word, s3: Word)
    requires Holds(rk, keys) && IsTrace(Inverse(AesLayers(sb)), keys, x, trace)
    requires |keys| == rounds + 1 && rounds % 2 == 0 && rounds >= 2
    requires Words(w0, w1, w2, w3) == trace[0]
    ensures Words(s0, s1, s2, s3) == trace[rounds]
  {
    s0, s1, s2, s3 := w0, w1, w2, w3;
    var t0, t1, t2, t3 := w0, w1, w2, w3;
    var r, at := rounds / 2, 0;
    ghost var done := 0;
    while true
      invariant 1 <= r && done == rounds - 2 * r >= 0 && at == 4 * done
      invariant Words(s0, s1, s2, s3) == trace[done]
      decreases r
    {
      t0, t1, t2, t3 := DecStep(sb, s0, s1, s2, s3, rk, at + 4, keys, x, trace, done + 1);
      at := at + 8;
      done := done + 2;
      r := r - 1;
      if r == 0 {
        break;
      }
      s0, s1, s2, s3 := DecStep(sb, t0, t1, t2, t3, rk, at, keys, x, trace, done);
    }
    s0, s1, s2, s3 := DecFinish(sb, t0, t1, t2, t3, rk, at, keys, x, trace, rounds);
  }

  /** The first key addition. */
  method FirstKey(b: Block, rk: array<Word>, ghost l: Layers<State>, ghost keys: seq<State>)
    returns (s0: Word, s1: Word, s2: Word, s3: Word)
    requires Holds(rk, keys) && l.add == AddRoundKey
    ensures Words(s0, s1, s2, s3) == Rounds(l, keys, StateOf(b), 0)
  {
    var w0 := LoadWord(b, 0);
    var w1 := LoadWord(b, 1);
    var w2 := LoadWord(b, 2);
    var w3 := LoadWord(b, 3);
    HeldKey(rk, keys, 0, 0);
    s0, s1, s2, s3 := XorW(w0, rk[0]), XorW(w1, rk[1]), XorW(w2, rk[2]), XorW(w3, rk[3]);
    WordsOfXor(w0, w1, w2, w3, rk[0], rk[1], rk[2], rk[3]);
    assert Words(w0, w1, w2, w3) == StateOf(b);
  }

  lemma {:induction false} WordsOfXor(w: Word, x: Word, y: Word, z: Word, a: Word, b: Word, c: Word, d: Word)
    ensures Words(XorW(w, a), XorW(x, b), XorW(y, c), XorW(z, d)) == AddRoundKey(Words(w, x, y, z), Words(a, b, c, d))
  {
    ColOfXor(w, a);
    ColOfXor(x, b);
    ColOfXor(y, c);
    ColOfXor(z, d);
  }

  method StoreState(s0: Word, s1: Word, s2: Word, s3: Word) returns (b: Block)
    ensures b == BytesOf(Words(s0, s1, s2, s3))
  {
    var b0 := StoreWord(s0);
    var b1 := StoreWord(s1);
    var b2 := StoreWord(s2);
    var b3 := StoreWord(s3);
    b := b0 + b1 + b2 + b3;
  }

  /** `AesEncrypt`; a round count that no key length gives leaves the output block as it was. */
  method AesEncrypt(sb: SBox, rk: array<Word>, rounds: nat, inBlock: Block, before: Block, ghost keys: seq<State>)
    returns (outBlock: Block)
    requires 2 <= rounds < 16 ==> rounds % 2 == 0 && Holds(rk, keys) && |keys| == rounds + 1
    ensures outBlock == if 2 <= rounds < 16 then CipherBlock(AesLayers(sb), keys, inBlock) else before
  {
    var r := rounds / 2;
    if r > 7 || r == 0 {
      return before;
    }
    ghost var trace := Trace(AesLayers(sb), keys, StateOf(inBlock));
    assert TraceAt(AesLayers(sb), keys, StateOf(inBlock), trace, 0);
    assert TraceAt(AesLayers(sb), keys, StateOf(inBlock), trace, rounds);
    var s0, s1, s2, s3 := FirstKey(inBlock, rk, AesLayers(sb), keys);
    s0, s1, s2, s3 := EncRounds(sb, s0, s1, s2, s3, rk, rounds, keys, StateOf(inBlock), trace);
    outBlock := StoreState(s0, s1, s2, s3);
  }

  /** `AesDecrypt`. */
  method AesDecrypt(sb: SBox, rk: array<Word>, rounds: nat, inBlock: Block, before: Block, ghost keys: seq<State>)
    returns (outBlock: Block)
    requires 2 <= rounds < 16 ==> rounds % 2 == 0 && Holds(rk, keys) && |keys| == rounds + 1
    ensures outBlock == if 2 <= rounds < 16 then CipherBlock(Inverse(AesLayers(sb)), keys, inBlock) else before
  {
    var r := rounds / 2;
    if r > 7 || r == 0 {
      return before;
    }
    ghost var trace := Trace(Inverse(AesLayers(sb)), keys, StateOf(inBlock));
    assert TraceAt(Inverse(AesLayers(sb)), keys, StateOf(inBlock), trace, 0);
    assert TraceAt(Inverse(AesLayers(sb)), keys, StateOf(inBlock), trace, rounds);
    var s0, s1, s2, s3 := FirstKey(inBlock, rk, Inverse(AesLayers(sb)), keys);
    s0, s1, s2, s3 := DecRounds(sb, s0, s1, s2, s3, rk, rounds, keys, StateOf(inBlock), trace);
    outBlock := StoreState(s0, s1, s2, s3);
  }
}
