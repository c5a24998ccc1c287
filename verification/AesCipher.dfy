/**
 * Ciphers that alternate key addition with a shuffle of the state and a mixing layer: the equivalent inverse
 * cipher (section 5.3.5 of FIPS 197) in the abstract.
 */
module RoundCipher {
  import opened Common

  /** Key addition, the shuffle (SubBytes and ShiftRows) and the mixing layer, with the inverses of the last two. */
  datatype Layers<!S> = Layers(add: (S, S) -> S, shuffle: S -> S, unshuffle: S -> S, mix: S -> S, unmix: S -> S)

  /** The same cipher run with the inverse layers. */
  function Inverse<S>(l: Layers<S>): Layers<S> {
    Layers(l.add, l.unshuffle, l.shuffle, l.unmix, l.mix)
  }

  ghost predicate LawsAt<S>(l: Layers<S>, x: S, y: S) {
    && l.add(l.add(x, y), y) == x
    && l.unshuffle(l.shuffle(x)) == x
    && l.unmix(l.mix(x)) == x
    && l.unmix(l.add(x, y)) == l.add(l.unmix(x), l.unmix(y))
  }

  ghost predicate Laws<S(!new)>(l: Layers<S>) {
    forall x, y :: LawsAt(l, x, y)
  }

  /** The state after `r` full rounds. */
  function Rounds<S>(l: Layers<S>, keys: seq<S>, x: S, r: nat): S
    requires r < |keys|
  {
    if r == 0 then l.add(x, keys[0]) else l.add(l.mix(l.shuffle(Rounds(l, keys, x, r - 1))), keys[r])
  }

  /** All full rounds, and the last one without mixing. */
  function Cipher<S>(l: Layers<S>, keys: seq<S>, x: S): S
    requires |keys| >= 2
  {
    l.add(l.shuffle(Rounds(l, keys, x, |keys| - 2)), keys[|keys| - 1])
  }

  /** The decryption keys: reversed, all but the first and the last through the inverse mixing layer. */
  function DecryptionKey<S>(l: Layers<S>, keys: seq<S>, r: nat): S
    requires r < |keys|
  {
    var k := keys[|keys| - 1 - r];
    if r == 0 || r == |keys| - 1 then k else l.unmix(k)
  }

  function DecryptionKeys<S>(l: Layers<S>, keys: seq<S>): (d: seq<S>)
    ensures |d| == |keys|
  {
    seq(|keys|, r requires 0 <= r < |keys| => DecryptionKey(l, keys, r))
  }

  lemma {:induction false} FullRound<S>(l: Layers<S>, keys: seq<S>, x: S, r: nat)
    requires 0 < r < |keys|
    ensures Rounds(l, keys, x, r) == l.add(l.mix(l.shuffle(Rounds(l, keys, x, r - 1))), keys[r])
  {}

  lemma {:induction false} LastRound<S>(l: Layers<S>, keys: seq<S>, x: S, r: nat)
    requires |keys| >= 2 && r == |keys| - 1
    ensures Cipher(l, keys, x) == l.add(l.shuffle(Rounds(l, keys, x, r - 1)), keys[r])
  {}

  lemma {:induction false} UndoLast<S(!new)>(l: Layers<S>, keys: seq<S>, x: S, y: S, n: nat)
    requires Laws(l) && |keys| == n + 2 && y == Cipher(l, keys, x)
    ensures Rounds(Inverse(l), DecryptionKeys(l, keys), y, 0) == l.shuffle(Rounds(l, keys, x, n))
  {
    assert LawsAt(l, l.shuffle(Rounds(l, keys, x, n)), keys[n + 1]);
    assert DecryptionKeys(l, keys)[0] == keys[n + 1];
  }

  /** Round `r` of decryption has undone all that encryption did after its shuffle in round `n - r`. */
  lemma {:induction false} UndoneRounds<S(!new)>(l: Layers<S>, keys: seq<S>, x: S, y: S, n: nat, r: nat)
    requires Laws(l) && |keys| == n + 2 && r <= n && y == Cipher(l, keys, x)
    ensures Rounds(Inverse(l), DecryptionKeys(l, keys), y, r) == l.shuffle(Rounds(l, keys, x, n - r))
  {
    UndoneUpTo(l, keys, DecryptionKeys(l, keys), x, y, n, r);
    assert UndoneBody(l, keys, DecryptionKeys(l, keys), x, y, n, r, Seal);
  }

  ghost predicate UndoneBody<S>(l: Layers<S>, keys: seq<S>, d: seq<S>, x: S, y: S, n: nat, r: nat, s: Seal)
    requires |keys| == |d| == n + 2 && r <= n
  {
    Rounds(Inverse(l), d, y, r) == l.shuffle(Rounds(l, keys, x, n - r))
  }

  /** The claim about round `r`, for decryption keys `d`. */
  ghost predicate Undone<S(!new)>(l: Layers<S>, keys: seq<S>, d: seq<S>, x: S, y: S, n: nat, r: nat)
    requires |keys| == |d| == n + 2 && r <= n
  {
    forall s: Seal :: UndoneBody(l, keys, d, x, y, n, r, s)
  }

  lemma {:induction false} UndoneUpTo<S(!new)>(l: Layers<S>, keys: seq<S>, d: seq<S>, x: S, y: S, n: nat, r: nat)
    requires Laws(l) && |keys| == n + 2 && r <= n && y == Cipher(l, keys, x) && d == DecryptionKeys(l, keys)
    ensures Undone(l, keys, d, x, y, n, r)
    decreases r
  {
    if r == 0 {
      UndoLast(l, keys, x, y, n);
    } else {
      UndoneUpTo(l, keys, d, x, y, n, r - 1);
      MiddleKey(l, keys, r);
      UndoneStep(l, keys, d, x, y, n, r);
    }
  }

  lemma {:induction false} MiddleKey<S>(l: Layers<S>, keys: seq<S>, r: nat)
    requires 0 < r < |keys| - 1
    ensures DecryptionKeys(l, keys)[r] == l.unmix(keys[|keys| - 1 - r])
  {}

  /** One more round of decryption, with the keys `d`. */
  lemma {:induction false} UndoneStep<S(!new)>(l: Layers<S>, keys: seq<S>, d: seq<S>, x: S, y: S, n: nat, r: nat)
    requires Laws(l) && |keys| == |d| == n + 2 && 0 < r <= n && d[r] == l.unmix(keys[n + 1 - r])
    requires Undone(l, keys, d, x, y, n, r - 1)
    ensures Undone(l, keys, d, x, y, n, r)
  {
    assert UndoneBody(l, keys, d, x, y, n, r - 1, Seal);
    var k, m := keys[n + 1 - r], n + 1 - r;
    FullRound(l, keys, x, m);
    FullRound(Inverse(l), d, y, r);
    UndoRound(l, l.shuffle(Rounds(l, keys, x, n - r)), k, Rounds(l, keys, x, m));
  }

  lemma {:induction false} UndoRound<S(!new)>(l: Layers<S>, before: S, k: S, state: S)
    requires Laws(l) && state == l.add(l.mix(before), k)
    ensures l.add(l.unmix(l.unshuffle(l.shuffle(state))), l.unmix(k)) == before
  {
    assert LawsAt(l, state, state);
    assert LawsAt(l, l.mix(before), k);
    assert LawsAt(l, before, l.unmix(k));
  }

  /** The equivalent inverse cipher undoes the cipher. */
  lemma {:induction false} EquivalentInverse<S(!new)>(l: Layers<S>, keys: seq<S>, x: S)
    requires Laws(l) && |keys| >= 2
    ensures Cipher(Inverse(l), DecryptionKeys(l, keys), Cipher(l, keys, x)) == x
  {
    var n := |keys| - 2;
    UndoneRounds(l, keys, x, Cipher(l, keys, x), n, n);
    assert DecryptionKeys(l, keys)[n + 1] == keys[0];
    assert LawsAt(l, Rounds(l, keys, x, 0), x);
    assert LawsAt(l, x, keys[0]);
  }
}

/** The layers of AES (sections 5.1 and 5.3 of FIPS 197), for any S-box. */
module AesCipher {
  import opened AesAlgebra
  import opened RoundCipher

  datatype Byte = Byte(v: bv8)

  function Add(x: Byte, y: Byte): Byte {
    Byte(x.v ^ y.v)
  }

  /** Doubling in GF(2^8), modulo the polynomial 0x11b. */
  function Xtime(b: Byte): Byte {
    Byte((b.v << 1) ^ ((b.v >> 7) * 0x1b))
  }

  /** A column of the state, its first row first. */
  datatype Col = Col(r0: Byte, r1: Byte, r2: Byte, r3: Byte)

  function Xor(x: Col, y: Col): Col {
    Col(Add(x.r0, y.r0), Add(x.r1, y.r1), Add(x.r2, y.r2), Add(x.r3, y.r3))
  }

  function Double(c: Col): Col {
    Col(Xtime(c.r0), Xtime(c.r1), Xtime(c.r2), Xtime(c.r3))
  }

  function Rotate(c: Col): Col {
    Col(c.r1, c.r2, c.r3, c.r0)
  }

  const ZERO := Col(Byte(0), Byte(0), Byte(0), Byte(0))
  const COLUMNS := Space(Xor, ZERO, Double, Rotate)

  lemma {:induction false} AddLaws(x: Byte, y: Byte, z: Byte)
    ensures Add(Add(x, y), z) == Add(x, Add(y, z)) && Add(x, y) == Add(y, x)
    ensures Add(x, x) == Byte(0) && Add(x, Byte(0)) == x
  {
    AddAssoc(x, y, z);
    AddComm(x, y);
    AddSelf(x);
  }

  lemma {:induction false} AddAssoc(x: Byte, y: Byte, z: Byte)
    ensures Add(Add(x, y), z) == Add(x, Add(y, z))
  {}

  lemma {:induction false} AddComm(x: Byte, y: Byte)
    ensures Add(x, y) == Add(y, x)
  {}

  lemma {:induction false} AddSelf(x: Byte)
    ensures Add(x, x) == Byte(0) && Add(x, Byte(0)) == x
  {}

  lemma {:induction false} XtimeAdds(x: Byte, y: Byte)
    ensures Xtime(Add(x, y)) == Add(Xtime(x), Xtime(y))
  {
    XtimeBits(x.v, y.v);
  }

  lemma {:induction false} XtimeBits(x: bv8, y: bv8)
    ensures ((x ^ y) << 1) ^ (((x ^ y) >> 7) * 0x1b) == ((x << 1) ^ ((x >> 7) * 0x1b)) ^ ((y << 1) ^ ((y >> 7) * 0x1b))
  {}

  lemma {:induction false} XorLaws(x: Col, y: Col, z: Col)
    ensures Xor(Xor(x, y), z) == Xor(x, Xor(y, z)) && Xor(x, y) == Xor(y, x)
    ensures Xor(x, x) == ZERO && Xor(x, ZERO) == x
  {
    AddLaws(x.r0, y.r0, z.r0);
    AddLaws(x.r1, y.r1, z.r1);
    AddLaws(x.r2, y.r2, z.r2);
    AddLaws(x.r3, y.r3, z.r3);
  }

  lemma {:induction false} DoubleAdds(x: Col, y: Col)
    ensures Double(Xor(x, y)) == Xor(Double(x), Double(y))
  {
    XtimeAdds(x.r0, y.r0);
    XtimeAdds(x.r1, y.r1);
    XtimeAdds(x.r2, y.r2);
    XtimeAdds(x.r3, y.r3);
  }

  /** Columns satisfy the laws from which `InvMixUndoesMix` follows. */
  lemma {:induction false} ColumnLaws()
    ensures AesAlgebra.Laws(COLUMNS)
  {
    forall x, y, z ensures AesAlgebra.LawsAt(COLUMNS, x, y, z) {
      ColumnLawsAt(x, y, z);
    }
  }

  lemma {:induction false} ColumnLawsAt(x: Col, y: Col, z: Col)
    ensures AesAlgebra.LawsAt(COLUMNS, x, y, z)
  {
    XorLaws(x, y, z);
    DoubleAdds(x, y);
  }

  // ----- the state

  datatype State = State(c0: Col, c1: Col, c2: Col, c3: Col)

  function AddRoundKey(x: State, k: State): State {
    State(Xor(x.c0, k.c0), Xor(x.c1, k.c1), Xor(x.c2, k.c2), Xor(x.c3, k.c3))
  }

  function MixColumn(c: Col): Col { Mix(COLUMNS, c) }
  function InvMixColumn(c: Col): Col { InvMix(COLUMNS, c) }

  function MapState(f: Col -> Col, x: State): State {
    State(f(x.c0), f(x.c1), f(x.c2), f(x.c3))
  }

  function MixColumns(x: State): State { MapState(MixColumn, x) }
  function InvMixColumns(x: State): State { MapState(InvMixColumn, x) }

  /** A byte substitution and its inverse. */
  datatype SBox = SBox(sub: Byte -> Byte, inv: Byte -> Byte)

  ghost predicate Invertible(sb: SBox) {
    forall b :: sb.inv(sb.sub(b)) == b
  }

  function MapCol(f: Byte -> Byte, c: Col): Col {
    Col(f(c.r0), f(c.r1), f(c.r2), f(c.r3))
  }

  function SubBytes(f: Byte -> Byte, x: State): State {
    State(MapCol(f, x.c0), MapCol(f, x.c1), MapCol(f, x.c2), MapCol(f, x.c3))
  }

  /** Row `i` moves left by `i` columns. */
  function ShiftRows(x: State): State {
    State(Col(x.c0.r0, x.c1.r1, x.c2.r2, x.c3.r3), Col(x.c1.r0, x.c2.r1, x.c3.r2, x.c0.r3),
          Col(x.c2.r0, x.c3.r1, x.c0.r2, x.c1.r3), Col(x.c3.r0, x.c0.r1, x.c1.r2, x.c2.r3))
  }

  /** Row `i` moves right by `i` columns. */
  function InvShiftRows(x: State): State {
    State(Col(x.c0.r0, x.c3.r1, x.c2.r2, x.c1.r3), Col(x.c1.r0, x.c0.r1, x.c3.r2, x.c2.r3),
          Col(x.c2.r0, x.c1.r1, x.c0.r2, x.c3.r3), Col(x.c3.r0, x.c2.r1, x.c1.r2, x.c0.r3))
  }

  function SubShift(sb: SBox, x: State): State { ShiftRows(SubBytes(sb.sub, x)) }
  function InvSubShift(sb: SBox, x: State): State { InvShiftRows(SubBytes(sb.inv, x)) }

  function AesLayers(sb: SBox): Layers<State> {
    Layers(AddRoundKey, x => SubShift(sb, x), x => InvSubShift(sb, x), MixColumns, InvMixColumns)
  }

  lemma {:induction false} AddTwice(x: Col, k: Col)
    ensures Xor(Xor(x, k), k) == x
  {
    XorLaws(x, k, k);
    XorLaws(x, x, x);
  }

  lemma {:induction false} AddRoundKeyTwice(x: State, k: State)
    ensures AddRoundKey(AddRoundKey(x, k), k) == x
  {
    AddTwice(x.c0, k.c0);
    AddTwice(x.c1, k.c1);
    AddTwice(x.c2, k.c2);
    AddTwice(x.c3, k.c3);
  }

  lemma {:induction false} ShuffleInverts(sb: SBox, x: State)
    requires Invertible(sb)
    ensures InvSubShift(sb, SubShift(sb, x)) == x
  {}

  lemma {:induction false} MixInverts(x: State)
    ensures InvMixColumns(MixColumns(x)) == x
  {
    ColumnLaws();
    InvMixUndoesMix(COLUMNS, x.c0);
    InvMixUndoesMix(COLUMNS, x.c1);
    InvMixUndoesMix(COLUMNS, x.c2);
    InvMixUndoesMix(COLUMNS, x.c3);
  }

  lemma {:induction false} InvMixColumnAdds(x: Col, y: Col)
    ensures InvMixColumn(Xor(x, y)) == Xor(InvMixColumn(x), InvMixColumn(y))
  {
    ColumnLaws();
    InvMixAdds(COLUMNS, x, y);
  }

  lemma {:induction false} InvMixColumnsAdds(x: State, k: State)
    ensures InvMixColumns(AddRoundKey(x, k)) == AddRoundKey(InvMixColumns(x), InvMixColumns(k))
  {
    InvMixColumnAdds(x.c0, k.c0);
    InvMixColumnAdds(x.c1, k.c1);
    InvMixColumnAdds(x.c2, k.c2);
    InvMixColumnAdds(x.c3, k.c3);
  }

  /** The layers of AES undo one another as the equivalent inverse cipher needs. */
  lemma {:induction false} AesLaws(sb: SBox)
    requires Invertible(sb)
    ensures RoundCipher.Laws(AesLayers(sb))
  {
    forall x, k ensures RoundCipher.LawsAt(AesLayers(sb), x, k) {
      AddRoundKeyTwice(x, k);
      ShuffleInverts(sb, x);
      MixInverts(x);
      InvMixColumnsAdds(x, k);
    }
  }
}
