/** String literals as section 7 of RFC 8259 writes them, and what the parser makes of the others. */
module JsonLiteral {
  import opened Common
  import opened Bits
  import opened CStrings
  import opened Occurrence
  import opened JsonString
  import opened Json
  import opened JsonParse

  // ----- the grammar

  /**
   * A piece of a literal: a byte as it stands, a short escape, a code unit with its digits, or a surrogate pair with
   * the digits of both halves.
   */
  datatype Piece =
    | Raw(b: byte)
    | Short(letter: byte)
    | Unit(cp: nat, d: seq<byte>)
    | Pair(cp: nat, high: seq<byte>, low: seq<byte>)

  /** The letters of the short escapes, and what they stand for. */
  const SHORT_ESCAPES: map<byte, byte> :=
    map[34 := 34, 92 := 92, 47 := 47, 98 := 8, 102 := 12, 110 := 10, 114 := 13, 116 := 9]

  /** `b` is a digit of value `n`, in either case. */
  predicate IsDigit(b: byte, n: nat) {
    (n < 10 && b == 48 + n) || (10 <= n < 16 && (b == 55 + n || b == 87 + n))
  }

  /** Four digits of a number. */
  predicate AreDigits(d: seq<byte>, n: nat) {
    && |d| == 4 && n < 0x10000
    && IsDigit(d[0], n / 4096) && IsDigit(d[1], n / 256 % 16) && IsDigit(d[2], n / 16 % 16) && IsDigit(d[3], n % 16)
  }

  ghost predicate IsPiece(p: Piece) {
    forall s: Seal :: PieceBody(p, s)
  }

  ghost predicate PieceBody(p: Piece, s: Seal) {
    match p
    case Raw(b) => b != QUOTE && b != BACKSLASH
    case Short(letter) => letter in SHORT_ESCAPES
    case Unit(cp, d) => AreDigits(d, cp) && !(0xD800 <= cp <= 0xDFFF)
    case Pair(cp, high, low) =>
      && 0x10000 <= cp <= 0x10FFFF
      && AreDigits(high, 0xD800 + (cp - 0x10000) / 0x400) && AreDigits(low, 0xDC00 + (cp - 0x10000) % 0x400)
  }

  function Spelled(p: Piece): seq<byte> {
    match p
    case Raw(b) => [b]
    case Short(letter) => [BACKSLASH, letter]
    case Unit(_, d) => [BACKSLASH, 117] + d
    case Pair(_, high, low) => [BACKSLASH, 117] + high + ([BACKSLASH, 117] + low)
  }

  /** The bytes that a piece stands for. */
  function Meant(p: Piece): seq<byte> {
    match p
    case Raw(b) => [b]
    case Short(letter) => if letter in SHORT_ESCAPES then [SHORT_ESCAPES[letter]] else []
    case Unit(cp, _) => if cp <= 0x10FFFF then Utf8(cp) else []
    case Pair(cp, _, _) => if cp <= 0x10FFFF then Utf8(cp) else []
  }

  type Pieces = seq<Piece>

  ghost predicate ArePieces(ps: Pieces) {
    forall i :: 0 <= i < |ps| ==> IsPiece(ps[i])
  }

  function SpelledAll(ps: Pieces): seq<byte> {
    if ps == [] then [] else Spelled(ps[0]) + SpelledAll(ps[1..])
  }

  function MeantAll(ps: Pieces): seq<byte> {
    if ps == [] then [] else Meant(ps[0]) + MeantAll(ps[1..])
  }

  // ----- one piece

  lemma {:induction false} DigitValue(b: byte, n: nat)
    requires IsDigit(b, n)
    ensures HexValue(b) == Some(n) && n < 16 && b != QUOTE && b != BACKSLASH && b != 0
  {}

  lemma {:induction false} DigitsValue(c: seq<byte>, i: nat, d: seq<byte>, n: nat)
    requires AreDigits(d, n) && Has(c, i, [BACKSLASH, 117] + d)
    ensures i + 6 <= |c| && Code(c, i) == n && c[i] == BACKSLASH && c[i + 1] == 117
    ensures forall k :: i + 2 <= k < i + 6 ==> c[k] != QUOTE && c[k] != BACKSLASH
  {
    var e := [BACKSLASH, 117] + d;
    assert HasBody(c, i, e, Seal);
    HasAt(c, i, e, 0);
    HasAt(c, i, e, 1);
    HasAt(c, i, e, 2);
    HasAt(c, i, e, 3);
    HasAt(c, i, e, 4);
    HasAt(c, i, e, 5);
    DigitValue(d[0], n / 4096);
    DigitValue(d[1], n / 256 % 16);
    DigitValue(d[2], n / 16 % 16);
    DigitValue(d[3], n % 16);
    SplitHex(n);
  }

  /** The first pass steps over a piece. */
  lemma {:induction false} UnitScanned(c: seq<byte>, i: nat)
    requires i + 6 <= |c| && c[i] == BACKSLASH
    requires forall k :: i + 2 <= k < i + 6 ==> c[k] != QUOTE && c[k] != BACKSLASH
    ensures StringEnd(c, i) == StringEnd(c, i + 6)
  {
    ScanPlain4(c, i + 2);
  }

  lemma {:induction false} PairSplit(c: seq<byte>, i: nat, p: Piece)
    requires p.Pair? && IsPiece(p) && Has(c, i, Spelled(p))
    ensures Has(c, i, [BACKSLASH, 117] + p.high) && Has(c, i + 6, [BACKSLASH, 117] + p.low) && i + 12 <= |c|
  {
    assert PieceBody(p, Seal);
    assert HasBody(c, i, Spelled(p), Seal);
    HasSplit(c, i, [BACKSLASH, 117] + p.high, [BACKSLASH, 117] + p.low, Spelled(p));
  }

  lemma {:induction false} PieceScanned(c: seq<byte>, i: nat, p: Piece)
    requires IsPiece(p) && Has(c, i, Spelled(p))
    ensures StringEnd(c, i) == StringEnd(c, i + |Spelled(p)|)
  {
    assert PieceBody(p, Seal);
    assert HasBody(c, i, Spelled(p), Seal);
    HasAt(c, i, Spelled(p), 0);
    match p {
      case Raw(b) =>
      case Short(letter) =>
      case Unit(cp, d) =>
        DigitsValue(c, i, d, cp);
        UnitScanned(c, i);
      case Pair(cp, high, low) =>
        PairSplit(c, i, p);
        DigitsValue(c, i, high, 0xD800 + (cp - 0x10000) / 0x400);
        UnitScanned(c, i);
        DigitsValue(c, i + 6, low, 0xDC00 + (cp - 0x10000) % 0x400);
        UnitScanned(c, i + 6);
    }
  }

  lemma {:induction false} PairValue(cp: nat)
    requires 0x10000 <= cp <= 0x10FFFF
    ensures var hi, lo := 0xD800 + (cp - 0x10000) / 0x400, 0xDC00 + (cp - 0x10000) % 0x400;
            0xD800 <= hi <= 0xDBFF && 0xDC00 <= lo <= 0xDFFF && FromSurrogates(hi, lo) == cp
  {}

  lemma {:induction false} UnitEscapes(c: seq<byte>, i: nat, cp: nat, d: seq<byte>, end: nat)
    requires AreDigits(d, cp) && !(0xD800 <= cp <= 0xDFFF) && Has(c, i, [BACKSLASH, 117] + d) && i + 6 <= end < |c|
    ensures EscapeAt(c, i, end) == Some(Literal(Utf8(cp), 6))
  {
    DigitsValue(c, i, d, cp);
    assert CodePointAt(c, i, end) == Some(CodePoint(cp, 6));
  }

  lemma {:induction false} PairEscapes(c: seq<byte>, i: nat, p: Piece, end: nat)
    requires p.Pair? && IsPiece(p) && Has(c, i, Spelled(p)) && i + 12 <= end < |c|
    ensures p.cp <= 0x10FFFF && EscapeAt(c, i, end) == Some(Literal(Utf8(p.cp), 12))
  {
    assert PieceBody(p, Seal);
    PairSplit(c, i, p);
    PairValue(p.cp);
    DigitsValue(c, i, p.high, 0xD800 + (p.cp - 0x10000) / 0x400);
    DigitsValue(c, i + 6, p.low, 0xDC00 + (p.cp - 0x10000) % 0x400);
    assert CodePointAt(c, i, end) == Some(CodePoint(p.cp, 12));
  }

  /** A piece that is no byte as it stands is one escape of the second pass. */
  lemma {:induction false} PieceEscapes(c: seq<byte>, i: nat, p: Piece, end: nat)
    requires !p.Raw? && IsPiece(p) && Has(c, i, Spelled(p)) && i + |Spelled(p)| <= end < |c|
    ensures c[i] == BACKSLASH && EscapeAt(c, i, end) == Some(Literal(Meant(p), |Spelled(p)|))
  {
    assert PieceBody(p, Seal);
    HasAt(c, i, Spelled(p), 0);
    match p {
      case Short(letter) =>
        HasAt(c, i, Spelled(p), 1);
      case Unit(cp, d) =>
        UnitEscapes(c, i, cp, d, end);
      case Pair(_, _, _) =>
        PairEscapes(c, i, p, end);
    }
  }

  lemma {:induction false} PieceDecoded(c: seq<byte>, i: nat, p: Piece, end: nat)
    requires IsPiece(p) && Has(c, i, Spelled(p)) && i + |Spelled(p)| <= end < |c|
    ensures Decode(c, i, end) == Prepend(Meant(p), Decode(c, i + |Spelled(p)|, end))
  {
    if p.Raw? {
      assert PieceBody(p, Seal);
      HasAt(c, i, Spelled(p), 0);
    } else {
      PieceEscapes(c, i, p, end);
    }
  }

  // ----- all pieces

  ghost predicate SpansBody(c: seq<byte>, i: nat, t: seq<byte>, j: nat, end: nat, x: Seal)
    requires end < |c|
  {
    StringEnd(c, i) == StringEnd(c, j) && Decode(c, i, end) == Prepend(t, Decode(c, j, end))
  }

  /** Both passes go from `i` to `j`, and what stands there means `t`. */
  ghost predicate Spans(c: seq<byte>, i: nat, t: seq<byte>, j: nat, end: nat) {
    i <= j <= end < |c| && forall x: Seal :: SpansBody(c, i, t, j, end, x)
  }

  lemma {:induction false} SpansBoth(c: seq<byte>, i: nat, a: seq<byte>, m: nat, b: seq<byte>, j: nat, end: nat,
                                     t: seq<byte>)
    requires Spans(c, i, a, m, end) && Spans(c, m, b, j, end) && t == a + b
    ensures Spans(c, i, t, j, end)
  {
    assert SpansBody(c, i, a, m, end, Seal) && SpansBody(c, m, b, j, end, Seal);
    PrependTwo(a, b, Decode(c, j, end));
  }

  lemma {:induction false} SpansNothing(c: seq<byte>, i: nat, end: nat)
    requires i <= end < |c|
    ensures Spans(c, i, [], i, end)
  {
    PrependNone(Decode(c, i, end));
  }

  lemma {:induction false} PieceSpans(c: seq<byte>, i: nat, p: Piece, t: seq<byte>, j: nat, end: nat)
    requires IsPiece(p) && Has(c, i, Spelled(p)) && t == Meant(p) && j == i + |Spelled(p)| <= end < |c|
    ensures Spans(c, i, t, j, end)
  {
    PieceScanned(c, i, p);
    PieceDecoded(c, i, p, end);
  }

  lemma {:induction false} PrependNone(o: Option<seq<byte>>)
    ensures Prepend([], o) == o
  {
    if o.Some? {
      assert [] + o.value == o.value;
    }
  }

  lemma {:induction false} PrependTwo(a: seq<byte>, b: seq<byte>, o: Option<seq<byte>>)
    ensures Prepend(a, Prepend(b, o)) == Prepend(a + b, o)
  {
    if o.Some? {
      assert a + (b + o.value) == a + b + o.value;
    }
  }

  lemma {:induction false} PiecesSpan(c: seq<byte>, i: nat, ps: Pieces, s: seq<byte>, j: nat, end: nat)
    requires ArePieces(ps) && s == SpelledAll(ps) && Has(c, i, s) && j == i + |s| <= end < |c|
    ensures Spans(c, i, MeantAll(ps), j, end)
    decreases |ps|
  {
    if ps == [] {
      SpansNothing(c, i, end);
    } else {
      var a, b := Spelled(ps[0]), SpelledAll(ps[1..]);
      assert s == a + b;
      HasSplit(c, i, a, b, s);
      PieceSpans(c, i, ps[0], Meant(ps[0]), i + |a|, end);
      PiecesSpan(c, i + |a|, ps[1..], b, j, end);
      SpansBoth(c, i, Meant(ps[0]), i + |a|, MeantAll(ps[1..]), j, end, MeantAll(ps));
    }
  }

  function LiteralOf(ps: Pieces): seq<byte> {
    [QUOTE] + SpelledAll(ps) + [QUOTE]
  }

  /**
   * A literal of any pieces, wherever it stands, parses to what the pieces stand for; of a text with a zero byte the C
   * string before it remains.
   */
  lemma {:induction false} LiteralParses(c: seq<byte>, i: nat, ps: Pieces)
    requires Text(c) && ArePieces(ps) && Has(c, i, LiteralOf(ps))
    ensures ParseString(c, i) == Some(Parsed(CString(MeantAll(ps)), i + |LiteralOf(ps)|)) && c[i] == QUOTE
  {
    var s := SpelledAll(ps);
    var end := i + 1 + |s|;
    LiteralFrame(c, i, s);
    PiecesSpan(c, i + 1, ps, s, end, end);
    LiteralEnds(c, i, end, MeantAll(ps));
  }

  lemma {:induction false} LiteralFrame(c: seq<byte>, i: nat, t: seq<byte>)
    requires Has(c, i, [QUOTE] + t + [QUOTE])
    ensures i + 1 + |t| < |c| && c[i] == QUOTE && c[i + 1 + |t|] == QUOTE && Has(c, i + 1, t)
  {
    HasSplit3(c, i, [QUOTE], t, [QUOTE], [QUOTE] + t + [QUOTE]);
    HasAt(c, i, [QUOTE], 0);
    HasAt(c, i + 1 + |t|, [QUOTE], 0);
  }

  lemma {:induction false} LiteralEnds(c: seq<byte>, i: nat, end: nat, s: seq<byte>)
    requires Text(c) && i < end < |c| && c[i] == QUOTE && c[end] == QUOTE && Spans(c, i + 1, s, end, end)
    ensures ParseString(c, i) == Some(Parsed(CString(s), end + 1))
  {
    assert SpansBody(c, i + 1, s, end, end, Seal);
    assert Decode(c, end, end) == Some([]) && s + [] == s;
  }

  // ----- the literals that are not made of pieces

  /** No piece stands at `q`, up to `end`. */
  ghost predicate NoPiece(c: seq<byte>, q: nat, end: nat) {
    forall p: Piece :: IsPiece(p) && Has(c, q, Spelled(p)) ==> q + |Spelled(p)| > end
  }

  /** At `q` stands an escape of a code unit whose four bytes are not digits. */
  ghost predicate NoDigits(c: seq<byte>, q: nat, end: nat) {
    && q + 6 <= end <= |c| && c[q] == BACKSLASH && c[q + 1] == 117
    && !AllHex(c[q + 2..q + 6])
  }

  predicate IsHex(b: byte) {
    48 <= b <= 57 || 65 <= b <= 70 || 97 <= b <= 102
  }

  predicate AllHex(d: seq<byte>) {
    |d| == 4 && IsHex(d[0]) && IsHex(d[1]) && IsHex(d[2]) && IsHex(d[3])
  }

  lemma {:induction false} HexIsDigit(b: byte)
    requires HexValue(b).Some?
    ensures IsDigit(b, HexValue(b).value) && HexValue(b).value < 16
  {}

  lemma {:induction false} JoinDigits(a: nat, b: nat, c: nat, d: nat)
    requires a < 16 && b < 16 && c < 16 && d < 16
    ensures var n := ((a * 16 + b) * 16 + c) * 16 + d;
            n / 4096 == a && n / 256 % 16 == b && n / 16 % 16 == c && n % 16 == d && n < 0x10000
  {}

  /** Four bytes are digits, or the code is zero. */
  lemma {:induction false} CodeDigits(c: seq<byte>, q: nat)
    requires q + 6 <= |c|
    ensures AllHex(c[q + 2..q + 6]) ==> AreDigits(c[q + 2..q + 6], Code(c, q))
    ensures !AllHex(c[q + 2..q + 6]) ==> Code(c, q) == 0
  {
    var d := c[q + 2..q + 6];
    if HexValue(d[0]).Some? && HexValue(d[1]).Some? && HexValue(d[2]).Some? && HexValue(d[3]).Some? {
      HexIsDigit(d[0]);
      HexIsDigit(d[1]);
      HexIsDigit(d[2]);
      HexIsDigit(d[3]);
      JoinDigits(HexValue(d[0]).value, HexValue(d[1]).value, HexValue(d[2]).value, HexValue(d[3]).value);
    }
  }

  lemma {:induction false} DigitsAreHex(d: seq<byte>, n: nat)
    requires AreDigits(d, n)
    ensures AllHex(d)
  {}

  /** The piece at `q`, if one stands there. */
  lemma {:induction false} PieceAt(c: seq<byte>, q: nat, end: nat) returns (p: Option<Piece>)
    requires q < end && StringEnd(c, q) == Some(end)
    ensures p.Some? ==> IsPiece(p.value) && Has(c, q, Spelled(p.value)) && q + |Spelled(p.value)| <= end
    ensures p.None? ==> c[q] == BACKSLASH && (EscapeAt(c, q, end) == None || NoDigits(c, q, end))
  {
    p := None;
    if c[q] != BACKSLASH {
      p := Some(Raw(c[q]));
      assert c[q..q + 1] == [c[q]];
    } else {
      EscapeInside(c, q, end);
      if c[q + 1] in SHORT_ESCAPES {
        p := Some(Short(c[q + 1]));
        TwoBytesAt(c, q);
      } else if c[q + 1] == 117 && q + 6 <= end {
        p := UnitAt(c, q, end);
      }
    }
  }

  lemma {:induction false} TwoBytesAt(c: seq<byte>, q: nat)
    requires q + 2 <= |c|
    ensures Has(c, q, [c[q], c[q + 1]])
  {
    assert c[q..q + 2] == [c[q], c[q + 1]];
  }

  /** A backslash is not the last byte of a literal. */
  lemma {:induction false} EscapeInside(c: seq<byte>, q: nat, end: nat)
    requires q < end && StringEnd(c, q) == Some(end) && c[q] == BACKSLASH
    ensures q + 2 <= end < |c| && StringEnd(c, q + 2) == Some(end)
  {}

  lemma {:induction false} UnitAt(c: seq<byte>, q: nat, end: nat) returns (p: Option<Piece>)
    requires q + 6 <= end < |c| && c[q] == BACKSLASH && c[q + 1] == 117
    ensures p.Some? ==> IsPiece(p.value) && Has(c, q, Spelled(p.value)) && q + |Spelled(p.value)| <= end
    ensures p.None? ==> EscapeAt(c, q, end) == None || NoDigits(c, q, end)
  {
    p := None;
    var n, d := Code(c, q), c[q + 2..q + 6];
    CodeDigits(c, q);
    assert c[q..q + 6] == [BACKSLASH, 117] + d;
    if AllHex(d) {
      if !(0xD800 <= n <= 0xDFFF) {
        p := Some(Unit(n, d));
      } else if n <= 0xDBFF && q + 12 <= end && c[q + 6] == BACKSLASH && c[q + 7] == 117 {
        p := PairAt(c, q, end);
      }
    }
  }

  lemma {:induction false} PairAt(c: seq<byte>, q: nat, end: nat) returns (p: Option<Piece>)
    requires q + 12 <= end < |c| && c[q] == BACKSLASH && c[q + 1] == 117
    requires AllHex(c[q + 2..q + 6]) && AreDigits(c[q + 2..q + 6], Code(c, q)) && 0xD800 <= Code(c, q) <= 0xDBFF
    requires c[q + 6] == BACKSLASH && c[q + 7] == 117
    ensures p.Some? ==> IsPiece(p.value) && Has(c, q, Spelled(p.value)) && q + |Spelled(p.value)| <= end
    ensures p.None? ==> EscapeAt(c, q, end) == None
  {
    var hi, lo := Code(c, q), Code(c, q + 6);
    CodeDigits(c, q + 6);
    if 0xDC00 <= lo <= 0xDFFF {
      var cp := 0x10000 + (hi - 0xD800) * 0x400 + (lo - 0xDC00);
      p := Some(Pair(cp, c[q + 2..q + 6], c[q + 8..q + 12]));
      PairIsPiece(hi, lo, cp, c[q + 2..q + 6], c[q + 8..q + 12]);
      PairStands(c, q);
    } else {
      p := None;
      NoPair(c, q, end);
    }
  }

  lemma {:induction false} PairIsPiece(hi: nat, lo: nat, cp: nat, high: seq<byte>, low: seq<byte>)
    requires AreDigits(high, hi) && AreDigits(low, lo) && 0xD800 <= hi <= 0xDBFF && 0xDC00 <= lo <= 0xDFFF
    requires cp == 0x10000 + (hi - 0xD800) * 0x400 + (lo - 0xDC00)
    ensures IsPiece(Pair(cp, high, low))
  {
    SurrogateParts(hi, lo, cp);
  }

  lemma {:induction false} PairStands(c: seq<byte>, q: nat)
    requires q + 12 <= |c| && c[q] == BACKSLASH && c[q + 1] == 117 && c[q + 6] == BACKSLASH && c[q + 7] == 117
    ensures Has(c, q, [BACKSLASH, 117] + c[q + 2..q + 6] + ([BACKSLASH, 117] + c[q + 8..q + 12]))
  {
    assert c[q..q + 12] == [BACKSLASH, 117] + c[q + 2..q + 6] + ([BACKSLASH, 117] + c[q + 8..q + 12]);
  }

  lemma {:induction false} NoPair(c: seq<byte>, q: nat, end: nat)
    requires q + 12 <= end < |c| && c[q + 1] == 117
    requires 0xD800 <= Code(c, q) <= 0xDBFF && !(0xDC00 <= Code(c, q + 6) <= 0xDFFF)
    ensures EscapeAt(c, q, end) == None
  {
    assert CodePointAt(c, q, end) == None;
  }

  lemma {:induction false} SurrogateParts(hi: nat, lo: nat, cp: nat)
    requires 0xD800 <= hi <= 0xDBFF && 0xDC00 <= lo <= 0xDFFF && cp == 0x10000 + (hi - 0xD800) * 0x400 + (lo - 0xDC00)
    ensures 0x10000 <= cp <= 0x10FFFF && (cp - 0x10000) / 0x400 == hi - 0xD800 && (cp - 0x10000) % 0x400 == lo - 0xDC00
  {}

  /** Where there is no piece, no piece stands. */
  lemma {:induction false} NoneStands(c: seq<byte>, q: nat, end: nat)
    requires q < end < |c| && c[q] == BACKSLASH && (EscapeAt(c, q, end) == None || NoDigits(c, q, end))
    ensures NoPiece(c, q, end)
  {
    forall p: Piece | IsPiece(p) && Has(c, q, Spelled(p)) ensures q + |Spelled(p)| > end {
      if q + |Spelled(p)| <= end {
        assert PieceBody(p, Seal);
        HasAt(c, q, Spelled(p), 0);
        if !p.Raw? {
          PieceEscapes(c, q, p, end);
          HasAt(c, q, Spelled(p), 1);
          if p.Unit? {
            DigitsStand(c, q, p.d);
            DigitsAreHex(p.d, p.cp);
          } else if p.Pair? {
            PairSplit(c, q, p);
            DigitsStand(c, q, p.high);
            DigitsAreHex(p.high, 0xD800 + (p.cp - 0x10000) / 0x400);
          }
        }
      }
    }
  }

  lemma {:induction false} DigitsStand(c: seq<byte>, q: nat, d: seq<byte>)
    requires |d| == 4 && Has(c, q, [BACKSLASH, 117] + d)
    ensures q + 6 <= |c| && c[q + 2..q + 6] == d
  {
    var e := [BACKSLASH, 117] + d;
    assert HasBody(c, q, e, Seal);
    assert c[q..q + 6][2..] == c[q + 2..q + 6] && e[2..] == d;
  }

  /** The longest row of pieces from `p` on. */
  lemma {:induction false} PiecesFrom(c: seq<byte>, p: nat, end: nat) returns (ps: Pieces, q: nat)
    requires p <= end && StringEnd(c, p) == Some(end)
    ensures ArePieces(ps) && Has(c, p, SpelledAll(ps)) && q == p + |SpelledAll(ps)| <= end
    ensures q < end ==> c[q] == BACKSLASH && (EscapeAt(c, q, end) == None || NoDigits(c, q, end))
    decreases end - p
  {
    if p == end {
      ps, q := [], p;
    } else {
      var first := PieceAt(c, p, end);
      if first.None? {
        ps, q := [], p;
      } else {
        var more;
        var a := Spelled(first.value);
        PieceScanned(c, p, first.value);
        more, q := PiecesFrom(c, p + |a|, end);
        ps := [first.value] + more;
        HasJoin(c, p, a, SpelledAll(more));
        assert ps[1..] == more;
      }
    }
  }

  lemma {:induction false} HasJoin(c: seq<byte>, i: nat, a: seq<byte>, b: seq<byte>)
    requires Has(c, i, a) && Has(c, i + |a|, b)
    ensures Has(c, i, a + b)
  {
    assert HasBody(c, i, a, Seal) && HasBody(c, i + |a|, b, Seal);
    assert c[i..i + |a + b|] == c[i..i + |a|] + c[i + |a|..i + |a| + |b|];
  }

  /**
   * What becomes of any literal: it is made of pieces and parses to what they stand for; or where its pieces end there
   * is none, and it is refused unless an escape of a code unit without four digits stands there. That one counts as a
   * zero byte, which ends the text if the rest is not refused.
   */
  lemma {:induction false} LiteralExact(c: seq<byte>, i: nat, end: nat) returns (ps: Pieces, q: nat)
    requires Text(c) && i < |c| && c[i] == QUOTE && StringEnd(c, i + 1) == Some(end)
    ensures ArePieces(ps) && Has(c, i + 1, SpelledAll(ps)) && q == i + 1 + |SpelledAll(ps)| <= end < |c|
    ensures q == end ==> ParseString(c, i) == Some(Parsed(CString(MeantAll(ps)), end + 1))
    ensures q < end ==> NoPiece(c, q, end)
    ensures q < end && !NoDigits(c, q, end) ==> ParseString(c, i) == None
    ensures q < end && ParseString(c, i).Some? ==> ParseString(c, i) == Some(Parsed(CString(MeantAll(ps)), end + 1))
  {
    ps, q := PiecesFrom(c, i + 1, end);
    PiecesSpan(c, i + 1, ps, SpelledAll(ps), q, end);
    if q == end {
      LiteralEnds(c, i, end, MeantAll(ps));
    } else {
      NoneStands(c, q, end);
      LiteralStops(c, i, q, end, MeantAll(ps));
    }
  }

  lemma {:induction false} LiteralStops(c: seq<byte>, i: nat, q: nat, end: nat, s: seq<byte>)
    requires Text(c) && i < |c| && c[i] == QUOTE && StringEnd(c, i + 1) == Some(end) && Spans(c, i + 1, s, q, end)
    requires q < end && c[q] == BACKSLASH && (EscapeAt(c, q, end) == None || NoDigits(c, q, end))
    ensures !NoDigits(c, q, end) ==> ParseString(c, i) == None
    ensures ParseString(c, i).Some? ==> ParseString(c, i) == Some(Parsed(CString(s), end + 1))
  {
    assert SpansBody(c, i + 1, s, q, end, Seal);
    if EscapeAt(c, q, end).Some? {
      ZeroEscape(c, q, end);
      var rest := Decode(c, q + 6, end);
      if rest.Some? {
        ZeroEnds(s, rest.value);
      }
    }
  }

  lemma {:induction false} ZeroEscape(c: seq<byte>, q: nat, end: nat)
    requires NoDigits(c, q, end) && end < |c|
    ensures EscapeAt(c, q, end) == Some(Literal([0], 6)) && Decode(c, q, end) == Prepend([0], Decode(c, q + 6, end))
  {
    CodeDigits(c, q);
    assert CodePointAt(c, q, end) == Some(CodePoint(0, 6));
  }

  lemma {:induction false} ZeroEnds(s: seq<byte>, rest: seq<byte>)
    ensures CString(s + ([0] + rest)) == CString(s)
  {
    if s != [] {
      assert (s + ([0] + rest))[1..] == s[1..] + ([0] + rest);
      ZeroEnds(s[1..], rest);
    } else {
      assert s + ([0] + rest) == [0] + rest;
    }
  }
}
