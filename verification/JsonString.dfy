/**
 * JSON string literals (section 7 of RFC 8259): escaping as `print_string_ptr` does it, and the two passes of
 * `parse_string`, the first of which only sizes the output of the second.
 */
module JsonString {
  import opened Common
  import opened Bits
  import opened CStrings
  import opened Occurrence

  const QUOTE: byte := 34      // "
  const BACKSLASH: byte := 92  // \

  // ----- escaping

  function HexDigit(x: nat): byte
    requires x < 16
  {
    if x < 10 then 48 + x else 87 + x
  }

  /** The escaped form of one byte. */
  function EscapeByte(b: byte): (r: seq<byte>)
    ensures 1 <= |r| <= 6
  {
    if b == QUOTE || b == BACKSLASH then [BACKSLASH, b]
    else if b == 8 then [BACKSLASH, 98]     // \b
    else if b == 12 then [BACKSLASH, 102]   // \f
    else if b == 10 then [BACKSLASH, 110]   // \n
    else if b == 13 then [BACKSLASH, 114]   // \r
    else if b == 9 then [BACKSLASH, 116]    // \t
    else if b < 32 then [BACKSLASH, 117, 48, 48, HexDigit(b / 16), HexDigit(b % 16)]
    else [b]
  }

  /** What the printer escapes: quotes, backslashes and controls, the latter in lower-case hexadecimal or in short. */
  lemma {:induction false} EscapeTable(b: byte)
    ensures EscapeByte(34) == [92, 34] && EscapeByte(92) == [92, 92]
    ensures EscapeByte(8) == [92, 98] && EscapeByte(9) == [92, 116] && EscapeByte(10) == [92, 110]
    ensures EscapeByte(12) == [92, 102] && EscapeByte(13) == [92, 114]
    ensures b < 8 || b == 11 || 13 < b < 16 ==>
              EscapeByte(b) == [92, 117, 48, 48, 48] + [if b < 10 then 48 + b else 97 + (b - 10)]
    ensures 16 <= b < 32 ==>
              EscapeByte(b) == [92, 117, 48, 48, 49] + [if b < 26 then 48 + (b - 16) else 97 + (b - 26)]
    ensures b >= 32 && b != 34 && b != 92 ==> EscapeByte(b) == [b]
  {
    if 16 <= b < 32 {
      assert b / 16 == 1 && b % 16 == b - 16;
    }
  }

  function Escape(s: seq<byte>): seq<byte> {
    if s == [] then [] else EscapeByte(s[0]) + Escape(s[1..])
  }

  function Quoted(s: seq<byte>): seq<byte> {
    [QUOTE] + Escape(s) + [QUOTE]
  }

  // ----- UTF-16 escapes and UTF-8

  /** The value of a hexadecimal digit. */
  function HexValue(b: byte): Option<nat> {
    if 48 <= b <= 57 then Some(b - 48)
    else if 65 <= b <= 70 then Some(b - 55)
    else if 97 <= b <= 102 then Some(b - 87)
    else None
  }

  /** Four hexadecimal digits, or zero when one of them is not a digit. */
  function Hex4(a: byte, b: byte, c: byte, d: byte): (r: nat)
    ensures r < 0x10000
  {
    if HexValue(a).Some? && HexValue(b).Some? && HexValue(c).Some? && HexValue(d).Some? then
      ((HexValue(a).value * 16 + HexValue(b).value) * 16 + HexValue(c).value) * 16 + HexValue(d).value
    else 0
  }

  /** UTF-8 (section 3 of RFC 3629). */
  function Utf8(cp: nat): (r: seq<byte>)
    requires cp <= 0x10FFFF
    ensures 1 <= |r| <= 4
  {
    if cp < 0x80 then [cp]
    else if cp < 0x800 then [0xC0 + cp / 64, 0x80 + cp % 64]
    else if cp < 0x10000 then [0xE0 + cp / 4096, 0x80 + cp / 64 % 64, 0x80 + cp % 64]
    else [0xF0 + cp / 262144, 0x80 + cp / 4096 % 64, 0x80 + cp / 64 % 64, 0x80 + cp % 64]
  }

  function Low(b: byte, m: nat): nat
    requires m > 0
  {
    b % m
  }

  /** A decoder for the four forms: the payload bits of each byte. */
  function Utf8Value(s: seq<byte>): nat
    requires 1 <= |s| <= 4
  {
    match |s|
    case 1 => s[0]
    case 2 => Low(s[0], 32) * 64 + Low(s[1], 64)
    case 3 => Low(s[0], 16) * 4096 + Low(s[1], 64) * 64 + Low(s[2], 64)
    case _ => Low(s[0], 8) * 262144 + Low(s[1], 64) * 4096 + Low(s[2], 64) * 64 + Low(s[3], 64)
  }

  /** The encoding of a code point decodes to it. */
  lemma {:induction false} Utf8RoundTrip(cp: nat)
    requires cp <= 0x10FFFF
    ensures Utf8Value(Utf8(cp)) == cp
  {
    if cp >= 0x10000 {
      FourBytes(cp);
    } else if cp >= 0x800 {
      ThreeBytes(cp);
    } else if cp >= 0x80 {
      SplitBits(cp);
      SplitBits(cp / 64);
    }
  }

  lemma {:induction false} ThreeBytes(cp: nat)
    requires 0x800 <= cp < 0x10000
    ensures Utf8Value(Utf8(cp)) == cp
  {
    SplitBits(cp);
    SplitBits(cp / 64);
    SplitBits(cp / 4096);
  }

  lemma {:induction false} FourBytes(cp: nat)
    requires 0x10000 <= cp <= 0x10FFFF
    ensures Utf8Value(Utf8(cp)) == cp
  {
    SplitBits(cp);
    SplitBits(cp / 64);
    SplitBits(cp / 4096);
    SplitBits(cp / 262144);
  }

  lemma {:induction false} SplitBits(x: nat)
    ensures x == x / 64 * 64 + x % 64 && x / 64 / 64 == x / 4096 && x / 4096 / 64 == x / 262144
    ensures Low(0x80 + x % 64, 64) == x % 64
    ensures x < 32 ==> Low(0xC0 + x, 32) == x
    ensures x < 16 ==> Low(0xE0 + x, 16) == x
    ensures x < 8 ==> Low(0xF0 + x, 8) == x
  {}

  /** The surrogate pair of a code point outside the basic plane (section 2.1 of RFC 2781). */
  function HighSurrogate(cp: nat): nat
    requires 0x10000 <= cp <= 0x10FFFF
  {
    0xD800 + (cp - 0x10000) / 1024
  }

  function LowSurrogate(cp: nat): nat
    requires 0x10000 <= cp <= 0x10FFFF
  {
    0xDC00 + (cp - 0x10000) % 1024
  }

  /** The code point that the code computes from two surrogates: ten bits of each. */
  function FromSurrogates(first: nat, second: nat): (cp: nat)
    ensures 0x10000 <= cp <= 0x10FFFF
  {
    0x10000 + first % 1024 * 1024 + second % 1024
  }

  /** What an escape sequence stands for, and its length in the text. */
  datatype Literal = Literal(bytes: seq<byte>, length: nat)

  function Code(c: seq<byte>, p: nat): nat
    requires p + 6 <= |c|
  {
    Hex4(c[p + 2], c[p + 3], c[p + 4], c[p + 5])
  }

  /** A code point, and the length of its escape. */
  datatype CodePoint = CodePoint(value: nat, length: nat)

  /** The code point escaped at `p`, where the string literal ends at `end`: one code unit, or a surrogate pair. */
  function CodePointAt(c: seq<byte>, p: nat, end: nat): (r: Option<CodePoint>)
    requires p <= end <= |c|
    ensures r.Some? ==> p + r.value.length <= end && (r.value.length == 6 || r.value.length == 12)
    ensures r.Some? ==> r.value.value <= if r.value.length == 6 then 0xFFFF else 0x10FFFF
  {
    if end - p < 6 then None
    else
      var first := Code(c, p);
      if 0xDC00 <= first <= 0xDFFF then None
      else if 0xD800 <= first <= 0xDBFF then
        if end - (p + 6) < 6 || c[p + 6] != BACKSLASH || c[p + 7] != 117 then None
        else
          var second := Code(c, p + 6);
          if second < 0xDC00 || second > 0xDFFF then None else Some(CodePoint(FromSurrogates(first, second), 12))
      else Some(CodePoint(first, 6))
  }

  /** `utf16_literal_to_utf8` at `p`. */
  function Utf16Literal(c: seq<byte>, p: nat, end: nat): (r: Option<Literal>)
    requires p <= end <= |c|
    ensures r.Some? ==> p + r.value.length <= end && (r.value.length == 6 || r.value.length == 12)
    ensures r.Some? ==> 1 <= |r.value.bytes| && |r.value.bytes| <= if r.value.length == 6 then 3 else 4
  {
    var u := CodePointAt(c, p, end);
    if u.None? then None else Some(Literal(Utf8(u.value.value), u.value.length))
  }

  /** The four lower-case hexadecimal digits of a number. */
  function HexDigits(x: nat): (r: seq<byte>)
    requires x < 0x10000
    ensures |r| == 4
  {
    [HexDigit(x / 4096), HexDigit(x / 256 % 16), HexDigit(x / 16 % 16), HexDigit(x % 16)]
  }

  lemma {:induction false} HexDigitValue(x: nat)
    requires x < 16
    ensures HexValue(HexDigit(x)) == Some(x)
  {}

  lemma {:induction false} HexDigitsValue(x: nat, d: seq<byte>)
    requires x < 0x10000 && d == HexDigits(x)
    ensures Hex4(d[0], d[1], d[2], d[3]) == x
  {
    HexDigitValue(x / 4096);
    HexDigitValue(x / 256 % 16);
    HexDigitValue(x / 16 % 16);
    HexDigitValue(x % 16);
    SplitHex(x);
  }

  lemma {:induction false} SplitHex(x: nat)
    ensures x == ((x / 4096 * 16 + x / 256 % 16) * 16 + x / 16 % 16) * 16 + x % 16
  {
    assert x / 16 / 16 == x / 256 && x / 256 / 16 == x / 4096;
  }

  /** The escape of a code unit, and of a code point: one unit, or a surrogate pair. */
  function UnitEscape(unit: nat): (r: seq<byte>)
    requires unit < 0x10000
    ensures |r| == 6
  {
    [BACKSLASH, 117] + HexDigits(unit)
  }

  function CodePointEscape(cp: nat): seq<byte>
    requires cp <= 0x10FFFF
  {
    if cp < 0x10000 then UnitEscape(cp) else UnitEscape(HighSurrogate(cp)) + UnitEscape(LowSurrogate(cp))
  }

  lemma {:induction false} CodeOfEscape(c: seq<byte>, p: nat, unit: nat)
    requires p + 6 <= |c| && unit < 0x10000 && c[p..p + 6] == UnitEscape(unit)
    ensures Code(c, p) == unit
  {
    var d := HexDigits(unit);
    HexDigitsValue(unit, d);
    assert c[p..p + 6][2] == d[0] && c[p..p + 6][3] == d[1] && c[p..p + 6][4] == d[2] && c[p..p + 6][5] == d[3];
  }

  /** Every Unicode scalar value, escaped, decodes to its UTF-8 encoding. */
  lemma {:induction false} EscapedCodePoint(c: seq<byte>, p: nat, end: nat, cp: nat)
    requires cp <= 0x10FFFF && !(0xD800 <= cp <= 0xDFFF)
    requires p + |CodePointEscape(cp)| <= end <= |c| && c[p..p + |CodePointEscape(cp)|] == CodePointEscape(cp)
    ensures Utf16Literal(c, p, end) == Some(Literal(Utf8(cp), |CodePointEscape(cp)|))
  {
    if cp < 0x10000 {
      CodeOfEscape(c, p, cp);
    } else {
      var hi, lo := UnitEscape(HighSurrogate(cp)), UnitEscape(LowSurrogate(cp));
      assert c[p..p + 12][..6] == c[p..p + 6] && c[p..p + 12][6..] == c[p + 6..p + 12];
      CodeOfEscape(c, p, HighSurrogate(cp));
      CodeOfEscape(c, p + 6, LowSurrogate(cp));
      assert c[p + 6..p + 12][0] == BACKSLASH && c[p + 6..p + 12][1] == 117;
      SurrogatesRoundTrip(cp);
    }
  }

  lemma {:induction false} SurrogatesRoundTrip(cp: nat)
    requires 0x10000 <= cp <= 0x10FFFF
    ensures FromSurrogates(HighSurrogate(cp), LowSurrogate(cp)) == cp
    ensures 0xD800 <= HighSurrogate(cp) <= 0xDBFF && 0xDC00 <= LowSurrogate(cp) <= 0xDFFF
  {}

  // ----- the two passes

  /** First pass: where the literal that starts at `i` ends. An escape is a backslash and any byte. */
  function StringEnd(c: seq<byte>, i: nat): (r: Option<nat>)
    ensures r.Some? ==> i <= r.value < |c| && c[r.value] == QUOTE
    decreases |c| - i
  {
    if i >= |c| then None
    else if c[i] == QUOTE then Some(i)
    else if c[i] != BACKSLASH then StringEnd(c, i + 1)
    else if i + 1 >= |c| then None
    else StringEnd(c, i + 2)
  }

  /** How many escapes of the first pass, counted from `i` on, start before `p`. */
  function Starts(c: seq<byte>, i: nat, p: nat): (n: nat)
    decreases |c| - i
  {
    if i >= p || i >= |c| then 0
    else if c[i] == BACKSLASH then 1 + Starts(c, i + 2, p)
    else Starts(c, i + 1, p)
  }

  /** What a backslash and the byte `b` stand for. */
  function ShortEscape(b: byte): Option<byte> {
    if b == 98 then Some(8)
    else if b == 102 then Some(12)
    else if b == 110 then Some(10)
    else if b == 114 then Some(13)
    else if b == 116 then Some(9)
    else if b == QUOTE || b == BACKSLASH || b == 47 then Some(b)
    else None
  }

  /** The escape sequence at `p` in the second pass. */
  function EscapeAt(c: seq<byte>, p: nat, end: nat): (r: Option<Literal>)
    requires p < end < |c|
    ensures r.Some? ==> r.value.length == 2 || p + r.value.length <= end
    ensures r.Some? ==> |r.value.bytes| >= 1 && |r.value.bytes| + (r.value.length + 1) / 2 <= r.value.length
    ensures r.Some? ==> r.value.length % 2 == 0 && r.value.length >= 2
  {
    var b := c[p + 1];
    if b == 117 then Utf16Literal(c, p, end)
    else if ShortEscape(b).None? then None
    else Some(Literal([ShortEscape(b).value], 2))
  }

  function Prepend(a: seq<byte>, o: Option<seq<byte>>): Option<seq<byte>> {
    if o.None? then None else Some(a + o.value)
  }

  /** Second pass: the bytes that the text from `p` to `end` stands for. */
  function Decode(c: seq<byte>, p: nat, end: nat): Option<seq<byte>>
    requires end < |c|
    decreases end + 2 - p
  {
    if p >= end then Some([])
    else if c[p] != BACKSLASH then Prepend([c[p]], Decode(c, p + 1, end))
    else if EscapeAt(c, p, end).None? then None
    else Prepend(EscapeAt(c, p, end).value.bytes, Decode(c, p + EscapeAt(c, p, end).value.length, end))
  }

  // ----- the size that the first pass computes

  /** What `parse_string` allocates: one byte for each byte of the literal but the skipped ones, and a terminator. */
  function AllocationLength(c: seq<byte>, start: nat, end: nat): int {
    end - (start - 1) - Starts(c, start, end) + 1
  }

  /** No escape of the first pass starts at a byte that is not a backslash. */
  lemma {:induction false} PlainByte(c: seq<byte>, i: nat, p: nat)
    requires p < |c| && c[p] != BACKSLASH
    ensures Starts(c, i, p + 1) == Starts(c, i, p)
    decreases |c| - i
  {
    if i < p {
      PlainByte(c, if c[i] == BACKSLASH then i + 2 else i + 1, p);
    }
  }

  /** At most one escape of the first pass starts in two neighbouring bytes. */
  lemma {:induction false} TwoBytes(c: seq<byte>, i: nat, p: nat)
    ensures Starts(c, i, p) <= Starts(c, i, p + 2) <= Starts(c, i, p) + 1
    decreases |c| - i
  {
    if i < p && i < |c| {
      TwoBytes(c, if c[i] == BACKSLASH then i + 2 else i + 1, p);
    } else if i < |c| {
      assert Starts(c, i + 2, p + 2) == Starts(c, i + 3, p + 2) == 0;
      assert Starts(c, i + 1, p + 2) <= 1;
    }
  }

  lemma {:induction false} EvenBytes(c: seq<byte>, i: nat, p: nat, n: nat)
    requires n % 2 == 0
    ensures Starts(c, i, p + n) <= Starts(c, i, p) + n / 2
    decreases n
  {
    if n > 0 {
      EvenBytes(c, i, p, n - 2);
      TwoBytes(c, i, p + (n - 2));
    }
  }

  /** Past the end of the literal there is nothing more to count. */
  lemma {:induction false} StartsPastEnd(c: seq<byte>, i: nat, end: nat)
    requires StringEnd(c, i) == Some(end)
    ensures Starts(c, i, end + 1) == Starts(c, i, end)
  {
    PlainByte(c, i, end);
  }

  /** Room left in the output: the bound that every step of the second pass keeps. */
  ghost predicate Bounded(c: seq<byte>, start: nat, p: nat, written: nat) {
    start <= p && written + Starts(c, start, p) <= p - start
  }

  lemma {:induction false} CopyKeepsBound(c: seq<byte>, start: nat, p: nat, written: nat)
    requires Bounded(c, start, p, written) && p < |c| && c[p] != BACKSLASH
    ensures Bounded(c, start, p + 1, written + 1)
  {
    PlainByte(c, start, p);
  }

  lemma {:induction false} EscapeKeepsBound(c: seq<byte>, start: nat, p: nat, end: nat, written: nat)
    requires Bounded(c, start, p, written) && p < end < |c| && EscapeAt(c, p, end).Some?
    ensures var l := EscapeAt(c, p, end).value; Bounded(c, start, p + l.length, written + |l.bytes|)
  {
    EvenBytes(c, start, p, EscapeAt(c, p, end).value.length);
  }

  /** At any time the second pass has room for the bytes written and the terminator. */
  lemma {:induction false} BoundFits(c: seq<byte>, start: nat, p: nat, end: nat, written: nat)
    requires StringEnd(c, start) == Some(end) && p <= end + 1 && Bounded(c, start, p, written)
    ensures written + 1 <= AllocationLength(c, start, end)
  {
    StartsPastEnd(c, start, end);
    StartsGrow(c, start, p, end + 1);
  }

  /** From `p` to a later position, escapes start at most at every byte. */
  lemma {:induction false} StartsGrow(c: seq<byte>, i: nat, p: nat, q: nat)
    requires p <= q
    ensures Starts(c, i, q) <= Starts(c, i, p) + if i <= p then q - p else if i <= q then q - i else 0
    decreases |c| - i
  {
    if i < |c| && i < q {
      StartsGrow(c, if c[i] == BACKSLASH then i + 2 else i + 1, p, q);
    }
  }

  // ----- both passes on an escaped string

  /** The bytes of an escape, where they stand. */
  lemma {:induction false} EscapeBytes(c: seq<byte>, i: nat, b: byte)
    requires Has(c, i, EscapeByte(b))
    ensures c[i] == EscapeByte(b)[0] && (|EscapeByte(b)| >= 2 ==> c[i + 1] == EscapeByte(b)[1])
    ensures |EscapeByte(b)| == 6 ==> c[i + 2] == 48 && c[i + 3] == 48
    ensures |EscapeByte(b)| == 6 ==> c[i + 4] == HexDigit(b / 16) && c[i + 5] == HexDigit(b % 16)
  {
    HasAt(c, i, EscapeByte(b), 0);
    if |EscapeByte(b)| >= 2 {
      HasAt(c, i, EscapeByte(b), 1);
    }
    if |EscapeByte(b)| == 6 {
      HasAt(c, i, EscapeByte(b), 2);
      HasAt(c, i, EscapeByte(b), 3);
      HasAt(c, i, EscapeByte(b), 4);
      HasAt(c, i, EscapeByte(b), 5);
    }
  }

  lemma {:induction false} ScanPlain4(c: seq<byte>, i: nat)
    requires i + 4 <= |c| && forall k :: i <= k < i + 4 ==> c[k] != QUOTE && c[k] != BACKSLASH
    ensures StringEnd(c, i) == StringEnd(c, i + 4)
  {
    assert StringEnd(c, i + 2) == StringEnd(c, i + 3) == StringEnd(c, i + 4);
  }

  lemma {:induction false} ScanByte(c: seq<byte>, i: nat, b: byte)
    requires Has(c, i, EscapeByte(b))
    ensures StringEnd(c, i) == StringEnd(c, i + |EscapeByte(b)|)
  {
    EscapeBytes(c, i, b);
    if |EscapeByte(b)| == 6 {
      ScanPlain4(c, i + 2);
    }
  }

  lemma {:induction false} ScanEscaped(c: seq<byte>, i: nat, s: seq<byte>, end: nat)
    requires Has(c, i, Escape(s)) && end == i + |Escape(s)| < |c| && c[end] == QUOTE
    ensures StringEnd(c, i) == Some(end)
    decreases s
  {
    if s != [] {
      HasSplit(c, i, EscapeByte(s[0]), Escape(s[1..]), Escape(s));
      ScanByte(c, i, s[0]);
      ScanEscaped(c, i + |EscapeByte(s[0])|, s[1..], end);
    }
  }

  lemma {:induction false} ControlEscape(c: seq<byte>, i: nat, b: byte, end: nat)
    requires 0 < b < 32 && i + 6 <= end < |c| && c[i] == BACKSLASH && c[i + 1] == 117
    requires c[i + 2] == 48 && c[i + 3] == 48 && c[i + 4] == HexDigit(b / 16) && c[i + 5] == HexDigit(b % 16)
    ensures EscapeAt(c, i, end) == Some(Literal([b], 6))
  {
    HexDigitValue(b / 16);
    HexDigitValue(b % 16);
    assert Code(c, i) == b;
  }

  lemma {:induction false} DecodeByte(c: seq<byte>, i: nat, b: byte, end: nat)
    requires b != 0 && Has(c, i, EscapeByte(b)) && i + |EscapeByte(b)| <= end < |c|
    ensures Decode(c, i, end) == Prepend([b], Decode(c, i + |EscapeByte(b)|, end))
  {
    EscapeBytes(c, i, b);
    if |EscapeByte(b)| == 6 {
      ControlEscape(c, i, b, end);
    } else if |EscapeByte(b)| == 2 {
      assert EscapeAt(c, i, end) == Some(Literal([b], 2));
    }
  }

  lemma {:induction false} DecodeEscaped(c: seq<byte>, i: nat, s: seq<byte>, end: nat)
    requires 0 !in s && Has(c, i, Escape(s)) && end == i + |Escape(s)| < |c|
    ensures Decode(c, i, end) == Some(s)
    decreases s
  {
    if s != [] {
      var b, t := s[0], s[1..];
      var j := i + |EscapeByte(b)|;
      assert Escape(s) == EscapeByte(b) + Escape(t);
      HasSplit(c, i, EscapeByte(b), Escape(t), Escape(s));
      NulFreeTail(s);
      DecodeEscaped(c, j, t, end);
      DecodeByte(c, i, b, end);
    }
  }
}
