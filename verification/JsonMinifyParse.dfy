/** Minifying an arbitrary text keeps what it means: a text that parses to its end parses to the same tree. */
module JsonMinifyParse {
  import opened Common
  import opened Bits
  import opened CStrings
  import opened Occurrence
  import opened JsonString
  import opened Json
  import opened JsonParse
  import opened JsonRoundTrip
  import opened JsonParsed
  import opened JsonMinified
  import opened JsonMinify

  /** A text whose only zero byte is its terminator. */
  ghost predicate NulEnded(c: seq<byte>) {
    Text(c) && forall i :: 0 <= i < |c| - 1 ==> c[i] != 0
  }

  // ----- gaps

  /** Control bytes: what minifying may leave between tokens. */
  ghost predicate Controls(g: seq<byte>) {
    forall b :: b in g ==> 0 < b <= 32
  }

  /** Of the bytes between two tokens, minifying keeps at most the control bytes that are not white space. */
  lemma {:induction false} GapMinified(c: seq<byte>, i: nat, j: nat) returns (g: seq<byte>)
    requires NulEnded(c) && Blanks(c, i, j) && j < |c|
    ensures Keeps(c, i, g, j) && Controls(g) && (i == j ==> g == [])
    decreases j - i
  {
    if i == j {
      g := [];
      KeepsNothing(c, i);
    } else {
      var h := GapMinified(c, i + 1, j);
      assert KeepsBody(c, i + 1, h, j, Seal);
      if IsBlank(c[i]) {
        g := h;
      } else {
        g := [c[i]] + h;
        assert KeepsBody(c, i, [c[i]], i + 1, Seal);
        KeepsBoth(c, i, [c[i]], i + 1, h, j, g);
      }
    }
  }

  lemma {:induction false} HasControls(c: seq<byte>, i: nat, g: seq<byte>)
    requires Has(c, i, g) && Controls(g)
    ensures Blanks(c, i, i + |g|)
  {
    assert forall k :: 0 <= k < |g| ==> g[k] in g;
    HasBlanks(c, i, g);
  }

  /** Where the scanner skips to, there is no blank, or the text ends. */
  lemma {:induction false} SkippedGap(x: Scanner, k: NumberCodec, c: seq<byte>, i: nat, j: nat)
    requires Scans(x, k, c) && NulEnded(c) && i < |c| && j == x.skip(i) && x.at(j) != 0
    ensures Blanks(c, i, j) && j < |c| && c[j] > 32 && x.at(j) == c[j]
  {
    ScanSkip(x, k, c, i);
    ScanAt(x, k, c, j);
    SkipStops(c, i);
  }

  lemma {:induction false} SkipStops(c: seq<byte>, i: nat)
    requires Text(c) && i < |c| && c[Skip(c, i)] != 0
    ensures Blanks(c, i, Skip(c, i)) && c[Skip(c, i)] > 32
  {
    BlankStops(c, i);
  }

  lemma {:induction false} BlankStops(c: seq<byte>, i: nat)
    requires i <= |c|
    ensures Blanks(c, i, Blank(c, i))
    decreases |c| - i
  {
    if i < |c| && c[i] <= 32 {
      BlankStops(c, i + 1);
    }
  }

  // ----- literals

  /** `n` bytes of `c` from `a` on are those of `c'` from `j` on. */
  ghost predicate Shifted(c: seq<byte>, c': seq<byte>, a: nat, j: nat, n: nat) {
    a + n <= |c| && j + n <= |c'| && forall i :: 0 <= i < n ==> SameAt(c, c', a, j, i)
  }

  ghost predicate SameAt(c: seq<byte>, c': seq<byte>, a: nat, j: nat, i: nat)
    requires a + i < |c| && j + i < |c'|
  {
    c[a + i] == c'[j + i]
  }

  lemma {:induction false} StringEndShifted(c: seq<byte>, c': seq<byte>, a: nat, j: nat, n: nat, i: nat, m: nat)
    requires Shifted(c, c', a, j, n) && i <= m < n && StringEnd(c, a + i) == Some(a + m)
    ensures StringEnd(c', j + i) == Some(j + m)
    decreases n - i
  {
    assert SameAt(c, c', a, j, i);
    if c[a + i] != QUOTE {
      var s := if c[a + i] == BACKSLASH then 2 else 1;
      assert StringEnd(c, a + i) == StringEnd(c, a + (i + s));
      StringEndShifted(c, c', a, j, n, i + s, m);
      assert StringEnd(c', j + i) == StringEnd(c', j + (i + s));
    }
  }

  lemma {:induction false} CodeShifted(c: seq<byte>, c': seq<byte>, a: nat, j: nat, n: nat, i: nat)
    requires Shifted(c, c', a, j, n) && i + 6 <= n
    ensures Code(c, a + i) == Code(c', j + i) && c[a + i] == c'[j + i] && c[a + i + 1] == c'[j + i + 1]
  {
    assert SameAt(c, c', a, j, i) && SameAt(c, c', a, j, i + 1) && SameAt(c, c', a, j, i + 2);
    assert SameAt(c, c', a, j, i + 3) && SameAt(c, c', a, j, i + 4) && SameAt(c, c', a, j, i + 5);
  }

  lemma {:induction false} CodePointShifted(c: seq<byte>, c': seq<byte>, a: nat, j: nat, n: nat, i: nat, m: nat)
    requires Shifted(c, c', a, j, n) && i <= m < n
    ensures CodePointAt(c, a + i, a + m) == CodePointAt(c', j + i, j + m)
  {
    if m - i >= 6 {
      CodeShifted(c, c', a, j, n, i);
    }
    if m - i >= 12 {
      CodeShifted(c, c', a, j, n, i + 6);
    }
  }

  lemma {:induction false} EscapeShifted(c: seq<byte>, c': seq<byte>, a: nat, j: nat, n: nat, i: nat, m: nat)
    requires Shifted(c, c', a, j, n) && i < m < n
    ensures EscapeAt(c, a + i, a + m) == EscapeAt(c', j + i, j + m)
  {
    assert SameAt(c, c', a, j, i + 1);
    CodePointShifted(c, c', a, j, n, i, m);
  }

  lemma {:induction false} DecodeShifted(c: seq<byte>, c': seq<byte>, a: nat, j: nat, n: nat, i: nat, m: nat)
    requires Shifted(c, c', a, j, n) && m < n
    ensures Decode(c, a + i, a + m) == Decode(c', j + i, j + m)
    decreases m + 2 - i
  {
    if i < m {
      assert SameAt(c, c', a, j, i);
      if c[a + i] != BACKSLASH {
        DecodeShifted(c, c', a, j, n, i + 1, m);
        assert a + i + 1 == a + (i + 1) && j + i + 1 == j + (i + 1);
      } else {
        EscapeShifted(c, c', a, j, n, i, m);
        var r := EscapeAt(c, a + i, a + m);
        if r.Some? {
          DecodeShifted(c, c', a, j, n, i + r.value.length, m);
          assert a + i + r.value.length == a + (i + r.value.length);
          assert j + i + r.value.length == j + (i + r.value.length);
        }
      }
    }
  }

  lemma {:induction false} HasShifted(c: seq<byte>, c': seq<byte>, a: nat, b: nat, j: nat)
    requires a <= b <= |c| && Has(c', j, c[a..b])
    ensures Shifted(c, c', a, j, b - a)
  {
    forall i | 0 <= i < b - a ensures SameAt(c, c', a, j, i) {
      HasAt(c', j, c[a..b], i);
    }
  }

  /** A literal means the same wherever it stands. */
  lemma {:induction false} LiteralReads(c: seq<byte>, a: nat, s: seq<byte>, b: nat, c': seq<byte>, j: nat)
    requires Text(c) && Text(c') && a < |c| && ParseString(c, a) == Some(Parsed(s, b)) && a <= b
    requires Has(c', j, c[a..b])
    ensures j < |c'| && c'[j] == QUOTE && ParseString(c', j) == Some(Parsed(s, j + (b - a)))
  {
    var text := LiteralParts(c, a, s, b);
    HasShifted(c, c', a, b, j);
    PartsShifted(c, a, b, c', j, j + (b - a));
    FromParts(c', j, s, j + (b - a), text);
  }

  lemma {:induction false} PartsShifted(c: seq<byte>, a: nat, b: nat, c': seq<byte>, j: nat, e: nat)
    requires a + 1 < b && e == j + (b - a) && Shifted(c, c', a, j, b - a)
    requires c[a] == QUOTE && StringEnd(c, a + 1) == Some(b - 1)
    ensures e <= |c'| && c'[j] == QUOTE && StringEnd(c', j + 1) == Some(e - 1)
    ensures Decode(c', j + 1, e - 1) == Decode(c, a + 1, b - 1)
  {
    assert SameAt(c, c', a, j, 0);
    var m := b - 1 - a;
    assert a + m == b - 1 && j + m == e - 1;
    StringEndShifted(c, c', a, j, b - a, 1, m);
    DecodeShifted(c, c', a, j, b - a, 1, m);
  }

  lemma {:induction false} LiteralParts(c: seq<byte>, a: nat, s: seq<byte>, b: nat) returns (text: seq<byte>)
    requires Text(c) && a < |c| && ParseString(c, a) == Some(Parsed(s, b)) && a <= b
    ensures a + 1 < b <= |c| && c[a] == QUOTE && StringEnd(c, a + 1) == Some(b - 1)
    ensures Decode(c, a + 1, b - 1) == Some(text) && s == CString(text)
  {
    text := Decode(c, a + 1, b - 1).value;
  }

  lemma {:induction false} FromParts(c: seq<byte>, a: nat, s: seq<byte>, b: nat, text: seq<byte>)
    requires Text(c) && a + 1 < b <= |c| && c[a] == QUOTE && StringEnd(c, a + 1) == Some(b - 1)
    requires Decode(c, a + 1, b - 1) == Some(text) && s == CString(text)
    ensures ParseString(c, a) == Some(Parsed(s, b))
  {}

  lemma {:induction false} LiteralFound(c: seq<byte>, i: nat)
    requires NulEnded(c) && StringEnd(c, i).Some?
    ensures LiteralEnd(c, i) == Some(StringEnd(c, i).value + 1)
    decreases |c| - i
  {
    if c[i] != QUOTE {
      LiteralFound(c, if c[i] == BACKSLASH then i + 2 else i + 1);
    }
  }

  lemma {:induction false} LiteralKept(c: seq<byte>, a: nat, s: seq<byte>, b: nat)
    requires NulEnded(c) && a < |c| && ParseString(c, a) == Some(Parsed(s, b))
    ensures a < b <= |c| && c[a] == QUOTE && Keeps(c, a, c[a..b], b)
  {
    LiteralFound(c, a + 1);
  }

  // ----- scalars

  ghost predicate ReadsAt(k: NumberCodec, u: seq<byte>, v: Value, d: nat, x: Scanner, c: seq<byte>, j: nat) {
    Scans(x, k, c) && Delimited(c, j, u, j + |u|) ==> ValueIs(x, j, d, Some(Parsed(v, j + |u|)))
  }

  /** Wherever `u` stands, at depth `d`, with a byte behind it that ends any number, it parses to `v`. */
  ghost predicate Reads(k: NumberCodec, u: seq<byte>, v: Value, d: nat) {
    forall x, c, j: nat :: ReadsAt(k, u, v, d, x, c, j)
  }

  lemma {:induction false} WordReads(k: NumberCodec, u: seq<byte>, v: Value, d: nat)
    requires (v.Null? && u == NULL_TEXT) || (v.False? && u == FALSE_TEXT) || (v.True? && u == TRUE_TEXT)
    ensures Reads(k, u, v, d)
  {
    forall x, c, j: nat ensures ReadsAt(k, u, v, d, x, c, j) {
      if Scans(x, k, c) && Delimited(c, j, u, j + |u|) {
        ParseRenderedWord(k, c, j, v, false, 0, j + |u|);
        HasAt(c, j, u, 0);
        ScalarRead(x, k, c, j, d, v, j + |u|);
      }
    }
  }

  lemma {:induction false} ScalarRead(x: Scanner, k: NumberCodec, c: seq<byte>, j: nat, d: nat, v: Value, e: nat)
    requires Scans(x, k, c) && j < |c| && ParseScalar(k, c, j) == Some(Parsed(v, e))
    requires c[j] != OPEN_ARRAY && c[j] != OPEN_OBJECT
    ensures ValueIs(x, j, d, Some(Parsed(v, e)))
  {
    ScanAt(x, k, c, j);
    ScanScalar(x, k, c, j);
    ScalarStep(x, j, d, v, e);
  }

  lemma {:induction false} WordMinified(k: NumberCodec, c: seq<byte>, i: nat, u: seq<byte>, v: Value, d: nat)
    requires StartsWith(c, i, u)
    requires (v.Null? && u == NULL_TEXT) || (v.False? && u == FALSE_TEXT) || (v.True? && u == TRUE_TEXT)
    ensures Keeps(c, i, u, i + |u|) && Reads(k, u, v, d) && u[0] == c[i] > 32
  {
    assert HasBody(c, i, u, Seal);
    HasAt(c, i, u, 0);
    PlainRun(c, i, u);
    WordReads(k, u, v, d);
  }

  lemma {:induction false} StringMinified(k: NumberCodec, c: seq<byte>, i: nat, s: seq<byte>, e: nat, d: nat)
    requires NulEnded(c) && i < |c| && ParseString(c, i) == Some(Parsed(s, e))
    ensures i < e <= |c| && c[i] == QUOTE && Keeps(c, i, c[i..e], e) && Reads(k, c[i..e], String(s), d)
  {
    LiteralKept(c, i, s, e);
    var u := c[i..e];
    forall x, c', j: nat ensures ReadsAt(k, u, String(s), d, x, c', j) {
      if Scans(x, k, c') && Delimited(c', j, u, j + |u|) {
        LiteralReads(c, i, s, e, c', j);
        NoWord(k, c', j);
        ScalarRead(x, k, c', j, d, String(s), j + |u|);
      }
    }
  }

  /** The bytes of a token are number bytes; there are at most as many as there was room for. */
  lemma {:induction false} TokenBytes(c: seq<byte>, i: nat, room: nat)
    requires Text(c) && i < |c|
    ensures var t := Token(c, i, room);
            |t| <= room && Has(c, i, t) && (forall n :: 0 <= n < |t| ==> NumberByte(t[n])) && (t != [] ==> t[0] == c[i])
    ensures forall m :: i <= m < i + |Token(c, i, room)| ==> NumberByte(c[m])
    decreases room
  {
    if room > 0 && NumberByte(c[i]) {
      TokenBytes(c, i + 1, room - 1);
      var t := Token(c, i + 1, room - 1);
      assert HasBody(c, i + 1, t, Seal);
      assert c[i..i + 1 + |t|] == [c[i]] + c[i + 1..i + 1 + |t|];
    }
  }

  lemma {:induction false} NumberReads(k: NumberCodec, u: seq<byte>, n: int, d: nat)
    requires 0 < |u| <= 63 && NumberStart(u[0]) && (forall i :: 0 <= i < |u| ==> NumberByte(u[i]))
    requires k.scan(u) == Scanned(n, |u|)
    ensures Reads(k, u, Number(n), d)
  {
    forall x, c, j: nat ensures ReadsAt(k, u, Number(n), d, x, c, j) {
      if Scans(x, k, c) && Delimited(c, j, u, j + |u|) {
        TokenOf(c, j, u, 63);
        HasAt(c, j, u, 0);
        NoWord(k, c, j);
        ScalarRead(x, k, c, j, d, Number(n), j + |u|);
      }
    }
  }

  /** A number that is followed by no number byte is the whole token. */
  lemma {:induction false} NumberMinified(k: NumberCodec, c: seq<byte>, i: nat, v: Value, e: nat, d: nat)
    returns (u: seq<byte>)
    requires Text(c) && i < |c| && ParseNumber(k, c, i) == Some(Parsed(v, e)) && NumberStart(c[i])
    requires e < |c| && !NumberByte(c[e])
    ensures Keeps(c, i, u, e) && Reads(k, u, v, d) && u != [] && u[0] == c[i]
  {
    u := Token(c, i, 63);
    TokenBytes(c, i, 63);
    var s := k.scan(u);
    assert e == i + s.length;
    assert s.length == |u|;
    PlainRun(c, i, u);
    NumberReads(k, u, s.number, d);
  }

  lemma {:induction false} ScalarMinified(k: NumberCodec, c: seq<byte>, i: nat, v: Value, e: nat, d: nat)
    returns (u: seq<byte>)
    requires NulEnded(c) && i < |c| && ParseScalar(k, c, i) == Some(Parsed(v, e)) && e < |c| && !NumberByte(c[e])
    ensures Keeps(c, i, u, e) && Reads(k, u, v, d) && u != [] && u[0] == c[i] > 32
  {
    if StartsWith(c, i, NULL_TEXT) {
      u := NULL_TEXT;
      WordMinified(k, c, i, u, v, d);
    } else if StartsWith(c, i, FALSE_TEXT) {
      u := FALSE_TEXT;
      WordMinified(k, c, i, u, v, d);
    } else if StartsWith(c, i, TRUE_TEXT) {
      u := TRUE_TEXT;
      WordMinified(k, c, i, u, v, d);
    } else if c[i] == QUOTE {
      var s := ParseString(c, i).value.item;
      StringMinified(k, c, i, s, e, d);
      u := c[i..e];
    } else {
      u := NumberMinified(k, c, i, v, e, d);
    }
  }

  // ----- the steps of the parser, with gaps

  lemma {:induction false} GapSkipped(x: Scanner, k: NumberCodec, c: seq<byte>, j: nat, g: seq<byte>)
    requires Scans(x, k, c) && Has(c, j, g) && Controls(g) && j + |g| < |c| && c[j + |g|] > 32
    ensures x.skip(j) == j + |g| && x.at(j + |g|) == c[j + |g|]
  {
    HasControls(c, j, g);
    ScanBlanks(x, k, c, j, j + |g|);
    ScanAt(x, k, c, j + |g|);
  }

  /** A gap and a token that is not a blank behind it, somewhere in a text. */
  lemma {:induction false} GapThenByte(x: Scanner, k: NumberCodec, c: seq<byte>, j: nat, g: seq<byte>, b: byte)
    requires Scans(x, k, c) && Has(c, j, g + [b]) && Controls(g) && b > 32
    ensures j + |g| < |c| && x.skip(j) == j + |g| && x.at(j + |g|) == b
    ensures !NumberByte(b) ==> !NumberByte(c[j])
  {
    HasSplit(c, j, g, [b], g + [b]);
    HasAt(c, j + |g|, [b], 0);
    GapSkipped(x, k, c, j, g);
    if g != [] {
      HasAt(c, j, g, 0);
      assert g[0] in g;
    }
  }

  lemma {:induction false} ElementStep(x: Scanner, j: nat, i: nat, d: nat, v: Value, f: nat, p: nat)
    requires ValueIs(x, i, d, Some(Parsed(v, f))) && j < x.size && x.skip(j) == i && f < x.size && x.skip(f) == p
    requires p < x.size && x.at(p) == CLOSE_ARRAY
    ensures ElementsAre(x, j, d, Some(Parsed(Element(v, NoElements), p + 1)))
  {
    assert ValueResult(x, i, d, Some(Parsed(v, f)), Seal);
  }

  lemma {:induction false} ElementsStep(x: Scanner, j: nat, i: nat, d: nat, v: Value, f: nat, p: nat, next: Elements,
                                        e: nat)
    requires ValueIs(x, i, d, Some(Parsed(v, f))) && j < x.size && x.skip(j) == i && f < x.size && x.skip(f) == p
    requires p + 1 < x.size && x.at(p) == COMMA && ElementsAre(x, p + 1, d, Some(Parsed(next, e)))
    ensures ElementsAre(x, j, d, Some(Parsed(Element(v, next), e)))
  {
    assert ValueResult(x, i, d, Some(Parsed(v, f)), Seal);
    assert ElementsResult(x, p + 1, d, Some(Parsed(next, e)), Seal);
  }

  lemma {:induction false} MemberStep(x: Scanner, j: nat, q: nat, d: nat, name: seq<byte>, v: Value, f: nat, p: nat)
    requires NameIs(x, j, name, q) && ValueIs(x, q, d, Some(Parsed(v, f))) && f < x.size && x.skip(f) == p
    requires p < x.size && x.at(p) == CLOSE_OBJECT
    ensures MembersAre(x, j, d, Some(Parsed(Member(name, v, NoMembers), p + 1)))
  {
    assert NameResult(x, j, name, q, Seal);
    assert ValueResult(x, q, d, Some(Parsed(v, f)), Seal);
  }

  lemma {:induction false} MembersStep(x: Scanner, j: nat, q: nat, d: nat, name: seq<byte>, v: Value, f: nat, p: nat,
                                       next: Members, e: nat)
    requires NameIs(x, j, name, q) && ValueIs(x, q, d, Some(Parsed(v, f))) && f < x.size && x.skip(f) == p
    requires p + 1 < x.size && x.at(p) == COMMA && MembersAre(x, p + 1, d, Some(Parsed(next, e)))
    ensures MembersAre(x, j, d, Some(Parsed(Member(name, v, next), e)))
  {
    assert NameResult(x, j, name, q, Seal);
    assert ValueResult(x, q, d, Some(Parsed(v, f)), Seal);
    assert MembersResult(x, p + 1, d, Some(Parsed(next, e)), Seal);
  }

  lemma {:induction false} EmptyArrayStep(x: Scanner, i: nat, d: nat, p: nat)
    requires Sane(x) && i + 1 < x.size && x.at(i) == OPEN_ARRAY && x.skip(i + 1) == p < x.size
    requires x.at(p) == CLOSE_ARRAY && d < NESTING_LIMIT
    ensures ValueIs(x, i, d, Some(Parsed(Array(NoElements), p + 1)))
  {
    assert ParseArray(x, i, d) == Some(Parsed(Array(NoElements), p + 1));
    assert ParseValue(x, i, d) == ParseArray(x, i, d);
  }

  lemma {:induction false} FullArrayStep(x: Scanner, i: nat, d: nat, p: nat, es: Elements, e: nat)
    requires Sane(x) && i + 1 < x.size && x.at(i) == OPEN_ARRAY && x.skip(i + 1) == p < x.size
    requires x.at(p) != CLOSE_ARRAY && d < NESTING_LIMIT && ElementsAre(x, p, d + 1, Some(Parsed(es, e)))
    ensures ValueIs(x, i, d, Some(Parsed(Array(es), e)))
  {
    assert ElementsResult(x, p, d + 1, Some(Parsed(es, e)), Seal);
    assert ParseArray(x, i, d) == Some(Parsed(Array(es), e));
    assert ParseValue(x, i, d) == ParseArray(x, i, d);
  }

  lemma {:induction false} FullObjectStep(x: Scanner, i: nat, d: nat, p: nat, ms: Members, e: nat)
    requires Sane(x) && i + 1 < x.size && x.at(i) == OPEN_OBJECT && x.skip(i + 1) == p < x.size
    requires x.at(p) != CLOSE_OBJECT && d < NESTING_LIMIT && MembersAre(x, p, d + 1, Some(Parsed(ms, e)))
    ensures ValueIs(x, i, d, Some(Parsed(Object(ms), e)))
  {
    assert MembersResult(x, p, d + 1, Some(Parsed(ms, e)), Seal);
    assert ParseObject(x, i, d) == Some(Parsed(Object(ms), e));
    assert ParseValue(x, i, d) == ParseObject(x, i, d);
  }

  // ----- elements

  ghost predicate ReadsElementsAt(k: NumberCodec, u: seq<byte>, es: Elements, d: nat, x: Scanner, c: seq<byte>,
                                  j: nat) {
    Scans(x, k, c) && Has(c, j, u) && j + |u| < |c| ==> ElementsAre(x, j, d, Some(Parsed(es, j + |u|)))
  }

  /** Wherever `u` stands it parses to the elements `es` and their closing bracket. */
  ghost predicate ReadsElements(k: NumberCodec, u: seq<byte>, es: Elements, d: nat) {
    forall x, c, j: nat :: ReadsElementsAt(k, u, es, d, x, c, j)
  }

  /** A token that is no number byte and no blank. */
  predicate Mark(b: byte) {
    b > 32 && !NumberByte(b)
  }

  /** A value between two gaps, with a mark behind it. */
  lemma {:induction false} ValueBetween(x: Scanner, k: NumberCodec, c: seq<byte>, j: nat, g: seq<byte>, uv: seq<byte>,
                                        h: seq<byte>, b: byte, v: Value, d: nat)
    returns (i: nat, f: nat, p: nat)
    requires Scans(x, k, c) && Has(c, j, g + uv + (h + [b])) && Controls(g) && Controls(h) && Mark(b)
    requires Reads(k, uv, v, d) && uv != [] && uv[0] > 32
    ensures i == j + |g| && f == i + |uv| && p == f + |h| && p < |c| && x.at(p) == b
    ensures x.skip(j) == i && ValueIs(x, i, d, Some(Parsed(v, f))) && x.skip(f) == p
  {
    i, f, p := j + |g|, j + |g| + |uv|, j + |g| + |uv| + |h|;
    HasSplit3(c, j, g, uv, h + [b], g + uv + (h + [b]));
    GapThenByte(x, k, c, f, h, b);
    HasAt(c, i, uv, 0);
    GapSkipped(x, k, c, j, g);
    assert ReadsAt(k, uv, v, d, x, c, i);
  }

  lemma {:induction false} LastReads(k: NumberCodec, g: seq<byte>, uv: seq<byte>, h: seq<byte>, v: Value, d: nat,
                                     u: seq<byte>)
    requires Controls(g) && Controls(h) && Reads(k, uv, v, d) && uv != [] && uv[0] > 32
    requires u == g + uv + (h + [CLOSE_ARRAY])
    ensures ReadsElements(k, u, Element(v, NoElements), d)
  {
    forall x, c, j: nat ensures ReadsElementsAt(k, u, Element(v, NoElements), d, x, c, j) {
      if Scans(x, k, c) && Has(c, j, u) && j + |u| < |c| {
        var i, f, p := ValueBetween(x, k, c, j, g, uv, h, CLOSE_ARRAY, v, d);
        ElementStep(x, j, i, d, v, f, p);
      }
    }
  }

  lemma {:induction false} MoreReads(k: NumberCodec, g: seq<byte>, uv: seq<byte>, h: seq<byte>, v: Value, d: nat,
                                     rest: seq<byte>, next: Elements, u: seq<byte>)
    requires Controls(g) && Controls(h) && Reads(k, uv, v, d) && uv != [] && uv[0] > 32
    requires ReadsElements(k, rest, next, d) && u == g + uv + (h + [COMMA]) + rest
    ensures ReadsElements(k, u, Element(v, next), d)
  {
    forall x, c, j: nat ensures ReadsElementsAt(k, u, Element(v, next), d, x, c, j) {
      if Scans(x, k, c) && Has(c, j, u) && j + |u| < |c| {
        HasSplit(c, j, g + uv + (h + [COMMA]), rest, u);
        var i, f, p := ValueBetween(x, k, c, j, g, uv, h, COMMA, v, d);
        assert ReadsElementsAt(k, rest, next, d, x, c, p + 1);
        ElementsStep(x, j, i, d, v, f, p, next, j + |u|);
      }
    }
  }

  lemma {:induction false} EmptyArrayReads(k: NumberCodec, g: seq<byte>, d: nat, u: seq<byte>)
    requires Controls(g) && d < NESTING_LIMIT && u == [OPEN_ARRAY] + (g + [CLOSE_ARRAY])
    ensures Reads(k, u, Array(NoElements), d)
  {
    forall x, c, j: nat ensures ReadsAt(k, u, Array(NoElements), d, x, c, j) {
      if Scans(x, k, c) && Delimited(c, j, u, j + |u|) {
        HasSplit(c, j, [OPEN_ARRAY], g + [CLOSE_ARRAY], u);
        HasAt(c, j, [OPEN_ARRAY], 0);
        ScanAt(x, k, c, j);
        GapThenByte(x, k, c, j + 1, g, CLOSE_ARRAY);
        EmptyArrayStep(x, j, d, j + 1 + |g|);
      }
    }
  }

  /** `u` starts with a byte that is no blank and does not close what was opened. */
  predicate Opens(u: seq<byte>, close: byte) {
    u != [] && u[0] > 32 && u[0] != close
  }

  /** An opening byte, a gap and what follows. */
  lemma {:induction false} OpenedAt(x: Scanner, k: NumberCodec, c: seq<byte>, j: nat, open: byte, g: seq<byte>,
                                    us: seq<byte>, u: seq<byte>, close: byte)
    requires Scans(x, k, c) && Has(c, j, u) && u == [open] + g + us && Controls(g) && Opens(us, close)
    ensures j + 1 < |c| && x.at(j) == open && Has(c, j + 1 + |g|, us) && x.skip(j + 1) == j + 1 + |g| < |c|
    ensures x.at(j + 1 + |g|) != close
  {
    HasSplit3(c, j, [open], g, us, u);
    HasAt(c, j, [open], 0);
    ScanAt(x, k, c, j);
    HasAt(c, j + 1 + |g|, us, 0);
    GapSkipped(x, k, c, j + 1, g);
  }

  lemma {:induction false} ArrayReads(k: NumberCodec, g: seq<byte>, us: seq<byte>, es: Elements, d: nat, u: seq<byte>)
    requires Controls(g) && d < NESTING_LIMIT && u == [OPEN_ARRAY] + g + us && Opens(us, CLOSE_ARRAY)
    requires ReadsElements(k, us, es, d + 1)
    ensures Reads(k, u, Array(es), d)
  {
    forall x, c, j: nat ensures ReadsAt(k, u, Array(es), d, x, c, j) {
      if Scans(x, k, c) && Delimited(c, j, u, j + |u|) {
        OpenedAt(x, k, c, j, OPEN_ARRAY, g, us, u, CLOSE_ARRAY);
        assert ReadsElementsAt(k, us, es, d + 1, x, c, j + 1 + |g|);
        FullArrayStep(x, j, d, j + 1 + |g|, es, j + |u|);
      }
    }
  }

  // ----- members

  ghost predicate ReadsNameAt(k: NumberCodec, u: seq<byte>, name: seq<byte>, x: Scanner, c: seq<byte>, j: nat) {
    Scans(x, k, c) && Has(c, j, u) && j + |u| < |c| && c[j + |u|] > 32 ==> NameIs(x, j, name, j + |u|)
  }

  /** Wherever `u` stands before a token it parses to a name and its colon. */
  ghost predicate ReadsName(k: NumberCodec, u: seq<byte>, name: seq<byte>) {
    forall x, c, j: nat :: ReadsNameAt(k, u, name, x, c, j)
  }

  ghost predicate ReadsMembersAt(k: NumberCodec, u: seq<byte>, ms: Members, d: nat, x: Scanner, c: seq<byte>, j: nat) {
    Scans(x, k, c) && Has(c, j, u) && j + |u| < |c| ==> MembersAre(x, j, d, Some(Parsed(ms, j + |u|)))
  }

  ghost predicate ReadsMembers(k: NumberCodec, u: seq<byte>, ms: Members, d: nat) {
    forall x, c, j: nat :: ReadsMembersAt(k, u, ms, d, x, c, j)
  }

  /** A name that was read in the text `c0` from `a` to `b`. */
  lemma {:induction false} NameReads(k: NumberCodec, c0: seq<byte>, a: nat, b: nat, name: seq<byte>, g: seq<byte>,
                                     h: seq<byte>, l: seq<byte>, u: seq<byte>)
    requires Text(c0) && a < b <= |c0| && ParseString(c0, a) == Some(Parsed(name, b))
    requires Controls(g) && Controls(h) && Controls(l) && u == g + c0[a..b] + (h + [COLON]) + l
    ensures ReadsName(k, u, name)
  {
    var lit := c0[a..b];
    forall x, c, j: nat ensures ReadsNameAt(k, u, name, x, c, j) {
      if Scans(x, k, c) && Has(c, j, u) && j + |u| < |c| && c[j + |u|] > 32 {
        HasSplit(c, j, g + lit + (h + [COLON]), l, u);
        HasSplit3(c, j, g, lit, h + [COLON], g + lit + (h + [COLON]));
        NameReadsAt(k, c0, a, b, name, x, c, j, g, h, l);
      }
    }
  }

  lemma {:induction false} NameReadsAt(k: NumberCodec, c0: seq<byte>, a: nat, b: nat, name: seq<byte>, x: Scanner,
                                       c: seq<byte>, j: nat, g: seq<byte>, h: seq<byte>, l: seq<byte>)
    requires Text(c0) && a < b <= |c0| && ParseString(c0, a) == Some(Parsed(name, b)) && Scans(x, k, c)
    requires Controls(g) && Controls(h) && Controls(l)
    requires Has(c, j, g) && Has(c, j + |g|, c0[a..b]) && Has(c, j + |g| + (b - a), h + [COLON])
    requires Has(c, j + |g| + (b - a) + |h| + 1, l) && j + |g| + (b - a) + |h| + 1 + |l| < |c|
    requires c[j + |g| + (b - a) + |h| + 1 + |l|] > 32
    ensures NameIs(x, j, name, j + |g| + (b - a) + |h| + 1 + |l|)
  {
    var n := j + |g|;
    var p := n + (b - a) + |h|;
    LiteralReads(c0, a, name, b, c, n);
    GapSkipped(x, k, c, j, g);
    ScanName(x, k, c, n);
    GapThenByte(x, k, c, n + (b - a), h, COLON);
    GapSkipped(x, k, c, p + 1, l);
    NameFound(x, j, n, name, n + (b - a), p, p + 1 + |l|);
  }

  lemma {:induction false} NameFound(x: Scanner, j: nat, n: nat, name: seq<byte>, b: nat, p: nat, q: nat)
    requires Sane(x) && j < x.size && x.skip(j) == n < x.size && x.name(n) == Some(Parsed(name, b))
    requires b < x.size && x.skip(b) == p < x.size && x.at(p) == COLON && p + 1 < x.size && x.skip(p + 1) == q < x.size
    ensures NameIs(x, j, name, q)
  {
    assert ParseName(x, j) == Some(Parsed(name, q));
  }

  /** A name and a value, with a mark behind it. */
  lemma {:induction false} MemberBetween(x: Scanner, k: NumberCodec, c: seq<byte>, j: nat, un: seq<byte>,
                                         uv: seq<byte>, h: seq<byte>, b: byte, name: seq<byte>, v: Value, d: nat)
    returns (q: nat, f: nat, p: nat)
    requires Scans(x, k, c) && Has(c, j, un + uv + (h + [b])) && Controls(h) && Mark(b)
    requires ReadsName(k, un, name) && Reads(k, uv, v, d) && uv != [] && uv[0] > 32
    ensures q == j + |un| && f == q + |uv| && p == f + |h| && p < |c| && x.at(p) == b
    ensures NameIs(x, j, name, q) && ValueIs(x, q, d, Some(Parsed(v, f))) && x.skip(f) == p
  {
    HasSplit3(c, j, un, uv, h + [b], un + uv + (h + [b]));
    q := j + |un|;
    HasAt(c, q, uv, 0);
    assert ReadsNameAt(k, un, name, x, c, j);
    f := q + |uv|;
    p := f + |h|;
    GapThenByte(x, k, c, f, h, b);
    assert ReadsAt(k, uv, v, d, x, c, q);
  }

  lemma {:induction false} LastMemberReads(k: NumberCodec, un: seq<byte>, uv: seq<byte>, h: seq<byte>, name: seq<byte>,
                                           v: Value, d: nat, u: seq<byte>)
    requires Controls(h) && ReadsName(k, un, name) && Reads(k, uv, v, d) && uv != [] && uv[0] > 32
    requires u == un + uv + (h + [CLOSE_OBJECT])
    ensures ReadsMembers(k, u, Member(name, v, NoMembers), d)
  {
    forall x, c, j: nat ensures ReadsMembersAt(k, u, Member(name, v, NoMembers), d, x, c, j) {
      if Scans(x, k, c) && Has(c, j, u) && j + |u| < |c| {
        var q, f, p := MemberBetween(x, k, c, j, un, uv, h, CLOSE_OBJECT, name, v, d);
        MemberStep(x, j, q, d, name, v, f, p);
      }
    }
  }

  lemma {:induction false} MoreMembersRead(k: NumberCodec, un: seq<byte>, uv: seq<byte>, h: seq<byte>, name: seq<byte>,
                                           v: Value, d: nat, rest: seq<byte>, next: Members, u: seq<byte>)
    requires Controls(h) && ReadsName(k, un, name) && Reads(k, uv, v, d) && uv != [] && uv[0] > 32
    requires ReadsMembers(k, rest, next, d) && u == un + uv + (h + [COMMA]) + rest
    ensures ReadsMembers(k, u, Member(name, v, next), d)
  {
    forall x, c, j: nat ensures ReadsMembersAt(k, u, Member(name, v, next), d, x, c, j) {
      if Scans(x, k, c) && Has(c, j, u) && j + |u| < |c| {
        HasSplit(c, j, un + uv + (h + [COMMA]), rest, u);
        var q, f, p := MemberBetween(x, k, c, j, un, uv, h, COMMA, name, v, d);
        assert ReadsMembersAt(k, rest, next, d, x, c, p + 1);
        MembersStep(x, j, q, d, name, v, f, p, next, j + |u|);
      }
    }
  }

  lemma {:induction false} EmptyObjectReads(k: NumberCodec, g: seq<byte>, d: nat, u: seq<byte>)
    requires Controls(g) && d < NESTING_LIMIT && u == [OPEN_OBJECT] + (g + [CLOSE_OBJECT])
    ensures Reads(k, u, Object(NoMembers), d)
  {
    forall x, c, j: nat ensures ReadsAt(k, u, Object(NoMembers), d, x, c, j) {
      if Scans(x, k, c) && Delimited(c, j, u, j + |u|) {
        HasSplit(c, j, [OPEN_OBJECT], g + [CLOSE_OBJECT], u);
        HasAt(c, j, [OPEN_OBJECT], 0);
        ScanAt(x, k, c, j);
        GapThenByte(x, k, c, j + 1, g, CLOSE_OBJECT);
        EmptyObject(x, j, d, j + 1 + |g|);
      }
    }
  }

  lemma {:induction false} ObjectReads(k: NumberCodec, g: seq<byte>, us: seq<byte>, ms: Members, d: nat, u: seq<byte>)
    requires Controls(g) && d < NESTING_LIMIT && u == [OPEN_OBJECT] + g + us && Opens(us, CLOSE_OBJECT)
    requires ReadsMembers(k, us, ms, d + 1)
    ensures Reads(k, u, Object(ms), d)
  {
    forall x, c, j: nat ensures ReadsAt(k, u, Object(ms), d, x, c, j) {
      if Scans(x, k, c) && Delimited(c, j, u, j + |u|) {
        OpenedAt(x, k, c, j, OPEN_OBJECT, g, us, u, CLOSE_OBJECT);
        assert ReadsMembersAt(k, us, ms, d + 1, x, c, j + 1 + |g|);
        FullObjectStep(x, j, d, j + 1 + |g|, ms, j + |u|);
      }
    }
  }

  // ----- minifying what was parsed

  /** Three pieces of text, one after the other. */
  lemma {:induction false} KeepsThree(c: seq<byte>, i: nat, a: seq<byte>, m: nat, b: seq<byte>, n: nat, e: seq<byte>,
                                      end: nat, u: seq<byte>)
    requires Keeps(c, i, a, m) && Keeps(c, m, b, n) && Keeps(c, n, e, end) && u == a + b + e
    ensures Keeps(c, i, u, end)
  {
    KeepsBoth(c, i, a, m, b, n, a + b);
    KeepsBoth(c, i, a + b, n, e, end, u);
  }

  /** A gap and a mark. */
  lemma {:induction false} MarkMinified(x: Scanner, k: NumberCodec, c: seq<byte>, f: nat, p: nat, b: byte)
    returns (g: seq<byte>)
    requires Scans(x, k, c) && NulEnded(c) && f < |c| && p == x.skip(f) && p < |c| && x.at(p) == b && Mark(b)
    requires b == COMMA || b == COLON || b == CLOSE_ARRAY || b == CLOSE_OBJECT
    ensures Controls(g) && Keeps(c, f, g + [b], p + 1) && !NumberByte(c[f]) && Blanks(c, f, p) && c[p] == b
  {
    SkippedGap(x, k, c, f, p);
    g := GapMinified(c, f, p);
    assert c[p..p + 1] == [b];
    assert HasBody(c, p, [b], Seal);
    PlainRun(c, p, [b]);
    KeepsBoth(c, f, g, p, [b], p + 1, g + [b]);
  }

  /** Minified, a value that was parsed reads as the same value wherever it stands. */
  lemma {:induction false} ValueMinified(x: Scanner, k: NumberCodec, c: seq<byte>, i: nat, d: nat, v: Value, e: nat)
    returns (u: seq<byte>)
    requires Scans(x, k, c) && NulEnded(c) && ValueIs(x, i, d, Some(Parsed(v, e))) && e < |c| && !NumberByte(c[e])
    ensures Keeps(c, i, u, e) && Reads(k, u, v, d) && i < |c| && u != [] && u[0] == c[i] > 32
    decreases |c| - i, 1
  {
    ScanAt(x, k, c, i);
    if x.at(i) == OPEN_ARRAY {
      u := ArrayMinified(x, k, c, i, d, v, e);
    } else if x.at(i) == OPEN_OBJECT {
      u := ObjectMinified(x, k, c, i, d, v, e);
    } else {
      ScalarInverse(x, i, d, v, e);
      ScanScalar(x, k, c, i);
      u := ScalarMinified(k, c, i, v, e, d);
    }
  }

  lemma {:induction false} OpenMinified(c: seq<byte>, i: nat, b: byte)
    requires i < |c| && c[i] == b && (b == OPEN_ARRAY || b == OPEN_OBJECT)
    ensures Keeps(c, i, [b], i + 1)
  {
    assert c[i..i + 1] == [b];
    PlainRun(c, i, [b]);
  }

  lemma {:induction false} ArrayMinified(x: Scanner, k: NumberCodec, c: seq<byte>, i: nat, d: nat, v: Value, e: nat)
    returns (u: seq<byte>)
    requires Scans(x, k, c) && NulEnded(c) && ValueIs(x, i, d, Some(Parsed(v, e))) && x.at(i) == OPEN_ARRAY
    ensures Keeps(c, i, u, e) && Reads(k, u, v, d) && i < |c| && u != [] && u[0] == c[i] > 32
    decreases |c| - i, 0
  {
    ScanAt(x, k, c, i);
    OpenMinified(c, i, OPEN_ARRAY);
    var p := ArrayInverse(x, i, d, v, e);
    if x.at(p) == CLOSE_ARRAY {
      var g := MarkMinified(x, k, c, i + 1, p, CLOSE_ARRAY);
      u := [OPEN_ARRAY] + (g + [CLOSE_ARRAY]);
      KeepsBoth(c, i, [OPEN_ARRAY], i + 1, g + [CLOSE_ARRAY], e, u);
      EmptyArrayReads(k, g, d, u);
    } else {
      var us := ElementsMinified(x, k, c, p, d + 1, v.elements, e);
      ElementsStart(x, k, c, i + 1, p, d + 1, v.elements, e);
      var g := GapMinified(c, i + 1, p);
      u := [OPEN_ARRAY] + g + us;
      KeepsThree(c, i, [OPEN_ARRAY], i + 1, g, p, us, e, u);
      ArrayReads(k, g, us, v.elements, d, u);
    }
  }

  /** Elements start with a token. */
  lemma {:induction false} ElementsStart(x: Scanner, k: NumberCodec, c: seq<byte>, i: nat, p: nat, d: nat,
                                         es: Elements, e: nat)
    requires Scans(x, k, c) && NulEnded(c) && i < |c| && p == x.skip(i)
    requires ElementsAre(x, p, d, Some(Parsed(es, e)))
    ensures Blanks(c, i, p) && c[p] > 32 && x.at(p) == c[p]
  {
    var s, f, q := ElementsInverse(x, p, d, es, e);
    ScanSkip(x, k, c, i);
    ScanSkip(x, k, c, p);
    ScanAt(x, k, c, p);
    SkipTwice(c, i);
    ValueStart(x, k, c, s, d, es.value, f);
    SkipStops(c, i);
  }

  lemma {:induction false} SkipTwice(c: seq<byte>, i: nat)
    requires Text(c) && i < |c|
    ensures Skip(c, Skip(c, i)) == Skip(c, i)
  {
    if Blank(c, i) == |c| {
      assert Blank(c, |c| - 1) == |c|;
    }
  }

  lemma {:induction false} ValueStart(x: Scanner, k: NumberCodec, c: seq<byte>, i: nat, d: nat, v: Value, e: nat)
    requires Scans(x, k, c) && NulEnded(c) && ValueIs(x, i, d, Some(Parsed(v, e)))
    ensures i < |c| && 32 < c[i] < 128
  {
    ScanAt(x, k, c, i);
    if x.at(i) != OPEN_ARRAY && x.at(i) != OPEN_OBJECT {
      ScalarInverse(x, i, d, v, e);
      ScanScalar(x, k, c, i);
      ScalarFirst(k, c, i);
    }
  }

  lemma {:induction false} ScalarFirst(k: NumberCodec, c: seq<byte>, i: nat)
    requires Text(c) && i < |c| && ParseScalar(k, c, i).Some?
    ensures 32 < c[i] < 128
  {
    if c[i] <= 32 || c[i] >= 128 {
      NotAWord(c, i, NULL_TEXT);
      NotAWord(c, i, FALSE_TEXT);
      NotAWord(c, i, TRUE_TEXT);
    }
  }

  lemma {:induction false} ElementsMinified(x: Scanner, k: NumberCodec, c: seq<byte>, i: nat, d: nat, es: Elements,
                                            e: nat)
    returns (u: seq<byte>)
    requires Scans(x, k, c) && NulEnded(c) && ElementsAre(x, i, d, Some(Parsed(es, e)))
    ensures Keeps(c, i, u, e) && ReadsElements(k, u, es, d) && i < |c| && u != [] && (c[i] > 32 ==> u[0] == c[i])
    decreases |c| - i, 2
  {
    var s, f, p := ElementsInverse(x, i, d, es, e);
    ValueStart(x, k, c, s, d, es.value, f);
    ScanAt(x, k, c, s);
    SkippedGap(x, k, c, i, s);
    var g := GapMinified(c, i, s);
    var h := MarkMinified(x, k, c, f, p, x.at(p));
    var uv := ValueMinified(x, k, c, s, d, es.value, f);
    var b := x.at(p);
    u := g + uv + (h + [b]);
    KeepsThree(c, i, g, s, uv, f, h + [b], p + 1, u);
    FirstKept(c, i, s, g, uv, h + [b]);
    if b == COMMA {
      var first := u;
      var rest := ElementsMinified(x, k, c, p + 1, d, es.next, e);
      u := first + rest;
      KeepsBoth(c, i, first, p + 1, rest, e, u);
      MoreReads(k, g, uv, h, es.value, d, rest, es.next, u);
    } else {
      LastReads(k, g, uv, h, es.value, d, u);
    }
  }

  /** Without a gap the text starts with its first token. */
  lemma {:induction false} FirstKept(c: seq<byte>, i: nat, s: nat, g: seq<byte>, uv: seq<byte>, rest: seq<byte>)
    requires Blanks(c, i, s) && s < |c| && uv != [] && uv[0] == c[s] && (i == s ==> g == [])
    ensures c[i] > 32 ==> (g + uv + rest)[0] == c[i]
  {}

  lemma {:induction false} ObjectMinified(x: Scanner, k: NumberCodec, c: seq<byte>, i: nat, d: nat, v: Value, e: nat)
    returns (u: seq<byte>)
    requires Scans(x, k, c) && NulEnded(c) && ValueIs(x, i, d, Some(Parsed(v, e))) && x.at(i) == OPEN_OBJECT
    ensures Keeps(c, i, u, e) && Reads(k, u, v, d) && i < |c| && u != [] && u[0] == c[i] > 32
    decreases |c| - i, 0
  {
    ScanAt(x, k, c, i);
    OpenMinified(c, i, OPEN_OBJECT);
    var p := ObjectInverse(x, i, d, v, e);
    if x.at(p) == CLOSE_OBJECT {
      var g := MarkMinified(x, k, c, i + 1, p, CLOSE_OBJECT);
      u := [OPEN_OBJECT] + (g + [CLOSE_OBJECT]);
      KeepsBoth(c, i, [OPEN_OBJECT], i + 1, g + [CLOSE_OBJECT], e, u);
      EmptyObjectReads(k, g, d, u);
    } else {
      var us := MembersMinified(x, k, c, p, d + 1, v.members, e);
      MembersStart(x, k, c, i + 1, p, d + 1, v.members, e);
      var g := GapMinified(c, i + 1, p);
      u := [OPEN_OBJECT] + g + us;
      KeepsThree(c, i, [OPEN_OBJECT], i + 1, g, p, us, e, u);
      ObjectReads(k, g, us, v.members, d, u);
    }
  }

  lemma {:induction false} MembersStart(x: Scanner, k: NumberCodec, c: seq<byte>, i: nat, p: nat, d: nat, ms: Members,
                                        e: nat)
    requires Scans(x, k, c) && NulEnded(c) && i < |c| && p == x.skip(i)
    requires MembersAre(x, p, d, Some(Parsed(ms, e)))
    ensures Blanks(c, i, p) && c[p] > 32 && x.at(p) == c[p]
  {
    var q, _, _ := MembersInverse(x, p, d, ms, e);
    var a, b, _ := NameInverse(x, p, ms.name, q);
    ScanSkip(x, k, c, i);
    ScanSkip(x, k, c, p);
    ScanAt(x, k, c, p);
    SkipTwice(c, i);
    ScanName(x, k, c, a);
    SkipStops(c, i);
  }

  /** A name with its colon and the gap behind it. */
  lemma {:induction false} NameMinified(x: Scanner, k: NumberCodec, c: seq<byte>, i: nat, name: seq<byte>, q: nat)
    returns (u: seq<byte>)
    requires Scans(x, k, c) && NulEnded(c) && NameIs(x, i, name, q) && x.at(q) != 0
    ensures Keeps(c, i, u, q) && ReadsName(k, u, name) && i < |c| && u != [] && (c[i] > 32 ==> u[0] == c[i])
  {
    var a, b, p := NameInverse(x, i, name, q);
    ScanName(x, k, c, a);
    LiteralKept(c, a, name, b);
    ScanAt(x, k, c, a);
    SkippedGap(x, k, c, i, a);
    var g := GapMinified(c, i, a);
    var h := MarkMinified(x, k, c, b, p, COLON);
    SkippedGap(x, k, c, p + 1, q);
    var l := GapMinified(c, p + 1, q);
    var lit := c[a..b];
    KeepsThree(c, i, g, a, lit, b, h + [COLON], p + 1, g + lit + (h + [COLON]));
    u := g + lit + (h + [COLON]) + l;
    KeepsBoth(c, i, g + lit + (h + [COLON]), p + 1, l, q, u);
    FirstKept(c, i, a, g, lit, h + [COLON]);
    NameReads(k, c, a, b, name, g, h, l, u);
  }

  lemma {:induction false} MembersMinified(x: Scanner, k: NumberCodec, c: seq<byte>, i: nat, d: nat, ms: Members,
                                           e: nat)
    returns (u: seq<byte>)
    requires Scans(x, k, c) && NulEnded(c) && MembersAre(x, i, d, Some(Parsed(ms, e)))
    ensures Keeps(c, i, u, e) && ReadsMembers(k, u, ms, d) && i < |c| && u != [] && (c[i] > 32 ==> u[0] == c[i])
    decreases |c| - i, 2
  {
    var q, f, p := MembersInverse(x, i, d, ms, e);
    ValueStart(x, k, c, q, d, ms.value, f);
    ScanAt(x, k, c, q);
    var un := NameMinified(x, k, c, i, ms.name, q);
    var b := x.at(p);
    var h := MarkMinified(x, k, c, f, p, b);
    var uv := ValueMinified(x, k, c, q, d, ms.value, f);
    u := un + uv + (h + [b]);
    KeepsThree(c, i, un, q, uv, f, h + [b], p + 1, u);
    if b == COMMA {
      var first := u;
      var rest := MembersMinified(x, k, c, p + 1, d, ms.next, e);
      u := first + rest;
      KeepsBoth(c, i, first, p + 1, rest, e, u);
      MoreMembersRead(k, un, uv, h, ms.name, ms.value, d, rest, ms.next, u);
    } else {
      LastMemberReads(k, un, uv, h, ms.name, ms.value, d, u);
    }
  }

  // ----- whole texts

  lemma {:induction false} KeptBytes(t: seq<byte>, i: nat)
    requires 0 !in t && Closed(t, i)
    ensures 0 !in Remains(t, i)
    decreases |t| - i
  {
    if i < |t| {
      assert forall b :: b in TurnAt(t, i).kept ==> b in t;
      KeptBytes(t, TurnAt(t, i).next);
    }
  }

  /** Behind a value that ends its text there are only blanks. */
  lemma {:induction false} EndGap(c: seq<byte>, e: nat)
    requires NulEnded(c) && e < |c| && c[Skip(c, e)] == 0
    ensures Blanks(c, e, |c| - 1) && !NumberByte(c[e])
  {
    BlankStops(c, e);
  }

  lemma {:induction false} AllBlank(c: seq<byte>, e: nat)
    requires Text(c) && e < |c| && Blanks(c, e, |c| - 1)
    ensures Skip(c, e) == |c| - 1
    decreases |c| - e
  {
    if e + 1 < |c| {
      AllBlank(c, e + 1);
    }
  }

  /** A byte order mark is kept. */
  lemma {:induction false} MarkKept(c: seq<byte>)
    requires |c| > 0
    ensures Keeps(c, 0, c[..Start(c)], Start(c))
  {
    var bom := c[..Start(c)];
    if bom == [] {
      KeepsNothing(c, 0);
    } else {
      assert c[0..0 + |bom|] == bom;
      PlainRun(c, 0, bom);
    }
  }

  /** What remains of a text that parses to its end: the byte order mark, and the value between gaps. */
  lemma {:induction false} TextMinified(k: NumberCodec, t: seq<byte>, v: Value)
    returns (bom: seq<byte>, g: seq<byte>, uv: seq<byte>, h: seq<byte>)
    requires 0 !in t && Parse(k, t, true) == Some(v)
    ensures Minified(t + [0], 0) == Some(bom + (g + uv + h))
    ensures Controls(g) && Controls(h) && Reads(k, uv, v, 0) && uv != [] && 32 < uv[0] < 128
    ensures bom == [] || bom == [0xEF, 0xBB, 0xBF]
  {
    var x, c, i, e := ParseInverse(k, t, true, v);
    var s, end := Start(c), |c| - 1;
    ValueStart(x, k, c, i, 0, v, e);
    SkipStops(c, s);
    EndGap(c, e);
    bom := c[..s];
    MarkKept(c);
    g := GapMinified(c, s, i);
    uv := ValueMinified(x, k, c, i, 0, v, e);
    h := GapMinified(c, e, end);
    KeepsThree(c, s, g, i, uv, e, h, end, g + uv + h);
    KeepsBoth(c, 0, bom, s, g + uv + h, end, bom + (g + uv + h));
    assert KeepsBody(c, 0, bom + (g + uv + h), end, Seal);
    assert Minified(c, end) == Some([]);
    assert bom + (g + uv + h) + [] == bom + (g + uv + h);
  }

  /** The pieces of a minified text, where they stand. */
  lemma {:induction false} TextPieces(bom: seq<byte>, g: seq<byte>, uv: seq<byte>, h: seq<byte>, c: seq<byte>)
    requires c == bom + (g + uv + h) + [0] && uv != [] && 32 < uv[0] < 128 && Controls(g)
    requires bom == [] || bom == [0xEF, 0xBB, 0xBF]
    ensures Start(c) == |bom| && Has(c, |bom|, g) && Has(c, |bom| + |g|, uv) && c[|bom| + |g|] > 32
    ensures Has(c, |bom| + |g| + |uv|, h) && |c| == |bom| + |g| + |uv| + |h| + 1
  {
    assert Has(c, 0, bom + (g + uv + h)) by {
      assert c[0..0 + |bom + (g + uv + h)|] == bom + (g + uv + h);
    }
    HasSplit(c, 0, bom, g + uv + h, bom + (g + uv + h));
    HasSplit3(c, |bom|, g, uv, h, g + uv + h);
    HasAt(c, |bom| + |g|, uv, 0);
    TextStart(bom, g, uv, c);
  }

  lemma {:induction false} TextStart(bom: seq<byte>, g: seq<byte>, uv: seq<byte>, c: seq<byte>)
    requires Has(c, 0, bom) && Has(c, |bom|, g) && Has(c, |bom| + |g|, uv) && |c| > |bom| + |g| + |uv|
    requires uv != [] && 32 < uv[0] < 128 && Controls(g) && (bom == [] || bom == [0xEF, 0xBB, 0xBF])
    ensures Start(c) == |bom|
  {
    HasAt(c, |bom| + |g|, uv, 0);
    if bom == [] {
      if g != [] {
        HasAt(c, 0, g, 0);
        assert g[0] in g;
      }
    } else {
      HasAt(c, 0, bom, 0);
      HasAt(c, 0, bom, 1);
      HasAt(c, 0, bom, 2);
    }
  }

  lemma {:induction false} PiecesParse(k: NumberCodec, bom: seq<byte>, g: seq<byte>, uv: seq<byte>, h: seq<byte>,
                                       v: Value, m: seq<byte>)
    requires m == bom + (g + uv + h) && 0 !in m && uv != [] && 32 < uv[0] < 128 && Controls(g) && Controls(h)
    requires bom == [] || bom == [0xEF, 0xBB, 0xBF]
    requires Reads(k, uv, v, 0)
    ensures Parse(k, m, true) == Some(v)
  {
    var c := m + [0];
    var x, i, e := ScannerOf(k, c), |bom| + |g|, |bom| + |g| + |uv|;
    ScannerIsSane(k, c);
    TextPieces(bom, g, uv, h, c);
    HasControls(c, |bom|, g);
    SkipTo(c, |bom|, i);
    HasControls(c, e, h);
    AllBlank(c, e);
    ValueBeforeGap(x, k, c, i, uv, v, e);
    ParseFound(k, m, true, v, x, c, i, e);
  }

  lemma {:induction false} ValueBeforeGap(x: Scanner, k: NumberCodec, c: seq<byte>, i: nat, uv: seq<byte>, v: Value,
                                          e: nat)
    requires Scans(x, k, c) && Has(c, i, uv) && e == i + |uv| < |c| && Blanks(c, e, |c| - 1) && Reads(k, uv, v, 0)
    ensures ValueIs(x, i, 0, Some(Parsed(v, e)))
  {
    assert c[e] <= 32;
    assert ReadsAt(k, uv, v, 0, x, c, i);
  }

  lemma {:induction false} ParseFound(k: NumberCodec, m: seq<byte>, terminated: bool, v: Value, x: Scanner,
                                      c: seq<byte>, i: nat, e: nat)
    requires 0 !in m && c == m + [0] && x == ScannerOf(k, c) && i == Skip(c, Start(c)) && e < |c|
    requires ValueIs(x, i, 0, Some(Parsed(v, e))) && (terminated ==> c[Skip(c, e)] == 0)
    ensures Parse(k, m, terminated) == Some(v)
  {
    assert ValueResult(x, i, 0, Some(Parsed(v, e)), Seal);
  }

  /**
   * Minifying keeps the meaning of any text that parses to its end: it is closed, and what remains of it parses to
   * the same tree.
   */
  lemma {:induction false} MinifyKeepsMeaning(k: NumberCodec, t: seq<byte>, v: Value)
    requires 0 !in t && Parse(k, t, true) == Some(v)
    ensures Closed(t, 0) && 0 !in Remains(t, 0) && Parse(k, Remains(t, 0), true) == Some(v)
  {
    var bom, g, uv, h := TextMinified(k, t, v);
    ClosedExact(t);
    ClosedAlone(t + [0], t, 0);
    KeptBytes(t, 0);
    PiecesParse(k, bom, g, uv, h, v, Remains(t, 0));
  }

  /** A number at the start of a text. */
  lemma {:induction false} NumberFirst(k: NumberCodec, u: seq<byte>, n: int, t: seq<byte>)
    requires 0 < |u| <= 63 && NumberStart(u[0]) && (forall i :: 0 <= i < |u| ==> NumberByte(u[i]))
    requires k.scan(u) == Scanned(n, |u|) && u <= t && 0 !in t && (|t| > |u| ==> !NumberByte(t[|u|]))
    ensures Parse(k, t, false) == Some(Number(n))
  {
    var c := t + [0];
    var x := ScannerOf(k, c);
    ScannerIsSane(k, c);
    NumberReads(k, u, n, 0);
    assert c[0..0 + |u|] == u;
    assert c[0] == u[0];
    SkipTo(c, 0, 0);
    assert ReadsAt(k, u, Number(n), 0, x, c, 0);
    ParseFound(k, t, false, Number(n), x, c, 0, |u|);
  }

  /** The text has to end with its value: `1 2` parses to 1, what remains of it to 12. */
  lemma {:induction false} BlankSeparates(k: NumberCodec, one: int, twelve: int)
    requires k.scan([49]) == Scanned(one, 1) && k.scan([49, 50]) == Scanned(twelve, 2)
    ensures Closed([49, SPACE, 50], 0) && Remains([49, SPACE, 50], 0) == [49, 50]
    ensures Parse(k, [49, SPACE, 50], false) == Some(Number(one))
    ensures Parse(k, [49, 50], false) == Some(Number(twelve))
  {
    var t: seq<byte> := [49, SPACE, 50];
    assert TurnAt(t, 2) == Turn([50], 3) && TurnAt(t, 1) == Turn([], 2) && TurnAt(t, 0) == Turn([49], 1);
    assert Closed(t, 3) && Closed(t, 2) && Closed(t, 1);
    assert Remains(t, 3) == [] && Remains(t, 2) == [50] && Remains(t, 1) == [50];
    NumberFirst(k, [49], one, t);
    NumberFirst(k, [49, 50], twelve, [49, 50]);
  }
}
