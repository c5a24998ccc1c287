/** Parsing what was printed: the tree comes back exactly when it is nested no deeper than the limit. */
module JsonRoundTrip {
  import opened Common
  import opened Bits
  import opened CStrings
  import opened Occurrence
  import opened JsonString
  import opened Json
  import opened JsonParse

  /** What parsing gives for a tree `item` that ends at `offset`, when it is nested `depth` deep in all. */
  function Within<T>(depth: nat, item: T, offset: nat): Option<Parsed<T>> {
    if depth <= NESTING_LIMIT then Some(Parsed(item, offset)) else None
  }

  // ----- blanks

  lemma {:induction false} BlankRun(c: seq<byte>, i: nat, j: nat)
    requires i <= j < |c| && c[j] > 32 && forall x :: i <= x < j ==> c[x] <= 32
    ensures Blank(c, i) == j
    decreases j - i
  {
    if i < j {
      BlankRun(c, i + 1, j);
    }
  }

  /** Blanks do not change where a scan stops. */
  lemma {:induction false} SkipBlanks(c: seq<byte>, i: nat, j: nat)
    requires i <= j < |c| && forall x :: i <= x < j ==> c[x] <= 32
    ensures Skip(c, i) == Skip(c, j)
    decreases j - i
  {
    if i < j {
      SkipBlanks(c, i + 1, j);
    }
  }

  lemma {:induction false} SkipTo(c: seq<byte>, i: nat, j: nat)
    requires i <= j < |c| && c[j] > 32 && forall x :: i <= x < j ==> c[x] <= 32
    ensures Skip(c, i) == j
  {
    BlankRun(c, i, j);
  }

  ghost predicate Blanks(c: seq<byte>, i: nat, j: nat) {
    i <= j <= |c| && forall x :: i <= x < j ==> c[x] <= 32
  }

  lemma {:induction false} HasBlanks(c: seq<byte>, i: nat, r: seq<byte>)
    requires Has(c, i, r) && forall k :: 0 <= k < |r| ==> r[k] <= 32
    ensures Blanks(c, i, i + |r|)
  {
    forall x | i <= x < i + |r| ensures c[x] <= 32 {
      HasAt(c, i, r, x - i);
    }
  }

  // ----- scalars

  lemma {:induction false} TokenOf(c: seq<byte>, i: nat, t: seq<byte>, room: nat)
    requires Text(c) && Has(c, i, t) && i + |t| < |c| && |t| <= room && !NumberByte(c[i + |t|])
    requires forall k :: 0 <= k < |t| ==> NumberByte(t[k])
    ensures Token(c, i, room) == t
    decreases |t|
  {
    if t != [] {
      HasSplit(c, i, [t[0]], t[1..], t);
      HasAt(c, i, t, 0);
      TokenOf(c, i + 1, t[1..], room - 1);
    }
  }

  lemma {:induction false} ParseRenderedNumber(k: NumberCodec, c: seq<byte>, i: nat, n: int)
    requires Text(c) && Faithful(k, n) && Has(c, i, k.format(n)) && i + |k.format(n)| < |c|
    requires !NumberByte(c[i + |k.format(n)|])
    ensures ParseNumber(k, c, i) == Some(Parsed(Number(n), i + |k.format(n)|))
  {
    TokenOf(c, i, k.format(n), 63);
  }

  lemma {:induction false} ParseRenderedString(c: seq<byte>, i: nat, s: seq<byte>)
    requires Text(c) && 0 !in s && Has(c, i, Quoted(s))
    ensures ParseString(c, i) == Some(Parsed(s, i + |Quoted(s)|)) && c[i] == QUOTE
  {
    var end := i + 1 + |Escape(s)|;
    QuotedText(c, i, s, end);
    ScanEscaped(c, i + 1, s, end);
    DecodeEscaped(c, i + 1, s, end);
    CStringWhole(s);
    StringStep(c, i, end, s);
  }

  lemma {:induction false} StringStep(c: seq<byte>, i: nat, end: nat, s: seq<byte>)
    requires Text(c) && i < |c| && c[i] == QUOTE && StringEnd(c, i + 1) == Some(end) && end < |c|
    requires Decode(c, i + 1, end) == Some(s) && CString(s) == s
    ensures ParseString(c, i) == Some(Parsed(s, end + 1))
  {}

  lemma {:induction false} QuotedText(c: seq<byte>, i: nat, s: seq<byte>, end: nat)
    requires Has(c, i, Quoted(s)) && end == i + 1 + |Escape(s)|
    ensures |Quoted(s)| == |Escape(s)| + 2 && end < |c| && c[i] == QUOTE && c[end] == QUOTE && Has(c, i + 1, Escape(s))
  {
    HasSplit(c, i, [QUOTE] + Escape(s), [QUOTE], Quoted(s));
    HasSplit(c, i, [QUOTE], Escape(s), [QUOTE] + Escape(s));
    HasAt(c, i, [QUOTE], 0);
    HasAt(c, end, [QUOTE], 0);
  }

  /** The first byte of a rendering tells what it is. */
  lemma {:induction false} FirstByte(k: NumberCodec, v: Value, fmt: bool, depth: nat)
    requires WellFormed(k, v)
    ensures var r := Render(k, v, fmt, depth);
            && |r| > 0 && r[0] > 32 && r[0] != CLOSE_ARRAY && r[0] != CLOSE_OBJECT && r[0] < 128
            && (v.Number? ==> NumberStart(r[0])) && (v.String? ==> r[0] == QUOTE)
            && (v.Array? ==> r[0] == OPEN_ARRAY) && (v.Object? ==> r[0] == OPEN_OBJECT)
  {}

  lemma {:induction false} NotAWord(c: seq<byte>, i: nat, word: seq<byte>)
    requires i < |c| && word != [] && c[i] != word[0]
    ensures !StartsWith(c, i, word)
  {
    if i + |word| <= |c| {
      assert c[i..i + |word|][0] == c[i];
    }
  }

  /** `r` stands at `i` up to `end`, and the byte after it ends any number. */
  ghost predicate Delimited(c: seq<byte>, i: nat, r: seq<byte>, end: nat) {
    Has(c, i, r) && end == i + |r| < |c| && !NumberByte(c[end])
  }

  lemma {:induction false} ParseRenderedWord(k: NumberCodec, c: seq<byte>, i: nat, v: Value, fmt: bool, rd: nat,
                                             end: nat)
    requires Text(c) && (v.Null? || v.False? || v.True?) && Delimited(c, i, Render(k, v, fmt, rd), end)
    ensures ParseScalar(k, c, i) == Some(Parsed(v, end))
  {
    assert HasBody(c, i, Render(k, v, fmt, rd), Seal);
    HasAt(c, i, Render(k, v, fmt, rd), 0);
    if !v.Null? {
      NotAWord(c, i, NULL_TEXT);
    }
    if v.True? {
      NotAWord(c, i, FALSE_TEXT);
    }
  }

  lemma {:induction false} ParseRenderedScalar(k: NumberCodec, c: seq<byte>, i: nat, v: Value, fmt: bool, rd: nat,
                                               end: nat)
    requires Text(c) && WellFormed(k, v) && Delimited(c, i, Render(k, v, fmt, rd), end) && !v.Array? && !v.Object?
    ensures ParseScalar(k, c, i) == Some(Parsed(v, end)) && c[i] != OPEN_ARRAY && c[i] != OPEN_OBJECT
  {
    FirstByte(k, v, fmt, rd);
    HasAt(c, i, Render(k, v, fmt, rd), 0);
    if v.Number? || v.String? {
      NoWord(k, c, i);
      if v.Number? {
        ParseRenderedNumber(k, c, i, v.bits);
      } else {
        ParseRenderedString(c, i, v.text);
      }
    } else {
      ParseRenderedWord(k, c, i, v, fmt, rd, end);
    }
  }

  /** A quote or the start of a number is not the start of a word. */
  lemma {:induction false} NoWord(k: NumberCodec, c: seq<byte>, i: nat)
    requires Text(c) && i < |c| && (c[i] == QUOTE || NumberStart(c[i]))
    ensures c[i] == QUOTE ==>
              ParseScalar(k, c, i) ==
              var s := ParseString(c, i);
              if s.None? then None else Some(Parsed(String(s.value.item), s.value.offset))
    ensures c[i] != QUOTE ==> ParseScalar(k, c, i) == ParseNumber(k, c, i)
  {
    NotAWord(c, i, NULL_TEXT);
    NotAWord(c, i, FALSE_TEXT);
    NotAWord(c, i, TRUE_TEXT);
  }

  // ----- the scanner of a text

  lemma {:induction false} ScanBlanks(x: Scanner, k: NumberCodec, c: seq<byte>, j: nat, i: nat)
    requires Scans(x, k, c) && i < |c| && c[i] > 32 && Blanks(c, j, i)
    ensures x.skip(j) == i
  {
    ScanSkip(x, k, c, j);
    SkipTo(c, j, i);
  }

  // ----- where the parts of a rendering stand

  ghost predicate ValueTextBody(k: NumberCodec, c: seq<byte>, i: nat, v: Value, fmt: bool, rd: nat, end: nat, s: Seal) {
    WellFormed(k, v) && Delimited(c, i, Render(k, v, fmt, rd), end)
  }

  /** The rendering of `v` stands at `i` up to `end`. */
  ghost predicate ValueText(k: NumberCodec, c: seq<byte>, i: nat, v: Value, fmt: bool, rd: nat, end: nat) {
    forall s: Seal :: ValueTextBody(k, c, i, v, fmt, rd, end, s)
  }

  ghost predicate ElementsTextBody(k: NumberCodec, c: seq<byte>, i: nat, es: Elements, fmt: bool, rd: nat, end: nat,
                                   s: Seal) {
    && es.Element? && WellFormedElements(k, es) && Has(c, i, RenderElements(k, es, fmt, rd))
    && end == i + |RenderElements(k, es, fmt, rd)| + 1 <= |c| && c[end - 1] == CLOSE_ARRAY
  }

  /** The elements `es` and a closing bracket stand at `i` up to `end`. */
  ghost predicate ElementsText(k: NumberCodec, c: seq<byte>, i: nat, es: Elements, fmt: bool, rd: nat, end: nat) {
    forall s: Seal :: ElementsTextBody(k, c, i, es, fmt, rd, end, s)
  }

  lemma {:induction false} ArrayParts(k: NumberCodec, c: seq<byte>, i: nat, es: Elements, fmt: bool, rd: nat, end: nat)
    requires ValueText(k, c, i, Array(es), fmt, rd, end)
    ensures end < |c| && i + 1 < end && c[i] == OPEN_ARRAY && c[end - 1] == CLOSE_ARRAY
    ensures end - 1 == i + 1 + |RenderElements(k, es, fmt, rd + 1)| && Has(c, i + 1, RenderElements(k, es, fmt, rd + 1))
    ensures WellFormedElements(k, es)
  {
    assert ValueTextBody(k, c, i, Array(es), fmt, rd, end, Seal);
    var body := RenderElements(k, es, fmt, rd + 1);
    HasSplit(c, i, [OPEN_ARRAY] + body, [CLOSE_ARRAY], Render(k, Array(es), fmt, rd));
    HasSplit(c, i, [OPEN_ARRAY], body, [OPEN_ARRAY] + body);
    HasAt(c, i, [OPEN_ARRAY], 0);
    HasAt(c, i + 1 + |body|, [CLOSE_ARRAY], 0);
  }

  /** The first element of a list, and what follows it. */
  lemma {:induction false} ElementsParts(k: NumberCodec, c: seq<byte>, i: nat, es: Elements, fmt: bool, rd: nat,
                                         first: seq<byte>,
                                         rest: seq<byte>)
    requires es.Element? && WellFormedElements(k, es) && Has(c, i, RenderElements(k, es, fmt, rd))
    requires first == Render(k, es.value, fmt, rd)
    requires rest == if es.next.NoElements? then [] else Separator(fmt) + RenderElements(k, es.next, fmt, rd)
    ensures Has(c, i, first) && i < |c| && c[i] > 32 && c[i] != CLOSE_ARRAY && Has(c, i + |first|, rest)
    ensures |RenderElements(k, es, fmt, rd)| == |first| + |rest|
  {
    HasSplit(c, i, first, rest, RenderElements(k, es, fmt, rd));
    FirstByte(k, es.value, fmt, rd);
    HasAt(c, i, first, 0);
  }

  lemma {:induction false} SeparatorBytes(c: seq<byte>, p: nat, fmt: bool, r: seq<byte>)
    requires Has(c, p, Separator(fmt) + r)
    ensures p < |c| && c[p] == COMMA && Has(c, p + |Separator(fmt)|, r) && Blanks(c, p + 1, p + |Separator(fmt)|)
  {
    HasSplit(c, p, Separator(fmt), r, Separator(fmt) + r);
    HasAt(c, p, Separator(fmt), 0);
    if fmt {
      HasAt(c, p, Separator(fmt), 1);
    }
  }

  /** An array: its brackets, and its elements if it has any. */
  lemma {:induction false} ArrayText(x: Scanner, k: NumberCodec, c: seq<byte>, i: nat, es: Elements, fmt: bool,
                                     rd: nat, end: nat)
    requires Scans(x, k, c) && ValueText(k, c, i, Array(es), fmt, rd, end)
    ensures i + 1 < |c| && x.at(i) == OPEN_ARRAY && x.skip(i + 1) == i + 1
    ensures es.NoElements? ==> x.at(i + 1) == CLOSE_ARRAY && end == i + 2
    ensures es.Element? ==> x.at(i + 1) != CLOSE_ARRAY && ElementsText(k, c, i + 1, es, fmt, rd + 1, end)
  {
    ArrayParts(k, c, i, es, fmt, rd, end);
    ScanAt(x, k, c, i);
    ScanAt(x, k, c, i + 1);
    if es.Element? {
      ElementsParts(k, c, i + 1, es, fmt, rd + 1, Render(k, es.value, fmt, rd + 1),
                    if es.next.NoElements? then [] else Separator(fmt) + RenderElements(k, es.next, fmt, rd + 1));
    }
    ScanBlanks(x, k, c, i + 1, i + 1);
  }

  lemma {:induction false} LastElementText(x: Scanner, k: NumberCodec, c: seq<byte>, j: nat, i: nat, es: Elements,
                                           fmt: bool,
                                           rd: nat, end: nat)
    requires Scans(x, k, c) && ElementsText(k, c, i, es, fmt, rd, end) && es.Element? && es.next.NoElements? &&
             Blanks(c, j, i)
    ensures i < |c| && x.skip(j) == i && 0 < end <= |c| && x.skip(end - 1) == end - 1 && x.at(end - 1) == CLOSE_ARRAY
    ensures ValueText(k, c, i, es.value, fmt, rd, end - 1)
  {
    assert ElementsTextBody(k, c, i, es, fmt, rd, end, Seal);
    ElementsParts(k, c, i, es, fmt, rd, Render(k, es.value, fmt, rd), []);
    ScanBlanks(x, k, c, j, i);
    ScanBlanks(x, k, c, end - 1, end - 1);
    ScanAt(x, k, c, end - 1);
  }

  lemma {:induction false} NextElementText(x: Scanner, k: NumberCodec, c: seq<byte>, j: nat, i: nat, es: Elements,
                                           fmt: bool,
                                           rd: nat, end: nat)
    returns (p: nat, q: nat)
    requires Scans(x, k, c) && ElementsText(k, c, i, es, fmt, rd, end) && es.Element? && es.next.Element? &&
             Blanks(c, j, i)
    ensures i < |c| && x.skip(j) == i && ValueText(k, c, i, es.value, fmt, rd, p)
    ensures p + 1 < |c| && x.skip(p) == p && x.at(p) == COMMA && Blanks(c, p + 1, q)
    ensures ElementsText(k, c, q, es.next, fmt, rd, end)
  {
    p, q := NextElementParts(k, c, i, es, fmt, rd, end);
    ScanBlanks(x, k, c, j, i);
    ScanBlanks(x, k, c, p, p);
    ScanAt(x, k, c, p);
  }

  lemma {:induction false} NextElementParts(k: NumberCodec, c: seq<byte>, i: nat, es: Elements, fmt: bool, rd: nat,
                                            end: nat)
    returns (p: nat, q: nat)
    requires ElementsText(k, c, i, es, fmt, rd, end) && es.Element? && es.next.Element?
    ensures i < |c| && c[i] > 32 && ValueText(k, c, i, es.value, fmt, rd, p)
    ensures p + 1 < |c| && c[p] == COMMA && Blanks(c, p + 1, q) && ElementsText(k, c, q, es.next, fmt, rd, end)
  {
    assert ElementsTextBody(k, c, i, es, fmt, rd, end, Seal);
    var first, next := Render(k, es.value, fmt, rd), RenderElements(k, es.next, fmt, rd);
    ElementsParts(k, c, i, es, fmt, rd, first, Separator(fmt) + next);
    p := i + |first|;
    q := p + |Separator(fmt)|;
    SeparatorBytes(c, p, fmt, next);
    FirstText(k, c, i, es, fmt, rd, first, p);
    RestText(k, c, q, es, fmt, rd, next, end);
  }

  lemma {:induction false} FirstText(k: NumberCodec, c: seq<byte>, i: nat, es: Elements, fmt: bool, rd: nat,
                                     first: seq<byte>, p: nat)
    requires es.Element? && WellFormedElements(k, es) && first == Render(k, es.value, fmt, rd) && Has(c, i, first)
    requires p == i + |first| < |c| && c[p] == COMMA
    ensures ValueText(k, c, i, es.value, fmt, rd, p)
  {}

  lemma {:induction false} RestText(k: NumberCodec, c: seq<byte>, q: nat, es: Elements, fmt: bool, rd: nat,
                                    next: seq<byte>, end: nat)
    requires es.Element? && es.next.Element? && WellFormedElements(k, es)
    requires next == RenderElements(k, es.next, fmt, rd) && Has(c, q, next)
    requires end == q + |next| + 1 <= |c| && c[end - 1] == CLOSE_ARRAY
    ensures ElementsText(k, c, q, es.next, fmt, rd, end)
  {}

  ghost predicate MembersTextBody(k: NumberCodec, c: seq<byte>, i: nat, ms: Members, fmt: bool, rd: nat, close: nat,
                                  end: nat, s: Seal) {
    var x := i + |RenderMembers(k, ms, fmt, rd)|;
    && WellFormedMembers(k, ms) && Has(c, i, RenderMembers(k, ms, fmt, rd))
    && Has(c, x, Indent(fmt, close) + [CLOSE_OBJECT]) && end == x + |Indent(fmt, close)| + 1
  }

  /** The members `ms` and a closing brace, indented by `close`, stand at `i` up to `end`. */
  ghost predicate MembersText(k: NumberCodec, c: seq<byte>, i: nat, ms: Members, fmt: bool, rd: nat, close: nat,
                              end: nat) {
    forall s: Seal :: MembersTextBody(k, c, i, ms, fmt, rd, close, end, s)
  }

  ghost predicate MemberTextBody(k: NumberCodec, c: seq<byte>, i: nat, ms: Members, fmt: bool, rd: nat, end: nat,
                                 s: Seal) {
    && ms.Member? && WellFormedMembers(k, ms) && Has(c, i, RenderMember(k, ms, fmt, rd))
    && end == i + |RenderMember(k, ms, fmt, rd)|
  }

  /** The first of the members `ms` stands at `i` up to `end`. */
  ghost predicate MemberText(k: NumberCodec, c: seq<byte>, i: nat, ms: Members, fmt: bool, rd: nat, end: nat) {
    forall s: Seal :: MemberTextBody(k, c, i, ms, fmt, rd, end, s)
  }

  lemma {:induction false} MembersParts(k: NumberCodec, c: seq<byte>, i: nat, ms: Members, fmt: bool, rd: nat,
                                        close: nat, end: nat)
    returns (p: nat)
    requires MembersText(k, c, i, ms, fmt, rd, close, end) && ms.Member?
    ensures MemberText(k, c, i, ms, fmt, rd, p) && MembersText(k, c, p, ms.next, fmt, rd, close, end)
  {
    var first, next := RenderMember(k, ms, fmt, rd), RenderMembers(k, ms.next, fmt, rd);
    p := i + |first|;
    MembersPieces(k, c, i, ms, fmt, rd, close, end, first, next, Indent(fmt, close) + [CLOSE_OBJECT]);
    MembersTextIntro(k, c, p, ms.next, fmt, rd, close, end, p + |next|);
  }

  lemma {:induction false} MembersPieces(k: NumberCodec, c: seq<byte>, i: nat, ms: Members, fmt: bool, rd: nat,
                                         close: nat, end: nat,
                                         first: seq<byte>, next: seq<byte>, tail: seq<byte>)
    requires MembersText(k, c, i, ms, fmt, rd, close, end) && ms.Member?
    requires first == RenderMember(k, ms, fmt, rd) && next == RenderMembers(k, ms.next, fmt, rd) &&
             tail == Indent(fmt, close) + [CLOSE_OBJECT]
    ensures Has(c, i, first) && Has(c, i + |first|, next) && Has(c, i + |first| + |next|, tail)
    ensures WellFormedMembers(k, ms) && end == i + |first| + |next| + |tail|
  {
    assert MembersTextBody(k, c, i, ms, fmt, rd, close, end, Seal);
    HasSplit(c, i, first, next, RenderMembers(k, ms, fmt, rd));
  }

  /** After the last member, only blanks stand before the closing brace. */
  lemma {:induction false} CloseText(k: NumberCodec, c: seq<byte>, i: nat, fmt: bool, rd: nat, close: nat, end: nat)
    requires MembersText(k, c, i, NoMembers, fmt, rd, close, end)
    ensures i <= end - 1 < |c| && c[end - 1] == CLOSE_OBJECT && Blanks(c, i, end - 1)
  {
    assert MembersTextBody(k, c, i, NoMembers, fmt, rd, close, end, Seal);
    HasSplit(c, i, Indent(fmt, close), [CLOSE_OBJECT], Indent(fmt, close) + [CLOSE_OBJECT]);
    HasBlanks(c, i, Indent(fmt, close));
    HasAt(c, end - 1, [CLOSE_OBJECT], 0);
  }

  /** The parts of a member: its name at `n`, its value from `q` to `p`, and its end. */
  lemma {:induction false} MemberParts(k: NumberCodec, c: seq<byte>, i: nat, ms: Members, fmt: bool, rd: nat, end: nat)
    returns (n: nat, q: nat, p: nat)
    requires MemberText(k, c, i, ms, fmt, rd, end) && ms.Member?
    ensures Blanks(c, i, n) && Has(c, n, Quoted(ms.name)) && Has(c, n + |Quoted(ms.name)|, Colon(fmt)) && 0 !in ms.name
    ensures q == n + |Quoted(ms.name)| + |Colon(fmt)| && WellFormed(k, ms.value)
    ensures Has(c, q, Render(k, ms.value, fmt, rd)) && p == q + |Render(k, ms.value, fmt, rd)|
    ensures Has(c, p, EndMember(fmt, ms.next.NoMembers?)) && end == p + |EndMember(fmt, ms.next.NoMembers?)|
  {
    assert MemberTextBody(k, c, i, ms, fmt, rd, end, Seal);
    var a, b, e := Indent(fmt, rd), Quoted(ms.name), EndMember(fmt, ms.next.NoMembers?);
    var o, r := Colon(fmt), Render(k, ms.value, fmt, rd);
    n := i + |a|;
    q := n + |b| + |o|;
    p := q + |r|;
    HasSplit5(c, i, a, b, o, r, e, RenderMember(k, ms, fmt, rd));
    HasBlanks(c, i, a);
  }

  lemma {:induction false} EndMemberBytes(c: seq<byte>, p: nat, fmt: bool, last: bool)
    requires Has(c, p, EndMember(fmt, last))
    ensures !last ==> p < |c| && c[p] == COMMA && Blanks(c, p + 1, p + |EndMember(fmt, last)|)
    ensures last ==> Blanks(c, p, p + |EndMember(fmt, last)|)
  {
    var e := EndMember(fmt, last);
    if |e| >= 1 {
      HasAt(c, p, e, 0);
    }
    if |e| == 2 {
      HasAt(c, p, e, 1);
    }
  }

  lemma {:induction false} JoinBlanks(c: seq<byte>, i: nat, j: nat, l: nat)
    requires Blanks(c, i, j) && Blanks(c, j, l)
    ensures Blanks(c, i, l)
  {}

  /** A name at `n` is read from `j` after blanks. */
  lemma {:induction false} NameText(x: Scanner, k: NumberCodec, c: seq<byte>, j: nat, n: nat, name: seq<byte>, p: nat)
    requires Scans(x, k, c) && 0 !in name && Blanks(c, j, n) && Has(c, n, Quoted(name)) && p == n + |Quoted(name)|
    ensures n < |c| && x.skip(j) == n && x.name(n) == Some(Parsed(name, p))
  {
    ParseRenderedString(c, n, name);
    ScanBlanks(x, k, c, j, n);
    ScanName(x, k, c, n);
  }

  lemma {:induction false} ColonText(x: Scanner, k: NumberCodec, c: seq<byte>, p: nat, fmt: bool, q: nat)
    requires Scans(x, k, c) && Has(c, p, Colon(fmt)) && q == p + |Colon(fmt)| < |c| && c[q] > 32
    ensures p < q && x.skip(p) == p && x.at(p) == COLON && x.skip(p + 1) == q
  {
    HasAt(c, p, Colon(fmt), 0);
    ScanAt(x, k, c, p);
    ScanBlanks(x, k, c, p, p);
    if fmt {
      HasAt(c, p, Colon(fmt), 1);
    }
    ScanBlanks(x, k, c, p + 1, q);
  }

  /** After the value of the last member, at `p`, the closing brace is the next byte that is not blank. */
  lemma {:induction false} AfterLastMember(x: Scanner, k: NumberCodec, c: seq<byte>, p: nat, e: nat, fmt: bool,
                                           rd: nat, close: nat, end: nat)
    requires Scans(x, k, c) && Has(c, p, EndMember(fmt, true)) && e == p + |EndMember(fmt, true)|
    requires MembersText(k, c, e, NoMembers, fmt, rd, close, end)
    ensures p < end <= |c| && !NumberByte(c[p]) && x.skip(p) == end - 1 && x.at(end - 1) == CLOSE_OBJECT
  {
    CloseText(k, c, e, fmt, rd, close, end);
    EndMemberBytes(c, p, fmt, true);
    JoinBlanks(c, p, e, end - 1);
    ScanBlanks(x, k, c, p, end - 1);
    ScanAt(x, k, c, end - 1);
    assert p < end - 1 ==> c[p] <= 32;
  }

  /** The name and the value of the first member, read from `j`. */
  lemma {:induction false} ReadMember(x: Scanner, k: NumberCodec, c: seq<byte>, j: nat, i: nat, ms: Members, fmt: bool,
                                      rd: nat, end: nat)
    returns (q: nat, p: nat)
    requires Scans(x, k, c) && MemberText(k, c, i, ms, fmt, rd, end) && ms.Member? && j < |c| && x.skip(j) == x.skip(i)
    ensures NameIs(x, j, ms.name, q) && WellFormed(k, ms.value)
    ensures Has(c, q, Render(k, ms.value, fmt, rd)) && p == q + |Render(k, ms.value, fmt, rd)|
    ensures Has(c, p, EndMember(fmt, ms.next.NoMembers?)) && end == p + |EndMember(fmt, ms.next.NoMembers?)|
  {
    var n: nat;
    n, q, p := MemberParts(k, c, i, ms, fmt, rd, end);
    FirstByte(k, ms.value, fmt, rd);
    HasAt(c, q, Render(k, ms.value, fmt, rd), 0);
    var o := n + |Quoted(ms.name)|;
    NameText(x, k, c, i, n, ms.name, o);
    ColonText(x, k, c, o, fmt, q);
    NameStep(x, j, n, ms.name, o, q);
  }

  lemma {:induction false} LastMemberText(x: Scanner, k: NumberCodec, c: seq<byte>, j: nat, i: nat, ms: Members,
                                          fmt: bool, rd: nat,
                                          close: nat, end: nat)
    returns (q: nat, p: nat)
    requires Scans(x, k, c) && MembersText(k, c, i, ms, fmt, rd, close, end) && ms.Member? && ms.next.NoMembers? &&
             j < |c| && x.skip(j) == x.skip(i)
    ensures NameIs(x, j, ms.name, q) && ValueText(k, c, q, ms.value, fmt, rd, p)
    ensures p < end <= |c| && x.skip(p) == end - 1 && x.at(end - 1) == CLOSE_OBJECT
  {
    var e := MembersParts(k, c, i, ms, fmt, rd, close, end);
    q, p := ReadMember(x, k, c, j, i, ms, fmt, rd, e);
    AfterLastMember(x, k, c, p, e, fmt, rd, close, end);
  }

  lemma {:induction false} NextMemberText(x: Scanner, k: NumberCodec, c: seq<byte>, j: nat, i: nat, ms: Members,
                                          fmt: bool, rd: nat,
                                          close: nat, end: nat)
    returns (q: nat, p: nat, e: nat)
    requires Scans(x, k, c) && MembersText(k, c, i, ms, fmt, rd, close, end) && ms.Member? && ms.next.Member? &&
             j < |c| && x.skip(j) == x.skip(i)
    ensures NameIs(x, j, ms.name, q) && ValueText(k, c, q, ms.value, fmt, rd, p)
    ensures p + 1 < |c| && x.skip(p) == p && x.at(p) == COMMA && x.skip(p + 1) == x.skip(e)
    ensures MembersText(k, c, e, ms.next, fmt, rd, close, end)
  {
    e := MembersParts(k, c, i, ms, fmt, rd, close, end);
    q, p := ReadMember(x, k, c, j, i, ms, fmt, rd, e);
    EndMemberBytes(c, p, fmt, false);
    ScanAt(x, k, c, p);
    ScanBlanks(x, k, c, p, p);
    MembersInside(k, c, e, ms.next, fmt, rd, close, end);
    ScanSkip(x, k, c, p + 1);
    ScanSkip(x, k, c, e);
    SkipBlanks(c, p + 1, e);
  }

  lemma {:induction false} MembersInside(k: NumberCodec, c: seq<byte>, i: nat, ms: Members, fmt: bool, rd: nat,
                                         close: nat, end: nat)
    requires MembersText(k, c, i, ms, fmt, rd, close, end)
    ensures i < |c|
  {
    assert MembersTextBody(k, c, i, ms, fmt, rd, close, end, Seal);
  }

  lemma {:induction false} ObjectParts(k: NumberCodec, c: seq<byte>, i: nat, ms: Members, fmt: bool, rd: nat, end: nat)
    requires ValueText(k, c, i, Object(ms), fmt, rd, end)
    ensures i + 1 < |c| && c[i] == OPEN_OBJECT && Blanks(c, i + 1, i + |OpenObject(fmt)|)
    ensures MembersText(k, c, i + |OpenObject(fmt)|, ms, fmt, rd + 1, rd, end)
  {
    var open, body, tail := OpenObject(fmt), RenderMembers(k, ms, fmt, rd + 1), Indent(fmt, rd) + [CLOSE_OBJECT];
    ObjectPieces(k, c, i, ms, fmt, rd, end, open, body, tail);
    ObjectBytes(c, i, fmt, open, body, tail);
    MembersTextIntro(k, c, i + |open|, ms, fmt, rd + 1, rd, end, i + |open| + |body|);
  }

  lemma {:induction false} ObjectBytes(c: seq<byte>, i: nat, fmt: bool, open: seq<byte>, body: seq<byte>,
                                       tail: seq<byte>)
    requires open == OpenObject(fmt) && Has(c, i, open) && Has(c, i + |open| + |body|, tail) && tail != []
    ensures i + 1 < |c| && c[i] == OPEN_OBJECT && Blanks(c, i + 1, i + |open|)
  {
    HasAt(c, i, open, 0);
    if fmt {
      HasAt(c, i, open, 1);
    }
  }

  lemma {:induction false} ObjectPieces(k: NumberCodec, c: seq<byte>, i: nat, ms: Members, fmt: bool, rd: nat, end: nat,
                                        open: seq<byte>, body: seq<byte>, tail: seq<byte>)
    requires ValueText(k, c, i, Object(ms), fmt, rd, end)
    requires open == OpenObject(fmt) && body == RenderMembers(k, ms, fmt, rd + 1) &&
             tail == Indent(fmt, rd) + [CLOSE_OBJECT]
    ensures Has(c, i, open) && Has(c, i + |open|, body) && Has(c, i + |open| + |body|, tail)
    ensures WellFormedMembers(k, ms) && end == i + |open| + |body| + |tail|
  {
    assert ValueTextBody(k, c, i, Object(ms), fmt, rd, end, Seal);
    HasSplit3(c, i, open, body, tail, Render(k, Object(ms), fmt, rd));
  }

  lemma {:induction false} MembersTextIntro(k: NumberCodec, c: seq<byte>, i: nat, ms: Members, fmt: bool, rd: nat,
                                            close: nat, end: nat, x: nat)
    requires x == i + |RenderMembers(k, ms, fmt, rd)| && WellFormedMembers(k, ms) &&
             Has(c, i, RenderMembers(k, ms, fmt, rd))
    requires Has(c, x, Indent(fmt, close) + [CLOSE_OBJECT]) && end == x + |Indent(fmt, close)| + 1
    ensures MembersText(k, c, i, ms, fmt, rd, close, end)
  {}

  lemma {:induction false} EmptyObjectText(x: Scanner, k: NumberCodec, c: seq<byte>, i: nat, fmt: bool, rd: nat,
                                           end: nat)
    requires Scans(x, k, c) && ValueText(k, c, i, Object(NoMembers), fmt, rd, end)
    ensures i + 1 < |c| && x.at(i) == OPEN_OBJECT && 0 < end <= |c| && x.skip(i + 1) == end - 1 &&
            x.at(end - 1) == CLOSE_OBJECT
  {
    ObjectParts(k, c, i, NoMembers, fmt, rd, end);
    var p := i + |OpenObject(fmt)|;
    CloseText(k, c, p, fmt, rd + 1, rd, end);
    JoinBlanks(c, i + 1, p, end - 1);
    ScanAt(x, k, c, i);
    ScanBlanks(x, k, c, i + 1, end - 1);
    ScanAt(x, k, c, end - 1);
  }

  /** The first member starts at the first byte behind the brace that is not blank. */
  lemma {:induction false} ObjectText(x: Scanner, k: NumberCodec, c: seq<byte>, i: nat, ms: Members, fmt: bool,
                                      rd: nat, end: nat)
    returns (n: nat, p: nat)
    requires Scans(x, k, c) && ValueText(k, c, i, Object(ms), fmt, rd, end) && ms.Member?
    ensures i + 1 < |c| && x.at(i) == OPEN_OBJECT && x.skip(i + 1) == n < |c| && x.at(n) != CLOSE_OBJECT
    ensures MembersText(k, c, p, ms, fmt, rd + 1, rd, end) && x.skip(n) == x.skip(p)
  {
    ObjectParts(k, c, i, ms, fmt, rd, end);
    p := i + |OpenObject(fmt)|;
    var e := MembersParts(k, c, p, ms, fmt, rd + 1, rd, end);
    var q, v;
    n, q, v := MemberParts(k, c, p, ms, fmt, rd + 1, e);
    QuotedText(c, n, ms.name, n + 1 + |Escape(ms.name)|);
    JoinBlanks(c, i + 1, p, n);
    ScanAt(x, k, c, i);
    ScanBlanks(x, k, c, i + 1, n);
    ScanBlanks(x, k, c, p, n);
    ScanBlanks(x, k, c, n, n);
    ScanAt(x, k, c, n);
  }

  // ----- results of the parsing functions, one step at a time

  ghost predicate ValueResult(x: Scanner, i: nat, d: nat, r: Option<Parsed<Value>>, s: Seal)
    requires Sane(x) && i < x.size
  {
    ParseValue(x, i, d) == r
  }

  /** `ParseValue` at `i` gives `r`. */
  ghost predicate ValueIs(x: Scanner, i: nat, d: nat, r: Option<Parsed<Value>>) {
    Sane(x) && i < x.size && forall s: Seal :: ValueResult(x, i, d, r, s)
  }

  ghost predicate ElementsResult(x: Scanner, i: nat, d: nat, r: Option<Parsed<Elements>>, s: Seal)
    requires Sane(x) && i < x.size
  {
    ParseElements(x, i, d) == r
  }

  /** `ParseElements` at `i` gives `r`. */
  ghost predicate ElementsAre(x: Scanner, i: nat, d: nat, r: Option<Parsed<Elements>>) {
    Sane(x) && i < x.size && forall s: Seal :: ElementsResult(x, i, d, r, s)
  }

  ghost predicate MembersResult(x: Scanner, i: nat, d: nat, r: Option<Parsed<Members>>, s: Seal)
    requires Sane(x) && i < x.size
  {
    ParseMembers(x, i, d) == r
  }

  /** `ParseMembers` at `i` gives `r`. */
  ghost predicate MembersAre(x: Scanner, i: nat, d: nat, r: Option<Parsed<Members>>) {
    Sane(x) && i < x.size && forall s: Seal :: MembersResult(x, i, d, r, s)
  }

  lemma {:induction false} ScalarStep(x: Scanner, i: nat, d: nat, v: Value, end: nat)
    requires Sane(x) && i < x.size && x.at(i) != OPEN_ARRAY && x.at(i) != OPEN_OBJECT &&
             x.scalar(i) == Some(Parsed(v, end))
    ensures ValueIs(x, i, d, Some(Parsed(v, end)))
  {
    assert ParseValue(x, i, d) == x.scalar(i);
  }

  lemma {:induction false} TooDeep(x: Scanner, i: nat, d: nat)
    requires Sane(x) && i < x.size && (x.at(i) == OPEN_ARRAY || x.at(i) == OPEN_OBJECT) && d >= NESTING_LIMIT
    ensures ValueIs(x, i, d, None)
  {
    assert ParseValue(x, i, d) == None;
  }

  lemma {:induction false} EmptyArray(x: Scanner, i: nat, d: nat)
    requires Sane(x) && i + 1 < x.size && x.at(i) == OPEN_ARRAY && x.skip(i + 1) == i + 1 && x.at(i + 1) == CLOSE_ARRAY
    requires d < NESTING_LIMIT
    ensures ValueIs(x, i, d, Some(Parsed(Array(NoElements), i + 2)))
  {
    assert ParseArray(x, i, d) == Some(Parsed(Array(NoElements), i + 2));
    assert ParseValue(x, i, d) == ParseArray(x, i, d);
  }

  lemma {:induction false} ArrayStep(x: Scanner, i: nat, d: nat, n: nat, es: Elements, end: nat)
    requires Sane(x) && i + 1 < x.size && x.at(i) == OPEN_ARRAY && x.skip(i + 1) == i + 1 && x.at(i + 1) != CLOSE_ARRAY
    requires d < NESTING_LIMIT && ElementsAre(x, i + 1, d + 1, Within(n, es, end))
    ensures ValueIs(x, i, d, Within(n, Array(es), end))
  {
    assert ElementsResult(x, i + 1, d + 1, Within(n, es, end), Seal);
    assert ParseArray(x, i, d) == Within(n, Array(es), end);
    assert ParseValue(x, i, d) == ParseArray(x, i, d);
  }

  lemma {:induction false} LastElement(x: Scanner, j: nat, i: nat, d: nat, n: nat, v: Value, p: nat)
    requires j < x.size && x.skip(j) == i && x.skip(p) == p && p < x.size && x.at(p) == CLOSE_ARRAY
    requires ValueIs(x, i, d, Within(n, v, p))
    ensures ElementsAre(x, j, d, Within(n, Element(v, NoElements), p + 1))
  {
    assert ValueResult(x, i, d, Within(n, v, p), Seal);
  }

  lemma {:induction false} NextElement(x: Scanner, j: nat, i: nat, d: nat, n: nat, v: Value, p: nat, m: nat,
                                       next: Elements, end: nat)
    requires j < x.size && x.skip(j) == i && x.skip(p) == p && p + 1 < x.size && x.at(p) == COMMA
    requires ValueIs(x, i, d, Within(n, v, p)) && ElementsAre(x, p + 1, d, Within(m, next, end))
    ensures ElementsAre(x, j, d, Within(Max(n, m), Element(v, next), end))
  {
    assert ValueResult(x, i, d, Within(n, v, p), Seal);
    assert ElementsResult(x, p + 1, d, Within(m, next, end), Seal);
  }

  ghost predicate NameResult(x: Scanner, j: nat, name: seq<byte>, q: nat, s: Seal)
    requires Sane(x) && j < x.size
  {
    ParseName(x, j) == Some(Parsed(name, q))
  }

  /** `ParseName` at `j` gives `name`, with the value at `q`. */
  ghost predicate NameIs(x: Scanner, j: nat, name: seq<byte>, q: nat) {
    Sane(x) && j < x.size && q < x.size && forall s: Seal :: NameResult(x, j, name, q, s)
  }

  lemma {:induction false} NameStep(x: Scanner, j: nat, n: nat, name: seq<byte>, p: nat, q: nat)
    requires Sane(x) && j < x.size && x.skip(j) == n && x.name(n) == Some(Parsed(name, p))
    requires p < x.size && x.skip(p) == p && x.at(p) == COLON && x.skip(p + 1) == q < x.size
    ensures NameIs(x, j, name, q)
  {
    assert ParseName(x, j) == Some(Parsed(name, q));
  }

  lemma {:induction false} EmptyObject(x: Scanner, i: nat, d: nat, p: nat)
    requires Sane(x) && i + 1 < x.size && x.at(i) == OPEN_OBJECT && x.skip(i + 1) == p && x.at(p) == CLOSE_OBJECT
    requires d < NESTING_LIMIT
    ensures ValueIs(x, i, d, Some(Parsed(Object(NoMembers), p + 1)))
  {
    assert ParseObject(x, i, d) == Some(Parsed(Object(NoMembers), p + 1));
    assert ParseValue(x, i, d) == ParseObject(x, i, d);
  }

  lemma {:induction false} ObjectStep(x: Scanner, i: nat, d: nat, p: nat, n: nat, ms: Members, end: nat)
    requires Sane(x) && i + 1 < x.size && x.at(i) == OPEN_OBJECT && x.skip(i + 1) == p && x.at(p) != CLOSE_OBJECT
    requires d < NESTING_LIMIT && MembersAre(x, p, d + 1, Within(n, ms, end))
    ensures ValueIs(x, i, d, Within(n, Object(ms), end))
  {
    assert MembersResult(x, p, d + 1, Within(n, ms, end), Seal);
    assert ParseObject(x, i, d) == Within(n, Object(ms), end);
    assert ParseValue(x, i, d) == ParseObject(x, i, d);
  }

  lemma {:induction false} LastMember(x: Scanner, j: nat, q: nat, d: nat, name: seq<byte>, n: nat, v: Value, p: nat,
                                      e: nat)
    requires NameIs(x, j, name, q) && p < x.size && x.skip(p) == e && x.at(e) == CLOSE_OBJECT
    requires ValueIs(x, q, d, Within(n, v, p))
    ensures MembersAre(x, j, d, Within(n, Member(name, v, NoMembers), e + 1))
  {
    assert NameResult(x, j, name, q, Seal);
    assert ValueResult(x, q, d, Within(n, v, p), Seal);
  }

  lemma {:induction false} NextMember(x: Scanner, j: nat, q: nat, d: nat, name: seq<byte>, n: nat, v: Value, p: nat,
                                      m: nat,
                                      next: Members, end: nat)
    requires NameIs(x, j, name, q) && p + 1 < x.size && x.skip(p) == p && x.at(p) == COMMA
    requires ValueIs(x, q, d, Within(n, v, p)) && MembersAre(x, p + 1, d, Within(m, next, end))
    ensures MembersAre(x, j, d, Within(Max(n, m), Member(name, v, next), end))
  {
    assert NameResult(x, j, name, q, Seal);
    assert ValueResult(x, q, d, Within(n, v, p), Seal);
    assert MembersResult(x, p + 1, d, Within(m, next, end), Seal);
  }

  // ----- the round trip

  lemma {:induction false} ParseRendered(x: Scanner, k: NumberCodec, c: seq<byte>, i: nat, v: Value, fmt: bool,
                                         rd: nat, d: nat, end: nat)
    requires Scans(x, k, c) && ValueText(k, c, i, v, fmt, rd, end) && d <= NESTING_LIMIT
    ensures ValueIs(x, i, d, Within(d + Depth(v), v, end))
    decreases v, 0
  {
    if v.Array? {
      ParseRenderedArray(x, k, c, i, v.elements, fmt, rd, d, end);
    } else if v.Object? {
      ParseRenderedObject(x, k, c, i, v.members, fmt, rd, d, end);
    } else {
      assert ValueTextBody(k, c, i, v, fmt, rd, end, Seal);
      ParseRenderedScalar(k, c, i, v, fmt, rd, end);
      ScanAt(x, k, c, i);
      ScanScalar(x, k, c, i);
      ScalarStep(x, i, d, v, end);
    }
  }

  lemma {:induction false} ParseRenderedArray(x: Scanner, k: NumberCodec, c: seq<byte>, i: nat, es: Elements,
                                              fmt: bool, rd: nat,
                                              d: nat, end: nat)
    requires Scans(x, k, c) && ValueText(k, c, i, Array(es), fmt, rd, end) && d <= NESTING_LIMIT
    ensures ValueIs(x, i, d, Within(d + 1 + ElementsDepth(es), Array(es), end))
    decreases es, 2
  {
    ArrayText(x, k, c, i, es, fmt, rd, end);
    if d == NESTING_LIMIT {
      TooDeep(x, i, d);
    } else if es.NoElements? {
      EmptyArray(x, i, d);
    } else {
      ParseRenderedElements(x, k, c, i + 1, i + 1, es, fmt, rd + 1, d + 1, end);
      ArrayStep(x, i, d, d + 1 + ElementsDepth(es), es, end);
    }
  }

  /** The elements of a list that stands at `i`, read from `j` after blanks. */
  lemma {:induction false} ParseRenderedElements(x: Scanner, k: NumberCodec, c: seq<byte>, j: nat, i: nat,
                                                 es: Elements, fmt: bool,
                                                 rd: nat, d: nat, end: nat)
    requires Scans(x, k, c) && ElementsText(k, c, i, es, fmt, rd, end) && es.Element? && Blanks(c, j, i) &&
             d <= NESTING_LIMIT
    ensures ElementsAre(x, j, d, Within(d + ElementsDepth(es), es, end))
    decreases es, 1
  {
    if es.next.NoElements? {
      var v := es.value;
      LastElementText(x, k, c, j, i, es, fmt, rd, end);
      ParseRendered(x, k, c, i, v, fmt, rd, d, end - 1);
      LastElement(x, j, i, d, d + Depth(v), v, end - 1);
      assert es == Element(v, NoElements) && ElementsDepth(es) == Depth(v);
    } else {
      ParseMoreElements(x, k, c, j, i, es, fmt, rd, d, end);
    }
  }

  lemma {:induction false} ParseMoreElements(x: Scanner, k: NumberCodec, c: seq<byte>, j: nat, i: nat, es: Elements,
                                             fmt: bool,
                                             rd: nat, d: nat, end: nat)
    requires Scans(x, k, c) && ElementsText(k, c, i, es, fmt, rd, end) && es.Element? && Blanks(c, j, i) &&
             d <= NESTING_LIMIT
    requires es.next.Element?
    ensures ElementsAre(x, j, d, Within(d + ElementsDepth(es), es, end))
    decreases es, 0
  {
    var v, next := es.value, es.next;
    var p, q := NextElementText(x, k, c, j, i, es, fmt, rd, end);
    ParseRendered(x, k, c, i, v, fmt, rd, d, p);
    ParseRenderedElements(x, k, c, p + 1, q, next, fmt, rd, d, end);
    NextElement(x, j, i, d, d + Depth(v), v, p, d + ElementsDepth(next), next, end);
    assert es == Element(v, next) && d + ElementsDepth(es) == Max(d + Depth(v), d + ElementsDepth(next));
  }

  lemma {:induction false} ParseRenderedObject(x: Scanner, k: NumberCodec, c: seq<byte>, i: nat, ms: Members,
                                               fmt: bool, rd: nat,
                                               d: nat, end: nat)
    requires Scans(x, k, c) && ValueText(k, c, i, Object(ms), fmt, rd, end) && d <= NESTING_LIMIT
    ensures ValueIs(x, i, d, Within(d + 1 + MembersDepth(ms), Object(ms), end))
    decreases ms, 2
  {
    if ms.NoMembers? {
      EmptyObjectText(x, k, c, i, fmt, rd, end);
      if d == NESTING_LIMIT {
        TooDeep(x, i, d);
      } else {
        EmptyObject(x, i, d, end - 1);
      }
    } else {
      var n, p := ObjectText(x, k, c, i, ms, fmt, rd, end);
      if d == NESTING_LIMIT {
        TooDeep(x, i, d);
      } else {
        ParseRenderedMembers(x, k, c, n, p, ms, fmt, rd + 1, rd, d + 1, end);
        ObjectStep(x, i, d, n, d + 1 + MembersDepth(ms), ms, end);
      }
    }
  }

  /** The members of a list that stands at `i`, read from `j`. */
  lemma {:induction false} ParseRenderedMembers(x: Scanner, k: NumberCodec, c: seq<byte>, j: nat, i: nat, ms: Members,
                                                fmt: bool,
                                                rd: nat, close: nat, d: nat, end: nat)
    requires Scans(x, k, c) && MembersText(k, c, i, ms, fmt, rd, close, end) && ms.Member? && d <= NESTING_LIMIT
    requires j < |c| && x.skip(j) == x.skip(i)
    ensures MembersAre(x, j, d, Within(d + MembersDepth(ms), ms, end))
    decreases ms, 1
  {
    if ms.next.NoMembers? {
      var v := ms.value;
      var q, p := LastMemberText(x, k, c, j, i, ms, fmt, rd, close, end);
      ParseRendered(x, k, c, q, v, fmt, rd, d, p);
      LastMember(x, j, q, d, ms.name, d + Depth(v), v, p, end - 1);
      assert ms == Member(ms.name, v, NoMembers) && MembersDepth(ms) == Depth(v);
    } else {
      ParseMoreMembers(x, k, c, j, i, ms, fmt, rd, close, d, end);
    }
  }

  lemma {:induction false} ParseMoreMembers(x: Scanner, k: NumberCodec, c: seq<byte>, j: nat, i: nat, ms: Members,
                                            fmt: bool,
                                            rd: nat, close: nat, d: nat, end: nat)
    requires Scans(x, k, c) && MembersText(k, c, i, ms, fmt, rd, close, end) && ms.Member? && d <= NESTING_LIMIT
    requires ms.next.Member? && j < |c| && x.skip(j) == x.skip(i)
    ensures MembersAre(x, j, d, Within(d + MembersDepth(ms), ms, end))
    decreases ms, 0
  {
    var v, next := ms.value, ms.next;
    var q, p, e := NextMemberText(x, k, c, j, i, ms, fmt, rd, close, end);
    ParseRendered(x, k, c, q, v, fmt, rd, d, p);
    ParseRenderedMembers(x, k, c, p + 1, e, next, fmt, rd, close, d, end);
    NextMember(x, j, q, d, ms.name, d + Depth(v), v, p, d + MembersDepth(next), next, end);
    assert ms == Member(ms.name, v, next) && d + MembersDepth(ms) == Max(d + Depth(v), d + MembersDepth(next));
  }

  // ----- whole texts

  /** A text without zero bytes starts at its first byte, unless it starts with a byte order mark. */
  lemma {:induction false} RenderedStart(k: NumberCodec, v: Value, fmt: bool, c: seq<byte>)
    requires WellFormed(k, v) && c == Render(k, v, fmt, 0) + [0]
    ensures Start(c) == 0 && Skip(c, 0) == 0
  {
    FirstByte(k, v, fmt, 0);
    SkipTo(c, 0, 0);
  }

  lemma {:induction false} RenderedText(k: NumberCodec, v: Value, fmt: bool, c: seq<byte>, end: nat)
    requires WellFormed(k, v) && c == Render(k, v, fmt, 0) + [0] && end == |c| - 1
    ensures ValueText(k, c, 0, v, fmt, 0, end)
  {
    assert c[0..end] == Render(k, v, fmt, 0);
  }

  /**
   * Parsing the printed text of a tree gives back the tree exactly when it is nested at most `NESTING_LIMIT` deep,
   * formatted or not, whether or not the text must end there.
   */
  lemma {:induction false} PrintParseRoundTrip(k: NumberCodec, v: Value, fmt: bool, requireTerminated: bool)
    requires WellFormed(k, v)
    ensures 0 !in Render(k, v, fmt, 0)
    ensures Parse(k, Render(k, v, fmt, 0), requireTerminated) == if Depth(v) <= NESTING_LIMIT then Some(v) else None
  {
    WellFormedPrintable(k, v);
    RenderNulFree(k, v, fmt, 0);
    var c, end := Render(k, v, fmt, 0) + [0], |Render(k, v, fmt, 0)|;
    var x := ScannerOf(k, c);
    ScannerIsSane(k, c);
    RenderedStart(k, v, fmt, c);
    RenderedText(k, v, fmt, c, end);
    ParseRendered(x, k, c, 0, v, fmt, 0, 0, end);
    assert ValueResult(x, 0, 0, Within(Depth(v), v, end), Seal);
    assert Blank(c, end) == |c|;
  }
}
