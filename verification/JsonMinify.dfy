/** `cJSON_Minify`: removing blanks and comments in place. */
module JsonMinify {
  import opened Common
  import opened Bits
  import opened CStrings
  import opened Occurrence
  import opened JsonString
  import opened Json
  import opened JsonMinified

  // ----- the code

  /** The text read up to `r` and written up to `w <= r`; from `w` on the buffer is as it was. */
  ghost predicate InProgress(a: seq<byte>, s: seq<byte>, r: nat, w: nat) {
    w <= r <= |a| == |s| && a[w..] == s[w..] && Minified(s, 0) == Cat(a[..w], Minified(s, r))
  }

  lemma {:induction false} SameByte(a: seq<byte>, s: seq<byte>, w: nat, i: nat)
    requires w <= i < |a| == |s| && a[w..] == s[w..]
    ensures a[i] == s[i]
  {
    assert a[w..][i - w] == a[i] && s[w..][i - w] == s[i];
  }

  /** `*into++ = *json++`, without the account of what has been read. */
  method CopyByte(a: array<byte>, w: nat, r: nat, ghost s: seq<byte>)
    requires w <= r < a.Length == |s| && a[w..] == s[w..]
    modifies a
    ensures a[w + 1..] == s[w + 1..] && a[..w + 1] == old(a[..w]) + [s[r]]
  {
    SameByte(a[..], s, w, r);
    a[w] := a[r];
    assert a[w + 1..] == old(a[w..])[1..] && s[w + 1..] == s[w..][1..];
  }

  /** A line comment. */
  method SkipLine(a: array<byte>, start: nat, ghost w: nat, ghost s: seq<byte>) returns (r: nat)
    requires w <= start && a.Length == |s| && w <= |s| && a[w..] == s[w..] && LineEnd(s, start).Some?
    ensures r == LineEnd(s, start).value
  {
    r := start;
    SameTail(a[..], s, w);
    while a[r] != 0 && a[r] != NEWLINE
      invariant start <= r < a.Length && LineEnd(s, r) == LineEnd(s, start)
      decreases a.Length - r
    {
      r := r + 1;
    }
  }

  lemma {:induction false} SameTail(a: seq<byte>, s: seq<byte>, w: nat)
    requires w <= |a| == |s| && a[w..] == s[w..]
    ensures forall i :: w <= i < |a| ==> a[i] == s[i]
  {
    forall i | w <= i < |a| ensures a[i] == s[i] {
      SameByte(a, s, w, i);
    }
  }

  method SkipComment(a: array<byte>, start: nat, ghost w: nat, ghost s: seq<byte>) returns (r: nat)
    requires w <= start && a.Length == |s| && w <= |s| && a[w..] == s[w..] && CommentEnd(s, start).Some?
    ensures r == CommentEnd(s, start).value
  {
    r := start;
    SameTail(a[..], s, w);
    while a[r] != 0 && !(a[r] == STAR && a[r + 1] == SLASH)
      invariant start <= r < a.Length && CommentEnd(s, r) == CommentEnd(s, start)
      invariant a[r] == STAR ==> r + 1 < a.Length
      decreases a.Length - r
    {
      r := r + 1;
    }
  }

  /** The bytes of `s` from `r0` to `r` have been copied behind `kept`. */
  ghost predicate Copied(a: seq<byte>, kept: seq<byte>, s: seq<byte>, r0: nat, r: nat, w: nat) {
    r0 <= r <= |a| == |s| && w == |kept| + (r - r0) && |kept| <= r0 && a[w..] == s[w..] && a[..w] == kept + s[r0..r]
  }

  /** `*into++ = *json++`. */
  method CopyNext(a: array<byte>, w: nat, r: nat, ghost kept: seq<byte>, ghost s: seq<byte>, ghost r0: nat)
    requires Copied(a[..], kept, s, r0, r, w) && r < a.Length
    modifies a
    ensures Copied(a[..], kept, s, r0, r + 1, w + 1)
  {
    CopyByte(a, w, r, s);
    assert s[r0..r] + [s[r]] == s[r0..r + 1];
    assert kept + s[r0..r] + [s[r]] == kept + s[r0..r + 1];
  }

  /** One byte inside a literal, or an escape and the byte behind it. */
  method CopyUnit(a: array<byte>, w0: nat, r: nat, ghost kept: seq<byte>, ghost s: seq<byte>, ghost r0: nat)
    returns (w: nat, r': nat)
    requires Copied(a[..], kept, s, r0, r, w0) && r < a.Length && a[r] == s[r] && s[r] != 0 && s[r] != QUOTE
    requires LiteralEnd(s, r).Some?
    modifies a
    ensures r < r' < a.Length && Copied(a[..], kept, s, r0, r', w) && a[r'] == s[r'] &&
            LiteralEnd(s, r') == LiteralEnd(s, r)
  {
    w, r' := w0, r;
    if a[r] == BACKSLASH {
      CopyNext(a, w, r', kept, s, r0);
      w, r' := w + 1, r' + 1;
    }
    CopyNext(a, w, r', kept, s, r0);
    w, r' := w + 1, r' + 1;
    SameByte(a[..], s, w, r');
  }

  /** A string literal from its opening quote on, copied as it is. */
  method CopyLiteral(a: array<byte>, w0: nat, r0: nat, ghost kept: seq<byte>, ghost s: seq<byte>) returns (w: nat,
                     r: nat)
    requires Copied(a[..], kept, s, r0, r0, w0) && r0 < a.Length && LiteralEnd(s, r0 + 1).Some?
    modifies a
    ensures r == LiteralEnd(s, r0 + 1).value && Copied(a[..], kept, s, r0, r, w)
  {
    w, r := w0, r0;
    CopyNext(a, w, r, kept, s, r0);
    w, r := w + 1, r + 1;
    SameByte(a[..], s, w, r);
    while a[r] != 0 && a[r] != QUOTE
      invariant r0 < r < a.Length && Copied(a[..], kept, s, r0, r, w) && a[r] == s[r]
      invariant LiteralEnd(s, r) == LiteralEnd(s, r0 + 1)
      decreases a.Length - r
    {
      w, r := CopyUnit(a, w, r, kept, s, r0);
    }
    CopyNext(a, w, r, kept, s, r0);
    w, r := w + 1, r + 1;
  }

  // ----- the whole pass

  lemma {:induction false} Progressed(a: seq<byte>, s: seq<byte>, kept: seq<byte>, r0: nat, r: nat, w: nat)
    requires |kept| <= r0 && Copied(a, kept, s, r0, r, w)
    requires Minified(s, 0) == Cat(kept, Minified(s, r0)) && Minified(s, r0) == Cat(s[r0..r], Minified(s, r))
    ensures InProgress(a, s, r, w)
  {
    CatCat(kept, s[r0..r], Minified(s, r));
  }

  /** One turn of the loop. */
  method TakeTurn(a: array<byte>, w0: nat, r0: nat, ghost s: seq<byte>) returns (w: nat, r: nat)
    requires InProgress(a[..], s, r0, w0) && Minified(s, r0).Some? && r0 < a.Length && a[r0] != 0
    modifies a
    ensures r > r0 && InProgress(a[..], s, r, w) && Minified(s, r).Some?
  {
    SameTail(a[..], s, w0);
    w, r := w0, r0;
    ghost var kept := a[..w0];
    if a[r] == SPACE || a[r] == TAB || a[r] == RETURN || a[r] == NEWLINE {
      r := r + 1;
    } else if a[r] == SLASH && a[r + 1] == SLASH {
      LineEndMoves(s, r);
      r := SkipLine(a, r, w, s);
    } else if a[r] == SLASH && a[r + 1] == STAR {
      r := SkipComment(a, r, w, s);
      r := r + 2;
    } else if a[r] == QUOTE {
      assert s[r..r] == [];
      w, r := CopyLiteral(a, w, r, kept, s);
      Progressed(a[..], s, kept, r0, r, w);
    } else {
      assert s[r..r] == [] && s[r..r + 1] == [s[r]];
      CopyNext(a, w, r, kept, s, r);
      w, r := w + 1, r + 1;
      Progressed(a[..], s, kept, r0, r, w);
    }
  }

  lemma {:induction false} LineEndMoves(s: seq<byte>, i: nat)
    requires i < |s| && s[i] != 0 && s[i] != NEWLINE
    ensures LineEnd(s, i).Some? ==> LineEnd(s, i).value > i
  {}

  /**
   * The scan wherever it ends inside the buffer, also behind the C string: the result and a terminator at the front,
   * behind them the buffer as it was. The write cursor never passes the read cursor (`InProgress`).
   */
  method MinifyBuffer(json: array<byte>, ghost m: seq<byte>)
    requires Minified(json[..], 0) == Some(m)
    modifies json
    ensures |m| < json.Length && json[..|m|] == m && json[|m|] == 0 && json[|m| + 1..] == old(json[|m| + 1..])
  {
    ghost var s := json[..];
    var r: nat, w: nat := 0, 0;
    CatCat([], [], Minified(s, 0));
    assert json[..0] == [];
    while json[r] != 0
      invariant r < json.Length && InProgress(json[..], s, r, w) && Minified(s, r).Some?
      decreases json.Length - r
    {
      w, r := TakeTurn(json, w, r, s);
      SameTail(json[..], s, w);
    }
    SameTail(json[..], s, w);
    assert Minified(s, r) == Some([]);
    assert json[..w] + [] == json[..w];
    json[w] := 0;
    assert json[w + 1..] == s[w + 1..];
  }

  /** `cJSON_Minify` on a C string that is closed, which is when it stays inside it (`ClosedExact`). */
  method Minify(json: array<byte>)
    requires 0 in json[..] && Closed(CString(json[..]), 0)
    modifies json
    ensures var m := Remains(old(CString(json[..])), 0);
            && |m| <= |old(CString(json[..]))| < json.Length
            && json[..|m|] == m && json[|m|] == 0 && json[|m| + 1..] == old(json[|m| + 1..])
  {
    ghost var t := CString(json[..]);
    CStringSplit(json[..]);
    HoldsPrefix(json[..], t);
    ClosedAlone(json[..], t, 0);
    RemainsLength(t, 0);
    MinifyBuffer(json, Remains(t, 0));
  }

  // ----- minifying a rendering

  ghost predicate KeepsBody(s: seq<byte>, i: nat, t: seq<byte>, end: nat, x: Seal) {
    Minified(s, i) == Cat(t, Minified(s, end))
  }

  /** Of the text from `i` to `end`, `t` remains. */
  ghost predicate Keeps(s: seq<byte>, i: nat, t: seq<byte>, end: nat) {
    forall x: Seal :: KeepsBody(s, i, t, end, x)
  }

  lemma {:induction false} KeepsBoth(s: seq<byte>, i: nat, a: seq<byte>, m: nat, b: seq<byte>, end: nat, t: seq<byte>)
    requires Keeps(s, i, a, m) && Keeps(s, m, b, end) && t == a + b
    ensures Keeps(s, i, t, end)
  {
    assert KeepsBody(s, i, a, m, Seal) && KeepsBody(s, m, b, end, Seal);
    CatCat(a, b, Minified(s, end));
  }

  lemma {:induction false} KeepsNothing(s: seq<byte>, i: nat)
    ensures Keeps(s, i, [], i)
  {
    CatCat([], [], Minified(s, i));
  }

  /** Bytes that mean nothing to the scan. */
  predicate IsPlain(b: byte) {
    b != 0 && !IsBlank(b) && b != SLASH && b != QUOTE
  }

  lemma {:induction false} PlainRun(s: seq<byte>, i: nat, t: seq<byte>)
    requires Has(s, i, t) && forall k :: 0 <= k < |t| ==> IsPlain(t[k])
    ensures Keeps(s, i, t, i + |t|)
    decreases |t|
  {
    if t == [] {
      KeepsNothing(s, i);
    } else {
      HasSplit(s, i, [t[0]], t[1..], t);
      HasAt(s, i, t, 0);
      PlainRun(s, i + 1, t[1..]);
      assert KeepsBody(s, i, [t[0]], i + 1, Seal);
      KeepsBoth(s, i, [t[0]], i + 1, t[1..], i + |t|, t);
    }
  }

  lemma {:induction false} BlankRun(s: seq<byte>, i: nat, t: seq<byte>)
    requires Has(s, i, t) && forall k :: 0 <= k < |t| ==> IsBlank(t[k])
    ensures Keeps(s, i, [], i + |t|)
    decreases |t|
  {
    if t == [] {
      KeepsNothing(s, i);
    } else {
      HasSplit(s, i, [t[0]], t[1..], t);
      HasAt(s, i, t, 0);
      BlankRun(s, i + 1, t[1..]);
      assert KeepsBody(s, i + 1, [], i + |t|, Seal);
      assert Minified(s, i) == Minified(s, i + 1);
    }
  }

  /** A plain byte and blanks behind it. */
  lemma {:induction false} PlainThenBlank(s: seq<byte>, i: nat, a: byte, t: seq<byte>)
    requires Has(s, i, [a] + t) && IsPlain(a) && forall k :: 0 <= k < |t| ==> IsBlank(t[k])
    ensures Keeps(s, i, [a], i + 1 + |t|)
  {
    HasSplit(s, i, [a], t, [a] + t);
    PlainRun(s, i, [a]);
    BlankRun(s, i + 1, t);
    KeepsBoth(s, i, [a], i + 1, [], i + 1 + |t|, [a]);
  }

  lemma {:induction false} EscapedByteSkipped(s: seq<byte>, i: nat, b: byte)
    requires b != 0 && Has(s, i, EscapeByte(b))
    ensures LiteralEnd(s, i) == LiteralEnd(s, i + |EscapeByte(b)|)
  {
    EscapeBytes(s, i, b);
    if |EscapeByte(b)| == 6 {
      assert LiteralEnd(s, i) == LiteralEnd(s, i + 2);
      assert HexDigit(b / 16) in {48, 49} && HexDigit(b % 16) >= 48 && HexDigit(b % 16) != BACKSLASH;
      PlainFour(s, i + 2);
    } else if |EscapeByte(b)| == 2 {
      assert LiteralEnd(s, i) == LiteralEnd(s, i + 2);
    } else {
      assert LiteralEnd(s, i) == LiteralEnd(s, i + 1);
    }
  }

  lemma {:induction false} PlainFour(s: seq<byte>, i: nat)
    requires i + 4 <= |s| && forall k :: i <= k < i + 4 ==> s[k] != 0 && s[k] != QUOTE && s[k] != BACKSLASH
    ensures LiteralEnd(s, i) == LiteralEnd(s, i + 4)
  {
    assert LiteralEnd(s, i) == LiteralEnd(s, i + 1);
    assert LiteralEnd(s, i + 1) == LiteralEnd(s, i + 2);
    assert LiteralEnd(s, i + 2) == LiteralEnd(s, i + 3);
    assert LiteralEnd(s, i + 3) == LiteralEnd(s, i + 4);
  }

  lemma {:induction false} EscapedSkipped(s: seq<byte>, i: nat, t: seq<byte>, end: nat)
    requires 0 !in t && Has(s, i, Escape(t)) && end == i + |Escape(t)| < |s| && s[end] == QUOTE
    ensures LiteralEnd(s, i) == Some(end + 1)
    decreases t
  {
    if t != [] {
      var b, u := t[0], t[1..];
      assert Escape(t) == EscapeByte(b) + Escape(u);
      HasSplit(s, i, EscapeByte(b), Escape(u), Escape(t));
      NulFreeTail(t);
      EscapedByteSkipped(s, i, b);
      EscapedSkipped(s, i + |EscapeByte(b)|, u, end);
    }
  }

  lemma {:induction false} QuotedKept(s: seq<byte>, i: nat, t: seq<byte>)
    requires 0 !in t && Has(s, i, Quoted(t))
    ensures Keeps(s, i, Quoted(t), i + |Quoted(t)|)
  {
    assert HasBody(s, i, Quoted(t), Seal);
    HasSplit3(s, i, [QUOTE], Escape(t), [QUOTE], Quoted(t));
    var end := i + 1 + |Escape(t)|;
    HasAt(s, i, [QUOTE], 0);
    HasAt(s, end, [QUOTE], 0);
    EscapedSkipped(s, i + 1, t, end);
  }

  lemma {:induction false} ScalarKept(k: NumberCodec, s: seq<byte>, i: nat, v: Value, fmt: bool, rd: nat, r: seq<byte>)
    requires WellFormed(k, v) && !v.Array? && !v.Object? && r == Render(k, v, fmt, rd) && Has(s, i, r)
    ensures Keeps(s, i, r, i + |r|)
  {
    if v.String? {
      QuotedKept(s, i, v.text);
    } else {
      PlainRun(s, i, r);
    }
  }

  /** What minifying keeps of a value rendered in either form is its compact form. */
  lemma {:induction false} ValueKept(k: NumberCodec, s: seq<byte>, i: nat, v: Value, fmt: bool, rd: nat, end: nat)
    requires WellFormed(k, v) && Has(s, i, Render(k, v, fmt, rd)) && end == i + |Render(k, v, fmt, rd)|
    ensures Keeps(s, i, Render(k, v, false, rd), end)
    decreases v, 0
  {
    if v.Array? {
      ArrayKept(k, s, i, v.elements, fmt, rd, end);
    } else if v.Object? {
      ObjectKept(k, s, i, v.members, fmt, rd, end);
    } else {
      ScalarKept(k, s, i, v, fmt, rd, Render(k, v, fmt, rd));
    }
  }

  lemma {:induction false} ArrayKept(k: NumberCodec, s: seq<byte>, i: nat, es: Elements, fmt: bool, rd: nat, end: nat)
    requires WellFormedElements(k, es) && Has(s, i, Render(k, Array(es), fmt, rd)) &&
             end == i + |Render(k, Array(es), fmt, rd)|
    ensures Keeps(s, i, Render(k, Array(es), false, rd), end)
    decreases es, 1
  {
    var body, kept := RenderElements(k, es, fmt, rd + 1), RenderElements(k, es, false, rd + 1);
    HasSplit3(s, i, [OPEN_ARRAY], body, [CLOSE_ARRAY], Render(k, Array(es), fmt, rd));
    ElementsKept(k, s, i + 1, es, fmt, rd + 1, end - 1);
    PlainRun(s, i, [OPEN_ARRAY]);
    PlainRun(s, end - 1, [CLOSE_ARRAY]);
    KeepsBoth(s, i, [OPEN_ARRAY], i + 1, kept, end - 1, [OPEN_ARRAY] + kept);
    KeepsBoth(s, i, [OPEN_ARRAY] + kept, end - 1, [CLOSE_ARRAY], end, Render(k, Array(es), false, rd));
  }

  lemma {:induction false} ElementsKept(k: NumberCodec, s: seq<byte>, i: nat, es: Elements, fmt: bool, rd: nat,
                                        end: nat)
    requires WellFormedElements(k, es) && Has(s, i, RenderElements(k, es, fmt, rd)) &&
             end == i + |RenderElements(k, es, fmt, rd)|
    ensures Keeps(s, i, RenderElements(k, es, false, rd), end)
    decreases es, 0
  {
    if es.NoElements? {
      KeepsNothing(s, i);
    } else if es.next.NoElements? {
      LastElementKept(k, s, i, es, fmt, rd, end);
    } else {
      var first, next := Render(k, es.value, fmt, rd), RenderElements(k, es.next, fmt, rd);
      var p, q := i + |first|, i + |first| + |Separator(fmt)|;
      ElementPieces(k, s, i, es, fmt, rd, end, first, next);
      SeparatorKept(s, p, fmt);
      ValueKept(k, s, i, es.value, fmt, rd, p);
      ElementsKept(k, s, q, es.next, fmt, rd, end);
      JoinElementsKept(k, s, i, p, q, end, es, fmt, rd);
    }
  }

  lemma {:induction false} LastElementKept(k: NumberCodec, s: seq<byte>, i: nat, es: Elements, fmt: bool, rd: nat,
                                           end: nat)
    requires es.Element? && es.next.NoElements? && WellFormedElements(k, es)
    requires Has(s, i, RenderElements(k, es, fmt, rd)) && end == i + |RenderElements(k, es, fmt, rd)|
    ensures Keeps(s, i, RenderElements(k, es, false, rd), end)
    decreases es.value, 1
  {
    assert RenderElements(k, es, fmt, rd) == Render(k, es.value, fmt, rd);
    assert RenderElements(k, es, false, rd) == Render(k, es.value, false, rd);
    ValueKept(k, s, i, es.value, fmt, rd, end);
  }

  lemma {:induction false} ElementPieces(k: NumberCodec, s: seq<byte>, i: nat, es: Elements, fmt: bool, rd: nat,
                                         end: nat,
                                         first: seq<byte>, next: seq<byte>)
    requires es.Element? && es.next.Element? && Has(s, i, RenderElements(k, es, fmt, rd))
    requires end == i + |RenderElements(k, es, fmt, rd)|
    requires first == Render(k, es.value, fmt, rd) && next == RenderElements(k, es.next, fmt, rd)
    ensures Has(s, i, first) && Has(s, i + |first|, Separator(fmt))
    ensures Has(s, i + |first| + |Separator(fmt)|, next) && end == i + |first| + |Separator(fmt)| + |next|
  {
    HasSplit(s, i, first, Separator(fmt) + next, RenderElements(k, es, fmt, rd));
    HasSplit(s, i + |first|, Separator(fmt), next, Separator(fmt) + next);
  }

  lemma {:induction false} SeparatorKept(s: seq<byte>, p: nat, fmt: bool)
    requires Has(s, p, Separator(fmt))
    ensures Keeps(s, p, [COMMA], p + |Separator(fmt)|)
  {
    assert Separator(fmt) == [COMMA] + if fmt then [SPACE] else [];
    PlainThenBlank(s, p, COMMA, if fmt then [SPACE] else []);
  }

  lemma {:induction false} JoinElementsKept(k: NumberCodec, s: seq<byte>, i: nat, p: nat, q: nat, end: nat,
                                            es: Elements, fmt: bool, rd: nat)
    requires es.Element? && es.next.Element? && Keeps(s, i, Render(k, es.value, false, rd), p) &&
             Keeps(s, p, [COMMA], q)
    requires Keeps(s, q, RenderElements(k, es.next, false, rd), end)
    ensures Keeps(s, i, RenderElements(k, es, false, rd), end)
  {
    var first, next := Render(k, es.value, false, rd), RenderElements(k, es.next, false, rd);
    KeepsBoth(s, p, [COMMA], q, next, end, [COMMA] + next);
    KeepsBoth(s, i, first, p, [COMMA] + next, end, first + ([COMMA] + next));
  }

  lemma {:induction false} ObjectKept(k: NumberCodec, s: seq<byte>, i: nat, ms: Members, fmt: bool, rd: nat, end: nat)
    requires WellFormedMembers(k, ms) && Has(s, i, Render(k, Object(ms), fmt, rd)) &&
             end == i + |Render(k, Object(ms), fmt, rd)|
    ensures Keeps(s, i, Render(k, Object(ms), false, rd), end)
    decreases ms, 1
  {
    var body, kept := RenderMembers(k, ms, fmt, rd + 1), RenderMembers(k, ms, false, rd + 1);
    var p, q := i + |OpenObject(fmt)|, i + |OpenObject(fmt)| + |body|;
    ObjectPieces(k, s, i, ms, fmt, rd, end, OpenObject(fmt), body, Indent(fmt, rd) + [CLOSE_OBJECT]);
    MembersKept(k, s, p, ms, fmt, rd + 1, q);
    OpenKept(s, i, fmt);
    CloseKept(s, q, fmt, rd, end);
    assert Indent(false, rd) + [CLOSE_OBJECT] == [CLOSE_OBJECT];
    JoinObjectKept(s, i, p, q, end, kept, Render(k, Object(ms), false, rd));
  }

  lemma {:induction false} ObjectPieces(k: NumberCodec, s: seq<byte>, i: nat, ms: Members, fmt: bool, rd: nat, end: nat,
                                        open: seq<byte>, body: seq<byte>, tail: seq<byte>)
    requires Has(s, i, Render(k, Object(ms), fmt, rd)) && end == i + |Render(k, Object(ms), fmt, rd)|
    requires open == OpenObject(fmt) && body == RenderMembers(k, ms, fmt, rd + 1) &&
             tail == Indent(fmt, rd) + [CLOSE_OBJECT]
    ensures Has(s, i, open) && Has(s, i + |open|, body) && Has(s, i + |open| + |body|, tail) &&
            end == i + |open| + |body| + |tail|
  {
    HasSplit3(s, i, open, body, tail, Render(k, Object(ms), fmt, rd));
  }

  lemma {:induction false} OpenKept(s: seq<byte>, i: nat, fmt: bool)
    requires Has(s, i, OpenObject(fmt))
    ensures Keeps(s, i, [OPEN_OBJECT], i + |OpenObject(fmt)|)
  {
    assert OpenObject(fmt) == [OPEN_OBJECT] + if fmt then [NEWLINE] else [];
    PlainThenBlank(s, i, OPEN_OBJECT, if fmt then [NEWLINE] else []);
  }

  lemma {:induction false} CloseKept(s: seq<byte>, q: nat, fmt: bool, rd: nat, end: nat)
    requires Has(s, q, Indent(fmt, rd) + [CLOSE_OBJECT]) && end == q + |Indent(fmt, rd)| + 1
    ensures Keeps(s, q, [CLOSE_OBJECT], end)
  {
    HasSplit(s, q, Indent(fmt, rd), [CLOSE_OBJECT], Indent(fmt, rd) + [CLOSE_OBJECT]);
    BlankRun(s, q, Indent(fmt, rd));
    PlainRun(s, end - 1, [CLOSE_OBJECT]);
    KeepsBoth(s, q, [], end - 1, [CLOSE_OBJECT], end, [CLOSE_OBJECT]);
  }

  lemma {:induction false} JoinObjectKept(s: seq<byte>, i: nat, p: nat, q: nat, end: nat, body: seq<byte>, r: seq<byte>)
    requires Keeps(s, i, [OPEN_OBJECT], p) && Keeps(s, p, body, q) && Keeps(s, q, [CLOSE_OBJECT], end)
    requires r == [OPEN_OBJECT] + body + [CLOSE_OBJECT]
    ensures Keeps(s, i, r, end)
  {
    KeepsBoth(s, i, [OPEN_OBJECT], p, body, q, [OPEN_OBJECT] + body);
    KeepsBoth(s, i, [OPEN_OBJECT] + body, q, [CLOSE_OBJECT], end, r);
  }

  lemma {:induction false} MembersKept(k: NumberCodec, s: seq<byte>, i: nat, ms: Members, fmt: bool, rd: nat, end: nat)
    requires WellFormedMembers(k, ms) && Has(s, i, RenderMembers(k, ms, fmt, rd)) &&
             end == i + |RenderMembers(k, ms, fmt, rd)|
    ensures Keeps(s, i, RenderMembers(k, ms, false, rd), end)
    decreases ms, 0
  {
    if ms.NoMembers? {
      KeepsNothing(s, i);
    } else {
      var p := i + |RenderMember(k, ms, fmt, rd)|;
      HasSplit(s, i, RenderMember(k, ms, fmt, rd), RenderMembers(k, ms.next, fmt, rd), RenderMembers(k, ms, fmt, rd));
      MemberKept(k, s, i, ms, fmt, rd, p);
      MembersKept(k, s, p, ms.next, fmt, rd, end);
      KeepsBoth(s, i, RenderMember(k, ms, false, rd), p, RenderMembers(k, ms.next, false, rd), end,
                RenderMembers(k, ms, false, rd));
    }
  }

  lemma {:induction false} MemberKept(k: NumberCodec, s: seq<byte>, i: nat, ms: Members, fmt: bool, rd: nat, end: nat)
    requires ms.Member? && WellFormedMembers(k, ms)
    requires Has(s, i, RenderMember(k, ms, fmt, rd)) && end == i + |RenderMember(k, ms, fmt, rd)|
    ensures Keeps(s, i, RenderMember(k, ms, false, rd), end)
    decreases ms.value, 1
  {
    var n, p, q, u := MemberTextKept(k, s, i, ms, fmt, rd, end);
    QuotedKept(s, n, ms.name);
    ValueKept(k, s, q, ms.value, fmt, rd, u);
    CompactMember(k, ms, rd);
    JoinMemberKept(s, i, n, p, q, u, end, Quoted(ms.name), Render(k, ms.value, false, rd),
                   EndMember(false, ms.next.NoMembers?), RenderMember(k, ms, false, rd));
  }

  /** The parts of a member around its name, from `n` to `p`, and its value, from `q` to `u`. */
  lemma {:induction false} MemberTextKept(k: NumberCodec, s: seq<byte>, i: nat, ms: Members, fmt: bool, rd: nat,
                                          end: nat)
    returns (n: nat, p: nat, q: nat, u: nat)
    requires ms.Member? && Has(s, i, RenderMember(k, ms, fmt, rd)) && end == i + |RenderMember(k, ms, fmt, rd)|
    ensures Has(s, q, Render(k, ms.value, fmt, rd)) && u == q + |Render(k, ms.value, fmt, rd)|
    ensures Has(s, n, Quoted(ms.name)) && p == n + |Quoted(ms.name)| && Keeps(s, i, [], n) && Keeps(s, p, [COLON], q)
    ensures Keeps(s, u, EndMember(false, ms.next.NoMembers?), end)
  {
    var a, b, o := Indent(fmt, rd), Quoted(ms.name), Colon(fmt);
    var r, e := Render(k, ms.value, fmt, rd), EndMember(fmt, ms.next.NoMembers?);
    MemberPieces(k, s, i, ms, fmt, rd, end, a, b, o, r, e);
    n := i + |a|;
    p := n + |b|;
    q := p + |o|;
    u := q + |r|;
    MarksKept(s, i, n, p, q, u, end, fmt, rd, ms.next.NoMembers?);
  }

  lemma {:induction false} CompactMember(k: NumberCodec, ms: Members, rd: nat)
    requires ms.Member?
    ensures RenderMember(k, ms, false, rd) ==
            Quoted(ms.name) + [COLON] + Render(k, ms.value, false, rd) + EndMember(false, ms.next.NoMembers?)
  {
    assert [] + Quoted(ms.name) == Quoted(ms.name);
  }

  lemma {:induction false} MemberPieces(k: NumberCodec, s: seq<byte>, i: nat, ms: Members, fmt: bool, rd: nat, end: nat,
                                        a: seq<byte>, b: seq<byte>, o: seq<byte>, r: seq<byte>, e: seq<byte>)
    requires ms.Member? && Has(s, i, RenderMember(k, ms, fmt, rd)) && end == i + |RenderMember(k, ms, fmt, rd)|
    requires a == Indent(fmt, rd) && b == Quoted(ms.name) && o == Colon(fmt) && r == Render(k, ms.value, fmt, rd)
    requires e == EndMember(fmt, ms.next.NoMembers?)
    ensures Has(s, i, a) && Has(s, i + |a|, b) && Has(s, i + |a| + |b|, o) && Has(s, i + |a| + |b| + |o|, r)
    ensures Has(s, i + |a| + |b| + |o| + |r|, e) && end == i + |a| + |b| + |o| + |r| + |e|
  {
    HasSplit5(s, i, a, b, o, r, e, RenderMember(k, ms, fmt, rd));
  }

  /** What remains of the indentation, the colon and the end of a member. */
  lemma {:induction false} MarksKept(s: seq<byte>, i: nat, n: nat, p: nat, q: nat, u: nat, end: nat, fmt: bool,
                                     rd: nat, last: bool)
    requires Has(s, i, Indent(fmt, rd)) && n == i + |Indent(fmt, rd)| && Has(s, p, Colon(fmt)) && q == p + |Colon(fmt)|
    requires Has(s, u, EndMember(fmt, last)) && end == u + |EndMember(fmt, last)|
    ensures Keeps(s, i, [], n) && Keeps(s, p, [COLON], q) && Keeps(s, u, EndMember(false, last), end)
  {
    BlankRun(s, i, Indent(fmt, rd));
    assert Colon(fmt) == [COLON] + if fmt then [TAB] else [];
    PlainThenBlank(s, p, COLON, if fmt then [TAB] else []);
    EndKept(s, u, fmt, last, end);
  }

  lemma {:induction false} EndKept(s: seq<byte>, p: nat, fmt: bool, last: bool, end: nat)
    requires Has(s, p, EndMember(fmt, last)) && end == p + |EndMember(fmt, last)|
    ensures Keeps(s, p, EndMember(false, last), end)
  {
    if last {
      assert EndMember(false, last) == [];
      BlankRun(s, p, EndMember(fmt, last));
    } else {
      assert EndMember(fmt, last) == [COMMA] + (if fmt then [NEWLINE] else []) && EndMember(false, last) == [COMMA];
      PlainThenBlank(s, p, COMMA, if fmt then [NEWLINE] else []);
    }
  }

  lemma {:induction false} JoinMemberKept(s: seq<byte>, i: nat, n: nat, p: nat, q: nat, u: nat, end: nat,
                                          name: seq<byte>,
                                          value: seq<byte>, e: seq<byte>, r: seq<byte>)
    requires Keeps(s, i, [], n) && Keeps(s, n, name, p) && Keeps(s, p, [COLON], q) && Keeps(s, q, value, u) &&
             Keeps(s, u, e, end)
    requires r == name + [COLON] + value + e
    ensures Keeps(s, i, r, end)
  {
    KeepsBoth(s, i, [], n, name, p, name);
    KeepsBoth(s, i, name, p, [COLON], q, name + [COLON]);
    KeepsBoth(s, i, name + [COLON], q, value, u, name + [COLON] + value);
    KeepsBoth(s, i, name + [COLON] + value, u, e, end, r);
  }

  /**
   * Minifying a buffer that starts with the formatted text of a tree gives its unformatted text, whatever stands
   * behind the terminator; minifying the unformatted text changes nothing.
   */
  lemma {:induction false} MinifyRendered(k: NumberCodec, v: Value, fmt: bool, s: seq<byte>)
    requires WellFormed(k, v) && Has(s, 0, Render(k, v, fmt, 0))
    requires |Render(k, v, fmt, 0)| < |s| && s[|Render(k, v, fmt, 0)|] == 0
    ensures Minified(s, 0) == Some(Render(k, v, false, 0))
  {
    var end := |Render(k, v, fmt, 0)|;
    ValueKept(k, s, 0, v, fmt, 0, end);
    assert KeepsBody(s, 0, Render(k, v, false, 0), end, Seal);
    assert Minified(s, end) == Some([]);
    assert Render(k, v, false, 0) + [] == Render(k, v, false, 0);
  }

  /** Printed text is closed, and its unformatted form is what remains of it. */
  lemma {:induction false} RenderClosed(k: NumberCodec, v: Value, fmt: bool, t: seq<byte>)
    requires WellFormed(k, v) && t == Render(k, v, fmt, 0)
    ensures 0 !in t && Closed(t, 0) && Remains(t, 0) == Render(k, v, false, 0)
  {
    WellFormedPrintable(k, v);
    RenderNulFree(k, v, fmt, 0);
    assert (t + [0])[0..|t|] == t;
    MinifyRendered(k, v, fmt, t + [0]);
    ClosedExact(t);
    ClosedAlone(t + [0], t, 0);
  }

  /** `cJSON_Minify` on a buffer that holds a printed tree. */
  method MinifyPrinted(k: NumberCodec, v: Value, fmt: bool, json: array<byte>)
    requires WellFormed(k, v) && |Render(k, v, fmt, 0)| < json.Length
    requires json[..|Render(k, v, fmt, 0)|] == Render(k, v, fmt, 0) && json[|Render(k, v, fmt, 0)|] == 0
    modifies json
    ensures var m := Render(k, v, false, 0); |m| < json.Length && json[..|m|] == m && json[|m|] == 0
  {
    ghost var t := Render(k, v, fmt, 0);
    RenderClosed(k, v, fmt, t);
    CStringPrefix(json[..], t);
    Minify(json);
  }
}
