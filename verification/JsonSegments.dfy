/** Minifying a text that is put together from blanks, comments, literals and other bytes. */
module JsonSegments {
  import opened Common
  import opened Bits
  import opened Occurrence
  import opened JsonString
  import opened Json
  import opened JsonMinified

  /** A comment runs to the line break behind it, or to the first star and slash. */
  datatype Segment =
    | Blank(b: byte)
    | LineComment(body: seq<byte>)
    | BlockComment(body: seq<byte>)
    | ShortComment  // the star of the opening is also that of the end
    | StringLiteral(body: seq<byte>)
    | Other(b: byte)

  function Spelled(s: Segment): seq<byte> {
    match s
    case Blank(b) => [b]
    case LineComment(body) => [47, 47] + body + [10]
    case BlockComment(body) => [47, 42] + body + [42, 47]
    case ShortComment => [47, 42, 47]
    case StringLiteral(body) => [34] + body + [34]
    case Other(b) => [b]
  }

  function Kept(s: Segment): seq<byte> {
    match s
    case StringLiteral(_) => Spelled(s)
    case Other(b) => [b]
    case _ => []
  }

  /** What a segment is made of. A slash that is no comment stands before neither a slash nor a star. */
  ghost predicate Good(s: Segment, rest: seq<byte>) {
    match s
    case Blank(b) => b == 32 || b == 9 || b == 13 || b == 10
    case LineComment(body) => 10 !in body
    case BlockComment(body) =>
      var z := [42] + body + [42];
      forall k :: 0 <= k < |z| - 1 ==> !(z[k] == 42 && z[k + 1] == 47)
    case ShortComment => true
    case StringLiteral(body) => Units(body)
    case Other(b) =>
      && b != 32 && b != 9 && b != 13 && b != 10 && b != 34
      && (b == 47 && rest != [] ==> rest[0] != 47 && rest[0] != 42)
  }

  /** Bytes other than quotes and backslashes, and backslashes each with a byte behind it. */
  predicate Units(u: seq<byte>) {
    if u == [] then true
    else if u[0] == 92 then |u| > 1 && Units(u[2..])
    else u[0] != 34 && Units(u[1..])
  }

  type Segments = seq<Segment>

  function SpelledAll(ss: Segments): seq<byte> {
    if ss == [] then [] else Spelled(ss[0]) + SpelledAll(ss[1..])
  }

  function KeptAll(ss: Segments): seq<byte> {
    if ss == [] then [] else Kept(ss[0]) + KeptAll(ss[1..])
  }

  ghost predicate GoodAll(ss: Segments) {
    ss != [] ==> Good(ss[0], SpelledAll(ss[1..])) && GoodAll(ss[1..])
  }

  lemma {:induction false} LineFound(t: seq<byte>, i: nat, e: nat)
    requires i <= e < |t| && t[e] == NEWLINE && forall k :: i <= k < e ==> t[k] != NEWLINE
    ensures LineClose(t, i) == e
    decreases e - i
  {
    if i < e {
      LineFound(t, i + 1, e);
    }
  }

  lemma {:induction false} CommentFound(t: seq<byte>, i: nat, e: nat)
    requires i <= e && e + 1 < |t| && t[e] == STAR && t[e + 1] == SLASH
    requires forall k :: i <= k < e ==> !(t[k] == STAR && t[k + 1] == SLASH)
    ensures CommentClose(t, i) == Some(e)
    decreases e - i
  {
    if i < e {
      CommentFound(t, i + 1, e);
    }
  }

  lemma {:induction false} LiteralFound(t: seq<byte>, i: nat, u: seq<byte>)
    requires Has(t, i, u) && Units(u) && i + |u| < |t| && t[i + |u|] == QUOTE
    ensures StringEnd(t, i) == Some(i + |u|)
    decreases |u|
  {
    if u != [] {
      var n := if u[0] == 92 then 2 else 1;
      HasAt(t, i, u, 0);
      HasSplit(t, i, u[..n], u[n..], u);
      LiteralFound(t, i + n, u[n..]);
      assert StringEnd(t, i) == StringEnd(t, i + n);
    }
  }

  ghost predicate GoesBody(t: seq<byte>, i: nat, kept: seq<byte>, j: nat, s: Seal) {
    (Closed(t, i) <==> Closed(t, j)) && (Closed(t, j) ==> Remains(t, i) == kept + Remains(t, j))
  }

  /** From `i` the scan goes to `j` and keeps `kept`. */
  ghost predicate Goes(t: seq<byte>, i: nat, kept: seq<byte>, j: nat) {
    forall s: Seal :: GoesBody(t, i, kept, j, s)
  }

  lemma {:induction false} OneTurn(t: seq<byte>, i: nat, kept: seq<byte>, j: nat)
    requires i < |t| && TurnAt(t, i) == Turn(kept, j)
    ensures Goes(t, i, kept, j)
  {}

  lemma {:induction false} GoesOn(t: seq<byte>, i: nat, a: seq<byte>, m: nat, b: seq<byte>, j: nat, kept: seq<byte>)
    requires Goes(t, i, a, m) && Goes(t, m, b, j) && kept == a + b
    ensures Goes(t, i, kept, j)
  {
    assert GoesBody(t, i, a, m, Seal) && GoesBody(t, m, b, j, Seal);
    if Closed(t, j) {
      assert a + (b + Remains(t, j)) == a + b + Remains(t, j);
    }
  }

  lemma {:induction false} LineCommentGoes(t: seq<byte>, i: nat, body: seq<byte>)
    requires 10 !in body && Has(t, i, [47, 47] + body + [10])
    ensures Goes(t, i, [], i + |body| + 3)
  {
    var e := i + 2 + |body|;
    HasSplit3(t, i, [47, 47], body, [10], [47, 47] + body + [10]);
    HasAt(t, i, [47, 47], 0);
    HasAt(t, i, [47, 47], 1);
    HasAt(t, e, [10], 0);
    forall k | i + 2 <= k < e ensures t[k] != NEWLINE {
      HasAt(t, i + 2, body, k - (i + 2));
      assert body[k - (i + 2)] in body;
    }
    LineFound(t, i + 1, e);
    OneTurn(t, i, [], e);
    OneTurn(t, e, [], e + 1);
    GoesOn(t, i, [], e, [], e + 1, []);
  }

  lemma {:induction false} BlockCommentGoes(t: seq<byte>, i: nat, body: seq<byte>)
    requires Good(BlockComment(body), []) && Has(t, i, [47, 42] + body + [42, 47])
    ensures Goes(t, i, [], i + |body| + 4)
  {
    var z := [42] + body + [42];
    var e := i + 2 + |body|;
    assert [47, 42] + body + [42, 47] == [47] + z + [47];
    HasSplit3(t, i, [47], z, [47], [47] + z + [47]);
    HasAt(t, i, [47], 0);
    HasAt(t, i + 1, z, 0);
    HasAt(t, i + 1, z, |z| - 1);
    HasAt(t, i + 1 + |z|, [47], 0);
    forall k | i + 1 <= k < e ensures !(t[k] == STAR && t[k + 1] == SLASH) {
      HasAt(t, i + 1, z, k - (i + 1));
      HasAt(t, i + 1, z, k - i);
    }
    CommentFound(t, i + 1, e);
    OneTurn(t, i, [], e + 2);
  }

  lemma {:induction false} LiteralGoes(t: seq<byte>, i: nat, body: seq<byte>)
    requires Units(body) && Has(t, i, [34] + body + [34])
    ensures Goes(t, i, [34] + body + [34], i + |body| + 2)
  {
    var all := [34] + body + [34];
    HasSplit3(t, i, [34], body, [34], all);
    HasAt(t, i, [34], 0);
    HasAt(t, i + 1 + |body|, [34], 0);
    LiteralFound(t, i + 1, body);
    assert HasBody(t, i, all, Seal);
    OneTurn(t, i, all, i + |body| + 2);
  }

  /** One segment, wherever it stands. */
  lemma {:induction false} SegmentGoes(t: seq<byte>, i: nat, s: Segment, rest: seq<byte>)
    requires Has(t, i, Spelled(s)) && Good(s, rest) && i + |Spelled(s)| <= |t| && t[i + |Spelled(s)|..] == rest
    ensures Goes(t, i, Kept(s), i + |Spelled(s)|)
  {
    match s {
      case LineComment(body) => LineCommentGoes(t, i, body);
      case BlockComment(body) => BlockCommentGoes(t, i, body);
      case ShortComment =>
        HasAt(t, i, [47, 42, 47], 0);
        HasAt(t, i, [47, 42, 47], 1);
        HasAt(t, i, [47, 42, 47], 2);
        CommentFound(t, i + 1, i + 1);
        OneTurn(t, i, [], i + 3);
      case StringLiteral(body) => LiteralGoes(t, i, body);
      case Blank(b) =>
        HasAt(t, i, [b], 0);
        OneTurn(t, i, [], i + 1);
      case Other(b) =>
        HasAt(t, i, [b], 0);
        assert i + 1 < |t| ==> rest[0] == t[i + 1];
        OneTurn(t, i, [b], i + 1);
    }
  }

  lemma {:induction false} Front(t: seq<byte>, i: nat, a: seq<byte>, more: seq<byte>)
    requires i <= |t| && t[i..] == a + more
    ensures Has(t, i, a) && i + |a| <= |t| && t[i + |a|..] == more
  {
    assert t[i..i + |a|] == t[i..][..|a|] && t[i + |a|..] == t[i..][|a|..];
  }

  lemma {:induction false} Behind(t: seq<byte>, i: nat, a: seq<byte>, more: seq<byte>)
    requires Has(t, i, a) && t[i + |a|..] == more
    ensures t[i..] == a + more
  {
    assert HasBody(t, i, a, Seal);
    assert t[i..] == t[i..i + |a|] + t[i + |a|..];
  }

  lemma {:induction false} GoesNowhere(t: seq<byte>, i: nat)
    requires i <= |t| && t[i..] == []
    ensures i == |t| && Goes(t, i, [], |t|)
  {
    assert i == |t|;
    assert Closed(t, i) ==> [] + Remains(t, i) == Remains(t, i);
  }

  lemma {:induction false} SegmentsGo(t: seq<byte>, i: nat, ss: Segments)
    requires i <= |t| && t[i..] == SpelledAll(ss) && GoodAll(ss)
    ensures Goes(t, i, KeptAll(ss), |t|)
    decreases |ss|
  {
    if ss == [] {
      GoesNowhere(t, i);
    } else {
      var a, more := Spelled(ss[0]), SpelledAll(ss[1..]);
      var j := i + |a|;
      Front(t, i, a, more);
      SegmentGoes(t, i, ss[0], more);
      SegmentsGo(t, j, ss[1..]);
      GoesOn(t, i, Kept(ss[0]), j, KeptAll(ss[1..]), |t|, KeptAll(ss));
    }
  }

  /** Minifying drops the blanks and the comments and keeps everything else, in order. */
  lemma {:induction false} SegmentsRemain(ss: Segments)
    requires GoodAll(ss)
    ensures Closed(SpelledAll(ss), 0) && Remains(SpelledAll(ss), 0) == KeptAll(ss)
  {
    var t := SpelledAll(ss);
    assert t[0..] == t;
    SegmentsGo(t, 0, ss);
    assert GoesBody(t, 0, KeptAll(ss), |t|, Seal);
    assert KeptAll(ss) + [] == KeptAll(ss);
  }

  /** Every closed text that ends with a line break is made of segments. */
  lemma {:induction false} ClosedIsSegments(t: seq<byte>, i: nat) returns (ss: Segments)
    requires i <= |t| && Closed(t, i) && (i < |t| ==> t[|t| - 1] == 10)
    ensures GoodAll(ss) && SpelledAll(ss) == t[i..]
    decreases |t| - i
  {
    if i == |t| {
      ss := [];
    } else {
      var s := SegmentAt(t, i);
      var a := Spelled(s);
      var more := ClosedIsSegments(t, i + |a|);
      Behind(t, i, a, SpelledAll(more));
      ss := [s] + more;
      assert ss[1..] == more;
    }
  }

  /** The segment `s` stands at `i`, in front of a closed text. */
  ghost predicate Stands(t: seq<byte>, i: nat, s: Segment) {
    Has(t, i, Spelled(s)) && Good(s, t[i + |Spelled(s)|..]) && Closed(t, i + |Spelled(s)|)
  }

  lemma {:induction false} SegmentAt(t: seq<byte>, i: nat) returns (s: Segment)
    requires i < |t| && Closed(t, i) && t[|t| - 1] == 10
    ensures Stands(t, i, s)
  {
    if t[i] == SLASH && i + 1 < |t| && t[i + 1] == SLASH {
      s := LineAt(t, i);
    } else if t[i] == SLASH && i + 1 < |t| && t[i + 1] == STAR {
      s := BlockAt(t, i);
    } else if t[i] == QUOTE {
      s := LiteralAt(t, i);
    } else {
      s := ByteAt(t, i);
    }
  }

  lemma {:induction false} OneByte(t: seq<byte>, i: nat)
    requires i < |t|
    ensures Has(t, i, [t[i]])
  {
    assert t[i..i + 1] == [t[i]];
  }

  lemma {:induction false} ByteAt(t: seq<byte>, i: nat) returns (s: Segment)
    requires i < |t| && Closed(t, i) && t[i] != QUOTE
    requires t[i] == SLASH && i + 1 < |t| ==> t[i + 1] != SLASH && t[i + 1] != STAR
    ensures Stands(t, i, s)
  {
    s := if IsBlank(t[i]) then Blank(t[i]) else Other(t[i]);
    OneByte(t, i);
    assert TurnAt(t, i).next == i + 1;
  }

  lemma {:induction false} LiteralAt(t: seq<byte>, i: nat) returns (s: Segment)
    requires i < |t| && Closed(t, i) && t[i] == QUOTE
    ensures Stands(t, i, s)
  {
    var e := StringEnd(t, i + 1).value;
    s := StringLiteral(t[i + 1..e]);
    UnitsBetween(t, i + 1, e);
    assert Spelled(s) == t[i..e + 1];
    assert TurnAt(t, i).next == e + 1;
  }

  lemma {:induction false} LineEndsBefore(t: seq<byte>, i: nat)
    requires i < |t| && t[|t| - 1] == 10
    ensures LineClose(t, i) < |t| && t[LineClose(t, i)] == 10
    ensures forall k :: i <= k < LineClose(t, i) ==> t[k] != 10
    decreases |t| - i
  {
    if t[i] != 10 {
      LineEndsBefore(t, i + 1);
    }
  }

  lemma {:induction false} LineAt(t: seq<byte>, i: nat) returns (s: Segment)
    requires i + 1 < |t| && Closed(t, i) && t[|t| - 1] == 10 && t[i] == SLASH && t[i + 1] == SLASH
    ensures Stands(t, i, s)
  {
    LineEndsBefore(t, i + 1);
    var e := LineClose(t, i + 1);
    s := LineComment(t[i + 2..e]);
    assert TurnAt(t, i) == Turn([], e) && TurnAt(t, e) == Turn([], e + 1);
    assert Spelled(s) == t[i..e + 1];
    forall b | b in s.body ensures b != 10 {
      var k :| 0 <= k < |s.body| && s.body[k] == b;
      assert t[i + 2 + k] == b;
    }
  }

  lemma {:induction false} CommentEndsFirst(t: seq<byte>, i: nat)
    requires CommentClose(t, i).Some?
    ensures var e := CommentClose(t, i).value;
            && t[e] == STAR && t[e + 1] == SLASH
            && forall k :: i <= k < e ==> !(t[k] == STAR && t[k + 1] == SLASH)
    decreases |t| - i
  {
    if !(t[i] == STAR && t[i + 1] == SLASH) {
      CommentEndsFirst(t, i + 1);
    }
  }

  lemma {:induction false} BlockAt(t: seq<byte>, i: nat) returns (s: Segment)
    requires i + 1 < |t| && Closed(t, i) && t[i] == SLASH && t[i + 1] == STAR
    ensures Stands(t, i, s)
  {
    var e := CommentClose(t, i + 1).value;
    CommentEndsFirst(t, i + 1);
    assert TurnAt(t, i).next == e + 2;
    if e == i + 1 {
      s := ShortComment;
      assert t[i..i + 3] == [47, 42, 47];
    } else {
      s := BlockComment(t[i + 2..e]);
      BlockIsGood(t, i, e);
      BlockStands(t, i, e);
    }
  }

  lemma {:induction false} BlockStands(t: seq<byte>, i: nat, e: nat)
    requires i + 2 <= e && e + 1 < |t| && t[i] == SLASH && t[i + 1] == STAR && t[e] == STAR && t[e + 1] == SLASH
    ensures Has(t, i, [47, 42] + t[i + 2..e] + [42, 47])
  {
    assert t[i..e + 2] == [47, 42] + t[i + 2..e] + [42, 47];
  }

  lemma {:induction false} BlockIsGood(t: seq<byte>, i: nat, e: nat)
    requires i + 2 <= e && e + 1 < |t| && t[i + 1] == STAR && t[e] == STAR
    requires forall k :: i + 1 <= k < e ==> !(t[k] == STAR && t[k + 1] == SLASH)
    ensures Good(BlockComment(t[i + 2..e]), [])
  {
    var z := [42] + t[i + 2..e] + [42];
    assert z == t[i + 1..e + 1];
    forall k | 0 <= k < |z| - 1 ensures !(z[k] == 42 && z[k + 1] == 47) {
      assert z[k] == t[i + 1 + k] && z[k + 1] == t[i + 2 + k];
    }
  }

  lemma {:induction false} UnitsBetween(t: seq<byte>, i: nat, e: nat)
    requires i <= e <= |t| && StringEnd(t, i) == Some(e)
    ensures Units(t[i..e])
    decreases e - i
  {
    if i < e {
      var n := if t[i] == BACKSLASH then 2 else 1;
      UnitsBetween(t, i + n, e);
      assert t[i..e][n..] == t[i + n..e] && t[i..e][0] == t[i];
    }
  }

  /**
   * Texts that end with a line break are closed exactly when they are made of segments, and then the literals and the
   * other bytes remain of them, in order.
   */
  lemma {:induction false} ClosedIffSegments(t: seq<byte>)
    requires t != [] && t[|t| - 1] == 10
    ensures Closed(t, 0) <==> exists ss: Segments :: GoodAll(ss) && SpelledAll(ss) == t
    ensures forall ss: Segments :: GoodAll(ss) && SpelledAll(ss) == t ==> Closed(t, 0) && Remains(t, 0) == KeptAll(ss)
  {
    if Closed(t, 0) {
      var ss := ClosedIsSegments(t, 0);
      assert t[0..] == t;
    }
    forall ss: Segments | GoodAll(ss) && SpelledAll(ss) == t
      ensures Closed(t, 0) && Remains(t, 0) == KeptAll(ss)
    {
      SegmentsRemain(ss);
    }
  }
}
