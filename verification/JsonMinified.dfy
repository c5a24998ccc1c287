/** What `cJSON_Minify` leaves of a text, and the texts inside which it stays. */
module JsonMinified {
  import opened Common
  import opened Bits
  import opened CStrings
  import opened JsonString
  import opened Json

  const SLASH: byte := 47
  const STAR: byte := 42
  const RETURN: byte := 13

  // ----- what remains of a buffer; no result where the scan would run off its end

  predicate IsBlank(b: byte) {
    b == SPACE || b == TAB || b == RETURN || b == NEWLINE
  }

  /** The end of the line from `i` on. */
  function LineEnd(s: seq<byte>, i: nat): (r: Option<nat>)
    ensures r.Some? ==> i <= r.value < |s|
    decreases |s| - i
  {
    if i >= |s| then None
    else if s[i] == 0 || s[i] == NEWLINE then Some(i)
    else LineEnd(s, i + 1)
  }

  /** The end of the comment from `i` on: its star, or the terminator. */
  function CommentEnd(s: seq<byte>, i: nat): (r: Option<nat>)
    ensures r.Some? ==> i <= r.value < |s|
    decreases |s| - i
  {
    if i >= |s| then None
    else if s[i] == 0 then Some(i)
    else if s[i] == STAR && i + 1 >= |s| then None
    else if s[i] == STAR && s[i + 1] == SLASH then Some(i)
    else CommentEnd(s, i + 1)
  }

  /** The position behind the string literal from `i` on. */
  function LiteralEnd(s: seq<byte>, i: nat): (r: Option<nat>)
    ensures r.Some? ==> i < r.value <= |s|
    decreases |s| - i
  {
    if i >= |s| then None
    else if s[i] == 0 || s[i] == QUOTE then Some(i + 1)
    else if s[i] != BACKSLASH then LiteralEnd(s, i + 1)
    else if i + 1 >= |s| then None
    else LiteralEnd(s, i + 2)
  }

  function Cat(a: seq<byte>, o: Option<seq<byte>>): Option<seq<byte>> {
    if o.None? then None else Some(a + o.value)
  }

  /** What remains of the text from `i` on. */
  function Minified(s: seq<byte>, i: nat): (r: Option<seq<byte>>)
    decreases |s| - i
  {
    if i >= |s| then None
    else if s[i] == 0 then Some([])
    else if IsBlank(s[i]) then Minified(s, i + 1)
    else if s[i] == SLASH && i + 1 >= |s| then None
    else if s[i] == SLASH && s[i + 1] == SLASH then
      var e := LineEnd(s, i);
      if e.None? then None else Minified(s, e.value)
    else if s[i] == SLASH && s[i + 1] == STAR then
      var e := CommentEnd(s, i);
      if e.None? then None else Minified(s, e.value + 2)
    else if s[i] == QUOTE then
      var e := LiteralEnd(s, i + 1);
      if e.None? then None else Cat(s[i..e.value], Minified(s, e.value))
    else Cat([s[i]], Minified(s, i + 1))
  }

  lemma {:induction false} CatCat(a: seq<byte>, b: seq<byte>, o: Option<seq<byte>>)
    ensures Cat(a, Cat(b, o)) == Cat(a + b, o) && Cat([], o) == o
  {
    if o.Some? {
      assert a + (b + o.value) == a + b + o.value && [] + o.value == o.value;
    }
  }

  // ----- the texts inside which the scan stays

  /** The end of the line from `i` on, or of the text. */
  function LineClose(t: seq<byte>, i: nat): (r: nat)
    requires i <= |t|
    ensures i <= r <= |t|
    decreases |t| - i
  {
    if i == |t| || t[i] == NEWLINE then i else LineClose(t, i + 1)
  }

  /** The first star with a slash behind it, from `i` on. */
  function CommentClose(t: seq<byte>, i: nat): (r: Option<nat>)
    ensures r.Some? ==> i <= r.value && r.value + 1 < |t|
    decreases |t| - i
  {
    if i + 1 >= |t| then None
    else if t[i] == STAR && t[i + 1] == SLASH then Some(i)
    else CommentClose(t, i + 1)
  }

  /** One turn of the scan inside a text: what it keeps, and where it goes on, unless it leaves the text. */
  datatype Turn = Turn(kept: seq<byte>, next: nat) | Leaves

  /** The scan leaves a text that does not close a block comment or a string literal. */
  function TurnAt(t: seq<byte>, i: nat): (r: Turn)
    requires i < |t|
    ensures r.Turn? ==> i < r.next <= |t|
  {
    if IsBlank(t[i]) then Turn([], i + 1)
    else if t[i] == SLASH && i + 1 < |t| && t[i + 1] == SLASH then Turn([], LineClose(t, i + 1))
    else if t[i] == SLASH && i + 1 < |t| && t[i + 1] == STAR then
      var e := CommentClose(t, i + 1);
      if e.None? then Leaves else Turn([], e.value + 2)
    else if t[i] == QUOTE then
      var e := StringEnd(t, i + 1);
      if e.None? then Leaves else Turn(t[i..e.value + 1], e.value + 1)
    else Turn([t[i]], i + 1)
  }

  /** From `i` on the text closes every block comment and every string literal that it opens. */
  predicate Closed(t: seq<byte>, i: nat)
    decreases |t| - i
  {
    i < |t| ==> TurnAt(t, i).Turn? && Closed(t, TurnAt(t, i).next)
  }

  /** What remains of a closed text from `i` on. */
  function Remains(t: seq<byte>, i: nat): seq<byte>
    requires Closed(t, i)
    decreases |t| - i
  {
    if i >= |t| then [] else TurnAt(t, i).kept + Remains(t, TurnAt(t, i).next)
  }

  /** The buffer `s` holds the C string `t`. */
  ghost predicate Holds(s: seq<byte>, t: seq<byte>) {
    |t| < |s| && s[|t|] == 0 && 0 !in t && forall i :: 0 <= i < |t| ==> s[i] == t[i]
  }

  lemma {:induction false} HoldsPrefix(s: seq<byte>, t: seq<byte>)
    requires |t| < |s| && s[..|t|] == t && s[|t|] == 0 && 0 !in t
    ensures Holds(s, t)
  {
    forall i | 0 <= i < |t| ensures s[i] == t[i] {
      assert s[..|t|][i] == s[i];
    }
  }

  lemma {:induction false} RemainsLength(t: seq<byte>, i: nat)
    requires Closed(t, i) && i <= |t|
    ensures |Remains(t, i)| <= |t| - i
    decreases |t| - i
  {
    if i < |t| {
      RemainsLength(t, TurnAt(t, i).next);
    }
  }

  lemma {:induction false} LineScan(s: seq<byte>, t: seq<byte>, i: nat)
    requires Holds(s, t) && i <= |t|
    ensures LineEnd(s, i) == Some(LineClose(t, i))
    decreases |t| - i
  {
    if i < |t| && t[i] != NEWLINE {
      LineScan(s, t, i + 1);
    }
  }

  /** An open comment ends at the terminator. */
  lemma {:induction false} CommentScan(s: seq<byte>, t: seq<byte>, i: nat)
    requires Holds(s, t) && i <= |t|
    ensures CommentEnd(s, i) == Some(if CommentClose(t, i).Some? then CommentClose(t, i).value else |t|)
    decreases |t| - i
  {
    if i < |t| {
      CommentScan(s, t, i + 1);
    }
  }

  lemma {:induction false} LiteralScan(s: seq<byte>, t: seq<byte>, i: nat)
    requires Holds(s, t) && StringEnd(t, i).Some?
    ensures LiteralEnd(s, i) == Some(StringEnd(t, i).value + 1)
    decreases |t| - i
  {
    if t[i] != QUOTE {
      LiteralScan(s, t, if t[i] == BACKSLASH then i + 2 else i + 1);
    }
  }

  /** The literal from `i` on is open and ends in a backslash that escapes the terminator. */
  predicate EscapesEnd(t: seq<byte>, i: nat)
    decreases |t| - i
  {
    if i >= |t| || t[i] == QUOTE then false
    else if t[i] != BACKSLASH then EscapesEnd(t, i + 1)
    else i + 1 == |t| || EscapesEnd(t, i + 2)
  }

  /** An open literal ends behind the terminator, or goes on there. */
  lemma {:induction false} OpenScan(s: seq<byte>, t: seq<byte>, i: nat)
    requires Holds(s, t) && i <= |t| && StringEnd(t, i).None?
    ensures LiteralEnd(s, i) == if EscapesEnd(t, i) then LiteralEnd(s, |t| + 1) else Some(|t| + 1)
    decreases |t| - i
  {
    if i < |t| && !(t[i] == BACKSLASH && i + 1 == |t|) {
      OpenScan(s, t, if t[i] == BACKSLASH then i + 2 else i + 1);
    }
  }

  lemma {:induction false} SameSlice(s: seq<byte>, t: seq<byte>, i: nat, e: nat)
    requires Holds(s, t) && i <= e <= |t|
    ensures s[i..e] == t[i..e]
  {}

  /** A turn inside the text is the same in every buffer that holds it. */
  lemma {:induction false} TurnTaken(s: seq<byte>, t: seq<byte>, i: nat)
    requires Holds(s, t) && i < |t| && TurnAt(t, i).Turn?
    ensures Minified(s, i) == Cat(TurnAt(t, i).kept, Minified(s, TurnAt(t, i).next))
  {
    CatCat([], [], Minified(s, TurnAt(t, i).next));
    LineScan(s, t, i + 1);
    CommentScan(s, t, i + 1);
    if t[i] == QUOTE {
      LiteralScan(s, t, i + 1);
      SameSlice(s, t, i, StringEnd(t, i + 1).value + 1);
    }
  }

  /** Where the scan goes on when it leaves the text, and that it keeps what it read in a literal. */
  lemma {:induction false} TurnLeaves(s: seq<byte>, t: seq<byte>, i: nat) returns (next: Option<nat>)
    requires Holds(s, t) && i < |t| && TurnAt(t, i).Leaves?
    ensures next == if t[i] == SLASH then Some(|t| + 2)
                    else if EscapesEnd(t, i + 1) then LiteralEnd(s, |t| + 1) else Some(|t| + 1)
    ensures next.None? ==> Minified(s, i) == None
    ensures next.Some? && t[i] == SLASH ==> Minified(s, i) == Minified(s, next.value)
    ensures next.Some? && t[i] != SLASH ==>
              i <= next.value <= |s| && Minified(s, i) == Cat(s[i..next.value], Minified(s, next.value))
  {
    CommentScan(s, t, i + 1);
    if t[i] == SLASH {
      next := Some(|t| + 2);
    } else {
      OpenScan(s, t, i + 1);
      next := LiteralEnd(s, i + 1);
    }
  }

  /** Of a closed text the same remains in every buffer. */
  lemma {:induction false} ClosedAlone(s: seq<byte>, t: seq<byte>, i: nat)
    requires Holds(s, t) && i <= |t| && Closed(t, i)
    ensures Minified(s, i) == Some(Remains(t, i))
    decreases |t| - i
  {
    if i < |t| {
      TurnTaken(s, t, i);
      ClosedAlone(s, t, TurnAt(t, i).next);
    }
  }

  /** The scan of an open text runs off a buffer that ends with the terminator. */
  lemma {:induction false} OpenRunsOff(s: seq<byte>, t: seq<byte>, i: nat)
    requires Holds(s, t) && |s| == |t| + 1 && i <= |t| && !Closed(t, i)
    ensures Minified(s, i) == None
    decreases |t| - i
  {
    if TurnAt(t, i).Leaves? {
      var _ := TurnLeaves(s, t, i);
    } else {
      TurnTaken(s, t, i);
      OpenRunsOff(s, t, TurnAt(t, i).next);
    }
  }

  /** Two buffers with the text `t` and different bytes behind its terminator. */
  ghost predicate Tails(a: seq<byte>, b: seq<byte>, t: seq<byte>) {
    && Holds(a, t) && Holds(b, t) && |a| == |b| == |t| + 5
    && a[|t| + 1] == a[|t| + 2] == a[|t| + 3] == a[|t| + 4] == 0
    && b[|t| + 1] == b[|t| + 2] == 120 && b[|t| + 3] == b[|t| + 4] == 0
  }

  lemma {:induction false} TailsScanned(a: seq<byte>, b: seq<byte>, t: seq<byte>)
    requires Tails(a, b, t)
    ensures LiteralEnd(a, |t| + 1) == Some(|t| + 2) && LiteralEnd(b, |t| + 1) == Some(|t| + 4)
    ensures Minified(a, |t| + 1) == Minified(a, |t| + 2) == Some([]) && Minified(b, |t| + 4) == Some([])
    ensures Minified(b, |t| + 2) == Some([120]) && Minified(b, |t| + 1) == Some([120, 120])
  {
    assert LiteralEnd(b, |t| + 2) == LiteralEnd(b, |t| + 3) == Some(|t| + 4);
    assert Minified(b, |t| + 3) == Some([]);
    assert [120] + [] == [120] && [120] + [120] == [120, 120];
  }

  /** The results exist, and the first is shorter. */
  ghost predicate Shorter(a: Option<seq<byte>>, b: Option<seq<byte>>) {
    a.Some? && b.Some? && |a.value| < |b.value|
  }

  /** What the scan of an open text leaves depends on the bytes behind the terminator. */
  lemma {:induction false} OpenDepends(a: seq<byte>, b: seq<byte>, t: seq<byte>, i: nat)
    requires Tails(a, b, t) && i <= |t| && !Closed(t, i)
    ensures Shorter(Minified(a, i), Minified(b, i))
    decreases |t| - i
  {
    if TurnAt(t, i).Leaves? {
      TailsScanned(a, b, t);
      var _ := TurnLeaves(a, t, i);
      var _ := TurnLeaves(b, t, i);
    } else {
      TurnTaken(a, t, i);
      TurnTaken(b, t, i);
      OpenDepends(a, b, t, TurnAt(t, i).next);
    }
  }

  /**
   * `cJSON_Minify` stays inside a C string, and its result depends on the C string alone, exactly when the text is
   * closed: an open one makes it run off a buffer that ends with the terminator, and what follows the terminator
   * changes the result.
   */
  lemma {:induction false} ClosedExact(t: seq<byte>)
    requires 0 !in t
    ensures Closed(t, 0) <==> Minified(t + [0], 0).Some?
    ensures Closed(t, 0) <==> forall rest: seq<byte> :: Minified(t + [0] + rest, 0) == Minified(t + [0], 0)
    ensures !Closed(t, 0) ==>
              Shorter(Minified(t + [0] + [0, 0, 0, 0], 0), Minified(t + [0] + [120, 120, 0, 0], 0))
  {
    if Closed(t, 0) {
      ClosedAlone(t + [0], t, 0);
      forall rest: seq<byte> ensures Minified(t + [0] + rest, 0) == Minified(t + [0], 0) {
        ClosedAlone(t + [0] + rest, t, 0);
      }
    } else {
      OpenRunsOff(t + [0], t, 0);
      OpenDepends(t + [0] + [0, 0, 0, 0], t + [0] + [120, 120, 0, 0], t, 0);
    }
  }

  /** An open literal, an open comment, and a literal that ends in a backslash. */
  lemma {:induction false} OpenTexts()
    ensures Minified([QUOTE, 0], 0) == None
    ensures Minified([SLASH, STAR, 0], 0) == None
    ensures Minified([QUOTE, BACKSLASH, 0], 0) == None
  {
    assert LiteralEnd([QUOTE, 0], 1) == Some(2);
    assert CommentEnd([SLASH, STAR, 0], 0) == CommentEnd([SLASH, STAR, 0], 1) == Some(2);
    assert LiteralEnd([QUOTE, BACKSLASH, 0], 1) == LiteralEnd([QUOTE, BACKSLASH, 0], 3) == None;
  }
}
