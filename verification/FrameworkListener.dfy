/** `FrameworkListener::dispatchCommand`: splitting a command line into arguments. */
module FrameworkListenerModel {
  import opened Common
  import opened Bits
  import opened CStrings
  import opened SocketClientModel

  const CMD_BUF_SIZE := 1024
  const CMD_ARGS_MAX := 26
  const QLIMIT := CMD_BUF_SIZE - 1

  /** What becomes of a line: a command with its sequence number, or one of the 500 replies. */
  datatype Dispatch =
    | Command(cmdNum: Option<int>, argv: seq<seq<byte>>)
    | UnsupportedEscape
    | InvalidSequenceNumber
    | UnclosedQuotes
    | Overflow

  /** `strtol` accepting the whole of a word, or not. */
  type NumberParser = seq<byte> -> Option<int>

  /** The scanner between two characters: the word being collected, both flags, and what is complete. */
  datatype Lexer = Lexer(tmp: seq<byte>, esc: bool, quote: bool, haveCmdNum: bool,
                         cmdNum: Option<int>, argv: seq<seq<byte>>)

  datatype LexStep = Go(lexer: Lexer) | Stop(reply: Dispatch)

  function Push(x: Lexer, b: byte): LexStep {
    if |x.tmp| >= QLIMIT then Stop(Overflow) else Go(x.(tmp := x.tmp + [b], esc := false))
  }

  /** An unquoted space ends the sequence number or an argument. */
  function EndWord(x: Lexer, strtol: NumberParser): LexStep {
    if !x.haveCmdNum then
      match strtol(x.tmp)
      case Some(n) => Go(x.(tmp := [], haveCmdNum := true, cmdNum := Some(n)))
      case None => Stop(InvalidSequenceNumber)
    else if |x.argv| >= CMD_ARGS_MAX then Stop(Overflow)
    else Go(x.(tmp := [], argv := x.argv + [x.tmp]))
  }

  function Lex(x: Lexer, b: byte, strtol: NumberParser): LexStep {
    if b == BACKSLASH then
      if x.esc then Push(x, BACKSLASH) else Go(x.(esc := true))
    else if x.esc then
      if b == QUOTE then Push(x, QUOTE) else Stop(UnsupportedEscape)
    else if b == QUOTE then Go(x.(quote := !x.quote))
    else if |x.tmp| >= QLIMIT then Stop(Overflow)
    else if !x.quote && b == SPACE then EndWord(x, strtol)
    else Push(x, b)
  }

  function AtEnd(x: Lexer): Dispatch {
    if |x.argv| >= CMD_ARGS_MAX then Overflow
    else if x.quote then UnclosedQuotes
    else Command(x.cmdNum, x.argv + [x.tmp])
  }

  function Scan(data: seq<byte>, x: Lexer, strtol: NumberParser): Dispatch
    decreases |data|
  {
    if data == [] then AtEnd(x)
    else
      match Lex(x, data[0], strtol)
      case Go(y) => Scan(data[1..], y, strtol)
      case Stop(reply) => reply
  }

  function Start(withSeq: bool): Lexer {
    Lexer([], false, false, !withSeq, None, [])
  }

  // ----- the imperative scanner

  /** `tmp` terminated at `q` and duplicated. */
  method Strdup(tmp: array<byte>, q: nat) returns (word: seq<byte>)
    requires q < tmp.Length && 0 !in tmp[..q]
    modifies tmp
    ensures word == old(tmp[..q]) == tmp[..q]
  {
    tmp[q] := 0;
    word := CString(tmp[..]);
    CStringPrefix(tmp[..], tmp[..q]);
  }

  /** The local variables of `dispatchCommand`. */
  class Scanner {
    const tmp: array<byte>
    var q: nat
    var esc: bool
    var quote: bool
    var haveCmdNum: bool
    var cmdNum: Option<int>
    var argv: seq<seq<byte>>

    ghost predicate Valid()
      reads this, tmp
    {
      tmp.Length == CMD_BUF_SIZE && q <= QLIMIT && 0 !in tmp[..q] && |argv| <= CMD_ARGS_MAX
    }

    ghost function View(): Lexer
      requires Valid()
      reads this, tmp
    {
      Lexer(tmp[..q], esc, quote, haveCmdNum, cmdNum, argv)
    }

    constructor (withSeq: bool)
      ensures Valid() && View() == Start(withSeq) && fresh(tmp)
    {
      tmp := new byte[CMD_BUF_SIZE](_ => 0);
      q, esc, quote, haveCmdNum, cmdNum, argv := 0, false, false, !withSeq, None, [];
    }

    /** `*q++ = b`, unless the buffer is full. */
    method Store(b: byte) returns (reply: Option<Dispatch>)
      requires Valid() && b != 0
      modifies this, tmp
      ensures Valid()
      ensures match Push(old(View()), b)
              case Go(y) => reply == None && View() == y
              case Stop(r) => reply == Some(r)
    {
      if q >= QLIMIT {
        return Some(Overflow);
      }
      tmp[q] := b;
      q := q + 1;
      esc := false;
      reply := None;
      assert tmp[..q] == old(tmp[..q]) + [b];
    }

    /** The branch taken at an unquoted space. */
    method FinishWord(strtol: NumberParser) returns (reply: Option<Dispatch>)
      requires Valid() && q < QLIMIT
      modifies this, tmp
      ensures Valid()
      ensures match EndWord(old(View()), strtol)
              case Go(y) => reply == None && View() == y
              case Stop(r) => reply == Some(r)
    {
      var word := Strdup(tmp, q);
      if !haveCmdNum {
        var n := strtol(word);
        if n.None? {
          return Some(InvalidSequenceNumber);
        }
        cmdNum, haveCmdNum := n, true;
      } else {
        if |argv| >= CMD_ARGS_MAX {
          return Some(Overflow);
        }
        argv := argv + [word];
      }
      q := 0;
      reply := None;
    }

    /** One turn of the loop. */
    method Turn(b: byte, strtol: NumberParser) returns (reply: Option<Dispatch>)
      requires Valid() && b != 0
      modifies this, tmp
      ensures Valid()
      ensures match Lex(old(View()), b, strtol)
              case Go(y) => reply == None && View() == y
              case Stop(r) => reply == Some(r)
    {
      reply := None;
      if b == BACKSLASH {
        if esc {
          reply := Store(BACKSLASH);
        } else {
          esc := true;
        }
      } else if esc {
        if b == QUOTE {
          reply := Store(QUOTE);
        } else {
          return Some(UnsupportedEscape);
        }
      } else if b == QUOTE {
        quote := !quote;
      } else if q >= QLIMIT {
        return Some(Overflow);
      } else if !quote && b == SPACE {
        reply := FinishWord(strtol);
      } else {
        reply := Store(b);
      }
    }
  }

  /** `dispatchCommand` up to the lookup of the command; it writes only inside `tmp` and `argv`. */
  method DispatchCommand(data: seq<byte>, withSeq: bool, strtol: NumberParser) returns (r: Dispatch)
    requires 0 !in data
    ensures r == Scan(data, Start(withSeq), strtol)
  {
    var s := new Scanner(withSeq);
    for p := 0 to |data|
      invariant s.Valid() && fresh(s) && fresh(s.tmp)
      invariant Scan(data[p..], s.View(), strtol) == Scan(data, Start(withSeq), strtol)
    {
      assert data[p..][1..] == data[p + 1..];
      var reply := s.Turn(data[p], strtol);
      if reply.Some? {
        return reply.value;
      }
    }
    assert data[|data|..] == [];
    ghost var x := s.View();
    var word := Strdup(s.tmp, s.q);
    assert word == x.tmp;
    if |s.argv| >= CMD_ARGS_MAX {
      return Overflow;
    }
    if s.quote {
      return UnclosedQuotes;
    }
    return Command(s.cmdNum, s.argv + [word]);
  }

  // ----- lines made of words

  /** Part of a word: bytes outside quotes, or inside. Quotes and backslashes are escaped in both. */
  datatype Piece = Bare(text: seq<byte>) | InQuotes(text: seq<byte>)

  type Word = seq<Piece>

  /** A space outside quotes would end the word. */
  predicate IsWord(w: Word) {
    forall k :: 0 <= k < |w| && w[k].Bare? ==> SPACE !in w[k].text
  }

  function SpellPiece(p: Piece): seq<byte> {
    if p.Bare? then Escape(p.text) else Quote(p.text)
  }

  function Spell(w: Word): seq<byte> {
    if w == [] then [] else SpellPiece(w[0]) + Spell(w[1..])
  }

  /** What a word stands for. */
  function Text(w: Word): seq<byte> {
    if w == [] then [] else w[0].text + Text(w[1..])
  }

  ghost predicate AreWords(ws: seq<Word>) {
    forall k :: 0 <= k < |ws| ==> IsWord(ws[k])
  }

  function Texts(ws: seq<Word>): (r: seq<seq<byte>>)
    ensures |r| == |ws|
  {
    if ws == [] then [] else [Text(ws[0])] + Texts(ws[1..])
  }

  /** Words with a space behind each of them. */
  function Spaced(ws: seq<Word>): seq<byte> {
    if ws == [] then [] else Spell(ws[0]) + [SPACE] + Spaced(ws[1..])
  }

  /** A line: words separated by single spaces. */
  function Line(ws: seq<Word>, last: Word): seq<byte> {
    Spaced(ws) + Spell(last)
  }

  /** What the buffers can take: an argument that a space follows needs one byte more. */
  predicate Fits(args: seq<seq<byte>>) {
    && |args| <= CMD_ARGS_MAX
    && forall i :: 0 <= i < |args| ==> |args[i]| <= (if i == |args| - 1 then QLIMIT else QLIMIT - 1)
  }

  /** The same for arguments that a space follows each. */
  predicate FitSpaced(args: seq<seq<byte>>) {
    |args| <= CMD_ARGS_MAX && forall i :: 0 <= i < |args| ==> |args[i]| < QLIMIT
  }

  lemma {:induction false} Assoc(a: seq<byte>, b: seq<byte>, c: seq<byte>)
    ensures a + b + c == a + (b + c)
  {}

  // ----- scanning words, whatever follows them

  /** Scanning one byte that is escaped if it must be. */
  lemma {:induction false} ScanEscapedByte(b: byte, rest: seq<byte>, x: Lexer, strtol: NumberParser)
    requires !x.esc && (x.quote || b != SPACE)
    ensures Scan(EscapeByte(b) + rest, x, strtol) ==
            if |x.tmp| >= QLIMIT then Overflow else Scan(rest, x.(tmp := x.tmp + [b]), strtol)
  {
    if b == BACKSLASH || b == QUOTE {
      assert ([BACKSLASH, b] + rest)[1..] == [b] + rest;
      assert ([b] + rest)[1..] == rest;
      assert Scan([BACKSLASH, b] + rest, x, strtol) == Scan([b] + rest, x.(esc := true), strtol);
    } else {
      assert ([b] + rest)[1..] == rest;
    }
  }

  lemma {:induction false} ScanEscaped(t: seq<byte>, rest: seq<byte>, x: Lexer, strtol: NumberParser)
    requires !x.esc && (x.quote || SPACE !in t) && |x.tmp| <= QLIMIT
    ensures Scan(Escape(t) + rest, x, strtol) ==
            if |x.tmp| + |t| > QLIMIT then Overflow else Scan(rest, x.(tmp := x.tmp + t), strtol)
    decreases |t|
  {
    if t == [] {
      assert Escape(t) + rest == rest && x.tmp + t == x.tmp;
    } else {
      var b, u := t[0], t[1..];
      EscapeSplit(t, rest, x.tmp);
      ScanEscapedByte(b, Escape(u) + rest, x, strtol);
      if |x.tmp| < QLIMIT {
        ScanEscaped(u, rest, x.(tmp := x.tmp + [b]), strtol);
      }
    }
  }

  lemma {:induction false} EscapeSplit(arg: seq<byte>, rest: seq<byte>, tmp: seq<byte>)
    requires arg != []
    ensures Escape(arg) + rest == EscapeByte(arg[0]) + (Escape(arg[1..]) + rest)
    ensures tmp + [arg[0]] + arg[1..] == tmp + arg
  {
    Assoc(EscapeByte(arg[0]), Escape(arg[1..]), rest);
    Assoc(tmp, [arg[0]], arg[1..]);
    assert arg == [arg[0]] + arg[1..];
  }

  lemma {:induction false} ScanQuoteMark(rest: seq<byte>, x: Lexer, strtol: NumberParser)
    requires !x.esc
    ensures Scan([QUOTE] + rest, x, strtol) == Scan(rest, x.(quote := !x.quote), strtol)
  {
    assert ([QUOTE] + rest)[1..] == rest;
  }

  lemma {:induction false} ScanPiece(p: Piece, rest: seq<byte>, x: Lexer, strtol: NumberParser)
    requires !x.esc && !x.quote && (p.Bare? ==> SPACE !in p.text) && |x.tmp| <= QLIMIT
    ensures Scan(SpellPiece(p) + rest, x, strtol) ==
            if |x.tmp| + |p.text| > QLIMIT then Overflow else Scan(rest, x.(tmp := x.tmp + p.text), strtol)
  {
    if p.Bare? {
      ScanEscaped(p.text, rest, x, strtol);
    } else {
      var y := x.(quote := true);
      assert Quote(p.text) + rest == [QUOTE] + (Escape(p.text) + ([QUOTE] + rest));
      ScanQuoteMark(Escape(p.text) + ([QUOTE] + rest), x, strtol);
      ScanEscaped(p.text, [QUOTE] + rest, y, strtol);
      ScanQuoteMark(rest, y.(tmp := x.tmp + p.text), strtol);
    }
  }

  lemma {:induction false} ScanWord(w: Word, rest: seq<byte>, x: Lexer, strtol: NumberParser)
    requires !x.esc && !x.quote && IsWord(w) && |x.tmp| <= QLIMIT
    ensures Scan(Spell(w) + rest, x, strtol) ==
            if |x.tmp| + |Text(w)| > QLIMIT then Overflow else Scan(rest, x.(tmp := x.tmp + Text(w)), strtol)
    decreases |w|
  {
    if w == [] {
      assert Spell(w) + rest == rest && x.tmp + Text(w) == x.tmp;
    } else {
      var p, v := w[0], w[1..];
      Assoc(SpellPiece(p), Spell(v), rest);
      ScanPiece(p, Spell(v) + rest, x, strtol);
      if |x.tmp| + |p.text| <= QLIMIT {
        ScanWord(v, rest, x.(tmp := x.tmp + p.text), strtol);
        Assoc(x.tmp, p.text, Text(v));
      }
    }
  }

  /** The scanner between two words, without or with its sequence number. */
  function Between(cmdNum: Option<int>, argv: seq<seq<byte>>): Lexer {
    Lexer([], false, false, true, cmdNum, argv)
  }

  /** An argument with a space behind it. */
  lemma {:induction false} ScanArgument(w: Word, rest: seq<byte>, n: Option<int>, argv: seq<seq<byte>>,
                                        strtol: NumberParser)
    requires IsWord(w)
    ensures Scan(Spell(w) + [SPACE] + rest, Between(n, argv), strtol) ==
            if |Text(w)| >= QLIMIT || |argv| >= CMD_ARGS_MAX then Overflow
            else Scan(rest, Between(n, argv + [Text(w)]), strtol)
  {
    Assoc(Spell(w), [SPACE], rest);
    ScanWord(w, [SPACE] + rest, Between(n, argv), strtol);
    assert [] + Text(w) == Text(w) && ([SPACE] + rest)[1..] == rest;
  }

  lemma {:induction false} ScanSpaced(ws: seq<Word>, rest: seq<byte>, n: Option<int>, argv: seq<seq<byte>>,
                                      strtol: NumberParser)
    requires AreWords(ws) && |argv| <= CMD_ARGS_MAX
    ensures Scan(Spaced(ws) + rest, Between(n, argv), strtol) ==
            if FitSpaced(Texts(ws)) && |argv| + |ws| <= CMD_ARGS_MAX
            then Scan(rest, Between(n, argv + Texts(ws)), strtol)
            else Overflow
    decreases |ws|
  {
    if ws == [] {
      assert Spaced(ws) + rest == rest && argv + Texts(ws) == argv;
    } else {
      var w, more := ws[0], ws[1..];
      var back := Spaced(more) + rest;
      SpacedFirst(ws, rest, argv);
      ScanArgument(w, back, n, argv, strtol);
      FitSpacedTail(ws);
      if |Text(w)| < QLIMIT && |argv| < CMD_ARGS_MAX {
        ScanSpaced(more, rest, n, argv + [Text(w)], strtol);
      }
    }
  }

  lemma {:induction false} SpacedFirst(ws: seq<Word>, rest: seq<byte>, argv: seq<seq<byte>>)
    requires ws != []
    ensures Spaced(ws) + rest == Spell(ws[0]) + [SPACE] + (Spaced(ws[1..]) + rest)
    ensures argv + Texts(ws) == argv + [Text(ws[0])] + Texts(ws[1..])
  {
    Assoc(Spell(ws[0]) + [SPACE], Spaced(ws[1..]), rest);
  }

  lemma {:induction false} FitSpacedTail(ws: seq<Word>)
    requires ws != []
    ensures FitSpaced(Texts(ws)) <==>
              |ws| <= CMD_ARGS_MAX && |Text(ws[0])| < QLIMIT && FitSpaced(Texts(ws[1..]))
  {
    var a, b := Texts(ws), Texts(ws[1..]);
    assert a[0] == Text(ws[0]) && forall i :: 0 <= i < |b| ==> a[i + 1] == b[i];
    if |a| <= CMD_ARGS_MAX && |a[0]| < QLIMIT && FitSpaced(b) {
      forall i | 0 <= i < |a| ensures |a[i]| < QLIMIT {
        assert i > 0 ==> a[i] == b[i - 1];
      }
    }
  }

  lemma {:induction false} FitsSplit(args: seq<seq<byte>>, last: seq<byte>)
    ensures Fits(args + [last]) <==> FitSpaced(args) && |args| < CMD_ARGS_MAX && |last| <= QLIMIT
  {
    var all := args + [last];
    assert all[|args|] == last && forall i :: 0 <= i < |args| ==> all[i] == args[i];
  }

  // ----- what lines are

  /** The start of a line up to and with the word `w`, whatever follows it. */
  lemma {:induction false} ScanUpTo(ws: seq<Word>, w: Word, rest: seq<byte>, n: Option<int>, strtol: NumberParser)
    requires AreWords(ws) && IsWord(w)
    ensures Scan(Line(ws, w) + rest, Between(n, []), strtol) ==
            if FitSpaced(Texts(ws)) && |Text(w)| <= QLIMIT
            then Scan(rest, Between(n, Texts(ws)).(tmp := Text(w)), strtol) else Overflow
  {
    Assoc(Spaced(ws), Spell(w), rest);
    ScanSpaced(ws, Spell(w) + rest, n, [], strtol);
    assert [] + Texts(ws) == Texts(ws);
    ScanWord(w, rest, Between(n, Texts(ws)), strtol);
    assert [] + Text(w) == Text(w);
  }

  /** Words separated by single spaces. */
  function Join(ws: seq<Word>): seq<byte>
    requires ws != []
  {
    if |ws| == 1 then Spell(ws[0]) else Spell(ws[0]) + [SPACE] + Join(ws[1..])
  }

  lemma {:induction false} JoinIsLine(ws: seq<Word>)
    requires ws != []
    ensures Join(ws) == Line(ws[..|ws| - 1], ws[|ws| - 1])
    decreases |ws|
  {
    if |ws| == 1 {
      assert ws[..0] == [];
      assert [] + Spell(ws[0]) == Spell(ws[0]);
    } else {
      var more, front := ws[1..], ws[..|ws| - 1];
      JoinIsLine(more);
      assert front[0] == ws[0] && front[1..] == more[..|more| - 1];
      Assoc(Spell(ws[0]) + [SPACE], Spaced(front[1..]), Spell(ws[|ws| - 1]));
    }
  }

  lemma {:induction false} TextsSplit(ws: seq<Word>)
    requires ws != []
    ensures Texts(ws) == Texts(ws[..|ws| - 1]) + [Text(ws[|ws| - 1])]
    decreases |ws|
  {
    if |ws| > 1 {
      TextsSplit(ws[1..]);
      assert ws[1..][..|ws| - 2] == ws[..|ws| - 1][1..];
    } else {
      assert ws[..0] == [];
    }
  }

  /** Words in any state of `argv`. */
  lemma {:induction false} ScanWords(ws: seq<Word>, n: Option<int>, argv: seq<seq<byte>>, strtol: NumberParser)
    requires ws != [] && AreWords(ws) && |argv| <= CMD_ARGS_MAX
    ensures Scan(Join(ws), Between(n, argv), strtol) ==
            if Fits(Texts(ws)) && |argv| + |ws| <= CMD_ARGS_MAX then Command(n, argv + Texts(ws)) else Overflow
  {
    var front, last := ws[..|ws| - 1], ws[|ws| - 1];
    JoinIsLine(ws);
    TextsSplit(ws);
    FitsSplit(Texts(front), Text(last));
    ScanSpaced(front, Spell(last), n, argv, strtol);
    if FitSpaced(Texts(front)) && |argv| + |front| <= CMD_ARGS_MAX {
      ScanWord(last, [], Between(n, argv + Texts(front)), strtol);
      assert Spell(last) + [] == Spell(last) && [] + Text(last) == Text(last);
      assert argv + Texts(front) + [Text(last)] == argv + Texts(ws);
    }
  }

  /**
   * A line of words, each of any parts inside and outside quotes, is split into what the words stand for, exactly when
   * they fit.
   */
  lemma {:induction false} LineSplits(ws: seq<Word>, strtol: NumberParser)
    requires ws != [] && AreWords(ws)
    ensures Scan(Join(ws), Start(false), strtol) == if Fits(Texts(ws)) then Command(None, Texts(ws)) else Overflow
  {
    ScanWords(ws, None, [], strtol);
    assert [] + Texts(ws) == Texts(ws);
  }

  /** With sequence numbers, the first of several words is one, or the line is refused. */
  lemma {:induction false} NumberedLineSplits(number: Word, ws: seq<Word>, strtol: NumberParser)
    requires IsWord(number) && ws != [] && AreWords(ws)
    ensures Scan(Spell(number) + [SPACE] + Join(ws), Start(true), strtol) ==
            if |Text(number)| >= QLIMIT then Overflow
            else if strtol(Text(number)).None? then InvalidSequenceNumber
            else if Fits(Texts(ws)) then Command(strtol(Text(number)), Texts(ws)) else Overflow
  {
    var rest := Join(ws);
    Assoc(Spell(number), [SPACE], rest);
    ScanWord(number, [SPACE] + rest, Start(true), strtol);
    assert [] + Text(number) == Text(number) && ([SPACE] + rest)[1..] == rest;
    if |Text(number)| < QLIMIT && strtol(Text(number)).Some? {
      ScanWords(ws, strtol(Text(number)), [], strtol);
      assert [] + Texts(ws) == Texts(ws);
    }
  }

  /** A single word is an argument, even where sequence numbers are expected. */
  lemma {:induction false} SingleWord(w: Word, strtol: NumberParser)
    requires IsWord(w)
    ensures Scan(Spell(w), Start(true), strtol) == if |Text(w)| > QLIMIT then Overflow else Command(None, [Text(w)])
  {
    ScanWord(w, [], Start(true), strtol);
    assert Spell(w) + [] == Spell(w) && [] + Text(w) == Text(w) && [] + [Text(w)] == [Text(w)];
  }

  /** A line whose last quote is not closed, spaces and all, is refused. */
  lemma {:induction false} OpenQuoteRefused(ws: seq<Word>, w: Word, open: seq<byte>, n: Option<int>,
                                            strtol: NumberParser)
    requires AreWords(ws) && IsWord(w)
    ensures Scan(Line(ws, w) + ([QUOTE] + Escape(open)), Between(n, []), strtol) ==
            if Fits(Texts(ws) + [Text(w) + open]) then UnclosedQuotes else Overflow
  {
    ScanUpTo(ws, w, [QUOTE] + Escape(open), n, strtol);
    FitsSplit(Texts(ws), Text(w) + open);
    if FitSpaced(Texts(ws)) && |Text(w)| <= QLIMIT {
      var x := Between(n, Texts(ws)).(tmp := Text(w));
      ScanQuoteMark(Escape(open), x, strtol);
      ScanEscaped(open, [], x.(quote := true), strtol);
      assert Escape(open) + [] == Escape(open);
    }
  }

  /** A backslash before anything but a quote or a backslash is refused, inside quotes or outside. */
  lemma {:induction false} BadEscapeRefused(ws: seq<Word>, w: Word, open: Option<seq<byte>>, b: byte,
                                            more: seq<byte>, n: Option<int>, strtol: NumberParser)
    requires AreWords(ws) && IsWord(w) && b != QUOTE && b != BACKSLASH
    ensures var quoted := if open.Some? then [QUOTE] + Escape(open.value) else [];
            var text := Text(w) + if open.Some? then open.value else [];
            Scan(Line(ws, w) + (quoted + ([BACKSLASH, b] + more)), Between(n, []), strtol) ==
            if FitSpaced(Texts(ws)) && |text| <= QLIMIT then UnsupportedEscape else Overflow
  {
    var tail := [BACKSLASH, b] + more;
    var x := Between(n, Texts(ws)).(tmp := Text(w));
    assert tail[1..] == [b] + more;
    if open.Some? {
      ScanUpTo(ws, w, [QUOTE] + Escape(open.value) + tail, n, strtol);
      Assoc([QUOTE], Escape(open.value), tail);
      ScanQuoteMark(Escape(open.value) + tail, x, strtol);
      if |Text(w)| <= QLIMIT {
        ScanEscaped(open.value, tail, x.(quote := true), strtol);
      }
    } else {
      ScanUpTo(ws, w, tail, n, strtol);
      assert [] + tail == tail && Text(w) + [] == Text(w);
    }
  }

  /** A backslash at the end of a line is dropped, inside quotes or outside. */
  lemma {:induction false} LastBackslashDropped(f: Front, n: Option<int>, strtol: NumberParser)
    requires GoodFront(f)
    ensures Scan(SpellFront(f) + [BACKSLASH], Between(n, []), strtol) == Scan(SpellFront(f), Between(n, []), strtol)
  {
    var q := if f.open.Some? then [QUOTE] + Escape(f.open.value) else [];
    var x := Between(n, Texts(f.ws)).(tmp := Text(f.w));
    Assoc(Line(f.ws, f.w), q, [BACKSLASH]);
    ScanUpTo(f.ws, f.w, q + [BACKSLASH], n, strtol);
    ScanUpTo(f.ws, f.w, q, n, strtol);
    assert Scan([], x.(esc := true), strtol) == Scan([], x, strtol);
    assert [BACKSLASH][1..] == [];
    if f.open.Some? && |Text(f.w)| <= QLIMIT {
      var t, y := f.open.value, x.(quote := true);
      Assoc([QUOTE], Escape(t), [BACKSLASH]);
      ScanQuoteMark(Escape(t) + [BACKSLASH], x, strtol);
      ScanQuoteMark(Escape(t), x, strtol);
      ScanEscaped(t, [BACKSLASH], y, strtol);
      ScanEscaped(t, [], y, strtol);
      assert Escape(t) + [] == Escape(t);
      assert Scan([], y.(tmp := y.tmp + t, esc := true), strtol) == Scan([], y.(tmp := y.tmp + t), strtol);
    } else if f.open.None? {
      assert [] + [BACKSLASH] == [BACKSLASH];
    }
  }

  // ----- every line is of one of these kinds

  /** Words, and a quote that may still be open. */
  datatype Front = Front(ws: seq<Word>, w: Word, open: Option<seq<byte>>)

  ghost predicate GoodFront(f: Front) {
    AreWords(f.ws) && IsWord(f.w)
  }

  function SpellFront(f: Front): seq<byte> {
    Line(f.ws, f.w) + if f.open.Some? then [QUOTE] + Escape(f.open.value) else []
  }

  /** What may follow: nothing, a last backslash, or a bad escape. */
  predicate Remnant(tail: seq<byte>) {
    tail == [] || (tail[0] == BACKSLASH && (|tail| > 1 ==> tail[1] != QUOTE && tail[1] != BACKSLASH))
  }

  lemma {:induction false} SpellAppend(w: Word, p: Piece)
    ensures Spell(w + [p]) == Spell(w) + SpellPiece(p)
  {
    if w == [] {
      OnePiece(p);
      assert [] + [p] == [p] && [] + SpellPiece(p) == SpellPiece(p);
    } else {
      assert (w + [p])[1..] == w[1..] + [p];
      SpellAppend(w[1..], p);
      Assoc(SpellPiece(w[0]), Spell(w[1..]), SpellPiece(p));
    }
  }

  lemma {:induction false} SpacedAppend(ws: seq<Word>, w: Word)
    ensures Spaced(ws + [w]) == Spaced(ws) + (Spell(w) + [SPACE])
  {
    if ws == [] {
      assert (ws + [w])[1..] == [] && Spell(w) + [SPACE] + [] == [] + (Spell(w) + [SPACE]);
    } else {
      assert (ws + [w])[1..] == ws[1..] + [w];
      SpacedAppend(ws[1..], w);
      Assoc(Spell(ws[0]) + [SPACE], Spaced(ws[1..]), Spell(w) + [SPACE]);
    }
  }

  /** One byte more, escaped if it must be. */
  function FrontByte(f: Front, b: byte): Front {
    if f.open.Some? then f.(open := Some(f.open.value + [b])) else f.(w := f.w + [Bare([b])])
  }

  function FrontQuote(f: Front): Front {
    if f.open.Some? then f.(w := f.w + [InQuotes(f.open.value)], open := None) else f.(open := Some([]))
  }

  lemma {:induction false} FrontByteSpells(f: Front, b: byte)
    requires GoodFront(f) && (f.open.Some? || b != SPACE)
    ensures GoodFront(FrontByte(f, b)) && SpellFront(FrontByte(f, b)) == SpellFront(f) + EscapeByte(b)
  {
    if f.open.Some? {
      var t := f.open.value;
      EscapeAppend(t, b);
      Assoc([QUOTE], Escape(t), EscapeByte(b));
      Assoc(Line(f.ws, f.w), [QUOTE] + Escape(t), EscapeByte(b));
    } else {
      SpellAppend(f.w, Bare([b]));
      assert Escape([b]) == EscapeByte(b) by {
        assert [b][1..] == [] && EscapeByte(b) + [] == EscapeByte(b);
      }
      Assoc(Spaced(f.ws), Spell(f.w), EscapeByte(b));
      assert Line(f.ws, f.w) + [] == Line(f.ws, f.w);
    }
  }

  lemma {:induction false} FrontQuoteSpells(f: Front)
    requires GoodFront(f)
    ensures GoodFront(FrontQuote(f)) && SpellFront(FrontQuote(f)) == SpellFront(f) + [QUOTE]
  {
    if f.open.Some? {
      var t := f.open.value;
      SpellAppend(f.w, InQuotes(t));
      Assoc(Spaced(f.ws), Spell(f.w), Quote(t));
      Assoc(Line(f.ws, f.w), [QUOTE] + Escape(t), [QUOTE]);
    } else {
      assert [QUOTE] + Escape([]) == [QUOTE];
      assert Line(f.ws, f.w) + [] == Line(f.ws, f.w);
    }
  }

  lemma {:induction false} FrontSpaceSpells(f: Front)
    requires GoodFront(f) && f.open.None?
    ensures var g := Front(f.ws + [f.w], [], None);
            GoodFront(g) && SpellFront(g) == SpellFront(f) + [SPACE]
  {
    SpacedAppend(f.ws, f.w);
    Assoc(Spaced(f.ws), Spell(f.w), [SPACE]);
    assert Spaced(f.ws + [f.w]) + Spell([]) + [] == Spaced(f.ws + [f.w]);
    assert Line(f.ws, f.w) + [] == Line(f.ws, f.w);
  }

  /** The first byte or escape of what follows, taken into the front. */
  lemma {:induction false} TakeOne(f: Front, data: seq<byte>) returns (g: Front, k: nat)
    requires GoodFront(f) && !Remnant(data)
    ensures GoodFront(g) && 1 <= k <= |data| && SpellFront(g) == SpellFront(f) + data[..k]
  {
    var b := data[0];
    if b == BACKSLASH {
      g, k := FrontByte(f, data[1]), 2;
      FrontByteSpells(f, data[1]);
    } else if b == QUOTE {
      g, k := FrontQuote(f), 1;
      FrontQuoteSpells(f);
    } else if b == SPACE && f.open.None? {
      g, k := Front(f.ws + [f.w], [], None), 1;
      FrontSpaceSpells(f);
    } else {
      g, k := FrontByte(f, b), 1;
      FrontByteSpells(f, b);
    }
  }

  lemma {:induction false} LineOf(f: Front, data: seq<byte>) returns (g: Front, tail: seq<byte>)
    requires GoodFront(f)
    ensures GoodFront(g) && Remnant(tail) && SpellFront(f) + data == SpellFront(g) + tail
    decreases |data|
  {
    if Remnant(data) {
      g, tail := f, data;
    } else {
      var h, k := TakeOne(f, data);
      g, tail := LineOf(h, data[k..]);
      assert data[..k] + data[k..] == data;
      Assoc(SpellFront(f), data[..k], data[k..]);
    }
  }

  /** Every line is words, possibly with an open quote, and then ends, or ends in a backslash, or has a bad escape. */
  lemma {:induction false} EveryLine(data: seq<byte>) returns (f: Front, tail: seq<byte>)
    ensures GoodFront(f) && Remnant(tail) && data == SpellFront(f) + tail
  {
    var none := Front([], [], None);
    assert SpellFront(none) == [] && [] + data == data;
    f, tail := LineOf(none, data);
  }

  // ----- the round trip with quoteArg

  /** Arguments as a client sends them: each quoted, separated by single spaces. */
  function JoinQuoted(args: seq<seq<byte>>): seq<byte>
    requires args != []
  {
    if |args| == 1 then Quote(args[0]) else Quote(args[0]) + [SPACE] + JoinQuoted(args[1..])
  }

  function Words(args: seq<seq<byte>>, quoted: bool): seq<Word> {
    if args == [] then []
    else [[if quoted then InQuotes(args[0]) else Bare(args[0])]] + Words(args[1..], quoted)
  }

  /** A word that needs no quotes and no escapes. */
  predicate Simple(arg: seq<byte>) {
    SPACE !in arg && QUOTE !in arg && BACKSLASH !in arg
  }

  lemma {:induction false} SimpleEscape(arg: seq<byte>)
    requires Simple(arg)
    ensures Escape(arg) == arg
  {
    if arg != [] {
      assert forall b :: b in arg[1..] ==> b in arg;
      SimpleEscape(arg[1..]);
      assert [arg[0]] + arg[1..] == arg;
    }
  }

  lemma {:induction false} OnePiece(p: Piece)
    ensures Spell([p]) == SpellPiece(p) && Text([p]) == p.text
  {
    assert [p][1..] == [];
    assert SpellPiece(p) + [] == SpellPiece(p) && p.text + [] == p.text;
  }

  lemma {:induction false} WordsOf(args: seq<seq<byte>>, quoted: bool)
    requires !quoted ==> forall k :: 0 <= k < |args| ==> Simple(args[k])
    ensures AreWords(Words(args, quoted)) && Texts(Words(args, quoted)) == args && |Words(args, quoted)| == |args|
  {
    if args != [] {
      var ws, p := Words(args, quoted), if quoted then InQuotes(args[0]) else Bare(args[0]);
      WordsOf(args[1..], quoted);
      OnePiece(p);
      assert ws[0] == [p] && ws[1..] == Words(args[1..], quoted);
      forall k | 0 <= k < |ws| ensures IsWord(ws[k]) {
        assert k > 0 ==> ws[k] == ws[1..][k - 1];
      }
      assert [args[0]] + args[1..] == args;
    }
  }

  lemma {:induction false} JoinedWords(args: seq<seq<byte>>, quoted: bool)
    requires args != [] && (!quoted ==> forall k :: 0 <= k < |args| ==> Simple(args[k]))
    ensures Words(args, quoted) != []
    ensures Join(Words(args, quoted)) == if quoted then JoinQuoted(args) else JoinSimple(args)
    decreases |args|
  {
    var ws, p := Words(args, quoted), if quoted then InQuotes(args[0]) else Bare(args[0]);
    OnePiece(p);
    if !quoted {
      SimpleEscape(args[0]);
    }
    assert ws[0] == [p] && ws[1..] == Words(args[1..], quoted);
    if |args| > 1 {
      JoinedWords(args[1..], quoted);
    }
  }

  /** Arguments as they stand, separated by single spaces. */
  function JoinSimple(args: seq<seq<byte>>): seq<byte>
    requires args != []
  {
    if |args| == 1 then args[0] else args[0] + [SPACE] + JoinSimple(args[1..])
  }

  /** A line of simple words is split at its spaces. */
  lemma {:induction false} SimpleLineSplits(args: seq<seq<byte>>, strtol: NumberParser)
    requires args != [] && forall k :: 0 <= k < |args| ==> Simple(args[k])
    ensures Scan(JoinSimple(args), Start(false), strtol) == if Fits(args) then Command(None, args) else Overflow
  {
    JoinedWords(args, false);
    WordsOf(args, false);
    LineSplits(Words(args, false), strtol);
  }

  lemma {:induction false} ScanJoined(args: seq<seq<byte>>, argv: seq<seq<byte>>, strtol: NumberParser)
    requires args != [] && |argv| <= CMD_ARGS_MAX
    ensures Scan(JoinQuoted(args), Between(None, argv), strtol) ==
            if Fits(args) && |argv| + |args| <= CMD_ARGS_MAX then Command(None, argv + args) else Overflow
  {
    JoinedWords(args, true);
    WordsOf(args, true);
    ScanWords(Words(args, true), None, argv, strtol);
  }

  /**
   * Tokenizing the quoted, space-separated arguments returns exactly those arguments if they fit the
   * buffers, and is refused as too long otherwise; no other outcome is possible.
   */
  lemma {:induction false} QuotedArgumentsRoundTrip(args: seq<seq<byte>>, strtol: NumberParser)
    requires args != []
    ensures Scan(JoinQuoted(args), Start(false), strtol) == if Fits(args) then Command(None, args) else Overflow
  {
    ScanJoined(args, [], strtol);
    assert [] + args == args;
  }
}
