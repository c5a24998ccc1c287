/** JSON trees and their text, as `print_value` renders it. */
module Json {
  import opened Common
  import opened Bits
  import opened CStrings
  import opened JsonString

  /** A tree; the children of an array or object form a linked list. Numbers are the bit patterns of doubles. */
  datatype Value =
    | Null
    | False
    | True
    | Number(bits: int)
    | String(text: seq<byte>)
    | Array(elements: Elements)
    | Object(members: Members)

  datatype Elements = NoElements | Element(value: Value, next: Elements)

  datatype Members = NoMembers | Member(name: seq<byte>, value: Value, next: Members)

  // ----- numbers

  /** What `strtod` recognised: the number, and how much of the text it is. */
  datatype Scanned = Scanned(number: int, length: nat)

  /** `sprintf` and `strtod`, for doubles. */
  datatype NumberCodec = NumberCodec(format: int -> seq<byte>, scan: seq<byte> -> Scanned)

  /** The bytes that `parse_number` passes on to `strtod`. */
  predicate NumberByte(b: byte) {
    48 <= b <= 57 || b == 43 || b == 45 || b == 101 || b == 69 || b == 46  // 0-9 + - e E .
  }

  predicate NumberStart(b: byte) {
    48 <= b <= 57 || b == 45
  }

  const MAX_TOKEN := 25

  /** The token of a number fits the buffer, is made of number bytes, and scans to the number. */
  ghost predicate Faithful(k: NumberCodec, n: int) {
    var t := k.format(n);
    && 0 < |t| <= MAX_TOKEN && NumberStart(t[0]) && (forall i :: 0 <= i < |t| ==> NumberByte(t[i]))
    && k.scan(t) == Scanned(n, |t|)
  }

  /** Trees that can be printed and read back: faithful numbers, and strings without zero bytes. */
  ghost predicate WellFormed(k: NumberCodec, v: Value) {
    match v
    case Number(n) => Faithful(k, n)
    case String(s) => 0 !in s
    case Array(es) => WellFormedElements(k, es)
    case Object(ms) => WellFormedMembers(k, ms)
    case _ => true
  }

  ghost predicate WellFormedElements(k: NumberCodec, es: Elements) {
    es.Element? ==> WellFormed(k, es.value) && WellFormedElements(k, es.next)
  }

  ghost predicate WellFormedMembers(k: NumberCodec, ms: Members) {
    ms.Member? ==> 0 !in ms.name && WellFormed(k, ms.value) && WellFormedMembers(k, ms.next)
  }

  /** How deeply arrays and objects are nested. */
  function Depth(v: Value): nat {
    match v
    case Array(es) => 1 + ElementsDepth(es)
    case Object(ms) => 1 + MembersDepth(ms)
    case _ => 0
  }

  function Max(a: nat, b: nat): nat {
    if a < b then b else a
  }

  function ElementsDepth(es: Elements): nat {
    if es.NoElements? then 0 else Max(Depth(es.value), ElementsDepth(es.next))
  }

  function MembersDepth(ms: Members): nat {
    if ms.NoMembers? then 0 else Max(Depth(ms.value), MembersDepth(ms.next))
  }

  // ----- rendering

  const NULL_TEXT: seq<byte> := [110, 117, 108, 108]
  const FALSE_TEXT: seq<byte> := [102, 97, 108, 115, 101]
  const TRUE_TEXT: seq<byte> := [116, 114, 117, 101]

  const COMMA: byte := 44
  const COLON: byte := 58
  const OPEN_ARRAY: byte := 91
  const CLOSE_ARRAY: byte := 93
  const OPEN_OBJECT: byte := 123
  const CLOSE_OBJECT: byte := 125
  const SPACE: byte := 32
  const TAB: byte := 9
  const NEWLINE: byte := 10

  function Tabs(n: nat): (r: seq<byte>)
    ensures |r| == n
  {
    seq(n, i => TAB)
  }

  function Separator(fmt: bool): seq<byte> { if fmt then [COMMA, SPACE] else [COMMA] }
  function Colon(fmt: bool): seq<byte> { if fmt then [COLON, TAB] else [COLON] }
  function OpenObject(fmt: bool): seq<byte> { if fmt then [OPEN_OBJECT, NEWLINE] else [OPEN_OBJECT] }
  function Indent(fmt: bool, depth: nat): seq<byte> { if fmt then Tabs(depth) else [] }

  /** The end of a member: a comma unless it is the last, and a line break. */
  function EndMember(fmt: bool, last: bool): seq<byte> {
    (if last then [] else [COMMA]) + (if fmt then [NEWLINE] else [])
  }

  function Render(k: NumberCodec, v: Value, fmt: bool, depth: nat): seq<byte>
    decreases v, 0
  {
    match v
    case Null => NULL_TEXT
    case False => FALSE_TEXT
    case True => TRUE_TEXT
    case Number(n) => k.format(n)
    case String(s) => Quoted(s)
    case Array(es) => [OPEN_ARRAY] + RenderElements(k, es, fmt, depth + 1) + [CLOSE_ARRAY]
    case Object(ms) =>
      OpenObject(fmt) + RenderMembers(k, ms, fmt, depth + 1) + (Indent(fmt, depth) + [CLOSE_OBJECT])
  }

  function RenderElements(k: NumberCodec, es: Elements, fmt: bool, depth: nat): seq<byte>
    decreases es, 0
  {
    match es
    case NoElements => []
    case Element(v, next) =>
      Render(k, v, fmt, depth) + (if next.NoElements? then [] else Separator(fmt) + RenderElements(k, next, fmt, depth))
  }

  function RenderMembers(k: NumberCodec, ms: Members, fmt: bool, depth: nat): seq<byte>
    decreases ms, 1
  {
    match ms
    case NoMembers => []
    case Member(name, v, next) => RenderMember(k, ms, fmt, depth) + RenderMembers(k, next, fmt, depth)
  }

  /** One member with its indentation and its end. */
  function RenderMember(k: NumberCodec, ms: Members, fmt: bool, depth: nat): seq<byte>
    requires ms.Member?
    decreases ms, 0
  {
    Indent(fmt, depth) + Quoted(ms.name) + Colon(fmt) + Render(k, ms.value, fmt, depth) +
    EndMember(fmt, ms.next.NoMembers?)
  }

  // ----- the layout

  /** The bytes of an array of two elements: in formatted text a space behind the comma. */
  lemma {:induction false} TwoElements(k: NumberCodec, v: Value, w: Value, fmt: bool, d: nat)
    ensures Render(k, Array(Element(v, Element(w, NoElements))), fmt, d) ==
            [91] + Render(k, v, fmt, d + 1) + (if fmt then [44, 32] else [44]) + Render(k, w, fmt, d + 1) + [93]
  {
    var a, b, s := Render(k, v, fmt, d + 1), Render(k, w, fmt, d + 1), if fmt then [44, 32] else [44];
    var last := Element(w, NoElements);
    assert RenderElements(k, last, fmt, d + 1) == b + [] == b;
    assert RenderElements(k, Element(v, last), fmt, d + 1) == a + (s + b);
    assert [91] + (a + (s + b)) + [93] == [91] + a + s + b + [93];
  }

  /** One member on a line of its own, one tab deeper than the braces, with a tab behind the colon. */
  function MemberLine(name: seq<byte>, text: seq<byte>, fmt: bool, d: nat, last: bool): seq<byte> {
    (if fmt then seq(d, i => 9) else []) + ([34] + Escape(name) + [34]) + (if fmt then [58, 9] else [58]) + text +
    ((if last then [] else [44]) + if fmt then [10] else [])
  }

  /** The bytes of an object of two members. */
  lemma {:induction false} TwoMembers(k: NumberCodec, n: seq<byte>, v: Value, m: seq<byte>, w: Value, fmt: bool, d: nat)
    ensures Render(k, Object(Member(n, v, Member(m, w, NoMembers))), fmt, d) ==
            (if fmt then [123, 10] else [123]) +
            (MemberLine(n, Render(k, v, fmt, d + 1), fmt, d + 1, false) +
             MemberLine(m, Render(k, w, fmt, d + 1), fmt, d + 1, true)) +
            ((if fmt then seq(d, i => 9) else []) + [125])
  {
    var last := Member(m, w, NoMembers);
    assert Tabs(d) == seq(d, i => 9) && Tabs(d + 1) == seq(d + 1, i => 9);
    var a, b := RenderMember(k, Member(n, v, last), fmt, d + 1), RenderMember(k, last, fmt, d + 1);
    assert a == MemberLine(n, Render(k, v, fmt, d + 1), fmt, d + 1, false);
    assert b == MemberLine(m, Render(k, w, fmt, d + 1), fmt, d + 1, true);
    assert RenderMembers(k, last, fmt, d + 1) == b + [] == b;
    assert RenderMembers(k, Member(n, v, last), fmt, d + 1) == a + b;
  }

  /** The words of the language, and the bytes of numbers. */
  lemma {:induction false} Words(k: NumberCodec, fmt: bool, d: nat, b: byte)
    ensures IsAscii(Render(k, Null, fmt, d), "null")
    ensures IsAscii(Render(k, True, fmt, d), "true")
    ensures IsAscii(Render(k, False, fmt, d), "false")
    ensures NumberByte(b) <==> exists i :: 0 <= i < 15 && "0123456789+-eE."[i] as int == b
  {
    if NumberByte(b) {
      var digits := "0123456789+-eE.";
      var i := if b == 43 then 10 else if b == 45 then 11 else if b == 101 then 12 else if b == 69 then 13
               else if b == 46 then 14 else b - 48;
      assert digits[i] as int == b;
    }
  }

  predicate IsAscii(text: seq<byte>, s: string) {
    |text| == |s| && forall i :: 0 <= i < |s| ==> text[i] == s[i] as int
  }

  /** The bytes of the containers without anything in them. */
  lemma {:induction false} PlainTexts(k: NumberCodec, fmt: bool, d: nat)
    ensures Render(k, Array(NoElements), fmt, d) == [91, 93]
    ensures Render(k, Object(NoMembers), fmt, d) ==
            if fmt then [123, 10] + seq(d, i => 9) + [125] else [123, 125]
  {
    assert [91] + [] + [93] == [91, 93];
    assert Tabs(d) == seq(d, i => 9);
    assert [123, 10] + [] + (Tabs(d) + [125]) == [123, 10] + Tabs(d) + [125];
    assert [123] + [] + ([] + [125]) == [123, 125];
  }

  // ----- zero bytes

  /** Trees that `print_value` can render: number tokens that fit its buffer, and C strings. */
  ghost predicate Printable(k: NumberCodec, v: Value) {
    match v
    case Number(n) => |k.format(n)| <= MAX_TOKEN && 0 !in k.format(n)
    case String(s) => 0 !in s
    case Array(es) => PrintableElements(k, es)
    case Object(ms) => PrintableMembers(k, ms)
    case _ => true
  }

  ghost predicate PrintableElements(k: NumberCodec, es: Elements) {
    es.Element? ==> Printable(k, es.value) && PrintableElements(k, es.next)
  }

  ghost predicate PrintableMembers(k: NumberCodec, ms: Members) {
    ms.Member? ==> 0 !in ms.name && Printable(k, ms.value) && PrintableMembers(k, ms.next)
  }

  lemma {:induction false} WellFormedPrintable(k: NumberCodec, v: Value)
    requires WellFormed(k, v)
    ensures Printable(k, v)
  {
    match v {
      case Array(es) => WellFormedPrintableElements(k, es);
      case Object(ms) => WellFormedPrintableMembers(k, ms);
      case _ =>
    }
  }

  lemma {:induction false} WellFormedPrintableElements(k: NumberCodec, es: Elements)
    requires WellFormedElements(k, es)
    ensures PrintableElements(k, es)
  {
    if es.Element? {
      WellFormedPrintable(k, es.value);
      WellFormedPrintableElements(k, es.next);
    }
  }

  lemma {:induction false} WellFormedPrintableMembers(k: NumberCodec, ms: Members)
    requires WellFormedMembers(k, ms)
    ensures PrintableMembers(k, ms)
  {
    if ms.Member? {
      WellFormedPrintable(k, ms.value);
      WellFormedPrintableMembers(k, ms.next);
    }
  }

  lemma {:induction false} EscapeNulFree(s: seq<byte>)
    requires 0 !in s
    ensures 0 !in Escape(s)
  {
    if s != [] {
      NulFreeTail(s);
      EscapeNulFree(s[1..]);
      assert 0 !in EscapeByte(s[0]);
    }
  }

  lemma {:induction false} RenderNulFree(k: NumberCodec, v: Value, fmt: bool, depth: nat)
    requires Printable(k, v)
    ensures 0 !in Render(k, v, fmt, depth)
  {
    match v {
      case String(s) => EscapeNulFree(s);
      case Array(es) => ElementsNulFree(k, es, fmt, depth + 1);
      case Object(ms) => MembersNulFree(k, ms, fmt, depth + 1);
      case _ =>
    }
  }

  lemma {:induction false} ElementsNulFree(k: NumberCodec, es: Elements, fmt: bool, depth: nat)
    requires PrintableElements(k, es)
    ensures 0 !in RenderElements(k, es, fmt, depth)
  {
    if es.Element? {
      RenderNulFree(k, es.value, fmt, depth);
      ElementsNulFree(k, es.next, fmt, depth);
    }
  }

  lemma {:induction false} MembersNulFree(k: NumberCodec, ms: Members, fmt: bool, depth: nat)
    requires PrintableMembers(k, ms)
    ensures 0 !in RenderMembers(k, ms, fmt, depth)
  {
    if ms.Member? {
      EscapeNulFree(ms.name);
      RenderNulFree(k, ms.value, fmt, depth);
      MembersNulFree(k, ms.next, fmt, depth);
      assert 0 !in RenderMember(k, ms, fmt, depth);
    }
  }
}
