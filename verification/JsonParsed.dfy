/** What the parser makes of an arbitrary text: the parts of a successful parse, and the trees that come out of it. */
module JsonParsed {
  import opened Common
  import opened Bits
  import opened CStrings
  import opened Occurrence
  import opened JsonString
  import opened Json
  import opened JsonParse
  import opened JsonRoundTrip

  // ----- the parts of a successful parse

  lemma {:induction false} ScalarInverse(x: Scanner, i: nat, d: nat, v: Value, e: nat)
    requires ValueIs(x, i, d, Some(Parsed(v, e))) && x.at(i) != OPEN_ARRAY && x.at(i) != OPEN_OBJECT
    ensures x.scalar(i) == Some(Parsed(v, e)) && i < e < x.size
  {
    assert ValueResult(x, i, d, Some(Parsed(v, e)), Seal);
  }

  lemma {:induction false} ArrayInverse(x: Scanner, i: nat, d: nat, v: Value, e: nat) returns (p: nat)
    requires ValueIs(x, i, d, Some(Parsed(v, e))) && x.at(i) == OPEN_ARRAY
    ensures v.Array? && d < NESTING_LIMIT && i + 1 < x.size && p == x.skip(i + 1) && i < p < x.size && i < e < x.size
    ensures if x.at(p) == CLOSE_ARRAY then v == Array(NoElements) && e == p + 1
            else ElementsAre(x, p, d + 1, Some(Parsed(v.elements, e)))
  {
    assert ValueResult(x, i, d, Some(Parsed(v, e)), Seal);
    assert ParseValue(x, i, d) == ParseArray(x, i, d);
    assert SaneAt(x, i) && SaneAt(x, i + 1);
    p := x.skip(i + 1);
  }

  lemma {:induction false} ElementsInverse(x: Scanner, i: nat, d: nat, es: Elements, e: nat)
    returns (s: nat, f: nat, p: nat)
    requires ElementsAre(x, i, d, Some(Parsed(es, e)))
    ensures es.Element? && s == x.skip(i) && i <= s < f <= p < x.size && ValueIs(x, s, d, Some(Parsed(es.value, f)))
    ensures p == x.skip(f) && (x.at(p) == COMMA || x.at(p) == CLOSE_ARRAY) && p < e < x.size
    ensures if x.at(p) == COMMA then ElementsAre(x, p + 1, d, Some(Parsed(es.next, e)))
            else es.next == NoElements && e == p + 1
  {
    assert ElementsResult(x, i, d, Some(Parsed(es, e)), Seal);
    assert SaneAt(x, i);
    s := x.skip(i);
    var v := ParseValue(x, s, d);
    f := v.value.offset;
    assert SaneAt(x, f);
    p := x.skip(f);
  }

  lemma {:induction false} ObjectInverse(x: Scanner, i: nat, d: nat, v: Value, e: nat) returns (p: nat)
    requires ValueIs(x, i, d, Some(Parsed(v, e))) && x.at(i) == OPEN_OBJECT
    ensures v.Object? && d < NESTING_LIMIT && i + 1 < x.size && p == x.skip(i + 1) && i < p < x.size && i < e < x.size
    ensures if x.at(p) == CLOSE_OBJECT then v == Object(NoMembers) && e == p + 1
            else MembersAre(x, p, d + 1, Some(Parsed(v.members, e)))
  {
    assert ValueResult(x, i, d, Some(Parsed(v, e)), Seal);
    assert ParseValue(x, i, d) == ParseObject(x, i, d);
    assert SaneAt(x, i) && SaneAt(x, i + 1);
    p := x.skip(i + 1);
  }

  lemma {:induction false} NameInverse(x: Scanner, i: nat, name: seq<byte>, q: nat) returns (a: nat, b: nat, p: nat)
    requires NameIs(x, i, name, q)
    ensures a == x.skip(i) && i <= a < b <= p < q < x.size && x.name(a) == Some(Parsed(name, b))
    ensures p == x.skip(b) && x.at(p) == COLON && p + 1 < x.size && q == x.skip(p + 1)
  {
    assert NameResult(x, i, name, q, Seal);
    assert SaneAt(x, i);
    a := x.skip(i);
    assert SaneAt(x, a);
    b := x.name(a).value.offset;
    assert SaneAt(x, b);
    p := x.skip(b);
    assert SaneAt(x, p + 1);
  }

  lemma {:induction false} MembersInverse(x: Scanner, i: nat, d: nat, ms: Members, e: nat)
    returns (q: nat, f: nat, p: nat)
    requires MembersAre(x, i, d, Some(Parsed(ms, e)))
    ensures ms.Member? && NameIs(x, i, ms.name, q) && i < q < f <= p < x.size
    ensures ValueIs(x, q, d, Some(Parsed(ms.value, f)))
    ensures p == x.skip(f) && (x.at(p) == COMMA || x.at(p) == CLOSE_OBJECT) && p < e < x.size
    ensures if x.at(p) == COMMA then MembersAre(x, p + 1, d, Some(Parsed(ms.next, e)))
            else ms.next == NoMembers && e == p + 1
  {
    assert MembersResult(x, i, d, Some(Parsed(ms, e)), Seal);
    q := ParseName(x, i).value.offset;
    var v := ParseValue(x, q, d);
    f := v.value.offset;
    assert SaneAt(x, f);
    p := x.skip(f);
  }

  // ----- trees that come out of the parser

  /** Every number of the tree prints and scans back; infinities, which overlong numbers give, do not. */
  ghost predicate FaithfulNumbers(k: NumberCodec, v: Value) {
    match v
    case Number(n) => Faithful(k, n)
    case Array(es) => FaithfulElements(k, es)
    case Object(ms) => FaithfulMembers(k, ms)
    case _ => true
  }

  ghost predicate FaithfulElements(k: NumberCodec, es: Elements) {
    es.Element? ==> FaithfulNumbers(k, es.value) && FaithfulElements(k, es.next)
  }

  ghost predicate FaithfulMembers(k: NumberCodec, ms: Members) {
    ms.Member? ==> FaithfulNumbers(k, ms.value) && FaithfulMembers(k, ms.next)
  }

  lemma {:induction false} CStringNulFree(s: seq<byte>)
    ensures 0 !in CString(s)
  {
    if s != [] && s[0] != 0 {
      CStringNulFree(s[1..]);
    }
  }

  lemma {:induction false} NameNulFree(x: Scanner, k: NumberCodec, c: seq<byte>, a: nat, name: seq<byte>, b: nat)
    requires Scans(x, k, c) && a < |c| && x.name(a) == Some(Parsed(name, b))
    ensures 0 !in name
  {
    ScanName(x, k, c, a);
    CStringNulFree(Decode(c, a + 1, StringEnd(c, a + 1).value).value);
  }

  lemma {:induction false} ScalarNulFree(x: Scanner, k: NumberCodec, c: seq<byte>, i: nat, v: Value, e: nat)
    requires Scans(x, k, c) && i < |c| && x.scalar(i) == Some(Parsed(v, e))
    ensures !v.Array? && !v.Object? && (v.String? ==> 0 !in v.text)
  {
    ScanScalar(x, k, c, i);
    if v.String? {
      CStringNulFree(Decode(c, i + 1, StringEnd(c, i + 1).value).value);
    }
  }

  /** Strings end at their first zero byte, and nesting stays within the limit. */
  lemma {:induction false} ParsedValue(x: Scanner, k: NumberCodec, c: seq<byte>, i: nat, d: nat, v: Value, e: nat)
    requires Scans(x, k, c) && ValueIs(x, i, d, Some(Parsed(v, e))) && d <= NESTING_LIMIT
    ensures d + Depth(v) <= NESTING_LIMIT && (FaithfulNumbers(k, v) ==> WellFormed(k, v))
    decreases x.size - i, 1
  {
    if x.at(i) == OPEN_ARRAY {
      var p := ArrayInverse(x, i, d, v, e);
      if x.at(p) != CLOSE_ARRAY {
        ParsedElements(x, k, c, p, d + 1, v.elements, e);
      }
    } else if x.at(i) == OPEN_OBJECT {
      var p := ObjectInverse(x, i, d, v, e);
      if x.at(p) != CLOSE_OBJECT {
        ParsedMembers(x, k, c, p, d + 1, v.members, e);
      }
    } else {
      ScalarInverse(x, i, d, v, e);
      ScalarNulFree(x, k, c, i, v, e);
    }
  }

  lemma {:induction false} ParsedElements(x: Scanner, k: NumberCodec, c: seq<byte>, i: nat, d: nat, es: Elements,
                                          e: nat)
    requires Scans(x, k, c) && ElementsAre(x, i, d, Some(Parsed(es, e))) && d <= NESTING_LIMIT
    ensures d + ElementsDepth(es) <= NESTING_LIMIT && (FaithfulElements(k, es) ==> WellFormedElements(k, es))
    decreases x.size - i, 2
  {
    var s, f, p := ElementsInverse(x, i, d, es, e);
    ParsedValue(x, k, c, s, d, es.value, f);
    if x.at(p) == COMMA {
      ParsedElements(x, k, c, p + 1, d, es.next, e);
    }
  }

  lemma {:induction false} ParsedMembers(x: Scanner, k: NumberCodec, c: seq<byte>, i: nat, d: nat, ms: Members, e: nat)
    requires Scans(x, k, c) && MembersAre(x, i, d, Some(Parsed(ms, e))) && d <= NESTING_LIMIT
    ensures d + MembersDepth(ms) <= NESTING_LIMIT && (FaithfulMembers(k, ms) ==> WellFormedMembers(k, ms))
    decreases x.size - i, 2
  {
    var q, f, p := MembersInverse(x, i, d, ms, e);
    var a, b, _ := NameInverse(x, i, ms.name, q);
    NameNulFree(x, k, c, a, ms.name, b);
    ParsedValue(x, k, c, q, d, ms.value, f);
    if x.at(p) == COMMA {
      ParsedMembers(x, k, c, p + 1, d, ms.next, e);
    }
  }

  /** The scanner of a text, and where its value stands. */
  lemma {:induction false} ParseInverse(k: NumberCodec, text: seq<byte>, terminated: bool, v: Value)
    returns (x: Scanner, c: seq<byte>, i: nat, e: nat)
    requires 0 !in text && Parse(k, text, terminated) == Some(v)
    ensures c == text + [0] && Scans(x, k, c) && i == Skip(c, Start(c)) && ValueIs(x, i, 0, Some(Parsed(v, e)))
    ensures e < |c| && (terminated ==> c[Skip(c, e)] == 0)
  {
    c := text + [0];
    x := ScannerOf(k, c);
    ScannerIsSane(k, c);
    i := Skip(c, Start(c));
    e := ParseValue(x, i, 0).value.offset;
  }

  /**
   * Whatever text it comes from, a parsed tree is nested at most `NESTING_LIMIT` deep, and if its numbers are faithful
   * it prints, in both formats, to a text that parses back to it.
   */
  lemma {:induction false} ParsedTreesRoundTrip(k: NumberCodec, text: seq<byte>, terminated: bool, v: Value, fmt: bool)
    requires 0 !in text && Parse(k, text, terminated) == Some(v)
    ensures Depth(v) <= NESTING_LIMIT
    ensures FaithfulNumbers(k, v) ==> WellFormed(k, v) && 0 !in Render(k, v, fmt, 0)
    ensures FaithfulNumbers(k, v) ==> Parse(k, Render(k, v, fmt, 0), true) == Some(v)
  {
    var x, c, i, e := ParseInverse(k, text, terminated, v);
    ParsedValue(x, k, c, i, 0, v, e);
    if FaithfulNumbers(k, v) {
      PrintParseRoundTrip(k, v, fmt, true);
    }
  }
}
