/** What `parse_value` and the functions it calls accept, as functions of the text and an offset. */
module JsonParse {
  import opened Common
  import opened Bits
  import opened CStrings
  import opened JsonString
  import opened Json

  const NESTING_LIMIT: nat := 1000

  datatype Parsed<T> = Parsed(item: T, offset: nat)

  /** The content of a parse buffer: the text with its terminator. */
  predicate Text(c: seq<byte>) {
    |c| > 0 && c[|c| - 1] == 0
  }

  /** The first position from `i` on that is not blank; the terminator counts as blank. */
  function Blank(c: seq<byte>, i: nat): (r: nat)
    requires i <= |c|
    ensures i <= r <= |c| && (r < |c| ==> c[r] > 32)
    decreases |c| - i
  {
    if i < |c| && c[i] <= 32 then Blank(c, i + 1) else i
  }

  /** `buffer_skip_whitespace`: a scan that runs off the end steps back to the last byte. */
  function Skip(c: seq<byte>, i: nat): (r: nat)
    requires i < |c|
    ensures i <= r < |c|
  {
    if Blank(c, i) == |c| then |c| - 1 else Blank(c, i)
  }

  predicate StartsWith(c: seq<byte>, i: nat, word: seq<byte>) {
    i + |word| <= |c| && c[i..i + |word|] == word
  }

  /** The number bytes from `i` on, at most 63. */
  function Token(c: seq<byte>, i: nat, room: nat): (t: seq<byte>)
    requires Text(c) && i < |c|
    ensures i + |t| < |c|
    decreases |c| - i
  {
    if room > 0 && NumberByte(c[i]) then [c[i]] + Token(c, i + 1, room - 1) else []
  }

  function ParseNumber(k: NumberCodec, c: seq<byte>, i: nat): (r: Option<Parsed<Value>>)
    requires Text(c) && i < |c|
    ensures r.Some? ==> i < r.value.offset < |c|
  {
    var t := Token(c, i, 63);
    var s := k.scan(t);
    if s.length == 0 || s.length > |t| then None else Some(Parsed(Number(s.number), i + s.length))
  }

  /** `parse_string` at an opening quote. */
  function ParseString(c: seq<byte>, i: nat): (r: Option<Parsed<seq<byte>>>)
    requires Text(c) && i < |c|
    ensures r.Some? ==> i < r.value.offset < |c|
  {
    if c[i] != QUOTE then None
    else
      var end := StringEnd(c, i + 1);
      if end.None? then None
      else
        var s := Decode(c, i + 1, end.value);
        if s.None? then None else Some(Parsed(CString(s.value), end.value + 1))
  }

  /** The values that are not arrays or objects. */
  function ParseScalar(k: NumberCodec, c: seq<byte>, i: nat): (r: Option<Parsed<Value>>)
    requires Text(c) && i < |c|
    ensures r.Some? ==> i < r.value.offset < |c|
  {
    if StartsWith(c, i, NULL_TEXT) then Some(Parsed(Null, i + 4))
    else if StartsWith(c, i, FALSE_TEXT) then Some(Parsed(False, i + 5))
    else if StartsWith(c, i, TRUE_TEXT) then Some(Parsed(True, i + 4))
    else if c[i] == QUOTE then
      var s := ParseString(c, i);
      if s.None? then None else Some(Parsed(String(s.value.item), s.value.offset))
    else if NumberStart(c[i]) then ParseNumber(k, c, i)
    else None
  }

  // ----- the grammar, over what the scanner sees at each position

  /** The scanner at every position of a text of `size` bytes. */
  datatype Scanner = Scanner(
    size: nat,
    at: nat -> byte,
    skip: nat -> nat,
    scalar: nat -> Option<Parsed<Value>>,
    name: nat -> Option<Parsed<seq<byte>>>)

  function ScannerOf(k: NumberCodec, c: seq<byte>): Scanner
    requires Text(c)
  {
    Scanner(|c|,
            (i: nat) => if i < |c| then c[i] else 0,
            (i: nat) => if i < |c| then Skip(c, i) else i,
            (i: nat) => if i < |c| then ParseScalar(k, c, i) else None,
            (i: nat) => if i < |c| then ParseString(c, i) else None)
  }

  /** Scanning moves forward and stays before the terminator. */
  ghost predicate SaneAt(x: Scanner, i: nat) {
    && x.size > 0 && i < x.size
    && i <= x.skip(i) < x.size && x.at(x.size - 1) == 0
    && (x.scalar(i).Some? ==> i < x.scalar(i).value.offset < x.size)
    && (x.name(i).Some? ==> i < x.name(i).value.offset < x.size)
  }

  ghost predicate Sane(x: Scanner) {
    forall i: nat :: i < x.size ==> SaneAt(x, i)
  }

  lemma {:induction false} ScannerIsSane(k: NumberCodec, c: seq<byte>)
    requires Text(c)
    ensures Sane(ScannerOf(k, c))
  {}

  ghost predicate ScansBody(x: Scanner, k: NumberCodec, c: seq<byte>, s: Seal)
    requires Text(c)
  {
    x == ScannerOf(k, c)
  }

  /** `x` is the scanner of the text `c`. */
  ghost predicate Scans(x: Scanner, k: NumberCodec, c: seq<byte>) {
    Text(c) && Sane(x) && x.size == |c| && forall s: Seal :: ScansBody(x, k, c, s)
  }

  lemma {:induction false} ScanAt(x: Scanner, k: NumberCodec, c: seq<byte>, i: nat)
    requires Scans(x, k, c) && i < |c|
    ensures x.at(i) == c[i]
  {
    assert ScansBody(x, k, c, Seal);
  }

  lemma {:induction false} ScanSkip(x: Scanner, k: NumberCodec, c: seq<byte>, i: nat)
    requires Scans(x, k, c) && i < |c|
    ensures x.skip(i) == Skip(c, i)
  {
    assert ScansBody(x, k, c, Seal);
  }

  lemma {:induction false} ScanScalar(x: Scanner, k: NumberCodec, c: seq<byte>, i: nat)
    requires Scans(x, k, c) && i < |c|
    ensures x.scalar(i) == ParseScalar(k, c, i)
  {
    assert ScansBody(x, k, c, Seal);
  }

  lemma {:induction false} ScanName(x: Scanner, k: NumberCodec, c: seq<byte>, i: nat)
    requires Scans(x, k, c) && i < |c|
    ensures x.name(i) == ParseString(c, i)
  {
    assert ScansBody(x, k, c, Seal);
  }

  /** `parse_value`. */
  ghost function ParseValue(x: Scanner, i: nat, depth: nat): (r: Option<Parsed<Value>>)
    requires Sane(x) && i < x.size
    ensures r.Some? ==> i < r.value.offset < x.size
    decreases x.size - i, 1
  {
    assert SaneAt(x, i);
    if x.at(i) == OPEN_ARRAY then ParseArray(x, i, depth)
    else if x.at(i) == OPEN_OBJECT then ParseObject(x, i, depth)
    else x.scalar(i)
  }

  /** `parse_array` at an opening bracket. */
  ghost function ParseArray(x: Scanner, i: nat, depth: nat): (r: Option<Parsed<Value>>)
    requires Sane(x) && i < x.size && x.at(i) == OPEN_ARRAY
    ensures r.Some? ==> i < r.value.offset < x.size
    decreases x.size - i, 0
  {
    assert SaneAt(x, i) && SaneAt(x, i + 1);
    var p := x.skip(i + 1);
    if depth >= NESTING_LIMIT then None
    else if x.at(p) == CLOSE_ARRAY then Some(Parsed(Array(NoElements), p + 1))
    else
      var es := ParseElements(x, p, depth + 1);
      if es.None? then None else Some(Parsed(Array(es.value.item), es.value.offset))
  }

  /** The elements from the one at or after `i` on, and the closing bracket. */
  ghost function ParseElements(x: Scanner, i: nat, depth: nat): (r: Option<Parsed<Elements>>)
    requires Sane(x) && i < x.size
    ensures r.Some? ==> i < r.value.offset < x.size
    decreases x.size - i, 2
  {
    assert SaneAt(x, i);
    var v := ParseValue(x, x.skip(i), depth);
    if v.None? then None
    else
      assert SaneAt(x, v.value.offset);
      var p := x.skip(v.value.offset);
      if x.at(p) == COMMA then
        var next := ParseElements(x, p + 1, depth);
        if next.None? then None else Some(Parsed(Element(v.value.item, next.value.item), next.value.offset))
      else if x.at(p) == CLOSE_ARRAY then Some(Parsed(Element(v.value.item, NoElements), p + 1))
      else None
  }

  /** `parse_object` at an opening brace. */
  ghost function ParseObject(x: Scanner, i: nat, depth: nat): (r: Option<Parsed<Value>>)
    requires Sane(x) && i < x.size && x.at(i) == OPEN_OBJECT
    ensures r.Some? ==> i < r.value.offset < x.size
    decreases x.size - i, 0
  {
    assert SaneAt(x, i) && SaneAt(x, i + 1);
    var p := x.skip(i + 1);
    if depth >= NESTING_LIMIT then None
    else if x.at(p) == CLOSE_OBJECT then Some(Parsed(Object(NoMembers), p + 1))
    else
      var ms := ParseMembers(x, p, depth + 1);
      if ms.None? then None else Some(Parsed(Object(ms.value.item), ms.value.offset))
  }

  /** The name of a member at or after `i`, and the position of its value behind the colon. */
  ghost function ParseName(x: Scanner, i: nat): (r: Option<Parsed<seq<byte>>>)
    requires Sane(x) && i < x.size
    ensures r.Some? ==> i < r.value.offset < x.size
  {
    assert SaneAt(x, i) && SaneAt(x, x.skip(i));
    var name := x.name(x.skip(i));
    if name.None? then None
    else
      assert SaneAt(x, name.value.offset);
      var p := x.skip(name.value.offset);
      if x.at(p) != COLON then None
      else assert SaneAt(x, p + 1); Some(Parsed(name.value.item, x.skip(p + 1)))
  }

  /** The members from the one at or after `i` on, and the closing brace. */
  ghost function ParseMembers(x: Scanner, i: nat, depth: nat): (r: Option<Parsed<Members>>)
    requires Sane(x) && i < x.size
    ensures r.Some? ==> i < r.value.offset < x.size
    decreases x.size - i, 2
  {
    var name := ParseName(x, i);
    if name.None? then None
    else
      var v := ParseValue(x, name.value.offset, depth);
      if v.None? then None
      else
        assert SaneAt(x, v.value.offset);
        var p := x.skip(v.value.offset);
        if x.at(p) == COMMA then
          var next := ParseMembers(x, p + 1, depth);
          if next.None? then None
          else Some(Parsed(Member(name.value.item, v.value.item, next.value.item), next.value.offset))
        else if x.at(p) == CLOSE_OBJECT then Some(Parsed(Member(name.value.item, v.value.item, NoMembers), p + 1))
        else None
  }

  /** Where parsing starts: behind a byte order mark, if there is one. */
  function Start(c: seq<byte>): (i: nat)
    requires |c| > 0
    ensures i < |c|
  {
    if |c| > 4 && c[0] == 0xEF && c[1] == 0xBB && c[2] == 0xBF then 3 else 0
  }

  /** `cJSON_ParseWithOpts` on a text without zero bytes. */
  ghost function Parse(k: NumberCodec, text: seq<byte>, requireTerminated: bool): Option<Value>
    requires 0 !in text
  {
    var c := text + [0];
    ScannerIsSane(k, c);
    var v := ParseValue(ScannerOf(k, c), Skip(c, Start(c)), 0);
    if v.None? then None
    else if requireTerminated && c[Skip(c, v.value.offset)] != 0 then None
    else Some(v.value.item)
  }
}
