/** The parser of cJSON over a `parse_buffer`: it computes the functions of `JsonParse`. */
module JsonParser {
  import opened Common
  import opened Bits
  import opened CStrings
  import opened JsonString
  import opened Json
  import opened JsonParse

  // ----- escapes

  /** The value of the first `n` of the hexadecimal digits at `i`. */
  function HexPrefix(c: seq<byte>, i: nat, n: nat): nat
    requires i + n <= |c| && forall j :: i <= j < i + n ==> HexValue(c[j]).Some?
  {
    if n == 0 then 0 else 16 * HexPrefix(c, i, n - 1) + HexValue(c[i + n - 1]).value
  }

  lemma {:induction false} HexPrefixFour(c: seq<byte>, i: nat)
    requires i + 4 <= |c| && forall j :: i <= j < i + 4 ==> HexValue(c[j]).Some?
    ensures HexPrefix(c, i, 4) == Hex4(c[i], c[i + 1], c[i + 2], c[i + 3])
  {
    assert HexPrefix(c, i, 1) == HexValue(c[i]).value;
    assert HexPrefix(c, i, 2) == 16 * HexValue(c[i]).value + HexValue(c[i + 1]).value;
    assert HexPrefix(c, i, 3) == 16 * HexPrefix(c, i, 2) + HexValue(c[i + 2]).value;
  }

  /** `parse_hex4`. */
  method ParseHex4(c: seq<byte>, at: nat) returns (h: nat)
    requires at + 4 <= |c|
    ensures h == Hex4(c[at], c[at + 1], c[at + 2], c[at + 3])
  {
    h := 0;
    var i := 0;
    while i < 4
      invariant 0 <= i <= 4 && forall j :: at <= j < at + i ==> HexValue(c[j]).Some?
      invariant h == (if i < 4 then 16 else 1) * HexPrefix(c, at, i)
    {
      var b := c[at + i];
      if 48 <= b <= 57 {
        h := h + (b - 48);
      } else if 65 <= b <= 70 {
        h := h + (10 + b - 65);
      } else if 97 <= b <= 102 {
        h := h + (10 + b - 97);
      } else {
        return 0;
      }
      assert h == HexPrefix(c, at, i + 1);
      if i < 3 {
        h := h * 16;
      }
      i := i + 1;
    }
    HexPrefixFour(c, at);
  }

  /** The bytes of a code point, written from the last to the first. */
  method EncodeUtf8(output: array<byte>, q: nat, codepoint: nat) returns (length: nat)
    requires codepoint <= 0x10FFFF && q + |Utf8(codepoint)| <= output.Length
    modifies output
    ensures length == |Utf8(codepoint)| && output[..q + length] == old(output[..q]) + Utf8(codepoint)
  {
    var cp, mark := codepoint, 0;
    if cp < 0x80 {
      length := 1;
    } else if cp < 0x800 {
      length, mark := 2, 0xC0;
    } else if cp < 0x10000 {
      length, mark := 3, 0xE0;
    } else {
      length, mark := 4, 0xF0;
    }
    cp := EncodeTail(output, q, codepoint, length);
    Utf8First(codepoint, mark);
    output[q] := mark + cp;
    WrittenAt(old(output[..]), output[..], q, Utf8(codepoint));
  }

  /** All bytes of a code point but the first, from the last one back; what is left of it goes into the first. */
  method EncodeTail(output: array<byte>, q: nat, codepoint: nat, length: nat) returns (cp: nat)
    requires codepoint <= 0x10FFFF && length == |Utf8(codepoint)| && q + length <= output.Length
    modifies output
    ensures cp == Shifted(codepoint, length - 1)
    ensures forall i :: 0 < i < length ==> output[q + i] == Utf8(codepoint)[i]
    ensures forall i :: 0 <= i < q ==> output[i] == old(output[i])
  {
    ghost var bytes := Utf8(codepoint);
    cp := codepoint;
    var position := length - 1;
    while position > 0
      invariant 0 <= position < length && cp == Shifted(codepoint, length - 1 - position)
      invariant forall i :: position < i < length ==> output[q + i] == bytes[i]
      invariant forall i :: 0 <= i < q ==> output[i] == old(output[i])
    {
      Utf8Tail(codepoint, position);
      output[q + position] := 0x80 + cp % 64;
      cp := cp / 64;
      position := position - 1;
    }
  }

  lemma {:induction false} WrittenAt(before: seq<byte>, after: seq<byte>, q: nat, bytes: seq<byte>)
    requires |before| == |after| && q + |bytes| <= |after|
    requires forall i :: 0 <= i < q ==> after[i] == before[i]
    requires forall i :: 0 <= i < |bytes| ==> after[q + i] == bytes[i]
    ensures after[..q + |bytes|] == before[..q] + bytes
  {
    assert forall i :: q <= i < q + |bytes| ==> after[i] == bytes[i - q];
  }

  /** A code point after `n` shifts by six bits. */
  function Shifted(cp: nat, n: nat): nat {
    if n == 0 then cp else Shifted(cp, n - 1) / 64
  }

  lemma {:induction false} Shifts(cp: nat)
    ensures Shifted(cp, 1) == cp / 64 && Shifted(cp, 2) == cp / 4096 && Shifted(cp, 3) == cp / 262144
  {
    assert Shifted(cp, 0) == cp;
    assert cp / 64 / 64 == cp / 4096 && cp / 4096 / 64 == cp / 262144;
  }

  lemma {:induction false} Utf8Tail(cp: nat, position: nat)
    requires cp <= 0x10FFFF && 0 < position < |Utf8(cp)|
    ensures Utf8(cp)[position] == 0x80 + Shifted(cp, |Utf8(cp)| - 1 - position) % 64
  {
    Shifts(cp);
  }

  lemma {:induction false} Utf8First(cp: nat, mark: nat)
    requires cp <= 0x10FFFF && mark == match |Utf8(cp)| case 1 => 0 case 2 => 0xC0 case 3 => 0xE0 case _ => 0xF0
    ensures Utf8(cp)[0] == mark + Shifted(cp, |Utf8(cp)| - 1)
  {
    Shifts(cp);
  }

  /** The first half of `utf16_literal_to_utf8`; a length of zero tells that there is no valid sequence. */
  method ReadCodePoint(c: seq<byte>, p: nat, end: nat) returns (length: nat, codepoint: nat)
    requires p <= end <= |c|
    ensures CodePointAt(c, p, end) == if length == 0 then None else Some(CodePoint(codepoint, length))
  {
    if end - p < 6 {
      return 0, 0;
    }
    var first := ParseHex4(c, p + 2);
    if 0xDC00 <= first <= 0xDFFF {
      return 0, 0;
    }
    if 0xD800 <= first <= 0xDBFF {
      if end - (p + 6) < 6 || c[p + 6] != BACKSLASH || c[p + 7] != 117 {
        return 0, 0;
      }
      var second := ParseHex4(c, p + 8);
      if second < 0xDC00 || second > 0xDFFF {
        return 0, 0;
      }
      return 12, FromSurrogates(first, second);
    }
    return 6, first;
  }

  /** `utf16_literal_to_utf8`: the length of the sequence, zero if it is not one, and the cursor behind its bytes. */
  method Utf16ToUtf8(c: seq<byte>, p: nat, end: nat, output: array<byte>, q: nat) returns (length: nat, q': nat)
    requires p <= end <= |c| && q <= output.Length
    requires Utf16Literal(c, p, end).Some? ==> q + |Utf16Literal(c, p, end).value.bytes| <= output.Length
    modifies output
    ensures Utf16Literal(c, p, end).None? ==> length == 0
    ensures Utf16Literal(c, p, end).Some? ==>
              var l := Utf16Literal(c, p, end).value;
              && length == l.length && q' == q + |l.bytes| <= output.Length
              && output[..q'] == old(output[..q]) + l.bytes
  {
    var codepoint;
    length, codepoint := ReadCodePoint(c, p, end);
    q' := q;
    if length != 0 {
      var written := EncodeUtf8(output, q, codepoint);
      q' := q + written;
    }
  }

  /** The outcome of a parsing method agrees with what its function gives. */
  ghost predicate Agrees<T>(r: Option<Parsed<T>>, ok: bool, item: T, offset: nat) {
    ok == r.Some? && (ok ==> item == r.value.item && offset == r.value.offset)
  }

  /** `parse_buffer`. */
  class ParseBuffer {
    const content: seq<byte>
    const k: NumberCodec
    var offset: nat
    var depth: nat

    ghost predicate Valid()
      reads this
    {
      Text(content) && offset < |content|
    }

    constructor (k: NumberCodec, content: seq<byte>)
      requires Text(content)
      ensures Valid() && this.content == content && this.k == k && offset == 0 && depth == 0
    {
      this.content, this.k, offset, depth := content, k, 0, 0;
    }

    /** `buffer_skip_whitespace`. */
    method SkipWhitespace()
      requires Valid()
      modifies this`offset
      ensures Valid() && offset == Skip(content, old(offset)) && offset >= old(offset)
    {
      while offset < |content| && content[offset] <= 32
        invariant old(offset) <= offset <= |content| && Blank(content, offset) == Blank(content, old(offset))
      {
        offset := offset + 1;
      }
      if offset == |content| {
        offset := offset - 1;
      }
    }

    /** The first pass over a string literal: its end, and how many bytes its escapes save. */
    method MeasureString(start: nat) returns (ok: bool, end: nat, skipped: nat)
      requires Text(content) && start <= |content|
      ensures ok == StringEnd(content, start).Some?
      ensures ok ==> end == StringEnd(content, start).value && skipped == Starts(content, start, end)
    {
      end, skipped := start, 0;
      ghost var result := StringEnd(content, start);
      while end < |content| && content[end] != QUOTE
        invariant start <= end <= |content| && StringEnd(content, end) == result
        invariant result.Some? ==> skipped + Starts(content, end, result.value) == Starts(content, start, result.value)
      {
        if content[end] == BACKSLASH {
          if end + 1 >= |content| {
            return false, end, skipped;
          }
          skipped := skipped + 1;
          end := end + 1;
        }
        end := end + 1;
      }
      ok := end < |content| && content[end] == QUOTE;
    }

    /** The bytes written so far and the rest of the text make up the result, and the bound on the output holds. */
    ghost predicate Decoding(start: nat, p: nat, end: nat, output: seq<byte>, result: Option<seq<byte>>)
      requires end < |content|
    {
      && start <= p <= end + 1 && Bounded(content, start, p, |output|)
      && result == Prepend(output, Decode(content, p, end))
    }

    /**
     * The second pass: decodes the literal from `start` to `end` into an output of the size that the first pass
     * computed. Every write stays inside it, whatever the text.
     */
    method DecodeString(start: nat, end: nat, output: array<byte>) returns (ok: bool, length: nat)
      requires Text(content) && StringEnd(content, start) == Some(end)
      requires output.Length == AllocationLength(content, start, end)
      modifies output
      ensures ok == Decode(content, start, end).Some?
      ensures ok ==> length < output.Length && output[length] == 0
      ensures ok ==> output[..length] == Decode(content, start, end).value
    {
      var p, q := start, 0;
      ghost var result := Decode(content, start, end);
      assert output[..0] == [];
      PrependNothing(result);
      while p < end
        invariant 0 <= q <= output.Length && p <= end + 1 && Decoding(start, p, end, output[..q], result)
        decreases end + 2 - p
      {
        if content[p] != BACKSLASH {
          p, q := CopyByte(start, p, end, output, q, result);
        } else {
          ok, p, q := CopyEscape(start, p, end, output, q, result);
          if !ok {
            return false, 0;
          }
        }
      }
      BoundFits(content, start, p, end, q);
      output[q] := 0;
      ok, length := true, q;
    }

    method CopyByte(ghost start: nat, p: nat, ghost end: nat, output: array<byte>, q: nat,
                    ghost result: Option<seq<byte>>)
      returns (p': nat, q': nat)
      requires Text(content) && StringEnd(content, start) == Some(end) && p < end && content[p] != BACKSLASH
      requires output.Length == AllocationLength(content, start, end) && q <= output.Length
      requires Decoding(start, p, end, output[..q], result)
      modifies output
      ensures p' == p + 1 && q' <= output.Length && Decoding(start, p', end, output[..q'], result)
    {
      BoundFits(content, start, p, end, q);
      CopyKeepsBound(content, start, p, q);
      PrependMore(output[..q], [content[p]], Decode(content, p + 1, end));
      q' := Put(output, q, content[p]);
      p' := p + 1;
    }

    method CopyEscape(ghost start: nat, p: nat, end: nat, output: array<byte>, q: nat, ghost result: Option<seq<byte>>)
      returns (ok: bool, p': nat, q': nat)
      requires Text(content) && StringEnd(content, start) == Some(end) && p < end && content[p] == BACKSLASH
      requires output.Length == AllocationLength(content, start, end) && q <= output.Length
      requires Decoding(start, p, end, output[..q], result)
      modifies output
      ensures q' <= output.Length && p < p' <= end + 1
      ensures if ok then Decoding(start, p', end, output[..q'], result) else result.None?
    {
      if EscapeAt(content, p, end).Some? {
        var l := EscapeAt(content, p, end).value;
        PrependMore(output[..q], l.bytes, Decode(content, p + l.length, end));
      }
      var length;
      ok, length, q' := DecodeEscape(start, p, end, output, q);
      p' := if ok then p + length else p + 1;
    }

    /** One escape sequence. */
    method DecodeEscape(ghost start: nat, p: nat, end: nat, output: array<byte>, q: nat) returns (ok: bool,
                        length: nat, q': nat)
      requires Text(content) && StringEnd(content, start) == Some(end) && p < end && content[p] == BACKSLASH
      requires output.Length == AllocationLength(content, start, end) && Bounded(content, start, p, q) &&
               q <= output.Length
      modifies output
      ensures ok == EscapeAt(content, p, end).Some? && q' <= output.Length
      ensures ok ==>
                var l := EscapeAt(content, p, end).value;
                && length == l.length && q' == q + |l.bytes| && output[..q'] == old(output[..q]) + l.bytes
                && Bounded(content, start, p + length, q') && p + length <= end + 1
    {
      if EscapeAt(content, p, end).Some? {
        EscapeKeepsBound(content, start, p, end, q);
        var l := EscapeAt(content, p, end).value;
        BoundFits(content, start, p + l.length, end, q + |l.bytes|);
      }
      ok, length, q' := true, 2, q;
      match content[p + 1] {
        case 98 => q' := Put(output, q, 8);
        case 102 => q' := Put(output, q, 12);
        case 110 => q' := Put(output, q, 10);
        case 114 => q' := Put(output, q, 13);
        case 116 => q' := Put(output, q, 9);
        case 34 => q' := Put(output, q, content[p + 1]);
        case 92 => q' := Put(output, q, content[p + 1]);
        case 47 => q' := Put(output, q, content[p + 1]);
        case 117 =>
          length, q' := Utf16ToUtf8(content, p, end, output, q);
          ok := length != 0;
          if !ok {
            q' := q;
          }
        case _ =>
          ok := false;
      }
    }

    /** `parse_string`. */
    method ParseStringLiteral() returns (ok: bool, text: seq<byte>)
      requires Valid()
      modifies this`offset
      ensures Agrees(ParseString(content, old(offset)), ok, text, offset)
    {
      text := [];
      if content[offset] != QUOTE {
        return false, text;
      }
      var start, end, skipped := offset + 1, 0, 0;
      ok, end, skipped := MeasureString(start);
      if !ok {
        return false, text;
      }
      var allocation := end - offset - skipped;
      BoundFits(content, start, start, end, 0);
      var output := new byte[allocation + 1];
      var length;
      ok, length := DecodeString(start, end, output);
      if !ok {
        return false, text;
      }
      text := CString(output[..length]);
      offset := end + 1;
    }

    /** The number bytes from the offset on, at most `room` of them. */
    method ReadToken(room: nat) returns (token: seq<byte>)
      requires Valid()
      ensures token == Token(content, offset, room)
    {
      var i := 0;
      token := [];
      while i < room && offset + i < |content| && NumberByte(content[offset + i])
        invariant 0 <= i <= room && offset + i < |content| && i == |token|
        invariant Token(content, offset, room) == token + Token(content, offset + i, room - i)
      {
        TokenStep(content, offset + i, room - i, token);
        token := token + [content[offset + i]];
        i := i + 1;
      }
      assert token + Token(content, offset + i, room - i) == token;
    }

    /** `parse_number`. */
    method ParseNumberLiteral() returns (ok: bool, item: Value)
      requires Valid()
      modifies this`offset
      ensures Agrees(ParseNumber(k, content, old(offset)), ok, item, offset)
    {
      var token := ReadToken(63);
      var s := k.scan(token);
      if s.length == 0 || s.length > |token| {
        return false, Null;
      }
      offset := offset + s.length;
      return true, Number(s.number);
    }

    /** The values of `parse_value` that are not arrays or objects. */
    method ParseScalarValue() returns (ok: bool, item: Value)
      requires Valid()
      modifies this`offset
      ensures Agrees(ParseScalar(k, content, old(offset)), ok, item, offset)
    {
      if StartsWith(content, offset, NULL_TEXT) {
        offset := offset + 4;
        return true, Null;
      }
      if StartsWith(content, offset, FALSE_TEXT) {
        offset := offset + 5;
        return true, False;
      }
      if StartsWith(content, offset, TRUE_TEXT) {
        offset := offset + 4;
        return true, True;
      }
      if content[offset] == QUOTE {
        var text;
        ok, text := ParseStringLiteral();
        return ok, String(text);
      }
      if NumberStart(content[offset]) {
        ok, item := ParseNumberLiteral();
        return;
      }
      return false, Null;
    }

    /** `parse_value`. */
    method ParseItem(ghost x: Scanner) returns (ok: bool, item: Value)
      requires Valid() && Scans(x, k, content)
      modifies this
      ensures Agrees(ParseValue(x, old(offset), old(depth)), ok, item, offset)
      ensures ok ==> depth == old(depth)
      decreases |content| - offset, 1
    {
      ScanAt(x, k, content, offset);
      if content[offset] == OPEN_ARRAY {
        ok, item := ParseArrayItem(x);
      } else if content[offset] == OPEN_OBJECT {
        ok, item := ParseObjectItem(x);
      } else {
        ScanScalar(x, k, content, offset);
        ok, item := ParseScalarValue();
      }
    }

    /** `buffer_skip_whitespace`, in terms of the scanner. */
    method SkipBlank(ghost x: Scanner)
      requires Valid() && Scans(x, k, content)
      modifies this`offset
      ensures Valid() && offset == x.skip(old(offset)) >= old(offset)
    {
      ScanSkip(x, k, content, offset);
      SkipWhitespace();
    }

    /** `parse_array`. */
    method ParseArrayItem(ghost x: Scanner) returns (ok: bool, item: Value)
      requires Valid() && Scans(x, k, content) && x.at(offset) == OPEN_ARRAY
      modifies this
      ensures Agrees(ParseArray(x, old(offset), old(depth)), ok, item, offset)
      ensures ok ==> depth == old(depth)
      decreases |content| - offset, 0
    {
      if depth >= NESTING_LIMIT {
        return false, Null;
      }
      depth := depth + 1;
      BeforeEnd(x, k, content, offset);
      offset := offset + 1;
      SkipBlank(x);
      ScanAt(x, k, content, offset);
      if content[offset] == CLOSE_ARRAY {
        depth := depth - 1;
        offset := offset + 1;
        return true, Array(NoElements);
      }
      var head;
      ok, head := ParseElementList(x);
      if ok {
        depth := depth - 1;
      }
      return ok, Array(head);
    }

    /** One turn of the loop of `parse_array`, from the byte before an element to the one behind it. */
    method ParseOneElement(ghost x: Scanner, head: Elements, ghost r: Option<Parsed<Elements>>) returns (ok: bool,
                           head': Elements)
      requires Scans(x, k, content) && offset + 1 < |content| && ElementsPending(x, offset + 1, depth, head, r)
      modifies this
      ensures !ok ==> r.None?
      ensures ok ==> Valid() && offset > old(offset) && depth == old(depth)
      ensures ok && content[offset] == COMMA ==> offset + 1 < |content|
      ensures ok && content[offset] == COMMA ==> ElementsPending(x, offset + 1, depth, head', r)
      ensures ok && content[offset] == CLOSE_ARRAY ==> r == Some(Parsed(head', offset + 1))
      ensures ok && content[offset] != COMMA && content[offset] != CLOSE_ARRAY ==> r.None?
      decreases |content| - (offset + 1), 2
    {
      head' := head;
      offset := offset + 1;
      ghost var j := offset;
      SkipBlank(x);
      ElementTurn(x, j, depth, head, r, ParseValue(x, offset, depth));
      var item;
      ok, item := ParseItem(x);
      if !ok {
        return;
      }
      head' := AppendElement(head, item);
      SkipBlank(x);
      ScanAt(x, k, content, offset);
    }

    /** The loop of `parse_array` over the elements, from the first of them on. */
    method ParseElementList(ghost x: Scanner) returns (ok: bool, head: Elements)
      requires Valid() && Scans(x, k, content) && offset > 0
      modifies this
      ensures Agrees(ParseElements(x, old(offset), old(depth)), ok, head, offset)
      ensures ok ==> depth == old(depth)
      decreases |content| - offset, 3
    {
      head := NoElements;
      offset := offset - 1;
      ghost var r := ParseElements(x, offset + 1, depth);
      StartElements(x, offset + 1, depth, r);
      while true
        invariant offset + 1 < |content| && offset + 1 >= old(offset) && depth == old(depth)
        invariant ElementsPending(x, offset + 1, depth, head, r)
        decreases |content| - offset
      {
        ok, head := ParseOneElement(x, head, r);
        if !ok {
          return;
        }
        if content[offset] != COMMA {
          break;
        }
      }
      if content[offset] != CLOSE_ARRAY {
        return false, head;
      }
      offset := offset + 1;
      ok := true;
    }

    /** `parse_object`. */
    method ParseObjectItem(ghost x: Scanner) returns (ok: bool, item: Value)
      requires Valid() && Scans(x, k, content) && x.at(offset) == OPEN_OBJECT
      modifies this
      ensures Agrees(ParseObject(x, old(offset), old(depth)), ok, item, offset)
      ensures ok ==> depth == old(depth)
      decreases |content| - offset, 0
    {
      if depth >= NESTING_LIMIT {
        return false, Null;
      }
      depth := depth + 1;
      BeforeEnd(x, k, content, offset);
      offset := offset + 1;
      SkipBlank(x);
      ScanAt(x, k, content, offset);
      if content[offset] == CLOSE_OBJECT {
        depth := depth - 1;
        offset := offset + 1;
        return true, Object(NoMembers);
      }
      var head;
      ok, head := ParseMemberList(x);
      if ok {
        depth := depth - 1;
      }
      return ok, Object(head);
    }

    /** The name of a member and its colon. */
    method ParseMemberName(ghost x: Scanner) returns (ok: bool, name: seq<byte>)
      requires Valid() && Scans(x, k, content)
      modifies this`offset
      ensures Agrees(ParseName(x, old(offset)), ok, name, offset) && (ok ==> Valid())
    {
      SkipBlank(x);
      ScanName(x, k, content, offset);
      ok, name := ParseStringLiteral();
      if !ok {
        return;
      }
      SkipBlank(x);
      ScanAt(x, k, content, offset);
      if content[offset] != COLON {
        return false, name;
      }
      BeforeEnd(x, k, content, offset);
      offset := offset + 1;
      SkipBlank(x);
    }

    /** One turn of the loop of `parse_object`. */
    method ParseOneMember(ghost x: Scanner, head: Members, ghost r: Option<Parsed<Members>>) returns (ok: bool,
                          head': Members)
      requires Scans(x, k, content) && offset + 1 < |content| && MembersPending(x, offset + 1, depth, head, r)
      modifies this
      ensures !ok ==> r.None?
      ensures ok ==> Valid() && offset > old(offset) && depth == old(depth)
      ensures ok && content[offset] == COMMA ==> offset + 1 < |content|
      ensures ok && content[offset] == COMMA ==> MembersPending(x, offset + 1, depth, head', r)
      ensures ok && content[offset] == CLOSE_OBJECT ==> r == Some(Parsed(head', offset + 1))
      ensures ok && content[offset] != COMMA && content[offset] != CLOSE_OBJECT ==> r.None?
      decreases |content| - (offset + 1), 2
    {
      head' := head;
      offset := offset + 1;
      ghost var j := offset;
      var name;
      ok, name := ParseMemberName(x);
      if !ok {
        MemberTurn(x, j, depth, head, r, ParseName(x, j), None);
        return;
      }
      ok, head' := ParseMemberValue(x, head, name, r, j);
    }

    /** The value of the member whose name was read from `j` on. */
    method ParseMemberValue(ghost x: Scanner, head: Members, name: seq<byte>, ghost r: Option<Parsed<Members>>,
                            ghost j: nat)
      returns (ok: bool, head': Members)
      requires Valid() && Scans(x, k, content) && MembersPending(x, j, depth, head, r)
      requires ParseName(x, j) == Some(Parsed(name, offset))
      modifies this
      ensures !ok ==> r.None?
      ensures ok ==> Valid() && offset > old(offset) && depth == old(depth)
      ensures ok && content[offset] == COMMA ==> offset + 1 < |content|
      ensures ok && content[offset] == COMMA ==> MembersPending(x, offset + 1, depth, head', r)
      ensures ok && content[offset] == CLOSE_OBJECT ==> r == Some(Parsed(head', offset + 1))
      ensures ok && content[offset] != COMMA && content[offset] != CLOSE_OBJECT ==> r.None?
      decreases |content| - offset, 2
    {
      head' := head;
      MemberTurn(x, j, depth, head, r, Some(Parsed(name, offset)), ParseValue(x, offset, depth));
      var item;
      ok, item := ParseItem(x);
      if !ok {
        return;
      }
      head' := AppendMember(head, name, item);
      SkipBlank(x);
      ScanAt(x, k, content, offset);
    }

    /** The loop of `parse_object` over the members, from the first of them on. */
    method ParseMemberList(ghost x: Scanner) returns (ok: bool, head: Members)
      requires Valid() && Scans(x, k, content) && offset > 0
      modifies this
      ensures Agrees(ParseMembers(x, old(offset), old(depth)), ok, head, offset)
      ensures ok ==> depth == old(depth)
      decreases |content| - offset, 3
    {
      head := NoMembers;
      offset := offset - 1;
      ghost var r := ParseMembers(x, offset + 1, depth);
      StartMembers(x, offset + 1, depth, r);
      while true
        invariant offset + 1 < |content| && offset + 1 >= old(offset) && depth == old(depth)
        invariant MembersPending(x, offset + 1, depth, head, r)
        decreases |content| - offset
      {
        ok, head := ParseOneMember(x, head, r);
        if !ok {
          return;
        }
        if content[offset] != COMMA {
          break;
        }
      }
      if content[offset] != CLOSE_OBJECT {
        return false, head;
      }
      offset := offset + 1;
      ok := true;
    }
  }

  /** A byte that is not the terminator has another behind it. */
  lemma {:induction false} BeforeEnd(x: Scanner, k: NumberCodec, c: seq<byte>, i: nat)
    requires Scans(x, k, c) && i < |c| && x.at(i) != 0
    ensures i + 1 < |c|
  {
    ScanAt(x, k, c, i);
  }

  lemma {:induction false} TokenStep(c: seq<byte>, i: nat, room: nat, token: seq<byte>)
    requires Text(c) && i < |c| && room > 0 && NumberByte(c[i])
    ensures i + 1 < |c| && token + Token(c, i, room) == token + [c[i]] + Token(c, i + 1, room - 1)
  {}

  // ----- lists under construction

  /** `es` with `v` linked in behind its last element. */
  function AppendElement(es: Elements, v: Value): Elements {
    if es.NoElements? then Element(v, NoElements) else Element(es.value, AppendElement(es.next, v))
  }

  function JoinElements(es: Elements, rest: Elements): Elements {
    if es.NoElements? then rest else Element(es.value, JoinElements(es.next, rest))
  }

  lemma {:induction false} JoinAppended(es: Elements, v: Value, rest: Elements)
    ensures JoinElements(AppendElement(es, v), rest) == JoinElements(es, Element(v, rest))
  {
    if es.Element? {
      JoinAppended(es.next, v, rest);
    }
  }

  lemma {:induction false} JoinNoElements(es: Elements)
    ensures JoinElements(es, NoElements) == es
  {
    if es.Element? {
      JoinNoElements(es.next);
    }
  }

  function AppendMember(ms: Members, name: seq<byte>, v: Value): Members {
    if ms.NoMembers? then Member(name, v, NoMembers) else Member(ms.name, ms.value, AppendMember(ms.next, name, v))
  }

  function JoinMembers(ms: Members, rest: Members): Members {
    if ms.NoMembers? then rest else Member(ms.name, ms.value, JoinMembers(ms.next, rest))
  }

  lemma {:induction false} JoinAppendedMember(ms: Members, name: seq<byte>, v: Value, rest: Members)
    ensures JoinMembers(AppendMember(ms, name, v), rest) == JoinMembers(ms, Member(name, v, rest))
  {
    if ms.Member? {
      JoinAppendedMember(ms.next, name, v, rest);
    }
  }

  lemma {:induction false} JoinNoMembers(ms: Members)
    ensures JoinMembers(ms, NoMembers) == ms
  {
    if ms.Member? {
      JoinNoMembers(ms.next);
    }
  }

  /** The result `r` of parsing the rest of a list, with the elements before it. */
  ghost function After(head: Elements, r: Option<Parsed<Elements>>): Option<Parsed<Elements>> {
    if r.None? then None else Some(Parsed(JoinElements(head, r.value.item), r.value.offset))
  }

  ghost function AfterMembers(head: Members, r: Option<Parsed<Members>>): Option<Parsed<Members>> {
    if r.None? then None else Some(Parsed(JoinMembers(head, r.value.item), r.value.offset))
  }

  ghost predicate ElementsPendingBody(x: Scanner, j: nat, d: nat, head: Elements, r: Option<Parsed<Elements>>, s: Seal)
    requires Sane(x) && j < x.size
  {
    r == After(head, ParseElements(x, j, d))
  }

  /** With `head` read, the list that gives `r` goes on at `j`. */
  ghost predicate ElementsPending(x: Scanner, j: nat, d: nat, head: Elements, r: Option<Parsed<Elements>>) {
    Sane(x) && j < x.size && forall s: Seal :: ElementsPendingBody(x, j, d, head, r, s)
  }

  ghost predicate MembersPendingBody(x: Scanner, j: nat, d: nat, head: Members, r: Option<Parsed<Members>>, s: Seal)
    requires Sane(x) && j < x.size
  {
    r == AfterMembers(head, ParseMembers(x, j, d))
  }

  ghost predicate MembersPending(x: Scanner, j: nat, d: nat, head: Members, r: Option<Parsed<Members>>) {
    Sane(x) && j < x.size && forall s: Seal :: MembersPendingBody(x, j, d, head, r, s)
  }

  lemma {:induction false} StartElements(x: Scanner, j: nat, d: nat, r: Option<Parsed<Elements>>)
    requires Sane(x) && j < x.size && r == ParseElements(x, j, d)
    ensures ElementsPending(x, j, d, NoElements, r)
  {}

  lemma {:induction false} StartMembers(x: Scanner, j: nat, d: nat, r: Option<Parsed<Members>>)
    requires Sane(x) && j < x.size && r == ParseMembers(x, j, d)
    ensures MembersPending(x, j, d, NoMembers, r)
  {}

  /** One turn of the loop over elements, on the side of the specification. */
  lemma {:induction false} ElementTurn(x: Scanner, j: nat, d: nat, head: Elements, r: Option<Parsed<Elements>>,
                                       v: Option<Parsed<Value>>)
    requires ElementsPending(x, j, d, head, r) && x.skip(j) < x.size && v == ParseValue(x, x.skip(j), d)
    ensures v.None? ==> r.None?
    ensures v.Some? ==>
              var p := x.skip(v.value.offset);
              var head' := AppendElement(head, v.value.item);
              && p < x.size
              && (x.at(p) == COMMA ==> ElementsPending(x, p + 1, d, head', r))
              && (x.at(p) == CLOSE_ARRAY ==> r == Some(Parsed(head', p + 1)))
              && (x.at(p) != COMMA && x.at(p) != CLOSE_ARRAY ==> r.None?)
  {
    assert ElementsPendingBody(x, j, d, head, r, Seal);
    if v.Some? {
      assert SaneAt(x, v.value.offset);
      var p := x.skip(v.value.offset);
      if x.at(p) == COMMA {
        assert SaneAt(x, p);
        var next := ParseElements(x, p + 1, d);
        if next.Some? {
          JoinAppended(head, v.value.item, next.value.item);
        }
      } else if x.at(p) == CLOSE_ARRAY {
        JoinAppended(head, v.value.item, NoElements);
        JoinNoElements(AppendElement(head, v.value.item));
      }
    }
  }

  /** One turn of the loop over members. */
  lemma {:induction false} MemberTurn(x: Scanner, j: nat, d: nat, head: Members, r: Option<Parsed<Members>>,
                                      name: Option<Parsed<seq<byte>>>, v: Option<Parsed<Value>>)
    requires MembersPending(x, j, d, head, r) && name == ParseName(x, j)
    requires name.Some? ==> v == ParseValue(x, name.value.offset, d)
    ensures name.None? || v.None? ==> r.None?
    ensures name.Some? && v.Some? ==>
              var p := x.skip(v.value.offset);
              var head' := AppendMember(head, name.value.item, v.value.item);
              && p < x.size
              && (x.at(p) == COMMA ==> MembersPending(x, p + 1, d, head', r))
              && (x.at(p) == CLOSE_OBJECT ==> r == Some(Parsed(head', p + 1)))
              && (x.at(p) != COMMA && x.at(p) != CLOSE_OBJECT ==> r.None?)
  {
    assert MembersPendingBody(x, j, d, head, r, Seal);
    if name.Some? && v.Some? {
      assert SaneAt(x, v.value.offset);
      var p := x.skip(v.value.offset);
      if x.at(p) == COMMA {
        assert SaneAt(x, p);
        var next := ParseMembers(x, p + 1, d);
        if next.Some? {
          JoinAppendedMember(head, name.value.item, v.value.item, next.value.item);
        }
      } else if x.at(p) == CLOSE_OBJECT {
        JoinAppendedMember(head, name.value.item, v.value.item, NoMembers);
        JoinNoMembers(AppendMember(head, name.value.item, v.value.item));
      }
    }
  }

  /** `*output_pointer++ = b`. */
  method Put(output: array<byte>, q: nat, b: byte) returns (q': nat)
    requires q < output.Length
    modifies output
    ensures q' == q + 1 && output[..q'] == old(output[..q]) + [b]
  {
    output[q] := b;
    q' := q + 1;
  }

  lemma {:induction false} PrependNothing(o: Option<seq<byte>>)
    ensures Prepend([], o) == o
  {
    if o.Some? {
      assert [] + o.value == o.value;
    }
  }

  lemma {:induction false} PrependMore(a: seq<byte>, b: seq<byte>, o: Option<seq<byte>>)
    ensures Prepend(a, Prepend(b, o)) == Prepend(a + b, o)
  {
    if o.Some? {
      assert a + (b + o.value) == a + b + o.value;
    }
  }

  /** `cJSON_ParseWithOpts`. */
  method ParseWithOpts(k: NumberCodec, text: seq<byte>, requireTerminated: bool) returns (r: Option<Value>)
    requires 0 !in text
    ensures r == Parse(k, text, requireTerminated)
  {
    var c := text + [0];
    ghost var x := ScannerOf(k, c);
    ScannerIsSane(k, c);
    var buffer := new ParseBuffer(k, c);
    if |c| > 4 && c[0] == 0xEF && c[1] == 0xBB && c[2] == 0xBF {
      buffer.offset := buffer.offset + 3;
    }
    buffer.SkipWhitespace();
    var ok, item := buffer.ParseItem(x);
    if !ok {
      return None;
    }
    if requireTerminated {
      buffer.SkipWhitespace();
      if buffer.offset >= |c| || c[buffer.offset] != 0 {
        return None;
      }
    }
    return Some(item);
  }
}
