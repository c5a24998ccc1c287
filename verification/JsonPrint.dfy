/**
 * Printing into a `printbuffer` that grows or has a fixed size: `ensure`, `update_offset` and the functions that
 * write. Success leaves exactly the rendering and a terminator; it depends only on the length of the rendering.
 */
module JsonPrint {
  import opened Common
  import opened Bits
  import opened JsonString
  import opened Json

  const INT_MAX: nat := 0x7FFF_FFFF

  /** What printing a value needs from its offset on: two bytes more than the text, one for a number. */
  function Demand(k: NumberCodec, v: Value, fmt: bool, depth: nat): nat {
    |Render(k, v, fmt, depth)| + if v.Number? then 1 else 2
  }

  lemma {:induction false} Assoc(a: seq<byte>, b: seq<byte>, c: seq<byte>)
    ensures a + b + c == a + (b + c)
  {}

  lemma {:induction false} EscapeAppend(s: seq<byte>, b: byte)
    ensures Escape(s + [b]) == Escape(s) + EscapeByte(b)
  {
    if s == [] {
      assert [b][1..] == [];
    } else {
      assert (s + [b])[1..] == s[1..] + [b];
      EscapeAppend(s[1..], b);
      Assoc(EscapeByte(s[0]), Escape(s[1..]), EscapeByte(b));
    }
  }

  /** The escapes add nothing exactly to a string that has none. */
  lemma {:induction false} EscapeLength(s: seq<byte>)
    ensures |Escape(s)| >= |s| && (|Escape(s)| == |s| ==> Escape(s) == s)
  {
    if s != [] {
      EscapeLength(s[1..]);
      assert s == [s[0]] + s[1..];
    }
  }

  lemma {:induction false} EscapePrefix(s: seq<byte>, i: nat)
    requires i < |s|
    ensures Escape(s[..i + 1]) == Escape(s[..i]) + EscapeByte(s[i])
    ensures |Escape(s[..i])| + |EscapeByte(s[i])| <= |Escape(s)|
  {
    assert s[..i + 1] == s[..i] + [s[i]];
    EscapeAppend(s[..i], s[i]);
    EscapeMonotone(s, i + 1);
  }

  lemma {:induction false} EscapeMonotone(s: seq<byte>, i: nat)
    requires i <= |s|
    ensures |Escape(s[..i])| <= |Escape(s)|
    decreases |s| - i
  {
    if i == |s| {
      assert s[..i] == s;
    } else {
      EscapeMonotone(s, i + 1);
      assert s[..i + 1] == s[..i] + [s[i]];
      EscapeAppend(s[..i], s[i]);
    }
  }

  class PrintBuffer {
    var buffer: array<byte>
    var length: nat
    var offset: nat
    var depth: nat
    const noalloc: bool
    const format: bool
    const k: NumberCodec

    /** No write can reach past `length`: it is the size of the buffer, or nothing has been reserved yet. */
    ghost predicate Valid()
      reads this
    {
      length <= INT_MAX && (offset < length == buffer.Length || offset == length == 0)
    }

    /** `done` is what has been printed. */
    ghost predicate At(done: seq<byte>)
      reads this, buffer
    {
      Valid() && offset == |done| && buffer[..offset] == done
    }

    /** `done` and a terminator have been printed; the offset may lag behind. */
    ghost predicate Ends(done: seq<byte>, start: nat)
      reads this, buffer
    {
      Valid() && |done| < length && start <= offset <= |done| && buffer[..|done|] == done && buffer[|done|] == 0
    }

    /** Unless the buffer has been replaced, nothing from `end` on has been written. */
    twostate predicate Kept(end: nat)
      reads this, buffer
    {
      buffer == old(buffer) ==> forall i :: end <= i < buffer.Length ==> buffer[i] == old(buffer[i])
    }

    /** How long the buffer can get. */
    ghost function Limit(): nat
      reads this
    {
      if noalloc then length else INT_MAX
    }

    constructor (k: NumberCodec, buffer: array<byte>, length: nat, noalloc: bool, format: bool)
      requires length <= INT_MAX && (length == 0 || length == buffer.Length)
      ensures At([]) && this.k == k && this.buffer == buffer && this.length == length && depth == 0
      ensures this.noalloc == noalloc && this.format == format
    {
      this.k, this.buffer, this.length, offset, depth := k, buffer, length, 0, 0;
      this.noalloc, this.format := noalloc, format;
      new;
      assert buffer[..0] == [];
    }

    /** `ensure`: room for `needed` bytes and one more at the offset, in the old buffer or in a longer copy of it. */
    method Ensure(needed: nat, ghost done: seq<byte>) returns (ok: bool)
      requires At(done)
      modifies this`buffer, this`length
      ensures ok == (|done| + needed + 1 <= old(Limit())) && Limit() == old(Limit())
      ensures ok ==> At(done) && |done| + needed + 1 <= length
      ensures buffer == old(buffer) || (!noalloc && fresh(buffer))
    {
      if length > 0 && offset >= length {
        return false;
      }
      if needed > INT_MAX {
        return false;
      }
      var total := needed + offset + 1;
      if total <= length {
        return true;
      }
      if noalloc {
        return false;
      }
      var newsize := total * 2;
      if total > INT_MAX / 2 {
        if total <= INT_MAX {
          newsize := INT_MAX;
        } else {
          return false;
        }
      }
      var newbuffer := Reallocate(newsize);
      length, buffer := newsize, newbuffer;
      ok := true;
    }

    /** `realloc`: a longer buffer that starts with the contents of the old one. */
    method Reallocate(newsize: nat) returns (newbuffer: array<byte>)
      requires offset <= buffer.Length && offset <= newsize
      ensures fresh(newbuffer) && newbuffer.Length == newsize && newbuffer[..offset] == buffer[..offset]
    {
      newbuffer := new byte[newsize];
      forall i | 0 <= i < newsize && i < buffer.Length {
        newbuffer[i] := buffer[i];
      }
    }

    /** Writes at the offset, inside the `reserved` bytes there. */
    method Write(data: seq<byte>, ghost reserved: nat, ghost done: seq<byte>)
      requires At(done) && |done| + reserved <= length && |data| <= reserved
      modifies buffer
      ensures At(done) && buffer[..|done| + |data|] == done + data
      ensures forall i :: |done| + reserved <= i < buffer.Length ==> buffer[i] == old(buffer[i])
    {
      forall i | 0 <= i < |data| {
        buffer[offset + i] := data[i];
      }
      assert buffer[..|done| + |data|] == buffer[..offset] + buffer[offset..offset + |data|];
    }

    /** A mark: reserves `needed` bytes, writes them without a terminator and moves on. */
    method Emit(needed: nat, data: seq<byte>, ghost done: seq<byte>) returns (ok: bool)
      requires At(done) && |data| <= needed
      modifies this`buffer, this`length, this`offset, buffer
      ensures ok == (|done| + needed + 1 <= old(Limit())) && Limit() == old(Limit())
      ensures ok ==> At(done + data)
      ensures buffer == old(buffer) || (!noalloc && fresh(buffer))
      ensures ok ==> Kept(|done| + needed + 1)
    {
      ok := Ensure(needed, done);
      if ok {
        Write(data, needed + 1, done);
        offset := offset + |data|;
      }
    }

    /** An opening bracket or brace; `demand` bounds what the whole value needs. */
    method Open(needed: nat, data: seq<byte>, ghost done: seq<byte>, ghost demand: nat) returns (ok: bool)
      requires At(done) && |data| <= needed && |done| + needed + 1 <= demand
      modifies this, buffer
      ensures Limit() == old(Limit()) && (!ok ==> demand > Limit())
      ensures ok ==> At(done + data) && depth == old(depth) + 1
      ensures buffer == old(buffer) || (!noalloc && fresh(buffer))
      ensures ok ==> Kept(demand)
    {
      ok := Emit(needed, data, done);
      if ok {
        depth := depth + 1;
      }
    }

    /** Text with its terminator, behind which the offset stays where it was. */
    method EmitText(needed: nat, text: seq<byte>, ghost done: seq<byte>) returns (ok: bool)
      requires At(done) && |text| <= needed
      modifies this`buffer, this`length, buffer
      ensures ok == (|done| + needed + 1 <= old(Limit())) && Limit() == old(Limit())
      ensures ok ==> Ends(done + text, |done|)
      ensures buffer == old(buffer) || (!noalloc && fresh(buffer))
      ensures ok ==> Kept(|done| + needed + 1)
    {
      ok := Ensure(needed, done);
      if ok {
        Write(text + [0], needed + 1, done);
        TextEnd(buffer[..], done, text);
      }
    }

    /** `update_offset`: moves the offset to the terminator. */
    method UpdateOffset(ghost done: seq<byte>, ghost start: nat)
      requires Ends(done, start) && 0 !in done[start..]
      modifies this`offset
      ensures At(done) && offset < length && buffer[offset] == 0
    {
      NonZeroBefore(buffer[..], done, start);
      while buffer[offset] != 0
        invariant start <= offset <= |done| < buffer.Length
        decreases |done| - offset
      {
        offset := offset + 1;
      }
    }

    /** The final copy of `print`, into a buffer of `size` bytes. */
    method CopyOut(size: nat, ghost r: seq<byte>) returns (printed: array<byte>)
      requires At(r) && |r| < length && buffer[|r|] == 0 && |r| < size <= length
      ensures fresh(printed) && HasText(printed, r)
    {
      printed := new byte[size];
      forall i | 0 <= i < size {
        printed[i] := buffer[i];
      }
      printed[offset] := 0;
      assert printed[..|r|] == buffer[..|r|];
    }

    // ----- values

    /** `print_number`. */
    method PrintNumber(n: int, ghost done: seq<byte>) returns (ok: bool)
      requires At(done)
      modifies this`buffer, this`length, this`offset, buffer
      ensures ok == (|k.format(n)| <= MAX_TOKEN && |done| + |k.format(n)| + 1 <= old(Limit())) &&
              Limit() == old(Limit())
      ensures ok ==> Ends(done + k.format(n), |done|)
      ensures buffer == old(buffer) || (!noalloc && fresh(buffer))
      ensures ok ==> Kept(|done| + |k.format(n)| + 1)
    {
      var token := k.format(n);
      if |token| > MAX_TOKEN {
        return false;
      }
      ok := EmitText(|token|, token, done);
      if ok {
        offset := offset + |token|;
      }
    }

    /** The first loop of `print_string_ptr`: how much longer a string gets by escaping. */
    method CountEscapes(input: seq<byte>) returns (extra: nat)
      ensures |input| + extra == |Escape(input)|
    {
      extra := 0;
      var i := 0;
      while i < |input|
        invariant 0 <= i <= |input| && i + extra == |Escape(input[..i])|
      {
        EscapePrefix(input, i);
        match input[i] {
          case 34 => extra := extra + 1;
          case 92 => extra := extra + 1;
          case 8 => extra := extra + 1;
          case 12 => extra := extra + 1;
          case 10 => extra := extra + 1;
          case 13 => extra := extra + 1;
          case 9 => extra := extra + 1;
          case b => if b < 32 { extra := extra + 5; }
        }
        i := i + 1;
      }
      assert input[..i] == input;
    }

    /** The second loop: writes the escaped string behind the opening quote, through a moving cursor. */
    method WriteEscaped(input: seq<byte>, ghost done: seq<byte>)
      requires At(done) && |done| + |Escape(input)| + 2 < length
      modifies buffer
      ensures At(done) && buffer[..|done| + 1 + |Escape(input)|] == done + [QUOTE] + Escape(input)
      ensures Kept(|done| + |Escape(input)| + 2)
    {
      buffer[offset] := QUOTE;
      var cursor, i := offset + 1, 0;
      assert buffer[..cursor] == done + [QUOTE] + Escape(input[..0]);
      while i < |input|
        invariant 0 <= i <= |input| && cursor == offset + 1 + |Escape(input[..i])| <= offset + 1 + |Escape(input)|
        invariant buffer[..cursor] == done + [QUOTE] + Escape(input[..i])
        invariant Kept(offset + |Escape(input)| + 2)
      {
        EscapePrefix(input, i);
        Assoc(done + [QUOTE], Escape(input[..i]), EscapeByte(input[i]));
        WriteByte(cursor, input[i]);
        cursor := cursor + |EscapeByte(input[i])|;
        i := i + 1;
      }
      assert input[..i] == input;
      assert buffer[..offset] == buffer[..cursor][..offset] && done == (done + [QUOTE] + Escape(input))[..offset];
    }

    /** One byte of a string; `sprintf` of a control byte also writes a terminator, to be overwritten. */
    method WriteByte(cursor: nat, b: byte)
      requires cursor + |EscapeByte(b)| < buffer.Length
      modifies buffer
      ensures buffer[..cursor + |EscapeByte(b)|] == old(buffer[..cursor]) + EscapeByte(b)
      ensures Kept(cursor + |EscapeByte(b)| + 1)
    {
      if b > 31 && b != QUOTE && b != BACKSLASH {
        buffer[cursor] := b;
      } else {
        buffer[cursor] := BACKSLASH;
        match b {
          case 92 => buffer[cursor + 1] := BACKSLASH;
          case 34 => buffer[cursor + 1] := QUOTE;
          case 8 => buffer[cursor + 1] := 98;
          case 12 => buffer[cursor + 1] := 102;
          case 10 => buffer[cursor + 1] := 110;
          case 13 => buffer[cursor + 1] := 114;
          case 9 => buffer[cursor + 1] := 116;
          case _ =>
            buffer[cursor + 1], buffer[cursor + 2], buffer[cursor + 3] := 117, 48, 48;
            buffer[cursor + 4], buffer[cursor + 5], buffer[cursor + 6] := HexDigit(b / 16), HexDigit(b % 16), 0;
        }
      }
    }

    /** `print_string_ptr`. */
    method PrintString(input: seq<byte>, ghost done: seq<byte>) returns (ok: bool)
      requires At(done)
      modifies this`buffer, this`length, buffer
      ensures ok == (|done| + |Quoted(input)| + 2 <= old(Limit())) && Limit() == old(Limit())
      ensures ok ==> Ends(done + Quoted(input), |done|)
      ensures buffer == old(buffer) || (!noalloc && fresh(buffer))
      ensures ok ==> Kept(|done| + |Quoted(input)| + 2)
    {
      var extra := CountEscapes(input);
      var outputLength := |input| + extra;
      ok := Ensure(outputLength + 3, done);
      if !ok {
        return;
      }
      if extra == 0 {
        EscapeLength(input);
        Write([QUOTE] + input, outputLength + 4, done);
        Assoc(done, [QUOTE], input);
      } else {
        WriteEscaped(input, done);
      }
      CloseString(outputLength, input, done);
    }

    /** The closing quote and the terminator of a string. */
    method CloseString(outputLength: nat, ghost input: seq<byte>, ghost done: seq<byte>)
      requires At(done) && outputLength == |Escape(input)| && |done| + outputLength + 4 <= length
      requires buffer[..|done| + 1 + outputLength] == done + [QUOTE] + Escape(input)
      modifies buffer
      ensures Ends(done + Quoted(input), |done|)
      ensures Kept(|done| + outputLength + 3)
    {
      ghost var before := buffer[..|done| + 1 + outputLength];
      buffer[offset + outputLength + 1] := QUOTE;
      buffer[offset + outputLength + 2] := 0;
      QuotedEnd(done, Escape(input), before, buffer[..], input);
    }

    /** `print_value`. */
    method PrintValue(v: Value, ghost done: seq<byte>) returns (ok: bool)
      requires At(done) && Printable(k, v)
      modifies this, buffer
      ensures ok == (|done| + Demand(k, v, format, old(depth)) <= old(Limit())) && Limit() == old(Limit())
      ensures ok ==> Ends(done + Render(k, v, format, old(depth)), |done|) && depth == old(depth)
      ensures buffer == old(buffer) || (!noalloc && fresh(buffer))
      ensures ok ==> Kept(|done| + Demand(k, v, format, old(depth)))
      decreases v, 1
    {
      match v {
        case Null => ok := EmitText(5, NULL_TEXT, done);
        case False => ok := EmitText(6, FALSE_TEXT, done);
        case True => ok := EmitText(5, TRUE_TEXT, done);
        case Number(n) => ok := PrintNumber(n, done);
        case String(s) => ok := PrintString(s, done);
        case Array(es) => ok := PrintArray(es, done);
        case Object(ms) => ok := PrintObject(ms, done);
      }
    }

    /** A value, and the offset brought up to date. */
    method PrintItem(v: Value, ghost done: seq<byte>) returns (ok: bool)
      requires At(done) && Printable(k, v)
      modifies this, buffer
      ensures ok == (|done| + Demand(k, v, format, old(depth)) <= old(Limit())) && Limit() == old(Limit())
      ensures ok ==> At(done + Render(k, v, format, old(depth))) && depth == old(depth)
      ensures ok ==> offset < length && buffer[offset] == 0
      ensures buffer == old(buffer) || (!noalloc && fresh(buffer))
      ensures ok ==> Kept(|done| + Demand(k, v, format, old(depth)))
      decreases v, 2
    {
      ghost var r := Render(k, v, format, depth);
      RenderNulFree(k, v, format, depth);
      ok := PrintValue(v, done);
      if ok {
        assert (done + r)[|done|..] == r;
        UpdateOffset(done + r, |done|);
      }
    }

    /** Text with its terminator, and the offset behind it. */
    method EmitTerminated(needed: nat, text: seq<byte>, ghost done: seq<byte>) returns (ok: bool)
      requires At(done) && |text| <= needed
      modifies this`buffer, this`length, this`offset, buffer
      ensures ok == (|done| + needed + 1 <= old(Limit())) && Limit() == old(Limit())
      ensures ok ==> At(done + text)
      ensures buffer == old(buffer) || (!noalloc && fresh(buffer))
      ensures ok ==> Kept(|done| + needed + 1)
    {
      ok := EmitText(needed, text, done);
      if ok {
        offset := offset + |text|;
      }
    }

    /** `print_array`. */
    method PrintArray(es: Elements, ghost done: seq<byte>) returns (ok: bool)
      requires At(done) && PrintableElements(k, es)
      modifies this, buffer
      ensures ok == (|done| + |Render(k, Array(es), format, old(depth))| + 2 <= old(Limit())) &&
              Limit() == old(Limit())
      ensures ok ==> Ends(done + Render(k, Array(es), format, old(depth)), |done|) && depth == old(depth)
      ensures buffer == old(buffer) || (!noalloc && fresh(buffer))
      ensures ok ==> Kept(|done| + |Render(k, Array(es), format, old(depth))| + 2)
      decreases es, 3
    {
      ghost var body, r := RenderElements(k, es, format, depth + 1), Render(k, Array(es), format, depth);
      ArrayRendering(k, es, format, depth, done, body, r);
      ok := Open(1, [OPEN_ARRAY], done, |done + r| + 2);
      if !ok {
        return;
      }
      ok := FinishArray(es, done + [OPEN_ARRAY], body, done + r);
    }

    /** The elements and the closing bracket; `whole` is what has been printed then. */
    method FinishArray(es: Elements, ghost done: seq<byte>, ghost body: seq<byte>, ghost whole: seq<byte>)
      returns (ok: bool)
      requires At(done) && PrintableElements(k, es) && depth > 0 && body == RenderElements(k, es, format, depth)
      requires whole == done + body + [CLOSE_ARRAY]
      modifies this, buffer
      ensures ok == (|whole| + 2 <= old(Limit())) && Limit() == old(Limit())
      ensures ok ==> Ends(whole, |done|) && depth == old(depth) - 1
      ensures buffer == old(buffer) || (!noalloc && fresh(buffer))
      ensures ok ==> Kept(|whole| + 2)
      decreases es, 2
    {
      ok := PrintElements(es, done, |whole| + 2);
      if !ok {
        return;
      }
      ok := EmitText(2, [CLOSE_ARRAY], done + body);
      if ok {
        depth := depth - 1;
      }
    }

    /** The loop of `print_array`; `demand` bounds what the whole array needs. */
    method PrintElements(es: Elements, ghost done: seq<byte>, ghost demand: nat) returns (ok: bool)
      requires At(done) && PrintableElements(k, es) && demand >= |done| + |RenderElements(k, es, format, depth)| + 3
      modifies this, buffer
      ensures Limit() == old(Limit()) && (!ok ==> demand > Limit())
      ensures ok ==> At(done + RenderElements(k, es, format, old(depth))) && depth == old(depth)
      ensures buffer == old(buffer) || (!noalloc && fresh(buffer))
      ensures ok ==> Kept(demand)
      decreases es, 1
    {
      var current := es;
      ghost var d, whole := done, done + RenderElements(k, es, format, depth);
      while current.Element?
        invariant At(d) && d + RenderElements(k, current, format, depth) == whole && PrintableElements(k, current)
        invariant depth == old(depth) && Limit() == old(Limit()) && Kept(demand)
        invariant buffer == old(buffer) || (!noalloc && fresh(buffer))
        invariant current == es || current < es
        decreases current
      {
        ok, d := PrintElement(current, d, whole);
        if !ok {
          return;
        }
        current := current.next;
      }
      assert d + [] == d;
      ok := true;
    }

    /** One element and the separator behind it. */
    method PrintElement(current: Elements, ghost done: seq<byte>, ghost whole: seq<byte>) returns (ok: bool,
                        ghost next: seq<byte>)
      requires At(done) && current.Element? && PrintableElements(k, current)
      requires done + RenderElements(k, current, format, depth) == whole
      modifies this, buffer
      ensures Limit() == old(Limit()) && (!ok ==> |whole| + 3 > Limit())
      ensures ok ==> At(next) && next + RenderElements(k, current.next, format, depth) == whole && depth == old(depth)
      ensures buffer == old(buffer) || (!noalloc && fresh(buffer))
      ensures ok ==> Kept(|whole| + 3)
      decreases current, 0
    {
      ghost var r, rest := Render(k, current.value, format, depth), RenderElements(k, current.next, format, depth);
      ElementRendering(k, current, format, depth, done, r, rest);
      ok := PrintItem(current.value, done);
      next := done + r;
      if ok && current.next.Element? {
        ok := EmitTerminated(|Separator(format)| + 1, Separator(format), next);
        next := next + Separator(format);
      }
    }

    /** `print_object`. */
    method PrintObject(ms: Members, ghost done: seq<byte>) returns (ok: bool)
      requires At(done) && PrintableMembers(k, ms)
      modifies this, buffer
      ensures ok == (|done| + |Render(k, Object(ms), format, old(depth))| + 2 <= old(Limit())) &&
              Limit() == old(Limit())
      ensures ok ==> Ends(done + Render(k, Object(ms), format, old(depth)), |done|) && depth == old(depth)
      ensures buffer == old(buffer) || (!noalloc && fresh(buffer))
      ensures ok ==> Kept(|done| + |Render(k, Object(ms), format, old(depth))| + 2)
      decreases ms, 4
    {
      ghost var body, r := RenderMembers(k, ms, format, depth + 1), Render(k, Object(ms), format, depth);
      var open := OpenObject(format);
      ObjectRendering(k, ms, format, depth, done, open, body, r);
      ok := Open(|open| + 1, open, done, |done + r| + 2);
      if !ok {
        return;
      }
      ok := FinishObject(ms, done + open, body, done + r);
    }

    /** The members and the closing brace; `whole` is what has been printed then. */
    method FinishObject(ms: Members, ghost done: seq<byte>, ghost body: seq<byte>, ghost whole: seq<byte>)
      returns (ok: bool)
      requires At(done) && PrintableMembers(k, ms) && depth > 0 && body == RenderMembers(k, ms, format, depth)
      requires whole == done + body + (Indent(format, depth - 1) + [CLOSE_OBJECT])
      modifies this, buffer
      ensures ok == (|whole| + 2 <= old(Limit())) && Limit() == old(Limit())
      ensures ok ==> Ends(whole, |done|) && depth == old(depth) - 1
      ensures buffer == old(buffer) || (!noalloc && fresh(buffer))
      ensures ok ==> Kept(|whole| + 2)
      decreases ms, 3
    {
      ok := PrintMembers(ms, done, |whole| + 2);
      if !ok {
        return;
      }
      ok := CloseObject(done + body, whole);
    }

    /** The indented closing brace; `whole` is what has been printed then. */
    method CloseObject(ghost done: seq<byte>, ghost whole: seq<byte>) returns (ok: bool)
      requires At(done) && depth > 0 && whole == done + (Indent(format, depth - 1) + [CLOSE_OBJECT])
      modifies this, buffer
      ensures ok == (|whole| + 2 <= old(Limit())) && Limit() == old(Limit())
      ensures ok ==> Ends(whole, |done|) && depth == old(depth) - 1
      ensures buffer == old(buffer) || (!noalloc && fresh(buffer))
      ensures ok ==> Kept(|whole| + 2)
    {
      ok := EmitText(if format then depth + 1 else 2, Indent(format, depth - 1) + [CLOSE_OBJECT], done);
      if ok {
        depth := depth - 1;
      }
    }

    /** The loop of `print_object`. */
    method PrintMembers(ms: Members, ghost done: seq<byte>, ghost demand: nat) returns (ok: bool)
      requires At(done) && PrintableMembers(k, ms) && demand >= |done| + |RenderMembers(k, ms, format, depth)| + 3
      modifies this, buffer
      ensures Limit() == old(Limit()) && (!ok ==> demand > Limit())
      ensures ok ==> At(done + RenderMembers(k, ms, format, old(depth))) && depth == old(depth)
      ensures buffer == old(buffer) || (!noalloc && fresh(buffer))
      ensures ok ==> Kept(demand)
      decreases ms, 2
    {
      var current := ms;
      ghost var d, whole := done, done + RenderMembers(k, ms, format, depth);
      while current.Member?
        invariant At(d) && d + RenderMembers(k, current, format, depth) == whole && PrintableMembers(k, current)
        invariant depth == old(depth) && Limit() == old(Limit()) && Kept(demand)
        invariant buffer == old(buffer) || (!noalloc && fresh(buffer))
        invariant current == ms || current < ms
        decreases current
      {
        MembersRendering(k, current, format, depth, d);
        ok := PrintMember(current, d, |whole| + 3);
        d := d + RenderMember(k, current, format, old(depth));
        if !ok {
          return;
        }
        current := current.next;
      }
      assert d + [] == d;
      ok := true;
    }

    /** One member: indentation, name, colon, value, and the end of the line. */
    method PrintMember(ms: Members, ghost done: seq<byte>, ghost demand: nat) returns (ok: bool)
      requires At(done) && ms.Member? && PrintableMembers(k, ms) &&
               demand >= |done| + |RenderMember(k, ms, format, depth)| + 3
      modifies this, buffer
      ensures Limit() == old(Limit()) && (!ok ==> demand > Limit())
      ensures ok ==> At(done + RenderMember(k, ms, format, old(depth))) && depth == old(depth)
      ensures buffer == old(buffer) || (!noalloc && fresh(buffer))
      ensures ok ==> Kept(demand)
      decreases ms, 1
    {
      ghost var a, b, c := Indent(format, depth), Quoted(ms.name), Colon(format);
      ghost var r, e := Render(k, ms.value, format, depth), EndMember(format, ms.next.NoMembers?);
      MemberRendering(k, ms, format, depth, done, a, b, c, r, e);
      ok := PrintName(ms.name, done, demand);
      if !ok {
        return;
      }
      ok := PrintItem(ms.value, done + a + b + c);
      if !ok {
        return;
      }
      var end := EndMember(format, ms.next.NoMembers?);
      ok := EmitTerminated(|end| + 1, end, done + a + b + c + r);
    }

    /** The indentation of a member, its name and the colon. */
    method PrintName(name: seq<byte>, ghost done: seq<byte>, ghost demand: nat) returns (ok: bool)
      requires At(done) && 0 !in name &&
               demand >= |done| + |Indent(format, depth)| + |Quoted(name)| + |Colon(format)| + 2
      modifies this`buffer, this`length, this`offset, buffer
      ensures Limit() == old(Limit()) && (!ok ==> demand > Limit())
      ensures ok ==> At(done + Indent(format, depth) + Quoted(name) + Colon(format))
      ensures buffer == old(buffer) || (!noalloc && fresh(buffer))
      ensures ok ==> Kept(demand)
    {
      ghost var d := done + Indent(format, depth);
      if format {
        ok := Emit(depth, Tabs(depth), done);
        if !ok {
          return;
        }
      } else {
        assert d == done;
      }
      ok := PrintKey(name, d);
      if !ok {
        return;
      }
      ok := Emit(|Colon(format)|, Colon(format), d + Quoted(name));
    }

    /** A name, and the offset brought up to date. */
    method PrintKey(name: seq<byte>, ghost done: seq<byte>) returns (ok: bool)
      requires At(done) && 0 !in name
      modifies this`buffer, this`length, this`offset, buffer
      ensures ok == (|done| + |Quoted(name)| + 2 <= old(Limit())) && Limit() == old(Limit())
      ensures ok ==> At(done + Quoted(name))
      ensures buffer == old(buffer) || (!noalloc && fresh(buffer))
      ensures ok ==> Kept(|done| + |Quoted(name)| + 2)
    {
      EscapeNulFree(name);
      ok := PrintString(name, done);
      if ok {
        assert (done + Quoted(name))[|done|..] == Quoted(name);
        UpdateOffset(done + Quoted(name), |done|);
      }
    }
  }

  lemma {:induction false} ObjectRendering(k: NumberCodec, ms: Members, fmt: bool, depth: nat, done: seq<byte>,
                                           open: seq<byte>, body: seq<byte>, r: seq<byte>)
    requires open == OpenObject(fmt) && body == RenderMembers(k, ms, fmt, depth + 1)
    requires r == Render(k, Object(ms), fmt, depth)
    ensures |r| > |open| && done + open + body + (Indent(fmt, depth) + [CLOSE_OBJECT]) == done + r
  {
    var tail := Indent(fmt, depth) + [CLOSE_OBJECT];
    Assoc(done, open, body);
    Assoc(done, open + body, tail);
  }

  lemma {:induction false} MembersRendering(k: NumberCodec, ms: Members, fmt: bool, depth: nat, done: seq<byte>)
    requires ms.Member?
    ensures done + RenderMembers(k, ms, fmt, depth) ==
            done + RenderMember(k, ms, fmt, depth) + RenderMembers(k, ms.next, fmt, depth)
    ensures |RenderMembers(k, ms, fmt, depth)| >= |RenderMember(k, ms, fmt, depth)|
  {
    Assoc(done, RenderMember(k, ms, fmt, depth), RenderMembers(k, ms.next, fmt, depth));
  }

  lemma {:induction false} MemberRendering(k: NumberCodec, ms: Members, fmt: bool, depth: nat, done: seq<byte>,
                                           a: seq<byte>, b: seq<byte>, c: seq<byte>, r: seq<byte>, e: seq<byte>)
    requires ms.Member? && a == Indent(fmt, depth) && b == Quoted(ms.name) && c == Colon(fmt)
    requires r == Render(k, ms.value, fmt, depth) && e == EndMember(fmt, ms.next.NoMembers?)
    ensures |RenderMember(k, ms, fmt, depth)| == |a| + |b| + |c| + |r| + |e|
    ensures done + RenderMember(k, ms, fmt, depth) == done + a + b + c + r + e
  {
    Assoc(done, a, b);
    Assoc(done, a + b, c);
    Assoc(done, a + b + c, r);
    Assoc(done, a + b + c + r, e);
  }

  lemma {:induction false} ArrayRendering(k: NumberCodec, es: Elements, fmt: bool, depth: nat, done: seq<byte>,
                                          body: seq<byte>, r: seq<byte>)
    requires body == RenderElements(k, es, fmt, depth + 1) && r == Render(k, Array(es), fmt, depth)
    ensures |r| == |body| + 2 && done + [OPEN_ARRAY] + body + [CLOSE_ARRAY] == done + r
  {
    Assoc(done, [OPEN_ARRAY], body);
    Assoc(done, [OPEN_ARRAY] + body, [CLOSE_ARRAY]);
  }

  lemma {:induction false} ElementRendering(k: NumberCodec, es: Elements, fmt: bool, depth: nat, done: seq<byte>,
                                            r: seq<byte>, rest: seq<byte>)
    requires es.Element? && r == Render(k, es.value, fmt, depth) && rest == RenderElements(k, es.next, fmt, depth)
    ensures var whole := done + RenderElements(k, es, fmt, depth);
            if es.next.NoElements? then whole == done + r + rest
            else whole == done + r + Separator(fmt) + rest
  {
    Assoc(done, r, Separator(fmt) + rest);
    Assoc(done + r, Separator(fmt), rest);
    assert rest == [] ==> r + rest == r;
  }

  lemma {:induction false} QuotedEnd(done: seq<byte>, escaped: seq<byte>, before: seq<byte>, b: seq<byte>,
                                     input: seq<byte>)
    requires escaped == Escape(input) && before == done + [QUOTE] + escaped && |before| + 1 < |b|
    requires b[..|before|] == before && b[|before|] == QUOTE && b[|before| + 1] == 0
    ensures var r := done + Quoted(input); |r| == |before| + 1 && b[..|r|] == r && b[|r|] == 0 && b[..|done|] == done
  {
    Assoc(done, [QUOTE] + escaped, [QUOTE]);
    Assoc(done, [QUOTE], escaped);
    assert b[..|before| + 1] == before + [QUOTE];
    assert b[..|done|] == before[..|done|];
  }

  lemma {:induction false} TextEnd(b: seq<byte>, done: seq<byte>, text: seq<byte>)
    requires |done| + |text| < |b| && b[..|done| + |text + [0]|] == done + (text + [0])
    ensures b[..|done + text|] == done + text && b[|done + text|] == 0
  {
    assert done + (text + [0]) == done + text + [0];
    assert b[..|done| + |text| + 1][..|done + text|] == b[..|done + text|];
    assert b[..|done| + |text| + 1][|done + text|] == 0;
  }

  lemma {:induction false} NonZeroBefore(b: seq<byte>, done: seq<byte>, start: nat)
    requires start <= |done| < |b| && b[..|done|] == done && 0 !in done[start..]
    ensures forall i :: start <= i < |done| ==> b[i] != 0
  {
    forall i | start <= i < |done| ensures b[i] != 0 {
      assert b[..|done|][i] == b[i] && done[start..][i - start] == done[i];
    }
  }

  // ----- whole trees

  /** `buf` starts with the text `r` and a terminator. */
  ghost predicate HasText(buf: array<byte>, r: seq<byte>)
    reads buf
  {
    |r| < buf.Length && buf[..|r|] == r && buf[|r|] == 0
  }

  /** `print`: a growing buffer, then a copy that a reallocation or an allocation of the right size makes. */
  method Print(k: NumberCodec, item: Value, format: bool, reallocates: bool) returns (printed: Option<array<byte>>)
    requires Printable(k, item)
    ensures printed.Some? <==> Demand(k, item, format, 0) <= INT_MAX
    ensures printed.Some? ==> fresh(printed.value) && HasText(printed.value, Render(k, item, format, 0))
  {
    ghost var r := Render(k, item, format, 0);
    RenderNulFree(k, item, format, 0);
    var first := new byte[256];
    var p := new PrintBuffer(k, first, 0, false, format);
    var ok := p.PrintItem(item, []);
    if !ok {
      return None;
    }
    assert [] + r == r;
    var size := if reallocates then p.length else p.offset + 1;
    var copy := p.CopyOut(size, r);
    return Some(copy);
  }

  /** `cJSON_PrintBuffered`: a growing buffer of a given first size. */
  method PrintBuffered(k: NumberCodec, item: Value, prebuffer: int, format: bool) returns (printed: Option<array<byte>>)
    requires Printable(k, item) && prebuffer <= INT_MAX
    ensures printed.Some? <==> prebuffer >= 0 && Demand(k, item, format, 0) <= INT_MAX
    ensures printed.Some? ==> HasText(printed.value, Render(k, item, format, 0))
  {
    if prebuffer < 0 {
      return None;
    }
    var first := new byte[prebuffer];
    var p := new PrintBuffer(k, first, prebuffer, false, format);
    var ok := p.PrintValue(item, []);
    if !ok {
      return None;
    }
    assert [] + Render(k, item, format, 0) == Render(k, item, format, 0);
    return Some(p.buffer);
  }

  /** `cJSON_PrintPreallocated`: a buffer of fixed size, never written past its end. */
  method PrintPreallocated(k: NumberCodec, item: Value, buf: array<byte>, format: bool) returns (ok: bool)
    requires Printable(k, item) && buf.Length <= INT_MAX
    modifies buf
    ensures ok <==> Demand(k, item, format, 0) <= buf.Length
    ensures ok ==> HasText(buf, Render(k, item, format, 0))
    ensures ok ==> forall i :: Demand(k, item, format, 0) <= i < buf.Length ==> buf[i] == old(buf[i])
  {
    var p := new PrintBuffer(k, buf, buf.Length, true, format);
    ok := p.PrintValue(item, []);
    assert [] + Render(k, item, format, 0) == Render(k, item, format, 0);
  }
}
