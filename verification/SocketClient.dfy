/** The parts of `SocketClient` that build and send messages: argument quoting and vectored writes. */
module SocketClientModel {
  import opened Bits

  const QUOTE: byte := 34      // "
  const BACKSLASH: byte := 92  // \
  const SPACE: byte := 32

  /** Every quote and backslash preceded by a backslash. */
  function EscapeByte(b: byte): seq<byte> {
    if b == BACKSLASH || b == QUOTE then [BACKSLASH, b] else [b]
  }

  function Escape(arg: seq<byte>): seq<byte> {
    if arg == [] then []
    else EscapeByte(arg[0]) + Escape(arg[1..])
  }

  function Quote(arg: seq<byte>): seq<byte> {
    [QUOTE] + Escape(arg) + [QUOTE]
  }

  lemma {:induction false} EscapeAppend(a: seq<byte>, b: byte)
    ensures Escape(a + [b]) == Escape(a) + EscapeByte(b)
  {
    if a == [] {
      assert [b][1..] == [];
    } else {
      assert (a + [b])[1..] == a[1..] + [b];
      EscapeAppend(a[1..], b);
    }
  }

  lemma {:induction false} EscapeNext(arg: seq<byte>, i: nat)
    requires i < |arg|
    ensures [QUOTE] + Escape(arg[..i + 1]) == [QUOTE] + Escape(arg[..i]) + EscapeByte(arg[i])
  {
    assert arg[..i + 1] == arg[..i] + [arg[i]];
    EscapeAppend(arg[..i], arg[i]);
    assert [QUOTE] + (Escape(arg[..i]) + EscapeByte(arg[i])) == [QUOTE] + Escape(arg[..i]) + EscapeByte(arg[i]);
  }

  lemma {:induction false} EscapeLength(a: seq<byte>)
    ensures |a| <= |Escape(a)| <= 2 * |a|
  {
    if a != [] {
      EscapeLength(a[1..]);
    }
  }

  /** One byte of the argument at the cursor. */
  method PutByte(buffer: array<byte>, current: nat, b: byte, ghost done: seq<byte>) returns (next: nat)
    requires current + 1 < buffer.Length && buffer[..current] == done
    modifies buffer
    ensures current < next <= current + 2 && buffer[..next] == done + EscapeByte(b)
  {
    next := current;
    if b == BACKSLASH || b == QUOTE {
      buffer[next] := BACKSLASH;
      next := next + 1;
    }
    buffer[next] := b;
    next := next + 1;
  }

  /**
   * `quoteArg`: fills a buffer of `2 * len + 3` bytes through a moving cursor, never past its end, and
   * returns the quoted argument with its terminator.
   */
  method QuoteArg(arg: seq<byte>) returns (result: seq<byte>)
    requires 0 !in arg
    ensures result == Quote(arg) + [0]
  {
    var buffer := new byte[2 * |arg| + 3];
    buffer[0] := QUOTE;
    var current := 1;
    var i := 0;
    while i < |arg|
      invariant 0 <= i <= |arg| && 1 <= current <= 2 * i + 1
      invariant buffer[..current] == [QUOTE] + Escape(arg[..i])
    {
      EscapeNext(arg, i);
      current := PutByte(buffer, current, arg[i], [QUOTE] + Escape(arg[..i]));
      i := i + 1;
    }
    assert arg[..i] == arg;
    buffer[current] := QUOTE;
    buffer[current + 1] := 0;
    result := buffer[..current + 2];
  }

  // ----- vectored writes

  /** The bytes described by an array of `iovec`s. */
  function Flatten(vecs: seq<seq<byte>>): seq<byte> {
    if vecs == [] then [] else vecs[0] + Flatten(vecs[1..])
  }

  lemma {:induction false} FlattenFrom(vecs: seq<seq<byte>>, current: nat)
    requires current < |vecs|
    ensures Flatten(vecs[current..]) == vecs[current] + Flatten(vecs[current + 1..])
  {
    assert vecs[current..][1..] == vecs[current + 1..];
  }

  /** Shortening the current entry in place drops bytes from the front of what is still to be sent. */
  lemma {:induction false} FlattenDrop(vecs: seq<seq<byte>>, current: nat, written: nat)
    requires current < |vecs| && written <= |vecs[current]|
    ensures written <= |Flatten(vecs[current..])|
    ensures Flatten(vecs[current := vecs[current][written..]][current..]) == Flatten(vecs[current..])[written..]
  {
    var vecs' := vecs[current := vecs[current][written..]];
    assert vecs'[current + 1..] == vecs[current + 1..];
    FlattenFrom(vecs, current);
    FlattenFrom(vecs', current);
  }

  /** `writev` takes any number of bytes up to all that is offered, or fails. */
  method Writev(offered: nat) returns (rc: int)
    ensures rc <= offered
  {
    rc :| rc <= offered;
  }

  /** Skips the entries that a write of `written` bytes has consumed. */
  method SkipWritten(iov: array<seq<byte>>, start: nat, rc: nat) returns (current: nat, written: nat)
    requires start <= iov.Length && rc <= |Flatten(iov[start..])|
    ensures start <= current <= iov.Length && written <= |Flatten(iov[current..])|
    ensures current == iov.Length ==> written == 0
    ensures current < iov.Length ==> written < |iov[current]|
    ensures Flatten(iov[start..])[rc..] == Flatten(iov[current..])[written..]
  {
    current, written := start, rc;
    while current < iov.Length && written >= |iov[current]|
      invariant start <= current <= iov.Length && written <= |Flatten(iov[current..])|
      invariant Flatten(iov[start..])[rc..] == Flatten(iov[current..])[written..]
    {
      FlattenFrom(iov[..], current);
      assert iov[..][current..] == iov[current..] && iov[..][current + 1..] == iov[current + 1..];
      written := written - |iov[current]|;
      current := current + 1;
    }
    if current == iov.Length {
      assert iov[current..] == [];
    }
  }

  /**
   * `sendDataLockedv`: whatever `writev` accepts at a time, the peer receives a prefix of the described
   * bytes, in order and without repetition, and 0 is returned only when it has received all of them.
   */
  method SendDataLockedv(socket: int, iov: array<seq<byte>>) returns (ret: int, sent: seq<byte>)
    modifies iov
    ensures ret == 0 || ret == -1
    ensures sent <= Flatten(old(iov[..]))
    ensures ret == 0 <==> socket >= 0 && sent == Flatten(old(iov[..])) && (iov.Length == 0 || sent != [])
  {
    ghost var total := Flatten(iov[..]);
    sent := [];
    if socket < 0 {
      return -1, sent;
    }
    if iov.Length == 0 {
      return 0, sent;
    }
    var current := 0;
    assert iov[0..] == iov[..];
    while true
      invariant current < iov.Length
      invariant sent + Flatten(iov[current..]) == total
      invariant sent == [] || Flatten(iov[current..]) != []
      decreases |Flatten(iov[current..])|
    {
      var rest := Flatten(iov[current..]);
      var rc := Writev(|rest|);
      if rc <= 0 {
        return -1, sent;
      }
      sent := sent + rest[..rc];
      assert sent + rest[rc..] == total;
      var written;
      current, written := SkipWritten(iov, current, rc);
      if current == iov.Length {
        assert iov[current..] == [];
        return 0, sent;
      }
      ghost var vecs := iov[..];
      FlattenDrop(vecs, current, written);
      FlattenFrom(vecs, current);
      assert vecs[current..] == iov[current..];
      iov[current] := iov[current][written..];
      assert iov[..] == vecs[current := vecs[current][written..]];
      assert iov[current..] == iov[..][current..];
    }
  }
}
