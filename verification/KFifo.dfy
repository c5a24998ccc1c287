/**
 * The kfifo ring buffer: a power-of-two byte buffer indexed by two free-running 32-bit counters.
 * `KFifo` refines a bounded byte queue; the counters may overflow.
 */
module KFifoModel {
  import opened Bits

  function Min(a: nat, b: nat): nat {
    if a < b then a else b
  }

  /** Unsigned 32-bit subtraction. */
  function Sub32(a: int, b: int): (r: u32) {
    (a - b) % TWO_32
  }

  /** Distance between the counters before and after `in` has moved ahead by `n`. */
  lemma {:induction false} CounterAdvance(inn: u32, out: u32, n: nat)
    requires Sub32(inn, out) + n < TWO_32
    ensures Sub32((inn + n) % TWO_32, out) == Sub32(inn, out) + n
  {}

  /** Distance between the counters after `out` has moved ahead by `n`. */
  lemma {:induction false} CounterDrain(inn: u32, out: u32, n: nat)
    requires n <= Sub32(inn, out)
    ensures Sub32(inn, (out + n) % TWO_32) == Sub32(inn, out) - n
  {}

  /** The space computed from the wrapped counters is what the queue leaves free. */
  lemma {:induction false} FreeSpace(inn: u32, out: u32, size: u32)
    requires Sub32(inn, out) <= size
    ensures (size - inn + out) % TWO_32 == size - Sub32(inn, out)
  {}

  /** The ring slot of a counter value: `counter & (size - 1)`. */
  function Slot(counter: nat, size: nat): (r: nat)
    requires size > 0
    ensures r < size
  {
    And(counter, size - 1)
  }

  /** Slots are counters modulo the size. */
  lemma {:induction false} SlotIsMod(counter: nat, size: nat)
    requires IsPowerOf2(size)
    ensures Slot(counter, size) == counter % size
  {
    var k := PowerOf2Exponent(size);
    MaskIsMod(counter, k);
  }

  /** Counters less than `size` apart have different slots. */
  lemma {:induction false} SlotDistinct(a: nat, b: nat, size: nat)
    requires IsPowerOf2(size) && a < b < a + size
    ensures Slot(a, size) != Slot(b, size)
  {
    SlotIsMod(a, size);
    SlotIsMod(b, size);
    ModDistinct(a, b, size);
  }

  /** Consecutive counters have consecutive slots, wrapping once at the end of the ring. */
  lemma {:induction false} SlotSplit(start: nat, k: nat, size: nat)
    requires IsPowerOf2(size) && k < size
    ensures Slot(start + k, size) ==
            if Slot(start, size) + k < size then Slot(start, size) + k else Slot(start, size) + k - size
  {
    SlotIsMod(start, size);
    SlotIsMod(start + k, size);
    ModSplit(start, k, size);
  }

  /** Counter overflow does not move the slots. */
  lemma {:induction false} SlotOverflow(counter: nat, i: nat, size: nat)
    requires IsPowerOf2(size) && size < TWO_32
    ensures Slot(counter % TWO_32 + i, size) == Slot(counter + i, size)
  {
    SlotIsMod(counter % TWO_32 + i, size);
    SlotIsMod(counter + i, size);
    var c := PowerOf2DividesWord(size);
    ModOverflow(counter, i, size, c);
  }

  /** The slot of `in` is the one that follows the queued bytes. */
  lemma {:induction false} CounterSlot(inn: u32, out: u32, size: nat)
    requires IsPowerOf2(size) && size < TWO_32
    ensures Slot(out + Sub32(inn, out), size) == Slot(inn, size)
  {
    WrapsToIn(inn, out);
    SlotOverflow(out + Sub32(inn, out), 0, size);
  }

  lemma {:induction false} WrapsToIn(inn: u32, out: u32)
    ensures (out + Sub32(inn, out)) % TWO_32 == inn
  {}

  /** `s` with the bytes from position `d` on overwritten by `data`. */
  ghost function Spliced(s: seq<byte>, d: nat, data: seq<byte>): (r: seq<byte>)
    requires d + |data| <= |s|
    ensures |r| == |s|
  {
    s[..d] + data + s[d + |data|..]
  }

  lemma {:induction false} SplicedAt(s: seq<byte>, d: nat, data: seq<byte>, j: nat)
    requires d + |data| <= |s| && j < |s|
    ensures Spliced(s, d, data)[j] == if d <= j < d + |data| then data[j - d] else s[j]
  {}

  /** Copies `n` bytes of `src`, from `s` on, to position `d` of `dst`. */
  method Memcpy(dst: array<byte>, d: nat, src: seq<byte>, s: nat, n: nat)
    requires d + n <= dst.Length && s + n <= |src|
    modifies dst
    ensures dst[..] == Spliced(old(dst[..]), d, src[s..s + n])
  {
    for i := 0 to n
      invariant dst[..d] == old(dst[..d])
      invariant dst[d..d + i] == src[s..s + i]
      invariant dst[d + i..] == old(dst[d + i..])
    {
      dst[d + i] := src[s + i];
    }
    assert dst[..] == dst[..d] + dst[d..d + n] + dst[d + n..];
  }

  /** The `len` bytes of a ring that start at counter value `out`. */
  ghost function RingBytes(ring: seq<byte>, out: nat, len: nat): (q: seq<byte>)
    requires |ring| > 0
    ensures |q| == len
  {
    seq(len, i requires 0 <= i => ring[Slot(out + i, |ring|)])
  }

  /** `after` is `before` with `data` stored in the slots from `start` on, in at most two pieces. */
  ghost predicate StoredAt(before: seq<byte>, after: seq<byte>, start: nat, data: seq<byte>) {
    && |before| == |after| > 0 && start < |before| && |data| <= |before|
    && var l := Min(|data|, |before| - start);
       after == Spliced(Spliced(before, start, data[..l]), 0, data[l..])
  }

  /** The two copies of `__kfifo_put` store each byte in the slot of its own counter value. */
  lemma {:induction false} StoredByte(before: seq<byte>, after: seq<byte>, counter: nat, data: seq<byte>, k: nat)
    requires IsPowerOf2(|before|) && StoredAt(before, after, Slot(counter, |before|), data)
    requires k < |data|
    ensures after[Slot(counter + k, |before|)] == data[k]
  {
    SlotSplit(counter, k, |before|);
  }

  /** They leave every byte alone whose counter value lies less than a ring ahead of the end. */
  lemma {:induction false} KeptByte(before: seq<byte>, after: seq<byte>, out: nat, len: nat, data: seq<byte>, i: nat)
    requires IsPowerOf2(|before|) && StoredAt(before, after, Slot(out + len, |before|), data)
    requires i < len && len + |data| <= |before|
    ensures after[Slot(out + i, |before|)] == before[Slot(out + i, |before|)]
  {
    var size, start, j := |before|, Slot(out + len, |before|), Slot(out + i, |before|);
    var l := Min(|data|, size - start);
    SlotNotReached(out, len, |data|, i, size, start, l, j);
    StoredElsewhere(before, after, start, data, l, j);
  }

  /** The slots of `n` counter values from `out + len` on do not reach those less than a ring before their end. */
  lemma {:induction false} SlotNotReached(out: nat, len: nat, n: nat, i: nat, size: nat, start: nat, l: nat, j: nat)
    requires IsPowerOf2(size) && i < len && len + n <= size
    requires start == Slot(out + len, size) && l == Min(n, size - start) && j == Slot(out + i, size)
    ensures !(start <= j < start + l) && !(j < n - l)
  {
    if start <= j < start + l {
      SlotAhead(out, len, j - start, i, size, start);
    }
    if j < n - l {
      SlotAhead(out, len, l + j, i, size, start);
    }
  }

  lemma {:induction false} SlotAhead(out: nat, len: nat, k: nat, i: nat, size: nat, start: nat)
    requires IsPowerOf2(size) && i < len && len + k < size && start == Slot(out + len, size)
    ensures Slot(out + i, size) != if start + k < size then start + k else start + k - size
  {
    SlotSplit(out + len, k, size);
    SlotDistinct(out + i, out + len + k, size);
  }

  /** Slots that neither copy reaches keep their bytes. */
  lemma {:induction false} StoredElsewhere(before: seq<byte>, after: seq<byte>, start: nat, data: seq<byte>, l: nat,
                                           j: nat)
    requires StoredAt(before, after, start, data) && l == Min(|data|, |before| - start) && j < |before|
    requires !(start <= j < start + l) && !(j < |data| - l)
    ensures after[j] == before[j]
  {
    SplicedAt(before, start, data[..l], j);
    SplicedAt(Spliced(before, start, data[..l]), 0, data[l..], j);
  }

  /** Storing `data` after the queued bytes appends it to the queue. */
  lemma {:induction false} RingAppend(before: seq<byte>, after: seq<byte>, out: nat, len: nat, data: seq<byte>)
    requires IsPowerOf2(|before|) && StoredAt(before, after, Slot(out + len, |before|), data)
    requires len + |data| <= |before|
    ensures RingBytes(after, out, len + |data|) == RingBytes(before, out, len) + data
  {
    forall i | 0 <= i < len + |data|
      ensures RingBytes(after, out, len + |data|)[i] == (RingBytes(before, out, len) + data)[i]
    {
      if i < len {
        KeptByte(before, after, out, len, data, i);
      } else {
        assert out + i == (out + len) + (i - len);
        StoredByte(before, after, out + len, data, i - len);
      }
    }
  }

  /** The two copies of `__kfifo_get` read the first `n` queued bytes. */
  lemma {:induction false} RingPrefix(ring: seq<byte>, out: nat, len: nat, n: nat)
    requires IsPowerOf2(|ring|) && n <= len <= |ring|
    ensures var start := Slot(out, |ring|);
            var l := Min(n, |ring| - start);
            ring[start..start + l] + ring[..n - l] == RingBytes(ring, out, len)[..n]
  {
    var start := Slot(out, |ring|);
    var l := Min(n, |ring| - start);
    forall k | 0 <= k < n
      ensures (ring[start..start + l] + ring[..n - l])[k] == RingBytes(ring, out, len)[k]
    {
      SlotSplit(out, k, |ring|);
    }
  }

  /** Advancing `out` drops the bytes it passes. */
  lemma {:induction false} RingSuffix(ring: seq<byte>, out: nat, len: nat, n: nat)
    requires IsPowerOf2(|ring|) && |ring| < TWO_32 && n <= len
    ensures RingBytes(ring, (out + n) % TWO_32, len - n) == RingBytes(ring, out, len)[n..]
  {
    forall i | 0 <= i < len - n
      ensures RingBytes(ring, (out + n) % TWO_32, len - n)[i] == RingBytes(ring, out, len)[n..][i]
    {
      SlotOverflow(out + n, i, |ring|);
      assert out + n + i == out + (n + i);
    }
  }

  /** Copies `data` into the ring from slot `start` on, continuing at the front when the end is reached. */
  method Store(ring: array<byte>, start: nat, data: seq<byte>, n: nat)
    requires start < ring.Length && n <= ring.Length && n <= |data|
    modifies ring
    ensures StoredAt(old(ring[..]), ring[..], start, data[..n])
  {
    var l := Min(n, ring.Length - start);
    Memcpy(ring, start, data, 0, l);
    Memcpy(ring, 0, data, l, n - l);
    assert data[..n][..l] == data[0..l] && data[..n][l..] == data[l..n];
  }

  /** Copies `n` bytes out of the ring, from slot `start` on. */
  method Fetch(ring: array<byte>, start: nat, n: nat) returns (data: seq<byte>)
    requires start < ring.Length && n <= ring.Length
    ensures var l := Min(n, ring.Length - start);
            data == ring[start..start + l] + ring[..n - l]
  {
    var dst := new byte[n];
    var l := Min(n, ring.Length - start);
    var first, second := ring[start..start + l], ring[..n - l];
    ghost var blank := dst[..];
    Memcpy(dst, 0, first, 0, l);
    Memcpy(dst, l, second, 0, n - l);
    data := dst[..];
    assert first[0..l] == first && second[0..n - l] == second;
    TwoPieces(blank, first, second);
  }

  lemma {:induction false} TwoPieces(s: seq<byte>, a: seq<byte>, b: seq<byte>)
    requires |s| == |a| + |b|
    ensures Spliced(Spliced(s, 0, a), |a|, b) == a + b
  {}

  /** What `__kfifo_put` does to the queue, from the ring and the counters before and after. */
  lemma {:induction false} PutEffect(before: seq<byte>, after: seq<byte>, inn: u32, out: u32, data: seq<byte>)
    requires IsPowerOf2(|before|) && |before| < TWO_32 && Sub32(inn, out) + |data| <= |before|
    requires StoredAt(before, after, Slot(inn, |before|), data)
    ensures var inn' := (inn + |data|) % TWO_32;
            && Sub32(inn', out) == Sub32(inn, out) + |data|
            && RingBytes(after, out, Sub32(inn', out)) == RingBytes(before, out, Sub32(inn, out)) + data
  {
    CounterAdvance(inn, out, |data|);
    CounterSlot(inn, out, |before|);
    RingAppend(before, after, out, Sub32(inn, out), data);
  }

  /** What `__kfifo_get` does to the queue. */
  lemma {:induction false} GetEffect(ring: seq<byte>, inn: u32, out: u32, n: nat)
    requires IsPowerOf2(|ring|) && |ring| < TWO_32 && n <= Sub32(inn, out) <= |ring|
    ensures var out' := (out + n) % TWO_32;
            var start := Slot(out, |ring|);
            var l := Min(n, |ring| - start);
            && Sub32(inn, out') == Sub32(inn, out) - n
            && RingBytes(ring, out, Sub32(inn, out)) ==
               (ring[start..start + l] + ring[..n - l]) + RingBytes(ring, out', Sub32(inn, out'))
  {
    var len := Sub32(inn, out);
    CounterDrain(inn, out, n);
    RingPrefix(ring, out, len, n);
    RingSuffix(ring, out, len, n);
    var q := RingBytes(ring, out, len);
    assert q == q[..n] + q[n..];
  }

  class KFifo {
    const buffer: array<byte>
    const size: u32
    var inn: u32
    var out: u32

    ghost predicate Valid()
      reads this
    {
      IsPowerOf2(size) && size == buffer.Length && Sub32(inn, out) <= size
    }

    /** The queued bytes, oldest first. */
    ghost function Contents(): (q: seq<byte>)
      requires Valid()
      reads this, buffer
    {
      RingBytes(buffer[..], out, Sub32(inn, out))
    }

    /** `kfifo_init`; a size that is not a power of two stops the program there. */
    constructor (buffer: array<byte>, size: u32)
      requires IsPowerOf2(size) && buffer.Length == size
      ensures Valid() && Contents() == []
      ensures this.buffer == buffer && this.size == size
    {
      this.buffer, this.size := buffer, size;
      inn, out := 0, 0;
    }

    /** `__kfifo_put`: appends the longest prefix of `data` that fits and returns its length. */
    method PutUnlocked(data: seq<byte>) returns (n: u32)
      requires Valid() && |data| < TWO_32
      modifies this`inn, buffer
      ensures Valid()
      ensures n == Min(|data|, size - |old(Contents())|)
      ensures Contents() == old(Contents()) + data[..n]
    {
      n := Min(|data|, (size - inn + out) % TWO_32);
      FreeSpace(inn, out, size);
      ghost var before := buffer[..];
      Store(buffer, Slot(inn, size), data, n);
      PutEffect(before, buffer[..], inn, out, data[..n]);
      inn := (inn + n) % TWO_32;
    }

    /** `__kfifo_get`: removes and returns the first `len` bytes, or all of them if there are fewer. */
    method GetUnlocked(len: u32) returns (data: seq<byte>)
      requires Valid()
      modifies this`out
      ensures Valid()
      ensures |data| == Min(len, |old(Contents())|)
      ensures old(Contents()) == data + Contents()
    {
      var n := Min(len, Sub32(inn, out));
      data := Fetch(buffer, Slot(out, size), n);
      GetEffect(buffer[..], inn, out, n);
      out := (out + n) % TWO_32;
    }

    /** `__kfifo_len`. */
    method Len() returns (n: u32)
      requires Valid()
      ensures n == |Contents()|
    {
      n := Sub32(inn, out);
    }

    /** `kfifo_reset`. */
    method Reset()
      requires Valid()
      modifies this`inn, this`out
      ensures Valid() && Contents() == []
    {
      inn, out := 0, 0;
    }

    /** `kfifo_put`: the locked form does the same, the lock being empty. */
    method Put(data: seq<byte>) returns (n: u32)
      requires Valid() && |data| < TWO_32
      modifies this`inn, buffer
      ensures Valid()
      ensures n == Min(|data|, size - |old(Contents())|)
      ensures Contents() == old(Contents()) + data[..n]
    {
      n := PutUnlocked(data);
    }

    /** `kfifo_get`: restarting the counters at zero when the queue is empty cannot be observed. */
    method Get(len: u32) returns (data: seq<byte>)
      requires Valid()
      modifies this`inn, this`out
      ensures Valid()
      ensures |data| == Min(len, |old(Contents())|)
      ensures old(Contents()) == data + Contents()
    {
      data := GetUnlocked(len);
      if inn == out {
        inn, out := 0, 0;
      }
    }
  }

  // ----- the bounded queue that the ring refines

  /** One call made by a client, and what it gets back. */
  datatype Call = CallPut(data: seq<byte>) | CallGet(len: u32) | CallReset

  datatype Reply = Accepted(n: nat) | Delivered(data: seq<byte>) | Cleared

  /** How many bytes of `data` a queue of `size` bytes that holds `q` takes. */
  function Taken(q: seq<byte>, size: nat, data: seq<byte>): nat {
    if |q| <= size then Min(|data|, size - |q|) else 0
  }

  function QueueAfter(q: seq<byte>, size: nat, call: Call): seq<byte> {
    match call
    case CallPut(data) => q + data[..Taken(q, size, data)]
    case CallGet(len) => q[Min(len, |q|)..]
    case CallReset => []
  }

  function QueueReply(q: seq<byte>, size: nat, call: Call): Reply {
    match call
    case CallPut(data) => Accepted(Taken(q, size, data))
    case CallGet(len) => Delivered(q[..Min(len, |q|)])
    case CallReset => Cleared
  }

  /** The queue after a sequence of calls, and the replies to them. */
  function QueueRun(q: seq<byte>, size: nat, calls: seq<Call>): seq<byte> {
    if calls == [] then q
    else QueueAfter(QueueRun(q, size, calls[..|calls| - 1]), size, calls[|calls| - 1])
  }

  function QueueReplies(q: seq<byte>, size: nat, calls: seq<Call>): seq<Reply> {
    if calls == [] then []
    else
      var before := calls[..|calls| - 1];
      QueueReplies(q, size, before) + [QueueReply(QueueRun(q, size, before), size, calls[|calls| - 1])]
  }

  /** One call on the ring does what it does on the queue. */
  method Perform(fifo: KFifo, call: Call) returns (reply: Reply)
    requires fifo.Valid() && (call.CallPut? ==> |call.data| < TWO_32)
    modifies fifo`inn, fifo`out, fifo.buffer
    ensures fifo.Valid()
    ensures fifo.Contents() == QueueAfter(old(fifo.Contents()), fifo.size, call)
    ensures reply == QueueReply(old(fifo.Contents()), fifo.size, call)
  {
    ghost var q := fifo.Contents();
    match call {
      case CallPut(data) =>
        var n := fifo.Put(data);
        reply := Accepted(n);
      case CallGet(len) =>
        var data := fifo.Get(len);
        Cut(q, data, fifo.Contents());
        reply := Delivered(data);
      case CallReset =>
        fifo.Reset();
        reply := Cleared;
    }
  }

  lemma {:induction false} Cut(q: seq<byte>, a: seq<byte>, b: seq<byte>)
    requires q == a + b
    ensures q[..|a|] == a && q[|a|..] == b
  {}

  /** Over any sequence of puts, gets and resets the ring gives the replies of the queue and ends with its contents. */
  method RunCalls(fifo: KFifo, calls: seq<Call>) returns (replies: seq<Reply>)
    requires fifo.Valid()
    requires forall i :: 0 <= i < |calls| && calls[i].CallPut? ==> |calls[i].data| < TWO_32
    modifies fifo`inn, fifo`out, fifo.buffer
    ensures fifo.Valid()
    ensures fifo.Contents() == QueueRun(old(fifo.Contents()), fifo.size, calls)
    ensures replies == QueueReplies(old(fifo.Contents()), fifo.size, calls)
  {
    replies := [];
    ghost var q := fifo.Contents();
    assert calls[..0] == [];
    for i := 0 to |calls|
      invariant fifo.Valid() && fifo.Contents() == QueueRun(q, fifo.size, calls[..i])
      invariant replies == QueueReplies(q, fifo.size, calls[..i])
    {
      assert calls[..i + 1][..i] == calls[..i];
      var reply := Perform(fifo, calls[i]);
      replies := replies + [reply];
    }
    assert calls[..|calls|] == calls;
  }

  /** The bytes that the puts of a run were told are accepted, and those that its gets returned. */
  function AllAccepted(calls: seq<Call>, replies: seq<Reply>): seq<byte>
    requires |replies| == |calls|
  {
    if calls == [] then []
    else
      var n := |calls| - 1;
      AllAccepted(calls[..n], replies[..n]) +
      if calls[n].CallPut? && replies[n].Accepted? && replies[n].n <= |calls[n].data| then
        calls[n].data[..replies[n].n]
      else []
  }

  function AllDelivered(replies: seq<Reply>): seq<byte> {
    if replies == [] then []
    else AllDelivered(replies[..|replies| - 1]) +
         if replies[|replies| - 1].Delivered? then replies[|replies| - 1].data else []
  }

  lemma {:induction false} ReplyCount(q: seq<byte>, size: nat, calls: seq<Call>)
    ensures |QueueReplies(q, size, calls)| == |calls|
    decreases |calls|
  {
    if calls != [] {
      ReplyCount(q, size, calls[..|calls| - 1]);
    }
  }

  /** Without resets, what was queued at first and what was accepted is what was delivered and what is still queued. */
  lemma {:induction false} QueueConserves(q: seq<byte>, size: nat, calls: seq<Call>)
    requires forall i :: 0 <= i < |calls| ==> !calls[i].CallReset?
    ensures |QueueReplies(q, size, calls)| == |calls|
    ensures q + AllAccepted(calls, QueueReplies(q, size, calls)) ==
            AllDelivered(QueueReplies(q, size, calls)) + QueueRun(q, size, calls)
    decreases |calls|
  {
    ReplyCount(q, size, calls);
    if calls == [] {
      assert q + [] == [] + q;
    } else {
      var n := |calls| - 1;
      var before, call := calls[..n], calls[n];
      QueueConserves(q, size, before);
      var replies, now := QueueReplies(q, size, before), QueueRun(q, size, before);
      AcceptedStep(calls, replies, now, size);
      DeliveredStep(calls, replies, now, size);
      ConserveStep(q, AllAccepted(before, replies), AllDelivered(replies), now, size, call);
      assert QueueReplies(q, size, calls) == replies + [QueueReply(now, size, call)];
      assert QueueRun(q, size, calls) == QueueAfter(now, size, call);
    }
  }

  /** What the last call of a run adds to the accepted bytes, and to the delivered ones. */
  lemma {:induction false} AcceptedStep(calls: seq<Call>, replies: seq<Reply>, now: seq<byte>, size: nat)
    requires |calls| == |replies| + 1
    ensures var n := |replies|;
            AllAccepted(calls, replies + [QueueReply(now, size, calls[n])]) ==
            AllAccepted(calls[..n], replies) + PutPart(now, size, calls[n])
  {
    assert (replies + [QueueReply(now, size, calls[|replies|])])[..|replies|] == replies;
  }

  lemma {:induction false} DeliveredStep(calls: seq<Call>, replies: seq<Reply>, now: seq<byte>, size: nat)
    requires |calls| == |replies| + 1
    ensures var n := |replies|;
            AllDelivered(replies + [QueueReply(now, size, calls[n])]) == AllDelivered(replies) + GetPart(now, calls[n])
  {
    assert (replies + [QueueReply(now, size, calls[|replies|])])[..|replies|] == replies;
  }

  function PutPart(q: seq<byte>, size: nat, call: Call): seq<byte> {
    if call.CallPut? then call.data[..Taken(q, size, call.data)] else []
  }

  function GetPart(q: seq<byte>, call: Call): seq<byte> {
    if call.CallGet? then q[..Min(call.len, |q|)] else []
  }

  lemma {:induction false} ConserveStep(first: seq<byte>, accepted: seq<byte>, delivered: seq<byte>, q: seq<byte>,
                                        size: nat, call: Call)
    requires first + accepted == delivered + q && !call.CallReset?
    ensures first + (accepted + PutPart(q, size, call)) == delivered + GetPart(q, call) + QueueAfter(q, size, call)
  {
    assert first + (accepted + PutPart(q, size, call)) == first + accepted + PutPart(q, size, call);
  }
}
