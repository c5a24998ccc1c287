/**
 * One writer inside `__kfifo_put` and one reader inside `__kfifo_get`, without a lock, interleaved at
 * every byte copy and every counter update. Memory is sequentially consistent.
 */
module KFifoConcurrent {
  import opened Bits
  import opened KFifoModel

  /** Local variables of the writer: `len`, the first slot and `l` as computed on entry, and the bytes copied so far. */
  datatype Writer = WriterIdle | Putting(data: seq<byte>, len: nat, start: nat, l: nat, copied: nat)

  /** Local variables of the reader; `got` is what its destination buffer holds so far. */
  datatype Reader = ReaderIdle | Getting(len: nat, l: nat, got: seq<byte>)

  /** The shared structure, both threads, and the history of completed calls. */
  datatype State = State(ring: seq<byte>, inn: u32, out: u32, writer: Writer, reader: Reader,
                         accepted: seq<byte>, delivered: seq<byte>)

  datatype Step =
    | PutBegin(data: seq<byte>)  // reads `out` once, computes len and l
    | PutByte                    // one byte of either memcpy
    | PutEnd                     // fifo->in += len
    | GetBegin(len: u32)         // reads `in` once, computes len and l
    | GetByte
    | GetEnd                     // fifo->out += len

  predicate Initial(s: State) {
    && IsPowerOf2(|s.ring|) && |s.ring| < TWO_32
    && s.inn == 0 && s.out == 0 && s.writer.WriterIdle? && s.reader.ReaderIdle?
    && s.accepted == [] && s.delivered == []
  }

  /** The slot that byte number `k` of a copy goes to: the first memcpy starts at the counter, the second at 0. */
  function CopySlot(start: nat, l: nat, k: nat): nat {
    if k < l then start + k else k - l
  }

  predicate Enabled(s: State, step: Step) {
    match step
    case PutBegin(data) => s.writer.WriterIdle? && |data| < TWO_32
    case PutByte => s.writer.Putting? && s.writer.copied < s.writer.len
    case PutEnd => s.writer.Putting? && s.writer.copied == s.writer.len
    case GetBegin(_) => s.reader.ReaderIdle?
    case GetByte => s.reader.Getting? && |s.reader.got| < s.reader.len
    case GetEnd => s.reader.Getting? && |s.reader.got| == s.reader.len
  }

  /** Each step touches only indices inside the ring; `Inv` implies it. */
  predicate InBounds(s: State) {
    && |s.ring| > 0
    && (s.writer.Putting? ==>
          && s.writer.len <= |s.writer.data|
          && (s.writer.copied < s.writer.len ==>
                CopySlot(s.writer.start, s.writer.l, s.writer.copied) < |s.ring|))
    && (s.reader.Getting? && |s.reader.got| < s.reader.len ==>
          CopySlot(Slot(s.out, |s.ring|), s.reader.l, |s.reader.got|) < |s.ring|)
  }

  function Apply(s: State, step: Step): State
    requires InBounds(s) && Enabled(s, step)
  {
    var size := |s.ring|;
    match step
    case PutBegin(data) =>
      var len := Min(|data|, (size - s.inn + s.out) % TWO_32);
      s.(writer := Putting(data, len, Slot(s.inn, size), Min(len, size - Slot(s.inn, size)), 0))
    case PutByte =>
      var w := s.writer;
      s.(ring := s.ring[CopySlot(w.start, w.l, w.copied) := w.data[w.copied]],
         writer := w.(copied := w.copied + 1))
    case PutEnd =>
      s.(inn := (s.inn + s.writer.len) % TWO_32,
         accepted := s.accepted + s.writer.data[..s.writer.len],
         writer := WriterIdle)
    case GetBegin(len) =>
      var n := Min(len, Sub32(s.inn, s.out));
      s.(reader := Getting(n, Min(n, size - Slot(s.out, size)), []))
    case GetByte =>
      var r := s.reader;
      s.(reader := r.(got := r.got + [s.ring[CopySlot(Slot(s.out, size), r.l, |r.got|)]]))
    case GetEnd =>
      s.(out := (s.out + s.reader.len) % TWO_32,
         delivered := s.delivered + s.reader.got,
         reader := ReaderIdle)
  }

  // ----- the invariant, in terms of the unbounded numbers of bytes written and read

  ghost predicate CountersInv(s: State) {
    && IsPowerOf2(|s.ring|) && |s.ring| < TWO_32
    && s.inn == |s.accepted| % TWO_32 && s.out == |s.delivered| % TWO_32
    && |s.delivered| <= |s.accepted| <= |s.delivered| + |s.ring|
  }

  /** The byte with number `j`, counted from the start of the run, lies in its slot. */
  ghost predicate Stored(s: State, j: nat, b: byte) {
    |s.ring| > 0 && s.ring[Slot(j, |s.ring|)] == b
  }

  ghost predicate QueueInv(s: State) {
    && s.delivered <= s.accepted
    && forall j :: |s.delivered| <= j < |s.accepted| ==> Stored(s, j, s.accepted[j])
  }

  ghost predicate WriterInv(s: State) {
    s.writer.Putting? && |s.ring| > 0 ==>
      var w := s.writer;
      && w.copied <= w.len <= |w.data|
      && |s.accepted| + w.len <= |s.delivered| + |s.ring|
      && w.start == Slot(s.inn, |s.ring|) && w.l == Min(w.len, |s.ring| - w.start)
      && forall k :: 0 <= k < w.copied ==> Stored(s, |s.accepted| + k, w.data[k])
  }

  ghost predicate ReaderInv(s: State) {
    s.reader.Getting? && |s.ring| > 0 ==>
      var r := s.reader;
      && |r.got| <= r.len
      && |s.delivered| + r.len <= |s.accepted|
      && r.l == Min(r.len, |s.ring| - Slot(s.out, |s.ring|))
      && s.delivered + r.got <= s.accepted
  }

  ghost predicate Inv(s: State) {
    CountersInv(s) && QueueInv(s) && WriterInv(s) && ReaderInv(s)
  }

  /** Counter values recovered from their 32-bit images. */
  lemma {:induction false} Distance(a: nat, d: nat, size: nat)
    requires d <= a <= d + size && size < TWO_32
    ensures Sub32(a % TWO_32, d % TWO_32) == a - d
    ensures (size - a % TWO_32 + d % TWO_32) % TWO_32 == size - (a - d)
  {}

  /** The slot used for byte `k` of a copy that starts at counter value `counter`. */
  lemma {:induction false} CopySlotIsSlot(counter: nat, len: nat, k: nat, size: nat)
    requires IsPowerOf2(size) && size < TWO_32 && k < len <= size
    ensures var start := Slot(counter % TWO_32, size);
            CopySlot(start, Min(len, size - start), k) == Slot(counter + k, size)
  {
    SlotOverflow(counter, 0, size);
    SlotSplit(counter, k, size);
  }

  lemma {:induction false} InvInBounds(s: State)
    requires Inv(s)
    ensures InBounds(s)
  {
    if s.writer.Putting? && s.writer.copied < s.writer.len {
      CopySlotIsSlot(|s.accepted|, s.writer.len, s.writer.copied, |s.ring|);
    }
    if s.reader.Getting? && |s.reader.got| < s.reader.len {
      CopySlotIsSlot(|s.delivered|, s.reader.len, |s.reader.got|, |s.ring|);
    }
  }

  lemma {:induction false} PutBeginKeepsInv(s: State, data: seq<byte>)
    requires Inv(s) && InBounds(s) && Enabled(s, PutBegin(data))
    ensures Inv(Apply(s, PutBegin(data)))
  {
    var s' := Apply(s, PutBegin(data));
    Distance(|s.accepted|, |s.delivered|, |s.ring|);
    RingUnchanged(s, s');
  }

  /** The slot the writer is about to fill is none of those that hold unread or freshly copied bytes. */
  lemma {:induction false} WriterSlotIsFree(s: State, j: nat)
    requires Inv(s) && InBounds(s) && Enabled(s, PutByte)
    requires |s.delivered| <= j < |s.accepted| + s.writer.copied
    ensures Slot(j, |s.ring|) != CopySlot(s.writer.start, s.writer.l, s.writer.copied)
  {
    CopySlotIsSlot(|s.accepted|, s.writer.len, s.writer.copied, |s.ring|);
    SlotDistinct(j, |s.accepted| + s.writer.copied, |s.ring|);
  }

  lemma {:induction false} PutByteKeepsInv(s: State)
    requires Inv(s) && InBounds(s) && Enabled(s, PutByte)
    ensures Inv(Apply(s, PutByte))
  {
    var s', w := Apply(s, PutByte), s.writer;
    forall j: nat, b | |s.delivered| <= j < |s.accepted| + w.copied && Stored(s, j, b)
      ensures Stored(s', j, b)
    {
      WriterSlotIsFree(s, j);
    }
    PutByteStores(s, s');
    OneMoreCopied(s, s');
  }

  lemma {:induction false} OneMoreCopied(s: State, s': State)
    requires WriterInv(s) && |s'.ring| == |s.ring| > 0 && s.writer.Putting? && s.writer.copied < s.writer.len
    requires s'.inn == s.inn && s'.accepted == s.accepted && s'.delivered == s.delivered
    requires s'.writer == s.writer.(copied := s.writer.copied + 1)
    requires forall j: nat, b ::
               |s.delivered| <= j < |s.accepted| + s.writer.copied && Stored(s, j, b) ==> Stored(s', j, b)
    requires Stored(s', |s.accepted| + s.writer.copied, s.writer.data[s.writer.copied])
    requires |s.delivered| <= |s.accepted|
    ensures WriterInv(s')
  {
    var w := s.writer;
    forall k | 0 <= k < w.copied + 1 ensures Stored(s', |s.accepted| + k, w.data[k]) {
      if k < w.copied {
        assert Stored(s, |s.accepted| + k, w.data[k]);
      }
    }
  }

  lemma {:induction false} PutByteStores(s: State, s': State)
    requires Inv(s) && InBounds(s) && Enabled(s, PutByte) && s' == Apply(s, PutByte)
    ensures Stored(s', |s.accepted| + s.writer.copied, s.writer.data[s.writer.copied])
  {
    CopySlotIsSlot(|s.accepted|, s.writer.len, s.writer.copied, |s.ring|);
  }

  lemma {:induction false} PutEndKeepsInv(s: State)
    requires Inv(s) && InBounds(s) && Enabled(s, PutEnd)
    ensures Inv(Apply(s, PutEnd))
  {
    var s' := Apply(s, PutEnd);
    CounterMoves(|s.accepted|, s.writer.len, s.inn);
    forall j | |s'.delivered| <= j < |s'.accepted|
      ensures Stored(s', j, s'.accepted[j])
    {
      PutEndStores(s, j);
    }
  }

  lemma {:induction false} PutEndStores(s: State, j: nat)
    requires QueueInv(s) && WriterInv(s) && |s.ring| > 0 && s.writer.Putting? && s.writer.copied == s.writer.len
    requires |s.delivered| <= j < |s.accepted| + s.writer.len
    ensures Stored(s, j, (s.accepted + s.writer.data[..s.writer.len])[j])
  {
    if j >= |s.accepted| {
      assert Stored(s, |s.accepted| + (j - |s.accepted|), s.writer.data[j - |s.accepted|]);
    }
  }

  lemma {:induction false} GetBeginKeepsInv(s: State, len: u32)
    requires Inv(s) && InBounds(s) && Enabled(s, GetBegin(len))
    ensures Inv(Apply(s, GetBegin(len)))
  {
    var s' := Apply(s, GetBegin(len));
    Distance(|s.accepted|, |s.delivered|, |s.ring|);
    RingUnchanged(s, s');
  }

  lemma {:induction false} GetByteKeepsInv(s: State)
    requires Inv(s) && InBounds(s) && Enabled(s, GetByte)
    ensures Inv(Apply(s, GetByte))
  {
    var s', r := Apply(s, GetByte), s.reader;
    var j := |s.delivered| + |r.got|;
    CopySlotIsSlot(|s.delivered|, r.len, |r.got|, |s.ring|);
    assert Stored(s, j, s.accepted[j]);
    assert s'.reader.got == r.got + [s.accepted[j]];
    RingUnchanged(s, s');
  }

  /** What says something about the ring and the counters says the same of another state with the same ones. */
  lemma {:induction false} RingUnchanged(s: State, s': State)
    requires s'.ring == s.ring && s'.inn == s.inn && s'.out == s.out
    requires s'.accepted == s.accepted && s'.delivered == s.delivered
    ensures CountersInv(s) ==> CountersInv(s')
    ensures QueueInv(s) ==> QueueInv(s')
    ensures WriterInv(s) && s'.writer == s.writer ==> WriterInv(s')
  {
    assert forall j, b :: Stored(s', j, b) == Stored(s, j, b);
  }

  lemma {:induction false} GetEndKeepsInv(s: State)
    requires Inv(s) && InBounds(s) && Enabled(s, GetEnd)
    ensures Inv(Apply(s, GetEnd))
  {
    var s' := Apply(s, GetEnd);
    CounterMoves(|s.delivered|, s.reader.len, s.out);
    assert forall j, b :: Stored(s', j, b) == Stored(s, j, b);
    GetEndKeepsWriter(s, s');
  }

  /** Adding to a counter modulo 2^32 follows the count. */
  lemma {:induction false} CounterMoves(n: nat, len: nat, counter: u32)
    requires counter == n % TWO_32
    ensures (counter + len) % TWO_32 == (n + len) % TWO_32
  {}

  /** A finished get gives the writer more room, and moves none of its bytes. */
  lemma {:induction false} GetEndKeepsWriter(s: State, s': State)
    requires WriterInv(s) && s'.ring == s.ring && s'.writer == s.writer && s'.accepted == s.accepted && s'.inn == s.inn
    requires |s'.delivered| >= |s.delivered|
    ensures WriterInv(s')
  {
    assert forall j, b :: Stored(s', j, b) == Stored(s, j, b);
  }

  lemma {:induction false} StepKeepsInv(s: State, step: Step)
    requires Inv(s) && InBounds(s) && Enabled(s, step)
    ensures Inv(Apply(s, step))
  {
    match step
    case PutBegin(data) => PutBeginKeepsInv(s, data);
    case PutByte => PutByteKeepsInv(s);
    case PutEnd => PutEndKeepsInv(s);
    case GetBegin(len) => GetBeginKeepsInv(s, len);
    case GetByte => GetByteKeepsInv(s);
    case GetEnd => GetEndKeepsInv(s);
  }

  /** The unread bytes are the ring read from `out` on. */
  lemma {:induction false} QueueInRing(s: State)
    requires CountersInv(s) && QueueInv(s)
    ensures RingBytes(s.ring, s.out, |s.accepted| - |s.delivered|) == s.accepted[|s.delivered|..]
  {
    var q := RingBytes(s.ring, s.out, |s.accepted| - |s.delivered|);
    forall i | 0 <= i < |q|
      ensures q[i] == s.accepted[|s.delivered|..][i]
    {
      SlotOverflow(|s.delivered|, i, |s.ring|);
      assert Stored(s, |s.delivered| + i, s.accepted[|s.delivered| + i]);
    }
  }

  // ----- whole runs

  /** `run` is a run of the two threads: every step is enabled where it is taken and leads to the next state. */
  ghost predicate IsRun(states: seq<State>, steps: seq<Step>) {
    && |states| == |steps| + 1 && Initial(states[0])
    && forall i :: 0 <= i < |steps| ==>
         Enabled(states[i], steps[i]) && InBounds(states[i]) && states[i + 1] == Apply(states[i], steps[i])
  }

  lemma {:induction false} RunKeepsInv(states: seq<State>, steps: seq<Step>, n: nat)
    requires IsRun(states, steps) && n < |states|
    ensures Inv(states[n])
  {
    if n > 0 {
      RunKeepsInv(states, steps, n - 1);
      StepKeepsInv(states[n - 1], steps[n - 1]);
    }
  }

  /** What the reader has copied out, including an unfinished get. */
  function BytesRead(s: State): seq<byte> {
    if s.reader.Getting? then s.delivered + s.reader.got else s.delivered
  }

  /**
   * Lock freedom: in every state of every run the bytes read are a prefix of the bytes accepted, and the
   * ring read through the 32-bit counters holds exactly the accepted bytes that have not been taken out.
   */
  lemma {:induction false} ReadsArePrefixOfWrites(states: seq<State>, steps: seq<Step>, n: nat)
    requires IsRun(states, steps) && n < |states|
    ensures var s := states[n];
            && BytesRead(s) <= s.accepted
            && Sub32(s.inn, s.out) == |s.accepted| - |s.delivered| <= |s.ring|
            && |s.ring| > 0
            && RingBytes(s.ring, s.out, Sub32(s.inn, s.out)) == s.accepted[|s.delivered|..]
  {
    RunKeepsInv(states, steps, n);
    var s := states[n];
    Distance(|s.accepted|, |s.delivered|, |s.ring|);
    QueueInRing(s);
  }

  /** No step of any run overwrites the slot of a byte that is still to be read. */
  lemma {:induction false} UnreadBytesAreNotOverwritten(states: seq<State>, steps: seq<Step>, n: nat, j: nat)
    requires IsRun(states, steps) && n < |steps|
    requires |states[n].delivered| <= j < |states[n].accepted|
    ensures |states[n].ring| == |states[n + 1].ring| > 0
    ensures states[n + 1].ring[Slot(j, |states[n].ring|)] == states[n].ring[Slot(j, |states[n].ring|)]
  {
    RunKeepsInv(states, steps, n);
    if steps[n].PutByte? {
      WriterSlotIsFree(states[n], j);
    }
  }

  /** No run gets stuck outside the ring: whatever is enabled stays in bounds. */
  lemma {:induction false} RunsStayInBounds(states: seq<State>, steps: seq<Step>, n: nat)
    requires IsRun(states, steps) && n < |states|
    ensures InBounds(states[n])
  {
    RunKeepsInv(states, steps, n);
    InvInBounds(states[n]);
  }
}
