/**
 * `kfifo_get` beside `kfifo_put` with the empty locks of the wrappers: when the reader finds the counters equal it
 * clears both, in two steps. The steps of the writer may fall in between.
 */
module KFifoReset {
  import opened Common
  import opened Bits
  import opened KFifoModel
  import opened KFifoConcurrent

  /** Where the reader is outside `__kfifo_get`: about to compare the counters, to clear `out`, or to clear `in`. */
  datatype Phase = Ready | Checking | Emptied | OutCleared

  /** `s` with its history since the last reset, and the whole history. */
  datatype World = World(s: State, phase: Phase, accepted: seq<byte>, delivered: seq<byte>)

  datatype Event = Inner(step: Step) | Check | ClearOut | ClearIn

  predicate Fresh(w: World) {
    Initial(w.s) && w.phase.Ready? && w.accepted == [] && w.delivered == []
  }

  predicate CanDo(w: World, e: Event) {
    match e
    case Inner(step) => InBounds(w.s) && Enabled(w.s, step) && (step.GetBegin? ==> w.phase.Ready?)
    case Check => w.phase.Checking?
    case ClearOut => w.phase.Emptied?
    case ClearIn => w.phase.OutCleared?
  }

  function Do(w: World, e: Event): World
    requires CanDo(w, e)
  {
    match e
    case Inner(step) =>
      World(Apply(w.s, step), if step.GetEnd? then Checking else w.phase,
            if step.PutEnd? then w.accepted + w.s.writer.data[..w.s.writer.len] else w.accepted,
            if step.GetEnd? then w.delivered + w.s.reader.got else w.delivered)
    case Check => w.(phase := if w.s.inn == w.s.out then Emptied else Ready)
    case ClearOut => w.(s := w.s.(out := 0), phase := OutCleared)
    case ClearIn => w.(s := w.s.(inn := 0, accepted := [], delivered := []), phase := Ready)
  }

  /** No put is under way between the comparison and the end of the reset. */
  predicate Apart(w: World) {
    w.phase.Emptied? || w.phase.OutCleared? ==> w.s.writer.WriterIdle?
  }

  // ----- runs in which no reset falls inside a put

  /** Both histories continue the same one, which ended with the last reset. */
  ghost predicate Continues(w: World) {
    && |w.s.accepted| <= |w.accepted|
    && var before := w.accepted[..|w.accepted| - |w.s.accepted|];
       w.accepted == before + w.s.accepted && w.delivered == before + w.s.delivered
  }

  ghost predicate PhaseInv(w: World) {
    match w.phase
    case Ready => Inv(w.s)
    case Checking => Inv(w.s) && w.s.reader.ReaderIdle?
    case Emptied => Inv(w.s) && w.s.reader.ReaderIdle? && w.s.accepted == w.s.delivered
    case OutCleared =>
      w.s.out == 0 && Inv(w.s.(out := w.s.inn)) && w.s.reader.ReaderIdle? && w.s.accepted == w.s.delivered
  }

  ghost predicate WorldInv(w: World) {
    Continues(w) && PhaseInv(w)
  }

  lemma {:induction false} InnerContinues(w: World, step: Step)
    requires CanDo(w, Inner(step)) && Continues(w)
    ensures Continues(Do(w, Inner(step)))
  {
    var w', before := Do(w, Inner(step)), w.accepted[..|w.accepted| - |w.s.accepted|];
    if step.PutEnd? {
      var data := w.s.writer.data[..w.s.writer.len];
      assert before + w.s.accepted + data == before + (w.s.accepted + data);
    } else if step.GetEnd? {
      assert before + w.s.delivered + w.s.reader.got == before + (w.s.delivered + w.s.reader.got);
    }
    assert w'.accepted[..|w'.accepted| - |w'.s.accepted|] == before;
  }

  /** In the phases of a reset both threads are idle, and a put that begins would not be apart from it. */
  lemma {:induction false} InnerKeepsInv(w: World, step: Step)
    requires CanDo(w, Inner(step)) && WorldInv(w) && Apart(w) && Apart(Do(w, Inner(step)))
    ensures WorldInv(Do(w, Inner(step)))
  {
    InnerContinues(w, step);
    if w.phase.Ready? || w.phase.Checking? {
      StepKeepsInv(w.s, step);
    }
  }

  lemma {:induction false} CheckKeepsInv(w: World)
    requires CanDo(w, Check) && WorldInv(w)
    ensures WorldInv(Do(w, Check))
  {
    var s := w.s;
    Distance(|s.accepted|, |s.delivered|, |s.ring|);
    if s.inn == s.out {
      assert |s.accepted| == |s.delivered|;
    }
  }

  lemma {:induction false} ClearOutKeepsInv(w: World)
    requires CanDo(w, ClearOut) && WorldInv(w)
    ensures WorldInv(Do(w, ClearOut))
  {
    var w' := Do(w, ClearOut);
    assert w.s.inn == w.s.out;
    assert w'.s.(out := w'.s.inn) == w.s;
  }

  /** After a reset the run goes on as from the start. */
  lemma {:induction false} ClearInKeepsInv(w: World)
    requires CanDo(w, ClearIn) && WorldInv(w) && Apart(w)
    ensures WorldInv(Do(w, ClearIn))
  {
    var w' := Do(w, ClearIn);
    assert w'.accepted[..|w'.accepted|] == w'.accepted;
    assert w.accepted == w.delivered;
    assert w'.accepted + [] == w'.accepted;
  }

  lemma {:induction false} EventKeepsInv(w: World, e: Event)
    requires CanDo(w, e) && WorldInv(w) && Apart(w) && Apart(Do(w, e))
    ensures WorldInv(Do(w, e))
  {
    match e
    case Inner(step) => InnerKeepsInv(w, step);
    case Check => CheckKeepsInv(w);
    case ClearOut => ClearOutKeepsInv(w);
    case ClearIn => ClearInKeepsInv(w);
  }

  ghost predicate IsResetRun(worlds: seq<World>, events: seq<Event>) {
    && |worlds| == |events| + 1 && Fresh(worlds[0])
    && forall i :: 0 <= i < |events| ==> CanDo(worlds[i], events[i]) && worlds[i + 1] == Do(worlds[i], events[i])
  }

  /** No reset of the run falls inside a put. */
  ghost predicate AllApart(worlds: seq<World>) {
    forall i :: 0 <= i < |worlds| ==> Apart(worlds[i])
  }

  lemma {:induction false} ResetRunKeepsInv(worlds: seq<World>, events: seq<Event>, n: nat)
    requires IsResetRun(worlds, events) && AllApart(worlds) && n < |worlds|
    ensures WorldInv(worlds[n])
  {
    if n > 0 {
      ResetRunKeepsInv(worlds, events, n - 1);
      assert Apart(worlds[n - 1]) && Apart(worlds[n]);
      EventKeepsInv(worlds[n - 1], events[n - 1]);
    }
  }

  function AllRead(w: World): seq<byte> {
    if w.s.reader.Getting? then w.delivered + w.s.reader.got else w.delivered
  }

  /**
   * As long as no reset falls inside a put, all that was read is a prefix of all that was accepted, and the ring holds
   * exactly the rest; while `out` alone is cleared there is no rest.
   */
  lemma {:induction false} ResetsApart(worlds: seq<World>, events: seq<Event>, n: nat)
    requires IsResetRun(worlds, events) && AllApart(worlds) && n < |worlds|
    ensures var w := worlds[n];
            && |w.s.ring| > 0 && InBounds(w.s) && AllRead(w) <= w.accepted && |w.delivered| <= |w.accepted|
            && (if w.phase.OutCleared? then w.delivered == w.accepted
                else RingBytes(w.s.ring, w.s.out, Sub32(w.s.inn, w.s.out)) == w.accepted[|w.delivered|..])
  {
    ResetRunKeepsInv(worlds, events, n);
    var w := worlds[n];
    if !w.phase.OutCleared? {
      InvInBounds(w.s);
      QueueIsRest(w);
    }
  }

  lemma {:induction false} QueueIsRest(w: World)
    requires Continues(w) && Inv(w.s)
    ensures AllRead(w) <= w.accepted && |w.delivered| <= |w.accepted| && |w.s.ring| > 0
    ensures RingBytes(w.s.ring, w.s.out, Sub32(w.s.inn, w.s.out)) == w.accepted[|w.delivered|..]
  {
    var s, before := w.s, w.accepted[..|w.accepted| - |w.s.accepted|];
    Distance(|s.accepted|, |s.delivered|, |s.ring|);
    QueueInRing(s);
    RestOf(before, s.accepted, s.delivered, if s.reader.Getting? then s.reader.got else []);
    assert s.delivered + [] == s.delivered && w.delivered + [] == w.delivered;
  }

  lemma {:induction false} RestOf(before: seq<byte>, accepted: seq<byte>, delivered: seq<byte>, got: seq<byte>)
    requires delivered + got <= accepted
    ensures before + delivered + got <= before + accepted
    ensures (before + accepted)[|before + delivered|..] == accepted[|delivered|..]
  {
    assert before + delivered + got == before + (delivered + got);
  }

  // ----- a reset inside a put

  /** The bytes `data` lie in the slots from `start` on. */
  ghost predicate Laid(ring: seq<byte>, start: nat, data: seq<byte>) {
    |ring| > 0 && forall k :: 0 <= k < |data| ==> LaidAt(ring, start, k, data[k])
  }

  ghost predicate LaidAt(ring: seq<byte>, start: nat, k: nat, b: byte)
    requires |ring| > 0
  {
    ring[Slot(start + k, |ring|)] == b
  }

  /** A put is under way beside an idle reader: `copied` bytes are in the slots that follow its first one. */
  ghost predicate Copying(s: State) {
    && s.writer.Putting? && s.reader.ReaderIdle? && IsPowerOf2(|s.ring|) && |s.ring| < TWO_32
    && var w := s.writer;
       && w.copied <= w.len <= |w.data| && w.len <= |s.ring| && w.start < |s.ring|
       && w.l == Min(w.len, |s.ring| - w.start) && Laid(s.ring, w.start, w.data[..w.copied])
  }

  /** A slot can stand for the counter value that it belongs to. */
  lemma {:induction false} SlotOfSlot(counter: nat, k: nat, size: nat)
    requires IsPowerOf2(size)
    ensures Slot(Slot(counter, size) + k, size) == Slot(counter + k, size)
  {
    SlotIsMod(counter, size);
    SlotIsMod(Slot(counter, size) + k, size);
    SlotIsMod(counter + k, size);
    ModOverflow(counter, k, size, 1);
  }

  lemma {:induction false} SmallSlot(i: nat, size: nat)
    requires IsPowerOf2(size) && i < size
    ensures Slot(i, size) == i
  {
    SlotIsMod(i, size);
    DivModUnique(i, size, 0, i);
  }

  /** Byte `k` of the put goes to its slot. */
  lemma {:induction false} CopySlotAhead(start: nat, len: nat, k: nat, size: nat)
    requires IsPowerOf2(size) && start < size && k < len <= size
    ensures CopySlot(start, Min(len, size - start), k) == Slot(start + k, size) < size
  {
    SmallSlot(start, size);
    SlotSplit(start, k, size);
  }

  lemma {:induction false} CopyingInBounds(s: State)
    requires Copying(s)
    ensures InBounds(s)
  {
    if s.writer.copied < s.writer.len {
      CopySlotAhead(s.writer.start, s.writer.len, s.writer.copied, |s.ring|);
    }
  }

  lemma {:induction false} CopyingNext(s: State)
    requires Copying(s) && InBounds(s) && s.writer.copied < s.writer.len
    ensures Copying(Apply(s, PutByte))
  {
    var w, s', size := s.writer, Apply(s, PutByte), |s.ring|;
    CopySlotAhead(w.start, w.len, w.copied, size);
    LaidMore(s.ring, s'.ring, w.start, w.data, w.copied);
  }

  lemma {:induction false} LaidMore(ring: seq<byte>, ring': seq<byte>, start: nat, data: seq<byte>, n: nat)
    requires n < |data| && n < |ring| && IsPowerOf2(|ring|) && Laid(ring, start, data[..n])
    requires ring' == ring[Slot(start + n, |ring|) := data[n]]
    ensures Laid(ring', start, data[..n + 1])
  {
    forall k | 0 <= k < n + 1 ensures LaidAt(ring', start, k, data[k]) {
      if k < n {
        assert LaidAt(ring, start, k, data[..n][k]);
        SlotDistinct(start + k, start + n, |ring|);
      }
    }
  }

  /** The writer goes on alone to the end of its put. */
  ghost function Finish(s: State): State
    requires Copying(s)
    decreases s.writer.len - s.writer.copied
  {
    CopyingInBounds(s);
    if s.writer.copied == s.writer.len then Apply(s, PutEnd)
    else CopyingNext(s); Finish(Apply(s, PutByte))
  }

  lemma {:induction false} Finished(s: State)
    requires Copying(s)
    ensures var t := Finish(s);
            && t.inn == (s.inn + s.writer.len) % TWO_32 && t.out == s.out && |t.ring| == |s.ring|
            && Laid(t.ring, s.writer.start, s.writer.data[..s.writer.len])
    decreases s.writer.len - s.writer.copied
  {
    CopyingInBounds(s);
    if s.writer.copied < s.writer.len {
      CopyingNext(s);
      Finished(Apply(s, PutByte));
    }
  }

  lemma {:induction false} PutIsCopying(s: State)
    requires Inv(s) && s.writer.Putting? && s.reader.ReaderIdle?
    ensures Copying(s) && s.writer.start == Slot(s.inn, |s.ring|)
  {
    var w := s.writer;
    forall k | 0 <= k < w.copied ensures LaidAt(s.ring, w.start, k, w.data[k]) {
      assert Stored(s, |s.accepted| + k, w.data[k]);
      SlotOverflow(|s.accepted|, k, |s.ring|);
      SlotOfSlot(s.inn, k, |s.ring|);
    }
  }

  /**
   * A reset inside a put: the reader will get the bytes from slot 0 on, while the put has left its bytes in the slots
   * from `start` on.
   */
  lemma {:induction false} ResetInsidePut(w: World) returns (t: State)
    requires WorldInv(w) && w.phase.Checking? && w.s.inn == w.s.out && w.s.writer.Putting?
    ensures var r := Do(Do(Do(w, Check), ClearOut), ClearIn);
            var n, start := w.s.writer.len, w.s.writer.start;
            && Copying(r.s) && t == Finish(r.s) && start == Slot(w.s.inn, |w.s.ring|) && |t.ring| == |w.s.ring|
            && RingBytes(t.ring, t.out, Sub32(t.inn, t.out)) == RingBytes(t.ring, 0, n)
            && Laid(t.ring, start, w.s.writer.data[..n])
  {
    ResetDone(w);
    PutIsCopying(w.s);
    t := FinishedFromZero(w.s, w.s.(inn := 0, out := 0, accepted := [], delivered := []));
  }

  lemma {:induction false} FinishedFromZero(s0: State, s: State) returns (t: State)
    requires Copying(s0) && s == s0.(inn := 0, out := 0, accepted := [], delivered := [])
    ensures Copying(s) && t == Finish(s) && |t.ring| == |s.ring|
    ensures RingBytes(t.ring, t.out, Sub32(t.inn, t.out)) == RingBytes(t.ring, 0, s.writer.len)
    ensures Laid(t.ring, s.writer.start, s.writer.data[..s.writer.len])
  {
    t := Finish(s);
    Finished(s);
    FromZero(s.writer.len);
  }

  lemma {:induction false} FromZero(n: nat)
    requires n < TWO_32
    ensures (0 + n) % TWO_32 == n && Sub32(n, 0) == n
  {}

  lemma {:induction false} ResetDone(w: World)
    requires w.phase.Checking? && w.s.inn == w.s.out
    ensures Do(Do(Do(w, Check), ClearOut), ClearIn).s == w.s.(inn := 0, out := 0, accepted := [], delivered := [])
  {}

  /** Bytes that lie from `start` on are read from slot 0 on as they were put, whatever they are. */
  ghost predicate ReadAsPut(size: nat, start: nat, n: nat) {
    size > 0 &&
    forall ring: seq<byte>, data: seq<byte> ::
      |ring| == size && |data| == n && Laid(ring, start, data) ==> RingBytes(ring, 0, n) == data
  }

  /** That is so exactly when there are none or they start at slot 0. */
  lemma {:induction false} ReadAsPutExact(size: nat, start: nat, n: nat)
    requires IsPowerOf2(size) && start < size && n <= size
    ensures ReadAsPut(size, start, n) <==> n == 0 || start == 0
  {
    if start == 0 || n == 0 {
      forall ring: seq<byte>, data: seq<byte> | |ring| == size && |data| == n && Laid(ring, start, data)
        ensures RingBytes(ring, 0, n) == data
      {
        ReadFromZero(ring, start, data);
      }
    } else {
      var ring: seq<byte> := seq(size, i => if i == start then 1 else 0);
      var data := RingBytes(ring, start, n);
      assert Laid(ring, start, data);
      SmallSlot(start, size);
      SmallSlot(0, size);
      assert RingBytes(ring, 0, n)[0] == 0 && data[0] == 1;
    }
  }

  lemma {:induction false} ReadFromZero(ring: seq<byte>, start: nat, data: seq<byte>)
    requires Laid(ring, start, data) && (start == 0 || data == [])
    ensures RingBytes(ring, 0, |data|) == data
  {
    forall k | 0 <= k < |data| ensures RingBytes(ring, 0, |data|)[k] == data[k] {
      assert LaidAt(ring, start, k, data[k]);
    }
  }

  // ----- runs that go wrong

  lemma {:induction false} SlotsOfTwo()
    ensures IsPowerOf2(2) && Slot(0, 2) == 0 && Slot(1, 2) == 1
  {
    assert And(1, 0) == 0 && And(2, 1) == 0;
  }

  /** `e` takes `w` to `w'`. */
  predicate Leads(w: World, e: Event, w': World) {
    CanDo(w, e) && w' == Do(w, e)
  }

  /** A ring of two bytes that has not been through twice. */
  predicate Small(w: World) {
    |w.s.ring| == 2 && w.s.inn <= 2 && w.s.out <= 2 && w.s.reader.ReaderIdle?
  }

  /** The put of one byte into slot `start`, `copied` of it done. */
  function PutOf(b: byte, start: nat, copied: nat): Writer {
    Putting([b], 1, start, 1, copied)
  }

  lemma {:induction false} BeginsPut(w: World, b: byte)
    requires Small(w) && w.s.writer.WriterIdle? && w.s.inn < 2 && w.s.out <= w.s.inn
    ensures Leads(w, Inner(PutBegin([b])), w.(s := w.s.(writer := PutOf(b, w.s.inn, 0))))
  {
    SlotsOfTwo();
  }

  lemma {:induction false} EndsPut(w: World, b: byte, start: nat) returns (m: World)
    requires Small(w) && w.s.writer == PutOf(b, start, 0) && start < 2
    ensures Leads(w, Inner(PutByte), m)
    ensures Leads(m, Inner(PutEnd),
                  w.(s := w.s.(ring := w.s.ring[start := b], inn := w.s.inn + 1, writer := WriterIdle,
                               accepted := w.s.accepted + [b]),
                     accepted := w.accepted + [b]))
  {
    m := w.(s := w.s.(ring := w.s.ring[start := b], writer := PutOf(b, start, 1)));
    assert [b][..1] == [b];
  }

  lemma {:induction false} GetsByte(w: World) returns (m: World, m': World)
    requires Small(w) && w.phase.Ready? && w.s.writer.WriterIdle? && w.s.out < 2 && w.s.inn == w.s.out + 1
    ensures Leads(w, Inner(GetBegin(1)), m) && Leads(m, Inner(GetByte), m')
    ensures Leads(m', Inner(GetEnd),
                  w.(s := w.s.(out := w.s.out + 1, delivered := w.s.delivered + [w.s.ring[w.s.out]]),
                     phase := Checking, delivered := w.delivered + [w.s.ring[w.s.out]]))
  {
    SlotsOfTwo();
    m := w.(s := w.s.(reader := Getting(1, 1, [])));
    m' := w.(s := w.s.(reader := Getting(1, 1, [w.s.ring[w.s.out]])));
    assert [] + [w.s.ring[w.s.out]] == [w.s.ring[w.s.out]];
  }

  ghost predicate RunToBody(w: World, worlds: seq<World>, events: seq<Event>, x: Seal) {
    IsResetRun(worlds, events) && worlds[|events|] == w
  }

  /** The run ends in `w`. */
  ghost predicate RunTo(w: World, worlds: seq<World>, events: seq<Event>) {
    forall x: Seal :: RunToBody(w, worlds, events, x)
  }

  ghost predicate Reachable(w: World) {
    exists worlds, events :: RunTo(w, worlds, events)
  }

  lemma {:induction false} Reaches(w: World, e: Event, w': World)
    requires Reachable(w) && Leads(w, e, w')
    ensures Reachable(w')
  {
    var worlds, events :| RunTo(w, worlds, events);
    assert RunToBody(w, worlds, events, Seal);
    assert IsResetRun(worlds + [w'], events + [e]);
    assert RunTo(w', worlds + [w'], events + [e]);
  }

  lemma {:induction false} ReachesStart(w: World)
    requires Fresh(w)
    ensures Reachable(w)
  {
    assert IsResetRun([w], []);
    assert RunTo(w, [w], []);
  }

  lemma {:induction false} ReachesPut(w: World, b: byte)
    requires Reachable(w) && Small(w) && w.s.writer.WriterIdle? && w.s.inn < 2 && w.s.out <= w.s.inn
    ensures Reachable(w.(s := w.s.(ring := w.s.ring[w.s.inn := b], inn := w.s.inn + 1,
                                   accepted := w.s.accepted + [b]),
                         accepted := w.accepted + [b]))
  {
    BeginsPut(w, b);
    var v := w.(s := w.s.(writer := PutOf(b, w.s.inn, 0)));
    Reaches(w, Inner(PutBegin([b])), v);
    ReachesEndOfPut(v, b, w.s.inn);
  }

  lemma {:induction false} ReachesEndOfPut(w: World, b: byte, start: nat)
    requires Reachable(w) && Small(w) && w.s.writer == PutOf(b, start, 0) && start < 2
    ensures Reachable(w.(s := w.s.(ring := w.s.ring[start := b], inn := w.s.inn + 1, writer := WriterIdle,
                                   accepted := w.s.accepted + [b]),
                         accepted := w.accepted + [b]))
  {
    var m := EndsPut(w, b, start);
    Reaches(w, Inner(PutByte), m);
    Reaches(m, Inner(PutEnd), Do(m, Inner(PutEnd)));
  }

  lemma {:induction false} ReachesGet(w: World)
    requires Reachable(w) && Small(w) && w.phase.Ready? && w.s.writer.WriterIdle?
    requires w.s.out < 2 && w.s.inn == w.s.out + 1
    ensures Reachable(w.(s := w.s.(out := w.s.out + 1, delivered := w.s.delivered + [w.s.ring[w.s.out]]),
                         phase := Checking, delivered := w.delivered + [w.s.ring[w.s.out]]))
  {
    var m, m' := GetsByte(w);
    Reaches(w, Inner(GetBegin(1)), m);
    Reaches(m, Inner(GetByte), m');
    Reaches(m', Inner(GetEnd), Do(m', Inner(GetEnd)));
  }

  /** One byte has been put and taken out again, and the reader is about to compare the counters. */
  const TAKEN := World(State([1, 0], 1, 1, WriterIdle, ReaderIdle, [1], [1]), Checking, [1], [1])

  lemma {:induction false} TakenReachable()
    ensures Reachable(TAKEN)
  {
    SlotsOfTwo();
    var w := World(State([0, 0], 0, 0, WriterIdle, ReaderIdle, [], []), Ready, [], []);
    ReachesStart(w);
    ReachesPut(w, 1);
    var v := World(State([1, 0], 1, 0, WriterIdle, ReaderIdle, [1], []), Ready, [1], []);
    assert w.s.ring[0 := 1] == [1, 0] && [] + [1 as byte] == [1];
    assert Reachable(v);
    ReachesGet(v);
  }

  /** A put that begins before the counters are compared and ends after the reset: a stale byte is read for it. */
  lemma {:induction false} WrongByteRead() returns (w: World)
    ensures Reachable(w) && w.accepted == [1, 7] && w.delivered == [1, 1]
  {
    TakenReachable();
    BeginsPut(TAKEN, 7);
    var v := TAKEN.(s := TAKEN.s.(writer := PutOf(7, 1, 0)));
    Reaches(TAKEN, Inner(PutBegin([7])), v);
    ReachesReset(v);
    var u := v.(s := v.s.(inn := 0, out := 0, accepted := [], delivered := []), phase := Ready);
    ReachesEndOfPut(u, 7, 1);
    w := World(State([1, 7], 1, 0, WriterIdle, ReaderIdle, [7], []), Ready, [1, 7], [1]);
    assert u.s.ring[1 := 7] == [1, 7] && [] + [7 as byte] == [7] && [1 as byte] + [7] == [1, 7];
    assert Reachable(w);
    ReachesGet(w);
    assert [] + [1 as byte] == [1] && [1 as byte] + [1] == [1, 1];
    w := World(State([1, 7], 1, 1, WriterIdle, ReaderIdle, [7], [1]), Checking, [1, 7], [1, 1]);
  }

  lemma {:induction false} ReachesReset(w: World)
    requires Reachable(w) && w.phase.Checking? && w.s.inn == w.s.out
    ensures Reachable(w.(s := w.s.(inn := 0, out := 0, accepted := [], delivered := []), phase := Ready))
  {
    Reaches(w, Check, w.(phase := Emptied));
    ReachesCleared(w.(phase := Emptied));
  }

  lemma {:induction false} ReachesCleared(w: World)
    requires Reachable(w) && w.phase.Emptied?
    ensures Reachable(w.(s := w.s.(inn := 0, out := 0, accepted := [], delivered := []), phase := Ready))
  {
    var v := Do(w, ClearOut);
    Reaches(w, ClearOut, v);
    Reaches(v, ClearIn, Do(v, ClearIn));
  }

  /** A put between the comparison and the reset: its byte is lost. */
  lemma {:induction false} ByteLost() returns (w: World)
    ensures Reachable(w) && w.accepted == [1, 7] && w.delivered == [1]
    ensures w.phase.Ready? && w.s.writer.WriterIdle? && Sub32(w.s.inn, w.s.out) == 0
  {
    TakenReachable();
    var v := TAKEN.(phase := Emptied);
    Reaches(TAKEN, Check, v);
    ReachesPut(v, 7);
    var u := World(State([1, 7], 2, 1, WriterIdle, ReaderIdle, [1, 7], [1]), Emptied, [1, 7], [1]);
    assert v.s.ring[1 := 7] == [1, 7] && [1 as byte] + [7] == [1, 7];
    assert Reachable(u);
    ReachesCleared(u);
    w := u.(s := u.s.(inn := 0, out := 0, accepted := [], delivered := []), phase := Ready);
  }

  /**
   * A put that begins when `out` is cleared and `in` is not computes its room from `in` alone: it takes more than the
   * ring holds exactly when it has more and `in` is past the size of the ring.
   */
  lemma {:induction false} HalfResetRoom(w: World, data: seq<byte>)
    requires WorldInv(w) && w.phase.OutCleared? && CanDo(w, Inner(PutBegin(data)))
    ensures Do(w, Inner(PutBegin(data))).s.writer.len > |w.s.ring| <==> |data| > |w.s.ring| && w.s.inn > |w.s.ring|
  {
    var size := |w.s.ring|;
    if w.s.inn <= size {
      assert (size - w.s.inn + 0) % TWO_32 == size - w.s.inn;
    } else {
      assert (size - w.s.inn + 0) % TWO_32 == TWO_32 + size - w.s.inn;
    }
  }
}
