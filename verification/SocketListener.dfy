/**
 * The client list of `SocketListener` and the reference counts of its `SocketClient`s, as a system of
 * steps taken by the listener thread, by any number of broadcasting threads (`sendBroadcast` and
 * `runOnEachSocket`) and by any number of `release` callers. Each section under `mClientsLock` and each
 * `decRef` is one step. A nested call from a handler is a thread of its own.
 */
module SocketListenerProtocol {
  import opened Common

  type Client = nat

  /** What is left of a `SocketClient`: its count and how often it has been deleted. */
  datatype Cell = Cell(refCount: int, deletions: nat)

  /** The local variables of a thread that hold references. */
  datatype Thread =
    | Listener(pending: seq<Client>, current: Option<Client>, zapped: Option<Client>)
    | Broadcaster(safe: seq<Client>, sending: Option<Client>)
    | Releaser(zapped: Option<Client>)

  /** `clients` is `mClients`; a client is named by its place in `cells`, in order of creation. */
  datatype State = State(listening: bool, cells: seq<Cell>, clients: seq<Client>, threads: seq<Thread>)

  datatype Step =
    | Accept                            // mClients->push_back(new SocketClient)
    | Scan                              // fill the descriptor set from mClients
    | Collect(t: nat, ready: set<Client>)  // pendingList.push_back(c); c->incRef()
    | PopPending(t: nat)
    | FinishHandling(t: nat)            // after onDataAvailable and a possible release: c->decRef()
    | HandlerReleases(t: nat)           // onDataAvailable returned false: locked part of release(c)
    | DropZapped(t: nat)                // c->decRef() at the end of that release
    | StartBroadcast                    // c->incRef(); safeList.push_back(c)
    | PopSafe(t: nat)
    | Sent(t: nat)                      // sendMsg or runSocketCommand, then c->decRef()
    | EnterRelease(c: Client)           // release(c): c->getSocket() for the log, before the lock is taken
    | StartRelease(c: Client)           // locked part of release(c) by another thread
    | FinishRelease(t: nat)             // c->decRef()

  function Occurrences(l: seq<Client>, c: Client): nat {
    if l == [] then 0 else (if l[0] == c then 1 else 0) + Occurrences(l[1..], c)
  }

  /** Erases the first occurrence. */
  function Erase(l: seq<Client>, c: Client): seq<Client> {
    if l == [] then [] else if l[0] == c then l[1..] else [l[0]] + Erase(l[1..], c)
  }

  function Select(l: seq<Client>, ready: set<Client>): seq<Client> {
    if l == [] then [] else if l[0] in ready then [l[0]] + Select(l[1..], ready) else Select(l[1..], ready)
  }

  function IncRef(cells: seq<Cell>, c: Client): seq<Cell>
    requires c < |cells|
  {
    cells[c := cells[c].(refCount := cells[c].refCount + 1)]
  }

  /** Counts one down and deletes the client when nothing is left. */
  function DecRef(cells: seq<Cell>, c: Client): seq<Cell>
    requires c < |cells|
  {
    var n := cells[c].refCount - 1;
    cells[c := Cell(n, cells[c].deletions + if n == 0 then 1 else 0)]
  }

  predicate Known(cells: seq<Cell>, l: seq<Client>) {
    forall i :: 0 <= i < |l| ==> l[i] < |cells|
  }

  function IncRefAll(cells: seq<Cell>, l: seq<Client>): (r: seq<Cell>)
    requires Known(cells, l)
    ensures |r| == |cells|
    decreases |l|
  {
    if l == [] then cells else IncRefAll(IncRef(cells, l[0]), l[1..])
  }

  function OptionCount(o: Option<Client>, c: Client): nat {
    if o == Some(c) then 1 else 0
  }

  /** The references to `c` that a thread holds. */
  function Holds(t: Thread, c: Client): nat {
    match t
    case Listener(pending, current, zapped) =>
      Occurrences(pending, c) + OptionCount(current, c) + OptionCount(zapped, c)
    case Broadcaster(safe, sending) => Occurrences(safe, c) + OptionCount(sending, c)
    case Releaser(zapped) => OptionCount(zapped, c)
  }

  function HeldBy(threads: seq<Thread>, c: Client): nat {
    if threads == [] then 0 else Holds(threads[0], c) + HeldBy(threads[1..], c)
  }

  /** All references to `c`: from the client list and from the threads. */
  function References(s: State, c: Client): nat {
    Occurrences(s.clients, c) + HeldBy(s.threads, c)
  }

  predicate Free(s: State, t: nat) {
    t < |s.threads| && s.threads[t].Listener? && s.threads[t].current.None?
  }

  predicate Busy(s: State, t: nat) {
    t < |s.threads| && s.threads[t].Listener? && s.threads[t].current.Some?
  }

  predicate Enabled(s: State, step: Step) {
    match step
    case Accept => s.listening
    case Scan => true
    case Collect(t, _) => Free(s, t) && s.threads[t].pending == []
    case PopPending(t) => Free(s, t) && s.threads[t].pending != []
    case FinishHandling(t) => Busy(s, t) && s.threads[t].zapped.None?
    case HandlerReleases(t) => Busy(s, t) && s.threads[t].zapped.None?
    case DropZapped(t) => Busy(s, t) && s.threads[t].zapped.Some?
    case StartBroadcast => true
    case PopSafe(t) =>
      t < |s.threads| && s.threads[t].Broadcaster? && s.threads[t].safe != [] && s.threads[t].sending.None?
    case Sent(t) => t < |s.threads| && s.threads[t].Broadcaster? && s.threads[t].sending.Some?
    case EnterRelease(c) => s.listening && c < |s.cells|
    case StartRelease(c) => true
    case FinishRelease(t) => t < |s.threads| && s.threads[t].Releaser? && s.threads[t].zapped.Some?
  }

  /** The clients whose memory a step reads or writes. */
  function Touched(s: State, step: Step): set<Client>
    requires Enabled(s, step)
  {
    match step
    case Accept => {}
    case Scan => set c | c in s.clients
    case Collect(_, _) => set c | c in s.clients
    case PopPending(_) => {}
    case FinishHandling(t) => {s.threads[t].current.value}
    case HandlerReleases(t) => {s.threads[t].current.value}
    case DropZapped(t) => {s.threads[t].zapped.value}
    case StartBroadcast => set c | c in s.clients
    case PopSafe(_) => {}
    case Sent(t) => {s.threads[t].sending.value}
    case EnterRelease(c) => {c}
    case StartRelease(_) => {}
    case FinishRelease(t) => {s.threads[t].zapped.value}
  }

  predicate Allocated(s: State, step: Step)
    requires Enabled(s, step)
  {
    Known(s.cells, s.clients) && forall c :: c in Touched(s, step) ==> c < |s.cells|
  }

  function SetThread(s: State, t: nat, th: Thread): State
    requires t < |s.threads|
  {
    s.(threads := s.threads[t := th])
  }

  function Apply(s: State, step: Step): State
    requires Enabled(s, step) && Allocated(s, step)
  {
    match step
    case Accept => s.(cells := s.cells + [Cell(1, 0)], clients := s.clients + [|s.cells|])
    case Scan => s
    case Collect(t, ready) =>
      SelectKnown(s.cells, s.clients, ready);
      var pending := Select(s.clients, ready);
      SetThread(s, t, s.threads[t].(pending := pending)).(cells := IncRefAll(s.cells, pending))
    case PopPending(t) =>
      var th := s.threads[t];
      SetThread(s, t, th.(pending := th.pending[1..], current := Some(th.pending[0])))
    case FinishHandling(t) =>
      var th := s.threads[t];
      assert th.current.value in Touched(s, step);
      SetThread(s, t, th.(current := None)).(cells := DecRef(s.cells, th.current.value))
    case HandlerReleases(t) =>
      var th := s.threads[t];
      if s.listening && th.current.value in s.clients then
        SetThread(s, t, th.(zapped := th.current)).(clients := Erase(s.clients, th.current.value))
      else
        s
    case DropZapped(t) =>
      var th := s.threads[t];
      assert th.zapped.value in Touched(s, step);
      SetThread(s, t, th.(zapped := None)).(cells := DecRef(s.cells, th.zapped.value))
    case StartBroadcast =>
      s.(cells := IncRefAll(s.cells, s.clients), threads := s.threads + [Broadcaster(s.clients, None)])
    case PopSafe(t) =>
      var th := s.threads[t];
      SetThread(s, t, th.(safe := th.safe[1..], sending := Some(th.safe[0])))
    case Sent(t) =>
      var th := s.threads[t];
      assert th.sending.value in Touched(s, step);
      SetThread(s, t, th.(sending := None)).(cells := DecRef(s.cells, th.sending.value))
    case EnterRelease(_) => s
    case StartRelease(c) =>
      if s.listening && c in s.clients then
        s.(clients := Erase(s.clients, c), threads := s.threads + [Releaser(Some(c))])
      else
        s
    case FinishRelease(t) =>
      assert s.threads[t].zapped.value in Touched(s, step);
      SetThread(s, t, Releaser(None)).(cells := DecRef(s.cells, s.threads[t].zapped.value))
  }

  /** `startListener`: no client yet, or, for a connected socket, the one client it was given. */
  predicate Initial(s: State) {
    && s.threads == [Listener([], None, None)]
    && if s.listening then s.cells == [] && s.clients == [] else s.cells == [Cell(1, 0)] && s.clients == [0]
  }

  // ----- lists

  lemma {:induction false} SelectKnown(cells: seq<Cell>, l: seq<Client>, ready: set<Client>)
    requires Known(cells, l)
    ensures Known(cells, Select(l, ready))
  {
    if l != [] {
      SelectKnown(cells, l[1..], ready);
    }
  }

  lemma {:induction false} OccurrencesMember(l: seq<Client>, c: Client)
    ensures Occurrences(l, c) > 0 <==> c in l
  {
    if l != [] {
      OccurrencesMember(l[1..], c);
      assert c in l <==> c == l[0] || c in l[1..];
    }
  }

  lemma {:induction false} OccurrencesAppend(l: seq<Client>, d: Client, c: Client)
    ensures Occurrences(l + [d], c) == Occurrences(l, c) + if d == c then 1 else 0
  {
    if l != [] {
      OccurrencesAppend(l[1..], d, c);
      assert (l + [d])[1..] == l[1..] + [d];
    }
  }

  lemma {:induction false} OccurrencesErase(l: seq<Client>, d: Client, c: Client)
    requires d in l
    ensures Occurrences(Erase(l, d), c) == Occurrences(l, c) - if d == c then 1 else 0
  {
    if l[0] != d {
      OccurrencesErase(l[1..], d, c);
    }
  }

  /** Raising the counts of a list raises each client's count by its occurrences. */
  lemma {:induction false} IncRefAllCounts(cells: seq<Cell>, l: seq<Client>, c: Client)
    requires Known(cells, l) && c < |cells|
    ensures IncRefAll(cells, l)[c] == cells[c].(refCount := cells[c].refCount + Occurrences(l, c))
    decreases |l|
  {
    if l != [] {
      IncRefAllCounts(IncRef(cells, l[0]), l[1..], c);
    }
  }

  lemma {:induction false} HeldByUpdate(threads: seq<Thread>, t: nat, th: Thread, c: Client)
    requires t < |threads|
    ensures HeldBy(threads[t := th], c) == HeldBy(threads, c) - Holds(threads[t], c) + Holds(th, c)
  {
    var threads' := threads[t := th];
    if t == 0 {
      assert threads'[1..] == threads[1..];
    } else {
      HeldByUpdate(threads[1..], t - 1, th, c);
      assert threads'[1..] == threads[1..][t - 1 := th];
    }
  }

  lemma {:induction false} HeldByAppend(threads: seq<Thread>, th: Thread, c: Client)
    ensures HeldBy(threads + [th], c) == HeldBy(threads, c) + Holds(th, c)
  {
    if threads == [] {
      assert (threads + [th])[1..] == [];
    } else {
      HeldByAppend(threads[1..], th, c);
      assert (threads + [th])[1..] == threads[1..] + [th];
    }
  }

  lemma {:induction false} HeldByAtLeast(threads: seq<Thread>, t: nat, c: Client)
    requires t < |threads|
    ensures Holds(threads[t], c) <= HeldBy(threads, c)
  {
    if t > 0 {
      HeldByAtLeast(threads[1..], t - 1, c);
    }
  }

  // ----- the invariant

  /** The count of `c` is the number of references to it, and it is gone exactly when that is zero. */
  ghost predicate Accounted(s: State, c: Client) {
    if c < |s.cells| then
      && s.cells[c].refCount == References(s, c)
      && s.cells[c].deletions == (if References(s, c) == 0 then 1 else 0)
      && Occurrences(s.clients, c) <= 1
    else
      References(s, c) == 0
  }

  ghost predicate Inv(s: State) {
    forall c: Client :: Accounted(s, c)
  }

  lemma {:induction false} ReferencedIsAlive(s: State, c: Client)
    requires Inv(s) && References(s, c) > 0
    ensures c < |s.cells| && s.cells[c].deletions == 0 && s.cells[c].refCount > 0
  {
    assert Accounted(s, c);
  }

  lemma {:induction false} ClientsAreAlive(s: State, i: nat)
    requires Inv(s) && i < |s.clients|
    ensures s.clients[i] < |s.cells| && s.cells[s.clients[i]].deletions == 0
  {
    OccurrencesMember(s.clients, s.clients[i]);
    ReferencedIsAlive(s, s.clients[i]);
  }

  lemma {:induction false} InvKnown(s: State)
    requires Inv(s)
    ensures Known(s.cells, s.clients)
  {
    forall i | 0 <= i < |s.clients| ensures s.clients[i] < |s.cells| {
      ClientsAreAlive(s, i);
    }
  }

  /** Nothing that a step touches has been deleted, but for the client that `release` reads without a reference. */
  lemma {:induction false} TouchedIsAlive(s: State, step: Step, c: Client)
    requires Inv(s) && Enabled(s, step) && c in Touched(s, step) && !step.EnterRelease?
    ensures c < |s.cells| && s.cells[c].deletions == 0
  {
    if step.Scan? || step.Collect? || step.StartBroadcast? {
      OccurrencesMember(s.clients, c);
    } else {
      assert Holds(s.threads[step.t], c) > 0;
      HeldByAtLeast(s.threads, step.t, c);
    }
    ReferencedIsAlive(s, c);
  }

  lemma {:induction false} AcceptAccounted(s: State, c: Client)
    requires Inv(s) && Enabled(s, Accept) && Allocated(s, Accept)
    ensures Accounted(Apply(s, Accept), c)
  {
    assert Accounted(s, c);
    OccurrencesAppend(s.clients, |s.cells|, c);
  }

  lemma {:induction false} CollectAccounted(s: State, t: nat, ready: set<Client>, c: Client)
    requires Inv(s) && Enabled(s, Collect(t, ready)) && Allocated(s, Collect(t, ready))
    ensures Accounted(Apply(s, Collect(t, ready)), c)
  {
    assert Accounted(s, c);
    SelectKnown(s.cells, s.clients, ready);
    var pending := Select(s.clients, ready);
    HeldByUpdate(s.threads, t, s.threads[t].(pending := pending), c);
    OccurrencesMember(pending, c);
    if c < |s.cells| {
      IncRefAllCounts(s.cells, pending, c);
      SelectOccurrences(s.clients, ready, c);
    }
  }

  /** Only a referenced client can be selected, so no count rises from zero. */
  lemma {:induction false} SelectOccurrences(l: seq<Client>, ready: set<Client>, c: Client)
    ensures Occurrences(Select(l, ready), c) <= Occurrences(l, c)
  {
    if l != [] {
      SelectOccurrences(l[1..], ready, c);
    }
  }

  lemma {:induction false} BroadcastAccounted(s: State, c: Client)
    requires Inv(s) && Enabled(s, StartBroadcast) && Allocated(s, StartBroadcast)
    ensures Accounted(Apply(s, StartBroadcast), c)
  {
    assert Accounted(s, c);
    HeldByAppend(s.threads, Broadcaster(s.clients, None), c);
    if c < |s.cells| {
      IncRefAllCounts(s.cells, s.clients, c);
    }
  }

  /** A step that gives up one reference to `d` and counts it down. */
  lemma {:induction false} DecRefAccounted(s: State, t: nat, th: Thread, d: Client, c: Client)
    requires Inv(s) && t < |s.threads| && d < |s.cells|
    requires Holds(s.threads[t], d) > 0
    requires Holds(th, c) == Holds(s.threads[t], c) - if c == d then 1 else 0
    ensures Accounted(SetThread(s, t, th).(cells := DecRef(s.cells, d)), c)
  {
    assert Accounted(s, c);
    HeldByUpdate(s.threads, t, th, c);
    HeldByAtLeast(s.threads, t, d);
  }

  /** A step that moves references between the variables of one thread. */
  lemma {:induction false} MoveAccounted(s: State, t: nat, th: Thread, c: Client)
    requires Inv(s) && t < |s.threads| && Holds(th, c) == Holds(s.threads[t], c)
    ensures Accounted(SetThread(s, t, th), c)
  {
    assert Accounted(s, c);
    HeldByUpdate(s.threads, t, th, c);
  }

  /** Taking `d` off the client list hands its reference to thread `t`. */
  lemma {:induction false} ZapAccounted(s: State, t: nat, th: Thread, d: Client, c: Client)
    requires Inv(s) && t < |s.threads| && d in s.clients
    requires Holds(th, c) == Holds(s.threads[t], c) + if c == d then 1 else 0
    ensures Accounted(SetThread(s, t, th).(clients := Erase(s.clients, d)), c)
  {
    assert Accounted(s, c);
    HeldByUpdate(s.threads, t, th, c);
    OccurrencesErase(s.clients, d, c);
  }

  lemma {:induction false} ReleaseAccounted(s: State, d: Client, c: Client)
    requires Inv(s) && d in s.clients
    ensures Accounted(s.(clients := Erase(s.clients, d), threads := s.threads + [Releaser(Some(d))]), c)
  {
    assert Accounted(s, c);
    HeldByAppend(s.threads, Releaser(Some(d)), c);
    OccurrencesErase(s.clients, d, c);
  }

  lemma {:induction false} ListenerStepAccounted(s: State, step: Step, c: Client)
    requires Inv(s) && Enabled(s, step) && Allocated(s, step)
    requires step.PopPending? || step.FinishHandling? || step.HandlerReleases? || step.DropZapped?
    ensures Accounted(Apply(s, step), c)
  {
    var t := step.t;
    var th := s.threads[t];
    match step
    case PopPending(_) =>
      MoveAccounted(s, t, th.(pending := th.pending[1..], current := Some(th.pending[0])), c);
    case FinishHandling(_) =>
      assert th.current.value in Touched(s, step);
      DecRefAccounted(s, t, th.(current := None), th.current.value, c);
    case HandlerReleases(_) =>
      if s.listening && th.current.value in s.clients {
        ZapAccounted(s, t, th.(zapped := th.current), th.current.value, c);
      } else {
        assert Accounted(s, c);
      }
    case DropZapped(_) =>
      assert th.zapped.value in Touched(s, step);
      DecRefAccounted(s, t, th.(zapped := None), th.zapped.value, c);
  }

  lemma {:induction false} OtherStepAccounted(s: State, step: Step, c: Client)
    requires Inv(s) && Enabled(s, step) && Allocated(s, step)
    requires step.PopSafe? || step.Sent? || step.FinishRelease?
    ensures Accounted(Apply(s, step), c)
  {
    var t := step.t;
    var th := s.threads[t];
    match step
    case PopSafe(_) =>
      MoveAccounted(s, t, th.(safe := th.safe[1..], sending := Some(th.safe[0])), c);
    case Sent(_) =>
      assert th.sending.value in Touched(s, step);
      DecRefAccounted(s, t, th.(sending := None), th.sending.value, c);
    case FinishRelease(_) =>
      assert th.zapped.value in Touched(s, step);
      DecRefAccounted(s, t, Releaser(None), th.zapped.value, c);
  }

  lemma {:induction false} StepKeepsInv(s: State, step: Step)
    requires Inv(s) && Enabled(s, step) && Allocated(s, step)
    ensures Inv(Apply(s, step))
  {
    var s' := Apply(s, step);
    forall c: Client ensures Accounted(s', c) {
      match step
      case Accept => AcceptAccounted(s, c);
      case Scan => assert Accounted(s, c);
      case EnterRelease(_) => assert Accounted(s, c);
      case Collect(t, ready) => CollectAccounted(s, t, ready, c);
      case StartBroadcast => BroadcastAccounted(s, c);
      case StartRelease(d) =>
        if s.listening && d in s.clients {
          ReleaseAccounted(s, d, c);
        } else {
          assert Accounted(s, c);
        }
      case PopPending(_) => ListenerStepAccounted(s, step, c);
      case FinishHandling(_) => ListenerStepAccounted(s, step, c);
      case HandlerReleases(_) => ListenerStepAccounted(s, step, c);
      case DropZapped(_) => ListenerStepAccounted(s, step, c);
      case PopSafe(_) => OtherStepAccounted(s, step, c);
      case Sent(_) => OtherStepAccounted(s, step, c);
      case FinishRelease(_) => OtherStepAccounted(s, step, c);
    }
  }

  lemma {:induction false} InitialInv(s: State)
    requires Initial(s)
    ensures Inv(s)
  {
    forall c: Client ensures Accounted(s, c) {
      assert s.threads[1..] == [];
      assert HeldBy(s.threads, c) == 0;
      if !s.listening {
        assert s.clients[1..] == [];
      }
    }
  }

  // ----- whole runs

  /** Every step is enabled where it is taken, touches allocated clients only, and leads to the next state. */
  ghost predicate IsRun(states: seq<State>, steps: seq<Step>) {
    && |states| == |steps| + 1 && Initial(states[0])
    && forall i :: 0 <= i < |steps| ==>
         && Enabled(states[i], steps[i])
         && Allocated(states[i], steps[i])
         && states[i + 1] == Apply(states[i], steps[i])
  }

  lemma {:induction false} RunKeepsInv(states: seq<State>, steps: seq<Step>, n: nat)
    requires IsRun(states, steps) && n < |states|
    ensures Inv(states[n])
  {
    if n == 0 {
      InitialInv(states[0]);
    } else {
      RunKeepsInv(states, steps, n - 1);
      StepKeepsInv(states[n - 1], steps[n - 1]);
    }
  }

  /**
   * In every state of every interleaving, each client's count is its membership in `mClients` plus the
   * references the threads hold; it is deleted at most once, and exactly when nothing refers to it.
   */
  lemma {:induction false} CountsAreExact(states: seq<State>, steps: seq<Step>, n: nat, c: Client)
    requires IsRun(states, steps) && n < |states| && c < |states[n].cells|
    ensures var s := states[n];
            && s.cells[c].refCount == (if c in s.clients then 1 else 0) + HeldBy(s.threads, c)
            && s.cells[c].deletions <= 1
            && (s.cells[c].deletions == 1 <==> c !in s.clients && HeldBy(s.threads, c) == 0)
  {
    RunKeepsInv(states, steps, n);
    assert Accounted(states[n], c);
    OccurrencesMember(states[n].clients, c);
  }

  /** The step reads or writes a client that has been deleted. */
  ghost predicate TouchesDeleted(s: State, step: Step)
    requires Enabled(s, step) && Allocated(s, step)
  {
    exists c :: c in Touched(s, step) && s.cells[c].deletions > 0
  }

  /**
   * In every interleaving, a step touches a deleted client exactly when it is the start of a `release` whose
   * client is neither listed nor referenced by any thread: `release` reads its client before it takes the lock and
   * without a reference of its own. No other step ever does.
   */
  lemma {:induction false} UseAfterDeleteExact(states: seq<State>, steps: seq<Step>, n: nat, step: Step)
    requires IsRun(states, steps) && n < |states| && Enabled(states[n], step)
    ensures Allocated(states[n], step)
    ensures TouchesDeleted(states[n], step) <==>
              step.EnterRelease? && step.c !in states[n].clients && HeldBy(states[n].threads, step.c) == 0
  {
    var s := states[n];
    RunKeepsInv(states, steps, n);
    InvKnown(s);
    if step.EnterRelease? {
      CountsAreExact(states, steps, n, step.c);
      assert step.c in Touched(s, step);
    } else {
      forall c | c in Touched(s, step) ensures c < |s.cells| && s.cells[c].deletions == 0 {
        TouchedIsAlive(s, step, c);
      }
    }
  }

  /** A second `release` of the same client reads it after its deletion. */
  lemma {:induction false} SecondReleaseReadsDeleted()
    ensures exists states, steps ::
              && IsRun(states, steps) && steps == [Accept, StartRelease(0), FinishRelease(1)]
              && Enabled(states[3], EnterRelease(0)) && Allocated(states[3], EnterRelease(0))
              && TouchesDeleted(states[3], EnterRelease(0))
  {
    var states, steps := [FRESH, CONNECTED, ZAPPED, DELETED], [Accept, StartRelease(0), FinishRelease(1)];
    SampleSteps();
    assert steps[0] == Accept && steps[1] == StartRelease(0) && steps[2] == FinishRelease(1);
    assert IsRun(states, steps);
    assert 0 in Touched(DELETED, EnterRelease(0)) && states[3] == DELETED;
  }

  const IDLE := Listener([], None, None)
  const FRESH := State(true, [], [], [IDLE])
  const CONNECTED := State(true, [Cell(1, 0)], [0], [IDLE])
  const ZAPPED := State(true, [Cell(1, 0)], [], [IDLE, Releaser(Some(0))])
  const DELETED := State(true, [Cell(0, 1)], [], [IDLE, Releaser(None)])

  lemma {:induction false} SampleSteps()
    ensures Enabled(FRESH, Accept) && Allocated(FRESH, Accept) && Apply(FRESH, Accept) == CONNECTED
    ensures Enabled(CONNECTED, StartRelease(0)) && Allocated(CONNECTED, StartRelease(0))
    ensures Apply(CONNECTED, StartRelease(0)) == ZAPPED
    ensures Enabled(ZAPPED, FinishRelease(1)) && Allocated(ZAPPED, FinishRelease(1))
    ensures Apply(ZAPPED, FinishRelease(1)) == DELETED
  {
    assert Erase([0], 0) == [];
  }

  /** A client that has been deleted stays deleted: it is never referenced again. */
  lemma {:induction false} DeletedForGood(states: seq<State>, steps: seq<Step>, m: nat, n: nat, c: Client)
    requires IsRun(states, steps) && m <= n < |states| && c < |states[m].cells|
    requires states[m].cells[c].deletions == 1
    ensures c < |states[n].cells| && states[n].cells[c].deletions == 1
    decreases n
  {
    if m < n {
      DeletedForGood(states, steps, m, n - 1, c);
      RunKeepsInv(states, steps, n - 1);
      DeletedStep(states[n - 1], steps[n - 1], c);
      CountsAreExact(states, steps, n, c);
    }
  }

  lemma {:induction false} DeletedStep(s: State, step: Step, c: Client)
    requires Inv(s) && Enabled(s, step) && Allocated(s, step)
    requires c < |s.cells| && s.cells[c].deletions == 1
    ensures c < |Apply(s, step).cells| && Apply(s, step).cells[c].deletions >= 1
  {
    assert Accounted(s, c);
    match step
    case Collect(t, ready) =>
      SelectKnown(s.cells, s.clients, ready);
      IncRefAllCounts(s.cells, Select(s.clients, ready), c);
    case StartBroadcast => IncRefAllCounts(s.cells, s.clients, c);
    case FinishHandling(t) => assert s.threads[t].current.value in Touched(s, step);
    case HandlerReleases(t) => assert s.threads[t].current.value in Touched(s, step);
    case EnterRelease(_) =>
    case DropZapped(t) => assert s.threads[t].zapped.value in Touched(s, step);
    case Sent(t) => assert s.threads[t].sending.value in Touched(s, step);
    case FinishRelease(t) => assert s.threads[t].zapped.value in Touched(s, step);
    case _ =>
  }
}
