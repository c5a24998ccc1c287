/** Whom a broadcast and the listener reach, and which clients are listed, over whole runs. */
module SocketListenerRuns {
  import opened Common
  import opened SocketListenerProtocol

  function Held(o: Option<Client>): seq<Client> {
    if o.Some? then [o.value] else []
  }

  lemma {:induction false} StepAt(states: seq<State>, steps: seq<Step>, j: nat, s: State, step: Step)
    requires IsRun(states, steps) && j < |steps| && s == states[j] && step == steps[j]
    ensures Enabled(s, step) && Allocated(s, step) && states[j + 1] == Apply(s, step)
  {}

  // ----- broadcasts

  /** The clients that thread `t` has sent to in the steps from `from` up to `n`. */
  ghost function SentBy(states: seq<State>, steps: seq<Step>, t: nat, from: nat, n: nat): seq<Client>
    requires IsRun(states, steps) && from <= n <= |steps|
  {
    if n == from then []
    else
      var last := if steps[n - 1] == Sent(t) then Held(states[n - 1].threads[t].sending) else [];
      SentBy(states, steps, t, from, n - 1) + last
  }

  /** A broadcasting thread: what it has sent, what it is sending and what it will send. */
  ghost predicate OnItsWay(th: Thread, sent: seq<Client>, all: seq<Client>) {
    th.Broadcaster? && sent + Held(th.sending) + th.safe == all
  }

  lemma {:induction false} BroadcastStep(s: State, step: Step, t: nat, sent: seq<Client>, all: seq<Client>)
    requires Enabled(s, step) && Allocated(s, step) && t < |s.threads| && OnItsWay(s.threads[t], sent, all)
    ensures t < |Apply(s, step).threads|
    ensures OnItsWay(Apply(s, step).threads[t],
                     sent + if step == Sent(t) then Held(s.threads[t].sending) else [], all)
  {
    var th := s.threads[t];
    if step == PopSafe(t) {
      assert sent + [] + th.safe == sent + [th.safe[0]] + th.safe[1..];
    } else if step == Sent(t) {
      assert sent + Held(th.sending) + [] + th.safe == all;
    }
    assert sent + [] == sent;
  }

  /**
   * A broadcast goes to exactly the clients that were listed when it began, each in its turn, whatever happens to the
   * list in the meantime.
   */
  lemma {:induction false} BroadcastReachesAll(states: seq<State>, steps: seq<Step>, b: nat, n: nat)
    requires IsRun(states, steps) && b < n < |states| && steps[b] == StartBroadcast
    ensures var t := |states[b].threads|;
            && t < |states[n].threads|
            && OnItsWay(states[n].threads[t], SentBy(states, steps, t, b + 1, n), states[b].clients)
    decreases n
  {
    var t := |states[b].threads|;
    if n == b + 1 {
      assert states[n] == Apply(states[b], steps[b]);
      assert [] + [] + states[b].clients == states[b].clients;
    } else {
      BroadcastReachesAll(states, steps, b, n - 1);
      var s, step := states[n - 1], steps[n - 1];
      StepAt(states, steps, n - 1, s, step);
      BroadcastStep(s, step, t, SentBy(states, steps, t, b + 1, n - 1), states[b].clients);
    }
  }

  // ----- the listener

  /** The clients that listener `t` has finished handling in the steps from `from` up to `n`. */
  ghost function HandledBy(states: seq<State>, steps: seq<Step>, t: nat, from: nat, n: nat): seq<Client>
    requires IsRun(states, steps) && from <= n <= |steps|
  {
    if n == from then []
    else
      var last := if steps[n - 1] == FinishHandling(t) then Held(states[n - 1].threads[t].current) else [];
      HandledBy(states, steps, t, from, n - 1) + last
  }

  ghost predicate UnderWay(th: Thread, handled: seq<Client>, all: seq<Client>) {
    th.Listener? && handled + Held(th.current) + th.pending == all
  }

  lemma {:induction false} HandlingStep(s: State, step: Step, t: nat, handled: seq<Client>, all: seq<Client>)
    requires Enabled(s, step) && Allocated(s, step) && t < |s.threads| && UnderWay(s.threads[t], handled, all)
    requires !(step.Collect? && step.t == t)
    ensures t < |Apply(s, step).threads|
    ensures UnderWay(Apply(s, step).threads[t],
                     handled + if step == FinishHandling(t) then Held(s.threads[t].current) else [], all)
  {
    var th := s.threads[t];
    if step == PopPending(t) {
      assert handled + [] + th.pending == handled + [th.pending[0]] + th.pending[1..];
    } else if step == FinishHandling(t) {
      assert handled + Held(th.current) + [] + th.pending == all;
    }
    assert handled + [] == handled;
  }

  lemma {:induction false} CollectionStarts(s: State, step: Step)
    requires step.Collect? && Enabled(s, step) && Allocated(s, step)
    ensures step.t < |Apply(s, step).threads|
    ensures UnderWay(Apply(s, step).threads[step.t], [], Select(s.clients, step.ready))
  {
    assert [] + [] + Select(s.clients, step.ready) == Select(s.clients, step.ready);
  }

  /** After each collection the listener handles exactly the listed clients with data, each in its turn. */
  lemma {:induction false} ReadyClientsAreHandled(states: seq<State>, steps: seq<Step>, b: nat, n: nat)
    requires IsRun(states, steps) && b < n < |states| && steps[b].Collect?
    requires forall j :: b < j < n ==> !(steps[j].Collect? && steps[j].t == steps[b].t)
    ensures var t := steps[b].t;
            && t < |states[n].threads|
            && UnderWay(states[n].threads[t], HandledBy(states, steps, t, b + 1, n),
                        Select(states[b].clients, steps[b].ready))
    decreases n
  {
    var t, all := steps[b].t, Select(states[b].clients, steps[b].ready);
    if n == b + 1 {
      assert states[n] == Apply(states[b], steps[b]);
      CollectionStarts(states[b], steps[b]);
    } else {
      ReadyClientsAreHandled(states, steps, b, n - 1);
      var s, step := states[n - 1], steps[n - 1];
      StepAt(states, steps, n - 1, s, step);
      HandlingStep(s, step, t, HandledBy(states, steps, t, b + 1, n - 1), all);
    }
  }

  /** The clients with data are the listed ones that are ready, as often as they are listed. */
  lemma {:induction false} SelectExact(l: seq<Client>, ready: set<Client>, c: Client)
    ensures Occurrences(Select(l, ready), c) == if c in ready then Occurrences(l, c) else 0
  {
    if l != [] {
      SelectExact(l[1..], ready, c);
      if l[0] in ready {
        assert ([l[0]] + Select(l[1..], ready))[1..] == Select(l[1..], ready);
      }
    }
  }

  // ----- the client list

  /** The step takes `c` off the list, or finds it gone. */
  ghost predicate Releases(s: State, step: Step, c: Client)
    requires Enabled(s, step)
  {
    step == StartRelease(c) || (step.HandlerReleases? && s.threads[step.t].current == Some(c))
  }

  /** Since it was accepted, no step before `n` has released `c`. */
  ghost predicate Unreleased(states: seq<State>, steps: seq<Step>, n: nat, c: Client)
    requires IsRun(states, steps) && n <= |steps|
  {
    forall j :: 0 <= j < n && c < |states[j].cells| ==> !Releases(states[j], steps[j], c)
  }

  lemma {:induction false} CellsStep(s: State, step: Step)
    requires Enabled(s, step) && Allocated(s, step)
    ensures |Apply(s, step).cells| == |s.cells| + if step.Accept? then 1 else 0
  {
    match step {
      case Collect(t, ready) =>
        SelectKnown(s.cells, s.clients, ready);
        assert |IncRefAll(s.cells, Select(s.clients, ready))| == |s.cells|;
      case StartBroadcast =>
        assert |IncRefAll(s.cells, s.clients)| == |s.cells|;
      case FinishHandling(t) => assert s.threads[t].current.value in Touched(s, step);
      case DropZapped(t) => assert s.threads[t].zapped.value in Touched(s, step);
      case Sent(t) => assert s.threads[t].sending.value in Touched(s, step);
      case FinishRelease(t) => assert s.threads[t].zapped.value in Touched(s, step);
      case _ =>
    }
  }

  lemma {:induction false} ListStep(s: State, step: Step, c: Client)
    requires Enabled(s, step) && Allocated(s, step) && s.listening
    ensures Apply(s, step).listening
    ensures Occurrences(Apply(s, step).clients, c) ==
            if step.Accept? then Occurrences(s.clients, c) + (if c == |s.cells| then 1 else 0)
            else if Releases(s, step, c) && c in s.clients then Occurrences(s.clients, c) - 1
            else Occurrences(s.clients, c)
  {
    match step {
      case Accept => OccurrencesAppend(s.clients, |s.cells|, c);
      case HandlerReleases(t) =>
        if s.threads[t].current.value in s.clients {
          OccurrencesErase(s.clients, s.threads[t].current.value, c);
        }
      case StartRelease(d) =>
        if d in s.clients {
          OccurrencesErase(s.clients, d, c);
        }
      case _ =>
    }
  }

  lemma {:induction false} OccursOnce(states: seq<State>, steps: seq<Step>, n: nat, c: Client)
    requires IsRun(states, steps) && n < |states| && states[0].listening
    ensures states[n].listening
    ensures Occurrences(states[n].clients, c) ==
            if c < |states[n].cells| && Unreleased(states, steps, n, c) then 1 else 0
  {
    if n > 0 {
      var s, step := states[n - 1], steps[n - 1];
      OccursOnce(states, steps, n - 1, c);
      assert states[n] == Apply(s, step);
      CellsStep(s, step);
      ListStep(s, step, c);
      OccurrencesMember(s.clients, c);
      UnreleasedNext(states, steps, n - 1, c);
      if step.Accept? && c == |s.cells| {
        assert forall j :: 0 <= j < n ==> |states[j].cells| <= c by {
          CellsGrow(states, steps, n - 1);
        }
      }
    }
  }

  lemma {:induction false} UnreleasedNext(states: seq<State>, steps: seq<Step>, n: nat, c: Client)
    requires IsRun(states, steps) && n < |steps|
    ensures Unreleased(states, steps, n + 1, c) <==>
              Unreleased(states, steps, n, c) && (c < |states[n].cells| ==> !Releases(states[n], steps[n], c))
  {}

  lemma {:induction false} CellsGrow(states: seq<State>, steps: seq<Step>, n: nat)
    requires IsRun(states, steps) && n < |states|
    ensures forall j :: 0 <= j <= n ==> |states[j].cells| <= |states[n].cells|
  {
    if n > 0 {
      CellsGrow(states, steps, n - 1);
      assert states[n] == Apply(states[n - 1], steps[n - 1]);
      CellsStep(states[n - 1], steps[n - 1]);
    }
  }

  /** A client is listed, once, from when it is accepted until it is released. */
  lemma {:induction false} ListedExact(states: seq<State>, steps: seq<Step>, n: nat, c: Client)
    requires IsRun(states, steps) && n < |states| && states[0].listening
    ensures c in states[n].clients <==> c < |states[n].cells| && Unreleased(states, steps, n, c)
    ensures Occurrences(states[n].clients, c) <= 1
  {
    OccursOnce(states, steps, n, c);
    OccurrencesMember(states[n].clients, c);
  }
}
