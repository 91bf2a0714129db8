/**
 * The event dispatcher as a state machine over the atomic steps of its goroutines: callers
 * of `Dispatch`, one worker per key, and the watcher of the stop channel. A run is an
 * initial state and any sequence of enabled steps, so statements about all runs range over
 * all interleavings.
 */
module Dispatcher {
  import opened Wrappers
  import opened Sequences

  const CLUSTER_EVENT_BUFFER_SIZE := 100

  datatype Event = Event(kind: string, key: string, data: int)

  /** How far a goroutine has got in its current call of `Dispatch`. */
  datatype Position =
    | Ready
    | Passed                   // saw that the dispatcher is not stopped, wants the lock
    | Locked                   // holds the lock
    | Sending(channel: nat)    // holds the lock, knows the channel, may block on it
    | Sent                     // holds the lock, has yet to release it

  /** A goroutine that dispatches the events of `todo`, and those it dispatched in vain after the stop. */
  datatype Caller = Caller(todo: seq<Event>, position: Position, dropped: seq<Event>)

  datatype Phase = Waiting | Running(event: Event) | Exited

  /** A channel with the goroutine that serves it, and the events that goroutine has handled. */
  datatype Worker = Worker(queue: seq<Event>, phase: Phase, handled: seq<Event>)

  datatype Acceptance = Acceptance(caller: nat, event: Event)

  /** `accepted` records the events in the order in which their callers took the lock. */
  datatype State = State(
    callers: seq<Caller>,
    workers: seq<Worker>,
    channels: map<string, nat>,
    lock: Option<nat>,
    stopClosed: bool,
    stopped: bool,
    accepted: seq<Acceptance>)

  datatype Step =
    | Check(caller: nat)
    | Acquire(caller: nat)
    | Lookup(caller: nat)
    | Send(caller: nat)
    | Release(caller: nat)
    | Receive(worker: nat)
    | Finish(worker: nat)
    | Exit(worker: nat)
    | CloseStop
    | ObserveStop

  predicate Holds(position: Position) {
    position.Locked? || position.Sending? || position.Sent?
  }

  // ---------- Steps

  predicate CallerAt(s: State, c: nat) {
    c < |s.callers| && s.callers[c].todo != []
  }

  predicate Enabled(s: State, step: Step) {
    match step
    case Check(c) => CallerAt(s, c) && s.callers[c].position.Ready?
    case Acquire(c) => CallerAt(s, c) && s.callers[c].position.Passed? && s.lock.None?
    case Lookup(c) => CallerAt(s, c) && s.callers[c].position.Locked?
    case Send(c) =>
      CallerAt(s, c) && s.callers[c].position.Sending? && s.callers[c].position.channel < |s.workers| &&
      |s.workers[s.callers[c].position.channel].queue| < CLUSTER_EVENT_BUFFER_SIZE
    case Release(c) => CallerAt(s, c) && s.callers[c].position.Sent?
    case Receive(w) => w < |s.workers| && s.workers[w].phase.Waiting? && s.workers[w].queue != []
    case Finish(w) => w < |s.workers| && s.workers[w].phase.Running?
    case Exit(w) => w < |s.workers| && s.workers[w].phase.Waiting? && s.stopClosed
    case CloseStop => !s.stopClosed
    case ObserveStop => s.stopClosed && !s.stopped
  }

  function MoveCaller(s: State, c: nat, position: Position): State
    requires c < |s.callers|
  {
    s.(callers := s.callers[c := s.callers[c].(position := position)])
  }

  function Apply(s: State, step: Step): State
    requires Enabled(s, step)
  {
    match step
    case Check(c) =>
      if !s.stopped then MoveCaller(s, c, Passed)
      else
        var caller := s.callers[c];
        s.(callers := s.callers[c := caller.(todo := caller.todo[1..], dropped := caller.dropped + [caller.todo[0]])])
    case Acquire(c) =>
      MoveCaller(s, c, Locked).(lock := Some(c), accepted := s.accepted + [Acceptance(c, s.callers[c].todo[0])])
    case Lookup(c) =>
      var key := s.callers[c].todo[0].key;
      if key in s.channels then MoveCaller(s, c, Sending(s.channels[key]))
      else
        MoveCaller(s, c, Sending(|s.workers|)).(
          workers := s.workers + [Worker([], Waiting, [])],
          channels := s.channels[key := |s.workers|])
    case Send(c) =>
      var w := s.callers[c].position.channel;
      var worker := s.workers[w];
      MoveCaller(s, c, Sent).(workers := s.workers[w := worker.(queue := worker.queue + [s.callers[c].todo[0]])])
    case Release(c) =>
      var caller := s.callers[c];
      s.(callers := s.callers[c := caller.(todo := caller.todo[1..], position := Ready)], lock := None)
    case Receive(w) =>
      var worker := s.workers[w];
      s.(workers := s.workers[w := worker.(queue := worker.queue[1..], phase := Running(worker.queue[0]))])
    case Finish(w) =>
      var worker := s.workers[w];
      s.(workers := s.workers[w := worker.(phase := Waiting, handled := worker.handled + [worker.phase.event])])
    case Exit(w) => s.(workers := s.workers[w := s.workers[w].(phase := Exited)])
    case CloseStop => s.(stopClosed := true)
    case ObserveStop => s.(stopped := true)
  }

  predicate CanRun(s: State, steps: seq<Step>)
    decreases |steps|
  {
    steps == [] || (Enabled(s, steps[0]) && CanRun(Apply(s, steps[0]), steps[1..]))
  }

  function After(s: State, steps: seq<Step>): State
    requires CanRun(s, steps)
    decreases |steps|
  {
    if steps == [] then s else After(Apply(s, steps[0]), steps[1..])
  }

  /** A dispatcher that has just been created, with the scripts its callers will go through. */
  predicate Init(s: State, scripts: seq<seq<Event>>) {
    && |s.callers| == |scripts|
    && (forall c :: 0 <= c < |scripts| ==> s.callers[c] == Caller(scripts[c], Ready, []))
    && s.workers == [] && s.channels == map[] && s.lock == None
    && !s.stopClosed && !s.stopped && s.accepted == []
  }

  // ---------- What every step keeps

  function ByKey(accepted: seq<Acceptance>, key: string): seq<Event> {
    if accepted == [] then []
    else
      var last := accepted[|accepted| - 1].event;
      ByKey(accepted[..|accepted| - 1], key) + if last.key == key then [last] else []
  }

  function ByCaller(accepted: seq<Acceptance>, c: nat): seq<Event> {
    if accepted == [] then []
    else
      var last := accepted[|accepted| - 1];
      ByCaller(accepted[..|accepted| - 1], c) + if last.caller == c then [last.event] else []
  }

  /** Everything a worker has been given: handled, then in its handler, then queued. */
  function Given(worker: Worker): seq<Event> {
    worker.handled + (if worker.phase.Running? then [worker.phase.event] else []) + worker.queue
  }

  function GivenForKey(s: State, key: string): seq<Event>
    requires ChannelInv(s)
  {
    if key in s.channels then Given(s.workers[s.channels[key]]) else []
  }

  /** The event of the lock holder, while it has not reached its channel yet. */
  predicate Unsent(s: State) {
    && s.lock.Some? && s.lock.value < |s.callers|
    && (s.callers[s.lock.value].position.Locked? || s.callers[s.lock.value].position.Sending?)
    && s.accepted != []
  }

  function SentEvents(s: State): seq<Acceptance> {
    if Unsent(s) then s.accepted[..|s.accepted| - 1] else s.accepted
  }

  /** Only the lock holder's event separates `sent` from what has been accepted. */
  ghost predicate InFlight(s: State, sent: seq<Acceptance>) {
    s.lock.Some? && CallerAt(s, s.lock.value) &&
    sent + [Acceptance(s.lock.value, s.callers[s.lock.value].todo[0])] == s.accepted
  }

  ghost predicate LockInv(s: State) {
    && (s.lock.Some? ==> s.lock.value < |s.callers|)
    && (forall c :: 0 <= c < |s.callers| ==>
          && (Holds(s.callers[c].position) <==> s.lock == Some(c))
          && (!s.callers[c].position.Ready? ==> s.callers[c].todo != [])
          && (s.callers[c].dropped != [] ==> s.stopped && s.callers[c].position.Ready?))
    && (s.lock.Some? && !s.callers[s.lock.value].position.Sent? ==>
          s.accepted != [] && s.accepted[|s.accepted| - 1] == Acceptance(s.lock.value, s.callers[s.lock.value].todo[0]))
    && (s.stopped ==> s.stopClosed)
  }

  ghost predicate Serves(s: State, w: nat, key: string) {
    key in s.channels && s.channels[key] == w
  }

  ghost predicate HasKey(s: State, w: nat) {
    exists key :: Serves(s, w, key)
  }

  /** The channel map is a bijection between keys and workers. */
  ghost predicate RoutingInv(s: State) {
    && (forall k :: k in s.channels ==> s.channels[k] < |s.workers|)
    && (forall k, l :: k in s.channels && l in s.channels && s.channels[k] == s.channels[l] ==> k == l)
    && (forall w :: 0 <= w < |s.workers| ==> HasKey(s, w))
  }

  ghost predicate ChannelInv(s: State) {
    && RoutingInv(s)
    && (forall c :: 0 <= c < |s.callers| && s.callers[c].position.Sending? && s.callers[c].todo != [] ==>
          s.callers[c].todo[0].key in s.channels && s.channels[s.callers[c].todo[0].key] == s.callers[c].position.channel)
    && (forall w :: 0 <= w < |s.workers| ==> |s.workers[w].queue| <= CLUSTER_EVENT_BUFFER_SIZE)
    && (forall w :: 0 <= w < |s.workers| && s.workers[w].phase.Exited? ==> s.stopClosed)
  }

  ghost predicate FifoInv(s: State)
    requires ChannelInv(s)
  {
    forall k :: GivenForKey(s, k) == ByKey(SentEvents(s), k)
  }

  /** What a caller has still to get accepted. */
  function Remaining(caller: Caller): seq<Event> {
    if Holds(caller.position) && caller.todo != [] then caller.todo[1..] else caller.todo
  }

  ghost predicate ScriptInv(s: State, scripts: seq<seq<Event>>) {
    && |s.callers| == |scripts|
    && (forall c :: 0 <= c < |scripts| ==>
          ByCaller(s.accepted, c) + s.callers[c].dropped + Remaining(s.callers[c]) == scripts[c])
  }

  ghost predicate Inv(s: State, scripts: seq<seq<Event>>) {
    LockInv(s) && ChannelInv(s) && FifoInv(s) && ScriptInv(s, scripts)
  }

  lemma InitialStateIsGood(s: State, scripts: seq<seq<Event>>)
    requires Init(s, scripts)
    ensures Inv(s, scripts)
  {
    assert forall c :: 0 <= c < |scripts| ==> ByCaller(s.accepted, c) + [] + scripts[c] == scripts[c];
  }

  predicate IsCallerStep(step: Step) {
    step.Check? || step.Acquire? || step.Lookup? || step.Send? || step.Release?
  }

  predicate IsWorkerStep(step: Step) {
    step.Receive? || step.Finish? || step.Exit?
  }

  lemma TakingKeepsLockInv(s: State, step: Step)
    requires step.Check? || step.Acquire?
    requires LockInv(s) && Enabled(s, step)
    ensures LockInv(Apply(s, step))
  {
  }

  lemma HoldingKeepsLockInv(s: State, step: Step)
    requires step.Lookup? || step.Send? || step.Release?
    requires LockInv(s) && Enabled(s, step)
    ensures LockInv(Apply(s, step))
  {
    assert s.lock == Some(step.caller);
  }

  lemma StepKeepsLockInv(s: State, step: Step)
    requires LockInv(s) && Enabled(s, step)
    ensures LockInv(Apply(s, step))
  {
    if step.Check? || step.Acquire? {
      TakingKeepsLockInv(s, step);
    } else if IsCallerStep(step) {
      HoldingKeepsLockInv(s, step);
    }
  }

  lemma StepKeepsRoutingInv(s: State, step: Step)
    requires RoutingInv(s) && Enabled(s, step)
    ensures RoutingInv(Apply(s, step))
  {
    var t := Apply(s, step);
    forall w | 0 <= w < |t.workers|
      ensures HasKey(t, w)
    {
      if w < |s.workers| {
        assert HasKey(s, w);
        var key :| Serves(s, w, key);
        assert Serves(t, w, key);
      } else {
        assert Serves(t, w, s.callers[step.caller].todo[0].key);
      }
    }
  }

  lemma LookupKeepsChannelInv(s: State, step: Step)
    requires step.Lookup? && LockInv(s) && ChannelInv(s) && Enabled(s, step)
    requires RoutingInv(Apply(s, step))
    ensures ChannelInv(Apply(s, step))
  {
  }

  lemma OtherStepKeepsChannelInv(s: State, step: Step)
    requires !step.Lookup? && LockInv(s) && ChannelInv(s) && Enabled(s, step)
    requires RoutingInv(Apply(s, step))
    ensures ChannelInv(Apply(s, step))
  {
  }

  lemma StepKeepsChannelInv(s: State, step: Step)
    requires LockInv(s) && ChannelInv(s) && Enabled(s, step)
    ensures ChannelInv(Apply(s, step))
  {
    StepKeepsRoutingInv(s, step);
    if step.Lookup? {
      LookupKeepsChannelInv(s, step);
    } else {
      OtherStepKeepsChannelInv(s, step);
    }
  }

  lemma StepKeepsFifoInv(s: State, step: Step)
    requires LockInv(s) && ChannelInv(s) && FifoInv(s) && Enabled(s, step)
    ensures ChannelInv(Apply(s, step)) && FifoInv(Apply(s, step))
  {
    StepKeepsChannelInv(s, step);
    forall key
      ensures GivenForKey(Apply(s, step), key) == ByKey(SentEvents(Apply(s, step)), key)
    {
      assert GivenForKey(s, key) == ByKey(SentEvents(s), key);
      if step.Send? {
        SendKeepsFifo(s, step.caller, key);
      } else if IsWorkerStep(step) {
        WorkerStepKeepsFifo(s, step, key);
      } else {
        OtherStepKeepsFifo(s, step, key);
      }
    }
  }

  lemma SendKeepsFifo(s: State, c: nat, key: string)
    requires LockInv(s) && ChannelInv(s) && Enabled(s, Send(c)) && ChannelInv(Apply(s, Send(c)))
    requires GivenForKey(s, key) == ByKey(SentEvents(s), key)
    ensures GivenForKey(Apply(s, Send(c)), key) == ByKey(SentEvents(Apply(s, Send(c))), key)
  {
    var t := Apply(s, Send(c));
    var w := s.callers[c].position.channel;
    var event := s.callers[c].todo[0];
    assert s.lock == Some(c) && SentEvents(t) == t.accepted;
    assert SentEvents(s) == s.accepted[..|s.accepted| - 1];
    assert Given(t.workers[w]) == Given(s.workers[w]) + [event];
    assert Serves(s, w, key) <==> key == event.key;
  }

  /** What a worker does only moves its events along. */
  lemma WorkerStepKeepsGiven(s: State, step: Step)
    requires Enabled(s, step) && IsWorkerStep(step)
    ensures var t := Apply(s, step);
            && t == s.(workers := t.workers)
            && |t.workers| == |s.workers|
            && (forall w :: 0 <= w < |s.workers| ==> Given(t.workers[w]) == Given(s.workers[w]))
  {
    if !step.Exit? {
      GivenIsKept(s.workers[step.worker], Apply(s, step).workers[step.worker]);
    }
  }

  lemma WorkerStepKeepsFifo(s: State, step: Step, key: string)
    requires LockInv(s) && ChannelInv(s) && Enabled(s, step) && ChannelInv(Apply(s, step))
    requires IsWorkerStep(step)
    requires GivenForKey(s, key) == ByKey(SentEvents(s), key)
    ensures GivenForKey(Apply(s, step), key) == ByKey(SentEvents(Apply(s, step)), key)
  {
    WorkerStepKeepsGiven(s, step);
    assert SentEvents(Apply(s, step)) == SentEvents(s);
  }

  lemma OtherStepKeepsFifo(s: State, step: Step, key: string)
    requires LockInv(s) && ChannelInv(s) && Enabled(s, step) && ChannelInv(Apply(s, step))
    requires !step.Send? && !IsWorkerStep(step)
    requires GivenForKey(s, key) == ByKey(SentEvents(s), key)
    ensures GivenForKey(Apply(s, step), key) == ByKey(SentEvents(Apply(s, step)), key)
  {
    SentEventsAreKept(s, step);
    if step.Lookup? {
      LookupKeepsGiven(s, step.caller, key);
    }
  }

  lemma SentEventsAreKept(s: State, step: Step)
    requires LockInv(s) && Enabled(s, step)
    requires !step.Send? && !IsWorkerStep(step)
    ensures SentEvents(Apply(s, step)) == SentEvents(s)
  {
    if step.Acquire? {
      assert (s.accepted + [Acceptance(step.caller, s.callers[step.caller].todo[0])])[..|s.accepted|] == s.accepted;
    }
  }

  /** A worker that has just been started has been given nothing. */
  lemma LookupKeepsGiven(s: State, c: nat, key: string)
    requires ChannelInv(s) && Enabled(s, Lookup(c)) && ChannelInv(Apply(s, Lookup(c)))
    ensures GivenForKey(Apply(s, Lookup(c)), key) == GivenForKey(s, key)
  {
  }

  /** Taking an event from the queue, and finishing it, only move it along. */
  lemma GivenIsKept(before: Worker, after: Worker)
    requires (before.phase.Waiting? && before.queue != [] &&
              after == before.(queue := before.queue[1..], phase := Running(before.queue[0])))
             || (before.phase.Running? &&
                 after == before.(phase := Waiting, handled := before.handled + [before.phase.event]))
    ensures Given(after) == Given(before)
  {
    if before.phase.Waiting? {
      assert before.queue == [before.queue[0]] + before.queue[1..];
    }
  }

  lemma StepKeepsScriptInv(s: State, step: Step, scripts: seq<seq<Event>>)
    requires LockInv(s) && ScriptInv(s, scripts) && Enabled(s, step)
    ensures ScriptInv(Apply(s, step), scripts)
  {
    forall c | 0 <= c < |scripts|
      ensures var t := Apply(s, step);
              ByCaller(t.accepted, c) + t.callers[c].dropped + Remaining(t.callers[c]) == scripts[c]
    {
      assert ByCaller(s.accepted, c) + s.callers[c].dropped + Remaining(s.callers[c]) == scripts[c];
      if step.Acquire? {
        AcquireKeepsScript(s, step.caller, c, scripts[c]);
      } else if step.Check? {
        CheckKeepsScript(s, step.caller, c, scripts[c]);
      }
    }
  }

  lemma AcquireKeepsScript(s: State, caller: nat, c: nat, script: seq<Event>)
    requires LockInv(s) && Enabled(s, Acquire(caller)) && c < |s.callers|
    requires ByCaller(s.accepted, c) + s.callers[c].dropped + Remaining(s.callers[c]) == script
    ensures var t := Apply(s, Acquire(caller));
            ByCaller(t.accepted, c) + t.callers[c].dropped + Remaining(t.callers[c]) == script
  {
    var todo := s.callers[caller].todo;
    var before := ByCaller(s.accepted, c);
    assert (s.accepted + [Acceptance(caller, todo[0])])[..|s.accepted|] == s.accepted;
    if c == caller {
      assert s.callers[c].dropped == [];
      MoveToDone(before, todo);
      assert ByCaller(Apply(s, Acquire(caller)).accepted, c) == before + [todo[0]];
    } else {
      assert before + [] == before;
    }
  }

  lemma CheckKeepsScript(s: State, caller: nat, c: nat, script: seq<Event>)
    requires LockInv(s) && Enabled(s, Check(caller)) && c < |s.callers|
    requires ByCaller(s.accepted, c) + s.callers[c].dropped + Remaining(s.callers[c]) == script
    ensures var t := Apply(s, Check(caller));
            ByCaller(t.accepted, c) + t.callers[c].dropped + Remaining(t.callers[c]) == script
  {
    var todo, dropped := s.callers[caller].todo, s.callers[c].dropped;
    if c == caller && s.stopped {
      var before := ByCaller(s.accepted, c);
      assert todo == [todo[0]] + todo[1..];
      Associative(before, dropped, [todo[0]]);
      Associative(before + dropped, [todo[0]], todo[1..]);
    }
  }

  lemma MoveToDone(done: seq<Event>, todo: seq<Event>)
    requires todo != []
    ensures done + [] + todo == done + [todo[0]] + [] + todo[1..]
  {
    assert todo == [todo[0]] + todo[1..];
    assert done + [] == done && done + [todo[0]] + [] == done + [todo[0]];
    Associative(done, [todo[0]], todo[1..]);
  }

  lemma StepKeepsInv(s: State, step: Step, scripts: seq<seq<Event>>)
    requires Inv(s, scripts) && Enabled(s, step)
    ensures Inv(Apply(s, step), scripts)
  {
    StepKeepsLockInv(s, step);
    StepKeepsFifoInv(s, step);
    StepKeepsScriptInv(s, step, scripts);
  }

  lemma {:induction false} RunKeepsInv(s: State, steps: seq<Step>, scripts: seq<seq<Event>>)
    requires Inv(s, scripts) && CanRun(s, steps)
    ensures Inv(After(s, steps), scripts)
    decreases |steps|
  {
    if steps != [] {
      StepKeepsInv(s, steps[0], scripts);
      RunKeepsInv(Apply(s, steps[0]), steps[1..], scripts);
    }
  }

  // ---------- The main results

  lemma ReachableIsGood(init: State, scripts: seq<seq<Event>>, steps: seq<Step>)
    requires Init(init, scripts) && CanRun(init, steps)
    ensures Inv(After(init, steps), scripts)
  {
    InitialStateIsGood(init, scripts);
    RunKeepsInv(init, steps, scripts);
  }

  lemma UnsentIsInFlight(s: State)
    requires LockInv(s)
    ensures SentEvents(s) == s.accepted || InFlight(s, SentEvents(s))
  {
    if Unsent(s) {
      var last := |s.accepted| - 1;
      assert s.accepted == s.accepted[..last] + [s.accepted[last]];
    }
  }

  /**
   * In every reachable state, what the worker of a key has handled, is handling and has
   * queued is exactly what was accepted for that key, in the order the lock was taken; only
   * the event of the current lock holder may not have arrived yet.
   */
  lemma FirstInFirstOut(init: State, scripts: seq<seq<Event>>, steps: seq<Step>, key: string)
    requires Init(init, scripts) && CanRun(init, steps)
    ensures var s := After(init, steps);
            && ChannelInv(s)
            && GivenForKey(s, key) == ByKey(SentEvents(s), key)
            && (SentEvents(s) == s.accepted || InFlight(s, SentEvents(s)))
  {
    ReachableIsGood(init, scripts, steps);
    var s := After(init, steps);
    UnsentIsInFlight(s);
    assert GivenForKey(s, key) == ByKey(SentEvents(s), key);
  }

  /** No event is lost, duplicated or reordered on the way in; only the stop makes a caller drop events. */
  lemma NothingIsLost(init: State, scripts: seq<seq<Event>>, steps: seq<Step>, c: nat)
    requires Init(init, scripts) && CanRun(init, steps) && c < |scripts|
    ensures var s := After(init, steps);
            && c < |s.callers|
            && ByCaller(s.accepted, c) + s.callers[c].dropped + Remaining(s.callers[c]) == scripts[c]
            && (s.callers[c].dropped != [] ==> s.stopped)
  {
    ReachableIsGood(init, scripts, steps);
  }

  /** An event in the hands of a worker carries that worker's key. */
  lemma {:induction false} ByKeyHasKey(accepted: seq<Acceptance>, key: string)
    ensures forall e :: e in ByKey(accepted, key) ==> e.key == key
  {
    if accepted != [] {
      ByKeyHasKey(accepted[..|accepted| - 1], key);
    }
  }

  predicate SameKeyRunning(v: Worker, w: Worker) {
    v.phase.Running? && w.phase.Running? && v.phase.event.key == w.phase.event.key
  }

  /** Both workers have been given events with the same key. */
  ghost predicate ShareKey(v: Worker, w: Worker) {
    exists d, e :: d in Given(v) && e in Given(w) && d.key == e.key
  }

  /**
   * In every reachable state at most one worker exists per key, at most one handler runs for
   * a key, at most one caller holds the lock, and no queue is over capacity.
   */
  lemma Exclusion(init: State, scripts: seq<seq<Event>>, steps: seq<Step>)
    requires Init(init, scripts) && CanRun(init, steps)
    ensures var s := After(init, steps);
            && (forall v, w | 0 <= v < |s.workers| && 0 <= w < |s.workers| && SameKeyRunning(s.workers[v], s.workers[w]) :: v == w)
            && (forall v, w | 0 <= v < |s.workers| && 0 <= w < |s.workers| && ShareKey(s.workers[v], s.workers[w]) :: v == w)
            && (forall c, d | 0 <= c < |s.callers| && 0 <= d < |s.callers| :: c == d ||
                  !Holds(s.callers[c].position) || !Holds(s.callers[d].position))
            && (forall w :: 0 <= w < |s.workers| ==> |s.workers[w].queue| <= CLUSTER_EVENT_BUFFER_SIZE)
  {
    ReachableIsGood(init, scripts, steps);
    var s := After(init, steps);
    forall v, w | 0 <= v < |s.workers| && 0 <= w < |s.workers| && ShareKey(s.workers[v], s.workers[w])
      ensures v == w
    {
      var d, e :| d in Given(s.workers[v]) && e in Given(s.workers[w]) && d.key == e.key;
      WorkerServesKey(s, v, d);
      WorkerServesKey(s, w, e);
    }
    forall v, w | 0 <= v < |s.workers| && 0 <= w < |s.workers| && SameKeyRunning(s.workers[v], s.workers[w])
      ensures v == w
    {
      assert s.workers[v].phase.event in Given(s.workers[v]) && s.workers[w].phase.event in Given(s.workers[w]);
      assert ShareKey(s.workers[v], s.workers[w]);
    }
  }

  lemma WorkerServesKey(s: State, w: nat, event: Event)
    requires ChannelInv(s) && FifoInv(s) && w < |s.workers| && event in Given(s.workers[w])
    ensures event.key in s.channels && s.channels[event.key] == w
  {
    assert HasKey(s, w);
    var k :| Serves(s, w, k);
    assert GivenForKey(s, k) == ByKey(SentEvents(s), k);
    ByKeyHasKey(SentEvents(s), k);
  }

  /** Something is left to do: an event not yet accepted, on its way, queued or being handled. */
  predicate Pending(s: State) {
    || (exists c :: 0 <= c < |s.callers| && s.callers[c].todo != [])
    || (exists w :: 0 <= w < |s.workers| && Busy(s.workers[w]))
  }

  predicate Busy(worker: Worker) {
    worker.queue != [] || worker.phase.Running?
  }

  /**
   * Before the stop no reachable state with work left is stuck, although a caller may block
   * on a full queue while it holds the lock.
   */
  lemma Progress(s: State, scripts: seq<seq<Event>>) returns (step: Step)
    requires Inv(s, scripts) && !s.stopClosed && Pending(s)
    ensures Enabled(s, step) && !step.CloseStop?
  {
    if w :| 0 <= w < |s.workers| && Busy(s.workers[w]) {
      step := if s.workers[w].phase.Running? then Finish(w) else Receive(w);
    } else if s.lock.Some? {
      var c := s.lock.value;
      var position := s.callers[c].position;
      step := if position.Locked? then Lookup(c) else if position.Sending? then Send(c) else Release(c);
      if position.Sending? {
        assert s.channels[s.callers[c].todo[0].key] == position.channel;
        assert !Busy(s.workers[position.channel]);
      }
    } else {
      var c :| 0 <= c < |s.callers| && s.callers[c].todo != [];
      step := if s.callers[c].position.Ready? then Check(c) else Acquire(c);
    }
  }

  // ---------- Every run ends

  function CallerWork(caller: Caller): int {
    8 * |caller.todo| -
    (match caller.position case Ready => 0 case Passed => 1 case Locked => 2 case Sending(_) => 4 case Sent => 7)
  }

  function WorkerWork(worker: Worker): nat {
    2 * |worker.queue| + (match worker.phase case Waiting => 1 case Running(_) => 2 case Exited => 0)
  }

  function CallersWork(callers: seq<Caller>): int {
    if callers == [] then 0 else CallersWork(callers[..|callers| - 1]) + CallerWork(callers[|callers| - 1])
  }

  function WorkersWork(workers: seq<Worker>): nat {
    if workers == [] then 0 else WorkersWork(workers[..|workers| - 1]) + WorkerWork(workers[|workers| - 1])
  }

  /** What is left to do: unsent, queued and running events, live workers and the stop. */
  function Work(s: State): int {
    CallersWork(s.callers) + WorkersWork(s.workers) + (if s.stopClosed then 0 else 1) + (if s.stopped then 0 else 1)
  }

  lemma {:induction false} CallersWorkUpdate(callers: seq<Caller>, c: nat, caller: Caller)
    requires c < |callers|
    ensures CallersWork(callers[c := caller]) == CallersWork(callers) - CallerWork(callers[c]) + CallerWork(caller)
  {
    var last := |callers| - 1;
    if c == last {
      assert callers[c := caller][..last] == callers[..last];
    } else {
      assert callers[c := caller][..last] == callers[..last][c := caller];
      CallersWorkUpdate(callers[..last], c, caller);
    }
  }

  lemma {:induction false} WorkersWorkUpdate(workers: seq<Worker>, w: nat, worker: Worker)
    requires w < |workers|
    ensures WorkersWork(workers[w := worker]) == WorkersWork(workers) - WorkerWork(workers[w]) + WorkerWork(worker)
  {
    var last := |workers| - 1;
    if w == last {
      assert workers[w := worker][..last] == workers[..last];
    } else {
      assert workers[w := worker][..last] == workers[..last][w := worker];
      WorkersWorkUpdate(workers[..last], w, worker);
    }
  }

  /** Every step, of whatever goroutine, leaves less to do. */
  lemma StepReducesWork(s: State, step: Step)
    requires Enabled(s, step)
    ensures Work(Apply(s, step)) < Work(s)
  {
    if IsCallerStep(step) {
      CallerStepReducesWork(s, step);
    } else if IsWorkerStep(step) {
      var worker := Apply(s, step).workers[step.worker];
      WorkersWorkUpdate(s.workers, step.worker, worker);
      assert WorkerWork(worker) < WorkerWork(s.workers[step.worker]);
    }
  }

  lemma CallerStepReducesWork(s: State, step: Step)
    requires Enabled(s, step) && IsCallerStep(step)
    ensures Work(Apply(s, step)) < Work(s)
  {
    match step
    case Check(c) => CheckReducesWork(s, c);
    case Acquire(c) => CallersWorkUpdate(s.callers, c, Apply(s, step).callers[c]);
    case Lookup(c) => LookupReducesWork(s, c);
    case Send(c) => SendReducesWork(s, c);
    case Release(c) => ReleaseReducesWork(s, c);
  }

  lemma CheckReducesWork(s: State, c: nat)
    requires Enabled(s, Check(c))
    ensures Work(Apply(s, Check(c))) < Work(s)
  {
    CallersWorkUpdate(s.callers, c, Apply(s, Check(c)).callers[c]);
  }

  lemma LookupReducesWork(s: State, c: nat)
    requires Enabled(s, Lookup(c))
    ensures Work(Apply(s, Lookup(c))) < Work(s)
  {
    var t := Apply(s, Lookup(c));
    CallersWorkUpdate(s.callers, c, t.callers[c]);
    if t.workers != s.workers {
      assert t.workers[..|s.workers|] == s.workers;
      assert WorkersWork(t.workers) == WorkersWork(s.workers) + 1;
    }
  }

  lemma SendReducesWork(s: State, c: nat)
    requires Enabled(s, Send(c))
    ensures Work(Apply(s, Send(c))) < Work(s)
  {
    CallersWorkUpdate(s.callers, c, Apply(s, Send(c)).callers[c]);
    SendGrowsWorkersWork(s, c);
  }

  lemma ReleaseReducesWork(s: State, c: nat)
    requires Enabled(s, Release(c))
    ensures Work(Apply(s, Release(c))) < Work(s)
  {
    CallersWorkUpdate(s.callers, c, Apply(s, Release(c)).callers[c]);
  }

  lemma SendGrowsWorkersWork(s: State, c: nat)
    requires Enabled(s, Send(c))
    ensures WorkersWork(Apply(s, Send(c)).workers) == WorkersWork(s.workers) + 2
  {
    var w := s.callers[c].position.channel;
    WorkersWorkUpdate(s.workers, w, Apply(s, Send(c)).workers[w]);
  }

  lemma {:induction false} WorkIsNonNegative(callers: seq<Caller>)
    requires forall c :: 0 <= c < |callers| && !callers[c].position.Ready? ==> callers[c].todo != []
    ensures CallersWork(callers) >= 0
  {
    if callers != [] {
      WorkIsNonNegative(callers[..|callers| - 1]);
    }
  }

  /** So every run is finite, and its length is bounded by the work there was at the start. */
  lemma {:induction false} RunsEnd(s: State, steps: seq<Step>)
    requires LockInv(s) && CanRun(s, steps)
    ensures |steps| <= Work(s)
    decreases |steps|
  {
    WorkIsNonNegative(s.callers);
    if steps != [] {
      StepKeepsLockInv(s, steps[0]);
      StepReducesWork(s, steps[0]);
      RunsEnd(Apply(s, steps[0]), steps[1..]);
    }
  }

  /**
   * When a run without a stop can go no further, every caller is done and every event it
   * dispatched has been handled, once, in order, by the worker of its key.
   */
  lemma QuietMeansAllHandled(init: State, scripts: seq<seq<Event>>, steps: seq<Step>)
    requires Init(init, scripts) && CanRun(init, steps)
    requires !After(init, steps).stopClosed
    requires forall step :: Enabled(After(init, steps), step) ==> step.CloseStop?
    ensures var s := After(init, steps);
            && (forall c :: 0 <= c < |scripts| ==> ByCaller(s.accepted, c) == scripts[c])
            && (forall key :: ByKey(s.accepted, key) ==
                  if key in s.channels && s.channels[key] < |s.workers| then s.workers[s.channels[key]].handled else [])
  {
    var s := After(init, steps);
    ReachableIsGood(init, scripts, steps);
    if Pending(s) {
      var step := Progress(s, scripts);
      assert false;
    }
    assert s.lock.None?;
    forall c | 0 <= c < |scripts|
      ensures ByCaller(s.accepted, c) == scripts[c]
    {
      assert s.callers[c].todo == [] && s.callers[c].dropped == [];
      assert ByCaller(s.accepted, c) + [] + [] == scripts[c];
    }
    forall key
      ensures ByKey(s.accepted, key) ==
              if key in s.channels && s.channels[key] < |s.workers| then s.workers[s.channels[key]].handled else []
    {
      assert GivenForKey(s, key) == ByKey(SentEvents(s), key);
      if key in s.channels {
        var worker := s.workers[s.channels[key]];
        assert !Busy(worker);
        assert Given(worker) == worker.handled + [] + [];
      }
    }
  }

  // ---------- What goroutines wait for

  ghost predicate CallerWaits(s: State, c: nat) {
    forall step :: IsCallerStep(step) && step.caller == c ==> !Enabled(s, step)
  }

  ghost predicate WorkerWaits(s: State, w: nat) {
    forall step :: IsWorkerStep(step) && step.worker == w ==> !Enabled(s, step)
  }

  /** A call of `Dispatch` waits for nothing but the lock and room in its channel. */
  lemma CallerWaitsExactlyWhen(s: State, c: nat)
    requires LockInv(s) && ChannelInv(s) && CallerAt(s, c)
    ensures CallerWaits(s, c) <==>
            var position := s.callers[c].position;
            (position.Passed? && s.lock.Some?) || (position.Sending? && |s.workers[position.channel].queue| == 100)
  {
    var position := s.callers[c].position;
    var step := match position
      case Ready => Check(c)
      case Passed => Acquire(c)
      case Locked => Lookup(c)
      case Sending(_) => Send(c)
      case Sent => Release(c);
    assert IsCallerStep(step) && step.caller == c;
    if Enabled(s, step) {
      assert !CallerWaits(s, c);
    }
  }

  /** A worker waits for nothing but an event and the stop, and takes whichever it finds first. */
  lemma WorkerWaitsExactlyWhen(s: State, w: nat)
    requires w < |s.workers|
    ensures WorkerWaits(s, w) <==>
            s.workers[w].phase.Exited? || (s.workers[w].phase.Waiting? && s.workers[w].queue == [] && !s.stopClosed)
    ensures s.workers[w].phase.Waiting? ==> (Enabled(s, Receive(w)) <==> s.workers[w].queue != []) && (Enabled(s, Exit(w)) <==> s.stopClosed)
  {
    assert IsWorkerStep(Receive(w)) && IsWorkerStep(Finish(w)) && IsWorkerStep(Exit(w));
    assert Enabled(s, Receive(w)) || Enabled(s, Finish(w)) || Enabled(s, Exit(w)) ==> !WorkerWaits(s, w);
  }

  /** The stop may come at any time, and be observed at any time after that. */
  lemma StopMayComeAnytime(s: State)
    ensures !s.stopClosed ==>
              CanRun(s, [CloseStop]) && After(s, [CloseStop]) == s.(stopClosed := true)
    ensures s.stopClosed && !s.stopped ==>
              CanRun(s, [ObserveStop]) && After(s, [ObserveStop]) == s.(stopped := true)
  {
    if !s.stopClosed {
      RunOf(s, CloseStop, [], s.(stopClosed := true));
      assert [CloseStop] + [] == [CloseStop];
    } else if !s.stopped {
      RunOf(s, ObserveStop, [], s.(stopped := true));
      assert [ObserveStop] + [] == [ObserveStop];
    }
  }

  // ---------- After the stop

  predicate Receives(steps: seq<Step>) {
    exists i :: 0 <= i < |steps| && steps[i].Receive?
  }

  predicate Idle(worker: Worker) {
    worker.phase.Exited? || worker.queue == []
  }

  /** The states of a run in which a single event is dispatched just before the stop. */
  function LateStage(event: Event, i: nat): State {
    var channels, accepted := map[event.key := 0], [Acceptance(0, event)];
    if i == 0 then State([Caller([event], Ready, [])], [], map[], None, false, false, [])
    else if i == 1 then State([Caller([event], Passed, [])], [], map[], None, false, false, [])
    else if i == 2 then State([Caller([event], Locked, [])], [], map[], Some(0), false, false, accepted)
    else if i == 3 then State([Caller([event], Sending(0), [])], [Worker([], Waiting, [])], channels, Some(0), false, false, accepted)
    else if i == 4 then State([Caller([event], Sent, [])], [Worker([event], Waiting, [])], channels, Some(0), false, false, accepted)
    else State([Caller([], Ready, [])], [Worker([event], Waiting, [])], channels, None, i > 5, i > 6, accepted)
  }

  const LATE_STEPS := [Check(0), Acquire(0), Lookup(0), Send(0), Release(0), CloseStop, ObserveStop]

  lemma LateStep(event: Event, i: nat)
    requires i < |LATE_STEPS|
    ensures Enabled(LateStage(event, i), LATE_STEPS[i])
    ensures Apply(LateStage(event, i), LATE_STEPS[i]) == LateStage(event, i + 1)
  {
    var s, t := LateStage(event, i), LateStage(event, i + 1);
    assert [event][1..] == [] && [] + [event] == [event];
    assert s.callers[0 := t.callers[0]] == t.callers;
    if i > 2 {
      assert s.workers[0 := t.workers[0]] == t.workers;
    }
  }

  lemma {:induction false} LateRun(event: Event, i: nat)
    requires i <= |LATE_STEPS|
    ensures CanRun(LateStage(event, i), LATE_STEPS[i..])
    ensures After(LateStage(event, i), LATE_STEPS[i..]) == LateStage(event, |LATE_STEPS|)
    decreases |LATE_STEPS| - i
  {
    if i < |LATE_STEPS| {
      LateStep(event, i);
      LateRun(event, i + 1);
      assert LATE_STEPS[i..] == [LATE_STEPS[i]] + LATE_STEPS[i + 1..];
      RunOf(LateStage(event, i), LATE_STEPS[i], LATE_STEPS[i + 1..], LateStage(event, |LATE_STEPS|));
    }
  }

  /**
   * The constructor's comment promises that no event is handled once the stop channel is
   * closed. A worker's select may still prefer a queued event.
   */
  lemma HandledAfterStop(event: Event)
    ensures var init := State([Caller([event], Ready, [])], [], map[], None, false, false, []);
            && Init(init, [[event]])
            && CanRun(init, LATE_STEPS) && After(init, LATE_STEPS).stopped
            && Enabled(After(init, LATE_STEPS), Receive(0))
  {
    assert LATE_STEPS[0..] == LATE_STEPS;
    LateRun(event, 0);
  }

  lemma RunOf(s: State, step: Step, steps: seq<Step>, end: State)
    requires Enabled(s, step) && CanRun(Apply(s, step), steps) && After(Apply(s, step), steps) == end
    ensures CanRun(s, [step] + steps) && After(s, [step] + steps) == end
  {
    assert ([step] + steps)[1..] == steps;
  }

  /** The state after that run if the worker then leaves. */
  function AbandonedStage(event: Event): State {
    State([Caller([], Ready, [])], [Worker([event], Exited, [])], map[event.key := 0], None, true, true, [Acceptance(0, event)])
  }

  lemma AbandonedRun(event: Event)
    ensures var init := State([Caller([event], Ready, [])], [], map[], None, false, false, []);
            CanRun(init, LATE_STEPS + [Exit(0)]) && After(init, LATE_STEPS + [Exit(0)]) == AbandonedStage(event)
  {
    var s := LateStage(event, |LATE_STEPS|);
    assert s.workers[0 := Worker([event], Exited, [])] == AbandonedStage(event).workers;
    RunOf(s, Exit(0), [], AbandonedStage(event));
    assert [Exit(0)] + [] == [Exit(0)];
    assert LATE_STEPS[0..] == LATE_STEPS;
    LateRun(event, 0);
    RunsInARow(LateStage(event, 0), LATE_STEPS, [Exit(0)]);
  }

  /**
   * An accepted event may never be handled: with both the stop and an event to choose from,
   * the worker may leave, and whatever happens afterwards its queue is not taken up.
   */
  lemma AbandonedAfterStop(event: Event)
    ensures var init := State([Caller([event], Ready, [])], [], map[], None, false, false, []);
            && Init(init, [[event]]) && CanRun(init, LATE_STEPS + [Exit(0)])
            && After(init, LATE_STEPS + [Exit(0)]) == AbandonedStage(event)
    ensures AbandonedStage(event).accepted == [Acceptance(0, event)]
    ensures AbandonedStage(event).workers == [Worker([event], Exited, [])]
    ensures forall steps :: CanRun(AbandonedStage(event), steps) ==> !Receives(steps)
  {
    hide CanRun, After, Inv;
    AbandonedRun(event);
    AbandonedIsWellFormed(event);
    StopIsFinal(AbandonedStage(event));
  }

  lemma AbandonedIsWellFormed(event: Event)
    ensures LockInv(AbandonedStage(event)) && ChannelInv(AbandonedStage(event)) && IsFinal(AbandonedStage(event))
  {
    var s := AbandonedStage(event);
    assert Serves(s, 0, event.key);
  }

  lemma {:induction false} RunsInARow(s: State, first: seq<Step>, second: seq<Step>)
    requires CanRun(s, first) && CanRun(After(s, first), second)
    ensures CanRun(s, first + second) && After(s, first + second) == After(After(s, first), second)
    decreases |first|
  {
    if first == [] {
      assert first + second == second;
    } else {
      assert (first + second)[1..] == first[1..] + second;
      RunsInARow(Apply(s, first[0]), first[1..], second);
    }
  }

  /** Once the stop channel is closed, every worker may leave after at most the event in its handler, whatever is queued. */
  lemma WorkerMayLeave(s: State, w: nat) returns (steps: seq<Step>)
    requires s.stopClosed && w < |s.workers| && !s.workers[w].phase.Exited?
    ensures |steps| <= 2 && CanRun(s, steps) && w < |After(s, steps).workers|
    ensures After(s, steps).workers[w].phase.Exited? && After(s, steps).workers[w].queue == s.workers[w].queue
  {
    if s.workers[w].phase.Waiting? {
      RunOf(s, Exit(w), [], Apply(s, Exit(w)));
      steps := [Exit(w)] + [];
    } else {
      var t := Apply(s, Finish(w));
      RunOf(t, Exit(w), [], Apply(t, Exit(w)));
      RunOf(s, Finish(w), [Exit(w)] + [], Apply(t, Exit(w)));
      steps := [Finish(w)] + ([Exit(w)] + []);
    }
  }

  const LATE_CALLER_STEPS := [Check(0), CloseStop, ObserveStop, Acquire(0), Lookup(0), Send(0), Receive(0)]

  /** The states of a run in which the stop comes between a caller's check and its taking the lock. */
  function LateCallerStage(event: Event, i: nat): State {
    var channels, accepted := map[event.key := 0], [Acceptance(0, event)];
    if i == 0 then State([Caller([event], Ready, [])], [], map[], None, false, false, [])
    else if i <= 3 then State([Caller([event], Passed, [])], [], map[], None, i > 1, i > 2, [])
    else if i == 4 then State([Caller([event], Locked, [])], [], map[], Some(0), true, true, accepted)
    else if i == 5 then State([Caller([event], Sending(0), [])], [Worker([], Waiting, [])], channels, Some(0), true, true, accepted)
    else if i == 6 then State([Caller([event], Sent, [])], [Worker([event], Waiting, [])], channels, Some(0), true, true, accepted)
    else State([Caller([event], Sent, [])], [Worker([], Running(event), [])], channels, Some(0), true, true, accepted)
  }

  lemma LateCallerStep(event: Event, i: nat)
    requires i < |LATE_CALLER_STEPS|
    ensures Enabled(LateCallerStage(event, i), LATE_CALLER_STEPS[i])
    ensures Apply(LateCallerStage(event, i), LATE_CALLER_STEPS[i]) == LateCallerStage(event, i + 1)
  {
    var s, t := LateCallerStage(event, i), LateCallerStage(event, i + 1);
    assert [event][1..] == [] && [] + [event] == [event];
    assert s.callers[0 := t.callers[0]] == t.callers;
    if i > 4 {
      assert s.workers[0 := t.workers[0]] == t.workers;
    }
  }

  lemma {:induction false} LateCallerRun(event: Event, i: nat, j: nat)
    requires i <= j <= |LATE_CALLER_STEPS|
    ensures CanRun(LateCallerStage(event, i), LATE_CALLER_STEPS[i..j])
    ensures After(LateCallerStage(event, i), LATE_CALLER_STEPS[i..j]) == LateCallerStage(event, j)
    decreases j - i
  {
    if i < j {
      LateCallerStep(event, i);
      LateCallerRun(event, i + 1, j);
      assert LATE_CALLER_STEPS[i..j] == [LATE_CALLER_STEPS[i]] + LATE_CALLER_STEPS[i + 1..j];
      RunOf(LateCallerStage(event, i), LATE_CALLER_STEPS[i], LATE_CALLER_STEPS[i + 1..j], LateCallerStage(event, j));
    }
  }

  /**
   * Nor does it help that no worker exists when the stop is observed: a caller that was past
   * its check of the stopped flag starts one, which takes its event.
   */
  lemma HandledForLateCaller(event: Event)
    ensures var init := State([Caller([event], Ready, [])], [], map[], None, false, false, []);
            && Init(init, [[event]]) && CanRun(init, LATE_CALLER_STEPS[..3])
            && After(init, LATE_CALLER_STEPS[..3]).stopped && After(init, LATE_CALLER_STEPS[..3]).workers == []
            && CanRun(init, LATE_CALLER_STEPS)
            && After(init, LATE_CALLER_STEPS).workers == [Worker([], Running(event), [])]
  {
    LateCallerRun(event, 0, 3);
    assert LATE_CALLER_STEPS[0..3] == LATE_CALLER_STEPS[..3];
    LateCallerRun(event, 0, 7);
    assert LATE_CALLER_STEPS[0..7] == LATE_CALLER_STEPS;
  }

  /** The caller's event goes to a channel whose worker has exited. */
  predicate Dead(s: State, c: nat) {
    && CallerAt(s, c) && s.callers[c].todo[0].key in s.channels
    && s.channels[s.callers[c].todo[0].key] < |s.workers| && s.workers[s.channels[s.callers[c].todo[0].key]].phase.Exited?
  }

  predicate IsSending(s: State, c: nat) {
    c < |s.callers| && (s.callers[c].position.Locked? || s.callers[c].position.Sending?)
  }

  /** The lock holder waits for ever for room in the channel of a worker that has exited. */
  predicate Stuck(s: State) {
    && s.lock.Some? && IsSending(s, s.lock.value) && Dead(s, s.lock.value)
    && |s.workers[s.channels[s.callers[s.lock.value].todo[0].key]].queue| >= CLUSTER_EVENT_BUFFER_SIZE
  }

  predicate AllIdle(s: State) {
    forall w :: 0 <= w < |s.workers| ==> Idle(s.workers[w])
  }

  predicate SendersAreDead(s: State) {
    forall c :: 0 <= c < |s.callers| && IsSending(s, c) ==> Dead(s, c)
  }

  predicate PassedAreDead(s: State) {
    forall c :: 0 <= c < |s.callers| && s.callers[c].position.Passed? ==> Dead(s, c)
  }

  /**
   * No worker has anything to take, and no caller that is past its check of the stopped flag
   * can still get an event to a worker that lives.
   */
  predicate IsFinal(s: State) {
    AllIdle(s) && SendersAreDead(s) && (Stuck(s) || PassedAreDead(s))
  }

  ghost predicate CanReceive(s: State) {
    exists steps :: CanRun(s, steps) && Receives(steps)
  }

  /**
   * Exactly when the promise holds: from a state in which the stop has been observed, with
   * any calls of Dispatch still under way, nothing is ever taken up precisely if the state
   * is final.
   */
  lemma StopIsFinal(s: State)
    requires LockInv(s) && ChannelInv(s) && s.stopped
    ensures (forall steps :: CanRun(s, steps) ==> !Receives(steps)) <==> IsFinal(s)
  {
    if IsFinal(s) {
      forall steps | CanRun(s, steps)
        ensures !Receives(steps)
      {
        FinalStaysFinal(s, steps);
      }
    } else {
      if !AllIdle(s) {
        var w :| 0 <= w < |s.workers| && !Idle(s.workers[w]);
        BusyReceives(s, w);
      } else if !SendersAreDead(s) {
        var c :| 0 <= c < |s.callers| && IsSending(s, c) && !Dead(s, c);
        SenderReceives(s, c);
      } else {
        var c :| 0 <= c < |s.callers| && s.callers[c].position.Passed? && !Dead(s, c);
        PassedReceives(s, c);
      }
      assert CanReceive(s);
    }
  }

  lemma Prepend(s: State, step: Step)
    requires Enabled(s, step) && (step.Receive? || CanReceive(Apply(s, step)))
    ensures CanReceive(s)
  {
    if step.Receive? {
      RunOf(s, step, [], Apply(s, step));
      assert ([step] + [])[0].Receive?;
      assert CanRun(s, [step] + []) && Receives([step] + []);
    } else {
      var rest: seq<Step> :| CanRun(Apply(s, step), rest) && Receives(rest);
      var i :| 0 <= i < |rest| && rest[i].Receive?;
      RunOf(s, step, rest, After(Apply(s, step), rest));
      assert ([step] + rest)[i + 1].Receive?;
    }
  }

  /** Exited workers stay exited, and keys keep their channels. */
  lemma DeadStays(s: State, step: Step, c: nat)
    requires Enabled(s, step) && Dead(s, c) && Apply(s, step).callers[c].todo == s.callers[c].todo
    ensures Dead(Apply(s, step), c)
  {
  }

  /** A worker that is idle stays so, unless a step gives it something to do. */
  lemma IdleStays(s: State, step: Step)
    requires LockInv(s) && ChannelInv(s) && AllIdle(s) && Enabled(s, step)
    requires step.Send? ==> Dead(s, step.caller)
    ensures !step.Receive? && AllIdle(Apply(s, step))
  {
    var t := Apply(s, step);
    forall w | 0 <= w < |t.workers|
      ensures Idle(t.workers[w])
    {
      if w < |s.workers| {
        assert Idle(s.workers[w]);
      }
    }
  }

  lemma BusyReceives(s: State, w: nat)
    requires w < |s.workers| && !Idle(s.workers[w])
    ensures CanReceive(s)
  {
    if s.workers[w].phase.Running? {
      Prepend(Apply(s, Finish(w)), Receive(w));
      Prepend(s, Finish(w));
    } else {
      Prepend(s, Receive(w));
    }
  }

  /** A caller with a channel, whose worker lives and is idle, gets its event taken. */
  lemma SendingReceives(s: State, c: nat)
    requires LockInv(s) && ChannelInv(s) && AllIdle(s)
    requires c < |s.callers| && s.callers[c].position.Sending? && !Dead(s, c)
    ensures CanReceive(s)
  {
    var w := s.callers[c].position.channel;
    assert Idle(s.workers[w]);
    BusyReceives(Apply(s, Send(c)), w);
    Prepend(s, Send(c));
  }

  lemma SenderReceives(s: State, c: nat)
    requires LockInv(s) && ChannelInv(s) && AllIdle(s)
    requires IsSending(s, c) && !Dead(s, c)
    ensures CanReceive(s)
  {
    if s.callers[c].position.Sending? {
      SendingReceives(s, c);
    } else {
      var t := Apply(s, Lookup(c));
      StepKeepsLockInv(s, Lookup(c));
      StepKeepsChannelInv(s, Lookup(c));
      SendingReceives(t, c);
      Prepend(s, Lookup(c));
    }
  }

  /** No step of a caller makes another caller's worker exit. */
  lemma LiveStays(s: State, step: Step, p: nat)
    requires ChannelInv(s) && Enabled(s, step) && IsCallerStep(step) && p < |s.callers| && !Dead(s, p)
    requires Apply(s, step).callers[p].todo == s.callers[p].todo
    ensures !Dead(Apply(s, step), p)
  {
  }

  lemma FreeLockReceives(s: State, p: nat)
    requires LockInv(s) && ChannelInv(s) && AllIdle(s) && s.lock.None?
    requires p < |s.callers| && s.callers[p].position.Passed? && !Dead(s, p)
    ensures CanReceive(s)
  {
    StepKeepsLockInv(s, Acquire(p));
    StepKeepsChannelInv(s, Acquire(p));
    LiveStays(s, Acquire(p), p);
    SenderReceives(Apply(s, Acquire(p)), p);
    Prepend(s, Acquire(p));
  }

  lemma SentHolderReceives(s: State, p: nat)
    requires LockInv(s) && ChannelInv(s) && AllIdle(s) && s.lock.Some? && s.callers[s.lock.value].position.Sent?
    requires p < |s.callers| && s.callers[p].position.Passed? && !Dead(s, p)
    ensures CanReceive(s)
  {
    var step := Release(s.lock.value);
    StepKeepsLockInv(s, step);
    StepKeepsChannelInv(s, step);
    LiveStays(s, step, p);
    FreeLockReceives(Apply(s, step), p);
    Prepend(s, step);
  }

  lemma SendingHolderReceives(s: State, p: nat)
    requires LockInv(s) && ChannelInv(s) && AllIdle(s) && s.lock.Some? && s.callers[s.lock.value].position.Sending?
    requires Dead(s, s.lock.value) && !Stuck(s)
    requires p < |s.callers| && s.callers[p].position.Passed? && !Dead(s, p)
    ensures CanReceive(s)
  {
    var step := Send(s.lock.value);
    assert IsSending(s, s.lock.value);
    StepKeepsLockInv(s, step);
    StepKeepsChannelInv(s, step);
    IdleStays(s, step);
    LiveStays(s, step, p);
    SentHolderReceives(Apply(s, step), p);
    Prepend(s, step);
  }

  lemma LockedHolderReceives(s: State, p: nat)
    requires LockInv(s) && ChannelInv(s) && AllIdle(s) && s.lock.Some? && s.callers[s.lock.value].position.Locked?
    requires Dead(s, s.lock.value) && !Stuck(s)
    requires p < |s.callers| && s.callers[p].position.Passed? && !Dead(s, p)
    ensures CanReceive(s)
  {
    var step := Lookup(s.lock.value);
    assert IsSending(s, s.lock.value);
    StepKeepsLockInv(s, step);
    StepKeepsChannelInv(s, step);
    IdleStays(s, step);
    LiveStays(s, step, p);
    DeadStays(s, step, s.lock.value);
    SendingHolderReceives(Apply(s, step), p);
    Prepend(s, step);
  }

  /** A caller past its check gets the lock in the end, unless the holder is stuck. */
  lemma PassedReceives(s: State, p: nat)
    requires LockInv(s) && ChannelInv(s) && AllIdle(s) && SendersAreDead(s) && !Stuck(s)
    requires p < |s.callers| && s.callers[p].position.Passed? && !Dead(s, p)
    ensures CanReceive(s)
  {
    if s.lock.None? {
      FreeLockReceives(s, p);
    } else {
      var holder := s.lock.value;
      assert Holds(s.callers[holder].position);
      if s.callers[holder].position.Sent? {
        SentHolderReceives(s, p);
      } else {
        assert IsSending(s, holder) && Dead(s, holder);
        if s.callers[holder].position.Sending? {
          SendingHolderReceives(s, p);
        } else {
          LockedHolderReceives(s, p);
        }
      }
    }
  }

  /** A final state stays final whatever happens, and nothing is received. */
  lemma StepKeepsFinal(s: State, step: Step)
    requires LockInv(s) && ChannelInv(s) && s.stopped && IsFinal(s) && Enabled(s, step)
    ensures !step.Receive? && Apply(s, step).stopped && IsFinal(Apply(s, step))
  {
    assert step.Send? ==> IsSending(s, step.caller) && Dead(s, step.caller);
    IdleStays(s, step);
    if IsCallerStep(step) {
      CallerStepKeepsFinal(s, step);
    } else {
      WorkerStepKeepsFinal(s, step);
    }
  }

  lemma CallerStepKeepsFinal(s: State, step: Step)
    requires LockInv(s) && ChannelInv(s) && s.stopped && IsFinal(s) && Enabled(s, step) && IsCallerStep(step)
    ensures Apply(s, step).stopped && IsFinal(Apply(s, step))
  {
    var c, t := step.caller, Apply(s, step);
    assert step.Lookup? || step.Send? ==> IsSending(s, c) && Dead(s, c);
    assert step.Acquire? ==> Dead(s, c);
    IdleStays(s, step);
    forall d | 0 <= d < |t.callers| && (IsSending(t, d) || (PassedAreDead(s) && t.callers[d].position.Passed?))
      ensures Dead(t, d)
    {
      assert t.callers[d].todo == s.callers[d].todo;
      DeadStays(s, step, d);
    }
    if !PassedAreDead(s) {
      StuckStays(s, step);
    }
  }

  /** While the lock holder is stuck, no caller does anything but drop an event. */
  lemma StuckStays(s: State, step: Step)
    requires LockInv(s) && ChannelInv(s) && s.stopped && Stuck(s) && Enabled(s, step) && !step.Receive?
    ensures Stuck(Apply(s, step))
  {
    var holder := s.lock.value;
    assert Holds(s.callers[holder].position);
    assert step.Check? ==> step.caller != holder;
    assert Apply(s, step).callers[holder].todo == s.callers[holder].todo;
    DeadStays(s, step, holder);
  }

  lemma WorkerStepKeepsFinal(s: State, step: Step)
    requires LockInv(s) && ChannelInv(s) && s.stopped && IsFinal(s) && Enabled(s, step) && (step.Finish? || step.Exit?)
    ensures Apply(s, step).stopped && IsFinal(Apply(s, step))
  {
    var t := Apply(s, step);
    IdleStays(s, step);
    forall d | 0 <= d < |t.callers| && (IsSending(t, d) || (PassedAreDead(s) && t.callers[d].position.Passed?))
      ensures Dead(t, d)
    {
      assert IsSending(t, d) ==> IsSending(s, d);
      DeadStays(s, step, d);
    }
    if !PassedAreDead(s) {
      StuckStays(s, step);
    }
  }

  lemma {:induction false} FinalStaysFinal(s: State, steps: seq<Step>)
    requires LockInv(s) && ChannelInv(s) && s.stopped && IsFinal(s) && CanRun(s, steps)
    ensures !Receives(steps)
    decreases |steps|
  {
    if steps != [] {
      StepKeepsFinal(s, steps[0]);
      StepKeepsLockInv(s, steps[0]);
      StepKeepsChannelInv(s, steps[0]);
      FinalStaysFinal(Apply(s, steps[0]), steps[1..]);
      forall i | 0 <= i < |steps|
        ensures !steps[i].Receive?
      {
        assert i == 0 || steps[i] == steps[1..][i - 1];
      }
    }
  }
  // ---------- Calls after the stop

  /** What a goroutine that is not in `Dispatch` when the dispatcher has stopped has still to say stays unheard. */
  ghost predicate StaysOutside(s: State, t: State, c: nat) {
    && c < |s.callers| && c < |t.callers| && t.stopped && t.callers[c].position.Ready?
    && t.callers[c].dropped + t.callers[c].todo == s.callers[c].dropped + s.callers[c].todo
    && ByCaller(t.accepted, c) == ByCaller(s.accepted, c)
  }

  lemma StepStaysOutside(s: State, step: Step, c: nat)
    requires s.stopped && c < |s.callers| && s.callers[c].position.Ready? && Enabled(s, step)
    ensures StaysOutside(s, Apply(s, step), c)
  {
    var t := Apply(s, step);
    if step == Check(c) {
      MoveToDone(s.callers[c].dropped, s.callers[c].todo);
    }
    if step.Acquire? {
      assert t.accepted[..|t.accepted| - 1] == s.accepted;
    }
  }

  lemma {:induction false} CallsAfterStopAreDropped(s: State, steps: seq<Step>, c: nat)
    requires s.stopped && c < |s.callers| && s.callers[c].position.Ready? && CanRun(s, steps)
    ensures StaysOutside(s, After(s, steps), c)
    decreases |steps|
  {
    if steps != [] {
      StepStaysOutside(s, steps[0], c);
      CallsAfterStopAreDropped(Apply(s, steps[0]), steps[1..], c);
    }
  }

  /** Such calls return all the same, one by one, whatever the other goroutines do or wait for. */
  lemma {:induction false} CallsAfterStopReturn(s: State, c: nat) returns (steps: seq<Step>)
    requires s.stopped && c < |s.callers| && s.callers[c].position.Ready?
    ensures |steps| == |s.callers[c].todo| && CanRun(s, steps)
    ensures After(s, steps) == s.(callers := s.callers[c := Caller([], Ready, s.callers[c].dropped + s.callers[c].todo)])
    decreases |s.callers[c].todo|
  {
    var caller := s.callers[c];
    if caller.todo == [] {
      steps := [];
      assert caller.dropped + [] == caller.dropped && caller == Caller([], Ready, caller.dropped + caller.todo);
      assert s.callers[c := caller] == s.callers;
    } else {
      var next := Apply(s, Check(c));
      var rest := CallsAfterStopReturn(next, c);
      RunOf(s, Check(c), rest, After(next, rest));
      steps := [Check(c)] + rest;
      var gone := Caller([], Ready, caller.dropped + caller.todo);
      assert caller.todo == [caller.todo[0]] + caller.todo[1..];
      Associative(caller.dropped, [caller.todo[0]], caller.todo[1..]);
      assert next.callers[c].dropped + next.callers[c].todo == gone.dropped;
      assert next.callers[c := gone] == s.callers[c := gone];
      assert After(next, rest) == next.(callers := next.callers[c := gone]) == s.(callers := s.callers[c := gone]);
    }
  }

  // ---------- The buffer

  function Copies<T>(item: T, n: nat): (items: seq<T>)
    ensures |items| == n && forall i :: 0 <= i < n ==> items[i] == item
  {
    if n == 0 then [] else Copies(item, n - 1) + [item]
  }

  /** The first `k` of `n` equal events have been dispatched, and the worker has not looked at any yet. */
  function BufferedStage(event: Event, k: nat, n: nat): State
    requires k <= n
  {
    State([Caller(Copies(event, n - k), Ready, [])],
          if k == 0 then [] else [Worker(Copies(event, k), Waiting, [])],
          if k == 0 then map[] else map[event.key := 0],
          None, false, false, Copies(Acceptance(0, event), k))
  }

  /** The worker of the next event's key is found or started. */
  function LookedUpStage(event: Event, k: nat, n: nat): State
    requires k < n
  {
    State([Caller(Copies(event, n - k), Sending(0), [])], [Worker(Copies(event, k), Waiting, [])],
          map[event.key := 0], Some(0), false, false, Copies(Acceptance(0, event), k + 1))
  }

  lemma LooksUp(event: Event, k: nat, n: nat)
    requires k < n
    ensures CanRun(BufferedStage(event, k, n), [Check(0), Acquire(0), Lookup(0)])
    ensures After(BufferedStage(event, k, n), [Check(0), Acquire(0), Lookup(0)]) == LookedUpStage(event, k, n)
  {
    var s, end := BufferedStage(event, k, n), LookedUpStage(event, k, n);
    var passed := Apply(s, Check(0));
    var locked := Apply(passed, Acquire(0));
    var found := Apply(locked, Lookup(0));
    assert found.callers == end.callers && found.workers == end.workers && found.channels == end.channels;
    RunOf(locked, Lookup(0), [], end);
    RunOf(passed, Acquire(0), [Lookup(0)] + [], end);
    RunOf(s, Check(0), [Acquire(0)] + ([Lookup(0)] + []), end);
    assert [Check(0)] + ([Acquire(0)] + ([Lookup(0)] + [])) == [Check(0), Acquire(0), Lookup(0)];
  }

  lemma SendsAndReturns(event: Event, k: nat, n: nat)
    requires k < n && k < 100
    ensures CanRun(LookedUpStage(event, k, n), [Send(0), Release(0)])
    ensures After(LookedUpStage(event, k, n), [Send(0), Release(0)]) == BufferedStage(event, k + 1, n)
  {
    var s, end := LookedUpStage(event, k, n), BufferedStage(event, k + 1, n);
    var sent := Apply(s, Send(0));
    var returned := Apply(sent, Release(0));
    assert Copies(event, n - k)[1..] == Copies(event, n - k - 1);
    assert returned.callers == end.callers && returned.workers == end.workers;
    RunOf(sent, Release(0), [], end);
    RunOf(s, Send(0), [Release(0)] + [], end);
    assert [Send(0)] + ([Release(0)] + []) == [Send(0), Release(0)];
  }

  lemma {:induction false} FillsBuffer(event: Event, k: nat, n: nat) returns (steps: seq<Step>)
    requires k <= n && k <= 100
    ensures CanRun(BufferedStage(event, 0, n), steps) && After(BufferedStage(event, 0, n), steps) == BufferedStage(event, k, n)
  {
    steps := [];
    if k > 0 {
      var earlier := FillsBuffer(event, k - 1, n);
      LooksUp(event, k - 1, n);
      SendsAndReturns(event, k - 1, n);
      RunsInARow(BufferedStage(event, k - 1, n), [Check(0), Acquire(0), Lookup(0)], [Send(0), Release(0)]);
      steps := earlier + ([Check(0), Acquire(0), Lookup(0)] + [Send(0), Release(0)]);
      RunsInARow(BufferedStage(event, 0, n), earlier, [Check(0), Acquire(0), Lookup(0)] + [Send(0), Release(0)]);
    }
  }

  /**
   * A slow worker: a hundred events of a key are dispatched without being looked at, and the
   * next call holds the lock and blocks until the worker takes one.
   */
  lemma BlocksOnFullBuffer(event: Event) returns (steps: seq<Step>)
    ensures var script := Copies(event, 101);
            var init := State([Caller(script, Ready, [])], [], map[], None, false, false, []);
            && Init(init, [script]) && CanRun(init, steps)
            && var s := After(init, steps);
               && s.workers == [Worker(Copies(event, 100), Waiting, [])]
               && |s.callers| == 1 && s.callers[0].position == Sending(0) && s.lock == Some(0)
               && !Enabled(s, Send(0)) && Enabled(s, Receive(0)) && Enabled(Apply(s, Receive(0)), Send(0))
  {
    var filled := FillsBuffer(event, 100, 101);
    LooksUp(event, 100, 101);
    RunsInARow(BufferedStage(event, 0, 101), filled, [Check(0), Acquire(0), Lookup(0)]);
    steps := filled + [Check(0), Acquire(0), Lookup(0)];
  }
}
