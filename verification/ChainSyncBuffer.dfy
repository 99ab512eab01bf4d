/**
  bufferChainSyncEvent: a bounded buffer between a source that is pulled and a consumer that
  acknowledges.  The closure state of the operator is a class; its callbacks are the steps of a state
  machine, and the invariants are proved for every run of it.
 */
module ChainSyncBuffer {
  import opened Wrappers

  datatype Ending = Running | Completed | Errored

  /**
    The closure state, with what has happened so far: events received from the source and delivered
    to the consumer, acknowledgements, and the pulls (by position of the event they came with).
   */
  datatype State<E> = State(
    buffer: seq<E>,
    lastPull: Option<nat>,
    subscriberReady: bool,
    sourceCompleted: bool,
    sourceError: bool,
    unsubscribed: bool,
    sourceEnded: bool,
    ending: Ending,
    received: seq<E>,
    delivered: seq<E>,
    acknowledged: nat,
    pulled: seq<nat>)

  function Initial<E>(): State<E> {
    State([], None, true, false, false, false, false, Running, [], [], 0, [])
  }

  /** `next`: pull if there is room, then hand over one event or the end of the source. */
  function Advance<E>(s: State<E>, length: nat): State<E> {
    if s.unsubscribed then s
    else
      var s1 := if |s.buffer| < length && s.lastPull.Some?
                then s.(pulled := s.pulled + [s.lastPull.value], lastPull := None) else s;
      if !s1.subscriberReady then s1
      else if s1.buffer == [] then
        // complete and error also run the teardown, which unsubscribes
        if s1.sourceCompleted then s1.(ending := Completed, unsubscribed := true)
        else if s1.sourceError then s1.(ending := Errored, unsubscribed := true)
        else s1
      else
        s1.(buffer := s1.buffer[1..], subscriberReady := false, delivered := s1.delivered + [s1.buffer[0]])
  }

  /** What the outside can do: the source emits or ends, the consumer acknowledges or leaves. */
  datatype Action<E> = Emit(event: E) | Complete | Fail(truthy: bool) | Acknowledge | Unsubscribe

  /**
    A source that answers each pull (and the subscription itself) with at most one event, and a
    consumer that acknowledges each event at most once.
   */
  predicate Enabled<E>(s: State<E>, a: Action<E>) {
    match a
    case Emit(_) => !s.unsubscribed && !s.sourceEnded && |s.received| <= |s.pulled|
    case Complete => !s.unsubscribed && !s.sourceEnded
    case Fail(_) => !s.unsubscribed && !s.sourceEnded
    case Acknowledge => !s.subscriberReady
    case Unsubscribe => true
  }

  function Apply<E>(s: State<E>, length: nat, a: Action<E>): State<E> {
    match a
    case Emit(e) =>
      Advance(s.(lastPull := Some(|s.received|), buffer := s.buffer + [e], received := s.received + [e]), length)
    case Complete => Advance(s.(sourceCompleted := true, sourceEnded := true), length)
    case Fail(truthy) => Advance(s.(sourceError := truthy, sourceEnded := true), length)
    case Acknowledge => Advance(s.(subscriberReady := true, acknowledged := s.acknowledged + 1), length)
    case Unsubscribe => s.(unsubscribed := true)
  }

  function Run<E>(length: nat, actions: seq<Action<E>>): State<E> {
    if actions == [] then Initial() else Apply(Run(length, actions[..|actions| - 1]), length, actions[|actions| - 1])
  }

  ghost predicate ValidRun<E>(length: nat, actions: seq<Action<E>>) {
    actions != [] ==>
      && ValidRun(length, actions[..|actions| - 1])
      && Enabled(Run(length, actions[..|actions| - 1]), actions[|actions| - 1])
  }

  // ---------------------------------------------------------------- the operator

  class Buffered<E> {
    const length: nat
    var buffer: seq<E>
    var lastPull: Option<nat>
    var subscriberReady: bool
    var sourceCompleted: bool
    var sourceError: bool
    var unsubscribed: bool
    ghost var log: State<E>

    /** The log mirrors the closure variables. */
    ghost predicate Valid()
      reads this
    {
      log.buffer == buffer && log.lastPull == lastPull && log.subscriberReady == subscriberReady
      && log.sourceCompleted == sourceCompleted && log.sourceError == sourceError && log.unsubscribed == unsubscribed
    }

    constructor (length: nat)
      ensures Valid() && this.length == length && log == Initial()
    {
      this.length := length;
      buffer, lastPull, subscriberReady := [], None, true;
      sourceCompleted, sourceError, unsubscribed := false, false, false;
      log := Initial();
    }

    method Next()
      requires Valid()
      modifies this
      ensures Valid() && log == Advance(old(log), length)
    {
      if unsubscribed { return; }
      if |buffer| < length && lastPull.Some? {
        log := log.(pulled := log.pulled + [lastPull.value], lastPull := None);
        lastPull := None;
      }
      if !subscriberReady { return; }
      if |buffer| == 0 {
        if sourceCompleted {
          unsubscribed := true;
          log := log.(ending := Completed, unsubscribed := true);
        } else if sourceError {
          unsubscribed := true;
          log := log.(ending := Errored, unsubscribed := true);
        }
        return;
      }
      var value := buffer[0];
      buffer := buffer[1..];
      subscriberReady := false;
      log := log.(buffer := buffer, subscriberReady := false, delivered := log.delivered + [value]);
    }

    /** `pull` stands for the event's `requestNext`: the source numbers its pulls by position. */
    method OnSourceNext(event: E, pull: nat)
      requires Valid() && pull == |log.received|
      modifies this
      ensures Valid() && log == Apply(old(log), length, Emit(event))
    {
      lastPull := Some(pull);
      buffer := buffer + [event];
      log := log.(lastPull := lastPull, buffer := buffer, received := log.received + [event]);
      Next();
    }

    method OnSourceComplete()
      requires Valid()
      modifies this
      ensures Valid() && log == Apply(old(log), length, Complete)
    {
      sourceCompleted := true;
      log := log.(sourceCompleted := true, sourceEnded := true);
      Next();
    }

    method OnSourceError(truthy: bool)
      requires Valid()
      modifies this
      ensures Valid() && log == Apply(old(log), length, Fail(truthy))
    {
      sourceError := truthy;
      log := log.(sourceError := truthy, sourceEnded := true);
      Next();
    }

    /** The `requestNext` handed to the consumer with each event. */
    method RequestNext()
      requires Valid()
      modifies this
      ensures Valid() && log == Apply(old(log), length, Acknowledge)
    {
      subscriberReady := true;
      log := log.(subscriberReady := true, acknowledged := log.acknowledged + 1);
      Next();
    }

    method Teardown()
      requires Valid()
      modifies this
      ensures Valid() && log == Apply(old(log), length, Unsubscribe)
    {
      unsubscribed := true;
      log := log.(unsubscribed := true);
    }
  }

  // ---------------------------------------------------------------- invariants

  /** Pulls are used in order, each at most once, and only the newest can be pending. */
  ghost predicate PullsInOrder<E>(s: State<E>) {
    && (forall i :: 0 <= i < |s.pulled| ==> s.pulled[i] == i)
    && (s.lastPull.None? ==> |s.pulled| == |s.received|)
    && (s.lastPull.Some? ==> s.lastPull.value == |s.pulled| && |s.pulled| == |s.received| - 1)
  }

  /** What holds of every state, for any length of at least one. */
  ghost predicate Inv<E>(s: State<E>, length: nat) {
    // first in, first out, nothing lost or repeated
    && s.delivered + s.buffer == s.received
    // at most one event awaits acknowledgement
    && |s.delivered| == s.acknowledged + (if s.subscriberReady then 0 else 1)
    && PullsInOrder(s)
    // bounded, with a place kept for the event that an outstanding pull may bring
    && |s.buffer| <= length
    && (s.lastPull.None? ==> |s.buffer| < length)
    // a pull is withheld only from a buffer that was full
    && (s.lastPull.Some? && !s.unsubscribed ==> |s.buffer| >= length - 1)
    // a consumer is told of the end only after everything was delivered and acknowledged
    && (s.ending == Completed ==> s.sourceCompleted)
    && (s.ending == Errored ==> s.sourceError)
    && (s.ending != Running ==> s.unsubscribed && s.sourceEnded && s.delivered == s.received && s.subscriberReady)
    && (s.sourceCompleted || s.sourceError ==> s.sourceEnded)
    // an idle consumer has an empty buffer, a pull in flight, and no end it has not been told of
    && (s.subscriberReady && !s.unsubscribed ==>
          s.buffer == [] && s.lastPull.None? && !s.sourceCompleted && !s.sourceError)
  }

  /** Everything but the idle clause, which `next` establishes. */
  ghost predicate Pending<E>(s: State<E>, length: nat) {
    && s.delivered + s.buffer == s.received
    && |s.delivered| == s.acknowledged + (if s.subscriberReady then 0 else 1)
    && PullsInOrder(s)
    && |s.buffer| <= length
    && (s.lastPull.None? ==> |s.buffer| < length)
    && s.ending == Running
    && (s.sourceCompleted || s.sourceError ==> s.sourceEnded)
  }

  lemma AdvanceEstablishes<E>(s: State<E>, length: nat)
    requires length >= 1 && Pending(s, length) && !s.unsubscribed
    ensures Inv(Advance(s, length), length)
  {
    if s.subscriberReady && s.buffer != [] {
      assert s.delivered + [s.buffer[0]] + s.buffer[1..] == s.delivered + s.buffer;
    }
  }

  lemma StepKeepsInv<E>(s: State<E>, length: nat, a: Action<E>)
    requires length >= 1 && Inv(s, length) && Enabled(s, a)
    ensures Inv(Apply(s, length, a), length)
  {
    match a
    case Emit(e) =>
      var s1 := s.(lastPull := Some(|s.received|), buffer := s.buffer + [e], received := s.received + [e]);
      assert s1.delivered + s1.buffer == (s.delivered + s.buffer) + [e];
      AdvanceEstablishes(s1, length);
    case Complete => AdvanceEstablishes(s.(sourceCompleted := true, sourceEnded := true), length);
    case Fail(truthy) => AdvanceEstablishes(s.(sourceError := truthy, sourceEnded := true), length);
    case Acknowledge =>
      if !s.unsubscribed {
        AdvanceEstablishes(s.(subscriberReady := true, acknowledged := s.acknowledged + 1), length);
      }
    case Unsubscribe =>
  }

  lemma {:induction false} EveryRunKeepsInv<E>(length: nat, actions: seq<Action<E>>)
    requires length >= 1 && ValidRun(length, actions)
    ensures Inv(Run(length, actions), length)
  {
    if actions != [] {
      var n := |actions| - 1;
      EveryRunKeepsInv(length, actions[..n]);
      StepKeepsInv(Run(length, actions[..n]), length, actions[n]);
    }
  }

  function Emissions<E>(events: seq<E>): seq<Action<E>> {
    seq(|events|, i requires 0 <= i < |events| => Emit(events[i]))
  }

  lemma RunSnoc<E>(length: nat, actions: seq<Action<E>>, a: Action<E>)
    requires ValidRun(length, actions) && Enabled(Run(length, actions), a)
    ensures ValidRun(length, actions + [a]) && Run(length, actions + [a]) == Apply(Run(length, actions), length, a)
  {
    assert (actions + [a])[..|actions|] == actions;
  }

  lemma EmissionsSnoc<E>(events: seq<E>)
    requires events != []
    ensures Emissions(events) == Emissions(events[..|events| - 1]) + [Emit(events[|events| - 1])]
  {
  }

  /** The first event is delivered, the others are buffered, and each but one too many was answered with a pull. */
  ghost predicate IsFilled<E>(s: State<E>, length: nat, events: seq<E>) {
    && events != [] && s.received == events && s.delivered == events[..1] && s.buffer == events[1..]
    && !s.unsubscribed && !s.sourceEnded && !s.subscriberReady
    && |s.pulled| == (if |events| <= length then |events| else length)
  }

  lemma FirstFills<E>(length: nat, e: E)
    requires length >= 2
    ensures IsFilled(Apply(Initial(), length, Emit(e)), length, [e])
  {
  }

  lemma NextFills<E>(s: State<E>, length: nat, events: seq<E>, e: E)
    requires length >= 2 && IsFilled(s, length, events) && |events| <= length
    ensures Enabled(s, Emit(e)) && IsFilled(Apply(s, length, Emit(e)), length, events + [e])
  {
    assert (events + [e])[1..] == events[1..] + [e] && (events + [e])[..1] == events[..1];
  }

  /** While the consumer is busy with the first event the source is pulled until the buffer is full. */
  lemma {:induction false} FillsBuffer<E>(length: nat, events: seq<E>)
    requires 1 <= |events| <= length + 1 && length >= 2
    ensures ValidRun(length, Emissions(events)) && IsFilled(Run(length, Emissions(events)), length, events)
  {
    var n := |events| - 1;
    var front, last := events[..n], events[n];
    EmissionsSnoc(events);
    assert events == front + [last];
    if n == 0 {
      FirstFills(length, last);
    } else {
      FillsBuffer(length, front);
      NextFills(Run(length, Emissions(front)), length, front, last);
    }
    RunSnoc(length, Emissions(front), Emit(last));
  }

  /** Everything of a run with length one at rest: the buffer is empty, and a pull waits for the consumer. */
  ghost predicate HandsOver<E>(s: State<E>) {
    s.buffer == [] && (!s.unsubscribed && !s.sourceEnded && s.lastPull.None? ==> s.subscriberReady)
  }

  lemma HandsOverStep<E>(s: State<E>, a: Action<E>)
    requires Inv(s, 1) && HandsOver(s) && Enabled(s, a)
    ensures HandsOver(Apply(s, 1, a))
  {
  }

  /** With length one nothing is ever buffered: a pull waits until the event before has been acknowledged. */
  lemma {:induction false} LengthOneNeverBuffers<E>(actions: seq<Action<E>>)
    requires ValidRun(1, actions)
    ensures HandsOver(Run(1, actions))
  {
    if actions != [] {
      var n := |actions| - 1;
      LengthOneNeverBuffers(actions[..n]);
      EveryRunKeepsInv(1, actions[..n]);
      HandsOverStep(Run(1, actions[..n]), actions[n]);
    }
  }

  /** The consumer has an event to acknowledge. */
  predicate ConsumerBusy<E>(s: State<E>) { !s.subscriberReady }

  /** The source owes an answer to a pull, or to the subscription. */
  predicate PullOutstanding<E>(s: State<E>) { !s.sourceEnded && |s.received| <= |s.pulled| }

  /**
    No run gets stuck: at rest the consumer is busy, a pull is outstanding, or the source has ended;
    and an idle consumer has been told of the end, unless the source failed with a falsy error.
   */
  lemma NeverStuck<E>(length: nat, actions: seq<Action<E>>)
    requires length >= 1 && ValidRun(length, actions)
    ensures var s := Run(length, actions);
      !s.unsubscribed ==>
        && (ConsumerBusy(s) || PullOutstanding(s) || s.sourceEnded)
        && (s.sourceEnded && !ConsumerBusy(s) ==> !s.sourceCompleted && !s.sourceError)
  {
    EveryRunKeepsInv(length, actions);
  }

  /** Without a consumer that leaves, what is known of the source's end is how it ended. */
  ghost predicate EndsKnown<E>(s: State<E>, actions: seq<Action<E>>) {
    && (s.unsubscribed ==> s.ending != Running)
    && (s.sourceCompleted <==> Complete in actions)
    && (s.sourceError <==> Fail(true) in actions)
    && (s.sourceEnded && !s.sourceCompleted && !s.sourceError <==> Fail(false) in actions)
    && (s.sourceCompleted || s.sourceError ==> s.sourceEnded)
    && !(s.sourceCompleted && s.sourceError)
  }

  lemma EndsKnownStep<E>(s: State<E>, length: nat, actions: seq<Action<E>>, a: Action<E>)
    requires EndsKnown(s, actions) && Enabled(s, a) && a != Unsubscribe
    ensures EndsKnown(Apply(s, length, a), actions + [a])
  {
  }

  lemma {:induction false} EveryRunEndsKnown<E>(length: nat, actions: seq<Action<E>>)
    requires ValidRun(length, actions) && Unsubscribe !in actions
    ensures EndsKnown(Run(length, actions), actions)
  {
    if actions != [] {
      var n := |actions| - 1;
      assert actions == actions[..n] + [actions[n]];
      EveryRunEndsKnown(length, actions[..n]);
      EndsKnownStep(Run(length, actions[..n]), length, actions[..n], actions[n]);
    }
  }

  /**
    A consumer that stays and is idle once the source has ended has been told so exactly when the source
    completed or failed with a truthy error.
   */
  lemma ToldIff<E>(length: nat, actions: seq<Action<E>>)
    requires length >= 1 && ValidRun(length, actions) && Unsubscribe !in actions
    requires !ConsumerBusy(Run(length, actions))
    ensures var s := Run(length, actions);
      && (s.ending == Completed <==> Complete in actions)
      && (s.ending == Errored <==> Fail(true) in actions)
      && (s.sourceEnded && s.ending == Running <==> Fail(false) in actions)
  {
    EveryRunKeepsInv(length, actions);
    EveryRunEndsKnown(length, actions);
  }

  /** A falsy error ends the source without a word, and then nothing but leaving is possible. */
  lemma FalsyErrorNotTold<E>(length: nat)
    ensures ValidRun<E>(length, [Fail(false)])
    ensures var s := Run<E>(length, [Fail(false)]);
      && s.sourceEnded && s.ending == Running && !s.unsubscribed
      && forall a :: Enabled(s, a) ==> a == Unsubscribe
  {
    var run: seq<Action<E>> := [Fail(false)];
    assert run[..0] == [];
    assert Run(length, run) == Apply(Initial(), length, Fail(false));
  }

  lemma ZeroStep<E>(s: State<E>, a: Action<E>)
    requires s.pulled == [] && |s.received| <= 1 && Enabled(s, a)
    ensures Apply(s, 0, a).pulled == [] && |Apply(s, 0, a).received| <= 1
  {
  }

  lemma {:induction false} ZeroNeverPulls<E>(actions: seq<Action<E>>)
    requires ValidRun(0, actions)
    ensures Run(0, actions).pulled == [] && |Run(0, actions).received| <= 1
  {
    if actions != [] {
      ZeroNeverPulls(actions[..|actions| - 1]);
      ZeroStep(Run(0, actions[..|actions| - 1]), actions[|actions| - 1]);
    }
  }

  /** Length zero deadlocks: after one event and its acknowledgement nobody can move, and the source has not ended. */
  lemma ZeroLengthDeadlocks<E>(e: E)
    ensures ValidRun(0, [Emit(e), Acknowledge])
    ensures var s := Run(0, [Emit(e), Acknowledge]);
      !s.unsubscribed && !s.sourceEnded && !ConsumerBusy(s) && !PullOutstanding(s)
  {
    var one: seq<Action<E>> := [Emit(e)];
    var two: seq<Action<E>> := [Emit(e), Acknowledge];
    assert two[..1] == one && one[..0] == [];
    assert Run(0, one) == Apply(Initial(), 0, Emit(e));
    assert Run(0, two) == Apply(Run(0, one), 0, Acknowledge);
  }
}
