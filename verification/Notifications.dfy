/**
  Tip notifications of the WebSocket server: handlers run concurrently and finish in any order, their
  messages leave in the order in which the notifications arrived.
 */
module Notifications {

  /** A message as it is sent, with the number of its notification. */
  datatype Sent<B> = Sent(number: nat, body: B)

  datatype State<B> = State(lastReceived: nat, lastSent: nat, held: map<nat, B>, sent: seq<Sent<B>>)

  /** A notification arrives and gets the next number; the handler of a number finishes with its message. */
  datatype Event<B> = Received | Finished(number: nat, body: B)

  // ---------------------------------------------------------------- steps

  /** The next number to send is not among the ones held back. */
  predicate AtRest<B>(s: State<B>) {
    s.lastSent + 1 !in s.held
  }

  /** One turn of the while loop of send. */
  function Pop<B>(s: State<B>): State<B>
    requires !AtRest(s)
  {
    var next := s.lastSent + 1;
    s.(lastSent := next, held := s.held - {next}, sent := s.sent + [Sent(next, s.held[next])])
  }

  /** The while loop of send. */
  function Drain<B>(s: State<B>): State<B>
    decreases |s.held|
  {
    if AtRest(s) then s else Drain(Pop(s))
  }

  function Step<B>(s: State<B>, e: Event<B>): State<B> {
    match e
    case Received => s.(lastReceived := s.lastReceived + 1)
    case Finished(n, body) => Drain(s.(held := s.held[n := body]))
  }

  function Run<B>(events: seq<Event<B>>): State<B> {
    if events == [] then State(0, 0, map[], [])
    else Step(Run(events[..|events| - 1]), events[|events| - 1])
  }

  // ---------------------------------------------------------------- what happened

  function Arrivals<B>(events: seq<Event<B>>): nat {
    if events == [] then 0
    else Arrivals(events[..|events| - 1]) + if events[|events| - 1].Received? then 1 else 0
  }

  /** The message of every handler that has finished. */
  function Done<B>(events: seq<Event<B>>): map<nat, B> {
    if events == [] then map[]
    else
      match events[|events| - 1]
      case Received => Done(events[..|events| - 1])
      case Finished(n, body) => Done(events[..|events| - 1])[n := body]
  }

  /** A handler finishes after its notification arrived, and once; it may also never finish. */
  predicate Legal<B>(events: seq<Event<B>>) {
    events == [] ||
    var front, last := events[..|events| - 1], events[|events| - 1];
    && Legal(front)
    && (last.Finished? ==> 1 <= last.number <= Arrivals(front) && last.number !in Done(front))
  }

  // ---------------------------------------------------------------- the server

  class WsServer<B> {
    var lastReceivedNotification: nat
    var lastSentNotification: nat
    var notifications: map<nat, B>
    /** Everything handed to sendNotification. */
    ghost var sent: seq<Sent<B>>

    ghost function Abs(): State<B>
      reads this
    {
      State(lastReceivedNotification, lastSentNotification, notifications, sent)
    }

    constructor ()
      ensures Abs() == Run([])
    {
      lastReceivedNotification, lastSentNotification, notifications, sent := 0, 0, map[], [];
    }

    /** The head of a notification handler: the number it keeps. */
    method OnNotification() returns (notification: nat)
      modifies this
      ensures Abs() == Step(old(Abs()), Received)
      ensures notification == old(lastReceivedNotification) + 1
    {
      lastReceivedNotification := lastReceivedNotification + 1;
      notification := lastReceivedNotification;
    }

    /** One turn of the loop of send. */
    method SendNext()
      requires lastSentNotification + 1 in notifications
      modifies this
      ensures Abs() == Pop(old(Abs()))
    {
      lastSentNotification := lastSentNotification + 1;
      sent := sent + [Sent(lastSentNotification, notifications[lastSentNotification])];
      notifications := notifications - {lastSentNotification};
    }

    /** The loop of send. */
    method SendReady()
      modifies this
      ensures Abs() == Drain(old(Abs()))
    {
      ghost var drained := Drain(Abs());
      while lastSentNotification + 1 in notifications
        invariant Drain(Abs()) == drained
        decreases |notifications|
      {
        SendNext();
      }
    }

    /** The tail of a notification handler. */
    method Send(notification: nat, body: B)
      modifies this
      ensures Abs() == Step(old(Abs()), Finished(notification, body))
    {
      notifications := notifications[notification := body];
      SendReady();
    }
  }

  // ---------------------------------------------------------------- the invariant

  /** Sent so far: the messages of notifications 1, 2, 3, ..., lastSent, in that order. */
  ghost predicate InOrder<B>(s: State<B>, done: map<nat, B>) {
    && |s.sent| == s.lastSent
    && forall n :: 1 <= n <= s.lastSent ==> n in done && s.sent[n - 1] == Sent(n, done[n])
  }

  /** Held back: exactly the finished ones above the last one sent. */
  ghost predicate HoldsTheRest<B>(s: State<B>, done: map<nat, B>) {
    && (forall n :: n in s.held <==> n in done && n > s.lastSent)
    && (forall n :: n in s.held ==> s.held[n] == done[n])
  }

  ghost predicate Inv<B>(s: State<B>, done: map<nat, B>) {
    && InOrder(s, done)
    && HoldsTheRest(s, done)
    && (forall n :: n in done ==> 1 <= n <= s.lastReceived)
  }

  lemma PopKeepsInv<B>(s: State<B>, done: map<nat, B>)
    requires Inv(s, done) && !AtRest(s)
    ensures Inv(Pop(s), done)
  {
  }

  lemma {:induction false} DrainKeepsInv<B>(s: State<B>, done: map<nat, B>)
    requires Inv(s, done)
    ensures Inv(Drain(s), done) && AtRest(Drain(s)) && Drain(s).lastReceived == s.lastReceived
    decreases |s.held|
  {
    if !AtRest(s) {
      PopKeepsInv(s, done);
      DrainKeepsInv(Pop(s), done);
    }
  }

  lemma StepKeepsInv<B>(s: State<B>, done: map<nat, B>, e: Event<B>)
    requires Inv(s, done) && AtRest(s)
    requires e.Finished? ==> 1 <= e.number <= s.lastReceived && e.number !in done
    ensures Inv(Step(s, e), if e.Finished? then done[e.number := e.body] else done)
    ensures AtRest(Step(s, e))
    ensures Step(s, e).lastReceived == s.lastReceived + if e.Received? then 1 else 0
  {
    if e.Finished? {
      assert e.number > s.lastSent;
      DrainKeepsInv(s.(held := s.held[e.number := e.body]), done[e.number := e.body]);
    }
  }

  /** After every run, whatever the order in which handlers finished. */
  lemma {:induction false} EveryRunInOrder<B>(events: seq<Event<B>>)
    requires Legal(events)
    ensures Inv(Run(events), Done(events)) && AtRest(Run(events))
    ensures Run(events).lastReceived == Arrivals(events)
  {
    if events != [] {
      EveryRunInOrder(events[..|events| - 1]);
      StepKeepsInv(Run(events[..|events| - 1]), Done(events[..|events| - 1]), events[|events| - 1]);
    }
  }

  /** The handlers of all numbers up to `n` have finished. */
  ghost predicate AllDone<B>(done: map<nat, B>, n: nat) {
    forall k :: 1 <= k <= n ==> k in done
  }

  lemma SentIffDone<B>(s: State<B>, done: map<nat, B>, n: nat)
    requires Inv(s, done) && AtRest(s)
    ensures n <= s.lastSent <==> AllDone(done, n)
  {
    assert s.lastSent + 1 !in done;
    if n <= s.lastSent {
      forall k | 1 <= k <= n
        ensures k in done
      {
        assert s.sent[k - 1] == Sent(k, done[k]);
      }
    } else {
      assert 1 <= s.lastSent + 1 <= n;
    }
  }

  /** A message has been sent exactly when its handler and all earlier ones have finished. */
  lemma SentIffAllEarlierDone<B>(events: seq<Event<B>>, n: nat)
    requires Legal(events)
    ensures n <= Run(events).lastSent <==> AllDone(Done(events), n)
  {
    EveryRunInOrder(events);
    SentIffDone(Run(events), Done(events), n);
  }

  /** Nothing sent is ever taken back or reordered by a later event. */
  lemma {:induction false} DrainExtends<B>(s: State<B>)
    ensures s.sent <= Drain(s).sent
    decreases |s.held|
  {
    if !AtRest(s) { DrainExtends(Pop(s)); }
  }

  lemma RunExtends<B>(events: seq<Event<B>>, e: Event<B>)
    ensures Run(events).sent <= Run(events + [e]).sent
  {
    assert (events + [e])[..|events|] == events;
    if e.Finished? { DrainExtends(Run(events).(held := Run(events).held[e.number := e.body])); }
  }

  lemma SameSent<B>(s1: State<B>, s2: State<B>, done: map<nat, B>)
    requires InOrder(s1, done) && InOrder(s2, done) && s1.lastSent == s2.lastSent
    ensures s1.sent == s2.sent
  {
    forall i | 0 <= i < |s1.sent|
      ensures s1.sent[i] == s2.sent[i]
    {
      var n := i + 1;
      assert s1.sent[n - 1] == Sent(n, done[n]) == s2.sent[n - 1];
    }
  }

  lemma SameHeld<B>(s1: State<B>, s2: State<B>, done: map<nat, B>)
    requires HoldsTheRest(s1, done) && HoldsTheRest(s2, done) && s1.lastSent == s2.lastSent
    ensures s1.held == s2.held
  {
  }

  lemma SentUpTo<B>(s1: State<B>, s2: State<B>, done: map<nat, B>)
    requires Inv(s1, done) && AtRest(s1) && Inv(s2, done)
    ensures s2.lastSent <= s1.lastSent
  {
  }

  /** Two runs in which the same handlers finished with the same messages leave the server the same. */
  lemma OrderDoesNotMatter<B>(events1: seq<Event<B>>, events2: seq<Event<B>>)
    requires Legal(events1) && Legal(events2)
    requires Done(events1) == Done(events2) && Arrivals(events1) == Arrivals(events2)
    ensures Run(events1) == Run(events2)
  {
    EveryRunInOrder(events1);
    EveryRunInOrder(events2);
    var s1, s2 := Run(events1), Run(events2);
    SentUpTo(s1, s2, Done(events1));
    SentUpTo(s2, s1, Done(events1));
    SameSent(s1, s2, Done(events1));
    SameHeld(s1, s2, Done(events1));
  }

  /** Once every handler has finished, every message has been sent and nothing is held. */
  lemma AllDoneAllSent<B>(events: seq<Event<B>>)
    requires Legal(events)
    requires forall n :: 1 <= n <= Arrivals(events) ==> n in Done(events)
    ensures Run(events).lastSent == Arrivals(events) == |Run(events).sent| && Run(events).held == map[]
  {
    EveryRunInOrder(events);
    var s := Run(events);
    assert s.lastSent + 1 !in Done(events);
    assert s.lastSent == 0 || s.lastSent in Done(events);
  }
}
