/**
 * The RPC dispatcher's table of active stream sessions: a streaming call
 * opens a session under its id, frames with that id feed the session's push
 * stream, and the end of the call removes the id from the table. One step is
 * one run of code between two awaits.
 */
module StreamSessions {
  import opened Text
  import PushStream

  datatype Frame<T, E> = Next(value: T) | Complete | Error(error: E)

  /** What the handler of a session does with its stream: it takes its turn, is woken, or stops early. */
  datatype Turn = Take | Wake | Stop

  datatype Event<T, E> =
    | Open(id: Option<string>)
    | Receive(to: Option<string>, frame: Frame<T, E>)
    | Consume(session: nat, turn: Turn)
    | Close(ended: nat)

  /** Sessions are numbered in the order of their calls. */
  datatype Session<T, E> = Session(id: Option<string>, stream: PushStream.State<T, E>, aborted: bool, closed: bool)

  datatype State<T, E> = State(sessions: seq<Session<T, E>>, active: map<string, nat>)

  // ----- the steps as functions of the table -----

  function Opened<T, E>(s: State<T, E>, id: Option<string>): State<T, E> {
    State(s.sessions + [Session(id, PushStream.Start(), false, false)],
      if id.Some? then s.active[id.value := |s.sessions|] else s.active)
  }

  function Fed<T, E>(session: Session<T, E>, frame: Frame<T, E>): Session<T, E> {
    match frame
    case Next(value) => session.(stream := PushStream.Pushed(session.stream, value))
    case Complete => session.(stream := PushStream.Ended(session.stream))
    case Error(error) => session.(stream := PushStream.Erred(session.stream, error), aborted := true)
  }

  /**
   * A frame without an id, or with one that is not in the table, is ignored; the last frame of a session removes it.
   */
  function Received<T, E>(s: State<T, E>, to: Option<string>, frame: Frame<T, E>): State<T, E> {
    if to.None? || to.value !in s.active || s.active[to.value] >= |s.sessions| then s
    else
      var n := s.active[to.value];
      State(s.sessions[n := Fed(s.sessions[n], frame)], if frame.Next? then s.active else s.active - {to.value})
  }

  function EventOf<T, E>(turn: Turn): PushStream.Event<T, E> {
    match turn case Take => PushStream.Next case Wake => PushStream.Wake case Stop => PushStream.Return
  }

  function Consumed<T, E>(s: State<T, E>, n: nat, turn: Turn): State<T, E> {
    if n >= |s.sessions| then s
    else s.(sessions := s.sessions[n := s.sessions[n].(stream := PushStream.Step(s.sessions[n].stream, EventOf(turn)))])
  }

  /** The `finally` of a call removes its id, whichever session is under it. */
  function Closed<T, E>(s: State<T, E>, n: nat): State<T, E> {
    if n >= |s.sessions| || s.sessions[n].closed then s
    else
      var id := s.sessions[n].id;
      State(s.sessions[n := s.sessions[n].(closed := true)], if id.Some? then s.active - {id.value} else s.active)
  }

  function Step<T, E>(s: State<T, E>, e: Event<T, E>): State<T, E> {
    match e
    case Open(id) => Opened(s, id)
    case Receive(to, frame) => Received(s, to, frame)
    case Consume(n, turn) => Consumed(s, n, turn)
    case Close(n) => Closed(s, n)
  }

  function Run<T, E>(events: seq<Event<T, E>>): State<T, E> {
    if events == [] then State([], map[]) else Step(Run(events[..|events| - 1]), events[|events| - 1])
  }

  // ----- what every run keeps -----

  /** The table leads to sessions of its ids, and every stream is a channel. */
  ghost predicate Sound<T, E>(s: State<T, E>) {
    && (forall id :: id in s.active ==> s.active[id] < |s.sessions| && s.sessions[s.active[id]].id == Some(id))
    && forall n :: 0 <= n < |s.sessions| ==> PushStream.Channel(s.sessions[n].stream)
  }

  /** No session disappears or changes its id. */
  ghost predicate Grows<T, E>(s: State<T, E>, after: State<T, E>) {
    |s.sessions| <= |after.sessions| && forall n :: 0 <= n < |s.sessions| ==> after.sessions[n].id == s.sessions[n].id
  }

  lemma StepKeeps<T, E>(s: State<T, E>, e: Event<T, E>)
    requires Sound(s)
    ensures Sound(Step(s, e)) && Grows(s, Step(s, e))
  {
    hide PushStream.Channel, PushStream.Keeps;
    match e
    case Open(id) => StartChannel<T, E>();
    case Receive(to, frame) =>
      if to.Some? && to.value in s.active {
        FedChannel(s.sessions[s.active[to.value]], frame);
      }
    case Consume(n, turn) =>
      if n < |s.sessions| {
        StepChannel(s.sessions[n].stream, EventOf(turn));
      }
    case Close(n) =>
  }

  lemma StartChannel<T, E>()
    ensures PushStream.Channel<T, E>(PushStream.Start())
  {
  }

  lemma StepChannel<T, E>(s: PushStream.State<T, E>, e: PushStream.Event<T, E>)
    requires PushStream.Channel(s)
    ensures PushStream.Channel(PushStream.Step(s, e))
  {
    PushStream.StepKeeps(s, e);
    hide PushStream.Channel, PushStream.Step;
  }

  lemma FedChannel<T, E>(session: Session<T, E>, frame: Frame<T, E>)
    requires PushStream.Channel(session.stream)
    ensures PushStream.Channel(Fed(session, frame).stream) && Fed(session, frame).id == session.id
  {
    match frame
    case Next(value) => StepChannel(session.stream, PushStream.Push(value));
    case Complete => StepChannel(session.stream, PushStream.End);
    case Error(error) => StepChannel(session.stream, PushStream.Error(error));
  }

  lemma {:induction false} RunKeeps<T, E>(events: seq<Event<T, E>>)
    ensures Sound(Run(events))
  {
    if events != [] {
      RunKeeps(events[..|events| - 1]);
      hide Sound, Grows, Step;
      StepKeeps(Run(events[..|events| - 1]), events[|events| - 1]);
    }
  }

  // ----- which session a frame reaches -----

  function Before<T, E>(events: seq<Event<T, E>>): seq<Event<T, E>>
    requires events != []
  {
    events[..|events| - 1]
  }

  /** The next event is the last frame for the id of `n`, or the end of its call. */
  predicate Ends<T, E>(s: State<T, E>, e: Event<T, E>, n: nat)
    requires n < |s.sessions|
  {
    match e
    case Receive(to, frame) => to.Some? && to == s.sessions[n].id && !frame.Next?
    case Close(m) => m == n && !s.sessions[n].closed
    case _ => false
  }

  /** It opens another session under the same id, or ends the call of one. */
  predicate Disturbs<T, E>(s: State<T, E>, e: Event<T, E>, n: nat)
    requires n < |s.sessions|
  {
    match e
    case Open(id) => id == s.sessions[n].id
    case Close(m) => m != n && m < |s.sessions| && !s.sessions[m].closed && s.sessions[m].id == s.sessions[n].id
    case _ => false
  }

  /** `n` was opened, and neither its last frame nor the end of its call has come since. */
  predicate Live<T, E>(events: seq<Event<T, E>>, n: nat)
    requires n < |Run(events).sessions|
    decreases |events|
  {
    var s: State<T, E> := Run(Before(events));
    n >= |s.sessions| || (Live(Before(events), n) && !Ends(s, events[|events| - 1], n))
  }

  /** Since `n` was opened no other session was opened under its id, and no other one of that id has ended. */
  predicate Undisturbed<T, E>(events: seq<Event<T, E>>, n: nat)
    requires n < |Run(events).sessions|
    decreases |events|
  {
    var s: State<T, E> := Run(Before(events));
    n >= |s.sessions| || (Undisturbed(Before(events), n) && !Disturbs(s, events[|events| - 1], n))
  }

  predicate Registered<T, E>(s: State<T, E>, id: string, n: nat) { id in s.active && s.active[id] == n }

  lemma StepRegistered<T, E>(s: State<T, E>, e: Event<T, E>, n: nat, id: string)
    requires Sound(s) && n < |s.sessions| && s.sessions[n].id == Some(id)
    requires s.sessions[n].closed ==> !Registered(s, id, n)
    ensures Registered(Step(s, e), id, n) <==> Registered(s, id, n) && !Ends(s, e, n) && !Disturbs(s, e, n)
  {
    hide PushStream.Channel, PushStream.Step, Fed;
  }

  /** A new session is registered at once if it has an id. */
  lemma NewRegistered<T, E>(s: State<T, E>, e: Event<T, E>, n: nat, id: string)
    requires |s.sessions| <= n < |Step(s, e).sessions| && Step(s, e).sessions[n].id == Some(id)
    ensures Registered(Step(s, e), id, n) && !Step(s, e).sessions[n].closed
  {
  }

  /** Frames reach a session with an id exactly while it is live and undisturbed. */
  lemma {:induction false} RegisteredExactly<T, E>(events: seq<Event<T, E>>, n: nat, id: string)
    requires n < |Run(events).sessions| && Run(events).sessions[n].id == Some(id)
    ensures Registered(Run(events), id, n) <==> Live(events, n) && Undisturbed(events, n)
    decreases |events|
  {
    hide Step, Sound, Registered, Ends, Disturbs;
    var before := Before(events);
    var s: State<T, E> := Run(before);
    RunKeeps(before);
    StepKeeps(s, events[|events| - 1]);
    if n < |s.sessions| {
      RegisteredExactly(before, n, id);
      ClosedGone(before, n, id);
      StepRegistered(s, events[|events| - 1], n, id);
    } else {
      NewRegistered(s, events[|events| - 1], n, id);
    }
  }

  /** A session whose call has ended is not in the table. */
  lemma {:induction false} ClosedGone<T, E>(events: seq<Event<T, E>>, n: nat, id: string)
    requires n < |Run(events).sessions| && Run(events).sessions[n].id == Some(id)
    ensures Run(events).sessions[n].closed ==> !Registered(Run(events), id, n)
    decreases |events|
  {
    hide Step, Sound, Registered, Ends, Disturbs;
    var before := Before(events);
    var s: State<T, E> := Run(before);
    RunKeeps(before);
    StepKeeps(s, events[|events| - 1]);
    if n < |s.sessions| {
      ClosedGone(before, n, id);
      StepRegistered(s, events[|events| - 1], n, id);
      StepClosed(s, events[|events| - 1], n, id);
    } else {
      NewRegistered(s, events[|events| - 1], n, id);
    }
  }

  lemma StepClosed<T, E>(s: State<T, E>, e: Event<T, E>, n: nat, id: string)
    requires n < |s.sessions| && Step(s, e).sessions != [] && n < |Step(s, e).sessions|
    ensures Step(s, e).sessions[n].closed <==> s.sessions[n].closed || (e.Close? && e.ended == n)
    ensures e.Close? && e.ended == n && !s.sessions[n].closed ==> Ends(s, e, n)
  {
  }

  // ----- what a session is fed -----

  /** The values sent to the id of `n` while `n` is live. */
  function Sent<T, E>(events: seq<Event<T, E>>, n: nat): seq<T>
    requires n < |Run(events).sessions|
    decreases |events|
  {
    var s: State<T, E> := Run(Before(events));
    if n >= |s.sessions| then []
    else
      Sent(Before(events), n) + if Live(Before(events), n) then ValueFor(events[|events| - 1], s.sessions[n].id) else []
  }

  function ValueFor<T, E>(e: Event<T, E>, id: Option<string>): seq<T> {
    match e case Receive(to, Next(value)) => if to.Some? && to == id then [value] else [] case _ => []
  }

  /** The handler of `n` does not stop early. */
  predicate Patient<T, E>(events: seq<Event<T, E>>, n: nat) {
    forall i :: 0 <= i < |events| && events[i].Consume? && events[i].session == n ==> !events[i].turn.Stop?
  }

  lemma StepFed<T, E>(s: State<T, E>, e: Event<T, E>, n: nat, id: string)
    requires Sound(s) && n < |s.sessions| && s.sessions[n].id == Some(id)
    requires !(e.Consume? && e.session == n && e.turn.Stop?) && n < |Step(s, e).sessions|
    ensures var here := Registered(s, id, n) && PushStream.Open(s.sessions[n].stream);
      && Step(s, e).sessions[n].stream.accepted ==
          s.sessions[n].stream.accepted + (if here then ValueFor(e, Some(id)) else [])
      && (here && !Ends(s, e, n) ==> PushStream.Open(Step(s, e).sessions[n].stream))
  {
    hide PushStream.Channel;
  }

  /**
   * An undisturbed session takes in exactly the values sent to its id from its
   * opening up to its last frame or the end of its call, whatever happens to
   * other sessions, and its stream stays open as long.
   */
  lemma {:induction false} FedExactly<T, E>(events: seq<Event<T, E>>, n: nat, id: string)
    requires n < |Run(events).sessions| && Run(events).sessions[n].id == Some(id) && Undisturbed(events, n)
    requires Patient(events, n)
    ensures Run(events).sessions[n].stream.accepted == Sent(events, n)
    ensures Live(events, n) ==> PushStream.Open(Run(events).sessions[n].stream)
    decreases |events|
  {
    hide Step, Sound, Registered, Ends, Disturbs, ValueFor;
    var before := Before(events);
    var s: State<T, E> := Run(before);
    RunKeeps(before);
    StepKeeps(s, events[|events| - 1]);
    if n < |s.sessions| {
      FedExactly(before, n, id);
      RegisteredExactly(before, n, id);
      StepFed(s, events[|events| - 1], n, id);
    } else {
      NewEmpty(s, events[|events| - 1], n);
    }
  }

  lemma NewEmpty<T, E>(s: State<T, E>, e: Event<T, E>, n: nat)
    requires |s.sessions| <= n < |Step(s, e).sessions|
    ensures Step(s, e).sessions[n].stream.accepted == [] && PushStream.Open(Step(s, e).sessions[n].stream)
  {
  }

  /** An error frame was sent to the id of `n` while `n` was live. */
  predicate Failed<T, E>(events: seq<Event<T, E>>, n: nat)
    requires n < |Run(events).sessions|
    decreases |events|
  {
    var s: State<T, E> := Run(Before(events));
    n < |s.sessions| &&
      (Failed(Before(events), n) || (Live(Before(events), n) && ErrorFor(events[|events| - 1], s.sessions[n].id)))
  }

  predicate ErrorFor<T, E>(e: Event<T, E>, id: Option<string>) {
    e.Receive? && e.to.Some? && e.to == id && e.frame.Error?
  }

  lemma StepAborted<T, E>(s: State<T, E>, e: Event<T, E>, n: nat, id: string)
    requires n < |Step(s, e).sessions| && Step(s, e).sessions[n].id == Some(id)
    ensures n >= |s.sessions| ==> !Step(s, e).sessions[n].aborted
    ensures n < |s.sessions| ==> s.sessions[n].id == Some(id)
    ensures n < |s.sessions| && Sound(s) ==> (Step(s, e).sessions[n].aborted <==>
      s.sessions[n].aborted || (Registered(s, id, n) && ErrorFor(e, Some(id))))
  {
    hide PushStream.Channel, PushStream.Step;
  }

  /** An undisturbed session's signal is aborted exactly when an error frame reached it, and by nothing else. */
  lemma {:induction false} AbortedExactly<T, E>(events: seq<Event<T, E>>, n: nat, id: string)
    requires n < |Run(events).sessions| && Run(events).sessions[n].id == Some(id) && Undisturbed(events, n)
    ensures Run(events).sessions[n].aborted <==> Failed(events, n)
    decreases |events|
  {
    hide Step, Sound, Registered, Ends, Disturbs, ErrorFor;
    var before := Before(events);
    var s: State<T, E> := Run(before);
    RunKeeps(before);
    StepAborted(s, events[|events| - 1], n, id);
    if n < |s.sessions| {
      AbortedExactly(before, n, id);
      RegisteredExactly(before, n, id);
    }
  }

  /** What the handler is given is a prefix of what was sent to its id. */
  lemma GivenInOrder<T, E>(events: seq<Event<T, E>>, n: nat, id: string)
    requires n < |Run(events).sessions| && Run(events).sessions[n].id == Some(id) && Undisturbed(events, n)
    requires Patient(events, n)
    ensures Run(events).sessions[n].stream.yielded <= Sent(events, n)
  {
    FedExactly(events, n, id);
    RunKeeps(events);
    Prefix(Run(events).sessions[n].stream);
  }

  lemma Prefix<T, E>(s: PushStream.State<T, E>)
    requires PushStream.Channel(s)
    ensures s.yielded <= s.accepted
  {
    assert s.yielded + (PushStream.InHand(s) + s.queue) == s.yielded + PushStream.InHand(s) + s.queue;
  }

  /** An id opened again while its first session runs: when that one ends, the second is cut off from its frames. */
  lemma ReuseCutsOff<T, E>(id: string, value: T)
    ensures var events := [Open(Some(id)), Open(Some(id)), Close(0), Receive(Some(id), Next(value))];
      && |Run<T, E>(events).sessions| == 2 && Live<T, E>(events, 1)
      && Sent<T, E>(events, 1) == [value] && Run<T, E>(events).sessions[1].stream.accepted == []
  {
    var events: seq<Event<T, E>> := [Open(Some(id)), Open(Some(id)), Close(0), Receive(Some(id), Next(value))];
    var e1: seq<Event<T, E>> := [Open(Some(id))];
    var e2: seq<Event<T, E>> := [Open(Some(id)), Open(Some(id))];
    var e3: seq<Event<T, E>> := [Open(Some(id)), Open(Some(id)), Close(0)];
    assert Before(events) == e3 && Before(e3) == e2 && Before(e2) == e1 && Before(e1) == [];
    assert Run(e1) == Opened(State([], map[]), Some(id));
    assert Run(e2) == Opened(Run(e1), Some(id));
    assert Run(e3) == Closed(Run(e2), 0);
    assert Run(events) == Received(Run(e3), Some(id), Next(value));
    assert Run(e2).active == map[id := 1] && Run(e3).active == map[];
    assert Live(e2, 1) && Sent(e2, 1) == [];
    assert Live(e3, 1) && Sent(e3, 1) == [];
  }

  // ----- the dispatcher -----

  class RpcDispatcher<T, E(==)> {
    var sessions: seq<Session<T, E>>
    var activeSessions: map<string, nat>

    function Now(): State<T, E>
      reads this
    {
      State(sessions, activeSessions)
    }

    constructor ()
      ensures Now() == Run([])
    {
      sessions, activeSessions := [], map[];
    }

    /** A streaming call, up to its first await. */
    method OpenSession(id: Option<string>) returns (session: nat)
      modifies this
      ensures Now() == Opened(old(Now()), id) && session == |old(sessions)|
    {
      session := |sessions|;
      sessions := sessions + [Session(id, PushStream.Start(), false, false)];
      if id.Some? {
        activeSessions := activeSessions[id.value := session];
      }
    }

    method DispatchStreamFrame(to: Option<string>, frame: Frame<T, E>)
      modifies this
      ensures Now() == Received(old(Now()), to, frame)
    {
      if to.None? || to.value !in activeSessions || activeSessions[to.value] >= |sessions| {
        return;
      }
      var n := activeSessions[to.value];
      var session := sessions[n];
      match frame {
        case Next(value) =>
          sessions := sessions[n := session.(stream := PushStream.Pushed(session.stream, value))];
        case Complete =>
          sessions := sessions[n := session.(stream := PushStream.Ended(session.stream))];
          activeSessions := activeSessions - {to.value};
        case Error(error) =>
          sessions := sessions[n := session.(stream := PushStream.Erred(session.stream, error), aborted := true)];
          activeSessions := activeSessions - {to.value};
      }
    }

    /** The `finally` of a streaming call. */
    method CloseSession(n: nat)
      requires n < |sessions| && !sessions[n].closed
      modifies this
      ensures Now() == Closed(old(Now()), n)
    {
      if sessions[n].id.Some? {
        activeSessions := activeSessions - {sessions[n].id.value};
      }
      sessions := sessions[n := sessions[n].(closed := true)];
    }

    method TakeTurn(n: nat, turn: Turn)
      requires n < |sessions|
      modifies this
      ensures Now() == Consumed(old(Now()), n, turn)
    {
      sessions := sessions[n := sessions[n].(stream := PushStream.Step(sessions[n].stream, EventOf(turn)))];
    }
  }

  /** Any interleaving of calls, frames, turns of the handlers and ends of calls, and its effect. */
  method Interleaving<T, E(==)>(events: seq<Event<T, E>>) returns (dispatcher: RpcDispatcher<T, E>)
    ensures fresh(dispatcher) && dispatcher.Now() == Run(events)
  {
    dispatcher := new RpcDispatcher();
    var i := 0;
    assert events[..0] == [];
    while i < |events|
      invariant fresh(dispatcher) && i <= |events| && dispatcher.Now() == Run(events[..i])
    {
      assert events[..i + 1][..i] == events[..i];
      match events[i] {
        case Open(id) =>
          var session := dispatcher.OpenSession(id);
        case Receive(to, frame) =>
          dispatcher.DispatchStreamFrame(to, frame);
        case Consume(n, turn) =>
          if n < |dispatcher.sessions| { dispatcher.TakeTurn(n, turn); }
        case Close(n) =>
          if n < |dispatcher.sessions| && !dispatcher.sessions[n].closed { dispatcher.CloseSession(n); }
      }
      i := i + 1;
    }
    assert events[..|events|] == events;
  }
}
