/**
 * The push stream of RPC client and dispatcher with its one consumer, the
 * stream's own async generator. A method is one run between two awaits:
 * a producer's call, or the consumer taking its turn. Items are defined and
 * errors truthy, as the stream's own tests of them suppose.
 */
module PushStream {
  import opened Text

  datatype Reply<T, E> = Item(value: T) | Done | Failed(error: E)

  /** Where the generator is: not begun, at a yield, awaiting a promise, or finished, and then how. */
  datatype Consumer<E> = Unbegun | Ready | Awaiting | Returned | Threw(error: E) | Closed

  datatype Event<T, E> = Push(value: T) | End | Error(error: E) | Next | Wake | Return

  // ----- the steps as functions of the stream -----

  /** What has been buffered, read, ended; the consumer; and what was taken in while open and given out. */
  datatype State<T, E> = State(
    queue: seq<T>, resolvers: nat, isDone: bool, errorState: Option<E>, consumer: Consumer<E>,
    reply: Option<Reply<T, E>>, accepted: seq<T>, yielded: seq<T>)

  function Start<T, E>(): State<T, E> { State([], 0, false, None, Unbegun, None, [], []) }

  predicate Open<T, E>(s: State<T, E>) { !s.isDone && s.errorState.None? }

  function Pushed<T, E>(s: State<T, E>, value: T): State<T, E> {
    if !Open(s) then s
    else if s.resolvers > 0
    then s.(resolvers := s.resolvers - 1, reply := Some(Item(value)), accepted := s.accepted + [value])
    else s.(queue := s.queue + [value], accepted := s.accepted + [value])
  }

  /** The open readers get `reply`. */
  function Answered<T, E>(s: State<T, E>, reply: Reply<T, E>): State<T, E> {
    s.(resolvers := 0, reply := if s.resolvers > 0 then Some(reply) else s.reply)
  }

  function Ended<T, E>(s: State<T, E>): State<T, E> { if !Open(s) then s else Answered(s.(isDone := true), Done) }

  function Erred<T, E>(s: State<T, E>, error: E): State<T, E> {
    if !Open(s) then s else Answered(s.(errorState := Some(error)), Failed(error))
  }

  /** The consumer's next step: buffered items come before the end and before the error. */
  function Advanced<T, E>(s: State<T, E>): State<T, E> {
    if !s.consumer.Unbegun? && !s.consumer.Ready? then s
    else if s.queue != [] then s.(queue := s.queue[1..], yielded := s.yielded + [s.queue[0]], consumer := Ready)
    else if s.isDone then s.(consumer := Returned)
    else if s.errorState.Some? then s.(consumer := Threw(s.errorState.value))
    else s.(consumer := Awaiting, resolvers := s.resolvers + 1)
  }

  function Woken<T, E>(s: State<T, E>): State<T, E> {
    if s.consumer != Awaiting || s.reply.None? then s
    else match s.reply.value
      case Item(v) => s.(reply := None, consumer := Ready, yielded := s.yielded + [v])
      case Done => s.(reply := None, consumer := Returned)
      case Failed(e) => s.(reply := None, consumer := Threw(e))
  }

  /** The consumer stops early: at a yield that ends the stream, before it has begun it does not. */
  function Dropped<T, E>(s: State<T, E>): State<T, E> {
    if s.consumer == Unbegun then s.(consumer := Closed)
    else if s.consumer == Ready then Ended(s).(consumer := Closed)
    else s
  }

  function Step<T, E>(s: State<T, E>, e: Event<T, E>): State<T, E> {
    match e
    case Push(value) => Pushed(s, value)
    case End => Ended(s)
    case Error(error) => Erred(s, error)
    case Next => Advanced(s)
    case Wake => Woken(s)
    case Return => Dropped(s)
  }

  function Run<T, E>(events: seq<Event<T, E>>): State<T, E> {
    if events == [] then Start() else Step(Run(events[..|events| - 1]), events[|events| - 1])
  }

  // ----- what every run keeps -----

  /** The item a settled promise carries to the consumer. */
  function InHand<T, E>(s: State<T, E>): seq<T> { match s.reply case Some(Item(v)) => [v] case _ => [] }

  /**
   * What was accepted is what was given out, then an item on its way, then the
   * buffer. A reader waits only while the stream is open and the buffer empty,
   * and the end and the error reach the consumer only after every item.
   */
  ghost predicate Channel<T, E>(s: State<T, E>) {
    && s.accepted == s.yielded + InHand(s) + s.queue
    && s.resolvers == (if s.consumer == Awaiting && s.reply == None then 1 else 0)
    && (s.resolvers > 0 ==> s.queue == [] && Open(s))
    && (s.reply.Some? ==> s.consumer == Awaiting)
    && !(s.isDone && s.errorState.Some?)
    && (s.reply == Some(Done) ==> s.isDone && s.queue == [])
    && (s.reply.Some? && s.reply.value.Failed? ==> s.errorState == Some(s.reply.value.error) && s.queue == [])
    && (s.consumer == Returned ==> s.isDone && s.yielded == s.accepted)
    && (s.consumer.Threw? ==> s.errorState == Some(s.consumer.error) && s.yielded == s.accepted)
  }

  /** A step keeps the channel, gives nothing back, and never reopens a closed stream. */
  ghost predicate Keeps<T, E>(s: State<T, E>, after: State<T, E>) {
    && Channel(after) && s.yielded <= after.yielded && s.accepted <= after.accepted
    && (!Open(s) ==> !Open(after) && after.accepted == s.accepted && after.errorState == s.errorState)
  }

  lemma PushedKeeps<T, E>(s: State<T, E>, value: T)
    requires Channel(s)
    ensures Keeps(s, Pushed(s, value))
  {
  }

  lemma EndedKeeps<T, E>(s: State<T, E>)
    requires Channel(s)
    ensures Keeps(s, Ended(s))
  {
  }

  lemma ErredKeeps<T, E>(s: State<T, E>, error: E)
    requires Channel(s)
    ensures Keeps(s, Erred(s, error))
  {
  }

  lemma AdvancedKeeps<T, E>(s: State<T, E>)
    requires Channel(s)
    ensures Keeps(s, Advanced(s))
  {
  }

  lemma WokenKeeps<T, E>(s: State<T, E>)
    requires Channel(s)
    ensures Keeps(s, Woken(s))
  {
  }

  lemma DroppedKeeps<T, E>(s: State<T, E>)
    requires Channel(s)
    ensures Keeps(s, Dropped(s))
  {
  }

  lemma StepKeeps<T, E>(s: State<T, E>, e: Event<T, E>)
    requires Channel(s)
    ensures Keeps(s, Step(s, e))
  {
    hide Channel, Keeps;
    match e
    case Push(value) => PushedKeeps(s, value);
    case End => EndedKeeps(s);
    case Error(error) => ErredKeeps(s, error);
    case Next => AdvancedKeeps(s);
    case Wake => WokenKeeps(s);
    case Return => DroppedKeeps(s);
  }

  /**
   * Any interleaving of producer and consumer: what the consumer was given is
   * a prefix of what was accepted, all of it by the time the consumer sees
   * the end or the error, and the error it sees is the first one.
   */
  lemma {:induction false} RunKeeps<T, E>(events: seq<Event<T, E>>)
    ensures var s := Run(events); Channel(s) && s.yielded <= s.accepted && (s.queue != [] ==> s.resolvers == 0)
    ensures var s := Run(events); s.consumer == Returned || s.consumer.Threw? ==> s.yielded == s.accepted
  {
    hide Step;
    if events != [] {
      RunKeeps(events[..|events| - 1]);
      StepKeeps(Run(events[..|events| - 1]), events[|events| - 1]);
    }
    var s: State<T, E> := Run(events);
    assert s.yielded + (InHand(s) + s.queue) == s.yielded + InHand(s) + s.queue;
  }

  /** Where the first end or error stands among the events, or their number. */
  function FirstClose<T, E>(events: seq<Event<T, E>>): (n: nat)
    ensures n <= |events|
  {
    if events == [] then 0
    else
      var n, e := FirstClose(events[..|events| - 1]), events[|events| - 1];
      if n < |events| - 1 || e.End? || e.Error? then n else n + 1
  }

  lemma AcceptStep<T, E>(s: State<T, E>, e: Event<T, E>)
    requires !e.Return?
    ensures Open(Step(s, e)) <==> Open(s) && !e.End? && !e.Error?
    ensures Step(s, e).accepted == s.accepted + if Open(s) && e.Push? then [e.value] else []
  {
  }

  /** Unless the consumer stops early, what was accepted in a run is what was pushed before the first end or error. */
  lemma {:induction false} AcceptedAll<T, E>(events: seq<Event<T, E>>)
    requires forall i :: 0 <= i < |events| ==> !events[i].Return?
    ensures Open(Run(events)) <==> FirstClose(events) == |events|
    ensures Run(events).accepted == Values(events[..FirstClose(events)])
  {
    if events != [] {
      hide Step, Open;
      var before, n := events[..|events| - 1], FirstClose(events);
      AcceptedAll(before);
      AcceptStep(Run(before), events[|events| - 1]);
      if n < |events| {
        assert events[..n] == before[..n];
      } else {
        assert events[..n] == events && before[..n - 1] == before;
      }
    }
  }

  function Values<T, E>(events: seq<Event<T, E>>): seq<T> {
    if events == [] then []
    else Values(events[..|events| - 1]) + match events[|events| - 1] case Push(v) => [v] case _ => []
  }

  // ----- the class -----

  class PushStream<T, E(==)> {
    var queue: seq<T>
    /** Readers whose promise is still open. */
    var resolvers: nat
    var isDone: bool
    var errorState: Option<E>
    var consumer: Consumer<E>
    /** The awaited promise's reply once it has one. */
    var reply: Option<Reply<T, E>>
    // What the stream took in while it was open, and what the consumer was given.
    var accepted: seq<T>
    var yielded: seq<T>

    function Now(): State<T, E>
      reads this
    {
      State(queue, resolvers, isDone, errorState, consumer, reply, accepted, yielded)
    }

    ghost predicate Valid()
      reads this
    {
      Channel(Now())
    }

    constructor ()
      ensures Valid() && Now() == Start()
    {
      queue, resolvers, isDone, errorState, consumer, reply := [], 0, false, None, Unbegun, None;
      accepted, yielded := [], [];
    }

    method PushItem(value: T)
      requires Valid()
      modifies this
      ensures Valid() && Now() == Pushed(old(Now()), value)
    {
      PushedKeeps(Now(), value);
      hide Channel;
      if isDone || errorState.Some? {
        return;
      }
      accepted := accepted + [value];
      if resolvers > 0 {
        resolvers := resolvers - 1;
        reply := Some(Item(value));
      } else {
        queue := queue + [value];
      }
    }

    method EndStream()
      requires Valid()
      modifies this
      ensures Valid() && Now() == Ended(old(Now()))
    {
      EndedKeeps(Now());
      hide Channel;
      if isDone || errorState.Some? {
        return;
      }
      isDone := true;
      ghost var start := Now();
      while resolvers > 0
        invariant Now() ==
          start.(resolvers := resolvers, reply := if resolvers < start.resolvers then Some(Done) else start.reply)
        invariant resolvers <= start.resolvers
      {
        resolvers := resolvers - 1;
        reply := Some(Done);
      }
    }

    method Fail(error: E)
      requires Valid()
      modifies this
      ensures Valid() && Now() == Erred(old(Now()), error)
    {
      ErredKeeps(Now(), error);
      hide Channel;
      if isDone || errorState.Some? {
        return;
      }
      errorState := Some(error);
      ghost var start := Now();
      while resolvers > 0
        invariant Now() == start.(
          resolvers := resolvers, reply := if resolvers < start.resolvers then Some(Failed(error)) else start.reply)
        invariant resolvers <= start.resolvers
      {
        resolvers := resolvers - 1;
        reply := Some(Failed(error));
      }
    }

    /** The generator begun or advanced from a yield, up to its next yield, await or end. */
    method Advance()
      requires Valid() && consumer in {Unbegun, Ready}
      modifies this
      ensures Valid() && Now() == Advanced(old(Now()))
    {
      AdvancedKeeps(Now());
      hide Channel;
      if queue != [] {
        var item := queue[0];
        queue := queue[1..];
        yielded := yielded + [item];
        consumer := Ready;
      } else if isDone {
        consumer := Returned;
      } else if errorState.Some? {
        consumer := Threw(errorState.value);
      } else {
        resolvers := resolvers + 1;
        consumer := Awaiting;
      }
    }

    /** The generator resumed by its settled promise. */
    method WakeUp()
      requires Valid() && consumer == Awaiting && reply.Some?
      modifies this
      ensures Valid() && Now() == Woken(old(Now()))
    {
      WokenKeeps(Now());
      hide Channel;
      var r := reply.value;
      reply := None;
      match r {
        case Item(v) =>
          yielded := yielded + [v];
          consumer := Ready;
        case Done =>
          consumer := Returned;
        case Failed(e) =>
          consumer := Threw(e);
      }
    }

    /** The consumer stops early. The `finally` that ends the stream runs only in a generator that has begun. */
    method Stop()
      requires Valid() && consumer in {Unbegun, Ready}
      modifies this
      ensures Valid() && Now() == Dropped(old(Now()))
    {
      DroppedKeeps(Now());
      hide Channel;
      if consumer == Ready {
        EndStream();
      }
      consumer := Closed;
    }

    method Do(e: Event<T, E>)
      requires Valid()
      modifies this
      ensures Valid() && Now() == Step(old(Now()), e)
    {
      hide Channel;
      match e {
        case Push(value) =>
          PushItem(value);
        case End =>
          EndStream();
        case Error(error) =>
          Fail(error);
        case Next =>
          if consumer == Unbegun || consumer == Ready { Advance(); }
        case Wake =>
          if consumer == Awaiting && reply.Some? { WakeUp(); }
        case Return =>
          if consumer == Unbegun || consumer == Ready { Stop(); }
      }
    }
  }

  /** Any interleaving of producer and consumer, and its effect on the stream. */
  method Interleaving<T, E(==)>(events: seq<Event<T, E>>) returns (s: PushStream<T, E>)
    ensures fresh(s) && s.Valid() && s.Now() == Run(events)
  {
    s := new PushStream();
    var i := 0;
    while i < |events|
      invariant fresh(s) && s.Valid() && i <= |events| && s.Now() == Run(events[..i])
    {
      assert events[..i + 1][..i] == events[..i];
      s.Do(events[i]);
      i := i + 1;
    }
    assert events[..|events|] == events;
  }

  /**
   * A consumer left alone with a closed stream is given all that is left, and
   * then the end or the error.
   */
  method Drain<T, E(==)>(s: PushStream<T, E>)
    requires s.Valid() && !Open(s.Now()) && s.consumer in {Unbegun, Ready, Awaiting}
    modifies s
    ensures s.Valid() && !Open(s.Now()) && s.yielded == s.accepted == old(s.accepted)
    ensures s.consumer == if s.isDone then Returned else Threw(s.errorState.value)
  {
    if s.consumer == Awaiting {
      s.WakeUp();
    }
    while s.consumer == Unbegun || s.consumer == Ready
      invariant s.Valid() && !Open(s.Now()) && s.accepted == old(s.accepted)
      invariant s.consumer in {Unbegun, Ready} ||
        (s.yielded == s.accepted && s.consumer == if s.isDone then Returned else Threw(s.errorState.value))
      decreases |s.queue|, s.consumer in {Unbegun, Ready}
    {
      s.Advance();
    }
  }
}
