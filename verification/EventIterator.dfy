/**
 * The bridge from container events to an async iterator, on which any number
 * of `next` calls may be outstanding. The calls are numbered; the `k`th gets
 * the `k`th event.
 */
module EventIterator {
  import opened Text

  datatype Reply<T> = Item(value: T) | Done

  /** An event whose value the transformation skips carries none. */
  datatype Event<T> = Emit(value: Option<T>) | Next | Finish

  // ----- the steps as functions of the iterator -----

  /** Events kept, calls waiting, how often `next` was called, the replies given, and the events taken in while open. */
  datatype State<T> = State(
    pending: seq<T>, waiting: seq<nat>, closed: bool, calls: nat, replies: map<nat, Reply<T>>, accepted: seq<T>)

  function Start<T>(): State<T> { State([], [], false, 0, map[], []) }

  function Emitted<T>(s: State<T>, value: Option<T>): State<T> {
    if s.closed || value.None? then s
    else if s.waiting != [] then
      s.(replies := s.replies[s.waiting[0] := Item(value.value)], waiting := s.waiting[1..],
        accepted := s.accepted + [value.value])
    else s.(pending := s.pending + [value.value], accepted := s.accepted + [value.value])
  }

  function Asked<T>(s: State<T>): State<T> {
    var call := s.calls;
    if s.pending != [] then s.(calls := call + 1, replies := s.replies[call := Item(s.pending[0])],
      pending := s.pending[1..])
    else if s.closed then s.(calls := call + 1, replies := s.replies[call := Done])
    else s.(calls := call + 1, waiting := s.waiting + [call])
  }

  /** All waiting calls are told the end. */
  function Told<T>(replies: map<nat, Reply<T>>, waiting: seq<nat>): map<nat, Reply<T>>
    decreases waiting
  {
    if waiting == [] then replies else Told(replies[waiting[0] := Done], waiting[1..])
  }

  function Finished<T>(s: State<T>): State<T> {
    if s.closed then s else s.(closed := true, waiting := [], replies := Told(s.replies, s.waiting))
  }

  function Step<T>(s: State<T>, e: Event<T>): State<T> {
    match e
    case Emit(value) => Emitted(s, value)
    case Next => Asked(s)
    case Finish => Finished(s)
  }

  function Run<T>(events: seq<Event<T>>): State<T> {
    if events == [] then Start() else Step(Run(events[..|events| - 1]), events[|events| - 1])
  }

  // ----- what every run keeps -----

  /** Every call has the event of its number, or the end once closed, or waits in the order of the calls. */
  ghost predicate Numbered<T>(s: State<T>) {
    && (forall k: nat :: k < s.calls && k < |s.accepted| ==> k in s.replies && s.replies[k] == Item(s.accepted[k]))
    && (forall k: nat :: |s.accepted| <= k < s.calls && s.closed ==> k in s.replies && s.replies[k] == Done)
    && (forall k: nat :: |s.accepted| <= k < s.calls && !s.closed ==> k !in s.replies)
    && (forall k: nat :: k in s.replies ==> k < s.calls)
    && s.pending == (if s.calls <= |s.accepted| then s.accepted[s.calls..] else [])
    && (s.closed ==> s.waiting == [])
    && (!s.closed ==> |s.waiting| == (if s.calls <= |s.accepted| then 0 else s.calls - |s.accepted|))
    && (forall i :: 0 <= i < |s.waiting| ==> s.waiting[i] == |s.accepted| + i)
  }

  /** A reply given is never given again. */
  ghost predicate Keeps<T>(s: State<T>, after: State<T>) {
    Numbered(after) && forall k :: k in s.replies ==> k in after.replies && after.replies[k] == s.replies[k]
  }

  lemma EmittedKeeps<T>(s: State<T>, value: Option<T>)
    requires Numbered(s)
    ensures Keeps(s, Emitted(s, value))
  {
  }

  lemma AskedKeeps<T>(s: State<T>)
    requires Numbered(s)
    ensures Keeps(s, Asked(s))
  {
  }

  lemma {:induction false} ToldAll<T>(replies: map<nat, Reply<T>>, waiting: seq<nat>)
    ensures forall k :: k in Told(replies, waiting) <==> k in replies || k in waiting
    ensures forall k :: k in Told(replies, waiting) ==>
      Told(replies, waiting)[k] == if k in waiting then Done else replies[k]
    decreases waiting
  {
    if waiting != [] {
      ToldAll(replies[waiting[0] := Done], waiting[1..]);
      assert waiting == [waiting[0]] + waiting[1..];
    }
  }

  lemma FinishedKeeps<T>(s: State<T>)
    requires Numbered(s)
    ensures Keeps(s, Finished(s)) && Finished(s).closed
  {
    ToldAll(s.replies, s.waiting);
    if !s.closed {
      forall k: nat | |s.accepted| <= k < s.calls ensures k in s.waiting {
        assert s.waiting[k - |s.accepted|] == k;
      }
    }
  }

  /**
   * In any interleaving of events, calls and the end a reply is the event of
   * the call's number, the end comes only to calls beyond the last event, and
   * items kept and calls waiting never coexist.
   */
  lemma {:induction false} RunNumbered<T>(events: seq<Event<T>>)
    ensures var s := Run(events);
      && Numbered(s) && !(s.pending != [] && s.waiting != [])
      && (forall k: nat :: k in s.replies ==> s.replies[k] == if k < |s.accepted| then Item(s.accepted[k]) else Done)
      && (s.closed ==> forall k: nat :: k < s.calls ==> k in s.replies)
  {
    if events != [] {
      hide Keeps, Emitted, Asked, Finished;
      RunNumbered(events[..|events| - 1]);
      StepKeeps(Run(events[..|events| - 1]), events[|events| - 1]);
    }
  }

  lemma StepKeeps<T>(s: State<T>, e: Event<T>)
    requires Numbered(s)
    ensures Keeps(s, Step(s, e)) && Numbered(Step(s, e))
  {
    hide Numbered;
    match e
    case Emit(value) => EmittedKeeps(s, value);
    case Next => AskedKeeps(s);
    case Finish => FinishedKeeps(s);
  }

  /** What was taken in is every event that was not skipped, up to the end. */
  lemma {:induction false} AcceptedAll<T>(events: seq<Event<T>>)
    ensures Run(events).closed <==> FirstEnd(events) < |events|
    ensures Run(events).accepted == Values(events[..FirstEnd(events)])
  {
    if events != [] {
      var before, n := events[..|events| - 1], FirstEnd(events);
      AcceptedAll(before);
      if n < |events| {
        assert events[..n] == before[..n];
      } else {
        assert events[..n] == events && before[..n - 1] == before;
      }
    }
  }

  function FirstEnd<T>(events: seq<Event<T>>): (n: nat)
    ensures n <= |events|
  {
    if events == [] then 0
    else
      var n := FirstEnd(events[..|events| - 1]);
      if n < |events| - 1 || events[|events| - 1].Finish? then n else n + 1
  }

  function Values<T>(events: seq<Event<T>>): seq<T> {
    if events == [] then []
    else Values(events[..|events| - 1]) + match events[|events| - 1] case Emit(Some(v)) => [v] case _ => []
  }

  // ----- the iterator -----

  class EventIterator<T> {
    var pending: seq<T>
    var waiting: seq<nat>
    var closed: bool
    var calls: nat
    var replies: map<nat, Reply<T>>
    var accepted: seq<T>

    function Now(): State<T>
      reads this
    {
      State(pending, waiting, closed, calls, replies, accepted)
    }

    constructor ()
      ensures Now() == Start()
    {
      pending, waiting, closed, calls, replies, accepted := [], [], false, 0, map[], [];
    }

    /** The container's listener. */
    method OnEvent(value: Option<T>)
      modifies this
      ensures Now() == Emitted(old(Now()), value)
    {
      if closed || value.None? {
        return;
      }
      accepted := accepted + [value.value];
      if waiting != [] {
        replies := replies[waiting[0] := Item(value.value)];
        waiting := waiting[1..];
      } else {
        pending := pending + [value.value];
      }
    }

    method NextCall() returns (call: nat)
      modifies this
      ensures Now() == Asked(old(Now())) && call == old(calls)
    {
      call := calls;
      calls := calls + 1;
      if pending != [] {
        replies := replies[call := Item(pending[0])];
        pending := pending[1..];
      } else if closed {
        replies := replies[call := Done];
      } else {
        waiting := waiting + [call];
      }
    }

    method FinishAll()
      modifies this
      ensures Now() == Finished(old(Now()))
    {
      if closed {
        return;
      }
      closed := true;
      ghost var start := Now();
      while waiting != []
        invariant Now() == start.(replies := replies, waiting := waiting)
        invariant Told(replies, waiting) == Told(start.replies, start.waiting)
        decreases |waiting|
      {
        replies := replies[waiting[0] := Done];
        waiting := waiting[1..];
      }
    }
  }

  method Interleaving<T>(events: seq<Event<T>>) returns (it: EventIterator<T>)
    ensures fresh(it) && it.Now() == Run(events)
  {
    it := new EventIterator();
    var i := 0;
    while i < |events|
      invariant fresh(it) && i <= |events| && it.Now() == Run(events[..i])
    {
      assert events[..i + 1][..i] == events[..i];
      match events[i] {
        case Emit(value) => it.OnEvent(value);
        case Next => var call := it.NextCall();
        case Finish => it.FinishAll();
      }
      i := i + 1;
    }
    assert events[..|events|] == events;
  }
}
