/**
 * The promise-chain mutex and the context lock on top of it. Each call takes
 * a ticket that waits for the one before it; a call whose async context holds
 * an active lease runs directly. Each method is one run between two awaits.
 */
module SqlLock {
  import opened Text

  /**
   * A ticket waits for its predecessor, runs its body under an active lease, has ended its lease, or has released the
   * mutex.
   */
  datatype Phase = Waiting | Running | Ending | Released

  datatype Turn = Began(ticket: nat) | Ended(ticket: nat)

  datatype Event =
    | Call(context: Option<nat>)
    | Admit(ticket: nat)
    | EndBody(ticket: nat, threw: bool)
    | Release(ticket: nat)

  /** The turns of the first `n` tickets, one after the other. */
  function Turns(n: nat): seq<Turn> {
    if n == 0 then [] else Turns(n - 1) + [Began(n - 1), Ended(n - 1)]
  }

  /** Each ticket below `n` begins and ends once, in order, and no turn begins before the one before it has ended. */
  lemma {:induction false} TurnsExactly(n: nat)
    ensures |Turns(n)| == 2 * n
    ensures forall i :: 0 <= i < n ==> Turns(n)[2 * i] == Began(i) && Turns(n)[2 * i + 1] == Ended(i)
  {
    if n > 0 {
      TurnsExactly(n - 1);
    }
  }

  // ----- the steps as functions of the tickets -----

  /** Whether the lease made for a ticket's body is active. */
  predicate Leased(tickets: seq<Phase>, ticket: nat) { ticket < |tickets| && tickets[ticket] == Running }

  /** The promise a ticket awaits has resolved. */
  predicate Admissible(tickets: seq<Phase>, ticket: nat) {
    ticket < |tickets| && tickets[ticket] == Waiting && (ticket == 0 || tickets[ticket - 1] == Released)
  }

  /** What an event does; one that is not possible does nothing. A call under an active lease takes no ticket. */
  function Step(tickets: seq<Phase>, e: Event): seq<Phase> {
    match e
    case Call(context) => if context.Some? && Leased(tickets, context.value) then tickets else tickets + [Waiting]
    case Admit(ticket) => if Admissible(tickets, ticket) then tickets[ticket := Running] else tickets
    case EndBody(ticket, _) => if Leased(tickets, ticket) then tickets[ticket := Ending] else tickets
    case Release(ticket) =>
      if ticket < |tickets| && tickets[ticket] == Ending then tickets[ticket := Released] else tickets
  }

  function Run(events: seq<Event>): seq<Phase> {
    if events == [] then [] else Step(Run(events[..|events| - 1]), events[|events| - 1])
  }

  /** Released tickets, then at most one that has its turn, then waiting ones. */
  ghost predicate InOrder(tickets: seq<Phase>, front: nat) {
    && front <= |tickets|
    && (forall t :: 0 <= t < front ==> tickets[t] == Released)
    && (forall t :: front < t < |tickets| ==> tickets[t] == Waiting)
    && (front < |tickets| ==> tickets[front] != Released)
  }

  /** In every run the tickets are served in order, and a lease is active only for the one that has its turn. */
  lemma {:induction false} RunInOrder(events: seq<Event>) returns (front: nat)
    ensures InOrder(Run(events), front)
    ensures forall s, t: nat :: Leased(Run(events), s) && Leased(Run(events), t) ==> s == t
  {
    front := 0;
    if events != [] {
      front := RunInOrder(events[..|events| - 1]);
      var before := Run(events[..|events| - 1]);
      match events[|events| - 1] {
        case Release(ticket) => if ticket < |before| && before[ticket] == Ending { front := front + 1; }
        case _ =>
      }
    }
  }

  /** A lease that has ended is not active again, whatever follows: a call made under it takes a ticket. */
  lemma {:induction false} EndedStays(events: seq<Event>, n: nat, t: nat)
    requires n <= |events| && t < |Run(events[..n])| && Run(events[..n])[t] in {Ending, Released}
    ensures t < |Run(events)| && Run(events)[t] in {Ending, Released}
    ensures Step(Run(events), Call(Some(t))) == Run(events) + [Waiting]
    decreases |events|
  {
    if n == |events| {
      assert events[..n] == events;
    } else {
      assert events[..|events| - 1][..n] == events[..n];
      EndedStays(events[..|events| - 1], n, t);
    }
  }

  /**
   * Every ticket can take its turn: in any run the first one not released
   * yet, still waiting, begins, ends and is released by its own three events,
   * and the next one can then begin.
   */
  lemma TurnTaken(events: seq<Event>, front: nat, threw: bool)
    requires InOrder(Run(events), front) && front < |Run(events)| && Run(events)[front] == Waiting
    ensures var tickets := Run(events);
      var after := Run(events + [Admit(front), EndBody(front, threw), Release(front)]);
      && after == tickets[front := Released]
      && (front + 1 < |tickets| ==> Admissible(after, front + 1))
      && Leased(Run(events + [Admit(front)]), front)
  {
    hide Step;
    var a, b, c: Event := Admit(front), EndBody(front, threw), Release(front);
    RunNext(events, a);
    RunNext(events + [a], b);
    RunNext(events + [a] + [b], c);
    assert events + [a, b, c] == events + [a] + [b] + [c];
    ThreeSteps(Run(events), front, threw);
  }

  lemma RunNext(events: seq<Event>, e: Event)
    ensures Run(events + [e]) == Step(Run(events), e)
  {
    assert (events + [e])[..|events|] == events;
  }

  lemma ThreeSteps(tickets: seq<Phase>, front: nat, threw: bool)
    requires InOrder(tickets, front) && front < |tickets| && tickets[front] == Waiting
    ensures Step(tickets, Admit(front)) == tickets[front := Running]
    ensures Step(tickets[front := Running], EndBody(front, threw)) == tickets[front := Ending]
    ensures Step(tickets[front := Ending], Release(front)) == tickets[front := Released]
  {
    assert tickets[front := Running][front := Ending] == tickets[front := Ending];
    assert tickets[front := Ending][front := Released] == tickets[front := Released];
  }

  // ----- the lock -----

  class ContextLock {
    /** One phase per ticket; the tail of the promise chain is the last one's release. */
    var tickets: seq<Phase>
    /** How many tickets have been released, and every turn begun and ended. */
    ghost var front: nat
    ghost var log: seq<Turn>

    /** Turns never overlap and follow the call order. */
    ghost predicate Valid()
      reads this
    {
      && InOrder(tickets, front)
      && log == Turns(front) + (if front < |tickets| && tickets[front] != Waiting then [Began(front)] else [])
    }

    constructor ()
      ensures Valid() && tickets == [] && front == 0 && log == []
    {
      tickets, front, log := [], 0, [];
    }

    /**
     * A guarded call, from the context of some lease or of none: it runs at once under its active lease, else it
     * queues.
     */
    method Call(context: Option<nat>) returns (ticket: Option<nat>)
      requires Valid()
      modifies this`tickets
      ensures Valid() && (ticket.None? <==> context.Some? && Leased(old(tickets), context.value))
      ensures ticket.None? ==> tickets == old(tickets)
      ensures ticket.Some? ==> ticket.value == |old(tickets)| && tickets == old(tickets) + [Waiting]
    {
      if context.Some? && Leased(tickets, context.value) {
        return None;
      }
      ticket := Some(|tickets|);
      tickets := tickets + [Waiting];
    }

    method Begin(ticket: nat)
      requires Valid() && Admissible(tickets, ticket)
      modifies this`tickets, this`log
      ensures Valid() && ticket == front && Leased(tickets, ticket) && tickets == old(tickets)[ticket := Running]
    {
      tickets := tickets[ticket := Running];
      log := log + [Began(ticket)];
    }

    /** The body has returned or thrown: either way its lease ends. */
    method EndOfBody(ticket: nat, threw: bool)
      requires Valid() && Leased(tickets, ticket)
      modifies this`tickets
      ensures Valid() && tickets == old(tickets)[ticket := Ending]
    {
      tickets := tickets[ticket := Ending];
    }

    method ReleaseMutex(ticket: nat)
      requires Valid() && ticket < |tickets| && tickets[ticket] == Ending
      modifies this`tickets, this`front, this`log
      ensures Valid() && tickets == old(tickets)[ticket := Released] && front == old(front) + 1
      ensures front < |tickets| ==> Admissible(tickets, front)
    {
      tickets := tickets[ticket := Released];
      log := log + [Ended(ticket)];
      front := front + 1;
      assert Turns(front) == Turns(front - 1) + [Began(front - 1), Ended(front - 1)];
      assert Turns(front - 1) + [Began(front - 1)] + [Ended(front - 1)] ==
        Turns(front - 1) + [Began(front - 1), Ended(front - 1)];
    }

    method Do(e: Event)
      requires Valid()
      modifies this
      ensures Valid() && tickets == Step(old(tickets), e)
    {
      match e {
        case Call(context) =>
          var ticket := Call(context);
        case Admit(ticket) =>
          if Admissible(tickets, ticket) { Begin(ticket); }
        case EndBody(ticket, threw) =>
          if Leased(tickets, ticket) { EndOfBody(ticket, threw); }
        case Release(ticket) =>
          if ticket < |tickets| && tickets[ticket] == Ending { ReleaseMutex(ticket); }
      }
    }
  }

  /**
   * Any interleaving, and its effect on the tickets: at most one lease is
   * active, and turns begin in the order of the calls and end before the next begins.
   */
  method Interleaving(events: seq<Event>) returns (lock: ContextLock)
    ensures fresh(lock) && lock.Valid() && lock.tickets == Run(events)
    ensures lock.log == Turns(lock.front) || lock.log == Turns(lock.front) + [Began(lock.front)]
    ensures forall t: nat :: Leased(lock.tickets, t) ==> t == lock.front
  {
    lock := new ContextLock();
    var i := 0;
    while i < |events|
      invariant fresh(lock) && lock.Valid() && i <= |events| && lock.tickets == Run(events[..i])
    {
      assert events[..i + 1][..i] == events[..i];
      lock.Do(events[i]);
      i := i + 1;
    }
    assert events[..|events|] == events;
  }

  /** Left to run, every queued call gets its turn, whether the bodies before it return or throw. */
  method Drain(lock: ContextLock, throws: nat -> bool)
    requires lock.Valid()
    modifies lock
    ensures lock.Valid() && |lock.tickets| == |old(lock.tickets)| && lock.front == |lock.tickets|
    ensures lock.log == Turns(|lock.tickets|)
    ensures forall t :: 0 <= t < |lock.tickets| ==> lock.tickets[t] == Released
  {
    var t := 0;
    while t < |lock.tickets|
      invariant lock.Valid() && t <= |lock.tickets| == |old(lock.tickets)|
      invariant t <= lock.front
    {
      if Admissible(lock.tickets, t) {
        lock.Begin(t);
      }
      if Leased(lock.tickets, t) {
        lock.EndOfBody(t, throws(t));
      }
      if lock.tickets[t] == Ending {
        lock.ReleaseMutex(t);
      }
      t := t + 1;
    }
  }
}
