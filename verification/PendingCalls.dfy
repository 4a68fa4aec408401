/**
 * The RPC client's table of calls awaiting a response. A call can be settled
 * by its response, its timeout, its abort signal or a failed send; each
 * method is one of these steps, with its own order of clean-up. Calls are
 * numbered by the client's sequence counter, which makes their ids unique.
 */
module PendingCalls {
  datatype Cause = Responded(failure: bool) | TimedOut | Aborted | AbortedBefore | SendFailed

  /** What a call's record holds: whether it was given a timer, and a listener on an abort signal. */
  datatype Call = Call(timeout: bool, onAbort: bool)

  datatype Event =
    | Invoke(aborted: bool, signal: bool, timeoutMs: int)
    | Response(id: nat, failure: bool)
    | Timeout(id: nat)
    | Abort(id: nat)
    | Failure(ids: seq<nat>)

  // ----- the steps as functions of the table -----

  datatype Table = Table(
    calls: seq<Call>, pending: set<nat>, timers: set<nat>, listeners: set<nat>, settled: map<nat, Cause>)

  const EMPTY := Table([], {}, {}, {}, map[])

  /** A call leaves the table: timer and listener go, and its promise is settled. */
  function TakenOut(t: Table, id: nat, cause: Cause): Table {
    Table(t.calls, t.pending - {id}, t.timers - {id}, t.listeners - {id}, t.settled[id := cause])
  }

  function Registered(t: Table, aborted: bool, signal: bool, timeoutMs: int): Table {
    var id := |t.calls|;
    if signal && aborted then t.(calls := t.calls + [Call(false, false)], settled := t.settled[id := AbortedBefore])
    else
      Table(
        t.calls + [Call(timeoutMs > 0, signal)], t.pending + {id}, t.timers + (if timeoutMs > 0 then {id} else {}),
        t.listeners + (if signal then {id} else {}), t.settled)
  }

  function Rejected(t: Table, ids: seq<nat>): Table
    decreases |ids|
  {
    if ids == [] then t
    else
      var before, id := Rejected(t, ids[..|ids| - 1]), ids[|ids| - 1];
      if id in before.pending then TakenOut(before, id, SendFailed) else before
  }

  /**
   * What an event does. Timers and listeners fire only while they are in place; a response to an unknown id is ignored.
   */
  function Step(t: Table, e: Event): Table {
    match e
    case Invoke(aborted, signal, timeoutMs) => Registered(t, aborted, signal, timeoutMs)
    case Response(id, failure) => if id in t.pending then TakenOut(t, id, Responded(failure)) else t
    case Timeout(id) => if id in t.timers then TakenOut(t, id, TimedOut) else t
    case Abort(id) => if id in t.listeners then TakenOut(t, id, Aborted) else t
    case Failure(ids) => Rejected(t, ids)
  }

  function Run(t: Table, events: seq<Event>): Table
    decreases |events|
  {
    if events == [] then t else Step(Run(t, events[..|events| - 1]), events[|events| - 1])
  }

  // ----- what every run keeps -----

  /**
   * Every call is pending or settled, and not both; while it is pending the
   * timer and the listener it was given are in place, and afterwards neither is.
   */
  ghost predicate Sound(t: Table) {
    && (forall id :: id in t.pending ==> id < |t.calls| && id !in t.settled)
    && (forall id :: id in t.settled ==> id < |t.calls|)
    && (forall id: nat :: id < |t.calls| && id !in t.pending ==> id in t.settled)
    && (forall id :: id in t.timers ==> id in t.pending) && (forall id :: id in t.listeners ==> id in t.pending)
    && forall id :: id in t.pending ==> t.calls[id] == Call(id in t.timers, id in t.listeners)
  }

  /**
   * How often each promise was resolved or rejected, and which step took each
   * call out of the table: a call leaves once, and its promise is settled once,
   * by the step that took it out, unless its signal had aborted before it got in.
   */
  ghost predicate Once(t: Table, attempts: seq<nat>, left: map<nat, Cause>) {
    && |attempts| == |t.calls|
    && (forall id: nat :: id < |t.calls| ==> attempts[id] == if id in t.pending then 0 else 1)
    && (forall id :: id in left ==> id in t.settled && t.settled[id] == left[id] && !left[id].AbortedBefore?)
    && forall id :: id in t.settled && !t.settled[id].AbortedBefore? ==> id in left
  }

  lemma OnceTaken(t: Table, attempts: seq<nat>, left: map<nat, Cause>, id: nat, cause: Cause)
    requires Sound(t) && Once(t, attempts, left) && id in t.pending && !cause.AbortedBefore?
    ensures id < |t.calls| == |attempts| && id !in t.settled && id !in left
    ensures t.calls[id] == Call(id in t.timers, id in t.listeners)
    ensures Once(TakenOut(t, id, cause), attempts[id := attempts[id] + 1], left[id := cause])
  {
  }

  lemma OnceRegistered(t: Table, attempts: seq<nat>, left: map<nat, Cause>, aborted: bool, signal: bool, timeoutMs: int)
    requires Sound(t) && Once(t, attempts, left)
    ensures |attempts| == |t.calls| && |t.calls| !in t.settled
    ensures Once(Registered(t, aborted, signal, timeoutMs), attempts + [if signal && aborted then 1 else 0], left)
  {
  }

  /** A timer or listener in place belongs to a pending call. */
  lemma InPlace(t: Table, id: nat)
    requires Sound(t)
    ensures id in t.timers || id in t.listeners ==> id in t.pending
  {
  }

  lemma TakenOutSound(t: Table, id: nat, cause: Cause)
    requires Sound(t) && id in t.pending
    ensures Sound(TakenOut(t, id, cause)) && id !in t.settled
  {
  }

  lemma RegisteredSound(t: Table, aborted: bool, signal: bool, timeoutMs: int)
    requires Sound(t)
    ensures Sound(Registered(t, aborted, signal, timeoutMs)) && |t.calls| !in t.settled && |t.calls| !in t.pending
  {
  }

  /** A failed send settles exactly the calls of its payload that were still pending. */
  lemma {:induction false} RejectedExactly(t: Table, ids: seq<nat>)
    requires Sound(t)
    ensures var after := Rejected(t, ids);
      && Sound(after) && after.calls == t.calls
      && (forall id :: id in after.pending <==> id in t.pending && id !in ids)
      && (forall id :: id in t.settled ==> id in after.settled && after.settled[id] == t.settled[id])
      && (forall id :: id in after.settled && id !in t.settled ==> after.settled[id] == SendFailed)
    decreases |ids|
  {
    if ids != [] {
      var last := |ids| - 1;
      assert ids == ids[..last] + [ids[last]];
      RejectedExactly(t, ids[..last]);
      var before := Rejected(t, ids[..last]);
      if ids[last] in before.pending {
        TakenOutSound(before, ids[last], SendFailed);
      }
    }
  }

  lemma StepKeeps(t: Table, e: Event)
    requires Sound(t)
    ensures Sound(Step(t, e)) &&
      forall id :: id in t.settled ==> id in Step(t, e).settled && Step(t, e).settled[id] == t.settled[id]
  {
    match e
    case Invoke(aborted, signal, timeoutMs) => RegisteredSound(t, aborted, signal, timeoutMs);
    case Response(id, failure) => if id in t.pending { TakenOutSound(t, id, Responded(failure)); }
    case Timeout(id) => if id in t.timers { TakenOutSound(t, id, TimedOut); }
    case Abort(id) => if id in t.listeners { TakenOutSound(t, id, Aborted); }
    case Failure(ids) => RejectedExactly(t, ids);
  }

  /** In every run a promise settled stays as it was settled, and its call out of the table. */
  lemma {:induction false} RunKeeps(t: Table, events: seq<Event>)
    requires Sound(t)
    ensures var after := Run(t, events);
      Sound(after) && forall id :: id in t.settled ==>
        id in after.settled && after.settled[id] == t.settled[id] && id !in after.pending
    decreases |events|
  {
    hide Sound, Step;
    if events != [] {
      RunKeeps(t, events[..|events| - 1]);
      StepKeeps(Run(t, events[..|events| - 1]), events[|events| - 1]);
    }
    OutOfTable(Run(t, events));
  }

  lemma OutOfTable(t: Table)
    requires Sound(t)
    ensures forall id :: id in t.settled ==> id !in t.pending
  {
  }

  // ----- the client -----

  class RpcClient {
    var calls: seq<Call>
    var pending: set<nat>
    /** Timers that will fire and listeners that are attached. */
    var timers: set<nat>
    var listeners: set<nat>
    /** What the promises were settled with. */
    var settled: map<nat, Cause>
    // History.
    ghost var attempts: seq<nat>
    ghost var left: map<nat, Cause>

    ghost predicate Valid()
      reads this
    {
      Sound(Now()) && Once(Now(), attempts, left)
    }

    function Now(): Table
      reads this
    {
      Table(calls, pending, timers, listeners, settled)
    }

    constructor ()
      ensures Valid() && Now() == EMPTY
    {
      calls, pending, timers, listeners, settled := [], {}, {}, {}, map[];
      attempts, left := [], map[];
    }

    // ----- what the steps are made of -----

    /** `pending.delete(id)`. */
    method Delete(id: nat, ghost cause: Cause)
      modifies this`pending, this`left
      ensures pending == old(pending) - {id}
      ensures left == if id in old(pending) then old(left)[id := cause] else old(left)
    {
      left := if id in pending then left[id := cause] else left;
      pending := pending - {id};
    }

    /** `if (call.timeout) clearTimeout(call.timeout)`. */
    method ClearTimer(id: nat)
      requires id < |calls|
      modifies this`timers
      ensures timers == if calls[id].timeout then old(timers) - {id} else old(timers)
    {
      if calls[id].timeout {
        timers := timers - {id};
      }
    }

    /** `call.onAbort?.()`, which takes the listener off its signal. */
    method RemoveListener(id: nat)
      requires id < |calls|
      modifies this`listeners
      ensures listeners == if calls[id].onAbort then old(listeners) - {id} else old(listeners)
    {
      if calls[id].onAbort {
        listeners := listeners - {id};
      }
    }

    /** Resolving or rejecting a promise: only the first time has an effect. */
    method Settle(id: nat, cause: Cause)
      requires id < |attempts|
      modifies this`settled, this`attempts
      ensures attempts == old(attempts)[id := old(attempts)[id] + 1]
      ensures settled == if id in old(settled) then old(settled) else old(settled)[id := cause]
    {
      attempts := attempts[id := attempts[id] + 1];
      if id !in settled {
        settled := settled[id := cause];
      }
    }

    // ----- the steps -----

    /** `registerPending`. A signal that has aborted already rejects at once and leaves nothing behind. */
    method Register(aborted: bool, signal: bool, timeoutMs: int) returns (id: nat)
      requires Valid()
      modifies this
      ensures Valid() && id == |old(calls)| && left == old(left)
      ensures Now() == Registered(old(Now()), aborted, signal, timeoutMs)
    {
      hide Sound, Once;
      RegisteredSound(Now(), aborted, signal, timeoutMs);
      OnceRegistered(Now(), attempts, left, aborted, signal, timeoutMs);
      id := |calls|;
      attempts := attempts + [0];
      if signal && aborted {
        calls := calls + [Call(false, false)];
        Settle(id, AbortedBefore);
        assert Now() == Registered(old(Now()), aborted, signal, timeoutMs);
        assert attempts == old(attempts) + [1];
        return;
      }
      calls := calls + [Call(timeoutMs > 0, signal)];
      if signal {
        listeners := listeners + {id};
      }
      if timeoutMs > 0 {
        timers := timers + {id};
      }
      pending := pending + {id};
      assert Now() == Registered(old(Now()), aborted, signal, timeoutMs);
    }

    /** The call `id` was in the table and this step, no other, took it out. */
    twostate predicate TookOut(id: nat, cause: Cause)
      reads this
    {
      Now() == TakenOut(old(Now()), id, cause) && old(id in pending && id !in left) && left == old(left)[id := cause]
    }

    /** A response frame for `id`. An id that is not pending is ignored. */
    method OnResponse(id: nat, failure: bool)
      requires Valid()
      modifies this
      ensures Valid() && if old(id in pending) then TookOut(id, Responded(failure)) else unchanged(this)
    {
      hide Sound, Once;
      if id !in pending {
        return;
      }
      OnceTaken(Now(), attempts, left, id, Responded(failure));
      TakenOutSound(Now(), id, Responded(failure));
      Delete(id, Responded(failure));
      ClearTimer(id);
      RemoveListener(id);
      Settle(id, Responded(failure));
      assert Now() == TakenOut(old(Now()), id, Responded(failure));
    }

    /** The timer fires: it does so only while it is armed, and so while the call is pending. */
    method OnTimeout(id: nat)
      requires Valid() && id in timers
      modifies this
      ensures Valid() && TookOut(id, TimedOut)
    {
      hide Sound, Once;
      InPlace(Now(), id);
      OnceTaken(Now(), attempts, left, id, TimedOut);
      TakenOutSound(Now(), id, TimedOut);
      timers := timers - {id};
      Delete(id, TimedOut);
      RemoveListener(id);
      Settle(id, TimedOut);
      assert Now() == TakenOut(old(Now()), id, TimedOut);
    }

    /** The abort signal fires its listener, once. */
    method OnAbort(id: nat)
      requires Valid() && id in listeners
      modifies this
      ensures Valid() && TookOut(id, Aborted)
    {
      hide Sound, Once;
      InPlace(Now(), id);
      OnceTaken(Now(), attempts, left, id, Aborted);
      TakenOutSound(Now(), id, Aborted);
      listeners := listeners - {id};
      Delete(id, Aborted);
      ClearTimer(id);
      Settle(id, Aborted);
      assert Now() == TakenOut(old(Now()), id, Aborted);
    }

    /** One call of a batch that could not be sent. */
    method RejectOne(id: nat)
      requires Valid()
      modifies this
      ensures Valid() && if old(id in pending) then TookOut(id, SendFailed) else unchanged(this)
    {
      hide Sound, Once;
      if id in pending {
        OnceTaken(Now(), attempts, left, id, SendFailed);
        TakenOutSound(Now(), id, SendFailed);
        ClearTimer(id);
        RemoveListener(id);
        Delete(id, SendFailed);
        Settle(id, SendFailed);
        assert Now() == TakenOut(old(Now()), id, SendFailed);
      }
    }

    /** `rejectPayload`: the calls of a batch that could not be sent, except those settled meanwhile. */
    method OnSendFailure(ids: seq<nat>)
      requires Valid()
      modifies this
      ensures Valid() && Now() == Rejected(old(Now()), ids)
    {
      var i := 0;
      while i < |ids|
        invariant i <= |ids| && Valid() && Now() == Rejected(old(Now()), ids[..i])
      {
        assert ids[..i + 1][..i] == ids[..i];
        RejectOne(ids[i]);
        i := i + 1;
      }
      assert ids[..|ids|] == ids;
    }

    method Do(e: Event)
      requires Valid()
      modifies this
      ensures Valid() && Now() == Step(old(Now()), e)
    {
      match e {
        case Invoke(aborted, signal, timeoutMs) =>
          var id := Register(aborted, signal, timeoutMs);
        case Response(id, failure) =>
          OnResponse(id, failure);
        case Timeout(id) =>
          if id in timers { OnTimeout(id); }
        case Abort(id) =>
          if id in listeners { OnAbort(id); }
        case Failure(ids) =>
          OnSendFailure(ids);
      }
    }
  }

  /**
   * Any interleaving of events, and its effect on the table: a call leaves it
   * at most once and its promise is resolved or rejected once, by that very
   * step; an armed timer or listener means it is still pending, and every
   * call is pending or settled.
   */
  method Interleaving(events: seq<Event>) returns (client: RpcClient)
    ensures fresh(client) && client.Valid() && client.Now() == Run(EMPTY, events)
    ensures Sound(client.Now()) && Once(client.Now(), client.attempts, client.left)
  {
    client := new RpcClient();
    var i := 0;
    while i < |events|
      invariant fresh(client) && client.Valid() && i <= |events| && client.Now() == Run(EMPTY, events[..i])
    {
      assert events[..i + 1][..i] == events[..i];
      client.Do(events[i]);
      i := i + 1;
    }
    assert events[..|events|] == events;
  }
}
