/**
 * The batching loader. Keys asked for before a dispatch go to the batch
 * function in one call; every promise handed out is settled by the batch its
 * key went into. One step is one run of code between two awaits.
 */
module BatchLoader {
  import opened Text

  datatype Settlement<V> = Resolved(value: V) | Rejected(message: string)

  /** What awaiting the batch function gives: an array, something else, or a throw. */
  datatype Answer<V> = Values(values: seq<V>) | NotArray | Thrown(message: string)

  datatype Entry<K> = Entry(key: K, epoch: nat)

  datatype Stage = Queued | InFlight(batch: nat) | Settled(batch: nat)

  /** A batch is answered with a given answer, or else as an index-wise batch function would. */
  datatype Event<K, V> = Load(key: K) | Clear | Dispatch | Answered(batch: nat, answer: Option<Answer<V>>)

  // ----- the steps as functions of the loader -----

  /**
   * The promises made so far, numbered, each with its key and how often the
   * cache had been cleared; the queue, the cache and the batches; the batches
   * that await an answer; what was settled; and where each promise is.
   */
  datatype State<K, V> = State(
    entries: seq<Entry<K>>, queue: seq<nat>, cache: map<K, nat>, scheduled: bool, batches: seq<seq<nat>>,
    waiting: set<nat>, settled: map<nat, Settlement<V>>, epoch: nat, stage: seq<Stage>)

  function Start<K, V>(): State<K, V> { State([], [], map[], false, [], {}, map[], 0, []) }

  function Loaded<K, V>(s: State<K, V>, key: K): State<K, V> {
    if key in s.cache then s
    else
      var id := |s.entries|;
      s.(entries := s.entries + [Entry(key, s.epoch)], queue := s.queue + [id], cache := s.cache[key := id],
        scheduled := true, stage := s.stage + [Queued])
  }

  function Cleared<K, V>(s: State<K, V>): State<K, V> { s.(cache := map[], epoch := s.epoch + 1) }

  /** The deferred `dispatch`, up to its call of the batch function. */
  function Dispatched<K, V>(s: State<K, V>): State<K, V> {
    if !s.scheduled then s
    else if s.queue == [] then s.(scheduled := false)
    else s.(scheduled := false, queue := [], batches := s.batches + [s.queue], waiting := s.waiting + {|s.batches|},
            stage := Moved(s.stage, s.queue, InFlight(|s.batches|)))
  }

  function Moved(stage: seq<Stage>, ids: seq<nat>, to: Stage): (r: seq<Stage>)
    ensures |r| == |stage| && forall id :: 0 <= id < |stage| ==> r[id] == if id in ids then to else stage[id]
  {
    seq(|stage|, id requires 0 <= id < |stage| => if id in ids then to else stage[id])
  }

  /** What the `i`th promise of a batch of `n` is settled with. */
  function Share<V>(answer: Answer<V>, n: nat, i: nat): (r: Settlement<V>)
    requires i < n
    ensures r.Resolved? <==> answer.Values? && |answer.values| == n
    ensures r.Resolved? ==> r.value == answer.values[i]
    ensures answer.Thrown? ==> r == Rejected(answer.message)
  {
    match answer
    case Values(values) =>
      if |values| == n then Resolved(values[i])
      else Rejected("Batch function must return an array of one result per key.")
    case NotArray => Rejected("Batch function must return an array of one result per key.")
    case Thrown(message) => Rejected(message)
  }

  /** The first `n` promises of a batch settled; only the first settlement of a promise has an effect. */
  function Shared<V>(
      settled: map<nat, Settlement<V>>, ids: seq<nat>, answer: Answer<V>, n: nat): map<nat, Settlement<V>>
    requires n <= |ids|
  {
    if n == 0 then settled
    else
      var before := Shared(settled, ids, answer, n - 1);
      if ids[n - 1] in before then before else before[ids[n - 1] := Share(answer, |ids|, n - 1)]
  }

  function Finished<K, V>(s: State<K, V>, batch: nat, answer: Answer<V>): State<K, V>
    requires batch < |s.batches|
  {
    var ids := s.batches[batch];
    s.(waiting := s.waiting - {batch}, settled := Shared(s.settled, ids, answer, |ids|),
      stage := Moved(s.stage, ids, Settled(batch)))
  }

  function KeysOf<K>(entries: seq<Entry<K>>, ids: seq<nat>): (r: seq<K>)
    requires forall i :: 0 <= i < |ids| ==> ids[i] < |entries|
    ensures |r| == |ids| && forall i :: 0 <= i < |ids| ==> r[i] == entries[ids[i]].key
  {
    seq(|ids|, i requires 0 <= i < |ids| => entries[ids[i]].key)
  }

  /** The answer of a batch function that works index by index. */
  function Map<K, V>(keys: seq<K>, f: K -> V): (r: seq<V>)
    ensures |r| == |keys| && forall i :: 0 <= i < |keys| ==> r[i] == f(keys[i])
  {
    seq(|keys|, i requires 0 <= i < |keys| => f(keys[i]))
  }

  predicate Answerable<K, V>(s: State<K, V>, batch: nat) {
    batch in s.waiting && batch < |s.batches| &&
      forall i :: 0 <= i < |s.batches[batch]| ==> s.batches[batch][i] < |s.entries|
  }

  function AnswerOf<K, V>(s: State<K, V>, batch: nat, answer: Option<Answer<V>>, f: K -> V): Answer<V>
    requires Answerable(s, batch)
  {
    match answer case Some(a) => a case None => Values(Map(KeysOf(s.entries, s.batches[batch]), f))
  }

  /** One event; a dispatch that is not scheduled and an answer that is not awaited do nothing. */
  function Step<K, V>(s: State<K, V>, e: Event<K, V>, f: K -> V): State<K, V> {
    match e
    case Load(key) => Loaded(s, key)
    case Clear => Cleared(s)
    case Dispatch => Dispatched(s)
    case Answered(batch, answer) =>
      if Answerable(s, batch) then Finished(s, batch, AnswerOf(s, batch, answer, f)) else s
  }

  function Run<K, V>(events: seq<Event<K, V>>, f: K -> V): State<K, V> {
    if events == [] then Start() else Step(Run(events[..|events| - 1], f), events[|events| - 1], f)
  }

  // ----- where each promise is -----

  ghost predicate NoRepeat(ids: seq<nat>) { forall i, j :: 0 <= i < j < |ids| ==> ids[i] != ids[j] }

  function Ids(ids: seq<nat>): (r: set<nat>)
    ensures forall id :: id in r <==> id in ids
  {
    set id | id in ids
  }

  /** A promise is queued, in flight in one batch, or settled by it. */
  ghost predicate Staged(stage: seq<Stage>, queue: seq<nat>, settled: set<nat>) {
    && NoRepeat(queue) && (forall i :: 0 <= i < |queue| ==> queue[i] < |stage| && stage[queue[i]] == Queued)
    && (forall id :: 0 <= id < |stage| && stage[id] == Queued ==> id in queue)
    && (forall id: nat :: id in settled <==> id < |stage| && stage[id].Settled?)
  }

  /** A promise is in the one batch it went into, and no longer in flight once that batch is settled. */
  ghost predicate Flying(stage: seq<Stage>, batches: seq<seq<nat>>) {
    && (forall b :: 0 <= b < |batches| ==> NoRepeat(batches[b]))
    && (forall b, i :: 0 <= b < |batches| && 0 <= i < |batches[b]| ==>
          batches[b][i] < |stage| && (stage[batches[b][i]] == InFlight(b) || stage[batches[b][i]] == Settled(b)))
    && (forall id :: 0 <= id < |stage| && stage[id].InFlight? ==>
        stage[id].batch < |batches| && id in batches[stage[id].batch])
  }

  /** The batch awaits its answer. */
  ghost predicate Open(stage: seq<Stage>, batches: seq<seq<nat>>, b: nat) {
    b < |batches| && forall i :: 0 <= i < |batches[b]| ==>
      batches[b][i] < |stage| && stage[batches[b][i]] == InFlight(b)
  }

  /** Every batch in flight is being awaited. */
  ghost predicate Awaited(stage: seq<Stage>, batches: seq<seq<nat>>, waiting: set<nat>) {
    && (forall w :: w in waiting ==> Open(stage, batches, w))
    && forall id :: 0 <= id < |stage| && stage[id].InFlight? ==> stage[id].batch in waiting
  }

  lemma StageLoad(stage: seq<Stage>, queue: seq<nat>, settled: set<nat>, batches: seq<seq<nat>>, waiting: set<nat>)
    requires Staged(stage, queue, settled) && Flying(stage, batches) && Awaited(stage, batches, waiting)
    ensures Staged(stage + [Queued], queue + [|stage|], settled) && Flying(stage + [Queued], batches)
    ensures Awaited(stage + [Queued], batches, waiting)
  {
  }

  lemma StageDispatch(stage: seq<Stage>, queue: seq<nat>, settled: set<nat>, batches: seq<seq<nat>>)
    requires Staged(stage, queue, settled) && Flying(stage, batches)
    ensures var after := Moved(stage, queue, InFlight(|batches|));
      && Staged(after, [], settled) && Flying(after, batches + [queue]) && Open(after, batches + [queue], |batches|)
      && forall b :: Open(stage, batches, b) ==> Open(after, batches + [queue], b)
  {
  }

  lemma AwaitDispatch(stage: seq<Stage>, after: seq<Stage>, batches: seq<seq<nat>>, queue: seq<nat>, waiting: set<nat>)
    requires Awaited(stage, batches, waiting) && after == Moved(stage, queue, InFlight(|batches|))
    requires forall b :: Open(stage, batches, b) ==> Open(after, batches + [queue], b)
    requires Open(after, batches + [queue], |batches|)
    ensures Awaited(after, batches + [queue], waiting + {|batches|})
  {
    hide Open;
  }

  lemma StageSettle(stage: seq<Stage>, queue: seq<nat>, settled: set<nat>, batches: seq<seq<nat>>, batch: nat)
    requires Staged(stage, queue, settled) && Flying(stage, batches) && Open(stage, batches, batch)
    ensures var after := Moved(stage, batches[batch], Settled(batch));
      && Staged(after, queue, settled + Ids(batches[batch])) && Flying(after, batches) && settled !! Ids(batches[batch])
      && forall b :: Open(stage, batches, b) && b != batch ==> Open(after, batches, b)
  {
  }

  lemma AwaitSettle(stage: seq<Stage>, after: seq<Stage>, batches: seq<seq<nat>>, waiting: set<nat>, batch: nat)
    requires Awaited(stage, batches, waiting) && Flying(stage, batches) && batch < |batches|
    requires after == Moved(stage, batches[batch], Settled(batch))
    requires forall b :: Open(stage, batches, b) && b != batch ==> Open(after, batches, b)
    ensures Awaited(after, batches, waiting - {batch})
  {
    hide Open;
  }

  /** No promise is in two batches, or in one batch twice. */
  lemma OneBatch(stage: seq<Stage>, batches: seq<seq<nat>>, b: nat, i: nat, c: nat, j: nat)
    requires Flying(stage, batches) && b < |batches| && i < |batches[b]| && c < |batches| && j < |batches[c]|
    ensures batches[b][i] == batches[c][j] <==> b == c && i == j
  {
  }

  // ----- which promise a key has -----

  /** A key is loaded once between two clears, and the cache holds that promise. */
  ghost predicate Cached<K>(entries: seq<Entry<K>>, cache: map<K, nat>, epoch: nat) {
    && (forall k :: k in cache ==> cache[k] < |entries| && entries[cache[k]] == Entry(k, epoch))
    && (forall id :: 0 <= id < |entries| ==> entries[id].epoch <= epoch)
    && (forall id :: 0 <= id < |entries| && entries[id].epoch == epoch ==>
        entries[id].key in cache && cache[entries[id].key] == id)
    && OncePerEpoch(entries)
  }

  ghost predicate OncePerEpoch<K>(entries: seq<Entry<K>>) {
    forall a, b :: 0 <= a < b < |entries| ==> entries[a] != entries[b]
  }

  lemma CacheLoad<K>(entries: seq<Entry<K>>, cache: map<K, nat>, epoch: nat, key: K)
    requires Cached(entries, cache, epoch) && key !in cache
    ensures Cached(entries + [Entry(key, epoch)], cache[key := |entries|], epoch)
  {
  }

  lemma CacheClear<K>(entries: seq<Entry<K>>, cache: map<K, nat>, epoch: nat)
    requires Cached(entries, cache, epoch)
    ensures Cached(entries, map[], epoch + 1)
  {
  }

  // ----- what promises are settled with -----

  ghost predicate SettledBy<V>(
      before: map<nat, Settlement<V>>, after: map<nat, Settlement<V>>, ids: seq<nat>, answer: Answer<V>) {
    && after.Keys == before.Keys + Ids(ids)
    && (forall id :: id in before ==> after[id] == before[id])
    && forall i :: 0 <= i < |ids| ==> after[ids[i]] == Share(answer, |ids|, i)
  }

  lemma {:induction false} SharedKeys<V>(
      settled: map<nat, Settlement<V>>, ids: seq<nat>, answer: Answer<V>, n: nat, id: nat)
    requires n <= |ids|
    ensures id in Shared(settled, ids, answer, n) <==> id in settled || id in ids[..n]
    ensures id in settled ==> Shared(settled, ids, answer, n)[id] == settled[id]
  {
    hide Share;
    if n > 0 {
      SharedKeys(settled, ids, answer, n - 1, id);
      assert ids[..n] == ids[..n - 1] + [ids[n - 1]];
    }
  }

  lemma {:induction false} SharedShare<V>(
      settled: map<nat, Settlement<V>>, ids: seq<nat>, answer: Answer<V>, n: nat, i: nat)
    requires NoRepeat(ids) && settled.Keys !! Ids(ids) && i < n <= |ids|
    ensures ids[i] in Shared(settled, ids, answer, n)
    ensures Shared(settled, ids, answer, n)[ids[i]] == Share(answer, |ids|, i)
  {
    hide Share;
    if i == n - 1 {
      SharedKeys(settled, ids, answer, n - 1, ids[i]);
      assert ids[i] in Ids(ids) && ids[i] !in ids[..n - 1];
    } else {
      SharedShare(settled, ids, answer, n - 1, i);
    }
  }

  /** A batch of unsettled promises is settled each with its own share. */
  lemma SharedOut<V>(settled: map<nat, Settlement<V>>, ids: seq<nat>, answer: Answer<V>)
    requires NoRepeat(ids) && settled.Keys !! Ids(ids)
    ensures SettledBy(settled, Shared(settled, ids, answer, |ids|), ids, answer)
  {
    hide Shared, Share, NoRepeat;
    var now := Shared(settled, ids, answer, |ids|);
    assert ids[..|ids|] == ids;
    forall id ensures id in now.Keys <==> id in settled.Keys + Ids(ids) {
      SharedKeys(settled, ids, answer, |ids|, id);
    }
    forall id | id in settled ensures now[id] == settled[id] {
      SharedKeys(settled, ids, answer, |ids|, id);
    }
    forall i | 0 <= i < |ids| ensures now[ids[i]] == Share(answer, |ids|, i) {
      SharedShare(settled, ids, answer, |ids|, i);
    }
  }

  /** Every promise settled so far gives what calling `f` on its key gives. */
  ghost predicate Direct<K, V>(entries: seq<Entry<K>>, settled: map<nat, Settlement<V>>, f: K -> V) {
    forall id :: id in settled ==> id < |entries| && settled[id] == Resolved(f(entries[id].key))
  }

  lemma SettleDirect<K, V>(
      entries: seq<Entry<K>>, before: map<nat, Settlement<V>>, after: map<nat, Settlement<V>>, ids: seq<nat>, f: K -> V)
    requires Direct(entries, before, f) && forall i :: 0 <= i < |ids| ==> ids[i] < |entries|
    requires SettledBy(before, after, ids, Values(Map(KeysOf(entries, ids), f)))
    ensures Direct(entries, after, f)
  {
    forall id | id in after ensures id < |entries| && after[id] == Resolved(f(entries[id].key)) {
      if id !in before {
        var i :| 0 <= i < |ids| && ids[i] == id;
      }
    }
  }

  // ----- what every run keeps -----

  ghost predicate Sound<K, V>(s: State<K, V>) {
    && Staged(s.stage, s.queue, s.settled.Keys) && Flying(s.stage, s.batches) && Awaited(s.stage, s.batches, s.waiting)
    && Cached(s.entries, s.cache, s.epoch) && |s.stage| == |s.entries| && (s.queue != [] <==> s.scheduled)
  }

  /** No promise already settled is settled again, and none changes. */
  ghost predicate Keeps<K, V>(s: State<K, V>, after: State<K, V>) {
    Sound(after) && s.entries <= after.entries &&
      forall id :: id in s.settled ==> id in after.settled && after.settled[id] == s.settled[id]
  }

  lemma LoadedKeeps<K, V>(s: State<K, V>, key: K)
    requires Sound(s)
    ensures Keeps(s, Loaded(s, key))
  {
    StageLoad(s.stage, s.queue, s.settled.Keys, s.batches, s.waiting);
    if key !in s.cache {
      CacheLoad(s.entries, s.cache, s.epoch, key);
    }
    hide Staged, Flying, Awaited, Cached;
  }

  lemma ClearedKeeps<K, V>(s: State<K, V>)
    requires Sound(s)
    ensures Keeps(s, Cleared(s))
  {
    CacheClear(s.entries, s.cache, s.epoch);
    hide Staged, Flying, Awaited, Cached;
  }

  lemma DispatchedKeeps<K, V>(s: State<K, V>)
    requires Sound(s)
    ensures Keeps(s, Dispatched(s))
  {
    StageDispatch(s.stage, s.queue, s.settled.Keys, s.batches);
    AwaitDispatch(s.stage, Moved(s.stage, s.queue, InFlight(|s.batches|)), s.batches, s.queue, s.waiting);
    hide Staged, Flying, Awaited, Cached;
  }

  /** An answer settles each promise of its batch now, and none of them was settled before. */
  lemma FinishedKeeps<K, V>(s: State<K, V>, batch: nat, answer: Answer<V>)
    requires Sound(s) && Answerable(s, batch)
    ensures Keeps(s, Finished(s, batch, answer)) && s.settled.Keys !! Ids(s.batches[batch])
    ensures SettledBy(s.settled, Finished(s, batch, answer).settled, s.batches[batch], answer)
  {
    var ids := s.batches[batch];
    StageSettle(s.stage, s.queue, s.settled.Keys, s.batches, batch);
    AwaitSettle(s.stage, Moved(s.stage, ids, Settled(batch)), s.batches, s.waiting, batch);
    SharedOut(s.settled, ids, answer);
    hide Staged, Flying, Awaited, Cached, Open, Shared, Share, Moved;
  }

  lemma StepKeeps<K, V>(s: State<K, V>, e: Event<K, V>, f: K -> V)
    requires Sound(s)
    ensures Keeps(s, Step(s, e, f))
  {
    assert Keeps(s, s);
    hide Sound, Keeps, Answerable;
    match e
    case Load(key) => LoadedKeeps(s, key);
    case Clear => ClearedKeeps(s);
    case Dispatch => DispatchedKeeps(s);
    case Answered(batch, answer) => if Answerable(s, batch) { FinishedKeeps(s, batch, AnswerOf(s, batch, answer, f)); }
  }

  /**
   * In any interleaving, whatever the batch function answers: no key is loaded
   * twice between clears, and once nothing is queued or awaited every promise
   * is settled.
   */
  lemma {:induction false} RunKeeps<K, V>(events: seq<Event<K, V>>, f: K -> V)
    ensures var s := Run(events, f);
      Sound(s) && OncePerEpoch(s.entries) &&
        (s.queue == [] && s.waiting == {} ==> forall id :: 0 <= id < |s.entries| ==> id in s.settled)
  {
    if events != [] {
      RunKeeps(events[..|events| - 1], f);
      hide Sound;
      StepKeeps(Run(events[..|events| - 1], f), events[|events| - 1], f);
    }
    AllSettled(Run(events, f));
  }

  lemma AllSettled<K, V>(s: State<K, V>)
    requires Sound(s)
    ensures OncePerEpoch(s.entries)
    ensures (s.queue == [] && s.waiting == {} ==> forall id :: 0 <= id < |s.entries| ==> id in s.settled)
  {
    if s.queue == [] && s.waiting == {} {
      forall id | 0 <= id < |s.stage| ensures s.stage[id].Settled? {
        assert s.stage[id].Queued? || s.stage[id].InFlight? || s.stage[id].Settled?;
      }
    }
  }

  /** The promise is in a batch in flight, and any answer of that batch settles it. */
  ghost predicate Underway<K, V(!new)>(s: State<K, V>, id: nat, f: K -> V) {
    exists b :: b in s.waiting && b < |s.batches| && id in s.batches[b] &&
      forall answer :: id in Step(s, Answered(b, answer), f).settled
  }

  /**
   * Every load is served: after any run, the dispatch that follows it leaves
   * nothing queued, and the promise of the key is settled, or waits for the
   * answer of one batch, which settles it.
   */
  lemma Served<K, V(!new)>(events: seq<Event<K, V>>, key: K, f: K -> V)
    ensures var s := Step(Step(Run(events, f), Load(key), f), Dispatch, f);
      && s.queue == [] && key in s.cache && s.cache[key] < |s.entries| && s.entries[s.cache[key]].key == key
      && (s.cache[key] in s.settled || Underway(s, s.cache[key], f))
  {
    RunKeeps(events, f);
    var before: State<K, V> := Run(events, f);
    StepKeeps(before, Load(key), f);
    var loaded := Step(before, Load(key), f);
    StepKeeps(loaded, Dispatch, f);
    var s := Step(loaded, Dispatch, f);
    assert Cached(loaded.entries, loaded.cache, loaded.epoch) && s.cache == loaded.cache && s.entries == loaded.entries;
    NothingLost(s, s.cache[key], f);
  }

  lemma NothingLost<K, V(!new)>(s: State<K, V>, id: nat, f: K -> V)
    requires Sound(s) && s.queue == [] && id < |s.entries|
    ensures id in s.settled || Underway(s, id, f)
  {
    assert s.stage[id].Queued? || s.stage[id].InFlight? || s.stage[id].Settled?;
    if s.stage[id].InFlight? {
      var b := s.stage[id].batch;
      assert Open(s.stage, s.batches, b);
      assert Answerable(s, b) && id in s.batches[b];
      hide Sound, Open, Step, Answerable;
      forall answer ensures id in Step(s, Answered(b, answer), f).settled {
        AnswerSettles(s, b, answer, id, f);
      }
    }
  }

  lemma AnswerSettles<K, V>(s: State<K, V>, b: nat, answer: Option<Answer<V>>, id: nat, f: K -> V)
    requires Sound(s) && Answerable(s, b) && id in s.batches[b]
    ensures id in Step(s, Answered(b, answer), f).settled
  {
    hide Sound, Shared, Moved, Share;
    FinishedKeeps(s, b, AnswerOf(s, b, answer, f));
    var i :| 0 <= i < |s.batches[b]| && s.batches[b][i] == id;
  }

  /**
   * With a batch function that works index by index, every promise settled in any interleaving gives what a direct call
   * gives.
   */
  lemma {:induction false} RunDirect<K, V>(events: seq<Event<K, V>>, f: K -> V)
    requires forall i :: 0 <= i < |events| && events[i].Answered? ==> events[i].answer == None
    ensures Direct(Run(events, f).entries, Run(events, f).settled, f)
  {
    if events != [] {
      var before, e := events[..|events| - 1], events[|events| - 1];
      var s: State<K, V> := Run(before, f);
      RunDirect(before, f);
      RunKeeps(before, f);
      hide Sound, SettledBy, Keeps;
      match e
      case Answered(batch, answer) =>
        if Answerable(s, batch) {
          FinishedKeeps(s, batch, AnswerOf(s, batch, answer, f));
          SettleDirect(s.entries, s.settled, Finished(s, batch, AnswerOf(s, batch, answer, f)).settled,
            s.batches[batch], f);
        }
      case _ =>
    }
  }

  // ----- the loader -----

  class BatchLoader<K(==), V> {
    var entries: seq<Entry<K>>
    var queue: seq<nat>
    var cache: map<K, nat>
    var scheduled: bool
    var batches: seq<seq<nat>>
    var waiting: set<nat>
    var settled: map<nat, Settlement<V>>
    var epoch: nat
    ghost var stage: seq<Stage>

    ghost function Now(): State<K, V>
      reads this
    {
      State(entries, queue, cache, scheduled, batches, waiting, settled, epoch, stage)
    }

    constructor ()
      ensures Now() == Start()
    {
      entries, queue, cache, scheduled, batches, waiting, settled := [], [], map[], false, [], {}, map[];
      epoch, stage := 0, [];
    }

    method LoadKey(key: K) returns (promise: nat)
      modifies this
      ensures Now() == Loaded(old(Now()), key) && key in cache && promise == cache[key]
    {
      if key in cache {
        return cache[key];
      }
      promise := |entries|;
      entries := entries + [Entry(key, epoch)];
      stage := stage + [Queued];
      queue := queue + [promise];
      cache := cache[key := promise];
      Schedule();
    }

    method Schedule()
      modifies this`scheduled
      ensures scheduled
    {
      if scheduled {
        return;
      }
      scheduled := true;
    }

    /** `clear`: later loads of a key make a new promise. */
    method ClearCache()
      modifies this`cache, this`epoch
      ensures Now() == Cleared(old(Now()))
    {
      cache := map[];
      epoch := epoch + 1;
    }

    /** The deferred dispatch; it hands the batch it takes to the batch function. */
    method StartDispatch() returns (batch: Option<nat>)
      requires scheduled
      modifies this
      ensures Now() == Dispatched(old(Now()))
      ensures batch == if old(queue) == [] then None else Some(|old(batches)|)
    {
      scheduled := false;
      var taken := queue;
      queue := [];
      if taken == [] {
        return None;
      }
      stage := Moved(stage, taken, InFlight(|batches|));
      waiting := waiting + {|batches|};
      batches := batches + [taken];
      return Some(|batches| - 1);
    }

    /** The answer has come: the promises of the batch are resolved each with its result, or all rejected. */
    method Settle(batch: nat, answer: Answer<V>)
      requires batch < |batches|
      modifies this
      ensures Now() == Finished(old(Now()), batch, answer)
    {
      var ids := batches[batch];
      waiting := waiting - {batch};
      stage := Moved(stage, ids, Settled(batch));
      var i := 0;
      ghost var start := Now();
      while i < |ids|
        invariant i <= |ids| && Now() == start.(settled := Shared(start.settled, ids, answer, i))
      {
        if ids[i] !in settled {
          settled := settled[ids[i] := Share(answer, |ids|, i)];
        }
        i := i + 1;
      }
    }

    method Do(e: Event<K, V>, f: K -> V)
      modifies this
      ensures Now() == Step(old(Now()), e, f)
    {
      match e {
        case Load(key) =>
          var promise := LoadKey(key);
        case Clear =>
          ClearCache();
        case Dispatch =>
          if scheduled { var batch := StartDispatch(); }
        case Answered(batch, answer) =>
          if batch in waiting && batch < |batches| &&
            forall i :: 0 <= i < |batches[batch]| ==> batches[batch][i] < |entries| {
            Settle(batch, if answer.Some? then answer.value else Values(Map(KeysOf(entries, batches[batch]), f)));
          }
      }
    }
  }

  /** Any interleaving of loads, clears, dispatches and answers, and its effect. */
  method Interleaving<K(==), V>(events: seq<Event<K, V>>, f: K -> V) returns (loader: BatchLoader<K, V>)
    ensures fresh(loader) && loader.Now() == Run(events, f)
  {
    loader := new BatchLoader();
    var i := 0;
    while i < |events|
      invariant fresh(loader) && i <= |events| && loader.Now() == Run(events[..i], f)
    {
      hide Step;
      assert events[..i + 1][..i] == events[..i];
      loader.Do(events[i], f);
      i := i + 1;
    }
    assert events[..|events|] == events;
  }
}
