/**
 * `ThrottledBatch` of website/js/batch.js: a queue of calls keyed by id, cut
 * into batches of at most `maxPerBatch` ids, batch `i` scheduled with delay
 * `i * waitTimeMs` milliseconds, and the replies merged into `results`.
 * The batch client, the timers and the promises are not modelled: a batch's
 * reply is the map handed to `Merge`.
 */
module ThrottledBatching {
  import opened Wrappers
  import opened Chunking
  import opened NumberKeys

  const DEFAULT_MAX_PER_BATCH: nat := 25
  const DEFAULT_WAIT_TIME_MS: nat := 1000

  /** One batch of the schedule: the ids it carries and its delay in milliseconds. */
  datatype Batch = Batch(delayMs: nat, ids: seq<string>)

  /** One batch request as handed to the batch client: each id with the call queued under it. */
  datatype Request<C> = Request(delayMs: nat, calls: seq<(string, C)>)

  /** `keys` is an enumeration of the queue's keys (`Object.keys(this.queue)`), in some order. */
  predicate EnumeratesKeys<C>(keys: seq<string>, queue: map<string, C>) {
    && Distinct(keys)
    && (forall k :: k in queue ==> k in keys)
    && (forall i :: 0 <= i < |keys| ==> keys[i] in queue)
  }

  /**
   * The schedule `execute` sets up for the enumerated `keys`: batch `i` is
   * chunk `i` of the keys, scheduled with delay `i * waitTimeMs` ms. A batch size of
   * zero makes `Array(Math.ceil(n / 0))` throw, which is `None`.
   */
  function Plan(keys: seq<string>, maxPerBatch: nat, waitTimeMs: nat): (plan: Option<seq<Batch>>)
    ensures plan.None? <==> maxPerBatch == 0
  {
    if maxPerBatch == 0 then None
    else
      var pieces := Chunk(keys, maxPerBatch);
      Some(seq(|pieces|, i requires 0 <= i < |pieces| => Batch(i * waitTimeMs, pieces[i])))
  }

  /** The ids of a schedule, batch by batch. */
  function IdsOf(plan: seq<Batch>): seq<seq<string>> {
    seq(|plan|, i requires 0 <= i < |plan| => plan[i].ids)
  }

  /** The schedule is the chunks of the keys, batch `i` scheduled with delay `i * waitTimeMs` ms. */
  lemma PlanIsChunks(keys: seq<string>, maxPerBatch: nat, waitTimeMs: nat, i: nat)
    requires maxPerBatch >= 1
    ensures |Plan(keys, maxPerBatch, waitTimeMs).value| == |Chunk(keys, maxPerBatch)|
    ensures i < |Chunk(keys, maxPerBatch)| ==>
      Plan(keys, maxPerBatch, waitTimeMs).value[i] == Batch(i * waitTimeMs, Chunk(keys, maxPerBatch)[i])
  {
  }

  /** There are ceil(|keys| / maxPerBatch) batches: enough for every key, and one fewer would not be. */
  lemma PlanCount(keys: seq<string>, maxPerBatch: nat, waitTimeMs: nat)
    requires maxPerBatch >= 1
    ensures var plan := Plan(keys, maxPerBatch, waitTimeMs).value;
      && |keys| <= |plan| * maxPerBatch
      && (|plan| == 0 || (|plan| - 1) * maxPerBatch < |keys|)
      && (keys == [] <==> plan == [])
  {
    PlanIsChunks(keys, maxPerBatch, waitTimeMs, 0);
    ChunkCount(keys, maxPerBatch);
  }

  /**
   * Batch `i` is scheduled with delay `i * waitTimeMs` ms, is non-empty and holds at
   * most `maxPerBatch` ids, exactly that many unless it is the last.
   */
  lemma PlanBatch(keys: seq<string>, maxPerBatch: nat, waitTimeMs: nat, i: nat)
    requires maxPerBatch >= 1
    requires i < |Plan(keys, maxPerBatch, waitTimeMs).value|
    ensures var plan := Plan(keys, maxPerBatch, waitTimeMs).value;
      && plan[i].delayMs == i * waitTimeMs
      && 1 <= |plan[i].ids| <= maxPerBatch
      && (i < |plan| - 1 ==> |plan[i].ids| == maxPerBatch)
  {
    PlanIsChunks(keys, maxPerBatch, waitTimeMs, i);
    ChunkPiece(keys, maxPerBatch, i);
  }

  /** The `k`-th id of batch `i` is the key at position `i * maxPerBatch + k`. */
  lemma PlanIdAt(keys: seq<string>, maxPerBatch: nat, waitTimeMs: nat, i: nat, k: nat)
    requires maxPerBatch >= 1
    requires i < |Plan(keys, maxPerBatch, waitTimeMs).value|
    requires k < |Plan(keys, maxPerBatch, waitTimeMs).value[i].ids|
    ensures i * maxPerBatch + k < |keys|
    ensures Plan(keys, maxPerBatch, waitTimeMs).value[i].ids[k] == keys[i * maxPerBatch + k]
  {
    PlanIsChunks(keys, maxPerBatch, waitTimeMs, i);
    ChunkPiece(keys, maxPerBatch, i);
  }

  /** Key `j` goes out in batch `j / maxPerBatch`, at position `j % maxPerBatch`. */
  lemma PlanSendsEveryKey(keys: seq<string>, maxPerBatch: nat, waitTimeMs: nat, j: nat)
    requires maxPerBatch >= 1
    requires j < |keys|
    ensures var plan := Plan(keys, maxPerBatch, waitTimeMs).value;
      && j / maxPerBatch < |plan|
      && j % maxPerBatch < |plan[j / maxPerBatch].ids|
      && plan[j / maxPerBatch].ids[j % maxPerBatch] == keys[j]
  {
    ChunkLocate(keys, maxPerBatch, j);
    PlanIsChunks(keys, maxPerBatch, waitTimeMs, j / maxPerBatch);
  }

  /** Of distinct keys, none is sent twice: an id occurs at one position of one batch only. */
  lemma PlanSendsOnce(keys: seq<string>, maxPerBatch: nat, waitTimeMs: nat, i: nat, k: nat, i': nat, k': nat)
    requires maxPerBatch >= 1 && Distinct(keys)
    requires var plan := Plan(keys, maxPerBatch, waitTimeMs).value;
      && i < |plan| && k < |plan[i].ids|
      && i' < |plan| && k' < |plan[i'].ids|
      && plan[i].ids[k] == plan[i'].ids[k']
    ensures i == i' && k == k'
  {
    PlanIsChunks(keys, maxPerBatch, waitTimeMs, i);
    PlanIsChunks(keys, maxPerBatch, waitTimeMs, i');
    ChunkPositionsDistinct(keys, maxPerBatch, i, k, i', k');
  }

  /** The batches, concatenated, are the keys in their enumeration order. */
  lemma PlanKeepsOrder(keys: seq<string>, maxPerBatch: nat, waitTimeMs: nat)
    requires maxPerBatch >= 1
    ensures Flatten(IdsOf(Plan(keys, maxPerBatch, waitTimeMs).value)) == keys
  {
    assert IdsOf(Plan(keys, maxPerBatch, waitTimeMs).value) == Chunk(keys, maxPerBatch);
    ChunkFlatten(keys, maxPerBatch);
  }

  /** With a positive wait, a later batch gets a strictly larger delay; with none, every delay is 0. */
  lemma PlanDelaysIncrease(keys: seq<string>, maxPerBatch: nat, waitTimeMs: nat, i: nat, j: nat)
    requires maxPerBatch >= 1
    requires i < j < |Plan(keys, maxPerBatch, waitTimeMs).value|
    ensures var plan := Plan(keys, maxPerBatch, waitTimeMs).value;
      && (waitTimeMs > 0 ==> plan[i].delayMs < plan[j].delayMs)
      && (waitTimeMs == 0 ==> plan[i].delayMs == plan[j].delayMs == 0)
  {
    var plan := Plan(keys, maxPerBatch, waitTimeMs).value;
    PlanIsChunks(keys, maxPerBatch, waitTimeMs, i);
    PlanIsChunks(keys, maxPerBatch, waitTimeMs, j);
    assert plan[i].delayMs == i * waitTimeMs && plan[j].delayMs == j * waitTimeMs;
    MulOrder(i, j, waitTimeMs);
  }

  lemma MulOrder(i: nat, j: nat, w: nat)
    requires i < j
    ensures w > 0 ==> i * w < j * w
    ensures w == 0 ==> i * w == j * w == 0
  {
    if w > 0 {
      MulMono(i + 1, j, w);
    }
  }

  /** The id `add` stores a call under: the explicit one, else the key count plus one, as a string. */
  function IdFor<C>(queue: map<string, C>, id: Option<string>): (key: string)
    ensures id.Some? ==> key == id.value
    ensures id.None? ==> key == Decimal(|queue| + 1) && ParseDecimal(key) == |queue| + 1
  {
    ParseDecimalOfDecimal(|queue| + 1);
    id.GetOr(Decimal(|queue| + 1))
  }

  /** The queue after `add(p, id)`: `queue[id] = p`, every other entry as it was. */
  function Enqueue<C>(queue: map<string, C>, p: C, id: Option<string>): (q: map<string, C>)
    ensures q.Keys == queue.Keys + {IdFor(queue, id)}
    ensures q[IdFor(queue, id)] == p
    ensures forall k :: k in queue && k != IdFor(queue, id) ==> q[k] == queue[k]
  {
    queue[IdFor(queue, id) := p]
  }

  /** The queue after adding `calls`, one by one and without ids, to an empty queue. */
  function AutoQueue<C>(calls: seq<C>): map<string, C> {
    if calls == [] then map[] else Enqueue(AutoQueue(calls[..|calls| - 1]), calls[|calls| - 1], None)
  }

  /** The keys "1" .. "k". */
  function AutoKeys(k: nat): set<string> {
    set i | 1 <= i <= k :: Decimal(i)
  }

  lemma AutoKeysStep(n: nat)
    requires n >= 1
    ensures AutoKeys(n) == AutoKeys(n - 1) + {Decimal(n)}
  {
    forall x | x in AutoKeys(n) ensures x in AutoKeys(n - 1) + {Decimal(n)} {
      var i :| 1 <= i <= n && x == Decimal(i);
      if i < n {
        assert x in AutoKeys(n - 1);
      }
    }
    forall x | x in AutoKeys(n - 1) ensures x in AutoKeys(n) {
      var i :| 1 <= i <= n - 1 && x == Decimal(i);
    }
  }

  /** From an empty queue, adds without ids use the keys "1" .. "k", call `i` under key "i". */
  lemma {:induction false} AutoQueueKeys<C>(calls: seq<C>)
    ensures AutoQueue(calls).Keys == AutoKeys(|calls|)
    ensures |AutoQueue(calls)| == |calls|
    ensures forall i :: 1 <= i <= |calls| ==> AutoQueue(calls)[Decimal(i)] == calls[i - 1]
  {
    if calls != [] {
      var n := |calls|;
      var prefix := calls[..n - 1];
      AutoQueueKeys(prefix);
      var q := AutoQueue(prefix);
      assert Decimal(n) !in q by {
        forall i | 1 <= i <= n - 1 ensures Decimal(i) != Decimal(n) {
          DecimalInjective(i, n);
        }
      }
      AutoKeysStep(n);
      assert AutoQueue(calls).Keys == q.Keys + {Decimal(n)};
      forall i | 1 <= i <= n ensures AutoQueue(calls)[Decimal(i)] == calls[i - 1] {
        if i < n {
          DecimalInjective(i, n);
        }
      }
    }
  }

  /**
   * When the auto-id is already taken (by an explicit id), `add` without an
   * id overwrites that entry and the queue does not grow, so the next add
   * without an id picks the same id again.
   */
  lemma AutoIdCollision<C>(queue: map<string, C>, p: C)
    requires Decimal(|queue| + 1) in queue
    ensures Enqueue(queue, p, None).Keys == queue.Keys
    ensures Enqueue(queue, p, None)[Decimal(|queue| + 1)] == p
    ensures IdFor(Enqueue(queue, p, None), None) == IdFor(queue, None)
  {
    var q := Enqueue(queue, p, None);
    assert q.Keys == queue.Keys;
    assert |q| == |q.Keys| == |queue.Keys| == |queue|;
  }

  /** `add(p1, "2")` then `add(p2)` on an empty queue: the auto-id is "2", p1 is lost. */
  lemma ExplicitTwoThenAuto<C>(p1: C, p2: C)
    ensures Enqueue(Enqueue(map[], p1, Some("2")), p2, None) == map["2" := p2]
  {
    var q := Enqueue(map[], p1, Some("2"));
    assert q == map["2" := p1];
    assert Decimal(|q| + 1) == "2";
  }

  /** The results map after `Object.assign(results, batchResult)`. */
  function Assign<R>(results: map<string, R>, batchResult: map<string, R>): (r: map<string, R>)
    ensures r.Keys == results.Keys + batchResult.Keys
    ensures forall k :: k in batchResult ==> r[k] == batchResult[k]
    ensures forall k :: k in results && k !in batchResult ==> r[k] == results[k]
  {
    results + batchResult
  }

  /** The results map after the replies `replies` were merged in, in that order. */
  function MergeAll<R>(results: map<string, R>, replies: seq<map<string, R>>): (merged: map<string, R>)
    ensures results.Keys <= merged.Keys
    ensures forall i :: 0 <= i < |replies| ==> replies[i].Keys <= merged.Keys
    ensures replies != [] ==> forall k :: k in replies[|replies| - 1] ==> merged[k] == replies[|replies| - 1][k]
  {
    if replies == [] then results else Assign(MergeAll(results, replies[..|replies| - 1]), replies[|replies| - 1])
  }

  /** After several merges a key is present iff it was present before or some reply holds it. */
  lemma {:induction false} MergeAllKeys<R>(results: map<string, R>, replies: seq<map<string, R>>, key: string)
    ensures key in MergeAll(results, replies) <==>
      key in results || exists i :: 0 <= i < |replies| && key in replies[i]
  {
    if replies != [] {
      var n := |replies|;
      var prefix := replies[..n - 1];
      MergeAllKeys(results, prefix, key);
      if key in MergeAll(results, replies) && key !in results {
        if key in replies[n - 1] {
        } else {
          var i :| 0 <= i < n - 1 && key in prefix[i];
          assert key in replies[i];
        }
      }
      if exists i :: 0 <= i < n && key in replies[i] {
        var i :| 0 <= i < n && key in replies[i];
        if i < n - 1 {
          assert key in prefix[i];
        }
      }
    }
  }

  /** A key that no reply holds keeps its value: merging never clears nor overwrites it. */
  lemma {:induction false} MergeAllUntouched<R>(results: map<string, R>, replies: seq<map<string, R>>, key: string)
    requires key in results
    requires forall i :: 0 <= i < |replies| ==> key !in replies[i]
    ensures key in MergeAll(results, replies) && MergeAll(results, replies)[key] == results[key]
  {
    if replies != [] {
      var n := |replies|;
      var prefix := replies[..n - 1];
      assert forall i :: 0 <= i < n - 1 ==> prefix[i] == replies[i];
      MergeAllUntouched(results, prefix, key);
    }
  }

  /** Later merges overwrite earlier ones: a key ends with the value of the last reply holding it. */
  lemma {:induction false} MergeAllLastWins<R>(results: map<string, R>, replies: seq<map<string, R>>, key: string, i: nat)
    requires i < |replies| && key in replies[i] && LastHolder(replies, i, key)
    ensures key in MergeAll(results, replies) && MergeAll(results, replies)[key] == replies[i][key]
  {
    var n := |replies|;
    if i < n - 1 {
      var prefix := replies[..n - 1];
      assert key !in replies[n - 1];
      assert prefix[i] == replies[i];
      assert LastHolder(prefix, i, key);
      MergeAllLastWins(results, prefix, key, i);
    }
  }

  /** No reply after the `i`-th holds `key`. */
  predicate LastHolder<R>(replies: seq<map<string, R>>, i: nat, key: string) {
    forall j :: i < j < |replies| ==> key !in replies[j]
  }

  /** Replies with disjoint ids give the same results whichever completes first. */
  lemma MergeOrderIrrelevant<R>(results: map<string, R>, a: map<string, R>, b: map<string, R>)
    requires a.Keys !! b.Keys
    ensures Assign(Assign(results, a), b) == Assign(Assign(results, b), a)
  {
    var ab, ba := Assign(Assign(results, a), b), Assign(Assign(results, b), a);
    assert forall k :: k in ab ==> ab[k] == ba[k];
  }

  /** Every id of the schedule of an enumeration of the queue is a key of the queue. */
  lemma PlanIdsQueued<C>(keys: seq<string>, maxPerBatch: nat, waitTimeMs: nat, queue: map<string, C>)
    requires maxPerBatch >= 1 && EnumeratesKeys(keys, queue)
    ensures IdsQueued(Plan(keys, maxPerBatch, waitTimeMs).value, queue)
  {
    var batches := Plan(keys, maxPerBatch, waitTimeMs).value;
    forall i, k | 0 <= i < |batches| && 0 <= k < |batches[i].ids|
      ensures batches[i].ids[k] in queue
    {
      PlanIdAt(keys, maxPerBatch, waitTimeMs, i, k);
    }
  }

  predicate IdsQueued<C>(batches: seq<Batch>, queue: map<string, C>) {
    forall i, k :: 0 <= i < |batches| && 0 <= k < |batches[i].ids| ==> batches[i].ids[k] in queue
  }

  /** The requests for a schedule: each batch's ids paired with the calls queued under them. */
  function Dispatch<C>(batches: seq<Batch>, queue: map<string, C>): (requests: seq<Request<C>>)
    requires IdsQueued(batches, queue)
    ensures |requests| == |batches|
    ensures forall i :: 0 <= i < |batches| ==>
      requests[i].delayMs == batches[i].delayMs && |requests[i].calls| == |batches[i].ids|
  {
    seq(|batches|, i requires 0 <= i < |batches| =>
      Request(batches[i].delayMs,
        seq(|batches[i].ids|, k requires 0 <= k < |batches[i].ids| =>
          (batches[i].ids[k], queue[batches[i].ids[k]]))))
  }

  /** Request `i` is scheduled with delay `i * waitTimeMs` ms and carries between 1 and `maxPerBatch` calls. */
  lemma DispatchTiming<C>(keys: seq<string>, maxPerBatch: nat, waitTimeMs: nat, queue: map<string, C>)
    requires maxPerBatch >= 1 && EnumeratesKeys(keys, queue)
    ensures IdsQueued(Plan(keys, maxPerBatch, waitTimeMs).value, queue)
    ensures var sent := Dispatch(Plan(keys, maxPerBatch, waitTimeMs).value, queue);
      forall i :: 0 <= i < |sent| ==>
        sent[i].delayMs == i * waitTimeMs && 1 <= |sent[i].calls| <= maxPerBatch
  {
    PlanIdsQueued(keys, maxPerBatch, waitTimeMs, queue);
    var sent := Dispatch(Plan(keys, maxPerBatch, waitTimeMs).value, queue);
    forall i | 0 <= i < |sent|
      ensures sent[i].delayMs == i * waitTimeMs && 1 <= |sent[i].calls| <= maxPerBatch
    {
      PlanBatch(keys, maxPerBatch, waitTimeMs, i);
    }
  }

  /** The call queued under key `j` goes out, with its id, in request `j / maxPerBatch`. */
  lemma DispatchSendsEveryKey<C>(keys: seq<string>, maxPerBatch: nat, waitTimeMs: nat, queue: map<string, C>)
    requires maxPerBatch >= 1 && EnumeratesKeys(keys, queue)
    ensures IdsQueued(Plan(keys, maxPerBatch, waitTimeMs).value, queue)
    ensures var sent := Dispatch(Plan(keys, maxPerBatch, waitTimeMs).value, queue);
      forall j :: 0 <= j < |keys| ==>
        && j / maxPerBatch < |sent|
        && j % maxPerBatch < |sent[j / maxPerBatch].calls|
        && sent[j / maxPerBatch].calls[j % maxPerBatch] == (keys[j], queue[keys[j]])
  {
    PlanIdsQueued(keys, maxPerBatch, waitTimeMs, queue);
    var batches := Plan(keys, maxPerBatch, waitTimeMs).value;
    var sent := Dispatch(batches, queue);
    forall j | 0 <= j < |keys|
      ensures j / maxPerBatch < |sent|
      ensures j % maxPerBatch < |sent[j / maxPerBatch].calls|
      ensures sent[j / maxPerBatch].calls[j % maxPerBatch] == (keys[j], queue[keys[j]])
    {
      PlanSendsEveryKey(keys, maxPerBatch, waitTimeMs, j);
      var i, k := j / maxPerBatch, j % maxPerBatch;
      assert sent[i].calls[k] == (batches[i].ids[k], queue[batches[i].ids[k]]);
    }
  }

  /** The ids of the requests, request by request. */
  function IdsSent<C>(requests: seq<Request<C>>): seq<seq<string>> {
    seq(|requests|, i requires 0 <= i < |requests| =>
      seq(|requests[i].calls|, k requires 0 <= k < |requests[i].calls| => requests[i].calls[k].0))
  }

  /** Every call sent is the call queued under the id it is sent with. */
  ghost predicate CallsQueued<C>(queue: map<string, C>, requests: seq<Request<C>>) {
    forall i, k :: 0 <= i < |requests| && 0 <= k < |requests[i].calls| ==>
      requests[i].calls[k].0 in queue && requests[i].calls[k].1 == queue[requests[i].calls[k].0]
  }

  /**
   * Conversely, nothing but the queue is sent: the ids of the requests,
   * concatenated, are the keys in their order (so each key goes out once),
   * and each goes out with the call queued under it.
   */
  lemma DispatchSendsOnlyKeys<C>(keys: seq<string>, maxPerBatch: nat, waitTimeMs: nat, queue: map<string, C>)
    requires maxPerBatch >= 1 && IdsQueued(Plan(keys, maxPerBatch, waitTimeMs).value, queue)
    ensures Flatten(IdsSent(Dispatch(Plan(keys, maxPerBatch, waitTimeMs).value, queue))) == keys
    ensures CallsQueued(queue, Dispatch(Plan(keys, maxPerBatch, waitTimeMs).value, queue))
  {
    DispatchIds(Plan(keys, maxPerBatch, waitTimeMs).value, queue);
    PlanKeepsOrder(keys, maxPerBatch, waitTimeMs);
  }

  /** The requests for a schedule carry its ids, each with the call queued under it. */
  lemma DispatchIds<C>(batches: seq<Batch>, queue: map<string, C>)
    requires IdsQueued(batches, queue)
    ensures IdsSent(Dispatch(batches, queue)) == IdsOf(batches)
    ensures CallsQueued(queue, Dispatch(batches, queue))
  {
    var sent := Dispatch(batches, queue);
    forall i | 0 <= i < |batches|
      ensures IdsSent(sent)[i] == IdsOf(batches)[i]
    {
      assert IdsSent(sent)[i] == batches[i].ids;
    }
  }

  class ThrottledBatch<C, R> {
    /** Never reassigned after construction. */
    const maxPerBatch: nat
    const waitTimeMs: nat
    /** Pending calls by id. */
    var queue: map<string, C>
    /** Replies by id, accumulated over every `execute`; never cleared. */
    var results: map<string, R>

    /** `new ThrottledBatch(maxPerBatch = 25, waitTimeMs = 1000)`. */
    constructor (maxPerBatch: Option<nat>, waitTimeMs: Option<nat>)
      ensures this.maxPerBatch == maxPerBatch.GetOr(DEFAULT_MAX_PER_BATCH)
      ensures this.waitTimeMs == waitTimeMs.GetOr(DEFAULT_WAIT_TIME_MS)
      ensures queue == map[] && results == map[]
    {
      this.maxPerBatch := maxPerBatch.GetOr(DEFAULT_MAX_PER_BATCH);
      this.waitTimeMs := waitTimeMs.GetOr(DEFAULT_WAIT_TIME_MS);
      queue := map[];
      results := map[];
    }

    /** `add(p, id)`: queue `p` under `id`, or under the key count plus one when no id is given. */
    method Add(p: C, id: Option<string>)
      modifies this`queue
      ensures queue == Enqueue(old(queue), p, id)
    {
      queue := queue[IdFor(queue, id) := p];
    }

    /**
     * The batch requests `execute` sends for the enumeration `keys` of the
     * queue: request `i` carries the calls of batch `i` of the schedule, each
     * with its id, and is scheduled with delay `i * waitTimeMs` ms. `None` is the
     * throw of a zero batch size.
     */
    method Execute(keys: seq<string>) returns (requests: Option<seq<Request<C>>>)
      requires EnumeratesKeys(keys, queue)
      ensures requests.None? <==> maxPerBatch == 0
      ensures requests.Some? ==>
        && |keys| <= |requests.value| * maxPerBatch
        && (|requests.value| - 1) * maxPerBatch < |keys|
      ensures requests.Some? ==> forall i :: 0 <= i < |requests.value| ==>
        && requests.value[i].delayMs == i * waitTimeMs
        && 1 <= |requests.value[i].calls| <= maxPerBatch
      ensures requests.Some? ==> forall j :: 0 <= j < |keys| ==>
        && j / maxPerBatch < |requests.value|
        && j % maxPerBatch < |requests.value[j / maxPerBatch].calls|
        && requests.value[j / maxPerBatch].calls[j % maxPerBatch] == (keys[j], queue[keys[j]])
      ensures requests.Some? ==> Flatten(IdsSent(requests.value)) == keys && CallsQueued(queue, requests.value)
    {
      var plan := Plan(keys, maxPerBatch, waitTimeMs);
      if plan.None? {
        return None;
      }
      PlanIdsQueued(keys, maxPerBatch, waitTimeMs, queue);
      var sent := Dispatch(plan.value, queue);
      PlanCount(keys, maxPerBatch, waitTimeMs);
      DispatchTiming(keys, maxPerBatch, waitTimeMs, queue);
      DispatchSendsEveryKey(keys, maxPerBatch, waitTimeMs, queue);
      DispatchSendsOnlyKeys(keys, maxPerBatch, waitTimeMs, queue);
      requests := Some(sent);
    }

    /** A batch's reply: `Object.assign(this.results, batchResult.result)`. */
    method Merge(batchResult: map<string, R>)
      modifies this`results
      ensures results == Assign(old(results), batchResult)
    {
      results := results + batchResult;
    }
  }
}
