# ThrottledBatch and persistentCoalesce, modelled in Dafny

This project models the logic of `website/js/batch.js` from pledgejs. The file holds two independent browser-side utilities:

- **ThrottledBatch** (`throttled_batch.dfy`, `chunk.dfy`, `decimal.dfy`) holds a queue of pending calls keyed by id. `execute` cuts the queue's keys into consecutive batches of at most `maxPerBatch` ids (`chunk`). Batch `i` is scheduled with delay `i * waitTimeMs` ms. Every batch's reply is merged into `results` with `Object.assign`.
  - The class `ThrottledBatch` keeps `queue` and `results` as map fields.
  - `Add` updates the queue in place. `Merge` updates the results in place.
  - `Execute` returns the batch requests it would send. Each request pairs an id with its queued call and carries its delay.
  - The schedule is the pure function `Plan(keys, maxPerBatch, waitTimeMs)`. The keys are the given enumeration of the queue (`Object.keys`).
  - Ids are object keys, so they are strings. The auto-id `Object.keys(queue).length + 1` becomes its decimal string (`Decimal`). This makes a collision with an explicit id `"2"` visible.
- **persistentCoalesce** (`coalesce.dfy`) takes a list of nullable strings. The module-level lookup table becomes the `lookup` field of the class `Coalescer`.
  - `Coalesce` runs the two loops of the source. The scan loop records every non-null argument as an alias of the first one. The roll-up loop then follows redirects to a value that maps to itself, and throws on hop 1001 if no such value has been reached.
  - The method's contract ties it to two pure functions:
    - `Record` is the table after the scan.
    - `Resolve` is a closed form of the roll-up: the value `Walk` reaches in 1000 hops if that is a root, otherwise the throw on hop 1001.
  - The throw is the outcome `FatalLoop(value, table)`. The table writes made before the throw persist.

What the proofs establish:
- `chunk` yields `ceil(|arr|/n)` non-empty pieces of at most `n` elements. Every piece except the last is full, and the pieces concatenate back to `arr`.
- The schedule sends every key once, in order. Delays strictly increase when `waitTimeMs > 0`.
- Adds without an id start from an empty queue and use keys "1".."k".
- Merging is last-write-wins and never clears `results`.
- The coalescing table keeps the invariant "every value is a key". A normal non-null result `r` satisfies `table[r] == r`.
- A call with an alias recorded by an earlier call changes nothing and resolves like that call's first value, provided the first value's chain reaches a root within 999 hops. When the chain needs exactly 1000 hops, the alias's call, one hop longer, throws.
- Two ordinary calls build a two-element loop that makes the roll-up throw.

## Behaviour to know

- A first non-null argument with no entry gets a self-entry on the same call (website/js/batch.js:92-93).
- Ordinary calls can build a cycle. `coalesce(a, b)` followed by `coalesce(b, a)` leaves a→b and b→a, and the second call throws (`ExampleLoop`). The source comment "Don't make loops" (website/js/batch.js:77) therefore does not hold. The throw comes after the table writes, which stay.
- Two `add` calls without an id can get the same id. After `add(p, "2")` on an empty queue, the next add without an id also uses `"2"`. It overwrites `p`, the queue does not grow, and the add after it picks `"2"` again (`ExplicitTwoThenAuto`, `AutoIdCollision`).
- A failing batch does not make `execute` fail. The batch promise has no rejection handler, so `execute` never settles.
- `execute` does not drain the queue, so a second `execute` sends every queued call again. `results` keeps every earlier reply (`MergeAllUntouched`), and a reply can add keys that were never queued (`MergeAllKeys`).

## Model

| member | source | states |
|---|---|---|
| Chunking.Chunk | website/js/batch.js:64-67 | `chunk(arr, n)`: piece `i` is the slice from `i*n` to `i*n + n`, clamped at the end; there are ceil(`|arr|` / `n`) pieces (contents stated by `ChunkPiece`, `ChunkFlatten`) |
| Chunking.CeilDiv | website/js/batch.js:66 | the piece count `q` is the ceiling of `a / n`: `a <= q * n < a + n` |
| Chunking.ChunkCount | website/js/batch.js:64-67 | `chunk` gives enough pieces to hold the input and one fewer would not; an empty input gives no pieces and only it does |
| Chunking.ChunkPiece | website/js/batch.js:66 | piece `i` is non-empty, has at most `n` elements, exactly `n` unless last, the last one ends at the input's end, and its element `k` is input element `i*n + k` |
| Chunking.ChunkLocate | website/js/batch.js:66 | input element `j` is element `j % n` of piece `j / n` |
| Chunking.ChunkFlatten | website/js/batch.js:64-67 | concatenating the pieces gives back the input in its original order |
| Chunking.FlattenPrefix | website/js/batch.js:66 | the first `k` pieces concatenate to the first `min(k*n, len)` input elements |
| Chunking.ChunkPositionsDistinct | website/js/batch.js:66 | with distinct elements, an element sits at one position of one piece only |
| NumberKeys.Decimal | website/js/batch.js:54 | the key string of a number is a non-empty run of decimal digits without a leading zero |
| NumberKeys.ParseDecimalOfDecimal | website/js/batch.js:54 | reading the key string back gives the number |
| NumberKeys.DecimalInjective | website/js/batch.js:54-55 | two numbers give the same key string iff they are equal |
| ThrottledBatching.Plan | website/js/batch.js:23 | the schedule fails (the `Array` length throw) iff `maxPerBatch` is zero |
| ThrottledBatching.PlanCount | website/js/batch.js:23 | there are ceil(keys / maxPerBatch) batches, none for no keys |
| ThrottledBatching.PlanBatch | website/js/batch.js:23-39 | batch `i` is scheduled with delay `i * waitTimeMs` ms and holds 1..maxPerBatch ids, exactly maxPerBatch unless last |
| ThrottledBatching.PlanIdAt | website/js/batch.js:23-31 | the `k`-th id of batch `i` is the key at position `i * maxPerBatch + k` |
| ThrottledBatching.PlanSendsEveryKey | website/js/batch.js:23-33 | key `j` is sent in batch `j / maxPerBatch` at position `j % maxPerBatch` |
| ThrottledBatching.PlanSendsOnce | website/js/batch.js:23-33 | with distinct keys, no id is sent in two batches or twice in one |
| ThrottledBatching.PlanKeepsOrder | website/js/batch.js:23 | the batches' ids concatenate to the keys in their enumeration order |
| ThrottledBatching.PlanDelaysIncrease | website/js/batch.js:26-39 | a later batch is scheduled with a strictly larger delay when `waitTimeMs > 0`, and all with delay 0 otherwise |
| ThrottledBatching.IdFor | website/js/batch.js:54 | the id `add` uses: the given one, else the key count plus one rendered as its decimal key string, which reads back as that number |
| ThrottledBatching.Enqueue | website/js/batch.js:54-55 | `add` sets `queue[id] = p` (the auto-id when none is given) and leaves every other entry alone |
| ThrottledBatching.AutoKeysStep | website/js/batch.js:54 | the auto-keys up to `n` are those up to `n - 1` plus the key of `n` |
| ThrottledBatching.AutoQueueKeys | website/js/batch.js:54-55 | from an empty queue, `k` adds without ids use exactly the keys "1".."k", call `i` under key "i" |
| ThrottledBatching.AutoIdCollision | website/js/batch.js:54-55 | when the auto-id is already a key, `add` overwrites that entry, the queue does not grow and the next auto-id is the same |
| ThrottledBatching.ExplicitTwoThenAuto | website/js/batch.js:54-55 | `add(p1, "2")` then `add(p2)` on an empty queue leaves only `"2"` → `p2` |
| ThrottledBatching.Assign | website/js/batch.js:36 | the merge sets each returned key to its returned value, keeps every other key's value and removes nothing |
| ThrottledBatching.MergeAll | website/js/batch.js:36 | repeated merges keep every key present before and every key of each reply, and the last reply's values win for its keys |
| ThrottledBatching.MergeAllKeys | website/js/batch.js:18-36 | after several merges a key is present iff it was before or some reply holds it |
| ThrottledBatching.MergeAllUntouched | website/js/batch.js:18-36 | a key no reply holds keeps its value: results are never cleared between merges or `execute` calls |
| ThrottledBatching.MergeAllLastWins | website/js/batch.js:36 | a later merge overwrites an earlier one: a key ends with the value of the last reply holding it |
| ThrottledBatching.MergeOrderIrrelevant | website/js/batch.js:25-45 | replies with disjoint ids give the same results whichever batch completes first |
| ThrottledBatching.PlanIdsQueued | website/js/batch.js:23-31 | every id the schedule sends is a key of the queue |
| ThrottledBatching.Dispatch | website/js/batch.js:30-33 | one request per batch, with the batch's delay and one call per id |
| ThrottledBatching.DispatchTiming | website/js/batch.js:26-39 | request `i` is scheduled with delay `i * waitTimeMs` ms and carries 1..maxPerBatch calls |
| ThrottledBatching.DispatchSendsEveryKey | website/js/batch.js:30-33 | the call queued under key `j` is sent, with its id, in request `j / maxPerBatch` |
| ThrottledBatching.DispatchSendsOnlyKeys | website/js/batch.js:23-33 | conversely, the ids of all requests, concatenated, are the keys in their order, so no id is sent twice or from outside the queue, and each goes out with the call queued under it |
| ThrottledBatching.DispatchIds | website/js/batch.js:30-31 | the requests carry the schedule's ids batch by batch, each with the call queued under it |
| ThrottledBatching.ThrottledBatch.constructor | website/js/batch.js:14-19 | `maxPerBatch` defaults to 25 and `waitTimeMs` to 1000; queue and results start empty |
| ThrottledBatching.ThrottledBatch.Add | website/js/batch.js:53-56 | the new queue is `Enqueue` of the old one, results untouched |
| ThrottledBatching.ThrottledBatch.Execute | website/js/batch.js:22-39 | the requests sent: none iff `maxPerBatch` is zero, otherwise ceil(keys/maxPerBatch) of them, request `i` scheduled with delay `i * waitTimeMs` ms and 1..maxPerBatch calls, key `j`'s call in request `j / maxPerBatch`; the ids sent, concatenated, are exactly the keys in order, each with its queued call |
| ThrottledBatching.ThrottledBatch.Merge | website/js/batch.js:36 | the new results are `Assign` of the old results and the reply |
| Coalescing.FirstOk | website/js/batch.js:85-90 | the first value is null iff every argument is null, and otherwise is one of the arguments |
| Coalescing.FirstOkAt | website/js/batch.js:86-90 | the first value is the argument at the first non-null position |
| Coalescing.FirstOkSnoc | website/js/batch.js:86-90 | one more argument changes the first value only if it was still null |
| Coalescing.Step | website/js/batch.js:87-94 | one scan iteration: a null argument changes nothing, a non-null one becomes a key and no key is removed |
| Coalescing.StepValues | website/js/batch.js:91-94 | the argument maps to the first value unless it is the first value and already has an entry, which it keeps; every other entry is unchanged |
| Coalescing.Redirect | website/js/batch.js:86-96 | the scan with a fixed first value keeps every key and adds every non-null argument as a key |
| Coalescing.Record | website/js/batch.js:84-96 | the table after the scan: unchanged when every argument is null, no key removed, every non-null argument a key |
| Coalescing.ScanPrefix | website/js/batch.js:86-96 | one more iteration of the scan loop updates the first value and the table by one `Step` |
| Coalescing.RedirectNulls | website/js/batch.js:87 | null arguments write nothing |
| Coalescing.RecordSnoc | website/js/batch.js:86-96 | one more iteration of the scan loop is one `Step` with the first value |
| Coalescing.RedirectAt | website/js/batch.js:91-94 | per key: present iff it was or is an argument; an argument other than the first maps to the first; the first keeps its entry or maps to itself; others unchanged |
| Coalescing.RecordAt | website/js/batch.js:84-96 | with only nulls the table is unchanged; otherwise the other non-null arguments map to the first, the first keeps its entry or gets a self-entry, no other key changes and no key is removed |
| Coalescing.RecordKeepsValuesAreKeys | website/js/batch.js:88-93 | the scan keeps "every value stored is a key" |
| Coalescing.Walk | website/js/batch.js:99-101 | `k` hops of the roll-up end at the start or at a value stored in the table |
| Coalescing.WalkSplit | website/js/batch.js:99-101 | `a + b` roll-up hops are `a` hops then `b` more |
| Coalescing.WalkFromRoot | website/js/batch.js:99 | the roll-up never leaves a value that maps to itself or to nothing |
| Coalescing.WalkInKeys | website/js/batch.js:99-100 | when every value is a key, the roll-up from a key stays among keys |
| Coalescing.Resolve | website/js/batch.js:98-106 | the roll-up's outcome: null exactly for a null first value, a normal result is a root, and a throw carries the table and a value stored in it |
| Coalescing.ResolveAtRoot | website/js/batch.js:98-106 | a root reached within 1000 hops is the value returned |
| Coalescing.ResolvePastCap | website/js/batch.js:100-104 | without a root after 1000 hops, the roll-up throws with the value `Walk` reaches on hop 1001, and the table |
| Coalescing.ResolveReturnsIff | website/js/batch.js:98-106 | the roll-up returns iff a root is reached within 1000 hops, and it returns that root; otherwise it throws on hop 1001 |
| Coalescing.CoalesceResult | website/js/batch.js:84-107 | the result is null iff every argument is null; a normal non-null result `r` satisfies `table[r] == r` in the table left behind |
| Coalescing.AliasResolvesAlike | website/js/batch.js:72-76 | after a call, calling with an alias changes nothing and ends where the first value does (when its chain is under the cap by a hop) |
| Coalescing.RecordOne | website/js/batch.js:92-93 | a single non-null argument gets a self-entry if it had none, else nothing changes |
| Coalescing.CoalesceTwiceSame | website/js/batch.js:92-93 | calling with the same single value twice: the second call changes nothing |
| Coalescing.AliasPastCap | website/js/batch.js:98-104 | when the first value's chain has no root within 999 hops, a later call with an alias (one hop longer) throws |
| Coalescing.ExampleSameValueTwice | website/js/batch.js:84-107 | from an empty table, `x` is recorded as x→x and returns `x`; a second call leaves the table as it is and returns `x` again |
| Coalescing.ExampleAliases | website/js/batch.js:76 | `null, a, b, c` returns `a` and records b→a, c→a; then `b` and `c` each return `a` |
| Coalescing.WalkTwoCycle | website/js/batch.js:99-101 | along a two-element loop, even hops are back at the start and odd hops at the other value |
| Coalescing.ExampleLoop | website/js/batch.js:77-104 | `a, b` then `b, a` leaves a→b and b→a, the second roll-up throws at `a` on hop 1001, and the table still has every value as a key |
| Coalescing.Coalescer.constructor | website/js/batch.js:70 | the table starts empty |
| Coalescing.Coalescer.Coalesce | website/js/batch.js:84-107 | the new table is `Record` of the old one (writes persist even when it throws), the outcome is `Resolve` of it, and "every value is a key" is preserved |

## Left out

- The batch client (`gapi.client.newBatch`, `gbatch.add`, `gbatch.then`) is a foreign API with an unknown wire protocol. A batch reply is the map handed to `Merge`.
- `setTimeout`, `Promise.all` and the order in which batches complete are asynchronous scheduling. Only the computed delay `i * waitTimeMs` is kept, as data. The effect of any completion order on `results` is covered by `MergeAll` and its lemmas.
- Error propagation from a failing batch is not modelled. The code has no rejection handler, so such an `execute` never settles.
- `console.info`/`console.error` logging and `toString` are diagnostics only.
- `Object.keys` enumeration order (integer-like keys first, ascending) is taken as the given `keys` sequence. `Execute` requires that `keys` list the queue's keys without repetition.
- Chunking.Chunk: requires `n >= 1` and uses integer ceiling division in place of floating-point `Math.ceil`. A zero batch size is modelled one level up, as `Plan`/`Execute` returning `None` for the `Array` length throw. Negative, fractional or non-numeric sizes and delays are not modelled: both are `nat`.
- ThrottledBatching.ThrottledBatch.Execute: the calls are read from the queue when `execute` is called. The source reads `this.queue[id]` inside each batch's timer callback (website/js/batch.js:28-31), so an `add` under an already enumerated id before a batch fires changes what that batch sends. Only the key enumeration (website/js/batch.js:23) is taken at call time in both.
- Coalescing.Coalesce: the key `"__proto__"` is not an ordinary key in the source. Assigning a string to `persistentCoalesceLookup["__proto__"]` is silently ignored, and `hasOwnProperty("__proto__")` stays false, but the model records the entry like any other.
- ThrottledBatching.ThrottledBatch.Add, ThrottledBatching.ThrottledBatch.Merge: `add(p, "__proto__")` and a reply holding `"__proto__"` set an object's prototype in the source instead of adding an entry; the model treats `"__proto__"` as an ordinary key.
- Coalescing.Coalesce: storing the key `"hasOwnProperty"` shadows the method in the source, so the next `persistentCoalesceLookup.hasOwnProperty(...)` call (website/js/batch.js:92 or 99), in this call or a later one, throws a TypeError. The model has no such failure.
- Coalescing.Coalesce: `hasOwnProperty(null)` coerces `null` to the key `"null"`. The model treats a null first value as not in the table, so a table entry for the string `"null"` is not followed when every argument is null. `undefined` arguments (which pass the `!== null` test) are not modelled either.
- The thrown message is kept as its data (the value reached and the table), not as the formatted string with `JSON.stringify`.
