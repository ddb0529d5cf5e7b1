# Emitter model

A Dafny model of the event emitter in `packages/core/src/common/utils/emitter.ts`. It covers three parts:

- **`Emitter<T>`**: a listener registry with option hooks, leak diagnostics, `fire`, `sequence` and `dispose`.
  - The subscribe closure returns a one-shot handle.
- **`WaitUntilEvent.fire`**: a one-tick extension protocol.
  - Listeners hand thenables to a `waitUntil` closure during a synchronous `fire`.
  - Afterwards the array is frozen and the closure removed.
- **`AsyncEmitter`**: serialises deliveries.
  - Each delivery walks a snapshot of the listeners.
  - Each listener gets its own `waitables` array.
  - Its batch is awaited before the next listener runs.
  - Failures are logged, not propagated.
  - A cancellation token is checked before each listener.

## Modules

| file | module | what it holds |
|---|---|---|
| `wrappers.dfy` | `Wrappers` | `Option` and `Outcome` (`Pass` / `Fail(error)`) |
| `callback_list.dfy` | `CallbackLists` | the registry as an ordered sequence of (callback, thisArg) pairs; removal of the first matching entry |
| `leaks.dfy` | `Leaks` | `_leakingStacks` as an insertion-ordered map; the `forEach` fold that picks the site to report; the threshold check and countdown |
| `events.dfy` | `Events` | the `waitables` array (class `Waitables`), the `waitUntil` closure (`Hook`), the caller's event object (class `Event`) |
| `emitter.dfy` | `Emitters` | class `Emitter`, class `Subscription` (the handle), and the synchronous walk of `fire` |
| `wait_until.dfy` | `WaitUntil` | `WaitUntilEvent.fire` |
| `async_emitter.dfy` | `AsyncEmitters` | the delivery loop (function `Run` and method `Deliver`); class `AsyncEmitter` with its FIFO of pending deliveries |

How the state is represented:

- **Mutable fields** (`_callbacks`, `_disposed`, `_leakingStacks`, `_leakWarnCountdown`, `deliveryQueue`, a handle's `dispose` slot) are fields of classes, updated by methods with `modifies` clauses.
- **Things the program prints or calls into** are appended to logs:
  - the option hooks and `console.warn`: `Emitter.notices`;
  - the `console.error` calls of the delivery loop: `Report.errors` and `AsyncEmitter.errors`.
- **Numbers:**
  - `maxListeners` and the countdown are `real`, so the reset to `maxListeners * 0.5` is exact: 87.5 for the default of 175.
  - Listener counts and leak counts are unbounded integers.

Where the code departs from what a reader may expect, the model follows the code:

- The subscribe closure creates the list whenever `_callbacks` is missing (lines 34-36). This includes after `dispose()`, so a disposed emitter accepts listeners again.
  - `_disposed` stays set, so handles of a disposed emitter never remove entries, including entries added after the dispose (line 49, `Emitter.Detach`).
- In `deliver`, a listener that throws skips `Object.freeze` (lines 249-253). The comment of line 250 says asynchronous `waitUntil` calls should fail, but this listener's array is left unfrozen (`AsyncEmitters.InvokeListener`).
- In `deliver`, the first listener that collects nothing ends the whole delivery (lines 257-259). This early return is kept as written (`AsyncEmitters.EmptyBatchEndsDelivery`).

## Model

| member | source | states |
|---|---|---|
| CallbackLists.Remove | packages/core/src/common/utils/emitter.ts:50 | `remove(listener, thisArgs)` removes the first entry equal to the pair and keeps the others in order. A list without the pair is returned unchanged. |
| CallbackLists.RemoveDropsOne | packages/core/src/common/utils/emitter.ts:50 | Removal takes away exactly one occurrence of the handle's own entry, if there is one, and nothing else (multiset difference). |
| Leaks.Adjust | packages/core/src/common/utils/emitter.ts:110-111 | `map.set(site, (map.get(site) \|\| 0) + delta)`. Only the count of `site` moves, by exactly `delta`. Other counts are unchanged. An existing key keeps its place and a new key goes last. The map stays duplicate-free. |
| Leaks.PopUndoesPush | packages/core/src/common/utils/emitter.ts:105-121 | Running the undo closure once after a push brings every count back to its previous value. |
| Leaks.Fold | packages/core/src/common/utils/emitter.ts:88-95 | After visiting at least one key, the fold holds a key that was visited, together with that key's count. |
| Leaks.FoldPicksEarliestMax | packages/core/src/common/utils/emitter.ts:88-95 | With no empty-string site, the fold settles on the earliest-inserted key whose count is maximal. |
| Leaks.MostFrequent | packages/core/src/common/utils/emitter.ts:88-95 | The `forEach` loop computes exactly the fold's result. The reported site is a key of the map and the reported count is its count. |
| Leaks.LeakCheck | packages/core/src/common/utils/emitter.ts:71-103 | With `maxListeners == 0`, no list, or at most `maxListeners` listeners, nothing changes: no undo, same map and countdown, no warning. Otherwise: only the site's count rises by one, and the undo names that site. A warning is printed iff the decremented countdown is `<= 0`, and then the countdown is reset to `maxListeners * 0.5`. Without a warning the countdown drops by exactly 1. The warning reports the listener count, the limit, and a site of the map with its count. |
| Leaks.WarningNamesEarliestMax | packages/core/src/common/utils/emitter.ts:86-99 | The site a warning names is the earliest-inserted site with the highest count, provided no site is the empty string. |
| Leaks.WarningsEveryHalfLimit | packages/core/src/common/utils/emitter.ts:82-86 | With an integer limit `m`, warnings come every `p = (m + 1) / 2` subscriptions past the limit. From `k` steps before the next warning, `n` subscriptions print `w` warnings with `w*p <= n+p-k < (w+1)*p`. |
| Leaks.FirstExcessWarnsThenEveryHalfLimit | packages/core/src/common/utils/emitter.ts:82-86 | From the initial countdown 0, the first subscription past the limit always warns, and after that every `(m + 1) / 2`-th one does. |
| Leaks.DefaultLimitWarnings | packages/core/src/common/utils/emitter.ts:82-86 | With the default limit 175, `n` subscriptions past the limit print `(n + 87) / 88` warnings. The 176th to 263rd listeners together print exactly one. |
| Events.CallWaitUntil | packages/core/src/common/utils/emitter.ts:183-188 | A `waitUntil` call on a frozen array fails with 'waitUntil cannot be called asynchronously.' and appends nothing. On an open array it appends the (joined) thenable. |
| Events.Waitables.Freeze | packages/core/src/common/utils/emitter.ts:193 | `Object.freeze(waitables)` (also line 251) closes the array: later `waitUntil` calls through the closure fail, and the collected thenables stay as they were. |
| Events.CallWaitUntilAll | packages/core/src/common/utils/emitter.ts:238-246 | Successive `waitUntil` calls on an open array append exactly the wrapped thenables, in call order. |
| Events.JoinedAllAt | packages/core/src/common/utils/emitter.ts:242-245 | In `deliver`, the `k`-th thenable a listener hands over is pushed as `promiseJoin(thenable, listener)` when a join is supplied, and as itself otherwise. |
| Emitters.Reached | packages/core/src/common/utils/emitter.ts:127-131 | The number of listeners a synchronous walk invokes. Every listener before the last invoked one returned normally. Stopping early means the last invoked one raised. If no listener raises, all are invoked. |
| Emitters.WalkThrowsIffSomeListenerRaises | packages/core/src/common/utils/emitter.ts:127-131 | The walk ends in an exception iff some listener of the snapshot raises (both directions). |
| Emitters.Walk | packages/core/src/common/utils/emitter.ts:127-131 | The loop of `fire`: it invokes a prefix of the snapshot in order. Only the last invoked listener may raise, and `threw` says whether it did. Without a raise it invokes the whole snapshot. The event's array gains exactly what the invoked listeners handed over, in order, and its frozen flag is unchanged. |
| Emitters.Invoke | packages/core/src/common/utils/emitter.ts:183-188 | One listener call: it raises iff the listener throws, or it calls `waitUntil` while the event offers no open array. Its thenables are appended only when the array is open. |
| Emitters.Emitter.Fire | packages/core/src/common/utils/emitter.ts:127-131 | `fire` invokes exactly `Reached` listeners of the current list, in order: all of them unless one raises. With no list it invokes nothing. The exception of the listener that raised reaches the caller. The attached array collects what the invoked listeners handed over. |
| Emitters.Emitter.Sequence | packages/core/src/common/utils/emitter.ts:137-145 | `sequence` visits a prefix of the list in order. Every visited listener but the last was answered `true`. It stops early only right after a result that is not `true`. It rejects iff the last result rejected. |
| Emitters.Emitter.constructor | packages/core/src/common/utils/emitter.ts:18-25 | A new emitter has no list, no leak map and no disposed flag. Its countdown starts at 0, so the first subscription past the limit warns. Its limit is the default threshold 175 (line 64). |
| Emitters.Emitter.Subscribe | packages/core/src/common/utils/emitter.ts:33-62 | The list becomes the old list (or an empty one) plus the new entry. `onFirstListenerAdd` runs exactly when the list was empty before the add. Leak state, countdown, undo and warning are those of `LeakCheck` on the new listener count. The handle is fresh, belongs to this emitter and entry, and has not been used. |
| Emitters.Emitter.AddListener | packages/core/src/common/utils/emitter.ts:34-40 | The list is created if missing and the entry appended. The first-listener hook is logged iff the list was empty. |
| Emitters.Emitter.CheckMaxListeners | packages/core/src/common/utils/emitter.ts:71-103 | The undo, the leak map, the countdown and the printed warning are exactly those of `LeakCheck`. |
| Emitters.Emitter.PushLeakingStack | packages/core/src/common/utils/emitter.ts:105-113 | Creates the map when missing and raises the site's count by one. Returns the site its undo closure pops. |
| Emitters.Emitter.PopLeakingStack | packages/core/src/common/utils/emitter.ts:115-121 | Without a map nothing happens. Otherwise the site's count drops by one. |
| Emitters.Emitter.Detach | packages/core/src/common/utils/emitter.ts:49-55 | On a disposed emitter, neither the list nor the log changes. Otherwise the entry is removed, and `onLastListenerRemove` runs exactly when the list is left empty. |
| Emitters.Emitter.Dispose | packages/core/src/common/utils/emitter.ts:147-157 | Drops the leak map and the list and sets the disposed flag. |
| Emitters.Subscription.Dispose | packages/core/src/common/utils/emitter.ts:44-56 | The first call pops the leak count of its site (if it had one), marks the handle spent, and detaches the entry as `Detach` says. Every later call changes nothing. |
| WaitUntil.Dispatch | packages/core/src/common/utils/emitter.ts:181-195 | A fresh array collects what the invoked listeners handed over. The fire throws iff some listener throws. The array is frozen iff the fire did not throw. The closure is removed in every case. |
| WaitUntil.Fire | packages/core/src/common/utils/emitter.ts:176-205 | An exception from `fire` propagates, and the array stays unfrozen. With nothing collected it returns without awaiting. Otherwise it settles by the timer when a timeout wins the race, else rejects iff some collected thenable rejects. The closure is removed in every case. |
| WaitUntil.FireThenCallLate | packages/core/src/common/utils/emitter.ts:183-186 | A listener that kept the `waitUntil` closure and calls it after `fire` returned normally gets 'waitUntil cannot be called asynchronously.'. After a `fire` that threw, the late call appends silently. |
| AsyncEmitters.DeliveryFollowsSnapshot | packages/core/src/common/utils/emitter.ts:232-265 | A delivery invokes a prefix of its snapshot, in order, each listener once. |
| AsyncEmitters.CancellationStopsDelivery | packages/core/src/common/utils/emitter.ts:233-235 | Once the token reports cancellation before the `j`-th listener, neither that listener nor any later one is invoked. |
| AsyncEmitters.DefaultTokenDeliversAll | packages/core/src/common/utils/emitter.ts:217-235 | With the default token `CancellationToken.None`, a delivery in which every listener collects something invokes the whole snapshot, whatever the listeners throw and however their batches settle. |
| AsyncEmitters.CancelledBeforeStart | packages/core/src/common/utils/emitter.ts:233-235 | With the token already cancelled, a delivery invokes nothing and logs nothing. |
| AsyncEmitters.FailuresDoNotStopDelivery | packages/core/src/common/utils/emitter.ts:248-264 | Throws and rejections do not end a delivery. Without cancellation, and with every listener collecting something, all listeners are invoked. |
| AsyncEmitters.EmptyBatchEndsDelivery | packages/core/src/common/utils/emitter.ts:257-259 | The first listener that collects nothing is the last one invoked in that delivery. |
| AsyncEmitters.ThrowsAreLogged | packages/core/src/common/utils/emitter.ts:248-256 | A synchronous throw is logged exactly for the invoked listeners that throw, and is never propagated. |
| AsyncEmitters.RejectionsAreLogged | packages/core/src/common/utils/emitter.ts:257-264 | A rejection is logged exactly for the invoked listeners that collected something and whose batch rejects. |
| AsyncEmitters.InvokeListener | packages/core/src/common/utils/emitter.ts:236-256 | The listener gets a fresh array. The array holds its thenables passed through the join. It is frozen iff the listener returned normally. The closure is deleted afterwards. |
| AsyncEmitters.Await | packages/core/src/common/utils/emitter.ts:260-264 | A rejection is logged iff some member of the batch rejects. |
| AsyncEmitters.Turn | packages/core/src/common/utils/emitter.ts:236-264 | One turn of the loop: a fresh array, frozen unless the listener threw; the throw log; and, when something was collected, the rejection log. |
| AsyncEmitters.Deliver | packages/core/src/common/utils/emitter.ts:230-266 | The loop of `deliver` computes exactly `Run`: the invoked listeners and the logged errors. A delivery that invokes no one leaves the event as it was. After any invoked listener, the last turn's `delete` has removed the `waitUntil` closure. |
| AsyncEmitters.AsyncEmitter.constructor | packages/core/src/common/utils/emitter.ts:212 | `deliveryQueue` starts undefined: nothing is queued, no ticket has been issued, nothing has been delivered or logged. The class invariant holds. |
| AsyncEmitters.AsyncEmitter.Fire | packages/core/src/common/utils/emitter.ts:217-228 | Without a list it resolves at once and queues nothing. Otherwise it snapshots the current list and queues the delivery after all earlier ones under the next ticket. Tickets stay in issue order. |
| AsyncEmitters.AsyncEmitter.RunNext | packages/core/src/common/utils/emitter.ts:224-227 | The oldest queued delivery runs to its end. It is marked completed, and its listener calls are appended after those of every earlier delivery, so in the model deliveries finish in `fire` order and never interleave. Its event keeps its `waitUntil` slot when no listener was invoked, and has lost it otherwise. |
| AsyncEmitters.SubscribeAfterFire | packages/core/src/common/utils/emitter.ts:219-223 | A listener subscribed after `fire` is not part of that delivery. The delivery runs over the list as it was when `fire` was called. |

## Left out

- `./event` is not part of this model. `CallbackList` is modelled as a sequence with append, removal of the first matching (callback, thisArg) pair, and iteration over a copy.
  - Whether `CallbackList.invoke` isolates listener exceptions is not visible in this source. The model lets an exception end the walk and reach the caller of `fire`.
  - `sequence` iterates over a snapshot as well.
  - `CallbackList.dispose()` (line 153) is modelled as dropping the list.
- Timers: the `setTimeout` race of line 201 is the input `timerFirst`, and the timeout's value is ignored.
- Promise timing: `Promise.all` is modelled as rejecting iff a member rejects.
- Promise scheduling is not modelled.
  - `deliveryQueue` is a FIFO of whole deliveries; `AsyncEmitter.RunNext` runs the oldest one to its end.
  - In the source, the first delivery starts inside `fire` and runs its first listener before `fire` returns. The model does not represent that interleaving.
- The cancellation token is the input `World.cancelledAt`: what `isCancellationRequested` reads before the `i`-th listener. Who cancels, and when, is outside the model.
- `new Error().stack` (line 109) is a caller-supplied site tag. The tag is a string, so the `!topStack` test of line 91 also replaces an empty-string site. `Leaks.FoldPicksEarliestMax` and `Leaks.WarningNamesEarliestMax` require that no site is the empty string.
- Console output is modelled only as log entries (`Notice`, `Failure`), without the message text.
- Not modelled: pushing the handle into the optional `disposables` array (lines 58-60), and caching the `event` function in `_event` (lines 32-33, 67-68).
- Listeners, thenables and payloads are opaque: listeners are (callback, thisArg) identities, and thenables are numbers. What a listener does is an input `Reaction` (its `waitUntil` calls, and whether it throws). Changes listeners make to the payload are not modelled.
- The processor of `sequence` is modelled by its settled value. Whether it answered synchronously or through a promise is not modelled.
- A late `event.waitUntil(...)` made through the event object after `fire` returned finds no property, because the `finally` of lines 194-196 (and 254-256) deletes it; the `TypeError` this throws is not modelled. Only a listener that kept the closure reaches the frozen check (`WaitUntil.FireThenCallLate`).
- AsyncEmitters.AsyncEmitter.RunNext: the model's listeners cannot call `fire`, so its no-interleaving guarantee covers only `fire` calls made outside listeners. In the source, a re-entrant `fire` from the first listener of the emitter's first delivery sees `deliveryQueue` still undefined, because line 227 assigns it only after `deliver` returned its promise. That second delivery then starts at once, alongside the first one. Line 227 then overwrites `deliveryQueue` with the first delivery's promise, so a later `fire` is chained after the first delivery only.
- Emitters.Subscription.Dispose: a handle on a live emitter whose list is missing cannot arise, because only `dispose()` drops the list and it also sets `_disposed`. The model treats that state as a no-op, where the source would fail on `this._callbacks!`.
- Emitters.Emitter.Fire: states the walk through `Reached` and `Walk`. That every listener is invoked when none raises is stated on `Reached`, not repeated on `Fire`.
- AsyncEmitters.Deliver: does not list the per-listener arrays it creates. Those facts (fresh, holding the joined batch, frozen unless the listener threw) are stated per turn on `AsyncEmitters.Turn` and `AsyncEmitters.InvokeListener`.
