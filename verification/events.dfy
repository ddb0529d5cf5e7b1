/**
 * The pieces of the wait-until protocol shared by `WaitUntilEvent.fire` and
 * `AsyncEmitter.deliver` (emitter.ts, lines 160-205 and 236-256): the `waitables`
 * array with its frozen flag, the `waitUntil` closure attached to the caller's
 * event object, and what a listener does with it.
 */
module Events {
  import opened Wrappers
  import opened CallbackLists

  /** Identity of a promise handed to `waitUntil`. */
  type Thenable = nat

  /** The optional `promiseJoin(thenable, listener)` of `AsyncEmitter.fire`. */
  type Join = (Thenable, Listener) -> Thenable

  /** The message of the error a late `waitUntil` call throws (lines 185 and 240). */
  const AsyncMisuse := "waitUntil cannot be called asynchronously."

  /**
   * What one listener invocation does: it calls `event.waitUntil` with each of `waits`,
   * in order, and then throws if `throws`. A `waitUntil` call that throws ends the
   * invocation with that error.
   */
  datatype Reaction = Reaction(waits: seq<Thenable>, throws: bool)

  /** A `waitables` array; `frozen` records that `Object.freeze` was applied to it. */
  class Waitables {
    var items: seq<Thenable>
    var frozen: bool

    /** `const waitables = []` */
    constructor ()
      ensures items == [] && !frozen
    {
      items := [];
      frozen := false;
    }

    /** `Object.freeze(waitables)`: later appends through the closure fail. */
    method Freeze()
      modifies this
      ensures frozen && items == old(items)
    {
      frozen := true;
    }
  }

  /** The `waitUntil` closure: the array it appends to and how it wraps what it is given. */
  datatype Hook =
    | Collect(sink: Waitables)
      // WaitUntilEvent.fire, lines 183-188
    | CollectJoined(sink: Waitables, join: Option<Join>, owner: Listener)
      // AsyncEmitter.deliver, lines 238-246: `owner` is the listener being delivered to

  /** `promiseJoin(t, owner)` when a join was supplied, `t` itself otherwise (lines 242-244). */
  function Joined(join: Option<Join>, owner: Listener, t: Thenable): Thenable
  {
    if join.Some? then join.value(t, owner) else t
  }

  /** `Joined` applied to each of `ts`. */
  function JoinedAll(join: Option<Join>, owner: Listener, ts: seq<Thenable>): (r: seq<Thenable>)
    ensures |r| == |ts|
  {
    if ts == [] then [] else [Joined(join, owner, ts[0])] + JoinedAll(join, owner, ts[1..])
  }

  /** What the closure appends for `t`. */
  function Wrapped(h: Hook, t: Thenable): Thenable
  {
    if h.CollectJoined? then Joined(h.join, h.owner, t) else t
  }

  /** The appends of a run of `waitUntil` calls that all succeed: joined in `deliver`, as given otherwise. */
  function WrappedAll(h: Hook, ts: seq<Thenable>): (r: seq<Thenable>)
    ensures |r| == |ts|
  {
    if h.CollectJoined? then JoinedAll(h.join, h.owner, ts) else ts
  }

  /**
   * Calling the closure with `t`: on a frozen array it throws `AsyncMisuse` and
   * appends nothing; otherwise it appends the (possibly joined) thenable.
   */
  method CallWaitUntil(h: Hook, t: Thenable) returns (r: Outcome)
    modifies h.sink
    ensures r == if old(h.sink.frozen) then Fail(AsyncMisuse) else Pass
    ensures h.sink.frozen == old(h.sink.frozen)
    ensures h.sink.items == if r.Pass? then old(h.sink.items) + [Wrapped(h, t)] else old(h.sink.items)
  {
    if h.sink.frozen {
      return Fail(AsyncMisuse);
    }
    h.sink.items := h.sink.items + [Wrapped(h, t)];
    r := Pass;
  }

  /** Calls the closure with each of `ts` in turn, while the array stays open. */
  method CallWaitUntilAll(h: Hook, ts: seq<Thenable>)
    requires !h.sink.frozen
    modifies h.sink
    ensures !h.sink.frozen
    ensures h.sink.items == old(h.sink.items) + WrappedAll(h, ts)
  {
    var i := 0;
    while i < |ts|
      invariant 0 <= i <= |ts|
      invariant !h.sink.frozen
      invariant h.sink.items == old(h.sink.items) + WrappedAll(h, ts[..i])
    {
      var r := CallWaitUntil(h, ts[i]);
      assert ts[..i + 1] == ts[..i] + [ts[i]];
      WrappedAllAppend(h, ts[..i], ts[i]);
      i := i + 1;
    }
    assert ts[..i] == ts;
  }

  lemma WrappedAllAppend(h: Hook, ts: seq<Thenable>, t: Thenable)
    ensures WrappedAll(h, ts + [t]) == WrappedAll(h, ts) + [Wrapped(h, t)]
  {
    if h.CollectJoined? {
      JoinedAllAppend(h.join, h.owner, ts, t);
    }
  }

  lemma {:induction false} JoinedAllAppend(join: Option<Join>, owner: Listener, ts: seq<Thenable>, t: Thenable)
    ensures JoinedAll(join, owner, ts + [t]) == JoinedAll(join, owner, ts) + [Joined(join, owner, t)]
  {
    if ts == [] {
      assert ts + [t] == [t];
    } else {
      assert (ts + [t])[1..] == ts[1..] + [t];
      JoinedAllAppend(join, owner, ts[1..], t);
    }
  }

  /**
   * The `k`-th thenable a listener hands over in `deliver` is pushed as
   * `promiseJoin(thenable, listener)` when a join was supplied, and as itself otherwise.
   */
  lemma {:induction false} JoinedAllAt(join: Option<Join>, owner: Listener, ts: seq<Thenable>, k: nat)
    requires k < |ts|
    ensures JoinedAll(join, owner, ts)[k] == if join.Some? then join.value(ts[k], owner) else ts[k]
  {
    if k > 0 {
      JoinedAllAt(join, owner, ts[1..], k - 1);
    }
  }

  /**
   * The caller's event object. Only its `waitUntil` slot is modelled: `hook` is the
   * closure `Object.assign` put there, None once `delete` removed it.
   */
  class Event {
    var hook: Option<Hook>

    constructor ()
      ensures hook.None?
    {
      hook := None;
    }

    /** Whether a `waitUntil` call on this event would append rather than throw. */
    predicate Accepting()
      reads this, if hook.Some? then {hook.value.sink} else {}
    {
      hook.Some? && !hook.value.sink.frozen
    }

    /** The array the attached closure appends to, if any. */
    function Sinks(): set<object>
      reads this
    {
      if hook.Some? then {hook.value.sink} else {}
    }
  }
}
