/**
 * `Emitter<T>` (emitter.ts, lines 10-158): a listener registry with lifecycle
 * hooks, synchronous `fire`, the `sequence` walker, leak diagnostics and disposal,
 * together with the subscription handle its `event` function returns.
 */
module Emitters {
  import opened Wrappers
  import opened CallbackLists
  import opened Leaks
  import opened Events

  /** What an emitter makes observable besides its listener calls: option hooks run and console warnings. */
  datatype Notice =
    | FirstListenerAdded       // options.onFirstListenerAdd(emitter), line 38
    | LastListenerRemoved      // options.onLastListenerRemove(emitter), line 53
    | LeakWarned(warning: Warning)   // console.warn, lines 98-99

  /** The settled value a `sequence` processor produces: a boolean, or a throw / rejected promise. */
  datatype ProcessorResult = Resolves(proceed: bool) | Rejects

  // ---------------------------------------------------------------------------
  // Synchronous delivery to a snapshot
  // ---------------------------------------------------------------------------

  /**
   * Does an invocation end in an exception? It throws itself, or its first `waitUntil`
   * call throws because the event offers no closure or the array is frozen.
   */
  predicate Raises(r: Reaction, accepting: bool)
  {
    r.throws || (!accepting && |r.waits| > 0)
  }

  /**
   * How many listeners of `snap` a synchronous walk invokes: all of them, or up to and
   * including the first one whose invocation raises, which stops the walk.
   */
  function Reached(snap: seq<Listener>, react: Listener -> Reaction, accepting: bool): (k: nat)
    ensures k <= |snap|
    ensures forall i :: 0 <= i < k - 1 ==> !Raises(react(snap[i]), accepting)
    ensures k < |snap| ==> k > 0 && Raises(react(snap[k - 1]), accepting)
    ensures (forall i :: 0 <= i < |snap| ==> !Raises(react(snap[i]), accepting)) ==> k == |snap|
  {
    if snap == [] then 0
    else if Raises(react(snap[0]), accepting) then 1
    else 1 + Reached(snap[1..], react, accepting)
  }

  /** The thenables the listeners `ls` hand to `waitUntil`, in call order, as the closure `h` appends them. */
  function Collected(ls: seq<Listener>, react: Listener -> Reaction, h: Hook): seq<Thenable>
  {
    if ls == [] then [] else WrappedAll(h, react(ls[0]).waits) + Collected(ls[1..], react, h)
  }

  lemma CollectedAppend(ls: seq<Listener>, l: Listener, react: Listener -> Reaction, h: Hook)
    ensures Collected(ls + [l], react, h) == Collected(ls, react, h) + WrappedAll(h, react(l).waits)
  {
    if ls != [] {
      assert (ls + [l])[1..] == ls[1..] + [l];
      CollectedAppend(ls[1..], l, react, h);
    }
  }

  // ---------------------------------------------------------------------------
  // The emitter
  // ---------------------------------------------------------------------------

  class Emitter {
    /** Whether the options carry `onFirstListenerAdd` / `onLastListenerRemove`. */
    const hasFirstHook: bool
    const hasLastHook: bool
    /** `event.maxListeners` (line 64); callers may assign it. */
    var maxListeners: real
    /** `_callbacks`: None while undefined. */
    var callbacks: Option<seq<Listener>>
    /** `_disposed` */
    var disposed: bool
    /** `_leakingStacks` */
    var leaks: Option<LeakMap>
    /** `_leakWarnCountdown` */
    var countdown: real
    /** The hooks run and warnings printed so far, in order. */
    var notices: seq<Notice>

    ghost predicate Valid()
      reads this
    {
      leaks.Some? ==> leaks.value.Valid()
    }

    /** How many listeners `_callbacks` holds, if it exists. */
    function ListenerCount(): Option<nat>
      reads this
    {
      if callbacks.Some? then Some(|callbacks.value|) else None
    }

    /** `new Emitter(options)`: no list, no leak map, countdown 0, limit 175. */
    constructor (hasFirstHook: bool, hasLastHook: bool)
      ensures Valid()
      ensures this.hasFirstHook == hasFirstHook && this.hasLastHook == hasLastHook
      ensures maxListeners == LeakWarningThreshold
      ensures callbacks.None? && !disposed && leaks.None? && countdown == 0.0 && notices == []
    {
      this.hasFirstHook := hasFirstHook;
      this.hasLastHook := hasLastHook;
      maxListeners := LeakWarningThreshold;
      callbacks := None;
      disposed := false;
      leaks := None;
      countdown := 0.0;
      notices := [];
    }

    /**
     * The `event` function (lines 33-62): `site` stands for the caller's stack. The list
     * is created whenever it is missing, also after `dispose`; the first-listener hook
     * runs when the list is empty just before the append; then the leak check runs.
     */
    method Subscribe(listener: Listener, site: string) returns (handle: Subscription)
      requires Valid()
      modifies this`callbacks, this`leaks, this`countdown, this`notices
      ensures Valid()
      ensures fresh(handle) && handle.owner == this && handle.entry == listener && !handle.spent
      ensures callbacks == Some(Snapshot(old(callbacks)) + [listener])
      ensures var c := LeakCheck(maxListeners, ListenerCount(), old(leaks), old(countdown), site);
        && handle.undo == c.undo && leaks == c.leaks && countdown == c.countdown
        && notices == old(notices)
                      + (if hasFirstHook && Snapshot(old(callbacks)) == [] then [FirstListenerAdded] else [])
                      + (if c.warning.Some? then [LeakWarned(c.warning.value)] else [])
    {
      AddListener(listener);
      var undo := CheckMaxListeners(maxListeners, site);
      handle := new Subscription(this, listener, undo);
    }

    /**
     * Lines 34-41 of the `event` function: the list is created when missing, the
     * first-listener hook runs when it is empty, and the entry is appended.
     */
    method AddListener(listener: Listener)
      requires Valid()
      modifies this`callbacks, this`notices
      ensures Valid()
      ensures callbacks == Some(Snapshot(old(callbacks)) + [listener])
      ensures notices == old(notices) + (if hasFirstHook && Snapshot(old(callbacks)) == [] then [FirstListenerAdded] else [])
    {
      if callbacks.None? {
        callbacks := Some([]);
      }
      if hasFirstHook && callbacks.value == [] {
        notices := notices + [FirstListenerAdded];
      }
      callbacks := Some(callbacks.value + [listener]);
    }

    /** `checkMaxListeners` (lines 71-103); a returned site is what the undo closure pops. */
    method CheckMaxListeners(maxListeners: real, site: string) returns (undo: Option<string>)
      requires Valid()
      modifies this`leaks, this`countdown, this`notices
      ensures Valid()
      ensures var c := LeakCheck(maxListeners, ListenerCount(), old(leaks), old(countdown), site);
        && undo == c.undo && leaks == c.leaks && countdown == c.countdown
        && notices == old(notices) + (if c.warning.Some? then [LeakWarned(c.warning.value)] else [])
    {
      if maxListeners == 0.0 || callbacks.None? {
        return None;
      }
      var listenerCount := |callbacks.value|;
      if listenerCount as real <= maxListeners {
        return None;
      }
      var popStack := PushLeakingStack(site);
      countdown := countdown - 1.0;
      if countdown <= 0.0 {
        countdown := maxListeners * 0.5;
        var topStack, topCount := MostFrequent(leaks.value);
        notices := notices + [LeakWarned(Warning(listenerCount, maxListeners, topCount, topStack))];
      }
      undo := Some(popStack);
    }

    /** `pushLeakingStack` (lines 105-113): counts one more subscription from `site`. */
    method PushLeakingStack(site: string) returns (popSite: string)
      requires Valid()
      modifies this`leaks
      ensures Valid()
      ensures leaks == Some(Adjust(OrEmpty(old(leaks)), site, 1))
      ensures popSite == site
    {
      if leaks.None? {
        leaks := Some(EmptyLeakMap);
      }
      leaks := Some(Adjust(leaks.value, site, 1));
      popSite := site;
    }

    /** `popLeakingStack` (lines 115-121): one fewer from `site`, if the map still exists. */
    method PopLeakingStack(site: string)
      requires Valid()
      modifies this`leaks
      ensures Valid()
      ensures leaks == if old(leaks).None? then None else Some(Adjust(old(leaks).value, site, -1))
    {
      if leaks.None? {
        return;
      }
      leaks := Some(Adjust(leaks.value, site, -1));
    }

    /**
     * `fire(event)` (lines 127-131): walks a copy of the list in order and invokes each
     * listener; an exception stops the walk and reaches the caller. What the listeners
     * hand to `event.waitUntil` goes to the closure attached to the event, if any.
     */
    method Fire(event: Event, react: Listener -> Reaction) returns (invoked: seq<Listener>, threw: bool)
      modifies event.Sinks()
      ensures var snap, ok := Snapshot(callbacks), old(event.Accepting());
        var k := Reached(snap, react, ok);
        && invoked == snap[..k]
        && threw == (k > 0 && Raises(react(snap[k - 1]), ok))
      ensures event.hook.Some? ==>
        && event.hook.value.sink.frozen == old(event.hook.value.sink.frozen)
        && event.hook.value.sink.items == old(event.hook.value.sink.items)
             + (if old(event.Accepting()) then Collected(invoked, react, event.hook.value) else [])
    {
      var snap := Snapshot(callbacks);
      var ok := event.Accepting();
      invoked, threw := Walk(snap, event.hook, react, ok);
      WalkStopsAtReached(snap, react, ok, invoked, threw);
    }

    /**
     * `sequence(processor)` (lines 137-145): offers the listeners of a copy of the list to
     * `processor` in order and stops right after the first result that is not `true`; a
     * rejected result rejects the whole walk.
     */
    method Sequence(processor: Listener -> ProcessorResult) returns (visited: seq<Listener>, rejected: bool)
      ensures |visited| <= |Snapshot(callbacks)| && visited == Snapshot(callbacks)[..|visited|]
      ensures forall i :: 0 <= i < |visited| - 1 ==> processor(visited[i]) == Resolves(true)
      ensures |visited| < |Snapshot(callbacks)| ==> |visited| > 0 && processor(visited[|visited| - 1]) != Resolves(true)
      ensures rejected <==> |visited| > 0 && processor(visited[|visited| - 1]).Rejects?
    {
      visited, rejected := [], false;
      if callbacks.None? {
        return;
      }
      var snap := callbacks.value;
      var i := 0;
      while i < |snap|
        invariant 0 <= i <= |snap|
        invariant visited == snap[..i]
        invariant forall j :: 0 <= j < i ==> processor(snap[j]) == Resolves(true)
      {
        visited := visited + [snap[i]];
        var result := processor(snap[i]);
        if result.Rejects? {
          rejected := true;
          return;
        }
        if !result.proceed {
          return;
        }
        i := i + 1;
      }
    }

    /**
     * The part of a handle's first `dispose` that touches the list (lines 48-55): unless
     * the emitter was disposed, the entry is removed and the last-listener hook runs when
     * the list is left empty.
     */
    method Detach(entry: Listener)
      requires Valid()
      modifies this`callbacks, this`notices
      ensures Valid()
      ensures disposed || old(callbacks).None? ==> callbacks == old(callbacks) && notices == old(notices)
      ensures !disposed && old(callbacks).Some? ==>
        var rest := Remove(old(callbacks).value, entry);
        && callbacks == Some(rest)
        && notices == old(notices) + (if hasLastHook && rest == [] then [LastListenerRemoved] else [])
    {
      // A handle exists only after its subscription created the list, and only `dispose`
      // of the emitter removes it again, so the list is present whenever it is not disposed.
      if !disposed && callbacks.Some? {
        var rest := Remove(callbacks.value, entry);
        callbacks := Some(rest);
        if hasLastHook && rest == [] {
          notices := notices + [LastListenerRemoved];
        }
      }
    }

    /** `dispose()` (lines 147-157): drops the leak map and the list and marks the emitter disposed. */
    method Dispose()
      modifies this`leaks, this`callbacks, this`disposed
      ensures Valid()
      ensures leaks.None? && callbacks.None? && disposed
    {
      leaks := None;
      callbacks := None;
      disposed := true;
    }
  }

  /**
   * The loop of `fire` over the snapshot `snap`: each listener is invoked in turn, with
   * `hook` the closure found on the event, until one invocation raises.
   */
  method Walk(snap: seq<Listener>, hook: Option<Hook>, react: Listener -> Reaction, ok: bool)
    returns (invoked: seq<Listener>, threw: bool)
    requires ok == (hook.Some? && !hook.value.sink.frozen)
    modifies if hook.Some? then {hook.value.sink} else {}
    ensures |invoked| <= |snap| && invoked == snap[..|invoked|]
    ensures forall j :: 0 <= j < |invoked| - 1 ==> !Raises(react(snap[j]), ok)
    ensures threw <==> |invoked| > 0 && Raises(react(snap[|invoked| - 1]), ok)
    ensures !threw ==> |invoked| == |snap|
    ensures hook.Some? ==>
      && hook.value.sink.frozen == old(hook.value.sink.frozen)
      && hook.value.sink.items == old(hook.value.sink.items) + (if ok then Collected(invoked, react, hook.value) else [])
  {
    ghost var before := if hook.Some? then hook.value.sink.items else [];
    invoked, threw := [], false;
    var i := 0;
    while i < |snap|
      invariant 0 <= i <= |snap|
      invariant invoked == snap[..i] && !threw
      invariant forall j :: 0 <= j < i ==> !Raises(react(snap[j]), ok)
      invariant ok == (hook.Some? && !hook.value.sink.frozen)
      invariant hook.Some? ==>
        && hook.value.sink.frozen == old(hook.value.sink.frozen)
        && hook.value.sink.items == before + (if ok then Collected(invoked, react, hook.value) else [])
    {
      threw := InvokeNext(hook, invoked, snap[i], react, ok, before);
      invoked := invoked + [snap[i]];
      if threw {
        return;
      }
      i := i + 1;
    }
  }

  /** A synchronous walk ends in an exception exactly when some listener of the snapshot raises. */
  lemma {:induction false} WalkThrowsIffSomeListenerRaises(snap: seq<Listener>, react: Listener -> Reaction, accepting: bool)
    ensures var k := Reached(snap, react, accepting);
      (k > 0 && Raises(react(snap[k - 1]), accepting)) <==> exists l :: l in snap && Raises(react(l), accepting)
  {
    var k := Reached(snap, react, accepting);
    if exists l :: l in snap && Raises(react(l), accepting) {
      var l :| l in snap && Raises(react(l), accepting);
      var i :| 0 <= i < |snap| && snap[i] == l;
      assert k > 0 && Raises(react(snap[k - 1]), accepting);
    }
  }

  /** What `Walk` promises about where it stopped, restated through `Reached`. */
  lemma WalkStopsAtReached(snap: seq<Listener>, react: Listener -> Reaction, ok: bool, invoked: seq<Listener>, threw: bool)
    requires |invoked| <= |snap| && invoked == snap[..|invoked|]
    requires forall j :: 0 <= j < |invoked| - 1 ==> !Raises(react(snap[j]), ok)
    requires threw <==> |invoked| > 0 && Raises(react(snap[|invoked| - 1]), ok)
    requires !threw ==> |invoked| == |snap|
    ensures var k := Reached(snap, react, ok);
      && invoked == snap[..k]
      && threw == (k > 0 && Raises(react(snap[k - 1]), ok))
  {
    ReachedIsWhereTheWalkStopped(snap, react, ok, |invoked|);
  }

  /** A walk that stopped at `i` on the conditions of `Fire`'s loop reached exactly `Reached` listeners. */
  lemma ReachedIsWhereTheWalkStopped(snap: seq<Listener>, react: Listener -> Reaction, accepting: bool, i: nat)
    requires i <= |snap|
    requires forall j :: 0 <= j < i - 1 ==> !Raises(react(snap[j]), accepting)
    requires i < |snap| ==> i > 0 && Raises(react(snap[i - 1]), accepting)
    ensures Reached(snap, react, accepting) == i
  {
  }

  /**
   * One listener invocation during `fire`, with what its `waitUntil` calls do through
   * `hook`, the closure found on the event (None when the event has none).
   */
  method Invoke(hook: Option<Hook>, r: Reaction, accepting: bool) returns (threw: bool)
    requires accepting == (hook.Some? && !hook.value.sink.frozen)
    modifies if hook.Some? then {hook.value.sink} else {}
    ensures threw == Raises(r, accepting)
    ensures hook.Some? ==>
      && hook.value.sink.frozen == old(hook.value.sink.frozen)
      && hook.value.sink.items == old(hook.value.sink.items) + (if accepting then WrappedAll(hook.value, r.waits) else [])
  {
    if |r.waits| > 0 && !accepting {
      // The first `waitUntil` call throws: no closure on the event, or a frozen array.
      if hook.Some? {
        var failed := CallWaitUntil(hook.value, r.waits[0]);
      }
      threw := true;
    } else {
      if accepting {
        CallWaitUntilAll(hook.value, r.waits);
      }
      threw := r.throws;
    }
  }

  /** `Invoke` for the next listener of a walk, keeping the account of everything collected so far. */
  method InvokeNext(hook: Option<Hook>, invoked: seq<Listener>, listener: Listener, react: Listener -> Reaction,
                    accepting: bool, ghost before: seq<Thenable>) returns (threw: bool)
    requires accepting == (hook.Some? && !hook.value.sink.frozen)
    requires hook.Some? ==> hook.value.sink.items == before + (if accepting then Collected(invoked, react, hook.value) else [])
    modifies if hook.Some? then {hook.value.sink} else {}
    ensures threw == Raises(react(listener), accepting)
    ensures hook.Some? ==>
      && hook.value.sink.frozen == old(hook.value.sink.frozen)
      && hook.value.sink.items == before + (if accepting then Collected(invoked + [listener], react, hook.value) else [])
  {
    if hook.Some? && accepting {
      CollectedAfter(before, invoked, listener, react, hook.value);
    }
    threw := Invoke(hook, react(listener), accepting);
  }

  /** What a walk has collected after one more listener, on top of what the array held before it. */
  lemma CollectedAfter(before: seq<Thenable>, ls: seq<Listener>, l: Listener, react: Listener -> Reaction, h: Hook)
    ensures before + Collected(ls + [l], react, h) == (before + Collected(ls, react, h)) + WrappedAll(h, react(l).waits)
  {
    CollectedAppend(ls, l, react, h);
  }

  /**
   * The `Disposable` the `event` function returns (lines 43-57). `spent` records that its
   * `dispose` was replaced by `_noop`.
   */
  class Subscription {
    const owner: Emitter
    /** The (listener, thisArgs) pair this subscription added. */
    const entry: Listener
    /** `removeMaxListenersCheck`: the site whose leak count the first `dispose` pops. */
    const undo: Option<string>
    var spent: bool

    constructor (owner: Emitter, entry: Listener, undo: Option<string>)
      ensures this.owner == owner && this.entry == entry && this.undo == undo && !spent
    {
      this.owner := owner;
      this.entry := entry;
      this.undo := undo;
      spent := false;
    }

    /**
     * `dispose()`: the first call pops the leak count and, unless the emitter was disposed,
     * removes the entry and runs the last-listener hook if the list is left empty. Every
     * later call is the no-op `_noop`.
     */
    method Dispose()
      requires owner.Valid()
      modifies this`spent, owner`leaks, owner`callbacks, owner`notices
      ensures owner.Valid() && spent
      ensures old(spent) ==>
        owner.leaks == old(owner.leaks) && owner.callbacks == old(owner.callbacks) && owner.notices == old(owner.notices)
      ensures !old(spent) ==>
        owner.leaks == if undo.Some? && old(owner.leaks).Some? then Some(Adjust(old(owner.leaks).value, undo.value, -1))
                       else old(owner.leaks)
      ensures !old(spent) && (owner.disposed || old(owner.callbacks).None?) ==>
        owner.callbacks == old(owner.callbacks) && owner.notices == old(owner.notices)
      ensures !old(spent) && !owner.disposed && old(owner.callbacks).Some? ==>
        var rest := Remove(old(owner.callbacks).value, entry);
        && owner.callbacks == Some(rest)
        && owner.notices == old(owner.notices) + (if owner.hasLastHook && rest == [] then [LastListenerRemoved] else [])
    {
      if spent {
        return;
      }
      if undo.Some? {
        owner.PopLeakingStack(undo.value);
      }
      spent := true;
      owner.Detach(entry);
    }
  }
}
