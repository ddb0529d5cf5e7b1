/**
 * `WaitUntilEvent.fire` (emitter.ts, lines 176-205): fires an emitter synchronously
 * with a `waitUntil` closure attached to the event, seals what the listeners
 * collected, detaches the closure, and waits for the collected thenables.
 */
module WaitUntil {
  import opened Wrappers
  import opened CallbackLists
  import opened Events
  import opened Emitters

  /** How the promise returned by `WaitUntilEvent.fire` settles. */
  datatype Settlement =
    | Immediate       // nothing was collected: returns without awaiting (lines 197-199)
    | AllResolved     // `Promise.all(waitables)` resolved
    | SomeRejected    // `Promise.all(waitables)` rejected, and so does the returned promise
    | TimedOut        // the timer of line 201 won the race
    | Threw           // `emitter.fire` threw; the exception reaches the caller

  /**
   * `WaitUntilEvent.fire(emitter, event, timeout)`. The listeners' behaviour is `react`;
   * `rejects` tells which thenables reject; `timerFirst` says whether the timeout fires
   * before the collected thenables settle (only consulted when a timeout is given).
   * `waitables` is the array the closure appends to, returned so that late calls can be
   * modelled.
   */
  method Fire(emitter: Emitter, event: Event, timeout: Option<int>, react: Listener -> Reaction,
              rejects: Thenable -> bool, timerFirst: bool)
    returns (settled: Settlement, waitables: Waitables)
    modifies event
    ensures fresh(waitables)
    ensures event.hook.None?
    ensures var snap := Snapshot(emitter.callbacks);
      waitables.items == Collected(snap[..Reached(snap, react, true)], react, Collect(waitables))
    ensures settled.Threw? <==> exists l :: l in Snapshot(emitter.callbacks) && react(l).throws
    ensures waitables.frozen <==> !settled.Threw?
    ensures !settled.Threw? ==> waitables.items == Collected(Snapshot(emitter.callbacks), react, Collect(waitables))
    ensures !settled.Threw? && waitables.items == [] ==> settled.Immediate?
    ensures !settled.Threw? && waitables.items != [] ==>
      settled == if timeout.Some? && timerFirst then TimedOut
                 else if exists t :: t in waitables.items && rejects(t) then SomeRejected
                 else AllResolved
  {
    var threw;
    waitables, threw := Dispatch(emitter, event, react);
    if threw {
      return Threw, waitables;
    }
    if |waitables.items| == 0 {
      return Immediate, waitables;
    }
    if timeout.Some? && timerFirst {
      settled := TimedOut;
    } else if exists t :: t in waitables.items && rejects(t) {
      settled := SomeRejected;
    } else {
      settled := AllResolved;
    }
  }

  /**
   * The synchronous part of `WaitUntilEvent.fire` (lines 181-195): a fresh array, the
   * closure attached to the event, the emitter fired, the array frozen unless the fire
   * threw, and the closure deleted in every case.
   */
  method Dispatch(emitter: Emitter, event: Event, react: Listener -> Reaction) returns (waitables: Waitables, threw: bool)
    modifies event
    ensures fresh(waitables)
    ensures event.hook.None?
    ensures var snap := Snapshot(emitter.callbacks);
      waitables.items == Collected(snap[..Reached(snap, react, true)], react, Collect(waitables))
    ensures threw <==> exists l :: l in Snapshot(emitter.callbacks) && react(l).throws
    ensures waitables.frozen <==> !threw
    ensures !threw ==> waitables.items == Collected(Snapshot(emitter.callbacks), react, Collect(waitables))
  {
    ghost var snap := Snapshot(emitter.callbacks);
    waitables := new Waitables();
    event.hook := Some(Collect(waitables));
    assert event.Accepting();
    var invoked;
    invoked, threw := emitter.Fire(event, react);
    ghost var k := Reached(snap, react, true);
    assert invoked == snap[..k];
    WalkThrowsIffSomeListenerRaises(snap, react, true);
    assert threw <==> exists l :: l in snap && react(l).throws;
    assert !threw ==> invoked == snap;
    if !threw {
      waitables.Freeze();
    }
    event.hook := None;
  }

  /**
   * A listener that kept the `waitUntil` closure and calls it after `fire` returned gets
   * the error 'waitUntil cannot be called asynchronously.'; only when `emitter.fire` threw
   * was the array left unfrozen, and then the late call appends silently.
   */
  method FireThenCallLate(emitter: Emitter, event: Event, timeout: Option<int>, react: Listener -> Reaction,
                          rejects: Thenable -> bool, timerFirst: bool, late: Thenable)
    returns (settled: Settlement, lateCall: Outcome)
    modifies event
    ensures event.hook.None?
    ensures lateCall == if settled.Threw? then Pass else Fail(AsyncMisuse)
  {
    var waitables;
    settled, waitables := Fire(emitter, event, timeout, react, rejects, timerFirst);
    lateCall := CallWaitUntil(Collect(waitables), late);
  }
}
