/**
 * `AsyncEmitter` (emitter.ts, lines 210-268): an emitter whose `fire` queues a
 * delivery behind all earlier ones, and whose delivery offers each listener of a
 * snapshot its own `waitUntil` array, waits for what it collected, isolates
 * failures and honours a cancellation token. The promise chain `deliveryQueue` is
 * a FIFO of pending deliveries that is drained one whole delivery at a time.
 */
module AsyncEmitters {
  import opened Wrappers
  import opened CallbackLists
  import opened Events
  import opened Emitters

  /**
   * What the surroundings of one delivery decide: `cancelledAt(i)` is what
   * `token.isCancellationRequested` reads before the `i`-th listener; `react` is what
   * each listener does; `rejects` says which thenables reject.
   */
  datatype World = World(cancelledAt: nat -> bool, react: Listener -> Reaction, rejects: Thenable -> bool)

  /** The token `CancellationToken.None`, which never reports a request. */
  function NeverCancelled(react: Listener -> Reaction, rejects: Thenable -> bool): World
  {
    World(_ => false, react, rejects)
  }

  /** A `console.error` of the delivery loop: a synchronous throw (line 253) or a rejected `Promise.all` (line 263). */
  datatype Failure = ListenerThrew(listener: Listener) | WaitRejected(listener: Listener)

  /** What one delivery did: the listeners it invoked, in order, and the errors it logged. */
  datatype Report = Report(invoked: seq<Listener>, errors: seq<Failure>)

  /** The array a listener leaves behind: what it handed to `waitUntil`, each passed through the join. */
  function Batch(l: Listener, join: Option<Join>, w: World): (r: seq<Thenable>)
    ensures |r| == |w.react(l).waits|
  {
    JoinedAll(join, l, w.react(l).waits)
  }

  /** Whether `Promise.all` over a batch rejects: some member rejects. */
  predicate BatchRejects(batch: seq<Thenable>, w: World)
  {
    exists t :: t in batch && w.rejects(t)
  }

  /**
   * `deliver(listeners, event, token, promiseJoin)` from the `i`-th listener on
   * (lines 232-265): stop when the token reports cancellation; otherwise invoke the
   * listener, log a synchronous throw, stop the whole delivery when it collected
   * nothing, and otherwise await its batch, log a rejection and go on.
   */
  function Run(ls: seq<Listener>, i: nat, join: Option<Join>, w: World): Report
    requires i <= |ls|
    decreases |ls| - i
  {
    if i == |ls| || w.cancelledAt(i) then Report([], [])
    else
      var l := ls[i];
      if w.react(l).waits == [] then Report([l], ThrowLog(l, w))
      else
        var rest := Run(ls, i + 1, join, w);
        Report([l] + rest.invoked, ThrowLog(l, w) + RejectionLog(l, join, w) + rest.errors)
  }

  /** One turn of `Run` past a listener that collected something. */
  lemma RunStep(ls: seq<Listener>, i: nat, join: Option<Join>, w: World)
    requires i < |ls| && !w.cancelledAt(i) && w.react(ls[i]).waits != []
    ensures var rest := Run(ls, i + 1, join, w);
      Run(ls, i, join, w) == Report([ls[i]] + rest.invoked, ThrowLog(ls[i], w) + RejectionLog(ls[i], join, w) + rest.errors)
  {
  }

  /** What `console.error` logs for a synchronous throw of `l` (line 253). */
  function ThrowLog(l: Listener, w: World): seq<Failure>
  {
    if w.react(l).throws then [ListenerThrew(l)] else []
  }

  /** What `console.error` logs when awaiting the batch of `l` fails (line 263). */
  function RejectionLog(l: Listener, join: Option<Join>, w: World): seq<Failure>
  {
    if BatchRejects(Batch(l, join, w), w) then [WaitRejected(l)] else []
  }

  /** A delivery invokes listeners of its snapshot only, in snapshot order, each at most once. */
  lemma {:induction false} DeliveryFollowsSnapshot(ls: seq<Listener>, i: nat, join: Option<Join>, w: World)
    requires i <= |ls|
    ensures var r := Run(ls, i, join, w);
      i + |r.invoked| <= |ls| && r.invoked == ls[i..i + |r.invoked|]
    decreases |ls| - i
  {
    if i < |ls| && !w.cancelledAt(i) && w.react(ls[i]).waits != [] {
      DeliveryFollowsSnapshot(ls, i + 1, join, w);
    }
  }

  /** Once the token reports cancellation before the `j`-th listener, neither it nor any later one is invoked. */
  lemma {:induction false} CancellationStopsDelivery(ls: seq<Listener>, i: nat, j: nat, join: Option<Join>, w: World)
    requires i <= j <= |ls| && w.cancelledAt(j)
    ensures |Run(ls, i, join, w).invoked| <= j - i
    decreases |ls| - i
  {
    if i < j && !w.cancelledAt(i) && w.react(ls[i]).waits != [] {
      CancellationStopsDelivery(ls, i + 1, j, join, w);
    }
  }

  /**
   * Throws and rejections do not end a delivery: when the token never reports
   * cancellation and every listener collects something, all listeners are invoked.
   */
  lemma {:induction false} FailuresDoNotStopDelivery(ls: seq<Listener>, i: nat, join: Option<Join>, w: World)
    requires i <= |ls|
    requires forall j :: i <= j < |ls| ==> !w.cancelledAt(j) && w.react(ls[j]).waits != []
    ensures Run(ls, i, join, w).invoked == ls[i..]
    decreases |ls| - i
  {
    if i < |ls| {
      FailuresDoNotStopDelivery(ls, i + 1, join, w);
    }
  }

  /**
   * Lines 257-259 as written: the first listener that collects nothing ends the whole
   * delivery, whatever comes after it.
   */
  lemma {:induction false} EmptyBatchEndsDelivery(ls: seq<Listener>, i: nat, j: nat, join: Option<Join>, w: World)
    requires i <= j < |ls|
    requires forall k :: i <= k <= j ==> !w.cancelledAt(k)
    requires forall k :: i <= k < j ==> w.react(ls[k]).waits != []
    requires w.react(ls[j]).waits == []
    ensures Run(ls, i, join, w).invoked == ls[i..j + 1]
    decreases j - i
  {
    if i < j {
      EmptyBatchEndsDelivery(ls, i + 1, j, join, w);
    }
  }

  /**
   * Failures are logged, never propagated: a throw is logged exactly for the invoked
   * listeners that throw.
   */
  lemma {:induction false} ThrowsAreLogged(ls: seq<Listener>, i: nat, join: Option<Join>, w: World)
    requires i <= |ls|
    ensures var r := Run(ls, i, join, w);
      forall l :: ListenerThrew(l) in r.errors <==> l in r.invoked && w.react(l).throws
    decreases |ls| - i
  {
    if i < |ls| && !w.cancelledAt(i) && w.react(ls[i]).waits != [] {
      ThrowsAreLogged(ls, i + 1, join, w);
      RunStep(ls, i, join, w);
      ThrowsLoggedStep(ls[i], Run(ls, i + 1, join, w), join, w);
    } else if i < |ls| && !w.cancelledAt(i) {
      RunEnds(ls, i, join, w);
      forall l
        ensures ListenerThrew(l) in ThrowLog(ls[i], w) <==> l in [ls[i]] && w.react(l).throws
      {
      }
    } else if i < |ls| {
      RunCancelled(ls, i, join, w);
    }
  }

  /** One turn of `ThrowsAreLogged`: the turn's own entries log a throw of its listener only. */
  lemma ThrowsLoggedStep(l: Listener, rest: Report, join: Option<Join>, w: World)
    requires forall x :: ListenerThrew(x) in rest.errors <==> x in rest.invoked && w.react(x).throws
    ensures forall x ::
      (ListenerThrew(x) in ThrowLog(l, w) + RejectionLog(l, join, w) + rest.errors
       <==> x in [l] + rest.invoked && w.react(x).throws)
  {
    forall x
      ensures ListenerThrew(x) in ThrowLog(l, w) + RejectionLog(l, join, w) + rest.errors
        <==> x in [l] + rest.invoked && w.react(x).throws
    {
      assert ListenerThrew(x) !in RejectionLog(l, join, w);
      if x != l {
        assert ListenerThrew(x) !in ThrowLog(l, w);
        assert x in [l] + rest.invoked <==> x in rest.invoked;
      }
    }
  }

  /**
   * A rejection is logged exactly for the invoked listeners whose batch is not empty
   * and rejects.
   */
  lemma {:induction false} RejectionsAreLogged(ls: seq<Listener>, i: nat, join: Option<Join>, w: World)
    requires i <= |ls|
    ensures var r := Run(ls, i, join, w);
      forall l :: WaitRejected(l) in r.errors <==>
        l in r.invoked && w.react(l).waits != [] && BatchRejects(Batch(l, join, w), w)
    decreases |ls| - i
  {
    if i < |ls| && !w.cancelledAt(i) {
      if w.react(ls[i]).waits != [] {
        RejectionsAreLogged(ls, i + 1, join, w);
        RunStep(ls, i, join, w);
        RejectionsLoggedStep(ls[i], Run(ls, i + 1, join, w), join, w);
      } else {
        assert WaitRejected(ls[i]) !in ThrowLog(ls[i], w);
      }
    }
  }

  /** One turn of `RejectionsAreLogged`: the turn's own entries log a rejection of its listener only. */
  lemma RejectionsLoggedStep(l: Listener, rest: Report, join: Option<Join>, w: World)
    requires w.react(l).waits != []
    requires forall x :: WaitRejected(x) in rest.errors <==>
      x in rest.invoked && w.react(x).waits != [] && BatchRejects(Batch(x, join, w), w)
    ensures forall x ::
      (WaitRejected(x) in ThrowLog(l, w) + RejectionLog(l, join, w) + rest.errors
       <==> x in [l] + rest.invoked && w.react(x).waits != [] && BatchRejects(Batch(x, join, w), w))
  {
    forall x
      ensures WaitRejected(x) in ThrowLog(l, w) + RejectionLog(l, join, w) + rest.errors
        <==> x in [l] + rest.invoked && w.react(x).waits != [] && BatchRejects(Batch(x, join, w), w)
    {
      assert WaitRejected(x) !in ThrowLog(l, w);
      if x != l {
        assert WaitRejected(x) !in RejectionLog(l, join, w);
        assert x in [l] + rest.invoked <==> x in rest.invoked;
      }
    }
  }

  /**
   * With the default token `CancellationToken.None` (line 217), a delivery in which
   * every listener collects something reaches every listener of its snapshot, whatever
   * they throw and whatever their batches do.
   */
  lemma DefaultTokenDeliversAll(ls: seq<Listener>, join: Option<Join>, react: Listener -> Reaction, rejects: Thenable -> bool)
    requires forall l :: l in ls ==> react(l).waits != []
    ensures Run(ls, 0, join, NeverCancelled(react, rejects)).invoked == ls
  {
    FailuresDoNotStopDelivery(ls, 0, join, NeverCancelled(react, rejects));
  }

  /** A delivery whose token already reports cancellation invokes nothing and logs nothing. */
  lemma CancelledBeforeStart(ls: seq<Listener>, join: Option<Join>, w: World)
    requires w.cancelledAt(0)
    ensures Run(ls, 0, join, w) == Report([], [])
  {
  }

  /**
   * `deliver` with the loop the source has. Each turn gives the listener an array of
   * its own (see `Turn`); the delivery as a whole does what `Run` says. The event is
   * touched only by the turns: without one it keeps whatever `waitUntil` it had, after
   * one the last turn's `delete` has removed it.
   */
  method Deliver(ls: seq<Listener>, event: Event, join: Option<Join>, w: World) returns (report: Report)
    modifies event
    ensures report == Run(ls, 0, join, w)
    ensures report.invoked == [] ==> event.hook == old(event.hook)
    ensures report.invoked != [] ==> event.hook.None?
  {
    report := Report([], []);
    ghost var whole := Run(ls, 0, join, w);
    ghost var untouched := event.hook;
    var i := 0;
    // The token test at the top of each turn (line 233) is the loop guard.
    while i < |ls| && !w.cancelledAt(i)
      invariant 0 <= i <= |ls|
      invariant report.invoked == ls[..i]
      invariant whole.invoked == report.invoked + Run(ls, i, join, w).invoked
      invariant whole.errors == report.errors + Run(ls, i, join, w).errors
      invariant event.hook == if i == 0 then untouched else None
    {
      var listener := ls[i];
      var waitables, thrown, rejected := Turn(event, listener, join, w);
      if |waitables.items| == 0 {
        RunEnds(ls, i, join, w);
        report := Report(report.invoked + [listener], report.errors + thrown);
        return;
      }
      RunAdvances(ls, i, join, w, whole, report);
      report := Report(report.invoked + [listener], report.errors + thrown + rejected);
      i := i + 1;
    }
    if i < |ls| {
      RunCancelled(ls, i, join, w);
    }
  }

  /** A turn of `deliver` the token stops ends the delivery there. */
  lemma RunCancelled(ls: seq<Listener>, i: nat, join: Option<Join>, w: World)
    requires i <= |ls| && w.cancelledAt(i)
    ensures Run(ls, i, join, w) == Report([], [])
  {
  }

  /** The bookkeeping of one full turn of `deliver`: the report so far plus what is left stays the whole run. */
  lemma RunAdvances(ls: seq<Listener>, i: nat, join: Option<Join>, w: World, whole: Report, done: Report)
    requires i < |ls| && !w.cancelledAt(i) && w.react(ls[i]).waits != []
    requires done.invoked == ls[..i]
    requires whole.invoked == done.invoked + Run(ls, i, join, w).invoked
    requires whole.errors == done.errors + Run(ls, i, join, w).errors
    ensures ls[..i + 1] == done.invoked + [ls[i]]
    ensures whole.invoked == done.invoked + [ls[i]] + Run(ls, i + 1, join, w).invoked
    ensures whole.errors == done.errors + ThrowLog(ls[i], w) + RejectionLog(ls[i], join, w) + Run(ls, i + 1, join, w).errors
  {
    RunStep(ls, i, join, w);
    var l, rest := ls[i], Run(ls, i + 1, join, w);
    var thrown, rejected := ThrowLog(l, w), RejectionLog(l, join, w);
    assert ls[..i + 1] == ls[..i] + [l];
    AppendAssoc(done.invoked, [l], rest.invoked);
    AppendAssoc(done.errors, thrown + rejected, rest.errors);
    AppendAssoc(done.errors, thrown, rejected);
  }

  lemma AppendAssoc<T>(a: seq<T>, b: seq<T>, c: seq<T>)
    ensures a + (b + c) == (a + b) + c
  {
  }

  /**
   * One turn of the loop body (lines 236-264) for a listener the token lets through:
   * what it collected, what is logged for its throw and, when it collected something,
   * for the rejection of its batch.
   */
  method Turn(event: Event, listener: Listener, join: Option<Join>, w: World)
    returns (waitables: Waitables, thrown: seq<Failure>, rejected: seq<Failure>)
    modifies event
    ensures fresh(waitables)
    ensures event.hook.None?
    ensures waitables.items == Batch(listener, join, w)
    ensures waitables.frozen == !w.react(listener).throws
    ensures thrown == ThrowLog(listener, w)
    ensures |waitables.items| > 0 ==> rejected == RejectionLog(listener, join, w)
    ensures |waitables.items| == 0 ==> rejected == []
  {
    var threw;
    waitables, threw := InvokeListener(event, listener, join, w);
    thrown := if threw then [ListenerThrew(listener)] else [];
    rejected := [];
    if |waitables.items| > 0 {
      rejected := Await(listener, waitables, join, w);
    }
  }

  /** A turn of `deliver` whose listener collected nothing is the last one. */
  lemma RunEnds(ls: seq<Listener>, i: nat, join: Option<Join>, w: World)
    requires i < |ls| && !w.cancelledAt(i) && w.react(ls[i]).waits == []
    ensures Run(ls, i, join, w) == Report([ls[i]], ThrowLog(ls[i], w))
  {
  }

  /** The await of lines 260-264: the rejection of the listener's batch is logged. */
  method Await(listener: Listener, waitables: Waitables, join: Option<Join>, w: World) returns (logged: seq<Failure>)
    requires waitables.items == Batch(listener, join, w)
    ensures logged == RejectionLog(listener, join, w)
  {
    if BatchRejects(waitables.items, w) {
      logged := [WaitRejected(listener)];
    } else {
      logged := [];
    }
  }

  /**
   * One turn of the loop up to the await (lines 236-256): a fresh array, the closure
   * attached to the event, the listener called, the array frozen unless the listener
   * threw, the closure deleted.
   */
  method InvokeListener(event: Event, listener: Listener, join: Option<Join>, w: World) returns (waitables: Waitables, threw: bool)
    modifies event
    ensures fresh(waitables)
    ensures event.hook.None?
    ensures threw == w.react(listener).throws
    ensures waitables.items == Batch(listener, join, w)
    ensures waitables.frozen == !threw
  {
    waitables := new Waitables();
    var hook := CollectJoined(waitables, join, listener);
    event.hook := Some(hook);
    var r := w.react(listener);
    CallWaitUntilAll(hook, r.waits);
    threw := r.throws;
    if !threw {
      waitables.Freeze();
    }
    event.hook := None;
  }

  /** A delivery waiting in `deliveryQueue`: the ticket `fire` issued, the snapshot, the event and the join. */
  datatype Delivery = Delivery(ticket: nat, listeners: seq<Listener>, event: Event, join: Option<Join>)

  function Tickets(q: seq<Delivery>): (r: seq<nat>)
    ensures |r| == |q| && forall i :: 0 <= i < |q| ==> r[i] == q[i].ticket
  {
    if q == [] then [] else [q[0].ticket] + Tickets(q[1..])
  }

  /** The tickets `0, 1, ..., n - 1`. */
  function Upto(n: nat): (r: seq<nat>)
    ensures |r| == n && forall i :: 0 <= i < n ==> r[i] == i
  {
    seq(n, i => i)
  }

  /** `(ticket, listener)` for each listener a delivery invoked. */
  function Tagged(ticket: nat, ls: seq<Listener>): (r: seq<(nat, Listener)>)
    ensures |r| == |ls| && forall i :: 0 <= i < |ls| ==> r[i] == (ticket, ls[i])
  {
    seq(|ls|, i requires 0 <= i < |ls| => (ticket, ls[i]))
  }

  /**
   * The serialising emitter. `base` is the emitter whose list it delivers (the source
   * extends `Emitter`); `queue` is what `deliveryQueue` still has to run; `completed`
   * lists finished deliveries; `calls` records every listener call with its delivery's
   * ticket; `errors` is what the loop logged.
   */
  class AsyncEmitter {
    const base: Emitter
    var queue: seq<Delivery>
    var issued: nat
    var completed: seq<nat>
    var calls: seq<(nat, Listener)>
    var errors: seq<Failure>

    /**
     * Deliveries finish in the order `fire` issued them, and the listener calls of
     * different deliveries never interleave: they are grouped by ticket, in ticket order,
     * and all belong to finished deliveries.
     */
    ghost predicate Valid()
      reads this
    {
      && completed + Tickets(queue) == Upto(issued)
      && (forall i, j :: 0 <= i < j < |calls| ==> calls[i].0 <= calls[j].0)
      && (forall i :: 0 <= i < |calls| ==> calls[i].0 in completed)
    }

    constructor (base: Emitter)
      ensures Valid() && this.base == base
      ensures queue == [] && issued == 0 && completed == [] && calls == [] && errors == []
    {
      this.base := base;
      queue, issued, completed, calls, errors := [], 0, [], [], [];
    }

    /**
     * `fire(event, token, promiseJoin)` (lines 217-228): without a list it resolves at
     * once (None); otherwise it snapshots the list and queues the delivery behind all
     * earlier ones, returning its ticket.
     */
    method Fire(event: Event, join: Option<Join>) returns (ticket: Option<nat>)
      requires Valid()
      modifies this`queue, this`issued
      ensures Valid()
      ensures base.callbacks.None? ==> ticket.None? && queue == old(queue) && issued == old(issued)
      ensures base.callbacks.Some? ==>
        && ticket == Some(old(issued)) && issued == old(issued) + 1
        && queue == old(queue) + [Delivery(old(issued), base.callbacks.value, event, join)]
    {
      if base.callbacks.None? {
        return None;
      }
      var listeners := base.callbacks.value;
      queue := queue + [Delivery(issued, listeners, event, join)];
      assert Tickets(queue) == Tickets(old(queue)) + [issued];
      assert Upto(issued + 1) == Upto(issued) + [issued];
      ticket := Some(issued);
      issued := issued + 1;
    }

    /** The promise chain moves on: the oldest queued delivery runs to its end. */
    method RunNext(w: World) returns (report: Report)
      requires Valid() && queue != []
      modifies this`queue, this`completed, this`calls, this`errors, queue[0].event
      ensures Valid()
      ensures var d := old(queue)[0];
        && report == Run(d.listeners, 0, d.join, w)
        && queue == old(queue)[1..]
        && completed == old(completed) + [d.ticket]
        && calls == old(calls) + Tagged(d.ticket, report.invoked)
        && errors == old(errors) + report.errors
      ensures var d := old(queue)[0];
        && (report.invoked == [] ==> d.event.hook == old(d.event.hook))
        && (report.invoked != [] ==> d.event.hook.None?)
    {
      var d := queue[0];
      report := Deliver(d.listeners, d.event, d.join, w);
      var t := d.ticket;
      assert forall j :: 0 <= j < |completed| ==> completed[j] == j
        by { assert forall j :: 0 <= j < |completed| ==> completed[j] == (completed + Tickets(queue))[j]; }
      assert t == |completed| by { assert (completed + Tickets(queue))[|completed|] == t; }
      assert completed + [t] + Tickets(queue[1..]) == completed + Tickets(queue);
      calls := calls + Tagged(t, report.invoked);
      errors := errors + report.errors;
      queue := queue[1..];
      completed := completed + [t];
    }
  }

  /**
   * The snapshot is taken when `fire` is called: a listener subscribed before the
   * delivery runs is not part of it.
   */
  method SubscribeAfterFire(e: AsyncEmitter, event: Event, join: Option<Join>, late: Listener, site: string, w: World)
    returns (report: Report)
    requires e.Valid() && e.base.Valid() && e.queue == [] && e.base.callbacks.Some?
    modifies e, e.base, event
    ensures report == Run(old(e.base.callbacks.value), 0, join, w)
  {
    var ticket := e.Fire(event, join);
    var handle := e.base.Subscribe(late, site);
    report := e.RunNext(w);
  }
}
