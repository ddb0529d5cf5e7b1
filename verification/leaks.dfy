/**
 * Leak diagnostics of the emitter (emitter.ts, lines 71-121): a map from the
 * registration site of each subscription past the limit to how often that site
 * subscribed, and a countdown that spaces the warnings out. The call-stack text
 * the source captures with `new Error().stack` is a site tag supplied by the caller.
 */
module Leaks {
  import opened Wrappers

  /** The default of `event.maxListeners`. */
  const LeakWarningThreshold: real := 175.0

  /**
   * `_leakingStacks`, a JavaScript `Map<string, number>`: `order` lists the keys in
   * first-insertion order, which is the order `forEach` visits them in.
   */
  datatype LeakMap = LeakMap(order: seq<string>, counts: map<string, int>) {
    ghost predicate Valid()
    {
      && (forall i, j :: 0 <= i < j < |order| ==> order[i] != order[j])
      && (forall k :: k in counts <==> k in order)
    }
  }

  /** `new Map()` */
  const EmptyLeakMap := LeakMap([], map[])

  /** The map `pushLeakingStack` works on: the existing one, or a new empty one (lines 106-108). */
  function OrEmpty(leaks: Option<LeakMap>): LeakMap
  {
    if leaks.Some? then leaks.value else EmptyLeakMap
  }

  /** `map.get(site) || 0` */
  function Count(m: LeakMap, site: string): int
  {
    if site in m.counts then m.counts[site] else 0
  }

  /**
   * `map.set(site, (map.get(site) || 0) + delta)`: the count of `site` moves by `delta`
   * and no other count moves; a key already present keeps its place, a new key goes last.
   */
  function Adjust(m: LeakMap, site: string, delta: int): (r: LeakMap)
    requires m.Valid()
    ensures r.Valid()
    ensures site in r.counts && Count(r, site) == Count(m, site) + delta
    ensures forall k :: k != site ==> Count(r, k) == Count(m, k)
    ensures r.counts.Keys == m.counts.Keys + {site}
    ensures site in m.counts ==> r.order == m.order
    ensures site !in m.counts ==> r.order == m.order + [site]
  {
    if site in m.counts then LeakMap(m.order, m.counts[site := m.counts[site] + delta])
    else LeakMap(m.order + [site], m.counts[site := delta])
  }

  /**
   * The undo closure that `pushLeakingStack` returns, run once, brings every count
   * back to what it was before the push (a site the push inserted stays, with count 0).
   */
  lemma PopUndoesPush(m: LeakMap, site: string)
    requires m.Valid()
    ensures var r := Adjust(Adjust(m, site, 1), site, -1);
      (forall k :: Count(r, k) == Count(m, k)) && r.counts.Keys == m.counts.Keys + {site}
  {
  }

  // ---------------------------------------------------------------------------
  // Choosing the site to report (lines 88-95)
  // ---------------------------------------------------------------------------

  /**
   * The state of the `forEach` fold after it has visited `m.order[..i]`: the chosen
   * site (`topStack`, None while undefined) and `topCount`. A site is replaced when
   * `!topStack` holds (undefined or the empty string) or its count is strictly smaller.
   */
  function Fold(m: LeakMap, i: nat): (r: (Option<string>, int))
    requires i <= |m.order|
    ensures i > 0 ==> r.0.Some? && r.0.value in m.order[..i] && r.1 == Count(m, r.0.value)
  {
    if i == 0 then (None, 0)
    else
      var prev := Fold(m, i - 1);
      var site := m.order[i - 1];
      var c := Count(m, site);
      assert m.order[..i] == m.order[..i - 1] + [site];
      if prev.0.None? || prev.0.value == "" || prev.1 < c then (Some(site), c) else prev
  }

  /** Index `k` holds a largest count among the first `i` keys, and no earlier key reaches it. */
  ghost predicate EarliestMax(m: LeakMap, i: nat, k: nat)
    requires i <= |m.order|
  {
    && k < i
    && (forall j :: 0 <= j < i ==> Count(m, m.order[j]) <= Count(m, m.order[k]))
    && (forall j :: 0 <= j < k ==> Count(m, m.order[j]) < Count(m, m.order[k]))
  }

  /** With no empty-string site, the fold settles on the earliest-inserted site with the highest count. */
  lemma {:induction false} FoldPicksEarliestMax(m: LeakMap, i: nat)
    requires 0 < i <= |m.order|
    requires forall j :: 0 <= j < i ==> m.order[j] != ""
    ensures exists k: nat :: EarliestMax(m, i, k) && Fold(m, i) == (Some(m.order[k]), Count(m, m.order[k]))
  {
    if i == 1 {
      assert EarliestMax(m, 1, 0);
    } else {
      FoldPicksEarliestMax(m, i - 1);
      var k: nat :| EarliestMax(m, i - 1, k) && Fold(m, i - 1) == (Some(m.order[k]), Count(m, m.order[k]));
      assert m.order[k] != "";
      EarliestMaxStep(m, i, k);
      if Count(m, m.order[k]) < Count(m, m.order[i - 1]) {
        assert Fold(m, i) == (Some(m.order[i - 1]), Count(m, m.order[i - 1]));
      } else {
        assert Fold(m, i) == Fold(m, i - 1);
      }
    }
  }

  /** One more key either takes over as the earliest largest count or leaves the old one in place. */
  lemma EarliestMaxStep(m: LeakMap, i: nat, k: nat)
    requires 1 < i <= |m.order| && EarliestMax(m, i - 1, k)
    ensures Count(m, m.order[k]) < Count(m, m.order[i - 1]) ==> EarliestMax(m, i, i - 1)
    ensures Count(m, m.order[i - 1]) <= Count(m, m.order[k]) ==> EarliestMax(m, i, k)
  {
  }

  /** The site and count the warning names, for a map that is not empty. */
  function Top(m: LeakMap): (string, int)
    requires |m.order| > 0
  {
    var r := Fold(m, |m.order|);
    (r.0.value, r.1)
  }

  /** Lines 88-95 as the loop they are: walks the keys in insertion order updating `topStack` and `topCount`. */
  method MostFrequent(m: LeakMap) returns (topStack: string, topCount: int)
    requires |m.order| > 0
    ensures (topStack, topCount) == Top(m)
    ensures topStack in m.order && topCount == Count(m, topStack)
  {
    var top: Option<string> := None;
    topCount := 0;
    var i := 0;
    while i < |m.order|
      invariant 0 <= i <= |m.order|
      invariant (top, topCount) == Fold(m, i)
    {
      var site := m.order[i];
      var stackCount := Count(m, site);
      if top.None? || top.value == "" || topCount < stackCount {
        top := Some(site);
        topCount := stackCount;
      }
      i := i + 1;
    }
    topStack := top.value;
  }

  // ---------------------------------------------------------------------------
  // The threshold check and the countdown (lines 71-103)
  // ---------------------------------------------------------------------------

  /** Line 83: the countdown, once decremented, is at zero or below. */
  predicate WarnsAfter(countdown: real)
  {
    countdown - 1.0 <= 0.0
  }

  /** Lines 82-86: the countdown after one subscription past the limit. */
  function NextCountdown(countdown: real, maxListeners: real): real
  {
    if WarnsAfter(countdown) then maxListeners * 0.5 else countdown - 1.0
  }

  /** What the console warning of lines 98-99 reports. */
  datatype Warning = Warning(listenerCount: nat, maxListeners: real, topCount: int, topStack: string)

  /** The emitter's leak state after one `checkMaxListeners` call, and what that call returned and printed. */
  datatype CheckResult = CheckResult(undo: Option<string>, leaks: Option<LeakMap>, countdown: real, warning: Option<Warning>)

  /**
   * `checkMaxListeners(maxListeners)` on the state (`listeners` is the length of
   * `_callbacks` when it exists, `leaks` is `_leakingStacks`, `countdown` is
   * `_leakWarnCountdown`); `site` stands for the captured call stack. `undo`,
   * when present, names the site the returned closure pops.
   */
  function LeakCheck(maxListeners: real, listeners: Option<nat>, leaks: Option<LeakMap>, countdown: real, site: string): (r: CheckResult)
    requires leaks.Some? ==> leaks.value.Valid()
    ensures r.leaks.Some? ==> r.leaks.value.Valid()
    ensures r.undo.None? <==> (maxListeners == 0.0 || listeners.None? || listeners.value as real <= maxListeners)
    ensures r.undo.None? ==> r.leaks == leaks && r.countdown == countdown && r.warning.None?
    ensures r.undo.Some? ==> r.undo.value == site && r.leaks.Some?
    ensures r.undo.Some? ==> Count(r.leaks.value, site) == Count(OrEmpty(leaks), site) + 1
    ensures r.undo.Some? ==> forall k :: k != site ==> Count(r.leaks.value, k) == Count(OrEmpty(leaks), k)
    ensures r.warning.Some? <==> r.undo.Some? && countdown - 1.0 <= 0.0
    ensures r.undo.Some? && r.warning.None? ==> r.countdown == countdown - 1.0
    ensures r.warning.Some? ==> r.countdown == maxListeners * 0.5
    ensures r.warning.Some? ==> r.warning.value.listenerCount == listeners.value && r.warning.value.maxListeners == maxListeners
    ensures r.warning.Some? ==> r.warning.value.topStack in r.leaks.value.counts
    ensures r.warning.Some? ==> r.warning.value.topCount == Count(r.leaks.value, r.warning.value.topStack)
  {
    if maxListeners == 0.0 || listeners.None? || listeners.value as real <= maxListeners then
      CheckResult(None, leaks, countdown, None)
    else
      var pushed := Adjust(OrEmpty(leaks), site, 1);
      var warning :=
        if WarnsAfter(countdown) then Some(Warning(listeners.value, maxListeners, Top(pushed).1, Top(pushed).0))
        else None;
      CheckResult(Some(site), Some(pushed), NextCountdown(countdown, maxListeners), warning)
  }

  /** The site a warning names is the earliest-inserted site with the highest count, unless some site is the empty string. */
  lemma WarningNamesEarliestMax(maxListeners: real, listeners: Option<nat>, leaks: Option<LeakMap>, countdown: real, site: string)
    requires leaks.Some? ==> leaks.value.Valid()
    requires var r := LeakCheck(maxListeners, listeners, leaks, countdown, site);
      r.warning.Some? && "" !in r.leaks.value.counts
    ensures var r := LeakCheck(maxListeners, listeners, leaks, countdown, site);
      exists k: nat :: EarliestMax(r.leaks.value, |r.leaks.value.order|, k) && r.warning.value.topStack == r.leaks.value.order[k]
  {
    var r := LeakCheck(maxListeners, listeners, leaks, countdown, site);
    var m := r.leaks.value;
    forall j | 0 <= j < |m.order| ensures m.order[j] != "" {
      assert m.order[j] in m.counts;
    }
    FoldPicksEarliestMax(m, |m.order|);
  }

  /**
   * How many of `n` consecutive subscriptions past the limit print a warning, starting
   * from `countdown`, with `maxListeners` unchanged.
   */
  function Warnings(countdown: real, maxListeners: real, n: nat): nat
    decreases n
  {
    if n == 0 then 0
    else if WarnsAfter(countdown) then 1 + Warnings(NextCountdown(countdown, maxListeners), maxListeners, n - 1)
    else Warnings(NextCountdown(countdown, maxListeners), maxListeners, n - 1)
  }

  /**
   * With an integer limit `m`, the countdown is reset to `m / 2`, so a warning is
   * printed every `p = (m + 1) / 2` subscriptions past the limit. `k` is how many such
   * subscriptions, counting the next one, remain until the next warning; the number
   * of warnings among the next `n` is `(n + p - k) / p`, stated without division.
   */
  lemma {:induction false} WarningsEveryHalfLimit(countdown: real, m: int, k: nat, n: nat)
    requires m >= 1
    requires 1 <= k <= (m + 1) / 2
    requires countdown <= k as real && (k == 1 || (k - 1) as real < countdown)
    ensures var w, p := Warnings(countdown, m as real, n), (m + 1) / 2;
      w * p <= n + p - k < (w + 1) * p
    decreases n
  {
    var p := (m + 1) / 2;
    if n == 0 {
    } else if k == 1 {
      var reset := m as real * 0.5;
      assert reset <= p as real && (p == 1 || (p - 1) as real < reset);
      WarningsEveryHalfLimit(reset, m, p, n - 1);
      var w' := Warnings(reset, m as real, n - 1);
      assert Warnings(countdown, m as real, n) == w' + 1;
      assert (w' + 1) * p == w' * p + p;
      assert (w' + 2) * p == (w' + 1) * p + p;
    } else {
      WarningsEveryHalfLimit(countdown - 1.0, m, k - 1, n - 1);
    }
  }

  /**
   * From the initial countdown of 0, the first subscription past an integer limit `m`
   * warns and then every `(m + 1) / 2`-th one does.
   */
  lemma FirstExcessWarnsThenEveryHalfLimit(m: int, n: nat)
    requires m >= 1
    ensures var w, p := Warnings(0.0, m as real, n), (m + 1) / 2;
      w * p <= n + p - 1 < (w + 1) * p
    ensures n >= 1 ==> Warnings(0.0, m as real, n) >= 1
  {
    WarningsEveryHalfLimit(0.0, m, 1, n);
  }

  /**
   * With the default limit of 175, the 176th listener triggers exactly one warning,
   * the next one comes with the 264th (88 later), and `n` listeners past the limit
   * print `(n + 87) / 88` warnings.
   */
  lemma DefaultLimitWarnings(n: nat)
    ensures Warnings(0.0, LeakWarningThreshold, n) == (n + 87) / 88
    ensures 1 <= n <= 88 ==> Warnings(0.0, LeakWarningThreshold, n) == 1
  {
    FirstExcessWarnsThenEveryHalfLimit(175, n);
    var w := Warnings(0.0, LeakWarningThreshold, n);
    assert w * 88 <= n + 87 < (w + 1) * 88;
  }
}
