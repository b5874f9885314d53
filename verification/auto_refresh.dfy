/** The auto-refresh scheduler of the sheets service: one module-level
    interval handle, the last/next tick times and the interval, threaded
    here as an explicit value. Browser interval handles are numbers the
    caller supplies; `live` is the set of intervals the browser still runs. */
module AutoRefresh {
  import opened Base

  const DefaultIntervalMs: int := 60000

  /** Which configurations each tick reloads: the given ids when a
      non-empty list was passed to start, otherwise every stored one. */
  datatype FetchTarget = AllConfigs | SelectedConfigs(ids: seq<string>)

  datatype Scheduler = Scheduler(
    timer: Option<nat>,
    live: set<nat>,
    lastRefresh: Option<int>,
    nextRefresh: Option<int>,
    interval: int,
    target: FetchTarget)

  const Initial: Scheduler := Scheduler(None, {}, None, None, DefaultIntervalMs, AllConfigs)

  /** At most one interval is running, and it is the one the handle names. */
  predicate Inv(s: Scheduler) {
    && (s.timer.None? ==> s.live == {})
    && (s.timer.Some? ==> s.live == {s.timer.value})
  }

  /** `isAutoRefreshActive()`. */
  predicate IsActive(s: Scheduler) {
    s.timer.Some?
  }

  /** JavaScript truthiness of a stored time: present and not 0. */
  predicate IsSetTime(t: Option<int>) {
    t.Some? && t.value != 0
  }

  /** `stopAutoRefresh()`: with a running interval, clears it and both
      times; when inactive it changes nothing. The interval is kept. */
  function Stop(s: Scheduler): (r: Scheduler)
    ensures !IsActive(s) ==> r == s
    ensures !IsActive(r) && r.interval == s.interval && r.target == s.target
    ensures IsActive(s) ==> r.lastRefresh.None? && r.nextRefresh.None?
    ensures Inv(s) ==> Inv(r) && r.live == {}
  {
    match s.timer
    case None => s
    case Some(h) => s.(timer := None, live := s.live - {h}, lastRefresh := None, nextRefresh := None)
  }

  /** The reload target of a start: the ids themselves when a non-empty
      list is given, otherwise every stored configuration. */
  function TargetOf(configIds: Option<seq<string>>): (t: FetchTarget)
    ensures t.SelectedConfigs? <==> configIds.Some? && |configIds.value| > 0
    ensures t.SelectedConfigs? ==> t.ids == configIds.value
  {
    if configIds.Some? && |configIds.value| > 0 then SelectedConfigs(configIds.value) else AllConfigs
  }

  /** `startAutoRefresh(callback, interval, configIds)`: stops any running
      interval first, then records `now` as the last tick and
      `now + interval` as the next one and installs a fresh interval
      `handle`. Starting twice in a row leaves exactly one interval alive. */
  function Start(s: Scheduler, now: int, interval: int, configIds: Option<seq<string>>, handle: nat)
    : (r: Scheduler)
    requires handle !in s.live
    ensures IsActive(r) && r.timer == Some(handle)
    ensures r.lastRefresh == Some(now) && r.nextRefresh == Some(now + interval)
    ensures r.interval == interval
    ensures r.target.SelectedConfigs? <==> configIds.Some? && |configIds.value| > 0
    ensures r.target.SelectedConfigs? ==> r.target.ids == configIds.value
    ensures Inv(s) ==> Inv(r) && r.live == {handle}
  {
    var stopped := Stop(s);
    stopped.(timer := Some(handle), live := stopped.live + {handle},
             lastRefresh := Some(now), nextRefresh := Some(now + interval),
             interval := interval, target := TargetOf(configIds))
  }

  /** One firing of the interval: the bookkeeping moves forward before the
      fetch, so the progress reading starts over. */
  function Tick(s: Scheduler, now: int): (r: Scheduler)
    requires IsActive(s)
    ensures r.timer == s.timer && r.live == s.live && r.interval == s.interval
    ensures r.lastRefresh == Some(now) && r.nextRefresh == Some(now + s.interval)
    ensures Inv(s) ==> Inv(r)
  {
    s.(lastRefresh := Some(now), nextRefresh := Some(now + s.interval))
  }

  /** JavaScript's `Math.floor(elapsed / total * 100)` clamped to 0..100, on
      exact rationals. A zero `total` divides to ±Infinity, clamped to 100
      or 0; the 0/0 case (NaN in the source) is taken as 0. */
  function ClampedPercent(elapsed: int, total: int): (p: int)
    ensures 0 <= p <= 100
    ensures total > 0 && 0 <= elapsed <= total ==>
      p * total <= 100 * elapsed < (p + 1) * total
    ensures total > 0 && elapsed <= 0 ==> p == 0
    ensures total > 0 && elapsed >= total ==> p == 100
  {
    var raw :=
      if total > 0 then (100 * elapsed) / total
      else if total < 0 then (-100 * elapsed) / (-total)
      else if elapsed > 0 then 100
      else 0;
    assert total > 0 ==>
      && raw * total <= 100 * elapsed < (raw + 1) * total
      && (elapsed <= 0 ==> raw <= 0)
      && (elapsed >= total ==> raw >= 100) by {
      if total > 0 {
        QuotientBounds(100 * elapsed, total);
      }
    }
    if raw < 0 then 0 else if raw > 100 then 100 else raw
  }

  lemma QuotientBounds(a: int, b: int)
    requires b > 0
    ensures (a / b) * b <= a < (a / b + 1) * b
    ensures a <= 0 ==> a / b <= 0
    ensures a >= 100 * b ==> a / b >= 100
  {
    var q := a / b;
    assert q * b + a % b == a;
    assert (q + 1) * b == q * b + b;
    if q >= 1 {
      MulBelow(1, q, b);
    } else {
      MulBelow(q + 1, 1, b);
    }
    if q <= 99 {
      MulBelow(q + 1, 100, b);
    }
  }

  lemma MulBelow(x: int, y: int, b: int)
    requires x <= y && b > 0
    ensures x * b <= y * b
  {
    assert y * b - x * b == (y - x) * b;
  }

  /** The complement of a percentage keeps the bounds, mirrored. */
  lemma ComplementBounds(p: int, total: int, elapsed: int)
    requires p * total <= 100 * elapsed < (p + 1) * total
    ensures (100 - p - 1) * total < 100 * (total - elapsed) <= (100 - p) * total
  {
    assert (100 - p) * total == 100 * total - p * total;
    assert (100 - p - 1) * total == 100 * total - (p + 1) * total;
  }

  /** `getAutoRefreshProgress()`: the share of the interval still to go, in
      percent rounded up; 0 when no interval is running. */
  function Progress(s: Scheduler, now: int): (r: int)
    ensures 0 <= r <= 100
    ensures !IsActive(s) || !IsSetTime(s.lastRefresh) || !IsSetTime(s.nextRefresh) ==> r == 0
    ensures IsActive(s) && IsSetTime(s.lastRefresh) && IsSetTime(s.nextRefresh) ==>
      var total := s.nextRefresh.value - s.lastRefresh.value;
      var elapsed := now - s.lastRefresh.value;
      && (total > 0 && 0 <= elapsed <= total ==>
            (r - 1) * total < 100 * (total - elapsed) <= r * total)
      && (total > 0 && elapsed <= 0 ==> r == 100)
      && (total > 0 && elapsed >= total ==> r == 0)
  {
    if !IsActive(s) || !IsSetTime(s.lastRefresh) || !IsSetTime(s.nextRefresh) then 0
    else
      var total := s.nextRefresh.value - s.lastRefresh.value;
      var elapsed := now - s.lastRefresh.value;
      var p := ClampedPercent(elapsed, total);
      assert total > 0 && 0 <= elapsed <= total ==>
        (100 - p - 1) * total < 100 * (total - elapsed) <= (100 - p) * total by {
        if total > 0 && 0 <= elapsed <= total {
          ComplementBounds(p, total, elapsed);
        }
      }
      100 - p
  }

  /** `getTimeUntilNextRefresh()`: whole seconds to the next tick, rounded
      up, never negative; 0 when no interval is running. */
  function SecondsUntilNext(s: Scheduler, now: int): (r: int)
    ensures r >= 0
    ensures !IsActive(s) || !IsSetTime(s.nextRefresh) ==> r == 0
    ensures IsActive(s) && IsSetTime(s.nextRefresh) ==>
      var remaining := if s.nextRefresh.value - now > 0 then s.nextRefresh.value - now else 0;
      (r - 1) * 1000 < remaining <= r * 1000
  {
    if !IsActive(s) || !IsSetTime(s.nextRefresh) then 0
    else
      var remaining := if s.nextRefresh.value - now > 0 then s.nextRefresh.value - now else 0;
      (remaining + 999) / 1000
  }

  /** Right after a start (or a tick) at a non-zero time with a positive
      interval, the whole interval is still to go. */
  lemma FreshStartProgress(s: Scheduler, now: int, interval: int, configIds: Option<seq<string>>, handle: nat)
    requires handle !in s.live
    requires now != 0 && now + interval != 0 && interval > 0
    ensures Progress(Start(s, now, interval, configIds, handle), now) == 100
    ensures SecondsUntilNext(Start(s, now, interval, configIds, handle), now) == (interval + 999) / 1000
  {
  }

  /** Starting twice keeps exactly one live interval: the second one. */
  lemma StartTwiceOneTimer(s: Scheduler, now1: int, now2: int, i1: int, i2: int,
                           c1: Option<seq<string>>, c2: Option<seq<string>>, h1: nat, h2: nat)
    requires Inv(s) && h1 !in s.live && h2 != h1
    ensures var r := Start(Start(s, now1, i1, c1, h1), now2, i2, c2, h2);
      r.live == {h2} && Inv(r)
  {
  }
}
