/** The two limiters: ICMPv6 errors per second, and relay-failure log lines per destination. Times are
    in nanoseconds. */
module Limiters {
  import opened Types

  // ----- ICMPv6 errors

  const SECOND: int := 1_000_000_000

  datatype Window = Window(start: Option<int>, count: int)

  const NO_WINDOW := Window(None, 0)

  predicate Expired(w: Window, now: int) {
    w.start.None? || now - w.start.value >= SECOND
  }

  function Opened(w: Window, now: int): Window {
    if Expired(w, now) then Window(Some(now), 0) else w
  }

  predicate Admits(w: Window, limit: int, now: int) {
    Opened(w, now).count < limit
  }

  function Advanced(w: Window, limit: int, now: int): Window {
    var o := Opened(w, now);
    if o.count >= limit then o else o.(count := o.count + 1)
  }

  class RateLimiter {
    const limit: int
    var windowStart: Option<int>
    var count: int

    ghost function View(): Window
      reads this
    {
      Window(windowStart, count)
    }

    constructor (limit: int)
      ensures this.limit == limit && View() == NO_WINDOW
    {
      this.limit := limit;
      windowStart, count := None, 0;
    }

    method Allow(now: int) returns (ok: bool)
      modifies this`windowStart, this`count
      ensures View() == Advanced(old(View()), limit, now) && ok == Admits(old(View()), limit, now)
    {
      if windowStart.None? || now - windowStart.value >= SECOND {
        windowStart := Some(now);
        count := 0;
      }
      if count >= limit { return false; }
      count := count + 1;
      return true;
    }
  }

  predicate InOrder(times: seq<int>) {
    forall i, j :: 0 <= i < j < |times| ==> times[i] <= times[j]
  }

  function WindowAfter(limit: int, times: seq<int>): Window {
    if times == [] then NO_WINDOW
    else Advanced(WindowAfter(limit, times[..|times|-1]), limit, times[|times|-1])
  }

  /** How many of the calls at `times` are admitted within `t .. t + 1 s`. */
  function AdmittedWithin(limit: int, times: seq<int>, t: int): nat {
    if times == [] then 0 else
      var init, now := times[..|times|-1], times[|times|-1];
      AdmittedWithin(limit, init, t)
      + if t <= now < t + 1_000_000_000 && Admits(WindowAfter(limit, init), limit, now) then 1 else 0
  }

  /** Where the current window lies bounds what the interval has seen. */
  predicate Bounded(w: Window, limit: int, last: int, t: int, n: nat) {
    && (last < t ==> n == 0)
    && match w.start
       case None => n == 0
       case Some(start) =>
         && start <= last && 1 <= w.count <= limit
         && (start < t ==> n <= w.count - 1)
         && (t <= start < t + SECOND ==> n <= limit - 1 + w.count)
         && (start >= t + SECOND ==> n <= 2 * limit - 1)
  }

  lemma BoundedStep(w: Window, limit: int, last: int, t: int, n: nat, now: int)
    requires limit >= 1 && Bounded(w, limit, last, t, n) && last <= now
    ensures var more := if t <= now < t + SECOND && Admits(w, limit, now) then 1 else 0;
            Bounded(Advanced(w, limit, now), limit, now, t, n + more)
  {}

  lemma {:induction false} BoundedRun(limit: int, times: seq<int>, t: int)
    requires limit >= 1 && InOrder(times) && times != []
    ensures Bounded(WindowAfter(limit, times), limit, times[|times|-1], t, AdmittedWithin(limit, times, t))
    decreases |times|
  {
    var init, now := times[..|times|-1], times[|times|-1];
    if init == [] {
      BoundedStep(NO_WINDOW, limit, now, t, 0, now);
    } else {
      BoundedRun(limit, init, t);
      BoundedStep(WindowAfter(limit, init), limit, init[|init|-1], t, AdmittedWithin(limit, init, t), now);
    }
  }

  /** In any second at all, aligned with the limiter's windows or not, fewer than twice the limit. */
  lemma AdmittedInAnySecond(limit: int, times: seq<int>, t: int)
    requires limit >= 1 && InOrder(times)
    ensures AdmittedWithin(limit, times, t) <= 2 * limit - 1
  {
    if times != [] { BoundedRun(limit, times, t); }
  }

  lemma {:induction false} NoLimitAdmitsNothing(limit: int, times: seq<int>, t: int)
    requires limit <= 0
    ensures AdmittedWithin(limit, times, t) == 0 && WindowAfter(limit, times).count == 0
  {
    if times != [] { NoLimitAdmitsNothing(limit, times[..|times|-1], t); }
  }

  /** Calls of the current window are admitted ones. */
  lemma {:induction false} WindowIsAdmitted(limit: int, times: seq<int>, t: int)
    requires limit >= 1 && InOrder(times) && times != [] && times[|times|-1] < t + SECOND
    ensures var w := WindowAfter(limit, times);
            w.start.Some? && w.start.value <= times[|times|-1]
            && (t <= w.start.value ==> w.count <= AdmittedWithin(limit, times, t))
    decreases |times|
  {
    var init, now := times[..|times|-1], times[|times|-1];
    if init != [] {
      assert init[|init|-1] <= now;
      WindowIsAdmitted(limit, init, t);
    }
  }

  /** A call is refused only when the limit has been admitted within the second up to it. */
  lemma RefusedOnlyWhenFull(limit: int, times: seq<int>, now: int)
    requires limit >= 1 && InOrder(times) && (times != [] ==> times[|times|-1] <= now)
    requires !Admits(WindowAfter(limit, times), limit, now)
    ensures AdmittedWithin(limit, times, now - SECOND + 1) >= limit
  {
    WindowIsAdmitted(limit, times, now - SECOND + 1);
  }

  lemma OneMore(limit: int, times: seq<int>, now: int)
    ensures WindowAfter(limit, times + [now]) == Advanced(WindowAfter(limit, times), limit, now)
    ensures AdmittedWithin(limit, times + [now], SECOND - 1) == AdmittedWithin(limit, times, SECOND - 1)
      + if SECOND - 1 <= now < 2 * SECOND - 1 && Admits(WindowAfter(limit, times), limit, now) then 1 else 0
  {
    assert (times + [now])[..|times|] == times;
  }

  /** One call opens a window, and the rest of its limit comes just before its end. */
  lemma WindowFilled(limit: int) returns (times: seq<int>)
    requires limit >= 1
    ensures InOrder(times) && (forall i :: 0 <= i < |times| ==> times[i] < SECOND)
    ensures WindowAfter(limit, times) == Window(Some(0), limit) && AdmittedWithin(limit, times, SECOND - 1) == limit - 1
  {
    times := [];
    OneMore(limit, times, 0);
    times := times + [0];
    for k := 1 to limit
      invariant InOrder(times) && forall i :: 0 <= i < |times| ==> times[i] < SECOND
      invariant WindowAfter(limit, times) == Window(Some(0), k)
      invariant AdmittedWithin(limit, times, SECOND - 1) == k - 1
    {
      OneMore(limit, times, SECOND - 1);
      times := times + [SECOND - 1];
    }
  }

  /** Every limit reaches its bound: as many calls again just after that end are all admitted. */
  lemma BoundIsReached(limit: int) returns (times: seq<int>)
    requires limit >= 1
    ensures InOrder(times) && AdmittedWithin(limit, times, SECOND - 1) == 2 * limit - 1
  {
    times := WindowFilled(limit);
    for k := 0 to limit
      invariant InOrder(times) && forall i :: 0 <= i < |times| ==> times[i] <= SECOND
      invariant k == 0 ==> WindowAfter(limit, times) == Window(Some(0), limit)
      invariant k > 0 ==> WindowAfter(limit, times) == Window(Some(SECOND), k)
      invariant AdmittedWithin(limit, times, SECOND - 1) == limit - 1 + k
    {
      OneMore(limit, times, SECOND);
      times := times + [SECOND];
    }
  }

  // ----- Relay-failure log lines

  const LOG_EVERY: int := 30 * SECOND
  const LOG_MAX: nat := 1024

  predicate Recent(last: map<uint32, int>, to: uint32, now: int) {
    to in last && now - last[to] < LOG_EVERY
  }

  function Pruned(last: map<uint32, int>, now: int): map<uint32, int> {
    map id | id in last && now - last[id] < LOG_EVERY :: last[id]
  }

  function Noted(last: map<uint32, int>, to: uint32, now: int): map<uint32, int> {
    if Recent(last, to, now) then last
    else (if |last| >= LOG_MAX then Pruned(last, now) else last)[to := now]
  }

  class RelayFailLimiter {
    var last: map<uint32, int>

    constructor ()
      ensures last == map[]
    {
      last := map[];
    }

    method Allow(to: uint32, now: int) returns (ok: bool)
      modifies this
      ensures ok == !Recent(old(last), to, now) && last == Noted(old(last), to, now)
    {
      if to in last && now - last[to] < LOG_EVERY { return false; }
      if |last| >= LOG_MAX {
        ghost var before := last;
        var todo := last.Keys;
        while todo != {}
          invariant todo <= last.Keys
          invariant forall id :: id in last ==> id in before && last[id] == before[id]
          invariant forall id :: id in last && id !in todo ==> now - last[id] < LOG_EVERY
          invariant forall id :: id in before && now - before[id] < LOG_EVERY ==> id in last
          decreases |todo|
        {
          var id :| id in todo;
          todo := todo - {id};
          if now - last[id] >= LOG_EVERY { last := last - {id}; }
        }
        assert last == Pruned(before, now);
      }
      last := last[to := now];
      return true;
    }
  }

  datatype Failure = Failure(to: uint32, now: int)

  function TableAfter(calls: seq<Failure>): map<uint32, int> {
    if calls == [] then map[]
    else Noted(TableAfter(calls[..|calls|-1]), calls[|calls|-1].to, calls[|calls|-1].now)
  }

  /** Whether the last call of `calls` is let through. */
  predicate Logged(calls: seq<Failure>)
    requires calls != []
  {
    !Recent(TableAfter(calls[..|calls|-1]), calls[|calls|-1].to, calls[|calls|-1].now)
  }

  predicate CallsInOrder(calls: seq<Failure>) {
    forall i, j :: 0 <= i < j < |calls| ==> calls[i].now <= calls[j].now
  }

  /** What a limiter that never deletes answers: no line for the destination in the last 30 s. */
  ghost predicate LoggedLately(calls: seq<Failure>, to: uint32, now: int) {
    exists k {:trigger LineAt(calls, k, to)} :: 0 < k <= |calls| && LineAt(calls, k, to)
      && now - calls[k-1].now < 30_000_000_000
  }

  /** Call number `k` is for `to` and is let through. */
  predicate LineAt(calls: seq<Failure>, k: nat, to: uint32)
    requires 0 < k <= |calls|
  {
    calls[k-1].to == to && Logged(calls[..k])
  }

  lemma LinesStay(calls: seq<Failure>, c: Failure, to: uint32, t: int)
    ensures LoggedLately(calls + [c], to, t) <==>
              LoggedLately(calls, to, t) || (c.to == to && Logged(calls + [c]) && t - c.now < LOG_EVERY)
  {
    var more := calls + [c];
    assert more[..|more|] == more;
    assert forall k :: 0 < k <= |calls| ==> more[..k] == calls[..k] && more[k-1] == calls[k-1];
    if LoggedLately(more, to, t) {
      var k :| 0 < k <= |more| && LineAt(more, k, to) && t - more[k-1].now < LOG_EVERY;
      if k <= |calls| { assert LineAt(calls, k, to); }
    }
    if LoggedLately(calls, to, t) {
      var k :| 0 < k <= |calls| && LineAt(calls, k, to) && t - calls[k-1].now < LOG_EVERY;
      assert LineAt(more, k, to);
    }
    if c.to == to && Logged(more) { assert LineAt(more, |more|, to); }
  }

  lemma NotedIsFaithful(last: map<uint32, int>, c: Failure, to: uint32, t: int)
    requires c.now <= t
    ensures Recent(Noted(last, c.to, c.now), to, t) <==>
              Recent(last, to, t) || (c.to == to && !Recent(last, c.to, c.now) && t - c.now < LOG_EVERY)
  {}

  lemma LastCall(calls: seq<Failure>)
    requires calls != [] && CallsInOrder(calls)
    ensures var init, c := calls[..|calls|-1], calls[|calls|-1];
            && calls == init + [c] && CallsInOrder(init) && (init != [] ==> init[|init|-1].now <= c.now)
            && TableAfter(calls) == Noted(TableAfter(init), c.to, c.now)
            && (Logged(calls) <==> !Recent(TableAfter(init), c.to, c.now))
  {}

  /** Pruning is invisible: over any calls in time order, a line is let through exactly when the
      destination had none in the last 30 s. */
  lemma {:induction false} PruningIsInvisible(calls: seq<Failure>, to: uint32, now: int)
    requires CallsInOrder(calls) && (calls != [] ==> calls[|calls|-1].now <= now)
    ensures Recent(TableAfter(calls), to, now) <==> LoggedLately(calls, to, now)
    decreases |calls|
  {
    if calls != [] {
      var init, c := calls[..|calls|-1], calls[|calls|-1];
      LastCall(calls);
      PruningIsInvisible(init, to, now);
      LinesStay(init, c, to, now);
      NotedIsFaithful(TableAfter(init), c, to, now);
    }
  }

  /** After any call that is let through the table has at most 1024 entries, or none older than 30 s. */
  lemma TableStaysSmall(last: map<uint32, int>, to: uint32, now: int)
    requires !Recent(last, to, now)
    ensures var t := Noted(last, to, now);
            |t| <= 1024 || forall id :: id in t ==> now - t[id] < 30_000_000_000
  {
    assert |last[to := now]| <= |last| + 1 by { assert last[to := now].Keys == last.Keys + {to}; }
  }

  /** The limiter that never deletes. */
  function KeptAfter(calls: seq<Failure>): map<uint32, int> {
    if calls == [] then map[] else
      var kept, c := KeptAfter(calls[..|calls|-1]), calls[|calls|-1];
      if Recent(kept, c.to, c.now) then kept else kept[c.to := c.now]
  }

  /** It would answer the same to every call, over any calls in time order. */
  lemma {:induction false} NeverDeletingAgrees(calls: seq<Failure>, to: uint32, now: int)
    requires CallsInOrder(calls) && (calls != [] ==> calls[|calls|-1].now <= now)
    ensures Recent(TableAfter(calls), to, now) <==> Recent(KeptAfter(calls), to, now)
    decreases |calls|
  {
    if calls != [] {
      var init, c := calls[..|calls|-1], calls[|calls|-1];
      LastCall(calls);
      NeverDeletingAgrees(init, to, now);
      NeverDeletingAgrees(init, c.to, c.now);
      NotedIsFaithful(TableAfter(init), c, to, now);
    }
  }
}
