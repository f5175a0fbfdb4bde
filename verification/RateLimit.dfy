/**
 The fixed-window rate limiter (rate.go) and the console throttle on top of it (console.go).
 Times come from a clock that does not go back.
 */
module RateLimit {
  import Power

  datatype Call = Call(time: int, allowed: bool, window: nat)

  /** How many of the calls from `i` to `j` were allowed in window `w`. */
  function AllowedIn(calls: seq<Call>, i: nat, j: nat, w: nat): nat
    requires i <= j <= |calls|
    decreases j
  {
    if i == j then 0
    else AllowedIn(calls, i, j - 1, w) + if calls[j - 1].allowed && calls[j - 1].window == w then 1 else 0
  }

  function Allowed(calls: seq<Call>, i: nat, j: nat): nat
    requires i <= j <= |calls|
    decreases j
  {
    if i == j then 0 else Allowed(calls, i, j - 1) + if calls[j - 1].allowed then 1 else 0
  }

  /** Windows start more than `duration` apart, and every call falls in the window open at the time. */
  ghost predicate Windows(calls: seq<Call>, starts: seq<int>, duration: int) {
    && (forall i, j :: 0 <= i < j < |starts| ==> starts[j] - starts[i] > duration)
    && (forall i :: 0 <= i < |calls| ==> calls[i].window < |starts| && calls[i].time >= starts[calls[i].window])
    && (forall i, w :: 0 <= i < |calls| && calls[i].window < w < |starts| ==> calls[i].time <= starts[w])
    && (forall i, j :: 0 <= i < j < |calls| ==> calls[i].window <= calls[j].window)
  }

  /** The limiter's fields describe the last window, and no window let more than `limit` calls through. */
  ghost predicate Tracks(calls: seq<Call>, starts: seq<int>, duration: int, limit: nat, count: nat, last: int) {
    && starts != [] && last == starts[|starts| - 1] && duration >= 0
    && Windows(calls, starts, duration)
    && count == AllowedIn(calls, 0, |calls|, |starts| - 1)
    && (forall w :: 0 <= w < |starts| ==> AllowedIn(calls, 0, |calls|, w) <= limit)
  }

  /** No call is later than `now`. */
  ghost predicate Until(calls: seq<Call>, now: int) {
    forall i :: 0 <= i < |calls| ==> calls[i].time <= now
  }

  lemma OpenWindow(calls: seq<Call>, starts: seq<int>, duration: int, limit: nat, count: nat, last: int, now: int)
    requires Tracks(calls, starts, duration, limit, count, last) && now - last > duration && Until(calls, now)
    ensures Tracks(calls, starts + [now], duration, limit, 0, now)
  {
    NewWindow(calls, |calls|, |starts|);
  }

  ghost predicate OneMore(calls: seq<Call>, calls': seq<Call>, now: int, ok: bool) {
    |calls'| == |calls| + 1 && calls < calls' && calls'[|calls|].time == now && calls'[|calls|].allowed == ok
  }

  lemma OneCall(calls: seq<Call>, starts: seq<int>, duration: int, limit: nat, count: nat, last: int, now: int)
    requires Tracks(calls, starts, duration, limit, count, last) && now >= last && Until(calls, now)
    ensures var c := Call(now, count < limit, |starts| - 1);
            Tracks(calls + [c], starts, duration, limit, if count < limit then count + 1 else count, last)
  {
    var c := Call(now, count < limit, |starts| - 1);
    OneInWindow(calls, starts, duration, c);
    forall w: nat | w < |starts|
      ensures AllowedIn(calls + [c], 0, |calls + [c]|, w) ==
                AllowedIn(calls, 0, |calls|, w) + if c.allowed && c.window == w then 1 else 0
    {
      CallCounts(calls, c, w);
    }
  }

  lemma OneInWindow(calls: seq<Call>, starts: seq<int>, duration: int, c: Call)
    requires Windows(calls, starts, duration) && starts != []
    requires c.window == |starts| - 1 && c.time >= starts[|starts| - 1]
    ensures Windows(calls + [c], starts, duration)
  {
  }

  lemma OneMoreCall(calls: seq<Call>, c: Call)
    requires Until(calls, c.time)
    ensures OneMore(calls, calls + [c], c.time, c.allowed) && Until(calls + [c], c.time)
  {
  }

  lemma TryOnce(calls: seq<Call>, starts: seq<int>, duration: int, limit: nat, count: nat, last: int, now: int)
    returns (calls': seq<Call>, starts': seq<int>)
    requires Tracks(calls, starts, duration, limit, count, last) && now >= last && Until(calls, now)
    ensures var reset := now - last > duration;
            var used := if reset then 0 else count;
            && OneMore(calls, calls', now, used < limit)
            && Tracks(calls', starts', duration, limit, if used < limit then used + 1 else used, if reset then now else last)
            && Until(calls', now)
  {
    var n, l := count, last;
    starts' := starts;
    if now - last > duration {
      OpenWindow(calls, starts, duration, limit, count, last, now);
      starts', n, l := starts + [now], 0, now;
    }
    OneCall(calls, starts', duration, limit, n, l, now);
    OneMoreCall(calls, Call(now, n < limit, |starts'| - 1));
    calls' := calls + [Call(now, n < limit, |starts'| - 1)];
  }

  class Rate {
    const limit: nat
    const duration: int
    var count: nat
    var last: int
    ghost var calls: seq<Call>    // since the last reset
    ghost var starts: seq<int>

    ghost predicate Valid()
      reads this
    {
      Tracks(calls, starts, duration, limit, count, last)
    }

    /** The clock has not gone back. */
    ghost predicate NotBefore(now: int)
      reads this
    {
      now >= last && Until(calls, now)
    }

    constructor (limit: nat, duration: int, now: int)
      requires duration >= 0
      ensures Valid() && NotBefore(now) && calls == [] && this.limit == limit && this.duration == duration
      ensures last == now && count == 0
    {
      this.limit, this.duration := limit, duration;
      count, last := 0, now;
      calls, starts := [], [now];
    }

    method Try(now: int) returns (ok: bool)
      requires Valid() && NotBefore(now)
      modifies this
      ensures Valid() && NotBefore(now)
      ensures OneMore(old(calls), calls, now, ok)
      ensures var reset := now - old(last) > duration;
              && (ok <==> (if reset then 0 else old(count)) < limit)
              && count == (if reset then 0 else old(count)) + (if ok then 1 else 0)
              && last == if reset then now else old(last)
    {
      ghost var calls', starts' := TryOnce(calls, starts, duration, limit, count, last, now);
      if now - last > duration {
        count := 0;
        last := now;
      }
      ok := count + 1 <= limit;
      if ok {
        count := count + 1;
      }
      calls, starts := calls', starts';
    }

    method Reset(now: int)
      requires duration >= 0
      modifies this
      ensures Valid() && NotBefore(now) && calls == [] && count == 0 && last == now
    {
      count := 0;
      last := now;
      calls, starts := [], [now];
    }
  }

  lemma {:induction false} SameStart(calls: seq<Call>, c: Call, j: nat, w: nat)
    requires j <= |calls|
    ensures AllowedIn(calls + [c], 0, j, w) == AllowedIn(calls, 0, j, w)
    decreases j
  {
    if j > 0 {
      SameStart(calls, c, j - 1, w);
    }
  }

  lemma CallCounts(calls: seq<Call>, c: Call, w: nat)
    ensures AllowedIn(calls + [c], 0, |calls + [c]|, w) ==
              AllowedIn(calls, 0, |calls|, w) + if c.allowed && c.window == w then 1 else 0
  {
    SameStart(calls, c, |calls|, w);
  }

  lemma {:induction false} NewWindow(calls: seq<Call>, j: nat, w: nat)
    requires j <= |calls| && forall i :: 0 <= i < |calls| ==> calls[i].window < w
    ensures AllowedIn(calls, 0, j, w) == 0
    decreases j
  {
    if j > 0 {
      NewWindow(calls, j - 1, w);
    }
  }

  // ---- How many calls get through ----

  lemma {:induction false} PartCounts(calls: seq<Call>, i: nat, j: nat, n: nat, w: nat)
    requires i <= j <= n <= |calls|
    ensures AllowedIn(calls, i, j, w) <= AllowedIn(calls, 0, n, w)
    decreases n
  {
    if j < n {
      PartCounts(calls, i, j, n - 1, w);
    } else if i < j {
      PartCounts(calls, i, j - 1, n - 1, w);
    }
  }

  /** All the calls from `i` to `j` are in the windows `w` and `w + 1`. */
  ghost predicate InTwo(calls: seq<Call>, i: nat, j: nat, w: nat) {
    forall k :: i <= k < j && k < |calls| ==> calls[k].window == w || calls[k].window == w + 1
  }

  lemma {:induction false} TwoWindows(calls: seq<Call>, i: nat, j: nat, w: nat)
    requires i <= j <= |calls| && InTwo(calls, i, j, w)
    ensures Allowed(calls, i, j) == AllowedIn(calls, i, j, w) + AllowedIn(calls, i, j, w + 1)
    decreases j
  {
    if i < j {
      TwoWindows(calls, i, j - 1, w);
    }
  }

  /** A stretch of time no longer than `duration` sees at most twice the limit. */
  lemma AtMostTwice(calls: seq<Call>, starts: seq<int>, duration: int, limit: nat, count: nat, last: int, i: nat, j: nat)
    requires Tracks(calls, starts, duration, limit, count, last)
    requires i <= j < |calls| && calls[j].time - calls[i].time <= duration
    ensures Allowed(calls, i, j + 1) <= 2 * limit
  {
    var w := calls[i].window;
    ShortSpan(calls, starts, duration, i, j);
    WindowLimit(calls, starts, duration, limit, count, last, w);
    WindowLimit(calls, starts, duration, limit, count, last, w + 1);
    TwoLimits(calls, i, j + 1, w, limit);
  }

  lemma TwoLimits(calls: seq<Call>, i: nat, j: nat, w: nat, limit: nat)
    requires i <= j <= |calls| && InTwo(calls, i, j, w)
    requires AllowedIn(calls, 0, |calls|, w) <= limit && AllowedIn(calls, 0, |calls|, w + 1) <= limit
    ensures Allowed(calls, i, j) <= 2 * limit
  {
    TwoWindows(calls, i, j, w);
    PartCounts(calls, i, j, |calls|, w);
    PartCounts(calls, i, j, |calls|, w + 1);
  }

  lemma WindowLimit(calls: seq<Call>, starts: seq<int>, duration: int, limit: nat, count: nat, last: int, w: nat)
    requires Tracks(calls, starts, duration, limit, count, last)
    ensures AllowedIn(calls, 0, |calls|, w) <= limit
  {
    if w >= |starts| {
      NewWindow(calls, |calls|, w);
    }
  }

  /** Calls no further apart than `duration` are in the same window or in neighbouring ones. */
  lemma ShortSpan(calls: seq<Call>, starts: seq<int>, duration: int, i: nat, j: nat)
    requires Windows(calls, starts, duration) && duration >= 0
    requires i <= j < |calls| && calls[j].time - calls[i].time <= duration
    ensures InTwo(calls, i, j + 1, calls[i].window)
  {
    var w := calls[i].window;
    assert w + 1 < |starts| ==> calls[i].time <= starts[w + 1];
  }

  lemma {:induction false} AllowedBefore(calls: seq<Call>, calls': seq<Call>, j: nat)
    requires j <= |calls| && calls <= calls'
    ensures Allowed(calls', 0, j) == Allowed(calls, 0, j)
    decreases j
  {
    if j > 0 {
      AllowedBefore(calls, calls', j - 1);
    }
  }

  /** `calls'` are `calls` and `n` more at `now`, all of them allowed. */
  ghost predicate Bursts(calls: seq<Call>, calls': seq<Call>, n: nat, now: int) {
    && |calls'| == |calls| + n && calls <= calls'
    && (forall i :: |calls| <= i < |calls'| ==> calls'[i].time == now)
    && Allowed(calls', 0, |calls'|) == Allowed(calls, 0, |calls|) + n
  }

  lemma BurstMore(calls: seq<Call>, calls1: seq<Call>, calls2: seq<Call>, n: nat, now: int)
    requires Bursts(calls, calls1, n, now) && OneMore(calls1, calls2, now, true)
    ensures Bursts(calls, calls2, n + 1, now)
  {
    AllowedBefore(calls1, calls2, |calls1|);
  }

  /** A burst in a window in which nothing was allowed yet: the whole limit gets through at once. */
  method Burst(r: Rate, now: int)
    requires r.Valid() && r.NotBefore(now) && (r.count == 0 || now - r.last > r.duration)
    modifies r
    ensures r.Valid() && r.NotBefore(now)
    ensures Bursts(old(r.calls), r.calls, r.limit, now)
    ensures r.last == if r.limit > 0 && now - old(r.last) > r.duration then now else old(r.last)
  {
    ghost var calls := r.calls;
    for i := 0 to r.limit
      invariant r.Valid() && r.NotBefore(now) && Bursts(calls, r.calls, i, now)
      invariant if i == 0 then r.last == old(r.last) && r.count == old(r.count)
                else r.count == i && r.last == if now - old(r.last) > r.duration then now else old(r.last)
    {
      ghost var before := r.calls;
      var ok := r.Try(now);
      assert ok;
      BurstMore(calls, before, r.calls, i, now);
    }
  }

  /** The bound is reached for every limit: a burst at the end of one window and one at the start of the next. */
  method BothSidesOfAWindow(limit: nat, duration: int) returns (r: Rate)
    requires duration >= 0
    ensures r.Valid() && r.limit == limit && r.duration == duration
    ensures Allowed(r.calls, 0, |r.calls|) == 2 * limit
    ensures forall i :: 0 <= i < |r.calls| ==> duration <= r.calls[i].time <= duration + 1
  {
    r := new Rate(limit, duration, 0);
    Burst(r, duration);
    Burst(r, duration + 1);
  }

  // ---- Strikes ----

  /** Maximal runs of denied calls. */
  function DeniedRuns(allowed: seq<bool>): nat {
    if allowed == [] then 0
    else
      var n := |allowed| - 1;
      DeniedRuns(allowed[..n]) + if !allowed[n] && (n == 0 || allowed[n - 1]) then 1 else 0
  }

  /** The call is denied, and it is the first one or the one before it was allowed. */
  ghost predicate StartsRun(allowed: seq<bool>, i: nat)
    requires i < |allowed|
  {
    !allowed[i] && (i > 0 ==> allowed[i - 1])
  }

  lemma {:induction false} DeniedRunsMeaning(allowed: seq<bool>)
    ensures DeniedRuns(allowed) == |(set i | 0 <= i < |allowed| && StartsRun(allowed, i))|
    decreases |allowed|
  {
    if allowed != [] {
      var n := |allowed| - 1;
      var before := allowed[..n];
      DeniedRunsMeaning(before);
      var was := set i | 0 <= i < n && StartsRun(before, i);
      assert forall i :: 0 <= i < n ==> (StartsRun(before, i) <==> StartsRun(allowed, i));
      assert (set i | 0 <= i < |allowed| && StartsRun(allowed, i)) == was + if StartsRun(allowed, n) then {n} else {};
    }
  }

  class ConsoleThrottle {
    const limit: Rate
    const lock: Power.Locker
    var strikes: nat
    ghost var answers: seq<bool>    // of all calls, whatever was reset in between

    ghost predicate Valid()
      reads this, limit, lock
    {
      && limit.Valid()
      && |lock.ch| <= 1 && !lock.closed
      && (lock.IsLocked() <==> answers != [] && !answers[|answers| - 1])
      && strikes == DeniedRuns(answers)
    }

    constructor (lines: nat, period: int, now: int)
      requires period >= 0
      ensures Valid() && fresh(limit) && fresh(lock) && limit.NotBefore(now) && strikes == 0 && answers == []
    {
      limit := new Rate(lines, period, now);
      lock := new Power.Locker();
      strikes, answers := 0, [];
    }

    /** Strikes once for every run of denied calls. */
    method Allow(now: int) returns (ok: bool)
      requires Valid() && limit.NotBefore(now)
      modifies this, limit, lock
      ensures Valid() && limit.NotBefore(now) && answers == old(answers) + [ok]
      ensures ok <==> (if now - old(limit.last) > limit.duration then 0 else old(limit.count)) < limit.limit
      ensures strikes == old(strikes) + if !ok && (old(answers) == [] || old(answers)[|old(answers)| - 1]) then 1 else 0
    {
      ok := limit.Try(now);
      answers := answers + [ok];
      assert answers[..|answers| - 1] == old(answers);
      if !ok {
        var acquired := lock.Acquire();
        if acquired {
          strikes := strikes + 1;
        }
        return;
      }
      lock.Release();
    }

    method Reset(now: int)
      requires Valid()
      modifies limit
      ensures Valid() && limit.NotBefore(now) && answers == old(answers) && strikes == old(strikes)
    {
      limit.Reset(now);
    }
  }
}
