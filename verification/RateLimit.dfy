/** src/plugins/openai_proxy.c, rate_limit_ok: a fixed window that opens at the first call
    of a minute, and the bound it gives on every sliding minute. */
module RateLimit {
  import opened Text

  const WINDOW: nat := 60

  datatype Window = Window(start: nat, hits: nat)

  /** One call at second `now`; a limit of 0 admits everything. */
  function RateStep(rpm: nat, w: Window, now: nat): (bool, Window) {
    if rpm == 0 then (true, w)
    else
      var w' := if w.start == 0 || now >= w.start + WINDOW then Window(now, 0) else w;
      if w'.hits >= rpm then (false, w') else (true, w'.(hits := w'.hits + 1))
  }

  /** A run of calls on a clock that never goes back, and the seconds of the admitted ones. */
  datatype Run = Run(w: Window, last: nat, admitted: seq<nat>)

  function Calls(rpm: nat, times: seq<nat>): Run {
    if times == [] then Run(Window(0, 0), 0, [])
    else
      var r, now := Calls(rpm, times[..|times| - 1]), times[|times| - 1];
      var (ok, w) := RateStep(rpm, r.w, now);
      Run(w, now, if ok then r.admitted + [now] else r.admitted)
  }

  predicate Clock(times: seq<nat>) {
    && (forall i | 0 <= i < |times| :: times[i] > 0)
    && forall i, j | 0 <= i < j < |times| :: times[i] <= times[j]
  }

  /** How many of the seconds lie in [lo, hi). */
  function Within(s: seq<nat>, lo: int, hi: int): nat {
    if s == [] then 0
    else Within(s[..|s| - 1], lo, hi) + if lo <= s[|s| - 1] < hi then 1 else 0
  }

  /** Calls in the minute [t, t + 60). */
  function InMinute(s: seq<nat>, t: int): nat {
    Within(s, t, t + WINDOW)
  }

  lemma {:induction false} WithinSplit(s: seq<nat>, lo: int, mid: int, hi: int)
    requires lo <= mid <= hi
    ensures Within(s, lo, hi) == Within(s, lo, mid) + Within(s, mid, hi)
  {
    if s != [] { WithinSplit(s[..|s| - 1], lo, mid, hi); }
  }

  lemma {:induction false} WithinNone(s: seq<nat>, lo: int, hi: int)
    requires forall i | 0 <= i < |s| :: s[i] < lo
    ensures Within(s, lo, hi) == 0
  {
    if s != [] { WithinNone(s[..|s| - 1], lo, hi); }
  }

  lemma WithinSub(s: seq<nat>, lo: int, lo': int, hi': int, hi: int)
    requires lo <= lo' <= hi' <= hi
    ensures Within(s, lo', hi') <= Within(s, lo, hi)
  {
    WithinSplit(s, lo, lo', hi);
    WithinSplit(s, lo', hi', hi);
  }

  /** Everything the window says about the admitted calls: it opened with one of them, it
      counts those since, and fewer than the limit came in the 59 seconds before. */
  ghost predicate WindowOk(rpm: nat, r: Run) {
    var a, start := r.admitted, r.w.start;
    && r.w.hits <= rpm && (forall i | 0 <= i < |a| :: a[i] <= r.last)
    && if start == 0 then a == [] && r.last == 0
       else
         && start <= r.last < start + WINDOW
         && Within(a, start, start + WINDOW) == r.w.hits
         && Within(a, start + 1, start + WINDOW) + 1 <= r.w.hits
         && Within(a, start - WINDOW + 1, start) <= rpm - 1
  }

  ghost predicate Bounded(rpm: nat, a: seq<nat>) {
    forall t: int :: InMinute(a, t) <= 2 * rpm - 1
  }

  lemma Snoc(a: seq<nat>, x: nat, lo: int, hi: int)
    ensures Within(a + [x], lo, hi) == Within(a, lo, hi) + if lo <= x < hi then 1 else 0
  {
    assert (a + [x])[..|a|] == a;
  }

  /** A call that opens a new window. */
  lemma OpensWindow(rpm: nat, r: Run, now: nat)
    requires rpm > 0 && WindowOk(rpm, r) && Bounded(rpm, r.admitted) && now >= r.last && now > 0
    requires r.w.start == 0 || now >= r.w.start + WINDOW
    ensures WindowOk(rpm, Run(Window(now, 1), now, r.admitted + [now]))
    ensures Bounded(rpm, r.admitted + [now])
  {
    var a, start := r.admitted, r.w.start;
    WithinNone(a, now, now + WINDOW);
    WithinNone(a, now + 1, now + WINDOW);
    Snoc(a, now, now, now + WINDOW);
    Snoc(a, now, now + 1, now + WINDOW);
    Snoc(a, now, now - WINDOW + 1, now);
    if start != 0 {
      RecentHits(rpm, r, now - WINDOW + 1, now);
    }
    assert Bounded(rpm, a);
    forall t: int ensures InMinute(a + [now], t) <= 2 * rpm - 1 {
      assert InMinute(a, t) <= 2 * rpm - 1;
      Snoc(a, now, t, t + WINDOW);
      if t <= now < t + WINDOW && start != 0 {
        RecentHits(rpm, r, t, t + WINDOW);
      }
    }
  }

  /** Since after the opening of the current window: at most the limit less one. */
  lemma RecentHits(rpm: nat, r: Run, lo: int, hi: int)
    requires rpm > 0 && WindowOk(rpm, r) && r.w.start != 0 && r.w.start + 1 <= lo <= hi
    ensures Within(r.admitted, lo, hi) <= rpm - 1
  {
    var a, start := r.admitted, r.w.start;
    var top := if hi > start + WINDOW then hi else start + WINDOW;
    WithinSub(a, start + 1, lo, hi, top);
    WithinSplit(a, start + 1, start + WINDOW, top);
    WithinNone(a, start + WINDOW, top);
  }

  /** An admitted call inside the current window. */
  lemma HitsWindow(rpm: nat, r: Run, now: nat)
    requires rpm > 0 && WindowOk(rpm, r) && Bounded(rpm, r.admitted)
    requires r.w.start != 0 && r.last <= now < r.w.start + WINDOW && r.w.hits < rpm
    ensures WindowOk(rpm, Run(r.w.(hits := r.w.hits + 1), now, r.admitted + [now]))
    ensures Bounded(rpm, r.admitted + [now])
  {
    var a, start := r.admitted, r.w.start;
    Snoc(a, now, start, start + WINDOW);
    Snoc(a, now, start + 1, start + WINDOW);
    Snoc(a, now, start - WINDOW + 1, start);
    assert Bounded(rpm, a);
    forall t: int ensures InMinute(a + [now], t) <= 2 * rpm - 1 {
      assert InMinute(a, t) <= 2 * rpm - 1;
      Snoc(a, now, t, t + WINDOW);
      if t <= now < t + WINDOW {
        TwoWindows(rpm, r, now, t);
      }
    }
  }

  lemma TwoWindows(rpm: nat, r: Run, now: nat, t: int)
    requires rpm > 0 && WindowOk(rpm, r)
    requires r.w.start != 0 && r.last <= now < r.w.start + WINDOW && r.w.hits < rpm && t <= now < t + WINDOW
    ensures Within(r.admitted, t, t + WINDOW) <= 2 * rpm - 2
  {
    var a, start := r.admitted, r.w.start;
    var top := if start + WINDOW > t + WINDOW then start + WINDOW else t + WINDOW;
    WithinSplit(a, start, start + WINDOW, top);
    WithinNone(a, start + WINDOW, top);
    if t >= start {
      WithinSub(a, start, t, t + WINDOW, top);
    } else {
      WithinSplit(a, t, start, t + WINDOW);
      WithinSub(a, start, start, t + WINDOW, top);
      WithinSub(a, start - WINDOW + 1, t, start, start);
    }
  }

  lemma NothingAdmitted(rpm: nat)
    requires rpm > 0
    ensures Bounded(rpm, [])
  {
    assert forall t: int :: InMinute([], t) == 0;
  }

  /** On a positive clock that never goes back, no minute [t, t + 60) holds more than
      2 * rpm - 1 admitted calls. */
  lemma {:induction false} EveryMinuteBounded(rpm: nat, times: seq<nat>)
    requires rpm > 0 && Clock(times)
    ensures WindowOk(rpm, Calls(rpm, times)) && Bounded(rpm, Calls(rpm, times).admitted)
    ensures times != [] ==> Calls(rpm, times).last == times[|times| - 1]
  {
    hide Bounded, Within;
    if times == [] {
      NothingAdmitted(rpm);
    } else {
      var r, now := Calls(rpm, times[..|times| - 1]), times[|times| - 1];
      EveryMinuteBounded(rpm, times[..|times| - 1]);
      if r.w.start == 0 || now >= r.w.start + WINDOW {
        OpensWindow(rpm, r, now);
      } else if r.w.hits < rpm {
        HitsWindow(rpm, r, now);
      }
    }
  }

  // ----- the bound is sharp -----------------------------------------------------------------

  function Repeat(n: nat, x: nat): (s: seq<nat>)
    ensures |s| == n
  {
    seq(n, _ => x)
  }

  lemma OneCall(rpm: nat, times: seq<nat>, now: nat)
    ensures var r, (ok, w) := Calls(rpm, times), RateStep(rpm, Calls(rpm, times).w, now);
            Calls(rpm, times + [now]) == Run(w, now, if ok then r.admitted + [now] else r.admitted)
  {
    assert (times + [now])[..|times|] == times;
  }

  /** Calls of one second inside an open window are admitted up to the limit. */
  lemma {:induction false} CallsRepeat(rpm: nat, times: seq<nat>, now: nat, k: nat)
    requires rpm > 0
    requires var w := Calls(rpm, times).w; w.start != 0 && now < w.start + WINDOW && w.hits + k <= rpm
    ensures var r, r' := Calls(rpm, times), Calls(rpm, times + Repeat(k, now));
            r'.w == Window(r.w.start, r.w.hits + k) && r'.admitted == r.admitted + Repeat(k, now)
  {
    hide Calls;
    if k == 0 {
      assert times + Repeat(0, now) == times;
      assert Calls(rpm, times).admitted + Repeat(0, now) == Calls(rpm, times).admitted;
    } else {
      CallsRepeat(rpm, times, now, k - 1);
      OneCall(rpm, times + Repeat(k - 1, now), now);
      assert times + Repeat(k, now) == times + Repeat(k - 1, now) + [now];
      var a := Calls(rpm, times).admitted;
      assert a + Repeat(k, now) == a + Repeat(k - 1, now) + [now];
    }
  }

  lemma {:induction false} WithinRepeat(a: seq<nat>, x: nat, k: nat, lo: int, hi: int)
    ensures Within(a + Repeat(k, x), lo, hi) == Within(a, lo, hi) + if lo <= x < hi then k else 0
  {
    hide Within;
    if k == 0 {
      assert a + Repeat(0, x) == a;
    } else {
      WithinRepeat(a, x, k - 1, lo, hi);
      Snoc(a + Repeat(k - 1, x), x, lo, hi);
      assert a + Repeat(k, x) == a + Repeat(k - 1, x) + [x];
    }
  }

  /** One call at second 1, the rest of its window at second 60, and a full window at 61. */
  function Burst(rpm: nat): seq<nat>
    requires rpm > 0
  {
    [1] + Repeat(rpm - 1, 60) + Repeat(rpm, 61)
  }

  lemma RepeatFirst(k: nat, x: nat)
    requires k > 0
    ensures Repeat(k, x) == [x] + Repeat(k - 1, x)
  {}

  lemma BurstAdmitted(rpm: nat)
    requires rpm > 0
    ensures Calls(rpm, Burst(rpm)).admitted == Burst(rpm)
  {
    assert Calls(rpm, []) == Run(Window(0, 0), 0, []);
    RepeatFirst(rpm, 61);
    hide Calls, Repeat;
    OneCall(rpm, [], 1);
    assert [] + [1] == [1];
    CallsRepeat(rpm, [1], 60, rpm - 1);
    var first := [1] + Repeat(rpm - 1, 60);
    OneCall(rpm, first, 61);
    CallsRepeat(rpm, first + [61], 61, rpm - 1);
    assert first + [61] + Repeat(rpm - 1, 61) == first + ([61] + Repeat(rpm - 1, 61));
  }

  /** For every limit the bound is reached. */
  lemma BoundIsReached(rpm: nat)
    requires rpm > 0
    ensures Clock(Burst(rpm)) && InMinute(Calls(rpm, Burst(rpm)).admitted, 60) == 2 * rpm - 1
  {
    BurstAdmitted(rpm);
    hide Calls;
    WithinRepeat([1] + Repeat(rpm - 1, 60), 61, rpm, 60, 120);
    WithinRepeat([1], 60, rpm - 1, 60, 120);
    Snoc([], 1, 60, 120);
    assert [] + [1] == [1];
  }

  /** No minute of any clock holds more calls than the limit if and only if the limit
      is 1. */
  lemma MinuteLimitHolds(rpm: nat)
    requires rpm > 0
    ensures (forall times: seq<nat>, t: int | Clock(times) :: InMinute(Calls(rpm, times).admitted, t) <= rpm) <==> rpm == 1
  {
    hide Calls, InMinute, Clock;
    if rpm == 1 {
      forall times: seq<nat>, t: int | Clock(times) ensures InMinute(Calls(rpm, times).admitted, t) <= rpm {
        EveryMinuteBounded(rpm, times);
      }
    } else {
      BoundIsReached(rpm);
    }
  }

  /** A limit of 0 is none: every call is admitted. */
  lemma {:induction false} NoLimit(times: seq<nat>)
    ensures Calls(0, times).admitted == times
  {
    hide RateStep;
    if times != [] {
      var n := |times| - 1;
      NoLimit(times[..n]);
      ZeroAdmits(Calls(0, times[..n]).w, times[n]);
      assert times[..n] + [times[n]] == times;
    }
  }

  lemma ZeroAdmits(w: Window, now: nat)
    ensures RateStep(0, w, now) == (true, w)
  {}

  /** The first call of a minute is always admitted. */
  lemma FirstIsAdmitted(rpm: nat, times: seq<nat>, now: nat)
    requires rpm > 0 && (times == [] || now >= times[|times| - 1] + WINDOW) && Clock(times) && now > 0
    ensures Calls(rpm, times + [now]).admitted == Calls(rpm, times).admitted + [now]
  {
    assert (times + [now])[..|times|] == times;
    WindowStart(rpm, times);
  }

  lemma {:induction false} WindowStart(rpm: nat, times: seq<nat>)
    requires Clock(times)
    ensures Calls(rpm, times).w.start <= if times == [] then 0 else times[|times| - 1]
  {
    if times != [] { WindowStart(rpm, times[..|times| - 1]); }
  }
}
