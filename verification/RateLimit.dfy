/** The frame rate limit of one endpoint, from apps/relay/src/lib.rs. */
module RateLimit {

  const MAX_FRAMES_PER_SECOND: nat := 100

  /** The clock is read once to see how old the window is and again when a new window starts. */
  datatype Arrival = Arrival(checked: real, restarted: real)

  datatype Window = Window(started: real, frames: nat)

  predicate IsFresh(w: Window, a: Arrival) {
    a.checked - w.started >= 1.0
  }

  /** The window after counting a frame. */
  function Counted(w: Window, a: Arrival): Window {
    if IsFresh(w, a) then Window(a.restarted, 1) else Window(w.started, w.frames + 1)
  }

  /** How many frames are forwarded before the endpoint is cut off, if it is. */
  function Forwarded(w: Window, arrivals: seq<Arrival>): (n: nat)
    ensures n <= |arrivals|
    decreases |arrivals|
  {
    if arrivals == [] || Counted(w, arrivals[0]).frames > MAX_FRAMES_PER_SECOND then 0
    else 1 + Forwarded(Counted(w, arrivals[0]), arrivals[1..])
  }

  /** Clock readings never go back. */
  ghost predicate Ordered(start: real, arrivals: seq<Arrival>)
    decreases |arrivals|
  {
    arrivals != [] ==>
      && start <= arrivals[0].checked <= arrivals[0].restarted
      && Ordered(arrivals[0].restarted, arrivals[1..])
  }

  /** How many of the arrivals are in the half-open span. */
  ghost function CountIn(arrivals: seq<Arrival>, low: real, high: real): (n: nat)
    ensures n <= |arrivals|
  {
    if arrivals == [] then 0
    else (if low <= arrivals[0].checked < high then 1 else 0) + CountIn(arrivals[1..], low, high)
  }

  // ----- how many frames get through

  lemma {:induction false} NoneAfter(start: real, arrivals: seq<Arrival>, low: real, high: real)
    requires Ordered(start, arrivals) && start >= high
    ensures CountIn(arrivals, low, high) == 0
    decreases |arrivals|
  {
    if arrivals != [] {
      NoneAfter(arrivals[0].restarted, arrivals[1..], low, high);
    }
  }

  /** The frames that get through and are in the span. */
  ghost function Through(w: Window, arrivals: seq<Arrival>, low: real, high: real): nat {
    CountIn(arrivals[..Forwarded(w, arrivals)], low, high)
  }

  lemma ThroughStep(w: Window, arrivals: seq<Arrival>, low: real, high: real)
    requires arrivals != []
    ensures var next := Counted(w, arrivals[0]);
      Through(w, arrivals, low, high) ==
        if next.frames > MAX_FRAMES_PER_SECOND then 0
        else (if low <= arrivals[0].checked < high then 1 else 0) + Through(next, arrivals[1..], low, high)
  {
    var n := Forwarded(w, arrivals);
    if n > 0 {
      assert arrivals[..n][1..] == arrivals[1..][..n - 1];
    }
  }

  lemma {:induction false} ThroughLate(w: Window, start: real, arrivals: seq<Arrival>, low: real, high: real)
    requires Ordered(start, arrivals) && start >= high
    ensures Through(w, arrivals, low, high) == 0
    decreases |arrivals|
  {
    if arrivals != [] {
      ThroughStep(w, arrivals, low, high);
      ThroughLate(Counted(w, arrivals[0]), arrivals[0].restarted, arrivals[1..], low, high);
    }
  }

  /** At most `m` more windows can start before `high`. */
  lemma {:induction false} AfterWindow(w: Window, start: real, arrivals: seq<Arrival>, low: real, high: real, m: nat)
    requires Ordered(start, arrivals) && w.started <= start && w.frames <= MAX_FRAMES_PER_SECOND
    requires high - m as real <= w.started + 1.0
    ensures Through(w, arrivals, low, high) <= MAX_FRAMES_PER_SECOND - w.frames + MAX_FRAMES_PER_SECOND * m
    decreases |arrivals|
  {
    if arrivals != [] {
      var a := arrivals[0];
      var next := Counted(w, a);
      ThroughStep(w, arrivals, low, high);
      if !IsFresh(w, a) {
        if next.frames <= MAX_FRAMES_PER_SECOND {
          AfterWindow(next, a.restarted, arrivals[1..], low, high, m);
        }
      } else if a.checked >= high {
        ThroughLate(next, a.restarted, arrivals[1..], low, high);
      } else {
        AfterWindow(next, a.restarted, arrivals[1..], low, high, m - 1);
      }
    }
  }

  lemma {:induction false} SpanBound(w: Window, start: real, arrivals: seq<Arrival>, low: real, high: real, n: nat)
    requires Ordered(start, arrivals) && w.started <= start && w.frames <= MAX_FRAMES_PER_SECOND
    requires high <= low + n as real
    ensures Through(w, arrivals, low, high) <= MAX_FRAMES_PER_SECOND * (n + 1)
    decreases |arrivals|
  {
    if arrivals != [] {
      var a := arrivals[0];
      var next := Counted(w, a);
      ThroughStep(w, arrivals, low, high);
      if a.checked < low {
        if next.frames <= MAX_FRAMES_PER_SECOND {
          SpanBound(next, a.restarted, arrivals[1..], low, high, n);
        }
      } else if !IsFresh(w, a) {
        AfterWindow(w, start, arrivals, low, high, n);
      } else if a.checked >= high {
        ThroughLate(next, a.restarted, arrivals[1..], low, high);
      } else {
        AfterWindow(next, a.restarted, arrivals[1..], low, high, n - 1);
      }
    }
  }

  function Ceiling(t: real): int {
    -((-t).Floor)
  }

  /** In any half-open span of `t` seconds at most 100 * (ceiling of t + 1) frames are forwarded. */
  lemma RateIsBounded(start: real, arrivals: seq<Arrival>, low: real, t: real)
    requires Ordered(start, arrivals) && t >= 0.0
    ensures CountIn(arrivals[..Forwarded(Window(start, 0), arrivals)], low, low + t)
      <= 100 * (Ceiling(t) + 1)
  {
    SpanBound(Window(start, 0), start, arrivals, low, low + t, Ceiling(t));
  }

  // ----- who is never cut off

  /** Among the frames before `end`, the run that starts at `first` and that a window covers. */
  ghost predicate Covers(w: Window, start: real, arrivals: seq<Arrival>, first: nat, end: nat) {
    && first <= end <= |arrivals| && w.frames == end - first
    && (first < end ==> w.started <= arrivals[first].restarted)
    && (first == end ==> w.started <= start && end == 0)
    && (forall j :: first < j < end ==> arrivals[j].checked < w.started + 1.0)
  }

  /** Whenever the clock has not moved on by a second, at most 100 frames have come. */
  ghost predicate KeepsToRate(arrivals: seq<Arrival>) {
    forall i, j :: 0 <= i <= j < |arrivals| && arrivals[j].checked < arrivals[i].restarted + 1.0 ==>
      j - i + 1 <= 100
  }

  lemma {:induction false} OrderedFrom(start: real, arrivals: seq<Arrival>, k: nat)
    requires Ordered(start, arrivals) && k < |arrivals|
    ensures start <= arrivals[k].checked <= arrivals[k].restarted
    ensures k + 1 < |arrivals| ==> arrivals[k].restarted <= arrivals[k + 1].checked
    decreases k
  {
    if k > 0 {
      OrderedFrom(arrivals[0].restarted, arrivals[1..], k - 1);
    }
  }

  lemma CoversNext(w: Window, start: real, arrivals: seq<Arrival>, first: nat, end: nat) returns (next: nat)
    requires Ordered(start, arrivals) && Covers(w, start, arrivals, first, end) && end < |arrivals|
    requires KeepsToRate(arrivals)
    ensures Covers(Counted(w, arrivals[end]), start, arrivals, next, end + 1)
    ensures Counted(w, arrivals[end]).frames <= MAX_FRAMES_PER_SECOND
  {
    OrderedFrom(start, arrivals, end);
    if IsFresh(w, arrivals[end]) {
      next := end;
    } else {
      next := first;
      assert first == end || arrivals[end].checked < arrivals[first].restarted + 1.0;
    }
  }

  lemma {:induction false} AllForwarded(w: Window, start: real, arrivals: seq<Arrival>, first: nat, end: nat)
    requires Ordered(start, arrivals) && Covers(w, start, arrivals, first, end) && KeepsToRate(arrivals)
    ensures Forwarded(w, arrivals[end..]) == |arrivals| - end
    decreases |arrivals| - end
  {
    if end < |arrivals| {
      var next := CoversNext(w, start, arrivals, first, end);
      AllForwarded(Counted(w, arrivals[end]), start, arrivals, next, end + 1);
      assert arrivals[end..][1..] == arrivals[end + 1..];
    }
  }

  lemma {:induction false} CountOfRun(start: real, arrivals: seq<Arrival>, i: nat, j: nat, low: real, high: real)
    requires Ordered(start, arrivals) && i <= j < |arrivals| && low <= arrivals[i].checked && arrivals[j].checked < high
    ensures CountIn(arrivals, low, high) >= j - i + 1
    decreases j
  {
    if i > 0 {
      CountOfRun(arrivals[0].restarted, arrivals[1..], i - 1, j - 1, low, high);
    } else if j > 0 {
      OrderedFrom(arrivals[0].restarted, arrivals[1..], j - 1);
      CountOfRun(arrivals[0].restarted, arrivals[1..], 0, j - 1, low, high);
    }
  }

  ghost function InSecond(arrivals: seq<Arrival>, t: real): nat {
    CountIn(arrivals, t, t + 1.0)
  }

  ghost predicate WithinRate(arrivals: seq<Arrival>) {
    forall t: real :: InSecond(arrivals, t) <= 100
  }

  /** Never cut off if at most 100 frames come while the clock is less than a second past the later
    reading for any earlier frame. */
  lemma RateKeeperIsNeverCut(start: real, arrivals: seq<Arrival>)
    requires Ordered(start, arrivals) && KeepsToRate(arrivals)
    ensures Forwarded(Window(start, 0), arrivals) == |arrivals|
  {
    AllForwarded(Window(start, 0), start, arrivals, 0, 0);
    assert arrivals[0..] == arrivals;
  }

  // ----- when exactly

  /** The window after counting all the frames, as if none were cut off. */
  function WindowAfter(w: Window, arrivals: seq<Arrival>): Window {
    if arrivals == [] then w
    else Counted(WindowAfter(w, arrivals[..|arrivals| - 1]), arrivals[|arrivals| - 1])
  }

  /** Frame `i` is the first of a new window, so the clock is read a second time for it. */
  predicate StartsWindow(start: real, arrivals: seq<Arrival>, i: nat)
    requires i < |arrivals|
  {
    IsFresh(WindowAfter(Window(start, 0), arrivals[..i]), arrivals[i])
  }

  /** There is no second reading for a frame that starts no window. */
  ghost predicate ReadsOnce(start: real, arrivals: seq<Arrival>) {
    forall i :: 0 <= i < |arrivals| && !StartsWindow(start, arrivals, i) ==>
      arrivals[i].restarted == arrivals[i].checked
  }

  lemma {:induction false} WindowFront(w: Window, arrivals: seq<Arrival>)
    requires arrivals != []
    ensures WindowAfter(w, arrivals) == WindowAfter(Counted(w, arrivals[0]), arrivals[1..])
    decreases |arrivals|
  {
    var n := |arrivals| - 1;
    if n > 0 {
      WindowFront(w, arrivals[..n]);
      assert arrivals[..n][1..] == arrivals[1..][..n - 1];
    } else {
      assert arrivals[..n] == [] && arrivals[1..] == [];
    }
  }

  /** When every frame is forwarded no window ever holds more than 100. */
  lemma {:induction false} WindowsStaySmall(w: Window, arrivals: seq<Arrival>, k: nat)
    requires Forwarded(w, arrivals) == |arrivals| && k < |arrivals|
    ensures WindowAfter(w, arrivals[..k + 1]).frames <= MAX_FRAMES_PER_SECOND
    decreases |arrivals|
  {
    var front := arrivals[..k + 1];
    WindowFront(w, front);
    assert front[1..] == arrivals[1..][..k];
    if k > 0 {
      WindowsStaySmall(Counted(w, arrivals[0]), arrivals[1..], k - 1);
    }
  }

  lemma {:induction false} ClockGoesOn(start: real, arrivals: seq<Arrival>, i: nat, j: nat)
    requires Ordered(start, arrivals) && i <= j < |arrivals|
    ensures arrivals[i].checked <= arrivals[j].checked
    decreases j
  {
    if i < j {
      ClockGoesOn(start, arrivals, i, j - 1);
      OrderedFrom(start, arrivals, j - 1);
    }
  }

  /** The window that frame `i` starts counts every frame up to `j`. */
  lemma {:induction false} WindowCounts(start: real, arrivals: seq<Arrival>, i: nat, j: nat)
    requires Ordered(start, arrivals) && i <= j < |arrivals| && StartsWindow(start, arrivals, i)
    requires arrivals[j].checked < arrivals[i].restarted + 1.0
    ensures WindowAfter(Window(start, 0), arrivals[..j + 1]) == Window(arrivals[i].restarted, j - i + 1)
    decreases j
  {
    assert arrivals[..j + 1][..j] == arrivals[..j];
    if i < j {
      ClockGoesOn(start, arrivals, j - 1, j);
      WindowCounts(start, arrivals, i, j - 1);
    }
  }

  lemma PairKeepsToRate(start: real, arrivals: seq<Arrival>, i: nat, j: nat)
    requires Ordered(start, arrivals) && WithinRate(arrivals) && ReadsOnce(start, arrivals)
    requires i <= j < |arrivals| && arrivals[j].checked < arrivals[i].restarted + 1.0
    requires Forwarded(Window(start, 0), arrivals) == |arrivals|
    ensures j - i + 1 <= MAX_FRAMES_PER_SECOND
  {
    if StartsWindow(start, arrivals, i) {
      WindowCounts(start, arrivals, i, j);
      WindowsStaySmall(Window(start, 0), arrivals, j);
    } else {
      CountOfRun(start, arrivals, i, j, arrivals[i].checked, arrivals[i].checked + 1.0);
      assert InSecond(arrivals, arrivals[i].checked) >= j - i + 1;
    }
  }

  /** An endpoint that sends at most 100 frames in every half-open second is never cut off exactly
    when at most 100 come until a second after the later reading of any frame. */
  lemma NeverCutExactly(start: real, arrivals: seq<Arrival>)
    requires Ordered(start, arrivals) && WithinRate(arrivals) && ReadsOnce(start, arrivals)
    ensures Forwarded(Window(start, 0), arrivals) == |arrivals| <==> KeepsToRate(arrivals)
  {
    if KeepsToRate(arrivals) {
      RateKeeperIsNeverCut(start, arrivals);
    }
    if Forwarded(Window(start, 0), arrivals) == |arrivals| {
      forall i, j | 0 <= i <= j < |arrivals| && arrivals[j].checked < arrivals[i].restarted + 1.0
        ensures j - i + 1 <= MAX_FRAMES_PER_SECOND
      {
        PairKeepsToRate(start, arrivals, i, j);
      }
    }
  }

  /** In particular it is never cut off if the clock does not advance between two readings. */
  lemma SteadySenderIsNeverCut(start: real, arrivals: seq<Arrival>)
    requires Ordered(start, arrivals) && WithinRate(arrivals)
    requires forall i :: 0 <= i < |arrivals| ==> arrivals[i].restarted == arrivals[i].checked
    ensures Forwarded(Window(start, 0), arrivals) == |arrivals|
  {
    forall i, j | 0 <= i <= j < |arrivals| && arrivals[j].checked < arrivals[i].restarted + 1.0
      ensures j - i + 1 <= MAX_FRAMES_PER_SECOND
    {
      CountOfRun(start, arrivals, i, j, arrivals[i].checked, arrivals[i].checked + 1.0);
      assert InSecond(arrivals, arrivals[i].checked) >= j - i + 1;
    }
    RateKeeperIsNeverCut(start, arrivals);
  }

  /** `n` frames at one moment. */
  function Burst(t: real, n: nat): (arrivals: seq<Arrival>)
    ensures |arrivals| == n
  {
    if n == 0 then [] else [Arrival(t, t)] + Burst(t, n - 1)
  }

  lemma {:induction false} BurstCount(t: real, n: nat, low: real, high: real)
    ensures CountIn(Burst(t, n), low, high) == if low <= t < high then n else 0
    ensures Ordered(t, Burst(t, n))
  {
    if n > 0 {
      BurstCount(t, n - 1, low, high);
      assert Burst(t, n)[1..] == Burst(t, n - 1);
    }
  }

  lemma {:induction false} BurstForwarded(w: Window, t: real, n: nat)
    requires t - w.started < 1.0 && w.frames <= MAX_FRAMES_PER_SECOND
    ensures Forwarded(w, Burst(t, n))
      == if n <= MAX_FRAMES_PER_SECOND - w.frames then n else MAX_FRAMES_PER_SECOND - w.frames
    decreases n
  {
    if n > 0 {
      assert Burst(t, n)[1..] == Burst(t, n - 1);
      if w.frames < MAX_FRAMES_PER_SECOND {
        BurstForwarded(Counted(w, Arrival(t, t)), t, n - 1);
      }
    }
  }

  /** Any gap between the two readings is too much: within the rate, an endpoint whose first frame
    starts a window with a gap of up to two seconds can lose its last frame. */
  lemma SlowClockCutsOff(gap: real, n: nat)
    requires 0.0 < gap <= 2.0 && n == 100
    ensures var arrivals := [Arrival(1.0, 1.0 + gap)] + Burst(2.0 + gap / 2.0, n);
      && Ordered(0.0, arrivals) && WithinRate(arrivals) && ReadsOnce(0.0, arrivals)
      && Forwarded(Window(0.0, 0), arrivals) < |arrivals|
  {
    var later := 2.0 + gap / 2.0;
    var arrivals := [Arrival(1.0, 1.0 + gap)] + Burst(later, n);
    assert arrivals[1..] == Burst(later, n);
    forall t: real ensures InSecond(arrivals, t) <= n {
      BurstCount(later, n, t, t + 1.0);
    }
    BurstCount(later, n, 0.0, 0.0);
    OrderedLater(1.0 + gap, later, Burst(later, n));
    BurstForwarded(Window(1.0 + gap, 1), later, n);
    forall i | 0 < i < |arrivals| ensures arrivals[i].restarted == arrivals[i].checked {
      BurstReadings(later, n, i - 1);
    }
    assert arrivals[..0] == [] && StartsWindow(0.0, arrivals, 0);
  }

  lemma {:induction false} BurstReadings(t: real, n: nat, i: nat)
    requires i < n
    ensures Burst(t, n)[i] == Arrival(t, t)
    decreases n
  {
    if i > 0 { BurstReadings(t, n - 1, i - 1); }
  }

  lemma OrderedLater(start: real, later: real, arrivals: seq<Arrival>)
    requires start <= later && Ordered(later, arrivals)
    ensures Ordered(start, arrivals)
  {
  }

  // ----- the source's counter

  class Limiter {
    var windowStarted: real
    var frames: nat

    ghost function View(): Window
      reads this
    {
      Window(windowStarted, frames)
    }

    constructor (now: real)
      ensures View() == Window(now, 0)
    {
      windowStarted, frames := now, 0;
    }

    method Admit(a: Arrival) returns (admitted: bool)
      modifies this
      ensures View() == Counted(old(View()), a)
      ensures admitted <==> View().frames <= 100
    {
      if a.checked - windowStarted >= 1.0 {
        windowStarted := a.restarted;
        frames := 0;
      }
      frames := frames + 1;
      admitted := frames <= MAX_FRAMES_PER_SECOND;
    }
  }

  /** Read frames until the stream ends or the limit is exceeded. */
  method ReadAll(start: real, arrivals: seq<Arrival>) returns (forwarded: nat)
    ensures forwarded == Forwarded(Window(start, 0), arrivals)
  {
    var limiter := new Limiter(start);
    forwarded := 0;
    while forwarded < |arrivals|
      invariant forwarded <= |arrivals|
      invariant Forwarded(Window(start, 0), arrivals) == forwarded + Forwarded(limiter.View(), arrivals[forwarded..])
    {
      var admitted := limiter.Admit(arrivals[forwarded]);
      if !admitted {
        break;
      }
      assert arrivals[forwarded..][1..] == arrivals[forwarded + 1..];
      forwarded := forwarded + 1;
    }
  }
}
