/** The two-counter sliding-window request rate of one tracked IP.

    `RateOf` replays the counter updates over a request history; the lemmas compare the
    two counters and the approximate rate with exact counts over that history. */
module SlidingRate {
  import opened Basics

  /** One request as the tracker saw it: the log entry's fields it keeps, and the rate
      window that was configured when the request was counted. */
  datatype Seen = Seen(path: string, notFound: bool, time: Time, window: int)

  /** The window start (0 while not started) and the two counters. */
  datatype Rate = Rate(start: Time, curr: nat, prev: nat)

  /** Counts one request at `t`: the three shift/reset cases after the first request. */
  function Advance(r: Rate, w: int, t: Time): Rate {
    if r.start == 0 then Rate(t, 1, r.prev)
    else if t - r.start >= 2 * w then Rate(t, 1, 0)
    else if t - r.start >= w then Rate(r.start + w, 1, r.curr)
    else r.(curr := r.curr + 1)
  }

  function RateOf(h: seq<Seen>): Rate {
    if h == [] then Rate(0, 0, 0)
    else Advance(RateOf(h[..|h| - 1]), h[|h| - 1].window, h[|h| - 1].time)
  }

  /** The number of requests with `lo <= time < hi`. */
  function CountIn(h: seq<Seen>, lo: Time, hi: Time): nat {
    if h == [] then 0
    else CountIn(h[..|h| - 1], lo, hi) + if lo <= h[|h| - 1].time < hi then 1 else 0
  }

  /** The estimated number of requests in the window that ends at `now`. */
  function Estimate(r: Rate, window: int, now: Time): real
    requires window > 0
  {
    var elapsed := now - r.start;
    if elapsed >= 2 * window then 0.0
    else if elapsed >= window then r.curr as real * (1.0 - Fraction(elapsed - window, window))
    else r.prev as real * (1.0 - Fraction(elapsed, window)) + r.curr as real
  }

  function Fraction(elapsed: int, window: int): (f: real)
    requires window > 0
    ensures 0 <= elapsed <= window ==> 0.0 <= f <= 1.0
  {
    elapsed as real / window as real
  }

  /** The approximate rate per second that the counters give at `now`. */
  function Read(r: Rate, window: int, now: Time): real {
    if window <= 0 || r.start == 0 then 0.0
    else Estimate(r, window, now) / (window as real / NANOS_PER_SECOND as real)
  }

  ghost predicate FixedWindow(h: seq<Seen>, w: int) {
    forall i :: 0 <= i < |h| ==> h[i].window == w
  }

  ghost predicate Ordered(h: seq<Seen>) {
    forall i, j :: 0 <= i <= j < |h| ==> h[i].time <= h[j].time
  }

  /** Both counters are exact: `curr` counts [start, start+w) and `prev` counts [start-w, start). */
  ghost predicate Exact(h: seq<Seen>, w: int) {
    var r := RateOf(h);
    && r.curr == CountIn(h, r.start, r.start + w)
    && r.prev == CountIn(h, r.start - w, r.start)
  }

  /** Exact counters on a started window that covers every request so far. */
  ghost predicate Tracking(h: seq<Seen>, w: int) {
    var r := RateOf(h);
    && h != []
    && Exact(h, w)
    && 0 < r.start <= h[|h| - 1].time
    && forall i :: 0 <= i < |h| ==> h[i].time < r.start + w
  }

  /** When the very first request carries the zero time, the next one restarts the window and
      the first request is forgotten; that is harmless only if it had already left the window. */
  ghost predicate StartsCleanly(h: seq<Seen>, w: int) {
    |h| <= 1 || h[0].time != 0 || h[1].time > w
  }

  lemma {:induction false} CountNone(h: seq<Seen>, lo: Time, hi: Time)
    requires forall i :: 0 <= i < |h| ==> !(lo <= h[i].time < hi)
    ensures CountIn(h, lo, hi) == 0
  {
    if h == [] {
    } else {
      CountNone(h[..|h| - 1], lo, hi);
    }
  }

  lemma {:induction false} CountSplit(h: seq<Seen>, lo: Time, mid: Time, hi: Time)
    requires lo <= mid <= hi
    ensures CountIn(h, lo, hi) == CountIn(h, lo, mid) + CountIn(h, mid, hi)
  {
    if h == [] {
    } else {
      CountSplit(h[..|h| - 1], lo, mid, hi);
    }
  }

  /** Each update keeps the counters exact, through all three shift/reset cases. */
  lemma AdvanceKeepsTracking(h: seq<Seen>, w: int)
    requires |h| > 1 && w > 0 && FixedWindow(h, w) && Ordered(h)
    requires Tracking(h[..|h| - 1], w)
    ensures Tracking(h, w)
  {
    var before, t := h[..|h| - 1], h[|h| - 1].time;
    var r, r' := RateOf(before), RateOf(h);
    assert before[|before| - 1] == h[|h| - 2];
    assert forall i :: 0 <= i < |before| ==> before[i] == h[i] && h[i].time < r.start + w;
    if t - r.start >= 2 * w {
      CountNone(before, t - w, t);
      CountNone(before, t, t + w);
    } else if t - r.start >= w {
      CountNone(before, r'.start, r'.start + w);
    }
  }

  /** For every request sequence with non-decreasing times and one fixed window, both counters
      are exact after every request. */
  lemma {:induction false} CountersExact(h: seq<Seen>, w: int)
    requires w > 0 && h != [] && FixedWindow(h, w) && Ordered(h)
    requires 0 <= h[0].time && StartsCleanly(h, w)
    ensures Exact(h, w)
    ensures h[|h| - 1].time > 0 ==> Tracking(h, w)
  {
    if |h| == 1 {
      assert RateOf(h[..0]) == Rate(0, 0, 0);
    } else {
      var before := h[..|h| - 1];
      CountersExact(before, w);
      if before[|before| - 1].time > 0 {
        AdvanceKeepsTracking(h, w);
      } else {
        assert |before| == 1;
        assert RateOf(before[..0]) == Rate(0, 0, 0);
        assert before[..0] == [];
        CountNone(before, h[1].time - w, h[1].time + w);
        CountSplit(before, h[1].time - w, h[1].time, h[1].time + w);
      }
    }
  }

  /** The counters are exact after every request of a run if and only if the run starts cleanly. */
  lemma ExactThroughoutIff(h: seq<Seen>, w: int)
    requires w > 0 && h != [] && FixedWindow(h, w) && Ordered(h) && 0 <= h[0].time
    ensures (forall k :: 1 <= k <= |h| ==> Exact(h[..k], w)) <==> StartsCleanly(h, w)
  {
    if StartsCleanly(h, w) {
      forall k | 1 <= k <= |h| ensures Exact(h[..k], w) {
        CountersExact(h[..k], w);
      }
    } else {
      var two := h[..2];
      assert two[..1][..0] == [] && two[..1] == [h[0]];
      assert RateOf(two[..1]) == Rate(0, 1, 0);
      assert RateOf(two) == Rate(h[1].time, 1, 0);
      assert CountIn(two[..1], h[1].time - w, h[1].time) == if h[1].time > 0 then 1 else 0;
      assert CountIn(two[..1], h[1].time, h[1].time + w) == if h[1].time > 0 then 0 else 1;
      assert !Exact(two, w);
    }
  }

  /** Moves the window to `now` without counting a request. */
  function RollTo(r: Rate, w: int, now: Time): Rate {
    if now - r.start >= 2 * w then Rate(now, 0, 0)
    else if now - r.start >= w then Rate(r.start + w, 0, r.curr)
    else r
  }

  /** Reading the stale counters gives the same value as rolling the window first. */
  lemma ReadMatchesRolledRead(r: Rate, w: int, now: Time)
    requires w > 0 && 0 < r.start <= now
    ensures Read(r, w, now) == Read(RollTo(r, w, now), w, now)
  {
    var s := RollTo(r, w, now);
    if now - r.start >= w {
      assert now - s.start < w;
      assert Estimate(s, w, now) == Estimate(r, w, now);
    }
  }

  /** The window estimate (`RateTimesWindow`: the rate times the window length) differs from the exact count of
      (now-w, now] by at most the rolled-over previous count, and is exactly right once two
      windows have passed. */
  lemma ReadErrorBound(h: seq<Seen>, w: int, now: Time)
    requires w > 0 && Tracking(h, w) && Ordered(h) && h[|h| - 1].time <= now
    ensures
      var r := RateOf(h);
      var exact := CountIn(h, now - w + 1, now + 1) as real;
      var slack := RollTo(r, w, now).prev as real;
      && -slack <= Estimate(r, w, now) - exact <= slack
      && (now - r.start >= 2 * w ==> Estimate(r, w, now) == exact == 0.0)
  {
    var r := RateOf(h);
    CountWithinRolled(h, w, now);
    EstimateWithinRolled(r, w, now);
  }

  /** The rate times the window length in seconds is the estimate; without a window or before the
      first request the rate is 0. */
  lemma RateTimesWindow(r: Rate, w: int, now: Time)
    ensures w > 0 && r.start != 0 ==> Read(r, w, now) * (w as real / 1_000_000_000.0) == Estimate(r, w, now)
    ensures w <= 0 || r.start == 0 ==> Read(r, w, now) == 0.0
  {
    if w > 0 && r.start != 0 {
      DivideThenMultiply(Estimate(r, w, now), w as real / NANOS_PER_SECOND as real);
    }
  }

  /** The estimate is the rolled current count plus the part of the rolled previous count that is
      left: all of it at the start of the window, and a w-th less with every unit of time. */
  lemma EstimateIsLinear(r: Rate, w: int, now: Time)
    requires w > 0 && 0 < r.start <= now
    ensures
      var s := RollTo(r, w, now);
      && s.start <= now < s.start + w
      && w as real * (Estimate(r, w, now) - s.curr as real) == s.prev as real * (s.start + w - now) as real
  {
    var s := RollTo(r, w, now);
    var elapsed := now - s.start;
    var p, f := s.prev as real, Fraction(elapsed, w);
    assert Estimate(r, w, now) == p * (1.0 - f) + s.curr as real;
    DivideThenMultiply(elapsed as real, w as real);
    LeftOver(p, f, w as real, elapsed as real);
  }

  lemma LeftOver(p: real, f: real, w: real, elapsed: real)
    requires f * w == elapsed
    ensures w * (p * (1.0 - f)) == p * (w - elapsed)
  {
    assert w * (p * (1.0 - f)) == p * (w * (1.0 - f));
    assert w * (1.0 - f) == w - f * w;
  }

  // ----- a steady source -----

  /** One request every `d`, from `t0` on. */
  ghost predicate Steady(h: seq<Seen>, t0: Time, d: int) {
    forall i :: 0 <= i < |h| ==> h[i].time == t0 + i * d
  }

  /** The counters after `m` requests of a steady source with `n` requests per window, of which `q`
      windows are full. */
  ghost predicate SteadyAt(r: Rate, t0: Time, n: int, w: int, m: int, q: nat) {
    0 < m - q * n <= n && r == Rate(t0 + q * w, m - q * n, if q > 0 then n else 0)
  }

  lemma {:induction false} SteadyCounters(h: seq<Seen>, t0: Time, d: int, n: int, w: int) returns (q: nat)
    requires h != [] && d > 0 && n > 0 && w == n * d && t0 > 0 && Steady(h, t0, d) && FixedWindow(h, w)
    ensures SteadyAt(RateOf(h), t0, n, w, |h|, q)
  {
    var m := |h| - 1;
    if m == 0 {
      assert RateOf(h[..0]) == Rate(0, 0, 0);
      q := 0;
    } else {
      q := SteadyCounters(h[..m], t0, d, n, w);
      q := SteadyNext(RateOf(h[..m]), t0, d, n, w, m, q);
    }
  }

  lemma SteadyNext(r: Rate, t0: Time, d: int, n: int, w: int, m: int, q: nat) returns (q': nat)
    requires d > 0 && n > 0 && w == n * d && t0 > 0 && SteadyAt(r, t0, n, w, m, q)
    ensures SteadyAt(Advance(r, w, t0 + m * d), t0, n, w, m + 1, q')
  {
    SteadyAdvance(t0, d, n, w, m, q, r.prev);
    q' := q;
    if m - q * n == n {
      OneMore(q, n);
      OneMore(q, w);
      q' := q + 1;
    }
  }

  lemma OneMore(q: int, n: int)
    ensures (q + 1) * n == q * n + n
  {
  }

  /** The next request comes `c * d` after the window start, so it shifts the window exactly if the
      window is full. */
  lemma SteadyAdvance(t0: Time, d: int, n: int, w: int, m: int, q: nat, prev: nat)
    requires d > 0 && n > 0 && w == n * d && t0 > 0 && 0 < m - q * n <= n
    ensures
      var c := m - q * n;
      Advance(Rate(t0 + q * w, c, prev), w, t0 + m * d) ==
      if c == n then Rate(t0 + q * w + w, 1, n) else Rate(t0 + q * w, c + 1, prev)
  {
    var c := m - q * n;
    SteadyGap(d, n, w, m, q);
    MulMono(1, n, d);
    MulMono(0, q, w);
    MulMono(1, c, d);
    if c < n {
      MulMono(c + 1, n, d);
      OneMore(c, d);
    }
  }

  lemma SteadyGap(d: int, n: int, w: int, m: int, q: int)
    requires w == n * d
    ensures m * d - q * w == (m - q * n) * d
  {
    assert q * w == q * n * d;
  }

  lemma MulMono(a: int, b: int, c: int)
    requires a <= b && c >= 0
    ensures a * c <= b * c
  {
  }

  /** How many of the requests lie in a range that the first `k` miss and the others hit. */
  lemma {:induction false} CountFrom(h: seq<Seen>, lo: Time, hi: Time, k: nat)
    requires k <= |h|
    requires forall i :: 0 <= i < k ==> !(lo <= h[i].time < hi)
    requires forall i :: k <= i < |h| ==> lo <= h[i].time < hi
    ensures CountIn(h, lo, hi) == |h| - k
  {
    if k == |h| {
      CountNone(h, lo, hi);
    } else {
      CountFrom(h[..|h| - 1], lo, hi, k);
    }
  }

  /** For a steady source with a whole number of requests per window, the estimate is never below the
      true count of the last window and never more than one request above it. */
  lemma SteadyEstimate(h: seq<Seen>, t0: Time, d: int, n: int, w: int, now: Time)
    requires h != [] && d > 0 && n > 0 && w == n * d && w > 0 && t0 > 0 && Steady(h, t0, d) && FixedWindow(h, w)
    requires h[|h| - 1].time <= now < h[|h| - 1].time + d
    ensures
      var exact := CountIn(h, now - w + 1, now + 1) as real;
      exact <= Estimate(RateOf(h), w, now) <= exact + 1.0
  {
    var q := SteadyCounters(h, t0, d, n, w);
    SteadyExact(h, t0, d, n, now, if |h| > n then |h| - n else 0);
    SteadyRead(RateOf(h), t0, d, n, w, |h|, q, now);
    if q > 0 {
      MulMono(1, q, n);
    } else {
      assert q * n == 0;
    }
  }

  /** What the counters of a steady source are read as. */
  lemma SteadyRead(r: Rate, t0: Time, d: int, n: int, w: int, m: int, q: nat, now: Time)
    requires d > 0 && n > 0 && w == n * d && w > 0 && t0 > 0 && 0 < m - q * n <= n
    requires r == Rate(t0 + q * w, m - q * n, if q > 0 then n else 0)
    requires t0 + (m - 1) * d <= now < t0 + (m - 1) * d + d
    ensures q == 0 ==> Estimate(r, w, now) == r.curr as real
    ensures q > 0 ==> n as real <= Estimate(r, w, now) <= n as real + 1.0
  {
    SteadyTimes(t0, d, n, w, m, q, now);
    EstimateIsLinear(r, w, now);
    if q > 0 {
      SteadyArithmetic(Estimate(r, w, now) - r.curr as real, n, d, r.curr, now - (t0 + (m - 1) * d), r.start + w - now);
    }
  }

  /** Where `now` lies in the current window of a steady source. */
  lemma SteadyTimes(t0: Time, d: int, n: int, w: int, m: int, q: nat, now: Time)
    requires d > 0 && n > 0 && w == n * d && t0 > 0 && 0 < m - q * n <= n
    requires t0 + (m - 1) * d <= now < t0 + (m - 1) * d + d
    ensures
      var start, c, late := t0 + q * w, m - q * n, now - (t0 + (m - 1) * d);
      0 < start <= now < start + w && start + w - now == (n - c + 1) * d - late
  {
    var c := m - q * n;
    SteadyGap(d, n, w, m - 1, q);
    MulMono(0, q, w);
    MulMono(0, c - 1, d);
    MulMono(c, n, d);
    OneMore(c - 1, d);
    assert n * d - (c - 1) * d == (n - c + 1) * d;
  }

  lemma Apart(i: int, j: int, d: int)
    ensures j * d - i * d == (j - i) * d
  {
  }

  /** Exactly the last `n` requests lie in the last window. */
  lemma SteadyExact(h: seq<Seen>, t0: Time, d: int, n: int, now: Time, k: nat)
    requires h != [] && d > 0 && n > 0 && Steady(h, t0, d) && h[|h| - 1].time <= now < h[|h| - 1].time + d
    requires k == if |h| > n then |h| - n else 0
    ensures CountIn(h, now - n * d + 1, now + 1) == |h| - k
  {
    var last := |h| - 1;
    forall i | 0 <= i < |h| ensures now - n * d + 1 <= h[i].time < now + 1 <==> i >= k {
      Apart(i, last, d);
      assert h[last].time - h[i].time == (last - i) * d;
      MulMono(0, last - i, d);
      if i >= k {
        MulMono(last - i + 1, n, d);
        OneMore(last - i, d);
      } else {
        MulMono(n, last - i, d);
      }
    }
    CountFrom(h, now - n * d + 1, now + 1, k);
  }

  /** With `left` = (n - c + 1) * d - late and a full previous window of `n`, what is left of it lies
      between n - c and n - c + 1. */
  lemma SteadyArithmetic(e: real, n: int, d: int, c: int, late: int, left: int)
    requires n > 0 && d > 0 && 0 <= late < d && left == (n - c + 1) * d - late
    requires (n * d) as real * e == n as real * left as real
    ensures (n - c) as real <= e <= (n - c + 1) as real
  {
    var N, D, L := n as real, d as real, left as real;
    assert (n * d) as real == N * D;
    assert N * (D * e) == N * L;
    assert D * e == L;
    assert (n - c + 1) * d == (n - c) * d + d;
    assert ((n - c) * d) as real == (n - c) as real * D && ((n - c + 1) * d) as real == (n - c + 1) as real * D;
    assert (n - c) as real * D < D * e <= (n - c + 1) as real * D;
  }

  /** The estimate lies between the rolled current count and that count plus the rolled
      previous one. */
  lemma EstimateWithinRolled(r: Rate, w: int, now: Time)
    requires w > 0 && 0 < r.start <= now
    ensures
      var s := RollTo(r, w, now);
      s.curr as real <= Estimate(r, w, now) <= s.curr as real + s.prev as real
  {
    var elapsed := now - r.start;
    if elapsed < w {
      ScaleDown(r.prev as real, 1.0 - Fraction(elapsed, w));
    } else if elapsed < 2 * w {
      ScaleDown(r.curr as real, 1.0 - Fraction(elapsed - w, w));
    }
  }

  lemma DivideThenMultiply(x: real, y: real)
    requires y > 0.0
    ensures x / y * y == x
  {
  }

  lemma ScaleDown(x: real, f: real)
    requires x >= 0.0 && 0.0 <= f <= 1.0
    ensures 0.0 <= x * f <= x
  {
    assert x * f <= x * 1.0;
  }

  /** The exact count of the last window lies between the rolled current count and that
      count plus the rolled previous one. */
  lemma CountWithinRolled(h: seq<Seen>, w: int, now: Time)
    requires w > 0 && Tracking(h, w) && Ordered(h) && h[|h| - 1].time <= now
    ensures
      var s := RollTo(RateOf(h), w, now);
      && s.start <= now < s.start + w
      && s.curr <= CountIn(h, now - w + 1, now + 1) <= s.curr + s.prev
      && (now - RateOf(h).start >= 2 * w ==> CountIn(h, now - w + 1, now + 1) == 0)
  {
    var r := RateOf(h);
    assert forall i :: 0 <= i < |h| ==> h[i].time <= now;
    if now - r.start >= w {
      CountNone(h, r.start + w, now + 1);
    }
    if now - r.start >= 2 * w {
      CountNone(h, now - w + 1, now + 1);
    } else if now - r.start >= w {
      // the part of (now-w, now] that lies in [start, start+w)
      CountSplit(h, now - w + 1, r.start + w, now + 1);
      CountSplit(h, r.start, now - w + 1, r.start + w);
    } else {
      CountSplit(h, now - w + 1, r.start, now + 1);
      CountSplit(h, r.start, now + 1, r.start + w);
      CountNone(h, now + 1, r.start + w);
      CountSplit(h, r.start - w, now - w + 1, r.start);
    }
  }
}
