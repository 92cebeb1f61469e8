/**
 How many requests the limiter can let through: the cap of an aligned window, the boundary
 burst, the rolling window, and the size of its products. Clock readings may be out of
 order; each bound says how far behind a reading may be.
 */
module RatesBounds {
  import opened Rates
  import opened RatesLog

  const INT64_MAX: int := 9_223_372_036_854_775_807

  function CeilDiv(a: int, b: int): int
    requires b > 0
  {
    -((-a) / b)
  }

  // The part that has slid out by then, at most.
  function SlidOut(a: nat, e: int, g: Gate): int {
    CeilDiv(a * e, g.Size())
  }

  // ---- Arithmetic, with literal divisors ---------------------------------------------

  lemma ShareSecond(a: nat, x: int, e: int)
    requires 0 <= x <= e < SECOND
    ensures 0 <= a - a * (SECOND - x) / SECOND <= CeilDiv(a * e, SECOND)
  {
    assert a * (SECOND - x) == a * SECOND - a * x;
    assert 0 <= a * x <= a * e;
  }

  lemma ShareMinute(a: nat, x: int, e: int)
    requires 0 <= x <= e < MINUTE
    ensures 0 <= a - a * (MINUTE - x) / MINUTE <= CeilDiv(a * e, MINUTE)
  {
    assert a * (MINUTE - x) == a * MINUTE - a * x;
    assert 0 <= a * x <= a * e;
  }

  lemma Share(a: nat, x: int, e: int, g: Gate)
    requires 0 <= x <= e < g.Size()
    ensures 0 <= a - Visible(a, x, g) <= SlidOut(a, e, g)
  {
    match g {
      case PerSecond => ShareSecond(a, x, e);
      case PerMinute => ShareMinute(a, x, e);
    }
  }

  lemma CeilSecond(p: int, a: int)
    requires p <= a * SECOND - 2 * a
    ensures CeilDiv(p, SECOND) <= a - 2 * a / SECOND
  {
  }

  lemma SlackSecond(a: nat, limit: nat)
    requires a <= limit
    ensures 2 * limit / SECOND - 2 * a / SECOND <= limit - a
  {
  }

  lemma CeilMinute(p: int, a: int)
    requires p <= a * MINUTE - 2 * a
    ensures CeilDiv(p, MINUTE) <= a - 2 * a / MINUTE
  {
  }

  lemma SlackMinute(a: nat, limit: nat)
    requires a <= limit
    ensures 2 * limit / MINUTE - 2 * a / MINUTE <= limit - a
  {
  }

  lemma ShortProduct(a: nat, e: int, size: int)
    requires e <= size - 2
    ensures a * e <= a * size - 2 * a
  {
    assert a * e <= a * (size - 2);
  }

  lemma CeilShare(a: nat, e: int, limit: nat, g: Gate)
    requires 0 <= e <= g.Size() - 2 && a <= limit
    ensures limit + SlidOut(a, e, g) <= RollingMax(limit, g)
  {
    ShortProduct(a, e, g.Size());
    hide CeilDiv;
    if g.PerSecond? {
      CeilSecond(a * e, a);
      SlackSecond(a, limit);
    } else {
      CeilMinute(a * e, a);
      SlackMinute(a, limit);
    }
  }

  lemma CeilNonNegative(a: nat, e: nat, g: Gate)
    ensures SlidOut(a, e, g) >= 0
  {
    assert a * e >= 0;
    match g {
      case PerSecond => assert CeilDiv(a * e, SECOND) >= 0;
      case PerMinute => assert CeilDiv(a * e, MINUTE) >= 0;
    }
  }

  // ---- What holds whatever the clock does ----------------------------------------------

  lemma EstimateCoversCurrent(w: Window, now: int, g: Gate)
    ensures Estimate(Advance(w, now, g.Size()), now, g.Size()) >= Advance(w, now, g.Size()).curr
  {
    var a := Advance(w, now, g.Size());
    AdvanceReaches(w, now, g);
    var p := a.prev * (g.Size() - (now - a.start));
    assert p >= 0;
    match g {
      case PerSecond => assert p / SECOND >= 0;
      case PerMinute => assert p / MINUTE >= 0;
    }
  }

  lemma AdvanceReaches(w: Window, now: int, g: Gate)
    ensures now - Advance(w, now, g.Size()).start < g.Size()
  {
    match g {
      case PerSecond => assert now - Advance(w, now, SECOND).start < SECOND;
      case PerMinute => assert now - Advance(w, now, MINUTE).start < MINUTE;
    }
  }

  // No clock assumption: neither counter ever exceeds the largest limit in force.
  lemma {:induction false} CountersBounded(calls: seq<Call>, g: Gate, limit: int)
    requires limit >= 0 && forall i :: 0 <= i < |calls| ==> calls[i].Limit(g) <= limit
    ensures After(calls).Win(g).prev <= limit && After(calls).Win(g).curr <= limit
  {
    if calls != [] {
      var init, c := calls[..|calls| - 1], calls[|calls| - 1];
      CountersBounded(init, g, limit);
      StepGate(After(init), c, g);
      EstimateCoversCurrent(After(init).Win(g), c.now, g);
      hide Estimate;
    }
  }

  // ---- Int64 arithmetic ------------------------------------------------------------------

  // The product taken by the estimate on an advanced window.
  function Product(w: Window, now: int, g: Gate): int {
    w.prev * (g.Size() - (now - w.start))
  }

  predicate FitsInt64(n: int) {
    0 <= n <= INT64_MAX
  }

  // With a reading at most `d` behind, product and estimate fit in an int64 for limits small
  // enough. The clock may have done anything before.
  lemma NoOverflow(calls: seq<Call>, c: Call, g: Gate, limit: nat, d: nat)
    requires LimitedBy(calls, g, limit) && limit * (g.Size() + d) <= INT64_MAX
    requires After(calls).Win(g).start - d <= c.now
    ensures var w := Advance(After(calls).Win(g), c.now, g.Size());
            FitsInt64(Product(w, c.now, g)) && FitsInt64(Estimate(w, c.now, g.Size()) + 1)
  {
    hide After;
    CountersBounded(calls, g, limit);
    var u := After(calls).Win(g);
    var w := Advance(u, c.now, g.Size());
    AdvanceStart(u, c.now, g);
    AdvanceKeepsBound(u, c.now, g, limit);
    EstimateCoversCurrent(u, c.now, g);
    hide Advance;
    EstimateFits(w, c.now, g, limit, d);
  }

  lemma AdvanceKeepsBound(w: Window, t: int, g: Gate, limit: int)
    requires w.prev <= limit && w.curr <= limit
    ensures Advance(w, t, g.Size()).prev <= limit && Advance(w, t, g.Size()).curr <= limit
  {
  }

  lemma EstimateFits(w: Window, now: int, g: Gate, limit: nat, d: nat)
    requires w.start - d <= now < w.start + g.Size() && w.prev <= limit && w.curr <= limit
    requires limit * (g.Size() + d) <= INT64_MAX
    ensures FitsInt64(Product(w, now, g)) && Estimate(w, now, g.Size()) + 1 <= INT64_MAX
  {
    var x := g.Size() - (now - w.start);
    assert 0 <= w.prev * x <= limit * x <= limit * (g.Size() + d);
    assert limit * SECOND <= limit * (g.Size() + d);
    match g {
      case PerSecond => QuotientSecond(w.prev * x);
      case PerMinute => QuotientMinute(w.prev * x);
    }
  }

  lemma QuotientSecond(p: int)
    requires p <= INT64_MAX
    ensures p / SECOND <= INT64_MAX / 2
  {
  }

  lemma QuotientMinute(p: int)
    requires p <= INT64_MAX
    ensures p / MINUTE <= INT64_MAX / 2
  {
  }

  // ---- Counting ----------------------------------------------------------------------------

  lemma {:induction false} CountWithin(log: seq<int>, lo: int, hi: int, lo': int, hi': int)
    requires lo' <= lo && hi <= hi'
    ensures CountIn(log, lo, hi) <= CountIn(log, lo', hi')
  {
    if log != [] {
      CountWithin(log[..|log| - 1], lo, hi, lo', hi');
    }
  }

  lemma VisibleNonNegative(a: nat, x: int, g: Gate)
    requires x <= g.Size()
    ensures Visible(a, x, g) >= 0
  {
    var p := a * (g.Size() - x);
    assert p >= 0;
    if g.PerSecond? {
      assert p / SECOND >= 0;
    } else {
      assert p / MINUTE >= 0;
    }
  }

  lemma VisibleAll(a: nat, g: Gate)
    ensures Visible(a, 0, g) == a
  {
    match g {
      case PerSecond => assert a * (SECOND - 0) / SECOND == a;
      case PerMinute => assert a * (MINUTE - 0) / MINUTE == a;
    }
  }

  // To a reading from behind, all of the previous count is visible, and more.
  lemma VisibleBehind(a: nat, x: int, g: Gate)
    requires x <= 0
    ensures Visible(a, x, g) >= a
  {
    assert a * (g.Size() - x) >= a * g.Size();
    match g {
      case PerSecond => VisibleBehindSecond(a * (SECOND - x), a);
      case PerMinute => VisibleBehindMinute(a * (MINUTE - x), a);
    }
  }

  lemma VisibleBehindSecond(p: int, a: int)
    requires p >= a * SECOND
    ensures p / SECOND >= a
  {
  }

  lemma VisibleBehindMinute(p: int, a: int)
    requires p >= a * MINUTE
    ensures p / MINUTE >= a
  {
  }

  lemma VisibleGrows(a: nat, b: nat, x: int, g: Gate)
    requires a <= b && x <= g.Size()
    ensures Visible(a, x, g) <= Visible(b, x, g)
  {
    assert a * (g.Size() - x) <= b * (g.Size() - x);
    match g {
      case PerSecond => DivideGrowsSecond(a * (SECOND - x), b * (SECOND - x));
      case PerMinute => DivideGrowsMinute(a * (MINUTE - x), b * (MINUTE - x));
    }
  }

  lemma DivideGrowsSecond(p: int, q: int)
    requires p <= q
    ensures p / SECOND <= q / SECOND
  {
  }

  lemma DivideGrowsMinute(p: int, q: int)
    requires p <= q
    ensures p / MINUTE <= q / MINUTE
  {
  }

  // ---- One admission -------------------------------------------------------------------------

  // Every admitted call reads at most `d` behind, or nothing was counted before it.
  ghost predicate Tolerable(calls: seq<Call>, g: Gate, d: int) {
    forall i :: 0 <= i < |calls| && Admits(After(calls[..i]), calls[i], g) ==>
      After(calls[..i]).Win(g).start - d <= calls[i].now || Log(calls[..i], g) == []
  }

  lemma TolerableSnoc(calls: seq<Call>, c: Call, g: Gate, d: int)
    ensures Tolerable(calls + [c], g, d) <==>
            && Tolerable(calls, g, d)
            && (Admits(After(calls), c, g) ==> After(calls).Win(g).start - d <= c.now || Log(calls, g) == [])
  {
    hide AllowStep, Admits, After, Log;
    var all := calls + [c];
    assert forall i :: 0 <= i < |calls| ==> all[..i] == calls[..i] && all[i] == calls[i];
    assert all[..|calls|] == calls && all[|calls|] == c;
  }

  lemma LateIsTolerable(calls: seq<Call>, g: Gate, d: int, d': int)
    requires LateBy(calls, g, d) && d <= d'
    ensures Tolerable(calls, g, d')
  {
    hide AllowStep, Admits, After, Log;
  }

  lemma TolerableMore(calls: seq<Call>, g: Gate, d: int, d': int)
    requires Tolerable(calls, g, d) && d <= d'
    ensures Tolerable(calls, g, d')
  {
    hide AllowStep, Admits, After, Log;
  }

  lemma LimitedSnoc(calls: seq<Call>, c: Call, g: Gate, limit: int)
    ensures LimitedBy(calls + [c], g, limit) <==> LimitedBy(calls, g, limit) && c.Limit(g) <= limit
  {
    var all := calls + [c];
    assert forall i :: 0 <= i < |calls| ==> all[i] == calls[i];
    assert all[|calls|] == c;
  }

  // What an admission found: `w` is the window it is booked in, `log` the admissions before.
  ghost predicate Found(w: Window, log: seq<int>, now: int, g: Gate, limit: int) {
    && Covers(w, log, g) && now < w.start + g.Size()
    && Visible(w.prev, now - w.start, g) + w.curr + 1 <= limit
  }

  lemma AdmissionFinds(calls: seq<Call>, c: Call, g: Gate, limit: int)
    requires Admits(After(calls), c, g) && c.Limit(g) <= limit
    ensures var u := After(calls).Win(g);
            var w := Advance(u, c.now, g.Size());
            && Found(w, Log(calls, g), c.now, g, limit)
            && (u.start <= c.now ==> w.start <= c.now) && (c.now < u.start ==> w == u)
  {
    hide AllowStep, After, Log, Visible, Covers, Advance;
    var u := After(calls).Win(g);
    StepGate(After(calls), c, g);
    AdmitsLimit(After(calls), c, g);
    CountersCoverLog(calls, g);
    CoversAdvance(u, Log(calls, g), c.now, g);
    AdvanceStart(u, c.now, g);
    PassesByVisible(u, c.now, g, c.Limit(g));
  }

  // ---- The cap of an aligned window -----------------------------------------------------------

  // A booking at most a whole window behind keeps the cap of the window it falls in.
  lemma BookingKeepsCap(w: Window, log: seq<int>, now: int, g: Gate, limit: int, base: int)
    requires Found(w, log, now, g, limit) && (w.start - g.Size() <= now || log == [])
    requires Aligned(base, g) && base <= now < base + g.Size()
    ensures CountIn(log, base, base + g.Size()) + 1 <= limit
  {
    hide Visible, CountIn, Aligned;
    var x := now - w.start;
    VisibleNonNegative(w.prev, x, g);
    if log == [] {
      CountNothing(base, base + g.Size());
    } else {
      AlignedNeighbours(w.start, g);
      if w.start <= now {
        SameGrid(w.start, base, now, g);
      } else {
        SameGrid(w.start - g.Size(), base, now, g);
        VisibleBehind(w.prev, x, g);
      }
    }
  }

  lemma CountNothing(lo: int, hi: int)
    ensures CountIn([], lo, hi) == 0
  {
  }

  // A reading lies in one window of the grid.
  lemma SameGrid(a: int, b: int, now: int, g: Gate)
    requires Aligned(a, g) && Aligned(b, g)
    requires a <= now < a + g.Size() && b <= now < b + g.Size()
    ensures a == b
  {
    hide Aligned;
    if a < b {
      GridStep(a, b, g);
    } else if b < a {
      GridStep(b, a, g);
    }
  }

  // No aligned window admits more than the limit, as long as no call reads more than a
  // whole window behind.
  lemma {:induction false} AlignedCap(calls: seq<Call>, g: Gate, limit: nat, base: int)
    requires Tolerable(calls, g, g.Size()) && LimitedBy(calls, g, limit) && Aligned(base, g)
    ensures CountIn(Log(calls, g), base, base + g.Size()) <= limit
  {
    hide AllowStep, Admits, After, Tolerable, LimitedBy, Aligned, Advance, CountIn, Found, Log;
    if calls == [] {
      NothingTolerable(g);
      CountNothing(base, base + g.Size());
    } else {
      var init, c := calls[..|calls| - 1], calls[|calls| - 1];
      assert calls == init + [c];
      TolerableSnoc(init, c, g, g.Size());
      LimitedSnoc(init, c, g, limit);
      AlignedCap(init, g, limit, base);
      RunSnoc(init, c, g);
      assert Log(init, g) + [] == Log(init, g);
      CountSnoc(Log(init, g), c.now, base, base + g.Size());
      if Admits(After(init), c, g) && base <= c.now < base + g.Size() {
        AdmissionFinds(init, c, g, limit);
        BookingKeepsCap(Advance(After(init).Win(g), c.now, g.Size()), Log(init, g), c.now, g, limit, base);
      }
    }
  }

  // So any window of the gate's size, wherever it starts, admits at most twice the limit.
  lemma RollingTwice(calls: seq<Call>, g: Gate, limit: nat, s: int)
    requires Tolerable(calls, g, g.Size()) && LimitedBy(calls, g, limit)
    ensures CountIn(Log(calls, g), s, s + g.Size()) <= 2 * limit
  {
    hide After, Log, CountIn, Base, Aligned, Tolerable;
    var base := Base(s, g.Size());
    BaseAligned(s, g);
    AlignedNeighbours(base, g);
    AlignedCap(calls, g, limit, base);
    AlignedCap(calls, g, limit, base + g.Size());
    CountSplit(Log(calls, g), s, base + g.Size(), s + g.Size());
    CountWithin(Log(calls, g), s, base + g.Size(), base, base + g.Size());
    CountWithin(Log(calls, g), base + g.Size(), s + g.Size(), base + g.Size(), base + 2 * g.Size());
  }

  // ---- The boundary burst ----------------------------------------------------------------------

  ghost predicate BurstBounded(log: seq<int>, g: Gate, limit: int, base: int, e: int) {
    var a := CountIn(log, base - g.Size(), base);
    a + CountIn(log, base, base + e + 1) <= limit + SlidOut(a, e, g)
  }

  // Boundary burst: the admissions of one aligned window plus those of the first
  // `e` nanoseconds of the next exceed the limit by at most the slid-out share, as long as
  // no call reads so far behind that a whole request could slide back into view.
  lemma {:induction false} BoundaryBurst(calls: seq<Call>, g: Gate, limit: nat, d: nat, base: int, e: int)
    requires Tolerable(calls, g, d) && limit * d < g.Size() && LimitedBy(calls, g, limit)
    requires Aligned(base, g) && 0 <= e < g.Size()
    ensures BurstBounded(Log(calls, g), g, limit, base, e)
  {
    hide AllowStep, Admits, After, Tolerable, LimitedBy, Aligned, Advance, Visible, BurstBounded;
    if calls == [] {
      NoBurst(g, limit, base, e);
    } else {
      var init, c := calls[..|calls| - 1], calls[|calls| - 1];
      assert calls == init + [c];
      TolerableSnoc(init, c, g, d);
      LimitedSnoc(init, c, g, limit);
      BoundaryBurst(init, g, limit, d, base, e);
      RunSnoc(init, c, g);
      if Admits(After(init), c, g) {
        AdmissionFinds(init, c, g, limit);
        AdmitsLimit(After(init), c, g);
        Reaches(limit, d, g);
        TolerableMore(init, g, d, g.Size());
        AlignedNeighbours(base, g);
        AlignedCap(init, g, limit, base);
        AlignedCap(init, g, limit, base - g.Size());
        BookingKeepsBurst(Advance(After(init).Win(g), c.now, g.Size()), Log(init, g), c.now, g, limit, d, base, e);
      }
    }
  }

  lemma NoBurst(g: Gate, limit: nat, base: int, e: int)
    requires 0 <= e
    ensures BurstBounded([], g, limit, base, e)
  {
    CeilNonNegative(0, e, g);
  }

  // A reading that far behind is less than a window behind.
  lemma Reaches(limit: nat, d: nat, g: Gate)
    requires limit * d < g.Size() && limit > 0
    ensures d < g.Size()
  {
    AtLeastOnce(limit, d);
  }

  lemma AtLeastOnce(n: nat, d: nat)
    requires n > 0
    ensures d <= n * d
  {
  }

  lemma BookingKeepsBurst(w: Window, log: seq<int>, now: int, g: Gate, limit: nat, d: nat, base: int, e: int)
    requires Found(w, log, now, g, limit) && (w.start - d <= now || log == [])
    requires limit * d < g.Size() && d < g.Size()
    requires Aligned(base, g) && 0 <= e < g.Size() && BurstBounded(log, g, limit, base, e)
    requires CountIn(log, base - g.Size(), base) <= limit && CountIn(log, base, base + g.Size()) <= limit
    ensures BurstBounded(log + [now], g, limit, base, e)
  {
    hide CountIn, SlidOut, Aligned, Covers, Visible;
    CountSnoc(log, now, base - g.Size(), base);
    CountSnoc(log, now, base, base + e + 1);
    if log == [] {
      CountNothing(base - g.Size(), base);
      CountNothing(base, base + e + 1);
      VisibleNonNegative(w.prev, now - w.start, g);
      CeilNonNegative(CountIn(log + [now], base - g.Size(), base), e, g);
    } else if base <= now <= base + e {
      BookedAfter(w, log, now, g, limit, d, base, e);
    } else if base - g.Size() <= now < base {
      BookedBefore(w, log, now, g, limit, d, base, e);
    }
  }

  // A booking past the boundary.
  lemma BookedAfter(w: Window, log: seq<int>, now: int, g: Gate, limit: nat, d: nat, base: int, e: int)
    requires Found(w, log, now, g, limit) && w.start - d <= now
    requires limit * d < g.Size() && d < g.Size()
    requires Aligned(base, g) && base <= now <= base + e < base + g.Size()
    requires CountIn(log, base - g.Size(), base) <= limit
    ensures var a := CountIn(log, base - g.Size(), base);
            a + CountIn(log, base, base + e + 1) + 1 <= limit + SlidOut(a, e, g)
  {
    hide CountIn, SlidOut, Aligned, Visible;
    var a, x := CountIn(log, base - g.Size(), base), now - w.start;
    CountWithin(log, base, base + e + 1, base, base + g.Size());
    if w.start <= now {
      SameGrid(w.start, base, now, g);
      if a <= w.prev {
        VisibleGrows(a, w.prev, x, g);
        Share(a, x, e, g);
      } else {
        Share(w.prev, x, e, g);
        SlidOutGrows(w.prev, a, e, g);
      }
    } else {
      AlignedNeighbours(w.start, g);
      SameGrid(w.start - g.Size(), base, now, g);
      VisibleBehind(w.prev, x, g);
      AllSlidOut(a, e, limit, d, g);
    }
  }

  // That late in a window, nothing of the previous one is left in view.
  lemma AllSlidOut(a: nat, e: nat, limit: nat, d: nat, g: Gate)
    requires a <= limit && limit * d < g.Size() && g.Size() - d <= e < g.Size()
    ensures SlidOut(a, e, g) == a
  {
    assert a * (g.Size() - e) <= limit * d;
    assert a * e == a * g.Size() - a * (g.Size() - e);
    match g {
      case PerSecond => AllSlidOutSecond(a, a * (SECOND - e));
      case PerMinute => AllSlidOutMinute(a, a * (MINUTE - e));
    }
  }

  lemma AllSlidOutSecond(a: nat, p: nat)
    requires p < SECOND
    ensures CeilDiv(a * SECOND - p, SECOND) == a
  {
  }

  lemma AllSlidOutMinute(a: nat, p: nat)
    requires p < MINUTE
    ensures CeilDiv(a * MINUTE - p, MINUTE) == a
  {
  }

  // A booking before the boundary.
  lemma BookedBefore(w: Window, log: seq<int>, now: int, g: Gate, limit: nat, d: nat, base: int, e: int)
    requires Found(w, log, now, g, limit) && w.start - d <= now && d < g.Size()
    requires Aligned(base, g) && base - g.Size() <= now < base && 0 <= e < g.Size()
    ensures var a := CountIn(log, base - g.Size(), base);
            a + 1 + CountIn(log, base, base + e + 1) <= limit + SlidOut(a + 1, e, g)
  {
    hide CountIn, SlidOut, Aligned, Visible;
    var a, x := CountIn(log, base - g.Size(), base), now - w.start;
    AlignedNeighbours(base, g);
    AlignedNeighbours(w.start, g);
    CeilNonNegative(a + 1, e, g);
    if w.start <= now {
      SameGrid(w.start, base - g.Size(), now, g);
      CountEmpty(log, base - 1, base, base + e + 1);
      BookingKeepsCap(w, log, now, g, limit, base - g.Size());
    } else {
      SameGrid(w.start - g.Size(), base - g.Size(), now, g);
      VisibleBehind(w.prev, x, g);
      CountWithin(log, base, base + e + 1, base, base + g.Size());
    }
  }

  // Between two grid points lies a whole window.
  lemma GridStep(a: int, b: int, g: Gate)
    requires Aligned(a, g) && Aligned(b, g) && a < b
    ensures a + g.Size() <= b
  {
    match g {
      case PerSecond => assert a % SECOND == 0 && b % SECOND == 0; GridStepSecond(a, b);
      case PerMinute => assert a % MINUTE == 0 && b % MINUTE == 0; GridStepMinute(a, b);
    }
  }

  lemma GridStepSecond(a: int, b: int)
    requires a % SECOND == 0 && b % SECOND == 0 && a < b
    ensures a + SECOND <= b
  {
  }

  lemma GridStepMinute(a: int, b: int)
    requires a % MINUTE == 0 && b % MINUTE == 0 && a < b
    ensures a + MINUTE <= b
  {
  }

  lemma AlignedNeighbours(base: int, g: Gate)
    requires Aligned(base, g)
    ensures Aligned(base - g.Size(), g) && Aligned(base + g.Size(), g)
  {
    if g.PerSecond? {
      AlignedNeighboursSecond(base);
    } else {
      AlignedNeighboursMinute(base);
    }
  }

  lemma AlignedNeighboursSecond(base: int)
    requires base % SECOND == 0
    ensures (base - SECOND) % SECOND == 0 && (base + SECOND) % SECOND == 0
  {
  }

  lemma AlignedNeighboursMinute(base: int)
    requires base % MINUTE == 0
    ensures (base - MINUTE) % MINUTE == 0 && (base + MINUTE) % MINUTE == 0
  {
  }

  // ---- The rolling window ----------------------------------------------------------------------

  // The largest number of admissions any window of the gate's size can hold.
  function RollingMax(limit: nat, g: Gate): int {
    2 * limit - 2 * limit / g.Size()
  }

  // Upper bound: every run, every rolling window.
  lemma RollingBound(calls: seq<Call>, g: Gate, limit: nat, d: nat, s: int)
    requires Tolerable(calls, g, d) && limit * d < g.Size() && LimitedBy(calls, g, limit)
    ensures CountIn(Log(calls, g), s, s + g.Size()) <= RollingMax(limit, g) <= 2 * limit
  {
    hide After, Log, CountIn, Base, SlidOut, RollingMax, Aligned, Tolerable, LimitedBy;
    if limit == 0 {
      NothingAdmitted(calls, g);
      CountNothing(s, s + g.Size());
      RollingMaxRange(limit, g);
    } else {
      Reaches(limit, d, g);
      TolerableMore(calls, g, d, g.Size());
      var base := Base(s, g.Size());
      BaseAligned(s, g);
      AlignedCap(calls, g, limit, base);
      RollingMaxRange(limit, g);
      if base < s {
        AlignedNeighbours(base, g);
        AlignedStraddle(calls, g, limit, d, base, s);
      }
    }
  }

  lemma {:induction false} NothingAdmitted(calls: seq<Call>, g: Gate)
    requires LimitedBy(calls, g, 0)
    ensures Log(calls, g) == []
  {
    if calls != [] {
      NothingAdmitted(calls[..|calls| - 1], g);
      hide AllowStep, After;
    }
  }

  lemma AlignedStraddle(calls: seq<Call>, g: Gate, limit: nat, d: nat, base: int, s: int)
    requires Tolerable(calls, g, d) && Tolerable(calls, g, g.Size()) && LimitedBy(calls, g, limit)
    requires limit * d < g.Size()
    requires Aligned(base, g) && Aligned(base + g.Size(), g) && base < s < base + g.Size()
    ensures CountIn(Log(calls, g), s, s + g.Size()) <= RollingMax(limit, g)
  {
    hide After, Log, CountIn, SlidOut, RollingMax, Aligned, Tolerable, LimitedBy;
    var log, next, e := Log(calls, g), base + g.Size(), s - base - 1;
    BoundaryBurst(calls, g, limit, d, next, e);
    AlignedCap(calls, g, limit, base);
    CeilShare(CountIn(log, base, next), e, limit, g);
    CountSplit(log, s, next, s + g.Size());
    CountSplit(log, base, s, next);
  }

  lemma RollingMaxRange(limit: nat, g: Gate)
    ensures limit <= RollingMax(limit, g) <= 2 * limit
    ensures limit > 0 ==> 10 * RollingMax(limit, g) > 11 * limit
  {
    match g {
      case PerSecond => assert 0 <= 2 * limit / SECOND && 10 * (2 * limit / SECOND) <= limit;
      case PerMinute => assert 0 <= 2 * limit / MINUTE && 10 * (2 * limit / MINUTE) <= limit;
    }
  }

  // ---- One request a minute --------------------------------------------------------------------

  // Under a limit of one the per-minute gate never lets a reading from behind through once
  // it has counted anything.
  lemma {:induction false} OneAMinute(calls: seq<Call>)
    requires LimitedBy(calls, PerMinute, 1)
    ensures Tolerable(calls, PerMinute, 0)
    ensures var w := After(calls).min; Log(calls, PerMinute) == [] || w.prev + w.curr >= 1
  {
    hide AllowStep, Admits, After, Tolerable, LimitedBy, Advance;
    if calls == [] {
      NothingTolerable(PerMinute);
    } else {
      var init, c := calls[..|calls| - 1], calls[|calls| - 1];
      assert calls == init + [c];
      LimitedSnoc(init, c, PerMinute, 1);
      OneAMinute(init);
      TolerableSnoc(init, c, PerMinute, 0);
      RunSnoc(init, c, PerMinute);
      OneMore(After(init), c, Log(init, PerMinute));
    }
  }

  lemma NothingTolerable(g: Gate)
    ensures Tolerable([], g, 0) && Log([], g) == []
  {
  }

  lemma OneMore(k: Key, c: Call, log: seq<int>)
    requires c.rpm <= 1 && (log == [] || k.min.prev + k.min.curr >= 1)
    ensures Admits(k, c, PerMinute) ==> k.min.start <= c.now || log == []
    ensures var w := AllowStep(k, c).0.min; Admits(k, c, PerMinute) || log != [] ==> w.prev + w.curr >= 1
  {
    StepGate(k, c, PerMinute);
    PassesByVisible(k.min, c.now, PerMinute, c.rpm);
    AdvanceStart(k.min, c.now, PerMinute);
    var a := Advance(k.min, c.now, MINUTE);
    VisibleNonNegative(a.prev, c.now - a.start, PerMinute);
    if c.now < k.min.start {
      VisibleBehind(a.prev, c.now - a.start, PerMinute);
    }
    if c.rpm > 0 && !Admits(k, c, PerMinute) {
      Unmoved(k, c);
    }
    hide Advance, Visible;
  }

  // A rejection moves the per-minute window only to one that is full.
  lemma Unmoved(k: Key, c: Call)
    requires 0 < c.rpm <= 1 && !Admits(k, c, PerMinute)
    ensures var w := AllowStep(k, c).0.min; w == k.min || w.prev + w.curr >= 1
  {
    var a := Advance(k.min, c.now, MINUTE);
    if a.prev == 0 {
      assert a.prev * (MINUTE - (c.now - a.start)) / MINUTE == 0;
    }
  }

  lemma SlidOutGrows(a: nat, b: nat, e: nat, g: Gate)
    requires a <= b
    ensures SlidOut(a, e, g) <= SlidOut(b, e, g)
  {
    assert a * e <= b * e;
    if g.PerSecond? {
      CeilGrowsSecond(a * e, b * e);
    } else {
      CeilGrowsMinute(a * e, b * e);
    }
  }

  lemma CeilGrowsSecond(p: nat, q: nat)
    requires p <= q
    ensures CeilDiv(p, SECOND) <= CeilDiv(q, SECOND)
  {
  }

  lemma CeilGrowsMinute(p: nat, q: nat)
    requires p <= q
    ensures CeilDiv(p, MINUTE) <= CeilDiv(q, MINUTE)
  {
  }
}
