/**
 Runs that reach the bounds of the limiter, and the exact conditions under which it keeps
 its cap, its boundary burst, its arithmetic and its documented factor.
 */
module RatesWorstCase {
  import opened Rates
  import opened RatesLog
  import opened RatesBounds

  // ---- Building runs -----------------------------------------------------------------------

  // A call that uses one gate only.
  function CallAt(now: int, g: Gate, limit: int): Call {
    if g.PerSecond? then Call(now, limit, 0) else Call(now, 0, limit)
  }

  lemma Solo(k: Key, c: Call, g: Gate)
    requires c == CallAt(c.now, g, c.Limit(g)) && c.Limit(g) > 0
    ensures Admits(k, c, g) <==> Passes(k.Win(g), c.now, g.Size(), c.Limit(g))
    ensures var a := Advance(k.Win(g), c.now, g.Size());
            AllowStep(k, c).0.Win(g) == if Admits(k, c, g) then Bump(a) else a
  {
    hide Advance, RetryAfter;
  }

  lemma LateMore(calls: seq<Call>, g: Gate, d: int, d': int)
    requires LateBy(calls, g, d) && d <= d'
    ensures LateBy(calls, g, d')
  {
    hide Admits, After;
  }

  // The same call, repeated while there is room, is admitted every time.
  lemma {:induction false} Batch(calls: seq<Call>, c: Call, n: nat, g: Gate, d: nat)
    requires c == CallAt(c.now, g, c.Limit(g))
    requires LateBy(calls, g, d) && After(calls).Win(g).start - d <= c.now
    requires var a := Advance(After(calls).Win(g), c.now, g.Size());
             Visible(a.prev, c.now - a.start, g) + a.curr + n <= c.Limit(g)
    ensures var run := calls + seq(n, i => c);
            var a := Advance(After(calls).Win(g), c.now, g.Size()).(curr := Advance(After(calls).Win(g), c.now, g.Size()).curr + n);
            && Log(run, g) == Log(calls, g) + seq(n, i => c.now)
            && LateBy(run, g, d) && After(run).Win(g).start - d <= c.now
            && Advance(After(run).Win(g), c.now, g.Size()) == a
            && (n > 0 ==> After(run).Win(g) == a)
  {
    hide AllowStep, Admits, After, Log, Advance, Visible, LateBy;
    if n == 0 {
      assert calls + seq(n, i => c) == calls;
      assert Log(calls, g) + seq(n, i => c.now) == Log(calls, g);
    } else {
      Batch(calls, c, n - 1, g, d);
      var before := calls + seq(n - 1, i => c);
      assert calls + seq(n, i => c) == before + [c];
      assert Log(calls, g) + seq(n, i => c.now) == (Log(calls, g) + seq(n - 1, i => c.now)) + [c.now];
      OneMoreCall(before, c, g, d);
    }
  }

  lemma OneMoreCall(before: seq<Call>, c: Call, g: Gate, d: nat)
    requires c == CallAt(c.now, g, c.Limit(g))
    requires LateBy(before, g, d) && After(before).Win(g).start - d <= c.now
    requires var a := Advance(After(before).Win(g), c.now, g.Size());
             a.curr >= 0 && Visible(a.prev, c.now - a.start, g) + a.curr + 1 <= c.Limit(g)
    ensures var run := before + [c];
            && Log(run, g) == Log(before, g) + [c.now]
            && LateBy(run, g, d) && After(run).Win(g).start - d <= c.now
            && After(run).Win(g) == Bump(Advance(After(before).Win(g), c.now, g.Size()))
            && Advance(After(run).Win(g), c.now, g.Size()) == After(run).Win(g)
  {
    hide AllowStep, Admits, After, Log, Advance, Visible, LateBy;
    var w := After(before).Win(g);
    var a := Advance(w, c.now, g.Size());
    AdvanceStart(w, c.now, g);
    VisibleNonNegative(a.prev, c.now - a.start, g);
    PassesByVisible(w, c.now, g, c.Limit(g));
    Solo(After(before), c, g);
    RunSnoc(before, c, g);
    LateBySnoc(before, c, g, d);
    AdvanceStart(Bump(a), c.now, g);
  }

  // A call that finds its window full moves it and is not counted.
  lemma FullStep(before: seq<Call>, c: Call, g: Gate, d: nat)
    requires c == CallAt(c.now, g, c.Limit(g)) && c.Limit(g) > 0
    requires LateBy(before, g, d)
    requires var a := Advance(After(before).Win(g), c.now, g.Size());
             Visible(a.prev, c.now - a.start, g) + a.curr >= c.Limit(g)
    ensures var run := before + [c];
            && Log(run, g) == Log(before, g) && LateBy(run, g, d)
            && After(run).Win(g) == Advance(After(before).Win(g), c.now, g.Size())
  {
    hide AllowStep, Admits, After, Log, Advance, Visible, LateBy;
    PassesByVisible(After(before).Win(g), c.now, g, c.Limit(g));
    Solo(After(before), c, g);
    RunSnoc(before, c, g);
    LateBySnoc(before, c, g, d);
  }

  lemma {:induction false} CountConstant(log: seq<int>, x: int, n: nat, lo: int, hi: int)
    ensures CountIn(log + seq(n, i => x), lo, hi) == CountIn(log, lo, hi) + if lo <= x < hi then n else 0
  {
    if n == 0 {
      assert log + seq(n, i => x) == log;
    } else {
      CountConstant(log, x, n - 1, lo, hi);
      assert log + seq(n, i => x) == (log + seq(n - 1, i => x)) + [x];
      CountSnoc(log + seq(n - 1, i => x), x, lo, hi);
    }
  }

  // ---- A full window -------------------------------------------------------------------------

  // `limit` requests at the last nanosecond of a window.
  function Fill(g: Gate, limit: nat): seq<Call> {
    seq(limit, i => CallAt(g.Size() - 1, g, limit))
  }

  lemma Filled(g: Gate, limit: nat)
    ensures var calls := Fill(g, limit);
            && Log(calls, g) == seq(limit, i => g.Size() - 1) && LateBy(calls, g, 0)
            && After(calls).Win(g).start <= 0
            && Advance(After(calls).Win(g), g.Size() - 1, g.Size()) == Window(0, 0, limit)
            && (limit > 0 ==> After(calls).Win(g) == Window(0, 0, limit))
  {
    NothingBehind(g);
    VisibleNone(g.Size() - 1, g);
    assert After([]) == FRESH && Log([], g) == [];
    hide AllowStep, Admits, After, Log, Visible, LateBy;
    var c := CallAt(g.Size() - 1, g, limit);
    Batch([], c, limit, g, 0);
    assert [] + seq(limit, i => c) == seq(limit, i => c);
    assert [] + seq(limit, i => c.now) == seq(limit, i => g.Size() - 1);
  }

  lemma VisibleNone(x: int, g: Gate)
    ensures Visible(0, x, g) == 0
  {
  }

  // What a later reading makes of it.
  lemma FilledLater(g: Gate, limit: nat, t: int)
    requires g.Size() <= t < 3 * g.Size()
    ensures var w := Advance(After(Fill(g, limit)).Win(g), t, g.Size());
            && w == (if t < 2 * g.Size() then Window(g.Size(), limit, 0) else Window(2 * g.Size(), 0, 0))
            && After(Fill(g, limit)).Win(g).start <= t
  {
    hide After, Advance, Log, LateBy;
    Filled(g, limit);
    var u := After(Fill(g, limit)).Win(g);
    AdvanceTwice(u, g.Size() - 1, t, g);
    FilledNext(g, limit, t);
  }

  lemma FilledNext(g: Gate, limit: nat, t: int)
    requires g.Size() <= t < 3 * g.Size()
    ensures Advance(Window(0, 0, limit), t, g.Size()) ==
            if t < 2 * g.Size() then Window(g.Size(), limit, 0) else Window(2 * g.Size(), 0, 0)
  {
    match g {
      case PerSecond => FilledNextSecond(limit, t);
      case PerMinute => FilledNextMinute(limit, t);
    }
  }

  lemma FilledNextSecond(limit: nat, t: int)
    requires SECOND <= t < 3 * SECOND
    ensures Advance(Window(0, 0, limit), t, SECOND) ==
            if t < 2 * SECOND then Window(SECOND, limit, 0) else Window(2 * SECOND, 0, 0)
  {
  }

  lemma FilledNextMinute(limit: nat, t: int)
    requires MINUTE <= t < 3 * MINUTE
    ensures Advance(Window(0, 0, limit), t, MINUTE) ==
            if t < 2 * MINUTE then Window(MINUTE, limit, 0) else Window(2 * MINUTE, 0, 0)
  {
  }

  lemma CountFilled(g: Gate, limit: nat, lo: int, hi: int)
    ensures CountIn(seq(limit, i => g.Size() - 1), lo, hi) == if lo <= g.Size() - 1 < hi then limit else 0
  {
    CountConstant([], g.Size() - 1, limit, lo, hi);
    assert [] + seq(limit, i => g.Size() - 1) == seq(limit, i => g.Size() - 1);
    CountNothing(lo, hi);
  }

  // ---- The bounds are attained ---------------------------------------------------------------

  // A full window, then as many requests as still pass at elapsed `e` of the next.
  function EdgeCase(g: Gate, limit: nat, e: nat): seq<Call>
    requires e < g.Size()
  {
    Fill(g, limit) + seq(ShareOut(limit, e, g), i => CallAt(g.Size() + e, g, limit))
  }

  function ShareOut(limit: nat, e: nat, g: Gate): nat {
    var n := SlidOut(limit, e, g);
    CeilNonNegative(limit, e, g);
    n
  }

  lemma ShareExact(a: nat, e: nat, g: Gate)
    requires e < g.Size()
    ensures Visible(a, e, g) == a - SlidOut(a, e, g) && 0 <= SlidOut(a, e, g) <= a
  {
    assert a * (g.Size() - e) == a * g.Size() - a * e;
    VisibleNonNegative(a, e, g);
    CeilNonNegative(a, e, g);
    match g {
      case PerSecond => assert (a * SECOND - a * e) / SECOND == a - CeilDiv(a * e, SECOND);
      case PerMinute => assert (a * MINUTE - a * e) / MINUTE == a - CeilDiv(a * e, MINUTE);
    }
  }

  // The bound of `BoundaryBurst` is attained, for every limit and at every elapsed time.
  lemma BoundaryBurstAttained(g: Gate, limit: nat, e: nat)
    requires e < g.Size()
    ensures Ordered(EdgeCase(g, limit, e)) && LimitedBy(EdgeCase(g, limit, e), g, limit)
    ensures Log(EdgeCase(g, limit, e), g) ==
            seq(limit, i => g.Size() - 1) + seq(ShareOut(limit, e, g), i => g.Size() + e)
  {
    hide AllowStep, After, Log, Advance, SlidOut, Visible, LateBy;
    Filled(g, limit);
    FilledLater(g, limit, g.Size() + e);
    ShareExact(limit, e, g);
    Batch(Fill(g, limit), CallAt(g.Size() + e, g, limit), ShareOut(limit, e, g), g, 0);
  }

  lemma EdgeCounts(g: Gate, limit: nat, e: nat, lo: int, mid: int, hi: int)
    requires e < g.Size() && lo <= g.Size() - 1 < mid <= g.Size() && mid <= g.Size() + e < hi
    ensures var log := Log(EdgeCase(g, limit, e), g);
            && CountIn(log, lo, mid) == limit && CountIn(log, mid, hi) == SlidOut(limit, e, g)
  {
    hide After, Log, CountIn, SlidOut, EdgeCase;
    BoundaryBurstAttained(g, limit, e);
    CountFilled(g, limit, lo, mid);
    CountFilled(g, limit, mid, hi);
    CountConstant(seq(limit, i => g.Size() - 1), g.Size() + e, ShareOut(limit, e, g), lo, mid);
    CountConstant(seq(limit, i => g.Size() - 1), g.Size() + e, ShareOut(limit, e, g), mid, hi);
  }

  // The bound of `RollingBound` is attained, for every limit.
  lemma RollingBoundAttained(g: Gate, limit: nat)
    ensures var calls := EdgeCase(g, limit, g.Size() - 2);
            && Ordered(calls) && LimitedBy(calls, g, limit)
            && CountIn(Log(calls, g), g.Size() - 1, 2 * g.Size() - 1) == RollingMax(limit, g)
  {
    hide After, Log, CountIn, SlidOut, EdgeCase;
    var e := g.Size() - 2;
    BoundaryBurstAttained(g, limit, e);
    EdgeCounts(g, limit, e, g.Size() - 1, g.Size(), 2 * g.Size() - 1);
    CountSplit(Log(EdgeCase(g, limit, e), g), g.Size() - 1, g.Size(), 2 * g.Size() - 1);
    ShareExact(limit, e, g);
    TwoShare(g, limit);
  }

  lemma TwoShare(g: Gate, limit: nat)
    ensures Visible(limit, g.Size() - 2, g) == 2 * limit / g.Size()
  {
    assert g.Size() - (g.Size() - 2) == 2;
  }

  // ---- The documented factor -------------------------------------------------------------------

  // Within 1.1 times the limit.
  predicate WithinDocumented(n: int, limit: nat) {
    10 * n <= 11 * limit
  }

  ghost predicate ExceedsDocumented(calls: seq<Call>, g: Gate, limit: nat, s: int) {
    && Ordered(calls) && LimitedBy(calls, g, limit)
    && !WithinDocumented(CountIn(Log(calls, g), s, s + g.Size()), limit)
  }

  // The documented factor of about 1.1 is exceeded, for every limit, on both gates.
  lemma DocumentedFactorExceeded(g: Gate, limit: nat)
    requires limit > 0
    ensures exists calls, s :: ExceedsDocumented(calls, g, limit, s)
  {
    RollingBoundAttained(g, limit);
    RollingMaxRange(limit, g);
    var calls, s := EdgeCase(g, limit, g.Size() - 2), g.Size() - 1;
    hide After, Log, CountIn, EdgeCase, RollingMax;
    assert s + g.Size() == 2 * g.Size() - 1;
    assert ExceedsDocumented(calls, g, limit, s);
  }

  // In every run the rolling window that ends `e` nanoseconds past a boundary keeps within
  // the documented factor.
  ghost predicate DocumentedHolds(g: Gate, limit: nat, e: nat) {
    forall calls, base | Ordered(calls) && LimitedBy(calls, g, limit) && Aligned(base, g) ::
      WithinDocumented(CountIn(Log(calls, g), base - g.Size() + e + 1, base + e + 1), limit)
  }

  // It does exactly when the share that can slide out by then is at most a tenth.
  lemma DocumentedFactorExactly(g: Gate, limit: nat, e: nat)
    requires e < g.Size() - 1
    ensures DocumentedHolds(g, limit, e) <==> 10 * SlidOut(limit, e, g) <= limit
  {
    hide After, Log, CountIn, SlidOut, Aligned, EdgeCase, LateBy;
    if 10 * SlidOut(limit, e, g) <= limit {
      forall calls, base | Ordered(calls) && LimitedBy(calls, g, limit) && Aligned(base, g)
        ensures WithinDocumented(CountIn(Log(calls, g), base - g.Size() + e + 1, base + e + 1), limit)
      {
        RollingWithin(calls, g, limit, base, e);
      }
    } else {
      BoundaryBurstAttained(g, limit, e);
      GridSize(g);
      EdgeCounts(g, limit, e, e + 1, g.Size(), g.Size() + e + 1);
      CountSplit(Log(EdgeCase(g, limit, e), g), e + 1, g.Size(), g.Size() + e + 1);
      assert g.Size() - g.Size() + e + 1 == e + 1;
      assert !WithinDocumented(CountIn(Log(EdgeCase(g, limit, e), g), e + 1, g.Size() + e + 1), limit);
    }
  }

  lemma GridSize(g: Gate)
    ensures Aligned(g.Size(), g) && Aligned(0, g)
  {
  }

  // A rolling window holds at most its boundary burst.
  lemma RollingWithin(calls: seq<Call>, g: Gate, limit: nat, base: int, e: nat)
    requires Ordered(calls) && LimitedBy(calls, g, limit) && Aligned(base, g) && e < g.Size() - 1
    ensures CountIn(Log(calls, g), base - g.Size() + e + 1, base + e + 1) <= limit + SlidOut(limit, e, g)
  {
    hide After, Log, CountIn, SlidOut, Aligned, LateBy, Tolerable;
    var log := Log(calls, g);
    OrderedIsNotBehind(calls, g);
    LateIsTolerable(calls, g, 0, 0);
    LateIsTolerable(calls, g, 0, g.Size());
    BoundaryBurst(calls, g, limit, 0, base, e);
    AlignedNeighbours(base, g);
    AlignedCap(calls, g, limit, base - g.Size());
    SlidOutGrows(CountIn(log, base - g.Size(), base), limit, e, g);
    CountSplit(log, base - g.Size() + e + 1, base, base + e + 1);
    CountWithin(log, base - g.Size() + e + 1, base, base - g.Size(), base);
  }

  // In terms of the elapsed time: a share of a tenth, rounded down to whole requests.
  lemma TenthInTime(limit: nat, e: nat, g: Gate)
    ensures 10 * SlidOut(limit, e, g) <= limit <==> limit * e <= g.Size() * (limit / 10)
  {
    if g.PerSecond? {
      CeilAtMostSecond(limit * e, limit / 10);
    } else {
      CeilAtMostMinute(limit * e, limit / 10);
    }
  }

  lemma CeilAtMostSecond(p: nat, q: nat)
    ensures CeilDiv(p, SECOND) <= q <==> p <= SECOND * q
  {
  }

  lemma CeilAtMostMinute(p: nat, q: nat)
    ensures CeilDiv(p, MINUTE) <= q <==> p <= MINUTE * q
  {
  }

  // ---- How far behind a reading may be: the cap ------------------------------------------------

  // Every run that reads at most `d` behind keeps the cap of every aligned window.
  ghost predicate CapHolds(g: Gate, limit: nat, d: nat) {
    forall calls, base | LateBy(calls, g, d) && LimitedBy(calls, g, limit) && Aligned(base, g) ::
      CountIn(Log(calls, g), base, base + g.Size()) <= limit
  }

  // A full window, one request two windows on, and one more at the old time.
  function CapBreaker(g: Gate, limit: nat): seq<Call> {
    Fill(g, limit) + [CallAt(2 * g.Size(), g, limit)] + [CallAt(g.Size() - 1, g, limit)]
  }

  lemma CapBroken(g: Gate, limit: nat)
    requires limit >= 2
    ensures LateBy(CapBreaker(g, limit), g, g.Size() + 1) && LimitedBy(CapBreaker(g, limit), g, limit)
    ensures CountIn(Log(CapBreaker(g, limit), g), 0, g.Size()) == limit + 1
  {
    hide AllowStep, After, Log, CountIn, Visible, LateBy;
    var size := g.Size();
    var far, back := CallAt(2 * size, g, limit), CallAt(size - 1, g, limit);
    var before := Fill(g, limit);
    Filled(g, limit);
    FilledLater(g, limit, 2 * size);
    VisibleNone(0, g);
    VisibleNone(-size - 1, g);
    OneMoreCall(before, far, g, 0);
    LateMore(before + [far], g, 0, size + 1);
    OneMoreCall(before + [far], back, g, size + 1);
    CountFilled(g, limit, 0, size);
    CountSnoc(Log(before, g), 2 * size, 0, size);
    CountSnoc(Log(before, g) + [2 * size], size - 1, 0, size);
  }

  // The same for a limit of one on the per-second gate: there a call that the per-minute
  // gate turns away moves the per-second window on and leaves it empty.
  function SecondBreaker(now: int): seq<Call> {
    [Call(SECOND - 1, 1, 1)] + [Call(2 * SECOND, 1, 1)] + [Call(now, 1, 0)]
  }

  lemma SecondBroken(now: int)
    requires 0 <= now <= SECOND
    ensures LateBy(SecondBreaker(now), PerSecond, 2 * SECOND - now) && LimitedBy(SecondBreaker(now), PerSecond, 1)
    ensures Log(SecondBreaker(now), PerSecond) == [SECOND - 1, now]
  {
    var a, b, c := Call(SECOND - 1, 1, 1), Call(2 * SECOND, 1, 1), Call(now, 1, 0);
    var k1 := Key(Window(0, 0, 1), Window(0, 0, 1));
    var k2 := Key(Window(2 * SECOND, 0, 0), Window(0, 0, 1));
    NothingBehind(PerSecond);
    LateMore([], PerSecond, 0, 2 * SECOND - now);
    assert After([]) == FRESH && Log([], PerSecond) == [];
    SecondSteps(now);
    hide AllowStep, After, Log, LateBy;
    RunSnoc([], a, PerSecond);
    RunSnoc([a], b, PerSecond);
    RunSnoc([a] + [b], c, PerSecond);
    assert [] + [a] == [a];
    LateBySnoc([], a, PerSecond, 2 * SECOND - now);
    LateBySnoc([a], b, PerSecond, 2 * SECOND - now);
    LateBySnoc([a] + [b], c, PerSecond, 2 * SECOND - now);
  }

  lemma SecondSteps(now: int)
    requires 0 <= now <= SECOND
    ensures var k1 := Key(Window(0, 0, 1), Window(0, 0, 1));
            var k2 := Key(Window(2 * SECOND, 0, 0), Window(0, 0, 1));
            && AllowStep(FRESH, Call(SECOND - 1, 1, 1)) == (k1, Allowed)
            && AllowStep(k1, Call(2 * SECOND, 1, 1)).0 == k2 && AllowStep(k1, Call(2 * SECOND, 1, 1)).1.Limited?
            && AllowStep(k2, Call(now, 1, 0)).1.Allowed?
  {
  }

  // The cap holds exactly when no reading is more than a whole window behind, apart from
  // limits under which a reading from behind is never let through.
  lemma CapExactly(g: Gate, limit: nat, d: nat)
    ensures CapHolds(g, limit, d) <==> d <= g.Size() || limit == 0 || (limit == 1 && g.PerMinute?)
  {
    hide After, Log, CountIn, Aligned, LateBy, Tolerable, CapBreaker, SecondBreaker, LimitedBy, Admits;
    if d <= g.Size() || limit == 0 || (limit == 1 && g.PerMinute?) {
      forall calls, base | LateBy(calls, g, d) && LimitedBy(calls, g, limit) && Aligned(base, g)
        ensures CountIn(Log(calls, g), base, base + g.Size()) <= limit
      {
        EnoughForCap(calls, g, limit, d);
        AlignedCap(calls, g, limit, base);
      }
    } else if limit >= 2 {
      CapBroken(g, limit);
      LateMore(CapBreaker(g, limit), g, g.Size() + 1, d);
      GridSize(g);
      assert CountIn(Log(CapBreaker(g, limit), g), 0, 0 + g.Size()) > limit;
    } else {
      SecondBroken(SECOND - 1);
      LateMore(SecondBreaker(SECOND - 1), g, SECOND + 1, d);
      GridSize(g);
      TwoAt(SECOND - 1, SECOND - 1, 0, SECOND);
      assert CountIn(Log(SecondBreaker(SECOND - 1), g), 0, 0 + g.Size()) > limit;
    }
  }

  lemma TwoAt(x: int, y: int, lo: int, hi: int)
    ensures CountIn([x, y], lo, hi) == (if lo <= x < hi then 1 else 0) + if lo <= y < hi then 1 else 0
  {
    CountNothing(lo, hi);
    CountSnoc([], x, lo, hi);
    CountSnoc([x], y, lo, hi);
    assert [] + [x] == [x] && [x] + [y] == [x, y];
  }

  lemma EnoughForCap(calls: seq<Call>, g: Gate, limit: nat, d: nat)
    requires LateBy(calls, g, d) && LimitedBy(calls, g, limit)
    requires d <= g.Size() || limit == 0 || (limit == 1 && g.PerMinute?)
    ensures Tolerable(calls, g, g.Size())
  {
    hide After, Log, LateBy, Admits;
    if d <= g.Size() {
      LateIsTolerable(calls, g, d, g.Size());
    } else if limit == 0 {
      assert forall i :: 0 <= i < |calls| ==> calls[i].Limit(g) <= 0;
      NeverOn(calls, g);
    } else {
      OneAMinute(calls);
      TolerableMore(calls, g, 0, g.Size());
    }
  }

  lemma NeverOn(calls: seq<Call>, g: Gate)
    requires LimitedBy(calls, g, 0)
    ensures Tolerable(calls, g, g.Size())
  {
    hide AllowStep, After, Log;
  }

  // ---- How far behind a reading may be: the burst ----------------------------------------------

  // Every run that reads at most `d` behind keeps the bound on every boundary burst.
  ghost predicate BurstHolds(g: Gate, limit: nat, d: nat) {
    forall calls, base, e: nat | LateBy(calls, g, d) && LimitedBy(calls, g, limit) && Aligned(base, g) && e < g.Size() ::
      BurstBounded(Log(calls, g), g, limit, base, e)
  }

  // The time in which one request of a full window slides out.
  function OneShare(g: Gate, limit: nat): int
    requires limit > 0
  {
    CeilDiv(g.Size(), limit)
  }

  lemma OneShareFacts(g: Gate, limit: nat, d: nat)
    requires limit >= 2 && limit * d >= g.Size()
    ensures var q := OneShare(g, limit); 0 < q <= d && 2 * q <= g.Size() <= limit * q
  {
    var size := g.Size();
    var r := (-size) / limit;
    var q := OneShare(g, limit);
    assert limit * r <= -size < limit * r + limit;
    assert q == -r;
    Opposite(limit, q);
    assert limit * q - limit < size <= limit * q;
    assert limit * (q - 1) == limit * q - limit;
    if q > d {
      Monotone(limit, d, q - 1);
      assert false;
    }
    assert q > 0;
    Monotone(q - 1, 2, limit);
    assert (q - 1) * limit == limit * q - limit;
    match g {
      case PerSecond => assert 2 * (q - 1) < SECOND;
      case PerMinute => assert 2 * (q - 1) < MINUTE;
    }
  }

  lemma Opposite(a: int, b: int)
    ensures a * (-b) == -(a * b)
  {
  }

  lemma Monotone(n: nat, a: int, b: int)
    requires a <= b
    ensures n * a <= n * b
  {
  }

  // A full window; one request as soon as one passes again; a request under a lowered limit
  // that is turned away at the next boundary; and the rest one share behind that boundary.
  function BurstBreaker(g: Gate, limit: nat): seq<Call>
    requires limit >= 2
  {
    var q := OneShare(g, limit);
    Fill(g, limit) + [CallAt(g.Size() + q, g, limit)] + [CallAt(2 * g.Size(), g, 1)]
    + seq(limit - 1, i => CallAt(2 * g.Size() - q, g, limit))
  }

  lemma BurstRun(g: Gate, limit: nat, d: nat)
    requires limit >= 2 && limit * d >= g.Size()
    ensures var q := OneShare(g, limit);
            && LateBy(BurstBreaker(g, limit), g, d) && LimitedBy(BurstBreaker(g, limit), g, limit)
            && Log(BurstBreaker(g, limit), g) ==
               seq(limit, i => g.Size() - 1) + [g.Size() + q] + seq(limit - 1, i => 2 * g.Size() - q)
  {
    hide AllowStep, Admits, After, Log, CountIn, Visible, LateBy, Advance, OneShare;
    var size, q := g.Size(), OneShare(g, limit);
    OneShareFacts(g, limit, d);
    var soon, low, back := CallAt(size + q, g, limit), CallAt(2 * size, g, 1), CallAt(2 * size - q, g, limit);
    Filled(g, limit);
    FilledLater(g, limit, size + q);
    OneSlidOut(g, limit, q);
    OneMoreCall(Fill(g, limit), soon, g, 0);
    var run1 := Fill(g, limit) + [soon];
    OneLeft(g, limit);
    VisibleOne(0, g);
    FullStep(run1, low, g, 0);
    var run2 := run1 + [low];
    LateMore(run2, g, 0, d);
    VisibleOne(-q, g);
    BehindStays(Window(2 * size, 1, 0), 2 * size - q, g);
    Batch(run2, back, limit - 1, g, d);
  }

  lemma OneSlidOut(g: Gate, limit: nat, q: nat)
    requires g.Size() <= limit * q && q < g.Size()
    ensures Visible(limit, q, g) <= limit - 1 && Visible(limit, g.Size() - q, g) >= 1
  {
    assert limit * (g.Size() - q) == limit * g.Size() - limit * q;
    assert g.Size() - (g.Size() - q) == q;
    match g {
      case PerSecond => assert (limit * SECOND - limit * q) / SECOND <= limit - 1 && limit * q / SECOND >= 1;
      case PerMinute => assert (limit * MINUTE - limit * q) / MINUTE <= limit - 1 && limit * q / MINUTE >= 1;
    }
  }

  lemma OneLeft(g: Gate, limit: nat)
    ensures Advance(Window(g.Size(), limit, 1), 2 * g.Size(), g.Size()) == Window(2 * g.Size(), 1, 0)
  {
  }

  lemma VisibleOne(x: int, g: Gate)
    requires -g.Size() < x <= 0
    ensures Visible(1, x, g) == 1
  {
  }

  lemma BehindStays(w: Window, t: int, g: Gate)
    requires t <= w.start
    ensures Advance(w, t, g.Size()) == w
  {
  }

  lemma BurstBroken(g: Gate, limit: nat, d: nat)
    requires limit >= 2 && limit * d >= g.Size()
    ensures var e := g.Size() - OneShare(g, limit);
            0 <= e < g.Size() && !BurstBounded(Log(BurstBreaker(g, limit), g), g, limit, g.Size(), e)
  {
    hide After, Log, CountIn, Visible, OneShare, SlidOut, BurstBreaker;
    var size, q := g.Size(), OneShare(g, limit);
    OneShareFacts(g, limit, d);
    BurstRun(g, limit, d);
    var e, log1 := size - q, seq(limit, i => size - 1);
    OneSlidOut(g, limit, q);
    ShareExact(limit, e, g);
    CountFilled(g, limit, 0, size);
    CountFilled(g, limit, size, size + e + 1);
    CountSnoc(log1, size + q, 0, size);
    CountSnoc(log1, size + q, size, size + e + 1);
    CountConstant(log1 + [size + q], 2 * size - q, limit - 1, 0, size);
    CountConstant(log1 + [size + q], 2 * size - q, limit - 1, size, size + e + 1);
    assert size - size == 0;
  }

  // The burst keeps its bound exactly when no reading is so far behind that one request of a
  // full window slides back into view, apart from one request a minute.
  lemma BurstExactly(g: Gate, limit: nat, d: nat)
    ensures BurstHolds(g, limit, d) <==> limit * d < g.Size() || (limit == 1 && g.PerMinute?)
  {
    hide After, Log, CountIn, Aligned, LateBy, Tolerable, BurstBreaker, SecondBreaker, LimitedBy, OneShare;
    hide BurstBounded;
    if limit * d < g.Size() || (limit == 1 && g.PerMinute?) {
      forall calls, base, e: nat | LateBy(calls, g, d) && LimitedBy(calls, g, limit) && Aligned(base, g) && e < g.Size()
        ensures BurstBounded(Log(calls, g), g, limit, base, e)
      {
        if limit * d < g.Size() {
          LateIsTolerable(calls, g, d, d);
          BoundaryBurst(calls, g, limit, d, base, e);
        } else {
          OneAMinute(calls);
          BoundaryBurst(calls, g, limit, 0, base, e);
        }
      }
    } else if limit >= 2 {
      BurstRun(g, limit, d);
      BurstBroken(g, limit, d);
      GridSize(g);
    } else {
      SecondBurstBroken();
      SecondBroken(SECOND);
      LateMore(SecondBreaker(SECOND), g, SECOND, d);
      GridSize(g);
      assert !BurstBounded(Log(SecondBreaker(SECOND), g), g, limit, g.Size(), 0);
    }
  }

  lemma SecondBurstBroken()
    ensures !BurstBounded(Log(SecondBreaker(SECOND), PerSecond), PerSecond, 1, SECOND, 0)
  {
    hide Log, CountIn, SecondBreaker;
    SecondBroken(SECOND);
    TwoAt(SECOND - 1, SECOND, 0, SECOND);
    TwoAt(SECOND - 1, SECOND, SECOND, SECOND + 1);
  }

  // ---- How far behind a reading may be: int64 ---------------------------------------------------

  // Every call that uses the gate, let through or not, reads at most `d` behind.
  ghost predicate AllLateBy(calls: seq<Call>, g: Gate, d: int) {
    forall i :: 0 <= i < |calls| && calls[i].Limit(g) > 0 ==> After(calls[..i]).Win(g).start - d <= calls[i].now
  }

  lemma AllLateBySnoc(calls: seq<Call>, c: Call, g: Gate, d: int)
    ensures AllLateBy(calls + [c], g, d) <==>
            AllLateBy(calls, g, d) && (c.Limit(g) > 0 ==> After(calls).Win(g).start - d <= c.now)
  {
    hide After;
    var all := calls + [c];
    assert forall i :: 0 <= i < |calls| ==> all[..i] == calls[..i] && all[i] == calls[i];
    assert all[..|calls|] == calls && all[|calls|] == c;
  }

  lemma {:induction false} OrderedAllLate(calls: seq<Call>, g: Gate, d: nat)
    requires Ordered(calls)
    ensures AllLateBy(calls, g, d)
  {
    hide After;
    if calls != [] {
      var init, c := calls[..|calls| - 1], calls[|calls| - 1];
      assert calls == init + [c];
      PrefixFacts(init, c);
      OrderedAllLate(init, g, d);
      StartNotAfter(init, g);
      AllLateBySnoc(init, c, g, d);
    }
  }

  // The arithmetic of the last call stays within an int64.
  ghost predicate ArithmeticFits(calls: seq<Call>, c: Call, g: Gate) {
    var w := Advance(After(calls).Win(g), c.now, g.Size());
    FitsInt64(Product(w, c.now, g)) && FitsInt64(Estimate(w, c.now, g.Size()) + 1)
  }

  ghost predicate AlwaysFits(g: Gate, limit: nat, d: nat) {
    forall calls, c |
      AllLateBy(calls + [c], g, d) && LimitedBy(calls + [c], g, limit) && c.Limit(g) > 0 :: ArithmeticFits(calls, c, g)
  }

  // A full window, a request turned away at the boundary, and one from `d` behind it.
  lemma Overflow(g: Gate, limit: nat, d: nat)
    requires limit * (g.Size() + d) > INT64_MAX
    ensures var calls := Fill(g, limit) + [CallAt(g.Size(), g, limit)];
            var c := CallAt(g.Size() - d, g, limit);
            && AllLateBy(calls + [c], g, d) && LimitedBy(calls + [c], g, limit) && c.Limit(g) > 0
            && !ArithmeticFits(calls, c, g)
  {
    hide AllowStep, Admits, After, Log, Visible, LateBy, AllLateBy, Estimate, Advance;
    var size := g.Size();
    assert limit > 0;
    var before, edge, back := Fill(g, limit), CallAt(size, g, limit), CallAt(size - d, g, limit);
    Filled(g, limit);
    FilledLater(g, limit, size);
    VisibleAll(limit, g);
    FullStep(before, edge, g, 0);
    assert Ordered(before + [edge]);
    OrderedAllLate(before + [edge], g, d);
    AllLateBySnoc(before + [edge], back, g, d);
    BehindStays(Window(size, limit, 0), size - d, g);
    assert limit * (size - (size - d - size)) == limit * (size + d);
  }

  // The arithmetic of all runs that read at most `d` behind fits exactly when the largest
  // product does.
  lemma ArithmeticExactly(g: Gate, limit: nat, d: nat)
    ensures AlwaysFits(g, limit, d) <==> limit * (g.Size() + d) <= INT64_MAX
  {
    hide After, AllLateBy, ArithmeticFits, Fill;
    if limit * (g.Size() + d) <= INT64_MAX {
      forall calls, c | AllLateBy(calls + [c], g, d) && LimitedBy(calls + [c], g, limit) && c.Limit(g) > 0
        ensures ArithmeticFits(calls, c, g)
      {
        AllLateBySnoc(calls, c, g, d);
        LimitedSnoc(calls, c, g, limit);
        LastFits(calls, c, g, limit, d);
      }
    } else {
      Overflow(g, limit, d);
      var calls, c := Fill(g, limit) + [CallAt(g.Size(), g, limit)], CallAt(g.Size() - d, g, limit);
      assert AllLateBy(calls + [c], g, d);
    }
  }

  lemma LastFits(calls: seq<Call>, c: Call, g: Gate, limit: nat, d: nat)
    requires LimitedBy(calls, g, limit) && limit * (g.Size() + d) <= INT64_MAX
    requires After(calls).Win(g).start - d <= c.now
    ensures ArithmeticFits(calls, c, g)
  {
    NoOverflow(calls, c, g, limit, d);
  }

  // The largest limit that is safe on time, and how late it may be read.
  lemma SafeLimit(limit: nat, d: nat)
    ensures AlwaysFits(PerMinute, limit, 0) <==> limit <= 153_722_867
    ensures AlwaysFits(PerMinute, 153_722_867, d) <==> d <= 109
  {
    hide AlwaysFits;
    ArithmeticExactly(PerMinute, limit, 0);
    ArithmeticExactly(PerMinute, 153_722_867, d);
  }
}
