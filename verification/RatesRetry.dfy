/**
 The Retry-After value: exactly when a caller that waits as told passes the gate that
 turned it away. It does, unless the window holds more than the limit it now meets or the
 clamp to 60 seconds cut the wait short.
 */
module RatesRetry {
  import opened Rates
  import opened RatesLog
  import opened RatesBounds

  // Gate `g` is the one that turns the call away.
  ghost predicate RejectedBy(k: Key, c: Call, g: Gate) {
    && c.Limit(g) > 0
    && !Passes(k.Win(g), c.now, g.Size(), c.Limit(g))
    && (g.PerMinute? && c.rps > 0 ==> Passes(k.sec, c.now, SECOND, c.rps))
  }

  lemma RejectionValue(k: Key, c: Call, g: Gate)
    requires RejectedBy(k, c, g)
    ensures AllowStep(k, c).1 == Limited(RetryAfter(Advance(k.Win(g), c.now, g.Size()), c.now, g.Size()))
  {
  }

  // ---- One window --------------------------------------------------------------------

  // Past the boundary at least one previous admission has slid out.
  lemma PartlySlid(prev: nat, x: int, limit: int, g: Gate)
    requires prev <= limit && 0 < x <= g.Size() && limit > 0
    ensures Visible(prev, x, g) < limit
  {
    var p := prev * (g.Size() - x);
    assert p <= limit * (g.Size() - 1) by {
      assert prev * (g.Size() - x) <= prev * (g.Size() - 1) <= limit * (g.Size() - 1);
    }
    if g.PerSecond? {
      assert p / SECOND < limit;
    } else {
      assert p / MINUTE < limit;
    }
  }

  // How far behind the rejected call may read for the wait to reach the next window.
  function Slack(g: Gate): int {
    MINUTE - g.Size()
  }

  // The wait reaches the next window exactly when the call reads at most the slack behind:
  // 59 seconds on the per-second gate, nothing on the per-minute gate.
  lemma WaitReachesNext(w: Window, now: int, g: Gate)
    requires now < w.start + g.Size()
    ensures w.start + g.Size() <= now + RetryAfter(w, now, g.Size()) * SECOND <==> w.start - Slack(g) <= now
  {
    match g {
      case PerSecond => WaitReachesNextSecond(w, now);
      case PerMinute => WaitReachesNextMinute(w, now);
    }
  }

  lemma WaitReachesNextSecond(w: Window, now: int)
    requires now < w.start + SECOND
    ensures w.start + SECOND <= now + RetryAfter(w, now, SECOND) * SECOND <==> w.start - 59 * SECOND <= now
  {
  }

  lemma WaitReachesNextMinute(w: Window, now: int)
    requires now < w.start + MINUTE
    ensures w.start + MINUTE <= now + RetryAfter(w, now, MINUTE) * SECOND <==> w.start <= now
  {
  }

  // The wait is the least number of whole seconds that ends past the boundary, within the
  // range 1 to 60: it is past unless clamped, and one second less would not be.
  ghost predicate LeastWait(w: Window, now: int, g: Gate, r: int) {
    && 1 <= r <= 60
    && (r < 60 ==> w.start + g.Size() < now + r * SECOND)
    && (r > 1 ==> now + (r - 1) * SECOND <= w.start + g.Size())
  }

  lemma WaitIsLeast(w: Window, now: int, g: Gate)
    requires now < w.start + g.Size()
    ensures LeastWait(w, now, g, RetryAfter(w, now, g.Size()))
  {
    match g {
      case PerSecond => WaitIsLeastSecond(w, now);
      case PerMinute => WaitIsLeastMinute(w, now);
    }
  }

  lemma WaitIsLeastSecond(w: Window, now: int)
    requires now < w.start + SECOND
    ensures LeastWait(w, now, PerSecond, RetryAfter(w, now, SECOND))
  {
  }

  lemma WaitIsLeastMinute(w: Window, now: int)
    requires now < w.start + MINUTE
    ensures LeastWait(w, now, PerMinute, RetryAfter(w, now, MINUTE))
  {
  }

  lemma LeastWaitUnique(w: Window, now: int, g: Gate, r: int, r': int)
    requires LeastWait(w, now, g, r) && LeastWait(w, now, g, r')
    ensures r == r'
  {
  }

  // The answer to a rejected call, without its formula: the least wait at the gate that turns
  // the call away, the per-second gate being asked first.
  lemma RejectionTellsLeastWait(k: Key, c: Call, g: Gate, r: int)
    requires RejectedBy(k, c, g)
    ensures AllowStep(k, c).1 == Limited(r) <==> LeastWait(Advance(k.Win(g), c.now, g.Size()), c.now, g, r)
  {
    RejectionValue(k, c, g);
    AdvanceStart(k.Win(g), c.now, g);
    hide AllowStep, RetryAfter, Advance, LeastWait;
    var a := Advance(k.Win(g), c.now, g.Size());
    WaitIsLeast(a, c.now, g);
    if LeastWait(a, c.now, g, r) {
      LeastWaitUnique(a, c.now, g, r, RetryAfter(a, c.now, g.Size()));
    }
  }

  // Where the window stands after the wait: at least one window on.
  ghost predicate Waited(w: Window, now: int, t: int, g: Gate) {
    var b := Advance(w, t, g.Size());
    && w.start + g.Size() <= t
    && (t == w.start + g.Size() ==> now == w.start - Slack(g) && t == now + MINUTE)
    && if t < w.start + 2 * g.Size() then b == Window(w.start + g.Size(), w.curr, 0)
       else b.prev == b.curr == 0 && 0 <= t - b.start < g.Size()
  }

  lemma AfterWait(w: Window, now: int, t: int, g: Gate)
    requires w.start - Slack(g) <= now < w.start + g.Size()
    requires now + RetryAfter(w, now, g.Size()) * SECOND <= t
    ensures Waited(w, now, t, g)
  {
    match g {
      case PerSecond => AfterWaitSecond(w, now, t);
      case PerMinute => AfterWaitMinute(w, now, t);
    }
  }

  lemma AfterWaitSecond(w: Window, now: int, t: int)
    requires w.start - 59 * SECOND <= now < w.start + SECOND
    requires now + RetryAfter(w, now, SECOND) * SECOND <= t
    ensures Waited(w, now, t, PerSecond)
  {
  }

  lemma AfterWaitMinute(w: Window, now: int, t: int)
    requires w.start <= now < w.start + MINUTE
    requires now + RetryAfter(w, now, MINUTE) * SECOND <= t
    ensures Waited(w, now, t, PerMinute)
  {
  }

  // What the caller left behind is still in view: the window is the previous one and its
  // visible share reaches the limit.
  predicate StillFull(a: Window, t: int, g: Gate, limit: int) {
    t < a.start + 2 * g.Size() && Visible(a.curr, t - a.start - g.Size(), g) >= limit
  }

  lemma WindowRetry(a: Window, now: int, t: int, g: Gate, limit: int)
    requires a.start - Slack(g) <= now < a.start + g.Size() && limit > 0
    requires now + RetryAfter(a, now, g.Size()) * SECOND <= t
    ensures Passes(a, t, g.Size(), limit) <==> !StillFull(a, t, g, limit)
  {
    PassesByVisible(a, t, g, limit);
    hide Advance, Estimate, Passes, Visible, RetryAfter;
    var b := Advance(a, t, g.Size());
    AfterWait(a, now, t, g);
    if b.prev == 0 {
      NothingVisible(t - b.start, g);
    }
    if t < a.start + 2 * g.Size() {
      assert t - b.start == t - a.start - g.Size();
    }
  }

  lemma NothingVisible(x: int, g: Gate)
    ensures Visible(0, x, g) == 0
  {
  }

  // The one way in which a window that keeps to the limit can fall short: the clamp to
  // sixty seconds ends the wait at the very start of the next window, and this one is full.
  // On the per-minute gate that is a call at the first nanosecond of a window.
  ghost predicate ClampFallsShort(a: Window, now: int, t: int, g: Gate, limit: int) {
    now == a.start - Slack(g) && a.curr == limit && t == now + MINUTE
  }

  lemma OnlyTheClamp(a: Window, now: int, t: int, g: Gate, limit: int)
    requires a.start - Slack(g) <= now < a.start + g.Size() && limit > 0 && a.curr <= limit
    requires now + RetryAfter(a, now, g.Size()) * SECOND <= t
    ensures StillFull(a, t, g, limit) <==> ClampFallsShort(a, now, t, g, limit)
  {
    hide Advance, Visible, RetryAfter;
    AfterWait(a, now, t, g);
    var x := t - a.start - g.Size();
    if x == 0 {
      VisibleAll(a.curr, g);
    } else if t < a.start + 2 * g.Size() {
      PartlySlid(a.curr, x, limit, g);
    }
  }

  // ---- Runs --------------------------------------------------------------------------

  ghost predicate AllRejected(k: Key, calls: seq<Call>) {
    forall i :: 0 <= i < |RunFrom(k, calls).1| ==> RunFrom(k, calls).1[i].Limited?
  }

  lemma {:induction false} AllRejectedIsSame(k: Key, calls: seq<Call>)
    requires AllRejected(k, calls)
    ensures Same(RunFrom(k, calls).0, k)
    ensures forall g: Gate :: k.Win(g).start <= RunFrom(k, calls).0.Win(g).start
    decreases calls
  {
    if calls != [] {
      var r := AllowStep(k, calls[0]);
      assert RunFrom(k, calls).1[0] == r.1;
      assert forall i :: 0 <= i < |RunFrom(r.0, calls[1..]).1| ==>
          RunFrom(k, calls).1[i + 1] == RunFrom(r.0, calls[1..]).1[i];
      AllRejectedIsSame(r.0, calls[1..]);
      RejectedIsSame(k, calls[0]);
      var last := RunFrom(r.0, calls[1..]).0;
      hide AllowStep, Advance, RunFrom;
      StepStarts(k, calls[0]);
      forall g: Gate, t | t >= last.Win(g).start
        ensures Advance(last.Win(g), t, g.Size()) == Advance(k.Win(g), t, g.Size())
      {
        SameWindow(last, r.0, g, t);
        SameWindow(r.0, k, g, t);
      }
    }
  }

  lemma StepStarts(k: Key, c: Call)
    ensures forall g: Gate :: k.Win(g).start <= AllowStep(k, c).0.Win(g).start
  {
    forall g: Gate
      ensures k.Win(g).start <= AllowStep(k, c).0.Win(g).start
    {
      StepGate(k, c, g);
      AdvanceStart(k.Win(g), c.now, g);
    }
  }

  // Where Retry-After leads, from any state: a call turned away by gate `g`, and retried
  // once the returned number of seconds has gone by with no admission in between, passes
  // that gate exactly when the window it was turned away from is no longer full to it.
  // The call may read behind by the slack of its gate and the rejected calls in between by
  // any amount; the retry must not read behind.
  lemma RetryAfterExact(k: Key, c: Call, between: seq<Call>, g: Gate, t: int)
    requires RejectedBy(k, c, g) && k.Win(g).start - Slack(g) <= c.now
    requires AllRejected(AllowStep(k, c).0, between)
    requires RunFrom(AllowStep(k, c).0, between).0.Win(g).start <= t
    requires AllowStep(k, c).1.Limited? ==> t >= c.now + AllowStep(k, c).1.seconds * SECOND
    ensures AllowStep(k, c).1.Limited?
    ensures var a := Advance(k.Win(g), c.now, g.Size());
            var final := RunFrom(AllowStep(k, c).0, between).0;
            Passes(final.Win(g), t, g.Size(), c.Limit(g)) <==> !StillFull(a, t, g, c.Limit(g))
  {
    RejectionValue(k, c, g);
    hide AllowStep, Advance, RetryAfter, StillFull, RunFrom;
    var k' := AllowStep(k, c).0;
    var final := RunFrom(k', between).0;
    RejectedIsSame(k, c);
    AllRejectedIsSame(k', between);
    SameWindow(final, k', g, t);
    SameWindow(k', k, g, t);
    AdvanceStart(k.Win(g), c.now, g);
    AfterWaitInView(k, c, g);
    AdvanceTwice(k.Win(g), c.now, t, g);
    WindowRetry(Advance(k.Win(g), c.now, g.Size()), c.now, t, g, c.Limit(g));
    SamePasses(final.Win(g), Advance(k.Win(g), c.now, g.Size()), t, g, c.Limit(g));
  }

  lemma SamePasses(u: Window, v: Window, t: int, g: Gate, limit: int)
    requires Advance(u, t, g.Size()) == Advance(v, t, g.Size())
    ensures Passes(u, t, g.Size(), limit) <==> Passes(v, t, g.Size(), limit)
  {
  }

  // The wait is at least a second.
  lemma AfterWaitInView(k: Key, c: Call, g: Gate)
    ensures RetryAfter(Advance(k.Win(g), c.now, g.Size()), c.now, g.Size()) >= 1
  {
  }

  // Retry-After suffices: as long as the limit was never lowered, the clamp is the only
  // exception.
  lemma RetryAfterSuffices(calls: seq<Call>, c: Call, between: seq<Call>, g: Gate, t: int)
    requires forall i :: 0 <= i < |calls| ==> calls[i].Limit(g) <= c.Limit(g)
    requires RejectedBy(After(calls), c, g) && After(calls).Win(g).start - Slack(g) <= c.now
    requires AllRejected(AllowStep(After(calls), c).0, between)
    requires RunFrom(AllowStep(After(calls), c).0, between).0.Win(g).start <= t
    requires AllowStep(After(calls), c).1.Limited? ==>
               t >= c.now + AllowStep(After(calls), c).1.seconds * SECOND
    ensures var a := Advance(After(calls).Win(g), c.now, g.Size());
            var final := RunFrom(AllowStep(After(calls), c).0, between).0;
            Passes(final.Win(g), t, g.Size(), c.Limit(g)) <==> !ClampFallsShort(a, c.now, t, g, c.Limit(g))
  {
    var k := After(calls);
    RetryAfterExact(k, c, between, g, t);
    RejectionValue(k, c, g);
    CountersBounded(calls, g, c.Limit(g));
    hide AllowStep, Advance, RetryAfter, StillFull, RunFrom, Passes, After;
    AdvanceStart(k.Win(g), c.now, g);
    OnlyTheClamp(Advance(k.Win(g), c.now, g.Size()), c.now, t, g, c.Limit(g));
  }

  // ---- The exceptions are reachable --------------------------------------------------------

  // A limit lowered from two to one: told to wait one second, refused after it.
  lemma LoweredLimitExample()
    ensures var k := After([Call(0, 2, 0), Call(0, 2, 0)]);
            var c := Call(SECOND / 2, 1, 0);
            && AllowStep(k, c) == (k, Limited(1))
            && !Passes(k.sec, SECOND / 2 + SECOND, SECOND, 1)
  {
    var c := Call(0, 2, 0);
    AfterNothing();
    hide AllowStep, After, Passes;
    SecAdmits(0, 0, 0);
    SecAdmits(0, 1, 0);
    RunSnoc([], c, PerSecond);
    RunSnoc([c], c, PerSecond);
    assert [] + [c] == [c] && [c] + [c] == [c, c];
    TwoHeld();
  }

  lemma TwoHeld()
    ensures AllowStep(Sec(0, 0, 2), Call(SECOND / 2, 1, 0)) == (Sec(0, 0, 2), Limited(1))
    ensures !Passes(Window(0, 0, 2), SECOND / 2 + SECOND, SECOND, 1)
  {
  }

  // A reading from behind: told to wait sixty seconds, refused after them although not at
  // the first nanosecond of a window.
  lemma BackwardClockBreaksRetryAfter()
    ensures var k := After([Call(2 * MINUTE, 0, 1)]);
            && AllowStep(k, Call(0, 0, 1)) == (k, Limited(60))
            && !Passes(k.min, 60 * SECOND, MINUTE, 1)
            && k.min.start != 0
  {
    var c := Call(2 * MINUTE, 0, 1);
    AfterNothing();
    hide AllowStep, After, Passes;
    RunSnoc([], c, PerSecond);
    assert [] + [c] == [c];
    LateMinute();
    EarlyCall();
  }

  lemma LateMinute()
    ensures AllowStep(FRESH, Call(2 * MINUTE, 0, 1)) == (Key(Window(0, 0, 0), Window(2 * MINUTE, 0, 1)), Allowed)
  {
  }

  lemma EarlyCall()
    ensures var k := Key(Window(0, 0, 0), Window(2 * MINUTE, 0, 1));
            AllowStep(k, Call(0, 0, 1)) == (k, Limited(60)) && !Passes(k.min, 60 * SECOND, MINUTE, 1)
  {
  }

  // The clamp: a minute filled in its first nanosecond.
  lemma ClampExample()
    ensures var calls := [Call(MINUTE, 0, 1)];
            var c := Call(MINUTE, 0, 1);
            && AllowStep(After(calls), c) == (After(calls), Limited(60))
            && !Passes(After(calls).min, MINUTE + 60 * SECOND, MINUTE, 1)
  {
    hide AllowStep, Passes, After;
    var c := Call(MINUTE, 0, 1);
    ClampSteps();
    RunSnoc([], c, PerSecond);
    AfterNothing();
    assert [] + [c] == [c];
  }

  lemma AfterNothing()
    ensures After([]) == FRESH
  {
  }

  lemma ClampSteps()
    ensures var c := Call(MINUTE, 0, 1);
            var k := Key(Window(0, 0, 0), Window(MINUTE, 0, 1));
            && AllowStep(FRESH, c) == (k, Allowed)
            && AllowStep(k, c) == (k, Limited(60))
            && !Passes(k.min, MINUTE + 60 * SECOND, MINUTE, 1)
  {
    hide AllowStep, Advance, Estimate, Passes, RetryAfter;
    var w := Window(MINUTE, 0, 1);
    FillMinute();
    FullMinuteRejects();
    FullMinuteWait();
    WindowRetry(w, MINUTE, 2 * MINUTE, PerMinute, 1);
  }

  lemma FillMinute()
    ensures AllowStep(FRESH, Call(MINUTE, 0, 1)) == (Key(Window(0, 0, 0), Window(MINUTE, 0, 1)), Allowed)
  {
  }

  lemma FullMinuteRejects()
    ensures var k := Key(Window(0, 0, 0), Window(MINUTE, 0, 1));
            AllowStep(k, Call(MINUTE, 0, 1)) == (k, Limited(60))
  {
  }

  lemma FullMinuteWait()
    ensures RetryAfter(Window(MINUTE, 0, 1), MINUTE, MINUTE) == 60
  {
  }
}
