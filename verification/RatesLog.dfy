/**
 The two counters of a window are exactly what a full log of admissions would
 give, and a rejected call leaves no trace.

 Clock readings are taken before the lock, so they may come out of order. What is
 needed of them is less than order: no admitted call may read behind the start of the
 window stored at that moment.
 */
module RatesLog {
  import opened Rates

  // Admissions in [lo, hi).
  function CountIn(log: seq<int>, lo: int, hi: int): nat {
    if log == [] then 0
    else CountIn(log[..|log| - 1], lo, hi) + if lo <= log[|log| - 1] < hi then 1 else 0
  }

  // The start of the aligned window holding `t`.
  function Base(t: int, size: int): int
    requires size > 0
  {
    t - t % size
  }

  predicate Aligned(t: int, g: Gate) {
    t % g.Size() == 0
  }

  // What a limiter that kept every admission would hold at time `t`.
  function LogWindow(log: seq<int>, t: int, size: int): Window
    requires size > 0
  {
    var s := Base(t, size);
    Window(s, CountIn(log, s - size, s), CountIn(log, s, s + size))
  }

  ghost predicate Upto(log: seq<int>, last: int) {
    forall i :: 0 <= i < |log| ==> log[i] <= last
  }

  // The window holds what the log says, and the log ends before the window does.
  ghost predicate Tracks(w: Window, log: seq<int>, g: Gate) {
    && Aligned(w.start, g)
    && Upto(log, w.start + g.Size() - 1)
    && w.prev == CountIn(log, w.start - g.Size(), w.start)
    && w.curr == CountIn(log, w.start, w.start + g.Size())
  }

  lemma RunSnoc(calls: seq<Call>, c: Call, g: Gate)
    ensures After(calls + [c]) == AllowStep(After(calls), c).0
    ensures Log(calls + [c], g) == Log(calls, g) + if Admits(After(calls), c, g) then [c.now] else []
  {
    assert (calls + [c])[..|calls|] == calls;
  }

  // ---- Arithmetic of aligned windows -------------------------------------------

  // Advancing to t1 and then to any t2 that is not behind the window reached is advancing
  // straight to t2. The two sizes are treated apart so that every division is by a literal.
  lemma AdvanceTwice(w: Window, t1: int, t2: int, g: Gate)
    requires Advance(w, t1, g.Size()).start <= t2
    ensures Advance(Advance(w, t1, g.Size()), t2, g.Size()) == Advance(w, t2, g.Size())
  {
    hide Advance;
    match g {
      case PerSecond => AdvanceTwiceSecond(w, t1, t2);
      case PerMinute => AdvanceTwiceMinute(w, t1, t2);
    }
  }

  lemma AdvanceTwiceSecond(w: Window, t1: int, t2: int)
    requires Advance(w, t1, SECOND).start <= t2
    ensures Advance(Advance(w, t1, SECOND), t2, SECOND) == Advance(w, t2, SECOND)
  {
  }

  lemma AdvanceTwiceMinute(w: Window, t1: int, t2: int)
    requires Advance(w, t1, MINUTE).start <= t2
    ensures Advance(Advance(w, t1, MINUTE), t2, MINUTE) == Advance(w, t2, MINUTE)
  {
  }

  // An advanced window never starts behind the old one, and holds a reading that is not
  // behind the old one.
  lemma AdvanceStart(w: Window, t: int, g: Gate)
    ensures var a := Advance(w, t, g.Size());
            && w.start <= a.start && t < a.start + g.Size()
            && (w.start <= t ==> a.start <= t)
            && (t < w.start + g.Size() ==> a == w)
            && a.curr <= w.curr
  {
    match g {
      case PerSecond => AdvanceStartSecond(w, t);
      case PerMinute => AdvanceStartMinute(w, t);
    }
  }

  lemma AdvanceStartSecond(w: Window, t: int)
    ensures var a := Advance(w, t, SECOND);
            w.start <= a.start && t < a.start + SECOND && (w.start <= t ==> a.start <= t)
  {
  }

  lemma AdvanceStartMinute(w: Window, t: int)
    ensures var a := Advance(w, t, MINUTE);
            w.start <= a.start && t < a.start + MINUTE && (w.start <= t ==> a.start <= t)
  {
  }

  // Where an aligned window stands once time `t` has been seen.
  ghost predicate OnGrid(w: Window, t: int, size: int)
    requires size > 0
  {
    var r := Advance(w, t, size);
    && r.start == Base(t, size)
    && r.start <= t < r.start + size
    && (t < w.start + size ==> r == w)
    && (w.start + size <= t < w.start + 2 * size ==> r == Window(w.start + size, w.curr, 0))
    && (w.start + 2 * size <= t ==> r.start >= w.start + 2 * size && r.prev == r.curr == 0)
  }

  lemma AlignedAdvance(w: Window, t: int, g: Gate)
    requires Aligned(w.start, g) && w.start <= t
    ensures OnGrid(w, t, g.Size())
  {
    match g {
      case PerSecond => AlignedAdvanceSecond(w, t);
      case PerMinute => AlignedAdvanceMinute(w, t);
    }
  }

  lemma AlignedAdvanceSecond(w: Window, t: int)
    requires w.start % SECOND == 0 && w.start <= t
    ensures OnGrid(w, t, SECOND)
  {
  }

  lemma AlignedAdvanceMinute(w: Window, t: int)
    requires w.start % MINUTE == 0 && w.start <= t
    ensures OnGrid(w, t, MINUTE)
  {
  }

  lemma BaseAligned(t: int, g: Gate)
    ensures Aligned(Base(t, g.Size()), g)
    ensures Base(t, g.Size()) <= t < Base(t, g.Size()) + g.Size()
  {
    if g.PerSecond? {
      BaseAlignedSecond(t);
    } else {
      BaseAlignedMinute(t);
    }
  }

  lemma BaseAlignedSecond(t: int)
    ensures Base(t, SECOND) % SECOND == 0
  {
  }

  lemma BaseAlignedMinute(t: int)
    ensures Base(t, MINUTE) % MINUTE == 0
  {
  }

  // ---- Counting ------------------------------------------------------------------

  lemma CountEmpty(log: seq<int>, last: int, lo: int, hi: int)
    requires Upto(log, last) && lo > last
    ensures CountIn(log, lo, hi) == 0
  {
  }

  lemma CountSplit(log: seq<int>, lo: int, mid: int, hi: int)
    requires lo <= mid <= hi
    ensures CountIn(log, lo, hi) == CountIn(log, lo, mid) + CountIn(log, mid, hi)
  {
  }

  lemma CountSnoc(log: seq<int>, x: int, lo: int, hi: int)
    ensures CountIn(log + [x], lo, hi) == CountIn(log, lo, hi) + if lo <= x < hi then 1 else 0
  {
    assert (log + [x])[..|log|] == log;
  }

  // ---- Steps keep the log ----------------------------------------------------------

  lemma TracksAdvance(w: Window, log: seq<int>, t: int, g: Gate)
    requires Tracks(w, log, g)
    ensures Tracks(Advance(w, t, g.Size()), log, g)
  {
    hide Advance, Base, Aligned, CountIn;
    AdvanceStart(w, t, g);
    if w.start + g.Size() <= t {
      var a, last := Advance(w, t, g.Size()), w.start + g.Size() - 1;
      AlignedAdvance(w, t, g);
      BaseAligned(t, g);
      CountEmpty(log, last, a.start, a.start + g.Size());
      if w.start + 2 * g.Size() <= t {
        CountEmpty(log, last, a.start - g.Size(), a.start);
      }
    }
  }

  lemma TracksReading(w: Window, log: seq<int>, t: int, g: Gate)
    requires Tracks(w, log, g) && w.start <= t
    ensures Advance(w, t, g.Size()) == LogWindow(log, t, g.Size())
  {
    hide Advance, Base, Aligned, CountIn;
    TracksAdvance(w, log, t, g);
    AlignedAdvance(w, t, g);
  }

  // An admission keeps the counters true to the log exactly when its reading is not
  // behind the start of the window it is booked in.
  lemma AdmissionExact(w: Window, log: seq<int>, now: int, g: Gate)
    requires Tracks(w, log, g)
    ensures var a := Advance(w, now, g.Size());
            Tracks(Bump(a), log + [now], g) <==> a.start <= now
    ensures Advance(w, now, g.Size()).start <= now <==> w.start <= now
  {
    hide Advance, Aligned, CountIn;
    TracksAdvance(w, log, now, g);
    AdvanceStart(w, now, g);
    var a := Advance(w, now, g.Size());
    CountSnoc(log, now, a.start - g.Size(), a.start);
    CountSnoc(log, now, a.start, a.start + g.Size());
  }

  // No admitted call reads more than `d` behind the start of the window stored at that moment.
  ghost predicate LateBy(calls: seq<Call>, g: Gate, d: int) {
    forall i :: 0 <= i < |calls| && Admits(After(calls[..i]), calls[i], g) ==>
      After(calls[..i]).Win(g).start - d <= calls[i].now
  }

  ghost predicate NotBehind(calls: seq<Call>, g: Gate) {
    LateBy(calls, g, 0)
  }

  lemma LateBySnoc(calls: seq<Call>, c: Call, g: Gate, d: int)
    ensures LateBy(calls + [c], g, d) <==>
            && LateBy(calls, g, d)
            && (Admits(After(calls), c, g) ==> After(calls).Win(g).start - d <= c.now)
  {
    hide AllowStep, After;
    var all := calls + [c];
    assert forall i :: 0 <= i < |calls| ==> all[..i] == calls[..i] && all[i] == calls[i];
    assert all[..|calls|] == calls && all[|calls|] == c;
  }

  lemma {:induction false} RunTracks(calls: seq<Call>, g: Gate)
    requires NotBehind(calls, g)
    ensures Tracks(After(calls).Win(g), Log(calls, g), g)
  {
    hide AllowStep, Advance, Aligned, LateBy;
    if calls == [] {
      NothingTracked(g);
    } else {
      var init, c := calls[..|calls| - 1], calls[|calls| - 1];
      assert calls == init + [c];
      LateBySnoc(init, c, g, 0);
      RunTracks(init, g);
      StepGate(After(init), c, g);
      TracksAdvance(After(init).Win(g), Log(init, g), c.now, g);
      AdmissionExact(After(init).Win(g), Log(init, g), c.now, g);
    }
  }

  lemma NothingTracked(g: Gate)
    ensures Tracks(After([]).Win(g), Log([], g), g)
  {
  }

  // The counters are true to the log throughout a run exactly when no admitted call of it
  // reads behind.
  lemma RefinementExact(calls: seq<Call>, g: Gate)
    ensures NotBehind(calls, g) <==>
            forall n :: 0 <= n <= |calls| ==> Tracks(After(calls[..n]).Win(g), Log(calls[..n], g), g)
  {
    hide AllowStep, Admits, After, Log, Advance, Tracks;
    if NotBehind(calls, g) {
      forall n | 0 <= n <= |calls|
        ensures Tracks(After(calls[..n]).Win(g), Log(calls[..n], g), g)
      {
        assert forall i :: 0 <= i < n ==> calls[..n][..i] == calls[..i];
        RunTracks(calls[..n], g);
      }
    } else {
      var i :| 0 <= i < |calls| && Admits(After(calls[..i]), calls[i], g) &&
        calls[i].now < After(calls[..i]).Win(g).start;
      var init, c := calls[..i], calls[i];
      assert calls[..i + 1] == init + [c];
      if Tracks(After(init).Win(g), Log(init, g), g) {
        RunSnoc(init, c, g);
        AdmitsLimit(After(init), c, g);
        StepGate(After(init), c, g);
        AdmissionExact(After(init).Win(g), Log(init, g), c.now, g);
        assert !Tracks(After(calls[..i + 1]).Win(g), Log(calls[..i + 1], g), g);
      }
    }
  }

  lemma AdmitsLimit(k: Key, c: Call, g: Gate)
    requires Admits(k, c, g)
    ensures c.Limit(g) > 0
  {
  }

  // Counters refine the log: at any time from the stored window start on, the stored pair,
  // once advanced, is the number of admissions in the previous and the current
  // aligned window, and the window starts on a multiple of its size.
  lemma CountersRefineLog(calls: seq<Call>, g: Gate, t: int)
    requires NotBehind(calls, g) && After(calls).Win(g).start <= t
    ensures var w := Advance(After(calls).Win(g), t, g.Size());
            && Aligned(w.start, g)
            && w.start <= t < w.start + g.Size()
            && w.prev == CountIn(Log(calls, g), w.start - g.Size(), w.start)
            && w.curr == CountIn(Log(calls, g), w.start, w.start + g.Size())
  {
    hide Advance, Aligned, After, Log, CountIn;
    RunTracks(calls, g);
    TracksAdvance(After(calls).Win(g), Log(calls, g), t, g);
    AdvanceStart(After(calls).Win(g), t, g);
  }

  // ---- On any clock ----------------------------------------------------------------------

  // The counters never fall short of the log: the current one covers the current window,
  // and the two together cover the two windows.
  ghost predicate Covers(w: Window, log: seq<int>, g: Gate) {
    var last, now := CountIn(log, w.start - g.Size(), w.start), CountIn(log, w.start, w.start + g.Size());
    && Aligned(w.start, g)
    && Upto(log, w.start + g.Size() - 1)
    && now <= w.curr && last + now <= w.prev + w.curr
  }

  lemma CoversAdvance(w: Window, log: seq<int>, t: int, g: Gate)
    requires Covers(w, log, g)
    ensures Covers(Advance(w, t, g.Size()), log, g)
  {
    hide Advance, Base, Aligned, CountIn;
    AdvanceStart(w, t, g);
    if w.start + g.Size() <= t {
      var a, last := Advance(w, t, g.Size()), w.start + g.Size() - 1;
      AlignedAdvance(w, t, g);
      BaseAligned(t, g);
      CountEmpty(log, last, a.start, a.start + g.Size());
      if w.start + 2 * g.Size() <= t {
        CountEmpty(log, last, a.start - g.Size(), a.start);
      }
    }
  }

  lemma CoversAdmit(w: Window, log: seq<int>, now: int, g: Gate)
    requires Covers(w, log, g)
    ensures Covers(Bump(Advance(w, now, g.Size())), log + [now], g)
  {
    hide Advance, Aligned, CountIn;
    CoversAdvance(w, log, now, g);
    AdvanceStart(w, now, g);
    var a := Advance(w, now, g.Size());
    CountSnoc(log, now, a.start - g.Size(), a.start);
    CountSnoc(log, now, a.start, a.start + g.Size());
  }

  lemma {:induction false} CountersCoverLog(calls: seq<Call>, g: Gate)
    ensures Covers(After(calls).Win(g), Log(calls, g), g)
  {
    if calls != [] {
      var init, c := calls[..|calls| - 1], calls[|calls| - 1];
      CountersCoverLog(init, g);
      StepGate(After(init), c, g);
      CoversAdvance(After(init).Win(g), Log(init, g), c.now, g);
      CoversAdmit(After(init).Win(g), Log(init, g), c.now, g);
      hide AllowStep, Advance, Covers;
    }
  }

  // ---- A forward clock is enough ---------------------------------------------------------

  lemma PrefixFacts(calls: seq<Call>, c: Call)
    requires Ordered(calls + [c])
    ensures Ordered(calls) && c.now >= Last(calls) && c.now >= 0
  {
    var all := calls + [c];
    assert all[|calls|] == c;
    assert forall i :: 0 <= i < |calls| ==> all[i] == calls[i];
  }

  lemma {:induction false} StartNotAfter(calls: seq<Call>, g: Gate)
    requires Ordered(calls)
    ensures After(calls).Win(g).start <= Last(calls)
  {
    if calls != [] {
      var init, c := calls[..|calls| - 1], calls[|calls| - 1];
      StartNotAfter(init, g);
      StepGate(After(init), c, g);
      AdvanceStart(After(init).Win(g), c.now, g);
      hide Estimate, Advance, AllowStep;
    }
  }

  lemma {:induction false} OrderedIsNotBehind(calls: seq<Call>, g: Gate)
    requires Ordered(calls)
    ensures NotBehind(calls, g)
  {
    hide AllowStep, After, LateBy;
    if calls == [] {
      NothingBehind(g);
    } else {
      var init, c := calls[..|calls| - 1], calls[|calls| - 1];
      assert calls == init + [c];
      PrefixFacts(init, c);
      OrderedIsNotBehind(init, g);
      StartNotAfter(init, g);
      LateBySnoc(init, c, g, 0);
    }
  }

  lemma NothingBehind(g: Gate)
    ensures LateBy([], g, 0)
  {
  }

  // ---- The stateless reference decision ------------------------------------------------

  // The part of a previous count of `a` still in view at elapsed `x`.
  function Visible(a: nat, x: int, g: Gate): int {
    a * (g.Size() - x) / g.Size()
  }

  predicate RoomInLog(log: seq<int>, now: int, g: Gate, limit: int) {
    var s := Base(now, g.Size());
    Visible(CountIn(log, s - g.Size(), s), now - s, g) + CountIn(log, s, s + g.Size()) + 1 <= limit
  }

  lemma PassesByVisible(w: Window, t: int, g: Gate, limit: int)
    ensures var a := Advance(w, t, g.Size());
            Passes(w, t, g.Size(), limit) <==> Visible(a.prev, t - a.start, g) + a.curr + 1 <= limit
  {
  }

  lemma GateRefinesLog(calls: seq<Call>, c: Call, g: Gate)
    requires NotBehind(calls, g) && After(calls).Win(g).start <= c.now
    ensures Passes(After(calls).Win(g), c.now, g.Size(), c.Limit(g)) <==>
            RoomInLog(Log(calls, g), c.now, g, c.Limit(g))
  {
    hide Advance, Estimate, Passes, Visible, Base, After, Log, CountIn, NotBehind, Aligned;
    PassesByVisible(After(calls).Win(g), c.now, g, c.Limit(g));
    RunTracks(calls, g);
    TracksReading(After(calls).Win(g), Log(calls, g), c.now, g);
  }

  lemma AllowedIffGatesPass(k: Key, c: Call)
    ensures AllowStep(k, c).1.Allowed? <==>
            && (c.rps > 0 ==> Passes(k.sec, c.now, SECOND, c.rps))
            && (c.rpm > 0 ==> Passes(k.min, c.now, MINUTE, c.rpm))
  {
  }

  // The limiter decides as one that looks at every past admission would. Gates may be
  // switched on and off by any call.
  lemma DecisionRefinesLog(calls: seq<Call>, c: Call)
    requires OnTime(After(calls), c)
    requires forall g: Gate :: c.Limit(g) > 0 ==> NotBehind(calls, g)
    ensures AllowStep(After(calls), c).1.Allowed? <==>
            && (c.rps > 0 ==> RoomInLog(Log(calls, PerSecond), c.now, PerSecond, c.rps))
            && (c.rpm > 0 ==> RoomInLog(Log(calls, PerMinute), c.now, PerMinute, c.rpm))
  {
    AllowedIffGatesPass(After(calls), c);
    if c.Limit(PerSecond) > 0 {
      GateRefinesLog(calls, c, PerSecond);
    }
    if c.Limit(PerMinute) > 0 {
      GateRefinesLog(calls, c, PerMinute);
    }
  }

  // ---- Rejected calls are invisible ---------------------------------------------------

  // The call does not read behind the stored start of a gate it uses.
  ghost predicate OnTime(k: Key, c: Call) {
    forall g: Gate :: c.Limit(g) > 0 ==> k.Win(g).start <= c.now
  }

  ghost predicate AllOnTime(k: Key, calls: seq<Call>)
    decreases calls
  {
    calls == [] || (OnTime(k, calls[0]) && AllOnTime(AllowStep(k, calls[0]).0, calls[1..]))
  }

  // No reading that is on time for `k1` tells the two states apart.
  ghost predicate Same(k1: Key, k2: Key) {
    forall g: Gate, t :: t >= k1.Win(g).start ==>
      Advance(k1.Win(g), t, g.Size()) == Advance(k2.Win(g), t, g.Size())
  }

  lemma SameWindow(k1: Key, k2: Key, g: Gate, t: int)
    requires Same(k1, k2) && t >= k1.Win(g).start
    ensures Advance(k1.Win(g), t, g.Size()) == Advance(k2.Win(g), t, g.Size())
  {
  }

  lemma SameStep(k1: Key, k2: Key, c: Call)
    requires Same(k1, k2) && OnTime(k1, c)
    ensures AllowStep(k1, c).1 == AllowStep(k2, c).1
    ensures Same(AllowStep(k1, c).0, AllowStep(k2, c).0)
  {
    if c.Limit(PerSecond) > 0 {
      SameWindow(k1, k2, PerSecond, c.now);
    }
    if c.Limit(PerMinute) > 0 {
      SameWindow(k1, k2, PerMinute, c.now);
    }
    var r1, r2 := AllowStep(k1, c).0, AllowStep(k2, c).0;
    assert forall g: Gate :: r1.Win(g) == r2.Win(g) || (r1.Win(g) == k1.Win(g) && r2.Win(g) == k2.Win(g)) by {
      hide Advance, Estimate, RetryAfter;
    }
    hide Advance, AllowStep;
    forall g: Gate, t | t >= r1.Win(g).start
      ensures Advance(r1.Win(g), t, g.Size()) == Advance(r2.Win(g), t, g.Size())
    {
      if r1.Win(g) != r2.Win(g) {
        SameWindow(k1, k2, g, t);
      }
    }
  }

  lemma RejectedIsSame(k: Key, c: Call)
    requires AllowStep(k, c).1.Limited?
    ensures Same(AllowStep(k, c).0, k)
  {
    var r := AllowStep(k, c).0;
    forall g: Gate, t | t >= r.Win(g).start
      ensures Advance(r.Win(g), t, g.Size()) == Advance(k.Win(g), t, g.Size())
    {
      StepGate(k, c, g);
      hide Advance, AllowStep;
      if r.Win(g) != k.Win(g) {
        AdvanceTwice(k.Win(g), c.now, t, g);
      }
    }
  }

  function RunFrom(k: Key, calls: seq<Call>): (Key, seq<Decision>)
    decreases calls
  {
    if calls == [] then (k, [])
    else
      var r := AllowStep(k, calls[0]);
      var rest := RunFrom(r.0, calls[1..]);
      (rest.0, [r.1] + rest.1)
  }

  lemma {:induction false} SameRun(k1: Key, k2: Key, calls: seq<Call>)
    requires Same(k1, k2) && AllOnTime(k1, calls)
    ensures RunFrom(k1, calls).1 == RunFrom(k2, calls).1
    ensures Same(RunFrom(k1, calls).0, RunFrom(k2, calls).0)
    decreases calls
  {
    hide AllowStep, Same, OnTime;
    if calls != [] {
      SameStep(k1, k2, calls[0]);
      SameRun(AllowStep(k1, calls[0]).0, AllowStep(k2, calls[0]).0, calls[1..]);
    }
  }

  // Deleting a rejected call changes no later decision, whichever gate rejected it, whenever
  // it read its clock and whatever the limits of the later calls, if those are on time.
  lemma RejectedIsInvisible(k: Key, c: Call, later: seq<Call>)
    requires AllowStep(k, c).1.Limited? && AllOnTime(AllowStep(k, c).0, later)
    ensures RunFrom(AllowStep(k, c).0, later).1 == RunFrom(k, later).1
  {
    RejectedIsSame(k, c);
    SameRun(AllowStep(k, c).0, k, later);
  }

  // A forward clock is always on time.
  lemma {:induction false} OrderedIsOnTime(calls: seq<Call>, later: seq<Call>)
    requires Ordered(calls + later)
    ensures AllOnTime(After(calls), later)
    decreases later
  {
    if later != [] {
      var c := later[0];
      assert calls + later == (calls + [c]) + later[1..];
      assert forall i :: 0 <= i < |calls| + 1 ==> (calls + later)[i] == (calls + [c])[i];
      PrefixFacts(calls, c);
      StartNotAfter(calls, PerSecond);
      StartNotAfter(calls, PerMinute);
      RunSnoc(calls, c, PerSecond);
      hide After, AllowStep;
      OrderedIsOnTime(calls + [c], later[1..]);
    }
  }

  lemma RejectedIsInvisibleInOrder(calls: seq<Call>, c: Call, later: seq<Call>)
    requires Ordered(calls + [c] + later) && AllowStep(After(calls), c).1.Limited?
    ensures RunFrom(After(calls + [c]), later).1 == RunFrom(After(calls), later).1
  {
    RunSnoc(calls, c, PerSecond);
    OrderedIsOnTime(calls + [c], later);
    RejectedIsInvisible(After(calls), c, later);
  }

  // ---- What a reading from behind breaks ----------------------------------------------------

  function Sec(start: int, prev: nat, curr: nat): Key {
    Key(Window(start, prev, curr), Window(0, 0, 0))
  }

  // A rejected call that a later one, reading behind it, can see.
  lemma BackwardClockBreaksInvisibility()
    ensures var k := After([Call(0, 1, 0)]);
            var c, later := Call(SECOND, 1, 0), Call(0, 2, 0);
            && AllowStep(k, c).1.Limited?
            && AllowStep(AllowStep(k, c).0, later).1.Limited? && AllowStep(k, later).1.Allowed?
  {
    var first, c, later := Call(0, 1, 0), Call(SECOND, 1, 0), Call(0, 2, 0);
    assert After([]) == FRESH;
    hide After, AllowStep;
    RunSnoc([], first, PerSecond);
    assert [] + [first] == [first];
    FirstAdmitted();
    BoundaryRejected();
    SecAdmits(0, 1, 0);
    OldWindowGrows();
  }

  lemma SecAdmits(start: int, curr: nat, now: int)
    requires now < start + SECOND && curr < 2
    ensures AllowStep(Sec(start, 0, curr), Call(now, 2, 0)) == (Sec(start, 0, curr + 1), Allowed)
  {
  }

  lemma FirstAdmitted()
    ensures AllowStep(FRESH, Call(0, 1, 0)) == (Sec(0, 0, 1), Allowed)
  {
  }

  lemma BoundaryRejected()
    ensures AllowStep(Sec(0, 0, 1), Call(SECOND, 1, 0)) == (Sec(SECOND, 1, 0), Limited(2))
  {
  }

  lemma OldWindowGrows()
    ensures AllowStep(Sec(SECOND, 1, 0), Call(0, 2, 0)).1.Limited?
  {
  }
}
