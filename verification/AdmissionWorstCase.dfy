/**
 The budget bound cannot be improved: for every cap, every number of slots and every
 number of requests caught between check and slot, some run comes as close to the bound
 as one likes. The documented bound, slots times cost, holds exactly when nobody is
 caught there.
 */
module AdmissionWorstCase {
  import opened Admission
  import opened AdmissionSlots
  import opened AdmissionBudget
  import opened Meter

  // A run that first bills `warm` requests at `price`, which leaves the bucket less than
  // one full request below its cap, and then bills requests at full cost.
  datatype Scenario = Scenario(t: Terms, warm: nat, price: real) {
    predicate Valid() {
      && t.Valid() && 0.0 < price <= t.cost
      && Spent(warm) < t.cap <= Spent(warm) + t.cost
    }

    // A day of the bucket.
    function Day(): Day {
      if t.bucket.DayOf? then t.bucket.day else 31 * t.bucket.month
    }

    function DailyCap(): real {
      if t.bucket.DayOf? then t.cap else 0.0
    }

    function MonthCap(): real {
      if t.bucket.DayOf? then 0.0 else t.cap
    }

    function Price(i: nat): real {
      if i < warm then price else t.cost
    }

    // The price of the first `n` requests.
    function Spent(n: nat): real {
      if n == 0 then 0.0 else Spent(n - 1) + Price(n - 1)
    }
  }

  function PhaseOf(i: nat, acquired: nat, billed: nat): Phase {
    if i < billed then Done else if i < acquired then Running(Upstream) else Passed
  }

  // `n` requests have passed the check; the first `acquired` took a slot and the first
  // `billed` of those have been billed and are over.
  function Shape(z: Scenario, n: nat, acquired: nat, billed: nat): State
    requires z.Valid()
  {
    State(z.Day(),
          map i: nat | 0 <= i < n ::
            Request(z.t.keyID, z.t.slots, z.DailyCap(), z.MonthCap(), z.Day(), PhaseOf(i, acquired, billed)),
          if acquired > 0 then map[z.t.keyID := 0] else map[],
          if acquired > 0 then map[0 := acquired - billed] else map[],
          if acquired > 0 then 1 else 0,
          Bills(z, billed))
  }

  function Bills(z: Scenario, n: nat): seq<Entry>
    requires z.Valid()
  {
    seq(n, i requires i >= 0 => Entry(z.t.keyID, z.Day(), z.Price(i)))
  }

  function CheckIn(z: Scenario, r: nat): seq<Event> {
    [Arrive(r, z.t.keyID, z.t.slots, z.DailyCap(), z.MonthCap()), ReadCheckClock(r), Event.Check(r)]
  }

  function Acquire(r: nat): seq<Event> {
    [Allow(r, true), Load(r), LoadOrStore(r), Add(r)]
  }

  function Bill(z: Scenario, r: nat): seq<Event> {
    [ReadRecordClock(r, z.Price(r)), Event.Record(r), Finish(r), Release(r)]
  }

  // ---- Amounts ---------------------------------------------------------------------------

  lemma {:induction false} BillsTotal(z: Scenario, n: nat)
    requires z.Valid()
    ensures Total(Bills(z, n), z.t.keyID, z.t.bucket) == z.Spent(n)
  {
    if n > 0 {
      BillsTotal(z, n - 1);
      var e := Entry(z.t.keyID, z.Day(), z.Price(n - 1));
      assert Bills(z, n) == Bills(z, n - 1) + [e];
      hide Total, Bills;
      TotalSnoc(Bills(z, n - 1), e, z.t.keyID, z.t.bucket);
    }
  }

  lemma {:induction false} SpentGrows(z: Scenario, m: nat, n: nat)
    requires z.Valid() && m <= n
    ensures z.Spent(m) <= z.Spent(n)
    decreases n
  {
    if m < n {
      SpentGrows(z, m, n - 1);
    }
  }

  lemma {:induction false} SpentAfterWarmUp(z: Scenario, n: nat)
    requires z.Valid()
    ensures z.Spent(z.warm + n) == z.Spent(z.warm) + Allowance(z.t, n)
  {
    if n == 0 {
      assert Allowance(z.t, 0) == 0.0;
    } else {
      SpentAfterWarmUp(z, n - 1);
      AllowanceGrows(z.t, n - 1, n - 1);
    }
  }

  // ---- One request at a time -----------------------------------------------------------

  lemma CheckInStep(z: Scenario, n: nat, b: nat)
    requires z.Valid() && b <= n && b <= z.warm
    ensures Exec(Shape(z, n, b, b), CheckIn(z, n)) == Shape(z, n + 1, b, b)
  {
    var s0 := Shape(z, n, b, b);
    var q := Request(z.t.keyID, z.t.slots, z.DailyCap(), z.MonthCap(), z.Day(), Started);
    SpentGrows(z, b, z.warm);
    BillsTotal(z, b);
    hide Total, Bills;
    var s1 := Step(s0, Arrive(n, z.t.keyID, z.t.slots, z.DailyCap(), z.MonthCap()));
    assert s1 == s0.(reqs := s0.reqs[n := q]);
    var s2 := Step(s1, ReadCheckClock(n));
    assert s2 == s0.(reqs := s0.reqs[n := q.(phase := Clocked)]);
    var s3 := Step(s2, Event.Check(n));
    assert s3 == s0.(reqs := s0.reqs[n := q.(phase := Passed)]);
    assert s3.reqs == Shape(z, n + 1, b, b).reqs;
    Exec3(s0, Arrive(n, z.t.keyID, z.t.slots, z.DailyCap(), z.MonthCap()), ReadCheckClock(n), Event.Check(n));
  }

  // The state once request `a` holds its counter.
  function Found(z: Scenario, n: nat, a: nat, b: nat): State
    requires z.Valid() && a < n
  {
    To(Shape(z, n, a, b).(counters := map[z.t.keyID := 0], counts := map[0 := a - b], unused := 1), a, Located(0))
  }

  lemma AcquireStep(z: Scenario, n: nat, a: nat, b: nat)
    requires z.Valid() && b <= a < n && a - b < z.t.slots
    ensures Exec(Shape(z, n, a, b), Acquire(a)) == Shape(z, n, a + 1, b)
  {
    hide Step, Shape, Found, Scenario.Valid;
    var s0 := Shape(z, n, a, b);
    AcquireLocates(z, n, a, b);
    AcquireAdds(z, n, a, b);
    Exec4(s0, Allow(a, true), Load(a), LoadOrStore(a), Add(a));
  }

  lemma AcquireAdds(z: Scenario, n: nat, a: nat, b: nat)
    requires z.Valid() && b <= a < n && a - b < z.t.slots
    ensures Step(Found(z, n, a, b), Add(a)) == Shape(z, n, a + 1, b)
  {
    hide Bills;
    var s4, s' := Step(Found(z, n, a, b), Add(a)), Shape(z, n, a + 1, b);
    assert s4.counts == s'.counts;
    assert s4.reqs == s'.reqs;
  }

  // Finding the counter, or making it the first time.
  lemma AcquireLocates(z: Scenario, n: nat, a: nat, b: nat)
    requires z.Valid() && b <= a < n
    ensures Step(Step(Step(Shape(z, n, a, b), Allow(a, true)), Load(a)), LoadOrStore(a)) == Found(z, n, a, b)
  {
    hide Bills;
    var s0 := Shape(z, n, a, b);
    var s1 := Step(s0, Allow(a, true));
    assert s1 == To(s0, a, Admitted);
    var s2 := Step(s1, Load(a));
    if a == 0 {
      assert s2 == To(s0, a, Missed);
    } else {
      assert s2 == To(s0, a, Located(0));
    }
  }

  // The state once request `b` has been billed but still runs.
  function AfterBill(z: Scenario, n: nat, a: nat, b: nat): State
    requires z.Valid() && b < a <= n
  {
    To(Shape(z, n, a, b), b, Running(Billed)).(ledger := Bills(z, b + 1))
  }

  lemma BillsNext(z: Scenario, b: nat)
    requires z.Valid()
    ensures Bills(z, b) + Booked(z.t.keyID, z.Day(), z.Price(b)) == Bills(z, b + 1)
  {
  }

  lemma BillRecords(z: Scenario, n: nat, a: nat, b: nat)
    requires z.Valid() && b < a <= n
    ensures Step(Step(Shape(z, n, a, b), ReadRecordClock(b, z.Price(b))), Event.Record(b)) == AfterBill(z, n, a, b)
  {
    hide Bills, Booked, Scenario.Price;
    var s0 := Shape(z, n, a, b);
    var s1 := Step(s0, ReadRecordClock(b, z.Price(b)));
    assert s1 == To(s0, b, Running(Timed(z.Day(), z.Price(b))));
    BillsNext(z, b);
    var s2 := Step(s1, Event.Record(b));
    assert s2.reqs == AfterBill(z, n, a, b).reqs;
  }

  lemma BillReleases(z: Scenario, n: nat, a: nat, b: nat)
    requires z.Valid() && b < a <= n
    ensures Step(Step(AfterBill(z, n, a, b), Finish(b)), Release(b)) == Shape(z, n, a, b + 1)
  {
    hide Bills;
    var s2, s' := AfterBill(z, n, a, b), Shape(z, n, a, b + 1);
    var s3 := Step(s2, Finish(b));
    assert s3 == To(s2, b, Releasing(0));
    var s4 := Step(s3, Release(b));
    assert s4.counts == s'.counts;
    assert s4.reqs == s'.reqs;
  }

  lemma BillStep(z: Scenario, n: nat, a: nat, b: nat)
    requires z.Valid() && b < a <= n
    ensures Exec(Shape(z, n, a, b), Bill(z, b)) == Shape(z, n, a, b + 1)
    ensures Exec(Shape(z, n, a, b), Bill(z, b)[..2]) == AfterBill(z, n, a, b)
  {
    hide Step, Shape, AfterBill, Scenario.Valid, Scenario.Price;
    var s0 := Shape(z, n, a, b);
    BillRecords(z, n, a, b);
    BillReleases(z, n, a, b);
    Exec4(s0, ReadRecordClock(b, z.Price(b)), Event.Record(b), Finish(b), Release(b));
    assert Bill(z, b)[..2] == [ReadRecordClock(b, z.Price(b))] + [Event.Record(b)];
    Exec1(s0, ReadRecordClock(b, z.Price(b)), [Event.Record(b)]);
    Exec1(Step(s0, ReadRecordClock(b, z.Price(b))), Event.Record(b), []);
    assert [Event.Record(b)] + [] == [Event.Record(b)];
  }

  // ---- The whole run -----------------------------------------------------------------------

  // The first `n` requests, each served before the next arrives.
  function WarmUp(z: Scenario, n: nat): seq<Event>
  {
    if n == 0 then [Tick(z.Day())]
    else WarmUp(z, n - 1) + Serve(z, n - 1)
  }

  function Serve(z: Scenario, r: nat): seq<Event> {
    CheckIn(z, r) + (Acquire(r) + Bill(z, r))
  }

  function CheckAll(z: Scenario, n: nat): seq<Event> {
    if n == 0 then [] else CheckAll(z, n - 1) + CheckIn(z, z.warm + n - 1)
  }

  function AcquireAll(z: Scenario, n: nat): seq<Event> {
    if n == 0 then [] else AcquireAll(z, n - 1) + Acquire(z.warm + n - 1)
  }

  // Bills requests from..to, giving a slot first to those that have none.
  function Drain(z: Scenario, from: nat, to: nat): seq<Event>
    decreases if from < to then to - from else 0
  {
    if from >= to then []
    else (if from < z.warm + z.t.slots then [] else Acquire(from)) + (Bill(z, from) + Drain(z, from + 1, to))
  }

  lemma {:induction false} WarmUpRuns(z: Scenario, n: nat)
    requires z.Valid() && n <= z.warm
    ensures Exec(INIT, WarmUp(z, n)) == Shape(z, n, n, n)
  {
    hide Step, Shape, Serve;
    if n == 0 {
      ClockSet(z);
    } else {
      WarmUpRuns(z, n - 1);
      ExecSplit(INIT, WarmUp(z, n - 1), Serve(z, n - 1));
      ServeRuns(z, n - 1);
    }
  }

  lemma ClockSet(z: Scenario)
    requires z.Valid()
    ensures Exec(INIT, [Tick(z.Day())]) == Shape(z, 0, 0, 0)
  {
    Exec1(INIT, Tick(z.Day()), []);
    assert [Tick(z.Day())] + [] == [Tick(z.Day())];
    assert Shape(z, 0, 0, 0).reqs == map[];
  }

  lemma ServeRuns(z: Scenario, m: nat)
    requires z.Valid() && m < z.warm
    ensures Exec(Shape(z, m, m, m), Serve(z, m)) == Shape(z, m + 1, m + 1, m + 1)
  {
    assert z.t.slots > 0;
    hide Step, Shape, Exec, CheckIn, Acquire, Bill, Scenario.Valid;
    ExecSplit(Shape(z, m, m, m), CheckIn(z, m), Acquire(m) + Bill(z, m));
    CheckInStep(z, m, m);
    ExecSplit(Shape(z, m + 1, m, m), Acquire(m), Bill(z, m));
    AcquireStep(z, m + 1, m, m);
    BillStep(z, m + 1, m + 1, m);
  }

  lemma {:induction false} CheckAllRuns(z: Scenario, n: nat)
    requires z.Valid()
    ensures Exec(Shape(z, z.warm, z.warm, z.warm), CheckAll(z, n)) == Shape(z, z.warm + n, z.warm, z.warm)
  {
    hide Step, Shape;
    if n > 0 {
      CheckAllRuns(z, n - 1);
      ExecSplit(Shape(z, z.warm, z.warm, z.warm), CheckAll(z, n - 1), CheckIn(z, z.warm + n - 1));
      CheckInStep(z, z.warm + n - 1, z.warm);
    }
  }

  lemma {:induction false} AcquireAllRuns(z: Scenario, n: nat, a: nat)
    requires z.Valid() && a <= n && a <= z.t.slots
    ensures Exec(Shape(z, z.warm + n, z.warm, z.warm), AcquireAll(z, a)) == Shape(z, z.warm + n, z.warm + a, z.warm)
  {
    hide Step, Shape;
    if a > 0 {
      AcquireAllRuns(z, n, a - 1);
      ExecSplit(Shape(z, z.warm + n, z.warm, z.warm), AcquireAll(z, a - 1), Acquire(z.warm + a - 1));
      AcquireStep(z, z.warm + n, z.warm + a - 1, z.warm);
    }
  }

  function Most(a: int, b: int): int {
    if a < b then b else a
  }

  lemma {:induction false} DrainRuns(z: Scenario, from: nat, to: nat)
    requires z.Valid() && z.warm <= from <= to && z.warm + z.t.slots <= to
    ensures Exec(Shape(z, to, Most(z.warm + z.t.slots, from), from), Drain(z, from, to)) == Shape(z, to, to, to)
    decreases if from < to then to - from else 0
  {
    hide Step, Shape, Bill, Acquire;
    if from < to {
      var s := Shape(z, to, Most(z.warm + z.t.slots, from), from);
      var rest := Bill(z, from) + Drain(z, from + 1, to);
      DrainRuns(z, from + 1, to);
      if from < z.warm + z.t.slots {
        assert [] + rest == rest;
      } else {
        ExecSplit(s, Acquire(from), rest);
        AcquireStep(z, to, from, from);
      }
      var s' := Shape(z, to, Most(z.warm + z.t.slots, from + 1), from);
      ExecSplit(s', Bill(z, from), Drain(z, from + 1, to));
      BillStep(z, to, Most(z.warm + z.t.slots, from + 1), from);
    }
  }

  // ---- The run keeps to its terms ------------------------------------------------------------

  // Within the terms in any state, and not a broken check.
  predicate PlainEvent(t: Terms, e: Event) {
    && (e.Arrive? && e.keyID == t.keyID ==> e.limit == t.slots && t.CapOf(e.dailyCap, e.monthCap) == t.cap)
    && (e.ReadRecordClock? ==> e.cost <= t.cost)
    && !e.CheckFails?
  }

  ghost predicate Plain(t: Terms, es: seq<Event>) {
    forall i :: 0 <= i < |es| ==> PlainEvent(t, es[i])
  }

  lemma FitConcat(t: Terms, a: seq<Event>, b: seq<Event>)
    requires Plain(t, a) && Plain(t, b)
    ensures Plain(t, a + b)
  {
  }

  lemma PiecesFit(z: Scenario, r: nat)
    requires z.Valid()
    ensures Plain(z.t, CheckIn(z, r)) && Plain(z.t, Acquire(r)) && Plain(z.t, Bill(z, r))
  {
  }

  lemma {:induction false} WarmUpFits(z: Scenario, n: nat)
    requires z.Valid()
    ensures Plain(z.t, WarmUp(z, n))
  {
    if n > 0 {
      WarmUpFits(z, n - 1);
      PiecesFit(z, n - 1);
      hide Plain, Acquire, Bill, CheckIn;
      FitConcat(z.t, Acquire(n - 1), Bill(z, n - 1));
      FitConcat(z.t, CheckIn(z, n - 1), Acquire(n - 1) + Bill(z, n - 1));
      FitConcat(z.t, WarmUp(z, n - 1), Serve(z, n - 1));
    }
  }

  lemma {:induction false} CheckAllFits(z: Scenario, n: nat)
    requires z.Valid()
    ensures Plain(z.t, CheckAll(z, n))
  {
    if n > 0 {
      CheckAllFits(z, n - 1);
      PiecesFit(z, z.warm + n - 1);
      FitConcat(z.t, CheckAll(z, n - 1), CheckIn(z, z.warm + n - 1));
    }
  }

  lemma {:induction false} AcquireAllFits(z: Scenario, n: nat)
    requires z.Valid()
    ensures Plain(z.t, AcquireAll(z, n))
  {
    if n > 0 {
      AcquireAllFits(z, n - 1);
      PiecesFit(z, z.warm + n - 1);
      FitConcat(z.t, AcquireAll(z, n - 1), Acquire(z.warm + n - 1));
    }
  }

  lemma {:induction false} DrainFits(z: Scenario, from: nat, to: nat)
    requires z.Valid()
    ensures Plain(z.t, Drain(z, from, to))
    decreases if from < to then to - from else 0
  {
    if from < to {
      DrainFits(z, from + 1, to);
      PiecesFit(z, from);
      FitConcat(z.t, Bill(z, from), Drain(z, from + 1, to));
      FitConcat(z.t, if from < z.warm + z.t.slots then [] else Acquire(from), Bill(z, from) + Drain(z, from + 1, to));
    }
  }

  // ---- What the run reaches --------------------------------------------------------------------

  // The warm-up, then everyone passes the check and the slots fill.
  function Prelude(z: Scenario, gap: nat): seq<Event>
    requires z.Valid()
  {
    WarmUp(z, z.warm) + (CheckAll(z, z.t.slots + gap) + AcquireAll(z, z.t.slots))
  }

  // After the prelude all are billed in turn.
  function WorstRun(z: Scenario, gap: nat): seq<Event>
    requires z.Valid()
  {
    Prelude(z, gap) + Drain(z, z.warm, z.warm + z.t.slots + gap)
  }

  // The event of the first bill at full cost.
  function FirstBill(z: Scenario, gap: nat): nat
    requires z.Valid()
  {
    |Prelude(z, gap)| + 1
  }

  lemma PreludeRuns(z: Scenario, gap: nat)
    requires z.Valid()
    ensures Exec(INIT, Prelude(z, gap)) == Shape(z, z.warm + z.t.slots + gap, z.warm + z.t.slots, z.warm)
    ensures Plain(z.t, Prelude(z, gap))
  {
    hide Step, Shape, Plain;
    var n := z.t.slots + gap;
    var a, b, c := WarmUp(z, z.warm), CheckAll(z, n), AcquireAll(z, z.t.slots);
    WarmUpRuns(z, z.warm);
    CheckAllRuns(z, n);
    AcquireAllRuns(z, n, z.t.slots);
    ExecSplit(INIT, a, b + c);
    ExecSplit(Shape(z, z.warm, z.warm, z.warm), b, c);
    WarmUpFits(z, z.warm);
    CheckAllFits(z, n);
    AcquireAllFits(z, z.t.slots);
    FitConcat(z.t, b, c);
    FitConcat(z.t, a, b + c);
  }

  lemma DrainStart(z: Scenario, gap: nat)
    requires z.Valid()
    ensures var d := Drain(z, z.warm, z.warm + z.t.slots + gap);
            |d| >= 2 && d[..1] == Bill(z, z.warm)[..1] && d[..2] == Bill(z, z.warm)[..2]
  {
    var d := Drain(z, z.warm, z.warm + z.t.slots + gap);
    var rest := Drain(z, z.warm + 1, z.warm + z.t.slots + gap);
    assert d == [] + (Bill(z, z.warm) + rest);
    assert d == Bill(z, z.warm) + rest;
  }

  // States just before and just after the first full bill.
  lemma CrossingState(z: Scenario, gap: nat)
    requires z.Valid()
    ensures FirstBill(z, gap) < |WorstRun(z, gap)|
    ensures Exec(INIT, WorstRun(z, gap)[..FirstBill(z, gap)]).ledger == Bills(z, z.warm)
    ensures Exec(INIT, WorstRun(z, gap)[..FirstBill(z, gap) + 1]) ==
            AfterBill(z, z.warm + z.t.slots + gap, z.warm + z.t.slots, z.warm)
  {
    hide Step, AfterBill, Drain, Prelude, Bills;
    var n, k := z.warm + z.t.slots + gap, z.warm + z.t.slots;
    var pre, d := Prelude(z, gap), Drain(z, z.warm, n);
    PreludeRuns(z, gap);
    DrainStart(z, gap);
    assert (pre + d)[..|pre| + 1] == pre + d[..1];
    assert (pre + d)[..|pre| + 2] == pre + d[..2];
    ExecSplit(INIT, pre, d[..1]);
    ExecSplit(INIT, pre, d[..2]);
    BillStep(z, n, k, z.warm);
    FirstReading(z, Shape(z, n, k, z.warm));
  }

  lemma FirstReading(z: Scenario, s: State)
    ensures Exec(s, Bill(z, z.warm)[..1]).ledger == s.ledger
  {
    var e := ReadRecordClock(z.warm, z.Price(z.warm));
    assert Bill(z, z.warm)[..1] == [e];
    Exec1(s, e, []);
    assert [e] + [] == [e];
  }

  function Range(lo: nat, n: nat): set<nat> {
    if n == 0 then {} else Range(lo, n - 1) + {lo + n - 1}
  }

  lemma {:induction false} RangeFacts(lo: nat, n: nat)
    ensures |Range(lo, n)| == n && forall i: nat :: i in Range(lo, n) <==> lo <= i < lo + n
  {
    if n > 0 {
      RangeFacts(lo, n - 1);
    }
  }

  lemma GapSize(z: Scenario, gap: nat)
    requires z.Valid()
    ensures |Gap(z.t, AfterBill(z, z.warm + z.t.slots + gap, z.warm + z.t.slots, z.warm))| == gap
  {
    hide Bills;
    RangeFacts(z.warm + z.t.slots, gap);
    assert Gap(z.t, AfterBill(z, z.warm + z.t.slots + gap, z.warm + z.t.slots, z.warm)) ==
           Range(z.warm + z.t.slots, gap);
  }

  lemma FinalSpend(z: Scenario, gap: nat)
    requires z.Valid()
    ensures Plain(z.t, WorstRun(z, gap))
    ensures Spend(z.t, Exec(INIT, WorstRun(z, gap))) == z.Spent(z.warm + z.t.slots + gap)
  {
    hide Step, Total, Prelude, Drain, Plain, Bills, Scenario.Spent;
    var n := z.warm + z.t.slots + gap;
    PreludeRuns(z, gap);
    DrainRuns(z, z.warm, n);
    ExecSplit(INIT, Prelude(z, gap), Drain(z, z.warm, n));
    BillsTotal(z, n);
    DrainFits(z, z.warm, n);
    FitConcat(z.t, Prelude(z, gap), Drain(z, z.warm, n));
  }

  // Event `i` of the run takes the bucket to its cap.
  ghost predicate Crosses(t: Terms, es: seq<Event>, i: nat) {
    && EventsFit(t, INIT, es) && i < |es|
    && Spend(t, Exec(INIT, es[..i])) < t.cap <= Spend(t, Exec(INIT, es[..i + 1]))
  }

  // Requests between check and slot when event `i` is done, and those that a broken check
  // lets in afterwards.
  ghost function Caught(t: Terms, es: seq<Event>, i: nat): nat
    requires i < |es|
  {
    var s := Exec(INIT, es[..i + 1]);
    |Gap(t, s)| + Failures(t, s, es[i + 1..])
  }

  lemma {:induction false} PlainNeverFails(t: Terms, s: State, es: seq<Event>)
    requires Plain(t, es)
    ensures Failures(t, s, es) == 0 && EventsFit(t, s, es)
    decreases es
  {
    hide Step;
    if es != [] {
      PlainNeverFails(t, Step(s, es[0]), es[1..]);
    }
  }

  lemma PlainParts(t: Terms, es: seq<Event>, i: nat)
    requires Plain(t, es) && i < |es|
    ensures Plain(t, es[i + 1..])
  {
  }

  // A run that reaches the cap with exactly `gap` requests between check and slot, and
  // ends at the full price of every slot and every such request.
  lemma WorstRunReaches(z: Scenario, gap: nat)
    requires z.Valid()
    ensures var es, i := WorstRun(z, gap), FirstBill(z, gap);
            && Crosses(z.t, es, i) && Caught(z.t, es, i) == gap
            && Spend(z.t, Exec(INIT, es)) == z.Spent(z.warm) + Allowance(z.t, z.t.slots + gap)
  {
    hide Step, Gap, Exec, Total, Prelude, Drain, EventsFit, Plain, Failures, Bills;
    CrossingState(z, gap);
    GapSize(z, gap);
    BillsTotal(z, z.warm);
    BillsTotal(z, z.warm + 1);
    FinalSpend(z, gap);
    SpentAfterWarmUp(z, z.t.slots + gap);
    var es, i := WorstRun(z, gap), FirstBill(z, gap);
    PlainParts(z.t, es, i);
    PlainNeverFails(z.t, INIT, es);
    PlainNeverFails(z.t, Exec(INIT, es[..i + 1]), es[i + 1..]);
  }

  // ---- The bound is the best one ------------------------------------------------------------------

  // Any amount below the cap can be spent beforehand, in requests within their cost.
  lemma {:induction false} SpentWarming(z: Scenario, n: nat)
    requires n <= z.warm
    ensures z.Spent(n) == (n as real) * z.price
  {
    if n > 0 {
      SpentWarming(z, n - 1);
      assert (n as real) * z.price == ((n - 1) as real) * z.price + z.price;
    }
  }

  lemma Divide(amount: real, cost: real) returns (warm: nat, price: real)
    requires amount >= 0.0 && cost > 0.0
    ensures 0.0 < price <= cost && (warm as real) * price == amount
  {
    if amount == 0.0 {
      return 0, cost;
    }
    warm := (amount / cost).Floor + 1;
    price := amount / (warm as real);
    assert amount / cost < warm as real;
    assert amount == (amount / cost) * cost;
    assert ((warm as real) - amount / cost) * cost > 0.0;
    assert price * (warm as real) == amount < cost * (warm as real);
    CancelFactor(price, cost, warm as real);
  }

  lemma CancelFactor(a: real, b: real, f: real)
    requires f > 0.0 && a * f < b * f
    ensures a < b
  {
    assert (b - a) * f > 0.0;
  }

  lemma WarmScenario(t: Terms, amount: real) returns (z: Scenario)
    requires t.Valid() && 0.0 <= amount < t.cap <= amount + t.cost
    ensures z.Valid() && z.t == t && z.Spent(z.warm) == amount
  {
    var warm, price := Divide(amount, t.cost);
    z := Scenario(t, warm, price);
    SpentWarming(z, warm);
  }

  // For every bucket, cap, slots, cost and number of requests in the gap, and every margin, a run
  // comes within the margin of the bound of `BudgetOvershoot`.
  lemma BoundIsTight(t: Terms, gap: nat, margin: real) returns (es: seq<Event>, i: nat)
    requires t.Valid() && 0.0 < margin <= t.cost
    ensures Crosses(t, es, i) && Caught(t, es, i) == gap
    ensures Spend(t, Exec(INIT, es)) >= t.cap + Allowance(t, t.slots + gap) - margin
  {
    var z := WarmScenario(t, if t.cap <= margin then 0.0 else t.cap - margin);
    es, i := WorstRun(z, gap), FirstBill(z, gap);
    WorstRunReaches(z, gap);
    hide *;
  }

  // The documented bound: no more than slots times cost over the cap, in every run that
  // reaches the cap with `gap` requests caught between check and slot or let in by a
  // broken check.
  ghost predicate DocumentedBoundHolds(t: Terms, gap: nat) {
    forall es, i | Crosses(t, es, i) && Caught(t, es, i) == gap ::
      Spend(t, Exec(INIT, es)) <= t.cap + Allowance(t, t.slots)
  }

  // It holds exactly when there are none, for day and month budgets alike.
  lemma DocumentedOvershootExactly(t: Terms, gap: nat)
    requires t.Valid()
    ensures DocumentedBoundHolds(t, gap) <==> gap == 0
  {
    hide Spend, Exec, Gap, Step, Failures;
    if gap == 0 {
      forall es, i | Crosses(t, es, i) && Caught(t, es, i) == gap
        ensures Spend(t, Exec(INIT, es)) <= t.cap + Allowance(t, t.slots)
      {
        BudgetOvershoot(t, es, i);
      }
    } else {
      var es, i := BoundIsTight(t, gap, t.cost / 2.0);
      AllowanceGrows(t, t.slots + 1, t.slots + gap);
      AllowanceGrows(t, t.slots, t.slots);
    }
  }
}
