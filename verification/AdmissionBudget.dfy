/**
 How far a budget can be overshot. The check runs before the slot is taken, so the
 bound counts the requests between the two as well as the slots.
 */
module AdmissionBudget {
  import opened Admission
  import opened AdmissionSlots
  import opened Meter

  // One key, one bucket, and what every request of the key carries: the cap on that
  // bucket, the number of slots, and the most a request can cost.
  datatype Terms = Terms(keyID: string, bucket: Period, cap: real, slots: int, cost: real) {
    predicate Valid() {
      cap > 0.0 && slots > 0 && cost > 0.0
    }

    function Index(d: Day): int {
      if bucket.DayOf? then d else MonthIndex(d)
    }

    function Number(): int {
      if bucket.DayOf? then bucket.day else bucket.month
    }

    function CapOf(daily: real, monthly: real): real {
      if bucket.DayOf? then daily else monthly
    }

    // The event is within the terms, if it concerns the key.
    predicate EventFits(s: State, e: Event) {
      && (e.Arrive? && e.keyID == keyID ==> e.limit == slots && CapOf(e.dailyCap, e.monthCap) == cap)
      && (e.ReadRecordClock? && e.r in s.reqs && s.reqs[e.r].keyID == keyID ==> e.cost <= cost)
    }

    predicate RequestFits(q: Request, today: Day) {
      && q.checkDay <= today
      && (q.keyID == keyID ==> q.limit == slots && CapOf(q.dailyCap, q.monthCap) == cap)
      && (q.phase.Running? && q.phase.stage.Timed? ==>
            q.checkDay <= q.phase.stage.day <= today && (q.keyID == keyID ==> q.phase.stage.cost <= cost))
    }

    // Between the clock reading of Check and the slot, and able to bill this bucket
    // once it is full.
    predicate InGap(q: Request) {
      && q.keyID == keyID
      && if q.phase.Clocked? then Index(q.checkDay) < Number()
         else (q.phase.Passed? || q.phase.Admitted? || q.phase.Missed? || q.phase.Located?)
              && Index(q.checkDay) <= Number()
    }

    // Not billed yet and able to bill this bucket once it is full.
    predicate Threatens(q: Request) {
      || InGap(q)
      || (q.keyID == keyID && q.phase.Running? && !q.phase.stage.Billed? && Index(q.checkDay) <= Number())
    }
  }

  ghost function Gap(t: Terms, s: State): set<nat> {
    Those(s.reqs, (q: Request) => t.InGap(q))
  }

  ghost function ThreatensIn(t: Terms): Request -> bool {
    (q: Request) => t.Threatens(q)
  }

  ghost function Threat(t: Terms, s: State): set<nat> {
    Those(s.reqs, ThreatensIn(t))
  }

  function Spend(t: Terms, s: State): real {
    Total(s.ledger, t.keyID, t.bucket)
  }

  ghost predicate Fits(t: Terms, s: State) {
    forall r :: r in s.reqs ==> t.RequestFits(s.reqs[r], s.today)
  }

  // The whole run from `s` is within the terms.
  ghost predicate EventsFit(t: Terms, s: State, es: seq<Event>)
    decreases es
  {
    es == [] || (t.EventFits(s, es[0]) && EventsFit(t, Step(s, es[0]), es[1..]))
  }

  lemma {:induction false} EventsFitSplit(t: Terms, s: State, a: seq<Event>, b: seq<Event>)
    ensures EventsFit(t, s, a + b) <==> EventsFit(t, s, a) && EventsFit(t, Exec(s, a), b)
    decreases a
  {
    hide Step;
    if a == [] {
      assert a + b == b;
    } else {
      EventsFitSplit(t, Step(s, a[0]), a[1..], b);
      assert (a + b)[1..] == a[1..] + b;
    }
  }

  // ---- Small facts -------------------------------------------------------------------

  lemma IndexMonotone(t: Terms, a: Day, b: Day)
    requires a <= b
    ensures t.Index(a) <= t.Index(b)
  {
  }

  lemma FallsByIndex(t: Terms, e: Entry)
    ensures Falls(e, t.keyID, t.bucket) <==> e.keyID == t.keyID && t.Index(e.day) == t.Number()
  {
  }

  lemma FitsStep(t: Terms, s: State, e: Event)
    requires Fits(t, s) && t.EventFits(s, e)
    ensures Fits(t, Step(s, e))
  {
    var s' := Step(s, e);
    forall r | r in s'.reqs
      ensures t.RequestFits(s'.reqs[r], s'.today)
    {
      hide Exceeded, Booked;
      if r in s.reqs {
        assert t.RequestFits(s.reqs[r], s.today);
      }
    }
  }

  // Only a Record event moves the ledger.
  lemma LedgerStep(t: Terms, s: State, e: Event)
    requires Fits(t, s) && t.Valid()
    ensures Step(s, e).ledger != s.ledger ==>
              && e.Record? && e.r in s.reqs
              && s.reqs[e.r].phase.Running? && s.reqs[e.r].phase.stage.Timed?
    ensures Spend(t, s) <= Spend(t, Step(s, e)) <= Spend(t, s) + t.cost
    ensures Spend(t, s) < Spend(t, Step(s, e)) ==>
              && e.Record? && e.r in s.reqs && s.reqs[e.r].keyID == t.keyID
              && s.reqs[e.r].phase.Running? && s.reqs[e.r].phase.stage.Timed?
              && t.Index(s.reqs[e.r].phase.stage.day) == t.Number()
  {
    if Step(s, e).ledger != s.ledger {
      var q := s.reqs[e.r];
      assert t.RequestFits(q, s.today);
      var entry := Entry(q.keyID, q.phase.stage.day, q.phase.stage.cost);
      TotalSnoc(s.ledger, entry, t.keyID, t.bucket);
      FallsByIndex(t, entry);
    }
  }

  // ---- Once the cap is reached -----------------------------------------------------------

  ghost predicate Full(t: Terms, s: State) {
    Spend(t, s) >= t.cap && t.Index(s.today) >= t.Number()
  }

  // A check of the key that breaks, which lets its request through.
  ghost predicate Failing(t: Terms, s: State, e: Event) {
    e.CheckFails? && e.r in s.reqs && s.reqs[e.r].keyID == t.keyID
  }

  // How many checks of the key break in a run.
  ghost function Failures(t: Terms, s: State, es: seq<Event>): nat
    decreases es
  {
    if es == [] then 0
    else (if Failing(t, s, es[0]) then 1 else 0) + Failures(t, Step(s, es[0]), es[1..])
  }

  // No request newly becomes able to bill a full bucket, unless its check breaks, and one
  // that bills it stops being able to.
  lemma ThreatStep(t: Terms, s: State, e: Event, r: nat)
    requires t.Valid() && Fits(t, s) && Full(t, s)
    requires r in Step(s, e).reqs && t.Threatens(Step(s, e).reqs[r])
    ensures (r in s.reqs && t.Threatens(s.reqs[r])) || (Failing(t, s, e) && r == e.r)
    ensures Spend(t, s) < Spend(t, Step(s, e)) ==> r != e.r
  {
    hide Spend;
    ThreatIsOld(t, s, e, r);
    LedgerStep(t, s, e);
    if Spend(t, s) < Spend(t, Step(s, e)) {
      BillerIsBilled(s, e);
    }
    hide Step;
  }

  lemma ThreatIsOld(t: Terms, s: State, e: Event, r: nat)
    requires t.Valid() && Fits(t, s) && Full(t, s)
    requires r in Step(s, e).reqs && t.Threatens(Step(s, e).reqs[r])
    ensures (r in s.reqs && t.Threatens(s.reqs[r])) || (Failing(t, s, e) && r == e.r)
  {
    hide Total, Booked, CountOf;
    if r in s.reqs {
      assert t.RequestFits(s.reqs[r], s.today);
    }
  }

  lemma BillerThreatens(t: Terms, s: State, e: Event)
    requires t.Valid() && Fits(t, s) && Spend(t, s) < Spend(t, Step(s, e))
    ensures e.Record? && e.r in s.reqs && t.Threatens(s.reqs[e.r])
  {
    LedgerStep(t, s, e);
    hide Step;
    var q := s.reqs[e.r];
    assert t.RequestFits(q, s.today);
    IndexMonotone(t, q.checkDay, q.phase.stage.day);
  }

  // Spend plus what the remaining threats can still add never grows, but by one request's
  // cost for every check that breaks.
  lemma PotentialStep(t: Terms, s: State, e: Event)
    requires t.Valid() && Fits(t, s) && Full(t, s)
    ensures Full(t, Step(s, e))
    ensures Spend(t, Step(s, e)) + Allowance(t, |Threat(t, Step(s, e))|)
            <= Spend(t, s) + Allowance(t, |Threat(t, s)|) + if Failing(t, s, e) then t.cost else 0.0
  {
    hide Step, Spend, Allowance, Terms.Threatens, Terms.Index, Fits;
    var s' := Step(s, e);
    LedgerStep(t, s, e);
    TodayStep(t, s, e);
    var a, b := Threat(t, s), Threat(t, s');
    forall r | r in b
      ensures (r in a || (Failing(t, s, e) && r == e.r)) && (Spend(t, s) < Spend(t, s') ==> r != e.r)
    {
      ThreatStep(t, s, e, r);
    }
    if Spend(t, s) < Spend(t, s') {
      BillerThreatens(t, s, e);
      SubsetCard(b, a - {e.r});
      AllowanceGrows(t, |b| + 1, |a|);
      AllowanceGrows(t, |b|, |b|);
    } else if Failing(t, s, e) {
      SubsetCard(b, a + {e.r});
      AllowanceGrows(t, |b|, |a| + 1);
      AllowanceGrows(t, |a|, |a|);
    } else {
      SubsetCard(b, a);
      AllowanceGrows(t, |b|, |a|);
    }
  }

  lemma TodayStep(t: Terms, s: State, e: Event)
    ensures s.today <= Step(s, e).today && t.Index(s.today) <= t.Index(Step(s, e).today)
  {
    IndexMonotone(t, s.today, Step(s, e).today);
  }

  // What `n` requests can cost.
  function Allowance(t: Terms, n: int): real {
    (n as real) * t.cost
  }

  lemma AllowanceGrows(t: Terms, m: int, n: int)
    requires t.Valid() && m <= n
    ensures Allowance(t, m) <= Allowance(t, n)
    ensures Allowance(t, m + 1) == Allowance(t, m) + t.cost
  {
    assert ((n - m) as real) * t.cost >= 0.0;
    assert Allowance(t, n) == Allowance(t, m) + ((n - m) as real) * t.cost;
  }

  lemma AllowanceAdds(t: Terms, m: int, n: int)
    ensures Allowance(t, m + n) == Allowance(t, m) + Allowance(t, n)
  {
  }

  lemma AllowanceNonNegative(t: Terms, n: nat)
    requires t.Valid()
    ensures Allowance(t, n) >= 0.0
  {
    AllowanceGrows(t, 0, n);
  }

  lemma {:induction false} PotentialRun(t: Terms, s: State, es: seq<Event>)
    requires t.Valid() && Fits(t, s) && Full(t, s) && EventsFit(t, s, es)
    ensures Spend(t, Exec(s, es)) <= Spend(t, s) + Allowance(t, |Threat(t, s)| + Failures(t, s, es))
    decreases es
  {
    hide Step, Spend, Allowance, Full, Fits, Threat, Failing;
    AllowanceNonNegative(t, |Threat(t, s)| + Failures(t, s, es));
    if es != [] {
      var s' := Step(s, es[0]);
      FitsStep(t, s, es[0]);
      PotentialStep(t, s, es[0]);
      PotentialRun(t, s', es[1..]);
      AllowanceAdds(t, |Threat(t, s')|, Failures(t, s', es[1..]));
      AllowanceAdds(t, |Threat(t, s)|, Failures(t, s, es));
      AllowanceGrows(t, Failures(t, s', es[1..]), Failures(t, s', es[1..]));
    }
  }

  // ---- Slots ---------------------------------------------------------------------------------

  lemma HoldingStep(t: Terms, s: State, e: Event)
    requires t.Valid() && Inv(s) && Fits(t, s) && |Holding(s.reqs, t.keyID)| <= t.slots
    ensures |Holding(Step(s, e).reqs, t.keyID)| <= t.slots
  {
    var s' := Step(s, e);
    if e.Tick? || s' == s {
      assert s'.reqs == s.reqs;
    } else {
      StepChanges(s, e);
      ThoseUpdate(s.reqs, e.r, s'.reqs[e.r], HoldsFor(t.keyID));
      NewHolder(t, s, e);
      if e.Add? && s'.reqs[e.r].Holds() && s'.reqs[e.r].keyID == t.keyID {
        StepKeepsInv(s, e);
        hide Step;
        HoldingAtMostCount(s', t.keyID);
      }
    }
  }

  // A slot is gained only by an add within the limit.
  lemma NewHolder(t: Terms, s: State, e: Event)
    requires t.Valid() && Inv(s) && Fits(t, s) && Step(s, e) != s && !e.Tick?
    ensures var s' := Step(s, e);
            var q' := s'.reqs[e.r];
            q'.keyID == t.keyID && q'.Holds() && !(e.r in s.reqs && s.reqs[e.r].Holds()) ==>
              && e.Add? && t.keyID in s'.counters && CountOf(s', s'.counters[t.keyID]) <= t.slots
  {
    hide Exceeded, Booked, Occupying;
    if e.r in s.reqs {
      assert t.RequestFits(s.reqs[e.r], s.today);
      assert PhaseSound(s, s.reqs[e.r]);
    }
  }

  lemma {:induction false} FitRun(t: Terms, s: State, es: seq<Event>)
    requires t.Valid() && Inv(s) && Fits(t, s) && |Holding(s.reqs, t.keyID)| <= t.slots && EventsFit(t, s, es)
    ensures var s' := Exec(s, es); Inv(s') && Fits(t, s') && |Holding(s'.reqs, t.keyID)| <= t.slots
    decreases es
  {
    if es != [] {
      FitsStep(t, s, es[0]);
      StepKeepsInv(s, es[0]);
      HoldingStep(t, s, es[0]);
      hide Step;
      FitRun(t, Step(s, es[0]), es[1..]);
    }
  }

  // ---- The bound -----------------------------------------------------------------------------

  // At the step that reaches the cap: less than one request's cost over it, and besides
  // the biller at most one threat per other slot.
  lemma Crossing(t: Terms, s: State, e: Event)
    requires t.Valid() && Inv(s) && Fits(t, s) && t.EventFits(s, e) && |Holding(s.reqs, t.keyID)| <= t.slots
    requires Spend(t, s) < t.cap <= Spend(t, Step(s, e))
    ensures Spend(t, Step(s, e)) < t.cap + t.cost && Full(t, Step(s, e))
    ensures |Threat(t, Step(s, e))| + 1 <= |Gap(t, Step(s, e))| + t.slots
  {
    hide Step, Spend, Inv;
    LedgerStep(t, s, e);
    var q := s.reqs[e.r];
    assert t.RequestFits(q, s.today);
    IndexMonotone(t, q.phase.stage.day, s.today);
    TodayStep(t, s, e);
    HoldingStep(t, s, e);
    FitsStep(t, s, e);
    BillerIsBilled(s, e);
    ThreatCard(t, Step(s, e), e.r);
  }

  lemma BillerIsBilled(s: State, e: Event)
    requires e.Record? && e.r in s.reqs && s.reqs[e.r].phase.Running? && s.reqs[e.r].phase.stage.Timed?
    ensures e.r in Step(s, e).reqs && Step(s, e).reqs[e.r] == s.reqs[e.r].(phase := Running(Billed))
  {
  }

  lemma ThreatCard(t: Terms, s: State, r: nat)
    requires t.Valid() && Fits(t, s) && r in s.reqs && s.reqs[r].keyID == t.keyID && s.reqs[r].phase == Running(Billed)
    ensures |Threat(t, s)| + 1 <= |Gap(t, s)| + |Holding(s.reqs, t.keyID)|
  {
    var threat, gap, held := Threat(t, s), Gap(t, s), Holding(s.reqs, t.keyID);
    assert t.RequestFits(s.reqs[r], s.today);
    assert r in held && r !in threat;
    forall x | x in threat
      ensures x in gap + (held - {r})
    {
      assert t.RequestFits(s.reqs[x], s.today);
    }
    hide Fits, Threat, Gap, Holding;
    SubsetCard(threat, gap + (held - {r}));
    UnionCard(gap, held - {r});
  }

  lemma {:induction false} UnionCard(a: set<nat>, b: set<nat>)
    ensures |a + b| <= |a| + |b|
  {
    if a != {} {
      var x :| x in a;
      UnionCard(a - {x}, b);
      if x in b {
        assert a + b == (a - {x}) + b;
      } else {
        assert a + b == ((a - {x}) + b) + {x};
      }
    } else {
      assert a + b == b;
    }
  }

  lemma InitFits(t: Terms)
    requires t.Valid()
    ensures Inv(INIT) && Fits(t, INIT) && Holding(INIT.reqs, t.keyID) == {}
  {
  }

  // Budget overshoot: in every interleaving that reaches the cap of a bucket at event
  // `i`, spend stays below the cap plus one request's cost for each slot and each
  // request that at that moment was between its budget check and its slot, and for each
  // check of the key that breaks later.
  lemma BudgetOvershoot(t: Terms, es: seq<Event>, i: nat)
    requires t.Valid() && EventsFit(t, INIT, es) && i < |es|
    requires Spend(t, Exec(INIT, es[..i])) < t.cap <= Spend(t, Exec(INIT, es[..i + 1]))
    ensures var s' := Exec(INIT, es[..i + 1]);
            Spend(t, Exec(INIT, es)) <
            t.cap + Allowance(t, t.slots + |Gap(t, s')| + Failures(t, s', es[i + 1..]))
  {
    hide Step, Spend, Gap, Threat, Allowance, Inv, Full, Fits, Exec, Failures, EventsFit;
    var s := Exec(INIT, es[..i]);
    InitFits(t);
    FitParts(t, es, i);
    FitRun(t, INIT, es[..i]);
    ExecSnoc(es, i);
    var s' := Step(s, es[i]);
    Crossing(t, s, es[i]);
    FitsStep(t, s, es[i]);
    ExecSplit(INIT, es[..i + 1], es[i + 1..]);
    assert es == es[..i + 1] + es[i + 1..];
    PotentialRun(t, s', es[i + 1..]);
    var n := |Threat(t, s')| + Failures(t, s', es[i + 1..]);
    AllowanceGrows(t, n + 1, t.slots + |Gap(t, s')| + Failures(t, s', es[i + 1..]));
    AllowanceGrows(t, n, n);
  }

  lemma FitParts(t: Terms, es: seq<Event>, i: nat)
    requires EventsFit(t, INIT, es) && i < |es|
    ensures EventsFit(t, INIT, es[..i]) && t.EventFits(Exec(INIT, es[..i]), es[i])
    ensures EventsFit(t, Exec(INIT, es[..i + 1]), es[i + 1..])
  {
    hide Step, Exec;
    assert es == es[..i] + es[i..] == es[..i + 1] + es[i + 1..];
    EventsFitSplit(t, INIT, es[..i], es[i..]);
    EventsFitSplit(t, INIT, es[..i + 1], es[i + 1..]);
  }

  lemma ExecSnoc(es: seq<Event>, i: nat)
    requires i < |es|
    ensures Exec(INIT, es[..i + 1]) == Step(Exec(INIT, es[..i]), es[i])
  {
    hide Step;
    ExecSplit(INIT, es[..i], [es[i]]);
    assert es[..i + 1] == es[..i] + [es[i]];
    var s := Exec(INIT, es[..i]);
    assert Exec(s, [es[i]]) == Exec(Step(s, es[i]), []);
  }
}
