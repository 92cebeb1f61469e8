/**
 The admission pipeline of the proxy as an interleaved step machine.

 Every atomic operation, lock section or clock reading of a request is one event.
 `Step` is total and an event that does not apply changes nothing, so a sequence of
 events is any interleaving of any number of requests.
 */
module Admission {
  import opened Meter

  datatype Stage =
    | Upstream                            // nothing recorded yet
    | Timed(day: Day, cost: real)         // Record has read its clock
    | Billed                              // Record is over

  datatype Phase =
    | Started                             // key resolved
    | Clocked                             // Check has read its clock
    | Passed                              // past Check
    | Admitted                            // past the rate limiter
    | Missed                              // Load found no counter
    | Located(ctr: nat)                   // holds the counter, has not added yet
    | Undoing(ctr: nat)                   // added past the limit
    | Running(stage: Stage)
    | Releasing(ctr: nat)
    | Done

  // `limit` and the caps are the copies taken when the key was resolved.
  datatype Request = Request(keyID: string, limit: int, dailyCap: real, monthCap: real, checkDay: Day, phase: Phase) {
    predicate Holds() {
      limit > 0 && (phase.Running? || phase.Releasing?)
    }
    predicate Occupies() {
      Holds() || phase.Undoing?
    }
  }

  datatype State = State(
    today: Day,
    reqs: map<nat, Request>,
    counters: map<string, nat>,           // key -> counter
    counts: map<nat, int>,                // counter -> value
    unused: nat,                          // next counter to allocate
    ledger: seq<Entry>)

  datatype Event =
    | Tick(day: Day)
    | Arrive(r: nat, keyID: string, limit: int, dailyCap: real, monthCap: real)
    | ReadCheckClock(r: nat)
    | Check(r: nat)
    | CheckFails(r: nat)                  // a meter error lets the request through
    | Allow(r: nat, ok: bool)
    | Load(r: nat)
    | LoadOrStore(r: nat)
    | Add(r: nat)
    | Undo(r: nat)
    | ReadRecordClock(r: nat, cost: real)
    | Record(r: nat)
    | RecordFails(r: nat)                 // the transaction is rolled back
    | Finish(r: nat)
    | Release(r: nat)

  const INIT := State(0, map[], map[], map[], 0, [])

  function To(s: State, r: nat, phase: Phase): State
    requires r in s.reqs
  {
    s.(reqs := s.reqs[r := s.reqs[r].(phase := phase)])
  }

  function CountOf(s: State, c: nat): int {
    if c in s.counts then s.counts[c] else 0
  }

  function Bump(s: State, c: nat, delta: int): State {
    s.(counts := s.counts[c := CountOf(s, c) + delta])
  }

  function Step(s: State, e: Event): State {
    if e.Tick? then
      if s.today <= e.day then s.(today := e.day) else s
    else if e.Arrive? then
      if e.r in s.reqs then s
      else s.(reqs := s.reqs[e.r := Request(e.keyID, e.limit, e.dailyCap, e.monthCap, s.today, Started)])
    else if e.r !in s.reqs then s
    else StepRequest(s, e, s.reqs[e.r])
  }

  function StepRequest(s: State, e: Event, q: Request): State
    requires !e.Tick? && !e.Arrive? && e.r in s.reqs && q == s.reqs[e.r]
  {
    match (e, q.phase)
    case (ReadCheckClock(r), Started) =>
      // The budget check is skipped for a key without caps.
      var phase := if q.dailyCap > 0.0 || q.monthCap > 0.0 then Clocked else Passed;
      s.(reqs := s.reqs[r := q.(checkDay := s.today, phase := phase)])
    case (Check(r), Clocked) =>
      To(s, r, if Exceeded(s.ledger, q.keyID, q.checkDay, q.dailyCap, q.monthCap) then Done else Passed)
    case (CheckFails(r), Clocked) =>
      To(s, r, Passed)
    case (Allow(r, ok), Passed) =>
      To(s, r, if ok then Admitted else Done)
    case (Load(r), Admitted) =>
      if q.limit <= 0 then To(s, r, Running(Upstream))
      else if q.keyID in s.counters then To(s, r, Located(s.counters[q.keyID]))
      else To(s, r, Missed)
    case (LoadOrStore(r), Missed) =>
      if q.keyID in s.counters then To(s, r, Located(s.counters[q.keyID]))
      else To(s.(counters := s.counters[q.keyID := s.unused], counts := s.counts[s.unused := 0], unused := s.unused + 1),
              r, Located(s.unused))
    case (Add(r), Located(c)) =>
      To(Bump(s, c, 1), r, if CountOf(s, c) + 1 > q.limit then Undoing(c) else Running(Upstream))
    case (Undo(r), Undoing(c)) =>
      To(Bump(s, c, -1), r, Done)
    case (ReadRecordClock(r, cost), Running(Upstream)) =>
      To(s, r, Running(Timed(s.today, cost)))
    case (Record(r), Running(Timed(day, cost))) =>
      To(s.(ledger := s.ledger + Booked(q.keyID, day, cost)), r, Running(Billed))
    case (RecordFails(r), Running(Timed(day, cost))) =>
      To(s, r, Running(Billed))
    case (Finish(r), Running(_)) =>
      if q.limit > 0 && q.keyID in s.counters then To(s, r, Releasing(s.counters[q.keyID])) else To(s, r, Done)
    case (Release(r), Releasing(c)) =>
      To(Bump(s, c, -1), r, Done)
    case _ => s
  }

  function Exec(s: State, es: seq<Event>): State
    decreases es
  {
    if es == [] then s else Exec(Step(s, es[0]), es[1..])
  }

  lemma {:induction false} ExecSplit(s: State, a: seq<Event>, b: seq<Event>)
    ensures Exec(s, a + b) == Exec(Exec(s, a), b)
    decreases a
  {
    if a == [] {
      assert a + b == b;
    } else {
      ExecSplit(Step(s, a[0]), a[1..], b);
      assert (a + b)[1..] == a[1..] + b;
    }
  }

  lemma Exec1(s: State, e: Event, es: seq<Event>)
    ensures Exec(s, [e] + es) == Exec(Step(s, e), es)
  {
    assert ([e] + es)[1..] == es;
  }

  lemma Exec3(s: State, a: Event, b: Event, c: Event)
    ensures Exec(s, [a, b, c]) == Step(Step(Step(s, a), b), c)
  {
    hide Step;
    Exec1(s, a, [b, c]);
    Exec1(Step(s, a), b, [c]);
    Exec1(Step(Step(s, a), b), c, []);
    assert [a] + [b, c] == [a, b, c] && [b] + [c] == [b, c] && [c] + [] == [c];
  }

  lemma Exec4(s: State, a: Event, b: Event, c: Event, d: Event)
    ensures Exec(s, [a, b, c, d]) == Step(Step(Step(Step(s, a), b), c), d)
  {
    hide Step;
    Exec1(s, a, [b, c, d]);
    Exec3(Step(s, a), b, c, d);
    assert [a] + [b, c, d] == [a, b, c, d];
  }
}

/** Slot safety, over every interleaving. */
module AdmissionSlots {
  import opened Admission
  import opened Meter

  ghost function Those(reqs: map<nat, Request>, p: Request -> bool): set<nat> {
    set r | r in reqs && p(reqs[r])
  }

  ghost function OccupiesFor(k: string): Request -> bool {
    (q: Request) => q.keyID == k && q.Occupies()
  }

  ghost function HoldsFor(k: string): Request -> bool {
    (q: Request) => q.keyID == k && q.Holds()
  }

  // Requests of a key whose add is still in the counter.
  ghost function Occupying(reqs: map<nat, Request>, k: string): set<nat> {
    Those(reqs, OccupiesFor(k))
  }

  // Requests of a key that were granted a slot and have not given it back.
  ghost function Holding(reqs: map<nat, Request>, k: string): set<nat> {
    Those(reqs, HoldsFor(k))
  }

  // One request's change moves it in or out of a set of requests.
  lemma ThoseUpdate(reqs: map<nat, Request>, r: nat, q: Request, p: Request -> bool)
    ensures var before := r in reqs && p(reqs[r]);
            var old', new' := Those(reqs, p), Those(reqs[r := q], p);
            && (before == p(q) ==> new' == old')
            && (!before && p(q) ==> |new'| == |old'| + 1)
            && (before && !p(q) ==> |new'| == |old'| - 1)
  {
    var old', new' := Those(reqs, p), Those(reqs[r := q], p);
    assert r in old' <==> r in reqs && p(reqs[r]);
    assert new' == if p(q) then old' + {r} else old' - {r};
    hide Those;
  }

  ghost predicate CountersSound(s: State) {
    && (forall k :: k in s.counters ==> s.counters[k] < s.unused && s.counters[k] in s.counts)
    && (forall j, k :: j in s.counters && k in s.counters && s.counters[j] == s.counters[k] ==> j == k)
  }

  ghost predicate PhaseSound(s: State, q: Request) {
    match q.phase
    case Located(c) => q.limit > 0 && q.keyID in s.counters && s.counters[q.keyID] == c
    case Undoing(c) => q.limit > 0 && q.keyID in s.counters && s.counters[q.keyID] == c
    case Releasing(c) => q.limit > 0 && q.keyID in s.counters && s.counters[q.keyID] == c
    case Running(_) => q.limit > 0 ==> q.keyID in s.counters
    case Missed => q.limit > 0
    case _ => true
  }

  ghost predicate CountsExact(s: State) {
    && (forall k :: k in s.counters ==> CountOf(s, s.counters[k]) == |Occupying(s.reqs, k)|)
    && (forall k :: k !in s.counters ==> Occupying(s.reqs, k) == {})
  }

  // The counter of a key is exactly its held slots plus its pending undos.
  ghost predicate Inv(s: State) {
    && CountersSound(s)
    && (forall r :: r in s.reqs ==> PhaseSound(s, s.reqs[r]))
    && CountsExact(s)
  }

  function Shift(k: string, q: Request, before: bool): int {
    if k != q.keyID || before == q.Occupies() then 0 else if before then -1 else 1
  }

  lemma OccupyingUpdate(reqs: map<nat, Request>, r: nat, q: Request, k: string)
    requires r in reqs ==> reqs[r].keyID == q.keyID
    ensures var before := r in reqs && reqs[r].Occupies();
            && |Occupying(reqs[r := q], k)| == |Occupying(reqs, k)| + Shift(k, q, before)
            && (Shift(k, q, before) == 0 ==> Occupying(reqs[r := q], k) == Occupying(reqs, k))
  {
    ThoseUpdate(reqs, r, q, OccupiesFor(k));
  }

  lemma StepKeepsInv(s: State, e: Event)
    requires Inv(s)
    ensures Inv(Step(s, e))
    ensures forall k :: k in s.counters ==> k in Step(s, e).counters && Step(s, e).counters[k] == s.counters[k]
  {
    hide Occupying, Step, CountOf;
    var s' := Step(s, e);
    if e.Tick? {
      TickKeepsInv(s, e);
    } else if s' != s {
      StepChanges(s, e);
      var q' := s'.reqs[e.r];
      StepCounters(s, e);
      forall r | r in s'.reqs
        ensures PhaseSound(s', s'.reqs[r])
      {
        StepPhase(s, e, r);
      }
      forall k
        ensures k in s'.counters ==> CountOf(s', s'.counters[k]) == |Occupying(s'.reqs, k)|
        ensures k !in s'.counters ==> Occupying(s'.reqs, k) == {}
      {
        OccupyingUpdate(s.reqs, e.r, q', k);
        StepCount(s, e, k);
      }
    }
  }

  lemma TickKeepsInv(s: State, e: Event)
    requires Inv(s) && e.Tick?
    ensures Inv(Step(s, e)) && Step(s, e).counters == s.counters
  {
  }

  lemma StepChanges(s: State, e: Event)
    requires Step(s, e) != s && !e.Tick?
    ensures e.r in Step(s, e).reqs && Step(s, e).reqs == s.reqs[e.r := Step(s, e).reqs[e.r]]
    ensures e.r in s.reqs ==> Step(s, e).reqs[e.r].keyID == s.reqs[e.r].keyID
  {
  }

  lemma StepCounters(s: State, e: Event)
    requires CountersSound(s)
    ensures CountersSound(Step(s, e))
    ensures forall k :: k in s.counters ==> k in Step(s, e).counters && Step(s, e).counters[k] == s.counters[k]
  {
    hide Exceeded, Booked, CountOf;
  }

  lemma StepPhase(s: State, e: Event, r: nat)
    requires CountersSound(s) && (forall x :: x in s.reqs ==> PhaseSound(s, s.reqs[x]))
    requires r in Step(s, e).reqs
    ensures PhaseSound(Step(s, e), Step(s, e).reqs[r])
  {
    hide Exceeded, Booked, CountersSound, CountOf;
    StepCounters(s, e);
    if r in s.reqs {
      assert PhaseSound(s, s.reqs[r]);
    }
  }

  // The counter of key `k` moves with the occupying set.
  lemma StepCount(s: State, e: Event, k: string)
    requires CountersSound(s) && (forall x :: x in s.reqs ==> PhaseSound(s, s.reqs[x]))
    requires Step(s, e) != s && !e.Tick?
    ensures var s' := Step(s, e);
            var before := e.r in s.reqs && s.reqs[e.r].Occupies();
            var shift := Shift(k, s'.reqs[e.r], before);
            && (k in s.counters ==> k in s'.counters && CountOf(s', s'.counters[k]) == CountOf(s, s.counters[k]) + shift)
            && (k !in s.counters ==> shift == 0 && (k in s'.counters ==> CountOf(s', s'.counters[k]) == 0))
  {
    if e.r in s.reqs {
      assert PhaseSound(s, s.reqs[e.r]);
    }
  }

  lemma InitInv()
    ensures Inv(INIT)
  {
  }

  // In every reachable state each counter equals its held slots plus pending undos.
  lemma {:induction false} SlotSafety(s: State, es: seq<Event>)
    requires Inv(s)
    ensures Inv(Exec(s, es))
    ensures forall k :: k in s.counters ==> k in Exec(s, es).counters && Exec(s, es).counters[k] == s.counters[k]
    decreases es
  {
    if es != [] {
      StepKeepsInv(s, es[0]);
      SlotSafety(Step(s, es[0]), es[1..]);
    }
  }

  lemma Reachable(es: seq<Event>)
    ensures Inv(Exec(INIT, es))
  {
    InitInv();
    SlotSafety(INIT, es);
  }

  // A grant under a limit leaves at most that many slots held at that instant, even
  // when other requests of the key carry other limits.
  lemma GrantRespectsLimit(es: seq<Event>, r: nat)
    requires var s := Exec(INIT, es);
             r in s.reqs && s.reqs[r].phase.Located? && Step(s, Add(r)).reqs[r].phase.Running?
    ensures var s := Exec(INIT, es);
            |Holding(Step(s, Add(r)).reqs, s.reqs[r].keyID)| <= s.reqs[r].limit
  {
    var s := Exec(INIT, es);
    Reachable(es);
    StepKeepsInv(s, Add(r));
    HoldingAtMostCount(Step(s, Add(r)), s.reqs[r].keyID);
  }

  lemma HoldingAtMostCount(s: State, k: string)
    requires Inv(s) && k in s.counters
    ensures |Holding(s.reqs, k)| <= CountOf(s, s.counters[k])
  {
    SubsetCard(Holding(s.reqs, k), Occupying(s.reqs, k));
  }

  lemma {:induction false} SubsetCard(a: set<nat>, b: set<nat>)
    requires a <= b
    ensures |a| <= |b|
  {
    if a != {} {
      var x :| x in a;
      SubsetCard(a - {x}, b - {x});
    }
  }

  // Once every request of a key is over, its counter reads zero, whatever limits the
  // requests carried.
  lemma QuiescentCounterIsZero(es: seq<Event>, k: string)
    requires var s := Exec(INIT, es);
             && k in s.counters
             && forall r :: r in s.reqs && s.reqs[r].keyID == k ==> s.reqs[r].phase.Done?
    ensures var s := Exec(INIT, es);
            CountOf(s, s.counters[k]) == 0
  {
    Reachable(es);
    var s := Exec(INIT, es);
    assert Occupying(s.reqs, k) == {};
  }

  // A request whose release finds its counter gives back the slot it took; a granted
  // request never fails to find it.
  lemma ReleaseFindsCounter(es: seq<Event>, r: nat)
    requires var s := Exec(INIT, es);
             r in s.reqs && s.reqs[r].phase.Running? && s.reqs[r].limit > 0
    ensures Step(Exec(INIT, es), Finish(r)).reqs[r].phase.Releasing?
  {
    Reachable(es);
    assert PhaseSound(Exec(INIT, es), Exec(INIT, es).reqs[r]);
  }

  // ---- Refusals ------------------------------------------------------------------------------

  // An add is refused exactly when the held slots and the pending undos together have
  // reached the caller's limit.
  lemma RefusedExactly(es: seq<Event>, r: nat)
    requires var s := Exec(INIT, es); r in s.reqs && s.reqs[r].phase.Located?
    ensures var s := Exec(INIT, es);
            var phase := Step(s, Add(r)).reqs[r].phase;
            if |Occupying(s.reqs, s.reqs[r].keyID)| >= s.reqs[r].limit then phase.Undoing? else phase.Running?
  {
    var s := Exec(INIT, es);
    Reachable(es);
    assert PhaseSound(s, s.reqs[r]);
    AddDecides(s, r);
    hide Occupying, Step;
  }

  lemma AddDecides(s: State, r: nat)
    requires r in s.reqs && s.reqs[r].phase.Located?
    ensures var phase := Step(s, Add(r)).reqs[r].phase;
            if CountOf(s, s.reqs[r].phase.ctr) >= s.reqs[r].limit then phase.Undoing? else phase.Running?
  {
  }

  // What an admitted request gets from the slots, from any reachable state: it runs exactly
  // if its key has no slot limit or fewer slots and pending undos than that.
  lemma SlotExactly(es: seq<Event>, r: nat)
    requires var s := Exec(INIT, es); r in s.reqs && s.reqs[r].phase.Admitted?
    ensures var s := Exec(INIT, es);
            var q := s.reqs[r];
            var s' := Step(Step(Step(s, Load(r)), LoadOrStore(r)), Add(r));
            && s'.reqs == s.reqs[r := q.(phase := s'.reqs[r].phase)] && s'.ledger == s.ledger
            && if q.limit <= 0 || |Occupying(s.reqs, q.keyID)| < q.limit then s'.reqs[r].phase == Running(Upstream)
               else s'.reqs[r].phase.Undoing?
  {
    var s := Exec(INIT, es);
    Reachable(es);
    assert PhaseSound(s, s.reqs[r]);
    SlotSteps(s, r);
    hide Step, Occupying;
  }

  lemma SlotSteps(s: State, r: nat)
    requires CountersSound(s) && r in s.reqs && s.reqs[r].phase.Admitted?
    ensures var q := s.reqs[r];
            var s' := Step(Step(Step(s, Load(r)), LoadOrStore(r)), Add(r));
            var count := if q.keyID in s.counters then CountOf(s, s.counters[q.keyID]) else 0;
            && r in s'.reqs && s'.reqs == s.reqs[r := q.(phase := s'.reqs[r].phase)] && s'.ledger == s.ledger
            && if q.limit <= 0 || count < q.limit then s'.reqs[r].phase == Running(Upstream)
               else s'.reqs[r].phase.Undoing?
  {
    hide Exceeded, Booked;
    var q := s.reqs[r];
    var s1 := Step(s, Load(r));
    if q.limit <= 0 {
      assert s1 == To(s, r, Running(Upstream));
    } else {
      Locates(s, r);
      hide Step;
      AddsOnce(Step(s1, LoadOrStore(r)), r);
    }
  }

  // Finding the counter, or making it.
  lemma Locates(s: State, r: nat)
    requires CountersSound(s) && r in s.reqs && s.reqs[r].phase.Admitted? && s.reqs[r].limit > 0
    ensures var q := s.reqs[r];
            var s' := Step(Step(s, Load(r)), LoadOrStore(r));
            && r in s'.reqs && s'.reqs[r].phase.Located? && s'.ledger == s.ledger
            && s'.reqs == s.reqs[r := q.(phase := s'.reqs[r].phase)]
            && CountOf(s', s'.reqs[r].phase.ctr) ==
               if q.keyID in s.counters then CountOf(s, s.counters[q.keyID]) else 0
  {
    hide Exceeded, Booked;
  }

  lemma AddsOnce(s: State, r: nat)
    requires r in s.reqs && s.reqs[r].phase.Located?
    ensures var q := s.reqs[r];
            var s' := Step(s, Add(r));
            && r in s'.reqs && s'.ledger == s.ledger && s'.reqs == s.reqs[r := q.(phase := s'.reqs[r].phase)]
            && if CountOf(s, q.phase.ctr) < q.limit then s'.reqs[r].phase == Running(Upstream)
               else s'.reqs[r].phase.Undoing?
  {
    hide Exceeded, Booked;
  }

  // What a new request gets from the budget check and the rate limiter; `ok` is the
  // limiter's answer and `broken` a meter error, which lets the request through.
  lemma ChecksExactly(s: State, r: nat, broken: bool, ok: bool)
    requires r in s.reqs && s.reqs[r].phase.Started?
    ensures var q := s.reqs[r];
            var s' := Step(Step(Step(s, ReadCheckClock(r)), if broken then CheckFails(r) else Check(r)), Allow(r, ok));
            var capped := q.dailyCap > 0.0 || q.monthCap > 0.0;
            var over := capped && !broken && Exceeded(s.ledger, q.keyID, s.today, q.dailyCap, q.monthCap);
            s' == s.(reqs := s.reqs[r := q.(checkDay := s.today, phase := if over || !ok then Done else Admitted)])
  {
    hide Exceeded, Booked;
    var q := s.reqs[r];
    var capped := q.dailyCap > 0.0 || q.monthCap > 0.0;
    var s1 := Step(s, ReadCheckClock(r));
    assert s1 == s.(reqs := s.reqs[r := q.(checkDay := s.today, phase := if capped then Clocked else Passed)]);
    ChecksPass(s, s1, r, broken);
    var s2 := Step(s1, if broken then CheckFails(r) else Check(r));
    hide Step;
    AllowDecides(s2, r, ok);
  }

  lemma ChecksPass(s: State, s1: State, r: nat, broken: bool)
    requires r in s.reqs
    requires var q := s.reqs[r];
             var capped := q.dailyCap > 0.0 || q.monthCap > 0.0;
             s1 == s.(reqs := s.reqs[r := q.(checkDay := s.today, phase := if capped then Clocked else Passed)])
    ensures var q := s.reqs[r];
            var over := (q.dailyCap > 0.0 || q.monthCap > 0.0) && !broken
                        && Exceeded(s.ledger, q.keyID, s.today, q.dailyCap, q.monthCap);
            Step(s1, if broken then CheckFails(r) else Check(r)) ==
            s.(reqs := s.reqs[r := q.(checkDay := s.today, phase := if over then Done else Passed)])
  {
    hide Exceeded, Booked;
  }

  lemma AllowDecides(s: State, r: nat, ok: bool)
    requires r in s.reqs && (s.reqs[r].phase.Passed? || s.reqs[r].phase.Done?)
    ensures Step(s, Allow(r, ok)) ==
            s.(reqs := s.reqs[r := s.reqs[r].(phase := if s.reqs[r].phase.Passed? && ok then Admitted else Done)])
  {
    hide Exceeded, Booked;
    assert s.reqs == s.reqs[r := s.reqs[r]];
  }

  // The way of a request that no one gets in between, from any reachable state: it reaches
  // the upstream exactly if no budget is used up, the limiter lets it through and a slot is
  // to be had. A refused request leaves ledger and other requests alone.
  lemma AdmissionExactly(es: seq<Event>, r: nat, broken: bool, ok: bool)
    requires var s := Exec(INIT, es); r in s.reqs && s.reqs[r].phase.Started?
    ensures var s := Exec(INIT, es);
            var q := s.reqs[r];
            var own := [ReadCheckClock(r), if broken then CheckFails(r) else Check(r), Allow(r, ok)]
                       + [Load(r), LoadOrStore(r), Add(r)];
            var s' := Exec(INIT, es + own);
            var capped := q.dailyCap > 0.0 || q.monthCap > 0.0;
            var over := capped && !broken && Exceeded(s.ledger, q.keyID, s.today, q.dailyCap, q.monthCap);
            var full := q.limit > 0 && |Occupying(s.reqs, q.keyID)| >= q.limit;
            && r in s'.reqs && s'.ledger == s.ledger && s'.reqs.Keys == s.reqs.Keys
            && (forall x :: x in s.reqs && x != r ==> s'.reqs[x] == s.reqs[x])
            && if over || !ok then s'.reqs[r].phase == Done
               else if full then s'.reqs[r].phase.Undoing?
               else s'.reqs[r].phase == Running(Upstream)
  {
    hide Step, Exec, Occupying, Exceeded, Inv;
    var s := Exec(INIT, es);
    var q := s.reqs[r];
    var checks := [ReadCheckClock(r), if broken then CheckFails(r) else Check(r), Allow(r, ok)];
    var slot := [Load(r), LoadOrStore(r), Add(r)];
    ChecksExactly(s, r, broken, ok);
    ThreeMore(es, checks[0], checks[1], checks[2]);
    ThreeMore(es + checks, slot[0], slot[1], slot[2]);
    assert es + (checks + slot) == es + checks + slot;
    var q3 := Exec(INIT, es + checks).reqs[r];
    OccupyingUpdate(s.reqs, r, q3, q.keyID);
    if q3.phase.Admitted? {
      SlotExactly(es + checks, r);
    } else {
      DoneStays(Exec(INIT, es + checks), r);
    }
  }

  lemma ThreeMore(es: seq<Event>, a: Event, b: Event, c: Event)
    ensures Exec(INIT, es + [a, b, c]) == Step(Step(Step(Exec(INIT, es), a), b), c)
  {
    hide Step;
    ExecSplit(INIT, es, [a, b, c]);
    Exec3(Exec(INIT, es), a, b, c);
  }

  // A request that is over takes no more steps.
  lemma DoneStays(s: State, r: nat)
    requires r in s.reqs && s.reqs[r].phase.Done?
    ensures Step(Step(Step(s, Load(r)), LoadOrStore(r)), Add(r)) == s
  {
    hide Exceeded, Booked;
  }

  // A refusal ends the request, and a request that is over stays over.
  lemma RefusalEnds(s: State, r: nat, e: Event)
    requires r in s.reqs
    ensures s.reqs[r].phase.Undoing? ==> r in Step(s, Undo(r)).reqs && Step(s, Undo(r)).reqs[r].phase == Done
    ensures s.reqs[r].phase.Done? ==> r in Step(s, e).reqs && Step(s, e).reqs[r] == s.reqs[r]
  {
    hide Exceeded, Booked;
  }

  // What a running request leaves: one entry of its cost for the day its Record reads, unless
  // the transaction fails, and, if it held a slot, one slot less.
  lemma BillingExactly(s: State, r: nat, cost: real, failed: bool)
    requires CountersSound(s) && r in s.reqs && PhaseSound(s, s.reqs[r]) && s.reqs[r].phase == Running(Upstream)
    ensures var q := s.reqs[r];
            var s2 := Step(Step(s, ReadRecordClock(r, cost)), if failed then RecordFails(r) else Record(r));
            var s' := Step(Step(s2, Finish(r)), Release(r));
            && s'.reqs == s.reqs[r := q.(phase := Done)]
            && s'.ledger == (if failed || cost <= 0.0 then s.ledger else s.ledger + [Entry(q.keyID, s.today, cost)])
            && s'.counters == s.counters
            && (q.keyID in s.counters ==>
                  CountOf(s', s.counters[q.keyID]) == CountOf(s, s.counters[q.keyID]) - if q.limit > 0 then 1 else 0)
  {
    hide Exceeded;
    var q := s.reqs[r];
    var s1 := Step(s, ReadRecordClock(r, cost));
    assert s1 == s.(reqs := s.reqs[r := q.(phase := Running(Timed(s.today, cost)))]);
    var s2 := Step(s1, if failed then RecordFails(r) else Record(r));
    var ledger := if failed || cost <= 0.0 then s.ledger else s.ledger + [Entry(q.keyID, s.today, cost)];
    assert s.ledger + [] == s.ledger;
    assert s2 == s.(reqs := s.reqs[r := q.(phase := Running(Billed))], ledger := ledger);
    hide Step;
    LeavesSlot(s, s2, r, ledger);
  }

  lemma LeavesSlot(s: State, s2: State, r: nat, ledger: seq<Entry>)
    requires r in s.reqs && (s.reqs[r].limit > 0 ==> s.reqs[r].keyID in s.counters)
    requires s2 == s.(reqs := s.reqs[r := s.reqs[r].(phase := Running(Billed))], ledger := ledger)
    ensures var q := s.reqs[r];
            var s' := Step(Step(s2, Finish(r)), Release(r));
            && s'.reqs == s.reqs[r := q.(phase := Done)] && s'.ledger == ledger && s'.counters == s.counters
            && (q.keyID in s.counters ==>
                  CountOf(s', s.counters[q.keyID]) == CountOf(s, s.counters[q.keyID]) - if q.limit > 0 then 1 else 0)
  {
    hide Exceeded, Booked;
  }

  // Three requests for one slot, in given phases.
  function Trio(a: Phase, b: Phase, c: Phase): map<nat, Request> {
    map[0 := Request("k", 1, 0.0, 0.0, 0, a), 1 := Request("k", 1, 0.0, 0.0, 0, b), 2 := Request("k", 1, 0.0, 0.0, 0, c)]
  }

  function Counting(reqs: map<nat, Request>, n: int): State {
    State(0, reqs, map["k" := 0], map[0 := n], 1, [])
  }

  // The first takes the slot and gives it back while the second has yet to undo.
  function UndoRun(): seq<Event> {
    [Arrive(0, "k", 1, 0.0, 0.0), Arrive(1, "k", 1, 0.0, 0.0), Arrive(2, "k", 1, 0.0, 0.0)]
    + ([ReadCheckClock(0), ReadCheckClock(1), ReadCheckClock(2)]
    + ([Allow(0, true), Allow(1, true), Allow(2, true)]
    + ([Load(0), LoadOrStore(0), Load(1), Load(2)]
    + [Add(0), Add(1), Finish(0), Release(0)])))
  }

  lemma UndoRunArrives()
    ensures Exec(INIT, [Arrive(0, "k", 1, 0.0, 0.0), Arrive(1, "k", 1, 0.0, 0.0), Arrive(2, "k", 1, 0.0, 0.0)]) ==
            INIT.(reqs := Trio(Started, Started, Started))
  {
    Exec3(INIT, Arrive(0, "k", 1, 0.0, 0.0), Arrive(1, "k", 1, 0.0, 0.0), Arrive(2, "k", 1, 0.0, 0.0));
  }

  lemma UndoRunChecks()
    ensures Exec(INIT.(reqs := Trio(Started, Started, Started)), [ReadCheckClock(0), ReadCheckClock(1), ReadCheckClock(2)]) ==
            INIT.(reqs := Trio(Passed, Passed, Passed))
    ensures Exec(INIT.(reqs := Trio(Passed, Passed, Passed)), [Allow(0, true), Allow(1, true), Allow(2, true)]) ==
            INIT.(reqs := Trio(Admitted, Admitted, Admitted))
  {
    Exec3(INIT.(reqs := Trio(Started, Started, Started)), ReadCheckClock(0), ReadCheckClock(1), ReadCheckClock(2));
    Exec3(INIT.(reqs := Trio(Passed, Passed, Passed)), Allow(0, true), Allow(1, true), Allow(2, true));
  }

  lemma LocateSteps()
    ensures var none, one := Trio(Missed, Admitted, Admitted), Trio(Located(0), Admitted, Admitted);
            && Step(INIT.(reqs := Trio(Admitted, Admitted, Admitted)), Load(0)) == INIT.(reqs := none)
            && Step(INIT.(reqs := none), LoadOrStore(0)) == Counting(one, 0)
            && Step(Counting(one, 0), Load(1)) == Counting(Trio(Located(0), Located(0), Admitted), 0)
  {
    hide Exceeded, Booked;
  }

  lemma LastLocates()
    ensures Step(Counting(Trio(Located(0), Located(0), Admitted), 0), Load(2)) ==
            Counting(Trio(Located(0), Located(0), Located(0)), 0)
  {
    hide Exceeded, Booked;
  }

  lemma UndoRunLocates()
    ensures Exec(INIT.(reqs := Trio(Admitted, Admitted, Admitted)), [Load(0), LoadOrStore(0), Load(1), Load(2)]) ==
            Counting(Trio(Located(0), Located(0), Located(0)), 0)
  {
    hide Step, Exec, Trio;
    LocateSteps();
    LastLocates();
    Exec4(INIT.(reqs := Trio(Admitted, Admitted, Admitted)), Load(0), LoadOrStore(0), Load(1), Load(2));
  }

  lemma FirstAdds()
    ensures Step(Counting(Trio(Located(0), Located(0), Located(0)), 0), Add(0)) ==
            Counting(Trio(Running(Upstream), Located(0), Located(0)), 1)
  {
    hide Exceeded, Booked;
  }

  lemma SecondAdds()
    ensures Step(Counting(Trio(Running(Upstream), Located(0), Located(0)), 1), Add(1)) ==
            Counting(Trio(Running(Upstream), Undoing(0), Located(0)), 2)
  {
    hide Exceeded, Booked;
  }

  lemma FirstFinishes()
    ensures Step(Counting(Trio(Running(Upstream), Undoing(0), Located(0)), 2), Finish(0)) ==
            Counting(Trio(Releasing(0), Undoing(0), Located(0)), 2)
  {
    hide Exceeded, Booked;
  }

  lemma FirstReleases()
    ensures Step(Counting(Trio(Releasing(0), Undoing(0), Located(0)), 2), Release(0)) ==
            Counting(Trio(Done, Undoing(0), Located(0)), 1)
  {
    hide Exceeded, Booked;
  }

  lemma ThirdRefused()
    ensures Step(Counting(Trio(Done, Undoing(0), Located(0)), 1), Add(2)) ==
            Counting(Trio(Done, Undoing(0), Undoing(0)), 2)
    ensures Holding(Trio(Done, Undoing(0), Located(0)), "k") == {}
  {
    hide Exceeded, Booked;
  }

  lemma UndoRunAdds()
    ensures Exec(Counting(Trio(Located(0), Located(0), Located(0)), 0), [Add(0), Add(1), Finish(0), Release(0)]) ==
            Counting(Trio(Done, Undoing(0), Located(0)), 1)
  {
    hide Step, Exec, Trio;
    FirstAdds();
    SecondAdds();
    FirstFinishes();
    FirstReleases();
    Exec4(Counting(Trio(Located(0), Located(0), Located(0)), 0), Add(0), Add(1), Finish(0), Release(0));
  }

  // So a request can be refused although no slot is held: a pending undo counts.
  lemma PendingUndoRefuses()
    ensures var s := Exec(INIT, UndoRun());
            && s.reqs == Trio(Done, Undoing(0), Located(0)) && Holding(s.reqs, "k") == {}
            && Step(s, Add(2)).reqs == Trio(Done, Undoing(0), Undoing(0))
  {
    hide Step, Exec, Trio, Holding;
    UndoRunArrives();
    UndoRunChecks();
    UndoRunLocates();
    UndoRunAdds();
    ExecSplit(INIT, [Arrive(0, "k", 1, 0.0, 0.0), Arrive(1, "k", 1, 0.0, 0.0), Arrive(2, "k", 1, 0.0, 0.0)],
              [ReadCheckClock(0), ReadCheckClock(1), ReadCheckClock(2)]
              + ([Allow(0, true), Allow(1, true), Allow(2, true)]
              + ([Load(0), LoadOrStore(0), Load(1), Load(2)] + [Add(0), Add(1), Finish(0), Release(0)])));
    ExecSplit(INIT.(reqs := Trio(Started, Started, Started)), [ReadCheckClock(0), ReadCheckClock(1), ReadCheckClock(2)],
              [Allow(0, true), Allow(1, true), Allow(2, true)]
              + ([Load(0), LoadOrStore(0), Load(1), Load(2)] + [Add(0), Add(1), Finish(0), Release(0)]));
    ExecSplit(INIT.(reqs := Trio(Passed, Passed, Passed)), [Allow(0, true), Allow(1, true), Allow(2, true)],
              [Load(0), LoadOrStore(0), Load(1), Load(2)] + [Add(0), Add(1), Finish(0), Release(0)]);
    ExecSplit(INIT.(reqs := Trio(Admitted, Admitted, Admitted)), [Load(0), LoadOrStore(0), Load(1), Load(2)],
              [Add(0), Add(1), Finish(0), Release(0)]);
    ThirdRefused();
  }
}
