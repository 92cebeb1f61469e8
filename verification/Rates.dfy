/**
 Per-key sliding-window rate limiter.

 Two counters per window stand in for the full log of admitted requests. The
 functions below are the specification of the in-place code in `Memory.Allow`;
 `RatesLog`, `RatesBounds` and `RatesRetry` prove what the limiter promises.
 */
module Rates {

  const SECOND: int := 1_000_000_000
  const MINUTE: int := 60_000_000_000

  // ---- One window ----------------------------------------------------------

  datatype Window = Window(start: int, prev: nat, curr: nat)

  // The window after time `now` has been seen.
  function Advance(w: Window, now: int, size: int): Window
    requires size > 0
  {
    var elapsed := now - w.start;
    if elapsed < size then w
    else Window(now - elapsed % size, if elapsed / size == 1 then w.curr else 0, 0)
  }

  // The dividend is never negative on an advanced window, so Dafny's division
  // and the truncating division of the source agree.
  function Estimate(w: Window, now: int, size: int): int
    requires size > 0
  {
    w.prev * (size - (now - w.start)) / size + w.curr
  }

  function Bump(w: Window): Window {
    w.(curr := w.curr + 1)
  }

  predicate Passes(w: Window, now: int, size: int, limit: int)
    requires size > 0
  {
    Estimate(Advance(w, now, size), now, size) + 1 <= limit
  }

  // ---- One key: a per-second and a per-minute gate ----------------------------

  datatype Gate = PerSecond | PerMinute {
    function Size(): (r: int)
      ensures r == SECOND || r == MINUTE
    {
      if PerSecond? then SECOND else MINUTE
    }
  }

  datatype Call = Call(now: int, rps: int, rpm: int) {
    function Limit(g: Gate): int {
      if g.PerSecond? then rps else rpm
    }
  }

  datatype Key = Key(sec: Window, min: Window) {
    function Win(g: Gate): Window {
      if g.PerSecond? then sec else min
    }
  }

  const FRESH := Key(Window(0, 0, 0), Window(0, 0, 0))

  datatype Decision = Allowed | Limited(seconds: int)

  function Clamp(seconds: int): int {
    if seconds < 1 then 1 else if seconds > 60 then 60 else seconds
  }

  function RetryAfter(w: Window, now: int, size: int): int {
    Clamp((size - (now - w.start)) / SECOND + 1)
  }

  function AllowStep(k: Key, c: Call): (Key, Decision) {
    if c.rps <= 0 && c.rpm <= 0 then (k, Allowed)
    else
      var sec := if c.rps > 0 then Advance(k.sec, c.now, SECOND) else k.sec;
      if c.rps > 0 && Estimate(sec, c.now, SECOND) + 1 > c.rps then
        (Key(sec, k.min), Limited(RetryAfter(sec, c.now, SECOND)))
      else
        var min := if c.rpm > 0 then Advance(k.min, c.now, MINUTE) else k.min;
        if c.rpm > 0 && Estimate(min, c.now, MINUTE) + 1 > c.rpm then
          (Key(sec, min), Limited(RetryAfter(min, c.now, MINUTE)))
        else
          (Key(if c.rps > 0 then Bump(sec) else sec, if c.rpm > 0 then Bump(min) else min), Allowed)
  }

  // The call is let through and counted by gate `g`. A limit of zero switches a gate off.
  predicate Admits(k: Key, c: Call, g: Gate) {
    c.Limit(g) > 0 && AllowStep(k, c).1.Allowed?
  }

  // What one call does to one gate.
  lemma StepGate(k: Key, c: Call, g: Gate)
    ensures var r := AllowStep(k, c);
            var w := k.Win(g);
            var a := Advance(w, c.now, g.Size());
            if c.Limit(g) <= 0 then r.0.Win(g) == w
            else if Admits(k, c, g) then Passes(w, c.now, g.Size(), c.Limit(g)) && r.0.Win(g) == Bump(a)
            else r.0.Win(g) == w || r.0.Win(g) == a
  {
  }

  // ---- Runs ----------------------------------------------------------------

  // State of one key after a sequence of calls.
  function After(calls: seq<Call>): Key {
    if calls == [] then FRESH
    else AllowStep(After(calls[..|calls| - 1]), calls[|calls| - 1]).0
  }

  // Readings of the calls that gate `g` let through while it was on, in lock order.
  function Log(calls: seq<Call>, g: Gate): seq<int> {
    if calls == [] then []
    else
      var init, c := calls[..|calls| - 1], calls[|calls| - 1];
      if Admits(After(init), c, g) then Log(init, g) + [c.now] else Log(init, g)
  }

  // Clock readings in lock order never go back and start at the Unix epoch.
  ghost predicate Ordered(calls: seq<Call>) {
    && (forall i :: 0 <= i < |calls| ==> 0 <= calls[i].now)
    && (forall i, j :: 0 <= i < j < |calls| ==> calls[i].now <= calls[j].now)
  }

  // No call carries a limit on gate `g` above `limit`.
  ghost predicate LimitedBy(calls: seq<Call>, g: Gate, limit: int) {
    forall i :: 0 <= i < |calls| ==> calls[i].Limit(g) <= limit
  }

  function Last(calls: seq<Call>): int {
    if calls == [] then 0 else calls[|calls| - 1].now
  }

  // ---- The in-place limiter --------------------------------------------------

  class WindowCounter {
    var windowStart: int
    var prevCount: nat
    var currCount: nat

    constructor ()
      ensures View() == Window(0, 0, 0)
    {
      windowStart, prevCount, currCount := 0, 0, 0;
    }

    function View(): Window
      reads this
    {
      Window(windowStart, prevCount, currCount)
    }

    method EstimateCount(now: int, windowNS: int) returns (est: int)
      requires windowNS > 0
      modifies this
      ensures View() == Advance(old(View()), now, windowNS)
      ensures est == Estimate(View(), now, windowNS)
    {
      var elapsed := now - windowStart;
      if elapsed >= windowNS {
        var windows := elapsed / windowNS;
        if windows == 1 {
          prevCount := currCount;
        } else {
          prevCount := 0;
        }
        currCount := 0;
        windowStart := now - elapsed % windowNS;
        elapsed := now - windowStart;
      }
      est := prevCount * (windowNS - elapsed) / windowNS + currCount;
    }
  }

  class KeyState {
    const sec: WindowCounter
    const min: WindowCounter

    constructor ()
      ensures fresh(sec) && fresh(min) && sec != min
      ensures View() == FRESH
    {
      sec := new WindowCounter();
      min := new WindowCounter();
    }

    function View(): Key
      reads sec, min
    {
      Key(sec.View(), min.View())
    }

    // The critical section of Allow, entered with the clock reading `now`.
    method Decide(now: int, rpsLimit: int, rpmLimit: int) returns (d: Decision)
      requires sec != min
      requires rpsLimit > 0 || rpmLimit > 0
      modifies sec, min
      ensures (View(), d) == AllowStep(old(View()), Call(now, rpsLimit, rpmLimit))
    {
      if rpsLimit > 0 {
        var est := sec.EstimateCount(now, SECOND);
        if est + 1 > rpsLimit {
          var remaining := SECOND - (now - sec.windowStart);
          return Limited(Clamp(remaining / SECOND + 1));
        }
      }
      if rpmLimit > 0 {
        var est := min.EstimateCount(now, MINUTE);
        if est + 1 > rpmLimit {
          var remaining := MINUTE - (now - min.windowStart);
          return Limited(Clamp(remaining / SECOND + 1));
        }
      }
      if rpsLimit > 0 {
        sec.currCount := sec.currCount + 1;
      }
      if rpmLimit > 0 {
        min.currCount := min.currCount + 1;
      }
      return Allowed;
    }
  }

  class Memory {
    var counters: map<string, KeyState>

    // Different keys own different counters.
    ghost predicate Valid()
      reads this
    {
      && (forall id :: id in counters ==> counters[id].sec != counters[id].min)
      && (forall i, j :: i in counters && j in counters && i != j ==>
            {counters[i].sec, counters[i].min} !! {counters[j].sec, counters[j].min})
    }

    ghost function Footprint(): set<object>
      reads this
    {
      (set id | id in counters :: counters[id].sec) + (set id | id in counters :: counters[id].min)
    }

    ghost function KeyOf(id: string): Key
      reads this, Footprint()
    {
      if id in counters then counters[id].View() else FRESH
    }

    constructor ()
      ensures Valid() && Footprint() == {}
      ensures forall id :: KeyOf(id) == FRESH
    {
      counters := map[];
    }

    method Allow(keyID: string, now: int, rpsLimit: int, rpmLimit: int) returns (d: Decision)
      requires Valid()
      modifies this, Footprint()
      ensures Valid() && fresh(Footprint() - old(Footprint()))
      ensures (KeyOf(keyID), d) == AllowStep(old(KeyOf(keyID)), Call(now, rpsLimit, rpmLimit))
      ensures forall id :: id != keyID ==> KeyOf(id) == old(KeyOf(id))
      ensures rpsLimit <= 0 && rpmLimit <= 0 ==> counters == old(counters)
    {
      if rpsLimit <= 0 && rpmLimit <= 0 {
        return Allowed;
      }
      hide AllowStep;
      LoadOrCreate(keyID);
      label Located:
      d := counters[keyID].Decide(now, rpsLimit, rpmLimit);
      forall id | id != keyID
        ensures KeyOf(id) == old(KeyOf(id))
      {
        if id in counters {
          assert counters[id].View() == old@Located(counters[id].View());
        }
      }
    }

    method LoadOrCreate(keyID: string)
      requires Valid()
      modifies this
      ensures Valid() && fresh(Footprint() - old(Footprint()))
      ensures keyID in counters && forall id :: KeyOf(id) == old(KeyOf(id))
    {
      if keyID !in counters {
        var ks := new KeyState();
        counters := counters[keyID := ks];
      }
    }
  }
}
