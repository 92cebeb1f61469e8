/**
 Throttling of the warning about models missing from the price table: every occurrence
 in the first burst window of a (key, model) pair, then one per steady interval.
 */
module UnknownModels {
  import opened Wrappers

  datatype Pair = Pair(keyID: string, model: string)
  datatype Seen = Seen(firstSeen: int, lastLogged: int)
  datatype Policy = Policy(burstWindow: int, steadyInterval: int)

  const DEFAULT := Policy(60_000_000_000, 60_000_000_000)

  // One occurrence of one pair: its new state and whether to log.
  function Occur(p: Policy, s: Option<Seen>, now: int): (Seen, bool) {
    match s
    case None => (Seen(now, now), true)
    case Some(x) =>
      if now - x.firstSeen <= p.burstWindow then (x.(lastLogged := now), true)
      else if now - x.lastLogged >= p.steadyInterval then (x.(lastLogged := now), true)
      else (x, false)
  }

  class Logger {
    const policy: Policy
    var seen: map<Pair, Seen>

    constructor ()
      ensures policy.burstWindow == policy.steadyInterval == 60_000_000_000 && seen == map[]
    {
      policy := DEFAULT;
      seen := map[];
    }

    function StateOf(k: Pair): Option<Seen>
      reads this
    {
      if k in seen then Some(seen[k]) else None
    }

    method ShouldLog(keyID: string, model: string, now: int) returns (log: bool)
      modifies this
      ensures var k := Pair(keyID, model);
              && (Some(Occur(policy, old(StateOf(k)), now).0), log) == (StateOf(k), Occur(policy, old(StateOf(k)), now).1)
              && forall j :: j != k ==> StateOf(j) == old(StateOf(j))
    {
      var k := Pair(keyID, model);
      if k !in seen {
        seen := seen[k := Seen(now, now)];
        return true;
      }
      var state := seen[k];
      if now - state.firstSeen <= policy.burstWindow {
        seen := seen[k := state.(lastLogged := now)];
        return true;
      }
      if now - state.lastLogged >= policy.steadyInterval {
        seen := seen[k := state.(lastLogged := now)];
        return true;
      }
      return false;
    }
  }

  // ---- Runs ------------------------------------------------------------------------------------

  datatype Call = Call(pair: Pair, now: int)

  function Step(p: Policy, m: map<Pair, Seen>, c: Call): (map<Pair, Seen>, bool) {
    var r := Occur(p, if c.pair in m then Some(m[c.pair]) else None, c.now);
    (m[c.pair := r.0], r.1)
  }

  function After(p: Policy, calls: seq<Call>): map<Pair, Seen> {
    if calls == [] then map[] else Step(p, After(p, calls[..|calls| - 1]), calls[|calls| - 1]).0
  }

  // Whether call `i` is logged.
  predicate Logged(p: Policy, calls: seq<Call>, i: nat)
    requires i < |calls|
  {
    Step(p, After(p, calls[..i]), calls[i]).1
  }

  // The calls of one pair.
  function Only(calls: seq<Call>, k: Pair): seq<Call> {
    if calls == [] then []
    else
      var c := calls[|calls| - 1];
      Only(calls[..|calls| - 1], k) + if c.pair == k then [c] else []
  }

  function Find(m: map<Pair, Seen>, k: Pair): Option<Seen> {
    if k in m then Some(m[k]) else None
  }

  lemma AfterSnoc(p: Policy, calls: seq<Call>, c: Call)
    ensures After(p, calls + [c]) == Step(p, After(p, calls), c).0
  {
    assert (calls + [c])[..|calls|] == calls;
  }

  // Pairs never affect one another: a pair fares as if it were alone.
  lemma {:induction false} PairsAreIndependent(p: Policy, calls: seq<Call>, k: Pair)
    ensures Find(After(p, calls), k) == Find(After(p, Only(calls, k)), k)
  {
    if calls != [] {
      var init, c := calls[..|calls| - 1], calls[|calls| - 1];
      PairsAreIndependent(p, init, k);
      if c.pair == k {
        AfterSnoc(p, Only(init, k), c);
      } else {
        assert Only(init, k) + [] == Only(init, k);
      }
    }
  }

  ghost predicate Ordered(calls: seq<Call>) {
    forall i, j :: 0 <= i < j < |calls| ==> calls[i].now <= calls[j].now
  }

  // Index of the first call of a pair, or the number of calls.
  function First(calls: seq<Call>, k: Pair): (f: nat)
    ensures f <= |calls|
    ensures f < |calls| ==> calls[f].pair == k
    ensures forall i :: 0 <= i < f ==> calls[i].pair != k
  {
    if calls == [] || calls[0].pair == k then 0 else 1 + First(calls[1..], k)
  }

  // Index just past the last logged call of a pair among the first `n`, or 0 if none.
  function LastLog(p: Policy, calls: seq<Call>, k: Pair, n: nat): (l: nat)
    requires n <= |calls|
    ensures l <= n
    ensures l > 0 ==> calls[l - 1].pair == k && Logged(p, calls, l - 1)
    ensures forall i :: l <= i < n && calls[i].pair == k ==> !Logged(p, calls, i)
  {
    if n == 0 then 0
    else if calls[n - 1].pair == k && Logged(p, calls, n - 1) then n
    else LastLog(p, calls, k, n - 1)
  }

  // The stored state is the first sighting and the last log.
  lemma {:induction false} StateIsHistory(p: Policy, calls: seq<Call>, k: Pair, n: nat)
    requires n <= |calls|
    ensures var s := Find(After(p, calls[..n]), k);
            var f := First(calls, k);
            if n <= f then s.None?
            else
              var l := LastLog(p, calls, k, n);
              l > 0 && s == Some(Seen(calls[f].now, calls[l - 1].now))
  {
    hide After, Step, Logged, First;
    if n == 0 {
      NothingSeen(p, calls, k);
    } else {
      StateIsHistory(p, calls, k, n - 1);
      StateStep(p, calls, k, n);
    }
  }

  lemma NothingSeen(p: Policy, calls: seq<Call>, k: Pair)
    ensures Find(After(p, calls[..0]), k) == None
  {
  }

  // What call `n - 1` does to the state of a pair.
  lemma StateStep(p: Policy, calls: seq<Call>, k: Pair, n: nat)
    requires 0 < n <= |calls|
    ensures var c := calls[n - 1];
            var before := Find(After(p, calls[..n - 1]), k);
            && Find(After(p, calls[..n]), k) == (if c.pair == k then Some(Occur(p, before, c.now).0) else before)
            && (c.pair == k ==> Logged(p, calls, n - 1) == Occur(p, before, c.now).1)
  {
    assert calls[..n] == calls[..n - 1] + [calls[n - 1]];
    AfterSnoc(p, calls[..n - 1], calls[n - 1]);
  }

  // Whether a call is logged, from the history alone: always inside the burst window of
  // its pair, and after it when the last log is a steady interval ago.
  lemma LoggedExactly(p: Policy, calls: seq<Call>, i: nat)
    requires i < |calls|
    ensures var k := calls[i].pair;
            var f, l := First(calls, k), LastLog(p, calls, k, i);
            f <= i &&
            if f == i then Logged(p, calls, i)
            else
              && l > 0
              && (Logged(p, calls, i) <==>
                    || calls[i].now - calls[f].now <= p.burstWindow
                    || calls[i].now - calls[l - 1].now >= p.steadyInterval)
  {
    var k := calls[i].pair;
    assert First(calls, k) <= i;
    StateIsHistory(p, calls, k, i);
    StateStep(p, calls, k, i + 1);
    hide After, Step, Logged, First, LastLog;
  }

  // A log line of pair `k` after its burst window.
  ghost predicate LateLog(p: Policy, calls: seq<Call>, k: Pair, i: nat) {
    && i < |calls| && calls[i].pair == k && Logged(p, calls, i)
    && First(calls, k) < i && calls[i].now - calls[First(calls, k)].now > p.burstWindow
  }

  // A late log is a steady interval away from every earlier log of its pair.
  lemma LateLogsAreApart(p: Policy, calls: seq<Call>, k: Pair, i: nat, j: nat)
    requires Ordered(calls) && i < j && LateLog(p, calls, k, j)
    requires calls[i].pair == k && Logged(p, calls, i)
    ensures calls[j].now - calls[i].now >= p.steadyInterval
  {
    LoggedExactly(p, calls, j);
    var l := LastLog(p, calls, k, j);
    assert i <= l - 1;
  }

  // A strictly increasing list of late logs of one pair.
  ghost predicate LateLogs(p: Policy, calls: seq<Call>, k: Pair, at: seq<nat>) {
    && (forall x :: 0 <= x < |at| ==> LateLog(p, calls, k, at[x]))
    && forall x, y :: 0 <= x < y < |at| ==> at[x] < at[y]
  }

  // So n late logs take at least n - 1 steady intervals.
  lemma {:induction false} LateLogsTakeTime(p: Policy, calls: seq<Call>, k: Pair, at: seq<nat>)
    requires Ordered(calls) && p.steadyInterval >= 0 && |at| > 0 && LateLogs(p, calls, k, at)
    ensures calls[at[|at| - 1]].now - calls[at[0]].now >= (|at| - 1) * p.steadyInterval
  {
    if |at| > 1 {
      var init := at[..|at| - 1];
      LateLogsTakeTime(p, calls, k, init);
      var i, j := init[|init| - 1], at[|at| - 1];
      LateLogsAreApart(p, calls, k, i, j);
      assert (|at| - 1) * p.steadyInterval == (|init| - 1) * p.steadyInterval + p.steadyInterval;
    }
  }

  // Late logs within a span number at most the span's steady intervals plus one.
  lemma LateLogsInSpan(p: Policy, calls: seq<Call>, k: Pair, at: seq<nat>, span: nat)
    requires Ordered(calls) && p.steadyInterval > 0 && LateLogs(p, calls, k, at)
    requires |at| > 0 ==> calls[at[|at| - 1]].now - calls[at[0]].now <= span
    ensures |at| <= span / p.steadyInterval + 1
  {
    if |at| > 0 {
      LateLogsTakeTime(p, calls, k, at);
      Quotient(|at| - 1, span, p.steadyInterval);
    }
  }

  lemma Quotient(n: nat, span: nat, d: int)
    requires d > 0 && n * d <= span
    ensures n <= span / d
  {
    var q := span / d;
    assert span < d * (q + 1);
    Cancel(n, q + 1, d);
  }

  lemma Cancel(a: int, b: int, d: int)
    requires d > 0 && a * d < b * d
    ensures a < b
  {
  }
}
