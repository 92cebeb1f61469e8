/**
 The spend meter. Both implementations are proved against the ledger of accepted
 Record calls: every bucket is the total of the ledger entries of its period.

 A day is numbered in a calendar where every month has 31 slots, which keeps the
 order of days and makes the month of a day a division.
 */
module Meter {
  import opened Wrappers
  import opened Text
  import opened Timestamps

  type Day = d: int | 0 <= d < 3_720_000
  type Month = m: int | 0 <= m < 120_000

  function MonthIndex(d: Day): Month {
    d / 31
  }

  datatype Period = DayOf(day: Day) | MonthOf(month: Month)

  datatype Entry = Entry(keyID: string, day: Day, cost: real)

  predicate Falls(e: Entry, keyID: string, p: Period) {
    && e.keyID == keyID
    && match p
       case DayOf(d) => e.day == d
       case MonthOf(m) => MonthIndex(e.day) == m
  }

  // Everything the ledger holds for a key in a period.
  function Total(ledger: seq<Entry>, keyID: string, p: Period): real {
    if ledger == [] then 0.0
    else
      var e := ledger[|ledger| - 1];
      Total(ledger[..|ledger| - 1], keyID, p) + if Falls(e, keyID, p) then e.cost else 0.0
  }

  lemma TotalSnoc(ledger: seq<Entry>, e: Entry, keyID: string, p: Period)
    ensures Total(ledger + [e], keyID, p) == Total(ledger, keyID, p) + if Falls(e, keyID, p) then e.cost else 0.0
  {
    assert (ledger + [e])[..|ledger|] == ledger;
  }

  // A Record call of `cost` appends this.
  function Booked(keyID: string, day: Day, cost: real): seq<Entry> {
    if cost <= 0.0 then [] else [Entry(keyID, day, cost)]
  }

  // The verdict of Check.
  predicate Exceeded(ledger: seq<Entry>, keyID: string, day: Day, dailyCap: real, monthCap: real) {
    || (dailyCap > 0.0 && Total(ledger, keyID, DayOf(day)) >= dailyCap)
    || (monthCap > 0.0 && Total(ledger, keyID, MonthOf(MonthIndex(day))) >= monthCap)
  }

  // ---- Conservation ------------------------------------------------------------------

  // Sum of the buckets of the first `n` days of a month.
  function SumDays(ledger: seq<Entry>, keyID: string, m: Month, n: nat): real
    requires n <= 31
  {
    if n == 0 then 0.0
    else SumDays(ledger, keyID, m, n - 1) + Total(ledger, keyID, DayOf(31 * m + n - 1))
  }

  lemma {:induction false} SumDaysSnoc(ledger: seq<Entry>, e: Entry, keyID: string, m: Month, n: nat)
    requires n <= 31
    ensures SumDays(ledger + [e], keyID, m, n) ==
            SumDays(ledger, keyID, m, n) + if e.keyID == keyID && 31 * m <= e.day < 31 * m + n then e.cost else 0.0
  {
    if n > 0 {
      SumDaysSnoc(ledger, e, keyID, m, n - 1);
      TotalSnoc(ledger, e, keyID, DayOf(31 * m + n - 1));
    }
  }

  lemma {:induction false} SumDaysEmpty(keyID: string, m: Month, n: nat)
    requires n <= 31
    ensures SumDays([], keyID, m, n) == 0.0
  {
    if n > 0 {
      SumDaysEmpty(keyID, m, n - 1);
    }
  }

  // A month bucket is the sum of its day buckets.
  lemma {:induction false} SpendConserved(ledger: seq<Entry>, keyID: string, m: Month)
    ensures Total(ledger, keyID, MonthOf(m)) == SumDays(ledger, keyID, m, 31)
  {
    if ledger == [] {
      SumDaysEmpty(keyID, m, 31);
    } else {
      var init, e := ledger[..|ledger| - 1], ledger[|ledger| - 1];
      assert ledger == init + [e];
      SpendConserved(init, keyID, m);
      SumDaysSnoc(init, e, keyID, m, 31);
      TotalSnoc(init, e, keyID, MonthOf(m));
    }
  }

  // ---- Bucket names --------------------------------------------------------------------

  function MonthText(m: Month): (s: string)
    ensures |s| == 7 && '0' <= s[0] <= '9'
  {
    Four(m / 12) + ("-" + Two(m % 12 + 1))
  }

  function PeriodText(p: Period): string {
    match p
    case DayOf(d) => "d:" + (MonthText(MonthIndex(d)) + ("-" + Two(d % 31 + 1)))
    case MonthOf(m) => "m:" + MonthText(m)
  }

  // The map key of the in-memory meter.
  function Compose(keyID: string, p: Period): string {
    keyID + ("|" + PeriodText(p))
  }

  lemma MonthTextInjective(m: Month, n: Month)
    requires MonthText(m) == MonthText(n)
    ensures m == n
  {
    FieldSplit(Four(m / 12), Four(n / 12), "-" + Two(m % 12 + 1), "-" + Two(n % 12 + 1));
    FieldSplit("-", "-", Two(m % 12 + 1), Two(n % 12 + 1));
    FourInjective(m / 12, n / 12);
    TwoInjective(m % 12 + 1, n % 12 + 1);
  }

  lemma PeriodTextInjective(p: Period, q: Period)
    requires PeriodText(p) == PeriodText(q)
    ensures p == q
  {
    assert PeriodText(p)[0] == if p.DayOf? then 'd' else 'm';
    assert PeriodText(q)[0] == if q.DayOf? then 'd' else 'm';
    if p.DayOf? {
      var x, y := MonthText(MonthIndex(p.day)), MonthText(MonthIndex(q.day));
      var u, v := Two(p.day % 31 + 1), Two(q.day % 31 + 1);
      FieldSplit("d:", "d:", x + ("-" + u), y + ("-" + v));
      FieldSplit(x, y, "-" + u, "-" + v);
      FieldSplit("-", "-", u, v);
      MonthTextInjective(MonthIndex(p.day), MonthIndex(q.day));
      TwoInjective(p.day % 31 + 1, q.day % 31 + 1);
    } else {
      FieldSplit("m:", "m:", MonthText(p.month), MonthText(q.month));
      MonthTextInjective(p.month, q.month);
    }
  }

  lemma SameTail(a: string, b: string, x: string, y: string)
    requires a + x == b + y && |x| == |y|
    ensures a == b && x == y
  {
    assert |a| == |b|;
    FieldSplit(a, b, x, y);
  }

  // Ten characters from its end a month key has a bar and a day key has a digit.
  lemma MixedPeriodsDiffer(k: string, d: Day, j: string, m: Month)
    ensures Compose(k, DayOf(d)) != Compose(j, MonthOf(m))
  {
    if Compose(k, DayOf(d)) == Compose(j, MonthOf(m)) {
      DayTail(k, d);
      SameTail(k + "|d:", j, DayDigits(d), "|" + PeriodText(MonthOf(m)));
      assert false;
    }
  }

  function DayDigits(d: Day): (s: string)
    ensures |s| == 10 && '0' <= s[0] <= '9'
  {
    MonthText(MonthIndex(d)) + ("-" + Two(d % 31 + 1))
  }

  lemma DayTail(k: string, d: Day)
    ensures Compose(k, DayOf(d)) == (k + "|d:") + DayDigits(d)
  {
    var x := DayDigits(d);
    assert PeriodText(DayOf(d)) == "d:" + x;
    hide PeriodText, DayDigits, MonthText, Two;
    assert "|" + ("d:" + x) == "|d:" + x;
  }

  // No two (key, period) pairs share a map key, whatever characters the key IDs hold.
  lemma ComposeInjective(k: string, p: Period, j: string, q: Period)
    requires Compose(k, p) == Compose(j, q)
    ensures k == j && p == q
  {
    if p.DayOf? != q.DayOf? {
      if p.DayOf? {
        MixedPeriodsDiffer(k, p.day, j, q.month);
      } else {
        MixedPeriodsDiffer(j, q.day, k, p.month);
      }
      assert false;
    }
    SameTail(k, j, "|" + PeriodText(p), "|" + PeriodText(q));
    FieldSplit("|", "|", PeriodText(p), PeriodText(q));
    PeriodTextInjective(p, q);
  }

  // The sum of `bucket` over the first `n` days of a month.
  function AddDays(bucket: Day -> real, m: Month, n: nat): real
    requires n <= 31
  {
    if n == 0 then 0.0 else AddDays(bucket, m, n - 1) + bucket(31 * m + n - 1)
  }

  lemma {:induction false} SameDays(ledger: seq<Entry>, keyID: string, bucket: Day -> real, m: Month, n: nat)
    requires n <= 31 && forall d: Day :: bucket(d) == Total(ledger, keyID, DayOf(d))
    ensures AddDays(bucket, m, n) == SumDays(ledger, keyID, m, n)
  {
    if n > 0 {
      SameDays(ledger, keyID, bucket, m, n - 1);
    }
  }

  // ---- Days of the calendar ----------------------------------------------------------------

  // The number of the UTC day of an instant.
  function DayOfTime(t: Time): Day {
    31 * (12 * t.year + t.month - 1) + t.day - 1
  }

  // Numbers and dates order alike, and a day's number determines its date.
  lemma DaysInOrder(a: Time, b: Time)
    ensures Before(a, b) ==> DayOfTime(a) <= DayOfTime(b)
    ensures DayOfTime(a) == DayOfTime(b) <==> a.year == b.year && a.month == b.month && a.day == b.day
    ensures MonthIndex(DayOfTime(a)) == MonthIndex(DayOfTime(b)) <==> a.year == b.year && a.month == b.month
  {
    var x, y := 12 * a.year + a.month - 1, 12 * b.year + b.month - 1;
    assert MonthIndex(DayOfTime(a)) == x && MonthIndex(DayOfTime(b)) == y;
  }

  // The bucket names are the date and the month of the instant's own text.
  lemma PeriodsAreDates(t: Time)
    ensures |Format(t)| >= 10
    ensures PeriodText(DayOf(DayOfTime(t))) == "d:" + Format(t)[..10]
    ensures PeriodText(MonthOf(MonthIndex(DayOfTime(t)))) == "m:" + Format(t)[..7]
  {
    var d := DayOfTime(t);
    var m := 12 * t.year + t.month - 1;
    assert MonthIndex(d) == m && d % 31 == t.day - 1 && m / 12 == t.year && m % 12 == t.month - 1;
    var y, mo, da := Four(t.year), Two(t.month), Two(t.day);
    assert MonthText(m) == y + ("-" + mo);
    DateText(t, y, mo, da);
    hide Format, Four, Two;
    assert y + ("-" + mo) + ("-" + da) == Format(t)[..10];
  }

  lemma DateText(t: Time, y: string, mo: string, da: string)
    requires y == Four(t.year) && mo == Two(t.month) && da == Two(t.day)
    ensures |Format(t)| >= 10 && Format(t)[..10] == y + ("-" + mo) + ("-" + da) && Format(t)[..7] == y + ("-" + mo)
  {
    hide Four, Two, ClockText, Fraction;
    var clock := "T" + ClockText(t) + (Fraction(t.nano) + "Z");
    assert Format(t) == y + ("-" + mo) + ("-" + da) + clock;
    assert Format(t) == y + ("-" + mo) + ("-" + da + clock);
  }

  // ---- The in-memory meter -----------------------------------------------------------------

  // Reading an absent map entry gives zero.
  function Lookup<K>(m: map<K, real>, k: K): real {
    if k in m then m[k] else 0.0
  }

  // The stored day buckets of a key.
  function DaysInMap(spend: map<string, real>, keyID: string): Day -> real {
    (d: Day) => Lookup(spend, Compose(keyID, DayOf(d)))
  }

  class MemoryMeter {
    var spend: map<string, real>
    ghost var ledger: seq<Entry>

    ghost predicate Valid()
      reads this
    {
      forall k, p :: Lookup(spend, Compose(k, p)) == Total(ledger, k, p)
    }

    constructor ()
      ensures Valid() && ledger == []
    {
      spend, ledger := map[], [];
    }

    // The stored day buckets of a month add up to its stored month bucket.
    lemma Conserved(k: string, m: Month)
      requires Valid()
      ensures Lookup(spend, Compose(k, MonthOf(m))) ==
              AddDays(DaysInMap(spend, k), m, 31)
    {
      hide Compose, Total, AddDays, SumDays;
      SpendConserved(ledger, k, m);
      SameDays(ledger, k, DaysInMap(spend, k), m, 31);
    }

    method Check(keyID: string, day: Day, dailyCap: real, monthCap: real) returns (exceeded: bool)
      requires Valid()
      ensures exceeded == Exceeded(ledger, keyID, day, dailyCap, monthCap)
    {
      if dailyCap <= 0.0 && monthCap <= 0.0 {
        return false;
      }
      var dayKey, monthKey := Compose(keyID, DayOf(day)), Compose(keyID, MonthOf(MonthIndex(day)));
      if dailyCap > 0.0 && Lookup(spend, dayKey) >= dailyCap {
        return true;
      }
      if monthCap > 0.0 && Lookup(spend, monthKey) >= monthCap {
        return true;
      }
      return false;
    }

    method Record(keyID: string, day: Day, cost: real)
      requires Valid()
      modifies this
      ensures Valid() && ledger == old(ledger) + Booked(keyID, day, cost)
    {
      if cost <= 0.0 {
        return;
      }
      var dayKey, monthKey := Compose(keyID, DayOf(day)), Compose(keyID, MonthOf(MonthIndex(day)));
      MixedPeriodsDiffer(keyID, day, keyID, MonthIndex(day));
      spend := spend[dayKey := Lookup(spend, dayKey) + cost];
      spend := spend[monthKey := Lookup(spend, monthKey) + cost];
      var e := Entry(keyID, day, cost);
      ledger := ledger + [e];
      forall k, p
        ensures Lookup(spend, Compose(k, p)) == Total(ledger, k, p)
      {
        TotalSnoc(old(ledger), e, k, p);
        if Compose(k, p) == dayKey {
          ComposeInjective(k, p, keyID, DayOf(day));
        } else if Compose(k, p) == monthKey {
          ComposeInjective(k, p, keyID, MonthOf(MonthIndex(day)));
        }
        hide Compose, Total;
      }
    }
  }

  // ---- The SQLite meter ------------------------------------------------------------------------

  // Where a Record transaction breaks off, if it does.
  datatype Fault = NoFault | BeginFails | DayUpsertFails | MonthUpsertFails | CommitFails

  // The answer of Check; the proxy lets requests through unless it is Over.
  datatype Verdict = Within | Over | Broken

  function Upsert(t: map<(string, string), real>, row: (string, string), amount: real): map<(string, string), real> {
    t[row := Lookup(t, row) + amount]
  }

  function DaysInTable(table: map<(string, string), real>, keyID: string): Day -> real {
    (d: Day) => Lookup(table, (keyID, PeriodText(DayOf(d))))
  }

  // Every row holds the ledger's total of its key and period.
  ghost predicate Mirrors(table: map<(string, string), real>, ledger: seq<Entry>) {
    forall k, p :: Lookup(table, (k, PeriodText(p))) == Total(ledger, k, p)
  }

  lemma UpsertsMirror(table: map<(string, string), real>, ledger: seq<Entry>, e: Entry)
    requires Mirrors(table, ledger)
    ensures var dayKey, monthKey := PeriodText(DayOf(e.day)), PeriodText(MonthOf(MonthIndex(e.day)));
            Mirrors(Upsert(Upsert(table, (e.keyID, dayKey), e.cost), (e.keyID, monthKey), e.cost), ledger + [e])
  {
    var dayKey, monthKey := PeriodText(DayOf(e.day)), PeriodText(MonthOf(MonthIndex(e.day)));
    var after := Upsert(Upsert(table, (e.keyID, dayKey), e.cost), (e.keyID, monthKey), e.cost);
    assert dayKey[0] != monthKey[0];
    hide PeriodText, Total;
    forall k, p
      ensures Lookup(after, (k, PeriodText(p))) == Total(ledger + [e], k, p)
    {
      TotalSnoc(ledger, e, k, p);
      if PeriodText(p) == dayKey {
        PeriodTextInjective(p, DayOf(e.day));
      } else if PeriodText(p) == monthKey {
        PeriodTextInjective(p, MonthOf(MonthIndex(e.day)));
      }
    }
  }

  class SqliteMeter {
    var table: map<(string, string), real>
    ghost var ledger: seq<Entry>

    ghost predicate Valid()
      reads this
    {
      Mirrors(table, ledger)
    }

    constructor ()
      ensures Valid() && ledger == []
    {
      table, ledger := map[], [];
    }

    // The stored day rows of a month add up to its stored month row.
    lemma Conserved(k: string, m: Month)
      requires Valid()
      ensures Lookup(table, (k, PeriodText(MonthOf(m)))) ==
              AddDays(DaysInTable(table, k), m, 31)
    {
      hide PeriodText, Total, AddDays, SumDays;
      SpendConserved(ledger, k, m);
      SameDays(ledger, k, DaysInTable(table, k), m, 31);
    }

    // Rows of SELECT period, amount ... WHERE key_id = ? AND period IN (?, ?), in any order.
    ghost predicate Selects(rows: seq<(string, real)>, keyID: string, dayKey: string, monthKey: string)
      reads this
    {
      && (forall i :: 0 <= i < |rows| ==>
            && (rows[i].0 == dayKey || rows[i].0 == monthKey)
            && (keyID, rows[i].0) in table && table[(keyID, rows[i].0)] == rows[i].1)
      && ((keyID, dayKey) in table ==> exists i :: 0 <= i < |rows| && rows[i].0 == dayKey)
      && ((keyID, monthKey) in table ==> exists i :: 0 <= i < |rows| && rows[i].0 == monthKey)
    }

    method Query(keyID: string, dayKey: string, monthKey: string) returns (rows: seq<(string, real)>)
      ensures Selects(rows, keyID, dayKey, monthKey)
    {
      var d := if (keyID, dayKey) in table then [(dayKey, table[(keyID, dayKey)])] else [];
      var m := if (keyID, monthKey) in table then [(monthKey, table[(keyID, monthKey)])] else [];
      rows := d + m;
      assert d != [] ==> rows[0].0 == dayKey;
      assert m != [] ==> rows[|d|].0 == monthKey;
    }

    // The row loop of Check.
    method Scan(rows: seq<(string, real)>, keyID: string, dayKey: string, monthKey: string)
      returns (daySpend: real, monthSpend: real)
      requires dayKey != monthKey && Selects(rows, keyID, dayKey, monthKey)
      ensures daySpend == Lookup(table, (keyID, dayKey))
      ensures monthSpend == Lookup(table, (keyID, monthKey))
    {
      daySpend, monthSpend := 0.0, 0.0;
      for i := 0 to |rows|
        invariant (exists j :: 0 <= j < i && rows[j].0 == dayKey) ==> daySpend == Lookup(table, (keyID, dayKey))
        invariant (forall j :: 0 <= j < i ==> rows[j].0 != dayKey) ==> daySpend == 0.0
        invariant (exists j :: 0 <= j < i && rows[j].0 == monthKey) ==> monthSpend == Lookup(table, (keyID, monthKey))
        invariant (forall j :: 0 <= j < i ==> rows[j].0 != monthKey) ==> monthSpend == 0.0
      {
        var (period, amount) := rows[i];
        if period == dayKey {
          daySpend := amount;
        } else if period == monthKey {
          monthSpend := amount;
        }
      }
    }

    // `rows` is absent if the query, a row scan or the iteration fails.
    method Check(keyID: string, day: Day, dailyCap: real, monthCap: real, rows: Option<seq<(string, real)>>)
      returns (r: Verdict)
      requires Valid()
      requires rows.Some? ==>
                 Selects(rows.value, keyID, PeriodText(DayOf(day)), PeriodText(MonthOf(MonthIndex(day))))
      ensures r == if (dailyCap > 0.0 || monthCap > 0.0) && rows.None? then Broken
                   else if Exceeded(ledger, keyID, day, dailyCap, monthCap) then Over
                   else Within
    {
      if dailyCap <= 0.0 && monthCap <= 0.0 {
        return Within;
      }
      if rows.None? {
        return Broken;
      }
      var dayKey, monthKey := PeriodText(DayOf(day)), PeriodText(MonthOf(MonthIndex(day)));
      assert dayKey[0] != monthKey[0];
      hide PeriodText, Total;
      var daySpend, monthSpend := Scan(rows.value, keyID, dayKey, monthKey);
      if dailyCap > 0.0 && daySpend >= dailyCap {
        return Over;
      }
      if monthCap > 0.0 && monthSpend >= monthCap {
        return Over;
      }
      return Within;
    }

    // One transaction: both upserts are committed or neither is.
    method Record(keyID: string, day: Day, cost: real, fault: Fault) returns (ok: bool)
      requires Valid()
      modifies this
      ensures Valid() && ok == (cost <= 0.0 || fault.NoFault?)
      ensures ledger == old(ledger) + if ok then Booked(keyID, day, cost) else []
      ensures !ok ==> table == old(table)
    {
      if cost <= 0.0 {
        return true;
      }
      var dayKey, monthKey := PeriodText(DayOf(day)), PeriodText(MonthOf(MonthIndex(day)));
      if fault.BeginFails? {
        return false;
      }
      var tx := table;
      if fault.DayUpsertFails? {
        return false;
      }
      tx := Upsert(tx, (keyID, dayKey), cost);
      if fault.MonthUpsertFails? {
        return false;
      }
      tx := Upsert(tx, (keyID, monthKey), cost);
      if fault.CommitFails? {
        return false;
      }
      table := tx;
      var e := Entry(keyID, day, cost);
      ledger := ledger + [e];
      UpsertsMirror(old(table), old(ledger), e);
      return true;
    }
  }

  // ---- Both meters on one history -----------------------------------------------------------

  datatype Op =
    | RecordOp(keyID: string, day: Day, cost: real)
    | CheckOp(keyID: string, day: Day, dailyCap: real, monthCap: real)

  function LedgerOf(ops: seq<Op>): seq<Entry> {
    if ops == [] then []
    else
      var o := ops[|ops| - 1];
      LedgerOf(ops[..|ops| - 1]) + if o.RecordOp? then Booked(o.keyID, o.day, o.cost) else []
  }

  // The answers of a history, from its ledger alone.
  function Answers(ops: seq<Op>): seq<bool> {
    if ops == [] then []
    else
      var init, o := ops[..|ops| - 1], ops[|ops| - 1];
      Answers(init) + if o.CheckOp? then [Exceeded(LedgerOf(init), o.keyID, o.day, o.dailyCap, o.monthCap)] else []
  }

  // The two implementations answer every history of calls alike.
  method ReplayBoth(ops: seq<Op>) returns (mem: seq<bool>, sql: seq<bool>)
    ensures mem == sql == Answers(ops)
  {
    mem, sql := [], [];
    var m := new MemoryMeter();
    var s := new SqliteMeter();
    for i := 0 to |ops|
      invariant m.Valid() && s.Valid()
      invariant m.ledger == s.ledger == LedgerOf(ops[..i])
      invariant mem == sql == Answers(ops[..i])
    {
      assert ops[..i + 1][..i] == ops[..i];
      match ops[i] {
        case RecordOp(k, d, c) =>
          m.Record(k, d, c);
          var _ := s.Record(k, d, c, NoFault);
        case CheckOp(k, d, daily, monthly) =>
          var x := m.Check(k, d, daily, monthly);
          var rows := s.Query(k, PeriodText(DayOf(d)), PeriodText(MonthOf(MonthIndex(d))));
          var y := s.Check(k, d, daily, monthly, Some(rows));
          mem, sql := mem + [x], sql + [y.Over?];
      }
    }
    assert ops[..|ops|] == ops;
  }
}
