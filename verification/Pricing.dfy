/**
 Operator pricing overrides: validate, merge over the embedded table, swap in.

 A price table is an object, as maps are in the source, so that leaving the base
 table alone is something to prove.
 */
module Pricing {
  import opened Wrappers

  datatype Price = Price(input: real, output: real)

  type Models = map<string, map<string, Price>>

  datatype Config = Config(version: string, models: Models)

  // ---- What a config file means ------------------------------------------------------------

  function Entries(m: Models, upstream: string): map<string, Price> {
    if upstream in m then m[upstream] else map[]
  }

  // File entries replace or extend those of the base.
  function Merge(base: Models, file: Models): Models {
    map u | u in base.Keys + file.Keys :: Entries(base, u) + Entries(file, u)
  }

  predicate Negative(p: Price) {
    p.input < 0.0 || p.output < 0.0
  }

  ghost predicate Sane(file: Models) {
    forall u, m :: u in file && m in file[u] ==> !Negative(file[u][m])
  }

  ghost predicate Acceptable(c: Config) {
    (c.version == "" || c.version == "1") && Sane(c.models)
  }

  datatype Slot = Slot(upstream: string, model: string)

  // The priced models of a table.
  ghost function Pairs(m: Models): set<Slot> {
    set u, k | u in m && k in m[u] :: Slot(u, k)
  }

  // The models of one upstream.
  ghost function Row(u: string, keys: set<string>): set<Slot> {
    set k | k in keys :: Slot(u, k)
  }

  lemma InPairs(m: Models, x: Slot)
    ensures x in Pairs(m) <==> x.upstream in m && x.model in m[x.upstream]
  {
  }

  lemma InRow(u: string, keys: set<string>, x: Slot)
    ensures x in Row(u, keys) <==> x.upstream == u && x.model in keys
  {
  }

  lemma {:induction false} RowCard(u: string, keys: set<string>)
    ensures |Row(u, keys)| == |keys|
  {
    if keys == {} {
      assert Row(u, keys) == {};
    } else {
      var k :| k in keys;
      RowCard(u, keys - {k});
      assert Row(u, keys) == Row(u, keys - {k}) + {Slot(u, k)};
    }
  }

  // ---- Objects -----------------------------------------------------------------------------

  class Table {
    var prices: map<string, Price>

    constructor (p: map<string, Price>)
      ensures prices == p
    {
      prices := p;
    }
  }

  class Pricer {
    const models: map<string, Table>

    constructor (m: map<string, Table>)
      ensures models == m
    {
      models := m;
    }

    ghost function View(): Models
      reads set u | u in models :: models[u]
    {
      PricesOf(models)
    }

    // The number of priced models.
    method Len() returns (n: nat)
      ensures n == |Pairs(View())|
    {
      n := 0;
      var todo := models.Keys;
      ghost var seen: set<Slot> := {};
      while todo != {}
        invariant todo <= models.Keys
        invariant n == |seen|
        invariant forall x: Slot :: x in seen <==>
                    x.upstream in models && x.upstream !in todo && x.model in models[x.upstream].prices
        decreases todo
      {
        var u :| u in todo;
        todo := todo - {u};
        var t := models[u];
        n := n + |t.prices|;
        ghost var row := Row(u, t.prices.Keys);
        RowCard(u, t.prices.Keys);
        assert row !! seen;
        assert |seen + row| == |seen| + |row|;
        seen := seen + row;
      }
      forall x: Slot
        ensures x in seen <==> x in Pairs(View())
      {
        InPairs(View(), x);
      }
      assert seen == Pairs(View());
    }
  }

  // ---- Loading ---------------------------------------------------------------------------------

  // All or nothing: one negative price rejects the file.
  method Validate(file: Models) returns (ok: bool)
    ensures ok <==> Sane(file)
  {
    var us := file.Keys;
    while us != {}
      invariant us <= file.Keys
      invariant forall u, m :: u in file && u !in us && m in file[u] ==> !Negative(file[u][m])
      decreases us
    {
      var u :| u in us;
      us := us - {u};
      var ms := file[u].Keys;
      while ms != {}
        invariant ms <= file[u].Keys
        invariant forall m :: m in file[u] && m !in ms ==> !Negative(file[u][m])
        decreases ms
      {
        var m :| m in ms;
        ms := ms - {m};
        if file[u][m].input < 0.0 || file[u][m].output < 0.0 {
          return false;
        }
      }
    }
    return true;
  }

  // A table object for every upstream, each its own.
  ghost predicate Separate(ts: map<string, Table>) {
    forall u, v :: u in ts && v in ts && u != v ==> ts[u] != ts[v]
  }

  method CopyTables(base: map<string, Table>) returns (merged: map<string, Table>)
    ensures merged.Keys == base.Keys && Separate(merged)
    ensures forall u :: u in merged ==> fresh(merged[u])
    ensures PricesOf(merged) == PricesOf(base)
  {
    merged := map[];
    var todo := base.Keys;
    while todo != {}
      invariant todo <= base.Keys && merged.Keys == base.Keys - todo && Separate(merged)
      invariant forall u :: u in merged ==> fresh(merged[u]) && merged[u].prices == base[u].prices
      decreases todo
    {
      var u :| u in todo;
      todo := todo - {u};
      var dup := new Table(base[u].prices);
      merged := merged[u := dup];
    }
  }

  ghost function Part(entries: map<string, Price>, done: set<string>): map<string, Price> {
    map m | m in entries && m in done :: entries[m]
  }

  // How many of `keys` are in `before`, and how many are not.
  ghost function Hits(keys: set<string>, before: set<string>): nat {
    |keys * before|
  }

  ghost function Misses(keys: set<string>, before: set<string>): nat {
    |keys - before|
  }

  // The inner merge loop: writes the entries of one upstream, counting them.
  method Override(base: map<string, Price>, entries: map<string, Price>)
    returns (prices: map<string, Price>, overridden: nat, added: nat)
    ensures prices == base + entries
    ensures overridden == Hits(entries.Keys, base.Keys) && added == Misses(entries.Keys, base.Keys)
  {
    hide Part, Hits, Misses;
    prices, overridden, added := base, 0, 0;
    var todo := entries.Keys;
    ghost var done: set<string> := {};
    PartStart(base, entries);
    while todo != {}
      invariant done == entries.Keys - todo && todo <= entries.Keys
      invariant prices == base + Part(entries, done)
      invariant overridden == Hits(done, base.Keys) && added == Misses(done, base.Keys)
      decreases todo
    {
      var m :| m in todo;
      CountNext(done, base.Keys, m);
      PartNext(base, entries, done, m);
      if m in prices {
        overridden := overridden + 1;
      } else {
        added := added + 1;
      }
      prices := prices[m := entries[m]];
      todo, done := todo - {m}, done + {m};
    }
    assert done == entries.Keys;
    PartAll(entries);
  }

  lemma PartStart(base: map<string, Price>, entries: map<string, Price>)
    ensures base == base + Part(entries, {})
    ensures Hits({}, base.Keys) == 0 && Misses({}, base.Keys) == 0
  {
    assert {} * base.Keys == {} && {} - base.Keys == {};
  }

  lemma PartNext(base: map<string, Price>, entries: map<string, Price>, done: set<string>, m: string)
    requires m in entries && m !in done
    ensures m in base + Part(entries, done) <==> m in base
    ensures (base + Part(entries, done))[m := entries[m]] == base + Part(entries, done + {m})
  {
  }

  lemma PartAll(entries: map<string, Price>)
    ensures Part(entries, entries.Keys) == entries
  {
  }

  lemma CountNext(done: set<string>, before: set<string>, m: string)
    requires m !in done
    ensures Hits(done + {m}, before) == Hits(done, before) + if m in before then 1 else 0
    ensures Misses(done + {m}, before) == Misses(done, before) + if m in before then 0 else 1
  {
    if m in before {
      assert (done + {m}) * before == done * before + {m};
      assert (done + {m}) - before == done - before;
    } else {
      assert (done + {m}) * before == done * before;
      assert (done + {m}) - before == (done - before) + {m};
    }
  }

  // File entries that are new, and file entries that replace one of the base.
  ghost function Added(base: Models, file: Models): nat {
    |Pairs(file) - Pairs(base)|
  }

  ghost function Overridden(base: Models, file: Models): nat {
    |Pairs(file) * Pairs(base)|
  }

  // The entries of the file for upstreams outside `todo`.
  ghost function Handled(file: Models, todo: set<string>): Models {
    map u | u in file && u !in todo :: file[u]
  }

  lemma HandledNext(base: Models, file: Models, todo: set<string>, u: string)
    requires u in todo && u in file
    ensures Added(base, Handled(file, todo - {u})) ==
            Added(base, Handled(file, todo)) + Misses(file[u].Keys, Entries(base, u).Keys)
    ensures Overridden(base, Handled(file, todo - {u})) ==
            Overridden(base, Handled(file, todo)) + Hits(file[u].Keys, Entries(base, u).Keys)
  {
    var a, b, p := Pairs(Handled(file, todo)), Pairs(Handled(file, todo - {u})), Pairs(base);
    var news, olds := file[u].Keys - Entries(base, u).Keys, file[u].Keys * Entries(base, u).Keys;
    forall x: Slot
      ensures x in b - p <==> x in a - p || x in Row(u, news)
      ensures x in b * p <==> x in a * p || x in Row(u, olds)
      ensures x in a ==> x !in Row(u, news) && x !in Row(u, olds)
    {
      InPairs(Handled(file, todo), x);
      InPairs(Handled(file, todo - {u}), x);
      InPairs(base, x);
      InRow(u, news, x);
      InRow(u, olds, x);
    }
    RowCard(u, news);
    RowCard(u, olds);
    hide Pairs, Row, Handled, Entries;
    DisjointUnion(b - p, a - p, Row(u, news));
    DisjointUnion(b * p, a * p, Row(u, olds));
  }

  lemma DisjointUnion(whole: set<Slot>, a: set<Slot>, b: set<Slot>)
    requires forall x: Slot :: x in whole <==> x in a || x in b
    requires forall x: Slot :: x in a ==> x !in b
    ensures |whole| == |a| + |b|
  {
    assert whole == a + b && a !! b;
  }

  ghost function PricesOf(ts: map<string, Table>): Models
    reads set u | u in ts :: ts[u]
  {
    map u | u in ts :: ts[u].prices
  }

  // Starts an empty table for an upstream that has none.
  method EnsureTable(tables: map<string, Table>, u: string, ghost own: set<Table>)
    returns (merged: map<string, Table>, ghost own': set<Table>)
    requires Separate(tables) && forall v :: v in tables ==> tables[v] in own
    ensures Separate(merged) && (forall v :: v in merged ==> merged[v] in own') && fresh(own' - own) && own <= own'
    ensures u in merged && PricesOf(merged) == PricesOf(tables)[u := Entries(PricesOf(tables), u)]
  {
    merged, own' := tables, own;
    if u !in merged {
      var t := new Table(map[]);
      merged := merged[u := t];
      own' := own' + {t};
    }
  }

  lemma PricesAt(tables: map<string, Table>, u: string)
    requires u in tables
    ensures u in PricesOf(tables) && PricesOf(tables)[u] == tables[u].prices
  {
  }

  // Writing one table of several separate ones.
  method SetPrices(tables: map<string, Table>, u: string, prices: map<string, Price>)
    requires Separate(tables) && u in tables
    modifies tables[u]
    ensures PricesOf(tables) == old(PricesOf(tables))[u := prices]
  {
    tables[u].prices := prices;
    assert forall v :: v in tables && v != u ==> tables[v].prices == old(tables[v].prices);
  }

  // The merge of one upstream, in its own table.
  method OverrideOne(tables: map<string, Table>, u: string, entries: map<string, Price>, ghost own: set<Table>)
    returns (merged: map<string, Table>, ghost own': set<Table>, overridden: nat, added: nat)
    requires Separate(tables) && forall v :: v in tables ==> tables[v] in own
    modifies own
    ensures Separate(merged) && (forall v :: v in merged ==> merged[v] in own') && fresh(own' - own) && own <= own'
    ensures PricesOf(merged) == old(PricesOf(tables))[u := old(Entries(PricesOf(tables), u)) + entries]
    ensures var before := old(Entries(PricesOf(tables), u)).Keys;
            overridden == Hits(entries.Keys, before) && added == Misses(entries.Keys, before)
  {
    hide Hits, Misses, Entries, PricesOf;
    merged, own' := EnsureTable(tables, u, own);
    var was := merged[u].prices;
    PricesAt(merged, u);
    var prices;
    prices, overridden, added := Override(was, entries);
    SetPrices(merged, u, prices);
  }

  // `base` with the file's entries for the upstreams outside `todo` merged in.
  ghost function MergedBut(base: Models, file: Models, todo: set<string>): Models {
    Merge(base, Handled(file, todo))
  }

  lemma MergeNext(base: Models, file: Models, todo: set<string>, u: string)
    requires u in todo && u in file
    ensures Entries(MergedBut(base, file, todo), u) == Entries(base, u)
    ensures MergedBut(base, file, todo)[u := Entries(base, u) + file[u]] == MergedBut(base, file, todo - {u})
  {
  }

  // The outer merge loop, on tables that no one else holds.
  method OverrideAll(tables: map<string, Table>, file: Models, ghost own: set<Table>)
    returns (merged: map<string, Table>, ghost own': set<Table>, overridden: nat, added: nat)
    requires Separate(tables) && forall v :: v in tables ==> tables[v] in own
    modifies own
    ensures (forall v :: v in merged ==> merged[v] in own') && fresh(own' - own)
    ensures PricesOf(merged) == Merge(old(PricesOf(tables)), file)
    ensures overridden == Overridden(old(PricesOf(tables)), file) && added == Added(old(PricesOf(tables)), file)
  {
    hide Handled, MergedBut, Added, Overridden, Hits, Misses, Merge, PricesOf, Entries;
    merged, own', overridden, added := tables, own, 0, 0;
    ghost var base := PricesOf(tables);
    var todo := file.Keys;
    NothingHandled(base, file);
    while todo != {}
      invariant todo <= file.Keys && Separate(merged)
      invariant (forall v :: v in merged ==> merged[v] in own') && fresh(own' - own) && own <= own'
      invariant PricesOf(merged) == MergedBut(base, file, todo)
      invariant overridden == Overridden(base, Handled(file, todo))
      invariant added == Added(base, Handled(file, todo))
      decreases todo
    {
      var u :| u in todo;
      HandledNext(base, file, todo, u);
      MergeNext(base, file, todo, u);
      var o, a;
      merged, own', o, a := OverrideOne(merged, u, file[u], own');
      overridden, added := overridden + o, added + a;
      todo := todo - {u};
    }
    AllHandled(base, file);
  }

  lemma NothingHandled(base: Models, file: Models)
    ensures Added(base, Handled(file, file.Keys)) == 0 && Overridden(base, Handled(file, file.Keys)) == 0
    ensures MergedBut(base, file, file.Keys) == base
  {
    assert Handled(file, file.Keys) == map[];
    assert Pairs(map[]) == {};
    assert {} - Pairs(base) == {} && {} * Pairs(base) == {};
    forall u | u in base
      ensures Merge(base, map[])[u] == base[u]
    {
      assert base[u] + map[] == base[u];
    }
    assert Merge(base, map[]) == base;
  }

  lemma AllHandled(base: Models, file: Models)
    ensures Handled(file, {}) == file && MergedBut(base, file, {}) == Merge(base, file)
  {
    assert Handled(file, {}) == file;
  }

  datatype LoadResult = Loaded(next: Pricer, overridden: nat, added: nat) | Unchanged(base: Pricer) | Bad

  // Reads and merges one version of the file; `parsed` is absent if it cannot be read or
  // is not JSON. The base pricer is never written.
  method LoadConfigFile(blankPath: bool, base: Pricer, parsed: Option<Config>) returns (r: LoadResult)
    ensures blankPath ==> r == Unchanged(base)
    ensures !blankPath ==> (r.Loaded? <==> parsed.Some? && Acceptable(parsed.value)) && !r.Unchanged?
    ensures r.Loaded? ==>
              && fresh(r.next) && (forall u :: u in r.next.models ==> fresh(r.next.models[u]))
              && r.next.View() == Merge(base.View(), parsed.value.models)
              && r.added == Added(base.View(), parsed.value.models)
              && r.overridden == Overridden(base.View(), parsed.value.models)
  {
    hide Added, Overridden, Sane, PricesOf, Merge;
    if blankPath {
      return Unchanged(base);
    }
    if parsed.None? {
      return Bad;
    }
    var file := parsed.value;
    if file.version != "" && file.version != "1" {
      return Bad;
    }
    var ok := Validate(file.models);
    if !ok {
      return Bad;
    }
    var copies := CopyTables(base.models);
    ghost var own := set u | u in copies :: copies[u];
    var merged, _, overridden, added := OverrideAll(copies, file.models, own);
    var next := new Pricer(merged);
    return Loaded(next, overridden, added);
  }

  // Which files are acceptable, price by price: zero is, anything below is not.
  lemma AcceptableExactly(c: Config)
    ensures Acceptable(c) <==>
            && (c.version == "" || c.version == "1")
            && forall u, m :: u in c.models && m in c.models[u] ==>
                 c.models[u][m].input >= 0.0 && c.models[u][m].output >= 0.0
  {
  }

  // ---- Facts about merging ------------------------------------------------------------------------

  // Every pair is priced by the file if the file has it, and by the base otherwise.
  lemma MergeLooksUp(base: Models, file: Models, u: string, m: string)
    ensures Slot(u, m) in Pairs(Merge(base, file)) <==> Slot(u, m) in Pairs(base) || Slot(u, m) in Pairs(file)
    ensures Slot(u, m) in Pairs(file) ==> Merge(base, file)[u][m] == file[u][m]
    ensures Slot(u, m) in Pairs(base) && Slot(u, m) !in Pairs(file) ==> Merge(base, file)[u][m] == base[u][m]
  {
    InPairs(base, Slot(u, m));
    InPairs(file, Slot(u, m));
    InPairs(Merge(base, file), Slot(u, m));
    hide Pairs;
  }

  // The merged table is the base plus the added entries.
  lemma MergedSize(base: Models, file: Models)
    ensures |Pairs(Merge(base, file))| == |Pairs(base)| + Added(base, file)
  {
    hide Pairs, Merge;
    forall x: Slot
      ensures x in Pairs(Merge(base, file)) <==> x in Pairs(base) || x in Pairs(file) - Pairs(base)
    {
      MergeLooksUp(base, file, x.upstream, x.model);
    }
    DisjointUnion(Pairs(Merge(base, file)), Pairs(base), Pairs(file) - Pairs(base));
  }
}

/** Reloads by signal and by polling, freely interleaved with readers. */
module PricingReload {
  import opened Wrappers
  import opened Pricing

  // What a reload of one file version installs, if anything.
  ghost function Outcome(base: Models, file: Option<Config>): Option<Models> {
    if file.Some? && Acceptable(file.value) then Some(Merge(base, file.value.models)) else None
  }

  // What a reader finds: prices, the file version they come from, and the number of the read
  // that fetched it.
  datatype Snapshot = Snapshot(prices: Models, source: Option<Config>, read: int)

  // `written` remembers every version the file has had; `loading` holds what each reload
  // in flight has read and merged but not yet swapped in; `fetched` counts those reads.
  datatype State = State(
    base: Models,
    holder: Snapshot,
    file: Option<Config>,
    written: set<Option<Config>>,
    lastMod: Option<int>,
    loading: map<nat, Snapshot>,
    fetched: nat)

  datatype Event =
    | WriteFile(file: Option<Config>)
    | Hangup(thread: nat)                       // SIGHUP: read the file
    | Tick(thread: nat, modTime: Option<int>)   // poll: stat, then maybe read
    | Swap(thread: nat)

  ghost function Begin(s: State, thread: nat): State {
    var next := Outcome(s.base, s.file);
    if thread in s.loading || next.None? then s
    else s.(loading := s.loading[thread := Snapshot(next.value, s.file, s.fetched)], fetched := s.fetched + 1)
  }

  ghost function Step(s: State, e: Event): State {
    match e
    case WriteFile(f) => s.(file := f, written := s.written + {f})
    case Hangup(t) => Begin(s, t)
    case Tick(t, m) =>
      if t in s.loading || m.None? || m == s.lastMod then s else Begin(s.(lastMod := m), t)
    case Swap(t) =>
      if t in s.loading then s.(holder := s.loading[t], loading := s.loading - {t}) else s
  }

  ghost function Exec(s: State, es: seq<Event>): State
    decreases es
  {
    if es == [] then s else Exec(Step(s, es[0]), es[1..])
  }

  // The snapshot is the base overridden by one single file version.
  ghost predicate FromOneFile(base: Models, written: set<Option<Config>>, x: Snapshot) {
    x.source in written && Outcome(base, x.source) == Some(x.prices)
  }

  ghost predicate Inv(s: State, initial: Snapshot) {
    && s.file in s.written
    && (s.holder == initial || FromOneFile(s.base, s.written, s.holder))
    && (forall t :: t in s.loading ==> FromOneFile(s.base, s.written, s.loading[t]) && s.loading[t].read < s.fetched)
    && (forall t, u :: t in s.loading && u in s.loading && s.loading[t].read == s.loading[u].read ==> t == u)
  }

  lemma StepKeepsInv(s: State, e: Event, initial: Snapshot)
    requires Inv(s, initial)
    ensures Inv(Step(s, e), initial) && Step(s, e).base == s.base
    ensures s.written <= Step(s, e).written && s.fetched <= Step(s, e).fetched
  {
    hide Outcome;
  }

  // Under any interleaving of signal and poll reloads every reader sees the initial prices
  // or the base overridden by one version of the file, never a mix.
  lemma {:induction false} SnapshotConsistency(s: State, es: seq<Event>, initial: Snapshot)
    requires Inv(s, initial)
    ensures Inv(Exec(s, es), initial) && Exec(s, es).base == s.base && s.fetched <= Exec(s, es).fetched
    decreases es
  {
    if es != [] {
      StepKeepsInv(s, es[0], initial);
      hide Step, Inv;
      SnapshotConsistency(Step(s, es[0]), es[1..], initial);
    }
  }

  lemma BadFileChangesNothing(s: State, e: Event)
    requires (s.file.None? || !Acceptable(s.file.value)) && !e.WriteFile?
    ensures var s' := Step(s, e);
            && s'.file == s.file && s'.fetched == s.fetched
            && if e.Swap? && e.thread in s.loading then
                 s'.holder == s.loading[e.thread] && s'.loading == s.loading - {e.thread}
               else s'.holder == s.holder && s'.loading == s.loading
  {
  }

  // While the file has a negative price, an unknown version number or no JSON, no reload
  // fetches anything: the prices stay, but for reloads that were in flight before.
  lemma {:induction false} BadFileInstallsNothing(s: State, es: seq<Event>)
    requires s.file.None? || !Acceptable(s.file.value)
    requires forall i :: 0 <= i < |es| ==> !es[i].WriteFile?
    ensures Exec(s, es).fetched == s.fetched
    ensures Exec(s, es).holder == s.holder || exists t :: t in s.loading && Exec(s, es).holder == s.loading[t]
    decreases es
  {
    if es != [] {
      var s' := Step(s, es[0]);
      BadFileChangesNothing(s, es[0]);
      hide Step, Acceptable;
      BadFileInstallsNothing(s', es[1..]);
      if Exec(s', es[1..]).holder != s'.holder {
        var t :| t in s'.loading && Exec(s', es[1..]).holder == s'.loading[t];
        assert t in s.loading && s.loading[t] == s'.loading[t];
      }
    }
  }

  // Readers always find non-negative prices, if the base and initial prices are.
  lemma SnapshotsAreSane(s: State, es: seq<Event>, initial: Snapshot)
    requires Inv(s, initial) && Sane(initial.prices) && Sane(s.base)
    ensures Sane(Exec(s, es).holder.prices)
  {
    SnapshotConsistency(s, es, initial);
    var s' := Exec(s, es);
    if s'.holder != initial {
      var prices := s'.holder.prices;
      forall u, m | u in prices && m in prices[u]
        ensures !Negative(prices[u][m])
      {
        MergeLooksUp(s'.base, s'.holder.source.value.models, u, m);
      }
    }
  }

  // ---- Which version stays ---------------------------------------------------------------------------

  // Without new reads and once all reloads are done, the holder keeps what it had, or what
  // one of the reloads in flight had read.
  lemma {:induction false} Settled(s: State, es: seq<Event>, initial: Snapshot)
    requires Inv(s, initial) && Exec(s, es).loading == map[] && Exec(s, es).fetched == s.fetched
    ensures if s.loading == map[] then Exec(s, es).holder == s.holder
            else exists t :: t in s.loading && Exec(s, es).holder == s.loading[t]
    decreases es
  {
    if es != [] {
      var s' := Step(s, es[0]);
      StepKeepsInv(s, es[0], initial);
      SnapshotConsistency(s', es[1..], initial);
      QuietStep(s, es[0]);
      hide Step, Inv;
      Settled(s', es[1..], initial);
      if s'.loading != map[] {
        var t :| t in s'.loading && Exec(s', es[1..]).holder == s'.loading[t];
        assert t in s.loading && s.loading[t] == s'.loading[t];
      }
    }
  }

  // A step that reads nothing new leaves holder and reloads alone, or is a swap.
  lemma QuietStep(s: State, e: Event)
    requires Step(s, e).fetched == s.fetched
    ensures var s' := Step(s, e);
            if e.Swap? && e.thread in s.loading then
              s'.holder == s.loading[e.thread] && s'.loading == s.loading - {e.thread}
            else s'.holder == s.holder && s'.loading == s.loading
  {
  }

  // When the newest version read is the one that stays: the reload that read last swaps
  // at `s`; nothing is read afterwards, and all reloads finish. Its prices stay if and only
  // if no other reload was in flight at its swap. They are then those of the file, if that
  // has not been written since the read.
  lemma NewestReadStays(s: State, thread: nat, es: seq<Event>, initial: Snapshot)
    requires Inv(s, initial) && thread in s.loading && s.loading[thread].read == s.fetched - 1
    requires var s' := Exec(Step(s, Swap(thread)), es); s'.loading == map[] && s'.fetched == s.fetched
    ensures var s' := Exec(Step(s, Swap(thread)), es);
            && (s'.holder == s.loading[thread] <==> s.loading.Keys == {thread})
            && (s.loading.Keys == {thread} && s.loading[thread].source == s'.file ==>
                  Outcome(s'.base, s'.file) == Some(s'.holder.prices))
  {
    var now := Step(s, Swap(thread));
    StepKeepsInv(s, Swap(thread), initial);
    SnapshotConsistency(now, es, initial);
    Settled(now, es, initial);
    if now.loading == map[] {
      assert forall x :: x in s.loading && x != thread ==> x in now.loading;
      assert s.loading.Keys == {thread};
    } else {
      var t :| t in now.loading && Exec(now, es).holder == now.loading[t];
      assert t in s.loading && t != thread;
    }
  }

  // A reload overtaken by a newer one can swap last. The older version then stays, and
  // polling does not repair it, for the modification time of the newer one is on record.
  lemma OvertakenReloadStays(s: State, newer: Config, m: int, ticks: seq<Event>)
    requires s.loading == map[] && s.lastMod != Some(m)
    requires s.file.Some? && Acceptable(s.file.value) && Acceptable(newer)
    requires forall i :: 0 <= i < |ticks| ==> ticks[i].Tick? && ticks[i].modTime == Some(m)
    ensures var es := [Hangup(1), WriteFile(Some(newer)), Tick(2, Some(m)), Swap(2), Swap(1)] + ticks;
            var s' := Exec(s, es);
            s'.file == Some(newer) && s'.holder.source == s.file && s'.loading == map[]
  {
    hide Step, Acceptable, Merge;
    OvertakenSteps(s, newer, m);
    var s4 := Step(Step(Step(Step(s, Hangup(1)), WriteFile(Some(newer))), Tick(2, Some(m))), Swap(2));
    IdleTicks(Step(s4, Swap(1)), ticks);
    FiveSteps(s, Hangup(1), WriteFile(Some(newer)), Tick(2, Some(m)), Swap(2), Swap(1), ticks);
  }

  lemma OvertakenSteps(s: State, newer: Config, m: int)
    requires s.loading == map[] && s.lastMod != Some(m)
    requires s.file.Some? && Acceptable(s.file.value) && Acceptable(newer)
    ensures var s4 := Step(Step(Step(Step(s, Hangup(1)), WriteFile(Some(newer))), Tick(2, Some(m))), Swap(2));
            var s5 := Step(s4, Swap(1));
            && s5.file == Some(newer) && s5.holder.source == s.file && s5.loading == map[] && s5.lastMod == Some(m)
  {
    hide Acceptable, Merge;
    var old', new' := Outcome(s.base, s.file).value, Outcome(s.base, Some(newer)).value;
    var s1 := Step(s, Hangup(1));
    assert s1 == s.(loading := map[1 := Snapshot(old', s.file, s.fetched)], fetched := s.fetched + 1);
    var s3 := Step(Step(s1, WriteFile(Some(newer))), Tick(2, Some(m)));
    assert s3.loading == s1.loading[2 := Snapshot(new', Some(newer), s.fetched + 1)];
    hide Outcome;
  }

  lemma FiveSteps(s: State, a: Event, b: Event, c: Event, d: Event, e: Event, es: seq<Event>)
    ensures Exec(s, [a, b, c, d, e] + es) == Exec(Step(Step(Step(Step(Step(s, a), b), c), d), e), es)
  {
    hide Step;
    Unfold(s, a, [b, c, d, e] + es);
    Unfold(Step(s, a), b, [c, d, e] + es);
    Unfold(Step(Step(s, a), b), c, [d, e] + es);
    Unfold(Step(Step(Step(s, a), b), c), d, [e] + es);
    Unfold(Step(Step(Step(Step(s, a), b), c), d), e, es);
    hide Exec;
    assert [a, b, c, d, e] + es == [a] + ([b, c, d, e] + es);
    assert [b, c, d, e] + es == [b] + ([c, d, e] + es);
    assert [c, d, e] + es == [c] + ([d, e] + es);
    assert [d, e] + es == [d] + ([e] + es);
  }

  lemma Unfold(s: State, e: Event, es: seq<Event>)
    ensures Exec(s, [e] + es) == Exec(Step(s, e), es)
  {
    assert ([e] + es)[1..] == es;
  }

  lemma {:induction false} IdleTicks(s: State, ticks: seq<Event>)
    requires forall i :: 0 <= i < |ticks| ==> ticks[i].Tick? && ticks[i].modTime == s.lastMod
    ensures Exec(s, ticks) == s
    decreases ticks
  {
    if ticks != [] {
      IdleTicks(s, ticks[1..]);
    }
  }

  // ---- The reload call and the poll loop -------------------------------------------------------------

  class Holder {
    var current: Pricer

    constructor (initial: Pricer)
      ensures current == initial
    {
      current := initial;
    }
  }

  method TryReload(blankPath: bool, base: Pricer, parsed: Option<Config>, holder: Holder) returns (ok: bool)
    modifies holder
    ensures ok <==> blankPath || (parsed.Some? && Acceptable(parsed.value))
    ensures !ok ==> holder.current == old(holder.current)
    ensures ok && blankPath ==> holder.current == base
    ensures ok && !blankPath ==> fresh(holder.current) && Some(holder.current.View()) == Outcome(base.View(), parsed)
  {
    var r := LoadConfigFile(blankPath, base, parsed);
    match r {
      case Bad => return false;
      case Unchanged(b) => holder.current := b;
      case Loaded(next, _, _) => holder.current := next;
    }
    return true;
  }

  // The last successful stat before tick `i`; the seed counts as one.
  function LastSeen(seed: Option<int>, stats: seq<Option<int>>, i: nat): Option<int>
    requires i <= |stats|
  {
    if i == 0 then seed else if stats[i - 1].Some? then stats[i - 1] else LastSeen(seed, stats, i - 1)
  }

  // A tick reloads exactly when its stat succeeds and differs from the last one that did.
  method PollLoop(seed: Option<int>, stats: seq<Option<int>>) returns (reloads: seq<bool>)
    ensures |reloads| == |stats|
    ensures forall i :: 0 <= i < |stats| ==> (reloads[i] <==> stats[i].Some? && stats[i] != LastSeen(seed, stats, i))
  {
    reloads := [];
    var lastModTime := seed;
    for i := 0 to |stats|
      invariant |reloads| == i && lastModTime == LastSeen(seed, stats, i)
      invariant forall j :: 0 <= j < i ==> (reloads[j] <==> stats[j].Some? && stats[j] != LastSeen(seed, stats, j))
    {
      if stats[i].None? || stats[i] == lastModTime {
        reloads := reloads + [false];
        continue;
      }
      lastModTime := stats[i];
      reloads := reloads + [true];
    }
  }
}
