/** Pricing a response: the table lookup, its fallback for dated model names, the bill. */
module PricingCost {
  import opened Wrappers
  import opened Pricing
  import opened PricingReload

  // ---- Dated names ---------------------------------------------------------------------------

  predicate AllDigits(s: string) {
    forall i :: 0 <= i < |s| ==> '0' <= s[i] <= '9'
  }

  // -YYYYMMDD
  predicate Compact(s: string) {
    |s| == 9 && s[0] == '-' && AllDigits(s[1..])
  }

  // -YYYY-MM-DD
  predicate Dashed(s: string) {
    |s| == 11 && s[0] == s[5] == s[8] == '-' && AllDigits(s[1..5] + s[6..8] + s[9..])
  }

  // The name without the last `n` characters, if `p` holds of those.
  function Without(model: string, n: nat, p: string -> bool): string {
    if |model| >= n && p(model[|model| - n..]) then model[..|model| - n] else model
  }

  function Undated(model: string): string {
    var short := Without(model, 9, s => Compact(s));
    if short != model then short else Without(model, 11, s => Dashed(s))
  }

  lemma OneFormOnly(base: string, suffix: string)
    requires Dashed(suffix)
    ensures !Compact((base + suffix)[|base| + 2..])
  {
    var tail := (base + suffix)[|base| + 2..];
    assert tail == suffix[2..];
    assert tail[3] == suffix[5] == '-' && tail[1..][2] == tail[3];
  }

  // The fallback drops exactly one date, in either form, and nothing else.
  lemma UndatedExact(model: string, base: string)
    ensures Undated(model) == base && base != model <==>
            exists suffix :: (Compact(suffix) || Dashed(suffix)) && model == base + suffix
  {
    if suffix :| (Compact(suffix) || Dashed(suffix)) && model == base + suffix {
      assert model[..|base|] == base && model[|base|..] == suffix;
      if Dashed(suffix) {
        OneFormOnly(base, suffix);
      }
    }
    if Undated(model) == base && base != model {
      assert model == base + model[|base|..];
    }
  }

  // The two forms, by their parts.
  lemma CompactForm(s: string)
    ensures Compact(s) <==> exists d :: |d| == 8 && AllDigits(d) && s == "-" + d
  {
    if Compact(s) {
      assert s == "-" + s[1..];
    }
  }

  ghost predicate DatedBy(s: string, y: string, m: string, d: string) {
    && |y| == 4 && |m| == |d| == 2 && AllDigits(y) && AllDigits(m) && AllDigits(d)
    && s == "-" + y + "-" + m + "-" + d
  }

  lemma DashedForm(s: string)
    ensures Dashed(s) <==> exists y, m, d :: DatedBy(s, y, m, d)
  {
    if Dashed(s) {
      DashedParts(s);
    }
    if y, m, d :| DatedBy(s, y, m, d) {
      PartsDashed(s, y, m, d);
    }
  }

  lemma DashedParts(s: string)
    requires Dashed(s)
    ensures DatedBy(s, s[1..5], s[6..8], s[9..])
  {
    var y, m, d := s[1..5], s[6..8], s[9..];
    var all := y + m + d;
    assert forall i :: 0 <= i < 4 ==> y[i] == all[i];
    assert forall i :: 0 <= i < 2 ==> m[i] == all[4 + i] && d[i] == all[6 + i];
    assert s == "-" + y + "-" + m + "-" + d;
  }

  lemma PartsDashed(s: string, y: string, m: string, d: string)
    requires DatedBy(s, y, m, d)
    ensures Dashed(s)
  {
    assert s[1..5] == y && s[6..8] == m && s[9..] == d;
  }

  lemma UndatedExamples()
    ensures Undated("claude-opus-4-5-20251101") == "claude-opus-4-5"
    ensures Undated("gpt-4o-2024-08-06") == "gpt-4o"
    ensures Undated("gpt-4o") == "gpt-4o"
  {
    assert "claude-opus-4-5-20251101" == "claude-opus-4-5" + "-20251101";
    assert Compact("-20251101");
    UndatedExact("claude-opus-4-5-20251101", "claude-opus-4-5");
    assert "gpt-4o-2024-08-06" == "gpt-4o" + "-2024-08-06";
    assert Dashed("-2024-08-06");
    UndatedExact("gpt-4o-2024-08-06", "gpt-4o");
  }

  // ---- Lookup -----------------------------------------------------------------------------------

  function Find(m: Models, upstream: string, model: string): Option<Price> {
    if upstream in m && model in m[upstream] then Some(m[upstream][model]) else None
  }

  function Else<T>(a: Option<T>, b: Option<T>): Option<T> {
    if a.Some? then a else b
  }

  // The exact name first, then the undated one.
  function Resolve(m: Models, upstream: string, model: string): Option<Price> {
    Else(Find(m, upstream, model), Find(m, upstream, Undated(model)))
  }

  // Which entry prices a model after a reload. An entry of the base for the dated name
  // comes before an entry of the file for the undated one.
  lemma ResolveMerged(base: Models, file: Models, upstream: string, model: string)
    ensures Resolve(Merge(base, file), upstream, model) ==
            Else(Find(file, upstream, model),
                 Else(Find(base, upstream, model),
                      Else(Find(file, upstream, Undated(model)), Find(base, upstream, Undated(model)))))
  {
    FindMerged(base, file, upstream, model);
    FindMerged(base, file, upstream, Undated(model));
    hide Find, Merge, Undated;
  }

  lemma FindMerged(base: Models, file: Models, upstream: string, model: string)
    ensures Find(Merge(base, file), upstream, model) ==
            Else(Find(file, upstream, model), Find(base, upstream, model))
  {
  }

  // ---- The bill ------------------------------------------------------------------------------------

  function Bill(p: Price, inputTokens: int, outputTokens: int): real {
    (inputTokens as real / 1000000.0) * p.input + (outputTokens as real / 1000000.0) * p.output
  }

  method Cost(pricer: Pricer, upstream: string, model: string, inputTokens: int, outputTokens: int)
    returns (cost: real, ok: bool)
    ensures var p := Resolve(pricer.View(), upstream, model);
            if p.Some? then ok && cost == Bill(p.value, inputTokens, outputTokens) else !ok && cost == 0.0
    ensures var p := Resolve(pricer.View(), upstream, model);
            p.Some? ==> 1000000.0 * cost == (inputTokens as real) * p.value.input + (outputTokens as real) * p.value.output
  {
    if upstream !in pricer.models {
      return 0.0, false;
    }
    var table := pricer.models[upstream].prices;
    if model in table {
      BillScaled(table[model], inputTokens, outputTokens);
      return Bill(table[model], inputTokens, outputTokens), true;
    }
    var base := Undated(model);
    if base == model || base !in table {
      return 0.0, false;
    }
    BillScaled(table[base], inputTokens, outputTokens);
    return Bill(table[base], inputTokens, outputTokens), true;
  }

  // Prices are for a million tokens, and a bill adds up.
  lemma BillMeaning(p: Price, a: int, b: int, c: int, d: int)
    ensures Bill(p, 1000000, 0) == p.input && Bill(p, 0, 1000000) == p.output
    ensures Bill(p, a + c, b + d) == Bill(p, a, b) + Bill(p, c, d)
  {
    Distributes(a as real / 1000000.0, c as real / 1000000.0, p.input);
    Distributes(b as real / 1000000.0, d as real / 1000000.0, p.output);
    assert (a + c) as real / 1000000.0 == a as real / 1000000.0 + c as real / 1000000.0;
    assert (b + d) as real / 1000000.0 == b as real / 1000000.0 + d as real / 1000000.0;
  }

  lemma Distributes(x: real, y: real, z: real)
    ensures (x + y) * z == x * z + y * z
  {
  }

  lemma BillScaled(p: Price, inputTokens: int, outputTokens: int)
    ensures 1000000.0 * Bill(p, inputTokens, outputTokens) ==
            (inputTokens as real) * p.input + (outputTokens as real) * p.output
  {
    var x, y := inputTokens as real, outputTokens as real;
    Scales(x, p.input);
    Scales(y, p.output);
  }

  lemma Scales(x: real, z: real)
    ensures 1000000.0 * ((x / 1000000.0) * z) == x * z
  {
    assert 1000000.0 * (x / 1000000.0) == x;
  }

  lemma BillNonNegative(p: Price, inputTokens: nat, outputTokens: nat)
    requires !Negative(p)
    ensures Bill(p, inputTokens, outputTokens) >= 0.0
  {
    var x, y := inputTokens as real / 1000000.0, outputTokens as real / 1000000.0;
    assert x * p.input >= 0.0 && y * p.output >= 0.0;
  }

  // Whatever files come and go, no response is ever billed a negative amount.
  lemma NoNegativeBill(s: State, es: seq<Event>, initial: Snapshot, upstream: string, model: string,
                       inputTokens: nat, outputTokens: nat)
    requires Inv(s, initial) && Sane(initial.prices) && Sane(s.base)
    ensures var p := Resolve(Exec(s, es).holder.prices, upstream, model);
            p.Some? ==> Bill(p.value, inputTokens, outputTokens) >= 0.0
  {
    SnapshotsAreSane(s, es, initial);
    var p := Resolve(Exec(s, es).holder.prices, upstream, model);
    if p.Some? {
      BillNonNegative(p.value, inputTokens, outputTokens);
    }
  }
}
