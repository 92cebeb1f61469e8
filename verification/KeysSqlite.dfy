/**
 The durable key store: statements over a table whose upstream_key column is encrypted
 and whose time columns are text. A time column is written as the instant whose text it
 holds (`Timestamps.FormatInjective`), and compared through that text. A row can have been
 written under another cipher, and is then unreadable.
 */
module KeysSqlite {
  import opened Wrappers
  import opened Timestamps
  import opened Keys
  import C = Cipher

  predicate Readable(c: C.Cipher, row: VirtualKey) {
    c.decrypt(row.upstreamKey).Some?
  }

  // What a readable row holds.
  function Scan(c: C.Cipher, row: VirtualKey): VirtualKey
    requires Readable(c, row)
  {
    row.(upstreamKey := c.decrypt(row.upstreamKey).value)
  }

  // What a caller gets of a row.
  function ScanRow(c: C.Cipher, row: VirtualKey): Outcome {
    if Readable(c, row) then One(Scan(c, row)) else Unreadable
  }

  // What a caller gets of several rows: one unreadable row fails them all.
  ghost function Listing(c: C.Cipher, rows: Table): Outcome {
    if AllReadable(c, rows) then Many(ScanAll(c, rows)) else Unreadable
  }

  ghost predicate AllReadable(c: C.Cipher, rows: Table) {
    forall id :: id in rows ==> Readable(c, rows[id])
  }

  ghost function ScanAll(c: C.Cipher, rows: Table): Table
    requires AllReadable(c, rows)
  {
    map id | id in rows :: Scan(c, rows[id])
  }

  // The columns an INSERT writes; revoked_at is not among them.
  function Inserted(k: VirtualKey, enc: string): VirtualKey {
    k.(upstreamKey := enc, revokedAt := Option.None)
  }

  // The columns a PATCH writes; revoked_at is not among them.
  function Columns(row: VirtualKey, k: VirtualKey): VirtualKey {
    row.(name := k.name, dailyBudget := k.dailyBudget, monthBudget := k.monthBudget, baseURL := k.baseURL,
         rps := k.rps, rpm := k.rpm, maxConcurrent := k.maxConcurrent, timeoutSeconds := k.timeoutSeconds,
         expiresAt := k.expiresAt)
  }

  // ---- Operations as statements ----------------------------------------------------------

  // UPDATE ... SET revoked_at = ? WHERE id = ? AND revoked_at IS NULL, and, if no row was
  // affected, a SELECT to tell a revoked key from a missing one.
  function RevokeStep(c: C.Cipher, rows: Table, id: string, stamp: Time): (Table, Outcome) {
    if id !in rows then (rows, NotFound)
    else if !rows[id].IsRevoked() then (rows[id := rows[id].(revokedAt := Option.Some(stamp))], Outcome.Done)
    else (rows, if Readable(c, rows[id]) then Outcome.Done else Unreadable)
  }

  // One operation on the rows; `nonce` matters to Create only.
  ghost function SqlStep(c: C.Cipher, rows: Table, op: Op, nonce: string): (Table, Outcome) {
    match op
    case Create(k) =>
      var enc := c.encrypt(k.upstreamKey, nonce);
      if !Acceptable(k) || enc.None? || Conflicts(rows, k) then (rows, Rejected)
      else (rows[k.id := Inserted(k, enc.value)], Outcome.Done)
    case GetByToken(token) =>
      (rows, match ByToken(rows, token) case None => NotFound case Some(row) => ScanRow(c, row))
    case GetByID(id) => (rows, if id in rows then ScanRow(c, rows[id]) else NotFound)
    case List => (rows, Listing(c, rows))
    case Revoke(id, now) => RevokeStep(c, rows, id, now)
    case RevokeAt(id, at) => RevokeStep(c, rows, id, at)
    case ListExpiring(asOf) => (rows, Listing(c, Expiring(Sqlite, rows, asOf)))
    case Update(id, patch) =>
      if id !in rows then (rows, NotFound)
      else if !Readable(c, rows[id]) then (rows, Unreadable)
      else if rows[id].IsRevoked() then (rows, Revoked)
      else
        var patched := patch.ApplyTo(Scan(c, rows[id]));
        (rows[id := Columns(rows[id], patched)], One(patched))
  }

  // ---- The statements refine the specification -------------------------------------------------

  lemma TokensAgree(c: C.Cipher, rows: Table, token: string)
    requires WellFormed(rows) && AllReadable(c, rows)
    ensures TokenTaken(ScanAll(c, rows), token) <==> TokenTaken(rows, token)
    ensures WellFormed(ScanAll(c, rows))
    ensures TokenTaken(rows, token) ==>
              && ByToken(rows, token).Some? && Readable(c, ByToken(rows, token).value)
              && ByToken(ScanAll(c, rows), token) == Option.Some(Scan(c, ByToken(rows, token).value))
  {
    var t := ScanAll(c, rows);
    assert forall id :: id in rows <==> id in t;
    assert forall id :: id in rows ==> t[id].token == rows[id].token && t[id].id == rows[id].id;
    if TokenTaken(rows, token) {
      var id :| id in rows && rows[id].token == token;
      assert id in t && t[id].token == token;
    }
  }

  // Writing one readable row shows in the scan at that row only.
  lemma WriteRow(c: C.Cipher, rows: Table, id: string, row: VirtualKey)
    requires AllReadable(c, rows) && Readable(c, row)
    ensures AllReadable(c, rows[id := row])
    ensures ScanAll(c, rows[id := row]) == ScanAll(c, rows)[id := Scan(c, row)]
  {
  }

  lemma SameTable(t: Table, id: string)
    requires id in t
    ensures t[id := t[id]] == t
  {
  }

  lemma DueAgree(c: C.Cipher, rows: Table, asOf: Time)
    requires AllReadable(c, rows)
    ensures Listing(c, Expiring(Sqlite, rows, asOf)) == Many(Expiring(Sqlite, ScanAll(c, rows), asOf))
  {
    hide TextAtMost, AtMost;
    var due := Expiring(Sqlite, rows, asOf);
    assert AllReadable(c, due);
    assert ScanAll(c, due) == Expiring(Sqlite, ScanAll(c, rows), asOf);
  }

  lemma RevokeRefines(c: C.Cipher, rows: Table, id: string, at: Time)
    requires AllReadable(c, rows)
    ensures var (rows', r) := RevokeStep(c, rows, id, at);
            && AllReadable(c, rows')
            && var t := ScanAll(c, rows);
               (ScanAll(c, rows'), r) == if id in t then (t[id := RevokeUnless(t[id], at)], Outcome.Done) else (t, NotFound)
  {
    if id in rows {
      SameTable(ScanAll(c, rows), id);
      WriteRow(c, rows, id, rows[id].(revokedAt := Option.Some(at)));
    }
  }

  lemma UpdateRefines(c: C.Cipher, rows: Table, id: string, patch: KeyPatch)
    requires AllReadable(c, rows) && id in rows && !rows[id].IsRevoked()
    ensures var patched := patch.ApplyTo(Scan(c, rows[id]));
            var rows' := rows[id := Columns(rows[id], patched)];
            && AllReadable(c, rows')
            && ScanAll(c, rows') == ScanAll(c, rows)[id := patch.ApplyTo(ScanAll(c, rows)[id])]
  {
    var patched := patch.ApplyTo(Scan(c, rows[id]));
    var row := Columns(rows[id], patched);
    WriteRow(c, rows, id, row);
    assert Scan(c, row) == patched;
  }

  lemma CreateRefines(c: C.Cipher, rows: Table, k: VirtualKey, enc: string)
    requires AllReadable(c, rows) && c.decrypt(enc) == Option.Some(k.upstreamKey)
    ensures var rows' := rows[k.id := Inserted(k, enc)];
            AllReadable(c, rows') && ScanAll(c, rows') == ScanAll(c, rows)[k.id := k.(revokedAt := Option.None)]
  {
    WriteRow(c, rows, k.id, Inserted(k, enc));
    assert Scan(c, Inserted(k, enc)) == k.(revokedAt := Option.None);
  }

  // The cipher opens what it wrote for this key, if it writes it at all.
  predicate Opens(c: C.Cipher, k: VirtualKey, nonce: string) {
    var enc := c.encrypt(k.upstreamKey, nonce);
    enc.Some? ==> c.decrypt(enc.value) == Option.Some(k.upstreamKey)
  }

  // On readable rows every operation is the specified one, seen through decryption; only an
  // encryption that fails rejects a key that would be accepted.
  lemma SqlRefines(c: C.Cipher, rows: Table, op: Op, nonce: string)
    requires WellFormed(rows) && AllReadable(c, rows)
    requires op.Create? ==> Opens(c, op.key, nonce)
    ensures var (rows', r) := SqlStep(c, rows, op, nonce);
            && AllReadable(c, rows')
            && (ScanAll(c, rows'), r) ==
               if op.Create? && c.encrypt(op.key.upstreamKey, nonce).None? then (ScanAll(c, rows), Rejected)
               else StoreStep(Sqlite, ScanAll(c, rows), op)
  {
    hide Acceptable, ByToken, TokenTaken, WellFormed, Expiring, KeyPatch.ApplyTo, Columns, Inserted;
    var t := ScanAll(c, rows);
    assert t.Keys == rows.Keys;
    match op {
      case Create(k) =>
        TokensAgree(c, rows, k.token);
        var enc := c.encrypt(k.upstreamKey, nonce);
        if enc.Some? {
          CreateRefines(c, rows, k, enc.value);
        }
        hide ScanAll, AllReadable;
      case GetByToken(token) =>
        TokensAgree(c, rows, token);
        ByTokenNone(rows, token);
        ByTokenNone(t, token);
        hide ScanAll;
      case GetByID(id) =>
      case List =>
      case Revoke(id, now) =>
        RevokeRefines(c, rows, id, now);
        if id in t {
          StampIs(t, id, now);
        }
        hide ScanAll, AllReadable, RevokeStep;
      case RevokeAt(id, at) =>
        RevokeRefines(c, rows, id, at);
        hide ScanAll, AllReadable, RevokeStep;
      case ListExpiring(asOf) =>
        DueAgree(c, rows, asOf);
      case Update(id, patch) =>
        if id in rows && !rows[id].IsRevoked() {
          UpdateRefines(c, rows, id, patch);
        }
    }
  }

  lemma ByTokenNone(t: Table, token: string)
    ensures ByToken(t, token).None? <==> !TokenTaken(t, token)
  {
  }

  lemma StampIs(t: Table, id: string, now: Time)
    requires id in t
    ensures Sqlite.Stamp(t[id], now) == RevokeUnless(t[id], now)
  {
  }

  // Rows keep their ids and tokens unique, readable or not.
  lemma SqlWellFormed(c: C.Cipher, rows: Table, op: Op, nonce: string)
    requires WellFormed(rows)
    ensures WellFormed(SqlStep(c, rows, op, nonce).0)
  {
    hide KeyPatch.ApplyTo, Acceptable, Listing;
    if op.Create? && !Conflicts(rows, op.key) {
      assert forall id :: id in rows ==> rows[id].token != op.key.token;
    }
  }

  // ---- What was created reads back ---------------------------------------------------------------

  // A created key reads back as it was, unrevoked, exactly when the cipher opens what it
  // wrote.
  lemma CreatedReadsBack(c: C.Cipher, rows: Table, k: VirtualKey, nonce: string)
    requires SqlStep(c, rows, Op.Create(k), nonce).1 == Outcome.Done
    ensures var rows' := SqlStep(c, rows, Op.Create(k), nonce).0;
            SqlStep(c, rows', Op.GetByID(k.id), nonce).1 == One(k.(revokedAt := Option.None)) <==> Opens(c, k, nonce)
  {
    var row := Inserted(k, c.encrypt(k.upstreamKey, nonce).value);
    if Readable(c, row) {
      assert Scan(c, row).upstreamKey == c.decrypt(row.upstreamKey).value;
      assert Scan(c, row).(upstreamKey := k.upstreamKey) == k.(revokedAt := Option.None);
    }
    hide Acceptable, TokenTaken;
  }

  // A PATCH on the rows reads back field by field.
  lemma UpdatedReadsBack(c: C.Cipher, rows: Table, id: string, p: KeyPatch)
    requires id in rows && Readable(c, rows[id]) && !rows[id].IsRevoked()
    ensures var (rows', r) := SqlStep(c, rows, Op.Update(id, p), "");
            && r.One? && Reflects(p, Scan(c, rows[id]), r.key)
            && SqlStep(c, rows', Op.GetByID(id), "").1 == r
  {
    PatchReflects(p, Scan(c, rows[id]));
    UpdatedRow(c, rows[id], p);
    hide KeyPatch.ApplyTo, Reflects, Columns;
  }

  lemma UpdatedRow(c: C.Cipher, row: VirtualKey, p: KeyPatch)
    requires Readable(c, row)
    ensures var patched := p.ApplyTo(Scan(c, row));
            Readable(c, Columns(row, patched)) && Scan(c, Columns(row, patched)) == patched
  {
  }

  // A row under another cipher: it is an error to whoever would read it, and a PATCH leaves it
  // alone; it can still be revoked, once.
  lemma UnreadableRow(c: C.Cipher, rows: Table, id: string, p: KeyPatch, at: Time)
    requires WellFormed(rows) && id in rows && c.decrypt(rows[id].upstreamKey).None?
    ensures SqlStep(c, rows, Op.GetByID(id), "").1 == Unreadable
    ensures SqlStep(c, rows, Op.GetByToken(rows[id].token), "").1 == Unreadable
    ensures SqlStep(c, rows, Op.List, "").1 == Unreadable
    ensures SqlStep(c, rows, Op.Update(id, p), "") == (rows, Unreadable)
    ensures var (rows', r) := SqlStep(c, rows, Op.Revoke(id, at), "");
            && id in rows' && rows'[id].IsRevoked()
            && (if rows[id].IsRevoked() then rows' == rows && r == Unreadable else r == Outcome.Done)
  {
    TokenFinds(rows, id);
    hide KeyPatch.ApplyTo;
  }

  // AES-GCM always does; without encryption the keys that carry the tag are lost.
  lemma CiphersOpen(a: C.Aead, b: C.Base64, k: VirtualKey, nonce: string)
    requires C.AeadLaw(a) && C.Base64Law(b)
    ensures Opens(C.AesGcm(a, b), k, nonce)
    ensures Opens(C.NOOP, k, nonce) <==> !("v1:" <= k.upstreamKey)
  {
    C.AesGcmLawful(a, b);
    C.NoopRoundTrip(k.upstreamKey, nonce);
  }

  // The WHERE clause of the expiry listing.
  lemma DueAsWritten(row: VirtualKey, asOf: Time)
    ensures Sqlite.Due(row, asOf) <==>
            row.expiresAt.Some? && TextAtMost(row.expiresAt.value, asOf) && row.revokedAt.None?
  {
    hide TextAtMost;
  }

  // ---- The store -----------------------------------------------------------------------------------

  class SqliteStore {
    const cipher: C.Cipher
    var rows: Table                    // upstreamKey holds the ciphertext

    // The primary key and the unique token index.
    ghost predicate Valid()
      reads this
    {
      WellFormed(rows)
    }

    constructor (c: C.Cipher)
      ensures cipher == c && Valid() && rows == map[]
    {
      cipher := c;
      rows := map[];
    }

    // The row with a token, as the unique index finds it.
    method Lookup(token: string) returns (hit: Option<string>)
      ensures hit.Some? <==> TokenTaken(rows, token)
      ensures hit.Some? ==> hit.value in rows && rows[hit.value].token == token
    {
      var todo := rows.Keys;
      while todo != {}
        invariant todo <= rows.Keys
        invariant forall id :: id in rows && id !in todo ==> rows[id].token != token
        decreases todo
      {
        var id :| id in todo;
        if rows[id].token == token {
          return Option.Some(id);
        }
        todo := todo - {id};
      }
      return Option.None;
    }

    method Create(k: VirtualKey, nonce: string) returns (r: Outcome)
      requires Valid()
      modifies this
      ensures Valid() && (rows, r) == SqlStep(cipher, old(rows), Op.Create(k), nonce)
    {
      SqlWellFormed(cipher, rows, Op.Create(k), nonce);
      if k.id == "" || k.token == "" {
        return Rejected;
      }
      if k.upstream != "openai" && k.upstream != "anthropic" {
        return Rejected;
      }
      var enc := cipher.encrypt(k.upstreamKey, nonce);
      if enc.None? {
        return Rejected;
      }
      var taken := Lookup(k.token);
      if k.id in rows || taken.Some? {
        return Rejected;               // a uniqueness constraint fails the INSERT
      }
      rows := rows[k.id := k.(upstreamKey := enc.value, revokedAt := Option.None)];
      return Outcome.Done;
    }

    method ScanKey(row: VirtualKey) returns (r: Outcome)
      ensures r == ScanRow(cipher, row)
    {
      var plain := cipher.decrypt(row.upstreamKey);
      if plain.None? {
        return Unreadable;
      }
      return One(row.(upstreamKey := plain.value));
    }

    method GetByToken(token: string) returns (r: Outcome)
      requires Valid()
      ensures r == SqlStep(cipher, rows, Op.GetByToken(token), "").1
    {
      var hit := Lookup(token);
      if hit.None? {
        return NotFound;
      }
      r := ScanKey(rows[hit.value]);
    }

    method GetByID(id: string) returns (r: Outcome)
      ensures r == SqlStep(cipher, rows, Op.GetByID(id), "").1
    {
      if id !in rows {
        return NotFound;
      }
      r := ScanKey(rows[id]);
    }

    // UPDATE ... SET revoked_at = ? WHERE id = ? AND revoked_at IS NULL
    method SetRevoked(id: string, stamp: Time) returns (n: nat)
      requires Valid()
      modifies this
      ensures Valid() && n == (if id in old(rows) && !old(rows)[id].IsRevoked() then 1 else 0)
      ensures rows == if n == 1 then old(rows)[id := old(rows)[id].(revokedAt := Option.Some(stamp))] else old(rows)
    {
      if id in rows && rows[id].revokedAt.None? {
        rows := rows[id := rows[id].(revokedAt := Option.Some(stamp))];
        return 1;
      }
      return 0;
    }

    method Revoke(id: string, now: Time) returns (r: Outcome)
      requires Valid()
      modifies this
      ensures Valid() && (rows, r) == SqlStep(cipher, old(rows), Op.Revoke(id, now), "")
    {
      var n := SetRevoked(id, now);
      if n == 0 {
        r := GetByID(id);
        if !r.One? {
          return r;
        }
      }
      return Outcome.Done;
    }

    method RevokeAt(id: string, at: Time) returns (r: Outcome)
      requires Valid()
      modifies this
      ensures Valid() && (rows, r) == SqlStep(cipher, old(rows), Op.RevokeAt(id, at), "")
    {
      var n := SetRevoked(id, at);
      if n == 0 {
        r := GetByID(id);
        if !r.One? {
          return r;
        }
      }
      return Outcome.Done;
    }

    // The guarded UPDATE of a patch: every mutable column, from the copy in hand.
    method WriteColumns(id: string, k: VirtualKey) returns (n: nat)
      requires Valid()
      modifies this
      ensures Valid() && n == (if id in old(rows) && !old(rows)[id].IsRevoked() then 1 else 0)
      ensures rows == if n == 1 then old(rows)[id := Columns(old(rows)[id], k)] else old(rows)
    {
      if id !in rows || rows[id].revokedAt.Some? {
        return 0;
      }
      rows := rows[id := Columns(rows[id], k)];
      return 1;
    }

    method Update(id: string, patch: KeyPatch) returns (r: Outcome)
      requires Valid()
      modifies this
      ensures Valid() && (rows, r) == SqlStep(cipher, old(rows), Op.Update(id, patch), "")
    {
      r := GetByID(id);
      if !r.One? {
        return r;
      }
      var current := r.key;
      if current.IsRevoked() {
        return Revoked;
      }
      var patched := patch.ApplyTo(current);
      var n := WriteColumns(id, patched);
      if n == 0 {
        return Revoked;
      }
      return One(patched);
    }

    // WHERE expires_at IS NOT NULL AND expires_at <= ? AND revoked_at IS NULL, with the
    // rows in any order. The first unreadable row ends the listing with an error.
    method ListExpiring(asOf: Time) returns (out: Option<seq<VirtualKey>>)
      requires Valid()
      ensures out.Some? <==> AllReadable(cipher, Expiring(Sqlite, rows, asOf))
      ensures out.Some? ==>
                && (forall k :: k in out.value <==>
                      k.id in rows && Sqlite.Due(rows[k.id], asOf) && ScanRow(cipher, rows[k.id]) == One(k))
                && forall i, j :: 0 <= i < j < |out.value| ==> out.value[i].id != out.value[j].id
    {
      hide TextAtMost, AtMost, Flavour.Due;
      var found: seq<VirtualKey> := [];
      var todo := rows.Keys;
      while todo != {}
        invariant todo <= rows.Keys
        invariant forall id :: id in rows && id !in todo && Sqlite.Due(rows[id], asOf) ==> Readable(cipher, rows[id])
        invariant forall k :: k in found <==>
                    k.id in rows && k.id !in todo && Sqlite.Due(rows[k.id], asOf) && ScanRow(cipher, rows[k.id]) == One(k)
        invariant forall i, j :: 0 <= i < j < |found| ==> found[i].id != found[j].id
        decreases todo
      {
        var id :| id in todo;
        todo := todo - {id};
        var row := rows[id];
        DueAsWritten(row, asOf);
        if row.expiresAt.Some? && TextAtMost(row.expiresAt.value, asOf) && row.revokedAt.None? {
          var r := ScanKey(row);
          if !r.One? {
            assert id in Expiring(Sqlite, rows, asOf) && Expiring(Sqlite, rows, asOf)[id] == row;
            return Option.None;
          }
          found := found + [r.key];
        }
      }
      return Option.Some(found);
    }
  }
}
