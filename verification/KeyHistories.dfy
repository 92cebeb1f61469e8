/**
 The two stores over whole histories: they answer alike but for two named differences,
 and a revocation, once made in the durable store, is final under interleaving.
 */
module KeyHistories {
  import opened Wrappers
  import opened Timestamps
  import opened Cipher
  import opened Keys
  import opened KeysSqlite

  // ---- Two stores, one specification ----------------------------------------------------------

  predicate SameButStamp(a: VirtualKey, b: VirtualKey) {
    a.(revokedAt := None) == b.(revokedAt := None) && a.IsRevoked() == b.IsRevoked()
  }

  ghost predicate Alike(m: Table, s: Table) {
    m.Keys == s.Keys && forall id :: id in m ==> SameButStamp(m[id], s[id])
  }

  // Outcomes that differ at most in a revocation stamp, or, for an expiry listing, in
  // keys that expire within the very second asked about.
  ghost predicate AgreeOn(op: Op, a: Outcome, b: Outcome) {
    match op
    case ListExpiring(asOf) =>
      && a.Many? && b.Many?
      && (forall id :: id in a.keys && id in b.keys ==> a.keys[id] == b.keys[id])
      && (forall id :: id in a.keys && id !in b.keys ==> ExpiresWithin(a.keys[id], asOf))
      && (forall id :: id in b.keys && id !in a.keys ==> ExpiresWithin(b.keys[id], asOf))
    case _ =>
      a == b || (a.One? && b.One? && SameButStamp(a.key, b.key)) || (a.Many? && b.Many? && Alike(a.keys, b.keys))
  }

  predicate ExpiresWithin(k: VirtualKey, asOf: Time) {
    k.expiresAt.Some? && SameSecond(k.expiresAt.value, asOf)
  }

  predicate CreatesUnrevoked(op: Op) {
    op.Create? ==> op.key.revokedAt.None?
  }

  lemma TokensAlike(m: Table, s: Table, token: string)
    requires Alike(m, s) && WellFormed(m) && WellFormed(s)
    ensures TokenTaken(m, token) <==> TokenTaken(s, token)
    ensures ByToken(m, token).Some? <==> ByToken(s, token).Some?
    ensures ByToken(m, token).Some? ==> SameButStamp(ByToken(m, token).value, ByToken(s, token).value)
  {
    if TokenTaken(m, token) {
      var id :| id in m && m[id].token == token;
      assert id in s && s[id].token == token;
    }
    if TokenTaken(s, token) {
      var id :| id in s && s[id].token == token;
      assert id in m && m[id].token == token;
    }
  }

  lemma DueAlike(a: VirtualKey, b: VirtualKey, asOf: Time)
    requires SameButStamp(a, b)
    ensures InMemory.Due(a, asOf) && Sqlite.Due(b, asOf) ==> a == b
    ensures InMemory.Due(a, asOf) != Sqlite.Due(b, asOf) ==> ExpiresWithin(a, asOf) && ExpiresWithin(b, asOf)
  {
    if a.expiresAt.Some? && !SameSecond(a.expiresAt.value, asOf) {
      TextAtMostAcrossSeconds(a.expiresAt.value, asOf);
    }
    hide TextAtMost, AtMost, SameSecond;
    if InMemory.Due(a, asOf) && Sqlite.Due(b, asOf) {
      assert a == a.(revokedAt := None) && b == b.(revokedAt := None);
    }
  }

  lemma ListingsAgree(m: Table, s: Table, asOf: Time)
    requires Alike(m, s)
    ensures AgreeOn(ListExpiring(asOf), Many(Expiring(InMemory, m, asOf)), Many(Expiring(Sqlite, s, asOf)))
  {
    hide Flavour.Due, ExpiresWithin, SameButStamp;
    forall id | id in m
      ensures InMemory.Due(m[id], asOf) && Sqlite.Due(s[id], asOf) ==> m[id] == s[id]
      ensures InMemory.Due(m[id], asOf) != Sqlite.Due(s[id], asOf) ==>
                ExpiresWithin(m[id], asOf) && ExpiresWithin(s[id], asOf)
    {
      DueAlike(m[id], s[id], asOf);
    }
  }

  lemma PutAlike(m: Table, s: Table, id: string, a: VirtualKey, b: VirtualKey)
    requires Alike(m, s) && SameButStamp(a, b)
    ensures Alike(m[id := a], s[id := b])
  {
  }

  lemma AlikeAt(m: Table, s: Table, id: string)
    requires Alike(m, s)
    ensures id in m <==> id in s
    ensures id in m ==> SameButStamp(m[id], s[id]) && m[id].IsRevoked() == s[id].IsRevoked()
  {
  }

  lemma KeysStepAlike(a: VirtualKey, b: VirtualKey, at: Time, patch: KeyPatch)
    requires SameButStamp(a, b)
    ensures SameButStamp(InMemory.Stamp(a, at), Sqlite.Stamp(b, at))
    ensures SameButStamp(RevokeUnless(a, at), RevokeUnless(b, at))
    ensures SameButStamp(patch.ApplyTo(a), patch.ApplyTo(b))
  {
  }

  lemma InsertAlike(k: VirtualKey)
    requires k.revokedAt.None?
    ensures SameButStamp(k, k.(revokedAt := None))
  {
  }

  lemma StoresStepAlike(m: Table, s: Table, op: Op)
    requires Alike(m, s) && WellFormed(m) && WellFormed(s) && CreatesUnrevoked(op)
    ensures Alike(StoreStep(InMemory, m, op).0, StoreStep(Sqlite, s, op).0)
    ensures AgreeOn(op, StoreStep(InMemory, m, op).1, StoreStep(Sqlite, s, op).1)
  {
    hide ByToken, TokenTaken, Expiring, Acceptable, Alike, SameButStamp, WellFormed;
    hide Flavour.Stamp, RevokeUnless, KeyPatch.ApplyTo;
    match op {
      case ListExpiring(asOf) =>
        ListingsAgree(m, s, asOf);
      case Create(k) =>
        AlikeAt(m, s, k.id);
        TokensAlike(m, s, k.token);
        InsertAlike(k);
        PutAlike(m, s, k.id, k, k.(revokedAt := None));
      case GetByToken(token) =>
        TokensAlike(m, s, token);
      case GetByID(id) =>
        AlikeAt(m, s, id);
      case List =>
      case Revoke(id, now) =>
        AlikeAt(m, s, id);
        if id in m {
          KeysStepAlike(m[id], s[id], now, NO_PATCH);
          PutAlike(m, s, id, InMemory.Stamp(m[id], now), Sqlite.Stamp(s[id], now));
        }
      case RevokeAt(id, at) =>
        AlikeAt(m, s, id);
        if id in m {
          KeysStepAlike(m[id], s[id], at, NO_PATCH);
          PutAlike(m, s, id, RevokeUnless(m[id], at), RevokeUnless(s[id], at));
        }
      case Update(id, patch) =>
        AlikeAt(m, s, id);
        if id in m {
          KeysStepAlike(m[id], s[id], m[id].createdAt, patch);
          PutAlike(m, s, id, patch.ApplyTo(m[id]), patch.ApplyTo(s[id]));
        }
    }
  }

  const NO_PATCH := KeyPatch(None, None, None, None, None, None, None, None, None, false)

  ghost function Run(f: Flavour, t: Table, ops: seq<Op>): (Table, seq<Outcome>)
    decreases ops
  {
    if ops == [] then (t, [])
    else
      var (t', o) := StoreStep(f, t, ops[0]);
      var (t'', rest) := Run(f, t', ops[1..]);
      (t'', [o] + rest)
  }

  lemma {:induction false} RunsAlike(m: Table, s: Table, ops: seq<Op>)
    requires Alike(m, s) && WellFormed(m) && WellFormed(s)
    requires forall i :: 0 <= i < |ops| ==> CreatesUnrevoked(ops[i])
    ensures Alike(Run(InMemory, m, ops).0, Run(Sqlite, s, ops).0)
    ensures |Run(InMemory, m, ops).1| == |Run(Sqlite, s, ops).1| == |ops|
    ensures forall i :: 0 <= i < |ops| ==> AgreeOn(ops[i], Run(InMemory, m, ops).1[i], Run(Sqlite, s, ops).1[i])
    decreases ops
  {
    if ops != [] {
      StoresStepAlike(m, s, ops[0]);
      StepWellFormed(InMemory, m, ops[0]);
      StepWellFormed(Sqlite, s, ops[0]);
      hide StoreStep, AgreeOn, Alike, WellFormed;
      RunsAlike(StoreStep(InMemory, m, ops[0]).0, StoreStep(Sqlite, s, ops[0]).0, ops[1..]);
    }
  }

  // On every sequential history of keys created unrevoked the two stores agree.
  lemma TwoStoresOneSpecification(ops: seq<Op>)
    requires forall i :: 0 <= i < |ops| ==> CreatesUnrevoked(ops[i])
    ensures Alike(Run(InMemory, map[], ops).0, Run(Sqlite, map[], ops).0)
    ensures |Run(InMemory, map[], ops).1| == |Run(Sqlite, map[], ops).1| == |ops|
    ensures forall i :: 0 <= i < |ops| ==>
              AgreeOn(ops[i], Run(InMemory, map[], ops).1[i], Run(Sqlite, map[], ops).1[i])
  {
    RunsAlike(map[], map[], ops);
  }

  // A run of the statements on encrypted rows; operation `i` draws `nonces[i]`.
  ghost function SqlRun(c: Cipher, rows: Table, ops: seq<Op>, nonces: seq<string>): (Table, seq<Outcome>)
    requires |nonces| == |ops|
    decreases ops
  {
    if ops == [] then (rows, [])
    else
      var (rows', o) := SqlStep(c, rows, ops[0], nonces[0]);
      var (rows'', rest) := SqlRun(c, rows', ops[1..], nonces[1..]);
      (rows'', [o] + rest)
  }

  // Every key to be created can be encrypted and read back.
  ghost predicate Encryptable(c: Cipher, ops: seq<Op>, nonces: seq<string>)
    requires |nonces| == |ops|
  {
    forall i :: 0 <= i < |ops| && ops[i].Create? ==>
      c.encrypt(ops[i].key.upstreamKey, nonces[i]).Some? && Opens(c, ops[i].key, nonces[i])
  }

  // Seen through decryption, the encrypted table runs as the specification does.
  lemma {:induction false} SqlRunRefines(c: Cipher, rows: Table, ops: seq<Op>, nonces: seq<string>)
    requires WellFormed(rows) && AllReadable(c, rows) && |nonces| == |ops| && Encryptable(c, ops, nonces)
    ensures var (rows', os) := SqlRun(c, rows, ops, nonces);
            AllReadable(c, rows') && (ScanAll(c, rows'), os) == Run(Sqlite, ScanAll(c, rows), ops)
    decreases ops
  {
    if ops != [] {
      assert ops[0].Create? ==> c.encrypt(ops[0].key.upstreamKey, nonces[0]).Some? && Opens(c, ops[0].key, nonces[0]);
      SqlRefines(c, rows, ops[0], nonces[0]);
      SqlWellFormed(c, rows, ops[0], nonces[0]);
      hide SqlStep, StoreStep, AllReadable, ScanAll, WellFormed, Opens;
      SqlRunRefines(c, SqlStep(c, rows, ops[0], nonces[0]).0, ops[1..], nonces[1..]);
    }
  }

  // The stamps part exactly when a revoked key is revoked by hand again.
  lemma StampsPart(t: Table, op: Op)
    requires CreatesUnrevoked(op)
    ensures StoreStep(InMemory, t, op).0 == StoreStep(Sqlite, t, op).0 <==>
            !(op.Revoke? && op.id in t && t[op.id].IsRevoked() && t[op.id].revokedAt != Some(op.now))
  {
    if op.Revoke? && op.id in t {
      var a, b := StoreStep(InMemory, t, op).0, StoreStep(Sqlite, t, op).0;
      assert a[op.id] == InMemory.Stamp(t[op.id], op.now) && b[op.id] == Sqlite.Stamp(t[op.id], op.now);
    } else if op.Create? {
      assert op.key.(revokedAt := None) == op.key;
    }
  }

  // The SQL expiry scan, exactly: it lists the unrevoked keys that are due, but for a key
  // whose text lies about the order within one second.
  lemma SqlScanExact(t: Table, asOf: Time, id: string)
    requires id in t
    ensures id in Expiring(Sqlite, t, asOf) <==>
            && !t[id].IsRevoked() && t[id].expiresAt.Some?
            && var e := t[id].expiresAt.value;
               (AtMost(e, asOf) && !Misordered(e, asOf)) || Misordered(asOf, e)
  {
    if t[id].expiresAt.Some? {
      TextAtMostExact(t[id].expiresAt.value, asOf);
    }
    hide TextAtMost, AtMost, Misordered;
  }

  lemma SqlScanAcrossSeconds(t: Table, asOf: Time, id: string)
    requires id in t && !t[id].IsRevoked() && t[id].expiresAt.Some?
    ensures EarlierSecond(t[id].expiresAt.value, asOf) ==> id in Expiring(Sqlite, t, asOf)
    ensures EarlierSecond(asOf, t[id].expiresAt.value) ==> id !in Expiring(Sqlite, t, asOf)
  {
    BeforeTotal(asOf, t[id].expiresAt.value);
    BeforeTotal(t[id].expiresAt.value, asOf);
    SqlScanExact(t, asOf, id);
  }
}

/** Interleaved statements on the durable table. */
module KeyRevocation {
  import opened Wrappers
  import opened Timestamps
  import opened Keys
  import opened KeysSqlite
  import C = Cipher

  // A PATCH between its SELECT and its UPDATE holds a patched copy.
  datatype State = State(rows: Table, held: map<nat, VirtualKey>)

  datatype Event =
    | Insert(key: VirtualKey)
    | SetRevoked(id: string, at: Time)          // Revoke and RevokeAt
    | Select(tid: nat, id: string, patch: KeyPatch)
    | Write(tid: nat)

  datatype Reply = Silent | Updated | Refused

  ghost function Step(s: State, e: Event): (State, Reply) {
    match e
    case Insert(k) =>
      if Conflicts(s.rows, k) then (s, Silent) else (s.(rows := s.rows[k.id := k.(revokedAt := None)]), Silent)
    case SetRevoked(id, at) =>
      if id in s.rows then (s.(rows := s.rows[id := RevokeUnless(s.rows[id], at)]), Silent) else (s, Silent)
    case Select(tid, id, patch) =>
      if tid in s.held then (s, Silent)
      else if id !in s.rows || s.rows[id].IsRevoked() then (s, Refused)
      else (s.(held := s.held[tid := patch.ApplyTo(s.rows[id])]), Silent)
    case Write(tid) =>
      if tid !in s.held then (s, Silent)
      else
        var k := s.held[tid];
        var s' := s.(held := s.held - {tid});
        if k.id in s.rows && !s.rows[k.id].IsRevoked() then
          (s'.(rows := s.rows[k.id := Columns(s.rows[k.id], k)]), Updated)
        else (s', Refused)
  }

  ghost function Exec(s: State, es: seq<Event>): State
    decreases es
  {
    if es == [] then s else Exec(Step(s, es[0]).0, es[1..])
  }

  lemma StepKeepsStamp(s: State, e: Event, id: string)
    requires id in s.rows
    ensures id in Step(s, e).0.rows
    ensures s.rows[id].IsRevoked() ==> Step(s, e).0.rows[id] == s.rows[id]
  {
  }

  // However statements interleave, a revoked row never changes again, stamp included.
  lemma {:induction false} RevocationIsFinal(s: State, es: seq<Event>, id: string)
    requires id in s.rows && s.rows[id].IsRevoked()
    ensures id in Exec(s, es).rows && Exec(s, es).rows[id] == s.rows[id]
    decreases es
  {
    if es != [] {
      StepKeepsStamp(s, es[0], id);
      RevocationIsFinal(Step(s, es[0]).0, es[1..], id);
    }
  }

  lemma UpdateOnlyWhileUnrevoked(s: State, tid: nat)
    requires Step(s, Write(tid)).1 == Updated
    ensures tid in s.held && s.held[tid].id in s.rows && !s.rows[s.held[tid].id].IsRevoked()
    ensures !Step(s, Write(tid)).0.rows[s.held[tid].id].IsRevoked()
  {
  }

  lemma {:induction false} ExecSplit(s: State, a: seq<Event>, b: seq<Event>)
    ensures Exec(s, a + b) == Exec(Exec(s, a), b)
    decreases a
  {
    hide Step;
    if a == [] {
      assert a + b == b;
    } else {
      ExecSplit(Step(s, a[0]).0, a[1..], b);
      assert (a + b)[1..] == a[1..] + b;
    }
  }

  // A PATCH that succeeds finds its row unrevoked, at its UPDATE and at every moment of the
  // run before it, and leaves it so.
  lemma UpdatesPrecedeRevocation(s: State, es: seq<Event>, tid: nat, n: nat)
    requires Step(Exec(s, es), Write(tid)).1 == Updated && n <= |es|
    ensures tid in Exec(s, es).held
    ensures var id := Exec(s, es).held[tid].id;
            && (id in Exec(s, es[..n]).rows ==> !Exec(s, es[..n]).rows[id].IsRevoked())
            && id in Step(Exec(s, es), Write(tid)).0.rows && !Step(Exec(s, es), Write(tid)).0.rows[id].IsRevoked()
  {
    var before, now := Exec(s, es[..n]), Exec(s, es);
    UpdateOnlyWhileUnrevoked(now, tid);
    var id := now.held[tid].id;
    StepKeepsStamp(now, Write(tid), id);
    assert es == es[..n] + es[n..];
    ExecSplit(s, es[..n], es[n..]);
    if id in before.rows && before.rows[id].IsRevoked() {
      RevocationIsFinal(before, es[n..], id);
      assert false;
    }
  }

  // A PATCH whose key was revoked after its SELECT is refused, however much later it writes.
  lemma RevokedMeanwhileIsRefused(s: State, es: seq<Event>, tid: nat, id: string)
    requires id in s.rows && s.rows[id].IsRevoked()
    requires tid in Exec(s, es).held && Exec(s, es).held[tid].id == id
    ensures Step(Exec(s, es), Write(tid)).1 == Refused
  {
    RevocationIsFinal(s, es, id);
  }

  // ---- The statements are those of the store ---------------------------------------------------

  // A PATCH with nothing between its two statements is the store's Update, on any row it can
  // read; a revocation and an insertion are the store's own.
  lemma StatementsAgree(c: C.Cipher, s: State, tid: nat, id: string, patch: KeyPatch, at: Time)
    requires tid !in s.held && WellFormed(s.rows) && (id in s.rows ==> Readable(c, s.rows[id]))
    ensures var (s1, first) := Step(s, Select(tid, id, patch));
            var (s2, second) := Step(s1, Write(tid));
            var (rows', r) := SqlStep(c, s.rows, Op.Update(id, patch), "");
            && s2.rows == rows' && s2.held == s.held
            && (second == Updated <==> r.One?) && (first == Refused <==> r == NotFound || r == Revoked)
    ensures Step(s, SetRevoked(id, at)).0.rows == SqlStep(c, s.rows, Op.RevokeAt(id, at), "").0
  {
    if id in s.rows {
      SameRow(s.rows, id);
      PatchColumns(c, s.rows[id], patch);
    }
    hide KeyPatch.ApplyTo, Columns, Scan;
    assert s.held - {tid} == s.held;
    if id in s.rows && !s.rows[id].IsRevoked() {
      assert s.held[tid := patch.ApplyTo(s.rows[id])] - {tid} == s.held;
    }
  }

  lemma SameRow(rows: Table, id: string)
    requires id in rows
    ensures rows[id := rows[id]] == rows
  {
  }

  // The columns a PATCH writes do not depend on the encrypted one.
  lemma PatchColumns(c: C.Cipher, row: VirtualKey, patch: KeyPatch)
    requires Readable(c, row)
    ensures Columns(row, patch.ApplyTo(row)) == Columns(row, patch.ApplyTo(Scan(c, row)))
    ensures patch.ApplyTo(row).id == row.id
  {
  }

  lemma InsertAgrees(c: C.Cipher, s: State, k: VirtualKey, nonce: string)
    requires Acceptable(k) && c.encrypt(k.upstreamKey, nonce).Some?
    ensures Step(s, Insert(k.(upstreamKey := c.encrypt(k.upstreamKey, nonce).value))).0.rows ==
            SqlStep(c, s.rows, Op.Create(k), nonce).0
  {
    hide Acceptable;
    var row := k.(upstreamKey := c.encrypt(k.upstreamKey, nonce).value);
    assert Conflicts(s.rows, row) <==> Conflicts(s.rows, k);
    assert row.(revokedAt := Option.None) == Inserted(k, row.upstreamKey);
    hide Conflicts;
  }
}
